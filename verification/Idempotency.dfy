/**
 Idempotency keys of broker orders (core/idempotency.py).

 A key is computed from the decision, its leg and an attempt counter. Two forms exist: the
 literal form carries the decision unchanged, the digest form carries "_" and a digest of it.
 The digest is a parameter: any function whose results are 32 characters long and contain no
 line break.
 */
module Idempotency {
  import opened Options

  const MAX_CLIENT_ORDER_ID_LEN := 128
  const DIGEST_LEN := 32
  const LEGS: set<string> :=
    {"entry", "stop", "trim", "displacement", "panic", "breaker", "strategy_switch"}

  datatype KeyError = EmptyDecision | UnknownLeg | NegativeAttempt | EmptyKey | EmptyApproval

  /** The shape of a truncated hexadecimal digest. */
  ghost predicate IsDigest(digest: string -> string) {
    forall v :: |digest(v)| == DIGEST_LEN && '\n' !in digest(v)
  }

  // ----- Character classes -----

  predicate IsLegChar(c: char) { 'a' <= c <= 'z' || c == '_' }

  predicate IsDigit(c: char) { '0' <= c <= '9' }

  /** Complement of the class that `_UNSAFE` replaces. */
  predicate IsSafe(c: char) {
    'A' <= c <= 'Z' || 'a' <= c <= 'z' || IsDigit(c) || c == '-'
  }

  predicate IsLine(c: char) { c != '\n' }

  // ----- Decimal numerals -----

  function DigitChar(d: nat): (c: char)
    requires d < 10
    ensures IsDigit(c)
  {
    ('0' as int + d) as char
  }

  function DigitValue(c: char): (d: nat)
    requires IsDigit(c)
    ensures d < 10
  {
    c as int - '0' as int
  }

  function Decimal(n: nat): (s: string)
    ensures |s| > 0 && forall c | c in s :: IsDigit(c)
  {
    if n < 10 then [DigitChar(n)] else Decimal(n / 10) + [DigitChar(n % 10)]
  }

  function Value(s: string): nat
    requires forall c | c in s :: IsDigit(c)
  {
    if s == [] then 0
    else Value(s[..|s| - 1]) * 10 + DigitValue(s[|s| - 1])
  }

  lemma {:induction false} ValueOfDecimal(n: nat)
    ensures Value(Decimal(n)) == n
  {
    if n >= 10 {
      ValueOfDecimal(n / 10);
      var s := Decimal(n);
      assert s[..|s| - 1] == Decimal(n / 10);
    } else {
      assert Decimal(n)[..0] == [];
    }
  }

  lemma {:induction false} DecimalGrows(n: nat)
    ensures |Decimal(n)| <= |Decimal(n + 1)| <= |Decimal(n)| + 1
  {
    if n >= 10 && n % 10 == 9 {
      DecimalGrows(n / 10);
    }
  }

  // ----- Printing -----

  function Prefix(leg: string, attempt: nat): string {
    leg + "-" + Decimal(attempt) + "-"
  }

  function Sanitized(decision: string): string {
    seq(|decision|, i requires 0 <= i < |decision| => if IsSafe(decision[i]) then decision[i] else '-')
  }

  /** The decision fits into the key unchanged and complete. */
  predicate IsLiteral(decision: string, leg: string, attempt: nat) {
    Sanitized(decision) == decision && |Prefix(leg, attempt)| + |decision| <= MAX_CLIENT_ORDER_ID_LEN
  }

  function Body(digest: string -> string, decision: string, leg: string, attempt: nat): string {
    if IsLiteral(decision, leg, attempt) then Sanitized(decision) else "_" + digest(decision)
  }

  function Key(digest: string -> string, decision: string, leg: string, attempt: nat): string {
    Prefix(leg, attempt) + Body(digest, decision, leg, attempt)
  }

  /** `derive_client_order_id`, with its three ValueErrors. */
  function DeriveClientOrderId(digest: string -> string, decision: string, leg: string, attempt: int)
    : Result<string, KeyError>
  {
    if decision == "" then Err(EmptyDecision)
    else if leg !in LEGS then Err(UnknownLeg)
    else if attempt < 0 then Err(NegativeAttempt)
    else Ok(Key(digest, decision, leg, attempt))
  }

  // ----- Parsing -----

  /** Length of the longest prefix whose characters satisfy p. */
  function Span(s: string, p: char -> bool): (n: nat)
    ensures n <= |s|
    ensures forall i | 0 <= i < n :: p(s[i])
    ensures n < |s| ==> !p(s[n])
  {
    if s == [] || !p(s[0]) then 0 else 1 + Span(s[1..], p)
  }

  datatype Structured = NoMatch | Match(leg: string, attempt: nat, rest: string)

  /** `.+` followed by `$`: one line, where a single final line break is not part of it. */
  function Line(s: string): Option<string> {
    var k := Span(s, IsLine);
    if k == 0 then None
    else if k == |s| || k == |s| - 1 then Some(s[..k])
    else None
  }

  /** `\d+-.+$`: the attempt and what follows it. */
  function ParseTail(tail: string): Option<(nat, string)> {
    var j := Span(tail, IsDigit);
    if j == 0 || j == |tail| || tail[j] != '-' then None
    else
      var rest := Line(tail[j + 1..]);
      if rest.None? then None else Some((Value(tail[..j]), rest.value))
  }

  /** The pattern `^[a-z_]+-\d+-.+$`. Neither class contains "-", so the split is unique. */
  function Parse(key: string): Structured {
    var i := Span(key, IsLegChar);
    if i == 0 || i == |key| || key[i] != '-' then NoMatch
    else
      var tail := ParseTail(key[i + 1..]);
      if tail.None? then NoMatch else Match(key[..i], tail.value.0, tail.value.1)
  }

  function DecisionIdOf(key: string): Option<string> {
    match Parse(key)
    case NoMatch => None
    case Match(leg, _, rest) =>
      if leg !in LEGS then None
      else if rest[..1] == "_" && |rest| == 1 + DIGEST_LEN then None
      else Some(rest)
  }

  function Truncated(s: string): string {
    if |s| <= MAX_CLIENT_ORDER_ID_LEN then s else s[..MAX_CLIENT_ORDER_ID_LEN]
  }

  function NextAttempt(digest: string -> string, key: string): Result<string, KeyError> {
    if key == "" then Err(EmptyKey)
    else
      var m := Parse(key);
      if m.Match? && m.leg in LEGS then Ok(Truncated(Prefix(m.leg, m.attempt + 1) + m.rest))
      else Ok("retry-1-_" + digest(key))
  }

  function DeriveApprovalClientOrderId(approval: string): Result<string, KeyError> {
    if approval == "" then Err(EmptyApproval) else Ok(Truncated("hitl-" + approval))
  }

  // ----- The parser inverts the printer -----

  lemma {:induction false} SpanOfPrefix(s: string, t: string, p: char -> bool)
    requires forall c | c in s :: p(c)
    requires t == [] || !p(t[0])
    ensures Span(s + t, p) == |s|
  {
    if s == [] {
      assert s + t == t;
    } else {
      assert (s + t)[1..] == s[1..] + t;
      SpanOfPrefix(s[1..], t, p);
    }
  }

  lemma LegsAreLegChars(leg: string)
    requires leg in LEGS
    ensures leg != "" && |leg| <= 15 && forall c | c in leg :: IsLegChar(c)
  {
  }

  /** The leg of a key is what stands before its first "-". */
  lemma ParseHead(leg: string, tail: string)
    requires leg != "" && forall c | c in leg :: IsLegChar(c)
    ensures Span(leg + "-" + tail, IsLegChar) == |leg|
    ensures Parse(leg + "-" + tail).Match? ==> Parse(leg + "-" + tail).leg == leg
  {
    var key := leg + "-" + tail;
    assert key == leg + ("-" + tail);
    SpanOfPrefix(leg, "-" + tail, IsLegChar);
    assert key[..|leg|] == leg;
  }

  lemma WholeLine(body: string)
    requires body != "" && '\n' !in body
    ensures Line(body) == Some(body)
  {
    SpanOfPrefix(body, "", IsLine);
    assert body + "" == body && body[..|body|] == body;
  }

  lemma ParseTailOfPrinted(attempt: nat, body: string)
    requires body != "" && '\n' !in body
    ensures ParseTail(Decimal(attempt) + "-" + body) == Some((attempt, body))
  {
    var digits := Decimal(attempt);
    var tail := digits + "-" + body;
    assert tail == digits + ("-" + body);
    SpanOfPrefix(digits, "-" + body, IsDigit);
    assert tail[|digits| + 1..] == body && tail[..|digits|] == digits;
    WholeLine(body);
    ValueOfDecimal(attempt);
  }

  lemma KeyParts(leg: string, digits: string, body: string)
    ensures var key, tail := (leg + "-" + digits + "-") + body, digits + "-" + body;
            && key == leg + "-" + tail
            && key[|leg|] == '-' && key[..|leg|] == leg && key[|leg| + 1..] == tail
  {
  }

  lemma ParseOfPrinted(leg: string, attempt: nat, body: string)
    requires leg != "" && forall c | c in leg :: IsLegChar(c)
    requires body != "" && '\n' !in body
    ensures Parse(Prefix(leg, attempt) + body) == Match(leg, attempt, body)
  {
    var digits := Decimal(attempt);
    var tail := digits + "-" + body;
    KeyParts(leg, digits, body);
    ParseHead(leg, tail);
    ParseTailOfPrinted(attempt, body);
  }

  lemma SafeIsSanitized(decision: string)
    ensures Sanitized(decision) == decision <==> forall c | c in decision :: IsSafe(c)
  {
    if Sanitized(decision) == decision {
      forall c | c in decision ensures IsSafe(c) {
        var i :| 0 <= i < |decision| && decision[i] == c;
        assert Sanitized(decision)[i] == c;
      }
    }
  }

  lemma ParseOfKey(digest: string -> string, decision: string, leg: string, attempt: nat)
    requires IsDigest(digest) && decision != "" && leg in LEGS
    ensures Parse(Key(digest, decision, leg, attempt)) == Match(leg, attempt, Body(digest, decision, leg, attempt))
  {
    LegsAreLegChars(leg);
    SafeIsSanitized(decision);
    var body := Body(digest, decision, leg, attempt);
    assert '\n' !in body by {
      assert "_"[0] == '_';
      assert |digest(decision)| == DIGEST_LEN;
    }
    ParseOfPrinted(leg, attempt, body);
  }

  /** A body starts with "_" exactly in the digest form. */
  lemma BodyForm(digest: string -> string, decision: string, leg: string, attempt: nat)
    requires IsDigest(digest) && decision != ""
    ensures var body := Body(digest, decision, leg, attempt);
            body != "" && (IsLiteral(decision, leg, attempt) <==> body[0] != '_')
  {
    SafeIsSanitized(decision);
    assert decision[0] in decision;
  }

  // ----- Main results -----

  /** A decision that goes into a key as it is: letters, digits and hyphens, and short enough for the broker. */
  predicate FitsAsItIs(decision: string, leg: string, attempt: nat) {
    && (forall c | c in decision :: 'A' <= c <= 'Z' || 'a' <= c <= 'z' || '0' <= c <= '9' || c == '-')
    && |leg| + 1 + |Decimal(attempt)| + 1 + |decision| <= 128
  }

  /**
   A key is derived exactly from a decision, one of the seven legs and a number of attempts; it is leg,
   attempt and decision joined by hyphens, with the decision's digest behind "_" if it does not fit.
   */
  lemma DerivedExactly(digest: string -> string, decision: string, leg: string, attempt: int)
    ensures var derived := DeriveClientOrderId(digest, decision, leg, attempt);
            && (derived == Err(EmptyDecision) <==> decision == "")
            && (derived.Ok? <==>
                  && decision != "" && attempt >= 0
                  && leg in {"entry", "stop", "trim", "displacement", "panic", "breaker", "strategy_switch"})
            && (derived.Ok? ==>
                  derived.value == leg + "-" + Decimal(attempt) + "-" +
                                   (if FitsAsItIs(decision, leg, attempt) then decision else "_" + digest(decision)))
  {
    SafeIsSanitized(decision);
    if attempt >= 0 {
      assert |Prefix(leg, attempt)| == |leg| + 1 + |Decimal(attempt)| + 1;
    }
  }

  /**
   Two derived keys coincide only for the same leg, attempt and decision, except that two
   decisions in the digest form share a key when the digest itself collides on them.
   */
  lemma KeysCoincideExactly(digest: string -> string, d: string, l: string, n: int, d': string, l': string, n': int)
    requires IsDigest(digest)
    ensures var a, b := DeriveClientOrderId(digest, d, l, n), DeriveClientOrderId(digest, d', l', n');
            a.Ok? && b.Ok? ==>
              (a == b <==>
                && l == l'
                && n == n'
                && (d == d' || (!IsLiteral(d, l, n) && !IsLiteral(d', l, n) && digest(d) == digest(d'))))
  {
    if DeriveClientOrderId(digest, d, l, n).Ok? && DeriveClientOrderId(digest, d', l', n').Ok? {
      ParseOfKey(digest, d, l, n);
      ParseOfKey(digest, d', l', n');
      BodyForm(digest, d, l, n);
      BodyForm(digest, d', l', n');
      var b, b' := Body(digest, d, l, n), Body(digest, d', l', n');
      if b == b' && !IsLiteral(d, l, n) {
        assert b[1..] == digest(d) && b'[1..] == digest(d');
      }
    }
  }

  /** The decision is read back from the literal form, and from the digest form nothing is. */
  lemma DecisionReadBack(digest: string -> string, decision: string, leg: string, attempt: int)
    requires IsDigest(digest)
    ensures var derived := DeriveClientOrderId(digest, decision, leg, attempt);
            derived.Ok? ==>
              DecisionIdOf(derived.value) == if IsLiteral(decision, leg, attempt) then Some(decision) else None
  {
    if DeriveClientOrderId(digest, decision, leg, attempt).Ok? {
      ParseOfKey(digest, decision, leg, attempt);
      BodyForm(digest, decision, leg, attempt);
      var body := Body(digest, decision, leg, attempt);
      assert body[..1] == [body[0]];
    }
  }

  lemma NextAttemptOfKey(digest: string -> string, decision: string, leg: string, attempt: nat)
    requires IsDigest(digest) && decision != "" && leg in LEGS
    ensures NextAttempt(digest, Key(digest, decision, leg, attempt)) ==
            Ok(Truncated(Prefix(leg, attempt + 1) + Body(digest, decision, leg, attempt)))
  {
    ParseOfKey(digest, decision, leg, attempt);
  }

  /** A literal body never equals, even truncated, the digest body behind the same prefix. */
  lemma LostFormDiffers(p: string, body: string, body': string)
    requires body != "" && body' != "" && body[0] != body'[0]
    ensures Truncated(p + body) != p + body'
  {
    var t := Truncated(p + body);
    if |p| < MAX_CLIENT_ORDER_ID_LEN {
      assert t[|p|] == body[0] && (p + body')[|p|] == body'[0];
    }
  }

  /**
   `next_attempt` of a derived key is the derived key of the next attempt if and only if both
   attempts use the same form and the next key is not longer than the broker accepts.
   */
  lemma NextAttemptExact(digest: string -> string, decision: string, leg: string, attempt: nat)
    requires IsDigest(digest) && decision != "" && leg in LEGS
    ensures NextAttempt(digest, Key(digest, decision, leg, attempt)) ==
            Ok(Key(digest, decision, leg, attempt + 1)) <==>
            && IsLiteral(decision, leg, attempt) == IsLiteral(decision, leg, attempt + 1)
            && |Key(digest, decision, leg, attempt + 1)| <= MAX_CLIENT_ORDER_ID_LEN
  {
    NextAttemptOfKey(digest, decision, leg, attempt);
    if IsLiteral(decision, leg, attempt) != IsLiteral(decision, leg, attempt + 1) {
      BodyForm(digest, decision, leg, attempt);
      BodyForm(digest, decision, leg, attempt + 1);
      LostFormDiffers(Prefix(leg, attempt + 1), Body(digest, decision, leg, attempt), Body(digest, decision, leg, attempt + 1));
    }
  }

  function Repeated<T>(f: T -> T, x: T, k: nat): T {
    if k == 0 then x else f(Repeated(f, x, k - 1))
  }

  function Retry(digest: string -> string): string -> string {
    (key: string) =>
      match NextAttempt(digest, key)
      case Ok(next) => next
      case Err(_) => key
  }

  /** k successive retries of one order. */
  function Retried(digest: string -> string, key: string, k: nat): string {
    Repeated(Retry(digest), key, k)
  }

  lemma {:induction false} PrefixGrows(leg: string, m: nat, n: nat)
    requires m <= n
    ensures |Prefix(leg, m)| <= |Prefix(leg, n)|
    decreases n - m
  {
    if m < n {
      PrefixGrows(leg, m, n - 1);
      DecimalGrows(n - 1);
    }
  }

  ghost predicate IsNext<T>(f: T -> T, xs: nat -> T, m: nat) {
    f(xs(m)) == xs(m + 1)
  }

  lemma {:induction false} RepeatedAlong<T>(f: T -> T, xs: nat -> T, k: nat)
    requires forall m: nat | m < k :: IsNext(f, xs, m)
    ensures Repeated(f, xs(0), k) == xs(k)
  {
    if k > 0 {
      RepeatedAlong(f, xs, k - 1);
      assert IsNext(f, xs, k - 1);
    }
  }

  lemma RetryStep(digest: string -> string, decision: string, leg: string, attempt: nat)
    requires IsDigest(digest) && decision != "" && leg in LEGS
    requires IsLiteral(decision, leg, attempt) == IsLiteral(decision, leg, attempt + 1)
    requires |Key(digest, decision, leg, attempt + 1)| <= MAX_CLIENT_ORDER_ID_LEN
    ensures NextAttempt(digest, Key(digest, decision, leg, attempt)) == Ok(Key(digest, decision, leg, attempt + 1))
  {
    NextAttemptExact(digest, decision, leg, attempt);
  }

  lemma FormsBetween(digest: string -> string, decision: string, leg: string, m: nat, i: nat, n: nat)
    requires m <= i <= n && IsLiteral(decision, leg, m) == IsLiteral(decision, leg, n)
    requires |Key(digest, decision, leg, n)| <= MAX_CLIENT_ORDER_ID_LEN
    ensures IsLiteral(decision, leg, i) == IsLiteral(decision, leg, n)
    ensures |Key(digest, decision, leg, i)| <= MAX_CLIENT_ORDER_ID_LEN
  {
    PrefixGrows(leg, m, i);
    PrefixGrows(leg, i, n);
  }

  function KeysFrom(digest: string -> string, decision: string, leg: string, attempt: nat): nat -> string {
    (m: nat) => Key(digest, decision, leg, attempt + m)
  }

  lemma StepBetween(digest: string -> string, decision: string, leg: string, attempt: nat, m: nat, k: nat)
    requires IsDigest(digest) && decision != "" && leg in LEGS && m < k
    requires IsLiteral(decision, leg, attempt) == IsLiteral(decision, leg, attempt + k)
    requires |Key(digest, decision, leg, attempt + k)| <= MAX_CLIENT_ORDER_ID_LEN
    ensures IsNext(Retry(digest), KeysFrom(digest, decision, leg, attempt), m)
  {
    FormsBetween(digest, decision, leg, attempt, attempt + m, attempt + k);
    FormsBetween(digest, decision, leg, attempt, attempt + m + 1, attempt + k);
    RetryStep(digest, decision, leg, attempt + m);
  }

  lemma AllNextBetween(digest: string -> string, decision: string, leg: string, attempt: nat, k: nat)
    requires IsDigest(digest) && decision != "" && leg in LEGS
    requires IsLiteral(decision, leg, attempt) == IsLiteral(decision, leg, attempt + k)
    requires |Key(digest, decision, leg, attempt + k)| <= MAX_CLIENT_ORDER_ID_LEN
    ensures forall m: nat | m < k :: IsNext(Retry(digest), KeysFrom(digest, decision, leg, attempt), m)
  {
    forall m: nat | m < k ensures IsNext(Retry(digest), KeysFrom(digest, decision, leg, attempt), m) {
      StepBetween(digest, decision, leg, attempt, m, k);
    }
  }

  /**
   Any number of retries stays in step with the derivation as long as the last key is within
   the broker's length and its form is that of the first one.
   */
  lemma RetriesFollowDerivation(digest: string -> string, decision: string, leg: string, attempt: nat, k: nat)
    requires IsDigest(digest) && decision != "" && leg in LEGS
    requires IsLiteral(decision, leg, attempt) == IsLiteral(decision, leg, attempt + k)
    requires |Key(digest, decision, leg, attempt + k)| <= MAX_CLIENT_ORDER_ID_LEN
    ensures Retried(digest, Key(digest, decision, leg, attempt), k) == Key(digest, decision, leg, attempt + k)
  {
    var keys := KeysFrom(digest, decision, leg, attempt);
    AllNextBetween(digest, decision, leg, attempt, k);
    RepeatedAlong(Retry(digest), keys, k);
    calc {
      Retried(digest, Key(digest, decision, leg, attempt), k);
    == { assert keys(0) == Key(digest, decision, leg, attempt); }
      Repeated(Retry(digest), keys(0), k);
    ==
      keys(k);
    }
  }

  /**
   What happens outside that condition: when the attempt number gains a digit on a literal key
   of full length, the retry key is the key of another decision, the original one without its
   last character, and that decision is what is read back from it.
   */
  lemma DigitCarryNamesAnotherDecision(digest: string -> string, decision: string, leg: string, attempt: nat)
    requires IsDigest(digest) && |decision| >= 2 && leg in LEGS
    requires IsLiteral(decision, leg, attempt) && !IsLiteral(decision, leg, attempt + 1)
    ensures var shorter := decision[..|decision| - 1];
            && NextAttempt(digest, Key(digest, decision, leg, attempt)) ==
               Ok(Key(digest, shorter, leg, attempt + 1))
            && DecisionIdOf(Key(digest, shorter, leg, attempt + 1)) == Some(shorter)
  {
    var shorter := decision[..|decision| - 1];
    NextAttemptOfKey(digest, decision, leg, attempt);
    DecimalGrows(attempt);
    SafeIsSanitized(decision);
    SafeIsSanitized(shorter);
    var p := Prefix(leg, attempt + 1);
    assert |p| + |decision| == MAX_CLIENT_ORDER_ID_LEN + 1;
    assert (p + decision)[..MAX_CLIENT_ORDER_ID_LEN] == p + shorter;
    DecisionReadBack(digest, shorter, leg, attempt + 1);
  }

  /** Keys of approvals and of retried foreign keys never meet the derived keys. */
  lemma OtherKeysAreDisjoint(digest: string -> string, approval: string, foreign: string, d: string, l: string, n: nat)
    requires IsDigest(digest) && approval != "" && d != "" && l in LEGS
    requires foreign != "" && (Parse(foreign).NoMatch? || Parse(foreign).leg !in LEGS)
    ensures DeriveApprovalClientOrderId(approval) != Ok(Key(digest, d, l, n))
    ensures NextAttempt(digest, foreign) != Ok(Key(digest, d, l, n))
    ensures DecisionIdOf(Truncated("hitl-" + approval)) == None
  {
    var a := Truncated("hitl-" + approval);
    ForeignStart("hitl", a);
    ForeignIsNotDerived("hitl", a, digest, d, l, n);
    ForeignIsNotDerived("retry", "retry-1-_" + digest(foreign), digest, d, l, n);
  }

  /**
   An approval's key is the text "hitl-" and the approval, cut to what the broker takes; the next attempt of
   a key that is not of the structured form is the first retry, with the digest of that key.
   */
  lemma OtherKeysExactly(digest: string -> string, approval: string, foreign: string)
    requires foreign != "" && (Parse(foreign).NoMatch? || Parse(foreign).leg !in LEGS)
    ensures var derived, text := DeriveApprovalClientOrderId(approval), "hitl-" + approval;
            && (derived.Ok? <==> approval != "")
            && (derived.Ok? ==> derived.value <= text && |derived.value| == if |text| < 128 then |text| else 128)
    ensures NextAttempt(digest, foreign) == Ok("retry-1-_" + digest(foreign))
  {
  }

  lemma ForeignIsNotDerived(head: string, key: string, digest: string -> string, d: string, l: string, n: nat)
    requires (head == "hitl" || head == "retry") && head + "-" <= key
    requires IsDigest(digest) && d != "" && l in LEGS
    ensures key != Key(digest, d, l, n)
  {
    ForeignStart(head, key);
    ParseOfKey(digest, d, l, n);
  }

  lemma ForeignStart(head: string, key: string)
    requires (head == "hitl" || head == "retry") && head + "-" <= key
    ensures DecisionIdOf(key) == None
    ensures Parse(key).Match? ==> Parse(key).leg !in LEGS
  {
    assert key == head + "-" + key[|head| + 1..];
    ForeignHead(head, key[|head| + 1..]);
  }

  lemma ForeignHead(head: string, tail: string)
    requires head == "hitl" || head == "retry"
    ensures DecisionIdOf(head + "-" + tail) == None
    ensures Parse(head + "-" + tail).Match? ==> Parse(head + "-" + tail).leg !in LEGS
  {
    assert forall c | c in "hitl" :: IsLegChar(c);
    assert forall c | c in "retry" :: IsLegChar(c);
    ParseHead(head, tail);
    assert head !in LEGS by { assert |"hitl"| == 4 && |"retry"| == 5; assert "retry"[0] == 'r' && "hitl"[0] == 'h'; }
  }

  /** Two approvals share a key exactly when their first 123 characters agree. */
  lemma ApprovalKeysCoincideExactly(a: string, b: string)
    requires a != "" && b != ""
    ensures DeriveApprovalClientOrderId(a) == DeriveApprovalClientOrderId(b) <==>
            (a == b || (|a| >= 123 && |b| >= 123 && a[..123] == b[..123]))
  {
    var ka, kb := Truncated("hitl-" + a), Truncated("hitl-" + b);
    assert ka[5..] == (if |a| <= 123 then a else a[..123]);
    assert |a| == 123 ==> a[..123] == a;
    assert |b| == 123 ==> b[..123] == b;
    assert kb[5..] == (if |b| <= 123 then b else b[..123]);
    assert ka == "hitl-" + ka[5..] && kb == "hitl-" + kb[5..];
  }
}
