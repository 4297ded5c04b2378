# Verified model of the trading engine's protocols

This project models the protocol and planner modules under `core/` of the trading engine and proves
what they promise. `dafny verify dfyconfig.toml` checks everything.

Code that changes state step by step is a class whose methods are proved against specification
functions (the audit scan, the stop planner, the approval queue and gate, the lease, the compliance
guardian, the exit analysis, the price cache, the kill switch, the in-memory store). What the source
promises over whole runs is proved about those functions: a run is a sequence of events, a crash is
a call of which only the first writes reach the store, and interleaved processes are separate events
per store operation. SHA-256, JSON reading and file-name matching are parameters, so every theorem
holds for any of them; time is a parameter of every call.

| file | subject |
|---|---|
| `Idempotency.dfy` | client order ids: printer, parser, successor |
| `AuditChain.dfy`, `NonceScan.dfy`, `ScanMeaning.dfy` | the audit chain, the sealed nonce scan, and what it returns line by line |
| `BrokerStops.dfy`, `StopReconciliation.dfy`, `StopProtection.dfy`, `StopCoverage.dfy` | the broker stop planner, its fixed point, who is protected, and its coverage |
| `TtlMap.dfy`, `LocalState.dfy`, `StoreMeaning.dfy` | a map with deadlines, the lazily evicting client that implements it, and its values call by call |
| `HitlQueue.dfy`, `HitlIndex.dfy`, `HitlExclusivity.dfy`, `HitlDurability.dfy`, `HitlLifecycle.dfy` | the approval queue, write by write, and the way of one order through it |
| `HitlGate.dfy`, `GateLimits.dfy` | the approval gate and its daily budget, and what it lets through |
| `LeaseStore.dfy`, `LeaseProtocol.dfy`, `LeaseClient.dfy`, `LeaseLiveness.dfy` | the engine lease as rows, as a protocol, as objects, and who gets it when |
| `OrderGates.dfy`, `GateHistory.dfy`, `BuyPacing.dfy`, `DailyTrades.dfy`, `ComplianceGuardian.dfy` | the compliance gates, what they let through, and the daily trade budget |
| `IntelligentExit.dfy`, `ExitMeaning.dfy` | exit scoring, and when it sells |
| `DataCache.dfy`, `CacheMeaning.dfy` | the bounded price cache, and how long a write stays in it |
| `KillSwitch.dfy`, `KillSwitchHalts.dfy` | the kill switch, and whom it halts |

## Where the code does less than it says

Each of these is a lemma with the input that shows it, beside the exact condition under which the
promise holds.

- A retry key whose attempt number gains a digit at full length names another decision
  (`DigitCarryNamesAnotherDecision`); `NextAttemptExact` says when the successor is right.
- A last line that is a bare nonce record (no hash, no line break, its nonce on no earlier line) when
  a seal is written, and is torn by a later append, stays in the sealed scan and leaves the full
  rescan (`TornNonceIsKept`, with the input in `TornNonceHappens`);
  `SealAgreesExactlyWhenTailIsSafe` is the exact condition. The chain's writer never produces such a
  record. The docstring promises an empty set on any JSON error, but a line of valid JSON that is not
  an object raises.
- A day stop of an earlier session that is still listed is discounted only in the first cycle of the
  day. If the leg's new placement does not land, every later cycle of that day silently takes the
  expired stop for cover (`UnlandedRenewalIsForgotten`, `FractionRenewedExactlyInNewSession`).
- Two own day stops on one fraction satisfy the broker's binding, are both kept, and together with
  the whole-share stop bind more shares than are held (`TwinStopsOversell`; `CoverageAfterPlan` says
  exactly when).
- A stop on a symbol such as `BRK.B` is not recognised as the planner's own and is cancelled while it
  protects whole shares (`WholeStopKeptExactlyWhenOwn`).
- With the in-memory store, or without a store, an order value that is not a number passes every
  limit, even with both limits 0 (`AllManualLeaksExactlyNaN`), and with the in-memory store it
  switches the day limit off for the rest of the day (`NaNDisablesDayLimit`). A store that refuses
  such an increment, as Redis does, holds the order.
- An approval cut off between its two writes can be claimed twice (`TornApprovalIsClaimedTwice`); no
  other cut makes an id pending and approved at once (`UndecidedExactly`). A push cut off between its
  last two writes is invisible to `has_pending` (`TornPushIsNotIndexed`); no other cut makes the index
  incomplete (`StepKeepsIndex`). A colon in a user id or symbol merges two index entries
  (`NamesCoincideExactly`).
- Two machines with one host name and one store break each other's live lease
  (`SharedHostNameBreaksTheLiving`).
- The engine refunds a refused exit that was never charged, so more orders than the cap can be in
  force (`StrayRefundOverrunsCap`; `OrdersInForceExactly` says by how many); a refund after midnight
  makes a restart forget a trade (`MidnightRefundLosesATrade`).
- Loss pressure is documented to grow with the loss; at the shipped tiers it drops from 45 to 40 at
  the watch tier (`ShippedTiersDip`, `DepthMonotoneExactly`). With other tiers the settings registry
  permits, a position at -4.9% is cut after a day while the same position at -5.5% is held
  (`DeeperLossIsHeld`); `LossSellsExactly` and `LinearBandCanSellExactly` say when.
- The cache is called LRU, but a read does not refresh an entry: it evicts in the order of writing
  (`CacheIsNewestOfLatest`).
- A halt can lose its record in three ways: a trip whose record write fails, a trip that starts
  between the two deletes of a reset, and a reset whose first delete lands between the two writes of a
  trip (`OverlappingResetStripsTheRecord`). Nothing else can (`LostRecordHasACause`), and each of the
  three can (`EveryBreachCanStrip`). A halt write that failed is never repeated
  (`FailedHaltIsNeverRetried`).

## Model

| member | source | states |
|---|---|---|
| Idempotency.ParseOfKey | core/idempotency.py:86-99 | the structured pattern reads leg, attempt and body back from every derived key, of either form |
| Idempotency.DerivedExactly | core/idempotency.py:54-95 | a key is derived exactly from a decision, one of the seven legs and a number of attempts, and is these three joined by hyphens, with the digest for a decision that is too long or not in the literal alphabet |
| Idempotency.KeysCoincideExactly | core/idempotency.py:54-95 | of any two inputs that derive a key, the keys are equal exactly when leg and attempt agree and the decisions agree, or both are in digest form with colliding digests |
| Idempotency.DecisionReadBack | core/idempotency.py:125-145 | from any derived key reading the decision back yields the original one in the literal form and None in the digest form, never another decision |
| Idempotency.NextAttemptExact | core/idempotency.py:148-170 | the next attempt of a derived key is the derivation of the next attempt exactly when the form does not change and the key fits the broker's length |
| Idempotency.RetriesFollowDerivation | core/idempotency.py:148-170 | any number of retries stays in step with the derivation while form and length allow |
| Idempotency.DigitCarryNamesAnotherDecision | core/idempotency.py:160-170 | outside that condition the retry key is the key of the decision without its last character, and that decision is read back from it |
| Idempotency.OtherKeysExactly | core/idempotency.py:148-184 | an approval's key is `hitl-` and the approval, cut at 128 characters; the retry of an unstructured key is the first retry with its digest |
| Idempotency.OtherKeysAreDisjoint | core/idempotency.py:148-184 | approval keys and retries of foreign keys never equal a derived key, and no decision is read from an approval key |
| Idempotency.ApprovalKeysCoincideExactly | core/idempotency.py:173-184 | two approvals share a key exactly when they are equal or agree on their first 123 characters |
| AuditChain.ReadOnBehind | core/hitl_gate.py:497-512 | seeking behind the k-th line of the chain and reading on delivers exactly the later lines, with their files, offsets and numbers |
| AuditChain.AppendGrows | core/hitl_gate.py:507-512 | appending bytes to the last file keeps every complete line, and a torn last line can only be extended |
| AuditChain.CreateGrows | core/hitl_gate.py:497-512 | a new later-named file adds lines behind all earlier ones |
| NonceScan.AcceptedSealIsExact | core/hitl_gate.py:443-478 | with an accepted sound seal the scan's outcome is that of a full scan, and it reads only the lines behind the anchor |
| NonceScan.WrittenSealIsSound | core/hitl_gate.py:521-547 | the seal a full pass writes speaks for the chain, unless the last line is open and carries a nonce that has no hash and stands on no earlier line |
| NonceScan.InvIsKept | core/hitl_gate.py:422-557 | every append, new file, lost, damaged or restored seal, every failed scan and every scan that writes no seal or finds a safe last line keeps all seals ever written sound |
| NonceScan.EveryScanIsAFullScan | core/hitl_gate.py:422-557 | over every run in which seals are written on safe last lines, each scan returns what a full rescan returns, raises when it raises and writes the seal it would write |
| NonceScan.TornNonceIsKept | core/hitl_gate.py:514-545 | on any other last line that a later append spoils, the sealed scan keeps a nonce that a full rescan no longer finds |
| NonceScan.SealAgreesExactlyWhenTailIsSafe | core/hitl_gate.py:514-547 | where appending can spoil an open record, the seal a full scan writes agrees with a full rescan after every append if and only if the last line was safe |
| NonceScan.TornNonceHappens | core/hitl_gate.py:514-545 | the concrete chain, reader and append that meet all conditions of that disagreement |
| NonceScan.FailedScanInventsNothing | core/hitl_gate.py:549-557 | in every run a scan that the operating system cuts short returns nonces of the chain only and leaves the seal as it was |
| ScanMeaning.ChainLinesAreItsFiles | core/hitl_gate.py:497-512 | the lines read from a file are its bytes, whole and in order, numbered from one, all but the last terminated |
| ScanMeaning.ScanReturnsExactlyTheNonces | core/hitl_gate.py:514-529 | in every run a scan raises exactly when some line is valid JSON but no object, and otherwise returns a nonce exactly when some record on the chain carries it |
| ScanMeaning.SealWrittenExactly | core/hitl_gate.py:531-547 | a scan that does not raise writes a seal exactly when the last hash on the chain is a real one |
| ScanMeaning.WrittenSealIsUsed | core/hitl_gate.py:456-499 | the next scan, after any appends and new files, accepts a seal whose anchor line can no longer change, and reads exactly the lines behind the anchor |
| NonceScan.EarlierFilesAreNotRead | core/hitl_gate.py:497-499 | with an accepted seal the content of files sorting before the sealed one has no influence |
| NonceScan.AuditDirectory.CollectLiveEnablementNonces | core/hitl_gate.py:422-557 | the loops over files and lines return the nonces of the sealed scan, leave its seal and read exactly the pending lines |
| NonceScan.AuditDirectory.ScanFile | core/hitl_gate.py:501-529 | reading one file line by line folds its lines into the nonces seen and the newest anchor, or raises |
| BrokerStops.StopPriceIsNearThreshold | core/broker_stops.py:124-126 | the stop price is a whole number of cents within half a cent of the entry price less the percentage, whatever the sign of the setting |
| BrokerStops.PlanBrokerStops | core/broker_stops.py:182-290 | the two loops return the plan that places what is wanted and not covered and cancels what is listed and not wanted |
| BrokerStops.CollectWanted | core/broker_stops.py:216-261 | the loop over positions collects wanted legs, missing ones, held symbols and unprotected positions |
| BrokerStops.PlaceMissing | core/broker_stops.py:259-261 | of the wanted legs exactly those no counting stop matches are placed, in order |
| BrokerStops.CancelObsolete | core/broker_stops.py:269-284 | exactly the identified stops without a position, or beside wanted legs that none of them matches, are cancelled, in order |
| StopProtection.QuantityIsPlannedExactly | core/broker_stops.py:216-252 | a quantity is given stops exactly with an entry price, a thousandth of a share and a threshold above half a cent; otherwise the first of these that is missing is reported, and never a fourth reason |
| StopProtection.HoldingIsWantedExactly | core/broker_stops.py:216-261 | a holding is given stops if and only if it has a name, an entry price, enough shares of its own and a price above zero |
| StopProtection.UnprotectedExactly | core/broker_stops.py:216-252 | the plan reports exactly the positions that cannot be given a stop, each with what it lacks |
| StopProtection.ProtectedQtyExactly | core/broker_stops.py:96-121 | without an available quantity the whole position counts, otherwise what is available plus the own stops, never more than is held |
| StopProtection.OwnKeyExactly | core/broker_stops.py:82-93 | a stop is the planner's own exactly when its key is `stop-`, at least one digit, `-stop-` and anything |
| StopProtection.NearStopIsKept | core/broker_stops.py:167-179 | a listed stop of the leg's symbol and kind within the two tolerances is neither cancelled nor placed again |
| StopProtection.WholeKeyOutlivesSessions | core/broker_stops.py:129-139 | the stop on whole shares has the same key in every session |
| StopProtection.DayKeyNamesItsSession | core/broker_stops.py:129-139 | the stop on the rest of a share has another key each session, unless the digest collides |
| StopReconciliation.AppliedIsReconciled | core/broker_stops.py:258-284 | after the plan is carried out every wanted leg is covered and no listed stop is obsolete |
| StopReconciliation.OneStepConverges | core/broker_stops.py:182-290 | with own stops, one session and the broker's binding of shares, planning again after the plan was carried out places nothing and cancels nothing |
| StopReconciliation.MatchingStopIsKept | core/broker_stops.py:266-284 | a listed stop that matches a wanted leg is never cancelled |
| StopReconciliation.OwnExactlyWhenLiteral | core/broker_stops.py:82-93 | a placed stop is recognised as the planner's own exactly when its decision has the literal key form |
| StopReconciliation.FractionRenewedExactlyInNewSession | core/broker_stops.py:210-214 | beside a matching listed day stop the fraction is placed again if and only if the session is new, and the listed stop is cancelled in neither case |
| StopReconciliation.UnlandedRenewalIsForgotten | core/engine/schleifen_stops.py:136-144 | if that first placement does not land, the next plans of the day neither place the leg nor cancel the expired stop nor report the position |
| StopReconciliation.WholeStopKeptExactlyWhenOwn | core/broker_stops.py:96-121 | the whole-share stop of a mixed position is kept if and only if its key is recognised |
| StopCoverage.CoverageAfterPlan | core/broker_stops.py:216-284 | after the plan the stops of every protectable holding bind no more than its quantity, up to the tolerance per leg, if and only if no leg was matched twice; then every leg has exactly one stop and less than the broker's minimum stays uncovered |
| StopCoverage.ProtectableIsStopped | core/broker_stops.py:216-284 | after the plan every protectable holding has a GTC stop on its whole shares and a day stop on the rest, at the threshold to the cent, and no other stop |
| StopCoverage.StopWithoutPositionIsCancelled | core/broker_stops.py:269-278 | for any positions and stops, a stop whose symbol no position carries is cancelled |
| StopCoverage.UnreplacedStopIsKept | core/broker_stops.py:279-284 | a stop on a position that cannot be given a new one is not cancelled |
| StopCoverage.TwinStopsOversell | core/broker_stops.py:263-284 | ten and a half shares with two own day stops on the half: the broker's binding holds, and after the plan more than the held shares are bound |
| LocalState.RunsHoldTheSame | core/local_state_client.py:119-163 | just before any call of a run with a monotone clock the lazily evicting client and the map that forgets at the deadline hold the same live entries |
| LocalState.LazyEvictionIsInvisible | core/local_state_client.py:119-254 | every call of such a run replies what that map replies, except that a delete also counts the expired entries it clears |
| LocalState.LocalStateClient.Set | core/local_state_client.py:130-140 | writes the value unless `nx` finds a live one; without `px` an earlier deadline stays |
| LocalState.LocalStateClient.Get | core/local_state_client.py:119-122 | evicts the key if due and returns what is stored |
| LocalState.LocalStateClient.Delete | core/local_state_client.py:155-163 | removes the named stored keys with their deadlines and counts each once, expired ones included |
| LocalState.LocalStateClient.Keys | core/local_state_client.py:201-218 | evicts everything due and returns the matching names |
| LocalState.LocalStateClient.IncrByFloat | core/local_state_client.py:229-241 | adds to the stored number, keeping its deadline, or raises on text |
| LocalState.LocalStateClient.PExpire | core/local_state_client.py:243-254 | sets the deadline of a live key and tells whether there was one |
| StoreMeaning.ValueLivesUntilItsDeadline | core/local_state_client.py:119-140 | a value written with a time to live is read back until that deadline and not after |
| StoreMeaning.ValueWithoutTimeToLive | core/local_state_client.py:130-140 | one written without keeps the deadline of a live entry and has none otherwise |
| StoreMeaning.SetIfAbsentExactly | core/local_state_client.py:130-140 | a write that asks for a new key succeeds exactly when none is live and otherwise changes no value |
| StoreMeaning.IncrementExactly | core/local_state_client.py:229-241 | an increment adds to the live number, to nothing if there is none, and raises on other text, leaving it |
| StoreMeaning.CounterAddsUp | core/local_state_client.py:229-241 | a counter that starts from nothing reads the sum of all its increments |
| StoreMeaning.ExpiryExactly | core/local_state_client.py:243-254 | a deadline set on a live key is the one it dies at |
| HitlQueue.PushLandings | core/hitl_queue.py:82-101 | which store each number of landed writes of a push leaves: untouched, superseded, pending without index, complete |
| HitlQueue.RunsAreFaithful | core/hitl_queue.py:57-239 | in every run, crashes anywhere, each stored copy is the order as pushed and expires within its window |
| HitlQueue.ApprovalQueue.Push | core/hitl_queue.py:57-112 | the new store is the old one with the pending order of the same name dropped, the new order and its index entry written |
| HitlQueue.ApprovalQueue.Approve | core/hitl_queue.py:152-178 | returns the live pending order and moves it to approved, dropping its index entry |
| HitlQueue.ApprovalQueue.Reject | core/hitl_queue.py:181-197 | drops the pending order and its index entry and tells whether it was there |
| HitlQueue.ApprovalQueue.ClaimApproved | core/hitl_queue.py:200-239 | the loop returns every approved order once, marks each in flight before dropping it |
| HitlQueue.ApprovalQueue.AckInflight | core/hitl_queue.py:255-262 | clears the marker and tells whether it was there |
| HitlIndex.IndexAgreesWithScan | core/hitl_queue.py:115-149 | in every run a positive `has_pending` is backed by a live pending order; while no push was cut off between its last two writes the converse holds too and no two pending orders share a name |
| HitlIndex.StepKeepsIndex | core/hitl_queue.py:79-101 | one call, cut off anywhere, keeps the index sound, and keeps a complete index complete if and only if it is not such a push |
| HitlIndex.StepKeepsWaiting | core/hitl_queue.py:57-239 | before its deadline no call, cut off anywhere, ends an order's waiting unless it approves, rejects or supersedes an order of that name |
| HitlIndex.SettlingEndsTheWait | core/hitl_queue.py:57-197 | a complete call of that kind does end it |
| HitlIndex.TornPushIsNotIndexed | core/hitl_queue.py:99-101 | a push cut off between its writes is listed by a scan and denied by `has_pending` |
| HitlIndex.NamesCoincideExactly | core/hitl_queue.py:48-49 | two (user, symbol) pairs share an index entry exactly when they are equal or a colon lets the name be cut in two places |
| HitlIndex.NamesIdentifyPairs | core/hitl_queue.py:48-49 | without colons in symbols the index entry identifies the pair |
| HitlExclusivity.UndecidedExactly | core/hitl_queue.py:152-178 | one call makes an id pending and approved at once exactly when it is an approval of it cut off between its two writes |
| HitlExclusivity.OnePlaceExactly | core/hitl_queue.py:152-239 | one call puts an id into two of pending, approved and in flight exactly when it is cut off between the two writes of its approval or of its claim |
| HitlExclusivity.EveryApprovalIsInOnePlace | core/hitl_queue.py:152-239 | over a run without those two cuts for an id, it is in at most one of pending, approved and in flight |
| HitlExclusivity.ClaimedAtMostOnce | core/hitl_queue.py:200-239 | an id claimed once is never claimed again, with crashes anywhere except between the two writes of an earlier approval of that id |
| HitlExclusivity.RejectedIsNeverClaimed | core/hitl_queue.py:181-197 | an order rejected while pending is never claimed later, with the same one exception |
| HitlExclusivity.SupersededIsNeverClaimed | core/hitl_queue.py:79-82 | an order superseded by a newer push is never claimed later, with the same one exception |
| HitlExclusivity.TornApprovalIsClaimedTwice | core/hitl_queue.py:164-172 | the run in which an approval cut off after its first write is claimed twice |
| HitlDurability.ApprovedOrderIsNeverLost | core/hitl_queue.py:200-239 | once the first write of an approval landed, the order is approved or in flight at every instant of its window, whatever writes crashes cut off, unless acknowledged |
| HitlDurability.ClaimedOrderIsAlwaysListed | core/hitl_queue.py:265-296 | once its marker landed, a claimed order is listed for recovery throughout the marker's day, unless acknowledged |
| HitlDurability.ClaimKeepsSecured | core/hitl_queue.py:226-237 | after any number of writes of a claim every approved order still has a copy that lasts as long |
| HitlDurability.ClaimWritesMarkers | core/hitl_queue.py:228-237 | a complete claim has written the marker of every order it lists |
| HitlLifecycle.PushedOrderCanBeApproved | core/hitl_queue.py:57-178 | over any run that does not settle its name, a pushed order is listed and can be approved until its time runs out |
| HitlLifecycle.PushedOrderLapses | core/hitl_queue.py:94-101 | after its time it can not, whatever happened |
| HitlLifecycle.ApprovedOrderIsHandedOut | core/hitl_queue.py:152-239 | the first claim within ten minutes of an approval hands the order to the trading loop and, if it is not cut off, lists it for recovery |
| HitlLifecycle.AcknowledgedIsNotRecovered | core/hitl_queue.py:255-296 | once acknowledged an order is no longer listed for recovery until something is claimed again |
| HitlGate.AllManualLeaksExactlyNaN | core/hitl_gate.py:687-735 | with both limits 0 a readable non-exempt order executes exactly when its value is not a number, its pair has no pending order, and there is no store or one that answers and takes the increment |
| HitlGate.ValueIsNaNExactly | core/hitl_gate.py:634-647 | when the order value is not a number, in terms of quantity and price |
| HitlGate.CounterReadsDayTotal | core/hitl_day_notional.py:40-75 | what the gate reads for a day is the sum charged to it, over any run of orders, other days, rollovers and store faults |
| HitlGate.ExecutedIsCharged | core/hitl_gate.py:649-735 | with a store, no order executes unbooked except under the unlimited mode or the exempt-sell switch |
| HitlGate.BookingsStayWithinBudget | core/hitl_gate.py:701-723 | a booking leaves the day total within the day limit then in force and the order within its per-trade limit exactly when its value is a number |
| HitlGate.NaNDisablesDayLimit | core/hitl_gate.py:706-708 | after one charged value that is not a number no order of that day is held for the day limit |
| HitlGate.WithoutStoreNoMemory | core/hitl_day_notional.py:42-57 | without a store each order is decided as if nothing had run before, and nothing is booked |
| HitlGate.GateRunIsQueueRun | core/hitl_gate.py:682-768 | every run of the gate, humans and the trading loop at work beside it, is a run of the queue, so the queue's theorems hold of it |
| HitlGate.QueuedPairIsHeld | core/hitl_gate.py:682-768 | from the call that queued an order until its time runs out, no further order on its pair executes, is queued or is charged (unlimited mode, exempt sells and calls without a store aside), over any run in which nothing approves, rejects or supersedes an order of that name |
| HitlGate.SettledOnlyByItsEnd | core/hitl_gate.py:738-768 | where no push was torn, only approving, rejecting or superseding the queued order itself does that |
| HitlGate.WaitingHoldsThePair | core/hitl_gate.py:682-686 | while an order waits a further order on its pair that is not unlimited, exempt or without a store is held and changes neither queue nor counter |
| HitlGate.Gate.ShouldHold | core/hitl_gate.py:582-735 | the answer and the new queue and counter are those of the decision, every fault of the store holding the order |
| HitlGate.Gate.Book | core/hitl_day_notional.py:49-61 | increments, then renews the time to live; an error in between leaves the amount booked |
| GateLimits.GateMeasuresWorth | core/hitl_gate.py:617-647 | the measured value is the executor's quantity times the price, without one the signal's, and for a sell without either the position's |
| GateLimits.GateKeepsItsLimits | core/hitl_gate.py:682-735 | in every run an order that is neither unlimited nor exempt executes exactly when its pair has nothing pending and its worth is positive, within the per-trade limit and within what the day has left; then it is added to the day, otherwise queued |
| GateLimits.LimitsWithoutStore | core/hitl_day_notional.py:42-57 | without a store the limits apply to each order alone |
| GateLimits.ExemptOrdersExecute | core/hitl_gate.py:649-680 | the unlimited mode and exempt sells of a long position execute and touch neither queue nor day |
| GateLimits.FaultsHold | core/hitl_gate.py:583-613 | an unreadable price or position and every fault of the store hold the order |
| GateLimits.RolloverClearsOnlyItsDay | core/hitl_day_notional.py:63-76 | the rollover clears the previous day's counter and no other |
| LeaseProtocol.TakeoverBreaksOnlyTheDead | core/lease.py:129-166 | in every interleaving a takeover deletes a row only if the process that acquired it is dead, when host names identify machines |
| LeaseProtocol.HolderIsExclusive | core/lease.py:110-220 | a row found with a token keeps it until its deadline while its process lives and does not release it, over all interleavings of attempts, stale notes, takeovers, crashes and renewals |
| LeaseProtocol.NoTwoWriters | core/lease.py:353-391 | two checks that succeed within the first holder's deadline belong to one lease |
| LeaseProtocol.SharedHostNameBreaksTheLiving | core/lease.py:156-160 | the run in which two machines of one name break a live holder's row |
| LeaseProtocol.RunsKeepInv | core/lease.py:110-187 | in every reachable state notes name the maker of their token and a convinced contender's target is dead |
| LeaseLiveness.AttemptTakesExactlyFreeOrExpired | core/state/sqlite_adapter.py:82-95 | in every run an attempt takes a missing or expired row for 60 seconds and leaves any other row as it is |
| LeaseLiveness.OneWriterUntilTheDeadline | core/state/sqlite_adapter.py:124-131 | before the deadline the row's token is the one writer, from the deadline on nobody is |
| LeaseLiveness.UnrenewedRowIsWon | core/lease.py:168-187 | a row that is not renewed is won by the first attempt at or after its deadline, over all interleavings |
| LeaseLiveness.PunctualHolderKeepsItsRow | core/lease.py:189-208 | a live holder that renews before each deadline keeps its row for good, with the deadline of its last renewal |
| LeaseLiveness.LateRenewalRevivesNothing | core/state/sqlite_adapter.py:97-112 | a renewal at or after the deadline, or of another's row, changes nothing |
| LeaseLiveness.TakenEarlyExactlyFromTheDead | core/lease.py:129-187 | an unexpired row is taken at once exactly when the note names its token, this host and another process id that does not exist here |
| LeaseClient.AccountsCoincideExactly | core/lease.py:72-80 | two engines contend exactly when user (empty meaning global) and trading mode agree |
| LeaseClient.AttemptWinsExactly | core/lease.py:168-187 | an undisturbed attempt taken step by step in the protocol ends with the row exactly when the acquire method succeeds |
| LeaseClient.EngineLease.Acquire | core/lease.py:168-187 | succeeds exactly when the row is free or its holder is provably dead on this host; nothing else changes |
| LeaseClient.EngineLease.TakeOverIfDead | core/lease.py:129-166 | deletes the row exactly when a live note of this host names another process id that does not exist and the row carries the note's token |
| LeaseClient.EngineLease.Renew | core/lease.py:189-208 | extends the term only with progress and only while the row is ours and unexpired |
| LeaseClient.EngineLease.ReleaseLease | core/lease.py:210-212 | deletes the row exactly when it carries our token, expired or not |
| LeaseClient.SharedStore.Insert | core/state/sqlite_adapter.py:82-95 | takes the row exactly when it is absent or expired |
| LeaseClient.Registry.SecurePermission | core/lease.py:353-372 | true means the row carries the registered token now; otherwise one attempt with a new object, whose outcome it is, and a lost lease is unregistered |
| LeaseClient.Registry.MayWrite | core/lease.py:375-391 | true while active means the row carries this process's token at that moment; anything unreadable is a no |
| LeaseClient.RenewalsExactly | core/lease.py:394-424 | every listed lease that holds its row gets a full term, every other one that does not raise is dropped, no other row moves |
| LeaseClient.RenewalsAreCounted | core/lease.py:394-424 | the answer is the number of listed leases that can be asked and hold their row |
| LeaseClient.Registry.RenewOnRing | core/lease.py:394-424 | the loop over this ring's leases performs these renewals and counts them; without progress nothing changes |
| OrderGates.PrunedBuffersDecideAsHistory | core/compliance.py:413-433 | throttle and wash-trade decisions on the pruned buffers equal those on everything ever admitted |
| OrderGates.ThrottleHoldsOverHistory | core/compliance.py:393-435 | every stretch of admitted orders shorter than one second keeps the user cap and the symbol cap of its last order |
| OrderGates.NoWashTrades | core/compliance.py:553-579 | no two admitted conflicting orders of one user and symbol lie closer than the window |
| OrderGates.PacingSeesTheWholeDay | core/compliance.py:780-795 | buys within the last hour and minutes since the last buy equal those of all buys since the daily reset |
| GateHistory.AdmittedExactly | core/compliance.py:351-435 | after any run an order is admitted if and only if it is well formed, within risk, has no younger opposite order of its user and symbol in the window, and fewer orders in the last second than both caps |
| GateHistory.HistoryGrowsByTheAdmitted | core/compliance.py:393-443 | exactly the admitted orders enter the history |
| GateHistory.BuyAndSellLieApart | core/compliance.py:553-579 | a buy and a sell of one user and symbol are admitted at least the window apart |
| GateHistory.EverySecondStaysWithinCaps | core/compliance.py:393-435 | counted order by order, every stretch shorter than a second keeps both caps of its last order |
| GateHistory.PacingCountsTheBuysOfTheDay | core/compliance.py:780-795 | the pacing answers are the number of the day's buys at most 3600 seconds old and the minutes since the latest one |
| GateHistory.AdmittedBuysAreCounted | core/compliance.py:855-862 | a buy in any of its spellings is counted, a sell is not, and the daily reset forgets all |
| BuyPacing.MirrorAnswersAlike | core/compliance.py:855-862 | the buffer pruned to two hours at each buy answers like the unpruned list |
| DailyTrades.OrdersInForceExactly | core/compliance.py:604-725 | over a day the counter stays within the cap, and the charged orders in force are the counter plus the refunds of uncharged orders taken from it, less the refunds lost at 0 |
| DailyTrades.OneOrderOfTheDay | core/compliance.py:604-703 | an order passes exactly when a human approved it, it reduces what is held and the switch exempts it, or the counter is below the cap; only an autonomous order of the last kind takes a slot |
| DailyTrades.OneRefusalOfTheDay | core/compliance.py:705-725 | a refusal gives one slot back, in memory and durably, if any is taken |
| DailyTrades.StrayRefundOverrunsCap | core/engine/absendung_abgang.py:355-361 | refunding a refused exempt exit lets two charged orders be in force under a cap of one |
| DailyTrades.RestartChangesNothing | core/compliance.py:727-778 | with working storage the durable day value is the counter, so a restart or reset on the same day changes nothing |
| DailyTrades.MidnightRefundLosesATrade | core/compliance.py:705-763 | a refund between midnight and the reset makes a restart forget the first trade of the new day |
| DailyTrades.ResetAgreesExactly | core/compliance.py:746-763 | a reset leaves counter and durable value equal exactly when nothing is owed |
| DailyTrades.UnreadableMeansSpent | core/compliance.py:746-763 | an unreadable budget admits exactly the exempt exits |
| ComplianceGuardian.Guardian.CheckOrder | core/compliance.py:351-443 | approves exactly when every gate passes and updates the three buffers, a throttled order still pruning the first |
| ComplianceGuardian.Guardian.DetectWashTrade | core/compliance.py:553-579 | the loop finds a conflicting recent trade exactly when there is one |
| ComplianceGuardian.Guardian.RecordRecentTrade | core/compliance.py:840-875 | appends the record, prunes the window, and mirrors a buy into the pacing buffer |
| ComplianceGuardian.Guardian.CheckTrade | core/compliance.py:604-648 | blocks exactly an autonomous, non-exempt order at the cap |
| ComplianceGuardian.Guardian.RecordTrade | core/compliance.py:674-703 | charges one trade in memory and durably unless the order is exempt |
| ComplianceGuardian.Guardian.RefundTrade | core/compliance.py:705-725 | gives one trade back in memory and durably, never below zero |
| ComplianceGuardian.Guardian.ResetDailyLimit | core/compliance.py:727-763 | sets the counter to the day's durable value and clears the pacing buffer |
| IntelligentExit.PatienceNeverUnsells | core/intelligent_exit.py:300-486 | holding longer, a higher high-water mark or worse news never turn a sell into a hold, nor a risk exit into an opinion |
| IntelligentExit.HardStopAlwaysSells | core/intelligent_exit.py:328-345 | a loss at or below the negative hard stop is a risk exit at once, whatever the hours and the switch |
| IntelligentExit.BigWinnersAreNotOutvoted | core/intelligent_exit.py:424-463 | above +5% only the trailing stop or fading momentum sells, never the composite |
| IntelligentExit.TrailingFiresExactly | core/intelligent_exit.py:537-570 | the trailing stop fires exactly when the drawdown reaches the active tier after its minimum hold |
| ExitMeaning.PercentagesMean | core/intelligent_exit.py:308-317 | gain and drawdown are percentages of the entry price and of the high |
| ExitMeaning.TrailingSellsExactly | core/intelligent_exit.py:537-580 | the trailing stop sells exactly on the pullback and hold of the gain's tier, in both profiles |
| ExitMeaning.MomentumSellsExactly | core/intelligent_exit.py:583-615 | without a pullback a gain above five percent is sold exactly when the forecast is below its threshold and strong, falling or bearish |
| ExitMeaning.WorseForecastPressesMore | core/intelligent_exit.py:583-615 | a worse forecast never lowers the momentum pressure |
| ExitMeaning.SoldExactly | core/intelligent_exit.py:384-468 | outside the panic window a position is sold if and only if it pulls back, its loss cuts, its gain fades, or the weighed pressures reach 70; the first two are the risk exits |
| ExitMeaning.PanicWindowExactly | core/intelligent_exit.py:328-345 | in the panic window only the hard stop sells |
| ExitMeaning.LossMilestones | core/intelligent_exit.py:500-534 | loss pressure in each band at 0, 4, 24 and 72 hours |
| ExitMeaning.TimeAndNewsMilestones | core/intelligent_exit.py:618-655 | time presses losers only, and news by the size of gain or loss |
| IntelligentExit.LossSellsExactly | core/intelligent_exit.py:500-534 | a loss sells by itself exactly in the escalation band, in the cut band from the 24th hour, or above the watch tier where 15 times the loss times the time factor reaches 90 |
| IntelligentExit.LinearBandCanSellExactly | core/intelligent_exit.py:520-534 | some loss above the watch tier sells by itself exactly when 15 times that tier times the time factor exceeds 90 |
| IntelligentExit.ShippedWatchTierNeverSells | core/intelligent_exit.py:44-48 | with the shipped tiers no loss above the cut tier does |
| IntelligentExit.DeeperLossIsHeld | core/trading_settings.py:403-414 | with other permitted tiers a position at -4.9% is cut after a day and the same position at -5.5% is held |
| IntelligentExit.DepthMonotoneExactly | core/intelligent_exit.py:512-523 | loss pressure grows with the depth of the loss exactly when 15 times the watch tier is at most 40 |
| IntelligentExit.ShippedTiersDip | core/intelligent_exit.py:44-48 | with the shipped tiers it does not |
| IntelligentExit.TotalInRange | core/intelligent_exit.py:439-463 | the composite is between 0 and 100 for every input |
| IntelligentExit.MorePressureStillSells | core/intelligent_exit.py:384-468 | pointwise larger pressures never turn a sell into a hold across all triggers |
| IntelligentExit.FindTier | core/intelligent_exit.py:553-557 | the loop from the highest tier down finds the last tier whose profit is reached |
| IntelligentExit.CalculateTrailingStopScore | core/intelligent_exit.py:537-580 | the score of the active tier, or of the profile's sub-tier rule |
| IntelligentExit.AnalyzeExit | core/intelligent_exit.py:300-486 | the analysis filled step by step shows the decision, its cause, tier, scores and total |
| DataCache.KeySplitsBack | core/data_provider.py:266 | symbol, date and days come back from the key even when the symbol contains underscores |
| DataCache.EndsWithDaysExactly | core/data_provider.py:271 | the suffix test on a key compares the days and nothing else |
| DataCache.CacheIsNewestOfLatest | core/data_provider.py:263-282 | after any writes the cache is exactly the newest entries of the last writes per symbol and look-back, in the order of writing |
| DataCache.HitsAreExact | core/data_provider.py:397-404 | every hit is what an unbounded dictionary would return, the size is bounded, and the newest write is a hit |
| CacheMeaning.WriteStaysExactly | core/data_provider.py:263-282 | a write not followed by one of its series is in the cache if and only if fewer other series than the cache holds were written after it |
| CacheMeaning.SupersededIsGone | core/data_provider.py:263-276 | a write followed by another date of its series is no longer there |
| DataCache.BoundedDataCache.Set | core/data_provider.py:263-282 | stale dates and the own key go, the entry is appended, the oldest entries are popped down to the bound |
| DataCache.BoundedDataCache.constructor | core/data_provider.py:258-261 | the bound is at least one |
| KillSwitch.HaltIsDurable | core/kill_switch.py:171-194 | once a trip's halt write lands every process that reads the store answers halted, across restarts, until a reset of that scope deletes it |
| KillSwitchHalts.TripHaltsItsProcess | core/kill_switch.py:204-258 | a trip halts its own process at once and for as long as it lives, whether or not any write lands, until that process resets the scope or the system |
| KillSwitchHalts.AnswerIsRemembered | core/kill_switch.py:171-194 | a process that has read a stored halt stays halted when the store fails or others delete it |
| KillSwitchHalts.TripReachesTheStore | core/kill_switch.py:241-258 | a trip that is not turned away or cut off leaves its record and its halt in the store |
| KillSwitchHalts.HaltHasATrip | core/kill_switch.py:171-194 | over every run a halted answer goes back to a trip of the system or of that user |
| KillSwitchHalts.ResetReleasesItsScope | core/kill_switch.py:314-326 | a reset whose first delete lands ends the halt of its scope |
| KillSwitch.HaltHasItsRecord | core/kill_switch.py:241-258 | with deaths between any two writes, concurrent trips, concurrent resets and failed halt writes and deletes, a stored halt has its stored record as long as no trip fails to write its record and no trip and reset of that scope overlap |
| KillSwitch.LostRecordHasACause | core/kill_switch.py:241-326 | a halt without a record can only come from one of these |
| KillSwitch.EveryBreachCanStrip | core/kill_switch.py:241-326 | after any of these two more steps can leave a halt without a record, so none can be dropped from the condition |
| KillSwitch.OverlappingResetStripsTheRecord | core/kill_switch.py:321-326 | a reset inside another process's trip leaves a halt without a record |
| KillSwitch.FailedHaltIsNeverRetried | core/kill_switch.py:222-258 | a failed halt write is not repeated by later trips of the process, and the next process starts unhalted |
| KillSwitch.Switch.AskHalted | core/kill_switch.py:171-194 | answers from memory or the store and remembers what the store says |
| KillSwitch.Switch.TripSwitch | core/kill_switch.py:204-258 | changes nothing durable while halted; otherwise flags the scope and writes record and halt |
| KillSwitch.Switch.ResetSwitch | core/kill_switch.py:314-326 | clears the flags (all of them for the system) and deletes halt and record, the second only if the first went through |
| KillSwitch.Switch.MayStart | core/kill_switch.py:47-80 | starting is allowed exactly when nothing is halted, and a halt is not cleared |
| KillSwitch.Switch.constructor | core/kill_switch.py:108-151 | a new process has no flags and brings the stored record of a stored system halt |

## Left out

- NonceScan.AuditDirectory.CollectLiveEnablementNonces: the loops are proved for a readable chain; the branch that logs an operating-system error is modelled as an event of the runs (`FailedScanInventsNothing`).
- NonceScan.EveryScanIsAFullScan: appends go to the last file or a later-named one, a seal is written only where an open last line has a hash or a nonce that stands on an earlier line, and file and line text is bytes with JSON reading as a parameter; the case it excludes is `TornNonceIsKept`.
- Idempotency.KeysCoincideExactly: SHA-256 is any function to 32 characters without a line break; collisions appear as a case instead of being assumed away. The substitute-decision prefix is not modelled.
- BrokerStops.PlanBrokerStops: quantities are integers in units of 1e-9 share and prices reals; float representation error is not modelled, and unreadable fields have already become 0.
- StopReconciliation.OneStepConverges: assumes one session and own stops with literal keys, and that cancels and placements succeed; confirmation timeouts, refusals and duplicate-key retries of the executor are not modelled beyond the attempt number.
- LocalState.LazyEvictionIsInvisible: `keys` returns a set, its list order is not modelled; lists, streams, hashes and pipelines of the client are left out.
- HitlQueue.ApprovalQueue.Push: order details are one string and time stamps are dropped; unreadable or empty stored blobs, a missing store (every call a no-op) and clock ticks within one call are left out.
- HitlGate.BookingsStayWithinBudget: the counter's key must live through the run, so all calls of one day fall within 48 hours; overflow and rounding of finite floats are not modelled, infinities and NaN are.
- HitlGate.Gate.ShouldHold: policy snapshots, hashes and audit records are observation only; in a call of the gate a failing push writes nothing; a push that is cut off mid-way is a queue call of the run.
- LeaseProtocol.HolderIsExclusive: all processes read one clock, and several accounts are independent rows; connection handling and hand-over between event loops are reduced to the three outcomes of asking.
- LeaseClient.Registry.MayWrite: whether the lease is active at all (configuration and environment) is a parameter.
- OrderGates.NoWashTrades: the window is constant over the run; widening it by a policy reload would need records already pruned.
- OrderGates.ThrottleHoldsOverHistory: the check of one order is atomic, as its lock makes it; blocklist, asset class, reporting fields and the value cap are two booleans of the order.
- DailyTrades.OrdersInForceExactly: storage works and the day does not change within the run; other cases are `MidnightRefundLosesATrade`, `ResetAgreesExactly` and `UnreadableMeansSpent`. The three-day expiry of old keys is left out.
- IntelligentExit.PatienceNeverUnsells: arithmetic is over reals; reading the settings and the texts of reasons are left out, and prices are not negative.
- DataCache.HitsAreExact: covers keys with two underscores, as the callers build them; keys of another shape are handled by `Set` but not by the history theorem.
- KillSwitch.HaltHasItsRecord: mass cancel, alerts, forcing paper mode and audit lines are left out; a process without a store is one that neither reads nor writes it.
- Network, broker, database, web routes, market data, agents, rate limits, watchdogs, reports and user interface are left out: they are plumbing or would only add easy members.
