/**
 What the engine lease asks of its store (core/state/sqlite_adapter.py): one row with a token and
 an expiry per account, and beside it a note that says who holds it.
 */
module LeaseStore {
  import opened Options

  const TTL := 60_000

  datatype Row = Row(token: string, expires: int)

  datatype Note = Note(host: string, pid: int, token: string)

  predicate Free(row: Option<Row>, now: int) {
    row.None? || row.value.expires <= now
  }

  /** The token owns an unexpired row. */
  predicate Held(row: Option<Row>, token: string, now: int) {
    row.Some? && row.value.token == token && now < row.value.expires
  }

  function Acquire(row: Option<Row>, token: string, now: int): Option<Row> {
    if Free(row, now) then Some(Row(token, now + TTL)) else row
  }

  function Renew(row: Option<Row>, token: string, now: int): Option<Row> {
    if Held(row, token, now) then Some(Row(token, now + TTL)) else row
  }

  /** A release also deletes the caller's expired row. */
  function Release(row: Option<Row>, token: string): Option<Row> {
    if row.Some? && row.value.token == token then None else row
  }

  predicate Breaks(row: Option<Row>, foreign: string, own: string) {
    foreign != "" && foreign != own && row.Some? && row.value.token == foreign
  }

  function Break(row: Option<Row>, foreign: string, own: string): Option<Row> {
    if Breaks(row, foreign, own) then None else row
  }
}
