/**
 The balances table and the statements of internal/storage/balances.go as pure values. Observations
 of one account and asset are compressed: equal consecutive balances share one row.
 */
module Balances {
  import opened Common
  import Outbox

  datatype AccountId = AccountId(reference: string, connector: ConnectorId)

  datatype Entry = Entry(createdAt: Time, balance: int, lastUpdatedAt: Time)

  datatype Key = Key(account: AccountId, asset: string)

  /** A row, and also an observation handed to the store. */
  datatype Balance = Balance(key: Key, entry: Entry)

  type Timeline = seq<Entry>

  /** Rows are kept in insertion order, which is the order of their sort_id. */
  datatype Tables = Tables(rows: seq<Balance>, outbox: Outbox.State)

  // ---- Statements -----------------------------------------------------------------------------

  /** The rows of one account and asset. */
  function Project(rows: seq<Balance>, key: Key): Timeline {
    if rows == [] then []
    else
      var init, last := Project(rows[..|rows| - 1], key), rows[|rows| - 1];
      if last.key == key then init + [last.entry] else init
  }

  /** created_at <= t AND last_updated_at >= t; without a time, every row. */
  predicate Matches(e: Entry, at: Option<Time>) {
    at.None? || e.createdAt <= at.value <= e.lastUpdatedAt
  }

  /** ORDER BY created_at DESC, sort_id DESC LIMIT 1 among the matching rows. */
  function Newest(tl: Timeline, at: Option<Time>): Option<Entry> {
    if tl == [] then None
    else
      var best, last := Newest(tl[..|tl| - 1], at), tl[|tl| - 1];
      if Matches(last, at) && (best.None? || best.value.createdAt <= last.createdAt) then Some(last) else best
  }

  /** UPDATE ... SET last_updated_at WHERE the primary key is (key, createdAt). */
  function Touch(rows: seq<Balance>, key: Key, createdAt: Time, lastUpdatedAt: Time): seq<Balance> {
    seq(|rows|, i requires 0 <= i < |rows| =>
      if rows[i].key == key && rows[i].entry.createdAt == createdAt
      then Balance(key, rows[i].entry.(lastUpdatedAt := lastUpdatedAt))
      else rows[i])
  }

  predicate Stored(rows: seq<Balance>, key: Key, createdAt: Time) {
    exists r | r in rows :: r.key == key && r.entry.createdAt == createdAt
  }

  datatype Inserted = Inserted(rows: seq<Balance>, changed: bool)

  function InsertBalance(rows: seq<Balance>, b: Balance): Result<Inserted> {
    match Newest(Project(rows, b.key), None)
    case None => Ok(Inserted(rows + [b], true))
    case Some(last) =>
      if last.createdAt > b.entry.createdAt then Ok(Inserted(rows, false))
      else if last.balance == b.entry.balance then
        Ok(Inserted(Touch(rows, b.key, last.createdAt, b.entry.lastUpdatedAt), true))
      else if Stored(rows, b.key, b.entry.createdAt) then Err(DuplicateKey)
      else Ok(Inserted(Touch(rows + [b], b.key, last.createdAt, b.entry.createdAt), true))
  }

  // ---- The call -------------------------------------------------------------------------------

  datatype Accepted = Accepted(rows: seq<Balance>, changed: seq<Balance>)

  /** One observation after the other; the first error aborts. */
  function InsertAll(rows: seq<Balance>, bs: seq<Balance>): Result<Accepted> {
    if bs == [] then Ok(Accepted(rows, []))
    else
      var last := bs[|bs| - 1];
      match InsertAll(rows, bs[..|bs| - 1])
      case Err(error) => Err(error)
      case Ok(done) =>
        match InsertBalance(done.rows, last)
        case Err(error) => Err(error)
        case Ok(step) => Ok(Accepted(step.rows, if step.changed then done.changed + [last] else done.changed))
  }

  function EventOf(eventKey: Balance -> string, now: Time, b: Balance): Outbox.Event {
    Outbox.Event(Outbox.EventId(eventKey(b), Some(b.key.account.connector)), now, Outbox.Pending, 0)
  }

  function EventsOf(eventKey: Balance -> string, now: Time, changed: seq<Balance>): seq<Outbox.Event> {
    seq(|changed|, i requires 0 <= i < |changed| => EventOf(eventKey, now, changed[i]))
  }

  function Upsert(eventKey: Balance -> string, now: Time, t: Tables, bs: seq<Balance>): Result<Tables> {
    match InsertAll(t.rows, bs)
    case Err(error) => Err(error)
    case Ok(done) =>
      match Outbox.Insert(t.outbox, EventsOf(eventKey, now, done.changed))
      case Err(error) => Err(error)
      case Ok(outbox) => Ok(Tables(done.rows, outbox))
  }

  // ---- One timeline ---------------------------------------------------------------------------

  function TouchEntry(tl: Timeline, createdAt: Time, lastUpdatedAt: Time): Timeline {
    seq(|tl|, i requires 0 <= i < |tl| =>
      if tl[i].createdAt == createdAt then tl[i].(lastUpdatedAt := lastUpdatedAt) else tl[i])
  }

  /** What an observation does to the timeline of its own account and asset. */
  function Observe(tl: Timeline, e: Entry): Result<Timeline> {
    match Newest(tl, None)
    case None => Ok(tl + [e])
    case Some(last) =>
      if last.createdAt > e.createdAt then Ok(tl)
      else if last.balance == e.balance then Ok(TouchEntry(tl, last.createdAt, e.lastUpdatedAt))
      else if exists r | r in tl :: r.createdAt == e.createdAt then Err(DuplicateKey)
      else Ok(TouchEntry(tl + [e], last.createdAt, e.createdAt))
  }

  function ObserveAll(tl: Timeline, log: seq<Entry>): Result<Timeline> {
    if log == [] then Ok(tl)
    else
      match ObserveAll(tl, log[..|log| - 1])
      case Err(error) => Err(error)
      case Ok(done) => Observe(done, log[|log| - 1])
  }

  // ---- The plain log --------------------------------------------------------------------------

  /** The last observation at or before a time. */
  function LogAt(log: seq<Entry>, t: Time): Option<Entry> {
    if log == [] then None
    else if log[|log| - 1].createdAt <= t then Some(log[|log| - 1])
    else LogAt(log[..|log| - 1], t)
  }

  predicate InOrder(log: seq<Entry>) {
    forall i, j | 0 <= i < j < |log| :: log[i].createdAt <= log[j].createdAt
  }

  /** Rows strictly newer one after the other, each ending where the next begins with another balance. */
  predicate Tiled(tl: Timeline) {
    forall i | 0 <= i < |tl| - 1 ::
      && tl[i].createdAt < tl[i + 1].createdAt
      && tl[i].lastUpdatedAt == tl[i + 1].createdAt
      && tl[i].balance != tl[i + 1].balance
  }

  // ---- Listing --------------------------------------------------------------------------------

  /** last_updated_at >= from and created_at <= to, each only when given. */
  predicate InWindow(e: Entry, from: Option<Time>, to: Option<Time>) {
    (from.Some? ==> e.lastUpdatedAt >= from.value) && (to.Some? ==> e.createdAt <= to.value)
  }

  // ---- Aggregation ----------------------------------------------------------------------------

  /** The zero time of Go, which the query treats as no time at all. */
  const ZERO_TIME: Time := 0

  function Effective(at: Option<Time>): Option<Time> {
    if at == Some(ZERO_TIME) then None else at
  }

  datatype Aggregated = Aggregated(amount: int, relatedAccounts: seq<AccountId>)

  function Selected(rows: seq<Balance>, account: AccountId, asset: string, at: Option<Time>): Option<Entry> {
    Newest(Project(rows, Key(account, asset)), at)
  }

  /** The accounts with a selected row in an asset. */
  ghost function Contributors(rows: seq<Balance>, accounts: set<AccountId>, asset: string,
                              at: Option<Time>): set<AccountId>
  {
    set a | a in accounts && Selected(rows, a, asset, at).Some?
  }

  ghost function SumOver(rows: seq<Balance>, accounts: set<AccountId>, asset: string, at: Option<Time>): int {
    if accounts == {} then 0
    else
      var a :| a in accounts;
      Contribution(rows, a, asset, at) + SumOver(rows, accounts - {a}, asset, at)
  }

  function Contribution(rows: seq<Balance>, account: AccountId, asset: string, at: Option<Time>): int {
    match Selected(rows, account, asset, at)
    case None => 0
    case Some(e) => e.balance
  }
}
