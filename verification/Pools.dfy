/**
 Pools and their accounts (internal/storage/pools.go): what each call changes, and the events it
 hands to the outbox. The event of a pool is identified by the pool and its list of accounts.
 */
module Pools {
  import opened Common
  import Outbox

  type PoolId = string

  datatype AccountId = AccountId(reference: string, connector: ConnectorId)

  datatype PoolType = Static | Dynamic

  datatype Pool = Pool(name: string, poolType: PoolType, query: string)

  datatype Member = Member(pool: PoolId, account: AccountId)

  datatype Payload = Saved(id: PoolId, accounts: seq<AccountId>) | Deleted(id: PoolId)

  /** Memberships are kept, and read, in insertion order. The accounts table is only consulted. */
  datatype Tables = Tables(
    accounts: set<AccountId>, pools: map<PoolId, Pool>, members: seq<Member>, outbox: Outbox.State)

  /** What a call wants to commit: new tables and the events that announce them. */
  datatype Change = Change(pools: map<PoolId, Pool>, members: seq<Member>, handedOff: seq<Payload>)

  function AccountsOf(members: seq<Member>, id: PoolId): seq<AccountId> {
    if members == [] then []
    else
      var init, last := AccountsOf(members[..|members| - 1], id), members[|members| - 1];
      if last.pool == id then init + [last.account] else init
  }

  // ---- Changes --------------------------------------------------------------------------------

  /** INSERT ... ON CONFLICT (pool_id, account_id) DO NOTHING. */
  function InsertMembers(members: seq<Member>, id: PoolId, accounts: seq<AccountId>): seq<Member> {
    if accounts == [] then members
    else
      var done, m := InsertMembers(members, id, accounts[..|accounts| - 1]), Member(id, accounts[|accounts| - 1]);
      if m in done then done else done + [m]
  }

  predicate NameTaken(pools: map<PoolId, Pool>, name: string) {
    exists id | id in pools :: pools[id].name == name
  }

  /** Announced only when the pool is new; accounts are stored for static pools only. */
  function Upsert(t: Tables, id: PoolId, pool: Pool, accounts: seq<AccountId>): Result<Change> {
    if !(forall a | a in accounts :: a in t.accounts) then Err(NotFound)
    else if id !in t.pools && NameTaken(t.pools, pool.name) then Err(DuplicateKey)
    else
      Ok(Change(
        if id in t.pools then t.pools else t.pools[id := pool],
        if pool.poolType == Static then InsertMembers(t.members, id, accounts) else t.members,
        if id in t.pools then [] else [Saved(id, accounts)]))
  }

  function UpdateQuery(t: Tables, id: PoolId, accounts: seq<AccountId>, query: string): Change {
    Change(
      if id in t.pools then t.pools[id := t.pools[id].(query := query)] else t.pools,
      t.members,
      [Saved(id, accounts)])
  }

  /** The event carries the accounts read back after the insert. */
  function AddAccount(t: Tables, id: PoolId, account: AccountId): Result<Change> {
    if account !in t.accounts then Err(NotFound)
    else if Member(id, account) in t.members then Ok(Change(t.pools, t.members, []))
    else if id !in t.pools then Err(ForeignKeyViolation)
    else
      var members := t.members + [Member(id, account)];
      Ok(Change(t.pools, members, [Saved(id, AccountsOf(members, id))]))
  }

  function WithoutMember(members: seq<Member>, m: Member): seq<Member> {
    if members == [] then []
    else
      var init, last := WithoutMember(members[..|members| - 1], m), members[|members| - 1];
      if last == m then init else init + [last]
  }

  function WithoutAccount(accounts: seq<AccountId>, account: AccountId): seq<AccountId> {
    if accounts == [] then []
    else
      var init, last := WithoutAccount(accounts[..|accounts| - 1], account), accounts[|accounts| - 1];
      if last == account then init else init + [last]
  }

  /** The event carries the accounts read before the delete, filtered in memory. */
  function RemoveAccount(t: Tables, id: PoolId, account: AccountId): Change {
    Change(
      t.pools,
      WithoutMember(t.members, Member(id, account)),
      if Member(id, account) in t.members && id in t.pools
      then [Saved(id, WithoutAccount(AccountsOf(t.members, id), account))] else [])
  }

  function WithoutPool(members: seq<Member>, id: PoolId): seq<Member> {
    if members == [] then []
    else
      var init, last := WithoutPool(members[..|members| - 1], id), members[|members| - 1];
      if last.pool == id then init else init + [last]
  }

  function Delete(t: Tables, id: PoolId): Change {
    Change(t.pools - {id}, WithoutPool(t.members, id), if id in t.pools then [Deleted(id)] else [])
  }

  // ---- Commit ---------------------------------------------------------------------------------

  /** The saved event is identified by a hash of the pool and its accounts, the deletion by the pool. */
  function EventId(savedKey: (PoolId, seq<AccountId>) -> string, p: Payload): Outbox.EventId {
    match p
    case Saved(id, accounts) => Outbox.EventId(savedKey(id, accounts), None)
    case Deleted(id) => Outbox.EventId(id, None)
  }

  function EventOf(savedKey: (PoolId, seq<AccountId>) -> string, now: Time, p: Payload): Outbox.Event {
    Outbox.Event(EventId(savedKey, p), now, Outbox.Pending, 0)
  }

  function EventsOf(savedKey: (PoolId, seq<AccountId>) -> string, now: Time, ps: seq<Payload>): seq<Outbox.Event> {
    seq(|ps|, i requires 0 <= i < |ps| => EventOf(savedKey, now, ps[i]))
  }

  function Commit(savedKey: (PoolId, seq<AccountId>) -> string, now: Time, t: Tables, c: Change): Result<Tables> {
    match Outbox.Insert(t.outbox, EventsOf(savedKey, now, c.handedOff))
    case Err(error) => Err(error)
    case Ok(outbox) => Ok(Tables(t.accounts, c.pools, c.members, outbox))
  }

  /** The outcome of a call: the tables its change commits to, or an error and the tables as they were. */
  predicate Commits(savedKey: (PoolId, seq<AccountId>) -> string, now: Time, t: Tables, change: Result<Change>,
                    r: Result<()>, t': Tables)
  {
    var committed := if change.Ok? then Commit(savedKey, now, t, change.value) else Err(change.error);
    match committed
    case Err(error) => r == Err(error) && t' == t
    case Ok(after) => r.Ok? && t' == after
  }
}
