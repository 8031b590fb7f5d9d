/** The pool tables as an object. Every call commits its rows together with their event, or rolls back. */
module PoolStore {
  import opened Common
  import opened Pools
  import Outbox
  import OutboxStore

  class Store {
    const savedKey: (PoolId, seq<AccountId>) -> string
    var accounts: set<AccountId>
    var pools: map<PoolId, Pool>
    var members: seq<Member>
    const outbox: OutboxStore.Store

    constructor (outbox: OutboxStore.Store, savedKey: (PoolId, seq<AccountId>) -> string)
      ensures this.outbox == outbox && this.savedKey == savedKey
      ensures accounts == {} && pools == map[] && members == []
    {
      this.outbox, this.savedKey := outbox, savedKey;
      accounts, pools, members := {}, map[], [];
    }

    function State(): Tables
      reads this, outbox
    {
      Tables(accounts, pools, members, outbox.Snapshot())
    }

    method SendPoolEvent(now: Time, id: PoolId, accountIds: seq<AccountId>) returns (r: Result<()>)
      modifies outbox
      ensures r.Ok? ==>
                Outbox.Insert(old(outbox.Snapshot()), EventsOf(savedKey, now, [Saved(id, accountIds)])) ==
                Ok(outbox.Snapshot())
      ensures r.Err? ==>
                && Outbox.Insert(old(outbox.Snapshot()), EventsOf(savedKey, now, [Saved(id, accountIds)])) ==
                   Err(r.error)
                && outbox.Snapshot() == old(outbox.Snapshot())
    {
      var event := EventOf(savedKey, now, Saved(id, accountIds));
      assert [event] == EventsOf(savedKey, now, [Saved(id, accountIds)]);
      r := outbox.OutboxEventsInsert([event]);
    }

    method PoolsUpsert(now: Time, id: PoolId, pool: Pool, poolAccounts: seq<AccountId>) returns (r: Result<()>)
      modifies this, outbox
      ensures Commits(savedKey, now, old(State()), Upsert(old(State()), id, pool, poolAccounts), r, State())
    {
      for i := 0 to |poolAccounts|
        invariant State() == old(State())
        invariant forall j | 0 <= j < i :: poolAccounts[j] in accounts
      {
        if poolAccounts[i] !in accounts {
          return Err(NotFound);
        }
      }
      var begin, beginMembers := pools, members;
      var poolExists := id in pools;
      if !poolExists {
        if NameTaken(pools, pool.name) {
          return Err(DuplicateKey);
        }
        pools := pools[id := pool];
      }
      if pool.poolType == Static {
        InsertPoolAccounts(id, poolAccounts);
      }
      if poolExists {
        assert EventsOf(savedKey, now, []) == [];
        return Ok(());
      }
      r := SendPoolEvent(now, id, poolAccounts);
      if r.Err? {
        pools, members := begin, beginMembers;
      }
    }

    method InsertPoolAccounts(id: PoolId, poolAccounts: seq<AccountId>)
      modifies this`members
      ensures members == InsertMembers(old(members), id, poolAccounts)
    {
      for i := 0 to |poolAccounts|
        invariant members == InsertMembers(old(members), id, poolAccounts[..i])
      {
        assert poolAccounts[..i + 1][..i] == poolAccounts[..i];
        if Member(id, poolAccounts[i]) !in members {
          members := members + [Member(id, poolAccounts[i])];
        }
      }
      assert poolAccounts[..|poolAccounts|] == poolAccounts;
    }

    method PoolsUpdateQuery(now: Time, id: PoolId, poolAccounts: seq<AccountId>, query: string) returns (r: Result<()>)
      modifies this, outbox
      ensures Commits(savedKey, now, old(State()), Ok(UpdateQuery(old(State()), id, poolAccounts, query)), r, State())
    {
      var _ :- SendPoolEvent(now, id, poolAccounts);
      if id in pools {
        pools := pools[id := pools[id].(query := query)];
      }
      return Ok(());
    }

    method PoolsAddAccount(now: Time, id: PoolId, accountId: AccountId) returns (r: Result<()>)
      modifies this, outbox
      ensures Commits(savedKey, now, old(State()), AddAccount(old(State()), id, accountId), r, State())
    {
      if accountId !in accounts {
        return Err(NotFound);
      }
      if Member(id, accountId) in members {
        assert EventsOf(savedKey, now, []) == [];
        return Ok(());
      }
      if id !in pools {
        return Err(ForeignKeyViolation);
      }
      var begin := members;
      members := members + [Member(id, accountId)];
      var poolAccounts := ReadAccounts(id);
      r := SendPoolEvent(now, id, poolAccounts);
      if r.Err? {
        members := begin;
      }
    }

    /** SELECT ... FROM pool_accounts WHERE pool_id = id. */
    method ReadAccounts(id: PoolId) returns (poolAccounts: seq<AccountId>)
      ensures poolAccounts == AccountsOf(members, id)
    {
      poolAccounts := [];
      for i := 0 to |members|
        invariant poolAccounts == AccountsOf(members[..i], id)
      {
        assert members[..i + 1][..i] == members[..i];
        if members[i].pool == id {
          poolAccounts := poolAccounts + [members[i].account];
        }
      }
      assert members[..|members|] == members;
    }

    method PoolsRemoveAccount(now: Time, id: PoolId, accountId: AccountId) returns (r: Result<()>)
      modifies this, outbox
      ensures Commits(savedKey, now, old(State()), Ok(RemoveAccount(old(State()), id, accountId)), r, State())
    {
      var begin := members;
      var poolExists := id in pools;
      var poolAccounts := ReadAccounts(id);
      var deleted := Member(id, accountId) in members;
      members := WithoutMember(members, Member(id, accountId));
      if !deleted || !poolExists {
        assert EventsOf(savedKey, now, []) == [];
        return Ok(());
      }
      var updatedAccounts: seq<AccountId> := [];
      for i := 0 to |poolAccounts|
        invariant updatedAccounts == WithoutAccount(poolAccounts[..i], accountId)
      {
        assert poolAccounts[..i + 1][..i] == poolAccounts[..i];
        if poolAccounts[i] != accountId {
          updatedAccounts := updatedAccounts + [poolAccounts[i]];
        }
      }
      assert poolAccounts[..|poolAccounts|] == poolAccounts;
      r := SendPoolEvent(now, id, updatedAccounts);
      if r.Err? {
        members := begin;
      }
    }

    method PoolsDelete(now: Time, id: PoolId) returns (r: Result<bool>)
      modifies this, outbox
      ensures Commits(savedKey, now, old(State()), Ok(Delete(old(State()), id)),
                      if r.Ok? then Ok(()) else Err(r.error), State())
      ensures r.Ok? ==> (r.value <==> id in old(pools))
    {
      if id !in pools {
        members := WithoutPool(members, id);
        assert pools - {id} == pools && EventsOf(savedKey, now, []) == [];
        return Ok(false);
      }
      var event := EventOf(savedKey, now, Deleted(id));
      assert [event] == EventsOf(savedKey, now, [Deleted(id)]);
      var _ :- outbox.OutboxEventsInsert([event]);
      pools, members := pools - {id}, WithoutPool(members, id);
      return Ok(true);
    }
  }
}
