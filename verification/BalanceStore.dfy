/** The balances table as an object, updated observation by observation. */
module BalanceStore {
  import opened Common
  import Balances
  import BalanceTheorems
  import Outbox
  import OutboxStore

  type Balance = Balances.Balance
  type AccountId = Balances.AccountId

  class Store {
    var rows: seq<Balance>
    const outbox: OutboxStore.Store

    constructor (outbox: OutboxStore.Store)
      ensures this.outbox == outbox && rows == []
    {
      this.outbox := outbox;
      rows := [];
    }

    function State(): Balances.Tables
      reads this, outbox
    {
      Balances.Tables(rows, outbox.Snapshot())
    }

    /** Reads the newest row, then updates it, appends a row, or does nothing. */
    method InsertBalance(balance: Balance) returns (r: Result<bool>)
      modifies this`rows
      ensures match Balances.InsertBalance(old(rows), balance)
              case Ok(inserted) => r == Ok(inserted.changed) && rows == inserted.rows
              case Err(error) => r == Err(error) && rows == old(rows)
    {
      var found := Balances.Newest(Balances.Project(rows, balance.key), None);
      if found.Some? && found.value.createdAt > balance.entry.createdAt {
        return Ok(false);
      }
      if found.Some? && found.value.balance == balance.entry.balance {
        rows := Balances.Touch(rows, balance.key, found.value.createdAt, balance.entry.lastUpdatedAt);
        return Ok(true);
      }
      if found.Some? {
        if Balances.Stored(rows, balance.key, balance.entry.createdAt) {
          return Err(DuplicateKey);
        }
        rows := rows + [balance];
        rows := Balances.Touch(rows, balance.key, found.value.createdAt, balance.entry.createdAt);
        return Ok(true);
      }
      rows := rows + [balance];
      return Ok(true);
    }

    /** One observation after the other, up to the first that fails; says which changed the table. */
    method InsertBalances(balances: seq<Balance>) returns (r: Result<seq<Balance>>)
      modifies this`rows
      ensures match Balances.InsertAll(old(rows), balances)
              case Ok(done) => r == Ok(done.changed) && rows == done.rows
              case Err(error) => r == Err(error)
    {
      var insertedBalances: seq<Balance> := [];
      for i := 0 to |balances|
        invariant Balances.InsertAll(old(rows), balances[..i]) == Ok(Balances.Accepted(rows, insertedBalances))
      {
        assert balances[..i + 1][..i] == balances[..i];
        var changed := InsertBalance(balances[i]);
        if changed.Err? {
          BalanceTheorems.FirstErrorAborts(old(rows), balances, i + 1);
          return Err(changed.error);
        }
        if changed.value {
          insertedBalances := insertedBalances + [balances[i]];
        }
      }
      assert balances[..|balances|] == balances;
      return Ok(insertedBalances);
    }

    /** Commits every observation of the batch with its events, or rolls all of them back. */
    method BalancesUpsert(eventKey: Balance -> string, now: Time, balances: seq<Balance>) returns (r: Result<()>)
      modifies this, outbox
      ensures r.Ok? ==> Balances.Upsert(eventKey, now, old(State()), balances) == Ok(State())
      ensures r.Err? ==>
                Balances.Upsert(eventKey, now, old(State()), balances) == Err(r.error) && State() == old(State())
    {
      var begin := rows;
      var inserted := InsertBalances(balances);
      if inserted.Err? {
        rows := begin;
        return Err(inserted.error);
      }
      var outboxEvents := BuildEvents(eventKey, now, inserted.value);
      var stored := outbox.OutboxEventsInsert(outboxEvents);
      if stored.Err? {
        rows := begin;
        return Err(stored.error);
      }
      return Ok(());
    }

    method BuildEvents(eventKey: Balance -> string, now: Time, changed: seq<Balance>)
      returns (events: seq<Outbox.Event>)
      ensures events == Balances.EventsOf(eventKey, now, changed)
    {
      events := [];
      for i := 0 to |changed|
        invariant events == Balances.EventsOf(eventKey, now, changed[..i])
      {
        events := events + [Balances.EventOf(eventKey, now, changed[i])];
      }
      assert changed[..|changed|] == changed;
    }

    /** SELECT DISTINCT ON (account_id, asset) ... ORDER BY created_at DESC, sort_id DESC. */
    method SelectBalances(accountIds: seq<AccountId>,
                          at: Option<Time>) returns (selected: map<Balances.Key, Balances.Entry>)
      ensures IsDistinctOn(selected, rows, accountIds, at)
    {
      selected := map[];
      for i := 0 to |rows|
        invariant IsDistinctOn(selected, rows[..i], accountIds, at)
      {
        assert rows[..i + 1] == rows[..i] + [rows[i]];
        SelectingOneMore(selected, rows[..i], rows[i], accountIds, at);
        var key, entry := rows[i].key, rows[i].entry;
        if key.account in accountIds && Balances.Matches(entry, at) {
          if key !in selected || selected[key].createdAt <= entry.createdAt {
            selected := selected[key := entry];
          }
        }
      }
      assert rows[..|rows|] == rows;
    }

    /**
     The aggregate of each asset: the accounts that have a selected row in it, each once, and the
     sum of those rows. Both depend on the queried accounts as a set only.
     */
    method BalancesGetFromAccountIDs(accountIds: seq<AccountId>, at: Option<Time>)
      returns (res: map<string, Balances.Aggregated>)
      ensures forall asset :: IsAnswer(res, rows, accountIds, asset, at)
      ensures forall asset :: IsAggregateOf(res, rows, AsSet(accountIds), asset, Balances.Effective(at))
    {
      if accountIds == [] {
        forall asset ensures Balances.Contributors(rows, AsSet(accountIds), asset, Balances.Effective(at)) == {} {
        }
        return map[];
      }
      var when := Balances.Effective(at);
      var selected := SelectBalances(accountIds, when);
      res := GroupByAsset(selected, when);
      forall asset ensures IsAggregateOf(res, rows, AsSet(accountIds), asset, when) {
        SelectedAccounts(rows, selected, accountIds, asset, when);
        assert IsGroup(res, rows, selected.Keys, asset, when);
      }
      forall asset ensures IsAnswer(res, rows, accountIds, asset, at) {
        AggregateIsAnswer(res, rows, accountIds, asset, at);
      }
    }

    /** SELECT array_agg(account_id), asset, SUM(balance) ... GROUP BY asset, the rows in any order. */
    method GroupByAsset(selected: map<Balances.Key, Balances.Entry>, ghost at: Option<Time>)
      returns (res: map<string, Balances.Aggregated>)
      requires forall k | k in selected :: Balances.Newest(Balances.Project(rows, k), at) == Some(selected[k])
      ensures AreGroups(res, rows, selected.Keys, at)
    {
      var todo := selected.Keys;
      res := map[];
      while todo != {}
        invariant todo <= selected.Keys
        invariant AreGroups(res, rows, selected.Keys - todo, at)
        decreases |todo|
      {
        var key :| key in todo;
        GroupsGrow(res, rows, selected.Keys - todo, key, at);
        assert selected.Keys - (todo - {key}) == selected.Keys - todo + {key};
        res := res[key.asset := WithAccount(res, key, selected[key].balance)];
        todo := todo - {key};
      }
      assert selected.Keys - todo == selected.Keys;
    }
  }

  ghost predicate IsDistinctOn(selected: map<Balances.Key, Balances.Entry>, rows: seq<Balance>,
                               accountIds: seq<AccountId>, at: Option<Time>)
  {
    && (forall k :: k in selected <==> k.account in accountIds && Balances.Newest(Balances.Project(rows, k), at).Some?)
    && (forall k | k in selected :: Balances.Newest(Balances.Project(rows, k), at) == Some(selected[k]))
  }

  function SelectOne(selected: map<Balances.Key, Balances.Entry>, row: Balance, accountIds: seq<AccountId>,
                     at: Option<Time>)
    : map<Balances.Key, Balances.Entry>
  {
    if row.key.account in accountIds && Balances.Matches(row.entry, at) &&
       (row.key !in selected || selected[row.key].createdAt <= row.entry.createdAt)
    then selected[row.key := row.entry] else selected
  }

  /** Keeping the newer row of each key while scanning is taking the newest of all. */
  lemma SelectingOneMore(selected: map<Balances.Key, Balances.Entry>, rows: seq<Balance>, row: Balance,
                         accountIds: seq<AccountId>, at: Option<Time>)
    requires IsDistinctOn(selected, rows, accountIds, at)
    ensures IsDistinctOn(SelectOne(selected, row, accountIds, at), rows + [row], accountIds, at)
  {
    var selected' := SelectOne(selected, row, accountIds, at);
    forall k
      ensures k in selected' <==>
              k.account in accountIds && Balances.Newest(Balances.Project(rows + [row], k), at).Some?
      ensures k in selected' ==> Balances.Newest(Balances.Project(rows + [row], k), at) == Some(selected'[k])
    {
      BalanceTheorems.ProjectAppend(rows, row, k);
      var before := Balances.Project(rows, k);
      assert (before + [row.entry])[..|before|] == before;
    }
  }

  ghost predicate NoDuplicates(accounts: seq<AccountId>) {
    forall i, j | 0 <= i < j < |accounts| :: accounts[i] != accounts[j]
  }

  /** Exactly the given accounts, each once, and the sum of their selected rows. */
  ghost predicate Aggregates(g: Balances.Aggregated, rows: seq<Balance>, accounts: set<AccountId>, asset: string,
                             at: Option<Time>)
  {
    && NoDuplicates(g.relatedAccounts) && AsSet(g.relatedAccounts) == accounts
    && g.amount == Balances.SumOver(rows, accounts, asset, at)
  }

  ghost function AccountsOf(keys: set<Balances.Key>, asset: string): set<AccountId> {
    set k | k in keys && k.asset == asset :: k.account
  }

  /** The query's answer for one asset: a group exactly when some queried account has a selected row. */
  ghost predicate IsAggregateOf(res: map<string, Balances.Aggregated>, rows: seq<Balance>, accounts: set<AccountId>,
                                asset: string, at: Option<Time>) {
    var contributors := Balances.Contributors(rows, accounts, asset, at);
    && (asset in res <==> contributors != {})
    && (asset in res ==> Aggregates(res[asset], rows, contributors, asset, at))
  }

  /** Some row of an account is picked. */
  ghost predicate HasRow(rows: seq<Balance>, account: AccountId, asset: string, at: Option<Time>) {
    exists i :: BalanceTheorems.IsPicked(rows, account, asset, at, i)
  }

  function TotalOf(rows: seq<Balance>, picks: seq<int>): int
    requires forall k | 0 <= k < |picks| :: 0 <= picks[k] < |rows|
  {
    if picks == [] then 0 else TotalOf(rows, picks[..|picks| - 1]) + rows[picks[|picks| - 1]].entry.balance
  }

  ghost predicate ArePicked(rows: seq<Balance>, accounts: seq<AccountId>, asset: string, at: Option<Time>,
                            picks: seq<int>)
  {
    |picks| == |accounts| &&
    forall k | 0 <= k < |picks| :: BalanceTheorems.IsPicked(rows, accounts[k], asset, at, picks[k])
  }

  /**
   The answer for one asset, in terms of the time asked for: a group exactly when some queried account has
   a row picked, with each such account once and the sum of the balances of the rows picked.
   */
  ghost predicate IsAnswer(res: map<string, Balances.Aggregated>, rows: seq<Balance>, accountIds: seq<AccountId>,
                           asset: string, at: Option<Time>)
  {
    && (asset in res <==> exists a :: a in accountIds && HasRow(rows, a, asset, at))
    && (asset in res ==>
          && NoDuplicates(res[asset].relatedAccounts)
          && (forall a :: a in res[asset].relatedAccounts <==> a in accountIds && HasRow(rows, a, asset, at))
          && exists picks :: ArePicked(rows, res[asset].relatedAccounts, asset, at, picks) &&
                             res[asset].amount == TotalOf(rows, picks))
  }

  lemma ContributorsHaveRows(rows: seq<Balance>, accountIds: seq<AccountId>, asset: string, at: Option<Time>)
    ensures forall a :: a in Balances.Contributors(rows, AsSet(accountIds), asset, Balances.Effective(at)) <==>
                        a in accountIds && HasRow(rows, a, asset, at)
  {
    forall a
      ensures Balances.Selected(rows, a, asset, Balances.Effective(at)).Some? <==> HasRow(rows, a, asset, at)
    {
      BalanceTheorems.SelectedIsPicked(rows, a, asset, at);
    }
  }

  lemma SumOfOneMore(rows: seq<Balance>, accounts: seq<AccountId>, a: AccountId, asset: string, at: Option<Time>,
                     i: int)
    requires a !in accounts && BalanceTheorems.IsPicked(rows, a, asset, at, i)
    ensures Balances.SumOver(rows, AsSet(accounts + [a]), asset, Balances.Effective(at)) ==
            Balances.SumOver(rows, AsSet(accounts), asset, Balances.Effective(at)) + rows[i].entry.balance
  {
    assert AsSet(accounts + [a]) - {a} == AsSet(accounts);
    assert a in accounts + [a];
    BalanceTheorems.SumOverOneLess(rows, AsSet(accounts + [a]), asset, Balances.Effective(at), a);
    BalanceTheorems.PickedIsUnique(rows, a, asset, at, i);
  }

  /** The sum over a set of accounts, along an enumeration of them. */
  lemma {:induction false} PicksSumUp(rows: seq<Balance>, accounts: seq<AccountId>, asset: string, at: Option<Time>,
                                      picks: seq<int>)
    requires NoDuplicates(accounts) && ArePicked(rows, accounts, asset, at, picks)
    ensures Balances.SumOver(rows, AsSet(accounts), asset, Balances.Effective(at)) == TotalOf(rows, picks)
  {
    if accounts == [] {
      assert AsSet(accounts) == {};
    } else {
      var n := |accounts| - 1;
      PicksSumUp(rows, accounts[..n], asset, at, picks[..n]);
      assert accounts == accounts[..n] + [accounts[n]];
      SumOfOneMore(rows, accounts[..n], accounts[n], asset, at, picks[n]);
    }
  }

  lemma {:induction false} PicksExist(rows: seq<Balance>, accounts: seq<AccountId>, asset: string, at: Option<Time>)
    returns (picks: seq<int>)
    requires forall a | a in accounts :: HasRow(rows, a, asset, at)
    ensures ArePicked(rows, accounts, asset, at, picks)
  {
    picks := [];
    if accounts != [] {
      var n := |accounts| - 1;
      assert accounts == accounts[..n] + [accounts[n]] && accounts[n] in accounts;
      var before := PicksExist(rows, accounts[..n], asset, at);
      var i :| BalanceTheorems.IsPicked(rows, accounts[n], asset, at, i);
      picks := before + [i];
    }
  }

  lemma AggregateIsAnswer(res: map<string, Balances.Aggregated>, rows: seq<Balance>, accountIds: seq<AccountId>,
                          asset: string, at: Option<Time>)
    requires IsAggregateOf(res, rows, AsSet(accountIds), asset, Balances.Effective(at))
    ensures IsAnswer(res, rows, accountIds, asset, at)
  {
    ContributorsHaveRows(rows, accountIds, asset, at);
    var contributors := Balances.Contributors(rows, AsSet(accountIds), asset, Balances.Effective(at));
    if asset in res {
      var related := res[asset].relatedAccounts;
      forall a ensures a in related <==> a in contributors {
        assert a in AsSet(related) <==> a in related;
      }
      var picks := PicksExist(rows, related, asset, at);
      PicksSumUp(rows, related, asset, at, picks);
    }
  }

  ghost predicate AreGroups(res: map<string, Balances.Aggregated>, rows: seq<Balance>, keys: set<Balances.Key>,
                            at: Option<Time>)
  {
    forall asset :: IsGroup(res, rows, keys, asset, at)
  }

  function WithAccount(res: map<string, Balances.Aggregated>, key: Balances.Key, balance: int): Balances.Aggregated {
    var group := if key.asset in res then res[key.asset] else Balances.Aggregated(0, []);
    Balances.Aggregated(group.amount + balance, group.relatedAccounts + [key.account])
  }

  lemma SelectedAccounts(rows: seq<Balance>, selected: map<Balances.Key, Balances.Entry>, accountIds: seq<AccountId>,
                         asset: string, at: Option<Time>)
    requires IsDistinctOn(selected, rows, accountIds, at)
    ensures AccountsOf(selected.Keys, asset) == Balances.Contributors(rows, AsSet(accountIds), asset, at)
  {
    forall a
      ensures a in AccountsOf(selected.Keys, asset) <==> a in Balances.Contributors(rows, AsSet(accountIds), asset, at)
    {
      assert Balances.Key(a, asset) in selected <==>
             a in accountIds && Balances.Newest(Balances.Project(rows, Balances.Key(a, asset)), at).Some?;
    }
  }

  /** One more selected row joins the group of its asset. */
  lemma GroupGrows(group: Balances.Aggregated, group': Balances.Aggregated, rows: seq<Balance>,
                   accounts: set<AccountId>,
                   key: Balances.Key, at: Option<Time>)
    requires Aggregates(group, rows, accounts, key.asset, at) && key.account !in accounts
    requires group'.relatedAccounts == group.relatedAccounts + [key.account]
    requires group'.amount == group.amount + Balances.Contribution(rows, key.account, key.asset, at)
    ensures Aggregates(group', rows, accounts + {key.account}, key.asset, at)
  {
    assert accounts + {key.account} - {key.account} == accounts;
    BalanceTheorems.SumOverOneLess(rows, accounts + {key.account}, key.asset, at, key.account);
    assert AsSet(group'.relatedAccounts) == AsSet(group.relatedAccounts) + {key.account};
    forall i | 0 <= i < |group.relatedAccounts| ensures group.relatedAccounts[i] != key.account {
      assert group.relatedAccounts[i] in AsSet(group.relatedAccounts);
    }
  }

  lemma AccountsOfOneMore(keys: set<Balances.Key>, key: Balances.Key, asset: string)
    requires key !in keys
    ensures AccountsOf(keys + {key}, asset) ==
            AccountsOf(keys, asset) + if asset == key.asset then {key.account} else {}
    ensures key.account !in AccountsOf(keys, key.asset)
  {
    assert key == Balances.Key(key.account, key.asset);
  }

  ghost predicate IsGroup(res: map<string, Balances.Aggregated>, rows: seq<Balance>, keys: set<Balances.Key>,
                          asset: string, at: Option<Time>)
  {
    && (asset in res <==> AccountsOf(keys, asset) != {})
    && (asset in res ==> Aggregates(res[asset], rows, AccountsOf(keys, asset), asset, at))
  }

  lemma OneGroupGrows(res: map<string, Balances.Aggregated>, rows: seq<Balance>, done: set<Balances.Key>,
                      key: Balances.Key,
                      at: Option<Time>, asset: string)
    requires IsGroup(res, rows, done, asset, at) && key !in done
    ensures IsGroup(res[key.asset := WithAccount(res, key, Balances.Contribution(rows, key.account, key.asset, at))],
                    rows, done + {key}, asset, at)
  {
    AccountsOfOneMore(done, key, asset);
    if asset == key.asset {
      var group := if asset in res then res[asset] else Balances.Aggregated(0, []);
      assert Aggregates(group, rows, AccountsOf(done, asset), asset, at);
      var group' := WithAccount(res, key, Balances.Contribution(rows, key.account, key.asset, at));
      GroupGrows(group, group', rows, AccountsOf(done, asset), key, at);
    }
  }

  lemma GroupsGrow(res: map<string, Balances.Aggregated>, rows: seq<Balance>, done: set<Balances.Key>,
                   key: Balances.Key, at: Option<Time>)
    requires AreGroups(res, rows, done, at) && key !in done
    ensures AreGroups(res[key.asset := WithAccount(res, key, Balances.Contribution(rows, key.account, key.asset, at))],
                      rows, done + {key}, at)
  {
    var res' := res[key.asset := WithAccount(res, key, Balances.Contribution(rows, key.account, key.asset, at))];
    forall asset ensures IsGroup(res', rows, done + {key}, asset, at) {
      OneGroupGrows(res, rows, done, key, at, asset);
    }
  }
}
