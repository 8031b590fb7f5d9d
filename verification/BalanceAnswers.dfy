/** The aggregate query over whole runs: its answers against the observations that were committed. */
module BalanceAnswers {
  import opened Common
  import opened Balances
  import opened BalanceTheorems
  import opened BalanceStore

  /** What a log shows at a time: without one, or at the zero time, the balance accepted last. */
  function Observed(log: seq<Entry>, at: Option<Time>): int {
    if at.Some? && at.value != 0 then ObservedAt(log, at.value)
    else if log == [] then 0
    else log[|log| - 1].balance
  }

  /** The observations of an account and asset that were accepted in a run. */
  function LogFor(eventKey: Balance -> string, steps: seq<Step>, account: AccountId, asset: string): seq<Entry> {
    AcceptedLog(eventKey, steps, Key(account, asset))
  }

  /** Balances at a time are exact for observations stamped with their creation time. */
  predicate Exact(eventKey: Balance -> string, steps: seq<Step>, accounts: seq<AccountId>, asset: string,
                  at: Option<Time>)
  {
    at.Some? && at.value != 0 ==>
      forall a | a in accounts :: FreshlyStamped(CommittedLog(eventKey, steps, Key(a, asset)))
  }

  /** Without a time, the row selected holds the balance accepted last. */
  lemma NewestIsLastAccepted(eventKey: Balance -> string, steps: seq<Step>, k: Key)
    ensures var tl, log := Project(Run(eventKey, steps).rows, k), AcceptedLog(eventKey, steps, k);
            BalanceOf(Newest(tl, None)) == if log == [] then None else Some(log[|log| - 1].balance)
  {
    var tl, log := Project(Run(eventKey, steps).rows, k), AcceptedLog(eventKey, steps, k);
    RunCompressesTheLog(eventKey, steps, k);
    CompressionAgrees(CommittedLog(eventKey, steps, k), if log == [] then 0 else log[|log| - 1].createdAt);
    NewestOfTiled(tl);
  }

  lemma ContributionShows(eventKey: Balance -> string, steps: seq<Step>, account: AccountId, asset: string,
                          at: Option<Time>)
    requires Exact(eventKey, steps, [account], asset, at)
    ensures Contribution(Run(eventKey, steps).rows, account, asset, Effective(at)) ==
            Observed(LogFor(eventKey, steps, account, asset), at)
  {
    if at.Some? && at.value != 0 {
      assert account in [account];
      ContributionIsObserved(eventKey, steps, account, asset, at.value);
    } else {
      NewestIsLastAccepted(eventKey, steps, Key(account, asset));
    }
  }

  /** What the logs of the accounts show together. */
  function ObservedTotal(eventKey: Balance -> string, steps: seq<Step>, accounts: seq<AccountId>, asset: string,
                         at: Option<Time>): int
  {
    if accounts == [] then 0
    else
      var init, last := accounts[..|accounts| - 1], accounts[|accounts| - 1];
      ObservedTotal(eventKey, steps, init, asset, at) + Observed(LogFor(eventKey, steps, last, asset), at)
  }

  lemma {:induction false} SumIsObserved(eventKey: Balance -> string, steps: seq<Step>, accounts: seq<AccountId>,
                                         asset: string, at: Option<Time>)
    requires NoDuplicates(accounts) && Exact(eventKey, steps, accounts, asset, at)
    ensures SumOver(Run(eventKey, steps).rows, AsSet(accounts), asset, Effective(at)) ==
            ObservedTotal(eventKey, steps, accounts, asset, at)
  {
    if accounts == [] {
      assert AsSet(accounts) == {};
    } else {
      var init, last := accounts[..|accounts| - 1], accounts[|accounts| - 1];
      assert accounts == init + [last] && last in accounts;
      SumIsObserved(eventKey, steps, init, asset, at);
      assert AsSet(accounts) - {last} == AsSet(init);
      SumOverOneLess(Run(eventKey, steps).rows, AsSet(accounts), asset, Effective(at), last);
      ContributionShows(eventKey, steps, last, asset, at);
    }
  }

  /** Accounts without a selected row add nothing. */
  lemma {:induction false} OthersAddNothing(rows: seq<Balance>, accounts: set<AccountId>, asset: string,
                                            at: Option<Time>)
    ensures SumOver(rows, accounts, asset, at) == SumOver(rows, Contributors(rows, accounts, asset, at), asset, at)
    decreases |accounts|
  {
    var contributors := Contributors(rows, accounts, asset, at);
    if a :| a in accounts && a !in contributors {
      SumOverOneLess(rows, accounts, asset, at, a);
      OthersAddNothing(rows, accounts - {a}, asset, at);
      assert Contributors(rows, accounts - {a}, asset, at) == contributors;
    } else {
      assert contributors == accounts;
    }
  }

  /**
   The query over every run: whatever the order in which observations arrived, the amount of an asset is what
   the accepted logs of the queried accounts show together at the time asked for; without a group they show
   nothing. The result is any answer that the query may give, and an account asked for twice counts once.
   */
  lemma AnswersAreObserved(eventKey: Balance -> string, steps: seq<Step>, res: map<string, Aggregated>,
                           accountIds: seq<AccountId>, accounts: seq<AccountId>, asset: string, at: Option<Time>)
    requires NoDuplicates(accounts) && forall a :: a in accounts <==> a in accountIds
    requires Exact(eventKey, steps, accounts, asset, at)
    requires IsAnswer(res, Run(eventKey, steps).rows, accountIds, asset, at)
    ensures (if asset in res then res[asset].amount else 0) == ObservedTotal(eventKey, steps, accounts, asset, at)
  {
    var rows := Run(eventKey, steps).rows;
    SumIsObserved(eventKey, steps, accounts, asset, at);
    OthersAddNothing(rows, AsSet(accounts), asset, Effective(at));
    ContributorsHaveRows(rows, accounts, asset, at);
    var contributors := Contributors(rows, AsSet(accounts), asset, Effective(at));
    if asset in res {
      var related := res[asset].relatedAccounts;
      var picks :| ArePicked(rows, related, asset, at, picks) && res[asset].amount == TotalOf(rows, picks);
      assert AsSet(related) == contributors;
      PicksSumUp(rows, related, asset, at, picks);
    } else {
      assert contributors == {};
    }
  }
}
