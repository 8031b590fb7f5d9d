/** What the compressed balances table promises: tiling, and agreement with the plain log. */
module BalanceTheorems {
  import opened Common
  import opened Balances
  import Outbox
  import OutboxProtocol

  // ---- The table is a family of independent timelines -----------------------------------------

  lemma {:induction false} ProjectTouch(rows: seq<Balance>, key: Key, createdAt: Time, lastUpdatedAt: Time, k: Key)
    ensures Project(Touch(rows, key, createdAt, lastUpdatedAt), k) ==
            if k == key then TouchEntry(Project(rows, k), createdAt, lastUpdatedAt) else Project(rows, k)
  {
    if rows != [] {
      var init := rows[..|rows| - 1];
      ProjectTouch(init, key, createdAt, lastUpdatedAt, k);
      var touched := Touch(rows, key, createdAt, lastUpdatedAt);
      assert touched[..|rows| - 1] == Touch(init, key, createdAt, lastUpdatedAt);
    }
  }

  lemma ProjectAppend(rows: seq<Balance>, b: Balance, k: Key)
    ensures Project(rows + [b], k) == if b.key == k then Project(rows, k) + [b.entry] else Project(rows, k)
  {
    assert (rows + [b])[..|rows|] == rows;
  }

  lemma {:induction false} ProjectElements(rows: seq<Balance>, k: Key)
    ensures forall e :: e in Project(rows, k) <==> Balance(k, e) in rows
  {
    if rows != [] {
      ProjectElements(rows[..|rows| - 1], k);
      assert rows == rows[..|rows| - 1] + [rows[|rows| - 1]];
    }
  }

  lemma StoredInProjection(rows: seq<Balance>, k: Key, createdAt: Time)
    ensures Stored(rows, k, createdAt) <==> exists e | e in Project(rows, k) :: e.createdAt == createdAt
  {
    ProjectElements(rows, k);
    if Stored(rows, k, createdAt) {
      var r :| r in rows && r.key == k && r.entry.createdAt == createdAt;
      assert r == Balance(k, r.entry);
      assert r.entry in Project(rows, k);
    }
    if e :| e in Project(rows, k) && e.createdAt == createdAt {
      assert Balance(k, e) in rows;
    }
  }

  /** An observation changes the timeline of its own key as Observe says, and no other timeline. */
  lemma InsertBalanceProjects(rows: seq<Balance>, b: Balance, k: Key)
    ensures InsertBalance(rows, b).Err? <==> Observe(Project(rows, b.key), b.entry).Err?
    ensures InsertBalance(rows, b).Ok? ==>
              var rows' := InsertBalance(rows, b).value.rows;
              if k == b.key then Observe(Project(rows, k), b.entry) == Ok(Project(rows', k))
              else Project(rows', k) == Project(rows, k)
  {
    StoredInProjection(rows, b.key, b.entry.createdAt);
    ProjectAppend(rows, b, k);
    var newest := Newest(Project(rows, b.key), None);
    if newest.Some? {
      ProjectTouch(rows, b.key, newest.value.createdAt, b.entry.lastUpdatedAt, k);
      ProjectTouch(rows + [b], b.key, newest.value.createdAt, b.entry.createdAt, k);
    }
  }

  /** The observations of one key, in order of arrival. */
  function LogOf(bs: seq<Balance>, k: Key): seq<Entry> {
    Project(bs, k)
  }

  /** A committed batch changes each timeline by the observations of its own key. */
  lemma {:induction false} InsertAllProjects(rows: seq<Balance>, bs: seq<Balance>, k: Key)
    requires InsertAll(rows, bs).Ok?
    ensures ObserveAll(Project(rows, k), LogOf(bs, k)) == Ok(Project(InsertAll(rows, bs).value.rows, k))
  {
    if bs != [] {
      var init, last := bs[..|bs| - 1], bs[|bs| - 1];
      InsertAllProjects(rows, init, k);
      InsertBalanceProjects(InsertAll(rows, init).value.rows, last, k);
      if last.key == k {
        var log := LogOf(init, k);
        assert (log + [last.entry])[..|log|] == log;
      }
    }
  }

  /** The first observation that fails aborts the batch with its error. */
  lemma {:induction false} FirstErrorAborts(rows: seq<Balance>, bs: seq<Balance>, n: nat)
    requires n <= |bs| && InsertAll(rows, bs[..n]).Err?
    ensures InsertAll(rows, bs) == Err(InsertAll(rows, bs[..n]).error)
    decreases |bs|
  {
    if n == |bs| {
      assert bs[..n] == bs;
    } else {
      assert bs[..|bs| - 1][..n] == bs[..n];
      FirstErrorAborts(rows, bs[..|bs| - 1], n);
    }
  }

  // ---- Runs -----------------------------------------------------------------------------------

  /** Between two calls the outbox may change in any way. */
  datatype Step = UpsertStep(now: Time, batch: seq<Balance>) | OutboxStep(outbox: Outbox.State)

  function Apply(eventKey: Balance -> string, t: Tables, step: Step): Tables {
    match step
    case OutboxStep(outbox) => t.(outbox := outbox)
    case UpsertStep(now, batch) =>
      match Upsert(eventKey, now, t, batch)
      case Ok(t') => t'
      case Err(_) => t
  }

  const EMPTY := Tables([], Outbox.State([], {}))

  function Run(eventKey: Balance -> string, steps: seq<Step>): Tables {
    if steps == [] then EMPTY else Apply(eventKey, Run(eventKey, steps[..|steps| - 1]), steps[|steps| - 1])
  }

  /** The observations of the batches that committed. */
  function CommittedLog(eventKey: Balance -> string, steps: seq<Step>, k: Key): seq<Entry> {
    if steps == [] then []
    else
      var init, last := steps[..|steps| - 1], steps[|steps| - 1];
      var log := CommittedLog(eventKey, init, k);
      if last.UpsertStep? && Upsert(eventKey, last.now, Run(eventKey, init), last.batch).Ok?
      then log + LogOf(last.batch, k) else log
  }

  lemma {:induction false} ObserveAllAppend(tl: Timeline, a: seq<Entry>, b: seq<Entry>)
    requires ObserveAll(tl, a).Ok?
    ensures ObserveAll(tl, a + b) == ObserveAll(ObserveAll(tl, a).value, b)
    decreases |b|
  {
    if b == [] {
      assert a + b == a;
    } else {
      ObserveAllAppend(tl, a, b[..|b| - 1]);
      assert (a + b)[..|a + b| - 1] == a + b[..|b| - 1];
    }
  }

  /** After every run, each timeline is the compression of the committed observations of its key. */
  lemma {:induction false} RunCompressesTheLog(eventKey: Balance -> string, steps: seq<Step>, k: Key)
    ensures ObserveAll([], CommittedLog(eventKey, steps, k)) == Ok(Project(Run(eventKey, steps).rows, k))
  {
    if steps != [] {
      var init, last := steps[..|steps| - 1], steps[|steps| - 1];
      RunCompressesTheLog(eventKey, init, k);
      var t := Run(eventKey, init);
      if last.UpsertStep? && Upsert(eventKey, last.now, t, last.batch).Ok? {
        InsertAllProjects(t.rows, last.batch, k);
        ObserveAllAppend([], CommittedLog(eventKey, init, k), LogOf(last.batch, k));
      }
    }
  }

  // ---- Tiling ---------------------------------------------------------------------------------

  lemma {:induction false} TiledIncreases(tl: Timeline, i: nat, j: nat)
    requires Tiled(tl) && i < j < |tl|
    ensures tl[i].createdAt < tl[j].createdAt
    decreases j
  {
    if i < j - 1 {
      TiledIncreases(tl, i, j - 1);
    }
    assert tl[j - 1].createdAt < tl[j - 1 + 1].createdAt;
  }

  lemma {:induction false} NewestOfTiled(tl: Timeline)
    requires Tiled(tl)
    ensures Newest(tl, None) == if tl == [] then None else Some(tl[|tl| - 1])
  {
    if |tl| > 1 {
      var n := |tl| - 1;
      assert tl[n - 1].createdAt < tl[n - 1 + 1].createdAt;
      NewestOfTiled(tl[..n]);
    }
  }

  /** On a tiled timeline an observation is ignored, extends the last row, collides, or starts a new row. */
  lemma ObserveTiled(tl: Timeline, e: Entry)
    requires Tiled(tl) && tl != []
    ensures var n := |tl| - 1;
            Observe(tl, e) ==
            if e.createdAt < tl[n].createdAt then Ok(tl)
            else if e.balance == tl[n].balance then Ok(tl[n := tl[n].(lastUpdatedAt := e.lastUpdatedAt)])
            else if e.createdAt == tl[n].createdAt then Err(DuplicateKey)
            else Ok(tl[n := tl[n].(lastUpdatedAt := e.createdAt)] + [e])
  {
    NewestOfTiled(tl);
    var n := |tl| - 1;
    forall i | 0 <= i < n ensures tl[i].createdAt < tl[n].createdAt {
      TiledIncreases(tl, i, n);
    }
    assert tl[n] in tl;
    if e.createdAt >= tl[n].createdAt && e.balance == tl[n].balance {
      assert TouchEntry(tl, tl[n].createdAt, e.lastUpdatedAt) == tl[n := tl[n].(lastUpdatedAt := e.lastUpdatedAt)];
    } else if e.createdAt > tl[n].createdAt {
      assert TouchEntry(tl + [e], tl[n].createdAt, e.createdAt) == tl[n := tl[n].(lastUpdatedAt := e.createdAt)] + [e];
    }
  }

  lemma ObserveKeepsTiled(tl: Timeline, e: Entry)
    requires Tiled(tl) && Observe(tl, e).Ok?
    ensures Tiled(Observe(tl, e).value)
  {
    if tl != [] {
      ObserveTiled(tl, e);
    }
  }

  lemma {:induction false} ObserveAllKeepsTiled(tl: Timeline, log: seq<Entry>)
    requires Tiled(tl) && ObserveAll(tl, log).Ok?
    ensures Tiled(ObserveAll(tl, log).value)
  {
    if log != [] {
      ObserveAllKeepsTiled(tl, log[..|log| - 1]);
      ObserveKeepsTiled(ObserveAll(tl, log[..|log| - 1]).value, log[|log| - 1]);
    }
  }

  /** In every reachable table, whatever the order of arrival, every timeline is tiled. */
  lemma RunsAreTiled(eventKey: Balance -> string, steps: seq<Step>, k: Key)
    ensures Tiled(Project(Run(eventKey, steps).rows, k))
  {
    RunCompressesTheLog(eventKey, steps, k);
    ObserveAllKeepsTiled([], CommittedLog(eventKey, steps, k));
  }

  /** The only failing observation: another balance at the very instant of the newest row. */
  lemma ObservationCollidesIff(eventKey: Balance -> string, steps: seq<Step>, b: Balance)
    ensures var tl := Project(Run(eventKey, steps).rows, b.key);
            InsertBalance(Run(eventKey, steps).rows, b).Err? <==>
            tl != [] && tl[|tl| - 1].createdAt == b.entry.createdAt && tl[|tl| - 1].balance != b.entry.balance
  {
    var rows := Run(eventKey, steps).rows;
    RunsAreTiled(eventKey, steps, b.key);
    InsertBalanceProjects(rows, b, b.key);
    if Project(rows, b.key) != [] {
      ObserveTiled(Project(rows, b.key), b.entry);
    }
  }

  // ---- Time travel ----------------------------------------------------------------------------

  /** The last row created at or before a time, whether or not it was still confirmed then. */
  function RowAt(tl: Timeline, t: Time): Option<Entry> {
    LogAt(tl, t)
  }

  function BalanceOf(e: Option<Entry>): Option<int> {
    if e.Some? then Some(e.value.balance) else None
  }

  lemma RestampedRowAt(tl: Timeline, t: Time, lastUpdatedAt: Time)
    requires tl != []
    ensures var n := |tl| - 1;
            BalanceOf(RowAt(tl[n := tl[n].(lastUpdatedAt := lastUpdatedAt)], t)) == BalanceOf(RowAt(tl, t))
  {
    var n := |tl| - 1;
    assert tl[n := tl[n].(lastUpdatedAt := lastUpdatedAt)][..n] == tl[..n];
  }

  predicate IsLate(tl: Timeline, e: Entry) {
    tl != [] && tl[|tl| - 1].createdAt > e.createdAt
  }

  /** The observations that were not older than the newest row when they arrived; the others are ignored. */
  function AcceptedOf(log: seq<Entry>): seq<Entry>
    requires ObserveAll([], log).Ok?
  {
    if log == [] then []
    else
      var init, last := log[..|log| - 1], log[|log| - 1];
      if IsLate(ObserveAll([], init).value, last) then AcceptedOf(init) else AcceptedOf(init) + [last]
  }

  /** A tiled timeline that shows the same balance as a log at a time. */
  predicate Follows(tl: Timeline, log: seq<Entry>, t: Time) {
    && Tiled(tl)
    && BalanceOf(RowAt(tl, t)) == BalanceOf(LogAt(log, t))
    && (tl == [] <==> log == [])
    && (log != [] ==>
          && tl[0].createdAt == log[0].createdAt
          && tl[|tl| - 1].createdAt <= log[|log| - 1].createdAt
          && tl[|tl| - 1].lastUpdatedAt == log[|log| - 1].lastUpdatedAt
          && exists e :: e in log && e.createdAt == tl[|tl| - 1].createdAt)
  }

  /** An observation with the balance of the last row extends that row. */
  lemma ExtendingFollows(tl: Timeline, log: seq<Entry>, e: Entry, t: Time)
    requires Follows(tl, log, t) && log != [] && tl[|tl| - 1].createdAt <= e.createdAt
    requires e.balance == tl[|tl| - 1].balance
    ensures Follows(tl[|tl| - 1 := tl[|tl| - 1].(lastUpdatedAt := e.lastUpdatedAt)], log + [e], t)
  {
    RestampedRowAt(tl, t, e.lastUpdatedAt);
    assert (log + [e])[..|log|] == log;
    var x :| x in log && x.createdAt == tl[|tl| - 1].createdAt;
    assert x in log + [e];
  }

  /** An observation with another balance ends the last row and begins a new one. */
  lemma AppendingFollows(tl: Timeline, log: seq<Entry>, e: Entry, t: Time)
    requires Follows(tl, log, t) && log != [] && tl[|tl| - 1].createdAt < e.createdAt
    requires e.balance != tl[|tl| - 1].balance
    ensures Follows(tl[|tl| - 1 := tl[|tl| - 1].(lastUpdatedAt := e.createdAt)] + [e], log + [e], t)
  {
    RestampedRowAt(tl, t, e.createdAt);
    var ended := tl[|tl| - 1 := tl[|tl| - 1].(lastUpdatedAt := e.createdAt)];
    assert (ended + [e])[..|ended|] == ended;
    assert (log + [e])[..|log|] == log;
    assert e in log + [e];
  }

  /** Compression loses no balance of the accepted observations at any instant, in any order of arrival. */
  lemma {:induction false} CompressionAgrees(log: seq<Entry>, t: Time)
    requires ObserveAll([], log).Ok?
    ensures Follows(ObserveAll([], log).value, AcceptedOf(log), t)
  {
    if log != [] {
      var init, e := log[..|log| - 1], log[|log| - 1];
      CompressionAgrees(init, t);
      var tl := ObserveAll([], init).value;
      if tl == [] {
        assert AcceptedOf(log) == [] + [e];
      } else {
        ObserveTiled(tl, e);
        if !IsLate(tl, e) && e.balance == tl[|tl| - 1].balance {
          ExtendingFollows(tl, AcceptedOf(init), e, t);
        } else if !IsLate(tl, e) {
          AppendingFollows(tl, AcceptedOf(init), e, t);
        }
      }
    }
  }

  /** An observation that is not older than any before it is accepted. */
  lemma NewestIsAccepted(log: seq<Entry>, e: Entry)
    requires ObserveAll([], log).Ok? && AcceptedOf(log) == log
    requires forall x | x in log :: x.createdAt <= e.createdAt
    ensures !IsLate(ObserveAll([], log).value, e)
  {
    CompressionAgrees(log, 0);
  }

  lemma LastOfOrdered(log: seq<Entry>)
    requires InOrder(log) && log != []
    ensures var n := |log| - 1;
            log == log[..n] + [log[n]] && forall x | x in log[..n] :: x.createdAt <= log[n].createdAt
  {
  }

  /** When observations arrive in order, none is ignored. */
  lemma {:induction false} OrderedLogsAreAccepted(log: seq<Entry>)
    requires InOrder(log) && ObserveAll([], log).Ok?
    ensures AcceptedOf(log) == log
  {
    if log != [] {
      LastOfOrdered(log);
      var init := log[..|log| - 1];
      OrderedLogsAreAccepted(init);
      NewestIsAccepted(init, log[|log| - 1]);
    }
  }

  /** The last row ends before it begins: its observation was stamped older than its creation. */
  predicate StaleEdge(tl: Timeline, t: Time) {
    var n := |tl| - 1;
    n > 0 && t == tl[n].createdAt && tl[n].lastUpdatedAt < tl[n].createdAt
  }

  predicate Covered(tl: Timeline, t: Time) {
    var n := |tl| - 1;
    tl != [] && tl[0].createdAt <= t && (t <= tl[n].lastUpdatedAt || (n > 0 && t <= tl[n].createdAt))
  }

  /** Which row the query picks on a tiled timeline. */
  lemma {:induction false} SelectOnTiled(tl: Timeline, t: Time)
    requires Tiled(tl)
    ensures Newest(tl, Some(t)).Some? <==> Covered(tl, t)
    ensures Covered(tl, t) && !StaleEdge(tl, t) ==> Newest(tl, Some(t)) == RowAt(tl, t)
    ensures StaleEdge(tl, t) ==> Newest(tl, Some(t)) == Some(tl[|tl| - 2])
  {
    if tl != [] {
      var n := |tl| - 1;
      SelectOnTiled(tl[..n], t);
      if n > 0 {
        var previous := tl[n - 1];
        assert previous.createdAt < tl[n - 1 + 1].createdAt && previous.lastUpdatedAt == tl[n - 1 + 1].createdAt;
        NewestIsEarlier(tl[..n], Some(t));
        TiledIncreases(tl, 0, n);
      }
    }
  }

  lemma {:induction false} NewestIsEarlier(tl: Timeline, at: Option<Time>)
    requires Tiled(tl) && tl != []
    ensures Newest(tl, at).Some? ==> Newest(tl, at).value.createdAt <= tl[|tl| - 1].createdAt
  {
    if |tl| > 1 {
      var n := |tl| - 1;
      assert tl[n - 1].createdAt < tl[n - 1 + 1].createdAt;
      NewestIsEarlier(tl[..n], at);
    }
  }

  /** The accepted observations of a key in a run. */
  function AcceptedLog(eventKey: Balance -> string, steps: seq<Step>, k: Key): seq<Entry> {
    RunCompressesTheLog(eventKey, steps, k);
    AcceptedOf(CommittedLog(eventKey, steps, k))
  }

  /**
   Time travel. After any run, in whatever order observations arrived, the query at a time finds a row
   exactly on the covered times, and that row holds the balance of the last accepted observation at or
   before it, exactly unless the time is a stale edge: there it holds the balance of the row before.
   */
  lemma TimeTravelAgreesIff(eventKey: Balance -> string, steps: seq<Step>, k: Key, t: Time)
    ensures var tl, log := Project(Run(eventKey, steps).rows, k), AcceptedLog(eventKey, steps, k);
            && (Newest(tl, Some(t)).Some? <==> Covered(tl, t))
            && (Covered(tl, t) ==> (BalanceOf(Newest(tl, Some(t))) == BalanceOf(LogAt(log, t)) <==> !StaleEdge(tl, t)))
  {
    var tl := Project(Run(eventKey, steps).rows, k);
    RunCompressesTheLog(eventKey, steps, k);
    CompressionAgrees(CommittedLog(eventKey, steps, k), t);
    SelectOnTiled(tl, t);
    if StaleEdge(tl, t) {
      var n := |tl| - 1;
      assert tl[n - 1].balance != tl[n - 1 + 1].balance;
    }
  }

  /** Observations made from a provider's balance carry their creation time as last update. */
  predicate FreshlyStamped(log: seq<Entry>) {
    forall e | e in log :: e.lastUpdatedAt == e.createdAt
  }

  lemma {:induction false} AcceptedAreObserved(log: seq<Entry>)
    requires ObserveAll([], log).Ok?
    ensures forall e | e in AcceptedOf(log) :: e in log
  {
    if log != [] {
      AcceptedAreObserved(log[..|log| - 1]);
      assert log == log[..|log| - 1] + [log[|log| - 1]];
    }
  }

  /**
   For provider balances, in any order of arrival, the query answers at every time between the first
   and the last accepted observation, with exactly the balance last accepted, and nowhere else.
   */
  lemma ProviderBalancesTimeTravel(eventKey: Balance -> string, steps: seq<Step>, k: Key, t: Time)
    requires FreshlyStamped(CommittedLog(eventKey, steps, k))
    ensures var tl, log := Project(Run(eventKey, steps).rows, k), AcceptedLog(eventKey, steps, k);
            BalanceOf(Newest(tl, Some(t))) ==
            if log != [] && log[0].createdAt <= t <= log[|log| - 1].createdAt then BalanceOf(LogAt(log, t)) else None
  {
    var log := AcceptedLog(eventKey, steps, k);
    RunCompressesTheLog(eventKey, steps, k);
    CompressionAgrees(CommittedLog(eventKey, steps, k), t);
    AcceptedAreObserved(CommittedLog(eventKey, steps, k));
    TimeTravelAgreesIff(eventKey, steps, k, t);
    if log != [] {
      assert log[|log| - 1] in log;
    }
  }

  /** For provider balances delivered in order, all this holds of the plain log of observations. */
  lemma OrderedProviderBalancesTimeTravel(eventKey: Balance -> string, steps: seq<Step>, k: Key, t: Time)
    requires InOrder(CommittedLog(eventKey, steps, k)) && FreshlyStamped(CommittedLog(eventKey, steps, k))
    ensures var tl, log := Project(Run(eventKey, steps).rows, k), CommittedLog(eventKey, steps, k);
            BalanceOf(Newest(tl, Some(t))) ==
            if log != [] && log[0].createdAt <= t <= log[|log| - 1].createdAt then BalanceOf(LogAt(log, t)) else None
  {
    RunCompressesTheLog(eventKey, steps, k);
    OrderedLogsAreAccepted(CommittedLog(eventKey, steps, k));
    ProviderBalancesTimeTravel(eventKey, steps, k, t);
  }

  lemma TwoObservations(k: Key, first: Entry, second: Entry)
    requires first.createdAt < second.createdAt && first.balance != second.balance
    ensures var bs := [Balance(k, first), Balance(k, second)];
            InsertAll([], bs) ==
            Ok(Accepted([Balance(k, first.(lastUpdatedAt := second.createdAt)), Balance(k, second)], bs))
  {
    var a, b := Balance(k, first), Balance(k, second);
    assert [a, b][..1] == [a] && [a][..0] == [];
    assert InsertBalance([], a) == Ok(Inserted([] + [a], true));
    assert InsertAll([], [a][..0]) == Ok(Accepted([], []));
    assert InsertAll([], [a]) == Ok(Accepted([] + [a], [] + [a]));
    assert [] + [a] == [a];
    SingleProjection(a);
    NewestOfTiled([first]);
    assert !Stored([a], k, second.createdAt);
    assert Touch([a] + [b], k, first.createdAt, second.createdAt) ==
           [Balance(k, first.(lastUpdatedAt := second.createdAt)), b];
    assert [a] + [b] == [a, b];
  }

  lemma SingleProjection(b: Balance)
    ensures Project([b], b.key) == [b.entry]
  {
    assert [b][..0] == [];
  }

  /** A stale edge needs an observation stamped older than its creation, and one batch of two reaches it. */
  lemma StaleEdgeIsReachable(eventKey: Balance -> string, k: Key)
    requires forall b: Balance :: eventKey(b) != ""
    ensures var steps := [UpsertStep(0, [Balance(k, Entry(1, 5, 1)), Balance(k, Entry(3, 7, 2))])];
            var tl := Project(Run(eventKey, steps).rows, k);
            StaleEdge(tl, 3) && Newest(tl, Some(3)) == Some(Entry(1, 5, 3)) && RowAt(tl, 3) == Some(Entry(3, 7, 2))
  {
    var first, second := Entry(1, 5, 1), Entry(3, 7, 2);
    var steps := [UpsertStep(0, [Balance(k, first), Balance(k, second)])];
    assert steps[..0] == [];
    TwoObservations(k, first, second);
    var rows := [Balance(k, Entry(1, 5, 3)), Balance(k, second)];
    assert Run(eventKey, steps).rows == rows;
    assert rows == [rows[0]] + [rows[1]];
    SingleProjection(rows[0]);
    ProjectAppend([rows[0]], rows[1], k);
    SelectOnTiled([Entry(1, 5, 3), second], 3);
  }

  // ---- Coverage -------------------------------------------------------------------------------

  /** The last time that a timeline covers, if it covers any. */
  function End(tl: Timeline): Time
    requires tl != []
  {
    var last := tl[|tl| - 1];
    if |tl| > 1 && last.lastUpdatedAt < last.createdAt then last.createdAt else last.lastUpdatedAt
  }

  lemma CoveredUntilTheEnd(tl: Timeline, t: Time)
    requires Tiled(tl) && tl != []
    ensures Covered(tl, t) <==> tl[0].createdAt <= t <= End(tl)
  {
  }

  /** No time that was answered stops being answered. */
  ghost predicate KeepsCoverage(tl: Timeline, tl': Timeline) {
    forall t :: Newest(tl, Some(t)).Some? ==> Newest(tl', Some(t)).Some?
  }

  lemma KeepsCoverageIffEnd(tl: Timeline, tl': Timeline)
    requires Tiled(tl) && Tiled(tl') && tl != [] && tl' != [] && tl'[0].createdAt == tl[0].createdAt
    ensures KeepsCoverage(tl, tl') <==> End(tl) < tl[0].createdAt || End(tl) <= End(tl')
  {
    forall t ensures Newest(tl, Some(t)).Some? <==> tl[0].createdAt <= t <= End(tl) {
      SelectOnTiled(tl, t);
      CoveredUntilTheEnd(tl, t);
    }
    forall t ensures Newest(tl', Some(t)).Some? <==> tl'[0].createdAt <= t <= End(tl') {
      SelectOnTiled(tl', t);
      CoveredUntilTheEnd(tl', t);
    }
    if KeepsCoverage(tl, tl') && tl[0].createdAt <= End(tl) {
      assert Newest(tl, Some(End(tl))).Some?;
    }
  }

  /**
   Which observations keep every answer: those that are ignored, those of a timeline that answers
   nothing, and those that last at least as long as the timeline did. All of it can be read off the
   newest row before the call.
   */
  lemma CoverageIsKeptIff(tl: Timeline, e: Entry)
    requires Tiled(tl) && tl != [] && Observe(tl, e).Ok?
    ensures var last := tl[|tl| - 1];
            KeepsCoverage(tl, Observe(tl, e).value) <==>
            || e.createdAt < last.createdAt
            || End(tl) < tl[0].createdAt
            || End(tl) <= e.lastUpdatedAt
            || (if e.balance == last.balance then |tl| > 1 && End(tl) <= last.createdAt else End(tl) <= e.createdAt)
  {
    ObserveTiled(tl, e);
    ObserveKeepsTiled(tl, e);
    KeepsCoverageIffEnd(tl, Observe(tl, e).value);
  }

  /**
   A late observation with another balance, between the creation of the newest row and its last
   confirmation, is the failing family: the time of that confirmation is answered before and not after.
   */
  lemma LateObservationLosesCoverage(tl: Timeline, e: Entry)
    requires Tiled(tl) && tl != []
    requires var last := tl[|tl| - 1];
             last.createdAt < e.createdAt == e.lastUpdatedAt < last.lastUpdatedAt && e.balance != last.balance
    ensures Observe(tl, e).Ok? && !KeepsCoverage(tl, Observe(tl, e).value)
    ensures var confirmed := tl[|tl| - 1].lastUpdatedAt;
            Newest(tl, Some(confirmed)) == Some(tl[|tl| - 1]) && Newest(Observe(tl, e).value, Some(confirmed)) == None
  {
    var confirmed := tl[|tl| - 1].lastUpdatedAt;
    ObserveTiled(tl, e);
    ObserveKeepsTiled(tl, e);
    if |tl| > 1 {
      TiledIncreases(tl, 0, |tl| - 1);
    }
    CoverageIsKeptIff(tl, e);
    SelectOnTiled(tl, confirmed);
    SelectOnTiled(Observe(tl, e).value, confirmed);
  }

  // ---- Listing --------------------------------------------------------------------------------

  lemma {:induction false} NewestIsAMatch(tl: Timeline, at: Option<Time>)
    ensures Newest(tl, at).Some? ==> Newest(tl, at).value in tl && Matches(Newest(tl, at).value, at)
  {
    if tl != [] {
      NewestIsAMatch(tl[..|tl| - 1], at);
      assert tl == tl[..|tl| - 1] + [tl[|tl| - 1]];
    }
  }

  ghost predicate AnswersIn(tl: Timeline, from: Time, to: Time, e: Entry) {
    exists t | from <= t <= to :: Newest(tl, Some(t)) == Some(e)
  }

  lemma {:induction false} RowAtIndex(tl: Timeline, i: nat, t: Time)
    requires Tiled(tl) && i < |tl| && tl[i].createdAt <= t && (i + 1 < |tl| ==> t < tl[i + 1].createdAt)
    ensures RowAt(tl, t) == Some(tl[i])
    decreases |tl|
  {
    var n := |tl| - 1;
    if i < n {
      if i + 1 < n {
        TiledIncreases(tl, i + 1, n);
      }
      RowAtIndex(tl[..n], i, t);
    }
  }

  lemma AnswersWhileNewest(tl: Timeline, i: nat, from: Time, to: Time)
    requires Tiled(tl) && i < |tl| && from <= to && InWindow(tl[i], Some(from), Some(to))
    requires if i == |tl| - 1 then tl[i].createdAt <= tl[i].lastUpdatedAt else from < tl[i].lastUpdatedAt
    ensures AnswersIn(tl, from, to, tl[i])
  {
    var n := |tl| - 1;
    var t := if from <= tl[i].createdAt then tl[i].createdAt else from;
    if i < n {
      assert tl[i].createdAt < tl[i + 1].createdAt && tl[i].lastUpdatedAt == tl[i + 1].createdAt;
      if i + 1 < n {
        TiledIncreases(tl, i + 1, n);
      }
    }
    if 0 < i {
      TiledIncreases(tl, 0, i);
    }
    RowAtIndex(tl, i, t);
    SelectOnTiled(tl, t);
    assert Newest(tl, Some(t)) == Some(tl[i]);
  }

  lemma HiddenByTheNext(tl: Timeline, i: nat, t: Time)
    requires Tiled(tl) && i + 1 < |tl| && t == tl[i].lastUpdatedAt && !StaleEdge(tl, t)
    ensures Newest(tl, Some(t)) != Some(tl[i])
  {
    var n := |tl| - 1;
    assert tl[i].createdAt < tl[i + 1].createdAt == t;
    if i + 1 < n {
      TiledIncreases(tl, i + 1, i + 2);
    }
    RowAtIndex(tl, i + 1, t);
    SelectOnTiled(tl, t);
  }

  /**
   The rows listed for a window and the time-travel answers inside it. Every answer is listed. A
   listed row is the answer at some time of the window, except the row that ends just where the
   window begins, hidden by the next one, and a last row stamped as ending before it began.
   */
  lemma ListedRowsAndAnswers(tl: Timeline, i: nat, from: Time, to: Time)
    requires Tiled(tl) && i < |tl| && from <= to
    ensures AnswersIn(tl, from, to, tl[i]) <==>
            InWindow(tl[i], Some(from), Some(to)) &&
            (if i == |tl| - 1 then tl[i].createdAt <= tl[i].lastUpdatedAt
             else from < tl[i].lastUpdatedAt || StaleEdge(tl, from))
  {
    var n := |tl| - 1;
    var listed := InWindow(tl[i], Some(from), Some(to));
    forall t | from <= t <= to && Newest(tl, Some(t)) == Some(tl[i])
      ensures listed && tl[i].createdAt <= tl[i].lastUpdatedAt
      ensures i < n ==> from < tl[i].lastUpdatedAt || StaleEdge(tl, from)
    {
      NewestIsAMatch(tl, Some(t));
      if i < n && t == tl[i].lastUpdatedAt && !StaleEdge(tl, t) {
        HiddenByTheNext(tl, i, t);
      }
    }
    if listed && i < n && from == tl[i].lastUpdatedAt && StaleEdge(tl, from) {
      if i + 1 < n {
        TiledIncreases(tl, i + 1, n);
      }
      assert tl[i].lastUpdatedAt == tl[i + 1].createdAt;
      SelectOnTiled(tl, from);
      assert Newest(tl, Some(from)) == Some(tl[i]);
    } else if listed && (if i == n then tl[i].createdAt <= tl[i].lastUpdatedAt else from < tl[i].lastUpdatedAt) {
      AnswersWhileNewest(tl, i, from, to);
    }
  }

  // ---- Aggregation ----------------------------------------------------------------------------

  /** A sum over a set does not depend on the order in which its elements are taken. */
  lemma {:induction false} SumOverOneLess(rows: seq<Balance>, accounts: set<AccountId>, asset: string,
                                          at: Option<Time>, a: AccountId)
    requires a in accounts
    ensures SumOver(rows, accounts, asset, at) ==
            Contribution(rows, a, asset, at) + SumOver(rows, accounts - {a}, asset, at)
    decreases |accounts|
  {
    var first :| first in accounts &&
      SumOver(rows, accounts, asset, at) ==
      Contribution(rows, first, asset, at) + SumOver(rows, accounts - {first}, asset, at);
    if first != a {
      SumOverOneLess(rows, accounts - {first}, asset, at, a);
      assert accounts - {first} - {a} == accounts - {a} - {first};
      SumOverOneLess(rows, accounts - {a}, asset, at, first);
    }
  }

  /** Whether a row may be picked at a time: any row without a time or at the zero time, else those that cover it. */
  predicate Qualifies(e: Entry, at: Option<Time>) {
    at.None? || at == Some(0) || e.createdAt <= at.value <= e.lastUpdatedAt
  }

  /** The row picked for an account and asset: the newest that qualifies, and the last stored among equals. */
  ghost predicate IsPicked(rows: seq<Balance>, account: AccountId, asset: string, at: Option<Time>, i: int) {
    && 0 <= i < |rows| && rows[i].key == Key(account, asset) && Qualifies(rows[i].entry, at)
    && forall j | 0 <= j < |rows| && rows[j].key == Key(account, asset) && Qualifies(rows[j].entry, at) ::
         || rows[j].entry.createdAt < rows[i].entry.createdAt
         || (rows[j].entry.createdAt == rows[i].entry.createdAt && j <= i)
  }

  lemma PickedOneMore(rows: seq<Balance>, b: Balance, account: AccountId, asset: string, at: Option<Time>, i: int)
    requires IsPicked(rows, account, asset, at, i)
    ensures var newer := b.key == Key(account, asset) && Qualifies(b.entry, at) &&
                         rows[i].entry.createdAt <= b.entry.createdAt;
            IsPicked(rows + [b], account, asset, at, if newer then |rows| else i)
  {
    assert forall j | 0 <= j < |rows| :: (rows + [b])[j] == rows[j];
  }

  /** The query selects a row exactly if one is picked, and then that one. */
  lemma {:induction false} SelectedIsPicked(rows: seq<Balance>, account: AccountId, asset: string, at: Option<Time>)
    ensures var selected := Selected(rows, account, asset, Effective(at));
            && (selected.None? ==> forall i :: !IsPicked(rows, account, asset, at, i))
            && (selected.Some? ==> exists i :: IsPicked(rows, account, asset, at, i) && rows[i].entry == selected.value)
  {
    if rows != [] {
      var n := |rows| - 1;
      var init := rows[..n];
      SelectedIsPicked(init, account, asset, at);
      assert rows == init + [rows[n]];
      var key := Key(account, asset);
      ProjectAppend(init, rows[n], key);
      var tl := Project(init, key);
      assert (tl + [rows[n].entry])[..|tl|] == tl;
      assert Matches(rows[n].entry, Effective(at)) <==> Qualifies(rows[n].entry, at);
      if Selected(init, account, asset, Effective(at)).Some? {
        var i :| IsPicked(init, account, asset, at, i) &&
          init[i].entry == Selected(init, account, asset, Effective(at)).value;
        PickedOneMore(init, rows[n], account, asset, at, i);
      } else {
        forall j | 0 <= j < n && init[j].key == key ensures !Qualifies(init[j].entry, at) {
          NothingQualifies(init, account, asset, at, j);
        }
        forall i
          ensures IsPicked(rows, account, asset, at, i) <==>
                  i == n && rows[n].key == key && Qualifies(rows[n].entry, at)
        {
          OnlyTheLastIsPicked(init, rows[n], account, asset, at, i);
        }
      }
    }
  }

  lemma NothingQualifies(rows: seq<Balance>, account: AccountId, asset: string, at: Option<Time>, j: nat)
    requires Newest(Project(rows, Key(account, asset)), Effective(at)).None?
    requires j < |rows| && rows[j].key == Key(account, asset)
    ensures !Qualifies(rows[j].entry, at)
  {
    NothingMatches(Project(rows, Key(account, asset)), Effective(at));
    ProjectElements(rows, Key(account, asset));
    assert rows[j] == Balance(Key(account, asset), rows[j].entry);
  }

  lemma OnlyTheLastIsPicked(rows: seq<Balance>, b: Balance, account: AccountId, asset: string, at: Option<Time>, i: int)
    requires forall j | 0 <= j < |rows| && rows[j].key == Key(account, asset) :: !Qualifies(rows[j].entry, at)
    ensures IsPicked(rows + [b], account, asset, at, i) <==>
            i == |rows| && b.key == Key(account, asset) && Qualifies(b.entry, at)
  {
    var longer := rows + [b];
    assert forall j | 0 <= j < |rows| :: longer[j] == rows[j];
    if i == |rows| {
      assert longer[i] == b;
    }
  }

  lemma {:induction false} NothingMatches(tl: Timeline, at: Option<Time>)
    requires Newest(tl, at).None?
    ensures forall e | e in tl :: !Matches(e, at)
  {
    if tl != [] {
      NothingMatches(tl[..|tl| - 1], at);
      assert tl == tl[..|tl| - 1] + [tl[|tl| - 1]];
    }
  }

  lemma PickedIsUnique(rows: seq<Balance>, account: AccountId, asset: string, at: Option<Time>, i: int)
    requires IsPicked(rows, account, asset, at, i)
    ensures Selected(rows, account, asset, Effective(at)) == Some(rows[i].entry)
  {
    SelectedIsPicked(rows, account, asset, at);
    var j :| IsPicked(rows, account, asset, at, j) &&
      rows[j].entry == Selected(rows, account, asset, Effective(at)).value;
  }

  /** The balance last accepted at or before a time between the first and the last accepted observation. */
  function ObservedAt(log: seq<Entry>, t: Time): int {
    if log == [] || t < log[0].createdAt || log[|log| - 1].createdAt < t then 0
    else match LogAt(log, t) case Some(e) => e.balance case None => 0
  }

  /** What a sum at a time takes from an account is what was observed there, not what was compressed. */
  lemma ContributionIsObserved(eventKey: Balance -> string, steps: seq<Step>, account: AccountId, asset: string,
                               t: Time)
    requires FreshlyStamped(CommittedLog(eventKey, steps, Key(account, asset)))
    ensures Contribution(Run(eventKey, steps).rows, account, asset, Some(t)) ==
            ObservedAt(AcceptedLog(eventKey, steps, Key(account, asset)), t)
  {
    ProviderBalancesTimeTravel(eventKey, steps, Key(account, asset), t);
  }

  // ---- Events ---------------------------------------------------------------------------------

  /** An observation is announced, and stored, exactly when no row of its key is newer than it. */
  predicate IsCurrent(rows: seq<Balance>, b: Balance) {
    forall e | e in Project(rows, b.key) :: e.createdAt <= b.entry.createdAt
  }

  lemma {:induction false} NewestIsMaximal(tl: Timeline)
    ensures Newest(tl, None).None? <==> tl == []
    ensures Newest(tl, None).Some? ==> Newest(tl, None).value in tl
    ensures forall e | e in tl :: e.createdAt <= Newest(tl, None).value.createdAt
  {
    if tl != [] {
      NewestIsMaximal(tl[..|tl| - 1]);
      assert tl == tl[..|tl| - 1] + [tl[|tl| - 1]];
    }
  }

  lemma ObservationIsAnnouncedIff(rows: seq<Balance>, b: Balance)
    requires InsertBalance(rows, b).Ok?
    ensures InsertBalance(rows, b).value.changed <==> IsCurrent(rows, b)
    ensures !InsertBalance(rows, b).value.changed ==> InsertBalance(rows, b).value.rows == rows
  {
    NewestIsMaximal(Project(rows, b.key));
  }

  /** An observation of a batch that no row of its key was newer than when its turn came. */
  ghost predicate CurrentAt(rows: seq<Balance>, bs: seq<Balance>, i: int) {
    && 0 <= i < |bs| && InsertAll(rows, bs[..i]).Ok?
    && IsCurrent(InsertAll(rows, bs[..i]).value.rows, bs[i])
  }

  lemma CurrentInPrefix(rows: seq<Balance>, bs: seq<Balance>, n: nat, i: nat)
    requires i < n <= |bs|
    ensures CurrentAt(rows, bs[..n], i) <==> CurrentAt(rows, bs, i)
  {
    assert bs[..n][..i] == bs[..i];
  }

  ghost predicate SomeCurrent(rows: seq<Balance>, bs: seq<Balance>, b: Balance) {
    exists i :: CurrentAt(rows, bs, i) && bs[i] == b
  }

  lemma SomeCurrentSplits(rows: seq<Balance>, bs: seq<Balance>, b: Balance)
    requires bs != []
    ensures var n := |bs| - 1;
            SomeCurrent(rows, bs, b) <==> SomeCurrent(rows, bs[..n], b) || (CurrentAt(rows, bs, n) && bs[n] == b)
  {
    var n := |bs| - 1;
    if i :| CurrentAt(rows, bs[..n], i) && bs[..n][i] == b {
      CurrentInPrefix(rows, bs, n, i);
    }
    if i :| CurrentAt(rows, bs, i) && bs[i] == b {
      if i < n {
        CurrentInPrefix(rows, bs, n, i);
      }
    }
  }

  lemma LastIsAnnouncedIff(rows: seq<Balance>, bs: seq<Balance>, b: Balance)
    requires bs != [] && InsertAll(rows, bs).Ok?
    ensures var n := |bs| - 1;
            && InsertAll(rows, bs[..n]).Ok?
            && (b in InsertAll(rows, bs).value.changed <==>
                b in InsertAll(rows, bs[..n]).value.changed || (CurrentAt(rows, bs, n) && bs[n] == b))
  {
    var n := |bs| - 1;
    ObservationIsAnnouncedIff(InsertAll(rows, bs[..n]).value.rows, bs[n]);
  }

  /** The announced observations of a batch are those that were current when their turn came. */
  lemma {:induction false} ChangedAreCurrent(rows: seq<Balance>, bs: seq<Balance>, b: Balance)
    requires InsertAll(rows, bs).Ok?
    ensures b in InsertAll(rows, bs).value.changed <==> SomeCurrent(rows, bs, b)
  {
    if bs != [] {
      var n := |bs| - 1;
      ChangedAreCurrent(rows, bs[..n], b);
      LastIsAnnouncedIff(rows, bs, b);
      SomeCurrentSplits(rows, bs, b);
    }
  }

  /** The events of a batch enter the outbox as its protocol requires, each under its own key and connector. */
  lemma EventsAreNew(eventKey: Balance -> string, now: Time, changed: seq<Balance>)
    ensures var events := EventsOf(eventKey, now, changed);
            && OutboxProtocol.NewEvents(events) && Outbox.AllNewAt(events, now) && |events| == |changed|
            && forall i | 0 <= i < |changed| ::
                 events[i].id == Outbox.EventId(eventKey(changed[i]), Some(changed[i].key.account.connector))
  {
  }

  /** After a commit the event of an announced observation, if its id was not known, waits to be published. */
  lemma AnnouncedObservationWaits(eventKey: Balance -> string, now: Time, t: Tables, bs: seq<Balance>, b: Balance)
    requires Upsert(eventKey, now, t, bs).Ok? && b in InsertAll(t.rows, bs).value.changed
    requires Outbox.EventId(eventKey(b), Some(b.key.account.connector)) !in Outbox.Known(t.outbox)
    ensures Outbox.Event(Outbox.EventId(eventKey(b), Some(b.key.account.connector)), now, Outbox.Pending, 0) in
            Upsert(eventKey, now, t, bs).value.outbox.rows
  {
    var changed := InsertAll(t.rows, bs).value.changed;
    EventsAreNew(eventKey, now, changed);
    var i :| 0 <= i < |changed| && changed[i] == b;
    var events := EventsOf(eventKey, now, changed);
    assert events[i] in events;
    Outbox.InsertedEventWaits(t.outbox, events, now, events[i].id);
  }

  /** A committed batch hands the event of every announced observation to the outbox, and of no other. */
  lemma CommittedBatchIsAnnounced(eventKey: Balance -> string, now: Time, t: Tables, bs: seq<Balance>)
    requires Upsert(eventKey, now, t, bs).Ok?
    ensures InsertAll(t.rows, bs).Ok?
    ensures var changed := InsertAll(t.rows, bs).value.changed;
            Outbox.Known(Upsert(eventKey, now, t, bs).value.outbox) ==
            Outbox.Known(t.outbox) + set b | b in changed :: Outbox.EventId(eventKey(b), Some(b.key.account.connector))
  {
    var changed := InsertAll(t.rows, bs).value.changed;
    var events := EventsOf(eventKey, now, changed);
    Outbox.InsertMakesKnown(t.outbox, events);
    forall b | b in changed ensures EventOf(eventKey, now, b) in events {
      var i :| 0 <= i < |changed| && changed[i] == b;
      assert events[i] == EventOf(eventKey, now, b);
    }
    forall e | e in events ensures exists b :: b in changed && e == EventOf(eventKey, now, b) {
      var i :| 0 <= i < |events| && events[i] == e;
      assert changed[i] in changed;
    }
  }

  /** A batch that meets only newer rows changes nothing and announces nothing. */
  lemma {:induction false} StaleBatchIsIgnored(rows: seq<Balance>, bs: seq<Balance>)
    requires forall b | b in bs ::
               var newest := Newest(Project(rows, b.key), None);
               newest.Some? && newest.value.createdAt > b.entry.createdAt
    ensures InsertAll(rows, bs) == Ok(Accepted(rows, []))
  {
    if bs != [] {
      assert bs[|bs| - 1] in bs && forall b | b in bs[..|bs| - 1] :: b in bs;
      StaleBatchIsIgnored(rows, bs[..|bs| - 1]);
    }
  }
}
