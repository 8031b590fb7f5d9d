/** The error-streak listing against the plain streak, and the instance table over whole runs. */
module InstanceTheorems {
  import opened Common
  import opened Instances

  // ---- The window query is the streak ---------------------------------------------------------

  lemma NewerWithoutNewest(p: set<Instance>, m: Instance, x: Instance)
    requires DistinctTimes(p) && IsNewest(p, m) && x in p && x != m
    ensures RowNumber(p, x) == RowNumber(p - {m}, x) + 1
  {
    assert Newer(p, x) == Newer(p - {m}, x) + {m};
  }

  /** Row number one is the newest; the others are ranked as without it. */
  lemma RankedSplits(p: set<Instance>, m: Instance, n: int)
    requires DistinctTimes(p) && IsNewest(p, m) && n >= 1
    ensures Ranked(p, n) == Ranked(p - {m}, n - 1) + {m}
    ensures m !in Ranked(p - {m}, n - 1)
  {
    assert Newer(p, m) == {};
    forall x | x in p && x != m ensures RowNumber(p, x) == RowNumber(p - {m}, x) + 1 {
      NewerWithoutNewest(p, m, x);
    }
  }

  predicate TopRowsFailed(p: set<Instance>, n: int) {
    |Ranked(p, n)| == n && forall i | i in Ranked(p, n) :: i.error.Some?
  }

  lemma TopRowsFailedSplits(p: set<Instance>, m: Instance, n: int)
    requires DistinctTimes(p) && IsNewest(p, m) && n >= 1
    ensures TopRowsFailed(p, n) <==> m.error.Some? && TopRowsFailed(p - {m}, n - 1)
  {
    RankedSplits(p, m, n);
    var rest := Ranked(p - {m}, n - 1);
    assert m in Ranked(p, n) && forall i | i in rest :: i in Ranked(p, n);
    assert |Ranked(p, n)| == |rest| + 1;
  }

  /** The top n rows are n rows, all failed, exactly when the streak is that long. */
  lemma {:induction false} TopRowsFailedIff(p: set<Instance>, n: nat)
    requires DistinctTimes(p)
    ensures TopRowsFailed(p, n) <==> Streak(p) >= n
    decreases n
  {
    if n == 0 {
      assert Ranked(p, 0) == {};
    } else if p == {} {
      assert Ranked(p, n) == {};
    } else {
      TopRowsFailedSplits(p, NewestOf(p), n);
      TopRowsFailedIff(p - {NewestOf(p)}, n - 1);
    }
  }

  lemma AboveThresholdIff(p: set<Instance>, threshold: int)
    requires DistinctTimes(p)
    ensures AboveThreshold(p, threshold) <==> threshold >= 1 && Streak(p) >= threshold
  {
    if threshold < 1 {
      assert Ranked(p, threshold) == {};
    } else {
      TopRowsFailedIff(p, threshold);
    }
  }

  /** Every row is stored under its own key. */
  predicate Keyed(t: Tables) {
    forall k | k in t.rows :: t.rows[k].key == k
  }

  ghost predicate ListedFor(t: Tables, connector: ConnectorId, threshold: int, schedule: string, i: Instance) {
    i.key.schedule == schedule && IsListed(t, connector, threshold, i)
  }

  /** A latest one among the terminated instances, running ones left aside. */
  ghost predicate IsLatestTerminated(p: set<Instance>, i: Instance) {
    i in p && i.terminated && forall x | x in p && x.terminated :: x.createdAt <= i.createdAt
  }

  /**
   Error-streak refinement. A schedule is listed exactly when it has a terminated instance and the
   streak over all its instances is at least the threshold; its row is the latest terminated one.
   */
  lemma ListedIffStreak(t: Tables, connector: ConnectorId, threshold: int, schedule: string)
    requires Keyed(t)
    requires DistinctTimes(Partition(t.rows, ScheduleKey(schedule, connector)))
    ensures var p := Partition(t.rows, ScheduleKey(schedule, connector));
            && ((exists i :: ListedFor(t, connector, threshold, schedule, i)) <==>
                threshold >= 1 && Streak(p) >= threshold && exists i :: i in p && i.terminated)
            && (forall i | ListedFor(t, connector, threshold, schedule, i) :: IsLatestTerminated(p, i))
            && (forall i, j |
                  ListedFor(t, connector, threshold, schedule, i) && ListedFor(t, connector, threshold, schedule, j) ::
                  i == j)
  {
    var p := Partition(t.rows, ScheduleKey(schedule, connector));
    AboveThresholdIff(p, threshold);
    assert Terminated(p) != {} <==> exists i :: i in p && i.terminated by {
      if i :| i in p && i.terminated {
        assert i in Terminated(p);
      }
      if i :| i in Terminated(p) {
        assert i in p && i.terminated;
      }
    }
    if Terminated(p) != {} && AboveThreshold(p, threshold) {
      var latest := NewestOf(Terminated(p));
      assert Newer(Terminated(p), latest) == {};
      assert latest in p;
      assert ListedFor(t, connector, threshold, schedule, latest);
    }
    forall i | ListedFor(t, connector, threshold, schedule, i) ensures IsLatestTerminated(p, i) {
      forall x | x in p && x.terminated ensures x.createdAt <= i.createdAt {
        assert x !in Newer(Terminated(p), i);
      }
    }
  }

  predicate RunningHaveNoError(p: set<Instance>) {
    forall i | i in p && !i.terminated :: i.error.None?
  }

  lemma TerminatedSplits(p: set<Instance>, m: Instance)
    requires IsNewest(p, m) && m.terminated
    ensures IsNewest(Terminated(p), m) && Terminated(p) - {m} == Terminated(p - {m})
  {
  }

  predicate TopRowsTerminated(p: set<Instance>, n: int) {
    forall i | i in Ranked(p, n) :: i.terminated
  }

  lemma TopRowsTerminatedSplits(p: set<Instance>, m: Instance, n: int)
    requires DistinctTimes(p) && IsNewest(p, m) && n >= 1
    ensures TopRowsTerminated(p, n) <==> m.terminated && TopRowsTerminated(p - {m}, n - 1)
  {
    RankedSplits(p, m, n);
    var rest := Ranked(p - {m}, n - 1);
    assert m in Ranked(p, n) && forall i | i in rest :: i in Ranked(p, n);
  }

  lemma NewestHidesFailures(p: set<Instance>, m: Instance, n: nat)
    requires DistinctTimes(p) && RunningHaveNoError(p) && IsNewest(p, m) && n >= 1
    requires var q := p - {m};
             TopRowsFailed(q, n - 1) <==> TopRowsFailed(Terminated(q), n - 1) && TopRowsTerminated(q, n - 1)
    ensures TopRowsFailed(p, n) <==> TopRowsFailed(Terminated(p), n) && TopRowsTerminated(p, n)
  {
    TopRowsFailedSplits(p, m, n);
    TopRowsTerminatedSplits(p, m, n);
    if m.terminated {
      TerminatedSplits(p, m);
      TopRowsFailedSplits(Terminated(p), m, n);
    }
  }

  /** The last n instances failed exactly if the last n terminated ones did and none of the last n is running. */
  lemma {:induction false} RunningInstancesHideFailures(p: set<Instance>, n: nat)
    requires DistinctTimes(p) && RunningHaveNoError(p)
    ensures TopRowsFailed(p, n) <==> TopRowsFailed(Terminated(p), n) && TopRowsTerminated(p, n)
    decreases n
  {
    if n == 0 {
      assert Ranked(p, 0) == {} && Ranked(Terminated(p), 0) == {};
    } else if p == {} {
      assert Ranked(p, n) == {} && Ranked(Terminated(p), n) == {};
    } else {
      RunningInstancesHideFailures(p - {NewestOf(p)}, n - 1);
      NewestHidesFailures(p, NewestOf(p), n);
    }
  }

  /**
   Executions against instances. A schedule reaches the threshold exactly if its last executions all
   returned errors and none of its last instances is still running.
   */
  lemma FailedExecutionsAreListedIff(p: set<Instance>, threshold: int)
    requires DistinctTimes(p) && RunningHaveNoError(p)
    ensures AboveThreshold(p, threshold) <==>
            AboveThreshold(Terminated(p), threshold) && TopRowsTerminated(p, threshold)
  {
    AboveThresholdIff(Terminated(p), threshold);
    AboveThresholdIff(p, threshold);
    if threshold >= 1 {
      RunningInstancesHideFailures(p, threshold);
      TopRowsFailedIff(p, threshold);
      TopRowsFailedIff(Terminated(p), threshold);
    }
  }

  /** A running instance, as the newest one, takes its schedule off the list for every threshold. */
  lemma RunningInstanceEndsTheStreak(p: set<Instance>, running: Instance, threshold: int)
    requires DistinctTimes(p + {running}) && IsNewest(p + {running}, running) && running.error.None?
    ensures Streak(p + {running}) == 0 && !AboveThreshold(p + {running}, threshold)
  {
    var all := p + {running};
    assert NewestOf(all) == running;
    AboveThresholdIff(all, threshold);
  }

  // ---- Runs -----------------------------------------------------------------------------------

  datatype Step = UpsertStep(i: Instance) | UpdateStep(i: Instance) | ScheduleStep(s: ScheduleKey)

  function Apply(t: Tables, step: Step): Tables {
    match step
    case UpsertStep(i) =>
      (match Upsert(t, i)
       case Ok(t') => t'
       case Err(_) => t)
    case UpdateStep(i) => Update(t, i)
    case ScheduleStep(s) => t.(schedules := t.schedules + {s})
  }

  function Run(t: Tables, steps: seq<Step>): Tables {
    if steps == [] then t else Apply(Run(t, steps[..|steps| - 1]), steps[|steps| - 1])
  }

  /** Rows keep their key and their creation time for ever; only schedules that exist have rows. */
  lemma {:induction false} RunKeepsRows(t: Tables, steps: seq<Step>)
    requires Keyed(t)
    ensures Keyed(Run(t, steps)) && t.rows.Keys <= Run(t, steps).rows.Keys && t.schedules <= Run(t, steps).schedules
    ensures forall k | k in t.rows :: Run(t, steps).rows[k].createdAt == t.rows[k].createdAt
  {
    if steps != [] {
      RunKeepsRows(t, steps[..|steps| - 1]);
    }
  }

  /** A start delivered again, whatever happened since, changes nothing: a finished instance stays finished. */
  lemma StartIsIdempotent(t: Tables, i: Instance, steps: seq<Step>)
    requires Keyed(t) && Upsert(t, i).Ok?
    ensures Upsert(Run(Upsert(t, i).value, steps), i) == Ok(Run(Upsert(t, i).value, steps))
  {
    RunKeepsRows(Upsert(t, i).value, steps);
  }

  // ---- What starts and updates leave ----------------------------------------------------------

  /** A new instance of an existing schedule is stored as given; a stored one stays; a missing schedule aborts. */
  lemma StartOutcome(t: Tables, i: Instance)
    ensures Upsert(t, i) == Err(ForeignKeyViolation) <==>
            i.key !in t.rows && ScheduleKey(i.key.schedule, i.key.connector) !in t.schedules
    ensures Upsert(t, i).Err? ==> Upsert(t, i).error == ForeignKeyViolation
    ensures Upsert(t, i).Ok? ==>
              var t' := Upsert(t, i).value;
              && t'.schedules == t.schedules && t'.rows.Keys == t.rows.Keys + {i.key}
              && t'.rows[i.key] == (if i.key in t.rows then t.rows[i.key] else i)
              && forall k | k in t.rows :: t'.rows[k] == t.rows[k]
  {
  }

  /** The row with the key shows the update, at its old creation time; no other row changes, and none is added. */
  lemma UpdateOutcome(t: Tables, i: Instance)
    ensures var t' := Update(t, i);
            && t'.schedules == t.schedules && t'.rows.Keys == t.rows.Keys
            && (forall k | k in t.rows && k != i.key :: t'.rows[k] == t.rows[k])
            && (i.key in t.rows ==>
                  t'.rows[i.key] ==
                  Instance(i.key, t.rows[i.key].createdAt, i.updatedAt, i.terminated, i.terminatedAt, i.error))
  {
  }

  predicate Updates(step: Step, k: InstanceKey) {
    step.UpdateStep? && step.i.key == k
  }

  lemma UpdateKeepsOthers(t: Tables, step: Step, k: InstanceKey)
    requires k in t.rows && !Updates(step, k)
    ensures k in Apply(t, step).rows && Apply(t, step).rows[k] == t.rows[k]
  {
    if step.UpsertStep? {
      StartOutcome(t, step.i);
    }
  }

  /** A stored row stays as it is as long as it is not updated. */
  lemma {:induction false} UntouchedStays(t: Tables, steps: seq<Step>, k: InstanceKey)
    requires Keyed(t) && k in t.rows && forall s | s in steps :: !Updates(s, k)
    ensures k in Run(t, steps).rows && Run(t, steps).rows[k] == t.rows[k]
  {
    if steps != [] {
      var init, last := steps[..|steps| - 1], steps[|steps| - 1];
      assert last in steps && forall s | s in init :: s in steps;
      UntouchedStays(t, init, k);
      UpdateKeepsOthers(Run(t, init), last, k);
    }
  }

  lemma {:induction false} RunAppends(t: Tables, steps: seq<Step>, more: seq<Step>)
    ensures Run(t, steps + more) == Run(Run(t, steps), more)
    decreases |more|
  {
    if more == [] {
      assert steps + more == steps;
    } else {
      RunAppends(t, steps, more[..|more| - 1]);
      assert (steps + more)[..|steps + more| - 1] == steps + more[..|more| - 1];
    }
  }

  /** The position of the last update of a key in a run. */
  ghost predicate IsLastUpdate(steps: seq<Step>, n: int, k: InstanceKey) {
    0 <= n < |steps| && Updates(steps[n], k) && forall j | n < j < |steps| :: !Updates(steps[j], k)
  }

  /**
   Over every run, a row shows the last update of its key since it was started, at the creation time of
   its start; without an update it shows the start.
   */
  lemma LastUpdateIsShown(t: Tables, steps: seq<Step>, n: int, k: InstanceKey)
    requires Keyed(t) && IsLastUpdate(steps, n, k) && k in Run(t, steps[..n]).rows
    ensures var u, row := steps[n].i, Run(t, steps[..n]).rows[k];
            && k in Run(t, steps).rows
            && Run(t, steps).rows[k] == Instance(k, row.createdAt, u.updatedAt, u.terminated, u.terminatedAt, u.error)
  {
    var before, after := steps[..n], steps[n + 1..];
    assert steps == before + [steps[n]] + after;
    RunAppends(t, before + [steps[n]], after);
    assert (before + [steps[n]])[..n] == before;
    RunKeepsRows(t, before);
    UpdateOutcome(Run(t, before), steps[n].i);
    RunKeepsRows(t, before + [steps[n]]);
    UntouchedStays(Run(t, before + [steps[n]]), after, k);
  }

  lemma StartIsShown(t: Tables, i: Instance, steps: seq<Step>)
    requires Keyed(t) && i.key !in t.rows && Upsert(t, i).Ok? && forall s | s in steps :: !Updates(s, i.key)
    ensures var t' := Run(Upsert(t, i).value, steps); i.key in t'.rows && t'.rows[i.key] == i
  {
    UntouchedStays(Upsert(t, i).value, steps, i.key);
  }

  // ---- Failures are listed --------------------------------------------------------------------

  predicate OfSchedule(k: InstanceKey, schedule: string, connector: ConnectorId) {
    k.schedule == schedule && k.connector == connector
  }

  function RowsOf(rows: map<InstanceKey, Instance>, keys: set<InstanceKey>): set<Instance>
    requires keys <= rows.Keys
  {
    set k | k in keys :: rows[k]
  }

  lemma {:induction false} OneRowPerKey(t: Tables, keys: set<InstanceKey>)
    requires Keyed(t) && keys <= t.rows.Keys
    ensures |RowsOf(t.rows, keys)| == |keys|
    decreases |keys|
  {
    if keys != {} {
      var k :| k in keys;
      OneRowPerKey(t, keys - {k});
      assert RowsOf(t.rows, keys) == RowsOf(t.rows, keys - {k}) + {t.rows[k]};
      assert t.rows[k] !in RowsOf(t.rows, keys - {k});
    } else {
      assert RowsOf(t.rows, keys) == {};
    }
  }

  lemma SubsetIsSmaller<T>(a: set<T>, b: set<T>)
    requires a <= b
    ensures |a| <= |b|
  {
    assert b == a + (b - a);
  }

  /** The given keys are the newest of their schedule, which has no two instances of one time. */
  ghost predicate AreNewest(t: Tables, newest: set<InstanceKey>, schedule: string, connector: ConnectorId) {
    && newest <= t.rows.Keys && (forall k | k in newest :: OfSchedule(k, schedule, connector))
    && (forall k, j | k in t.rows && j in newest && OfSchedule(k, schedule, connector) && k !in newest ::
          t.rows[k].createdAt < t.rows[j].createdAt)
    && (forall k, j | k in t.rows && j in t.rows && k != j && OfSchedule(k, schedule, connector) &&
                      OfSchedule(j, schedule, connector) :: t.rows[k].createdAt != t.rows[j].createdAt)
  }

  lemma RowInPartition(t: Tables, k: InstanceKey)
    requires k in t.rows
    ensures t.rows[k] in Partition(t.rows, ScheduleKey(k.schedule, k.connector))
  {
  }

  lemma InPartition(t: Tables, schedule: string, connector: ConnectorId, i: Instance)
    requires Keyed(t)
    ensures i in Partition(t.rows, ScheduleKey(schedule, connector)) <==>
            i.key in t.rows && t.rows[i.key] == i && OfSchedule(i.key, schedule, connector)
  {
  }

  lemma RankIsAmongNewest(t: Tables, newest: set<InstanceKey>, schedule: string, connector: ConnectorId, i: Instance)
    requires Keyed(t) && AreNewest(t, newest, schedule, connector)
    requires i in Partition(t.rows, ScheduleKey(schedule, connector))
    ensures RowNumber(Partition(t.rows, ScheduleKey(schedule, connector)), i) <= |newest| <==>
            i in RowsOf(t.rows, newest)
  {
    var p, top := Partition(t.rows, ScheduleKey(schedule, connector)), RowsOf(t.rows, newest);
    OneRowPerKey(t, newest);
    InPartition(t, schedule, connector, i);
    if i in top {
      forall x | x in Newer(p, i) ensures x in top - {i} {
        InPartition(t, schedule, connector, x);
      }
      SubsetIsSmaller(Newer(p, i), top - {i});
    } else {
      forall k | k in newest ensures t.rows[k] in Newer(p, i) {
        RowInPartition(t, k);
      }
      SubsetIsSmaller(top, Newer(p, i));
    }
  }

  lemma RankedAreNewest(t: Tables, newest: set<InstanceKey>, schedule: string, connector: ConnectorId)
    requires Keyed(t) && AreNewest(t, newest, schedule, connector)
    ensures DistinctTimes(Partition(t.rows, ScheduleKey(schedule, connector)))
    ensures Ranked(Partition(t.rows, ScheduleKey(schedule, connector)), |newest|) == RowsOf(t.rows, newest)
  {
    var p, top := Partition(t.rows, ScheduleKey(schedule, connector)), RowsOf(t.rows, newest);
    forall k | k in newest ensures t.rows[k] in p {
      RowInPartition(t, k);
    }
    forall i | i in p ensures RowNumber(p, i) <= |newest| <==> i in top {
      RankIsAmongNewest(t, newest, schedule, connector, i);
    }
  }

  /** The last update of each of the keys, in a run, reports an execution that ended with an error. */
  ghost predicate EndedInError(t: Tables, steps: seq<Step>, keys: set<InstanceKey>) {
    forall k | k in keys ::
      exists n :: IsLastUpdate(steps, n, k) && k in Run(t, steps[..n]).rows &&
                  steps[n].i.terminated && steps[n].i.error.Some?
  }

  /**
   From starts and updates to the listing: after any run in which the newest N instances of a schedule
   were started and then last updated as terminated with an error, the schedule is listed at threshold N.
   */
  lemma FailuresAreListed(t: Tables, steps: seq<Step>, newest: set<InstanceKey>, schedule: string,
                          connector: ConnectorId)
    requires Keyed(t) && newest != {} && AreNewest(Run(t, steps), newest, schedule, connector)
    requires EndedInError(t, steps, newest)
    ensures exists i :: ListedFor(Run(t, steps), connector, |newest|, schedule, i)
  {
    var t' := Run(t, steps);
    var p := Partition(t'.rows, ScheduleKey(schedule, connector));
    RunKeepsRows(t, steps);
    RankedAreNewest(t', newest, schedule, connector);
    OneRowPerKey(t', newest);
    forall k | k in newest ensures t'.rows[k].terminated && t'.rows[k].error.Some? && t'.rows[k] in p {
      var n :| IsLastUpdate(steps, n, k) && k in Run(t, steps[..n]).rows &&
        steps[n].i.terminated && steps[n].i.error.Some?;
      LastUpdateIsShown(t, steps, n, k);
      RowInPartition(t', k);
    }
    TopRowsFailedIff(p, |newest|);
    var k :| k in newest;
    assert t'.rows[k] in Terminated(p);
    ListedIffStreak(t', connector, |newest|, schedule);
  }
}
