/**
 Workflow instances (internal/storage/workflow_instances.go): first-wins insertion, updates by
 primary key, and the window query that lists the schedules whose last instances all failed.
 */
module Instances {
  import opened Common

  datatype InstanceKey = InstanceKey(id: string, schedule: string, connector: ConnectorId)

  datatype Instance = Instance(
    key: InstanceKey, createdAt: Time, updatedAt: Time,
    terminated: bool, terminatedAt: Option<Time>, error: Option<string>)

  datatype ScheduleKey = ScheduleKey(schedule: string, connector: ConnectorId)

  datatype Tables = Tables(schedules: set<ScheduleKey>, rows: map<InstanceKey, Instance>)

  // ---- Statements -----------------------------------------------------------------------------

  /** INSERT ... ON CONFLICT (id, schedule_id, connector_id) DO NOTHING. */
  function Upsert(t: Tables, i: Instance): Result<Tables> {
    if i.key in t.rows then Ok(t)
    else if ScheduleKey(i.key.schedule, i.key.connector) !in t.schedules then Err(ForeignKeyViolation)
    else Ok(t.(rows := t.rows[i.key := i]))
  }

  /** UPDATE ... WHERE PK: everything but the key and the creation time; nothing without such a row. */
  function Update(t: Tables, i: Instance): Tables {
    if i.key in t.rows then t.(rows := t.rows[i.key := i.(createdAt := t.rows[i.key].createdAt)]) else t
  }

  // ---- The window query -----------------------------------------------------------------------

  /** The partition of a schedule: all its instances, running ones included. */
  function Partition(rows: map<InstanceKey, Instance>, s: ScheduleKey): set<Instance> {
    set k | k in rows && k.schedule == s.schedule && k.connector == s.connector :: rows[k]
  }

  function Newer(p: set<Instance>, i: Instance): set<Instance> {
    set x | x in p && x.createdAt > i.createdAt
  }

  /** ROW_NUMBER() OVER (... ORDER BY created_at DESC), for distinct creation times. */
  function RowNumber(p: set<Instance>, i: Instance): nat {
    |Newer(p, i)| + 1
  }

  function Ranked(p: set<Instance>, threshold: int): set<Instance> {
    set i | i in p && RowNumber(p, i) <= threshold
  }

  /** WHERE rn <= N GROUP BY ... HAVING COUNT(*) = N AND no row without error; no group without a row. */
  predicate AboveThreshold(p: set<Instance>, threshold: int) {
    var group := Ranked(p, threshold);
    group != {} && |group| == threshold && forall i | i in group :: i.error.Some?
  }

  function Terminated(p: set<Instance>): set<Instance> {
    set i | i in p && i.terminated
  }

  /** DISTINCT ON (schedule_id) ... WHERE terminated ... ORDER BY schedule_id, created_at DESC. */
  predicate IsListed(t: Tables, connector: ConnectorId, threshold: int, i: Instance) {
    var p := Partition(t.rows, ScheduleKey(i.key.schedule, connector));
    && i in Terminated(p) && Newer(Terminated(p), i) == {}
    && AboveThreshold(p, threshold)
  }

  // ---- The error streak -----------------------------------------------------------------------

  predicate DistinctTimes(p: set<Instance>) {
    forall x, y | x in p && y in p && x.createdAt == y.createdAt :: x == y
  }

  ghost predicate IsNewest(p: set<Instance>, i: Instance) {
    i in p && forall x | x in p :: x.createdAt <= i.createdAt
  }

  lemma {:induction false} SomeNewest(p: set<Instance>)
    requires p != {}
    ensures exists i :: IsNewest(p, i)
    decreases |p|
  {
    var x :| x in p;
    if p == {x} {
      assert IsNewest(p, x);
    } else {
      SomeNewest(p - {x});
      var y :| IsNewest(p - {x}, y);
      assert IsNewest(p, if x.createdAt > y.createdAt then x else y);
    }
  }

  ghost function NewestOf(p: set<Instance>): (i: Instance)
    requires p != {}
    ensures IsNewest(p, i)
  {
    SomeNewest(p);
    var i :| IsNewest(p, i);
    i
  }

  /** How many instances, counted back from the newest, ended in an error without interruption. */
  ghost function Streak(p: set<Instance>): nat
    decreases |p|
  {
    if p == {} || NewestOf(p).error.None? then 0 else 1 + Streak(p - {NewestOf(p)})
  }
}
