/**
 Whole runs of the outbox: transactions that insert events, one publisher that polls, publishes and
 marks, clean-up of old processed rows, crashes of the publisher between any two of its steps, and the
 deprecated direct sending, which publishes an event and records its id past the outbox.
 Every other transaction may run between two steps of the publisher.
 */
module OutboxProtocol {
  import opened Common
  import opened Outbox

  /** What the publisher holds in memory: events still to publish, ids published but not marked. */
  datatype Publisher = Idle | Publishing(todo: seq<Event>, published: seq<EventId>)

  datatype System = System(db: State, publisher: Publisher)

  datatype Step =
    | InsertStep(events: seq<Event>)
    | PollStep(limit: int, polled: seq<Event>)
    | PublishStep
    | FailStep(nonRetryable: bool)
    | CommitStep
    | CrashStep
    | CleanUpStep(olderThan: Time)
    | RecordStep(id: EventId)

  const INITIAL := System(State([], {}), Idle)

  /** Every transaction of the store creates its events pending, with no retry yet. */
  predicate NewEvents(events: seq<Event>) {
    forall e | e in events :: e.status == Pending && e.retryCount == 0
  }

  ghost predicate Enabled(s: System, step: Step) {
    match step
    case InsertStep(events) => NewEvents(events)
    case PollStep(limit, polled) => s.publisher.Idle? && IsPoll(s.db.rows, limit, polled)
    case PublishStep => s.publisher.Publishing? && s.publisher.todo != []
    case FailStep(_) => s.publisher.Publishing? && s.publisher.todo != []
    case CommitStep => s.publisher.Publishing? && s.publisher.todo == []
    case CrashStep => true
    case CleanUpStep(_) => true
    case RecordStep(_) => true
  }

  function Record(st: State, id: EventId): State {
    st.(sent := st.sent + {id})
  }

  function Apply(s: System, step: Step): System
    requires step.PublishStep? || step.FailStep? ==> s.publisher.Publishing? && s.publisher.todo != []
    requires step.CommitStep? ==> s.publisher.Publishing?
  {
    match step
    case InsertStep(events) =>
      (match Insert(s.db, events)
       case Ok(db) => s.(db := db)
       case Err(_) => s)
    case PollStep(_, polled) => s.(publisher := Publishing(polled, []))
    case PublishStep =>
      var Publishing(todo, published) := s.publisher;
      s.(publisher := Publishing(todo[1..], published + [todo[0].id]))
    case FailStep(nonRetryable) =>
      var Publishing(todo, published) := s.publisher;
      System(MarkFailed(s.db, todo[0].id, todo[0].retryCount + 1, nonRetryable), Publishing(todo[1..], published))
    case CommitStep =>
      System(MarkProcessed(s.db, s.publisher.published, s.publisher.published), Idle)
    case CrashStep => s.(publisher := Idle)
    case CleanUpStep(olderThan) => s.(db := CleanUp(s.db, olderThan))
    case RecordStep(id) => s.(db := Record(s.db, id))
  }

  ghost predicate ValidRun(s: System, steps: seq<Step>)
    decreases |steps|
  {
    steps == [] || (Enabled(s, steps[0]) && ValidRun(Apply(s, steps[0]), steps[1..]))
  }

  ghost function Exec(s: System, steps: seq<Step>): System
    requires ValidRun(s, steps)
    decreases |steps|
  {
    if steps == [] then s else Exec(Apply(s, steps[0]), steps[1..])
  }

  // ---- The invariant --------------------------------------------------------------------------

  /** The id of a PROCESSED row is recorded as sent; pending rows may retry. */
  ghost predicate DbInv(db: State) {
    && UniqueIds(db.rows)
    && (forall r | r in db.rows :: r.status == Processed ==> r.id in db.sent)
    && (forall r | r in db.rows && r.status == Pending :: 0 <= r.retryCount < MAX_OUTBOX_RETRIES)
  }

  ghost predicate PendingId(rows: seq<Event>, id: EventId) {
    exists r :: r in rows && r.id == id && r.status == Pending
  }

  ghost predicate DistinctIds(ids: seq<EventId>) {
    forall i, j | 0 <= i < j < |ids| :: ids[i] != ids[j]
  }

  /** Everything the publisher holds is still pending, and held once. */
  ghost predicate PublisherInv(s: System) {
    s.publisher.Publishing? ==>
      var Publishing(todo, published) := s.publisher;
      && UniqueIds(todo) && DistinctIds(published)
      && (forall e | e in todo :: e in s.db.rows && e.status == Pending && e.id !in published)
      && (forall id | id in published :: PendingId(s.db.rows, id))
  }

  ghost predicate Inv(s: System) {
    DbInv(s.db) && PublisherInv(s)
  }

  lemma InsertKeepsInv(s: System, events: seq<Event>)
    requires Inv(s) && NewEvents(events)
    ensures Inv(Apply(s, InsertStep(events)))
  {
    if HasKeys(events) {
      var unsent := Unsent(events, s.db.sent);
      UnsentElements(events, s.db.sent);
      InsertRowsExtends(s.db.rows, unsent);
      var rows := InsertRows(s.db.rows, unsent);
      forall id | PendingId(s.db.rows, id) ensures PendingId(rows, id) {
        var r :| r in s.db.rows && r.id == id && r.status == Pending;
        assert r in rows;
      }
    }
  }

  lemma MarkFailedUpdatesOneRow(db: State, i: nat, retryCount: int, nonRetryable: bool)
    requires UniqueIds(db.rows) && i < |db.rows|
    ensures MarkFailed(db, db.rows[i].id, retryCount, nonRetryable).rows ==
            db.rows[i := db.rows[i].(status := StatusAfterFailure(retryCount, nonRetryable), retryCount := retryCount)]
  {
  }

  lemma FailUpdatesOneRow(s: System, nonRetryable: bool) returns (i: nat)
    requires Inv(s) && Enabled(s, FailStep(nonRetryable))
    ensures i < |s.db.rows| && s.db.rows[i] == s.publisher.todo[0]
    ensures var e := s.publisher.todo[0];
            Apply(s, FailStep(nonRetryable)).db == s.db.(rows := s.db.rows[i :=
              e.(status := StatusAfterFailure(e.retryCount + 1, nonRetryable), retryCount := e.retryCount + 1)])
  {
    var e := s.publisher.todo[0];
    assert e in s.db.rows;
    i :| 0 <= i < |s.db.rows| && s.db.rows[i] == e;
    MarkFailedUpdatesOneRow(s.db, i, e.retryCount + 1, nonRetryable);
  }

  lemma OtherRowsStay(rows: seq<Event>, i: nat, e: Event)
    requires i < |rows| && rows[i].id == e.id
    ensures forall r | r in rows && r.id != e.id :: r in rows[i := e]
    ensures forall id | id != e.id && PendingId(rows, id) :: PendingId(rows[i := e], id)
  {
    forall r | r in rows && r.id != e.id ensures r in rows[i := e] {
      var j :| 0 <= j < |rows| && rows[j] == r;
      assert rows[i := e][j] == r;
    }
  }

  lemma FailKeepsInv(s: System, nonRetryable: bool)
    requires Inv(s) && Enabled(s, FailStep(nonRetryable))
    ensures Inv(Apply(s, FailStep(nonRetryable)))
  {
    var Publishing(todo, published) := s.publisher;
    var i := FailUpdatesOneRow(s, nonRetryable);
    var rows' := Apply(s, FailStep(nonRetryable)).db.rows;
    OtherRowsStay(s.db.rows, i, rows'[i]);
    assert todo == [todo[0]] + todo[1..];
  }

  lemma CommitKeepsInv(s: System)
    requires Inv(s) && Enabled(s, CommitStep)
    ensures Inv(Apply(s, CommitStep))
  {
    var db' := Apply(s, CommitStep).db;
    assert forall i | 0 <= i < |db'.rows| :: db'.rows[i].id == s.db.rows[i].id;
  }

  lemma CleanUpKeepsInv(s: System, olderThan: Time)
    requires Inv(s)
    ensures Inv(Apply(s, CleanUpStep(olderThan)))
  {
    DropExpiredKeeps(s.db.rows, olderThan);
    var rows' := CleanUp(s.db, olderThan).rows;
    forall id | PendingId(s.db.rows, id) ensures PendingId(rows', id) {
      var r :| r in s.db.rows && r.id == id && r.status == Pending;
      assert r in rows';
    }
  }

  lemma PublishKeepsInv(s: System)
    requires Inv(s) && Enabled(s, PublishStep)
    ensures Inv(Apply(s, PublishStep))
  {
    var Publishing(todo, published) := s.publisher;
    forall t | t in todo[1..] ensures t.id !in published + [todo[0].id] {
      var j :| 0 <= j < |todo[1..]| && todo[1..][j] == t;
      assert todo[j + 1] == t;
    }
    assert todo[0] in todo;
  }

  lemma StepKeepsInv(s: System, step: Step)
    requires Inv(s) && Enabled(s, step)
    ensures Inv(Apply(s, step))
  {
    match step
    case InsertStep(events) => InsertKeepsInv(s, events);
    case PollStep(limit, polled) => PollFacts(s.db.rows, limit, polled);
    case PublishStep => PublishKeepsInv(s);
    case FailStep(nonRetryable) => FailKeepsInv(s, nonRetryable);
    case CommitStep => CommitKeepsInv(s);
    case CrashStep =>
    case CleanUpStep(olderThan) => CleanUpKeepsInv(s, olderThan);
    case RecordStep(_) =>
  }

  lemma {:induction false} RunKeepsInv(s: System, steps: seq<Step>)
    requires Inv(s) && ValidRun(s, steps)
    ensures Inv(Exec(s, steps))
    decreases |steps|
  {
    if steps != [] {
      StepKeepsInv(s, steps[0]);
      RunKeepsInv(Apply(s, steps[0]), steps[1..]);
    }
  }

  /** Only inserts and direct records make ids known; no step forgets one. */
  lemma StepKnows(s: System, step: Step)
    requires Inv(s) && Enabled(s, step)
    ensures Known(Apply(s, step).db) ==
            Known(s.db) + match step
                          case InsertStep(events) => if HasKeys(events) then Ids(events) else {}
                          case RecordStep(id) => {id}
                          case _ => {}
  {
    StepIsMonotone(s, step);
    var rows, rows' := s.db.rows, Apply(s, step).db.rows;
    match step
    case InsertStep(events) => if HasKeys(events) { InsertMakesKnown(s.db, events); }
    case CleanUpStep(olderThan) => DropExpiredKeeps(rows, olderThan);
    case FailStep(_) =>
      forall r | r in rows' ensures r.id in Ids(rows) {
        var j :| 0 <= j < |rows'| && rows'[j] == r;
        assert rows[j] in rows;
      }
    case CommitStep =>
      forall r | r in rows' ensures r.id in Ids(rows) {
        var j :| 0 <= j < |rows'| && rows'[j] == r;
        assert rows[j] in rows;
      }
      forall id | id in s.publisher.published ensures id in Ids(rows) {
        assert PendingId(rows, id);
      }
    case _ =>
  }

  // ---- Safety over whole runs -----------------------------------------------------------------

  lemma StepIsMonotone(s: System, step: Step)
    requires Inv(s) && Enabled(s, step)
    ensures s.db.sent <= Apply(s, step).db.sent
    ensures Known(s.db) <= Known(Apply(s, step).db)
    ensures forall r | r in s.db.rows && r.status == Failed :: r in Apply(s, step).db.rows
  {
    var s' := Apply(s, step);
    var rows, rows' := s.db.rows, s'.db.rows;
    match step
    case InsertStep(events) =>
      if HasKeys(events) { InsertRowsExtends(rows, Unsent(events, s.db.sent)); }
    case CleanUpStep(olderThan) =>
      DropExpiredKeeps(rows, olderThan);
      assert forall r | r in rows && r !in rows' :: r.id in s.db.sent;
    case FailStep(_) =>
      forall r | r in rows ensures r.id in Ids(rows') && (r.status == Failed ==> r in rows') {
        var j :| 0 <= j < |rows| && rows[j] == r;
        assert rows'[j] in rows';
        assert s.publisher.todo[0] in rows;
      }
    case CommitStep =>
      forall r | r in rows ensures r.id in Ids(rows') && (r.status == Failed ==> r in rows') {
        var j :| 0 <= j < |rows| && rows[j] == r;
        assert rows'[j] in rows';
      }
    case _ =>
  }

  lemma {:induction false} RunIsMonotone(s: System, steps: seq<Step>)
    requires Inv(s) && ValidRun(s, steps)
    ensures s.db.sent <= Exec(s, steps).db.sent
    ensures Known(s.db) <= Known(Exec(s, steps).db)
    ensures forall r | r in s.db.rows && r.status == Failed :: r in Exec(s, steps).db.rows
    decreases |steps|
  {
    if steps != [] {
      StepKeepsInv(s, steps[0]);
      StepIsMonotone(s, steps[0]);
      RunIsMonotone(Apply(s, steps[0]), steps[1..]);
    }
  }

  /** No row of the id waits, or has failed. */
  ghost predicate Closed(db: State, id: EventId) {
    forall r | r in db.rows && r.id == id :: r.status == Processed
  }

  /** If the id is recorded as sent, none of its rows waits or has failed. */
  ghost predicate Settled(db: State, id: EventId) {
    id in db.sent ==> Closed(db, id)
  }

  lemma InsertKeepsSettled(s: System, events: seq<Event>, id: EventId)
    requires Settled(s.db, id)
    ensures Settled(Apply(s, InsertStep(events)).db, id)
  {
    if HasKeys(events) {
      UnsentElements(events, s.db.sent);
      InsertRowsExtends(s.db.rows, Unsent(events, s.db.sent));
    }
  }

  lemma FailKeepsSettled(s: System, nonRetryable: bool, id: EventId)
    requires Inv(s) && Settled(s.db, id) && Enabled(s, FailStep(nonRetryable))
    ensures Settled(Apply(s, FailStep(nonRetryable)).db, id)
  {
    var i := FailUpdatesOneRow(s, nonRetryable);
    assert s.db.rows[i] in s.db.rows;
  }

  lemma CommitKeepsSettled(s: System, id: EventId)
    requires Settled(s.db, id) && Enabled(s, CommitStep)
    ensures Settled(Apply(s, CommitStep).db, id)
  {
    var rows' := Apply(s, CommitStep).db.rows;
    forall r | r in rows' && r.id == id && id in Apply(s, CommitStep).db.sent ensures r.status == Processed {
      var j :| 0 <= j < |rows'| && rows'[j] == r;
      assert s.db.rows[j] in s.db.rows;
    }
  }

  /** A record alone keeps the id settled exactly when no row of it waits or has failed; it unsettles no other id. */
  lemma EventsSentUpsertIsSafeIff(db: State, id: EventId)
    requires DbInv(db)
    ensures DbInv(Record(db, id)) && (Settled(Record(db, id), id) <==> Closed(db, id))
    ensures forall other | other != id :: Settled(Record(db, id), other) <==> Settled(db, other)
  {
    assert id in Record(db, id).sent;
  }

  /** A record past the outbox comes too early while a row of its id waits or has failed. */
  ghost predicate InTime(s: System, step: Step, id: EventId) {
    step == RecordStep(id) ==> Closed(s.db, id)
  }

  /** Of all steps only a record that comes too early leaves a row waiting whose id is recorded as sent. */
  lemma StepKeepsSettledIff(s: System, step: Step, id: EventId)
    requires Inv(s) && Settled(s.db, id) && Enabled(s, step)
    ensures Settled(Apply(s, step).db, id) <==> InTime(s, step, id)
  {
    match step
    case InsertStep(events) => InsertKeepsSettled(s, events, id);
    case FailStep(nonRetryable) => FailKeepsSettled(s, nonRetryable, id);
    case CommitStep => CommitKeepsSettled(s, id);
    case CleanUpStep(olderThan) => DropExpiredKeeps(s.db.rows, olderThan);
    case RecordStep(recorded) => EventsSentUpsertIsSafeIff(s.db, recorded);
    case _ =>
  }

  ghost predicate AllInTime(s: System, steps: seq<Step>, id: EventId)
    requires ValidRun(s, steps)
    decreases |steps|
  {
    steps == [] || (InTime(s, steps[0], id) && AllInTime(Apply(s, steps[0]), steps[1..], id))
  }

  ghost predicate AlwaysSettled(s: System, steps: seq<Step>, id: EventId)
    requires ValidRun(s, steps)
    decreases |steps|
  {
    Settled(s.db, id) && (steps == [] || AlwaysSettled(Apply(s, steps[0]), steps[1..], id))
  }

  /**
   Exact condition for safety. No state of a run has an id recorded as sent with a row that waits or has
   failed, exactly when each direct record of the id found none such.
   */
  lemma {:induction false} AlwaysSettledIff(s: System, steps: seq<Step>, id: EventId)
    requires Inv(s) && Settled(s.db, id) && ValidRun(s, steps)
    ensures AlwaysSettled(s, steps, id) <==> AllInTime(s, steps, id)
    ensures AlwaysSettled(s, steps, id) ==> Settled(Exec(s, steps).db, id)
    decreases |steps|
  {
    if steps != [] {
      StepKeepsInv(s, steps[0]);
      StepKeepsSettledIff(s, steps[0], id);
      if InTime(s, steps[0], id) {
        AlwaysSettledIff(Apply(s, steps[0]), steps[1..], id);
      }
    }
  }

  lemma {:induction false} SentStaysSettled(s: System, steps: seq<Step>, id: EventId)
    requires Inv(s) && ValidRun(s, steps) && id in s.db.sent && Closed(s.db, id)
    ensures id in Exec(s, steps).db.sent && Closed(Exec(s, steps).db, id)
    decreases |steps|
  {
    if steps != [] {
      StepKeepsInv(s, steps[0]);
      StepIsMonotone(s, steps[0]);
      StepKeepsSettledIff(s, steps[0], id);
      SentStaysSettled(Apply(s, steps[0]), steps[1..], id);
    }
  }

  /**
   Safety. In every run from the empty store, an id recorded as sent, and by no direct record that came
   too early, stays recorded and no later state holds a pending or failed row for it, whatever is cleaned
   up, inserted again or recorded again meanwhile.
   */
  lemma SentIsNeverPendingAgain(before: seq<Step>, after: seq<Step>, id: EventId)
    requires ValidRun(INITIAL, before) && AllInTime(INITIAL, before, id)
    requires ValidRun(Exec(INITIAL, before), after)
    requires id in Exec(INITIAL, before).db.sent
    ensures var db := Exec(Exec(INITIAL, before), after).db; id in db.sent && Closed(db, id)
  {
    RunKeepsInv(INITIAL, before);
    AlwaysSettledIff(INITIAL, before, id);
    SentStaysSettled(Exec(INITIAL, before), after, id);
  }

  /** The failing steps: a new event, inserted and then recorded directly, is sent and still waits to be published. */
  lemma EarlyRecordLeavesTheEventPending(s: System, e: Event)
    requires NewEvents([e]) && HasKeys([e]) && e.id !in Known(s.db)
    ensures var inserted := Apply(s, InsertStep([e]));
            && Enabled(s, InsertStep([e])) && Enabled(inserted, RecordStep(e.id))
            && !InTime(inserted, RecordStep(e.id), e.id)
            && Apply(inserted, RecordStep(e.id)).db == State(s.db.rows + [e], s.db.sent + {e.id})
            && e.status == Pending && !Settled(Apply(inserted, RecordStep(e.id)).db, e.id)
  {
    InsertOne(s.db, e);
    assert e in s.db.rows + [e];
    assert e in [e];
  }

  /** No loss. Ids committed by an insert are, in every later state, a row or recorded as sent. */
  lemma CommittedEventsAreNeverLost(before: seq<Step>, events: seq<Event>, after: seq<Step>)
    requires ValidRun(INITIAL, before)
    requires NewEvents(events) && HasKeys(events)
    requires ValidRun(Apply(Exec(INITIAL, before), InsertStep(events)), after)
    ensures Ids(events) <= Known(Exec(Apply(Exec(INITIAL, before), InsertStep(events)), after).db)
  {
    var s := Exec(INITIAL, before);
    RunKeepsInv(INITIAL, before);
    StepKeepsInv(s, InsertStep(events));
    InsertMakesKnown(s.db, events);
    RunIsMonotone(Apply(s, InsertStep(events)), after);
  }

  lemma FailedIsRecordedIff(s: System, step: Step, r: Event)
    requires Inv(s) && Enabled(s, step) && r in s.db.rows && r.status == Failed
    ensures r.id in Apply(s, step).db.sent <==> r.id in s.db.sent || step == RecordStep(r.id)
  {
    assert step.CommitStep? && r.id in s.publisher.published ==> PendingId(s.db.rows, r.id);
  }

  lemma {:induction false} FailedStaysUnless(s: System, steps: seq<Step>, r: Event)
    requires Inv(s) && ValidRun(s, steps) && r in s.db.rows && r.status == Failed
    ensures r in Exec(s, steps).db.rows
    ensures r.id in Exec(s, steps).db.sent <==> r.id in s.db.sent || RecordStep(r.id) in steps
    decreases |steps|
  {
    if steps != [] {
      StepKeepsInv(s, steps[0]);
      StepIsMonotone(s, steps[0]);
      FailedIsRecordedIff(s, steps[0], r);
      FailedStaysUnless(Apply(s, steps[0]), steps[1..], r);
      assert steps == [steps[0]] + steps[1..];
    }
  }

  lemma {:induction false} RecordedIsSent(s: System, steps: seq<Step>, id: EventId)
    requires Inv(s) && ValidRun(s, steps)
    ensures RecordStep(id) in steps ==> id in Exec(s, steps).db.sent
    ensures RecordStep(id) !in steps ==> AllInTime(s, steps, id)
    decreases |steps|
  {
    if steps != [] {
      StepKeepsInv(s, steps[0]);
      RunIsMonotone(Apply(s, steps[0]), steps[1..]);
      RecordedIsSent(Apply(s, steps[0]), steps[1..], id);
      assert steps == [steps[0]] + steps[1..];
    }
  }

  /**
   FAILED is absorbing: the row stays stored, unchanged, and its id is recorded as sent exactly when it is
   recorded directly: the publisher never does.
   */
  lemma FailedIsAbsorbing(before: seq<Step>, after: seq<Step>, r: Event)
    requires ValidRun(INITIAL, before)
    requires ValidRun(Exec(INITIAL, before), after)
    requires r in Exec(INITIAL, before).db.rows && r.status == Failed
    ensures var db := Exec(Exec(INITIAL, before), after).db;
            r in db.rows && (r.id in db.sent <==> RecordStep(r.id) in before + after)
  {
    var s := Exec(INITIAL, before);
    RunKeepsInv(INITIAL, before);
    RecordedIsSent(INITIAL, before, r.id);
    FailedStaysUnless(s, after, r);
    if RecordStep(r.id) !in before {
      AlwaysSettledIff(INITIAL, before, r.id);
    }
  }

  // ---- Where the single publisher is needed ---------------------------------------------------

  /**
   A MarkFailed outside the protocol keeps the invariant, and its event settled, exactly when the event is
   not stored, or not yet recorded as sent (and not put back with a negative count). A stale one, from a
   second publisher, makes a sent event pending again.
   */
  lemma MarkFailedIsSafeIff(db: State, id: EventId, retryCount: int, nonRetryable: bool)
    requires DbInv(db) && Settled(db, id)
    ensures var db' := MarkFailed(db, id, retryCount, nonRetryable);
            DbInv(db') && Settled(db', id) <==>
            (id in Ids(db.rows) ==> id !in db.sent && (retryCount >= 0 || nonRetryable))
  {
    var db' := MarkFailed(db, id, retryCount, nonRetryable);
    if id in Ids(db.rows) {
      var i :| 0 <= i < |db.rows| && db.rows[i].id == id;
      MarkFailedUpdatesOneRow(db, i, retryCount, nonRetryable);
      assert db'.rows[i] in db'.rows;
    } else {
      assert db'.rows == db.rows;
    }
  }

  // ---- Draining -------------------------------------------------------------------------------

  function Retries(e: Event): int {
    if e.status == Pending then MAX_OUTBOX_RETRIES - e.retryCount else 0
  }

  /** The retries that all pending rows together may still use. */
  function Remaining(rows: seq<Event>): int {
    if rows == [] then 0 else Remaining(rows[..|rows| - 1]) + Retries(rows[|rows| - 1])
  }

  lemma {:induction false} RemainingAfterUpdate(rows: seq<Event>, i: nat, e: Event)
    requires i < |rows|
    ensures Remaining(rows[i := e]) == Remaining(rows) - Retries(rows[i]) + Retries(e)
    decreases |rows|
  {
    var n := |rows| - 1;
    if i == n {
      assert rows[i := e][..n] == rows[..n];
    } else {
      RemainingAfterUpdate(rows[..n], i, e);
      assert rows[i := e][..n] == rows[..n][i := e];
    }
  }

  lemma {:induction false} RemainingIsPositive(rows: seq<Event>)
    requires forall r | r in rows && r.status == Pending :: r.retryCount < MAX_OUTBOX_RETRIES
    ensures Remaining(rows) >= |PendingRows(rows)|
  {
    if rows != [] {
      RemainingIsPositive(rows[..|rows| - 1]);
      assert rows[|rows| - 1] in rows;
    }
  }

  lemma MarkProcessedOneMore(db: State, ids: seq<EventId>, i: nat)
    requires UniqueIds(db.rows) && i < |db.rows| && db.rows[i].id !in ids
    ensures var all := ids + [db.rows[i].id];
            MarkProcessed(db, all, all).rows ==
            MarkProcessed(db, ids, ids).rows[i := db.rows[i].(status := Processed)]
  {
  }

  lemma {:induction false} RemainingAfterCommit(db: State, published: seq<EventId>)
    requires DbInv(db) && DistinctIds(published)
    requires forall id | id in published :: PendingId(db.rows, id)
    ensures Remaining(MarkProcessed(db, published, published).rows) <= Remaining(db.rows) - |published|
    decreases |published|
  {
    if published == [] {
      assert MarkProcessed(db, published, published).rows == db.rows;
    } else {
      var n := |published| - 1;
      var init, id := published[..n], published[n];
      assert published == init + [id] && id !in init;
      RemainingAfterCommit(db, init);
      assert PendingId(db.rows, id);
      var r :| r in db.rows && r.id == id && r.status == Pending;
      var i :| 0 <= i < |db.rows| && db.rows[i] == r;
      MarkProcessedOneMore(db, init, i);
      RemainingAfterUpdate(MarkProcessed(db, init, init).rows, i, r.(status := Processed));
    }
  }

  datatype Verdict = Delivered | Rejected(nonRetryable: bool)

  /** The rest of one call of the publisher: a verdict for each polled event, then the commit. */
  function FinishRound(s: System, verdicts: seq<Verdict>): System
    requires s.publisher.Publishing? && |s.publisher.todo| == |verdicts|
    decreases |verdicts|
  {
    if verdicts == [] then Apply(s, CommitStep)
    else FinishRound(Apply(s, VerdictStep(verdicts[0])), verdicts[1..])
  }

  /** A call of the publisher that stops after some verdicts, because a call of the store failed. */
  function Advance(s: System, verdicts: seq<Verdict>): System
    requires s.publisher.Publishing? && |verdicts| <= |s.publisher.todo|
    decreases |verdicts|
  {
    if verdicts == [] then s else Advance(Apply(s, VerdictStep(verdicts[0])), verdicts[1..])
  }

  lemma {:induction false} AdvanceOneMore(s: System, verdicts: seq<Verdict>, i: nat)
    requires s.publisher.Publishing? && i < |verdicts| <= |s.publisher.todo|
    ensures var before := Advance(s, verdicts[..i]);
            && before.publisher.Publishing? && before.publisher.todo == s.publisher.todo[i..]
            && Advance(s, verdicts[..i + 1]) == Apply(before, VerdictStep(verdicts[i]))
    decreases i
  {
    if i == 0 {
      assert verdicts[..1][1..] == [];
    } else {
      AdvanceOneMore(Apply(s, VerdictStep(verdicts[0])), verdicts[1..], i - 1);
      assert verdicts[..i][1..] == verdicts[1..][..i - 1] && verdicts[..i + 1][1..] == verdicts[1..][..i];
    }
  }

  lemma {:induction false} FinishIsAdvanceAndCommit(s: System, verdicts: seq<Verdict>)
    requires s.publisher.Publishing? && |verdicts| == |s.publisher.todo|
    ensures Advance(s, verdicts).publisher.Publishing?
    ensures FinishRound(s, verdicts) == Apply(Advance(s, verdicts), CommitStep)
    decreases |verdicts|
  {
    if verdicts != [] {
      FinishIsAdvanceAndCommit(Apply(s, VerdictStep(verdicts[0])), verdicts[1..]);
    }
  }

  function VerdictStep(v: Verdict): Step {
    match v
    case Delivered => PublishStep
    case Rejected(nonRetryable) => FailStep(nonRetryable)
  }

  datatype Round = Round(limit: int, polled: seq<Event>, verdicts: seq<Verdict>)

  ghost predicate ValidRound(db: State, round: Round) {
    IsPoll(db.rows, round.limit, round.polled) && |round.verdicts| == |round.polled|
  }

  function RunRound(db: State, round: Round): State
    requires |round.verdicts| == |round.polled|
  {
    FinishRound(System(db, Publishing(round.polled, [])), round.verdicts).db
  }

  lemma FailDecreases(s: System, nonRetryable: bool)
    requires Inv(s) && Enabled(s, FailStep(nonRetryable))
    ensures Remaining(Apply(s, FailStep(nonRetryable)).db.rows) < Remaining(s.db.rows)
  {
    var i := FailUpdatesOneRow(s, nonRetryable);
    RemainingAfterUpdate(s.db.rows, i, Apply(s, FailStep(nonRetryable)).db.rows[i]);
  }

  lemma {:induction false} FinishRoundDecreases(s: System, verdicts: seq<Verdict>)
    requires Inv(s) && s.publisher.Publishing? && |s.publisher.todo| == |verdicts|
    ensures DbInv(FinishRound(s, verdicts).db)
    ensures Remaining(FinishRound(s, verdicts).db.rows) <=
            Remaining(s.db.rows) - |s.publisher.published| - |verdicts|
    decreases |verdicts|
  {
    if verdicts == [] {
      CommitKeepsInv(s);
      RemainingAfterCommit(s.db, s.publisher.published);
    } else {
      var step := VerdictStep(verdicts[0]);
      StepKeepsInv(s, step);
      if step.FailStep? {
        FailDecreases(s, step.nonRetryable);
      }
      FinishRoundDecreases(Apply(s, step), verdicts[1..]);
    }
  }

  /** A round takes at least one remaining retry away for every event it polls: all that wait, up to the limit. */
  lemma RoundDecreases(db: State, round: Round)
    requires DbInv(db) && ValidRound(db, round)
    ensures DbInv(RunRound(db, round))
    ensures var n := |PendingRows(db.rows)|;
            Remaining(RunRound(db, round).rows) <=
            Remaining(db.rows) - if 1 <= round.limit < n then round.limit else n
  {
    var s := System(db, Publishing(round.polled, []));
    PollFacts(db.rows, round.limit, round.polled);
    StepKeepsInv(System(db, Idle), PollStep(round.limit, round.polled));
    FinishRoundDecreases(s, round.verdicts);
  }

  /** What publishing makes of a row, for each outcome. */
  predicate ShowsVerdict(r: Event, v: Verdict, r': Event) {
    match v
    case Delivered => r' == r.(status := Processed)
    case Rejected(nonRetryable) =>
      var n := r.retryCount + 1;
      r' == r.(status := if n < 5 && !nonRetryable then Pending else Failed, retryCount := n)
  }

  function DeliveredIds(todo: seq<Event>, verdicts: seq<Verdict>): set<EventId>
    requires |todo| == |verdicts|
  {
    set i | 0 <= i < |todo| && verdicts[i].Delivered? :: todo[i].id
  }

  /** Every row at the end of a call, for the events still to publish, those published, and all others. */
  ghost predicate RowsShow(rows: seq<Event>, todo: seq<Event>, verdicts: seq<Verdict>, published: seq<EventId>,
                           rows': seq<Event>)
    requires |todo| == |verdicts|
  {
    && |rows'| == |rows|
    && (forall i, j | 0 <= i < |rows| && 0 <= j < |todo| && rows[i] == todo[j] ::
          ShowsVerdict(rows[i], verdicts[j], rows'[i]))
    && (forall i | 0 <= i < |rows| && rows[i].id in published :: rows'[i] == rows[i].(status := Processed))
    && (forall i | 0 <= i < |rows| && rows[i] !in todo && rows[i].id !in published :: rows'[i] == rows[i])
  }

  lemma DeliveredShows(s: System, verdicts: seq<Verdict>, rows': seq<Event>)
    requires Inv(s) && s.publisher.Publishing? && |s.publisher.todo| == |verdicts| > 0 && verdicts[0].Delivered?
    requires var next := Apply(s, PublishStep).publisher;
             RowsShow(s.db.rows, next.todo, verdicts[1..], next.published, rows')
    ensures RowsShow(s.db.rows, s.publisher.todo, verdicts, s.publisher.published, rows')
  {
    var Publishing(todo, published) := s.publisher;
    var rows := s.db.rows;
    assert todo == [todo[0]] + todo[1..];
    forall i, j | 0 <= i < |rows| && 0 <= j < |todo| && rows[i] == todo[j]
      ensures ShowsVerdict(rows[i], verdicts[j], rows'[i])
    {
      if j > 0 {
        assert todo[1..][j - 1] == todo[j] && verdicts[1..][j - 1] == verdicts[j];
      }
    }
    forall i | 0 <= i < |rows| && rows[i] !in todo && rows[i].id !in published ensures rows'[i] == rows[i] {
      OnlyOneRowOf(rows, i, todo[0]);
    }
  }

  lemma OnlyOneRowOf(rows: seq<Event>, i: nat, e: Event)
    requires UniqueIds(rows) && i < |rows| && e in rows && rows[i] != e
    ensures rows[i].id != e.id
  {
    var k :| 0 <= k < |rows| && rows[k] == e;
  }

  lemma RejectedShows(s: System, verdicts: seq<Verdict>, rows': seq<Event>)
    requires Inv(s) && s.publisher.Publishing? && |s.publisher.todo| == |verdicts| > 0 && verdicts[0].Rejected?
    requires var next := Apply(s, FailStep(verdicts[0].nonRetryable));
             RowsShow(next.db.rows, next.publisher.todo, verdicts[1..], next.publisher.published, rows')
    ensures RowsShow(s.db.rows, s.publisher.todo, verdicts, s.publisher.published, rows')
  {
    var Publishing(todo, published) := s.publisher;
    var rows := s.db.rows;
    var k := FailUpdatesOneRow(s, verdicts[0].nonRetryable);
    var marked := Apply(s, FailStep(verdicts[0].nonRetryable)).db.rows;
    assert todo == [todo[0]] + todo[1..];
    forall i | 0 <= i < |rows| && i != k ensures marked[i] == rows[i] && rows[i].id != rows[k].id {
    }
    assert marked[k].id == todo[0].id && forall e | e in todo[1..] :: e.id != todo[0].id;
    assert rows'[k] == marked[k];
    forall i, j | 0 <= i < |rows| && 0 <= j < |todo| && rows[i] == todo[j]
      ensures ShowsVerdict(rows[i], verdicts[j], rows'[i])
    {
      if j > 0 {
        assert todo[1..][j - 1] == todo[j] && verdicts[1..][j - 1] == verdicts[j];
        assert i != k && marked[i] == todo[1..][j - 1];
      }
    }
  }

  /** Rows and recorded ids at the end of a call of the publisher, from any point of it. */
  lemma {:induction false} FinishRoundOutcome(s: System, verdicts: seq<Verdict>)
    requires Inv(s) && s.publisher.Publishing? && |s.publisher.todo| == |verdicts|
    ensures RowsShow(s.db.rows, s.publisher.todo, verdicts, s.publisher.published, FinishRound(s, verdicts).db.rows)
    ensures FinishRound(s, verdicts).db.sent ==
            s.db.sent + (set id | id in s.publisher.published) + DeliveredIds(s.publisher.todo, verdicts)
    decreases |verdicts|
  {
    if verdicts != [] {
      var step := VerdictStep(verdicts[0]);
      var next := Apply(s, step);
      StepKeepsInv(s, step);
      FinishRoundOutcome(next, verdicts[1..]);
      DeliveredSplits(s.publisher.todo, verdicts);
      match verdicts[0]
      case Delivered => DeliveredShows(s, verdicts, FinishRound(s, verdicts).db.rows);
      case Rejected(_) => RejectedShows(s, verdicts, FinishRound(s, verdicts).db.rows);
    }
  }

  lemma DeliveredSplits(todo: seq<Event>, verdicts: seq<Verdict>)
    requires |todo| == |verdicts| > 0
    ensures DeliveredIds(todo, verdicts) ==
            (if verdicts[0].Delivered? then {todo[0].id} else {}) + DeliveredIds(todo[1..], verdicts[1..])
  {
    forall id | id in DeliveredIds(todo, verdicts)
      ensures id in (if verdicts[0].Delivered? then {todo[0].id} else {}) + DeliveredIds(todo[1..], verdicts[1..])
    {
      var i :| 0 <= i < |todo| && verdicts[i].Delivered? && todo[i].id == id;
      if i > 0 {
        assert todo[1..][i - 1] == todo[i] && verdicts[1..][i - 1] == verdicts[i];
      }
    }
    forall id | id in DeliveredIds(todo[1..], verdicts[1..]) ensures id in DeliveredIds(todo, verdicts) {
      var i :| 0 <= i < |todo[1..]| && verdicts[1..][i].Delivered? && todo[1..][i].id == id;
      assert todo[i + 1] == todo[1..][i] && verdicts[i + 1] == verdicts[1..][i];
    }
  }

  /**
   A whole call: a delivered event is PROCESSED and its id recorded as sent, a rejected one has one retry
   more and waits or has failed, every other row stays, and no other id is recorded.
   */
  lemma RoundOutcome(db: State, round: Round)
    requires DbInv(db) && ValidRound(db, round)
    ensures RowsShow(db.rows, round.polled, round.verdicts, [], RunRound(db, round).rows)
    ensures RunRound(db, round).sent == db.sent + DeliveredIds(round.polled, round.verdicts)
  {
    PollFacts(db.rows, round.limit, round.polled);
    StepKeepsInv(System(db, Idle), PollStep(round.limit, round.polled));
    FinishRoundOutcome(System(db, Publishing(round.polled, [])), round.verdicts);
  }

  /** A call that stops: rejected events are marked as far as it came, nothing is processed or recorded. */
  ghost predicate PartShows(rows: seq<Event>, todo: seq<Event>, verdicts: seq<Verdict>, rows': seq<Event>)
    requires |verdicts| <= |todo|
  {
    && |rows'| == |rows|
    && (forall i, j | 0 <= i < |rows| && 0 <= j < |verdicts| && rows[i] == todo[j] ::
          if verdicts[j].Rejected? then ShowsVerdict(rows[i], verdicts[j], rows'[i]) else rows'[i] == rows[i])
    && (forall i | 0 <= i < |rows| && rows[i] !in todo[..|verdicts|] :: rows'[i] == rows[i])
  }

  lemma {:induction false} AdvanceOutcome(s: System, verdicts: seq<Verdict>)
    requires Inv(s) && s.publisher.Publishing? && |verdicts| <= |s.publisher.todo|
    ensures PartShows(s.db.rows, s.publisher.todo, verdicts, Advance(s, verdicts).db.rows)
    ensures Advance(s, verdicts).db.sent == s.db.sent
    decreases |verdicts|
  {
    if verdicts != [] {
      var step := VerdictStep(verdicts[0]);
      StepKeepsInv(s, step);
      AdvanceOutcome(Apply(s, step), verdicts[1..]);
      PartGrows(s, verdicts, Advance(s, verdicts).db.rows);
    }
  }

  lemma PartGrows(s: System, verdicts: seq<Verdict>, rows': seq<Event>)
    requires Inv(s) && s.publisher.Publishing? && 0 < |verdicts| <= |s.publisher.todo|
    requires var next := Apply(s, VerdictStep(verdicts[0]));
             PartShows(next.db.rows, next.publisher.todo, verdicts[1..], rows')
    ensures PartShows(s.db.rows, s.publisher.todo, verdicts, rows')
  {
    var rows, todo := s.db.rows, s.publisher.todo;
    var marked := Apply(s, VerdictStep(verdicts[0])).db.rows;
    assert todo[..|verdicts|] == [todo[0]] + todo[1..][..|verdicts[1..]|];
    assert todo[0] in rows;
    var k :| 0 <= k < |rows| && rows[k] == todo[0];
    if verdicts[0].Rejected? {
      k := FailUpdatesOneRow(s, verdicts[0].nonRetryable);
    }
    assert forall i | 0 <= i < |rows| && i != k :: marked[i] == rows[i];
    assert marked[k].id == todo[0].id && forall e | e in todo[1..] :: e.id != todo[0].id;
    assert rows'[k] == marked[k];
    forall i, j | 0 <= i < |rows| && 0 <= j < |verdicts| && rows[i] == todo[j]
      ensures if verdicts[j].Rejected? then ShowsVerdict(rows[i], verdicts[j], rows'[i]) else rows'[i] == rows[i]
    {
      if j > 0 {
        assert todo[1..][j - 1] == todo[j] && verdicts[1..][j - 1] == verdicts[j];
        assert i != k && marked[i] == todo[1..][j - 1];
      }
    }
  }

  lemma {:induction false} AdvanceKeepsInv(s: System, verdicts: seq<Verdict>)
    requires Inv(s) && s.publisher.Publishing? && |verdicts| <= |s.publisher.todo|
    ensures Inv(Advance(s, verdicts)) && Known(s.db) <= Known(Advance(s, verdicts).db)
    ensures s.db.sent <= Advance(s, verdicts).db.sent
    decreases |verdicts|
  {
    if verdicts != [] {
      var step := VerdictStep(verdicts[0]);
      StepKeepsInv(s, step);
      StepIsMonotone(s, step);
      AdvanceKeepsInv(Apply(s, step), verdicts[1..]);
    }
  }

  lemma {:induction false} AdvanceKeepsSettled(s: System, verdicts: seq<Verdict>, id: EventId)
    requires Inv(s) && s.publisher.Publishing? && |verdicts| <= |s.publisher.todo| && Settled(s.db, id)
    ensures Settled(Advance(s, verdicts).db, id)
    decreases |verdicts|
  {
    if verdicts != [] {
      var step := VerdictStep(verdicts[0]);
      StepKeepsInv(s, step);
      StepKeepsSettledIff(s, step, id);
      AdvanceKeepsSettled(Apply(s, step), verdicts[1..], id);
    }
  }

  lemma {:induction false} FinishRoundKeepsSettled(s: System, verdicts: seq<Verdict>, id: EventId)
    requires Inv(s) && s.publisher.Publishing? && |s.publisher.todo| == |verdicts| && Settled(s.db, id)
    ensures Settled(FinishRound(s, verdicts).db, id)
    decreases |verdicts|
  {
    if verdicts == [] {
      CommitKeepsSettled(s, id);
    } else {
      var step := VerdictStep(verdicts[0]);
      StepKeepsInv(s, step);
      StepKeepsSettledIff(s, step, id);
      FinishRoundKeepsSettled(Apply(s, step), verdicts[1..], id);
    }
  }

  lemma RoundKeepsSettled(db: State, round: Round, id: EventId)
    requires DbInv(db) && ValidRound(db, round) && Settled(db, id)
    ensures Settled(RunRound(db, round), id)
  {
    PollFacts(db.rows, round.limit, round.polled);
    StepKeepsInv(System(db, Idle), PollStep(round.limit, round.polled));
    FinishRoundKeepsSettled(System(db, Publishing(round.polled, [])), round.verdicts, id);
  }

  /** What a call leaves that stopped after some verdicts: the publisher's memory is gone. */
  function RunPart(db: State, round: Round, done: nat): State
    requires |round.verdicts| == |round.polled| && done <= |round.polled|
  {
    Advance(System(db, Publishing(round.polled, [])), round.verdicts[..done]).db
  }

  /** A call that stops anywhere keeps the invariant and loses no id: its events are polled again. */
  lemma FailedCallIsSafe(db: State, round: Round, done: nat)
    requires DbInv(db) && ValidRound(db, round) && done <= |round.polled|
    ensures DbInv(RunPart(db, round, done)) && Known(db) <= Known(RunPart(db, round, done))
    ensures db.sent <= RunPart(db, round, done).sent
    ensures forall id | Settled(db, id) :: Settled(RunPart(db, round, done), id)
    ensures PartShows(db.rows, round.polled, round.verdicts[..done], RunPart(db, round, done).rows)
    ensures RunPart(db, round, done).sent == db.sent
  {
    PollFacts(db.rows, round.limit, round.polled);
    StepKeepsInv(System(db, Idle), PollStep(round.limit, round.polled));
    var s := System(db, Publishing(round.polled, []));
    AdvanceKeepsInv(s, round.verdicts[..done]);
    AdvanceOutcome(s, round.verdicts[..done]);
    forall id | Settled(db, id) ensures Settled(RunPart(db, round, done), id) {
      AdvanceKeepsSettled(s, round.verdicts[..done], id);
    }
  }

  ghost predicate ValidRounds(db: State, rounds: seq<Round>)
    decreases |rounds|
  {
    rounds == [] || (ValidRound(db, rounds[0]) && ValidRounds(RunRound(db, rounds[0]), rounds[1..]))
  }

  ghost function RunRounds(db: State, rounds: seq<Round>): State
    requires ValidRounds(db, rounds)
    decreases |rounds|
  {
    if rounds == [] then db else RunRounds(RunRound(db, rounds[0]), rounds[1..])
  }

  /**
   Draining terminates. Whatever the limits and the outcomes of publishing, after as many rounds as
   there were remaining retries nothing is pending: a failing head cannot block the queue for ever.
   */
  lemma {:induction false} RoundsDrainTheQueue(db: State, rounds: seq<Round>)
    requires DbInv(db) && ValidRounds(db, rounds)
    requires |rounds| >= Remaining(db.rows)
    ensures DbInv(RunRounds(db, rounds)) && PendingRows(RunRounds(db, rounds).rows) == []
    ensures forall id | Settled(db, id) :: Settled(RunRounds(db, rounds), id)
    decreases |rounds|
  {
    forall id | Settled(db, id) ensures Settled(RunRounds(db, rounds), id) {
      RoundsKeepSettled(db, rounds, id);
    }
    RemainingIsPositive(db.rows);
    if rounds != [] {
      RoundDecreases(db, rounds[0]);
      if PendingRows(db.rows) == [] {
        RemainingIsPositive(RunRound(db, rounds[0]).rows);
        NothingPendingNothingRemains(db.rows);
      }
      RoundsDrainTheQueue(RunRound(db, rounds[0]), rounds[1..]);
    }
  }

  lemma {:induction false} RoundsKeepSettled(db: State, rounds: seq<Round>, id: EventId)
    requires DbInv(db) && ValidRounds(db, rounds) && Settled(db, id)
    ensures Settled(RunRounds(db, rounds), id)
    decreases |rounds|
  {
    if rounds != [] {
      RoundDecreases(db, rounds[0]);
      RoundKeepsSettled(db, rounds[0], id);
      RoundsKeepSettled(RunRound(db, rounds[0]), rounds[1..], id);
    }
  }

  lemma {:induction false} NothingPendingNothingRemains(rows: seq<Event>)
    requires PendingRows(rows) == []
    ensures Remaining(rows) == 0
  {
    if rows != [] {
      NothingPendingNothingRemains(rows[..|rows| - 1]);
    }
  }
}
