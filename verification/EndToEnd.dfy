/**
 Ledger and outbox together: runs in which batches of payments are upserted while the publisher
 polls, publishes, marks, crashes and cleans up, and events are recorded directly. What the two parts
 prove on their own becomes one statement about every stored adjustment.
 */
module EndToEnd {
  import opened Common
  import opened Ledger
  import Outbox
  import OutboxProtocol
  import OutboxQueue
  import Theorems = LedgerTheorems

  datatype State = State(tables: Tables, publisher: OutboxProtocol.Publisher)

  datatype Step = UpsertStep(now: Time, batch: Theorems.Batch) | PublisherStep(step: OutboxProtocol.Step)

  const EMPTY := State(Theorems.EMPTY, OutboxProtocol.Idle)

  function Protocol(s: State): OutboxProtocol.System {
    OutboxProtocol.System(s.tables.outbox, s.publisher)
  }

  ghost predicate Enabled(s: State, step: Step) {
    match step
    case UpsertStep(_, batch) => Theorems.Enclosed(batch) && Theorems.OwnConnector(batch)
    case PublisherStep(step) => OutboxProtocol.Enabled(Protocol(s), step)
  }

  ghost function Apply(key: AdjustmentId -> string, s: State, step: Step): State
    requires Enabled(s, step)
  {
    match step
    case UpsertStep(now, batch) =>
      (match Upsert(key, now, s.tables, batch)
       case Ok(tables) => s.(tables := tables)
       case Err(_) => s)
    case PublisherStep(step) =>
      var after := OutboxProtocol.Apply(Protocol(s), step);
      State(s.tables.(outbox := after.db), after.publisher)
  }

  ghost predicate ValidRun(key: AdjustmentId -> string, steps: seq<Step>)
    decreases |steps|, 0
  {
    steps == [] || (ValidRun(key, steps[..|steps| - 1]) && Enabled(Exec(key, steps[..|steps| - 1]), steps[|steps| - 1]))
  }

  ghost function Exec(key: AdjustmentId -> string, steps: seq<Step>): State
    requires ValidRun(key, steps)
    decreases |steps|, 1
  {
    if steps == [] then EMPTY else Apply(key, Exec(key, steps[..|steps| - 1]), steps[|steps| - 1])
  }

  /** The run as the ledger sees it. */
  ghost function LedgerSteps(key: AdjustmentId -> string, steps: seq<Step>): seq<Theorems.Step>
    requires ValidRun(key, steps)
    decreases |steps|
  {
    if steps == [] then []
    else
      var init, last := steps[..|steps| - 1], steps[|steps| - 1];
      LedgerSteps(key, init) +
      [if last.UpsertStep? then Theorems.UpsertStep(last.now, last.batch)
       else Theorems.OutboxStep(Exec(key, steps).tables.outbox)]
  }

  /** An upsert is an insert step of the outbox protocol. */
  lemma UpsertKeepsProtocol(key: AdjustmentId -> string, now: Time, s: State, batch: Theorems.Batch)
    requires OutboxProtocol.Inv(Protocol(s)) && Upsert(key, now, s.tables, batch).Ok?
    ensures OutboxProtocol.Inv(Protocol(s.(tables := Upsert(key, now, s.tables, batch).value)))
  {
    var events := PaymentEvents(key, now, Inserted(s.tables, batch), PaymentMap(batch));
    Theorems.PaymentEventsAreNew(key, now, Inserted(s.tables, batch), PaymentMap(batch));
    OutboxProtocol.InsertKeepsInv(Protocol(s), events);
  }

  lemma {:induction false} RunKeepsProtocol(key: AdjustmentId -> string, steps: seq<Step>)
    requires ValidRun(key, steps)
    ensures OutboxProtocol.Inv(Protocol(Exec(key, steps)))
    decreases |steps|
  {
    if steps != [] {
      var init, last := steps[..|steps| - 1], steps[|steps| - 1];
      RunKeepsProtocol(key, init);
      var s := Exec(key, init);
      match last
      case PublisherStep(step) => OutboxProtocol.StepKeepsInv(Protocol(s), step);
      case UpsertStep(now, batch) =>
        if Upsert(key, now, s.tables, batch).Ok? {
          UpsertKeepsProtocol(key, now, s, batch);
        }
    }
  }

  lemma {:induction false} RunProjects(key: AdjustmentId -> string, steps: seq<Step>)
    requires ValidRun(key, steps)
    ensures Theorems.Run(key, Theorems.EMPTY, LedgerSteps(key, steps)) == Exec(key, steps).tables
    ensures Theorems.WellFormed(LedgerSteps(key, steps)) && Theorems.AllEnclosed(LedgerSteps(key, steps))
    ensures Theorems.OutboxLosesNothing(key, LedgerSteps(key, steps))
    decreases |steps|
  {
    if steps != [] {
      var init, last := steps[..|steps| - 1], steps[|steps| - 1];
      RunProjects(key, init);
      RunKeepsProtocol(key, init);
      var before := LedgerSteps(key, init);
      assert LedgerSteps(key, steps)[..|before|] == before;
      if last.PublisherStep? {
        OutboxProtocol.StepIsMonotone(Protocol(Exec(key, init)), last.step);
      }
    }
  }

  /** An unprocessed row: the event waits, or has failed for good. */
  ghost predicate Unpublished(db: Outbox.State, id: Outbox.EventId) {
    exists r :: r in db.rows && r.id == id && r.status != Outbox.Processed
  }

  /** Every direct record of the id found no row of it that waits or has failed. */
  ghost predicate AllInTime(key: AdjustmentId -> string, steps: seq<Step>, id: Outbox.EventId)
    requires ValidRun(key, steps)
    decreases |steps|
  {
    steps == [] ||
    var init, last := steps[..|steps| - 1], steps[|steps| - 1];
    && AllInTime(key, init, id)
    && (last.PublisherStep? ==> OutboxProtocol.InTime(Protocol(Exec(key, init)), last.step, id))
  }

  ghost predicate AlwaysSettled(key: AdjustmentId -> string, steps: seq<Step>, id: Outbox.EventId)
    requires ValidRun(key, steps)
    decreases |steps|
  {
    && OutboxProtocol.Settled(Exec(key, steps).tables.outbox, id)
    && (steps != [] ==> AlwaysSettled(key, steps[..|steps| - 1], id))
  }

  lemma UpsertKeepsSettled(key: AdjustmentId -> string, now: Time, s: State, batch: Theorems.Batch, id: Outbox.EventId)
    requires OutboxProtocol.Settled(s.tables.outbox, id) && Upsert(key, now, s.tables, batch).Ok?
    ensures OutboxProtocol.Settled(Upsert(key, now, s.tables, batch).value.outbox, id)
  {
    var events := PaymentEvents(key, now, Inserted(s.tables, batch), PaymentMap(batch));
    OutboxProtocol.InsertKeepsSettled(Protocol(s), events, id);
  }

  lemma StepKeepsSettledIff(key: AdjustmentId -> string, s: State, step: Step, id: Outbox.EventId)
    requires OutboxProtocol.Inv(Protocol(s)) && OutboxProtocol.Settled(s.tables.outbox, id) && Enabled(s, step)
    ensures OutboxProtocol.Settled(Apply(key, s, step).tables.outbox, id) <==>
            (step.PublisherStep? ==> OutboxProtocol.InTime(Protocol(s), step.step, id))
  {
    match step
    case PublisherStep(step) => OutboxProtocol.StepKeepsSettledIff(Protocol(s), step, id);
    case UpsertStep(now, batch) =>
      if Upsert(key, now, s.tables, batch).Ok? {
        UpsertKeepsSettled(key, now, s, batch, id);
      }
  }

  /** No state of a run has an id both sent and still waiting exactly when each direct record of it came in time. */
  lemma {:induction false} AlwaysSettledIff(key: AdjustmentId -> string, steps: seq<Step>, id: Outbox.EventId)
    requires ValidRun(key, steps)
    ensures AlwaysSettled(key, steps, id) <==> AllInTime(key, steps, id)
    decreases |steps|
  {
    if steps != [] {
      var init, last := steps[..|steps| - 1], steps[|steps| - 1];
      AlwaysSettledIff(key, init, id);
      if AllInTime(key, init, id) {
        RunKeepsProtocol(key, init);
        StepKeepsSettledIff(key, Exec(key, init), last, id);
      }
    }
  }

  lemma KnownIsSentOrUnpublished(db: Outbox.State, id: Outbox.EventId)
    requires OutboxProtocol.DbInv(db) && id in Outbox.Known(db)
    ensures id in db.sent || Unpublished(db, id)
    ensures OutboxProtocol.Settled(db, id) <==> !(id in db.sent && Unpublished(db, id))
  {
    if id !in db.sent {
      var r :| r in db.rows && r.id == id;
      assert r.status != Outbox.Processed;
    }
  }

  /**
   In every run amounts are conserved, and the event of every stored adjustment is recorded as sent or
   held in an unprocessed row: never neither, and never both unless it was recorded directly too early.
   */
  lemma EveryAdjustmentIsAccountedFor(key: AdjustmentId -> string, steps: seq<Step>)
    requires forall id: AdjustmentId :: key(id) != ""
    requires ValidRun(key, steps)
    ensures Theorems.Conserved(Exec(key, steps).tables, Theorems.FirstAmountsOf(key, LedgerSteps(key, steps)))
    ensures var t := Exec(key, steps).tables;
            forall a | a in t.adjustments ::
              var id := Theorems.EventIdOf(key, a.id);
              && (id in t.outbox.sent || Unpublished(t.outbox, id))
              && (AllInTime(key, steps, id) ==> (id in t.outbox.sent <==> !Unpublished(t.outbox, id)))
  {
    var t := Exec(key, steps).tables;
    RunProjects(key, steps);
    RunKeepsProtocol(key, steps);
    Theorems.RunsConserveAmounts(key, LedgerSteps(key, steps));
    forall a | a in t.adjustments
      ensures var id := Theorems.EventIdOf(key, a.id);
              && (id in t.outbox.sent || Unpublished(t.outbox, id))
              && (AllInTime(key, steps, id) ==> (id in t.outbox.sent <==> !Unpublished(t.outbox, id)))
    {
      AdjustmentIsAccountedFor(key, steps, a);
    }
  }

  lemma AdjustmentIsAccountedFor(key: AdjustmentId -> string, steps: seq<Step>, a: Adjustment<Amount>)
    requires forall id: AdjustmentId :: key(id) != ""
    requires ValidRun(key, steps) && a in Exec(key, steps).tables.adjustments
    ensures var db, id := Exec(key, steps).tables.outbox, Theorems.EventIdOf(key, a.id);
            && (id in db.sent || Unpublished(db, id))
            && (AllInTime(key, steps, id) ==> (id in db.sent <==> !Unpublished(db, id)))
  {
    var t, id := Exec(key, steps).tables, Theorems.EventIdOf(key, a.id);
    RunProjects(key, steps);
    RunKeepsProtocol(key, steps);
    Theorems.RunsAnnounceEveryAdjustment(key, LedgerSteps(key, steps));
    assert id in Theorems.EventIdsOf(key, t.adjustments);
    KnownIsSentOrUnpublished(t.outbox, id);
    AlwaysSettledIff(key, steps, id);
  }

  // ---- After draining -------------------------------------------------------------------------

  lemma {:induction false} RoundsLoseNothing(db: Outbox.State, rounds: seq<OutboxProtocol.Round>)
    requires OutboxProtocol.DbInv(db) && OutboxProtocol.ValidRounds(db, rounds)
    ensures Outbox.Known(db) <= Outbox.Known(OutboxProtocol.RunRounds(db, rounds))
    decreases |rounds|
  {
    if rounds != [] {
      OutboxProtocol.RoundDecreases(db, rounds[0]);
      OutboxQueue.RoundLosesNothing(db, rounds[0]);
      RoundsLoseNothing(OutboxProtocol.RunRound(db, rounds[0]), rounds[1..]);
    }
  }

  /**
   Once the queue is drained after any run, the event of every stored adjustment has been sent, or
   its row has failed for good.
   */
  lemma DrainedMeansSentOrFailed(key: AdjustmentId -> string, steps: seq<Step>, rounds: seq<OutboxProtocol.Round>,
                                 a: Adjustment<Amount>)
    requires forall id: AdjustmentId :: key(id) != ""
    requires ValidRun(key, steps) && a in Exec(key, steps).tables.adjustments
    requires OutboxProtocol.ValidRounds(Exec(key, steps).tables.outbox, rounds)
    requires |rounds| >= OutboxProtocol.Remaining(Exec(key, steps).tables.outbox.rows)
    ensures var db := OutboxProtocol.RunRounds(Exec(key, steps).tables.outbox, rounds);
            var id := Theorems.EventIdOf(key, a.id);
            && (id in db.sent || OutboxQueue.HasFailed(db, id))
            && (AllInTime(key, steps, id) ==> !(id in db.sent && OutboxQueue.HasFailed(db, id)))
  {
    var t := Exec(key, steps).tables;
    var db := OutboxProtocol.RunRounds(t.outbox, rounds);
    var id := Theorems.EventIdOf(key, a.id);
    RunProjects(key, steps);
    RunKeepsProtocol(key, steps);
    Theorems.RunsAnnounceEveryAdjustment(key, LedgerSteps(key, steps));
    assert id in Theorems.EventIdsOf(key, t.adjustments);
    RoundsLoseNothing(t.outbox, rounds);
    OutboxProtocol.RoundsDrainTheQueue(t.outbox, rounds);
    Outbox.PendingRowsElements(db.rows);
    if AllInTime(key, steps, id) {
      AlwaysSettledIff(key, steps, id);
    }
    if id !in db.sent {
      var r :| r in db.rows && r.id == id;
      assert r !in Outbox.PendingRows(db.rows);
    }
  }

  /**
   The same while the service keeps running: with later events inserted between the calls, calls that
   fail half-way and clean-up, the adjustments announced until a time are sent or failed for good after
   as many completed calls as the rows of that age had remaining retries.
   */
  lemma SentOrFailedWhileRunning(key: AdjustmentId -> string, steps: seq<Step>, queue: seq<OutboxQueue.Step>,
                                 until: Time, a: Adjustment<Amount>)
    requires forall id: AdjustmentId :: key(id) != ""
    requires ValidRun(key, steps) && a in Exec(key, steps).tables.adjustments
    requires var outbox := Exec(key, steps).tables.outbox;
             && OutboxQueue.ValidQueue(outbox, queue, until)
             && OutboxQueue.Completed(queue) >= OutboxQueue.RemainingUntil(outbox.rows, until)
             && (forall r | r in outbox.rows && r.id == Theorems.EventIdOf(key, a.id) :: r.createdAt <= until)
    ensures var db := OutboxQueue.RunQueue(Exec(key, steps).tables.outbox, queue, until);
            var id := Theorems.EventIdOf(key, a.id);
            && (id in db.sent || OutboxQueue.HasFailed(db, id))
            && (AllInTime(key, steps, id) && OutboxQueue.Step.RecordStep(id) !in queue ==>
                  !(id in db.sent && OutboxQueue.HasFailed(db, id)))
  {
    var t := Exec(key, steps).tables;
    RunProjects(key, steps);
    RunKeepsProtocol(key, steps);
    AlwaysSettledIff(key, steps, Theorems.EventIdOf(key, a.id));
    Theorems.RunsAnnounceEveryAdjustment(key, LedgerSteps(key, steps));
    assert Theorems.EventIdOf(key, a.id) in Theorems.EventIdsOf(key, t.adjustments);
    OutboxQueue.EachEventIsSentOrFails(t.outbox, queue, Theorems.EventIdOf(key, a.id), until);
  }
}
