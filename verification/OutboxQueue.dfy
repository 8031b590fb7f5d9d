/**
 The queue while the service keeps running: between two calls of the publisher other transactions
 insert later events, calls of the publisher fail half-way, old processed rows are cleaned up, and
 events are recorded directly.
 */
module OutboxQueue {
  import opened Common
  import opened Outbox
  import opened OutboxProtocol

  /** The retries that the pending rows created at or before a time may still use. */
  function RemainingUntil(rows: seq<Event>, until: Time): int {
    if rows == [] then 0
    else
      var last := rows[|rows| - 1];
      RemainingUntil(rows[..|rows| - 1], until) + if last.createdAt <= until then Retries(last) else 0
  }

  // ---- One call of the publisher, row by row --------------------------------------------------

  /** The same rows, none with more retries left than before. */
  ghost predicate Eases(rows: seq<Event>, rows': seq<Event>) {
    && |rows| == |rows'|
    && forall i | 0 <= i < |rows| ::
         rows'[i].id == rows[i].id && rows'[i].createdAt == rows[i].createdAt && Retries(rows'[i]) <= Retries(rows[i])
  }

  ghost predicate LosesAt(rows: seq<Event>, rows': seq<Event>, id: EventId, i: int) {
    0 <= i < |rows| && |rows| == |rows'| && rows[i].id == id && Retries(rows'[i]) < Retries(rows[i])
  }

  /** The row of an id has fewer retries left than before. */
  ghost predicate Loses(rows: seq<Event>, rows': seq<Event>, id: EventId) {
    exists i :: LosesAt(rows, rows', id, i)
  }

  lemma EasesThenLoses(rows: seq<Event>, rows': seq<Event>, rows'': seq<Event>, id: EventId)
    requires Eases(rows, rows') && Eases(rows', rows'') && (Loses(rows, rows', id) || Loses(rows', rows'', id))
    ensures Eases(rows, rows'') && Loses(rows, rows'', id)
  {
    if Loses(rows, rows', id) {
      var i :| LosesAt(rows, rows', id, i);
      assert LosesAt(rows, rows'', id, i);
    } else {
      var i :| LosesAt(rows', rows'', id, i);
      assert LosesAt(rows, rows'', id, i);
    }
  }

  lemma FailEases(s: System, nonRetryable: bool)
    requires Inv(s) && Enabled(s, FailStep(nonRetryable))
    ensures var rows' := Apply(s, FailStep(nonRetryable)).db.rows;
            Eases(s.db.rows, rows') && Loses(s.db.rows, rows', s.publisher.todo[0].id)
  {
    var i := FailUpdatesOneRow(s, nonRetryable);
    assert LosesAt(s.db.rows, Apply(s, FailStep(nonRetryable)).db.rows, s.publisher.todo[0].id, i);
  }

  lemma CommitEases(s: System)
    requires Inv(s) && Enabled(s, CommitStep)
    ensures var rows' := Apply(s, CommitStep).db.rows;
            Eases(s.db.rows, rows') && forall id | id in s.publisher.published :: Loses(s.db.rows, rows', id)
  {
    var rows, rows' := s.db.rows, Apply(s, CommitStep).db.rows;
    forall i | 0 <= i < |rows| ensures Retries(rows'[i]) <= Retries(rows[i]) {
      assert rows[i] in rows;
    }
    forall id | id in s.publisher.published ensures Loses(rows, rows', id) {
      assert PendingId(rows, id);
      var r :| r in rows && r.id == id && r.status == Pending;
      var i :| 0 <= i < |rows| && rows[i] == r;
      assert LosesAt(rows, rows', id, i);
    }
  }

  /** Every event still to publish, and every published one, loses a retry by the end of the call. */
  lemma {:induction false} FinishRoundEases(s: System, verdicts: seq<Verdict>)
    requires Inv(s) && s.publisher.Publishing? && |s.publisher.todo| == |verdicts|
    ensures var rows' := FinishRound(s, verdicts).db.rows;
            && Eases(s.db.rows, rows')
            && (forall e | e in s.publisher.todo :: Loses(s.db.rows, rows', e.id))
            && (forall id | id in s.publisher.published :: Loses(s.db.rows, rows', id))
    decreases |verdicts|
  {
    if verdicts == [] {
      CommitEases(s);
    } else {
      var step, todo := VerdictStep(verdicts[0]), s.publisher.todo;
      var next := Apply(s, step);
      StepKeepsInv(s, step);
      FinishRoundEases(next, verdicts[1..]);
      assert todo == [todo[0]] + todo[1..];
      var rows, rows', rows'' := s.db.rows, next.db.rows, FinishRound(s, verdicts).db.rows;
      if step.FailStep? {
        FailEases(s, step.nonRetryable);
        EasesThenLoses(rows, rows', rows'', todo[0].id);
        forall e | e in todo[1..] ensures Loses(rows, rows'', e.id) {
          EasesThenLoses(rows, rows', rows'', e.id);
        }
        forall id | id in s.publisher.published ensures Loses(rows, rows'', id) {
          EasesThenLoses(rows, rows', rows'', id);
        }
      } else {
        assert todo[0].id in next.publisher.published;
        assert forall id | id in s.publisher.published :: id in next.publisher.published;
      }
    }
  }

  lemma {:induction false} AdvanceEases(s: System, verdicts: seq<Verdict>)
    requires Inv(s) && s.publisher.Publishing? && |verdicts| <= |s.publisher.todo|
    ensures Eases(s.db.rows, Advance(s, verdicts).db.rows)
    decreases |verdicts|
  {
    if verdicts != [] {
      var step := VerdictStep(verdicts[0]);
      StepKeepsInv(s, step);
      if step.FailStep? {
        FailEases(s, step.nonRetryable);
      }
      AdvanceEases(Apply(s, step), verdicts[1..]);
    }
  }

  // ---- What is left ---------------------------------------------------------------------------

  lemma {:induction false} EasingTakesAway(rows: seq<Event>, rows': seq<Event>, until: Time)
    requires Eases(rows, rows')
    ensures RemainingUntil(rows', until) <= RemainingUntil(rows, until)
    ensures forall id, i | LosesAt(rows, rows', id, i) && rows[i].createdAt <= until ::
              RemainingUntil(rows', until) < RemainingUntil(rows, until)
  {
    if rows != [] {
      var n := |rows| - 1;
      EasingTakesAway(rows[..n], rows'[..n], until);
      forall id, i | LosesAt(rows, rows', id, i) && rows[i].createdAt <= until
        ensures RemainingUntil(rows', until) < RemainingUntil(rows, until)
      {
        if i < n {
          assert LosesAt(rows[..n], rows'[..n], id, i);
        }
      }
    }
  }

  ghost predicate PendingUntil(rows: seq<Event>, until: Time) {
    exists r :: r in rows && r.status == Pending && r.createdAt <= until
  }

  lemma {:induction false} SomeRetriesRemain(rows: seq<Event>, until: Time)
    requires forall r | r in rows && r.status == Pending :: r.retryCount < MAX_OUTBOX_RETRIES
    ensures RemainingUntil(rows, until) >= 0
    ensures PendingUntil(rows, until) ==> RemainingUntil(rows, until) > 0
  {
    if rows != [] {
      var init, last := rows[..|rows| - 1], rows[|rows| - 1];
      assert rows == init + [last];
      SomeRetriesRemain(init, until);
      if PendingUntil(rows, until) && !PendingUntil(init, until) {
        var r :| r in rows && r.status == Pending && r.createdAt <= until;
        assert r == last;
      }
    }
  }

  /** A poll that finds an event of that age takes one, however many later ones wait. */
  lemma PollTakesAnOldOne(db: State, round: Round, until: Time) returns (e: Event)
    requires DbInv(db) && ValidRound(db, round) && PendingUntil(db.rows, until)
    ensures e in round.polled && e.createdAt <= until
  {
    var r :| r in db.rows && r.status == Pending && r.createdAt <= until;
    PollFacts(db.rows, round.limit, round.polled);
    PendingRowsElements(db.rows);
    assert r in PendingRows(db.rows);
    e := if r in round.polled then r else round.polled[0];
  }

  /** A call takes at least one remaining retry away from the events of an age, while one is pending. */
  lemma RoundMakesProgress(db: State, round: Round, until: Time)
    requires DbInv(db) && ValidRound(db, round)
    ensures RemainingUntil(RunRound(db, round).rows, until) <= RemainingUntil(db.rows, until)
    ensures PendingUntil(db.rows, until) ==>
              RemainingUntil(RunRound(db, round).rows, until) < RemainingUntil(db.rows, until)
  {
    var s := System(db, Publishing(round.polled, []));
    PollFacts(db.rows, round.limit, round.polled);
    StepKeepsInv(System(db, Idle), PollStep(round.limit, round.polled));
    FinishRoundEases(s, round.verdicts);
    var rows, rows' := db.rows, RunRound(db, round).rows;
    EasingTakesAway(rows, rows', until);
    if PendingUntil(rows, until) {
      var e := PollTakesAnOldOne(db, round, until);
      assert Loses(rows, rows', e.id);
      var i :| LosesAt(rows, rows', e.id, i);
      assert e in rows;
      var j :| 0 <= j < |rows| && rows[j] == e;
      assert i == j;
    }
  }

  lemma {:induction false} LaterRowsDoNotCount(rows: seq<Event>, more: seq<Event>, until: Time)
    requires forall e | e in more :: e.createdAt > until
    ensures RemainingUntil(rows + more, until) == RemainingUntil(rows, until)
    decreases |more|
  {
    if more == [] {
      assert rows + more == rows;
    } else {
      LaterRowsDoNotCount(rows, more[..|more| - 1], until);
      assert (rows + more)[..|rows + more| - 1] == rows + more[..|more| - 1];
      assert more[|more| - 1] in more;
    }
  }

  /** The rows that an insert adds come from its events. */
  lemma AddedRows(rows: seq<Event>, events: seq<Event>, i: nat)
    requires UniqueIds(rows) && |rows| <= i < |InsertRows(rows, events)|
    ensures rows <= InsertRows(rows, events) && InsertRows(rows, events)[i] in events
  {
    InsertRowsExtends(rows, events);
    var rows' := InsertRows(rows, events);
    assert rows'[i] in rows';
    forall j | 0 <= j < |rows| ensures rows[j] != rows'[i] {
      assert rows'[j] == rows[j];
    }
  }

  lemma AddedByInsert(db: State, events: seq<Event>) returns (more: seq<Event>)
    requires DbInv(db) && HasKeys(events)
    ensures Insert(db, events).value.rows == db.rows + more && forall e | e in more :: e in events
  {
    var unsent := Unsent(events, db.sent);
    var rows' := InsertRows(db.rows, unsent);
    InsertRowsExtends(db.rows, unsent);
    more := rows'[|db.rows|..];
    UnsentElements(events, db.sent);
    forall i | 0 <= i < |more| ensures more[i] in events {
      AddedRows(db.rows, unsent, |db.rows| + i);
    }
  }

  lemma InsertTakesNothingAway(db: State, events: seq<Event>, until: Time)
    requires DbInv(db) && HasKeys(events) && forall e | e in events :: e.createdAt > until
    ensures RemainingUntil(Insert(db, events).value.rows, until) == RemainingUntil(db.rows, until)
  {
    var more := AddedByInsert(db, events);
    LaterRowsDoNotCount(db.rows, more, until);
  }

  lemma {:induction false} CleanUpTakesNothingAway(rows: seq<Event>, olderThan: Time, until: Time)
    ensures RemainingUntil(DropExpired(rows, olderThan), until) == RemainingUntil(rows, until)
  {
    if rows != [] {
      var init, last := rows[..|rows| - 1], rows[|rows| - 1];
      CleanUpTakesNothingAway(init, olderThan, until);
      var kept := DropExpired(init, olderThan);
      assert (kept + [last])[..|kept|] == kept;
    }
  }

  // ---- The running queue ----------------------------------------------------------------------

  datatype Step =
    | RoundStep(round: Round)
    | FailedRoundStep(round: Round, done: nat)
    | InsertStep(events: seq<Event>)
    | CleanUpStep(olderThan: Time)
    | RecordStep(id: EventId)

  /** Inserted events are new and were created after the time that the queue is watched until. */
  ghost predicate Allowed(db: State, step: Step, until: Time) {
    match step
    case RoundStep(round) => ValidRound(db, round)
    case FailedRoundStep(round, done) => ValidRound(db, round) && done <= |round.polled|
    case InsertStep(events) => NewEvents(events) && HasKeys(events) && forall e | e in events :: e.createdAt > until
    case CleanUpStep(_) => true
    case RecordStep(_) => true
  }

  ghost function Next(db: State, step: Step, until: Time): State
    requires Allowed(db, step, until)
  {
    match step
    case RoundStep(round) => RunRound(db, round)
    case FailedRoundStep(round, done) => RunPart(db, round, done)
    case InsertStep(events) => Insert(db, events).value
    case CleanUpStep(olderThan) => CleanUp(db, olderThan)
    case RecordStep(id) => Record(db, id)
  }

  ghost predicate ValidQueue(db: State, steps: seq<Step>, until: Time)
    decreases |steps|
  {
    steps == [] || (Allowed(db, steps[0], until) && ValidQueue(Next(db, steps[0], until), steps[1..], until))
  }

  ghost function RunQueue(db: State, steps: seq<Step>, until: Time): State
    requires ValidQueue(db, steps, until)
    decreases |steps|
  {
    if steps == [] then db else RunQueue(Next(db, steps[0], until), steps[1..], until)
  }

  /** The calls of the publisher that were completed. */
  function Completed(steps: seq<Step>): nat {
    if steps == [] then 0 else (if steps[0].RoundStep? then 1 else 0) + Completed(steps[1..])
  }

  lemma NextKeepsInv(db: State, step: Step, until: Time)
    requires DbInv(db) && Allowed(db, step, until)
    ensures DbInv(Next(db, step, until))
    ensures Known(db) <= Known(Next(db, step, until)) && db.sent <= Next(db, step, until).sent
  {
    match step
    case RoundStep(round) =>
      RoundDecreases(db, round);
      FailedCallIsSafe(db, round, |round.polled|);
      RoundLosesNothing(db, round);
    case FailedRoundStep(round, done) => FailedCallIsSafe(db, round, done);
    case InsertStep(events) =>
      InsertKeepsInv(System(db, Idle), events);
      InsertMakesKnown(db, events);
    case CleanUpStep(olderThan) =>
      CleanUpKeepsInv(System(db, Idle), olderThan);
      StepIsMonotone(System(db, Idle), OutboxProtocol.CleanUpStep(olderThan));
    case RecordStep(_) =>
  }

  lemma RoundLosesNothing(db: State, round: Round)
    requires DbInv(db) && ValidRound(db, round)
    ensures Known(db) <= Known(RunRound(db, round)) && db.sent <= RunRound(db, round).sent
  {
    var s := System(db, Publishing(round.polled, []));
    PollFacts(db.rows, round.limit, round.polled);
    StepKeepsInv(System(db, Idle), PollStep(round.limit, round.polled));
    FinishIsAdvanceAndCommit(s, round.verdicts);
    AdvanceDoesAll(s, round.verdicts);
    AdvanceKeepsInv(s, round.verdicts);
    StepIsMonotone(Advance(s, round.verdicts), CommitStep);
  }

  lemma AdvanceDoesAll(s: System, verdicts: seq<Verdict>)
    requires s.publisher.Publishing? && |verdicts| == |s.publisher.todo|
    ensures Advance(s, verdicts).publisher.Publishing? && Advance(s, verdicts).publisher.todo == []
    decreases |verdicts|
  {
    if verdicts != [] {
      AdvanceDoesAll(Apply(s, VerdictStep(verdicts[0])), verdicts[1..]);
    }
  }

  lemma NextTakesAway(db: State, step: Step, until: Time)
    requires DbInv(db) && Allowed(db, step, until)
    ensures RemainingUntil(Next(db, step, until).rows, until) <= RemainingUntil(db.rows, until)
    ensures step.RoundStep? && PendingUntil(db.rows, until) ==>
              RemainingUntil(Next(db, step, until).rows, until) < RemainingUntil(db.rows, until)
  {
    match step
    case RoundStep(round) => RoundMakesProgress(db, round, until);
    case FailedRoundStep(round, done) =>
      var s := System(db, Publishing(round.polled, []));
      PollFacts(db.rows, round.limit, round.polled);
      StepKeepsInv(System(db, Idle), PollStep(round.limit, round.polled));
      AdvanceEases(s, round.verdicts[..done]);
      EasingTakesAway(db.rows, RunPart(db, round, done).rows, until);
    case InsertStep(events) => InsertTakesNothingAway(db, events, until);
    case CleanUpStep(olderThan) => CleanUpTakesNothingAway(db.rows, olderThan, until);
    case RecordStep(_) =>
  }

  lemma {:induction false} QueueKeepsInv(db: State, steps: seq<Step>, until: Time)
    requires DbInv(db) && ValidQueue(db, steps, until)
    ensures DbInv(RunQueue(db, steps, until))
    ensures Known(db) <= Known(RunQueue(db, steps, until)) && db.sent <= RunQueue(db, steps, until).sent
    decreases |steps|
  {
    if steps != [] {
      NextKeepsInv(db, steps[0], until);
      QueueKeepsInv(Next(db, steps[0], until), steps[1..], until);
    }
  }

  lemma {:induction false} NothingPendingStays(db: State, steps: seq<Step>, until: Time)
    requires DbInv(db) && ValidQueue(db, steps, until) && RemainingUntil(db.rows, until) <= 0
    ensures !PendingUntil(RunQueue(db, steps, until).rows, until)
    decreases |steps|
  {
    if steps == [] {
      SomeRetriesRemain(db.rows, until);
    } else {
      NextKeepsInv(db, steps[0], until);
      NextTakesAway(db, steps[0], until);
      NothingPendingStays(Next(db, steps[0], until), steps[1..], until);
    }
  }

  /**
   No starvation. Whatever later events are inserted meanwhile, and however many calls fail half-way,
   after as many completed calls as the rows of an age had remaining retries, none of that age is pending.
   */
  lemma {:induction false} NoEventStarves(db: State, steps: seq<Step>, until: Time)
    requires DbInv(db) && ValidQueue(db, steps, until)
    requires Completed(steps) >= RemainingUntil(db.rows, until)
    ensures DbInv(RunQueue(db, steps, until)) && !PendingUntil(RunQueue(db, steps, until).rows, until)
    decreases |steps|
  {
    QueueKeepsInv(db, steps, until);
    SomeRetriesRemain(db.rows, until);
    if RemainingUntil(db.rows, until) <= 0 {
      NothingPendingStays(db, steps, until);
    } else {
      NextKeepsInv(db, steps[0], until);
      NextTakesAway(db, steps[0], until);
      if !PendingUntil(db.rows, until) {
        NothingPendingNothingLeft(db.rows, until);
      }
      NoEventStarves(Next(db, steps[0], until), steps[1..], until);
    }
  }

  lemma {:induction false} NothingPendingNothingLeft(rows: seq<Event>, until: Time)
    requires !PendingUntil(rows, until)
    ensures RemainingUntil(rows, until) == 0
  {
    if rows != [] {
      var init, last := rows[..|rows| - 1], rows[|rows| - 1];
      assert rows == init + [last] && last in rows;
      assert forall r | r in init :: r in rows;
      NothingPendingNothingLeft(init, until);
    }
  }

  // ---- One event ------------------------------------------------------------------------------

  /** An id that is known, with no row created after a time. */
  ghost predicate KnownUntil(db: State, id: EventId, until: Time) {
    id in Known(db) && forall r | r in db.rows && r.id == id :: r.createdAt <= until
  }

  lemma EasingKeepsAge(db: State, db': State, id: EventId, until: Time)
    requires Eases(db.rows, db'.rows) && KnownUntil(db, id, until) && id in Known(db')
    ensures KnownUntil(db', id, until)
  {
    forall r | r in db'.rows && r.id == id ensures r.createdAt <= until {
      var i :| 0 <= i < |db'.rows| && db'.rows[i] == r;
      assert db.rows[i] in db.rows;
    }
  }

  lemma NextKeepsAge(db: State, step: Step, id: EventId, until: Time)
    requires DbInv(db) && Allowed(db, step, until) && KnownUntil(db, id, until)
    ensures KnownUntil(Next(db, step, until), id, until)
  {
    NextKeepsInv(db, step, until);
    match step
    case RoundStep(round) =>
      var s := System(db, Publishing(round.polled, []));
      PollFacts(db.rows, round.limit, round.polled);
      StepKeepsInv(System(db, Idle), PollStep(round.limit, round.polled));
      FinishRoundEases(s, round.verdicts);
      EasingKeepsAge(db, Next(db, step, until), id, until);
    case FailedRoundStep(round, done) =>
      var s := System(db, Publishing(round.polled, []));
      PollFacts(db.rows, round.limit, round.polled);
      StepKeepsInv(System(db, Idle), PollStep(round.limit, round.polled));
      AdvanceEases(s, round.verdicts[..done]);
      EasingKeepsAge(db, Next(db, step, until), id, until);
    case InsertStep(events) =>
      UnsentElements(events, db.sent);
      InsertRowsExtends(db.rows, Unsent(events, db.sent));
    case CleanUpStep(olderThan) => DropExpiredKeeps(db.rows, olderThan);
    case RecordStep(_) =>
  }

  lemma {:induction false} QueueKeepsAge(db: State, steps: seq<Step>, id: EventId, until: Time)
    requires DbInv(db) && ValidQueue(db, steps, until) && KnownUntil(db, id, until)
    ensures KnownUntil(RunQueue(db, steps, until), id, until)
    decreases |steps|
  {
    if steps != [] {
      NextKeepsInv(db, steps[0], until);
      NextKeepsAge(db, steps[0], id, until);
      QueueKeepsAge(Next(db, steps[0], until), steps[1..], id, until);
    }
  }

  lemma NextKeepsSettled(db: State, step: Step, id: EventId, until: Time)
    requires DbInv(db) && Allowed(db, step, until) && Settled(db, id) && step != Step.RecordStep(id)
    ensures Settled(Next(db, step, until), id)
  {
    match step
    case RoundStep(round) => RoundKeepsSettled(db, round, id);
    case FailedRoundStep(round, done) => FailedCallIsSafe(db, round, done);
    case InsertStep(events) => InsertKeepsSettled(System(db, Idle), events, id);
    case CleanUpStep(olderThan) => DropExpiredKeeps(db.rows, olderThan);
    case RecordStep(_) =>
  }

  lemma {:induction false} QueueKeepsSettled(db: State, steps: seq<Step>, id: EventId, until: Time)
    requires DbInv(db) && ValidQueue(db, steps, until) && Settled(db, id) && Step.RecordStep(id) !in steps
    ensures Settled(RunQueue(db, steps, until), id)
    decreases |steps|
  {
    if steps != [] {
      NextKeepsInv(db, steps[0], until);
      NextKeepsSettled(db, steps[0], id, until);
      QueueKeepsSettled(Next(db, steps[0], until), steps[1..], id, until);
    }
  }

  ghost predicate HasFailed(db: State, id: EventId) {
    exists r :: r in db.rows && r.id == id && r.status == Failed
  }

  /** An event of that age has then been sent, or has failed for good; not both, unless it is recorded directly. */
  lemma EachEventIsSentOrFails(db: State, steps: seq<Step>, id: EventId, until: Time)
    requires DbInv(db) && ValidQueue(db, steps, until) && KnownUntil(db, id, until)
    requires Completed(steps) >= RemainingUntil(db.rows, until)
    ensures var db' := RunQueue(db, steps, until); id in db'.sent || HasFailed(db', id)
    ensures var db' := RunQueue(db, steps, until);
            Settled(db, id) && Step.RecordStep(id) !in steps ==> !(id in db'.sent && HasFailed(db', id))
  {
    var db' := RunQueue(db, steps, until);
    NoEventStarves(db, steps, until);
    QueueKeepsAge(db, steps, id, until);
    if id !in db'.sent {
      var r :| r in db'.rows && r.id == id;
      assert r.status != Pending && r.status != Processed;
    }
    if Settled(db, id) && Step.RecordStep(id) !in steps {
      QueueKeepsSettled(db, steps, id, until);
    }
  }
}
