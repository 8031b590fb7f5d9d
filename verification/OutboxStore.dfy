/** The outbox_events and events_sent tables as an object, and the publisher's loop over them. */
module OutboxStore {
  import opened Common
  import opened Outbox
  import opened OutboxProtocol

  /** Which calls of the store fail during one call of the publisher. */
  datatype Faults = Faults(poll: bool, mark: Event -> bool, commit: bool)

  ghost predicate HasVerdicts(round: Round, publish: Event -> Verdict) {
    && |round.polled| == |round.verdicts|
    && forall i | 0 <= i < |round.polled| :: round.verdicts[i] == publish(round.polled[i])
  }

  /** The event is published, or its failure can be marked. */
  ghost predicate Survives(round: Round, faults: Faults, i: int)
    requires 0 <= i < |round.polled| == |round.verdicts|
  {
    round.verdicts[i].Rejected? ==> !faults.mark(round.polled[i])
  }

  /** The first event that cannot be dealt with, or the end. */
  ghost predicate StopsAt(round: Round, faults: Faults, done: nat)
    requires |round.polled| == |round.verdicts|
  {
    && done <= |round.polled| && (forall i | 0 <= i < done :: Survives(round, faults, i))
    && (done < |round.polled| ==> !Survives(round, faults, done))
  }

  ghost predicate NothingDelivered(round: Round) {
    forall i | 0 <= i < |round.verdicts| :: round.verdicts[i].Rejected?
  }

  class Store {
    var rows: seq<Event>
    var sent: set<EventId>

    constructor ()
      ensures Snapshot() == INITIAL.db
    {
      rows, sent := [], {};
    }

    function Snapshot(): State
      reads this
    {
      State(rows, sent)
    }

    method OutboxEventsInsert(events: seq<Event>) returns (r: Result<()>)
      modifies this
      ensures r.Err? <==> exists e | e in events :: e.id.key == ""
      ensures r.Err? ==> r.error == MissingEventId && Snapshot() == old(Snapshot())
      ensures r.Ok? ==> Insert(old(Snapshot()), events) == Ok(Snapshot())
    {
      var toInsert: seq<Event> := [];
      for i := 0 to |events|
        invariant toInsert == Unsent(events[..i], sent)
        invariant HasKeys(events[..i])
        invariant rows == old(rows) && sent == old(sent)
      {
        var event := events[i];
        if event.id.key == "" {
          return Err(MissingEventId);
        }
        assert events[..i + 1][..i] == events[..i];
        if event.id !in sent {
          toInsert := toInsert + [event];
        }
      }
      assert events[..|events|] == events;
      for i := 0 to |toInsert|
        invariant rows == InsertRows(old(rows), toInsert[..i])
        invariant sent == old(sent)
      {
        assert toInsert[..i + 1][..i] == toInsert[..i];
        if toInsert[i].id !in Ids(rows) {
          rows := rows + [toInsert[i]];
        }
      }
      assert toInsert[..|toInsert|] == toInsert;
      return Ok(());
    }

    /** Reads the oldest pending events; nothing is locked or changed. */
    method OutboxEventsPollPending(limit: int) returns (polled: seq<Event>)
      ensures IsPoll(rows, limit, polled)
      ensures forall e | e in polled :: e in rows && e.status == Pending
      ensures limit >= 1 ==> |polled| <= limit
      ensures limit < 1 || |polled| < limit ==> forall e | e in rows && e.status == Pending :: e in polled
      ensures forall i, j | 0 <= i < j < |polled| :: polled[i].createdAt <= polled[j].createdAt
      ensures forall e, skipped | e in polled && skipped in rows && skipped.status == Pending && skipped !in polled ::
                e.createdAt <= skipped.createdAt
    {
      var sorted: seq<Event> := [];
      for i := 0 to |rows|
        invariant IsOrderingOf(sorted, PendingRows(rows[..i]))
      {
        assert rows[..i + 1][..i] == rows[..i];
        if rows[i].status == Pending {
          sorted := InsertByAge(sorted, rows[i]);
        }
      }
      assert rows[..|rows|] == rows;
      polled := if 1 <= limit < |sorted| then sorted[..limit] else sorted;
      assert polled == sorted[..Cut(limit, |sorted|)];
      PollOfOrdering(rows, sorted, limit, polled);
    }

    method OutboxEventsMarkFailed(id: EventId, retryCount: int, nonRetryable: bool)
      modifies this
      ensures sent == old(sent) && |rows| == |old(rows)|
      ensures forall i | 0 <= i < |rows| ::
                rows[i] ==
                if old(rows)[i].id != id then old(rows)[i]
                else Event(id, old(rows)[i].createdAt, if retryCount < 5 && !nonRetryable then Pending else Failed,
                           retryCount)
      ensures Snapshot() == MarkFailed(old(Snapshot()), id, retryCount, nonRetryable)
    {
      var status := Pending;
      if retryCount >= MAX_OUTBOX_RETRIES || nonRetryable {
        status := Failed;
      }
      rows := seq(|rows|, i requires 0 <= i < |rows| reads this =>
        if rows[i].id == id then rows[i].(status := status, retryCount := retryCount) else rows[i]);
    }

    method OutboxEventsMarkProcessedAndRecordSent(ids: seq<EventId>, sentIds: seq<EventId>) returns (r: Result<()>)
      modifies this
      ensures r.Err? <==> ids != [] && |ids| != |sentIds|
      ensures r.Err? ==> r.error == LengthMismatch
      ensures r.Err? ==> Snapshot() == old(Snapshot())
      ensures Snapshot() ==
              if ids == [] || r.Err? then old(Snapshot()) else MarkProcessed(old(Snapshot()), ids, sentIds)
    {
      if ids == [] {
        return Ok(());
      }
      if |ids| != |sentIds| {
        return Err(LengthMismatch);
      }
      rows := seq(|rows|, i requires 0 <= i < |rows| reads this =>
        if rows[i].id in ids then rows[i].(status := Processed) else rows[i]);
      for i := 0 to |sentIds|
        invariant rows == MarkProcessed(old(Snapshot()), ids, sentIds).rows
        invariant sent == old(sent) + set id | id in sentIds[..i]
      {
        assert sentIds[..i + 1] == sentIds[..i] + [sentIds[i]];
        sent := sent + {sentIds[i]};
      }
      assert sentIds[..|sentIds|] == sentIds;
      return Ok(());
    }

    /** Exactly the old processed rows go; the others keep their content and order, and no id is forgotten. */
    method OutboxEventsDeleteOldProcessed(olderThan: Time)
      modifies this
      ensures forall e :: e in rows <==> e in old(rows) && !(e.status == Processed && e.createdAt < olderThan)
      ensures UniqueIds(old(rows)) ==> UniqueIds(rows)
      ensures sent == old(sent)
      ensures Snapshot() == CleanUp(old(Snapshot()), olderThan)
    {
      var kept: seq<Event> := [];
      for i := 0 to |rows|
        invariant kept == DropExpired(rows[..i], olderThan)
        invariant rows == old(rows) && sent == old(sent)
      {
        assert rows[..i + 1][..i] == rows[..i];
        if rows[i].status != Processed || rows[i].createdAt >= olderThan {
          kept := kept + [rows[i]];
        }
      }
      assert rows[..|rows|] == rows;
      DropExpiredKeeps(rows, olderThan);
      rows := kept;
    }

    method EventsSentUpsert(id: EventId)
      modifies this
      ensures Snapshot() == old(Snapshot()).(sent := old(sent) + {id})
    {
      if id !in sent {
        sent := sent + {id};
      }
    }

    method EventsSentExists(id: EventId) returns (found: bool)
      ensures found <==> id in Snapshot().sent
    {
      found := id in sent;
    }

    /**
     The deprecated direct sending. A success is the protocol's record step, whether the event was sent
     now or before; when it fails nothing is recorded, even if the event went out.
     */
    method SendEvents(id: EventId, lookup: Result<()>, publish: Result<()>, record: Result<()>)
      returns (r: Result<()>, wentOut: bool)
      modifies this
      ensures wentOut <==> lookup.Ok? && id !in old(sent) && publish.Ok?
      ensures r.Ok? <==> lookup.Ok? && (id in old(sent) || (publish.Ok? && record.Ok?))
      ensures var s := System(old(Snapshot()), Idle); Snapshot() == if r.Ok? then Apply(s, RecordStep(id)).db else s.db
    {
      if lookup.Err? {
        return lookup, false;
      }
      var isExisting := EventsSentExists(id);
      if isExisting {
        assert sent + {id} == sent;
        return Ok(()), false;
      }
      if publish.Err? {
        return publish, false;
      }
      if record.Err? {
        return record, true;
      }
      EventsSentUpsert(id);
      return Ok(()), true;
    }

    /**
     One call of the publisher: failures are marked one by one, the successes together at the end. It
     succeeds exactly when no needed call of the store fails, and the state is then the one of the
     protocol's round; otherwise it stops where the first call fails, as the protocol's crash does.
     */
    method OutboxPublishPendingEvents(limit: int, publish: Event -> Verdict, faults: Faults)
      returns (r: Result<()>, ghost round: Round, ghost done: nat)
      modifies this
      ensures r.Err? ==> r.error == Unavailable
      ensures faults.poll ==> r.Err? && Snapshot() == old(Snapshot())
      ensures !faults.poll ==> round.limit == limit && ValidRound(old(Snapshot()), round) && HasVerdicts(round, publish)
      ensures !faults.poll ==> StopsAt(round, faults, done)
      ensures !faults.poll ==> (r.Ok? <==> done == |round.polled| && (faults.commit ==> NothingDelivered(round)))
      ensures !faults.poll ==>
                Snapshot() == if r.Ok? then RunRound(old(Snapshot()), round) else RunPart(old(Snapshot()), round, done)
    {
      round, done := Round(limit, [], []), 0;
      if faults.poll {
        return Err(Unavailable), round, done;
      }
      var outboxEvents;
      outboxEvents, round := PollRound(limit, publish);
      ghost var start := System(Snapshot(), Publishing(outboxEvents, []));
      var ok, published;
      ok, published, done := PublishEach(outboxEvents, publish, faults, round);
      if !ok || (published != [] && faults.commit) {
        assert done == |round.polled| ==> round.verdicts[..done] == round.verdicts;
        return Err(Unavailable), round, done;
      }
      assert round.verdicts[..done] == round.verdicts;
      FinishIsAdvanceAndCommit(start, round.verdicts);
      assert MarkProcessed(Snapshot(), [], []).rows == rows;
      var _ := OutboxEventsMarkProcessedAndRecordSent(published, published);
      return Ok(()), round, done;
    }

    /** The polled events, with the verdicts that publishing them will have. */
    method PollRound(limit: int, publish: Event -> Verdict) returns (outboxEvents: seq<Event>, ghost round: Round)
      ensures round.limit == limit && round.polled == outboxEvents
      ensures ValidRound(Snapshot(), round) && HasVerdicts(round, publish)
    {
      outboxEvents := OutboxEventsPollPending(limit);
      ghost var verdicts := seq(|outboxEvents|, i requires 0 <= i < |outboxEvents| => publish(outboxEvents[i]));
      round := Round(limit, outboxEvents, verdicts);
    }

    /** Publishes one polled event after the other, up to a failure that cannot be marked. */
    method PublishEach(outboxEvents: seq<Event>, publish: Event -> Verdict, faults: Faults, ghost round: Round)
      returns (ok: bool, published: seq<EventId>, ghost done: nat)
      requires round.polled == outboxEvents && HasVerdicts(round, publish)
      modifies this
      ensures StopsAt(round, faults, done) && (ok <==> done == |outboxEvents|)
      ensures ok ==> (published == [] <==> NothingDelivered(round))
      ensures System(Snapshot(), Publishing(outboxEvents[done..], published)) ==
              Advance(System(old(Snapshot()), Publishing(outboxEvents, [])), round.verdicts[..done])
    {
      ghost var start := System(Snapshot(), Publishing(outboxEvents, []));
      published, done := [], 0;
      for i := 0 to |outboxEvents|
        invariant done == i && forall j | 0 <= j < i :: Survives(round, faults, j)
        invariant published == [] <==> forall j | 0 <= j < i :: round.verdicts[j].Rejected?
        invariant System(Snapshot(), Publishing(outboxEvents[i..], published)) == Advance(start, round.verdicts[..i])
      {
        var verdict := publish(outboxEvents[i]);
        if verdict.Rejected? && faults.mark(outboxEvents[i]) {
          return false, published, done;
        }
        AdvanceOneMore(start, round.verdicts, i);
        published := PublishOne(outboxEvents[i], verdict, published, outboxEvents[i..]);
        done := done + 1;
      }
      return true, published, done;
    }

    /** One iteration of the publisher is one step of the protocol. */
    method PublishOne(event: Event, verdict: Verdict, published: seq<EventId>, ghost todo: seq<Event>)
      returns (published': seq<EventId>)
      requires todo != [] && todo[0] == event
      modifies this
      ensures published' == if verdict.Delivered? then published + [event.id] else published
      ensures System(Snapshot(), Publishing(todo[1..], published')) ==
              Apply(System(old(Snapshot()), Publishing(todo, published)), VerdictStep(verdict))
    {
      match verdict {
        case Rejected(nonRetryable) =>
          OutboxEventsMarkFailed(event.id, event.retryCount + 1, nonRetryable);
          published' := published;
        case Delivered =>
          published' := published + [event.id];
      }
    }
  }

  lemma PollOfOrdering(rows: seq<Event>, sorted: seq<Event>, limit: int, polled: seq<Event>)
    requires IsOrderingOf(sorted, PendingRows(rows)) && polled == sorted[..Cut(limit, |sorted|)]
    ensures IsPoll(rows, limit, polled)
    ensures forall e | e in polled :: e in rows && e.status == Pending
    ensures limit >= 1 ==> |polled| <= limit
    ensures limit < 1 || |polled| < limit ==> forall e | e in rows && e.status == Pending :: e in polled
    ensures forall i, j | 0 <= i < j < |polled| :: polled[i].createdAt <= polled[j].createdAt
    ensures forall e, skipped | e in polled && skipped in rows && skipped.status == Pending && skipped !in polled ::
              e.createdAt <= skipped.createdAt
  {
    SameElements(sorted, PendingRows(rows));
    PendingRowsElements(rows);
    PollLimits(rows, limit, polled);
    forall e | e in polled ensures e in rows && e.status == Pending {
      assert e in sorted;
    }
    forall e, skipped | e in polled && skipped in rows && skipped.status == Pending && skipped !in polled
      ensures e.createdAt <= skipped.createdAt
    {
      SkippedAreNewer(sorted, |polled|, e, skipped);
    }
  }

  /** Places an event after every event that is not younger. */
  method InsertByAge(sorted: seq<Event>, e: Event) returns (r: seq<Event>)
    requires OldestFirst(sorted)
    ensures OldestFirst(r) && multiset(r) == multiset(sorted) + multiset{e}
  {
    var i := |sorted|;
    while i > 0 && sorted[i - 1].createdAt > e.createdAt
      invariant 0 <= i <= |sorted|
      invariant i < |sorted| ==> sorted[i].createdAt > e.createdAt
    {
      i := i - 1;
    }
    InsertKeepsOrder(sorted, i, e);
    assert sorted == sorted[..i] + sorted[i..];
    r := sorted[..i] + [e] + sorted[i..];
  }

  lemma InsertKeepsOrder(sorted: seq<Event>, i: nat, e: Event)
    requires OldestFirst(sorted) && i <= |sorted|
    requires i > 0 ==> sorted[i - 1].createdAt <= e.createdAt
    requires i < |sorted| ==> e.createdAt < sorted[i].createdAt
    ensures OldestFirst(sorted[..i] + [e] + sorted[i..])
  {
    var r := sorted[..i] + [e] + sorted[i..];
    forall a, b | 0 <= a < b < |r| ensures r[a].createdAt <= r[b].createdAt {
      assert r[a] == if a < i then sorted[a] else if a == i then e else sorted[a - 1];
      assert r[b] == if b < i then sorted[b] else if b == i then e else sorted[b - 1];
    }
  }
}
