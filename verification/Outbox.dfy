/**
 The transactional outbox as a pure state: the rows of outbox_events in insertion order and the
 identifiers recorded in events_sent. One function per statement of internal/storage/outbox.go.
 */
module Outbox {
  import opened Common

  datatype EventStatus = Pending | Failed | Processed

  datatype EventId = EventId(key: string, connector: Option<ConnectorId>)

  datatype Event = Event(
    id: EventId,
    createdAt: Time,
    status: EventStatus,
    retryCount: int)

  datatype State = State(rows: seq<Event>, sent: set<EventId>)

  const MAX_OUTBOX_RETRIES := 5

  function Ids(rows: seq<Event>): set<EventId> {
    set r | r in rows :: r.id
  }

  // ---- Insert ---------------------------------------------------------------------------------

  /** The events that survive the events_sent lookup. */
  function Unsent(events: seq<Event>, sent: set<EventId>): seq<Event> {
    if events == [] then []
    else
      var init, last := events[..|events| - 1], events[|events| - 1];
      if last.id in sent then Unsent(init, sent) else Unsent(init, sent) + [last]
  }

  /** INSERT ... ON CONFLICT (id) DO NOTHING: first wins, within the statement as well. */
  function InsertRows(rows: seq<Event>, events: seq<Event>): seq<Event> {
    if events == [] then rows
    else
      var done, last := InsertRows(rows, events[..|events| - 1]), events[|events| - 1];
      if last.id in Ids(done) then done else done + [last]
  }

  predicate HasKeys(events: seq<Event>) {
    forall e | e in events :: e.id.key != ""
  }

  function Insert(st: State, events: seq<Event>): Result<State> {
    if !HasKeys(events) then Err(MissingEventId)
    else Ok(st.(rows := InsertRows(st.rows, Unsent(events, st.sent))))
  }

  // ---- Mark and clean up ----------------------------------------------------------------------

  function StatusAfterFailure(retryCount: int, nonRetryable: bool): EventStatus {
    if retryCount >= MAX_OUTBOX_RETRIES || nonRetryable then Failed else Pending
  }

  function MarkFailed(st: State, id: EventId, retryCount: int, nonRetryable: bool): State {
    st.(rows := seq(|st.rows|, i requires 0 <= i < |st.rows| =>
      if st.rows[i].id == id
      then st.rows[i].(status := StatusAfterFailure(retryCount, nonRetryable), retryCount := retryCount)
      else st.rows[i]))
  }

  function MarkProcessed(st: State, ids: seq<EventId>, sentIds: seq<EventId>): State {
    State(
      seq(|st.rows|, i requires 0 <= i < |st.rows| =>
        if st.rows[i].id in ids then st.rows[i].(status := Processed) else st.rows[i]),
      st.sent + set id | id in sentIds)
  }

  predicate Expired(e: Event, olderThan: Time) {
    e.status == Processed && e.createdAt < olderThan
  }

  function DropExpired(rows: seq<Event>, olderThan: Time): seq<Event> {
    if rows == [] then []
    else
      var kept, last := DropExpired(rows[..|rows| - 1], olderThan), rows[|rows| - 1];
      if Expired(last, olderThan) then kept else kept + [last]
  }

  function CleanUp(st: State, olderThan: Time): State {
    st.(rows := DropExpired(st.rows, olderThan))
  }

  // ---- Poll -----------------------------------------------------------------------------------

  function PendingRows(rows: seq<Event>): seq<Event> {
    if rows == [] then []
    else
      var init, last := PendingRows(rows[..|rows| - 1]), rows[|rows| - 1];
      if last.status == Pending then init + [last] else init
  }

  ghost predicate OldestFirst(events: seq<Event>) {
    forall i, j | 0 <= i < j < |events| :: events[i].createdAt <= events[j].createdAt
  }

  /** ORDER BY created_at ASC: some ordering of the rows, ties in any order. */
  ghost predicate IsOrderingOf(sorted: seq<Event>, rows: seq<Event>) {
    multiset(sorted) == multiset(rows) && OldestFirst(sorted)
  }

  /** How many of n rows a LIMIT lets through; a limit below one is no limit. */
  function Cut(limit: int, n: nat): nat {
    if limit < 1 then n else Min(limit, n)
  }

  /** SELECT ... WHERE status = 'pending' ORDER BY created_at ASC LIMIT limit. */
  ghost predicate IsPoll(rows: seq<Event>, limit: int, polled: seq<Event>) {
    exists sorted ::
      IsOrderingOf(sorted, PendingRows(rows)) && polled == sorted[..Cut(limit, |sorted|)]
  }

  // ---- Facts about single statements ----------------------------------------------------------

  ghost predicate UniqueIds(rows: seq<Event>) {
    forall i, j | 0 <= i < j < |rows| :: rows[i].id != rows[j].id
  }

  lemma {:induction false} UnsentElements(events: seq<Event>, sent: set<EventId>)
    ensures forall e :: e in Unsent(events, sent) <==> e in events && e.id !in sent
  {
    if events != [] {
      UnsentElements(events[..|events| - 1], sent);
      assert events == events[..|events| - 1] + [events[|events| - 1]];
    }
  }

  lemma AppendRow(rows: seq<Event>, e: Event)
    ensures Ids(rows + [e]) == Ids(rows) + {e.id}
    ensures UniqueIds(rows) && e.id !in Ids(rows) ==> UniqueIds(rows + [e])
  {
    var longer := rows + [e];
    if UniqueIds(rows) && e.id !in Ids(rows) {
      forall i, j | 0 <= i < j < |longer| ensures longer[i].id != longer[j].id {
        if j == |rows| {
          assert rows[i] in rows;
        }
      }
    }
  }

  /** Existing rows are never touched by an insert; new rows come from the statement, once per id. */
  lemma {:induction false} InsertRowsExtends(rows: seq<Event>, events: seq<Event>)
    ensures rows <= InsertRows(rows, events)
    ensures Ids(InsertRows(rows, events)) == Ids(rows) + Ids(events)
    ensures forall e | e in InsertRows(rows, events) :: e in rows || (e in events && e.id !in Ids(rows))
    ensures UniqueIds(rows) ==> UniqueIds(InsertRows(rows, events))
  {
    if events != [] {
      var init, last := events[..|events| - 1], events[|events| - 1];
      InsertRowsExtends(rows, init);
      assert events == init + [last];
      assert Ids(events) == Ids(init) + {last.id};
      AppendRow(InsertRows(rows, init), last);
    }
  }

  lemma {:induction false} InsertRowsAppend(rows: seq<Event>, a: seq<Event>, b: seq<Event>)
    ensures InsertRows(rows, a + b) == InsertRows(InsertRows(rows, a), b)
    decreases |b|
  {
    if b == [] {
      assert a + b == a;
    } else {
      InsertRowsAppend(rows, a, b[..|b| - 1]);
      assert (a + b)[..|a + b| - 1] == a + b[..|b| - 1];
    }
  }

  lemma {:induction false} UnsentAppend(a: seq<Event>, b: seq<Event>, sent: set<EventId>)
    ensures Unsent(a + b, sent) == Unsent(a, sent) + Unsent(b, sent)
    decreases |b|
  {
    if b == [] {
      assert a + b == a;
    } else {
      UnsentAppend(a, b[..|b| - 1], sent);
      assert (a + b)[..|a + b| - 1] == a + b[..|b| - 1];
    }
  }

  /** Inserting two batches one after the other is inserting their concatenation. */
  lemma InsertAppend(st: State, a: seq<Event>, b: seq<Event>)
    requires HasKeys(a) && HasKeys(b)
    ensures Insert(st, a).Ok? && Insert(st, a + b) == Insert(Insert(st, a).value, b)
  {
    UnsentAppend(a, b, st.sent);
    InsertRowsAppend(st.rows, Unsent(a, st.sent), Unsent(b, st.sent));
  }

  function Known(st: State): set<EventId> {
    Ids(st.rows) + st.sent
  }

  /** An event without key aborts the insert, and nothing else does; recorded ids stay. */
  lemma InsertErrors(st: State, events: seq<Event>)
    ensures Insert(st, events) == Err(MissingEventId) <==> exists e :: e in events && e.id.key == ""
    ensures Insert(st, events).Err? ==> Insert(st, events).error == MissingEventId
    ensures Insert(st, events).Ok? ==> Insert(st, events).value.sent == st.sent
  {
  }

  /** An insert makes every given id known and forgets none. */
  lemma InsertMakesKnown(st: State, events: seq<Event>)
    requires HasKeys(events)
    ensures Insert(st, events).Ok?
    ensures Known(Insert(st, events).value) == Known(st) + Ids(events)
  {
    UnsentElements(events, st.sent);
    var unsent := Unsent(events, st.sent);
    InsertRowsExtends(st.rows, unsent);
    assert Ids(unsent) == Ids(events) - st.sent;
  }

  /** Events that a transaction creates at one time: waiting to be published, and not tried yet. */
  predicate AllNewAt(events: seq<Event>, now: Time) {
    forall e | e in events :: e.createdAt == now && e.status == Pending && e.retryCount == 0
  }

  predicate IsFirstOfItsId(events: seq<Event>, i: int) {
    0 <= i < |events| && forall j | 0 <= j < i :: events[j].id != events[i].id
  }

  lemma InsertOneMore(st: State, events: seq<Event>, e: Event)
    ensures var rows := InsertRows(st.rows, Unsent(events, st.sent));
            InsertRows(st.rows, Unsent(events + [e], st.sent)) ==
            if e.id in Known(st) + Ids(events) then rows else rows + [e]
  {
    assert (events + [e])[..|events|] == events;
    var unsent := Unsent(events, st.sent);
    UnsentElements(events, st.sent);
    InsertRowsExtends(st.rows, unsent);
    assert Ids(unsent) == Ids(events) - st.sent;
    assert (unsent + [e])[..|unsent|] == unsent;
  }

  /** A row that an insert adds is the first event of its id in the statement, and its id was not known. */
  lemma {:induction false} AddedAreFirst(st: State, events: seq<Event>, k: nat)
    requires |st.rows| <= k < |InsertRows(st.rows, Unsent(events, st.sent))|
    ensures var added := InsertRows(st.rows, Unsent(events, st.sent))[k];
            added.id !in Known(st) && exists i :: IsFirstOfItsId(events, i) && events[i] == added
    decreases |events|
  {
    if events != [] {
      var n := |events| - 1;
      var init, last := events[..n], events[n];
      var rows := InsertRows(st.rows, Unsent(init, st.sent));
      assert events == init + [last];
      InsertOneMore(st, init, last);
      if k < |rows| {
        AddedAreFirst(st, init, k);
        var i :| IsFirstOfItsId(init, i) && init[i] == rows[k];
        assert IsFirstOfItsId(events, i);
      } else {
        assert forall j | 0 <= j < n :: events[j] in init;
        assert IsFirstOfItsId(events, n);
      }
    }
  }

  /** An event created just now, under an id that is not known, is afterwards a row that waits. */
  lemma InsertedEventWaits(st: State, events: seq<Event>, now: Time, id: EventId)
    requires HasKeys(events) && AllNewAt(events, now) && id in Ids(events) && id !in Known(st)
    ensures Insert(st, events).Ok? && Event(id, now, Pending, 0) in Insert(st, events).value.rows
  {
    var unsent := Unsent(events, st.sent);
    UnsentElements(events, st.sent);
    InsertRowsExtends(st.rows, unsent);
    var e :| e in events && e.id == id;
    assert e in unsent && id in Ids(unsent);
    var r :| r in InsertRows(st.rows, unsent) && r.id == id;
  }

  /** A single event is stored exactly when its id is neither stored nor recorded as sent. */
  lemma InsertOne(st: State, e: Event)
    requires HasKeys([e])
    ensures Insert(st, [e]) == Ok(if e.id in Known(st) then st else st.(rows := st.rows + [e]))
  {
    assert [e][..0] == [];
    assert Unsent([e], st.sent) == if e.id in st.sent then [] else [e];
    assert InsertRows(st.rows, []) == st.rows;
  }

  /** An event that failed waits for another try, until its fifth one or an error that is not retryable. */
  lemma MarkFailedOutcome(st: State, id: EventId, retryCount: int, nonRetryable: bool, i: nat)
    requires i < |st.rows|
    ensures var st' := MarkFailed(st, id, retryCount, nonRetryable);
            && st'.sent == st.sent && |st'.rows| == |st.rows|
            && (st.rows[i].id != id ==> st'.rows[i] == st.rows[i])
            && (st.rows[i].id == id ==>
                  st'.rows[i] ==
                  Event(id, st.rows[i].createdAt, if retryCount < 5 && !nonRetryable then Pending else Failed,
                        retryCount))
  {
  }

  /** Rows of the given ids are PROCESSED with all else kept, other rows stay, and the other ids are recorded. */
  lemma MarkProcessedOutcome(st: State, ids: seq<EventId>, sentIds: seq<EventId>, i: nat)
    requires i < |st.rows|
    ensures var st' := MarkProcessed(st, ids, sentIds);
            && |st'.rows| == |st.rows|
            && (st.rows[i].id !in ids ==> st'.rows[i] == st.rows[i])
            && (st.rows[i].id in ids ==>
                  st'.rows[i] == Event(st.rows[i].id, st.rows[i].createdAt, Processed, st.rows[i].retryCount))
            && forall id :: id in st'.sent <==> id in st.sent || id in sentIds
  {
  }

  /** Exactly the unexpired rows stay. */
  lemma {:induction false} DropExpiredKeeps(rows: seq<Event>, olderThan: Time)
    ensures forall e :: e in DropExpired(rows, olderThan) <==> e in rows && !Expired(e, olderThan)
    ensures UniqueIds(rows) ==> UniqueIds(DropExpired(rows, olderThan))
  {
    if rows != [] {
      var init, last := rows[..|rows| - 1], rows[|rows| - 1];
      DropExpiredKeeps(init, olderThan);
      assert rows == init + [last];
      var kept := DropExpired(init, olderThan);
      if UniqueIds(rows) {
        forall i | 0 <= i < |kept| ensures kept[i].id != last.id {
          assert kept[i] in init;
        }
      }
    }
  }

  /** Each unexpired row stays as often as it was there. */
  lemma {:induction false} DropExpiredCounts(rows: seq<Event>, olderThan: Time, e: Event)
    requires !Expired(e, olderThan)
    ensures multiset(DropExpired(rows, olderThan))[e] == multiset(rows)[e]
  {
    if rows != [] {
      DropExpiredCounts(rows[..|rows| - 1], olderThan, e);
      assert rows == rows[..|rows| - 1] + [rows[|rows| - 1]];
    }
  }

  lemma {:induction false} PendingRowsElements(rows: seq<Event>)
    ensures forall e :: e in PendingRows(rows) <==> e in rows && e.status == Pending
    ensures UniqueIds(rows) ==> UniqueIds(PendingRows(rows))
  {
    if rows != [] {
      var init, last := rows[..|rows| - 1], rows[|rows| - 1];
      PendingRowsElements(init);
      assert rows == init + [last];
      var p := PendingRows(init);
      if UniqueIds(rows) {
        forall i | 0 <= i < |p| ensures p[i].id != last.id {
          assert p[i] in init;
        }
      }
    }
  }

  lemma {:induction false} CountedOnce(rows: seq<Event>, e: Event)
    requires UniqueIds(rows)
    ensures multiset(rows)[e] <= 1
  {
    if rows != [] {
      CountedOnce(rows[..|rows| - 1], e);
      assert rows == rows[..|rows| - 1] + [rows[|rows| - 1]];
    }
  }

  lemma CountedTwice(rows: seq<Event>, i: nat, j: nat)
    requires i < j < |rows| && rows[i] == rows[j]
    ensures multiset(rows)[rows[i]] >= 2
  {
    assert rows == rows[..j] + [rows[j]] + rows[j + 1..];
    assert rows[..j][i] in rows[..j];
  }

  lemma SameElements(sorted: seq<Event>, rows: seq<Event>)
    requires multiset(sorted) == multiset(rows)
    ensures |sorted| == |rows|
    ensures forall e :: e in sorted <==> e in rows
  {
    forall e ensures e in sorted <==> e in rows {
      assert e in multiset(sorted) <==> e in multiset(rows);
    }
    assert |multiset(sorted)| == |multiset(rows)|;
  }

  /** An ordering of rows with distinct ids has distinct ids. */
  lemma OrderingKeepsUnique(sorted: seq<Event>, rows: seq<Event>)
    requires multiset(sorted) == multiset(rows) && UniqueIds(rows)
    ensures UniqueIds(sorted)
  {
    SameElements(sorted, rows);
    forall i, j | 0 <= i < j < |sorted| ensures sorted[i].id != sorted[j].id {
      assert sorted[i] in rows && sorted[j] in rows;
      var a, b :| 0 <= a < |rows| && 0 <= b < |rows| && rows[a] == sorted[i] && rows[b] == sorted[j];
      if a == b {
        CountedTwice(sorted, i, j);
        CountedOnce(rows, sorted[i]);
      }
    }
  }

  lemma SkippedAreNewer(sorted: seq<Event>, n: nat, e: Event, skipped: Event)
    requires n <= |sorted| && OldestFirst(sorted)
    requires e in sorted[..n] && skipped in sorted && skipped !in sorted[..n]
    ensures e.createdAt <= skipped.createdAt
  {
    var i :| 0 <= i < n && sorted[..n][i] == e;
    var j :| 0 <= j < |sorted| && sorted[j] == skipped;
  }

  /** How many events a poll returns: all that wait, or as many as a limit of one or more says. */
  lemma PollLimits(rows: seq<Event>, limit: int, polled: seq<Event>)
    requires IsPoll(rows, limit, polled)
    ensures limit >= 1 ==> |polled| <= limit
    ensures limit < 1 || |polled| < limit ==>
              |polled| == |PendingRows(rows)| && forall e | e in rows && e.status == Pending :: e in polled
  {
    var sorted :| IsOrderingOf(sorted, PendingRows(rows)) && polled == sorted[..Cut(limit, |sorted|)];
    SameElements(sorted, PendingRows(rows));
    PendingRowsElements(rows);
    if limit < 1 || |polled| < limit {
      assert polled == sorted;
    }
  }

  /** What a poll returns: distinct pending rows, the oldest ones, as many as the limit allows. */
  lemma PollFacts(rows: seq<Event>, limit: int, polled: seq<Event>)
    requires UniqueIds(rows) && IsPoll(rows, limit, polled)
    ensures UniqueIds(polled) && OldestFirst(polled)
    ensures limit >= 1 ==> |polled| <= limit
    ensures limit < 1 || |polled| < limit ==>
              |polled| == |PendingRows(rows)| && forall e | e in rows && e.status == Pending :: e in polled
    ensures forall e | e in polled :: e in rows && e.status == Pending
    ensures forall e, skipped | e in polled && skipped in PendingRows(rows) && skipped !in polled ::
              e.createdAt <= skipped.createdAt
  {
    var pending := PendingRows(rows);
    var sorted :| IsOrderingOf(sorted, pending) && polled == sorted[..Cut(limit, |sorted|)];
    PollLimits(rows, limit, polled);
    PendingRowsElements(rows);
    SameElements(sorted, pending);
    OrderingKeepsUnique(sorted, pending);
    forall e | e in polled ensures e in pending {
      assert e in sorted;
    }
    forall e, skipped | e in polled && skipped in pending && skipped !in polled
      ensures e.createdAt <= skipped.createdAt
    {
      SkippedAreNewer(sorted, |polled|, e, skipped);
    }
  }
}
