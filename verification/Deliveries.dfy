/**
 What the outbox keeps of the events that the transactions of a run hand off one after the other,
 while the publisher and other transactions move the outbox on in between.
 */
module Deliveries {
  import opened Common
  import opened Outbox

  datatype Move = HandOff(events: seq<Event>) | Meanwhile(outbox: State)

  /** The events that a move commits. */
  function Committed(move: Move): seq<Event> {
    if move.HandOff? && HasKeys(move.events) then move.events else []
  }

  function Next(st: State, move: Move): State {
    match move
    case HandOff(events) =>
      (match Insert(st, events)
       case Ok(st') => st'
       case Err(_) => st)
    case Meanwhile(outbox) => outbox
  }

  function Run(st: State, moves: seq<Move>): State {
    if moves == [] then st else Next(Run(st, moves[..|moves| - 1]), moves[|moves| - 1])
  }

  function HandedOff(moves: seq<Move>): seq<Event> {
    if moves == [] then [] else HandedOff(moves[..|moves| - 1]) + Committed(moves[|moves| - 1])
  }

  /** The rows that a move appends to the outbox. */
  ghost function Appended(st: State, move: Move): seq<Event> {
    var rows := Next(st, move).rows;
    if move.HandOff? && |st.rows| <= |rows| then rows[|st.rows|..] else []
  }

  ghost function Stored(st: State, moves: seq<Move>): seq<Event> {
    if moves == [] then []
    else
      var init := moves[..|moves| - 1];
      Stored(st, init) + Appended(Run(st, init), moves[|moves| - 1])
  }

  /** The first event of each id that is not known yet. */
  function FirstOfEachId(events: seq<Event>, known: set<EventId>): seq<Event> {
    if events == [] then []
    else
      var init, last := events[..|events| - 1], events[|events| - 1];
      if last.id in known + Ids(init) then FirstOfEachId(init, known) else FirstOfEachId(init, known) + [last]
  }

  // ---- One move -------------------------------------------------------------------------------

  lemma {:induction false} InsertAppendsFirsts(st: State, events: seq<Event>)
    ensures InsertRows(st.rows, Unsent(events, st.sent)) == st.rows + FirstOfEachId(events, Known(st))
  {
    if events != [] {
      var init, last := events[..|events| - 1], events[|events| - 1];
      InsertAppendsFirsts(st, init);
      UnsentElements(init, st.sent);
      InsertRowsExtends(st.rows, Unsent(init, st.sent));
      if last.id !in st.sent {
        assert (Unsent(init, st.sent) + [last])[..|Unsent(init, st.sent)|] == Unsent(init, st.sent);
        assert Ids(Unsent(init, st.sent)) == Ids(init) - st.sent;
      }
    }
  }

  lemma MoveAppendsFirsts(st: State, move: Move)
    ensures Appended(st, move) == FirstOfEachId(Committed(move), Known(st))
    ensures move.HandOff? ==> Known(Next(st, move)) == Known(st) + Ids(Committed(move))
  {
    if move.HandOff? && HasKeys(move.events) {
      InsertAppendsFirsts(st, move.events);
      InsertMakesKnown(st, move.events);
    }
  }

  // ---- Runs -----------------------------------------------------------------------------------

  lemma {:induction false} OnlyOwnIdsMatter(events: seq<Event>, a: set<EventId>, b: set<EventId>)
    requires forall e | e in events :: e.id in a <==> e.id in b
    ensures FirstOfEachId(events, a) == FirstOfEachId(events, b)
  {
    if events != [] {
      assert events == events[..|events| - 1] + [events[|events| - 1]];
      OnlyOwnIdsMatter(events[..|events| - 1], a, b);
    }
  }

  lemma OneMore(events: seq<Event>, e: Event, known: set<EventId>)
    ensures FirstOfEachId(events + [e], known) ==
            FirstOfEachId(events, known) + if e.id in known + Ids(events) then [] else [e]
  {
    assert (events + [e])[..|events|] == events;
  }

  lemma IdsAppend(a: seq<Event>, b: seq<Event>)
    ensures Ids(a + b) == Ids(a) + Ids(b)
  {
  }

  lemma FirstsAppendOne(a: seq<Event>, b: seq<Event>, e: Event, known: set<EventId>)
    requires FirstOfEachId(a + b, known) == FirstOfEachId(a, known) + FirstOfEachId(b, known + Ids(a))
    ensures FirstOfEachId(a + b + [e], known) == FirstOfEachId(a, known) + FirstOfEachId(b + [e], known + Ids(a))
  {
    OneMore(a + b, e, known);
    OneMore(b, e, known + Ids(a));
    IdsAppend(a, b);
  }

  lemma {:induction false} FirstsAppend(a: seq<Event>, b: seq<Event>, known: set<EventId>)
    ensures FirstOfEachId(a + b, known) == FirstOfEachId(a, known) + FirstOfEachId(b, known + Ids(a))
    decreases |b|
  {
    if b == [] {
      assert a + b == a;
    } else {
      var init, last := b[..|b| - 1], b[|b| - 1];
      FirstsAppend(a, init, known);
      FirstsAppendOne(a, init, last, known);
      assert a + b == (a + init) + [last] && b == init + [last];
    }
  }

  /** Whatever moves the outbox on in between neither forgets an id of the run nor makes one known. */
  ghost predicate KeepsOwnIds(st: State, moves: seq<Move>, own: set<EventId>) {
    moves == [] ||
    var init, last := moves[..|moves| - 1], moves[|moves| - 1];
    && KeepsOwnIds(st, init, own)
    && (last.Meanwhile? ==> forall id | id in own :: id in Known(Run(st, init)) <==> id in Known(last.outbox))
  }

  lemma {:induction false} OwnIdsAreKnown(st: State, moves: seq<Move>, own: set<EventId>)
    requires KeepsOwnIds(st, moves, own)
    ensures forall id | id in own :: id in Known(Run(st, moves)) <==> id in Known(st) || id in Ids(HandedOff(moves))
  {
    if moves != [] {
      var init, last := moves[..|moves| - 1], moves[|moves| - 1];
      OwnIdsAreKnown(st, init, own);
      MoveAppendsFirsts(Run(st, init), last);
      assert Ids(HandedOff(moves)) == Ids(HandedOff(init)) + Ids(Committed(last));
    }
  }

  /** The events stored over a run are the events handed off, without those whose id came before. */
  lemma {:induction false} StoredAreFirsts(st: State, moves: seq<Move>, own: set<EventId>)
    requires KeepsOwnIds(st, moves, own) && Ids(HandedOff(moves)) <= own
    ensures Stored(st, moves) == FirstOfEachId(HandedOff(moves), Known(st))
  {
    if moves != [] {
      var init, last := moves[..|moves| - 1], moves[|moves| - 1];
      var before := HandedOff(init);
      assert Ids(HandedOff(moves)) == Ids(before) + Ids(Committed(last));
      StoredAreFirsts(st, init, own);
      OwnIdsAreKnown(st, init, own);
      MoveAppendsFirsts(Run(st, init), last);
      FirstsAppend(before, Committed(last), Known(st));
      forall e | e in Committed(last) ensures e.id in Known(Run(st, init)) <==> e.id in Known(st) + Ids(before) {
        assert e.id in own;
      }
      OnlyOwnIdsMatter(Committed(last), Known(Run(st, init)), Known(st) + Ids(before));
    }
  }

  // ---- Repetitions ----------------------------------------------------------------------------

  /** A sequence without the repetitions of what came before. */
  function Firsts<T(==)>(s: seq<T>): seq<T> {
    if s == [] then []
    else
      var init, last := s[..|s| - 1], s[|s| - 1];
      if last in init then Firsts(init) else Firsts(init) + [last]
  }

  lemma OneMoreFirst<T>(s: seq<T>, x: T)
    ensures Firsts(s + [x]) == if x in s then Firsts(s) else Firsts(s) + [x]
  {
    assert (s + [x])[..|s|] == s;
  }

  predicate NoRepetition<T(==)>(s: seq<T>) {
    forall i, j | 0 <= i < j < |s| :: s[i] != s[j]
  }

  function IdList(events: seq<Event>): seq<EventId> {
    seq(|events|, i requires 0 <= i < |events| => events[i].id)
  }

  lemma {:induction false} FirstsOfIds(events: seq<Event>)
    ensures IdList(FirstOfEachId(events, {})) == Firsts(IdList(events))
  {
    if events != [] {
      var init, last := events[..|events| - 1], events[|events| - 1];
      FirstsOfIds(init);
      var ids := IdList(events);
      assert ids[..|ids| - 1] == IdList(init);
      assert last.id in IdList(init) <==> last.id in Ids(init) by { IdListElements(init); }
      assert IdList(FirstOfEachId(init, {}) + [last]) == IdList(FirstOfEachId(init, {})) + [last.id];
    }
  }

  lemma IdListElements(events: seq<Event>)
    ensures forall id :: id in IdList(events) <==> id in Ids(events)
  {
    forall id | id in Ids(events) ensures id in IdList(events) {
      var i :| 0 <= i < |events| && events[i].id == id;
      assert IdList(events)[i] == id;
    }
  }

  lemma {:induction false} FirstsAreShorter<T>(s: seq<T>)
    ensures |Firsts(s)| <= |s|
    ensures |Firsts(s)| == |s| <==> NoRepetition(s)
  {
    if s != [] {
      var init, last := s[..|s| - 1], s[|s| - 1];
      FirstsAreShorter(init);
      if last in init {
        var i :| 0 <= i < |init| && init[i] == last;
        assert s[i] == s[|s| - 1];
      } else {
        assert s == init + [last];
        assert NoRepetition(init) ==> NoRepetition(s);
      }
    }
  }

  /** In a run from an empty outbox the ids of the stored events are the ids handed off, without the repetitions. */
  lemma StoredIdsAreFirsts(st: State, moves: seq<Move>)
    requires Known(st) == {} && KeepsOwnIds(st, moves, Ids(HandedOff(moves)))
    ensures IdList(Stored(st, moves)) == Firsts(IdList(HandedOff(moves)))
  {
    StoredAreFirsts(st, moves, Ids(HandedOff(moves)));
    FirstsOfIds(HandedOff(moves));
  }

  lemma OneMoreMove(st: State, moves: seq<Move>, move: Move)
    ensures Run(st, moves + [move]) == Next(Run(st, moves), move)
    ensures IdList(HandedOff(moves + [move])) == IdList(HandedOff(moves)) + IdList(Committed(move))
  {
    assert (moves + [move])[..|moves|] == moves;
  }
}
