/** The events of a connection over whole runs of upserts, data updates and deletes. */
module ConnectionTheorems {
  import opened Common
  import opened Connections
  import Outbox
  import OutboxProtocol
  import Deliveries

  datatype Step =
    | UpsertStep(now: Time, key: ConnectionKey, from: Connection, token: Option<Token>)
    | DataStep(now: Time, key: ConnectionKey, at: Time)
    | DeleteStep(key: ConnectionKey)
    | OutboxStep(outbox: Outbox.State)

  function OrElse(r: Result<Tables>, t: Tables): Tables {
    match r
    case Ok(t') => t'
    case Err(_) => t
  }

  function Apply(eventKey: Payload -> string, t: Tables, step: Step): Tables {
    match step
    case UpsertStep(now, key, from, token) => OrElse(Upsert(eventKey, now, t, key, from, token), t)
    case DataStep(now, key, at) => OrElse(UpdateLastDataUpdate(eventKey, now, t, key, at), t)
    case DeleteStep(key) => Delete(t, key)
    case OutboxStep(outbox) => t.(outbox := outbox)
  }

  const EMPTY := Tables(map[], map[], Outbox.State([], {}))

  function Run(eventKey: Payload -> string, steps: seq<Step>): Tables {
    if steps == [] then EMPTY else Apply(eventKey, Run(eventKey, steps[..|steps| - 1]), steps[|steps| - 1])
  }

  /** What one step hands to the outbox about a connection's status. */
  function StatusEvents(eventKey: Payload -> string, t: Tables, step: Step, key: ConnectionKey): seq<Payload> {
    if step.UpsertStep? && step.key == key && Upsert(eventKey, step.now, t, key, step.from, step.token).Ok?
    then Emitted(t.connections, key, step.from) else []
  }

  function Trace(eventKey: Payload -> string, steps: seq<Step>, key: ConnectionKey): seq<Payload> {
    if steps == [] then []
    else
      var init := steps[..|steps| - 1];
      Trace(eventKey, init, key) + StatusEvents(eventKey, Run(eventKey, init), steps[|steps| - 1], key)
  }

  /** A disconnection that no reconnection has answered yet. */
  predicate OpenDisconnection(trace: seq<Payload>) {
    exists j | 0 <= j < |trace| :: trace[j].Disconnected? && forall k | j < k < |trace| :: !trace[k].Reconnected?
  }

  /** Every reconnection answers a disconnection that none before it has answered. */
  predicate Answers(trace: seq<Payload>) {
    forall i | 0 <= i < |trace| && trace[i].Reconnected? :: OpenDisconnection(trace[..i])
  }

  lemma TraceGrows(trace: seq<Payload>, p: Payload)
    requires Answers(trace) && (p.Reconnected? ==> OpenDisconnection(trace))
    ensures Answers(trace + [p])
    ensures p.Disconnected? ==> OpenDisconnection(trace + [p])
  {
    var longer := trace + [p];
    forall i | 0 <= i < |longer| && longer[i].Reconnected? ensures OpenDisconnection(longer[..i]) {
      assert longer[..i] == trace[..i];
      assert trace[..|trace|] == trace;
    }
    assert longer[|trace|] == p;
  }

  /**
   Reconnect detection over every run: reconnections answer disconnections one to one, so a trace
   never starts with a reconnection and has none twice in a row; deleting and creating the
   connection again does not change that. A stored ERROR status has been announced and not answered.
   */
  lemma {:induction false} ReconnectionsAnswerDisconnections(eventKey: Payload -> string, steps: seq<Step>,
                                                             key: ConnectionKey)
    ensures Answers(Trace(eventKey, steps, key))
    ensures WasInError(Run(eventKey, steps).connections, key) ==> OpenDisconnection(Trace(eventKey, steps, key))
  {
    if steps != [] {
      var init, step := steps[..|steps| - 1], steps[|steps| - 1];
      ReconnectionsAnswerDisconnections(eventKey, init, key);
      var t, trace := Run(eventKey, init), Trace(eventKey, init, key);
      var emitted := StatusEvents(eventKey, t, step, key);
      if emitted == [] {
        assert Trace(eventKey, steps, key) == trace;
      } else {
        TraceGrows(trace, emitted[0]);
        assert emitted == [emitted[0]];
      }
    }
  }

  lemma AnswersMeans(trace: seq<Payload>, i: int, j: int)
    requires Answers(trace) && 0 <= j < |trace| && trace[j].Reconnected?
    requires 0 <= i < j ==> trace[i].Reconnected?
    ensures j > 0
    ensures 0 <= i < j ==> exists k | i < k < j :: trace[k].Disconnected?
  {
    var before := trace[..j];
    var k :| 0 <= k < |before| && before[k].Disconnected? && forall m | k < m < |before| :: !before[m].Reconnected?;
    assert trace[k] == before[k];
    if 0 <= i < j {
      assert before[i] == trace[i];
    }
  }

  /** So no trace starts with a reconnection, and between two reconnections there is a disconnection. */
  lemma NeverReconnectedFirstOrTwice(eventKey: Payload -> string, steps: seq<Step>, key: ConnectionKey)
    ensures var trace := Trace(eventKey, steps, key);
            && (trace != [] ==> !trace[0].Reconnected?)
            && (forall i, j | 0 <= i < j < |trace| && trace[i].Reconnected? && trace[j].Reconnected? ::
                  exists k | i < k < j :: trace[k].Disconnected?)
  {
    var trace := Trace(eventKey, steps, key);
    ReconnectionsAnswerDisconnections(eventKey, steps, key);
    if trace != [] && trace[0].Reconnected? {
      AnswersMeans(trace, -1, 0);
    }
    forall i, j | 0 <= i < j < |trace| && trace[i].Reconnected? && trace[j].Reconnected?
      ensures exists k | i < k < j :: trace[k].Disconnected?
    {
      AnswersMeans(trace, i, j);
    }
  }

  /** A committed upsert announces a reconnection exactly when it takes a stored connection from ERROR to ACTIVE. */
  lemma ReconnectsIff(eventKey: Payload -> string, now: Time, t: Tables, key: ConnectionKey, from: Connection,
                      token: Option<Token>)
    requires Upsert(eventKey, now, t, key, from, token).Ok?
    ensures var t' := Upsert(eventKey, now, t, key, from, token).value;
            && key in t'.connections
            && (Reconnected(key, from.updatedAt) in Emitted(t.connections, key, from) <==>
                WasInError(t.connections, key) && t'.connections[key].status == Active)
            && (Disconnected(key, from.updatedAt, from.reason) in Emitted(t.connections, key, from) <==>
                WasInError(t'.connections, key))
  {
  }

  lemma OpenAfter(trace: seq<Payload>, p: Payload)
    requires OpenDisconnection(trace)
    ensures OpenDisconnection(trace + [p]) <==> !p.Reconnected?
  {
    var longer := trace + [p];
    assert longer[|trace|] == p;
    var j :| 0 <= j < |trace| && trace[j].Disconnected? && forall k | j < k < |trace| :: !trace[k].Reconnected?;
    assert longer[j].Disconnected?;
  }

  /**
   Exact condition for an open disconnection to be answered: the upsert makes the connection ACTIVE while its
   stored status is still ERROR. A connection deleted and created again, as ACTIVE, leaves it open.
   */
  lemma DisconnectionIsAnsweredIff(eventKey: Payload -> string, steps: seq<Step>, step: Step, key: ConnectionKey)
    requires step.UpsertStep? && step.key == key && OpenDisconnection(Trace(eventKey, steps, key))
    requires Upsert(eventKey, step.now, Run(eventKey, steps), key, step.from, step.token).Ok?
    ensures !OpenDisconnection(Trace(eventKey, steps + [step], key)) <==>
            WasInError(Run(eventKey, steps).connections, key) && step.from.status == Active
  {
    var t, trace := Run(eventKey, steps), Trace(eventKey, steps, key);
    var emitted := Emitted(t.connections, key, step.from);
    assert (steps + [step])[..|steps|] == steps;
    assert Trace(eventKey, steps + [step], key) == trace + emitted;
    ReconnectsIff(eventKey, step.now, t, key, step.from, step.token);
    if emitted == [] {
      assert trace + emitted == trace;
    } else {
      OpenAfter(trace, emitted[0]);
      assert emitted == [emitted[0]];
    }
  }

  // ---- What the outbox keeps of it ------------------------------------------------------------

  /** The outbox keeps an emitted event exactly when its id is neither stored nor recorded as sent. */
  lemma EmittedEventIsStoredIff(eventKey: Payload -> string, now: Time, t: Tables, key: ConnectionKey, from: Connection,
                                token: Option<Token>, p: Payload)
    requires Emitted(t.connections, key, from) == [p] && eventKey(p) != ""
    ensures var event := EventOf(eventKey, now, p);
            Upsert(eventKey, now, t, key, from, token) ==
            Ok(Tables(t.connections[key := Merge(t.connections, key, from)], WithToken(t.tokens, key, token),
                      if event.id in Outbox.Known(t.outbox) then t.outbox
                      else t.outbox.(rows := t.outbox.rows + [event])))
  {
    Outbox.InsertOne(t.outbox, EventOf(eventKey, now, p));
    assert EventsOf(eventKey, now, [p]) == [EventOf(eventKey, now, p)];
  }

  /**
   The payloads of a data sync and of a reconnection have the same fields, so at the same time they have
   the same key. After a sync, the reconnection of that time is emitted and never stored, however the
   outbox moved on in between.
   */
  lemma SyncSwallowsReconnection(eventKey: Payload -> string, now: Time, t: Tables, key: ConnectionKey, at: Time,
                                 from: Connection, token: Option<Token>, outbox: Outbox.State)
    requires eventKey(Reconnected(key, at)) == eventKey(DataSynced(key, at)) != ""
    requires WasInError(t.connections, key) && from.status == Active && from.updatedAt == at
    requires Outbox.Known(Apply(eventKey, t, DataStep(now, key, at)).outbox) <= Outbox.Known(outbox)
    ensures var synced := Apply(eventKey, t, DataStep(now, key, at)).(outbox := outbox);
            var reconnected := Apply(eventKey, synced, UpsertStep(now, key, from, token));
            && Emitted(synced.connections, key, from) == [Reconnected(key, at)]
            && reconnected.connections[key].status == Active && reconnected.outbox == outbox
  {
    var sync := EventOf(eventKey, now, DataSynced(key, at));
    Outbox.InsertMakesKnown(t.outbox, [sync]);
    assert sync in [sync];
    var synced := Apply(eventKey, t, DataStep(now, key, at)).(outbox := outbox);
    EmittedEventIsStoredIff(eventKey, now, synced, key, from, token, Reconnected(key, at));
  }

  function Conn(status: Status, at: Time): Connection {
    Connection(0, 0, status, at, None, map[])
  }

  function OneConnection(eventKey: Payload -> string, key: ConnectionKey, status: Status, at: Time,
                         ps: seq<Payload>): Tables
  {
    Tables(map[key := Conn(status, at)], map[], Outbox.State(EventsOf(eventKey, 0, ps), {}))
  }

  lemma NextStatus(eventKey: Payload -> string, key: ConnectionKey, status: Status, at: Time, ps: seq<Payload>,
                   status': Status, at': Time, p: Payload)
    requires Emitted(OneConnection(eventKey, key, status, at, ps).connections, key, Conn(status', at')) == [p]
    requires eventKey(p) != "" && forall q | q in ps :: q.key == key
    ensures var step := UpsertStep(0, key, Conn(status', at'), None);
            Apply(eventKey, OneConnection(eventKey, key, status, at, ps), step) ==
            OneConnection(eventKey, key, status', at',
                          if exists q | q in ps :: eventKey(q) == eventKey(p) then ps else ps + [p])
  {
    var t := OneConnection(eventKey, key, status, at, ps);
    EmittedEventIsStoredIff(eventKey, 0, t, key, Conn(status', at'), None, p);
    assert t.connections[key := Conn(status', at')] == map[key := Conn(status', at')];
    assert EventsOf(eventKey, 0, ps + [p]) == EventsOf(eventKey, 0, ps) + [EventOf(eventKey, 0, p)];
    var event := EventOf(eventKey, 0, p);
    if q :| q in ps && eventKey(q) == eventKey(p) {
      var i :| 0 <= i < |ps| && ps[i] == q;
      assert t.outbox.rows[i] in t.outbox.rows;
      assert event.id in Outbox.Ids(t.outbox.rows);
    } else {
      assert event.id !in Outbox.Ids(t.outbox.rows);
    }
  }

  lemma FirstError(eventKey: Payload -> string, key: ConnectionKey, at: Time)
    requires eventKey(Disconnected(key, at, None)) != ""
    ensures Apply(eventKey, EMPTY, UpsertStep(0, key, Conn(Error, at), None)) ==
            OneConnection(eventKey, key, Error, at, [Disconnected(key, at, None)])
  {
    EmittedEventIsStoredIff(eventKey, 0, EMPTY, key, Conn(Error, at), None, Disconnected(key, at, None));
    assert EMPTY.connections[key := Conn(Error, at)] == map[key := Conn(Error, at)];
    var d := Disconnected(key, at, None);
    assert EventsOf(eventKey, 0, [d]) == [] + [EventOf(eventKey, 0, d)];
  }

  /** An event with a new key is stored; one whose key is there already is not. */
  lemma NewStatusIsStored(eventKey: Payload -> string, key: ConnectionKey, status: Status, at: Time, ps: seq<Payload>,
                          status': Status, at': Time, p: Payload)
    requires Emitted(OneConnection(eventKey, key, status, at, ps).connections, key, Conn(status', at')) == [p]
    requires eventKey(p) != "" && forall q | q in ps :: q.key == key && eventKey(q) != eventKey(p)
    ensures var step := UpsertStep(0, key, Conn(status', at'), None);
            Apply(eventKey, OneConnection(eventKey, key, status, at, ps), step) ==
            OneConnection(eventKey, key, status', at', ps + [p])
  {
    NextStatus(eventKey, key, status, at, ps, status', at', p);
  }

  lemma KnownStatusIsNotStored(eventKey: Payload -> string, key: ConnectionKey, status: Status, at: Time,
                               ps: seq<Payload>, status': Status, at': Time, p: Payload)
    requires Emitted(OneConnection(eventKey, key, status, at, ps).connections, key, Conn(status', at')) == [p]
    requires eventKey(p) != "" && p in ps && forall q | q in ps :: q.key == key
    ensures var step := UpsertStep(0, key, Conn(status', at'), None);
            Apply(eventKey, OneConnection(eventKey, key, status, at, ps), step) ==
            OneConnection(eventKey, key, status', at', ps)
  {
    NextStatus(eventKey, key, status, at, ps, status', at', p);
  }

  /**
   A stale ERROR delivered again is emitted again, but its event has the id of the first one: the
   outbox then holds two reconnections with no disconnection between them.
   */
  lemma StaleErrorHidesADisconnection(eventKey: Payload -> string, key: ConnectionKey)
    requires var d, r, r' := Disconnected(key, 1, None), Reconnected(key, 2), Reconnected(key, 3);
             && eventKey(d) != "" && eventKey(r) != "" && eventKey(r') != ""
             && eventKey(d) !in {eventKey(r), eventKey(r')} && eventKey(r) != eventKey(r')
    ensures var d, r, r' := Disconnected(key, 1, None), Reconnected(key, 2), Reconnected(key, 3);
            var t1 := Apply(eventKey, EMPTY, UpsertStep(0, key, Conn(Error, 1), None));
            var t2 := Apply(eventKey, t1, UpsertStep(0, key, Conn(Active, 2), None));
            var t3 := Apply(eventKey, t2, UpsertStep(0, key, Conn(Error, 1), None));
            var t4 := Apply(eventKey, t3, UpsertStep(0, key, Conn(Active, 3), None));
            t4 == OneConnection(eventKey, key, Active, 3, [d, r, r'])
  {
    var d, r, r' := Disconnected(key, 1, None), Reconnected(key, 2), Reconnected(key, 3);
    FirstError(eventKey, key, 1);
    NewStatusIsStored(eventKey, key, Error, 1, [d], Active, 2, r);
    assert [d] + [r] == [d, r];
    KnownStatusIsNotStored(eventKey, key, Active, 2, [d, r], Error, 1, d);
    NewStatusIsStored(eventKey, key, Error, 1, [d, r], Active, 3, r');
    assert [d, r] + [r'] == [d, r, r'];
  }

  // ---- What the outbox keeps over whole runs --------------------------------------------------

  /** A step as the outbox sees it. */
  function MoveOf(eventKey: Payload -> string, t: Tables, step: Step): Deliveries.Move {
    match step
    case UpsertStep(now, key, from, _) => Deliveries.HandOff(EventsOf(eventKey, now, Emitted(t.connections, key, from)))
    case DataStep(now, key, at) => Deliveries.HandOff([EventOf(eventKey, now, DataSynced(key, at))])
    case DeleteStep(_) => Deliveries.HandOff([])
    case OutboxStep(outbox) => Deliveries.Meanwhile(outbox)
  }

  function Moves(eventKey: Payload -> string, steps: seq<Step>): seq<Deliveries.Move> {
    if steps == [] then []
    else
      var init := steps[..|steps| - 1];
      Moves(eventKey, init) + [MoveOf(eventKey, Run(eventKey, init), steps[|steps| - 1])]
  }

  /** What a step announces, of any connection, when it commits. */
  function AnnouncedBy(eventKey: Payload -> string, t: Tables, step: Step): seq<Payload> {
    match step
    case UpsertStep(now, key, from, token) =>
      if Upsert(eventKey, now, t, key, from, token).Ok? then Emitted(t.connections, key, from) else []
    case DataStep(now, key, at) =>
      if UpdateLastDataUpdate(eventKey, now, t, key, at).Ok? then [DataSynced(key, at)] else []
    case _ => []
  }

  function Announced(eventKey: Payload -> string, steps: seq<Step>): seq<Payload> {
    if steps == [] then []
    else
      var init := steps[..|steps| - 1];
      Announced(eventKey, init) + AnnouncedBy(eventKey, Run(eventKey, init), steps[|steps| - 1])
  }

  function EventId(eventKey: Payload -> string, p: Payload): Outbox.EventId {
    Outbox.EventId(eventKey(p), Some(p.key.connector))
  }

  function EventIds(eventKey: Payload -> string, ps: seq<Payload>): seq<Outbox.EventId> {
    seq(|ps|, i requires 0 <= i < |ps| => EventId(eventKey, ps[i]))
  }

  lemma EventIdsAppend(eventKey: Payload -> string, a: seq<Payload>, b: seq<Payload>)
    ensures EventIds(eventKey, a + b) == EventIds(eventKey, a) + EventIds(eventKey, b)
  {
  }

  lemma StepIsAMove(eventKey: Payload -> string, t: Tables, step: Step)
    ensures Apply(eventKey, t, step).outbox == Deliveries.Next(t.outbox, MoveOf(eventKey, t, step))
    ensures Deliveries.IdList(Deliveries.Committed(MoveOf(eventKey, t, step))) ==
            EventIds(eventKey, AnnouncedBy(eventKey, t, step))
  {
    assert Outbox.InsertRows(t.outbox.rows, Outbox.Unsent([], t.outbox.sent)) == t.outbox.rows;
  }

  lemma {:induction false} RunIsMoves(eventKey: Payload -> string, steps: seq<Step>)
    ensures Run(eventKey, steps).outbox == Deliveries.Run(EMPTY.outbox, Moves(eventKey, steps))
    ensures Deliveries.IdList(Deliveries.HandedOff(Moves(eventKey, steps))) ==
            EventIds(eventKey, Announced(eventKey, steps))
  {
    if steps != [] {
      var init, last := steps[..|steps| - 1], steps[|steps| - 1];
      var t := Run(eventKey, init);
      RunIsMoves(eventKey, init);
      StepIsAMove(eventKey, t, last);
      Deliveries.OneMoreMove(EMPTY.outbox, Moves(eventKey, init), MoveOf(eventKey, t, last));
      EventIdsAppend(eventKey, Announced(eventKey, init), AnnouncedBy(eventKey, t, last));
    }
  }

  /** The identifiers tell the announced payloads apart. */
  predicate TellsApart(eventKey: Payload -> string, ps: seq<Payload>) {
    forall p, q | p in ps && q in ps && EventId(eventKey, p) == EventId(eventKey, q) :: p == q
  }

  lemma IsRepeatedIff(eventKey: Payload -> string, ps: seq<Payload>, p: Payload)
    requires TellsApart(eventKey, ps + [p])
    ensures EventId(eventKey, p) in EventIds(eventKey, ps) <==> p in ps
  {
    if p in ps {
      var i :| 0 <= i < |ps| && ps[i] == p;
      assert EventIds(eventKey, ps)[i] == EventId(eventKey, p);
    }
    if EventId(eventKey, p) in EventIds(eventKey, ps) {
      var i :| 0 <= i < |ps| && EventIds(eventKey, ps)[i] == EventId(eventKey, p);
      assert ps[i] in ps + [p] && p in ps + [p];
    }
  }

  lemma {:induction false} FirstsOfPayloads(eventKey: Payload -> string, ps: seq<Payload>)
    requires TellsApart(eventKey, ps)
    ensures Deliveries.Firsts(EventIds(eventKey, ps)) == EventIds(eventKey, Deliveries.Firsts(ps))
  {
    if ps != [] {
      var init, last := ps[..|ps| - 1], ps[|ps| - 1];
      assert ps == init + [last];
      FirstsOfPayloads(eventKey, init);
      EventIdsAppend(eventKey, init, [last]);
      EventIdsAppend(eventKey, Deliveries.Firsts(init), [last]);
      IsRepeatedIff(eventKey, init, last);
      Deliveries.OneMoreFirst(init, last);
      Deliveries.OneMoreFirst(EventIds(eventKey, init), EventId(eventKey, last));
    }
  }

  /** The rows that the steps of a run append to the outbox. */
  ghost function Stored(eventKey: Payload -> string, steps: seq<Step>): seq<Outbox.Event> {
    Deliveries.Stored(EMPTY.outbox, Moves(eventKey, steps))
  }

  /** Between the steps the outbox moves on without forgetting, or making known, an event of the run. */
  ghost predicate OwnEventsOnly(eventKey: Payload -> string, steps: seq<Step>) {
    var moves := Moves(eventKey, steps);
    Deliveries.KeepsOwnIds(EMPTY.outbox, moves, Outbox.Ids(Deliveries.HandedOff(moves)))
  }

  /** Over every run, the events stored are those of the announced payloads without the repetitions. */
  lemma StoredAreFirstAnnouncements(eventKey: Payload -> string, steps: seq<Step>)
    requires OwnEventsOnly(eventKey, steps) && TellsApart(eventKey, Announced(eventKey, steps))
    ensures Deliveries.IdList(Stored(eventKey, steps)) ==
            EventIds(eventKey, Deliveries.Firsts(Announced(eventKey, steps)))
  {
    RunIsMoves(eventKey, steps);
    Deliveries.StoredIdsAreFirsts(EMPTY.outbox, Moves(eventKey, steps));
    FirstsOfPayloads(eventKey, Announced(eventKey, steps));
  }

  /** Every announcement of a run is stored exactly when none has the identifier of an earlier one. */
  lemma EveryAnnouncementIsStoredIff(eventKey: Payload -> string, steps: seq<Step>)
    requires OwnEventsOnly(eventKey, steps)
    ensures |Stored(eventKey, steps)| == |Announced(eventKey, steps)| <==>
            Deliveries.NoRepetition(EventIds(eventKey, Announced(eventKey, steps)))
  {
    RunIsMoves(eventKey, steps);
    Deliveries.StoredIdsAreFirsts(EMPTY.outbox, Moves(eventKey, steps));
    assert |Deliveries.IdList(Stored(eventKey, steps))| == |Stored(eventKey, steps)|;
    Deliveries.FirstsAreShorter(EventIds(eventKey, Announced(eventKey, steps)));
  }

  // ---- What the calls leave -------------------------------------------------------------------

  /** A status event waits to be published, under its own key and the connector of its connection. */
  lemma EventsAreNew(eventKey: Payload -> string, now: Time, ps: seq<Payload>)
    ensures var events := EventsOf(eventKey, now, ps);
            && OutboxProtocol.NewEvents(events) && Outbox.AllNewAt(events, now) && |events| == |ps|
            && forall i | 0 <= i < |ps| :: events[i].id == Outbox.EventId(eventKey(ps[i]), Some(ps[i].key.connector))
  {
  }

  lemma AnnouncedStatusWaits(eventKey: Payload -> string, now: Time, t: Tables, key: ConnectionKey, from: Connection,
                             token: Option<Token>, p: Payload)
    requires Upsert(eventKey, now, t, key, from, token).Ok? && p in Emitted(t.connections, key, from)
    requires Outbox.EventId(eventKey(p), Some(key.connector)) !in Outbox.Known(t.outbox)
    ensures Outbox.Event(Outbox.EventId(eventKey(p), Some(key.connector)), now, Outbox.Pending, 0) in
            Upsert(eventKey, now, t, key, from, token).value.outbox.rows
  {
    var ps := Emitted(t.connections, key, from);
    var events := EventsOf(eventKey, now, ps);
    EventsAreNew(eventKey, now, ps);
    var i :| 0 <= i < |ps| && ps[i] == p;
    assert events[i] in events;
    Outbox.InsertedEventWaits(t.outbox, events, now, events[i].id);
  }

  lemma AnnouncedSyncWaits(eventKey: Payload -> string, now: Time, t: Tables, key: ConnectionKey, at: Time)
    requires UpdateLastDataUpdate(eventKey, now, t, key, at).Ok?
    requires Outbox.EventId(eventKey(DataSynced(key, at)), Some(key.connector)) !in Outbox.Known(t.outbox)
    ensures Outbox.Event(Outbox.EventId(eventKey(DataSynced(key, at)), Some(key.connector)), now, Outbox.Pending, 0) in
            UpdateLastDataUpdate(eventKey, now, t, key, at).value.outbox.rows
  {
    var e := EventOf(eventKey, now, DataSynced(key, at));
    assert e in [e];
    Outbox.InsertedEventWaits(t.outbox, [e], now, e.id);
  }

  /**
   A committed upsert: the given status, update time, error and metadata, with the creation and data times
   of a connection that was stored; a given token; and no other connection or token changes.
   */
  lemma UpsertOutcome(eventKey: Payload -> string, now: Time, t: Tables, key: ConnectionKey, from: Connection,
                      token: Option<Token>)
    requires Upsert(eventKey, now, t, key, from, token).Ok?
    ensures var t' := Upsert(eventKey, now, t, key, from, token).value;
            var row := if key in t.connections then t.connections[key] else from;
            && t'.connections.Keys == t.connections.Keys + {key}
            && t'.connections[key] ==
               Connection(row.createdAt, row.dataUpdatedAt, from.status, from.updatedAt, from.reason, from.metadata)
            && (forall k | k in t.connections && k != key :: t'.connections[k] == t.connections[k])
            && (token.Some? ==> key in t'.tokens && t'.tokens[key] == token.value)
            && (token.None? ==> t'.tokens == t.tokens)
            && (forall k | k != key :: (k in t'.tokens <==> k in t.tokens) &&
                                       (k in t.tokens ==> t'.tokens[k] == t.tokens[k]))
  {
  }

  /** A data update changes the data time of a stored connection, and no other column, connection or token. */
  lemma DataUpdateOutcome(eventKey: Payload -> string, now: Time, t: Tables, key: ConnectionKey, at: Time)
    requires UpdateLastDataUpdate(eventKey, now, t, key, at).Ok?
    ensures var t' := UpdateLastDataUpdate(eventKey, now, t, key, at).value;
            && t'.connections.Keys == t.connections.Keys && t'.tokens == t.tokens
            && (forall k | k in t.connections && k != key :: t'.connections[k] == t.connections[k])
            && (key in t.connections ==>
                  var row := t.connections[key];
                  t'.connections[key] ==
                  Connection(row.createdAt, at, row.status, row.updatedAt, row.reason, row.metadata))
  {
  }

  /** Exactly this connection goes; its token and the outbox stay. */
  lemma DeleteOutcome(t: Tables, key: ConnectionKey)
    ensures var t' := Delete(t, key);
            && (forall k :: k in t'.connections <==> k in t.connections && k != key)
            && (forall k | k in t'.connections :: t'.connections[k] == t.connections[k])
            && t'.tokens == t.tokens && t'.outbox == t.outbox
  {
  }
}
