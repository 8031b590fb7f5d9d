/** What PaymentsUpsert promises about whole runs: conservation, replay safety and batch splitting. */
module LedgerTheorems {
  import opened Common
  import opened Ledger
  import Outbox
  import OutboxProtocol

  type Adjustments = seq<Adjustment<Amount>>
  type Batch = seq<Payment<Amount>>

  // ---- Concatenation of the statements' inputs ------------------------------------------------

  lemma {:induction false} AllAdjustmentsAppend(a: Batch, b: Batch)
    ensures AllAdjustments(a + b) == AllAdjustments(a) + AllAdjustments(b)
    decreases |b|
  {
    if b == [] {
      assert a + b == a;
    } else {
      AllAdjustmentsAppend(a, b[..|b| - 1]);
      assert (a + b)[..|a + b| - 1] == a + b[..|b| - 1];
    }
  }

  lemma {:induction false} AllAdjustmentsElements(ps: Batch)
    ensures forall a :: a in AllAdjustments(ps) <==> exists p :: p in ps && a in p.adjustments
  {
    if ps != [] {
      var init, last := ps[..|ps| - 1], ps[|ps| - 1];
      AllAdjustmentsElements(init);
      assert ps == init + [last];
    }
  }

  lemma {:induction false} InsertPaymentsAppend(t: map<PaymentId, PaymentRow>, a: Batch, b: Batch)
    requires AllPresent(a) && AllPresent(b)
    ensures AllPresent(a + b)
    ensures InsertPayments(t, a + b) == InsertPayments(InsertPayments(t, a), b)
    decreases |b|
  {
    if b == [] {
      assert a + b == a;
    } else {
      InsertPaymentsAppend(t, a, b[..|b| - 1]);
      assert (a + b)[..|a + b| - 1] == a + b[..|b| - 1];
    }
  }

  /** First wins: stored rows are kept, and new rows do not depend on the contents of the stored ones. */
  lemma {:induction false} InsertPaymentsFirstWins(
      t: map<PaymentId, PaymentRow>, t': map<PaymentId, PaymentRow>, ps: Batch)
    requires AllPresent(ps) && t.Keys == t'.Keys
    ensures InsertPayments(t, ps).Keys == InsertPayments(t', ps).Keys == t.Keys + BatchIds(ps)
    ensures forall id | id in t :: InsertPayments(t, ps)[id] == t[id]
    ensures forall id | id in BatchIds(ps) && id !in t :: InsertPayments(t, ps)[id] == InsertPayments(t', ps)[id]
  {
    if ps != [] {
      var init, last := ps[..|ps| - 1], ps[|ps| - 1];
      InsertPaymentsFirstWins(t, t', init);
      assert ps == init + [last];
      assert BatchIds(ps) == BatchIds(init) + {last.id};
    }
  }

  lemma AppendIsAssociative(a: Adjustments, b: Adjustments, c: Adjustments)
    ensures (a + b) + c == a + (b + c)
  {
  }

  lemma AdjustmentIdsAppend(a: Adjustments, b: Adjustments)
    ensures AdjustmentIds(a + b) == AdjustmentIds(a) + AdjustmentIds(b)
  {
  }

  lemma {:induction false} NewRowsElements(stored: set<AdjustmentId>, adjs: Adjustments)
    ensures forall a | a in NewRows(stored, adjs) :: a in adjs && a.id !in stored
    ensures stored + AdjustmentIds(NewRows(stored, adjs)) == stored + AdjustmentIds(adjs)
  {
    if adjs != [] {
      var init, last := adjs[..|adjs| - 1], adjs[|adjs| - 1];
      NewRowsElements(stored, init);
      assert adjs == init + [last];
      assert AdjustmentIds(adjs) == AdjustmentIds(init) + {last.id};
      var rows := NewRows(stored, init);
      assert AdjustmentIds(rows + [last]) == AdjustmentIds(rows) + {last.id};
    }
  }

  lemma {:induction false} NewRowsAppend(stored: set<AdjustmentId>, a: Adjustments, b: Adjustments)
    ensures NewRows(stored, a + b) ==
            NewRows(stored, a) + NewRows(stored + AdjustmentIds(NewRows(stored, a)), b)
    decreases |b|
  {
    if b == [] {
      assert a + b == a;
    } else {
      var init, last := b[..|b| - 1], b[|b| - 1];
      var first := NewRows(stored, a);
      var stored' := stored + AdjustmentIds(first);
      var rest := NewRows(stored', init);
      NewRowsAppend(stored, a, init);
      assert (a + b)[..|a + b| - 1] == a + init;
      AdjustmentIdsAppend(first, rest);
      AppendIsAssociative(first, rest, [last]);
      if last.id in stored || last.id in AdjustmentIds(first + rest) {
        assert NewRows(stored, a + b) == first + rest;
      } else {
        assert NewRows(stored, a + b) == (first + rest) + [last];
      }
    }
  }

  lemma {:induction false} NothingNew(stored: set<AdjustmentId>, adjs: Adjustments)
    requires AdjustmentIds(adjs) <= stored
    ensures NewRows(stored, adjs) == []
  {
    if adjs != [] {
      var init, last := adjs[..|adjs| - 1], adjs[|adjs| - 1];
      assert adjs == init + [last];
      assert last.id in AdjustmentIds(adjs);
      assert AdjustmentIds(init) <= AdjustmentIds(adjs);
      NothingNew(stored, init);
    }
  }

  lemma {:induction false} TotalAppend(a: Adjustments, b: Adjustments, id: PaymentId, kind: DeltaKind)
    ensures Total(a + b, id, kind) == Total(a, id, kind) + Total(b, id, kind)
    decreases |b|
  {
    if b == [] {
      assert a + b == a;
    } else {
      TotalAppend(a, b[..|b| - 1], id, kind);
      assert (a + b)[..|a + b| - 1] == a + b[..|b| - 1];
    }
  }

  lemma NetAppend(a: Adjustments, b: Adjustments, id: PaymentId)
    ensures Net(a + b, id) == Net(a, id) + Net(b, id)
  {
    TotalAppend(a, b, id, CaptureDelta);
    TotalAppend(a, b, id, RefundDelta);
  }

  lemma {:induction false} NetOfUnreferenced(adjs: Adjustments, ids: set<PaymentId>, id: PaymentId)
    requires References(adjs, ids) && id !in ids
    ensures Net(adjs, id) == 0
  {
    if adjs != [] {
      NetOfUnreferenced(adjs[..|adjs| - 1], ids, id);
      assert adjs[|adjs| - 1] in adjs;
    }
  }

  lemma {:induction false} NetSplits(adjs: Adjustments, ids: set<PaymentId>, id: PaymentId)
    ensures Net(adjs, id) == Net(Within(adjs, ids), id) + Net(Strays(adjs, ids), id)
  {
    if adjs != [] {
      NetSplits(adjs[..|adjs| - 1], ids, id);
    }
  }

  lemma {:induction false} NoStrays(adjs: Adjustments, ids: set<PaymentId>)
    requires References(adjs, ids)
    ensures Within(adjs, ids) == adjs && Strays(adjs, ids) == []
  {
    if adjs != [] {
      NoStrays(adjs[..|adjs| - 1], ids);
      assert adjs[|adjs| - 1] in adjs;
    }
  }

  lemma {:induction false} LastInitialAppend(a: Batch, b: Batch, id: PaymentId)
    ensures LastInitial(a + b, id) ==
            if LastInitial(b, id).Some? then LastInitial(b, id) else LastInitial(a, id)
    decreases |b|
  {
    if b == [] {
      assert a + b == a;
    } else {
      LastInitialAppend(a, b[..|b| - 1], id);
      assert (a + b)[..|a + b| - 1] == a + b[..|b| - 1];
    }
  }

  lemma {:induction false} LastInitialOnlyOfBatch(ps: Batch, id: PaymentId)
    requires id !in BatchIds(ps)
    ensures LastInitial(ps, id) == None
  {
    if ps != [] {
      assert ps[|ps| - 1] in ps;
      assert forall p | p in ps[..|ps| - 1] :: p in ps;
      LastInitialOnlyOfBatch(ps[..|ps| - 1], id);
    }
  }

  // ---- Conservation ---------------------------------------------------------------------------

  /** What the foreign key of payment_adjustments gives: no adjustment without its payment. */
  predicate Sound(t: Tables) {
    References(t.adjustments, t.payments.Keys)
  }

  /** What one adjustment does to the amount of its payment; without amount, nothing. */
  function Effect(a: Adjustment<Amount>): int {
    match a.amount
    case None => 0
    case Some(n) =>
      match a.status
      case Capture => n
      case RefundReversed => n
      case Refunded => -n
      case _ => 0
  }

  function Effects(adjs: Adjustments, id: PaymentId): int {
    if adjs == [] then 0
    else Effects(adjs[..|adjs| - 1], id) + if adjs[|adjs| - 1].id.paymentId == id then Effect(adjs[|adjs| - 1]) else 0
  }

  /** The two delta statements together move each payment by the effects of its adjustments. */
  lemma {:induction false} NetIsEffects(adjs: Adjustments, id: PaymentId)
    ensures Net(adjs, id) == Effects(adjs, id)
  {
    if adjs != [] {
      NetIsEffects(adjs[..|adjs| - 1], id);
    }
  }

  /** Each amount is the first recorded amount plus the effects of the stored adjustments. */
  predicate Conserved(t: Tables, first: map<PaymentId, int>) {
    && first.Keys == t.payments.Keys
    && forall id | id in first :: t.payments[id].amount == first[id] + Effects(t.adjustments, id)
  }

  /** The amount each payment had when it was first inserted. */
  function FirstAmounts(first: map<PaymentId, int>, ps: Batch): map<PaymentId, int>
    requires AllPresent(ps)
  {
    if ps == [] then first
    else
      var done, last := FirstAmounts(first, ps[..|ps| - 1]), ps[|ps| - 1];
      assert AmountPresent(last);
      if last.id in done then done else done[last.id := last.amount.value]
  }

  lemma {:induction false} FirstAmountsAreInserted(t: map<PaymentId, PaymentRow>, first: map<PaymentId, int>, ps: Batch)
    requires AllPresent(ps) && t.Keys == first.Keys
    ensures FirstAmounts(first, ps).Keys == InsertPayments(t, ps).Keys
    ensures forall id | id in first :: id in FirstAmounts(first, ps) && FirstAmounts(first, ps)[id] == first[id]
    ensures forall id | id in FirstAmounts(first, ps) && id !in first ::
              FirstAmounts(first, ps)[id] == InsertPayments(t, ps)[id].amount
  {
    if ps != [] {
      FirstAmountsAreInserted(t, first, ps[..|ps| - 1]);
    }
  }

  /** The adjustments a call would store without moving their payment, which is not in the batch. */
  function Skipped(t: Tables, ps: Batch): Adjustments {
    Strays(Inserted(t, ps), BatchIds(ps))
  }

  lemma AmountAfterUpsert(key: AdjustmentId -> string, now: Time, t: Tables, ps: Batch, first: map<PaymentId, int>,
                          id: PaymentId)
    requires Sound(t) && Conserved(t, first)
    requires Upsert(key, now, t, ps).Ok? && id in Upsert(key, now, t, ps).value.payments
    ensures id in FirstAmounts(first, ps)
    ensures var t' := Upsert(key, now, t, ps).value;
            t'.payments[id].amount ==
            FirstAmounts(first, ps)[id] + Effects(t'.adjustments, id) - Effects(Skipped(t, ps), id)
  {
    var inserted := Inserted(t, ps);
    FirstAmountsAreInserted(t.payments, first, ps);
    InsertPaymentsFirstWins(t.payments, t.payments, ps);
    NetAppend(t.adjustments, inserted, id);
    NetSplits(inserted, BatchIds(ps), id);
    NetIsEffects(t.adjustments, id);
    NetIsEffects(t.adjustments + inserted, id);
    NetIsEffects(Skipped(t, ps), id);
    if id !in t.payments {
      NetOfUnreferenced(t.adjustments, t.payments.Keys, id);
    }
  }

  /**
   Conservation is kept by a call exactly when the adjustments it stores for payments outside the
   batch cancel out on every payment.
   */
  lemma ConservationIff(key: AdjustmentId -> string, now: Time, t: Tables, ps: Batch, first: map<PaymentId, int>)
    requires Sound(t) && Conserved(t, first) && Upsert(key, now, t, ps).Ok?
    ensures Sound(Upsert(key, now, t, ps).value)
    ensures Conserved(Upsert(key, now, t, ps).value, FirstAmounts(first, ps)) <==>
            forall id | id in Upsert(key, now, t, ps).value.payments :: Effects(Skipped(t, ps), id) == 0
  {
    var t' := Upsert(key, now, t, ps).value;
    FirstAmountsAreInserted(t.payments, first, ps);
    InsertPaymentsFirstWins(t.payments, t.payments, ps);
    assert t'.payments.Keys == FirstAmounts(first, ps).Keys;
    forall id | id in t'.payments
      ensures t'.payments[id].amount ==
              FirstAmounts(first, ps)[id] + Effects(t'.adjustments, id) - Effects(Skipped(t, ps), id)
    {
      AmountAfterUpsert(key, now, t, ps, first, id);
    }
  }

  /** Every adjustment names the payment it is listed under. */
  predicate Enclosed(ps: Batch) {
    forall p, a | p in ps && a in p.adjustments :: a.id.paymentId == p.id
  }

  lemma EnclosedReferences(t: Tables, ps: Batch)
    requires Enclosed(ps)
    ensures References(Inserted(t, ps), BatchIds(ps)) && Skipped(t, ps) == []
  {
    NewRowsElements(AdjustmentIds(t.adjustments), AllAdjustments(ps));
    AllAdjustmentsElements(ps);
    NoStrays(Inserted(t, ps), BatchIds(ps));
  }

  // ---- Runs -----------------------------------------------------------------------------------

  /** Between two calls the outbox may change in any way: publishing, failures, clean-up. */
  datatype Step = UpsertStep(now: Time, batch: Batch) | OutboxStep(outbox: Outbox.State)

  function Apply(key: AdjustmentId -> string, t: Tables, step: Step): Tables {
    match step
    case OutboxStep(outbox) => t.(outbox := outbox)
    case UpsertStep(now, batch) =>
      match Upsert(key, now, t, batch)
      case Ok(t') => t'
      case Err(_) => t
  }

  function Run(key: AdjustmentId -> string, t: Tables, steps: seq<Step>): Tables {
    if steps == [] then t else Apply(key, Run(key, t, steps[..|steps| - 1]), steps[|steps| - 1])
  }

  const EMPTY := Tables(map[], [], Outbox.State([], {}))

  /** The first recorded amounts of a run: those of the calls that committed. */
  function FirstAmountsOf(key: AdjustmentId -> string, steps: seq<Step>): map<PaymentId, int> {
    if steps == [] then map[]
    else
      var init, last := steps[..|steps| - 1], steps[|steps| - 1];
      var first := FirstAmountsOf(key, init);
      if last.UpsertStep? && Upsert(key, last.now, Run(key, EMPTY, init), last.batch).Ok?
      then FirstAmounts(first, last.batch) else first
  }

  predicate AllEnclosed(steps: seq<Step>) {
    forall s | s in steps && s.UpsertStep? :: Enclosed(s.batch)
  }

  /**
   Conservation over every run: each stored amount is the first inserted one, plus the stored
   CAPTURE and REFUND_REVERSED adjustments, minus the stored REFUNDED ones.
   */
  lemma {:induction false} RunsConserveAmounts(key: AdjustmentId -> string, steps: seq<Step>)
    requires AllEnclosed(steps)
    ensures Sound(Run(key, EMPTY, steps))
    ensures Conserved(Run(key, EMPTY, steps), FirstAmountsOf(key, steps))
  {
    if steps != [] {
      var init, last := steps[..|steps| - 1], steps[|steps| - 1];
      assert last in steps && forall s | s in init :: s in steps;
      RunsConserveAmounts(key, init);
      var t := Run(key, EMPTY, init);
      if last.UpsertStep? && Upsert(key, last.now, t, last.batch).Ok? {
        EnclosedReferences(t, last.batch);
        ConservationIff(key, last.now, t, last.batch, FirstAmountsOf(key, init));
      }
    }
  }

  // ---- Replay ---------------------------------------------------------------------------------

  /** Everything a batch would insert is already stored. */
  predicate Absorbed(t: Tables, ps: Batch) {
    && AllPresent(ps)
    && BatchIds(ps) <= t.payments.Keys
    && AdjustmentIds(AllAdjustments(ps)) <= AdjustmentIds(t.adjustments)
  }

  lemma StepOnlyAdds(key: AdjustmentId -> string, t: Tables, step: Step)
    ensures t.payments.Keys <= Apply(key, t, step).payments.Keys
    ensures AdjustmentIds(t.adjustments) <= AdjustmentIds(Apply(key, t, step).adjustments)
    ensures step.UpsertStep? && Upsert(key, step.now, t, step.batch).Ok? ==> Absorbed(Apply(key, t, step), step.batch)
  {
    if step.UpsertStep? && Upsert(key, step.now, t, step.batch).Ok? {
      var inserted := Inserted(t, step.batch);
      InsertPaymentsFirstWins(t.payments, t.payments, step.batch);
      NewRowsElements(AdjustmentIds(t.adjustments), AllAdjustments(step.batch));
      assert AdjustmentIds(t.adjustments + inserted) == AdjustmentIds(t.adjustments) + AdjustmentIds(inserted);
    }
  }

  lemma {:induction false} AbsorbedForever(key: AdjustmentId -> string, t: Tables, ps: Batch, steps: seq<Step>)
    requires Absorbed(t, ps)
    ensures Absorbed(Run(key, t, steps), ps)
  {
    if steps != [] {
      AbsorbedForever(key, t, ps, steps[..|steps| - 1]);
      StepOnlyAdds(key, Run(key, t, steps[..|steps| - 1]), steps[|steps| - 1]);
    }
  }

  /** All that a replay can still do: set initial amounts to the batch's last AMOUNT_ADJUSTMENT. */
  lemma ReplayEffect(key: AdjustmentId -> string, now: Time, t: Tables, ps: Batch)
    requires Absorbed(t, ps)
    ensures Upsert(key, now, t, ps) ==
            Ok(t.(payments := AdjustAll(t.payments, ps, [])))
  {
    NothingNew(AdjustmentIds(t.adjustments), AllAdjustments(ps));
    InsertPaymentsFirstWins(t.payments, t.payments, ps);
    assert InsertPayments(t.payments, ps) == t.payments;
    assert t.adjustments + [] == t.adjustments;
    assert PaymentEvents(key, now, Inserted(t, ps), PaymentMap(ps)) == [];
    assert Outbox.Insert(t.outbox, []) == Ok(t.outbox);
  }

  /**
   Replay safety. After a batch committed and any steps followed, running it again commits and
   changes no amount, no adjustment and nothing in the outbox.
   */
  lemma ReplayChangesNoAmount(key: AdjustmentId -> string, now: Time, ps: Batch, t: Tables, steps: seq<Step>,
                              later: Time)
    requires Upsert(key, now, t, ps).Ok?
    ensures var t' := Run(key, Upsert(key, now, t, ps).value, steps);
            var replay := Upsert(key, later, t', ps);
            && replay.Ok?
            && replay.value.adjustments == t'.adjustments && replay.value.outbox == t'.outbox
            && replay.value.payments.Keys == t'.payments.Keys
            && forall id | id in t'.payments :: replay.value.payments[id].amount == t'.payments[id].amount
  {
    StepOnlyAdds(key, t, UpsertStep(now, ps));
    var committed := Upsert(key, now, t, ps).value;
    AbsorbedForever(key, committed, ps, steps);
    ReplayEffect(key, later, Run(key, committed, steps), ps);
  }

  /** A replay leaves the tables alone exactly when the initial amounts are still those it sets. */
  lemma ReplayChangesNothingIff(key: AdjustmentId -> string, now: Time, t: Tables, ps: Batch)
    requires Absorbed(t, ps)
    ensures Upsert(key, now, t, ps) == Ok(t) <==>
            forall id | id in t.payments && LastInitial(ps, id).Some? ::
              t.payments[id].initialAmount == LastInitial(ps, id).value
  {
    ReplayEffect(key, now, t, ps);
    var replayed := Upsert(key, now, t, ps).value.payments;
    if forall id | id in t.payments && LastInitial(ps, id).Some? ::
         t.payments[id].initialAmount == LastInitial(ps, id).value {
      assert replayed == t.payments;
    }
    if replayed == t.payments {
      forall id | id in t.payments && LastInitial(ps, id).Some?
        ensures t.payments[id].initialAmount == LastInitial(ps, id).value
      {
        assert replayed[id] == t.payments[id];
      }
    }
  }

  /** Running the same batch again at once changes nothing at all. */
  lemma ImmediateReplayIsIdentity(key: AdjustmentId -> string, now: Time, later: Time, t: Tables, ps: Batch)
    requires Upsert(key, now, t, ps).Ok?
    ensures Upsert(key, later, Upsert(key, now, t, ps).value, ps) == Upsert(key, now, t, ps)
  {
    StepOnlyAdds(key, t, UpsertStep(now, ps));
    ReplayChangesNothingIff(key, later, Upsert(key, now, t, ps).value, ps);
  }

  // ---- Batch splitting ------------------------------------------------------------------------

  /** A payment's connector is the one its id names. */
  predicate OwnConnector(ps: Batch) {
    forall p | p in ps :: p.connector == p.id.connector
  }

  lemma {:induction false} PaymentMapEntries<N>(ps: seq<Payment<N>>)
    ensures PaymentMap(ps).Keys == BatchIds(ps)
    ensures forall id | id in PaymentMap(ps) :: PaymentMap(ps)[id] in ps && PaymentMap(ps)[id].id == id
  {
    if ps != [] {
      PaymentMapEntries(ps[..|ps| - 1]);
      assert ps == ps[..|ps| - 1] + [ps[|ps| - 1]];
      assert BatchIds(ps) == BatchIds(ps[..|ps| - 1]) + {ps[|ps| - 1].id};
    }
  }

  /** Of several payments with one id, the last one is in the map. */
  lemma {:induction false} PaymentMapLastWins<N>(ps: seq<Payment<N>>, i: nat)
    requires i < |ps| && forall j | i < j < |ps| :: ps[j].id != ps[i].id
    ensures ps[i].id in PaymentMap(ps) && PaymentMap(ps)[ps[i].id] == ps[i]
    decreases |ps|
  {
    var n := |ps| - 1;
    if i < n {
      assert ps[..n][i] == ps[i] && forall j | i < j < n :: ps[..n][j] == ps[j];
      PaymentMapLastWins(ps[..n], i);
    }
  }

  function EventIdOf(key: AdjustmentId -> string, id: AdjustmentId): Outbox.EventId {
    Outbox.EventId(key(id), Some(id.paymentId.connector))
  }

  function EventIdsOf(key: AdjustmentId -> string, adjs: Adjustments): set<Outbox.EventId> {
    set a | a in adjs :: EventIdOf(key, a.id)
  }

  lemma EventIdsAppend(key: AdjustmentId -> string, a: Adjustments, b: Adjustments)
    ensures EventIdsOf(key, a + b) == EventIdsOf(key, a) + EventIdsOf(key, b)
  {
  }

  lemma {:induction false} PaymentEventIds(key: AdjustmentId -> string, now: Time, adjs: Adjustments, ps: Batch)
    requires OwnConnector(ps) && References(adjs, BatchIds(ps))
    ensures var events := PaymentEvents(key, now, adjs, PaymentMap(ps));
            Outbox.Ids(events) == EventIdsOf(key, adjs)
            && forall e | e in events :: exists a :: a in adjs && e.id.key == key(a.id)
  {
    if adjs != [] {
      var init, last := adjs[..|adjs| - 1], adjs[|adjs| - 1];
      assert adjs == init + [last];
      PaymentEventIds(key, now, init, ps);
      PaymentMapEntries(ps);
      assert last.id.paymentId in BatchIds(ps);
      var before := PaymentEvents(key, now, init, PaymentMap(ps));
      var event := PaymentEvent(key, now, last.id, last.id.paymentId.connector);
      assert Outbox.Ids(before + [event]) == Outbox.Ids(before) + {event.id};
      EventIdsAppend(key, init, [last]);
    }
  }

  /** The ids in outbox_events after a call: those before it, and the unsent ones of the new adjustments. */
  lemma OutboxAfterUpsert(key: AdjustmentId -> string, now: Time, t: Tables, ps: Batch)
    requires forall id: AdjustmentId :: key(id) != ""
    requires AllPresent(ps) && Enclosed(ps) && OwnConnector(ps)
    ensures Upsert(key, now, t, ps).Ok?
    ensures var t' := Upsert(key, now, t, ps).value;
            && t'.outbox.sent == t.outbox.sent
            && Outbox.Ids(t'.outbox.rows) ==
               Outbox.Ids(t.outbox.rows) + (EventIdsOf(key, Inserted(t, ps)) - t.outbox.sent)
  {
    var inserted := Inserted(t, ps);
    EnclosedReferences(t, ps);
    InsertPaymentsFirstWins(t.payments, t.payments, ps);
    PaymentEventIds(key, now, inserted, ps);
    var events := PaymentEvents(key, now, inserted, PaymentMap(ps));
    Outbox.UnsentElements(events, t.outbox.sent);
    var unsent := Outbox.Unsent(events, t.outbox.sent);
    Outbox.InsertRowsExtends(t.outbox.rows, unsent);
    assert Outbox.Ids(unsent) == Outbox.Ids(events) - t.outbox.sent;
  }

  // ---- Every stored adjustment is announced ---------------------------------------------------

  /** The event of every stored adjustment is a row of the outbox or recorded as sent. */
  predicate Announced(key: AdjustmentId -> string, t: Tables) {
    EventIdsOf(key, t.adjustments) <= Outbox.Known(t.outbox)
  }

  /** Between two calls the outbox may do whatever its protocol allows, which loses no known id. */
  predicate OutboxLosesNothing(key: AdjustmentId -> string, steps: seq<Step>) {
    steps == [] ||
    var init, last := steps[..|steps| - 1], steps[|steps| - 1];
    && OutboxLosesNothing(key, init)
    && (last.OutboxStep? ==> Outbox.Known(Run(key, EMPTY, init).outbox) <= Outbox.Known(last.outbox))
  }

  predicate WellFormed(steps: seq<Step>) {
    forall s | s in steps && s.UpsertStep? :: Enclosed(s.batch) && OwnConnector(s.batch)
  }

  /** The events of a call enter the outbox as its protocol requires: pending and never tried. */
  lemma {:induction false} PaymentEventsAreNew(key: AdjustmentId -> string, now: Time, adjs: Adjustments,
                                               payments: map<PaymentId, Payment<Amount>>)
    ensures OutboxProtocol.NewEvents(PaymentEvents(key, now, adjs, payments))
  {
    if adjs != [] {
      PaymentEventsAreNew(key, now, adjs[..|adjs| - 1], payments);
    }
  }

  /** Over every run, no adjustment is stored without its event being handed to the outbox for good. */
  lemma {:induction false} RunsAnnounceEveryAdjustment(key: AdjustmentId -> string, steps: seq<Step>)
    requires forall id: AdjustmentId :: key(id) != ""
    requires WellFormed(steps) && OutboxLosesNothing(key, steps)
    ensures Announced(key, Run(key, EMPTY, steps))
  {
    if steps != [] {
      var init, last := steps[..|steps| - 1], steps[|steps| - 1];
      assert last in steps && forall s | s in init :: s in steps;
      RunsAnnounceEveryAdjustment(key, init);
      var t := Run(key, EMPTY, init);
      if last.UpsertStep? && Upsert(key, last.now, t, last.batch).Ok? {
        OutboxAfterUpsert(key, last.now, t, last.batch);
        EventIdsAppend(key, t.adjustments, Inserted(t, last.batch));
      }
    }
  }

  // ---- Splitting ------------------------------------------------------------------------------

  lemma PaymentAfterSplit(t: Tables, a: Batch, b: Batch, t1: Tables, id: PaymentId)
    requires AllPresent(a) && AllPresent(b) && AllPresent(a + b) && Enclosed(a) && Enclosed(b)
    requires t1.payments == AdjustAll(InsertPayments(t.payments, a), a, Inserted(t, a))
    requires t1.adjustments == t.adjustments + Inserted(t, a)
    ensures InsertPayments(t.payments, a + b).Keys == InsertPayments(t1.payments, b).Keys
    ensures Inserted(t, a + b) == Inserted(t, a) + Inserted(t1, b)
    ensures id in InsertPayments(t.payments, a + b) ==>
              Adjusted(InsertPayments(t.payments, a + b)[id], LastInitial(a + b, id), Net(Inserted(t, a + b), id)) ==
              Adjusted(InsertPayments(t1.payments, b)[id], LastInitial(b, id), Net(Inserted(t1, b), id))
  {
    var middle := InsertPayments(t.payments, a);
    InsertPaymentsAppend(t.payments, a, b);
    InsertPaymentsFirstWins(t.payments, t.payments, a);
    InsertPaymentsFirstWins(middle, t1.payments, b);
    InsertPaymentsFirstWins(t1.payments, middle, b);
    AllAdjustmentsAppend(a, b);
    NewRowsAppend(AdjustmentIds(t.adjustments), AllAdjustments(a), AllAdjustments(b));
    assert AdjustmentIds(t1.adjustments) == AdjustmentIds(t.adjustments) + AdjustmentIds(Inserted(t, a));
    NetAppend(Inserted(t, a), Inserted(t1, b), id);
    LastInitialAppend(a, b, id);
    if id !in middle {
      EnclosedReferences(t, a);
      NetOfUnreferenced(Inserted(t, a), BatchIds(a), id);
      LastInitialOnlyOfBatch(a, id);
    }
  }

  /** Under enclosed batches the tables a call leaves are those of its inserted rows. */
  lemma UpsertOfEnclosed(key: AdjustmentId -> string, now: Time, t: Tables, ps: Batch)
    requires Enclosed(ps) && Upsert(key, now, t, ps).Ok?
    ensures var t' := Upsert(key, now, t, ps).value;
            && t'.payments == AdjustAll(InsertPayments(t.payments, ps), ps, Inserted(t, ps))
            && t'.adjustments == t.adjustments + Inserted(t, ps)
  {
    EnclosedReferences(t, ps);
    NoStrays(Inserted(t, ps), BatchIds(ps));
  }

  lemma TablesSplit(t: Tables, a: Batch, b: Batch, t1: Tables)
    requires AllPresent(a) && AllPresent(b) && AllPresent(a + b) && Enclosed(a) && Enclosed(b)
    requires t1.payments == AdjustAll(InsertPayments(t.payments, a), a, Inserted(t, a))
    requires t1.adjustments == t.adjustments + Inserted(t, a)
    ensures Inserted(t, a + b) == Inserted(t, a) + Inserted(t1, b)
    ensures AdjustAll(InsertPayments(t.payments, a + b), a + b, Inserted(t, a + b)) ==
            AdjustAll(InsertPayments(t1.payments, b), b, Inserted(t1, b))
  {
    forall id { PaymentAfterSplit(t, a, b, t1, id); }
    PaymentAfterSplit(t, a, b, t1, PaymentId("", "", ""));
  }

  lemma AppendKeeps(a: Batch, b: Batch)
    ensures AllPresent(a) && AllPresent(b) ==> AllPresent(a + b)
    ensures Enclosed(a) && Enclosed(b) ==> Enclosed(a + b)
    ensures OwnConnector(a) && OwnConnector(b) ==> OwnConnector(a + b)
  {
  }

  /** What a committed call with an enclosed batch leaves in every table. */
  ghost predicate Leaves(key: AdjustmentId -> string, t: Tables, ps: Batch, t': Tables)
    requires AllPresent(ps)
  {
    && t'.payments == AdjustAll(InsertPayments(t.payments, ps), ps, Inserted(t, ps))
    && t'.adjustments == t.adjustments + Inserted(t, ps)
    && t'.outbox.sent == t.outbox.sent
    && Outbox.Ids(t'.outbox.rows) ==
       Outbox.Ids(t.outbox.rows) + (EventIdsOf(key, Inserted(t, ps)) - t.outbox.sent)
  }

  lemma UpsertLeaves(key: AdjustmentId -> string, now: Time, t: Tables, ps: Batch) returns (t': Tables)
    requires forall id: AdjustmentId :: key(id) != ""
    requires AllPresent(ps) && Enclosed(ps) && OwnConnector(ps)
    ensures Upsert(key, now, t, ps) == Ok(t') && Leaves(key, t, ps, t')
  {
    OutboxAfterUpsert(key, now, t, ps);
    UpsertOfEnclosed(key, now, t, ps);
    t' := Upsert(key, now, t, ps).value;
  }

  lemma LeavesSplit(key: AdjustmentId -> string, t: Tables, a: Batch, b: Batch, t1: Tables, whole: Tables,
                    split: Tables)
    requires AllPresent(a) && AllPresent(b) && AllPresent(a + b) && Enclosed(a) && Enclosed(b)
    requires Leaves(key, t, a, t1) && Leaves(key, t1, b, split) && Leaves(key, t, a + b, whole)
    ensures whole.payments == split.payments && whole.adjustments == split.adjustments
    ensures whole.outbox.sent == split.outbox.sent
    ensures Outbox.Ids(whole.outbox.rows) == Outbox.Ids(split.outbox.rows)
  {
    assert Inserted(t, a + b) == Inserted(t, a) + Inserted(t1, b) && whole.payments == split.payments by {
      TablesSplit(t, a, b, t1);
    }
    AppendIsAssociative(t.adjustments, Inserted(t, a), Inserted(t1, b));
    EventIdsAppend(key, Inserted(t, a), Inserted(t1, b));
  }

  lemma SplitResults(key: AdjustmentId -> string, t: Tables, a: Batch, b: Batch, now: Time, nowA: Time, nowB: Time)
    returns (whole: Tables, first: Tables, split: Tables)
    requires forall id: AdjustmentId :: key(id) != ""
    requires AllPresent(a) && AllPresent(b) && Enclosed(a) && Enclosed(b) && OwnConnector(a) && OwnConnector(b)
    ensures Upsert(key, now, t, a + b) == Ok(whole)
    ensures Upsert(key, nowA, t, a) == Ok(first) && Upsert(key, nowB, first, b) == Ok(split)
    ensures whole.payments == split.payments && whole.adjustments == split.adjustments
    ensures whole.outbox.sent == split.outbox.sent
    ensures Outbox.Ids(whole.outbox.rows) == Outbox.Ids(split.outbox.rows)
  {
    AppendKeeps(a, b);
    whole := UpsertLeaves(key, now, t, a + b);
    first := UpsertLeaves(key, nowA, t, a);
    split := UpsertLeaves(key, nowB, first, b);
    LeavesSplit(key, t, a, b, first, whole, split);
  }

  /** Equal payments, adjustments and recorded ids, and the same ids in outbox_events. */
  ghost predicate SameState(t: Tables, t': Tables) {
    && t.payments == t'.payments && t.adjustments == t'.adjustments
    && t.outbox.sent == t'.outbox.sent && Outbox.Ids(t.outbox.rows) == Outbox.Ids(t'.outbox.rows)
  }

  /**
   Batch splitting. One call with A ++ B commits and leaves the same payments, adjustments, amounts,
   initial amounts and outbox ids as a call with A followed by a call with B, at whatever times.
   */
  lemma BatchesSplit(key: AdjustmentId -> string, t: Tables, a: Batch, b: Batch, now: Time, nowA: Time, nowB: Time)
    requires forall id: AdjustmentId :: key(id) != ""
    requires AllPresent(a) && AllPresent(b) && Enclosed(a) && Enclosed(b) && OwnConnector(a) && OwnConnector(b)
    ensures Upsert(key, now, t, a + b).Ok? && Upsert(key, nowA, t, a).Ok?
    ensures Upsert(key, nowB, Upsert(key, nowA, t, a).value, b).Ok?
    ensures SameState(Upsert(key, now, t, a + b).value, Upsert(key, nowB, Upsert(key, nowA, t, a).value, b).value)
  {
    var _, _, _ := SplitResults(key, t, a, b, now, nowA, nowB);
  }

  // ---- Where the hypotheses are needed --------------------------------------------------------

  /** A refund listed under another payment of a batch is stored but never subtracted. */
  lemma StrayRefundIsStoredButNotSubtracted(key: AdjustmentId -> string, now: Time, p: PaymentId, q: PaymentId)
    requires forall id: AdjustmentId :: key(id) != ""
    requires p != q
    ensures var t := Tables(map[p := PaymentRow("", "", 100, 100)], [], Outbox.State([], {}));
            var refund := Adjustment(AdjustmentId(p, "", 0, Refunded), 0, Refunded, Some(10));
            var result := Upsert(key, now, t, [Payment(q, "", "", Some(0), Some(0), [refund])]);
            && result.Ok? && result.value.adjustments == [refund]
            && Effects(result.value.adjustments, p) == -10 && result.value.payments[p].amount == 100
  {
    var t := Tables(map[p := PaymentRow("", "", 100, 100)], [], Outbox.State([], {}));
    var refund := Adjustment(AdjustmentId(p, "", 0, Refunded), 0, Refunded, Some(10));
    var ps: Batch := [Payment(q, "", "", Some(0), Some(0), [refund])];
    assert AllAdjustments(ps) == AllAdjustments([]) + [refund] == [refund];
    assert NewRows({}, [refund]) == NewRows({}, []) + [refund] == [refund];
    assert AdjustmentIds(t.adjustments) == {};
    assert Inserted(t, ps) == [refund];
    InsertPaymentsFirstWins(t.payments, t.payments, ps);
    PaymentMapEntries(ps);
    assert PaymentEvents(key, now, [refund], PaymentMap(ps)) == PaymentEvents(key, now, [], PaymentMap(ps)) == [];
    assert Within([refund], BatchIds(ps)) == Within([], BatchIds(ps)) == [];
    assert Effects([refund], p) == Effects([], p) - 10;
    assert LastInitial(ps, p) == LastInitial([], p) == None;
  }

  function OneAmountAdjustment(p: PaymentId, at: Time, amount: int): Batch {
    [Payment(p, p.connector, "", Some(0), Some(0),
             [Adjustment(AdjustmentId(p, "", at, AmountAdjustment), at, AmountAdjustment, Some(amount))])]
  }

  /** Whatever was stored, the call sets the initial amount to the one of its batch. */
  lemma SetsInitialAmount(key: AdjustmentId -> string, now: Time, t: Tables, p: PaymentId, at: Time, amount: int)
    requires forall id: AdjustmentId :: key(id) != ""
    ensures Upsert(key, now, t, OneAmountAdjustment(p, at, amount)).Ok?
    ensures var t' := Upsert(key, now, t, OneAmountAdjustment(p, at, amount)).value;
            p in t'.payments && t'.payments[p].initialAmount == amount
  {
    var ps := OneAmountAdjustment(p, at, amount);
    OutboxAfterUpsert(key, now, t, ps);
    InsertPaymentsFirstWins(t.payments, t.payments, ps);
    assert ps[0] in ps && p in BatchIds(ps);
    assert ps[0].adjustments[..0] == [];
    assert LastAmountAdjustment(ps[0].adjustments) == Some(amount);
    assert LastInitial(ps, p) == Some(amount);
  }

  /** Replaying an older batch sets the initial amount back: two batches and the first one again. */
  lemma StaleReplayRestoresOldInitialAmount(key: AdjustmentId -> string, p: PaymentId, stale: int, current: int)
    requires forall id: AdjustmentId :: key(id) != ""
    requires stale != current
    ensures var first, second := OneAmountAdjustment(p, 1, stale), OneAmountAdjustment(p, 2, current);
            var before := Run(key, EMPTY, [UpsertStep(1, first), UpsertStep(2, second)]);
            var after := Upsert(key, 3, before, first);
            && p in before.payments && before.payments[p].initialAmount == current
            && after.Ok? && p in after.value.payments && after.value.payments[p].initialAmount == stale
            && after != Ok(before)
  {
    var first, second := OneAmountAdjustment(p, 1, stale), OneAmountAdjustment(p, 2, current);
    var steps := [UpsertStep(1, first), UpsertStep(2, second)];
    assert steps[..1] == [steps[0]] && steps[..1][..0] == [];
    SetsInitialAmount(key, 1, EMPTY, p, 1, stale);
    var one := Upsert(key, 1, EMPTY, first).value;
    assert Run(key, EMPTY, steps[..1]) == Apply(key, EMPTY, steps[0]) == one;
    SetsInitialAmount(key, 2, one, p, 2, current);
    SetsInitialAmount(key, 3, Run(key, EMPTY, steps), p, 1, stale);
  }

  // ---- Initial amounts ------------------------------------------------------------------------

  predicate SetsInitial(a: Adjustment<Amount>) {
    a.status == AmountAdjustment && a.amount.Some?
  }

  lemma {:induction false} LastAmountAdjustmentIsLast(adjs: Adjustments)
    ensures LastAmountAdjustment(adjs).None? <==> forall a | a in adjs :: !SetsInitial(a)
    ensures LastAmountAdjustment(adjs).Some? ==>
              exists i | 0 <= i < |adjs| :: SetsInitial(adjs[i]) && adjs[i].amount == LastAmountAdjustment(adjs) &&
                forall j | i < j < |adjs| :: !SetsInitial(adjs[j])
  {
    if adjs != [] {
      var n := |adjs| - 1;
      LastAmountAdjustmentIsLast(adjs[..n]);
      assert adjs == adjs[..n] + [adjs[n]];
      if !SetsInitial(adjs[n]) && LastAmountAdjustment(adjs).Some? {
        var i :| 0 <= i < n && SetsInitial(adjs[..n][i]) && adjs[..n][i].amount == LastAmountAdjustment(adjs) &&
          forall j | i < j < n :: !SetsInitial(adjs[..n][j]);
        assert adjs[i] == adjs[..n][i] && forall j | 0 <= j < n :: adjs[j] == adjs[..n][j];
      }
    }
  }

  predicate SetsInitialOf(p: Payment<Amount>, id: PaymentId) {
    p.id == id && LastAmountAdjustment(p.adjustments).Some?
  }

  ghost predicate IsLastSetting(ps: Batch, id: PaymentId, i: int) {
    0 <= i < |ps| && SetsInitialOf(ps[i], id) && forall j | i < j < |ps| :: !SetsInitialOf(ps[j], id)
  }

  /** Across a batch, the last payment entry that has an AMOUNT_ADJUSTMENT decides. */
  lemma {:induction false} LastInitialIsLast(ps: Batch, id: PaymentId)
    ensures LastInitial(ps, id).None? <==> forall p | p in ps :: !SetsInitialOf(p, id)
    ensures LastInitial(ps, id).Some? ==>
              exists i :: IsLastSetting(ps, id, i) && LastAmountAdjustment(ps[i].adjustments) == LastInitial(ps, id)
  {
    if ps != [] {
      var n := |ps| - 1;
      var init := ps[..n];
      LastInitialIsLast(init, id);
      assert ps == init + [ps[n]];
      if SetsInitialOf(ps[n], id) {
        assert IsLastSetting(ps, id, n);
      } else if LastInitial(init, id).Some? {
        var i :| IsLastSetting(init, id, i) && LastAmountAdjustment(init[i].adjustments) == LastInitial(init, id);
        assert IsLastSetting(ps, id, i);
      }
    }
  }

  // ---- Latest status --------------------------------------------------------------------------

  /** Of this payment, none newer, and stored after every other one of the same time. */
  ghost predicate IsLatest(adjs: Adjustments, id: PaymentId, i: int) {
    && 0 <= i < |adjs| && adjs[i].id.paymentId == id
    && forall j | 0 <= j < |adjs| && adjs[j].id.paymentId == id ::
         adjs[j].createdAt < adjs[i].createdAt || (adjs[j].createdAt == adjs[i].createdAt && j <= i)
  }

  /** ORDER BY created_at DESC, sort_id DESC LIMIT 1: the newest, and the last stored among equals. */
  lemma {:induction false} LatestAdjustmentIsMaximal(adjs: Adjustments, id: PaymentId)
    ensures LatestAdjustment(adjs, id).None? <==> forall a | a in adjs :: a.id.paymentId != id
    ensures LatestAdjustment(adjs, id).Some? ==>
              exists i :: IsLatest(adjs, id, i) && adjs[i] == LatestAdjustment(adjs, id).value
  {
    if adjs != [] {
      var n := |adjs| - 1;
      var init := adjs[..n];
      LatestAdjustmentIsMaximal(init, id);
      assert adjs == init + [adjs[n]];
      if LatestAdjustment(init, id).Some? {
        var i :| IsLatest(init, id, i) && init[i] == LatestAdjustment(init, id).value;
        if LatestAdjustment(adjs, id) == LatestAdjustment(init, id) && adjs[n].id.paymentId != id {
          assert IsLatest(adjs, id, i);
        } else if adjs[n].id.paymentId == id && adjs[n].createdAt < adjs[i].createdAt {
          assert IsLatest(adjs, id, i);
        } else {
          assert IsLatest(adjs, id, n);
        }
      } else if adjs[n].id.paymentId == id {
        assert IsLatest(adjs, id, n);
      }
    }
  }

  /** The listing shows the status of PaymentsGet for exactly the payments that have adjustments. */
  lemma ListingAgreesWithGet(t: Tables, id: PaymentId)
    ensures PaymentsGetStatus(t, id).Some? <==> id in t.payments
    ensures id in PaymentsListStatuses(t) <==>
            id in t.payments && exists a :: a in t.adjustments && a.id.paymentId == id
    ensures id in PaymentsListStatuses(t) ==> PaymentsGetStatus(t, id) == Some(PaymentsListStatuses(t)[id])
    ensures id in t.payments && id !in PaymentsListStatuses(t) ==> PaymentsGetStatus(t, id) == Some(PendingStatus)
  {
    LatestAdjustmentIsMaximal(t.adjustments, id);
  }

  // ---- The columns of a payment ---------------------------------------------------------------

  /** The first entry of a batch with an id. */
  predicate IsFirstEntry(ps: Batch, i: int, id: PaymentId) {
    0 <= i < |ps| && ps[i].id == id && forall j | 0 <= j < i :: ps[j].id != id
  }

  lemma {:induction false} InsertedAsGiven(t: map<PaymentId, PaymentRow>, ps: Batch, i: nat, id: PaymentId)
    requires AllPresent(ps) && IsFirstEntry(ps, i, id) && id !in t
    ensures AmountPresent(ps[i]) && id in InsertPayments(t, ps)
    ensures InsertPayments(t, ps)[id] ==
            PaymentRow(ps[i].connector, ps[i].details, ps[i].initialAmount.value, ps[i].amount.value)
    decreases |ps|
  {
    var n := |ps| - 1;
    assert ps[i] in ps && ps == ps[..n] + [ps[n]];
    if i < n {
      assert forall j | 0 <= j < n :: ps[..n][j] == ps[j];
      InsertedAsGiven(t, ps[..n], i, id);
    } else {
      InsertPaymentsFirstWins(t, t, ps[..n]);
      assert id !in BatchIds(ps[..n]);
    }
  }

  /** What one call sets the initial amount of a payment to, if it was at the given value before. */
  function InitialAfter(ps: Batch, id: PaymentId, before: Amount): Amount {
    if LastInitial(ps, id).Some? then LastInitial(ps, id) else before
  }

  /**
   A payment that is new: the first entry of its id gives connector, details and amounts; then the last
   AMOUNT_ADJUSTMENT of the batch sets the initial amount, and the adjustments stored move the amount.
   */
  lemma NewPaymentOutcome(key: AdjustmentId -> string, now: Time, t: Tables, ps: Batch, i: nat, id: PaymentId)
    requires Upsert(key, now, t, ps).Ok? && id !in t.payments && IsFirstEntry(ps, i, id)
    ensures var t' := Upsert(key, now, t, ps).value;
            && id in t'.payments && AmountPresent(ps[i])
            && t'.payments[id].connector == ps[i].connector && t'.payments[id].details == ps[i].details
            && Some(t'.payments[id].initialAmount) ==
               (if LastInitial(ps, id).Some? then LastInitial(ps, id) else ps[i].initialAmount)
            && t'.payments[id].amount == ps[i].amount.value + Effects(Within(Inserted(t, ps), BatchIds(ps)), id)
  {
    InsertedAsGiven(t.payments, ps, i, id);
    NetIsEffects(Within(Inserted(t, ps), BatchIds(ps)), id);
  }

  /** A payment that was stored keeps its connector and details; its amounts move in the same way. */
  lemma StoredPaymentOutcome(key: AdjustmentId -> string, now: Time, t: Tables, ps: Batch, id: PaymentId)
    requires Upsert(key, now, t, ps).Ok? && id in t.payments
    ensures var row, t' := t.payments[id], Upsert(key, now, t, ps).value;
            && id in t'.payments
            && t'.payments[id].connector == row.connector && t'.payments[id].details == row.details
            && t'.payments[id].initialAmount ==
               (if LastInitial(ps, id).Some? then LastInitial(ps, id).value else row.initialAmount)
            && t'.payments[id].amount == row.amount + Effects(Within(Inserted(t, ps), BatchIds(ps)), id)
  {
    InsertPaymentsFirstWins(t.payments, t.payments, ps);
    NetIsEffects(Within(Inserted(t, ps), BatchIds(ps)), id);
  }

  /** The payments stored are those stored before and those of the batch. */
  lemma StoredIds(key: AdjustmentId -> string, now: Time, t: Tables, ps: Batch)
    requires Upsert(key, now, t, ps).Ok?
    ensures Upsert(key, now, t, ps).value.payments.Keys == t.payments.Keys + BatchIds(ps)
  {
    InsertPaymentsFirstWins(t.payments, t.payments, ps);
  }

  function FirstEntry(ps: Batch, id: PaymentId): Option<Payment<Amount>> {
    if ps == [] then None
    else
      var first, last := FirstEntry(ps[..|ps| - 1], id), ps[|ps| - 1];
      if first.None? && last.id == id then Some(last) else first
  }

  lemma {:induction false} FirstEntryIsFirst(ps: Batch, id: PaymentId)
    ensures FirstEntry(ps, id).None? <==> id !in BatchIds(ps)
    ensures FirstEntry(ps, id).Some? ==> exists i :: IsFirstEntry(ps, i, id) && ps[i] == FirstEntry(ps, id).value
  {
    if ps != [] {
      var n := |ps| - 1;
      FirstEntryIsFirst(ps[..n], id);
      assert ps == ps[..n] + [ps[n]];
      assert forall j | 0 <= j < n :: ps[..n][j] == ps[j];
      if FirstEntry(ps[..n], id).Some? {
        var i :| IsFirstEntry(ps[..n], i, id) && ps[..n][i] == FirstEntry(ps[..n], id).value;
        assert IsFirstEntry(ps, i, id);
      } else if ps[n].id == id {
        assert forall j | 0 <= j < n :: ps[..n][j] in ps[..n];
        assert IsFirstEntry(ps, n, id);
      }
    }
  }

  predicate Commits(key: AdjustmentId -> string, t: Tables, step: Step) {
    step.UpsertStep? && Upsert(key, step.now, t, step.batch).Ok?
  }

  /** The entry that first inserted a payment in a run, among the batches that committed. */
  function FirstInserted(key: AdjustmentId -> string, steps: seq<Step>, id: PaymentId): Option<Payment<Amount>> {
    if steps == [] then None
    else
      var init, last := steps[..|steps| - 1], steps[|steps| - 1];
      var first := FirstInserted(key, init, id);
      if first.None? && Commits(key, Run(key, EMPTY, init), last) then FirstEntry(last.batch, id) else first
  }

  /** The last AMOUNT_ADJUSTMENT of a payment in a run, among the batches that committed. */
  function LastSet(key: AdjustmentId -> string, steps: seq<Step>, id: PaymentId): Amount {
    if steps == [] then None
    else
      var init, last := steps[..|steps| - 1], steps[|steps| - 1];
      if Commits(key, Run(key, EMPTY, init), last) && LastInitial(last.batch, id).Some?
      then LastInitial(last.batch, id) else LastSet(key, init, id)
  }

  lemma StepKeepsColumns(key: AdjustmentId -> string, t: Tables, step: Step, id: PaymentId)
    requires Commits(key, t, step)
    ensures var t' := Apply(key, t, step);
            && (id in t'.payments <==> id in t.payments || FirstEntry(step.batch, id).Some?)
            && (id in t.payments ==>
                  && t'.payments[id].connector == t.payments[id].connector
                  && t'.payments[id].details == t.payments[id].details
                  && Some(t'.payments[id].initialAmount) ==
                     InitialAfter(step.batch, id, Some(t.payments[id].initialAmount)))
            && (id !in t.payments && id in t'.payments ==>
                  var p := FirstEntry(step.batch, id).value;
                  && t'.payments[id].connector == p.connector && t'.payments[id].details == p.details
                  && Some(t'.payments[id].initialAmount) == InitialAfter(step.batch, id, p.initialAmount))
  {
    StoredIds(key, step.now, t, step.batch);
    FirstEntryIsFirst(step.batch, id);
    if id in t.payments {
      StoredPaymentOutcome(key, step.now, t, step.batch, id);
    } else if FirstEntry(step.batch, id).Some? {
      var i :| IsFirstEntry(step.batch, i, id) && step.batch[i] == FirstEntry(step.batch, id).value;
      NewPaymentOutcome(key, step.now, t, step.batch, i, id);
    }
  }

  /**
   The columns over every run: a payment is stored exactly if a batch that committed has it; connector and
   details are those of its first entry; the initial amount is the last committed AMOUNT_ADJUSTMENT of the
   payment, or else the initial amount of that entry.
   */
  lemma {:induction false} RunsKeepColumns(key: AdjustmentId -> string, steps: seq<Step>, id: PaymentId)
    ensures var t, first := Run(key, EMPTY, steps), FirstInserted(key, steps, id);
            && (id in t.payments <==> first.Some?)
            && (first.Some? ==>
                  && t.payments[id].connector == first.value.connector
                  && t.payments[id].details == first.value.details
                  && Some(t.payments[id].initialAmount) ==
                     (if LastSet(key, steps, id).Some? then LastSet(key, steps, id) else first.value.initialAmount))
    ensures FirstInserted(key, steps, id).None? ==> LastSet(key, steps, id).None?
  {
    if steps != [] {
      var init, last := steps[..|steps| - 1], steps[|steps| - 1];
      RunsKeepColumns(key, init, id);
      if Commits(key, Run(key, EMPTY, init), last) {
        StepKeepsColumns(key, Run(key, EMPTY, init), last, id);
        if id !in BatchIds(last.batch) {
          LastInitialOnlyOfBatch(last.batch, id);
        }
        FirstEntryIsFirst(last.batch, id);
      }
    }
  }

  // ---- The call -------------------------------------------------------------------------------

  /** The rows an insert adds: new ids, each once and as given, and every given id is stored afterwards. */
  lemma {:induction false} NewRowsAreNew(stored: set<AdjustmentId>, adjs: Adjustments)
    ensures var rows := NewRows(stored, adjs);
            && (forall i, j | 0 <= i < j < |rows| :: rows[i].id != rows[j].id)
            && (forall a | a in rows :: a in adjs && a.id !in stored)
            && stored + AdjustmentIds(rows) == stored + AdjustmentIds(adjs)
  {
    NewRowsElements(stored, adjs);
    if adjs != [] {
      var init := adjs[..|adjs| - 1];
      NewRowsAreNew(stored, init);
      var rows := NewRows(stored, init);
      forall i | 0 <= i < |rows| ensures rows[i].id in AdjustmentIds(rows) {
        assert rows[i] in rows;
      }
    }
  }

  /** A new adjustment of the batch whose payment is neither stored nor in the batch. */
  predicate IsOrphan(t: Tables, ps: Batch, a: Adjustment<Amount>) {
    && a in AllAdjustments(ps) && a.id !in AdjustmentIds(t.adjustments)
    && a.id.paymentId !in t.payments && a.id.paymentId !in BatchIds(ps)
  }

  lemma OrphansViolateTheKey(t: Tables, ps: Batch)
    requires AllPresent(ps)
    ensures References(Inserted(t, ps), InsertPayments(t.payments, ps).Keys) <==> forall a :: !IsOrphan(t, ps, a)
  {
    InsertPaymentsFirstWins(t.payments, t.payments, ps);
    NewRowsAreNew(AdjustmentIds(t.adjustments), AllAdjustments(ps));
    if a :| IsOrphan(t, ps, a) {
      assert a.id in AdjustmentIds(AllAdjustments(ps));
      var b :| b in Inserted(t, ps) && b.id == a.id;
    }
    if b :| b in Inserted(t, ps) && b.id.paymentId !in t.payments && b.id.paymentId !in BatchIds(ps) {
      assert IsOrphan(t, ps, b);
    }
  }

  /**
   When a call aborts, and what it adds when it does not: a missing amount and an adjustment without payment
   abort; otherwise the new adjustments are stored after the old ones, each id once.
   */
  lemma UpsertOutcome(key: AdjustmentId -> string, now: Time, t: Tables, ps: Batch)
    requires forall id: AdjustmentId :: key(id) != ""
    ensures var r := Upsert(key, now, t, ps);
            && (r == Err(NotNullViolation) <==> exists p :: p in ps && (p.initialAmount.None? || p.amount.None?))
            && (r == Err(ForeignKeyViolation) <==> AllPresent(ps) && exists a :: IsOrphan(t, ps, a))
            && (r.Err? ==> r.error == NotNullViolation || r.error == ForeignKeyViolation)
            && (r.Ok? ==>
                  && t.adjustments <= r.value.adjustments
                  && AdjustmentIds(r.value.adjustments) ==
                     AdjustmentIds(t.adjustments) + AdjustmentIds(AllAdjustments(ps))
                  && forall i | |t.adjustments| <= i < |r.value.adjustments| ::
                       r.value.adjustments[i] in AllAdjustments(ps) &&
                       r.value.adjustments[i].id !in AdjustmentIds(t.adjustments))
  {
    var inserted := Inserted(t, ps);
    NewRowsAreNew(AdjustmentIds(t.adjustments), AllAdjustments(ps));
    AdjustmentIdsAppend(t.adjustments, inserted);
    PaymentEventKeys(key, now, inserted, PaymentMap(ps));
    if AllPresent(ps) {
      OrphansViolateTheKey(t, ps);
    } else {
      var p :| p in ps && !AmountPresent(p);
    }
  }

  /** The events of new adjustments, in their order: one for each whose payment is in the batch. */
  lemma {:induction false} PaymentEventKeys(key: AdjustmentId -> string, now: Time, adjs: Adjustments,
                                            payments: map<PaymentId, Payment<Amount>>)
    ensures var events := PaymentEvents(key, now, adjs, payments);
            && Outbox.AllNewAt(events, now)
            && (forall e | e in events :: exists a :: a in adjs && e.id.key == key(a.id))
            && (forall a | a in adjs && a.id.paymentId in payments ::
                  Outbox.EventId(key(a.id), Some(payments[a.id.paymentId].connector)) in Outbox.Ids(events))
  {
    if adjs != [] {
      var init, last := adjs[..|adjs| - 1], adjs[|adjs| - 1];
      PaymentEventKeys(key, now, init, payments);
      assert adjs == init + [last];
      var before := PaymentEvents(key, now, init, payments);
      if last.id.paymentId in payments {
        var event := PaymentEvent(key, now, last.id, payments[last.id.paymentId].connector);
        assert Outbox.Ids(before + [event]) == Outbox.Ids(before) + {event.id};
      }
    }
  }

  /** After a commit the event of a new adjustment of a payment of the batch, if not known, waits to be published. */
  lemma NewAdjustmentWaits(key: AdjustmentId -> string, now: Time, t: Tables, ps: Batch, a: Adjustment<Amount>)
    requires Upsert(key, now, t, ps).Ok? && a in Inserted(t, ps) && a.id.paymentId in PaymentMap(ps)
    ensures var id := Outbox.EventId(key(a.id), Some(PaymentMap(ps)[a.id.paymentId].connector));
            id !in Outbox.Known(t.outbox) ==>
              Outbox.Event(id, now, Outbox.Pending, 0) in Upsert(key, now, t, ps).value.outbox.rows
  {
    var events := PaymentEvents(key, now, Inserted(t, ps), PaymentMap(ps));
    var id := Outbox.EventId(key(a.id), Some(PaymentMap(ps)[a.id.paymentId].connector));
    PaymentEventKeys(key, now, Inserted(t, ps), PaymentMap(ps));
    if id !in Outbox.Known(t.outbox) {
      Outbox.InsertedEventWaits(t.outbox, events, now, id);
    }
  }
}
