/**
 PaymentsUpsert over heap-allocated amounts (internal/storage/payments.go:72-292), statement by
 statement. Each method is proved against the functions of module Ledger; the frames say that no
 amount of the caller, and no amount of an inserted adjustment, is ever written.
 */
module PaymentStore {
  import opened Common
  import opened BigInts
  import opened Accumulators
  import opened Ledger
  import LedgerTheorems
  import Outbox
  import OutboxStore

  type AdjustmentRef = Adjustment<BigInt?>
  type PaymentRef = Payment<BigInt?>
  type Values = seq<Adjustment<Amount>>
  type Rows = Accumulator<PaymentId>

  // ---- References and the values they show ----------------------------------------------------

  ghost function Objects(adjs: seq<AdjustmentRef>): set<BigInt?> {
    set i | 0 <= i < |adjs| :: adjs[i].amount
  }

  ghost predicate ShowsOne(a: AdjustmentRef, value: Adjustment<Amount>)
    reads a.amount
  {
    value.id == a.id && value.createdAt == a.createdAt && value.status == a.status && value.amount == Value(a.amount)
  }

  ghost predicate Shows(adjs: seq<AdjustmentRef>, values: Values)
    reads Objects(adjs)
  {
    |adjs| == |values| && forall i | 0 <= i < |adjs| :: ShowsOne(adjs[i], values[i])
  }

  ghost function PaymentObjects(p: PaymentRef): set<BigInt?> {
    {p.initialAmount, p.amount} + Objects(p.adjustments)
  }

  ghost predicate ShowsPayment(p: PaymentRef, value: Payment<Amount>)
    reads PaymentObjects(p)
  {
    && value.id == p.id && value.connector == p.connector && value.details == p.details
    && value.initialAmount == Value(p.initialAmount) && value.amount == Value(p.amount)
    && Shows(p.adjustments, value.adjustments)
  }

  ghost function BatchObjects(ps: seq<PaymentRef>): set<BigInt?> {
    set i, o | 0 <= i < |ps| && o in PaymentObjects(ps[i]) :: o
  }

  ghost predicate ShowsBatch(ps: seq<PaymentRef>, batch: seq<Payment<Amount>>)
    reads BatchObjects(ps)
  {
    |ps| == |batch| && forall i | 0 <= i < |ps| :: ShowsPayment(ps[i], batch[i])
  }

  // ---- Inserting with ON CONFLICT DO NOTHING --------------------------------------------------

  method InsertPaymentRows(t: map<PaymentId, PaymentRow>, ps: seq<PaymentRef>, ghost batch: seq<Payment<Amount>>)
    returns (r: Result<map<PaymentId, PaymentRow>>)
    requires ShowsBatch(ps, batch)
    ensures r == if AllPresent(batch) then Ok(InsertPayments(t, batch)) else Err(NotNullViolation)
  {
    var rows := t;
    for i := 0 to |ps|
      invariant AllPresent(batch[..i])
      invariant rows == InsertPayments(t, batch[..i])
    {
      var p := ps[i];
      assert ShowsPayment(p, batch[i]);
      assert batch[..i + 1][..i] == batch[..i];
      if p.initialAmount == null || p.amount == null {
        assert batch[i] in batch;
        return Err(NotNullViolation);
      }
      if p.id !in rows {
        rows := rows[p.id := PaymentRow(p.connector, p.details, p.initialAmount.value, p.amount.value)];
      }
    }
    assert batch[..|ps|] == batch;
    return Ok(rows);
  }

  /** A copy of an adjustment, whose amount is shared with nothing. */
  method CopyAdjustment(a: AdjustmentRef, ghost value: Adjustment<Amount>) returns (row: AdjustmentRef)
    requires ShowsOne(a, value)
    ensures ShowsOne(row, value)
    ensures row.amount == null || fresh(row.amount)
  {
    var amount: BigInt? := null;
    if a.amount != null {
      amount := BigInt.Copy(a.amount);
    }
    row := a.(amount := amount);
  }

  method AppendCopies(rows: seq<AdjustmentRef>, ghost shown: Values, adjs: seq<AdjustmentRef>, ghost values: Values)
    returns (rows': seq<AdjustmentRef>)
    requires Shows(rows, shown) && Shows(adjs, values)
    ensures Shows(rows', shown + values)
    ensures fresh(Objects(rows') - Objects(rows) - {null})
  {
    rows' := rows;
    for i := 0 to |adjs|
      invariant Shows(rows', shown + values[..i])
      invariant fresh(Objects(rows') - Objects(rows) - {null})
    {
      assert ShowsOne(adjs[i], values[i]);
      var row := CopyAdjustment(adjs[i], values[i]);
      rows' := rows' + [row];
    }
  }

  /** The rows to insert: copies, so that no row aliases an amount of the caller. */
  method AdjustmentRows(ps: seq<PaymentRef>, ghost batch: seq<Payment<Amount>>) returns (rows: seq<AdjustmentRef>)
    requires ShowsBatch(ps, batch)
    ensures Shows(rows, AllAdjustments(batch))
    ensures fresh(Objects(rows) - {null})
  {
    rows := [];
    for i := 0 to |ps|
      invariant Shows(rows, AllAdjustments(batch[..i]))
      invariant fresh(Objects(rows) - {null})
    {
      assert ShowsPayment(ps[i], batch[i]);
      assert batch[..i + 1][..i] == batch[..i];
      rows := AppendCopies(rows, AllAdjustments(batch[..i]), ps[i].adjustments, batch[i].adjustments);
    }
    assert batch[..|ps|] == batch;
  }

  lemma ShownIds(adjs: seq<AdjustmentRef>, values: Values)
    requires Shows(adjs, values)
    ensures AdjustmentIds(adjs) == AdjustmentIds(values)
  {
    forall a | a in adjs ensures a.id in AdjustmentIds(values) {
      var i :| 0 <= i < |adjs| && adjs[i] == a;
      assert values[i].id == a.id;
    }
    forall v | v in values ensures v.id in AdjustmentIds(adjs) {
      var i :| 0 <= i < |values| && values[i] == v;
      assert adjs[i].id == v.id;
    }
  }

  /** INSERT ... ON CONFLICT (id) DO NOTHING RETURNING *, scanned into new structures. */
  method InsertAdjustmentRows(stored: set<AdjustmentId>, rows: seq<AdjustmentRef>, ghost values: Values)
    returns (inserted: seq<AdjustmentRef>)
    requires Shows(rows, values)
    ensures Shows(inserted, NewRows(stored, values))
    ensures fresh(Objects(inserted) - {null})
  {
    inserted := [];
    for i := 0 to |rows|
      invariant Shows(inserted, NewRows(stored, values[..i]))
      invariant fresh(Objects(inserted) - {null})
    {
      assert values[..i + 1][..i] == values[..i];
      assert ShowsOne(rows[i], values[i]);
      ShownIds(inserted, NewRows(stored, values[..i]));
      if rows[i].id !in stored && rows[i].id !in AdjustmentIds(inserted) {
        var row := CopyAdjustment(rows[i], values[i]);
        inserted := inserted + [row];
      }
    }
    assert values[..|rows|] == values;
  }

  method BuildPaymentMap(ps: seq<PaymentRef>) returns (m: map<PaymentId, PaymentRef>)
    ensures m == PaymentMap(ps)
  {
    m := map[];
    for i := 0 to |ps|
      invariant m == PaymentMap(ps[..i])
    {
      assert ps[..i + 1][..i] == ps[..i];
      m := m[ps[i].id := ps[i]];
    }
    assert ps[..|ps|] == ps;
  }

  // ---- Accumulating deltas --------------------------------------------------------------------

  /** The accumulated amounts of one kind are exactly the totals of the adjustments. */
  ghost predicate AreTotals(contents: map<PaymentId, int>, adjs: Values, kind: DeltaKind) {
    forall id :: At(contents, id) == Total(adjs, id, kind)
  }

  predicate Applies(a: Adjustment<Amount>, kind: DeltaKind, ids: set<PaymentId>) {
    a.amount.Some? && a.id.paymentId in ids && Moves(a, kind)
  }

  function WithOneMore(contents: map<PaymentId, int>, a: Adjustment<Amount>, kind: DeltaKind,
                       ids: set<PaymentId>): map<PaymentId, int>
  {
    if Applies(a, kind, ids)
    then contents[a.id.paymentId := At(contents, a.id.paymentId) + a.amount.value] else contents
  }

  lemma TotalsOfOneMore(contents: map<PaymentId, int>, before: Values, a: Adjustment<Amount>, ids: set<PaymentId>,
                        kind: DeltaKind)
    requires AreTotals(contents, Within(before, ids), kind)
    ensures AreTotals(WithOneMore(contents, a, kind, ids), Within(before + [a], ids), kind)
  {
    assert (before + [a])[..|before|] == before;
    var rows := Within(before, ids);
    assert (rows + [a])[..|rows|] == rows;
    forall id ensures At(WithOneMore(contents, a, kind, ids), id) == Total(Within(before + [a], ids), id, kind) {
      assert At(contents, id) == Total(rows, id, kind);
    }
  }

  /**
   One inserted adjustment, for the statement of one kind: skipped without amount, without payment
   in the batch, or when its status moves nothing of this kind. The other statement's rows stay.
   */
  method AddAdjustment(acc: Rows, kind: DeltaKind, adj: AdjustmentRef, paymentMap: map<PaymentId, PaymentRef>,
                       ghost contents: map<PaymentId, int>, ghost value: Adjustment<Amount>,
                       ghost other: Rows, ghost others: map<PaymentId, int>)
    returns (acc': Rows)
    requires adj.id.paymentId in paymentMap ==> paymentMap[adj.id.paymentId].id == adj.id.paymentId
    requires acc.Holds(contents) && other.Holds(others) && acc.Amounts() !! other.Amounts()
    requires ShowsOne(adj, value) && (adj.amount == null || adj.amount !in acc.Amounts())
    modifies acc.Amounts()
    ensures acc'.Holds(WithOneMore(contents, value, kind, paymentMap.Keys))
    ensures fresh(acc'.Amounts() - acc.Amounts())
    ensures other.Holds(others) && acc'.Amounts() !! other.Amounts()
  {
    acc' := acc;
    if adj.amount != null && adj.id.paymentId in paymentMap && Moves(adj, kind) {
      acc' := acc.Add(paymentMap[adj.id.paymentId].id, adj.amount, contents, value.amount.value);
    }
  }

  /** What the two statements' rows are meant to hold. */
  datatype Deltas = Deltas(refunded: map<PaymentId, int>, captured: map<PaymentId, int>)

  ghost predicate AreDeltas(deltas: Deltas, adjs: Values, ids: set<PaymentId>) {
    && AreTotals(deltas.refunded, Within(adjs, ids), RefundDelta) && deltas.refunded.Keys <= ids
    && AreTotals(deltas.captured, Within(adjs, ids), CaptureDelta) && deltas.captured.Keys <= ids
  }

  /** Both statements' rows hold the totals of the adjustments, in amounts that nothing shares. */
  ghost predicate HoldDeltas(refunded: Rows, captured: Rows, deltas: Deltas)
    reads refunded.Amounts(), captured.Amounts()
  {
    refunded.Holds(deltas.refunded) && captured.Holds(deltas.captured) && refunded.Amounts() !! captured.Amounts()
  }

  function BothWithOneMore(deltas: Deltas, a: Adjustment<Amount>, ids: set<PaymentId>): Deltas {
    Deltas(WithOneMore(deltas.refunded, a, RefundDelta, ids), WithOneMore(deltas.captured, a, CaptureDelta, ids))
  }

  method AddToBoth(refunded: Rows, captured: Rows, adj: AdjustmentRef, paymentMap: map<PaymentId, PaymentRef>,
                   ghost deltas: Deltas, ghost value: Adjustment<Amount>)
    returns (refunded': Rows, captured': Rows)
    requires forall id | id in paymentMap :: paymentMap[id].id == id
    requires HoldDeltas(refunded, captured, deltas) && ShowsOne(adj, value)
    requires adj.amount == null || adj.amount !in refunded.Amounts() + captured.Amounts()
    modifies refunded.Amounts(), captured.Amounts()
    ensures HoldDeltas(refunded', captured', BothWithOneMore(deltas, value, paymentMap.Keys))
    ensures fresh(refunded'.Amounts() - refunded.Amounts()) && fresh(captured'.Amounts() - captured.Amounts())
  {
    refunded' :=
      AddAdjustment(refunded, RefundDelta, adj, paymentMap, deltas.refunded, value, captured, deltas.captured);
    ghost var refunds := WithOneMore(deltas.refunded, value, RefundDelta, paymentMap.Keys);
    captured' := AddAdjustment(captured, CaptureDelta, adj, paymentMap, deltas.captured, value, refunded', refunds);
  }

  function DeltasOf(adjs: Values, ids: set<PaymentId>): Deltas {
    if adjs == [] then Deltas(map[], map[])
    else BothWithOneMore(DeltasOf(adjs[..|adjs| - 1], ids), adjs[|adjs| - 1], ids)
  }

  /** Skipping and adding one by one gives, for every payment of the batch, the totals of its adjustments. */
  lemma {:induction false} DeltasAreTotals(adjs: Values, ids: set<PaymentId>)
    ensures AreDeltas(DeltasOf(adjs, ids), adjs, ids)
  {
    if adjs != [] {
      var init, last := adjs[..|adjs| - 1], adjs[|adjs| - 1];
      DeltasAreTotals(init, ids);
      TotalsOfOneMore(DeltasOf(init, ids).refunded, init, last, ids, RefundDelta);
      TotalsOfOneMore(DeltasOf(init, ids).captured, init, last, ids, CaptureDelta);
      assert adjs == init + [last];
    }
  }

  /**
   The loop over the inserted adjustments. Only amounts allocated by the loop are written, and no
   accumulated amount is shared by two rows, of one statement or of both.
   */
  method AccumulateDeltas(inserted: seq<AdjustmentRef>, paymentMap: map<PaymentId, PaymentRef>, ghost values: Values)
    returns (refunded: Rows, captured: Rows)
    requires forall id | id in paymentMap :: paymentMap[id].id == id
    requires Shows(inserted, values)
    ensures HoldDeltas(refunded, captured, DeltasOf(values, paymentMap.Keys))
    ensures fresh(refunded.Amounts()) && fresh(captured.Amounts())
  {
    refunded, captured := Empty(), Empty();
    for i := 0 to |inserted|
      invariant HoldDeltas(refunded, captured, DeltasOf(values[..i], paymentMap.Keys))
      invariant fresh(refunded.Amounts()) && fresh(captured.Amounts())
    {
      assert values[..i + 1][..i] == values[..i];
      assert ShowsOne(inserted[i], values[i]);
      refunded, captured :=
        AddToBoth(refunded, captured, inserted[i], paymentMap, DeltasOf(values[..i], paymentMap.Keys), values[i]);
    }
    assert values[..|inserted|] == values;
  }

  // ---- Initial amounts ------------------------------------------------------------------------

  /** The last AMOUNT_ADJUSTMENT of each payment, and no entry for payments without one. */
  ghost predicate AreInitials(initials: map<PaymentId, int>, ps: seq<Payment<Amount>>) {
    forall id :: LastInitial(ps, id) == if id in initials then Some(initials[id]) else None
  }

  function WithLast(initials: map<PaymentId, int>, id: PaymentId, last: Amount): map<PaymentId, int> {
    if last.Some? then initials[id := last.value] else initials
  }

  lemma InitialsOfOneMore(initials: map<PaymentId, int>, before: seq<Payment<Amount>>, p: Payment<Amount>)
    requires AreInitials(initials, before)
    ensures AreInitials(WithLast(initials, p.id, LastAmountAdjustment(p.adjustments)), before + [p])
  {
    assert (before + [p])[..|before|] == before;
  }

  function AsInitial(a: Adjustment<Amount>): Amount {
    if a.status == AmountAdjustment then a.amount else None
  }

  lemma LastOfOneMore(initials: map<PaymentId, int>, id: PaymentId, before: Values, a: Adjustment<Amount>)
    ensures WithLast(initials, id, LastAmountAdjustment(before + [a])) ==
            WithLast(WithLast(initials, id, LastAmountAdjustment(before)), id, AsInitial(a))
  {
    assert (before + [a])[..|before|] == before;
  }

  /** The inner loop: the adjustments of one payment, in input order. */
  method SetInitialOfPayment(acc: Rows, id: PaymentId, adjs: seq<AdjustmentRef>,
                             ghost initials: map<PaymentId, int>, ghost values: Values)
    returns (acc': Rows)
    requires acc.Holds(initials) && Shows(adjs, values)
    ensures acc'.Holds(WithLast(initials, id, LastAmountAdjustment(values)))
    ensures fresh(acc'.Amounts() - acc.Amounts())
  {
    acc' := acc;
    ghost var current := initials;
    for j := 0 to |adjs|
      invariant acc'.Holds(current) && current == WithLast(initials, id, LastAmountAdjustment(values[..j]))
      invariant fresh(acc'.Amounts() - acc.Amounts())
    {
      assert values[..j + 1] == values[..j] + [values[j]];
      LastOfOneMore(initials, id, values[..j], values[j]);
      var a := adjs[j];
      assert ShowsOne(a, values[j]);
      if a.status != AmountAdjustment || a.amount == null {
        continue;
      }
      acc' := acc'.Put(id, a.amount, current);
      current := current[id := a.amount.value];
    }
    assert values[..|adjs|] == values;
  }

  method InitialAmounts(ps: seq<PaymentRef>, ghost batch: seq<Payment<Amount>>)
    returns (acc: Rows, ghost initials: map<PaymentId, int>)
    requires ShowsBatch(ps, batch)
    ensures acc.Holds(initials) && AreInitials(initials, batch)
    ensures fresh(acc.Amounts())
  {
    acc, initials := Empty(), map[];
    for i := 0 to |ps|
      invariant acc.Holds(initials) && AreInitials(initials, batch[..i])
      invariant fresh(acc.Amounts())
    {
      assert batch[..i + 1] == batch[..i] + [batch[i]];
      assert ShowsPayment(ps[i], batch[i]);
      InitialsOfOneMore(initials, batch[..i], batch[i]);
      acc := SetInitialOfPayment(acc, ps[i].id, ps[i].adjustments, initials, batch[i].adjustments);
      initials := WithLast(initials, ps[i].id, LastAmountAdjustment(batch[i].adjustments));
    }
    assert batch[..|ps|] == batch;
  }

  lemma InitialsOfBatch(initials: map<PaymentId, int>, ps: seq<Payment<Amount>>)
    requires AreInitials(initials, ps)
    ensures initials.Keys <= BatchIds(ps)
  {
    forall id | id in initials ensures id in BatchIds(ps) {
      assert LastInitial(ps, id).Some?;
      if id !in BatchIds(ps) {
        LedgerTheorems.LastInitialOnlyOfBatch(ps, id);
      }
    }
  }

  // ---- The DO UPDATE statements ---------------------------------------------------------------

  function SetOne(row: PaymentRow, initial: int): PaymentRow {
    row.(initialAmount := initial)
  }

  function SetAll(t: map<PaymentId, PaymentRow>, initials: map<PaymentId, int>): map<PaymentId, PaymentRow> {
    map id | id in t :: if id in initials then SetOne(t[id], initials[id]) else t[id]
  }

  function MoveOne(row: PaymentRow, delta: int, kind: DeltaKind): PaymentRow {
    match kind
    case CaptureDelta => row.(amount := row.amount + delta)
    case RefundDelta => row.(amount := row.amount - delta)
  }

  function MoveAll(t: map<PaymentId, PaymentRow>, deltas: map<PaymentId, int>, kind: DeltaKind): map<PaymentId,
                   PaymentRow>
  {
    map id | id in t :: if id in deltas then MoveOne(t[id], deltas[id], kind) else t[id]
  }

  /**
   INSERT ... ON CONFLICT (id) DO UPDATE SET initial_amount = EXCLUDED.initial_amount. The rows have
   distinct ids and are all stored already: the statement is legal and never inserts.
   */
  method UpdateInitialAmounts(t: map<PaymentId, PaymentRow>, acc: Rows, ghost initials: map<PaymentId, int>)
    returns (t': map<PaymentId, PaymentRow>)
    requires acc.Holds(initials) && initials.Keys <= t.Keys
    ensures t' == SetAll(t, initials)
  {
    t' := t;
    for i := 0 to |acc.rows|
      invariant t'.Keys == t.Keys
      invariant forall id | id in t ::
                  t'[id] == if id in acc.seen && acc.seen[id] < i then SetOne(t[id], initials[id]) else t[id]
    {
      var row := acc.rows[i];
      t' := t'[row.id := SetOne(t'[row.id], row.amount.value)];
    }
  }

  /** INSERT ... ON CONFLICT (id) DO UPDATE SET amount = payment.amount +/- EXCLUDED.amount, in the same way. */
  method UpdateAmounts(t: map<PaymentId, PaymentRow>, acc: Rows, kind: DeltaKind, ghost deltas: map<PaymentId, int>)
    returns (t': map<PaymentId, PaymentRow>)
    requires acc.Holds(deltas) && deltas.Keys <= t.Keys
    ensures t' == MoveAll(t, deltas, kind)
  {
    t' := t;
    for i := 0 to |acc.rows|
      invariant t'.Keys == t.Keys
      invariant forall id | id in t ::
                  t'[id] == if id in acc.seen && acc.seen[id] < i then MoveOne(t[id], deltas[id], kind) else t[id]
    {
      var row := acc.rows[i];
      t' := t'[row.id := MoveOne(t'[row.id], row.amount.value, kind)];
    }
  }

  // ---- Outbox events --------------------------------------------------------------------------

  method BuildEvents(key: AdjustmentId -> string, now: Time, inserted: seq<AdjustmentRef>,
                     paymentMap: map<PaymentId, PaymentRef>)
    returns (events: seq<Outbox.Event>)
    ensures events == PaymentEvents(key, now, inserted, paymentMap)
  {
    events := [];
    for i := 0 to |inserted|
      invariant events == PaymentEvents(key, now, inserted[..i], paymentMap)
    {
      assert inserted[..i + 1][..i] == inserted[..i];
      var adj := inserted[i];
      if adj.id.paymentId !in paymentMap {
        continue;
      }
      var payment := paymentMap[adj.id.paymentId];
      events := events + [PaymentEvent(key, now, adj.id, payment.connector)];
    }
    assert inserted[..|inserted|] == inserted;
  }

  ghost predicate MapsAgree<M, N>(m: map<PaymentId, Payment<M>>, m': map<PaymentId, Payment<N>>) {
    m.Keys == m'.Keys && forall id | id in m :: m[id].connector == m'[id].connector
  }

  lemma {:induction false} PaymentMapsAgree<M, N>(ps: seq<Payment<M>>, ps': seq<Payment<N>>)
    requires |ps| == |ps'|
    requires forall i | 0 <= i < |ps| :: ps[i].id == ps'[i].id && ps[i].connector == ps'[i].connector
    ensures MapsAgree(PaymentMap(ps), PaymentMap(ps'))
  {
    if ps != [] {
      PaymentMapsAgree(ps[..|ps| - 1], ps'[..|ps| - 1]);
    }
  }

  /** The events depend on the adjustments' ids and the payments' connectors only. */
  lemma {:induction false} EventsAgree<M, N>(key: AdjustmentId -> string, now: Time, adjs: seq<Adjustment<M>>,
                                             adjs': seq<Adjustment<N>>,
                                             m: map<PaymentId, Payment<M>>, m': map<PaymentId, Payment<N>>)
    requires |adjs| == |adjs'| && MapsAgree(m, m')
    requires forall i | 0 <= i < |adjs| :: adjs[i].id == adjs'[i].id
    ensures PaymentEvents(key, now, adjs, m) == PaymentEvents(key, now, adjs', m')
  {
    if adjs != [] {
      EventsAgree(key, now, adjs[..|adjs| - 1], adjs'[..|adjs| - 1], m, m');
    }
  }

  // ---- The transaction ------------------------------------------------------------------------

  function UpdateAll(rows: map<PaymentId, PaymentRow>, initials: map<PaymentId, int>,
                     deltas: Deltas): map<PaymentId, PaymentRow>
  {
    MoveAll(MoveAll(SetAll(rows, initials), deltas.captured, CaptureDelta), deltas.refunded, RefundDelta)
  }

  lemma UpdateOfRow(rows: map<PaymentId, PaymentRow>, ps: seq<Payment<Amount>>, adjs: Values,
                    initials: map<PaymentId, int>, deltas: Deltas, id: PaymentId)
    requires AreInitials(initials, ps) && AreDeltas(deltas, adjs, BatchIds(ps))
    requires id in rows
    ensures UpdateAll(rows, initials, deltas)[id] ==
            Adjusted(rows[id], LastInitial(ps, id), Net(Within(adjs, BatchIds(ps)), id))
  {
    assert Net(Within(adjs, BatchIds(ps)), id) == At(deltas.captured, id) - At(deltas.refunded, id);
  }

  lemma SameEntries(m: map<PaymentId, PaymentRow>, m': map<PaymentId, PaymentRow>)
    requires m.Keys == m'.Keys && forall id | id in m :: m[id] == m'[id]
    ensures m == m'
  {
  }

  /** The three statements together do what AdjustAll says. */
  lemma UpdatesAreAdjustAll(rows: map<PaymentId, PaymentRow>, ps: seq<Payment<Amount>>, adjs: Values,
                            initials: map<PaymentId, int>, deltas: Deltas)
    requires AreInitials(initials, ps) && AreDeltas(deltas, adjs, BatchIds(ps))
    ensures UpdateAll(rows, initials, deltas) == AdjustAll(rows, ps, Within(adjs, BatchIds(ps)))
  {
    forall id | id in rows
      ensures UpdateAll(rows, initials, deltas)[id] == AdjustAll(rows, ps, Within(adjs, BatchIds(ps)))[id]
    {
      UpdateOfRow(rows, ps, adjs, initials, deltas, id);
    }
    SameEntries(UpdateAll(rows, initials, deltas), AdjustAll(rows, ps, Within(adjs, BatchIds(ps))));
  }

  lemma ShownBatchIds(ps: seq<PaymentRef>, batch: seq<Payment<Amount>>)
    requires ShowsBatch(ps, batch)
    ensures BatchIds(ps) == BatchIds(batch)
  {
    forall p | p in ps ensures p.id in BatchIds(batch) {
      var i :| 0 <= i < |ps| && ps[i] == p;
      assert ShowsPayment(ps[i], batch[i]) && batch[i] in batch;
    }
    forall p | p in batch ensures p.id in BatchIds(ps) {
      var i :| 0 <= i < |batch| && batch[i] == p;
      assert ShowsPayment(ps[i], batch[i]) && ps[i] in ps;
    }
  }

  /** Both loops: the rows of the three DO UPDATE statements. */
  method Accumulate(ps: seq<PaymentRef>, inserted: seq<AdjustmentRef>, paymentMap: map<PaymentId, PaymentRef>,
                    ghost batch: seq<Payment<Amount>>, ghost values: Values)
    returns (refunded: Rows, captured: Rows, initial: Rows, ghost initials: map<PaymentId, int>)
    requires ShowsBatch(ps, batch) && Shows(inserted, values)
    requires forall id | id in paymentMap :: paymentMap[id].id == id
    ensures refunded.Holds(DeltasOf(values, paymentMap.Keys).refunded)
    ensures captured.Holds(DeltasOf(values, paymentMap.Keys).captured)
    ensures initial.Holds(initials) && AreInitials(initials, batch) && initials.Keys <= BatchIds(batch)
  {
    refunded, captured := AccumulateDeltas(inserted, paymentMap, values);
    initial, initials := InitialAmounts(ps, batch);
    InitialsOfBatch(initials, batch);
  }

  /** Accumulates and then runs the three DO UPDATE statements on the payments just inserted. */
  method UpdatePayments(rows: map<PaymentId, PaymentRow>, ps: seq<PaymentRef>, inserted: seq<AdjustmentRef>,
                        paymentMap: map<PaymentId, PaymentRef>, ghost batch: seq<Payment<Amount>>, ghost values: Values)
    returns (rows': map<PaymentId, PaymentRow>)
    requires ShowsBatch(ps, batch) && Shows(inserted, values)
    requires paymentMap == PaymentMap(ps) && BatchIds(batch) <= rows.Keys
    ensures rows' == AdjustAll(rows, batch, Within(values, BatchIds(batch)))
  {
    ShownBatchIds(ps, batch);
    LedgerTheorems.PaymentMapEntries(ps);
    var refunded, captured, initial, initials := Accumulate(ps, inserted, paymentMap, batch, values);
    ghost var deltas := DeltasOf(values, paymentMap.Keys);
    DeltasAreTotals(values, paymentMap.Keys);
    UpdatesAreAdjustAll(rows, batch, values, initials, deltas);
    rows' := UpdateInitialAmounts(rows, initial, initials);
    rows' := UpdateAmounts(rows', captured, CaptureDelta, deltas.captured);
    rows' := UpdateAmounts(rows', refunded, RefundDelta, deltas.refunded);
  }

  /** The columns that the inserted adjustments leave in the table. */
  method ReadRows(adjs: seq<AdjustmentRef>, ghost values: Values) returns (read: Values)
    requires Shows(adjs, values)
    ensures read == values
  {
    read := [];
    for i := 0 to |adjs|
      invariant read == values[..i]
    {
      assert ShowsOne(adjs[i], values[i]);
      assert values[..i + 1] == values[..i] + [values[i]];
      var a := adjs[i];
      read := read + [Adjustment(a.id, a.createdAt, a.status, Value(a.amount))];
    }
    assert values[..|adjs|] == values;
  }

  lemma ShownReferences(adjs: seq<AdjustmentRef>, values: Values, ids: set<PaymentId>)
    requires Shows(adjs, values)
    ensures References(adjs, ids) <==> References(values, ids)
  {
    if References(values, ids) {
      forall a | a in adjs ensures a.id.paymentId in ids {
        var i :| 0 <= i < |adjs| && adjs[i] == a;
        assert ShowsOne(adjs[i], values[i]) && values[i] in values;
      }
    }
    if References(adjs, ids) {
      forall v | v in values ensures v.id.paymentId in ids {
        var i :| 0 <= i < |values| && values[i] == v;
        assert ShowsOne(adjs[i], values[i]) && adjs[i] in adjs;
      }
    }
  }

  /** The copied adjustments, inserted with ON CONFLICT DO NOTHING under the foreign key. */
  method InsertAdjustments(stored: set<AdjustmentId>, ids: set<PaymentId>, toInsert: seq<AdjustmentRef>,
                           ghost values: Values)
    returns (r: Result<seq<AdjustmentRef>>)
    requires Shows(toInsert, values)
    ensures r == Err(ForeignKeyViolation) || r.Ok?
    ensures r.Ok? <==> References(NewRows(stored, values), ids)
    ensures r.Ok? ==> Shows(r.value, NewRows(stored, values))
    ensures r.Ok? ==> fresh(Objects(r.value) - {null})
  {
    var inserted := InsertAdjustmentRows(stored, toInsert, values);
    ShownReferences(inserted, NewRows(stored, values), ids);
    r := if References(inserted, ids) then Ok(inserted) else Err(ForeignKeyViolation);
  }

  lemma SameEvents(key: AdjustmentId -> string, now: Time, ps: seq<PaymentRef>, batch: seq<Payment<Amount>>,
                   inserted: seq<AdjustmentRef>, values: Values)
    requires ShowsBatch(ps, batch) && Shows(inserted, values)
    ensures PaymentEvents(key, now, inserted, PaymentMap(ps)) == PaymentEvents(key, now, values, PaymentMap(batch))
  {
    assert forall i | 0 <= i < |ps| :: ShowsPayment(ps[i], batch[i]);
    assert forall i | 0 <= i < |inserted| :: ShowsOne(inserted[i], values[i]);
    PaymentMapsAgree(ps, batch);
    EventsAgree(key, now, inserted, values, PaymentMap(ps), PaymentMap(batch));
  }

  /** What follows the two inserts: the amounts, then the events. */
  method AmountsAndEvents(key: AdjustmentId -> string, now: Time, rows: map<PaymentId, PaymentRow>, ps: seq<PaymentRef>,
                          inserted: seq<AdjustmentRef>, ghost batch: seq<Payment<Amount>>, ghost values: Values)
    returns (rows': map<PaymentId, PaymentRow>, added: Values, events: seq<Outbox.Event>)
    requires ShowsBatch(ps, batch) && Shows(inserted, values) && BatchIds(batch) <= rows.Keys
    ensures rows' == AdjustAll(rows, batch, Within(values, BatchIds(batch)))
    ensures added == values && events == PaymentEvents(key, now, values, PaymentMap(batch))
  {
    SameEvents(key, now, ps, batch, inserted, values);
    var paymentMap := BuildPaymentMap(ps);
    rows' := UpdatePayments(rows, ps, inserted, paymentMap, batch, values);
    added := ReadRows(inserted, values);
    events := BuildEvents(key, now, inserted, paymentMap);
  }

  class Store {
    var payments: map<PaymentId, PaymentRow>
    var adjustments: seq<Adjustment<Amount>>
    const outbox: OutboxStore.Store

    constructor (outbox: OutboxStore.Store)
      ensures this.outbox == outbox && payments == map[] && adjustments == []
    {
      this.outbox := outbox;
      payments, adjustments := map[], [];
    }

    function State(): Tables
      reads this, outbox
    {
      Tables(payments, adjustments, outbox.Snapshot())
    }

    /**
     Commits exactly the tables that Upsert gives, or leaves them alone. The frame says that no
     big integer of the caller is written.
     */
    method PaymentsUpsert(key: AdjustmentId -> string, now: Time, ps: seq<PaymentRef>,
                          ghost batch: seq<Payment<Amount>>)
      returns (r: Result<()>)
      requires ShowsBatch(ps, batch)
      modifies this, outbox
      ensures r.Ok? ==> Upsert(key, now, old(State()), batch) == Ok(State())
      ensures r.Err? ==> Upsert(key, now, old(State()), batch) == Err(r.error) && State() == old(State())
    {
      var adjustmentsToInsert := AdjustmentRows(ps, batch);
      var rows :- InsertPaymentRows(payments, ps, batch);
      LedgerTheorems.InsertPaymentsFirstWins(payments, payments, batch);
      var inserted :-
        InsertAdjustments(AdjustmentIds(adjustments), rows.Keys, adjustmentsToInsert, AllAdjustments(batch));
      var rows', added, events := AmountsAndEvents(key, now, rows, ps, inserted, batch, Inserted(State(), batch));
      var _ :- outbox.OutboxEventsInsert(events);
      payments := rows';
      adjustments := adjustments + added;
      return Ok(());
    }
  }
}
