/**
 The payment ledger as pure values: the payments and payment_adjustments tables and the effect of one
 call of PaymentsUpsert (internal/storage/payments.go). Entities are generic in the representation
 of an amount: optional integers here, references to big integers in the imperative store.
 */
module Ledger {
  import opened Common
  import Outbox

  datatype PaymentId = PaymentId(reference: string, paymentType: string, connector: ConnectorId)

  datatype PaymentStatus =
    | UnknownStatus | PendingStatus | Succeeded | Cancelled | FailedStatus | Expired
    | Refunded | RefundedFailure | RefundReversed
    | Dispute | DisputeWon | DisputeLost
    | AmountAdjustment | Authorisation | Capture | CaptureFailed | OtherStatus

  datatype AdjustmentId = AdjustmentId(
    paymentId: PaymentId, reference: string, createdAt: Time, status: PaymentStatus)

  datatype Adjustment<+N> = Adjustment(id: AdjustmentId, createdAt: Time, status: PaymentStatus, amount: N)

  /** The details stand for the columns that an upsert inserts but never changes. */
  datatype Payment<+N> = Payment(
    id: PaymentId, connector: ConnectorId, details: string,
    initialAmount: N, amount: N, adjustments: seq<Adjustment<N>>)

  type Amount = Option<int>

  datatype PaymentRow = PaymentRow(connector: ConnectorId, details: string, initialAmount: int, amount: int)

  /** Adjustments are kept in insertion order, which is the order of their sort_id. */
  datatype Tables = Tables(
    payments: map<PaymentId, PaymentRow>,
    adjustments: seq<Adjustment<Amount>>,
    outbox: Outbox.State)

  // ---- Reading a batch ------------------------------------------------------------------------

  function BatchIds<N(==)>(ps: seq<Payment<N>>): set<PaymentId> {
    set p | p in ps :: p.id
  }

  function AllAdjustments<N>(ps: seq<Payment<N>>): seq<Adjustment<N>> {
    if ps == [] then [] else AllAdjustments(ps[..|ps| - 1]) + ps[|ps| - 1].adjustments
  }

  function AdjustmentIds<N(==)>(adjs: seq<Adjustment<N>>): set<AdjustmentId> {
    set a | a in adjs :: a.id
  }

  /** The Go map from id to payment: the last entry with an id wins. */
  function PaymentMap<N>(ps: seq<Payment<N>>): map<PaymentId, Payment<N>> {
    if ps == [] then map[] else PaymentMap(ps[..|ps| - 1])[ps[|ps| - 1].id := ps[|ps| - 1]]
  }

  predicate AmountPresent(p: Payment<Amount>) {
    p.initialAmount.Some? && p.amount.Some?
  }

  predicate AllPresent(ps: seq<Payment<Amount>>) {
    forall p | p in ps :: AmountPresent(p)
  }

  // ---- Statements -----------------------------------------------------------------------------

  function RowOf(p: Payment<Amount>): PaymentRow
    requires AmountPresent(p)
  {
    PaymentRow(p.connector, p.details, p.initialAmount.value, p.amount.value)
  }

  /** INSERT INTO payments ... ON CONFLICT (id) DO NOTHING. */
  function InsertPayments(t: map<PaymentId, PaymentRow>, ps: seq<Payment<Amount>>): map<PaymentId, PaymentRow>
    requires AllPresent(ps)
  {
    if ps == [] then t
    else
      var done, last := InsertPayments(t, ps[..|ps| - 1]), ps[|ps| - 1];
      if last.id in done then done else done[last.id := RowOf(last)]
  }

  /** The rows that INSERT INTO payment_adjustments ... ON CONFLICT (id) DO NOTHING RETURNING * gives. */
  function NewRows<N(==)>(stored: set<AdjustmentId>, adjs: seq<Adjustment<N>>): seq<Adjustment<N>> {
    if adjs == [] then []
    else
      var rows, last := NewRows(stored, adjs[..|adjs| - 1]), adjs[|adjs| - 1];
      if last.id in stored || last.id in AdjustmentIds(rows) then rows else rows + [last]
  }

  predicate References<N(==)>(adjs: seq<Adjustment<N>>, ids: set<PaymentId>) {
    forall a | a in adjs :: a.id.paymentId in ids
  }

  // ---- Amounts --------------------------------------------------------------------------------

  datatype DeltaKind = RefundDelta | CaptureDelta

  predicate Moves<N>(a: Adjustment<N>, kind: DeltaKind) {
    match kind
    case RefundDelta => a.status == Refunded
    case CaptureDelta => a.status == Capture || a.status == RefundReversed
  }

  /** The sum of the amounts of one kind that adjustments move on a payment; nil counts zero. */
  function Total(adjs: seq<Adjustment<Amount>>, id: PaymentId, kind: DeltaKind): int {
    if adjs == [] then 0
    else
      var last := adjs[|adjs| - 1];
      Total(adjs[..|adjs| - 1], id, kind) +
      if last.id.paymentId == id && last.amount.Some? && Moves(last, kind) then last.amount.value else 0
  }

  function Net(adjs: seq<Adjustment<Amount>>, id: PaymentId): int {
    Total(adjs, id, CaptureDelta) - Total(adjs, id, RefundDelta)
  }

  /** The adjustments whose payment is (or is not) among the given ids. */
  function Within(adjs: seq<Adjustment<Amount>>, ids: set<PaymentId>): seq<Adjustment<Amount>> {
    if adjs == [] then []
    else
      var init, last := Within(adjs[..|adjs| - 1], ids), adjs[|adjs| - 1];
      if last.id.paymentId in ids then init + [last] else init
  }

  function Strays(adjs: seq<Adjustment<Amount>>, ids: set<PaymentId>): seq<Adjustment<Amount>> {
    if adjs == [] then []
    else
      var init, last := Strays(adjs[..|adjs| - 1], ids), adjs[|adjs| - 1];
      if last.id.paymentId in ids then init else init + [last]
  }

  function LastAmountAdjustment(adjs: seq<Adjustment<Amount>>): Amount {
    if adjs == [] then None
    else
      var last := adjs[|adjs| - 1];
      if last.status == AmountAdjustment && last.amount.Some? then last.amount
      else LastAmountAdjustment(adjs[..|adjs| - 1])
  }

  /** The last AMOUNT_ADJUSTMENT, in input order, of the payments with the given id. */
  function LastInitial(ps: seq<Payment<Amount>>, id: PaymentId): Amount {
    if ps == [] then None
    else
      var last := ps[|ps| - 1];
      var own := if last.id == id then LastAmountAdjustment(last.adjustments) else None;
      if own.Some? then own else LastInitial(ps[..|ps| - 1], id)
  }

  function OrElse(a: Amount, default: int): int {
    if a.Some? then a.value else default
  }

  function Adjusted(row: PaymentRow, initial: Amount, net: int): PaymentRow {
    row.(initialAmount := OrElse(initial, row.initialAmount), amount := row.amount + net)
  }

  /** What the three ON CONFLICT (id) DO UPDATE statements leave in the payments table. */
  function AdjustAll(rows: map<PaymentId, PaymentRow>, ps: seq<Payment<Amount>>,
                     counted: seq<Adjustment<Amount>>): map<PaymentId, PaymentRow> {
    map id | id in rows :: Adjusted(rows[id], LastInitial(ps, id), Net(counted, id))
  }

  // ---- The call -------------------------------------------------------------------------------

  /** One pending event per inserted adjustment, under the connector of its payment. */
  function PaymentEvents<N>(key: AdjustmentId -> string, now: Time, adjs: seq<Adjustment<N>>,
                            payments: map<PaymentId, Payment<N>>): seq<Outbox.Event> {
    if adjs == [] then []
    else
      var init, last := PaymentEvents(key, now, adjs[..|adjs| - 1], payments), adjs[|adjs| - 1];
      if last.id.paymentId in payments
      then init + [PaymentEvent(key, now, last.id, payments[last.id.paymentId].connector)]
      else init
  }

  function PaymentEvent(key: AdjustmentId -> string, now: Time, id: AdjustmentId,
                        connector: ConnectorId): Outbox.Event
  {
    Outbox.Event(Outbox.EventId(key(id), Some(connector)), now, Outbox.Pending, 0)
  }

  function Inserted(t: Tables, ps: seq<Payment<Amount>>): seq<Adjustment<Amount>> {
    NewRows(AdjustmentIds(t.adjustments), AllAdjustments(ps))
  }

  function Upsert(key: AdjustmentId -> string, now: Time, t: Tables, ps: seq<Payment<Amount>>): Result<Tables> {
    if !AllPresent(ps) then Err(NotNullViolation)
    else
      var rows := InsertPayments(t.payments, ps);
      var inserted := Inserted(t, ps);
      if !References(inserted, rows.Keys) then Err(ForeignKeyViolation)
      else
        match Outbox.Insert(t.outbox, PaymentEvents(key, now, inserted, PaymentMap(ps)))
        case Err(error) => Err(error)
        case Ok(outbox) =>
          var counted := Within(inserted, BatchIds(ps));
          Ok(Tables(AdjustAll(rows, ps, counted), t.adjustments + inserted, outbox))
  }

  // ---- Latest status --------------------------------------------------------------------------

  /** ORDER BY created_at DESC, sort_id DESC LIMIT 1 among the adjustments of a payment. */
  function LatestAdjustment(adjs: seq<Adjustment<Amount>>, id: PaymentId): Option<Adjustment<Amount>> {
    if adjs == [] then None
    else
      var best, last := LatestAdjustment(adjs[..|adjs| - 1], id), adjs[|adjs| - 1];
      if last.id.paymentId == id && (best.None? || best.value.createdAt <= last.createdAt) then Some(last) else best
  }

  function PaymentsGetStatus(t: Tables, id: PaymentId): Option<PaymentStatus> {
    if id !in t.payments then None
    else
      match LatestAdjustment(t.adjustments, id)
      case Some(a) => Some(a.status)
      case None => Some(PendingStatus)
  }

  /** The inner lateral join of PaymentsList: payments without adjustments are not listed. */
  function PaymentsListStatuses(t: Tables): map<PaymentId, PaymentStatus> {
    map id | id in t.payments && LatestAdjustment(t.adjustments, id).Some? ::
      LatestAdjustment(t.adjustments, id).value.status
  }
}
