/**
 Payment initiations and the history of their adjustments (internal/storage/payment_initiations.go):
 plain appends, compare-and-append, and the two notions of the latest adjustment.
 */
module PaymentInitiations {
  import opened Common
  import Outbox

  datatype InitiationId = InitiationId(reference: string, connector: ConnectorId)

  datatype Status =
    | Unknown | WaitingForValidation | Processing | Processed | FailedStatus | Rejected
    | ReverseProcessing | ReverseFailed | Reversed | ScheduledForProcessing

  datatype AdjustmentId = AdjustmentId(initiation: InitiationId, createdAt: Time, status: Status)

  datatype Adjustment = Adjustment(id: AdjustmentId, createdAt: Time, status: Status)

  type Adjustments = seq<Adjustment>

  /** Adjustments are kept in insertion order, which is the order of their sort_id. */
  datatype Tables = Tables(initiations: set<InitiationId>, adjustments: Adjustments, outbox: Outbox.State)

  /** The idempotency keys of the events, as hashes of the ids. */
  datatype Keys = Keys(ofInitiation: InitiationId -> string, ofAdjustment: AdjustmentId -> string)

  function Ids(adjs: Adjustments): set<AdjustmentId> {
    set a | a in adjs :: a.id
  }

  // ---- Selections -----------------------------------------------------------------------------

  /** The adjustments of one initiation, in insertion order. */
  function HistoryOf(adjs: Adjustments, pi: InitiationId): Adjustments {
    if adjs == [] then []
    else
      var init, last := HistoryOf(adjs[..|adjs| - 1], pi), adjs[|adjs| - 1];
      if last.id.initiation == pi then init + [last] else init
  }

  /** ORDER BY created_at DESC, sort_id DESC LIMIT 1. */
  function Latest(adjs: Adjustments, pi: InitiationId): Option<Adjustment> {
    if adjs == [] then None
    else
      var best, last := Latest(adjs[..|adjs| - 1], pi), adjs[|adjs| - 1];
      if last.id.initiation == pi && (best.None? || best.value.createdAt <= last.createdAt) then Some(last) else best
  }

  /**
   The anti-join of the status filter: the positions of rows for which no row of the same initiation
   has a greater sort_id.
   */
  function Current(adjs: Adjustments, pi: InitiationId): set<int> {
    set i | 0 <= i < |adjs| && adjs[i].id.initiation == pi &&
            !exists j | i < j < |adjs| :: adjs[j].id.initiation == pi
  }

  predicate HasStatus(adjs: Adjustments, pi: InitiationId, status: Status) {
    exists i | i in Current(adjs, pi) :: adjs[i].status == status
  }

  // ---- Events ---------------------------------------------------------------------------------

  function InitiationEvent(keys: Keys, now: Time, pi: InitiationId): Outbox.Event {
    Outbox.Event(Outbox.EventId(keys.ofInitiation(pi), Some(pi.connector)), now, Outbox.Pending, 0)
  }

  function AdjustmentEvent(keys: Keys, now: Time, a: Adjustment): Outbox.Event {
    Outbox.Event(Outbox.EventId(keys.ofAdjustment(a.id), Some(a.id.initiation.connector)), now, Outbox.Pending, 0)
  }

  // ---- Calls ----------------------------------------------------------------------------------

  /** INSERT ... ON CONFLICT (id) DO NOTHING RETURNING *. */
  function NewRows(stored: set<AdjustmentId>, adjs: Adjustments): Adjustments {
    if adjs == [] then []
    else
      var rows, last := NewRows(stored, adjs[..|adjs| - 1]), adjs[|adjs| - 1];
      if last.id in stored || last.id in Ids(rows) then rows else rows + [last]
  }

  predicate Referenced(adjs: Adjustments, initiations: set<InitiationId>) {
    forall a | a in adjs :: a.id.initiation in initiations
  }

  function AdjustmentEvents(keys: Keys, now: Time, adjs: Adjustments): seq<Outbox.Event> {
    seq(|adjs|, i requires 0 <= i < |adjs| => AdjustmentEvent(keys, now, adjs[i]))
  }

  /** The initiation must be new; its adjustments are inserted first-wins, with an event for each. */
  function Insert(keys: Keys, now: Time, t: Tables, pi: InitiationId, adjs: Adjustments): Result<Tables> {
    if pi in t.initiations then Err(DuplicateKey)
    else
      var initiations, inserted := t.initiations + {pi}, NewRows(Ids(t.adjustments), adjs);
      if !Referenced(inserted, initiations) then Err(ForeignKeyViolation)
      else
        match Outbox.Insert(t.outbox, [InitiationEvent(keys, now, pi)] + AdjustmentEvents(keys, now, inserted))
        case Err(error) => Err(error)
        case Ok(outbox) => Ok(Tables(initiations, t.adjustments + inserted, outbox))
  }

  /** Appends the adjustment and its event unless its id is stored; says whether it did. */
  function Append(keys: Keys, now: Time, t: Tables, a: Adjustment): Result<(Tables, bool)> {
    if a.id in Ids(t.adjustments) then Ok((t, false))
    else if a.id.initiation !in t.initiations then Err(ForeignKeyViolation)
    else
      match Outbox.Insert(t.outbox, [AdjustmentEvent(keys, now, a)])
      case Err(error) => Err(error)
      case Ok(outbox) => Ok((Tables(t.initiations, t.adjustments + [a], outbox), true))
  }

  function UpsertIfPredicate(keys: Keys, now: Time, t: Tables, a: Adjustment,
                             acceptable: Adjustment -> bool): Result<(Tables, bool)>
  {
    match Latest(t.adjustments, a.id.initiation)
    case None => Err(NotFound)
    case Some(previous) =>
      if !acceptable(previous) then Ok((t, false)) else Append(keys, now, t, a)
  }

  /** The predicate of the activity: the previous status is none of the unacceptable ones. */
  function StatusNotIn(unacceptable: seq<Status>): Adjustment -> bool {
    (a: Adjustment) => a.status !in unacceptable
  }
}
