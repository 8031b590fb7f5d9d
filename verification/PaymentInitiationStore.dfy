/** The initiation tables as an object. */
module PaymentInitiationStore {
  import opened Common
  import opened PaymentInitiations
  import Outbox
  import OutboxStore

  class Store {
    var initiations: set<InitiationId>
    var adjustments: Adjustments
    const outbox: OutboxStore.Store

    constructor (outbox: OutboxStore.Store)
      ensures this.outbox == outbox && initiations == {} && adjustments == []
    {
      this.outbox := outbox;
      initiations, adjustments := {}, [];
    }

    function State(): Tables
      reads this, outbox
    {
      Tables(initiations, adjustments, outbox.Snapshot())
    }

    /** INSERT ... ON CONFLICT (id) DO NOTHING RETURNING *. */
    method InsertAdjustments(adjs: Adjustments) returns (inserted: Adjustments)
      ensures inserted == NewRows(Ids(adjustments), adjs)
    {
      inserted := [];
      for i := 0 to |adjs|
        invariant inserted == NewRows(Ids(adjustments), adjs[..i])
      {
        assert adjs[..i + 1][..i] == adjs[..i];
        if adjs[i].id !in Ids(adjustments) && adjs[i].id !in Ids(inserted) {
          inserted := inserted + [adjs[i]];
        }
      }
      assert adjs[..|adjs|] == adjs;
    }

    method PaymentInitiationsInsert(keys: Keys, now: Time, pi: InitiationId, adjs: Adjustments) returns (r: Result<()>)
      modifies this, outbox
      ensures r.Ok? ==> Insert(keys, now, old(State()), pi, adjs) == Ok(State())
      ensures r.Err? ==> Insert(keys, now, old(State()), pi, adjs) == Err(r.error) && State() == old(State())
    {
      if pi in initiations {
        return Err(DuplicateKey);
      }
      var outboxEvents := [InitiationEvent(keys, now, pi)];
      var inserted := InsertAdjustments(adjs);
      if !Referenced(inserted, initiations + {pi}) {
        return Err(ForeignKeyViolation);
      }
      for i := 0 to |inserted|
        invariant outboxEvents == [InitiationEvent(keys, now, pi)] + AdjustmentEvents(keys, now, inserted[..i])
      {
        outboxEvents := outboxEvents + [AdjustmentEvent(keys, now, inserted[i])];
      }
      assert inserted[..|inserted|] == inserted;
      var _ :- outbox.OutboxEventsInsert(outboxEvents);
      initiations := initiations + {pi};
      adjustments := adjustments + inserted;
      return Ok(());
    }

    /** The row and its event, or neither. */
    method InsertAdjustment(keys: Keys, now: Time, adj: Adjustment) returns (r: Result<bool>)
      modifies this, outbox
      ensures r.Ok? ==> Append(keys, now, old(State()), adj) == Ok((State(), r.value))
      ensures r.Err? ==> Append(keys, now, old(State()), adj) == Err(r.error) && State() == old(State())
    {
      if adj.id in Ids(adjustments) {
        return Ok(false);
      }
      if adj.id.initiation !in initiations {
        return Err(ForeignKeyViolation);
      }
      var _ :- outbox.OutboxEventsInsert([AdjustmentEvent(keys, now, adj)]);
      adjustments := adjustments + [adj];
      return Ok(true);
    }

    method PaymentInitiationAdjustmentsUpsert(keys: Keys, now: Time, adj: Adjustment) returns (r: Result<()>)
      modifies this, outbox
      ensures r.Ok? ==> exists changed :: Append(keys, now, old(State()), adj) == Ok((State(), changed))
      ensures r.Err? ==> Append(keys, now, old(State()), adj) == Err(r.error) && State() == old(State())
    {
      var _ :- InsertAdjustment(keys, now, adj);
      return Ok(());
    }

    method PaymentInitiationAdjustmentsUpsertIfPredicate(keys: Keys, now: Time, adj: Adjustment,
                                                         acceptable: Adjustment -> bool)
      returns (r: Result<bool>)
      modifies this, outbox
      ensures r.Ok? ==> UpsertIfPredicate(keys, now, old(State()), adj, acceptable) == Ok((State(), r.value))
      ensures r.Err? ==>
                UpsertIfPredicate(keys, now, old(State()), adj, acceptable) == Err(r.error) && State() == old(State())
    {
      var previousAdj := Latest(adjustments, adj.id.initiation);
      if previousAdj.None? {
        return Err(NotFound);
      }
      if !acceptable(previousAdj.value) {
        return Ok(false);
      }
      r := InsertAdjustment(keys, now, adj);
    }
  }
}
