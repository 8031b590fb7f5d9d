/** The open_banking_connections table as an object. */
module ConnectionStore {
  import opened Common
  import opened Connections
  import Outbox
  import OutboxStore

  class Store {
    var connections: map<ConnectionKey, Connection>
    var tokens: map<ConnectionKey, Token>
    const outbox: OutboxStore.Store

    constructor (outbox: OutboxStore.Store)
      ensures this.outbox == outbox && connections == map[] && tokens == map[]
    {
      this.outbox := outbox;
      connections, tokens := map[], map[];
    }

    function State(): Tables
      reads this, outbox
    {
      Tables(connections, tokens, outbox.Snapshot())
    }

    /** Reads the old status, overwrites the row, and emits at most one event; or rolls back. */
    method OpenBankingConnectionsUpsert(eventKey: Payload -> string, now: Time, key: ConnectionKey, from: Connection,
                                        token: Option<Token>)
      returns (r: Result<()>)
      modifies this, outbox
      ensures r.Ok? ==> Upsert(eventKey, now, old(State()), key, from, token) == Ok(State())
      ensures r.Err? ==>
                Upsert(eventKey, now, old(State()), key, from, token) == Err(r.error) && State() == old(State())
    {
      var begin, beginTokens := connections, tokens;
      var connectionExists := key in connections;
      var existingStatus := if connectionExists then connections[key].status else Active;
      if token.Some? {
        tokens := tokens[key := token.value];
      }
      if connectionExists {
        connections := connections[key := connections[key].(
          status := from.status, updatedAt := from.updatedAt, reason := from.reason, metadata := from.metadata)];
      } else {
        connections := connections[key := from];
      }
      var outboxEvents: seq<Outbox.Event> := [];
      if from.status == Error {
        outboxEvents := outboxEvents + [EventOf(eventKey, now, Disconnected(key, from.updatedAt, from.reason))];
      } else if from.status == Active && connectionExists && existingStatus == Error {
        outboxEvents := outboxEvents + [EventOf(eventKey, now, Reconnected(key, from.updatedAt))];
      }
      assert outboxEvents == EventsOf(eventKey, now, Emitted(begin, key, from));
      var inserted := outbox.OutboxEventsInsert(outboxEvents);
      if inserted.Err? {
        connections, tokens := begin, beginTokens;
        return Err(inserted.error);
      }
      return Ok(());
    }

    method OpenBankingConnectionsUpdateLastDataUpdate(eventKey: Payload -> string, now: Time, key: ConnectionKey,
                                                      updatedAt: Time)
      returns (r: Result<()>)
      modifies this, outbox
      ensures r.Ok? ==> UpdateLastDataUpdate(eventKey, now, old(State()), key, updatedAt) == Ok(State())
      ensures r.Err? ==>
                && UpdateLastDataUpdate(eventKey, now, old(State()), key, updatedAt) == Err(r.error)
                && State() == old(State())
    {
      var _ :- outbox.OutboxEventsInsert([EventOf(eventKey, now, DataSynced(key, updatedAt))]);
      if key in connections {
        connections := connections[key := connections[key].(dataUpdatedAt := updatedAt)];
      }
      return Ok(());
    }

    method OpenBankingConnectionsDelete(key: ConnectionKey)
      modifies this
      ensures State() == Delete(old(State()), key)
    {
      connections := connections - {key};
    }
  }
}
