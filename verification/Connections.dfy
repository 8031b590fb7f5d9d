/**
 Open-banking connections (internal/storage/open_banking_connections.go): the stored status, the
 events an upsert emits when it disconnects or reconnects, and deletion.
 */
module Connections {
  import opened Common
  import Outbox

  datatype ConnectionKey = ConnectionKey(psu: string, connector: ConnectorId, connection: string)

  datatype Status = Active | Error | OtherStatus(name: string)

  datatype Token = Token(accessToken: string, expiresAt: Time)

  datatype Connection = Connection(
    createdAt: Time, dataUpdatedAt: Time, status: Status, updatedAt: Time, reason: Option<string>,
    metadata: map<string, string>)

  datatype Payload =
    | Disconnected(key: ConnectionKey, at: Time, reason: Option<string>)
    | Reconnected(key: ConnectionKey, at: Time)
    | DataSynced(key: ConnectionKey, at: Time)

  datatype Tables = Tables(
    connections: map<ConnectionKey, Connection>, tokens: map<ConnectionKey, Token>, outbox: Outbox.State)

  /** The row that ON CONFLICT DO UPDATE leaves: status, error, update time and metadata are replaced. */
  function Merge(connections: map<ConnectionKey, Connection>, key: ConnectionKey, from: Connection): Connection {
    if key in connections
    then connections[key].(
      status := from.status, updatedAt := from.updatedAt, reason := from.reason, metadata := from.metadata)
    else from
  }

  predicate WasInError(connections: map<ConnectionKey, Connection>, key: ConnectionKey) {
    key in connections && connections[key].status == Error
  }

  function Emitted(connections: map<ConnectionKey, Connection>, key: ConnectionKey, from: Connection): seq<Payload> {
    if from.status == Error then [Disconnected(key, from.updatedAt, from.reason)]
    else if from.status == Active && WasInError(connections, key) then [Reconnected(key, from.updatedAt)]
    else []
  }

  function EventOf(eventKey: Payload -> string, now: Time, p: Payload): Outbox.Event {
    Outbox.Event(Outbox.EventId(eventKey(p), Some(p.key.connector)), now, Outbox.Pending, 0)
  }

  function EventsOf(eventKey: Payload -> string, now: Time, ps: seq<Payload>): seq<Outbox.Event> {
    seq(|ps|, i requires 0 <= i < |ps| => EventOf(eventKey, now, ps[i]))
  }

  function WithToken(tokens: map<ConnectionKey, Token>, key: ConnectionKey,
                     token: Option<Token>): map<ConnectionKey, Token>
  {
    if token.Some? then tokens[key := token.value] else tokens
  }

  function Upsert(eventKey: Payload -> string, now: Time, t: Tables, key: ConnectionKey, from: Connection,
                  token: Option<Token>): Result<Tables>
  {
    match Outbox.Insert(t.outbox, EventsOf(eventKey, now, Emitted(t.connections, key, from)))
    case Err(error) => Err(error)
    case Ok(outbox) =>
      Ok(Tables(t.connections[key := Merge(t.connections, key, from)], WithToken(t.tokens, key, token), outbox))
  }

  /** The access token of a deleted connection stays. */
  function Delete(t: Tables, key: ConnectionKey): Tables {
    t.(connections := t.connections - {key})
  }

  /** Announced even when the connection does not exist. */
  function UpdateLastDataUpdate(eventKey: Payload -> string, now: Time, t: Tables, key: ConnectionKey,
                                at: Time): Result<Tables>
  {
    match Outbox.Insert(t.outbox, [EventOf(eventKey, now, DataSynced(key, at))])
    case Err(error) => Err(error)
    case Ok(outbox) =>
      Ok(Tables(
        if key in t.connections then t.connections[key := t.connections[key].(dataUpdatedAt := at)] else t.connections,
        t.tokens, outbox))
  }
}
