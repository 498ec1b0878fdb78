/**
 One browser and the gateway: the hub and the client as they are written, joined by a
 connection that delivers in order and may break, are the machine of EventStream.
 */
module EventLinks {
  import opened Wrappers
  import opened EventStream
  import opened EventHub
  import opened EventStreamClient

  /** The ids of what a client has handed on; word of a restored connection has none. */
  function Ids(handedOn: seq<Data>): seq<EventId>
    decreases |handedOn|
  {
    if handedOn == [] then []
    else
      var before, last := Ids(handedOn[..|handedOn| - 1]), handedOn[|handedOn| - 1];
      if last.Data? && last.id.Some? then before + [last.id.value] else before
  }

  lemma IdsOne(handedOn: seq<Data>, data: Data)
    ensures Ids(handedOn + [data])
         == if data.Data? && data.id.Some? then Ids(handedOn) + [data.id.value] else Ids(handedOn)
  {
    assert (handedOn + [data])[..|handedOn|] == handedOn;
  }

  lemma RunOne(es: seq<Event>, e: Event)
    ensures Run(es + [e]) == Step(Run(es), e)
  {
    assert (es + [e])[..|es|] == es;
  }

  class Link {
    const hub: Hub
    const client: Client
    // The gateway's name for the connection, and how much of what was written to it is read.
    var connection: nat
    var read: nat
    ghost var log: seq<EventId>
    ghost var position: int
    ghost var happened: seq<Event>

    /** What was written to the open connection and has not been read. */
    ghost function Pipe(): seq<EventId>
      reads this, hub, client
    {
      if client.eventSource.Some? && connection in hub.clients && read <= |hub.clients[connection]|
      then hub.clients[connection][read..] else []
    }

    ghost function Machine(): World
      reads this, hub, client
    {
      World(log, hub.recentEventBuffer, client.eventSource.Some?, Pipe(), client.lastEventId,
            Ids(client.handedOn), position)
    }

    ghost predicate Valid()
      reads this, hub, client
    {
      && client.Valid() && |hub.recentEventBuffer| <= CAPACITY
      && (client.eventSource.Some? ==> connection in hub.clients && read <= |hub.clients[connection]|)
      && Machine() == Run(happened)
    }

    constructor (hub: Hub, client: Client)
      requires hub.recentEventBuffer == []
      requires client.Valid() && client.eventSource.None? && client.lastEventId.None? && client.handedOn == []
      ensures Valid() && this.hub == hub && this.client == client && happened == []
    {
      this.hub, this.client := hub, client;
      connection, read := 0, 0;
      log, position, happened := [], 0, [];
    }

    /** Any event of the gateway; the other connections that it finds broken are forgotten. */
    method Broadcast(given: Option<EventId>, now: int, broken: set<nat>) returns (id: EventId)
      requires Valid() && connection !in broken
      modifies this, hub
      ensures Valid() && happened == old(happened) + [EventStream.Broadcast(id)]
    {
      id := hub.BroadcastSSEEvent(given, now, broken);
      RunOne(happened, EventStream.Broadcast(id));
      log := log + [id];
      happened := happened + [EventStream.Broadcast(id)];
    }

    /** The client connects, and the gateway resumes from the cursor in the URL. */
    method Connect(slot: nat, now: int)
      requires Valid() && client.eventSource.None? && slot !in hub.clients
      modifies this, hub, client
      ensures Valid() && happened == old(happened) + [EventStream.Connect]
      ensures client.eventSource.Some? && connection == slot
    {
      RunOne(happened, EventStream.Connect);
      client.Connect(now, true);
      hub.Stream(slot, client.lastEventId);
      connection, read := slot, 0;
      happened := happened + [EventStream.Connect];
    }

    method Open(now: int)
      requires Valid() && client.eventSource.Some?
      modifies client
      ensures Valid() && happened == old(happened)
    {
      IdsOne(client.handedOn, Restored);
      client.OnOpen(now);
      assert client.handedOn == old(client.handedOn) || client.handedOn == old(client.handedOn) + [Restored];
    }

    /** The next event that was written arrives. */
    method Deliver(now: int, payload: string)
      requires Valid() && client.eventSource.Some? && read < |hub.clients[connection]|
      modifies this, client
      ensures Valid() && happened == old(happened) + [EventStream.Deliver]
    {
      var id := hub.clients[connection][read];
      var data := Data(Some(id), payload);
      RunOne(happened, EventStream.Deliver);
      IdsOne(client.handedOn, data);
      position := |log| - |Pipe()| + 1;
      client.OnMessage(now, Message(Some(id), Some(data)));
      read := read + 1;
      happened := happened + [EventStream.Deliver];
    }

    /** The connection breaks: what was written and not read is lost. */
    method Drop(now: int, opens: bool)
      requires Valid() && client.eventSource.Some?
      modifies this, hub, client
      ensures Valid() && happened == old(happened) + [EventStream.Drop] && client.eventSource.None?
    {
      RunOne(happened, EventStream.Drop);
      client.OnError(now, opens);
      hub.Close(connection);
      happened := happened + [EventStream.Drop];
    }

    /**
     So, if events have distinct ids and every reconnect came in time, what the client has
     handed on is one contiguous stretch of what the gateway broadcast.
     */
    lemma HandsOnAStretch() returns (from: int)
      requires Valid() && Distinct(log) && TimelyReconnects(happened)
      ensures Stretch(Ids(client.handedOn), log, from) && Distinct(Ids(client.handedOn))
    {
      from := ExactlyOnceResume(happened);
    }
  }
}
