/**
 The gateway's broadcast and replay as they are written: a ring buffer, a set of
 clients each with what has been written to it, and an id counter.
 */
module EventHub {
  import opened Wrappers
  import opened EventStream

  class Hub {
    var recentEventBuffer: seq<EventId>
    var clients: map<nat, seq<EventId>>
    var eventSequence: nat

    constructor ()
      ensures recentEventBuffer == [] && clients == map[] && eventSequence == 1000
    {
      recentEventBuffer, clients, eventSequence := [], map[], 1000;
    }

    /**
     Gives the event an id, buffers it, and writes it to every client; a client whose
     connection is broken is forgotten instead.
     */
    method BroadcastSSEEvent(given: Option<EventId>, now: int, broken: set<nat>) returns (id: EventId)
      requires |recentEventBuffer| <= CAPACITY
      modifies this
      ensures |recentEventBuffer| <= CAPACITY
      ensures given.Some? ==> id == given.value && eventSequence == old(eventSequence)
      ensures given.None? ==> id == Generated(eventSequence, now) && eventSequence == old(eventSequence) + 1
      ensures recentEventBuffer == Last(old(recentEventBuffer) + [id], 100)
      ensures clients.Keys == old(clients).Keys - broken
      ensures forall c :: c in clients ==> clients[c] == old(clients)[c] + [id]
    {
      if given.Some? {
        id := given.value;
      } else {
        eventSequence := eventSequence + 1;
        id := Generated(eventSequence, now);
      }
      recentEventBuffer := recentEventBuffer + [id];
      if |recentEventBuffer| > CAPACITY {
        recentEventBuffer := recentEventBuffer[1..];
      }
      WriteToClients(id, broken);
    }

    /** Writes to every client in turn, and forgets those whose write throws. */
    method WriteToClients(id: EventId, broken: set<nat>)
      modifies this`clients
      ensures clients.Keys == old(clients).Keys - broken
      ensures forall c :: c in clients ==> clients[c] == old(clients)[c] + [id]
    {
      var todo := clients.Keys;
      while todo != {}
        invariant todo <= clients.Keys
        invariant forall c :: c in clients <==> c in old(clients) && (c in todo || c !in broken)
        invariant forall c :: c in clients ==>
          c in old(clients) && clients[c] == if c in todo then old(clients)[c] else old(clients)[c] + [id]
        decreases |todo|
      {
        var c :| c in todo;
        todo := todo - {c};
        if c in broken {
          clients := clients - {c};
        } else {
          clients := clients[c := clients[c] + [id]];
        }
      }
    }

    /** A client connects, resuming after the event it names. */
    method Stream(client: nat, lastEventId: Option<EventId>)
      requires client !in clients
      modifies this`clients
      ensures clients == old(clients)[client := Missed(recentEventBuffer, lastEventId)]
      ensures lastEventId.None? ==> clients[client] == []
    {
      var written := [];
      if lastEventId.Some? {
        var lastIdx := FindIndex(lastEventId.value);
        if lastIdx != -1 && lastIdx < |recentEventBuffer| - 1 {
          var i := lastIdx + 1;
          while i < |recentEventBuffer|
            invariant lastIdx + 1 <= i <= |recentEventBuffer|
            invariant written == recentEventBuffer[lastIdx + 1..i]
          {
            written := written + [recentEventBuffer[i]];
            i := i + 1;
          }
          assert written == recentEventBuffer[lastIdx + 1..];
        }
      }
      clients := clients[client := written];
    }

    /** `findIndex`: the first position of the id, or -1. */
    method FindIndex(id: EventId) returns (index: int)
      ensures index == -1 <==> id !in recentEventBuffer
      ensures index != -1 ==> 0 <= index < |recentEventBuffer| && recentEventBuffer[index] == id
      ensures index != -1 ==> index == IndexOf(recentEventBuffer, id)
      ensures index == -1 ==> IndexOf(recentEventBuffer, id) == |recentEventBuffer|
    {
      index := 0;
      while index < |recentEventBuffer|
        invariant 0 <= index <= |recentEventBuffer|
        invariant forall j :: 0 <= j < index ==> recentEventBuffer[j] != id
      {
        if recentEventBuffer[index] == id {
          return;
        }
        index := index + 1;
      }
      index := -1;
    }

    method Close(client: nat)
      modifies this`clients
      ensures clients == old(clients) - {client}
    {
      clients := clients - {client};
    }
  }
}
