/**
 Resuming the event stream: the server keeps the last 100 events, the client the
 id of the last one it received, and events in flight are lost when the connection
 drops (the Last-Event-ID idea of section 9.2 "Server-sent events" of the HTML
 Living Standard).
 */
module EventStream {
  import opened Wrappers

  /** An id given with the event, or one the gateway made from its counter and the clock. */
  datatype EventId = Named(name: string) | Generated(sequence: nat, at: int)

  const CAPACITY := 100

  /** What a connecting client is sent again: the buffered events after the first one with its id. */
  function Missed(buffer: seq<EventId>, lastEventId: Option<EventId>): seq<EventId> {
    if lastEventId.None? then []
    else
      var i := IndexOf(buffer, lastEventId.value);
      if i < |buffer| then buffer[i + 1..] else []
  }

  /** After the first event with that id, everything that is still kept. */
  lemma MissedIsTheRest(before: seq<EventId>, id: EventId, after: seq<EventId>)
    requires id !in before
    ensures Missed(before + [id] + after, Some(id)) == after
  {
    var buffer := before + [id] + after;
    assert buffer[|before|] == id;
    assert forall i :: 0 <= i < |before| ==> buffer[i] == before[i];
    assert buffer[|before| + 1..] == after;
  }

  /** A client that names no event, or one that is not kept, is sent nothing again. */
  lemma NothingMissed(buffer: seq<EventId>, lastEventId: Option<EventId>)
    requires lastEventId.Some? ==> lastEventId.value !in buffer
    ensures Missed(buffer, lastEventId) == []
  {
  }

  // ---------------------------------------------------------------- one client and the server

  /**
   `log` is everything ever broadcast, `pipe` what the server wrote to the current
   connection and the client has not read, `received` what the client has read and
   `position` how far into the log it has read; the code itself only has the ids.
   */
  datatype World = World(
    log: seq<EventId>,
    buffer: seq<EventId>,
    connected: bool,
    pipe: seq<EventId>,
    cursor: Option<EventId>,
    received: seq<EventId>,
    position: int)

  const START := World([], [], false, [], None, [], 0)

  datatype Event = Broadcast(id: EventId) | Connect | Deliver | Drop

  function Step(w: World, e: Event): World {
    match e
    case Broadcast(id) =>
      w.(log := w.log + [id], buffer := Last(w.buffer + [id], CAPACITY),
         pipe := if w.connected then w.pipe + [id] else w.pipe)
    case Connect => if w.connected then w else w.(connected := true, pipe := Missed(w.buffer, w.cursor))
    case Deliver =>
      if !w.connected || w.pipe == [] then w
      else w.(received := w.received + [w.pipe[0]], cursor := Some(w.pipe[0]), pipe := w.pipe[1..],
              position := |w.log| - |w.pipe| + 1)
    case Drop => w.(connected := false, pipe := [])
  }

  function Run(es: seq<Event>): World
    decreases |es|
  {
    if es == [] then START else Step(Run(es[..|es| - 1]), es[|es| - 1])
  }

  /** How many events were broadcast after the last one the client received. */
  function Behind(w: World): int {
    if w.cursor.None? then 0 else |w.log| - w.position
  }

  /** Every reconnect comes before 100 events have been missed. */
  ghost predicate TimelyReconnects(es: seq<Event>)
    decreases |es|
  {
    es == [] || (TimelyReconnects(es[..|es| - 1]) && (es[|es| - 1].Connect? ==> Behind(Run(es[..|es| - 1])) <= 99))
  }

  /** `part` is the stretch of `whole` that begins at `from`. */
  predicate Stretch(part: seq<EventId>, whole: seq<EventId>, from: int) {
    0 <= from && from + |part| <= |whole| && forall i :: 0 <= i < |part| ==> part[i] == whole[from + i]
  }

  /** The replay buffer is the end of the log. */
  ghost predicate BufferOk(buffer: seq<EventId>, log: seq<EventId>) {
    && Stretch(buffer, log, |log| - |buffer|)
    && |buffer| == (if |log| > CAPACITY then CAPACITY else |log|)
  }

  ghost predicate PipeOk(w: World) {
    Stretch(w.pipe, w.log, |w.log| - |w.pipe|) && (!w.connected ==> w.pipe == [])
  }

  ghost predicate ReceivedOk(w: World) {
    && (w.cursor.None? <==> w.received == [])
    && (w.received != [] ==>
          && Stretch(w.received, w.log, w.position - |w.received|)
          && w.cursor == Some(w.log[w.position - 1]))
    && (w.connected && w.received != [] ==> |w.pipe| == |w.log| - w.position)
  }

  ghost predicate Inv(w: World) {
    BufferOk(w.buffer, w.log) && PipeOk(w) && ReceivedOk(w)
  }

  /** The event at this position is nowhere else. */
  ghost predicate OnlyAt(ids: seq<EventId>, at: int)
    requires 0 <= at < |ids|
  {
    forall j :: 0 <= j < |ids| && ids[j] == ids[at] ==> j == at
  }

  lemma DistinctOnlyAt(ids: seq<EventId>, at: int)
    requires Distinct(ids) && 0 <= at < |ids|
    ensures OnlyAt(ids, at)
  {
  }

  lemma FoundAt(buffer: seq<EventId>, log: seq<EventId>, k: int, at: int)
    requires Stretch(buffer, log, k) && 0 <= at < |log|
    ensures k <= at < k + |buffer| ==> IndexOf(buffer, log[at]) < |buffer|
    ensures IndexOf(buffer, log[at]) < |buffer| ==> log[k + IndexOf(buffer, log[at])] == log[at]
  {
    if k <= at < k + |buffer| {
      assert buffer[at - k] == log[k + (at - k)];
    }
  }

  /** The event is found in the buffer where it is in the log, or not at all. */
  lemma FindInBuffer(buffer: seq<EventId>, log: seq<EventId>, at: int)
    requires Stretch(buffer, log, |log| - |buffer|) && 0 <= at < |log| && OnlyAt(log, at)
    ensures IndexOf(buffer, log[at]) == if at < |log| - |buffer| then |buffer| else at - (|log| - |buffer|)
  {
    var k := |log| - |buffer|;
    FoundAt(buffer, log, k, at);
    assert IndexOf(buffer, log[at]) < |buffer| ==> k + IndexOf(buffer, log[at]) == at;
  }

  /** What a full buffer still has after the event at `at`. */
  lemma MissedAfter(buffer: seq<EventId>, log: seq<EventId>, at: int)
    requires BufferOk(buffer, log) && 0 <= at < |log| && OnlyAt(log, at)
    ensures var missed := Missed(buffer, Some(log[at]));
            if |log| - at <= CAPACITY then |missed| == |log| - at - 1 && Stretch(missed, log, at + 1) else missed == []
  {
    FindInBuffer(buffer, log, at);
    var k := |log| - |buffer|;
    var missed := Missed(buffer, Some(log[at]));
    if |log| - at <= CAPACITY {
      forall i | 0 <= i < |missed| ensures missed[i] == log[at + 1 + i] {
        assert missed[i] == buffer[at - k + 1 + i];
      }
    }
  }

  /**
   What a reconnecting client is sent.  It is exactly what it missed if and only
   if at most 99 events were broadcast after the last it received; otherwise its
   event has left the buffer and it is sent nothing.
   */
  lemma ReconnectCompleteIff(w: World)
    requires Inv(w) && Distinct(w.log) && w.cursor.Some? && !w.connected
    ensures var pipe := Step(w, Connect).pipe;
            && (Behind(w) <= 99 <==> |pipe| == Behind(w))
            && (if Behind(w) <= 99 then Stretch(pipe, w.log, w.position) else pipe == [])
  {
    DistinctOnlyAt(w.log, w.position - 1);
    MissedAfter(w.buffer, w.log, w.position - 1);
  }

  lemma BufferGrows(buffer: seq<EventId>, log: seq<EventId>, id: EventId)
    requires BufferOk(buffer, log)
    ensures BufferOk(Last(buffer + [id], CAPACITY), log + [id])
  {
  }

  lemma StretchGrows(part: seq<EventId>, whole: seq<EventId>, from: int, id: EventId)
    requires Stretch(part, whole, from)
    ensures Stretch(part, whole + [id], from)
    ensures from + |part| == |whole| ==> Stretch(part + [id], whole + [id], from)
  {
  }

  lemma BroadcastKeepsPipe(w: World, id: EventId)
    requires PipeOk(w)
    ensures PipeOk(Step(w, Broadcast(id)))
  {
    StretchGrows(w.pipe, w.log, |w.log| - |w.pipe|, id);
  }

  lemma BroadcastKeepsReceived(w: World, id: EventId)
    requires ReceivedOk(w)
    ensures ReceivedOk(Step(w, Broadcast(id)))
  {
    if w.received != [] {
      StretchGrows(w.received, w.log, w.position - |w.received|, id);
    }
  }

  lemma BroadcastKeepsInv(w: World, id: EventId)
    requires Inv(w)
    ensures Inv(Step(w, Broadcast(id)))
  {
    BufferGrows(w.buffer, w.log, id);
    BroadcastKeepsPipe(w, id);
    BroadcastKeepsReceived(w, id);
  }

  lemma DeliverKeepsInv(w: World)
    requires Inv(w) && w.connected && w.pipe != []
    ensures Inv(Step(w, Deliver))
  {
    var next := Step(w, Deliver);
    var at := |w.log| - |w.pipe|;
    assert w.pipe[0] == w.log[at];
    forall i | 0 <= i < |next.pipe| ensures next.pipe[i] == w.log[at + 1 + i] {
      assert next.pipe[i] == w.pipe[i + 1];
    }
  }

  lemma ConnectKeepsInv(w: World)
    requires Inv(w) && Distinct(w.log) && Behind(w) <= 99
    ensures Inv(Step(w, Connect))
  {
    if !w.connected && w.cursor.Some? {
      ReconnectCompleteIff(w);
    }
  }

  lemma StepKeepsInv(w: World, e: Event)
    requires Inv(w) && Distinct(w.log)
    requires e.Connect? ==> Behind(w) <= 99
    ensures Inv(Step(w, e))
  {
    match e
    case Broadcast(id) => BroadcastKeepsInv(w, id);
    case Connect => ConnectKeepsInv(w);
    case Deliver =>
      if w.connected && w.pipe != [] {
        DeliverKeepsInv(w);
      }
    case Drop =>
  }

  lemma {:induction false} RunKeepsInv(es: seq<Event>)
    requires Distinct(Run(es).log) && TimelyReconnects(es)
    ensures Inv(Run(es))
  {
    if es != [] {
      var before := Run(es[..|es| - 1]);
      assert before.log <= Run(es).log;
      assert Distinct(before.log);
      RunKeepsInv(es[..|es| - 1]);
      StepKeepsInv(before, es[|es| - 1]);
    }
  }

  /**
   Exactly-once resume.  Across any run of broadcasts, deliveries, drops and
   reconnects that come in time, what the client has received is one contiguous
   stretch of what was broadcast: no gap, no repeat, nothing out of order.  Once it
   is connected and has read everything, it is up to date.
   */
  lemma ExactlyOnceResume(es: seq<Event>) returns (from: int)
    requires Distinct(Run(es).log) && TimelyReconnects(es)
    ensures Stretch(Run(es).received, Run(es).log, from)
    ensures Distinct(Run(es).received)
    ensures var w := Run(es);
            w.connected && w.pipe == [] && w.received != [] ==> from + |w.received| == |w.log|
  {
    var w := Run(es);
    RunKeepsInv(es);
    if w.received == [] {
      from := 0;
    } else {
      from := w.position - |w.received|;
      StretchDistinct(w.received, w.log, from);
    }
  }

  lemma StretchDistinct(part: seq<EventId>, whole: seq<EventId>, from: int)
    requires Stretch(part, whole, from) && Distinct(whole)
    ensures Distinct(part)
  {
    forall i, j | 0 <= i < j < |part| ensures part[i] != part[j] {
      assert whole[from + i] != whole[from + j];
    }
  }
}
