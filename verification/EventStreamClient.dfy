/**
 The browser's stream client as it is written: one connection at a time, a
 reconnect timer, a heartbeat watchdog, and the cursor it resumes from.
 Times are in milliseconds.
 */
module EventStreamClient {
  import opened Wrappers
  import opened EventStream

  datatype Status = Connected | Reconnecting | Offline

  const HEARTBEAT_TIMEOUT := 45_000
  const MAX_ATTEMPTS := 20

  /** A message: the id on its `id:` line, and its data when that parses, with the id in it. */
  datatype Message = Message(lineId: Option<EventId>, data: Option<Data>)

  /** What the client hands on: a parsed event, or word that the connection is back. */
  datatype Data = Data(id: Option<EventId>, payload: string) | Restored

  class Client {
    var status: Status
    var lastEventId: Option<EventId>
    // The open connection, and the cursor in its URL.
    var eventSource: Option<Option<EventId>>
    var watchdog: bool
    var lastHeartbeat: int
    var reconnectAttempts: nat
    var reconnectTimer: bool
    var isManuallyClosed: bool
    var handedOn: seq<Data>

    /**
     At most one of a connection and a pending timer; the watchdog runs exactly while
     there is a connection; with neither, the client says it is offline; and a client
     that was closed has neither.
     */
    ghost predicate Valid()
      reads this
    {
      && (eventSource.Some? ==> !reconnectTimer)
      && (watchdog <==> eventSource.Some?)
      && (status == Connected ==> eventSource.Some?)
      && (eventSource.None? && !reconnectTimer ==> status == Offline)
      && (reconnectTimer ==> status == Reconnecting && 1 <= reconnectAttempts <= MAX_ATTEMPTS)
      && (isManuallyClosed ==> eventSource.None? && !reconnectTimer && lastEventId.None?)
    }

    constructor ()
      ensures Valid() && lastEventId.None? && handedOn == [] && eventSource.None?
    {
      status, lastEventId, eventSource := Offline, None, None;
      watchdog, lastHeartbeat, reconnectAttempts := false, 0, 0;
      reconnectTimer, isManuallyClosed, handedOn := false, false, [];
    }

    method CleanupEventSource()
      modifies this`eventSource, this`watchdog
      ensures eventSource.None? && !watchdog
    {
      watchdog := false;
      eventSource := None;
    }

    /** Opens a connection that resumes from the cursor; `opens` is false when the browser refuses to. */
    method Connect(now: int, opens: bool)
      modifies this
      ensures Valid() && !isManuallyClosed
      ensures lastEventId == old(lastEventId) && handedOn == old(handedOn)
      ensures reconnectAttempts == old(reconnectAttempts) + if opens then 0 else 1
      ensures opens ==>
        && eventSource == Some(lastEventId) && lastHeartbeat == now
        && status == if reconnectAttempts > 0 then Reconnecting else Offline
      ensures !opens ==>
        && eventSource.None? && lastHeartbeat == old(lastHeartbeat)
        && (reconnectTimer <==> reconnectAttempts <= 20)
        && status == if reconnectTimer then Reconnecting else Offline
      decreases 1
    {
      isManuallyClosed := false;
      CleanupEventSource();
      reconnectTimer := false;
      status := if reconnectAttempts > 0 then Reconnecting else Offline;
      if opens {
        eventSource := Some(lastEventId);
        watchdog := true;
        lastHeartbeat := now;
      } else {
        ScheduleReconnect(now, false, opens);
      }
    }

    /**
     Does nothing for a client that was closed.  Else counts an attempt; gives up after
     twenty, or connects now, or sets the timer.
     */
    method ScheduleReconnect(now: int, immediate: bool, opens: bool)
      requires eventSource.None? && !watchdog && !reconnectTimer
      modifies this
      ensures isManuallyClosed == old(isManuallyClosed) && (isManuallyClosed || Valid())
      ensures lastEventId == old(lastEventId) && handedOn == old(handedOn)
      ensures isManuallyClosed ==>
        && status == old(status) && reconnectAttempts == old(reconnectAttempts)
        && eventSource.None? && !watchdog && !reconnectTimer && lastHeartbeat == old(lastHeartbeat)
      ensures !isManuallyClosed && old(reconnectAttempts) >= 20 ==>
        && status == Offline && eventSource.None? && !reconnectTimer
        && reconnectAttempts == old(reconnectAttempts) + 1 && lastHeartbeat == old(lastHeartbeat)
      ensures !isManuallyClosed && old(reconnectAttempts) < 20 && immediate && opens ==>
        && eventSource == Some(lastEventId) && lastHeartbeat == now && status == Reconnecting
        && reconnectAttempts == old(reconnectAttempts) + 1
      ensures !isManuallyClosed && old(reconnectAttempts) < 20 && immediate && !opens ==>
        && eventSource.None? && reconnectAttempts == old(reconnectAttempts) + 2
        && lastHeartbeat == old(lastHeartbeat) && (reconnectTimer <==> reconnectAttempts <= 20)
      ensures !isManuallyClosed && old(reconnectAttempts) < 20 && !immediate ==>
        && reconnectTimer && eventSource.None? && status == Reconnecting
        && reconnectAttempts == old(reconnectAttempts) + 1 && lastHeartbeat == old(lastHeartbeat)
      decreases if immediate then 2 else 0
    {
      if isManuallyClosed {
        return;
      }
      status := Reconnecting;
      reconnectAttempts := reconnectAttempts + 1;
      if reconnectAttempts > MAX_ATTEMPTS {
        status := Offline;
        return;
      }
      if immediate {
        Connect(now, opens);
        return;
      }
      reconnectTimer := true;
    }

    /** Connected; whoever listens is told if this ends an outage. */
    method OnOpen(now: int)
      requires Valid() && eventSource.Some?
      modifies this
      ensures Valid() && status == Connected && reconnectAttempts == 0 && lastHeartbeat == now
      ensures lastEventId == old(lastEventId) && eventSource == old(eventSource)
      ensures isManuallyClosed == old(isManuallyClosed)
      ensures handedOn == old(handedOn) + if old(reconnectAttempts) > 0 then [Restored] else []
    {
      if reconnectAttempts > 0 {
        handedOn := handedOn + [Restored];
      }
      reconnectAttempts := 0;
      lastHeartbeat := now;
      status := Connected;
    }

    /** A message moves the cursor to its own id, the id inside the data having the last word. */
    method OnMessage(now: int, message: Message)
      requires Valid() && eventSource.Some?
      modifies this
      ensures Valid() && eventSource == old(eventSource) && status == old(status)
      ensures lastHeartbeat == now && reconnectAttempts == old(reconnectAttempts)
      ensures lastEventId ==
        if message.data.Some? && message.data.value.Data? && message.data.value.id.Some? then message.data.value.id
        else if message.lineId.Some? then message.lineId
        else old(lastEventId)
      ensures handedOn == old(handedOn) + if message.data.Some? then [message.data.value] else []
    {
      lastHeartbeat := now;
      if message.lineId.Some? {
        lastEventId := message.lineId;
      }
      if message.data.None? {
        return;
      }
      if message.data.value.Data? && message.data.value.id.Some? {
        lastEventId := message.data.value.id;
      }
      handedOn := handedOn + [message.data.value];
    }

    /** A broken connection: dropped, and a reconnect scheduled with the cursor kept. */
    method OnError(now: int, opens: bool)
      requires Valid() && eventSource.Some?
      modifies this
      ensures Valid() && eventSource.None?
      ensures lastEventId == old(lastEventId) && handedOn == old(handedOn)
      ensures reconnectAttempts == old(reconnectAttempts) + 1
      ensures reconnectTimer <==> reconnectAttempts <= 20
      ensures status == if reconnectTimer then Reconnecting else Offline
    {
      CleanupEventSource();
      ScheduleReconnect(now, false, opens);
    }

    /** The timer fires. */
    method OnTimer(now: int, opens: bool)
      requires Valid() && reconnectTimer
      modifies this
      ensures Valid()
      ensures lastEventId == old(lastEventId) && handedOn == old(handedOn)
      ensures opens ==>
        && eventSource == Some(lastEventId) && lastHeartbeat == now
        && reconnectAttempts == old(reconnectAttempts) && status == Reconnecting
      ensures !opens ==>
        && eventSource.None? && reconnectAttempts == old(reconnectAttempts) + 1
        && (reconnectTimer <==> reconnectAttempts <= 20)
    {
      reconnectTimer := false;
      Connect(now, opens);
    }

    /** Every five seconds: a connection silent for more than 45 seconds is replaced at once. */
    method OnWatchdog(now: int, opens: bool)
      requires Valid() && watchdog
      modifies this
      ensures Valid()
      ensures lastEventId == old(lastEventId) && handedOn == old(handedOn)
      ensures old(status) != Connected || now - old(lastHeartbeat) <= 45_000 ==>
        && eventSource == old(eventSource) && status == old(status) && reconnectAttempts == old(reconnectAttempts)
        && lastHeartbeat == old(lastHeartbeat) && reconnectTimer == old(reconnectTimer)
      ensures old(status == Connected && now - lastHeartbeat > 45_000) ==>
        if old(reconnectAttempts) >= 20 then eventSource.None? && !reconnectTimer && status == Offline
        else if opens then
          && eventSource == Some(lastEventId) && lastHeartbeat == now && status == Reconnecting
          && reconnectAttempts == old(reconnectAttempts) + 1
        else
          && eventSource.None? && reconnectAttempts == old(reconnectAttempts) + 2
          && (reconnectTimer <==> reconnectAttempts <= 20)
    {
      if status != Connected {
        return;
      }
      if now - lastHeartbeat > HEARTBEAT_TIMEOUT {
        status := Offline;
        CleanupEventSource();
        ScheduleReconnect(now, true, opens);
      }
    }

    /** Forgets the cursor, so that the next connection starts from now. */
    method ClearReplayCache()
      requires Valid()
      modifies this`lastEventId
      ensures Valid() && lastEventId.None?
    {
      lastEventId := None;
    }

    /** Starts over at the caller's request, closed or not, with all attempts ahead. */
    method Reconnect(now: int, opens: bool)
      modifies this
      ensures Valid() && !isManuallyClosed
      ensures lastEventId == old(lastEventId) && handedOn == old(handedOn)
      ensures opens ==>
        eventSource == Some(lastEventId) && reconnectAttempts == 0 && lastHeartbeat == now && status == Offline
      ensures !opens ==> reconnectTimer && eventSource.None? && reconnectAttempts == 1 && status == Reconnecting
    {
      reconnectAttempts := 0;
      Connect(now, opens);
    }

    /** Ends everything and forgets the cursor. */
    method Close()
      requires Valid()
      modifies this
      ensures Valid() && isManuallyClosed && status == Offline && lastEventId.None?
      ensures eventSource.None? && !watchdog && !reconnectTimer && reconnectAttempts == 0
      ensures handedOn == old(handedOn)
    {
      isManuallyClosed := true;
      lastEventId := None;
      reconnectAttempts := 0;
      reconnectTimer := false;
      CleanupEventSource();
      status := Offline;
    }
  }
}
