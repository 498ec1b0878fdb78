/**
 Deduplication of live events from two sources with a set of at most 1000 ids that
 evicts the oldest, against a set that never forgets.
 */
module EventDedup {
  import opened Wrappers
  import opened EventStream
  import opened EventHub

  const WINDOW := 1000

  /** The ids broadcast, in order, for a merged run of arrivals from both sources. */
  function Admit(arrivals: seq<string>): seq<string>
    decreases |arrivals|
  {
    if arrivals == [] then []
    else
      var before, id := Admit(arrivals[..|arrivals| - 1]), arrivals[|arrivals| - 1];
      if id in Last(before, WINDOW) then before else before + [id]
  }

  /** The same with a set that never forgets: each id once, where it first arrived. */
  function FirstOccurrences(arrivals: seq<string>): seq<string>
    decreases |arrivals|
  {
    if arrivals == [] then []
    else
      var before, id := FirstOccurrences(arrivals[..|arrivals| - 1]), arrivals[|arrivals| - 1];
      if id in before then before else before + [id]
  }

  /** Within any 1001 consecutive admissions no id occurs twice. */
  ghost predicate LocallyDistinct(ids: seq<string>) {
    forall i, j :: 0 <= i < j < |ids| && j - i <= WINDOW ==> ids[i] != ids[j]
  }

  lemma AppendLocallyDistinct(ids: seq<string>, id: string)
    requires LocallyDistinct(ids) && id !in Last(ids, WINDOW)
    ensures LocallyDistinct(ids + [id])
  {
    var k := |ids| - |Last(ids, WINDOW)|;
    forall i | k <= i < |ids| ensures ids[i] != id {
      assert Last(ids, WINDOW)[i - k] == ids[i];
    }
  }

  lemma {:induction false} AdmitLocallyDistinct(arrivals: seq<string>)
    ensures LocallyDistinct(Admit(arrivals))
    decreases |arrivals|
  {
    if arrivals != [] {
      var before := arrivals[..|arrivals| - 1];
      AdmitLocallyDistinct(before);
      if arrivals[|arrivals| - 1] !in Last(Admit(before), WINDOW) {
        AppendLocallyDistinct(Admit(before), arrivals[|arrivals| - 1]);
      }
    }
  }

  /** What lies before a second occurrence: a whole window without it, and without a repeat. */
  lemma WindowBetween(ids: seq<string>, i: nat, j: nat)
    requires LocallyDistinct(ids) && i < j < |ids| && ids[i] == ids[j]
    ensures j - i - 1 >= 1000
    ensures Distinct(ids[j - 1000..j]) && ids[j] !in ids[j - 1000..j]
  {
    assert j - i > WINDOW;
    var between := ids[j - 1000..j];
    forall x, y | 0 <= x < y < |between| ensures between[x] != between[y] {
      assert between[x] == ids[j - 1000 + x] && between[y] == ids[j - 1000 + y];
    }
    forall x | 0 <= x < |between| ensures between[x] != ids[j] {
      assert between[x] == ids[j - 1000 + x];
    }
  }

  /**
   An id is broadcast a second time only after at least 1000 other, pairwise
   different, ids were broadcast in between.
   */
  lemma RebroadcastOnlyAfterWindow(arrivals: seq<string>, i: nat, j: nat)
    requires i < j < |Admit(arrivals)| && Admit(arrivals)[i] == Admit(arrivals)[j]
    ensures j - i - 1 >= 1000
    ensures Distinct(Admit(arrivals)[j - 1000..j]) && Admit(arrivals)[j] !in Admit(arrivals)[j - 1000..j]
  {
    AdmitLocallyDistinct(arrivals);
    WindowBetween(Admit(arrivals), i, j);
  }

  /** Every duplicate arrives before 1000 other ids have first arrived after its own id did. */
  ghost predicate DuplicatesInTime(arrivals: seq<string>)
    decreases |arrivals|
  {
    arrivals == [] || (
      var before, id := arrivals[..|arrivals| - 1], arrivals[|arrivals| - 1];
      && DuplicatesInTime(before)
      && (id in FirstOccurrences(before) ==> id in Last(FirstOccurrences(before), 1000)))
  }

  lemma {:induction false} InTimeRefines(arrivals: seq<string>)
    requires DuplicatesInTime(arrivals)
    ensures Admit(arrivals) == FirstOccurrences(arrivals)
    decreases |arrivals|
  {
    if arrivals != [] {
      InTimeRefines(arrivals[..|arrivals| - 1]);
    }
  }

  lemma {:induction false} FirstOccurrencesDistinct(arrivals: seq<string>)
    ensures Distinct(FirstOccurrences(arrivals))
    decreases |arrivals|
  {
    if arrivals != [] {
      FirstOccurrencesDistinct(arrivals[..|arrivals| - 1]);
    }
  }

  /** A late duplicate is broadcast twice, and nothing later takes that back. */
  lemma {:induction false} LateDuplicateShows(arrivals: seq<string>)
    requires !DuplicatesInTime(arrivals)
    ensures !Distinct(Admit(arrivals))
    decreases |arrivals|
  {
    var before, id := arrivals[..|arrivals| - 1], arrivals[|arrivals| - 1];
    if DuplicatesInTime(before) {
      InTimeRefines(before);
      var i :| 0 <= i < |Admit(before)| && Admit(before)[i] == id;
      assert Admit(arrivals)[i] == Admit(arrivals)[|Admit(before)|];
    } else {
      LateDuplicateShows(before);
      var i, j :| 0 <= i < j < |Admit(before)| && Admit(before)[i] == Admit(before)[j];
      assert Admit(arrivals)[i] == Admit(arrivals)[j];
    }
  }

  /**
   The bounded set broadcasts exactly what an unbounded one would if and only if
   every duplicate arrives in time.
   */
  lemma RefinesUnboundedIff(arrivals: seq<string>)
    ensures Admit(arrivals) == FirstOccurrences(arrivals) <==> DuplicatesInTime(arrivals)
  {
    FirstOccurrencesDistinct(arrivals);
    if DuplicatesInTime(arrivals) {
      InTimeRefines(arrivals);
    } else {
      LateDuplicateShows(arrivals);
    }
  }

  /** The fields of an event that name it; an absent one is empty. */
  datatype Content = Content(eventId: string, id: string, eventType: string, kind: string)

  function Or(a: string, b: string): string {
    if a != "" then a else b
  }

  /** The header's id, else the content's, else one made up for it. */
  function EventIdOf(header: string, content: Content, made: string): string {
    Or(header, Or(content.eventId, Or(content.id, made)))
  }

  predicate CompletesPayment(content: Content, routingKey: string) {
    routingKey == "payment.completed" || Or(content.eventType, Or(content.kind, routingKey)) == "PAYMENT_COMPLETED"
  }

  // ---------------------------------------------------------------- which event is which

  /** The id an event carries itself: the first of these that is not empty. */
  function NameOf(header: string, content: Content): string {
    if header != "" then header else if content.eventId != "" then content.eventId else content.id
  }

  /** An event goes by the id it carries, and only one that carries none by an id made up for it. */
  lemma NamedByItself(header: string, content: Content, made: string)
    ensures EventIdOf(header, content, made) == if NameOf(header, content) != "" then NameOf(header, content) else made
  {
  }

  /** The routing key decides, or else the first type that is given. */
  lemma CompletesIff(content: Content, routingKey: string)
    ensures CompletesPayment(content, routingKey) <==>
            || routingKey == "payment.completed"
            || content.eventType == "PAYMENT_COMPLETED"
            || (content.eventType == "" && content.kind == "PAYMENT_COMPLETED")
            || (content.eventType == "" && content.kind == "" && routingKey == "PAYMENT_COMPLETED")
  {
  }

  /** An event as it arrives from either source, with the id that would be made up for it. */
  datatype Arrival = Arrival(header: string, content: Content, made: string)

  function IdsOf(events: seq<Arrival>): (ids: seq<string>)
    ensures |ids| == |events|
    ensures forall i :: 0 <= i < |ids| ==> ids[i] == EventIdOf(events[i].header, events[i].content, events[i].made)
  {
    seq(|events|, i requires 0 <= i < |events| =>
      EventIdOf(events[i].header, events[i].content, events[i].made))
  }

  lemma {:induction false} AdmitGrows(ids: seq<string>, n: nat)
    requires n <= |ids|
    ensures Admit(ids[..n]) <= Admit(ids)
    decreases |ids|
  {
    if n < |ids| {
      AdmitGrows(ids[..|ids| - 1], n);
      assert ids[..|ids| - 1][..n] == ids[..n];
    } else {
      assert ids[..n] == ids;
    }
  }

  /** What was published is still remembered while fewer than 1000 were published since. */
  lemma StillRemembered(first: seq<string>, id: string, all: seq<string>)
    requires first + [id] <= all && |all| - |first + [id]| < 1000
    ensures id in Last(all, WINDOW)
  {
    var p, k := |first|, |all| - |Last(all, WINDOW)|;
    assert all[p] == (first + [id])[p] == id;
    assert Last(all, WINDOW)[p - k] == all[p];
  }

  /** So it is not published again. */
  lemma RepeatIsDropped(first: seq<string>, id: string, later: seq<string>)
    requires first + [id] <= later && |Admit(first + [id])| == |Admit(first)| + 1
    requires |Admit(later)| - |Admit(first + [id])| < 1000
    ensures Admit(later + [id]) == Admit(later)
  {
    assert id in Last(Admit(later), WINDOW) by {
      assert Admit(first + [id]) == Admit(first) + [id] by {
        AdmitNext(first, id);
      }
      assert later[..|first| + 1] == first + [id];
      AdmitGrows(later, |first| + 1);
      StillRemembered(Admit(first), id, Admit(later));
    }
    AdmitNext(later, id);
  }

  /**
   The same event from both sources.  An event that carries an id and has been published is
   not published again by any later arrival that carries the same id, from whichever source
   and whatever id would be made up for it, until 1000 others have been published since.
   */
  lemma PublishedOnce(events: seq<Arrival>, i: nat, j: nat)
    requires i < j < |events|
    requires NameOf(events[i].header, events[i].content) == NameOf(events[j].header, events[j].content) != ""
    requires |Admit(IdsOf(events)[..i + 1])| == |Admit(IdsOf(events)[..i])| + 1
    requires |Admit(IdsOf(events)[..j])| - |Admit(IdsOf(events)[..i + 1])| < 1000
    ensures Admit(IdsOf(events)[..j + 1]) == Admit(IdsOf(events)[..j])
  {
    NamedByItself(events[i].header, events[i].content, events[i].made);
    NamedByItself(events[j].header, events[j].content, events[j].made);
    SameIdDropped(IdsOf(events), i, j);
  }

  lemma SameIdDropped(ids: seq<string>, i: nat, j: nat)
    requires i < j < |ids| && ids[i] == ids[j]
    requires |Admit(ids[..i + 1])| == |Admit(ids[..i])| + 1
    requires |Admit(ids[..j])| - |Admit(ids[..i + 1])| < 1000
    ensures Admit(ids[..j + 1]) == Admit(ids[..j])
  {
    assert ids[..i + 1] == ids[..i] + [ids[i]] && ids[..j + 1] == ids[..j] + [ids[j]];
    RepeatIsDropped(ids[..i], ids[i], ids[..j]);
  }

  lemma AdmitNext(arrivals: seq<string>, id: string)
    ensures Admit(arrivals + [id]) == Admit(arrivals) + if id in Last(Admit(arrivals), WINDOW) then [] else [id]
  {
    assert (arrivals + [id])[..|arrivals|] == arrivals;
  }

  lemma RememberNext(ids: seq<string>, id: string)
    ensures var more := Last(ids, WINDOW) + [id];
            Last(ids + [id], WINDOW) == if |more| > WINDOW then more[1..] else more
  {
  }

  class GatewayEventConsumer {
    const hub: Hub
    // A JavaScript Set: ids in insertion order.
    var processedEventIds: seq<string>
    var messagesReceived: nat
    var eventsBroadcasted: nat
    ghost var arrivals: seq<string>

    ghost predicate Valid()
      reads this
    {
      processedEventIds == Last(Admit(arrivals), WINDOW) && messagesReceived == |Admit(arrivals)|
    }

    constructor (hub: Hub)
      ensures Valid() && this.hub == hub && arrivals == [] && eventsBroadcasted == 0
    {
      this.hub := hub;
      processedEventIds, messagesReceived, eventsBroadcasted, arrivals := [], 0, 0, [];
    }

    /** Drops an id that is remembered; remembers any other, and forgets the oldest beyond 1000. */
    method Remember(id: string) returns (admitted: bool)
      requires Valid()
      modifies this`processedEventIds, this`messagesReceived, this`arrivals
      ensures Valid()
      ensures arrivals == old(arrivals) + [id]
      ensures admitted <==> id !in Last(Admit(old(arrivals)), WINDOW)
      ensures Admit(arrivals) == Admit(old(arrivals)) + if admitted then [id] else []
    {
      AdmitNext(arrivals, id);
      RememberNext(Admit(arrivals), id);
      arrivals := arrivals + [id];
      if id in processedEventIds {
        return false;
      }
      processedEventIds := processedEventIds + [id];
      if |processedEventIds| > WINDOW {
        processedEventIds := processedEventIds[1..];
      }
      messagesReceived := messagesReceived + 1;
      return true;
    }

    /**
     Broadcasts an event and, for a completed payment, its notification; `broken` and
     `brokenNext` are the clients whose connection fails the one write or the other.
     */
    method Publish(id: string, paymentCompleted: bool, now: int, broken: set<nat>, brokenNext: set<nat>)
      requires |hub.recentEventBuffer| <= CAPACITY
      modifies this`eventsBroadcasted, hub
      ensures |hub.recentEventBuffer| <= CAPACITY && hub.eventSequence == old(hub.eventSequence)
      ensures var sent := if paymentCompleted then [Named(id), Named("notif-" + id)] else [Named(id)];
              && hub.recentEventBuffer == Last(old(hub.recentEventBuffer) + sent, 100)
              && (forall c :: c in hub.clients <==>
                    c in old(hub.clients) && c !in broken && (paymentCompleted ==> c !in brokenNext))
              && (forall c :: c in hub.clients ==> hub.clients[c] == old(hub.clients)[c] + sent)
              && eventsBroadcasted == old(eventsBroadcasted) + |sent|
    {
      var _ := hub.BroadcastSSEEvent(Some(Named(id)), now, broken);
      eventsBroadcasted := eventsBroadcasted + 1;
      if paymentCompleted {
        var _ := hub.BroadcastSSEEvent(Some(Named("notif-" + id)), now, brokenNext);
        eventsBroadcasted := eventsBroadcasted + 1;
      }
    }

    /**
     One event from either source: unless its id is remembered, it is buffered and written
     to every client, and so is the notification of a completed payment.
     */
    method HandleLiveEvent(content: Content, routingKey: string, header: string, made: string, now: int,
                           broken: set<nat>, brokenNext: set<nat>)
      returns (admitted: bool)
      requires Valid() && |hub.recentEventBuffer| <= CAPACITY
      modifies this, hub
      ensures Valid() && |hub.recentEventBuffer| <= CAPACITY
      ensures var id := EventIdOf(header, content, made);
              && arrivals == old(arrivals) + [id]
              && (admitted <==> id !in Last(Admit(old(arrivals)), WINDOW))
              && Admit(arrivals) == Admit(old(arrivals)) + if admitted then [id] else []
      ensures !admitted ==>
        && hub.recentEventBuffer == old(hub.recentEventBuffer) && hub.clients == old(hub.clients)
        && eventsBroadcasted == old(eventsBroadcasted)
      ensures admitted ==>
        var id, pays := EventIdOf(header, content, made), CompletesPayment(content, routingKey);
        var sent := if pays then [Named(id), Named("notif-" + id)] else [Named(id)];
        && hub.recentEventBuffer == Last(old(hub.recentEventBuffer) + sent, 100)
        && (forall c :: c in hub.clients <==>
              c in old(hub.clients) && c !in broken && (pays ==> c !in brokenNext))
        && (forall c :: c in hub.clients ==> hub.clients[c] == old(hub.clients)[c] + sent)
        && eventsBroadcasted == old(eventsBroadcasted) + |sent|
    {
      var id := EventIdOf(header, content, made);
      admitted := Remember(id);
      if admitted {
        Publish(id, CompletesPayment(content, routingKey), now, broken, brokenNext);
      }
    }
  }
}
