/**
 Forwarding events into a bounded channel. The producer runs `forward_event` for one
 event after the other; the consumer may receive, or go away, at any moment between
 its channel operations. A lossless event waits for room; a best-effort one is
 counted instead, and the count is owed to the consumer as one Lagged marker.
 */
module EventDelivery {
  import opened Wrappers
  import opened Sequences
  import opened Protocol

  const USIZE_MAX: nat := 0xFFFF_FFFF_FFFF_FFFF

  function SaturatingInc(n: nat): nat {
    if n < USIZE_MAX then n + 1 else n
  }

  // ------------------------------------------------------------ the step system

  /** Where `forward_event` stands: between calls, before sending the marker, before
      sending the event, or returned false for good. */
  datatype Phase = Idle | AtMarker(event: Event) | AtEvent(event: Event) | Stopped(event: Event)

  /** offered and received are histories: what was passed in, what came out. */
  datatype Link = Link(
    capacity: nat,
    queue: seq<Event>,
    open: bool,
    skipped: nat,
    phase: Phase,
    offered: seq<Event>,
    received: seq<Event>
  )

  datatype Action = Offer(event: Event) | Send | Receive | CloseReceiver

  function NewLink(capacity: nat): Link {
    Link(capacity, [], true, 0, Idle, [], [])
  }

  predicate IsFull(l: Link) {
    |l.queue| >= l.capacity
  }

  /** One channel operation of the producer: `send` waits while the channel is full,
      `try_send` never does. */
  function SendStep(l: Link): Option<Link>
    requires l.phase.AtMarker? || l.phase.AtEvent?
  {
    var event := l.phase.event;
    if !l.open then Some(l.(phase := Stopped(event)))
    else if !IsFull(l) then
      if l.phase.AtMarker? then Some(l.(queue := l.queue + [Lagged(l.skipped)], skipped := 0, phase := AtEvent(event)))
      else Some(l.(queue := l.queue + [event], phase := Idle))
    else if RequiresDelivery(event) then None
    else Some(l.(skipped := SaturatingInc(l.skipped), phase := Idle))
  }

  /** One step of anyone; None when it is not enabled. */
  function Step(l: Link, a: Action): Option<Link> {
    match a
    case Offer(event) =>
      if l.phase.Idle? && !event.Lagged? then
        Some(l.(offered := l.offered + [event], phase := if l.skipped > 0 then AtMarker(event) else AtEvent(event)))
      else None
    case Send => if l.phase.AtMarker? || l.phase.AtEvent? then SendStep(l) else None
    case Receive =>
      if l.open && l.queue != [] then Some(l.(queue := l.queue[1..], received := l.received + [l.queue[0]])) else None
    case CloseReceiver => Some(l.(open := false))
  }

  function Run(l: Link, actions: seq<Action>): Option<Link>
    decreases |actions|
  {
    if actions == [] then Some(l)
    else match Step(l, actions[0])
      case None => None
      case Some(next) => Run(next, actions[1..])
  }

  lemma {:induction false} RunSnoc(l: Link, actions: seq<Action>, a: Action)
    ensures Run(l, actions + [a]) == match Run(l, actions) case None => None case Some(m) => Step(m, a)
    decreases |actions|
  {
    hide Step;
    if actions == [] {
      assert (actions + [a])[1..] == [];
    } else {
      assert (actions + [a])[1..] == actions[1..] + [a];
      match Step(l, actions[0])
      case None =>
      case Some(next) => RunSnoc(next, actions[1..], a);
    }
  }

  /** One channel operation, said on the fields alone: with room the channel grows by the
      marker that is owed or by the event, and nothing is counted; a full channel makes
      a lossless event wait and any other event count; a closed one takes nothing. */
  lemma SendExactly(l: Link)
    requires l.phase.AtMarker? || l.phase.AtEvent?
    ensures var r, event := Step(l, Send), l.phase.event;
            && (r.None? <==> l.open && |l.queue| >= l.capacity && RequiresDelivery(event))
            && (r.Some? && l.open && |l.queue| < l.capacity ==>
                  if l.phase.AtMarker? then r.value == l.(queue := l.queue + [Lagged(l.skipped)], skipped := 0, phase := AtEvent(event))
                  else r.value == l.(queue := l.queue + [event], phase := Idle))
            && (r.Some? && l.open && |l.queue| >= l.capacity ==>
                  r.value == l.(skipped := if l.skipped < USIZE_MAX then l.skipped + 1 else l.skipped, phase := Idle))
            && (r.Some? && !l.open ==> r.value == l.(phase := Stopped(event)))
    ensures var r := Step(l, Send);
            r.Some? && l.skipped < USIZE_MAX ==>
              (r.value.skipped > l.skipped <==> l.open && |l.queue| >= l.capacity && !RequiresDelivery(l.phase.event))
  {
  }

  /** How many operations of a run met a full channel that was open. */
  function Congested(l: Link, actions: seq<Action>): nat
    decreases |actions|
  {
    if actions == [] then 0
    else match Step(l, actions[0])
      case None => 0
      case Some(next) => (if actions[0].Send? && l.open && |l.queue| >= l.capacity then 1 else 0) + Congested(next, actions[1..])
  }

  lemma {:induction false} CongestedConcat(l: Link, a: seq<Action>, b: seq<Action>)
    requires Run(l, a).Some?
    ensures Congested(l, a + b) == Congested(l, a) + Congested(Run(l, a).value, b)
    decreases |a|
  {
    hide Step;
    if a == [] {
      assert a + b == b;
    } else {
      assert (a + b)[1..] == a[1..] + b;
      CongestedConcat(Step(l, a[0]).value, a[1..], b);
    }
  }

  lemma CongestedOne(l: Link, a: Action)
    requires Step(l, a).Some?
    ensures Congested(l, [a]) == if a.Send? && l.open && |l.queue| >= l.capacity then 1 else 0
  {
    hide Step;
    assert [a][1..] == [];
  }

  // ------------------------------------------------------------------ accounting

  /** entries stand for events: a Lagged entry for that many best-effort events in a
      row, any other entry for itself. */
  predicate StandsFor(entries: seq<Event>, events: seq<Event>)
    decreases |entries|
  {
    if entries == [] then events == []
    else match entries[0]
      case Lagged(k) =>
        && k <= |events|
        && (forall i :: 0 <= i < k ==> !RequiresDelivery(events[i]))
        && StandsFor(entries[1..], events[k..])
      case _ => events != [] && entries[0] == events[0] && StandsFor(entries[1..], events[1..])
  }

  function Owed(skipped: nat): seq<Event> {
    if skipped == 0 then [] else [Lagged(skipped)]
  }

  /** The events whose fate is decided: all offered ones, but the one in hand. */
  function Settled(l: Link): seq<Event> {
    if l.phase.Idle? || l.offered == [] then l.offered else l.offered[..|l.offered| - 1]
  }

  /** What the consumer has been or will be given, markers still owed included. */
  function Given(l: Link): seq<Event> {
    l.received + l.queue + Owed(l.skipped)
  }

  ghost predicate Accounted(l: Link) {
    && StandsFor(Given(l), Settled(l))
    && l.skipped <= |Settled(l)|
    && |l.queue| <= l.capacity
    && (!l.phase.Idle? ==> l.offered != [] && l.offered[|l.offered| - 1] == l.phase.event && !l.phase.event.Lagged?)
    && (l.phase.AtMarker? ==> l.skipped > 0)
    && (l.phase.AtEvent? ==> l.skipped == 0)
  }

  lemma {:induction false} StandsForConcat(a: seq<Event>, b: seq<Event>, x: seq<Event>, y: seq<Event>)
    requires StandsFor(a, x) && StandsFor(b, y)
    ensures StandsFor(a + b, x + y)
    decreases |a|
  {
    if a == [] {
      assert a + b == b && x + y == y;
    } else {
      var k := if a[0].Lagged? then a[0].skipped else 1;
      StandsForConcat(a[1..], b, x[k..], y);
      assert (a + b)[1..] == a[1..] + b && (x + y)[k..] == x[k..] + y;
    }
  }

  lemma {:induction false} StandsForSplit(a: seq<Event>, b: seq<Event>, events: seq<Event>) returns (x: seq<Event>, y: seq<Event>)
    requires StandsFor(a + b, events)
    ensures events == x + y && StandsFor(a, x) && StandsFor(b, y)
    decreases |a|
  {
    if a == [] {
      assert a + b == b;
      x, y := [], events;
    } else {
      var k := if a[0].Lagged? then a[0].skipped else 1;
      assert (a + b)[1..] == a[1..] + b;
      var x', y' := StandsForSplit(a[1..], b, events[k..]);
      x, y := events[..k] + x', y';
      assert x[k..] == x';
      Associative(events[..k], x', y');
      Rejoin(events, k);
    }
  }

  lemma StandsForOne(entry: Event)
    requires !entry.Lagged?
    ensures StandsFor([entry], [entry])
  {
  }

  lemma StandsForRun(k: nat, events: seq<Event>)
    requires k > 0 && |events| == k && forall i :: 0 <= i < k ==> !RequiresDelivery(events[i])
    ensures StandsFor([Lagged(k)], events)
  {
  }

  /** One more best-effort event behind the owed ones makes the owed run longer. */
  lemma OweOneMore(front: seq<Event>, skipped: nat, events: seq<Event>, event: Event)
    requires StandsFor(front + Owed(skipped), events) && !RequiresDelivery(event)
    ensures StandsFor(front + Owed(skipped + 1), events + [event])
  {
    var x, y := StandsForSplit(front, Owed(skipped), events);
    assert skipped > 0 ==> |y| == skipped by {
      if skipped > 0 { assert [Lagged(skipped)][1..] == []; }
    }
    StandsForRun(skipped + 1, y + [event]);
    StandsForConcat(front, Owed(skipped + 1), x, y + [event]);
    Associative(x, y, [event]);
  }

  // ------------------------------------------------------------- the invariant

  lemma OfferKeepsAccounts(l: Link, event: Event)
    requires Accounted(l) && Step(l, Offer(event)).Some?
    ensures Accounted(Step(l, Offer(event)).value)
  {
    var m := Step(l, Offer(event)).value;
    assert m.offered[..|m.offered| - 1] == l.offered;
  }

  lemma SendKeepsAccounts(l: Link)
    requires Accounted(l) && Step(l, Send).Some? && |l.offered| <= USIZE_MAX
    ensures Accounted(Step(l, Send).value)
  {
    hide StandsFor;
    var m := Step(l, Send).value;
    var event := l.phase.event;
    var front, settled := l.received + l.queue, Settled(l);
    assert l.offered == settled + [event];
    if l.open {
      if IsFull(l) {
        OweOneMore(front, l.skipped, settled, event);
      } else if l.phase.AtMarker? {
        Associative(l.received, l.queue, [Lagged(l.skipped)]);
        assert m.received + m.queue + [] == m.received + m.queue;
      } else {
        assert front + [] == front;
        StandsForOne(event);
        StandsForConcat(front, [event], settled, [event]);
        Associative(l.received, l.queue, [event]);
        assert m.received + m.queue + [] == m.received + m.queue;
      }
    }
  }

  lemma ReceiveKeepsAccounts(l: Link)
    requires Accounted(l) && Step(l, Receive).Some?
    ensures Accounted(Step(l, Receive).value)
  {
    hide StandsFor;
    var m := Step(l, Receive).value;
    assert l.queue == [l.queue[0]] + l.queue[1..];
    Associative(l.received, [l.queue[0]], l.queue[1..]);
  }

  lemma StepKeepsAccounts(l: Link, a: Action)
    requires Accounted(l) && Step(l, a).Some? && |Step(l, a).value.offered| <= USIZE_MAX
    ensures Accounted(Step(l, a).value)
  {
    match a
    case Offer(event) => OfferKeepsAccounts(l, event);
    case Send => SendKeepsAccounts(l);
    case Receive => ReceiveKeepsAccounts(l);
    case CloseReceiver =>
  }

  lemma {:induction false} OfferedGrows(l: Link, actions: seq<Action>)
    requires Run(l, actions).Some?
    ensures l.offered <= Run(l, actions).value.offered && Run(l, actions).value.capacity == l.capacity
    decreases |actions|
  {
    if actions != [] {
      OfferedGrows(Step(l, actions[0]).value, actions[1..]);
    }
  }

  /** Every interleaving: what the consumer got, what waits in the channel and the
      marker still owed stand for exactly the events offered, in order. */
  lemma {:induction false} RunKeepsAccounts(l: Link, actions: seq<Action>)
    requires Accounted(l) && Run(l, actions).Some? && |Run(l, actions).value.offered| <= USIZE_MAX
    ensures Accounted(Run(l, actions).value)
    decreases |actions|
  {
    hide Accounted, Step;
    if actions != [] {
      var next := Step(l, actions[0]).value;
      OfferedGrows(next, actions[1..]);
      StepKeepsAccounts(l, actions[0]);
      RunKeepsAccounts(next, actions[1..]);
    }
  }

  // ----------------------------------------------------------- what follows

  function Lossless(events: seq<Event>): seq<Event> {
    if events == [] then []
    else (if RequiresDelivery(events[0]) then [events[0]] else []) + Lossless(events[1..])
  }

  /** How many events an entry stands for. */
  function Weight(entries: seq<Event>): nat {
    if entries == [] then 0
    else (if entries[0].Lagged? then entries[0].skipped else 1) + Weight(entries[1..])
  }

  lemma {:induction false} DropBestEffort(events: seq<Event>, k: nat)
    requires k <= |events| && forall i :: 0 <= i < k ==> !RequiresDelivery(events[i])
    ensures Lossless(events) == Lossless(events[k..])
    decreases k
  {
    if k == 0 {
      assert events[0..] == events;
    } else {
      DropBestEffort(events[1..], k - 1);
      assert events[1..][k - 1..] == events[k..];
    }
  }

  /** Nothing lossless is missing, repeated or reordered; every event is counted once. */
  lemma {:induction false} StandsForKeeps(entries: seq<Event>, events: seq<Event>)
    requires StandsFor(entries, events)
    ensures Lossless(entries) == Lossless(events)
    ensures Weight(entries) == |events|
    decreases |entries|
  {
    if entries != [] {
      var k := if entries[0].Lagged? then entries[0].skipped else 1;
      StandsForKeeps(entries[1..], events[k..]);
      if entries[0].Lagged? {
        DropBestEffort(events, k);
      }
    }
  }

  lemma {:induction false} LosslessConcat(a: seq<Event>, b: seq<Event>)
    ensures Lossless(a + b) == Lossless(a) + Lossless(b)
    ensures Weight(a + b) == Weight(a) + Weight(b)
  {
    if a == [] {
      assert a + b == b;
    } else {
      assert (a + b)[1..] == a[1..] + b;
      LosslessConcat(a[1..], b);
      Associative(if RequiresDelivery(a[0]) then [a[0]] else [], Lossless(a[1..]), Lossless(b));
    }
  }

  /** Over every interleaving: offered = delivered + lag counts + still owed, and the
      lossless events of what the channel was given are those that were offered. */
  lemma Conservation(capacity: nat, actions: seq<Action>)
    requires Run(NewLink(capacity), actions).Some?
    requires |Run(NewLink(capacity), actions).value.offered| <= USIZE_MAX
    ensures var l := Run(NewLink(capacity), actions).value;
            && |Settled(l)| == Weight(l.received + l.queue) + l.skipped
            && Lossless(l.received + l.queue) == Lossless(Settled(l))
            && |l.queue| <= capacity
  {
    hide StandsFor, Lossless, Weight;
    var l := Run(NewLink(capacity), actions).value;
    assert Accounted(NewLink(capacity)) by { NewIsAccounted(capacity); }
    OfferedGrows(NewLink(capacity), actions);
    RunKeepsAccounts(NewLink(capacity), actions);
    StandsForKeeps(Given(l), Settled(l));
    LosslessConcat(l.received + l.queue, Owed(l.skipped));
    OwedIs(l.skipped);
    assert Lossless(l.received + l.queue) + [] == Lossless(l.received + l.queue);
  }

  lemma NewIsAccounted(capacity: nat)
    ensures Accounted(NewLink(capacity))
  {
  }

  lemma OwedIs(skipped: nat)
    ensures Lossless(Owed(skipped)) == [] && Weight(Owed(skipped)) == skipped
  {
    if skipped > 0 { assert Owed(skipped)[1..] == []; }
  }

  // ------------------------------------------------------------ what is counted

  /** How many events the markers among these entries stand for. */
  function LagTotal(entries: seq<Event>): nat {
    if entries == [] then 0 else (if entries[0].Lagged? then entries[0].skipped else 0) + LagTotal(entries[1..])
  }

  lemma {:induction false} LagTotalConcat(a: seq<Event>, b: seq<Event>)
    ensures LagTotal(a + b) == LagTotal(a) + LagTotal(b)
  {
    if a == [] {
      assert a + b == b;
    } else {
      assert (a + b)[1..] == a[1..] + b;
      LagTotalConcat(a[1..], b);
    }
  }

  lemma LagTotalOne(entry: Event)
    ensures LagTotal([entry]) == if entry.Lagged? then entry.skipped else 0
    ensures LagTotal([]) == 0
  {
    assert [entry][1..] == [];
  }

  /** No marker stands for nothing. */
  ghost predicate NoEmptyMarker(entries: seq<Event>) {
    forall i :: 0 <= i < |entries| && entries[i].Lagged? ==> entries[i].skipped > 0
  }

  lemma SendCounts(l: Link)
    requires Accounted(l) && Step(l, Send).Some? && l.skipped < USIZE_MAX && NoEmptyMarker(l.received + l.queue)
    ensures var m := Step(l, Send).value;
            && NoEmptyMarker(m.received + m.queue)
            && LagTotal(m.received + m.queue) + m.skipped
            == LagTotal(l.received + l.queue) + l.skipped + if l.open && |l.queue| >= l.capacity then 1 else 0
  {
    hide StandsFor, LagTotal;
    var event, m := l.phase.event, Step(l, Send).value;
    if l.open && |l.queue| < l.capacity {
      var entry := if l.phase.AtMarker? then Lagged(l.skipped) else event;
      Associative(l.received, l.queue, [entry]);
      LagTotalConcat(l.received + l.queue, [entry]);
      LagTotalOne(entry);
      assert m.received + m.queue == l.received + l.queue + [entry];
    }
  }

  lemma StepCounts(l: Link, a: Action)
    requires Accounted(l) && Step(l, a).Some? && |Step(l, a).value.offered| <= USIZE_MAX && NoEmptyMarker(l.received + l.queue)
    ensures var m := Step(l, a).value;
            && NoEmptyMarker(m.received + m.queue)
            && LagTotal(m.received + m.queue) + m.skipped
            == LagTotal(l.received + l.queue) + l.skipped + if a.Send? && l.open && |l.queue| >= l.capacity then 1 else 0
  {
    hide StandsFor, LagTotal;
    if a.Send? {
      SendCounts(l);
    } else if a.Receive? {
      var m := Step(l, a).value;
      assert l.queue == [l.queue[0]] + l.queue[1..];
      Associative(l.received, [l.queue[0]], l.queue[1..]);
      assert m.received + m.queue == l.received + l.queue;
    }
  }

  lemma {:induction false} RunCounts(l: Link, actions: seq<Action>)
    requires Accounted(l) && Run(l, actions).Some? && |Run(l, actions).value.offered| <= USIZE_MAX
    requires NoEmptyMarker(l.received + l.queue)
    ensures var m := Run(l, actions).value;
            && LagTotal(m.received + m.queue) + m.skipped == LagTotal(l.received + l.queue) + l.skipped + Congested(l, actions)
            && NoEmptyMarker(m.received + m.queue)
    decreases |actions|
  {
    hide Accounted, Step, LagTotal, NoEmptyMarker;
    if actions != [] {
      var next := Step(l, actions[0]).value;
      OfferedGrows(next, actions[1..]);
      StepKeepsAccounts(l, actions[0]);
      StepCounts(l, actions[0]);
      RunCounts(next, actions[1..]);
    }
  }

  /** Over every interleaving: as many events are counted, or still owed, as operations
      met a full channel, no more and no fewer; all other events that are settled were
      put into the channel. */
  lemma CountedExactly(capacity: nat, actions: seq<Action>)
    requires Run(NewLink(capacity), actions).Some?
    requires |Run(NewLink(capacity), actions).value.offered| <= USIZE_MAX
    ensures var l := Run(NewLink(capacity), actions).value;
            && LagTotal(l.received + l.queue) + l.skipped == Congested(NewLink(capacity), actions)
            && |Settled(l)| == Weight(l.received + l.queue) - LagTotal(l.received + l.queue) + Congested(NewLink(capacity), actions)
  {
    hide Run, Congested, Accounted, Settled, Weight;
    NewIsAccounted(capacity);
    assert NewLink(capacity).received + NewLink(capacity).queue == [];
    Conservation(capacity, actions);
    RunCounts(NewLink(capacity), actions);
  }

  /** Where the channel is never full when an operation is tried, the consumer gets the
      events themselves: all that are settled, in order, and not one marker. */
  lemma UncongestedIsExact(capacity: nat, actions: seq<Action>)
    requires Run(NewLink(capacity), actions).Some? && Congested(NewLink(capacity), actions) == 0
    requires |Run(NewLink(capacity), actions).value.offered| <= USIZE_MAX
    ensures var l := Run(NewLink(capacity), actions).value;
            && l.skipped == 0 && l.received + l.queue == Settled(l)
            && forall i :: 0 <= i < |l.received + l.queue| ==> !(l.received + l.queue)[i].Lagged?
  {
    hide Run, Congested, StandsFor, Settled, LagTotal;
    var start := NewLink(capacity);
    var l := Run(start, actions).value;
    NewIsAccounted(capacity);
    LagTotalOne(Lagged(0));
    assert start.received + start.queue == [];
    RunCounts(start, actions);
    RunKeepsAccounts(start, actions);
    assert Given(l) == l.received + l.queue;
    NoMarkers(l.received + l.queue, Settled(l));
  }

  lemma {:induction false} NoMarkers(entries: seq<Event>, events: seq<Event>)
    requires StandsFor(entries, events) && NoEmptyMarker(entries) && LagTotal(entries) == 0
    ensures entries == events && forall i :: 0 <= i < |entries| ==> !entries[i].Lagged?
    decreases |entries|
  {
    if entries != [] {
      assert !entries[0].Lagged?;
      assert NoEmptyMarker(entries[1..]);
      NoMarkers(entries[1..], events[1..]);
      assert entries == [entries[0]] + entries[1..] && events == [events[0]] + events[1..];
    }
  }

  /** The producer waits only for a consumer that can move: when its operation is not
      enabled there is something to receive, and one receive enables it. */
  lemma BlockedSendCanProceed(l: Link)
    requires l.capacity > 0 && |l.queue| <= l.capacity && (l.phase.AtMarker? || l.phase.AtEvent?)
    ensures Step(l, Send).None? <==> l.open && IsFull(l) && RequiresDelivery(l.phase.event)
    ensures Step(l, Send).None? ==> Step(l, Receive).Some? && Step(Step(l, Receive).value, Send).Some?
  {
  }

  // ------------------------------------------------------------- forward_event

  datatype TrySend = Sent | Full | Closed

  /** What the consumer does between two looks of the producer at the channel. */
  datatype Gap = Gap(receives: nat, closes: bool)

  /** The channel and the counter; phase and the histories are bookkeeping for proofs. */
  class Forwarder {
    const capacity: nat
    var queue: seq<Event>
    var open: bool
    var skipped: nat
    ghost var phase: Phase
    ghost var offered: seq<Event>
    ghost var received: seq<Event>

    ghost function State(): Link
      reads this
    {
      Link(capacity, queue, open, skipped, phase, offered, received)
    }

    constructor (capacity: nat)
      requires capacity > 0
      ensures this.capacity == capacity && State() == NewLink(capacity)
    {
      this.capacity := capacity;
      queue, open, skipped := [], true, 0;
      phase, offered, received := Idle, [], [];
    }

    /** The consumer while the producer is not looking: it receives, and may go away. */
    method Consume(gap: Gap) returns (ghost trace: seq<Action>)
      modifies `queue, `received, `open
      ensures Run(old(State()), trace) == Some(State())
      ensures old(open) && gap.receives > 0 && old(queue) != [] ==> |queue| < |old(queue)|
      ensures |queue| <= |old(queue)|
      ensures open == (old(open) && !gap.closes)
      ensures received + queue == old(received + queue) && Congested(old(State()), trace) == 0
    {
      trace := [];
      var left := gap.receives;
      while left > 0 && open && queue != []
        invariant Run(old(State()), trace) == Some(State())
        invariant left <= gap.receives && |queue| <= |old(queue)| && open == old(open)
        invariant left < gap.receives ==> |queue| < |old(queue)|
        invariant received + queue == old(received + queue) && Congested(old(State()), trace) == 0
        decreases left
      {
        RunSnoc(old(State()), trace, Receive);
        CongestedConcat(old(State()), trace, [Receive]);
        CongestedOne(State(), Receive);
        assert queue == [queue[0]] + queue[1..];
        Associative(received, [queue[0]], queue[1..]);
        received := received + [queue[0]];
        queue := queue[1..];
        trace := trace + [Receive];
        left := left - 1;
      }
      if gap.closes {
        RunSnoc(old(State()), trace, CloseReceiver);
        CongestedConcat(old(State()), trace, [CloseReceiver]);
        CongestedOne(State(), CloseReceiver);
        open := false;
        trace := trace + [CloseReceiver];
      }
    }

    /** `Sender::try_send`. */
    method TrySendNow(event: Event) returns (r: TrySend)
      modifies `queue
      ensures r == if !open then Closed else if |old(queue)| >= capacity then Full else Sent
      ensures queue == if r == Sent then old(queue) + [event] else old(queue)
    {
      if !open {
        return Closed;
      }
      if |queue| >= capacity {
        return Full;
      }
      queue := queue + [event];
      return Sent;
    }

    /** `Sender::send`: while it waits the consumer receives, at least until there is
        room, unless it goes away. */
    method SendWhenRoom(event: Event, gap: Gap) returns (ok: bool, ghost trace: seq<Action>)
      requires capacity > 0 && |queue| <= capacity
      modifies `queue, `received, `open
      ensures ok == open == (old(open) && !gap.closes)
      ensures Run(old(State()), trace).Some?
      ensures var waited := Run(old(State()), trace).value;
              && waited.(queue := queue) == State()
              && (open ==> !IsFull(waited))
              && queue == if open then waited.queue + [event] else waited.queue
      ensures |queue| <= capacity && Congested(old(State()), trace) == 0
      ensures received + queue == if ok then old(received + queue) + [event] else old(received + queue)
    {
      trace := Consume(gap);
      if !open {
        return false, trace;
      }
      if |queue| >= capacity {
        ghost var more := Consume(Gap(1, false));
        RunConcat(old(State()), trace, more);
        CongestedConcat(old(State()), trace, more);
        trace := trace + more;
      }
      Associative(received, queue, [event]);
      queue := queue + [event];
      return true, trace;
    }

    /** The owed marker, before the event itself. */
    method SendMarker(event: Event, gap: Gap) returns (r: TrySend, ghost trace: seq<Action>)
      requires phase == AtMarker(event) && skipped > 0 && capacity > 0 && |queue| <= capacity
      modifies this
      ensures Run(old(State()), trace) == Some(State())
      ensures r.Sent? ==> phase == AtEvent(event) && skipped == 0
      ensures r.Full? ==> phase.Idle? && !RequiresDelivery(event)
      ensures r.Closed? ==> phase == Stopped(event) && !open
      ensures offered == old(offered) && |queue| <= capacity && (open ==> old(open))
      ensures Congested(old(State()), trace) == if r.Full? then 1 else 0
      ensures received + queue == old(received + queue) + if r.Sent? then [Lagged(old(skipped))] else []
      ensures r.Full? ==> skipped == if old(skipped) < USIZE_MAX then old(skipped) + 1 else old(skipped)
    {
      hide Run, Congested;
      ghost var start := State();
      var lagged := Lagged(skipped);
      if RequiresDelivery(event) {
        var ok;
        ok, trace := SendWhenRoom(lagged, gap);
        r := if ok then Sent else Closed;
      } else {
        trace := Consume(gap);
        r := TrySendNow(lagged);
      }
      ghost var met := Run(start, trace).value;
      match r {
        case Sent =>
          skipped := 0;
          phase := AtEvent(event);
        case Full =>
          skipped := SaturatingInc(skipped);
          phase := Idle;
        case Closed =>
          phase := Stopped(event);
      }
      RunSnoc(start, trace, Send);
      CongestedConcat(start, trace, [Send]);
      CongestedOne(met, Send);
      trace := trace + [Send];
    }

    method SendEvent(event: Event, gap: Gap) returns (ok: bool, ghost trace: seq<Action>)
      requires phase == AtEvent(event) && skipped == 0 && capacity > 0 && |queue| <= capacity
      modifies this
      ensures Run(old(State()), trace) == Some(State())
      ensures ok ==> phase.Idle? && (RequiresDelivery(event) ==> open)
      ensures !ok ==> phase == Stopped(event) && !open
      ensures offered == old(offered) && |queue| <= capacity && (open ==> old(open))
      ensures !ok ==> Congested(old(State()), trace) == 0 && received + queue == old(received + queue) && skipped == 0
      ensures ok ==> if Congested(old(State()), trace) == 0 then received + queue == old(received + queue) + [event] && skipped == 0
                     else Congested(old(State()), trace) == 1 && !RequiresDelivery(event)
                          && received + queue == old(received + queue) && skipped == 1
    {
      hide Run, Congested;
      ghost var start := State();
      if RequiresDelivery(event) {
        ok, trace := SendWhenRoom(event, gap);
      } else {
        trace := Consume(gap);
        var r := TrySendNow(event);
        ok := r != Closed;
        if r == Full {
          skipped := SaturatingInc(skipped);
        }
      }
      ghost var met := Run(start, trace).value;
      phase := if ok then Idle else Stopped(event);
      RunSnoc(start, trace, Send);
      CongestedConcat(start, trace, [Send]);
      CongestedOne(met, Send);
      trace := trace + [Send];
    }

    /** `forward_event`. first and second say what the consumer does before each of its
        two channel operations. Every call is a run of the step system, and it fails
        only when the receiver has gone away. When it does not, and met no full channel,
        the channel was given the marker that was owed, if any, and the event; otherwise
        the event is counted, behind the marker if that one got through. */
    method ForwardEvent(event: Event, first: Gap, second: Gap) returns (ok: bool, ghost trace: seq<Action>)
      requires !event.Lagged? && phase.Idle? && capacity > 0 && |queue| <= capacity
      modifies this
      ensures |trace| > 0 && trace[0] == Offer(event)
      ensures Run(old(State()), trace) == Some(State())
      ensures ok <==> phase.Idle?
      ensures !ok ==> phase == Stopped(event) && !open
      ensures ok && RequiresDelivery(event) ==> open
      ensures offered == old(offered) + [event] && |queue| <= capacity && (open ==> old(open))
      ensures ok && Congested(old(State()), trace) == 0 ==>
                skipped == 0
                && received + queue == old(received + queue) + (if old(skipped) > 0 then [Lagged(old(skipped))] else []) + [event]
      ensures ok && Congested(old(State()), trace) > 0 ==>
                && Congested(old(State()), trace) == 1 && !RequiresDelivery(event)
                && (|| (received + queue == old(received + queue)
                        && skipped == if old(skipped) < USIZE_MAX then old(skipped) + 1 else old(skipped))
                    || (old(skipped) > 0 && received + queue == old(received + queue) + [Lagged(old(skipped))] && skipped == 1))
    {
      hide Run, Congested;
      ghost var start := State();
      ghost var more: seq<Action>;
      offered := offered + [event];
      phase := if skipped > 0 then AtMarker(event) else AtEvent(event);
      trace := [Offer(event)];
      RunOffer(start, event);
      CongestedOne(start, Offer(event));
      hide Step;
      if skipped > 0 {
        var r;
        r, more := SendMarker(event, first);
        RunConcat(start, trace, more);
        CongestedConcat(start, trace, more);
        trace := trace + more;
        if r != Sent {
          return r == Full, trace;
        }
      }
      ok, more := SendEvent(event, second);
      RunConcat(start, trace, more);
      CongestedConcat(start, trace, more);
      trace := trace + more;
    }
  }

  lemma RunOffer(l: Link, event: Event)
    ensures Run(l, [Offer(event)]) == Step(l, Offer(event))
  {
    assert [Offer(event)][1..] == [];
  }

  lemma {:induction false} RunConcat(l: Link, a: seq<Action>, b: seq<Action>)
    ensures Run(l, a + b) == match Run(l, a) case None => None case Some(m) => Run(m, b)
    decreases |a|
  {
    hide Step;
    if a == [] {
      assert a + b == b;
    } else {
      assert (a + b)[1..] == a[1..] + b;
      match Step(l, a[0])
      case None =>
      case Some(next) => RunConcat(next, a[1..], b);
    }
  }
}
