/**
 From the server's per-conversation numbering, over a link that may repeat anything
 it has already carried, to the client reader that drops repeats, answers pending
 requests and forwards the rest.
 */
module TransportReader {
  import opened Wrappers
  import opened Sequences
  import opened Protocol
  import opened EventDelivery

  datatype Envelope = Envelope(message: ServerMessage, eventSeq: Option<nat>)

  // -------------------------------------------------------- the server numbers

  function Count(messages: seq<ServerMessage>, conversation: string): nat {
    if messages == [] then 0
    else
      var n := |messages| - 1;
      Count(messages[..n], conversation) + if messages[n].conversationId == conversation then 1 else 0
  }

  /** Message i carries how many messages of its conversation there are up to it. */
  function Numbered(messages: seq<ServerMessage>): (r: seq<Envelope>)
    ensures |r| == |messages|
    ensures forall i :: 0 <= i < |r| ==> r[i] == Envelope(messages[i], Some(Count(messages[..i + 1], messages[i].conversationId)))
  {
    seq(|messages|, i requires 0 <= i < |messages| =>
      Envelope(messages[i], Some(Count(messages[..i + 1], messages[i].conversationId))))
  }

  /** The numbers of a conversation are 1, 2, 3 and so on: its first message carries 1,
      every later one carries one more than the one before it. */
  lemma NumbersCountUp(messages: seq<ServerMessage>, i: nat, j: nat)
    requires j < i < |messages| && messages[j].conversationId == messages[i].conversationId
    requires forall k :: j < k < i ==> messages[k].conversationId != messages[i].conversationId
    ensures Numbered(messages)[i].eventSeq == Some(Numbered(messages)[j].eventSeq.value + 1)
  {
    hide Count;
    var c := messages[i].conversationId;
    NoneBetween(messages, c, j + 1, i);
    CountStep(messages, i);
    assert Numbered(messages)[i].eventSeq == Some(Count(messages[..i + 1], c));
    assert Numbered(messages)[j].eventSeq == Some(Count(messages[..j + 1], c));
  }

  lemma FirstIsOne(messages: seq<ServerMessage>, i: nat)
    requires i < |messages| && forall k :: 0 <= k < i ==> messages[k].conversationId != messages[i].conversationId
    ensures Numbered(messages)[i] == Envelope(messages[i], Some(1))
  {
    hide Count;
    NothingCounted();
    NoneBetween(messages, messages[i].conversationId, 0, i);
    assert messages[..0] == [];
    CountStep(messages, i);
    assert Numbered(messages)[i] == Envelope(messages[i], Some(Count(messages[..i + 1], messages[i].conversationId)));
  }

  lemma {:induction false} NoneBetween(messages: seq<ServerMessage>, c: string, a: nat, b: nat)
    requires a <= b <= |messages| && forall k :: a <= k < b ==> messages[k].conversationId != c
    ensures Count(messages[..b], c) == Count(messages[..a], c)
    decreases b
  {
    hide Count;
    if a < b {
      NoneBetween(messages, c, a, b - 1);
      CountStep(messages, b - 1);
    }
  }

  function Lookup(m: map<string, nat>, key: string): nat {
    if key in m then m[key] else 0
  }

  lemma NothingCounted()
    ensures forall c :: Count([], c) == 0
  {
  }

  lemma CountStep(messages: seq<ServerMessage>, i: nat)
    requires i < |messages|
    ensures forall c :: Count(messages[..i + 1], c) == Count(messages[..i], c) + if messages[i].conversationId == c then 1 else 0
  {
    assert messages[..i + 1][..i] == messages[..i];
  }

  /** The `forward_events` task: one counter for each conversation. */
  method NumberMessages(messages: seq<ServerMessage>) returns (sent: seq<Envelope>)
    ensures sent == Numbered(messages)
  {
    hide Numbered, Count;
    NothingCounted();
    var seqByConversation: map<string, nat> := map[];
    sent := [];
    assert messages[..0] == [];
    for i := 0 to |messages|
      invariant sent == Numbered(messages)[..i]
      invariant forall c :: Lookup(seqByConversation, c) == Count(messages[..i], c)
    {
      var conversation := messages[i].conversationId;
      CountStep(messages, i);
      var next := Lookup(seqByConversation, conversation) + 1;
      ghost var before := seqByConversation;
      seqByConversation := seqByConversation[conversation := next];
      assert forall c :: Lookup(seqByConversation, c) == if c == conversation then next else Lookup(before, c);
      assert Numbered(messages)[..i + 1] == Numbered(messages)[..i] + [Numbered(messages)[i]];
      sent := sent + [Envelope(messages[i], Some(next))];
    }
    assert Numbered(messages)[..|messages|] == Numbered(messages);
  }

  // ---------------------------------------------------------- the link repeats

  /** wire carries the first pos envelopes of sent in order; anything else on it is a
      repeat of an envelope that has been on it before. */
  ghost predicate Carries(sent: seq<Envelope>, wire: seq<Envelope>, pos: nat)
    decreases |wire|
  {
    if wire == [] then pos == 0
    else
      var n := |wire| - 1;
      || (0 < pos <= |sent| && wire[n] == sent[pos - 1] && Carries(sent, wire[..n], pos - 1))
      || (pos <= |sent| && wire[n] in sent[..pos] && Carries(sent, wire[..n], pos))
  }

  // ---------------------------------------------------- the client drops repeats

  /** The highest sequence number seen for a conversation; numbers start at 1. */
  function MaxSeq(wire: seq<Envelope>, conversation: string): nat {
    if wire == [] then 0
    else
      var n := |wire| - 1;
      var m := MaxSeq(wire[..n], conversation);
      var e := wire[n];
      if e.message.conversationId == conversation && e.eventSeq.Some? && e.eventSeq.value > m then e.eventSeq.value else m
  }

  lemma MaxSeqSnoc(wire: seq<Envelope>, e: Envelope, c: string)
    ensures var m := MaxSeq(wire, c);
            MaxSeq(wire + [e], c) ==
            if e.message.conversationId == c && e.eventSeq.Some? && e.eventSeq.value > m then e.eventSeq.value else m
  {
    assert (wire + [e])[..|wire|] == wire;
  }

  /** Unnumbered messages always pass; numbered ones must beat all before them. */
  predicate IsFresh(past: seq<Envelope>, e: Envelope) {
    e.eventSeq.None? || e.eventSeq.value > MaxSeq(past, e.message.conversationId)
  }

  function Accepted(wire: seq<Envelope>): seq<Envelope> {
    if wire == [] then []
    else
      var n := |wire| - 1;
      Accepted(wire[..n]) + if IsFresh(wire[..n], wire[n]) then [wire[n]] else []
  }

  /** Without a number, or with one above 0 and above all before it of its conversation. */
  ghost predicate Surpasses(past: seq<Envelope>, e: Envelope) {
    e.eventSeq.Some? ==>
      && e.eventSeq.value > 0
      && forall i :: 0 <= i < |past| && SameNumbering(past[i], e) ==> past[i].eventSeq.value < e.eventSeq.value
  }

  lemma {:induction false} MaxSeqBounds(wire: seq<Envelope>, c: string, n: nat)
    ensures MaxSeq(wire, c) < n <==>
            n > 0 && forall i :: 0 <= i < |wire| && wire[i].message.conversationId == c && wire[i].eventSeq.Some? ==> wire[i].eventSeq.value < n
    decreases |wire|
  {
    if wire != [] {
      MaxSeqBounds(wire[..|wire| - 1], c, n);
    }
  }

  /** Exactly these arrivals are accepted, in the order in which they come. */
  lemma AcceptedExactly(wire: seq<Envelope>, i: nat)
    requires i < |wire|
    ensures Accepted(wire[..i + 1]) == Accepted(wire[..i]) + if Surpasses(wire[..i], wire[i]) then [wire[i]] else []
  {
    hide MaxSeq;
    assert wire[..i + 1][..i] == wire[..i];
    var past, e := wire[..i], wire[i];
    if e.eventSeq.Some? {
      MaxSeqBounds(past, e.message.conversationId, e.eventSeq.value);
      assert IsFresh(past, e) <==> Surpasses(past, e);
    }
  }

  /** Bounded by the highest number seen, and increasing within a conversation. */
  ghost predicate Increasing(a: seq<Envelope>, wire: seq<Envelope>) {
    && (forall i :: 0 <= i < |a| && a[i].eventSeq.Some? ==> a[i].eventSeq.value <= MaxSeq(wire, a[i].message.conversationId))
    && (forall i, j :: 0 <= i < j < |a| && SameNumbering(a[i], a[j]) ==> a[i].eventSeq.value < a[j].eventSeq.value)
  }

  predicate SameNumbering(a: Envelope, b: Envelope) {
    a.eventSeq.Some? && b.eventSeq.Some? && a.message.conversationId == b.message.conversationId
  }

  /** Whatever arrives, the numbers accepted for a conversation strictly increase. */
  lemma {:induction false} AcceptedIncrease(wire: seq<Envelope>)
    ensures Increasing(Accepted(wire), wire)
    decreases |wire|
  {
    if wire != [] {
      var n := |wire| - 1;
      AcceptedIncrease(wire[..n]);
      assert forall c :: MaxSeq(wire[..n], c) <= MaxSeq(wire, c);
    }
  }

  lemma {:induction false} CountMonotone(messages: seq<ServerMessage>, i: nat, c: string)
    requires i <= |messages|
    ensures Count(messages[..i], c) <= Count(messages, c)
    ensures i < |messages| && messages[i].conversationId == c ==> Count(messages[..i], c) < Count(messages[..i + 1], c) <= Count(messages, c)
    decreases |messages|
  {
    var n := |messages| - 1;
    if i <= n {
      assert messages[..i + 1][..i] == messages[..i];
      assert messages[..n][..i] == messages[..i];
      CountMonotone(messages[..n], i, c);
      if i < n { assert messages[..n][..i + 1] == messages[..i + 1]; }
      else { assert messages[..i + 1] == messages; }
    } else {
      assert messages[..i] == messages;
    }
  }

  /** The reader is where the sender was after pos messages. */
  ghost predicate InStep(messages: seq<ServerMessage>, wire: seq<Envelope>, pos: nat) {
    && pos <= |messages|
    && Accepted(wire) == Numbered(messages)[..pos]
    && forall c :: MaxSeq(wire, c) == Count(messages[..pos], c)
  }

  lemma NewIsAccepted(messages: seq<ServerMessage>, past: seq<Envelope>, pos: nat)
    requires pos < |messages| && InStep(messages, past, pos)
    ensures InStep(messages, past + [Numbered(messages)[pos]], pos + 1)
  {
    var e := Numbered(messages)[pos];
    assert (past + [e])[..|past|] == past;
    assert messages[..pos + 1][..pos] == messages[..pos];
    assert Numbered(messages)[..pos + 1] == Numbered(messages)[..pos] + [e];
    forall c ensures MaxSeq(past + [e], c) == Count(messages[..pos + 1], c) {
      MaxSeqSnoc(past, e, c);
      assert MaxSeq(past, c) == Count(messages[..pos], c);
    }
  }

  lemma RepeatIsDropped(messages: seq<ServerMessage>, past: seq<Envelope>, pos: nat, i: nat)
    requires i < pos <= |messages| && InStep(messages, past, pos)
    ensures InStep(messages, past + [Numbered(messages)[i]], pos)
  {
    var e := Numbered(messages)[i];
    assert (past + [e])[..|past|] == past;
    assert messages[..pos][..i + 1] == messages[..i + 1] && messages[..pos][i] == messages[i];
    CountMonotone(messages[..pos], i, e.message.conversationId);
    assert Accepted(past) + [] == Accepted(past);
  }

  lemma LastIsNewOrRepeat(sent: seq<Envelope>, wire: seq<Envelope>, pos: nat) returns (isNew: bool, i: nat)
    requires wire != [] && Carries(sent, wire, pos)
    ensures wire == wire[..|wire| - 1] + [wire[|wire| - 1]]
    ensures isNew ==> 0 < pos <= |sent| && wire[|wire| - 1] == sent[pos - 1] && Carries(sent, wire[..|wire| - 1], pos - 1)
    ensures !isNew ==> i < pos <= |sent| && sent[i] == wire[|wire| - 1] && Carries(sent, wire[..|wire| - 1], pos)
  {
    var n := |wire| - 1;
    i := 0;
    isNew := 0 < pos <= |sent| && wire[n] == sent[pos - 1] && Carries(sent, wire[..n], pos - 1);
    if !isNew {
      i :| 0 <= i < pos && sent[i] == wire[n];
    }
  }

  /** Over such a link every message is accepted exactly once, in the order sent. */
  lemma {:induction false} AcceptsEachOnce(messages: seq<ServerMessage>, wire: seq<Envelope>, pos: nat)
    requires Carries(Numbered(messages), wire, pos)
    ensures InStep(messages, wire, pos)
    decreases |wire|
  {
    if wire == [] {
      assert messages[..0] == [];
    } else {
      hide InStep, Numbered, Count, Carries;
      var past := wire[..|wire| - 1];
      var isNew, i := LastIsNewOrRepeat(Numbered(messages), wire, pos);
      if isNew {
        AcceptsEachOnce(messages, past, pos - 1);
        NewIsAccepted(messages, past, pos - 1);
      } else {
        AcceptsEachOnce(messages, past, pos);
        RepeatIsDropped(messages, past, pos, i);
      }
    }
  }

  // ------------------------------------------------------------- the reader loop

  datatype Line =
    | Response(id: int, result: string)
    | ErrorReply(id: int, error: string)
    | FromServer(envelope: Envelope)
    | Unreadable

  datatype Outcome = Answered(result: string) | Refused(error: string) | BrokenPipe

  datatype End = Drained | ReceiverGone | ParseFailure

  function Envelopes(lines: seq<Line>): seq<Envelope> {
    if lines == [] then []
    else
      var n := |lines| - 1;
      Envelopes(lines[..n]) + if lines[n].FromServer? then [lines[n].envelope] else []
  }

  /** The first reply to a request decides it. */
  function FirstReply(lines: seq<Line>, id: int): Option<Outcome> {
    if lines == [] then None
    else
      var n := |lines| - 1;
      var earlier := FirstReply(lines[..n], id);
      if earlier.Some? then earlier
      else if lines[n].Response? && lines[n].id == id then Some(Answered(lines[n].result))
      else if lines[n].ErrorReply? && lines[n].id == id then Some(Refused(lines[n].error))
      else None
  }

  /** Line i is the first that answers the request. */
  ghost predicate IsFirstReply(lines: seq<Line>, id: int, i: nat) {
    && i < |lines| && (lines[i].Response? || lines[i].ErrorReply?) && lines[i].id == id
    && forall j :: 0 <= j < i && (lines[j].Response? || lines[j].ErrorReply?) ==> lines[j].id != id
  }

  lemma {:induction false} FirstReplyIs(lines: seq<Line>, id: int) returns (i: nat)
    ensures FirstReply(lines, id).Some? ==> IsFirstReply(lines, id, i)
    ensures match FirstReply(lines, id)
            case None => forall j :: 0 <= j < |lines| && (lines[j].Response? || lines[j].ErrorReply?) ==> lines[j].id != id
            case Some(Answered(result)) => lines[i] == Response(id, result)
            case Some(Refused(error)) => lines[i] == ErrorReply(id, error)
            case Some(BrokenPipe) => false
    decreases |lines|
  {
    i := 0;
    if lines != [] {
      var n := |lines| - 1;
      i := FirstReplyIs(lines[..n], id);
      if FirstReply(lines[..n], id).None? { i := n; }
    }
  }

  function Messages(envelopes: seq<Envelope>): (events: seq<Event>)
    ensures |events| == |envelopes|
    ensures forall i :: 0 <= i < |events| ==> events[i] == Message(envelopes[i].message)
  {
    seq(|envelopes|, i requires 0 <= i < |envelopes| => Message(envelopes[i].message))
  }

  /** What the reader has forwarded after these lines. */
  function Forwarded(lines: seq<Line>): seq<Event> {
    Messages(Accepted(Envelopes(lines)))
  }

  /** outcomes is what the pending requests have received so far. */
  ghost predicate Decided(lines: seq<Line>, pending: set<int>, left: set<int>, outcomes: map<int, Outcome>) {
    && left <= pending && outcomes.Keys == pending - left
    && (forall id :: id in pending ==> (id in left <==> FirstReply(lines, id).None?))
    && (forall id :: id in outcomes ==> FirstReply(lines, id) == Some(outcomes[id]))
  }

  /** The map of last numbers mirrors what has been on the wire. */
  ghost predicate Tracks(last: map<string, nat>, wire: seq<Envelope>) {
    forall c :: Lookup(last, c) == MaxSeq(wire, c)
  }

  lemma EnvelopeStep(lines: seq<Line>, i: nat)
    requires i < |lines|
    ensures var past := Envelopes(lines[..i]);
            && (!lines[i].FromServer? ==> Envelopes(lines[..i + 1]) == past && Forwarded(lines[..i + 1]) == Forwarded(lines[..i]))
            && (lines[i].FromServer? ==>
                  && Envelopes(lines[..i + 1]) == past + [lines[i].envelope]
                  && Forwarded(lines[..i + 1]) == Forwarded(lines[..i]) +
                     if IsFresh(past, lines[i].envelope) then [Message(lines[i].envelope.message)] else [])
  {
    hide IsFresh;
    assert lines[..i + 1][..i] == lines[..i];
    var past := Envelopes(lines[..i]);
    assert past + [] == past;
    if lines[i].FromServer? {
      var e := lines[i].envelope;
      assert (past + [e])[..|past|] == past;
      var more := if IsFresh(past, e) then [e] else [];
      assert Accepted(past + [e]) == Accepted(past) + more;
      assert Messages(Accepted(past) + more) == Messages(Accepted(past)) + Messages(more);
    }
  }

  lemma TrackStep(last: map<string, nat>, wire: seq<Envelope>, e: Envelope)
    requires Tracks(last, wire)
    ensures e.eventSeq.None? ==> Tracks(last, wire + [e])
    ensures e.eventSeq.Some? ==> (IsFresh(wire, e) <==> e.eventSeq.value > Lookup(last, e.message.conversationId))
    ensures e.eventSeq.Some? && !IsFresh(wire, e) ==> Tracks(last, wire + [e])
    ensures e.eventSeq.Some? && IsFresh(wire, e) ==> Tracks(last[e.message.conversationId := e.eventSeq.value], wire + [e])
  {
    assert (wire + [e])[..|wire|] == wire;
    if e.eventSeq.Some? && IsFresh(wire, e) {
      var conversation, number := e.message.conversationId, e.eventSeq.value;
      forall c ensures Lookup(last[conversation := number], c) == MaxSeq(wire + [e], c) {
        MaxSeqSnoc(wire, e, c);
      }
    }
  }

  lemma DecideStep(lines: seq<Line>, i: nat, pending: set<int>, left: set<int>, outcomes: map<int, Outcome>)
    requires i < |lines| && Decided(lines[..i], pending, left, outcomes)
    ensures lines[i].FromServer? || lines[i].Unreadable? ==> Decided(lines[..i + 1], pending, left, outcomes)
    ensures lines[i].Response? || lines[i].ErrorReply? ==>
              var outcome := if lines[i].Response? then Answered(lines[i].result) else Refused(lines[i].error);
              if lines[i].id in left then Decided(lines[..i + 1], pending, left - {lines[i].id}, outcomes[lines[i].id := outcome])
              else Decided(lines[..i + 1], pending, left, outcomes)
  {
    assert lines[..i + 1][..i] == lines[..i];
  }

  /** `read_transport_messages_from`; the stdio reader runs the same loop. schedule says
      what the consumer does during each forwarded event. read counts whole lines. */
  method ReadTransportMessages(f: Forwarder, lines: seq<Line>, pending: set<int>, schedule: nat -> (Gap, Gap), reason: string)
      returns (end: End, outcomes: map<int, Outcome>, ghost read: nat, ghost trace: seq<Action>)
    requires f.phase.Idle? && f.capacity > 0 && |f.queue| <= f.capacity
    modifies f
    ensures Run(old(f.State()), trace) == Some(f.State())
    ensures read <= |lines| && forall i :: 0 <= i < read ==> !lines[i].Unreadable?
    ensures f.offered == old(f.offered) + Forwarded(lines[..read]) + if end == Drained then [Disconnected(reason)] else []
    ensures end == Drained ==> read == |lines|
    ensures end == ParseFailure ==> read < |lines| && lines[read].Unreadable?
    ensures end == ReceiverGone ==> f.phase.Stopped? && !f.open
    ensures end == ParseFailure ==> f.phase.Idle?
    ensures f.open ==> old(f.open) && f.phase.Idle?
    ensures end == Drained ==> outcomes.Keys == pending
    ensures forall id :: id in outcomes ==>
              id in pending && outcomes[id] == match FirstReply(lines[..read], id) case Some(o) => o case None => BrokenPipe
    ensures end != Drained ==> outcomes.Keys == set id | id in pending && FirstReply(lines[..read], id).Some?
  {
    hide Run, Accepted, Envelopes, IsFresh, FirstReply, Forwarded, Tracks;
    ghost var start := f.State();
    ghost var more: seq<Action>;
    var left := pending;
    var lastSeqByConversation: map<string, nat> := map[];
    outcomes, read, trace := map[], 0, [];
    assert lines[..0] == [];
    ReadNothing(start, pending);
    assert f.offered + [] == f.offered;
    var i := 0;
    while i < |lines|
      invariant 0 <= i == read <= |lines| && forall k :: 0 <= k < i ==> !lines[k].Unreadable?
      invariant f.phase.Idle? && f.capacity > 0 && |f.queue| <= f.capacity && (f.open ==> old(f.open))
      invariant Run(start, trace) == Some(f.State())
      invariant f.offered == old(f.offered) + Forwarded(lines[..i])
      invariant Tracks(lastSeqByConversation, Envelopes(lines[..i]))
      invariant Decided(lines[..i], pending, left, outcomes)
      decreases |lines| - i
    {
      EnvelopeStep(lines, i);
      DecideStep(lines, i, pending, left, outcomes);
      match lines[i] {
      case Unreadable =>
        assert old(f.offered) + Forwarded(lines[..i]) + [] == old(f.offered) + Forwarded(lines[..i]);
        return ParseFailure, outcomes, read, trace;
      case Response(id, result) =>
        if id in left {
          left, outcomes := left - {id}, outcomes[id := Answered(result)];
        }
      case ErrorReply(id, error) =>
        if id in left {
          left, outcomes := left - {id}, outcomes[id := Refused(error)];
        }
      case FromServer(envelope) =>
        var conversation := envelope.message.conversationId;
        TrackStep(lastSeqByConversation, Envelopes(lines[..i]), envelope);
        var stale := envelope.eventSeq.Some? && envelope.eventSeq.value <= Lookup(lastSeqByConversation, conversation);
        if envelope.eventSeq.None? { UnnumberedIsFresh(Envelopes(lines[..i]), envelope); }
        if !stale {
          if envelope.eventSeq.Some? {
            lastSeqByConversation := lastSeqByConversation[conversation := envelope.eventSeq.value];
          }
          var ok;
          ghost var here := f.State();
          ok, more := f.ForwardEvent(Message(envelope.message), schedule(i).0, schedule(i).1);
          RunConcat(start, trace, more);
          trace := trace + more;
          Associative(old(f.offered), Forwarded(lines[..i]), [Message(envelope.message)]);
          if !ok {
            read := i + 1;
            assert old(f.offered) + Forwarded(lines[..i + 1]) + [] == old(f.offered) + Forwarded(lines[..i + 1]);
            return ReceiverGone, outcomes, read, trace;
          }
        }
      }
      i := i + 1;
      read := i;
    }
    assert lines[..i] == lines;
    // Drain: requests nobody answered fail with a broken pipe.
    outcomes := map id | id in pending :: if id in outcomes then outcomes[id] else BrokenPipe;
    var _, last := f.ForwardEvent(Disconnected(reason), schedule(i).0, schedule(i).1);
    RunConcat(start, trace, last);
    trace := trace + last;
    end := Drained;
  }

  lemma ReadNothing(start: Link, pending: set<int>)
    ensures Run(start, []) == Some(start) && Forwarded([]) == [] && Tracks(map[], Envelopes([]))
    ensures Decided([], pending, pending, map[])
  {
  }

  lemma UnnumberedIsFresh(past: seq<Envelope>, e: Envelope)
    requires e.eventSeq.None?
    ensures IsFresh(past, e)
  {
  }
}
