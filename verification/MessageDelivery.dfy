/**
 Server, link, client reader and event channel together. The client cannot parse every
 message the server may write; it gets exactly the messages before the first such one.
 */
module MessageDelivery {
  import opened Wrappers
  import opened Protocol
  import opened EventDelivery
  import opened TransportReader

  // -------------------------------------------------------- what the client reads

  /** A line the server wrote, as the client parses it. */
  function Parsed(line: Line): Line {
    if line.FromServer? && !CanBeRead(line.envelope.message) then Unreadable else line
  }

  function ParsedAll(written: seq<Line>): (lines: seq<Line>)
    ensures |lines| == |written|
    ensures forall i :: 0 <= i < |lines| ==> lines[i] == Parsed(written[i])
  {
    seq(|written|, i requires 0 <= i < |written| => Parsed(written[i]))
  }

  /** How many lines are read before one that cannot be. */
  function ReadCount(lines: seq<Line>): (n: nat)
    ensures n <= |lines| && (n < |lines| ==> lines[n].Unreadable?)
    ensures forall i :: 0 <= i < n ==> !lines[i].Unreadable?
  {
    if lines == [] || lines[0].Unreadable? then 0 else 1 + ReadCount(lines[1..])
  }

  /** How many messages come before one the client cannot parse. */
  function ReadableCount(messages: seq<ServerMessage>): (n: nat)
    ensures n <= |messages| && (n < |messages| ==> !CanBeRead(messages[n]))
    ensures forall i :: 0 <= i < n ==> CanBeRead(messages[i])
  {
    if messages == [] || !CanBeRead(messages[0]) then 0 else 1 + ReadableCount(messages[1..])
  }

  ghost predicate IsWritten(written: seq<Line>) {
    forall line :: line in written ==> !line.Unreadable?
  }

  // ------------------------------------------------------------- parts of the wire

  lemma {:induction false} EnvelopesUpTo(lines: seq<Line>, k: nat)
    requires k <= |lines|
    ensures Envelopes(lines[..k]) <= Envelopes(lines)
    ensures k < |lines| && lines[k].FromServer? ==>
              |Envelopes(lines[..k])| < |Envelopes(lines)| && Envelopes(lines)[|Envelopes(lines[..k])|] == lines[k].envelope
    decreases |lines|
  {
    if k == |lines| {
      assert lines[..k] == lines;
    } else {
      var n := |lines| - 1;
      EnvelopesUpTo(lines[..n], k);
      assert lines[..n][..k] == lines[..k];
      if k == n {
        assert lines[..k] == lines[..n];
      }
    }
  }

  lemma {:induction false} EnvelopeHasLine(lines: seq<Line>, e: Envelope)
    requires e in Envelopes(lines)
    ensures FromServer(e) in lines
    decreases |lines|
  {
    var n := |lines| - 1;
    if e in Envelopes(lines[..n]) {
      EnvelopeHasLine(lines[..n], e);
    }
  }

  /** Up to any point the link has carried a first part of what it carries in all, and
      what comes next is the next message or a repeat. */
  lemma {:induction false} CarriesUpTo(sent: seq<Envelope>, wire: seq<Envelope>, pos: nat, n: nat) returns (part: nat)
    requires Carries(sent, wire, pos) && n <= |wire|
    ensures part <= pos <= |sent| && Carries(sent, wire[..n], part)
    ensures n == |wire| ==> part == pos
    ensures n < |wire| ==> (part < pos && wire[n] == sent[part]) || wire[n] in sent[..part]
    decreases |wire|
  {
    CarriesAtMost(sent, wire, pos);
    part := pos;
    if n == |wire| {
      assert wire[..n] == wire;
    } else {
      var m := |wire| - 1;
      var isNew, i := LastIsNewOrRepeat(sent, wire, pos);
      part := CarriesUpTo(sent, wire[..m], if isNew then pos - 1 else pos, n);
      assert wire[..m][..n] == wire[..n];
      if n == m && !isNew {
        assert sent[..part][i] == wire[n];
      }
    }
  }

  lemma {:induction false} CarriesAtMost(sent: seq<Envelope>, wire: seq<Envelope>, pos: nat)
    requires Carries(sent, wire, pos)
    ensures pos <= |sent| && forall i :: 0 <= i < pos ==> sent[i] in wire
    decreases |wire|
  {
    if wire != [] {
      var isNew, i := LastIsNewOrRepeat(sent, wire, pos);
      CarriesAtMost(sent, wire[..|wire| - 1], if isNew then pos - 1 else pos);
    }
  }

  // --------------------------------------------------------------- the exact extent

  /** A readable part of the link's lines carries readable messages only. */
  lemma ReadableCarried(messages: seq<ServerMessage>, lines: seq<Line>, pos: nat)
    requires Carries(Numbered(messages), Envelopes(lines), pos)
    requires forall line :: line in lines ==> Parsed(line) == line && !line.Unreadable?
    ensures pos <= ReadableCount(messages)
  {
    hide Carries, Envelopes, CanBeRead;
    CarriesAtMost(Numbered(messages), Envelopes(lines), pos);
    forall i | 0 <= i < pos ensures CanBeRead(messages[i]) {
      EnvelopeHasLine(lines, Numbered(messages)[i]);
      assert Parsed(FromServer(Numbered(messages)[i])) == FromServer(Numbered(messages)[i]);
    }
  }

  /** The line that stops the reader is the first message it cannot parse. */
  lemma StopsAtFirst(messages: seq<ServerMessage>, part: nat, pos: nat, e: Envelope)
    requires part <= pos <= |messages| && part <= ReadableCount(messages) && !CanBeRead(e.message)
    requires (part < pos && e == Numbered(messages)[part]) || e in Numbered(messages)[..part]
    ensures part == ReadableCount(messages) < pos
  {
    hide CanBeRead, ReadableCount;
    var repeated := e in Numbered(messages)[..part];
    assert !repeated by {
      assert forall i :: 0 <= i < part ==> CanBeRead(Numbered(messages)[..part][i].message);
    }
  }

  /** Of what the link carried the client reads to the end exactly when it can parse all
      of it; what it forwards is each message before the first it cannot, once. */
  lemma ReadsUpToFirst(messages: seq<ServerMessage>, written: seq<Line>, pos: nat)
    requires IsWritten(written) && Carries(Numbered(messages), Envelopes(written), pos)
    ensures pos <= |messages|
    ensures var r := ReadCount(ParsedAll(written));
            && (r == |written| <==> pos <= ReadableCount(messages))
            && Forwarded(ParsedAll(written)[..r]) == Messages(Numbered(messages)[..Least(pos, ReadableCount(messages))])
  {
    hide Carries, Envelopes, Accepted, CanBeRead, ReadCount, ReadableCount, Numbered, Messages;
    var r := ReadCount(ParsedAll(written));
    var sent := Numbered(messages);
    var front := written[..r];
    ReadablePart(written);
    EnvelopesUpTo(written, r);
    var n := |Envelopes(front)|;
    var part := CarriesUpTo(sent, Envelopes(written), pos, n);
    assert Envelopes(written)[..n] == Envelopes(front);
    ReadableCarried(messages, front, part);
    AcceptsEachOnce(messages, Envelopes(front), part);
    if r == |written| {
      assert front == written;
    } else {
      StopsAtFirst(messages, part, pos, written[r].envelope);
    }
  }

  /** The lines before the one that cannot be read, if any, and that line. */
  lemma ReadablePart(written: seq<Line>)
    requires IsWritten(written)
    ensures var r := ReadCount(ParsedAll(written));
            && ParsedAll(written)[..r] == written[..r]
            && (forall line :: line in written[..r] ==> Parsed(line) == line && !line.Unreadable?)
            && (r < |written| ==> written[r].FromServer? && !CanBeRead(written[r].envelope.message))
  {
    hide ReadCount, CanBeRead;
    var lines := ParsedAll(written);
    var r := ReadCount(lines);
    forall i | 0 <= i < |written| ensures !written[i].Unreadable? && lines[i] == Parsed(written[i]) {
      assert written[i] in written;
    }
  }

  predicate AddsSummaryPart(message: ServerMessage) {
    message.Notification? && message.kind.ReasoningSummaryPartAdded?
  }

  /** ReadableCount in the sender's terms: the one notification the client's parser does
      not list is the one it cannot read. */
  lemma AllReadable(messages: seq<ServerMessage>, pos: nat)
    requires pos <= |messages|
    ensures pos <= ReadableCount(messages) <==> forall i :: 0 <= i < pos ==> !AddsSummaryPart(messages[i])
  {
    hide ReadableCount;
  }

  lemma {:induction false} ForwardedGrows(lines: seq<Line>, a: nat, b: nat)
    requires a <= b <= |lines|
    ensures Forwarded(lines[..a]) <= Forwarded(lines[..b])
    decreases b
  {
    hide Forwarded, Envelopes, IsFresh;
    if a < b {
      ForwardedGrows(lines, a, b - 1);
      EnvelopeStep(lines, b - 1);
    }
  }

  // -------------------------------------------------------------------- end to end

  /** Between calls of the producer everything offered is accounted for. */
  lemma AtRest(capacity: nat, actions: seq<Action>)
    requires Run(NewLink(capacity), actions).Some?
    requires var l := Run(NewLink(capacity), actions).value; l.phase.Idle? && |l.offered| <= USIZE_MAX
    ensures var l := Run(NewLink(capacity), actions).value;
            && StandsFor(l.received + l.queue + Owed(l.skipped), l.offered)
            && Lossless(l.received + l.queue) == Lossless(l.offered)
            && Weight(l.received + l.queue) + l.skipped == |l.offered|
  {
    hide StandsFor, Lossless, Weight, Run, Owed;
    Conservation(capacity, actions);
    NewIsAccounted(capacity);
    RunKeepsAccounts(NewLink(capacity), actions);
  }

  /** What the client has been given, or is still owed, stands for these events. */
  ghost predicate Delivers(l: Link, events: seq<Event>) {
    && StandsFor(l.received + l.queue + Owed(l.skipped), events)
    && Lossless(l.received + l.queue) == Lossless(events)
    && Weight(l.received + l.queue) + l.skipped == |events|
  }

  /** The messages of the server that get through, and the notice of the end. */
  ghost function Through(messages: seq<ServerMessage>, pos: nat, end: End, reason: string): seq<Event>
    requires pos <= |messages|
  {
    Messages(Numbered(messages)[..Least(pos, ReadableCount(messages))]) + if end == Drained then [Disconnected(reason)] else []
  }

  /** The whole way, over a link that repeats anything anywhere, with any congestion. As
      long as the receiver stays, the reader drains the stream exactly when the client
      can parse every message carried; the client is given, or owed the count of, each
      message before the first one it cannot parse, once and in order, and every
      lossless one of these; all later ones are lost. Where no operation met a full
      channel, it is given these messages themselves and nothing else. */
  method EndToEnd(messages: seq<ServerMessage>, written: seq<Line>, ghost pos: nat, pending: set<int>, capacity: nat,
                  schedule: nat -> (Gap, Gap), reason: string)
      returns (f: Forwarder, end: End, outcomes: map<int, Outcome>, ghost trace: seq<Action>)
    requires IsWritten(written) && Carries(Numbered(messages), Envelopes(written), pos)
    requires capacity > 0 && |messages| < USIZE_MAX
    ensures fresh(f) && pos <= |messages|
    ensures f.open ==> (end == Drained <==> forall i :: 0 <= i < pos ==> !AddsSummaryPart(messages[i]))
    ensures Run(NewLink(capacity), trace) == Some(f.State())
    ensures f.open && Congested(NewLink(capacity), trace) == 0 ==>
              f.received + f.queue == Through(messages, pos, end, reason) && f.skipped == 0
    ensures f.open ==> Delivers(f.State(), Through(messages, pos, end, reason))
    ensures f.open && end == Drained ==> outcomes.Keys == pending
    ensures f.open && end != Drained ==>
              outcomes.Keys == set id | id in pending && FirstReply(ParsedAll(written)[..ReadCount(ParsedAll(written))], id).Some?
    ensures Accounted(f.State()) && f.offered <= Through(messages, pos, end, reason)
  {
    hide Carries, Envelopes, Accepted, CanBeRead, Run, StandsFor, Lossless, Weight, Forwarded, FirstReply, ReadCount, ReadableCount;
    hide Accounted, Congested;
    f := new Forwarder(capacity);
    ghost var start := f.State();
    var lines := ParsedAll(written);
    ghost var read: nat;
    end, outcomes, read, trace := ReadTransportMessages(f, lines, pending, schedule, reason);
    ReadsUpToFirst(messages, written, pos);
    AllReadable(messages, pos);
    ReadIs(lines, read, end);
    ForwardedGrows(lines, read, ReadCount(lines));
    assert [] + Forwarded(lines[..read]) == Forwarded(lines[..read]);
    NewIsAccounted(capacity);
    RunKeepsAccounts(start, trace);
    if f.open {
      AtRest(capacity, trace);
      if Congested(start, trace) == 0 {
        UncongestedIsExact(capacity, trace);
      }
    }
  }

  lemma ReadIs(lines: seq<Line>, read: nat, end: End)
    requires read <= |lines| && forall i :: 0 <= i < read ==> !lines[i].Unreadable?
    requires end == Drained ==> read == |lines|
    requires end == ParseFailure ==> read < |lines| && lines[read].Unreadable?
    ensures read <= ReadCount(lines) && (end != ReceiverGone ==> read == ReadCount(lines))
    ensures end == Drained ==> ReadCount(lines) == |lines|
    ensures end == ParseFailure ==> ReadCount(lines) < |lines|
  {
    hide ReadCount;
    var r := ReadCount(lines);
    assert r < |lines| ==> lines[r].Unreadable?;
  }

  /** The disconnection notice is best effort. */
  lemma ThroughIsLossless(messages: seq<ServerMessage>, pos: nat, end: End, reason: string)
    requires pos <= |messages|
    ensures Lossless(Through(messages, pos, end, reason)) == Lossless(Messages(Numbered(messages)[..Least(pos, ReadableCount(messages))]))
  {
    hide Messages;
    var given := Messages(Numbered(messages)[..Least(pos, ReadableCount(messages))]);
    var closing := if end == Drained then [Disconnected(reason)] else [];
    LosslessConcat(given, closing);
    assert Lossless(closing) == [];
    assert Lossless(given) + [] == Lossless(given);
  }

  /** Where every message can be parsed, all of them get through. */
  lemma AllGetThrough(messages: seq<ServerMessage>, reason: string)
    requires forall m :: m in messages ==> CanBeRead(m)
    ensures Through(messages, |messages|, Drained, reason) == Messages(Numbered(messages)) + [Disconnected(reason)]
  {
    hide CanBeRead;
    assert ReadableCount(messages) == |messages|;
    assert Numbered(messages)[..|messages|] == Numbered(messages);
  }

  /** A server whose first message adds a reasoning summary part delivers nothing at all,
      although that message, for one, must be delivered. */
  lemma SummaryPartEndsReading(messages: seq<ServerMessage>, written: seq<Line>, pos: nat)
    requires IsWritten(written) && Carries(Numbered(messages), Envelopes(written), pos)
    requires messages != [] && messages[0].Notification? && messages[0].kind.ReasoningSummaryPartAdded?
    ensures RequiresDelivery(Message(messages[0]))
    ensures Forwarded(ParsedAll(written)[..ReadCount(ParsedAll(written))]) == []
    ensures pos > 0 ==> ReadCount(ParsedAll(written)) < |written|
  {
    hide Carries, Envelopes, Forwarded;
    ReadsUpToFirst(messages, written, pos);
    assert ReadableCount(messages) == 0;
  }

  /** Such an input: the one message, carried once. */
  lemma SummaryPart(c: string, body: string, written: seq<Line>)
    requires written == [FromServer(Numbered([Notification(ReasoningSummaryPartAdded, c, body)])[0])]
    ensures IsWritten(written) && Carries(Numbered([Notification(ReasoningSummaryPartAdded, c, body)]), Envelopes(written), 1)
  {
    hide Numbered;
    var sent := Numbered([Notification(ReasoningSummaryPartAdded, c, body)]);
    assert written[..0] == [] && Envelopes(written) == [sent[0]];
    assert [sent[0]][..0] == [];
  }
}
