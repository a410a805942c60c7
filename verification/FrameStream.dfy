/**
 The loop that turns a response body into a channel of frames: every frame as soon
 as it is complete, then exactly one terminal error. The body, its end and the idle
 timer are a list of events; the receiver may go away after any number of items.
 */
module FrameStream {
  import opened Wrappers
  import opened Sequences
  import opened Utf8
  import opened SseDecoder

  datatype BodyEvent = Chunk(bytes: seq<byte>) | Closed | Failed(message: string) | TimedOut

  datatype StreamError = ClosedBeforeCompletion | Transport(message: string) | IdleTimeout | FirstFrameTimeout

  datatype Item = Frame(text: seq<byte>) | Failure(error: StreamError)

  function Items(frames: seq<seq<byte>>): (items: seq<Item>)
    ensures |items| == |frames|
    ensures forall i :: 0 <= i < |frames| ==> items[i] == Frame(frames[i])
  {
    seq(|frames|, i requires 0 <= i < |frames| => Frame(frames[i]))
  }

  /** The chunks read before the body ended, and how it ended, if it did. */
  function Body(events: seq<BodyEvent>): seq<seq<byte>> {
    if events == [] || !events[0].Chunk? then [] else [events[0].bytes] + Body(events[1..])
  }

  function Ending(events: seq<BodyEvent>): (r: Option<BodyEvent>)
    ensures r.Some? ==> !r.value.Chunk?
  {
    if events == [] then None else if events[0].Chunk? then Ending(events[1..]) else Some(events[0])
  }

  function ErrorFor(ending: BodyEvent, sawFrame: bool): StreamError
    requires !ending.Chunk?
  {
    match ending
    case Closed => ClosedBeforeCompletion
    case Failed(message) => Transport(message)
    case TimedOut => if sawFrame then IdleTimeout else FirstFrameTimeout
  }

  /** What remains to be sent once the bytes in past have been handled. */
  function Outcome(past: seq<byte>, events: seq<BodyEvent>): seq<Item>
    decreases |events|
  {
    if events == [] then []
    else match events[0]
      case Chunk(bytes) => Items(Push(Whole(past).state, bytes).frames) + Outcome(past + bytes, events[1..])
      case _ => [Failure(ErrorFor(events[0], Whole(past).frames != []))]
  }

  /** The loop of `spawn_sse_frame_stream`; accepted is how many sends succeed before
      the receiver is dropped. */
  method PumpFrames(events: seq<BodyEvent>, accepted: nat) returns (sent: seq<Item>)
    ensures sent <= Outcome([], events) && |sent| == Least(|Outcome([], events)|, accepted)
  {
    hide Push, Decode, Cut, Frames, Upto, Whole, ErrorFor;
    var decoder := new SseFrameDecoder();
    var sawFrame := false;
    sent := [];
    ghost var past := [];
    assert Whole([]) == Pushed([], START) by { WholeOfNothing(); }
    ghost var all := Outcome([], events);
    assert events[0..] == events && [] + all == all;
    var i := 0;
    while i < |events|
      invariant 0 <= i <= |events|
      invariant fresh(decoder) && decoder.IsResting()
      invariant decoder.Abstract() == Whole(past).state
      invariant sawFrame <==> Whole(past).frames != []
      invariant |sent| <= accepted && all == sent + Outcome(past, events[i..])
      decreases |events| - i
    {
      ghost var rest := events[i..];
      assert rest[0] == events[i] && rest[1..] == events[i + 1..];
      if !events[i].Chunk? {
        sent := Upto(sent + [Failure(ErrorFor(events[i], sawFrame))], accepted);
        UptoIs(all, accepted);
        return;
      }
      PushAfterWhole(past, events[i].bytes);
      var frames := decoder.PushChunk(events[i].bytes);
      past := past + events[i].bytes;
      Associative(sent, Items(frames), Outcome(past, events[i + 1..]));
      var j := 0;
      ghost var before, sawBefore := sent, sawFrame;
      while j < |frames|
        invariant 0 <= j <= |frames|
        invariant |sent| <= accepted
        invariant sent == before + Items(frames)[..j]
        invariant sawFrame <==> j > 0 || sawBefore
        modifies {}
        decreases |frames| - j
      {
        sawFrame := true;
        if |sent| == accepted {
          return;
        }
        Associative(before, Items(frames)[..j], [Frame(frames[j])]);
        assert Items(frames)[..j + 1] == Items(frames)[..j] + [Frame(frames[j])];
        sent := sent + [Frame(frames[j])];
        j := j + 1;
      }
      assert Items(frames)[..j] == Items(frames);
      i := i + 1;
    }
    assert sent + [] == sent;
  }

  function Upto(items: seq<Item>, n: nat): seq<Item> {
    if |items| <= n then items else items[..n]
  }

  lemma UptoIs(items: seq<Item>, n: nat)
    ensures Upto(items, n) <= items && |Upto(items, n)| == Least(|items|, n)
  {
  }

  lemma WholeOfNothing()
    ensures Whole([]) == Pushed([], START)
  {
  }

  /** The one error a body that ended is closed with. */
  function Last(ending: Option<BodyEvent>, sawFrame: bool): seq<Item>
    requires ending.Some? ==> !ending.value.Chunk?
  {
    match ending
    case None => []
    case Some(e) => [Failure(ErrorFor(e, sawFrame))]
  }

  lemma {:induction false} OutcomeIsWhole(past: seq<byte>, events: seq<BodyEvent>)
    ensures var frames := Whole(past + Flatten(Body(events))).frames;
            Items(Whole(past).frames) + Outcome(past, events) == Items(frames) + Last(Ending(events), frames != [])
    decreases |events|
  {
    hide Push, Decode, Cut, Frames;
    if events == [] || !events[0].Chunk? {
      assert past + Flatten(Body(events)) == past;
    } else {
      var bytes := events[0].bytes;
      PushAfterWhole(past, bytes);
      OutcomeIsWhole(past + bytes, events[1..]);
      Associative(past, bytes, Flatten(Body(events[1..])));
      var frames, more := Whole(past).frames, Push(Whole(past).state, bytes).frames;
      assert Items(frames + more) == Items(frames) + Items(more);
      Associative(Items(frames), Items(more), Outcome(past + bytes, events[1..]));
      assert Body(events)[1..] == Body(events[1..]);
    }
  }

  /** The channel carries the frames of the body, whatever its chunking, and then
      exactly one error if the body ended. */
  lemma FramesThenOneError(events: seq<BodyEvent>)
    ensures var frames := Whole(Flatten(Body(events))).frames;
            Outcome([], events) == Items(frames) + Last(Ending(events), frames != [])
  {
    WholeOfNothing();
    hide Whole, Outcome, Body, Ending, Flatten, Last;
    OutcomeIsWhole([], events);
    assert [] + Flatten(Body(events)) == Flatten(Body(events));
    assert Items([]) + Outcome([], events) == Outcome([], events);
  }

  /** Two runs over the same bytes that end alike cannot be told apart. */
  lemma StreamChunkIndependence(events: seq<BodyEvent>, others: seq<BodyEvent>)
    requires Flatten(Body(events)) == Flatten(Body(others)) && Ending(events) == Ending(others)
    ensures Outcome([], events) == Outcome([], others)
  {
    FramesThenOneError(events);
    FramesThenOneError(others);
  }

  /** What closes the channel: nothing while the body is open, and otherwise one error
      behind the frames, which names the way the body ended. */
  lemma ClosingError(events: seq<BodyEvent>)
    ensures var all := Outcome([], events);
            match Ending(events)
            case None => forall i :: 0 <= i < |all| ==> all[i].Frame?
            case Some(ending) =>
              && |all| > 0 && (forall i :: 0 <= i < |all| - 1 ==> all[i].Frame?)
              && (ending == Closed ==> all[|all| - 1] == Failure(ClosedBeforeCompletion))
              && (ending.Failed? ==> all[|all| - 1] == Failure(Transport(ending.message)))
              && (ending == TimedOut ==> all[|all| - 1] == Failure(if |all| == 1 then FirstFrameTimeout else IdleTimeout))
  {
    hide Whole, Outcome, Body, Flatten, Ending;
    FramesThenOneError(events);
  }

  /** Where the body ends: the first event that is not a chunk, behind all chunks read. */
  lemma {:induction false} EndsAfterBody(events: seq<BodyEvent>)
    ensures var n := |Body(events)|;
            && n <= |events|
            && (forall i :: 0 <= i < n ==> events[i] == Chunk(Body(events)[i]))
            && (if n < |events| then !events[n].Chunk? && Ending(events) == Some(events[n]) else Ending(events) == None)
  {
    if events != [] && events[0].Chunk? {
      EndsAfterBody(events[1..]);
    }
  }

  /** A timeout is reported as the first-frame kind exactly when no frame was sent. */
  lemma TimeoutKind(events: seq<BodyEvent>)
    requires Ending(events) == Some(TimedOut)
    ensures var all := Outcome([], events);
            && |all| > 0
            && (all[|all| - 1] == Failure(FirstFrameTimeout) <==> forall i :: 0 <= i < |all| ==> !all[i].Frame?)
            && (all[|all| - 1] == Failure(IdleTimeout) <==> exists i :: 0 <= i < |all| && all[i].Frame?)
            && (forall i :: 0 <= i < |all| - 1 ==> all[i].Frame?)
  {
    hide Whole, Outcome, Body, Flatten, Ending;
    FramesThenOneError(events);
    var frames := Whole(Flatten(Body(events))).frames;
    var all := Outcome([], events);
    assert all == Items(frames) + [all[|all| - 1]];
    if frames != [] {
      assert all[0] == Items(frames)[0];
    }
  }
}
