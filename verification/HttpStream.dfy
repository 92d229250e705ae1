/** Decoding a whole response stream: what repeated polls deliver does not depend on how the octets arrived. */
module HttpStream {
  import opened Prelude
  import opened Network
  import opened HttpSyntax
  import opened HttpFraming
  import opened HttpParser

  /** How decoding ends; in either case with what is left over. */
  datatype Outcome = Waiting(next: Parser) | Stopped(error: HttpError, left: Parser)

  datatype Decoded = Decoded(responses: seq<Response>, outcome: Outcome) {
    function Prepend(response: Response): Decoded {
      this.(responses := [response] + responses)
    }

    function PrependAll(earlier: seq<Response>): Decoded {
      this.(responses := earlier + responses)
    }
  }

  /** The one-shot decoder: all octets are there from the start, and then the stream ends as `ending` says. */
  function DecodeAll(p: Parser, ending: Ending): Decoded
    decreases |p.buffer|, p.Rank()
  {
    match Advance(p)
    case Emit(response, next) => DecodeAll(next, ending).Prepend(response)
    case Fault(error, next) => Decoded([], Stopped(error, next))
    case Starved(next) =>
      match ending
      case Open => Decoded([], Waiting(next))
      case Broken => Decoded([], Stopped(ReadFailed, next))
      case Closed =>
        match AtEnd(next).poll
        case Ready(response) => DecodeAll(AtEnd(next).next, ending).Prepend(response)
        case Failed(error) => Decoded([], Stopped(error, AtEnd(next).next))
        case NotReady => Decoded([], Waiting(next))
  }

  /** Polls until the decoder fails or nothing more is scripted, as every caller of the decoder does. */
  function RunPolls(p: Parser, script: seq<ReadEvent>, ending: Ending): Decoded
    decreases |script|, |p.buffer|, p.Rank()
  {
    var polled := PollScript(p, script, ending);
    match polled.poll
    case Ready(response) => RunPolls(polled.next, polled.script, ending).Prepend(response)
    case Failed(error) => Decoded([], Stopped(error, polled.next.Append(Arriving(polled.script))))
    case NotReady =>
      if script == [] then Decoded([], Waiting(polled.next)) else RunPolls(polled.next, polled.script, ending)
  }

  /** `polled` is the first step of the decoding `whole`, and the octets still to come account for the rest. */
  ghost predicate FirstStep(polled: Polled, whole: Decoded, ending: Ending) {
    var left := polled.next.Append(Arriving(polled.script));
    match polled.poll
    case Ready(response) => whole == DecodeAll(left, ending).Prepend(response)
    case NotReady => whole == DecodeAll(left, ending)
    case Failed(error) => whole == Decoded([], Stopped(error, left))
  }

  lemma SameAdvanceSameDecoding(p: Parser, q: Parser, ending: Ending)
    requires Advance(p) == Advance(q)
    ensures DecodeAll(p, ending) == DecodeAll(q, ending)
  {
  }

  lemma PollAtTheEnd(p: Parser, ending: Ending)
    ensures FirstStep(PollScript(p, [], ending), DecodeAll(p, ending), ending)
  {
    var polled := PollScript(p, [], ending);
    assert polled.next.Append(Arriving([])) == polled.next;
    if Advance(p).Starved? {
      StarvedStays(p);
      SameAdvanceSameDecoding(p, Advance(p).next, ending);
    }
  }

  lemma PollWithoutReading(p: Parser, script: seq<ReadEvent>, ending: Ending)
    requires !Advance(p).Starved?
    ensures FirstStep(PollScript(p, script, ending), DecodeAll(p.Append(Arriving(script)), ending), ending)
  {
    AdvanceAppend(p, Arriving(script));
  }

  /** One poll takes exactly the first step of the one-shot decoding of everything that is still to come. */
  lemma {:induction false} PollDecodes(p: Parser, script: seq<ReadEvent>, ending: Ending)
    ensures FirstStep(PollScript(p, script, ending), DecodeAll(p.Append(Arriving(script)), ending), ending)
    decreases |script|
  {
    hide DecodeAll;
    if !Advance(p).Starved? {
      PollWithoutReading(p, script, ending);
    } else if script == [] {
      PollAtTheEnd(p, ending);
      assert p.Append(Arriving(script)) == p;
    } else {
      var q := Advance(p).next;
      var whole := DecodeAll(p.Append(Arriving(script)), ending);
      assert whole == DecodeAll(q.Append(Arriving(script)), ending) by {
        AdvanceAppend(p, Arriving(script));
        SameAdvanceSameDecoding(p.Append(Arriving(script)), q.Append(Arriving(script)), ending);
      }
      if script[0].Data? {
        var fed := q.Append(script[0].piece);
        assert q.Append(Arriving(script)) == fed.Append(Arriving(script[1..]));
        PollDecodes(fed, script[1..], ending);
        assert PollScript(p, script, ending) == PollScript(fed, script[1..], ending);
      } else {
        assert Arriving(script) == Arriving(script[1..]);
        assert PollScript(p, script, ending) == Polled(NotReady, q, script[1..]);
      }
    }
  }

  // ---- What a poll leaves -----------------------------------------------------------------------------------

  /** `later` is the decoder after it has read some octets and delivered some responses: whatever comes next, it goes on
    * as it would have from the start. */
  ghost predicate GoesOn(p: Parser, read: bytes, delivered: seq<Response>, later: Parser) {
    forall more, e ::
      DecodeAll(p.Append(read + more), e) == DecodeAll(later.Append(more), e).PrependAll(delivered)
  }

  lemma GoesOnWithPiece(p: Parser, piece: bytes)
    ensures GoesOn(p, piece, [], p.Append(piece))
  {
    hide DecodeAll;
    forall more, e
      ensures DecodeAll(p.Append(piece + more), e) == DecodeAll(p.Append(piece).Append(more), e).PrependAll([])
    {
      assert p.Append(piece + more) == p.Append(piece).Append(more);
      assert [] + DecodeAll(p.Append(piece + more), e).responses == DecodeAll(p.Append(piece + more), e).responses;
    }
  }

  /** Advancing reads nothing. */
  lemma GoesOnAdvanced(p: Parser)
    ensures Advance(p).Starved? ==> GoesOn(p, [], [], Advance(p).next)
    ensures Advance(p).Emit? ==> GoesOn(p, [], [Advance(p).response], Advance(p).next)
  {
    var delivered := if Advance(p).Emit? then [Advance(p).response] else [];
    forall more, e | !Advance(p).Fault?
      ensures DecodeAll(p.Append([] + more), e) == DecodeAll(Advance(p).next.Append(more), e).PrependAll(delivered)
    {
      assert [] + more == more;
      AdvanceAppend(p, more);
      if Advance(p).Starved? {
        SameAdvanceSameDecoding(p.Append(more), Advance(p).next.Append(more), e);
        assert [] + DecodeAll(p.Append(more), e).responses == DecodeAll(p.Append(more), e).responses;
      }
    }
  }

  lemma GoesOnThen(p: Parser, a: bytes, some: seq<Response>, q: Parser, b: bytes, more: seq<Response>, r: Parser)
    requires GoesOn(p, a, some, q) && GoesOn(q, b, more, r)
    ensures GoesOn(p, a + b, some + more, r)
  {
    hide DecodeAll;
    forall octets, e
      ensures DecodeAll(p.Append(a + b + octets), e) == DecodeAll(r.Append(octets), e).PrependAll(some + more)
    {
      Regroup(a, b, octets);
      Regroup(some, more, DecodeAll(r.Append(octets), e).responses);
      assert DecodeAll(p.Append(a + (b + octets)), e) == DecodeAll(q.Append(b + octets), e).PrependAll(some);
    }
  }

  lemma AfterPiece(p: Parser, piece: bytes, read: bytes, some: seq<Response>, later: Parser)
    requires Advance(p).Starved? && GoesOn(Advance(p).next.Append(piece), read, some, later)
    ensures GoesOn(p, piece + read, some, later)
  {
    hide DecodeAll, GoesOn;
    var q := Advance(p).next;
    GoesOnAdvanced(p);
    GoesOnWithPiece(q, piece);
    GoesOnThen(p, [], [], q, piece, [], q.Append(piece));
    assert [] + piece == piece && [] + some == some;
    var none: seq<Response> := [];
    assert none + none == none;
    GoesOnThen(p, piece, [], q.Append(piece), read, some, later);
  }

  /** What a poll has come to, and what it leaves. */
  ghost predicate Leaves(p: Parser, read: bytes, polled: Polled, ending: Ending) {
    match polled.poll
    case NotReady => GoesOn(p, read, [], polled.next) && Advance(polled.next) == Starved(polled.next)
    case Ready(response) => GoesOn(p, read, [response], polled.next) || (polled.script == [] && ending.Closed?)
    case Failed(_) => true
  }

  /** A poll reads some octets and delivers what it delivers, and leaves the decoder so that it goes on with the rest;
    * if it delivers nothing, then nothing that was read is left to be delivered. Only at the end of a closed stream may
    * a response be delivered because nothing follows. */
  lemma {:induction false} PollGoesOn(p: Parser, script: seq<ReadEvent>, ending: Ending) returns (read: bytes)
    ensures var polled := PollScript(p, script, ending);
      Arriving(script) == read + Arriving(polled.script) && Leaves(p, read, polled, ending)
    decreases |script|
  {
    hide DecodeAll, GoesOn;
    read := [];
    GoesOnAdvanced(p);
    if Advance(p).Starved? {
      StarvedStays(p);
      if script != [] && script[0].Data? {
        var piece := script[0].piece;
        var q := Advance(p).next.Append(piece);
        var later := PollGoesOn(q, script[1..], ending);
        read := piece + later;
        var polled := PollScript(q, script[1..], ending);
        assert PollScript(p, script, ending) == polled;
        Regroup(piece, later, Arriving(polled.script));
        var some := if polled.poll.Ready? then [polled.poll.response] else [];
        if GoesOn(q, later, some, polled.next) {
          AfterPiece(p, piece, later, some, polled.next);
        }
      }
    }
  }

  /** Where the decoder is starved, everything that can be decoded from the octets read has been delivered. */
  lemma CaughtUp(p: Parser, read: bytes, delivered: seq<Response>, later: Parser)
    requires GoesOn(p, read, delivered, later) && Advance(later) == Starved(later)
    ensures DecodeAll(p.Append(read), Open).responses == delivered
  {
    assert read + [] == read && later.Append([]) == later;
    assert DecodeAll(p.Append(read + []), Open) == DecodeAll(later.Append([]), Open).PrependAll(delivered);
  }

  /** An error that the decoder, or the stream under it, can come to. */
  predicate IsDecodingError(error: HttpError) {
    !error.WriteFailed? && !error.WriteBlocked? && !error.ResponseWithoutRequest?
  }

  lemma {:induction false} FaultsAreDecodingErrors(p: Parser)
    ensures Advance(p).Fault? ==> IsDecodingError(Advance(p).error)
    decreases |p.buffer|
  {
    if Step(p).Go? {
      FaultsAreDecodingErrors(Step(p).next);
    }
  }

  lemma {:induction false} PollErrorsAreDecodingErrors(p: Parser, script: seq<ReadEvent>, ending: Ending)
    ensures var polled := PollScript(p, script, ending); polled.poll.Failed? ==> IsDecodingError(polled.poll.error)
    decreases |script|
  {
    FaultsAreDecodingErrors(p);
    if Advance(p).Starved? && script != [] && script[0].Data? {
      PollErrorsAreDecodingErrors(Advance(p).next.Append(script[0].piece), script[1..], ending);
    }
  }

  /** However a stream is cut into reads, and however often a read would have blocked, the polls deliver the responses,
    * the final error and the unconsumed octets of the one-shot decoder; also after an error. */
  lemma {:induction false} FragmentationIndependence(p: Parser, script: seq<ReadEvent>, ending: Ending)
    ensures RunPolls(p, script, ending) == DecodeAll(p.Append(Arriving(script)), ending)
    decreases |script|, |p.buffer|, p.Rank()
  {
    PollDecodes(p, script, ending);
    var polled := PollScript(p, script, ending);
    if polled.poll.Ready? || (polled.poll.NotReady? && script != []) {
      FragmentationIndependence(polled.next, polled.script, ending);
    } else if polled.poll.NotReady? {
      assert p.Append([]) == p;
    }
  }

  /** Responses already decoded stay decoded: more octets only add to them. */
  lemma {:induction false} ResponsesOnlyGrow(p: Parser, more: bytes, ending: Ending)
    ensures DecodeAll(p, Open).responses <= DecodeAll(p.Append(more), ending).responses
    decreases |p.buffer|, p.Rank()
  {
    AdvanceAppend(p, more);
    if Advance(p).Emit? {
      ResponsesOnlyGrow(Advance(p).next, more, ending);
    }
  }

  /** A body that runs to the end of the connection is not delivered: the response is complete exactly when that body
    * is empty, and otherwise the body is decoded as if it were the next response head. */
  lemma ReadToEndBodyIsLost(b: bytes)
    requires ParseHead(b).Complete?
    requires Interpret(ParseHead(b).head.headers).state == RawData(None)
    ensures var body := b[ParseHead(b).read..];
      var decoded := DecodeAll(Between(b), Closed);
      && decoded.responses != []
      && (decoded.responses[0].data == body <==> body == [])
      && decoded == DecodeAll(Between(body), Closed).Prepend(decoded.responses[0])
  {
    var after := AfterHead(b[ParseHead(b).read..], ParseHead(b).head);
    assert Step(Between(b)) == Go(after);
    assert Advance(after) == Starved(after);
    assert AtEnd(after) == Polled(Ready(after.partial), Between(after.buffer), []);
  }
}
