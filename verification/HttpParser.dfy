/** The resumable decoder of HTTP/1.1 responses, and the one-shot decoder of a whole stream that it refines. */
module HttpParser {
  import opened Prelude
  import opened Network
  import opened HttpSyntax
  import opened HttpFraming
  import Utf8

  datatype Response = Response(code: nat, contentType: Option<string>, data: bytes)

  const NO_RESPONSE: Response := Response(0, None, [])

  datatype HttpError =
    | EofBeforeResponse | EofInHeaders | EofInBody | EofInChunkedBody
    | HeadMalformed | ChunkMalformed
    | ReadFailed | WriteFailed | WriteBlocked | ResponseWithoutRequest

  datatype Poll = Ready(response: Response) | NotReady | Failed(error: HttpError)

  datatype ReadResult = Received(count: nat) | Blocked | ReadError

  // ---- Decoding what has already arrived --------------------------------------------------------------------

  datatype Parser = Parser(buffer: bytes, state: StreamState, partial: Response) {
    function Append(more: bytes): Parser {
      this.(buffer := buffer + more)
    }

    /** Between responses nothing of a response is kept. */
    predicate Valid() {
      state.Headers? ==> partial == NO_RESPONSE
    }

    function Rank(): nat {
      if state.Headers? then 0 else 1
    }
  }

  const FRESH: Parser := Parser([], Headers, NO_RESPONSE)

  function Between(buffer: bytes): Parser {
    Parser(buffer, Headers, NO_RESPONSE)
  }

  /** What the decoder does next with what it has. */
  datatype Move = Deliver(response: Response, next: Parser) | Go(next: Parser) | Refuse(error: HttpError) | Wait {
    function Append(more: bytes): Move {
      match this
      case Deliver(response, next) => Deliver(response, next.Append(more))
      case Go(next) => Go(next.Append(more))
      case _ => this
    }
  }

  function HeadersStep(b: bytes): Move {
    if b == [] then Wait
    else
      match ParseHead(b)
      case Complete(read, head) => Go(AfterHead(b[read..], head))
      case Partial => Wait
      case Malformed => Refuse(HeadMalformed)
  }

  function AfterHead(rest: bytes, head: Head): Parser {
    var i := Interpret(head.headers);
    Parser(rest, i.state, Response(head.code, i.contentType, []))
  }

  function RawStep(b: bytes, partial: Response, length: nat): Move {
    if |b| >= length then Deliver(partial.(data := b[..length]), Between(b[length..])) else Wait
  }

  /** The two octets after a chunk are skipped, whatever they are. */
  function ChunkStep(b: bytes, partial: Response): Move {
    match ParseChunkSize(b)
    case SizeComplete(read, size) =>
      if |b| < read + size + 2 then Wait
      else if size == 0 then Deliver(partial, Between(b[read + 2..]))
      else Go(Parser(b[read + size + 2..], ChunkedData, partial.(data := partial.data + b[read..read + size])))
    case SizePartial => Wait
    case SizeMalformed => Refuse(ChunkMalformed)
  }

  function Step(p: Parser): (m: Move)
    ensures m.Go? ==> m.next.Valid() && |m.next.buffer| < |p.buffer|
    ensures m.Deliver? ==> m.next.Valid() && m.next.state.Headers? && |m.next.buffer| <= |p.buffer|
    ensures m.Deliver? ==> |m.next.buffer| < |p.buffer| || m.next.Rank() < p.Rank()
  {
    match p.state
    case Headers => HeadersStep(p.buffer)
    case RawData(Some(length)) => RawStep(p.buffer, p.partial, length)
    case RawData(None) => Wait
    case ChunkedData => ChunkStep(p.buffer, p.partial)
  }

  lemma HeadersStepAppend(b: bytes, more: bytes)
    requires !HeadersStep(b).Wait?
    ensures HeadersStep(b + more) == HeadersStep(b).Append(more)
  {
    HeadStable(START, b, more);
    if ParseHead(b).Complete? {
      assert (b + more)[ParseHead(b).read..] == b[ParseHead(b).read..] + more;
    }
  }

  lemma RawStepAppend(b: bytes, partial: Response, length: nat, more: bytes)
    requires !RawStep(b, partial, length).Wait?
    ensures RawStep(b + more, partial, length) == RawStep(b, partial, length).Append(more)
  {
    assert (b + more)[..length] == b[..length];
    assert (b + more)[length..] == b[length..] + more;
  }

  lemma ChunkStepAppend(b: bytes, partial: Response, more: bytes)
    requires !ChunkStep(b, partial).Wait?
    ensures ChunkStep(b + more, partial) == ChunkStep(b, partial).Append(more)
  {
    SizeStable(SIZE_START, b, more);
    if ParseChunkSize(b).SizeComplete? {
      var SizeComplete(read, size) := ParseChunkSize(b);
      assert (b + more)[read + size + 2..] == b[read + size + 2..] + more;
      assert (b + more)[read..read + size] == b[read..read + size];
    }
  }

  /** Whatever the decoder can do now, it would also do with more octets behind. */
  lemma StepAppend(p: Parser, more: bytes)
    requires !Step(p).Wait?
    ensures Step(p.Append(more)) == Step(p).Append(more)
  {
    match p.state
    case Headers => HeadersStepAppend(p.buffer, more);
    case RawData(Some(length)) => RawStepAppend(p.buffer, p.partial, length, more);
    case RawData(None) =>
    case ChunkedData => ChunkStepAppend(p.buffer, p.partial, more);
  }

  datatype Progress = Emit(response: Response, next: Parser) | Starved(next: Parser)
    | Fault(error: HttpError, next: Parser) {
    function Append(more: bytes): Progress {
      this.(next := next.Append(more))
    }
  }

  /** Decodes until a response is complete, an error is found, or more octets are needed. */
  function Advance(p: Parser): (r: Progress)
    ensures p.Valid() ==> r.next.Valid()
    ensures |r.next.buffer| <= |p.buffer|
    ensures r.Emit? ==> r.next.state.Headers? && (|r.next.buffer| < |p.buffer| || r.next.Rank() < p.Rank())
    ensures r.Starved? ==> |r.next.buffer| < |p.buffer| || r.next == p
    decreases |p.buffer|
  {
    match Step(p)
    case Deliver(response, next) => Emit(response, next)
    case Go(next) => Advance(next)
    case Refuse(error) => Fault(error, p)
    case Wait => Starved(p)
  }

  /** A starved decoder has nothing left to do. */
  lemma {:induction false} StarvedStays(p: Parser)
    requires Advance(p).Starved?
    ensures Advance(Advance(p).next) == Advance(p)
    decreases |p.buffer|
  {
    if Step(p).Go? {
      StarvedStays(Step(p).next);
    }
  }

  /** Octets that arrive later change neither a response already decoded nor an error already found, and decoding
    * may stop and resume anywhere. */
  lemma {:induction false} AdvanceAppend(p: Parser, more: bytes)
    ensures Advance(p).Starved? ==> Advance(p.Append(more)) == Advance(Advance(p).next.Append(more))
    ensures !Advance(p).Starved? ==> Advance(p.Append(more)) == Advance(p).Append(more)
    decreases |p.buffer|
  {
    if !Step(p).Wait? {
      StepAppend(p, more);
      if Step(p).Go? {
        AdvanceAppend(Step(p).next, more);
      }
    }
  }

  /** A response is emitted only once its last octet has arrived. */
  lemma NothingIsExposedEarly(p: Parser, missing: bytes)
    requires Advance(p.Append(missing)).Emit?
    requires |Advance(p.Append(missing)).next.buffer| < |missing|
    ensures Advance(p).Starved?
  {
    AdvanceAppend(p, missing);
  }

  // ---- One poll over scripted reads -------------------------------------------------------------------------

  datatype Polled = Polled(poll: Poll, next: Parser, script: seq<ReadEvent>)

  /** What a poll answers when the decoder is starved and the stream has ended. */
  function AtEnd(p: Parser): Polled {
    match p.state
    case Headers => Polled(Failed(if p.buffer == [] then EofBeforeResponse else EofInHeaders), p, [])
    case RawData(Some(_)) => Polled(Failed(EofInBody), p, [])
    case RawData(None) => Polled(Ready(p.partial), Between(p.buffer), [])
    case ChunkedData => Polled(Failed(EofInChunkedBody), p, [])
  }

  function PollScript(p: Parser, script: seq<ReadEvent>, ending: Ending): (r: Polled)
    ensures p.Valid() ==> r.next.Valid()
    ensures |r.script| <= |script|
    ensures r.poll.NotReady? && script != [] ==> |r.script| < |script|
    ensures r.poll.NotReady? && script == [] ==> ending.Open? && r == Polled(NotReady, Advance(p).next, [])
    ensures r.poll.Ready? && |r.script| == |script| ==>
      |r.next.buffer| < |p.buffer| || (|r.next.buffer| == |p.buffer| && r.next.Rank() < p.Rank())
    decreases |script|
  {
    match Advance(p)
    case Emit(response, next) => Polled(Ready(response), next, script)
    case Fault(error, next) => Polled(Failed(error), next, script)
    case Starved(next) =>
      if script == [] then (
        match ending
        case Open => Polled(NotReady, next, [])
        case Closed => AtEnd(next)
        case Broken => Polled(Failed(ReadFailed), next, [])
      ) else (
        match script[0]
        case WouldBlock => Polled(NotReady, next, script[1..])
        case Data(piece) => PollScript(next.Append(piece), script[1..], ending)
      )
  }

  /** The decoder of the source: a buffer, a state and a response under construction, all updated in place. */
  class HttpParser {
    var responseBuffer: bytes
    var currState: StreamState
    var partialResponse: Response

    function View(): Parser
      reads this
    {
      Parser(responseBuffer, currState, partialResponse)
    }

    constructor ()
      ensures View() == FRESH
    {
      responseBuffer, currState, partialResponse := [], Headers, NO_RESPONSE;
    }

    method ReadIntoVec(stream: ByteStream) returns (r: ReadResult)
      modifies this`responseBuffer, stream
      ensures old(stream.script) == [] ==>
        stream.script == [] && responseBuffer == old(responseBuffer)
        && r == (match stream.ending { case Open => Blocked case Closed => Received(0) case Broken => ReadError })
      ensures old(stream.script) != [] ==>
        && stream.script == old(stream.script)[1..]
        && match old(stream.script)[0] {
             case WouldBlock => r == Blocked && responseBuffer == old(responseBuffer)
             case Data(piece) => r == Received(|piece|) && responseBuffer == old(responseBuffer) + piece
           }
    {
      if stream.script == [] {
        match stream.ending
        case Open => r := Blocked;
        case Closed => r := Received(0);
        case Broken => r := ReadError;
      } else {
        match stream.script[0] {
          case WouldBlock =>
            r := Blocked;
          case Data(piece) =>
            responseBuffer := responseBuffer + piece;
            r := Received(|piece|);
        }
        stream.script := stream.script[1..];
      }
    }

    /** Hands over the response under construction and goes back to waiting for a head. */
    method Finish() returns (poll: Poll)
      modifies this`currState, this`partialResponse
      ensures poll == Ready(old(partialResponse)) && currState == Headers && partialResponse == NO_RESPONSE
    {
      poll := Ready(partialResponse);
      currState, partialResponse := Headers, NO_RESPONSE;
    }

    method InterpretHead(head: Head)
      modifies this`currState, this`partialResponse
      ensures View() == AfterHead(responseBuffer, head)
    {
      partialResponse := Response(head.code, None, []);
      currState := RawData(None);
      for i := 0 to |head.headers|
        invariant partialResponse == Response(head.code, Interpret(head.headers[..i]).contentType, [])
        invariant currState == Interpret(head.headers[..i]).state
      {
        var header := head.headers[i];
        assert head.headers[..i + 1][..i] == head.headers[..i];
        var name := Lower(header.name);
        if name == CONTENT_TYPE {
          partialResponse := partialResponse.(contentType := Utf8.Decode(header.value));
        } else if name == CONTENT_LENGTH {
          var length := LengthOf(header);
          if length.Some? {
            currState := RawData(length);
          }
        } else if name == TRANSFER_ENCODING {
          if IsChunked(header) {
            currState := ChunkedData;
          }
        }
      }
      assert head.headers[..|head.headers|] == head.headers;
    }

    /** One turn of the loop either ends the poll or leaves less to do for the next one. */
    ghost predicate Turned(p: Parser, script: seq<ReadEvent>, done: Option<Poll>, stream: ByteStream)
      reads this, stream
    {
      && View().Valid()
      && match done {
           case Some(poll) => PollScript(p, script, stream.ending) == Polled(poll, View(), stream.script)
           case None =>
             && PollScript(p, script, stream.ending) == PollScript(View(), stream.script, stream.ending)
             && (|stream.script| < |script| || (|stream.script| == |script| && |responseBuffer| < |p.buffer|))
         }
    }

    /** Waits for more octets; `onEnd` is the error to report if there will be none. */
    method Await(stream: ByteStream, onEnd: HttpError) returns (done: Option<Poll>)
      requires View().Valid() && Step(View()).Wait?
      requires currState != RawData(None)
      requires AtEnd(View()).poll == Failed(onEnd)
      modifies this, stream
      ensures Turned(old(View()), old(stream.script), done, stream)
      ensures done.None? ==> currState == old(currState) && |responseBuffer| > |old(responseBuffer)|
    {
      var read := ReadIntoVec(stream);
      match read
      case Blocked => done := Some(NotReady);
      case ReadError => done := Some(Failed(ReadFailed));
      case Received(count) => done := if count == 0 then Some(Failed(onEnd)) else None;
    }

    method PollHeaders(stream: ByteStream) returns (done: Option<Poll>)
      requires View().Valid() && currState.Headers?
      modifies this, stream
      ensures Turned(old(View()), old(stream.script), done, stream)
    {
      if responseBuffer == [] {
        done := Await(stream, EofBeforeResponse);
        if done.Some? {
          return;
        }
      }
      partialResponse := NO_RESPONSE;
      match ParseHead(responseBuffer)
      case Complete(read, head) =>
        responseBuffer := responseBuffer[read..];
        InterpretHead(head);
        done := None;
      case Malformed =>
        done := Some(Failed(HeadMalformed));
      case Partial =>
        done := Await(stream, EofInHeaders);
    }

    method PollRawData(stream: ByteStream, expected: Option<nat>) returns (done: Option<Poll>)
      requires currState == RawData(expected)
      modifies this, stream
      ensures Turned(old(View()), old(stream.script), done, stream)
    {
      if expected.Some? {
        var length := expected.value;
        if |responseBuffer| >= length {
          if |responseBuffer| == length {
            assert responseBuffer[..length] == responseBuffer && responseBuffer[length..] == [];
            partialResponse := partialResponse.(data := responseBuffer);
            responseBuffer := [];
          } else {
            partialResponse := partialResponse.(data := responseBuffer[..length]);
            responseBuffer := responseBuffer[length..];
          }
          var poll := Finish();
          return Some(poll);
        }
      }
      var read := ReadIntoVec(stream);
      match read
      case Blocked => done := Some(NotReady);
      case ReadError => done := Some(Failed(ReadFailed));
      case Received(count) =>
        if count > 0 {
          done := None;
        } else if expected.None? {
          var poll := Finish();
          done := Some(poll);
        } else {
          done := Some(Failed(EofInBody));
        }
    }

    method PollChunked(stream: ByteStream) returns (done: Option<Poll>)
      requires currState.ChunkedData?
      modifies this, stream
      ensures Turned(old(View()), old(stream.script), done, stream)
    {
      hide HeadersStep, RawStep, ParseChunkSize;
      match ParseChunkSize(responseBuffer) {
        case SizeComplete(read, size) =>
          if size == 0 {
            if |responseBuffer| >= read + 2 {
              responseBuffer := responseBuffer[read + 2..];
              var poll := Finish();
              return Some(poll);
            }
          } else if |responseBuffer| >= read + size + 2 {
            partialResponse := partialResponse.(data := partialResponse.data + responseBuffer[read..read + size]);
            responseBuffer := responseBuffer[read + size + 2..];
            return None;
          }
        case SizePartial =>
        case SizeMalformed =>
          return Some(Failed(ChunkMalformed));
      }
      done := Await(stream, EofInChunkedBody);
    }

    method PollForResponse(stream: ByteStream) returns (poll: Poll)
      requires View().Valid()
      modifies this, stream
      ensures View().Valid()
      ensures PollScript(old(View()), old(stream.script), stream.ending) == Polled(poll, View(), stream.script)
    {
      while true
        invariant View().Valid()
        invariant PollScript(View(), stream.script, stream.ending) ==
          PollScript(old(View()), old(stream.script), stream.ending)
        decreases |stream.script|, |responseBuffer|
      {
        var done: Option<Poll>;
        match currState {
          case Headers => done := PollHeaders(stream);
          case RawData(expected) => done := PollRawData(stream, expected);
          case ChunkedData => done := PollChunked(stream);
        }
        if done.Some? {
          return done.value;
        }
      }
    }
  }
}
