/** The client of the source: a queue shared with the callers, a handler per connection, and the task that reconnects.
  * Every method is a run of the pipeline machine, which the ghost record of actions spells out. */
module HttpClient {
  import opened Prelude
  import opened Network
  import opened HttpParser
  import opened HttpRequest
  import opened HttpPipeline
  import opened HttpSyntax
  import Decimal

  /** What callers and the connection task share. `completions` stands for the receiving ends of the one-shot channels,
    * and `notified` for the executor's note that the task must be polled again. */
  class HttpClientInner {
    var requests: seq<Queued>
    var task: bool
    var notified: bool
    var handles: nat
    var completions: seq<Completion>
    ghost var actions: seq<Action>
    ghost const host: bytes
    ghost const dialled: seq<DialEvent>

    constructor (ghost host: bytes, ghost dialled: seq<DialEvent>)
      ensures this.host == host && this.dialled == dialled && actions == [] && Matches()
    {
      requests, task, notified, handles, completions := [], false, false, 0, [];
      actions := [];
      this.host := host;
      this.dialled := dialled;
    }

    ghost function Model(): Client
      reads this`actions
    {
      Run(host, dialled, actions)
    }

    ghost predicate Matches()
      reads this
    {
      && Model().queue == requests && Model().task == task && Model().notified == notified
      && |Model().issued| == handles && Model().completions == completions
    }

    /** Since `before` there was nothing but pieces of one poll. */
    ghost predicate OnlyTicksSince(before: seq<Action>)
      reads this`actions
    {
      before <= actions && forall i :: |before| <= i < |actions| ==> actions[i] == Tick
    }

    ghost method Record(action: Action)
      modifies this`actions
      ensures actions == old(actions) + [action]
      ensures Model() == Act(old(Model()), action)
    {
      actions := actions + [action];
      assert actions[..|actions| - 1] == old(actions);
    }
  }

  /** The writing half of a connection: what it will do with each write, and what it has accepted. */
  class ByteSink {
    var writes: seq<WriteEvent>
    var wire: bytes

    constructor (writes: seq<WriteEvent>)
      ensures this.writes == writes && wire == []
    {
      this.writes := writes;
      wire := [];
    }

    /** Writes what the connection accepts; the answer says how much that was. */
    method Write(data: bytes) returns (written: Option<nat>, error: HttpError)
      modifies this
      ensures old(writes) == [] ==> written == None && error == WriteBlocked && wire == old(wire) && writes == []
      ensures old(writes) != [] ==>
        && writes == old(writes)[1..]
        && match old(writes)[0] {
             case Block => written == None && error == WriteBlocked && wire == old(wire)
             case Break => written == None && error == WriteFailed && wire == old(wire)
             case Accept(count) =>
               && written == Some(if count < |data| then count else |data|)
               && wire == old(wire) + data[..written.value]
           }
    {
      error := WriteBlocked;
      written := None;
      if writes != [] {
        match writes[0] {
          case Block =>
          case Break => error := WriteFailed;
          case Accept(count) =>
            var n := if count < |data| then count else |data|;
            written := Some(n);
            wire := wire + data[..n];
        }
        writes := writes[1..];
      }
    }
  }

  datatype HandlerPoll = HandlerNotReady | HandlerFailed(error: HttpError)

  class HttpClientHandler {
    const inner: HttpClientInner
    const host: bytes
    var writeBuffer: bytes
    var requests: seq<nat>
    const stream: ByteStream
    const sink: ByteSink
    const clientReader: HttpParser

    constructor (inner: HttpClientInner, host: bytes, stream: ByteStream, sink: ByteSink)
      ensures this.inner == inner && this.host == host && this.stream == stream && this.sink == sink
      ensures writeBuffer == [] && requests == [] && fresh(clientReader) && clientReader.View() == FRESH
    {
      this.inner, this.host, this.stream, this.sink := inner, host, stream, sink;
      writeBuffer, requests := [], [];
      clientReader := new HttpParser();
    }

    /** This handler is the machine's live connection. */
    ghost predicate Matches()
      reads this, inner, stream, sink, clientReader
    {
      && inner.Matches() && inner.Model().host == host
      && clientReader.View().Valid()
      && inner.Model().connection.Connected?
      && Holds(inner.Model().connection.link)
    }

    ghost predicate Holds(l: Link)
      reads this, stream, sink, clientReader
    {
      && l.flight == requests && l.outgoing == writeBuffer && l.reader == clientReader.View()
      && l.incoming == stream.script && l.ending == stream.ending
      && l.writes == sink.writes && l.wire == sink.wire
    }

    method WriteRequest(request: Request)
      modifies this`writeBuffer
      ensures writeBuffer == old(writeBuffer) + Wire(host, request)
    {
      hide Wire, RequestLine, FieldLine, Decimal.Octets;
      ghost var before := writeBuffer;
      WriteLine(RequestLine(request));
      WriteLine(FieldLine(Header(HOST, host)));
      WriteLine(FieldLine(Header(CONNECTION, KEEP_ALIVE)));
      WriteLine(FieldLine(Header(LENGTH, Decimal.Octets(|request.body|))));
      ghost var own := writeBuffer;
      assert own == before + OwnLines(host, request);
      for i := 0 to |request.headers|
        invariant writeBuffer == own + Ended(CRLF, FieldLines(request.headers[..i]))
      {
        WriteLine(FieldLine(request.headers[i]));
        assert FieldLines(request.headers[..i + 1]) ==
          FieldLines(request.headers[..i]) + [FieldLine(request.headers[i])];
        LinesWireSnoc(FieldLines(request.headers[..i]), FieldLine(request.headers[i]));
      }
      assert request.headers[..|request.headers|] == request.headers;
      writeBuffer := writeBuffer + CRLF;
      writeBuffer := writeBuffer + request.body;
      WireInParts(host, request);
    }

    method WriteLine(line: bytes)
      modifies this`writeBuffer
      ensures writeBuffer == old(writeBuffer) + (line + CRLF)
    {
      writeBuffer := writeBuffer + line + CRLF;
    }

    /** Takes everything that is queued, in order, and writes it into the buffer of this connection. */
    method TakeRequests()
      requires Matches() && inner.Model().stage.Looping?
      modifies inner, this
      ensures Matches() && inner.Model() == Drain(old(inner.Model()))
      ensures inner.actions == old(inner.actions) + [Tick]
    {
      hide Run, WireAll, Wire;
      inner.task := true;
      var newRequests := inner.requests;
      inner.requests := [];
      ghost var buffered, taken := writeBuffer, requests;
      WireAllNone(host);
      for i := 0 to |newRequests|
        modifies this
        invariant writeBuffer == buffered + WireAll(host, Requests(newRequests[..i]))
        invariant requests == taken + Ids(newRequests[..i])
      {
        WriteRequest(newRequests[i].request);
        requests := requests + [newRequests[i].id];
        assert Requests(newRequests[..i + 1]) == Requests(newRequests[..i]) + [newRequests[i].request];
        WireAllConcat(host, Requests(newRequests[..i]), [newRequests[i].request]);
        WireAllOne(host, newRequests[i].request);
      }
      assert newRequests[..|newRequests|] == newRequests;
      inner.Record(Tick);
    }

    /** One write of what is buffered; a write that would block is reported like any other failure. */
    method WriteOut() returns (error: Option<HttpError>)
      requires Matches() && inner.Model().stage.Writing?
      modifies inner`actions, this`writeBuffer, sink
      ensures error.None? ==>
        && Matches() && inner.Model() == Act(old(inner.Model()), Tick) && inner.Model().stage.Reading?
        && inner.Model().dials == old(inner.Model().dials) && inner.actions == old(inner.actions) + [Tick]
      ensures error.Some? ==>
        && inner.Model().connection.Connected?
        && Act(inner.Model(), Tick) == Fail(inner.Model(), error.value) && inner.actions == old(inner.actions)
    {
      hide Run, Fail;
      if writeBuffer != [] {
        var written, failure := sink.Write(writeBuffer);
        if written.None? {
          return Some(failure);
        }
        writeBuffer := writeBuffer[written.value..];
      }
      inner.Record(Tick);
      error := None;
    }

    /** Hands the next response, if it can be read now, to the oldest request in flight. */
    method ReadResponse() returns (done: Option<HandlerPoll>)
      requires Matches() && inner.Model().stage.Reading?
      modifies inner`actions, inner`completions, this`requests, stream, clientReader
      ensures done.None? || done == Some(HandlerNotReady) ==>
        && Matches() && inner.Model() == Act(old(inner.Model()), Tick)
        && inner.Model().dials == old(inner.Model().dials) && inner.actions == old(inner.actions) + [Tick]
      ensures done.None? ==> inner.Model().stage.Looping? && inner.Model().connection.Connected?
      ensures done == Some(HandlerNotReady) ==> inner.Model().stage.Idle?
      ensures done.Some? && done.value.HandlerFailed? ==>
        && inner.Model().connection.Connected?
        && Act(inner.Model(), Tick) == Fail(inner.Model(), done.value.error)
        && unchanged(inner) && requests == old(requests)
      ensures done.None? ==>
        || |stream.script| < |old(stream.script)|
        || (|stream.script| == |old(stream.script)| &&
            |clientReader.responseBuffer| < |old(clientReader.responseBuffer)|)
        || (|stream.script| == |old(stream.script)| &&
            |clientReader.responseBuffer| == |old(clientReader.responseBuffer)|
            && clientReader.View().Rank() < old(clientReader.View().Rank()))
    {
      hide Run, Fail, PollScript;
      var poll := clientReader.PollForResponse(stream);
      match poll
      case NotReady =>
        inner.Record(Tick);
        done := Some(HandlerNotReady);
      case Failed(error) =>
        done := Some(HandlerFailed(error));
      case Ready(response) =>
        if requests == [] {
          return Some(HandlerFailed(ResponseWithoutRequest));
        }
        inner.completions := inner.completions + [Completion(requests[0], Answered(response))];
        requests := requests[1..];
        inner.Record(Tick);
        done := None;
    }

    /** One poll of the connection. On failure the requests in flight have not been told yet. */
    method PollInner() returns (r: HandlerPoll)
      requires Matches() && inner.Model().stage.Looping?
      modifies inner, this, stream, sink, clientReader
      ensures inner.Model().host == host
      ensures r.HandlerNotReady? ==> Matches() && inner.Model().stage.Idle?
      ensures r.HandlerFailed? ==>
        && inner.Matches() && inner.Model().connection.Connected?
        && inner.Model().connection.link.flight == requests && !inner.Model().stage.Idle?
        && Act(inner.Model(), Tick) == Fail(inner.Model(), r.error)
      ensures inner.Model().dials == old(inner.Model().dials) && inner.OnlyTicksSince(old(inner.actions))
    {
      hide Run, Fail, PollScript, WireAll;
      while true
        invariant Matches() && inner.Model().stage.Looping?
        invariant inner.Model().dials == old(inner.Model().dials) && inner.OnlyTicksSince(old(inner.actions))
        decreases |stream.script|, |clientReader.responseBuffer|, clientReader.View().Rank()
      {
        TakeRequests();
        var error := WriteOut();
        if error.Some? {
          return HandlerFailed(error.value);
        }
        var done := ReadResponse();
        if done.Some? {
          return done.value;
        }
      }
    }

    /** A failing connection tells every request in flight before it goes. */
    method Poll() returns (r: HandlerPoll)
      requires Matches() && inner.Model().stage.Looping?
      modifies inner, this, stream, sink, clientReader
      ensures inner.Model().host == host
      ensures r.HandlerNotReady? ==> Matches() && inner.Model().stage.Idle?
      ensures r.HandlerFailed? ==>
        inner.Matches() && inner.Model().connection.Connecting? && inner.Model().stage.Looping?
      ensures inner.Model().dials == old(inner.Model().dials) && inner.OnlyTicksSince(old(inner.actions))
    {
      hide Run;
      r := PollInner();
      if r.HandlerFailed? {
        ghost var flight, told := requests, inner.completions;
        while requests != []
          invariant inner.completions + CancelAll(requests, r.error) == told + CancelAll(flight, r.error)
          modifies inner`completions, this`requests
          decreases |requests|
        {
          inner.completions := inner.completions + [Completion(requests[0], Cancelled(r.error))];
          assert CancelAll(requests, r.error) ==
            [Completion(requests[0], Cancelled(r.error))] + CancelAll(requests[1..], r.error);
          requests := requests[1..];
        }
        inner.Record(Tick);
      }
    }
  }

  lemma LinesWireSnoc(lines: seq<bytes>, line: bytes)
    ensures Ended(CRLF, lines + [line]) == Ended(CRLF, lines) + (line + CRLF)
  {
    EndedConcat(CRLF, lines, [line]);
    assert Ended(CRLF, [line]) == line + CRLF + Ended(CRLF, []);
  }

  /** The four lines that come before the caller's own fields. */
  function OwnLines(host: bytes, r: Request): bytes {
    (RequestLine(r) + CRLF) + (FieldLine(Header(HOST, host)) + CRLF) +
      (FieldLine(Header(CONNECTION, KEEP_ALIVE)) + CRLF)
    + (FieldLine(Header(LENGTH, Decimal.Octets(|r.body|))) + CRLF)
  }

  lemma FourLines(a: bytes, b: bytes, c: bytes, d: bytes)
    ensures Ended(CRLF, [a] + [b, c, d]) == (a + CRLF) + (b + CRLF) + (c + CRLF) + (d + CRLF)
  {
    LinesWireSnoc([], a);
    LinesWireSnoc([a], b);
    LinesWireSnoc([a, b], c);
    LinesWireSnoc([a, b, c], d);
    assert [] + [a] == [a] && [a] + [b] == [a, b] && [a, b] + [c] == [a, b, c];
    assert [a, b, c] + [d] == [a] + [b, c, d];
  }

  lemma WireInParts(host: bytes, r: Request)
    ensures Wire(host, r) == OwnLines(host, r) + Ended(CRLF, FieldLines(r.headers)) + CRLF + r.body
  {
    hide RequestLine, FieldLine, Decimal.Octets, Ended;
    var own := OwnFields(host, r);
    var ownLines := [FieldLine(own[0]), FieldLine(own[1]), FieldLine(own[2])];
    FourLines(RequestLine(r), ownLines[0], ownLines[1], ownLines[2]);
    assert FieldLines(own + r.headers) == ownLines + FieldLines(r.headers);
    assert [RequestLine(r)] + FieldLines(own + r.headers) == ([RequestLine(r)] + ownLines) + FieldLines(r.headers);
    EndedConcat(CRLF, [RequestLine(r)] + ownLines, FieldLines(r.headers));
  }

  lemma WireAllNone(host: bytes)
    ensures WireAll(host, []) == []
  {
  }

  lemma WireAllOne(host: bytes, r: Request)
    ensures WireAll(host, [r]) == Wire(host, r)
  {
    hide Wire;
    assert WireAll(host, [r]) == Wire(host, r) + WireAll(host, []);
  }

  /** Keeps one connection alive for as long as anything is polled. */
  class ReconnectingStream {
    const inner: HttpClientInner
    const host: bytes
    var handler: HttpClientHandler?
    var dials: seq<DialEvent>

    constructor (inner: HttpClientInner, host: bytes, dials: seq<DialEvent>)
      requires inner.Matches() && inner.actions == [] && inner.host == host && inner.dialled == dials
      ensures this.inner == inner && this.host == host && Valid()
    {
      this.inner, this.host, this.dials := inner, host, dials;
      handler := null;
    }

    ghost function Repr(): set<object>
      reads this
    {
      {this, inner} + if handler == null then {} else {handler, handler.stream, handler.sink, handler.clientReader}
    }

    ghost predicate At(stage: Stage)
      reads Repr(), this
    {
      && inner.Model().stage == stage && inner.Model().dials == dials
      && inner.Matches() && inner.Model().host == host
      && (handler == null <==> inner.Model().connection.Connecting?)
      && (handler != null ==> handler.inner == inner && handler.host == host && handler.Matches())
    }

    /** The task is between polls, and its objects are in the state that the machine has reached. */
    ghost predicate Valid()
      reads Repr(), this
    {
      At(Idle)
    }

    method Connect(incoming: seq<ReadEvent>, ending: Ending, writes: seq<WriteEvent>)
      requires At(Looping) && handler == null && dials != [] && dials[0] == Established(incoming, ending, writes)
      modifies this, inner`actions
      ensures At(Looping) && handler != null && dials == old(dials)[1..]
      ensures fresh(handler) && fresh(handler.stream) && fresh(handler.sink) && fresh(handler.clientReader)
      ensures inner.actions == old(inner.actions) + [Tick]
    {
      hide Run;
      dials := dials[1..];
      var stream := new ByteStream(incoming, ending);
      var sink := new ByteSink(writes);
      handler := new HttpClientHandler(inner, host, stream, sink);
      inner.Record(Tick);
    }

    /** Polls the connection attempt that is under way. */
    method Dial() returns (waiting: bool)
      requires At(Looping) && handler == null
      modifies this, inner`actions
      ensures At(if waiting then Idle else Looping)
      ensures !waiting ==> |dials| < |old(dials)|
      ensures handler != null ==>
        fresh(handler) && fresh(handler.stream) && fresh(handler.sink) && fresh(handler.clientReader)
      ensures inner.actions == old(inner.actions) + [Tick]
    {
      hide Run;
      waiting := true;
      if dials == [] {
        inner.Record(Tick);
        return;
      }
      match dials[0]
      case Pending =>
        dials := dials[1..];
        inner.Record(Tick);
      case Refused =>
        waiting := false;
        dials := dials[1..];
        inner.Record(Tick);
      case Established(incoming, ending, writes) =>
        waiting := false;
        Connect(incoming, ending, writes);
    }

    method StartPoll()
      requires Valid()
      modifies inner`actions, inner`notified
      ensures At(Looping) && inner.actions == old(inner.actions) + [HttpPipeline.Poll]
    {
      hide Run;
      inner.notified := false;
      inner.Record(HttpPipeline.Poll);
    }

    method Poll()
      requires Valid()
      modifies Repr()
      ensures Valid() && fresh(Repr() - old(Repr()))
      ensures inner.OnlyTicksSince(old(inner.actions) + [HttpPipeline.Poll])
    {
      hide Run, Act;
      StartPoll();
      ghost var started := inner.actions;
      while true
        invariant At(Looping) && fresh(Repr() - old(Repr())) && inner.OnlyTicksSince(started)
        decreases |dials|, if handler == null then 0 else 1
      {
        if handler != null {
          var r := handler.Poll();
          match r {
            case HandlerNotReady => return;
            case HandlerFailed(_) => handler := null;
          }
        } else {
          var waiting := Dial();
          if waiting {
            return;
          }
        }
      }
    }
  }

  /** The callers' end. */
  class HttpClient {
    const inner: HttpClientInner
    /** The task that was handed to the executor. */
    const driver: ReconnectingStream

    constructor (host: bytes, dials: seq<DialEvent>)
      ensures inner == driver.inner && driver.Valid() && fresh(driver.Repr())
      ensures inner.actions == [] && inner.host == host && inner.dialled == dials
    {
      var shared := new HttpClientInner(host, dials);
      inner := shared;
      driver := new ReconnectingStream(shared, host, dials);
    }

    /** The answer is the handle under which the result will be found. */
    method SendRequest(request: Request) returns (id: nat)
      requires inner == driver.inner && driver.Valid()
      modifies inner
      ensures driver.Valid() && inner.Model() == Act(old(inner.Model()), Send(request))
      ensures id == |old(inner.Model()).issued|
    {
      hide Run;
      id := inner.handles;
      inner.handles := inner.handles + 1;
      inner.requests := inner.requests + [Queued(id, request)];
      if inner.task {
        inner.notified := true;
      }
      inner.Record(Send(request));
    }
  }
}
