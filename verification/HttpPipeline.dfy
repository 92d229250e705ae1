/** The pipelining client as a state machine: which request is where, over every interleaving of callers and polls.
  *
  * Callers may send at any moment, also in the middle of a poll; between two acquisitions of the queue's lock a poll
  * runs alone. What the network will do is scripted per connection. */
module HttpPipeline {
  import opened Prelude
  import opened Network
  import opened HttpParser
  import opened HttpStream
  import opened HttpRequest

  datatype Result = Answered(response: Response) | Cancelled(error: HttpError)

  /** What the holder of the `id`-th request sent is told. */
  datatype Completion = Completion(id: nat, result: Result)

  datatype Queued = Queued(id: nat, request: Request)

  datatype WriteEvent = Accept(count: nat) | Block | Break

  /** The outcome of polling a connection attempt; an established connection brings its own network behaviour. */
  datatype DialEvent = Pending | Refused
    | Established(incoming: seq<ReadEvent>, ending: Ending, writes: seq<WriteEvent>)

  /** A live connection. `first`, `feed`, `wire` and `answered` record its history: the first request it took, all that
    * it will receive, all that it has written, and the responses it has handed out. */
  datatype Link = Link(
    flight: seq<nat>, outgoing: bytes, reader: Parser,
    incoming: seq<ReadEvent>, ending: Ending, writes: seq<WriteEvent>,
    first: nat, feed: bytes, wire: bytes, answered: seq<Response>)

  datatype Connection = Connecting | Connected(link: Link)

  /** The history of a connection that has failed: it took the requests `first..last`. */
  datatype Past = Past(first: nat, last: nat, feed: bytes, ending: Ending, wire: bytes, answered: seq<Response>,
                       error: HttpError)

  /** Between polls, at the head of a polling loop, before the write, or before the read. */
  datatype Stage = Idle | Looping | Writing | Reading

  datatype Client = Client(
    host: bytes, issued: seq<Request>, queue: seq<Queued>, completions: seq<Completion>,
    connection: Connection, dials: seq<DialEvent>, task: bool, notified: bool, stage: Stage, past: seq<Past>)

  datatype Action = Send(request: Request) | Poll | Tick

  function Init(host: bytes, dials: seq<DialEvent>): Client {
    Client(host, [], [], [], Connecting, dials, false, false, Idle, [])
  }

  function Issue(c: Client, request: Request): Client {
    c.(issued := c.issued + [request], queue := c.queue + [Queued(|c.issued|, request)],
       notified := c.notified || c.task)
  }

  function Ids(queue: seq<Queued>): (ids: seq<nat>)
    ensures |ids| == |queue|
  {
    seq(|queue|, i requires 0 <= i < |queue| => queue[i].id)
  }

  function Requests(queue: seq<Queued>): (requests: seq<Request>)
    ensures |requests| == |queue|
  {
    seq(|queue|, i requires 0 <= i < |queue| => queue[i].request)
  }

  function CancelAll(flight: seq<nat>, error: HttpError): (cancelled: seq<Completion>)
    ensures |cancelled| == |flight|
  {
    seq(|flight|, i requires 0 <= i < |flight| => Completion(flight[i], Cancelled(error)))
  }

  function Fail(c: Client, error: HttpError): Client
    requires c.connection.Connected?
  {
    var l := c.connection.link;
    c.(completions := c.completions + CancelAll(l.flight, error),
       connection := Connecting,
       stage := Looping,
       past := c.past +
         [Past(l.first, l.first + |l.answered| + |l.flight|, l.feed, l.ending, l.wire, l.answered, error)])
  }

  function NewLink(first: nat, incoming: seq<ReadEvent>, ending: Ending, writes: seq<WriteEvent>): Link {
    Link([], [], FRESH, incoming, ending, writes, first, Arriving(incoming), [], [])
  }

  function Dial(c: Client): Client {
    if c.dials == [] then c.(stage := Idle)
    else
      var later := c.(dials := c.dials[1..]);
      match c.dials[0]
      case Pending => later.(stage := Idle)
      case Refused => later
      case Established(incoming, ending, writes) =>
        later.(connection := Connected(NewLink(|c.completions|, incoming, ending, writes)))
  }

  function Drain(c: Client): Client
    requires c.connection.Connected?
  {
    var l := c.connection.link;
    c.(task := true, queue := [], stage := Writing,
       connection := Connected(l.(flight := l.flight + Ids(c.queue),
                                  outgoing := l.outgoing + WireAll(c.host, Requests(c.queue)))))
  }

  function Write(c: Client): Client
    requires c.connection.Connected?
  {
    var l := c.connection.link;
    if l.outgoing == [] then c.(stage := Reading)
    else if l.writes == [] then Fail(c, WriteBlocked)
    else
      match l.writes[0]
      case Block => Fail(c, WriteBlocked)
      case Break => Fail(c, WriteFailed)
      case Accept(count) =>
        var n := if count < |l.outgoing| then count else |l.outgoing|;
        c.(stage := Reading,
           connection := Connected(l.(outgoing := l.outgoing[n..], wire := l.wire + l.outgoing[..n],
                                      writes := l.writes[1..])))
  }

  function Read(c: Client): Client
    requires c.connection.Connected?
  {
    var l := c.connection.link;
    var polled := PollScript(l.reader, l.incoming, l.ending);
    var after := l.(reader := polled.next, incoming := polled.script);
    match polled.poll
    case NotReady => c.(stage := Idle, connection := Connected(after))
    case Failed(error) => Fail(c, error)
    case Ready(response) =>
      if l.flight == [] then Fail(c, ResponseWithoutRequest)
      else
        c.(stage := Looping,
           completions := c.completions + [Completion(l.flight[0], Answered(response))],
           connection := Connected(after.(flight := l.flight[1..], answered := l.answered + [response])))
  }

  /** A poll starts only when none is under way, and uses up the notification. A tick is the next piece of a poll. */
  function Act(c: Client, action: Action): Client {
    match action
    case Send(request) => Issue(c, request)
    case Poll => if c.stage.Idle? then c.(stage := Looping, notified := false) else c
    case Tick =>
      if c.stage.Idle? then c
      else if c.connection.Connecting? then Dial(c)
      else
        match c.stage
        case Looping => Drain(c)
        case Writing => Write(c)
        case Reading => Read(c)
  }

  function Run(host: bytes, dials: seq<DialEvent>, actions: seq<Action>): Client {
    if actions == [] then Init(host, dials)
    else Act(Run(host, dials, actions[..|actions| - 1]), actions[|actions| - 1])
  }

  // ---- What holds in every reachable state ------------------------------------------------------------------

  function Flight(c: Client): seq<nat> {
    match c.connection
    case Connecting => []
    case Connected(link) => link.flight
  }

  /** Completed, in flight and queued requests are three consecutive stretches of the order in which they were sent. */
  ghost predicate Partitioned(c: Client) {
    var done, taken := |c.completions|, |c.completions| + |Flight(c)|;
    && taken + |c.queue| == |c.issued|
    && (forall i :: 0 <= i < done ==> c.completions[i].id == i)
    && (forall i :: 0 <= i < |Flight(c)| ==> Flight(c)[i] == done + i)
    && (forall i :: 0 <= i < |c.queue| ==> c.queue[i] == Queued(taken + i, c.issued[taken + i]))
  }

  /** Where the requests of the next connection start. */
  function LastTaken(past: seq<Past>): nat {
    if past == [] then 0 else past[|past| - 1].last
  }

  ghost predicate AnsweredFrom(completions: seq<Completion>, first: nat, answered: seq<Response>) {
    && first + |answered| <= |completions|
    && forall k :: 0 <= k < |answered| ==> completions[first + k].result == Answered(answered[k])
  }

  /** What has been read from a connection so far. */
  function Arrived(l: Link): bytes {
    var rest := Arriving(l.incoming);
    if |rest| <= |l.feed| then l.feed[..|l.feed| - |rest|] else []
  }

  /** The decoder has been given what has arrived and has delivered what was answered, unless it has come to the end of
    * a closed stream; and between polls nothing is left in it that could be delivered. */
  ghost predicate KeepsUp(l: Link, idle: bool) {
    && Arrived(l) + Arriving(l.incoming) == l.feed
    && (GoesOn(FRESH, Arrived(l), l.answered, l.reader) || (l.incoming == [] && l.ending.Closed? && !idle))
    && (idle ==> Advance(l.reader) == Starved(l.reader))
  }

  /** What an error says about the responses that a connection gave: all that can be decoded were answers, if it is an
    * error of the decoder, and then it is the error that decoding ends with; and if there was a response too many, all
    * requests had been answered. A failed write says nothing. */
  ghost predicate Explains(error: HttpError, decoded: Decoded, answered: seq<Response>, taken: nat) {
    && answered <= decoded.responses
    && (error.ResponseWithoutRequest? ==> taken == |answered| < |decoded.responses|)
    && (IsDecodingError(error) ==>
          decoded.responses == answered && decoded.outcome.Stopped? && decoded.outcome.error == error)
  }

  ghost predicate LinkConsistent(c: Client, l: Link) {
    && KeepsUp(l, c.stage.Idle?)
    && l.first == LastTaken(c.past)
    && l.first + |l.answered| == |c.completions|
    && AnsweredFrom(c.completions, l.first, l.answered)
    && |c.completions| + |l.flight| <= |c.issued|
    && l.wire + l.outgoing == WireAll(c.host, c.issued[l.first..|c.completions| + |l.flight|])
    && DecodeAll(FRESH.Append(l.feed), l.ending) ==
         DecodeAll(l.reader.Append(Arriving(l.incoming)), l.ending).PrependAll(l.answered)
  }

  ghost predicate PastConsistent(c: Client, j: nat)
    requires j < |c.past|
  {
    var p := c.past[j];
    && p.first == LastTaken(c.past[..j])
    && p.first + |p.answered| <= p.last <= |c.completions|
    && p.last <= |c.issued|
    && AnsweredFrom(c.completions, p.first, p.answered)
    && (forall i :: p.first + |p.answered| <= i < p.last ==> c.completions[i].result == Cancelled(p.error))
    && Explains(p.error, DecodeAll(FRESH.Append(p.feed), p.ending), p.answered, p.last - p.first)
    && p.wire <= WireAll(c.host, c.issued[p.first..p.last])
  }

  ghost predicate Histories(c: Client) {
    && (forall j: nat :: j < |c.past| ==> PastConsistent(c, j))
    && match c.connection
       case Connecting => |c.completions| == LastTaken(c.past)
       case Connected(link) => LinkConsistent(c, link)
  }

  ghost predicate Awake(c: Client) {
    && (c.connection.Connecting? ==> c.stage.Idle? || c.stage.Looping?)
    && (c.connection.Connected? && !c.stage.Looping? ==> c.task && (c.queue != [] ==> c.notified))
  }

  ghost predicate Invariant(c: Client) {
    Partitioned(c) && Histories(c) && Awake(c)
  }

  /** Old histories only look at requests and completions that no longer change. */
  lemma PastStays(c: Client, d: Client, j: nat)
    requires j < |c.past| && PastConsistent(c, j) && c.past <= d.past && d.host == c.host
    requires c.completions <= d.completions && c.issued <= d.issued
    ensures PastConsistent(d, j)
  {
    hide WireAll, DecodeAll, Explains;
    var p := c.past[j];
    assert d.past[..j] == c.past[..j];
    assert d.issued[p.first..p.last] == c.issued[p.first..p.last];
  }

  lemma PastsKeep(c: Client, d: Client)
    requires Histories(c) && d.past == c.past && d.host == c.host
    requires c.completions <= d.completions && c.issued <= d.issued
    ensures forall j: nat :: j < |d.past| ==> PastConsistent(d, j)
  {
    hide PastConsistent, LinkConsistent;
    forall j: nat | j < |d.past|
      ensures PastConsistent(d, j)
    {
      PastStays(c, d, j);
    }
  }

  lemma IssueKeeps(c: Client, request: Request)
    requires Invariant(c)
    ensures Invariant(Issue(c, request))
  {
    hide WireAll, DecodeAll, PastConsistent;
    var d := Issue(c, request);
    PastsKeep(c, d);
    if c.connection.Connected? {
      var l := c.connection.link;
      assert d.issued[l.first..|c.completions| + |l.flight|] == c.issued[l.first..|c.completions| + |l.flight|];
    }
  }

  lemma NewLinkKeepsUp(l: Link)
    requires l.reader == FRESH && l.feed == Arriving(l.incoming) && l.answered == []
    ensures KeepsUp(l, false)
  {
    hide DecodeAll;
    assert Arrived(l) == [];
    GoesOnWithPiece(FRESH, []);
    assert FRESH.Append([]) == FRESH;
  }

  lemma NothingToWrite(host: bytes)
    ensures WireAll(host, []) == []
  {
  }

  lemma DialKeeps(c: Client)
    requires Invariant(c) && c.connection.Connecting? && !c.stage.Idle?
    ensures Invariant(Dial(c))
  {
    NothingToWrite(c.host);
    hide WireAll, DecodeAll, KeepsUp, Explains, PastConsistent;
    PastsKeep(c, Dial(c));
    if c.dials != [] && c.dials[0].Established? {
      var l := Dial(c).connection.link;
      NewLinkKeepsUp(l);
      assert c.issued[l.first..l.first] == [];
      var whole := DecodeAll(FRESH.Append(l.feed), l.ending);
      assert whole.PrependAll([]) == whole;
    }
  }

  lemma DrainKeeps(c: Client)
    requires Invariant(c) && c.connection.Connected? && c.stage.Looping?
    ensures Invariant(Drain(c))
  {
    DrainedInOrder(c);
    DrainedToTheWire(c);
    DrainedLink(c);
    hide WireAll, DecodeAll, PastConsistent, KeepsUp, Partitioned, LinkConsistent;
    PastsKeep(c, Drain(c));
  }

  lemma DrainedInOrder(c: Client)
    requires Partitioned(c) && c.connection.Connected?
    ensures Partitioned(Drain(c))
  {
    hide WireAll;
  }

  lemma DrainedLink(c: Client)
    requires Partitioned(c) && c.connection.Connected? && LinkConsistent(c, c.connection.link)
    ensures LinkConsistent(Drain(c), Drain(c).connection.link)
  {
    hide Partitioned, WireAll, DecodeAll, KeepsUp, Arriving, AnsweredFrom, LinkConsistent;
    DrainedToTheWire(c);
    DrainedLinkIs(c);
    hide Drain, Requests;
    StillConsistent(c, Drain(c), c.connection.link, Drain(c).connection.link);
  }

  lemma DrainedLinkIs(c: Client)
    requires c.connection.Connected?
    ensures var l, d := c.connection.link, Drain(c);
      var m := d.connection.link;
      && m.wire == l.wire && m.outgoing == l.outgoing + WireAll(c.host, Requests(c.queue))
      && |m.flight| == |l.flight| + |c.queue| && m == l.(flight := m.flight, outgoing := m.outgoing)
      && d.completions == c.completions && d.issued == c.issued && d.past == c.past && d.host == c.host
      && d.stage.Writing?
  {
    hide WireAll;
  }

  /** A connection that has taken more requests, and still keeps up. */
  lemma StillConsistent(c: Client, d: Client, l: Link, m: Link)
    requires LinkConsistent(c, l) && KeepsUp(m, false) && m == l.(flight := m.flight, outgoing := m.outgoing)
    requires d.completions == c.completions && d.issued == c.issued && d.past == c.past && d.host == c.host
    requires !d.stage.Idle? && |c.completions| + |m.flight| <= |c.issued|
    requires m.wire + m.outgoing == WireAll(c.host, c.issued[m.first..|c.completions| + |m.flight|])
    ensures LinkConsistent(d, m)
  {
    hide WireAll, DecodeAll, KeepsUp, Arriving, AnsweredFrom;
  }

  /** With what is drained, the block of the connection is on its way. */
  lemma DrainedToTheWire(c: Client)
    requires Partitioned(c) && c.connection.Connected? && LinkConsistent(c, c.connection.link)
    ensures var l := c.connection.link;
      var taken := |c.completions| + |l.flight| + |c.queue|;
      && l.first <= taken <= |c.issued|
      && l.wire + (l.outgoing + WireAll(c.host, Requests(c.queue))) == WireAll(c.host, c.issued[l.first..taken])
      && KeepsUp(Drain(c).connection.link, false)
  {
    hide WireAll, DecodeAll, GoesOn;
    var l := c.connection.link;
    var taken := |c.completions| + |l.flight|;
    assert Requests(c.queue) == c.issued[taken..];
    assert c.issued[l.first..taken] + c.issued[taken..] == c.issued[l.first..taken + |c.queue|];
    WireAllConcat(c.host, c.issued[l.first..taken], c.issued[taken..]);
    Regroup(l.wire, l.outgoing, WireAll(c.host, Requests(c.queue)));
  }

  /** A connection that fails becomes history. */
  lemma LinkBecomesPast(c: Client, error: HttpError)
    requires Partitioned(c) && c.connection.Connected? && LinkConsistent(c, c.connection.link)
    requires var l := c.connection.link;
      Explains(error, DecodeAll(FRESH.Append(l.feed), l.ending), l.answered, |l.answered| + |l.flight|)
    ensures PastConsistent(Fail(c, error), |c.past|)
  {
    hide WireAll, DecodeAll, Explains, KeepsUp;
    var l := c.connection.link;
    assert Fail(c, error).past[..|c.past|] == c.past;
    var all := WireAll(c.host, c.issued[l.first..|c.completions| + |l.flight|]);
    assert l.wire == all[..|l.wire|];
  }

  lemma FailKeeps(c: Client, error: HttpError)
    requires Invariant(c) && c.connection.Connected?
    requires var l := c.connection.link;
      Explains(error, DecodeAll(FRESH.Append(l.feed), l.ending), l.answered, |l.answered| + |l.flight|)
    ensures Invariant(Fail(c, error))
  {
    hide WireAll, DecodeAll, Explains, KeepsUp, PastConsistent;
    var d := Fail(c, error);
    LinkBecomesPast(c, error);
    forall j: nat | j < |d.past|
      ensures PastConsistent(d, j)
    {
      if j < |c.past| {
        PastStays(c, d, j);
      }
    }
  }

  /** A failed write says nothing about the responses. */
  lemma WriteExplains(l: Link, error: HttpError)
    requires error.WriteBlocked? || error.WriteFailed?
    requires DecodeAll(FRESH.Append(l.feed), l.ending) ==
      DecodeAll(l.reader.Append(Arriving(l.incoming)), l.ending).PrependAll(l.answered)
    ensures Explains(error, DecodeAll(FRESH.Append(l.feed), l.ending), l.answered, |l.answered| + |l.flight|)
  {
    hide DecodeAll;
    assert l.answered == DecodeAll(FRESH.Append(l.feed), l.ending).responses[..|l.answered|];
  }

  /** Writing some of what is to be written changes nothing else about a connection. */
  lemma LinkRewritten(c: Client, d: Client, l: Link, m: Link)
    requires LinkConsistent(c, l) && !c.stage.Idle? && !d.stage.Idle?
    requires d == c.(stage := d.stage, connection := d.connection)
    requires m == l.(outgoing := m.outgoing, wire := m.wire, writes := m.writes)
    requires m.wire + m.outgoing == l.wire + l.outgoing
    ensures LinkConsistent(d, m)
  {
    hide WireAll, DecodeAll, GoesOn, Arriving, AnsweredFrom;
  }

  lemma WriteKeeps(c: Client)
    requires Invariant(c) && c.connection.Connected? && c.stage.Writing?
    ensures Invariant(Write(c))
  {
    hide WireAll, DecodeAll, Explains, PastConsistent, GoesOn;
    var l := c.connection.link;
    if l.outgoing == [] || (l.writes != [] && l.writes[0].Accept?) {
      var d := Write(c);
      PastsKeep(c, d);
      var m := d.connection.link;
      assert m.wire + m.outgoing == l.wire + l.outgoing;
      LinkRewritten(c, d, l, m);
      hide LinkConsistent;
    } else {
      var error := if l.writes != [] && l.writes[0].Break? then WriteFailed else WriteBlocked;
      WriteExplains(l, error);
      FailKeeps(c, error);
    }
  }

  /** Reading keeps the decoder at what has arrived. */
  lemma ReadKeepsUp(l: Link, flight: seq<nat>)
    requires KeepsUp(l, false)
    ensures var polled := PollScript(l.reader, l.incoming, l.ending);
      var after := l.(reader := polled.next, incoming := polled.script);
      && (polled.poll.NotReady? ==> KeepsUp(after, true))
      && (polled.poll.Ready? ==>
          KeepsUp(after.(flight := flight, answered := l.answered + [polled.poll.response]), false))
  {
    hide DecodeAll, GoesOn, PollScript, Advance;
    var polled := PollScript(l.reader, l.incoming, l.ending);
    var read := PollGoesOn(l.reader, l.incoming, l.ending);
    var some := if polled.poll.Ready? then [polled.poll.response] else [];
    var after := l.(reader := polled.next, incoming := polled.script, answered := l.answered + some);
    ReadMore(l, after, read);
    assert l.answered + [] == l.answered;
    if GoesOn(FRESH, Arrived(l), l.answered, l.reader) && GoesOn(l.reader, read, some, polled.next) {
      GoesOnThen(FRESH, Arrived(l), l.answered, l.reader, read, some, polled.next);
    }
  }

  lemma ReadMore(l: Link, after: Link, read: bytes)
    requires Arrived(l) + Arriving(l.incoming) == l.feed == after.feed
    requires Arriving(l.incoming) == read + Arriving(after.incoming)
    ensures Arrived(after) == Arrived(l) + read && Arrived(after) + Arriving(after.incoming) == l.feed
  {
    Regroup(Arrived(l), read, Arriving(after.incoming));
    var rest := Arriving(after.incoming);
    assert (Arrived(l) + read + rest)[..|Arrived(l) + read|] == Arrived(l) + read;
  }

  /** Whatever error a read comes to, it says what it has to about the connection. */
  lemma ReadExplains(l: Link)
    requires DecodeAll(FRESH.Append(l.feed), l.ending) ==
      DecodeAll(l.reader.Append(Arriving(l.incoming)), l.ending).PrependAll(l.answered)
    ensures var polled := PollScript(l.reader, l.incoming, l.ending);
      var decoded := DecodeAll(FRESH.Append(l.feed), l.ending);
      && (polled.poll.Failed? ==> Explains(polled.poll.error, decoded, l.answered, |l.answered| + |l.flight|))
      && (polled.poll.Ready? && l.flight == [] ==>
            Explains(ResponseWithoutRequest, decoded, l.answered, |l.answered| + |l.flight|))
  {
    hide DecodeAll, PollScript;
    PollDecodes(l.reader, l.incoming, l.ending);
    PollErrorsAreDecodingErrors(l.reader, l.incoming, l.ending);
    var polled := PollScript(l.reader, l.incoming, l.ending);
    assert l.answered + [] == l.answered;
  }

  /** A response that is delivered moves from what is to come to what was answered. */
  lemma ResponseMoves(rest: Decoded, response: Response, answered: seq<Response>)
    ensures rest.Prepend(response).PrependAll(answered) == rest.PrependAll(answered + [response])
  {
    Regroup(answered, [response], rest.responses);
  }

  lemma ReadKeeps(c: Client)
    requires Invariant(c) && c.connection.Connected? && c.stage.Reading?
    ensures Invariant(Read(c))
  {
    hide WireAll, DecodeAll, PollScript, KeepsUp, Explains, PastConsistent;
    var l := c.connection.link;
    var polled := PollScript(l.reader, l.incoming, l.ending);
    PollDecodes(l.reader, l.incoming, l.ending);
    ReadExplains(l);
    if polled.poll.Failed? {
      FailKeeps(c, polled.poll.error);
    } else if polled.poll.Ready? && l.flight == [] {
      FailKeeps(c, ResponseWithoutRequest);
    } else {
      var d := Read(c);
      PastsKeep(c, d);
      ReadKeepsUp(l, if polled.poll.Ready? then l.flight[1..] else l.flight);
      if polled.poll.Ready? {
        ResponseMoves(DecodeAll(polled.next.Append(Arriving(polled.script)), l.ending), polled.poll.response,
                      l.answered);
      }
    }
  }

  lemma ActKeeps(c: Client, action: Action)
    requires Invariant(c)
    ensures Invariant(Act(c, action))
  {
    hide Partitioned, Histories, Issue, Dial, Drain, Write, Read;
    match action
    case Send(request) => IssueKeeps(c, request);
    case Poll => PollKeeps(c);
    case Tick =>
      if !c.stage.Idle? {
        if c.connection.Connecting? {
          DialKeeps(c);
        } else {
          match c.stage
          case Looping => DrainKeeps(c);
          case Writing => WriteKeeps(c);
          case Reading => ReadKeeps(c);
        }
      }
  }

  lemma PollKeeps(c: Client)
    requires Invariant(c)
    ensures Invariant(Act(c, Poll))
  {
    hide WireAll, DecodeAll, PastConsistent;
    PastsKeep(c, Act(c, Poll));
  }

  lemma HostKept(c: Client, action: Action)
    ensures Act(c, action).host == c.host
  {
    hide PollScript;
  }

  lemma {:induction false} Reachable(host: bytes, dials: seq<DialEvent>, actions: seq<Action>)
    ensures Invariant(Run(host, dials, actions)) && Run(host, dials, actions).host == host
  {
    hide Act;
    if actions != [] {
      Reachable(host, dials, actions[..|actions| - 1]);
      hide Invariant;
      ActKeeps(Run(host, dials, actions[..|actions| - 1]), actions[|actions| - 1]);
      HostKept(Run(host, dials, actions[..|actions| - 1]), actions[|actions| - 1]);
    }
  }

  // ---- The promises -----------------------------------------------------------------------------------------

  /** Over every run, each request sent is in exactly one place, once: told its result, in flight on the current
    * connection, or queued; and the three places hold consecutive stretches of the sending order. */
  lemma RequestsAreConserved(host: bytes, dials: seq<DialEvent>, actions: seq<Action>)
    ensures var c := Run(host, dials, actions);
      var completed := seq(|c.completions|, i requires 0 <= i < |c.completions| => c.completions[i].id);
      && completed + Flight(c) + Ids(c.queue) == seq(|c.issued|, i => i)
      && |c.queue| <= |c.issued| && Requests(c.queue) == c.issued[|c.issued| - |c.queue|..]
  {
    hide Run, Histories, Awake;
    Reachable(host, dials, actions);
    var c := Run(host, dials, actions);
    assert Partitioned(c);
  }

  /** The k-th response decoded on a connection answers the k-th request that the connection took, and a failed
    * connection has cancelled all its other requests with the error that ended it. Connections take consecutive blocks
    * of requests. Nothing that can be decoded is passed over: on a connection that ended with an error of the decoder,
    * the answers are all the responses that the one-shot decoder finds in what the connection received, and it ends
    * with that error; where a response came too many, every request was answered before. */
  lemma ResponsesFollowRequests(host: bytes, dials: seq<DialEvent>, actions: seq<Action>, j: nat)
    requires j < |Run(host, dials, actions).past|
    ensures var c := Run(host, dials, actions);
      var p := c.past[j];
      var decoded := DecodeAll(FRESH.Append(p.feed), p.ending);
      && p.first == (if j == 0 then 0 else c.past[j - 1].last) && p.first <= p.last <= |c.completions|
      && p.answered <= decoded.responses
      && (IsDecodingError(p.error) ==>
            decoded.responses == p.answered && decoded.outcome.Stopped? && decoded.outcome.error == p.error)
      && (p.error.ResponseWithoutRequest? ==> p.last - p.first == |p.answered| < |decoded.responses|)
      && forall k :: 0 <= k < p.last - p.first ==>
           c.completions[p.first + k] ==
             Completion(p.first + k, if k < |p.answered| then Answered(p.answered[k]) else Cancelled(p.error))
  {
    hide DecodeAll, WireAll, Run;
    var c := Run(host, dials, actions);
    Reachable(host, dials, actions);
    assert PastConsistent(c, j);
    if j > 0 {
      assert c.past[..j][j - 1] == c.past[j - 1];
    }
  }

  /** The same on the live connection, which has cancelled nothing. Between polls the answers are all the responses that
    * can be decoded from what has arrived. */
  lemma LiveResponsesFollowRequests(host: bytes, dials: seq<DialEvent>, actions: seq<Action>)
    requires Run(host, dials, actions).connection.Connected?
    ensures var c := Run(host, dials, actions);
      var l := c.connection.link;
      && l.first == LastTaken(c.past)
      && l.answered <= DecodeAll(FRESH.Append(l.feed), l.ending).responses
      && Arrived(l) + Arriving(l.incoming) == l.feed
      && (c.stage.Idle? ==> l.answered == DecodeAll(FRESH.Append(Arrived(l)), Open).responses)
      && |c.completions| == l.first + |l.answered|
      && forall k :: 0 <= k < |l.answered| ==>
        c.completions[l.first + k] == Completion(l.first + k, Answered(l.answered[k]))
  {
    hide DecodeAll, WireAll, Run, GoesOn;
    var c := Run(host, dials, actions);
    Reachable(host, dials, actions);
    var l := c.connection.link;
    assert Partitioned(c) && LinkConsistent(c, l);
    assert l.answered == DecodeAll(FRESH.Append(l.feed), l.ending).responses[..|l.answered|];
    if c.stage.Idle? {
      CaughtUp(FRESH, Arrived(l), l.answered, l.reader);
    }
  }

  /** What a server can have read from the live connection is a prefix of the block of requests that it took. */
  lemma ServerReadsTheBlock(host: bytes, dials: seq<DialEvent>, actions: seq<Action>)
    requires var c := Run(host, dials, actions);
      c.connection.Connected? && Decodable(host, c.issued)
    ensures var c := Run(host, dials, actions);
      var l := c.connection.link;
      var taken := |c.completions| + |l.flight|;
      && l.first <= taken <= |c.issued|
      && ReadAll(l.wire) <= AllReceived(host, c.issued[l.first..taken])
  {
    hide DecodeAll, WireAll, ReadAll, Run, Recoverable;
    Reachable(host, dials, actions);
    var c := Run(host, dials, actions);
    var l := c.connection.link;
    ServerSeesAPrefix(host, c.issued[l.first..|c.completions| + |l.flight|], l.wire, l.outgoing);
  }

  /** The same of every connection that has failed. As the blocks of the connections follow each other without overlap,
    * no server ever sees a request that another one was given. */
  lemma EveryServerReadItsBlock(host: bytes, dials: seq<DialEvent>, actions: seq<Action>, j: nat)
    requires j < |Run(host, dials, actions).past| && Decodable(host, Run(host, dials, actions).issued)
    ensures var c := Run(host, dials, actions);
      var p := c.past[j];
      && p.first == (if j == 0 then 0 else c.past[j - 1].last) && p.first <= p.last <= |c.issued|
      && p.wire <= WireAll(host, c.issued[p.first..p.last])
      && ReadAll(p.wire) <= AllReceived(host, c.issued[p.first..p.last])
  {
    hide DecodeAll, WireAll, ReadAll, Run, Recoverable;
    Reachable(host, dials, actions);
    var c := Run(host, dials, actions);
    var p := c.past[j];
    assert PastConsistent(c, j);
    if j > 0 {
      assert c.past[..j][j - 1] == c.past[j - 1];
    }
    var all := WireAll(host, c.issued[p.first..p.last]);
    assert p.wire + all[|p.wire|..] == all;
    ServerSeesAPrefix(host, c.issued[p.first..p.last], p.wire, all[|p.wire|..]);
  }

  /** Between polls a queued request is never forgotten: a connection attempt is under way, or the task has been
    * notified since the queue was last drained. */
  lemma NoLostWakeUp(host: bytes, dials: seq<DialEvent>, actions: seq<Action>)
    requires var c := Run(host, dials, actions);
      c.stage.Idle? && c.queue != []
    ensures var c := Run(host, dials, actions);
      c.connection.Connecting? || (c.task && c.notified)
  {
    Reachable(host, dials, actions);
  }

  /** A poll ends only where something outside will wake the task: while an attempt to connect is pending, or when a
    * read would block. In particular a refused attempt is followed by the next one at once. */
  lemma PollEndsExactly(c: Client)
    requires !c.stage.Idle?
    ensures Act(c, Tick).stage.Idle? <==>
      match c.connection
      case Connecting => c.dials == [] || c.dials[0].Pending?
      case Connected(l) => c.stage.Reading? && PollScript(l.reader, l.incoming, l.ending).poll.NotReady?
  {
    hide PollScript, WireAll;
  }

  /** A write that would block is taken for a failure: it leaves the connection and its requests alone exactly when
    * there was nothing to write. */
  lemma BlockedWriteIsFatalExactly(c: Client)
    requires c.connection.Connected? && c.stage.Writing?
    requires c.connection.link.writes != [] && c.connection.link.writes[0].Block?
    ensures Act(c, Tick).connection == c.connection <==> c.connection.link.outgoing == []
    ensures c.connection.link.outgoing != [] ==>
      Act(c, Tick).completions == c.completions + CancelAll(c.connection.link.flight, WriteBlocked)
  {
  }

  /** A request on a connection whose first write would block: from the start to the error that its caller gets,
    * whatever the server has sent, so that responses may be lost which a decoder could find. */
  lemma BlockedRequestIsCancelled(host: bytes, request: Request, incoming: seq<ReadEvent>, ending: Ending)
    ensures var dials := [Established(incoming, ending, [Block])];
      var c := Run(host, dials, [] + [Send(request)] + [Poll] + [Tick] + [Tick] + [Tick]);
      c.completions == [Completion(0, Cancelled(WriteBlocked))] && c.connection.Connecting?
  {
    var c0 := Init(host, [Established(incoming, ending, [Block])]);
    var c1 := Act(c0, Send(request));
    var c2 := Act(c1, Poll);
    var c3 := Act(c2, Tick);
    var c4 := Act(c3, Tick);
    OneMoreAction(host, c0.dials, [], Send(request));
    OneMoreAction(host, c0.dials, [] + [Send(request)], Poll);
    OneMoreAction(host, c0.dials, [] + [Send(request)] + [Poll], Tick);
    OneMoreAction(host, c0.dials, [] + [Send(request)] + [Poll] + [Tick], Tick);
    OneMoreAction(host, c0.dials, [] + [Send(request)] + [Poll] + [Tick] + [Tick], Tick);
    assert Run(host, c0.dials, []) == c0;
    hide Run, Wire, WireAll;
    WireIsNotEmpty(host, request);
    assert c3.queue == [Queued(0, request)];
    assert Requests(c3.queue) == [request] && Ids(c3.queue) == [0];
    assert c4.connection.link.outgoing == [] + WireAll(host, [request]);
    assert c4.connection.link.flight == [0];
    assert c0.completions + CancelAll([0], WriteBlocked) == [Completion(0, Cancelled(WriteBlocked))];
  }

  lemma OneMoreAction(host: bytes, dials: seq<DialEvent>, actions: seq<Action>, action: Action)
    ensures Run(host, dials, actions + [action]) == Act(Run(host, dials, actions), action)
  {
    hide Act;
    assert (actions + [action])[..|actions|] == actions;
  }

  lemma WireIsNotEmpty(host: bytes, request: Request)
    ensures WireAll(host, [request]) != []
  {
  }
}
