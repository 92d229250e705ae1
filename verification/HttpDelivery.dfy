/** That the pipelining client gets anything done: on a connection that takes the requests and answers them, every
  * request gets its response. */
module HttpDelivery {
  import opened Prelude
  import opened Network
  import opened HttpParser
  import opened HttpStream
  import opened HttpMessage
  import opened HttpRequest
  import opened HttpPipeline

  // ---- A task that is polled again whenever it waits --------------------------------------------------------

  function Next(c: Client): Action {
    if c.stage.Idle? then Poll else Tick
  }

  function Driven(c: Client, steps: nat): Client
    decreases steps
  {
    if steps == 0 then c else Driven(Act(c, Next(c)), steps - 1)
  }

  lemma {:induction false} DrivenOn(c: Client, m: nat, n: nat)
    ensures Driven(Driven(c, m), n) == Driven(c, m + n)
    decreases m
  {
    hide Act;
    if m > 0 {
      DrivenOn(Act(c, Next(c)), m - 1, n);
    }
  }

  /** What is driven is a run like any other. */
  lemma {:induction false} DrivenIsRun(host: bytes, dials: seq<DialEvent>, actions: seq<Action>, steps: nat)
    ensures exists more :: Driven(Run(host, dials, actions), steps) == Run(host, dials, actions + more)
    decreases steps
  {
    hide Act, Run;
    if steps == 0 {
      assert actions + [] == actions;
    } else {
      var next := Next(Run(host, dials, actions));
      OneMoreAction(host, dials, actions, next);
      DrivenIsRun(host, dials, actions + [next], steps - 1);
      var more :| Driven(Run(host, dials, actions + [next]), steps - 1) == Run(host, dials, actions + [next] + more);
      assert actions + [next] + more == actions + ([next] + more);
    }
  }

  // ---- Getting a connection ---------------------------------------------------------------------------------

  /** No attempt gets a connection. */
  predicate NoneEstablished(dials: seq<DialEvent>) {
    forall i :: 0 <= i < |dials| ==> !dials[i].Established?
  }

  /** Nothing but the connection, and what the task has been told, is different. */
  ghost predicate Dialled(c: Client, r: Client, incoming: seq<ReadEvent>, ending: Ending, writes: seq<WriteEvent>) {
    && r.stage.Looping? && r.connection == Connected(NewLink(|c.completions|, incoming, ending, writes))
    && r.host == c.host && r.issued == c.issued && r.queue == c.queue && r.completions == c.completions
  }

  /** However many attempts fail or take their time. */
  lemma {:induction false} GetsConnected(c: Client, attempts: seq<DialEvent>, incoming: seq<ReadEvent>, ending: Ending,
                                         writes: seq<WriteEvent>) returns (steps: nat)
    requires c.connection.Connecting? && (c.stage.Idle? || c.stage.Looping?) && NoneEstablished(attempts)
    requires c.dials == attempts + [Established(incoming, ending, writes)]
    ensures Dialled(c, Driven(c, steps), incoming, ending, writes)
    decreases |attempts|, c.stage.Idle?
  {
    var d := Act(c, Next(c));
    if c.stage.Idle? {
      var more := GetsConnected(d, attempts, incoming, ending, writes);
      steps := more + 1;
    } else if attempts == [] {
      assert c.dials[0] == Established(incoming, ending, writes);
      steps := 1;
      assert Driven(c, 1) == Driven(d, 0) == d;
    } else {
      assert c.dials[0] == attempts[0] && d.dials == attempts[1..] + [Established(incoming, ending, writes)];
      var more := GetsConnected(d, attempts[1..], incoming, ending, writes);
      steps := more + 1;
    }
  }

  // ---- Getting the answers ----------------------------------------------------------------------------------

  /** Everything has been written and taken; the task is about to read, and `left` is what is to be answered still. */
  ghost predicate Waits(c: Client, left: seq<Response>) {
    && c.stage.Reading? && c.connection.Connected? && c.queue == []
    && var l := c.connection.link;
    && l.outgoing == [] && |l.flight| == |left|
    && left <= DecodeAll(l.reader.Append(Arriving(l.incoming)), l.ending).responses
  }

  /** From the head of the loop the task comes back to reading, as nothing is left to write. */
  lemma BackToReading(c: Client)
    requires c.stage.Looping? && c.connection.Connected? && c.queue == [] && c.connection.link.outgoing == []
    ensures Driven(c, 2) == c.(stage := Reading, task := true)
  {
    var d := Act(c, Next(c));
    assert Ids([]) == [] && Requests([]) == [] && WireAll(c.host, []) == [];
    assert c.connection.link.flight + [] == c.connection.link.flight;
    assert d == c.(stage := Writing, task := true);
    var e := Act(d, Next(d));
    assert Driven(c, 2) == Driven(d, 1) == Driven(e, 0);
  }

  /** A read that blocks takes something off what is to come. */
  lemma ReadsOn(c: Client, left: seq<Response>)
    requires Waits(c, left) && left != []
    ensures var l := c.connection.link;
      var polled := PollScript(l.reader, l.incoming, l.ending);
      && !polled.poll.Failed?
      && (polled.poll.NotReady? ==>
            && |polled.script| < |l.incoming|
            && left <= DecodeAll(polled.next.Append(Arriving(polled.script)), l.ending).responses)
      && (polled.poll.Ready? ==>
            && polled.poll.response == left[0]
            && left[1..] <= DecodeAll(polled.next.Append(Arriving(polled.script)), l.ending).responses)
  {
    hide DecodeAll, PollScript;
    var l := c.connection.link;
    PollDecodes(l.reader, l.incoming, l.ending);
    if l.incoming == [] {
      NothingToComeNothingDecoded(l.reader, l.ending);
    }
  }

  lemma NothingToComeNothingDecoded(p: Parser, ending: Ending)
    ensures PollScript(p, [], ending).poll.NotReady? ==> DecodeAll(p.Append(Arriving([])), ending).responses == []
  {
    assert p.Append(Arriving([])) == p;
  }

  /** A turn of the loop that begins with a read. */
  lemma OneTurn(c: Client, left: seq<Response>) returns (r: Client, steps: nat, answered: bool, rest: seq<Response>)
    requires Waits(c, left) && left != []
    ensures r == Driven(c, steps) && Waits(r, rest) && r.connection.Connected? && c.connection.Connected?
    ensures rest == if answered then left[1..] else left
    ensures r.connection.link.wire == c.connection.link.wire
    ensures answered ==>
      && r.completions == c.completions + [Completion(c.connection.link.flight[0], Answered(left[0]))]
      && r.connection.link.flight == c.connection.link.flight[1..]
    ensures !answered ==>
      && r.completions == c.completions && r.connection.link.flight == c.connection.link.flight
      && |r.connection.link.incoming| < |c.connection.link.incoming|
  {
    hide DecodeAll, PollScript, Arriving;
    ReadsOn(c, left);
    var l := c.connection.link;
    var polled := PollScript(l.reader, l.incoming, l.ending);
    answered := polled.poll.Ready?;
    rest := if answered then left[1..] else left;
    var d := Act(c, Next(c));
    var e := if answered then d else Act(d, Next(d));
    BackToReading(e);
    r := Driven(e, 2);
    steps := if answered then 3 else 4;
    StepsAddUp(c, d, e, r, !answered, 0);
  }

  function Answers(flight: seq<nat>, left: seq<Response>): (completions: seq<Completion>)
    requires |flight| == |left|
    ensures |completions| == |left|
  {
    seq(|left|, i requires 0 <= i < |left| => Completion(flight[i], Answered(left[i])))
  }

  lemma OneAnswerMore(before: seq<Completion>, flight: seq<nat>, left: seq<Response>)
    requires |flight| == |left| > 0
    ensures before + Answers(flight, left) ==
      before + [Completion(flight[0], Answered(left[0]))] + Answers(flight[1..], left[1..])
  {
  }

  lemma NoAnswerMore(before: seq<Completion>)
    ensures before + Answers([], []) == before
  {
  }

  lemma WaitsFor(c: Client, left: seq<Response>)
    requires Waits(c, left)
    ensures c.connection.Connected? && |c.connection.link.flight| == |left|
  {
  }

  /** From one state to another all that was left was answered, and nothing more was written. */
  ghost predicate AllAnswered(c: Client, r: Client, left: seq<Response>) {
    && c.connection.Connected? && |c.connection.link.flight| == |left| && r.connection.Connected?
    && r.completions == c.completions + Answers(c.connection.link.flight, left)
    && r.connection.link.wire == c.connection.link.wire
  }

  lemma AnsweredBefore(c: Client, r: Client, s: Client, left: seq<Response>)
    requires c.connection.Connected? && |c.connection.link.flight| == |left| > 0 && r.connection.Connected?
    requires r.completions == c.completions + [Completion(c.connection.link.flight[0], Answered(left[0]))]
    requires r.connection.link.flight == c.connection.link.flight[1..]
    requires r.connection.link.wire == c.connection.link.wire
    requires AllAnswered(r, s, left[1..])
    ensures AllAnswered(c, s, left)
  {
    hide Answers;
    OneAnswerMore(c.completions, c.connection.link.flight, left);
  }

  lemma NothingAnswered(c: Client, r: Client, s: Client, left: seq<Response>)
    requires c.connection.Connected? && r.connection.Connected? && r.completions == c.completions
    requires r.connection.link.flight == c.connection.link.flight && r.connection.link.wire == c.connection.link.wire
    requires AllAnswered(r, s, left)
    ensures AllAnswered(c, s, left)
  {
    hide Answers;
  }

  lemma NothingLeft(c: Client)
    requires Waits(c, [])
    ensures AllAnswered(c, Driven(c, 0), [])
  {
    NoAnswerMore(c.completions);
    hide Answers, DecodeAll;
  }

  /** One request after another is answered. */
  lemma {:induction false} GetsAnswers(c: Client, left: seq<Response>) returns (steps: nat)
    requires Waits(c, left)
    ensures AllAnswered(c, Driven(c, steps), left)
    ensures c.connection.Connected? && |c.connection.link.flight| == |left|
    decreases |left|, |c.connection.link.incoming|
  {
    hide *;
    WaitsFor(c, left);
    if left == [] {
      steps := 0;
      NothingLeft(c);
    } else {
      var r, turn, answered, rest := OneTurn(c, left);
      var more := GetsAnswers(r, rest);
      steps := turn + more;
      DrivenOn(c, turn, more);
      if answered {
        AnsweredBefore(c, r, Driven(r, more), left);
      } else {
        NothingAnswered(c, r, Driven(r, more), left);
      }
    }
  }

  lemma StepsAddUp(c: Client, d: Client, e: Client, r: Client, blocked: bool, more: nat)
    requires d == Act(c, Next(c)) && e == (if blocked then Act(d, Next(d)) else d) && r == Driven(e, 2)
    ensures Driven(c, more + if blocked then 4 else 3) == Driven(r, more)
  {
    hide Act;
    DrivenOn(e, 2, more);
    if blocked {
      assert Driven(c, more + 4) == Driven(d, more + 3) == Driven(e, more + 2);
    } else {
      assert Driven(c, more + 3) == Driven(d, more + 2);
    }
  }

  // ---- From the requests to the answers ---------------------------------------------------------------------

  /** All requests are sent, one after the other. */
  function SentAll(c: Client, requests: seq<Request>): Client {
    if requests == [] then c
    else Act(SentAll(c, requests[..|requests| - 1]), Send(requests[|requests| - 1]))
  }

  lemma QueueOneMore(queue: seq<Queued>, q: Queued)
    ensures Ids(queue + [q]) == Ids(queue) + [q.id] && Requests(queue + [q]) == Requests(queue) + [q.request]
  {
  }

  lemma CountOneMore(n: nat)
    ensures seq(n + 1, i => i) == seq(n, i => i) + [n]
  {
  }

  lemma NothingQueued()
    ensures Ids([]) == seq(0, i => i) && Requests([]) == []
  {
  }

  /** Nothing has happened but that these requests were queued. */
  ghost predicate QueuedUp(c: Client, host: bytes, dials: seq<DialEvent>, requests: seq<Request>) {
    && c.host == host && c.dials == dials && c.issued == requests && c.completions == []
    && c.connection.Connecting? && c.stage.Idle?
    && Ids(c.queue) == seq(|requests|, i => i) && Requests(c.queue) == requests
  }

  lemma NothingQueuedUp(host: bytes, dials: seq<DialEvent>)
    ensures QueuedUp(Init(host, dials), host, dials, [])
  {
    NothingQueued();
    hide Ids, Requests;
  }

  lemma OneMoreQueued(b: Client, host: bytes, dials: seq<DialEvent>, before: seq<Request>, last: Request)
    requires QueuedUp(b, host, dials, before)
    ensures QueuedUp(Act(b, Send(last)), host, dials, before + [last])
  {
    hide Ids, Requests;
    QueueOneMore(b.queue, Queued(|before|, last));
    CountOneMore(|before|);
    assert Act(b, Send(last)) == Issue(b, last);
    hide Act;
  }

  lemma {:induction false} AllQueued(host: bytes, dials: seq<DialEvent>, requests: seq<Request>)
    ensures QueuedUp(SentAll(Init(host, dials), requests), host, dials, requests)
  {
    hide Act, QueuedUp;
    if requests == [] {
      NothingQueuedUp(host, dials);
    } else {
      var before, last := requests[..|requests| - 1], requests[|requests| - 1];
      AllQueued(host, dials, before);
      OneMoreQueued(SentAll(Init(host, dials), before), host, dials, before, last);
      assert requests == before + [last];
    }
  }

  /** To send is to act, too. */
  lemma {:induction false} SentAllIsRun(host: bytes, dials: seq<DialEvent>, requests: seq<Request>)
    ensures exists actions :: SentAll(Init(host, dials), requests) == Run(host, dials, actions)
  {
    hide Act;
    if requests == [] {
      assert Run(host, dials, []) == Init(host, dials);
    } else {
      SentAllIsRun(host, dials, requests[..|requests| - 1]);
      var actions :| SentAll(Init(host, dials), requests[..|requests| - 1]) == Run(host, dials, actions);
      OneMoreAction(host, dials, actions, Send(requests[|requests| - 1]));
    }
  }

  lemma DrivenFromSent(host: bytes, dials: seq<DialEvent>, requests: seq<Request>, steps: nat)
    ensures exists actions :: Driven(SentAll(Init(host, dials), requests), steps) == Run(host, dials, actions)
  {
    hide *;
    SentAllIsRun(host, dials, requests);
    var actions :| SentAll(Init(host, dials), requests) == Run(host, dials, actions);
    DrivenIsRun(host, dials, actions, steps);
    var more :| Driven(Run(host, dials, actions), steps) == Run(host, dials, actions + more);
  }

  /** What was queued is written at once, if the connection takes that much, and then the answers are waited for. */
  lemma WritesAll(c: Client, requests: seq<Request>, incoming: seq<ReadEvent>, ending: Ending, count: nat)
    requires c.stage.Looping? && c.completions == [] && Requests(c.queue) == requests
    requires Ids(c.queue) == seq(|requests|, i => i)
    requires c.connection == Connected(NewLink(0, incoming, ending, [Accept(count)]))
    requires count >= |WireAll(c.host, requests)|
    requires |requests| <= |DecodeAll(FRESH.Append(Arriving(incoming)), ending).responses|
    ensures var r := Driven(c, 2);
      && Waits(r, DecodeAll(FRESH.Append(Arriving(incoming)), ending).responses[..|requests|])
      && r.completions == [] && r.connection.Connected? && r.connection.link.flight == seq(|requests|, i => i)
      && r.connection.link.wire == WireAll(c.host, requests)
  {
    hide DecodeAll, WireAll, Arriving;
    var d := Act(c, Next(c));
    var wire := WireAll(c.host, requests);
    assert [] + Ids(c.queue) == Ids(c.queue) && [] + wire == wire;
    assert d.connection.link.outgoing == wire && d.stage.Writing?;
    var e := Act(d, Next(d));
    assert Driven(c, 2) == Driven(d, 1) == Driven(e, 0);
    assert wire[..|wire|] == wire && wire[|wire|..] == [];
  }

  /** However many attempts it takes to get a connection, and however the answers arrive: if the connection takes what
    * is written and gives at least as many responses as there are requests, then a task that is polled again whenever
    * it waits comes to tell every request its response, in order, and the server has been written exactly the
    * requests. */
  lemma EveryRequestIsAnswered(host: bytes, requests: seq<Request>, attempts: seq<DialEvent>, incoming: seq<ReadEvent>,
                               ending: Ending, count: nat) returns (steps: nat)
    requires NoneEstablished(attempts) && count >= |WireAll(host, requests)|
    requires |requests| <= |DecodeAll(FRESH.Append(Arriving(incoming)), ending).responses|
    ensures var dials := attempts + [Established(incoming, ending, [Accept(count)])];
      var c := Driven(SentAll(Init(host, dials), requests), steps);
      var responses := DecodeAll(FRESH.Append(Arriving(incoming)), ending).responses;
      && c.completions == seq(|requests|, i requires 0 <= i < |requests| => Completion(i, Answered(responses[i])))
      && c.connection.Connected? && c.connection.link.wire == WireAll(host, requests)
      && exists actions :: c == Run(host, dials, actions)
  {
    hide DecodeAll, WireAll, Arriving, Driven, Act, SentAll, Waits;
    var dials := attempts + [Established(incoming, ending, [Accept(count)])];
    var start := SentAll(Init(host, dials), requests);
    AllQueued(host, dials, requests);
    var first := GetsConnected(start, attempts, incoming, ending, [Accept(count)]);
    var connected := Driven(start, first);
    WritesAll(connected, requests, incoming, ending, count);
    var left := DecodeAll(FRESH.Append(Arriving(incoming)), ending).responses[..|requests|];
    var more := GetsAnswers(Driven(connected, 2), left);
    DrivenOn(start, first, 2);
    DrivenOn(start, first + 2, more);
    steps := first + 2 + more;
    DrivenFromSent(host, dials, requests, steps);
    SameAnswers(Driven(connected, 2).connection.link.flight, left,
                DecodeAll(FRESH.Append(Arriving(incoming)), ending).responses);
  }

  lemma SameAnswers(flight: seq<nat>, left: seq<Response>, responses: seq<Response>)
    requires left <= responses && |flight| == |left| && flight == seq(|left|, i => i)
    ensures [] + Answers(flight, left) ==
      seq(|left|, i requires 0 <= i < |left| => Completion(i, Answered(responses[i])))
  {
  }

  /** So it is with a server that answers each request with a well-formed response, with the code, the type and the body
    * of that response. */
  lemma EveryRequestGetsItsMessage(host: bytes, requests: seq<Request>, attempts: seq<DialEvent>,
                                   incoming: seq<ReadEvent>, messages: seq<Message>, count: nat) returns (steps: nat)
    requires NoneEstablished(attempts) && count >= |WireAll(host, requests)|
    requires ValidMessages(messages) && |messages| == |requests| && Arriving(incoming) == MessagesWire(messages)
    ensures var dials := attempts + [Established(incoming, Open, [Accept(count)])];
      var c := Driven(SentAll(Init(host, dials), requests), steps);
      c.completions == seq(|requests|, i requires 0 <= i < |requests| => Completion(i, Answered(messages[i].Meaning())))
  {
    hide DecodeAll, WireAll, Arriving, Driven, Act, SentAll, MessagesWire, Message.Meaning, Message.Valid,
      ValidMessages;
    StreamRoundTrip(messages, [], Open);
    NothingToDecode();
    MeaningsEach(messages);
    assert MessagesWire(messages) + [] == MessagesWire(messages);
    assert FRESH.Append(Arriving(incoming)) == Between(MessagesWire(messages) + []);
    assert Meanings(messages) + [] == Meanings(messages);
    steps := EveryRequestIsAnswered(host, requests, attempts, incoming, Open, count);
  }

  lemma {:induction false} MeaningsEach(messages: seq<Message>)
    ensures |Meanings(messages)| == |messages|
    ensures forall i :: 0 <= i < |messages| ==> Meanings(messages)[i] == messages[i].Meaning()
  {
    hide Message.Meaning;
    if messages != [] {
      MeaningsEach(messages[1..]);
    }
  }
}
