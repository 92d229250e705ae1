/** The sync loop: one long poll after another, each asking for what came after the last answer.
  *
  * The server is a log of updates with a token for every position. It may lose a request or its answer, refuse it, or
  * answer with any amount of what is new. */
module SyncClient {
  import opened Prelude

  /** `tokens[k]` stands for the position behind the first k updates. */
  datatype Server<T> = Server(log: seq<T>, tokens: seq<string>) {
    ghost predicate Valid() {
      |tokens| == |log| + 1 && forall i, j :: 0 <= i < j < |tokens| ==> tokens[i] != tokens[j]
    }

    /** Where a request starts: at the beginning, or where its token says. */
    function Position(since: Option<string>): Option<nat> {
      match since
      case None => Some(0)
      case Some(token) => if IndexOf(tokens, token) < |tokens| then Some(IndexOf(tokens, token)) else None
    }
  }

  datatype Batch<T> = Batch(updates: seq<T>, nextBatch: string)

  /** The answer to a request, up to a position of the server's choice. */
  function Serve<T>(server: Server<T>, since: Option<string>, upto: nat): Option<Batch<T>> {
    match server.Position(since)
    case None => None
    case Some(start) =>
      var end := if upto < start then start else if upto > |server.log| then |server.log| else upto;
      if start <= end <= |server.log| && end < |server.tokens| then
        Some(Batch(server.log[start..end], server.tokens[end])) else None
  }

  /** What polling a pending response brings. */
  datatype FutureEvent = NotYet | Lost | BadStatus(code: nat) | BadJson | Answer(upto: nat)

  datatype Poll<T> = Ready(batch: Batch<T>) | NotReady | Failed

  /** A request, and how many answers the client had passed on before it. */
  datatype Sent = Sent(since: Option<string>, after: nat)

  datatype Client<T> = Client(
    nextToken: Option<string>, current: Option<Option<string>>, script: seq<FutureEvent>,
    sent: seq<Sent>, finished: nat, yielded: seq<Batch<T>>)

  function Init<T>(script: seq<FutureEvent>): Client<T> {
    Client(None, None, script, [], 0, [])
  }

  function Request<T>(c: Client<T>): Client<T> {
    if c.current.Some? then c
    else c.(current := Some(c.nextToken), sent := c.sent + [Sent(c.nextToken, |c.yielded|)])
  }

  function Finish<T>(c: Client<T>): Client<T> {
    c.(current := None, finished := c.finished + 1)
  }

  datatype Polled<T> = Polled(poll: Poll<T>, client: Client<T>)

  function PollOnce<T>(c: Client<T>, server: Server<T>): Polled<T>
    decreases |c.script|
  {
    var asking := Request(c);
    if c.script == [] then Polled(NotReady, asking)
    else
      var next := asking.(script := c.script[1..]);
      match c.script[0]
      case NotYet => Polled(NotReady, next)
      case Lost => PollOnce(Finish(next), server)
      case BadStatus(_) => Polled(Failed, Finish(next))
      case BadJson => Polled(Failed, Finish(next))
      case Answer(upto) =>
        match Serve(server, asking.current.value, upto)
        case None => Polled(Failed, Finish(next))
        case Some(batch) =>
          Polled(Ready(batch), Finish(next).(nextToken := Some(batch.nextBatch), yielded := c.yielded + [batch]))
  }

  /** Any number of polls, also after failures. */
  function Run<T>(server: Server<T>, script: seq<FutureEvent>, polls: nat): Client<T> {
    if polls == 0 then Init(script) else PollOnce(Run(server, script, polls - 1), server).client
  }

  // ---- What holds after any number of polls -----------------------------------------------------------------

  function Updates<T>(batches: seq<Batch<T>>): seq<T> {
    if batches == [] then [] else Updates(batches[..|batches| - 1]) + batches[|batches| - 1].updates
  }

  /** The token to ask with after the first n answers. */
  function TokenAfter<T>(batches: seq<Batch<T>>, n: nat): Option<string>
    requires n <= |batches|
  {
    if n == 0 then None else Some(batches[n - 1].nextBatch)
  }

  ghost predicate Invariant<T>(c: Client<T>, server: Server<T>) {
    && server.Valid()
    && (forall n: nat :: n <= |c.yielded| ==> Caught(c.yielded[..n], server))
    && c.nextToken == TokenAfter(c.yielded, |c.yielded|)
    && (c.current.Some? ==> c.current.value == c.nextToken)
    && |c.sent| == c.finished + (if c.current.Some? then 1 else 0)
    && forall i :: 0 <= i < |c.sent| ==>
      c.sent[i].after <= |c.yielded| && c.sent[i].since == TokenAfter(c.yielded, c.sent[i].after)
  }

  /** The answers are together the log up to where their last token points. */
  ghost predicate Caught<T>(batches: seq<Batch<T>>, server: Server<T>) {
    var at := server.Position(TokenAfter(batches, |batches|));
    at.Some? && at.value <= |server.log| && Updates(batches) == server.log[..at.value]
  }

  lemma RequestKeeps<T>(c: Client<T>, server: Server<T>)
    requires Invariant(c, server)
    ensures Invariant(Request(c), server)
  {
  }

  lemma AnswerKeeps<T>(batches: seq<Batch<T>>, server: Server<T>, upto: nat)
    requires server.Valid() && Caught(batches, server)
    ensures var batch := Serve(server, TokenAfter(batches, |batches|), upto);
      batch.Some? && Caught(batches + [batch.value], server)
  {
    var since := TokenAfter(batches, |batches|);
    var start := server.Position(since).value;
    var batch := Serve(server, since, upto).value;
    var end := start + |batch.updates|;
    forall i | 0 <= i < end
      ensures server.tokens[i] != server.tokens[end]
    {
    }
    IndexOfUnique(server.tokens, batch.nextBatch, end);
    assert (batches + [batch])[..|batches|] == batches;
    assert server.log[..start] + server.log[start..end] == server.log[..end];
  }

  lemma {:induction false} PollKeeps<T>(c: Client<T>, server: Server<T>)
    requires Invariant(c, server)
    ensures Invariant(PollOnce(c, server).client, server)
    decreases |c.script|
  {
    hide Serve, Caught, TokenAfter;
    RequestKeeps(c, server);
    if c.script != [] {
      var next := Request(c).(script := c.script[1..]);
      match c.script[0]
      case NotYet =>
      case Lost => PollKeeps(Finish(next), server);
      case BadStatus(_) =>
      case BadJson =>
      case Answer(upto) => YieldKeeps(next, server, upto);
    }
  }

  lemma YieldKeeps<T>(c: Client<T>, server: Server<T>, upto: nat)
    requires Invariant(c, server) && c.current.Some?
    ensures var batch := Serve(server, c.current.value, upto);
      batch.Some? &&
        Invariant(Finish(c).(nextToken := Some(batch.value.nextBatch), yielded := c.yielded + [batch.value]), server)
  {
    hide Serve, Caught;
    assert c.yielded[..|c.yielded|] == c.yielded;
    AnswerKeeps(c.yielded, server, upto);
    var batch := Serve(server, c.current.value, upto).value;
    var yielded := c.yielded + [batch];
    forall n: nat | n <= |yielded|
      ensures Caught(yielded[..n], server)
    {
      if n <= |c.yielded| {
        assert yielded[..n] == c.yielded[..n];
      } else {
        assert yielded[..n] == yielded;
      }
    }
  }

  lemma {:induction false} Reachable<T>(server: Server<T>, script: seq<FutureEvent>, polls: nat)
    requires server.Valid()
    ensures Invariant(Run(server, script, polls), server)
  {
    if polls == 0 {
      assert server.Position(None) == Some(0);
      assert server.log[..0] == [];
    } else {
      Reachable(server, script, polls - 1);
      PollKeeps(Run(server, script, polls - 1), server);
    }
  }

  // ---- What a poll returns ----------------------------------------------------------------------------------

  /** What a poll returns is what it records as passed on, and it records nothing else. */
  lemma {:induction false} ReturnedIsPassedOn<T>(c: Client<T>, server: Server<T>)
    ensures var polled := PollOnce(c, server);
      && (polled.poll.Ready? ==> polled.client.yielded == c.yielded + [polled.poll.batch])
      && (!polled.poll.Ready? ==> polled.client.yielded == c.yielded)
    decreases |c.script|
  {
    hide Serve;
    if c.script != [] && c.script[0].Lost? {
      ReturnedIsPassedOn(Finish(Request(c).(script := c.script[1..])), server);
    }
  }

  /** How many answers get lost before something else happens. */
  function LostFirst(script: seq<FutureEvent>): (n: nat)
    ensures n <= |script|
  {
    if script == [] || !script[0].Lost? then 0 else 1 + LostFirst(script[1..])
  }

  /** A number, or the nearest one between two bounds. */
  function Clamp(n: nat, least: nat, most: nat): nat {
    if n < least then least else if n > most then most else n
  }

  /** Lost answers are asked for again at once; then a poll waits, fails, or returns the updates from where its token
    * points to where the server went, with the token for there. */
  lemma {:induction false} PollTurnsOut<T>(c: Client<T>, server: Server<T>)
    requires Invariant(c, server)
    ensures var polled, n := PollOnce(c, server), LostFirst(c.script);
      && (polled.poll.NotReady? <==> n == |c.script| || c.script[n].NotYet?)
      && (polled.poll.Failed? <==> n < |c.script| && (c.script[n].BadStatus? || c.script[n].BadJson?))
      && (polled.poll.Ready? <==> n < |c.script| && c.script[n].Answer?)
      && (polled.poll.Ready? ==>
            && server.Position(c.nextToken).Some?
            && var start := server.Position(c.nextToken).value;
            && start <= |server.log|
            && var end := Clamp(c.script[n].upto, start, |server.log|);
            polled.poll.batch == Batch(server.log[start..end], server.tokens[end]))
    decreases |c.script|
  {
    hide TokenAfter;
    RequestKeeps(c, server);
    assert c.yielded[..|c.yielded|] == c.yielded;
    if c.script != [] {
      var next := Request(c).(script := c.script[1..]);
      if c.script[0].Lost? {
        PollTurnsOut(Finish(next), server);
      } else if c.script[0].Answer? {
        assert Caught(c.yielded, server);
        hide Caught;
        YieldKeeps(next, server, c.script[0].upto);
      }
    }
  }

  /** The answers returned by a number of polls, in order. */
  function Returned<T>(server: Server<T>, script: seq<FutureEvent>, polls: nat): seq<Batch<T>> {
    if polls == 0 then []
    else
      var poll := PollOnce(Run(server, script, polls - 1), server).poll;
      Returned(server, script, polls - 1) + if poll.Ready? then [poll.batch] else []
  }

  lemma {:induction false} AllReturned<T>(server: Server<T>, script: seq<FutureEvent>, polls: nat)
    ensures Returned(server, script, polls) == Run(server, script, polls).yielded
  {
    hide PollOnce;
    if polls > 0 {
      AllReturned(server, script, polls - 1);
      ReturnedIsPassedOn(Run(server, script, polls - 1), server);
    }
  }

  /** Whatever gets lost, refused or garbled, the answers that the polls return are consecutive stretches of the
    * server's log from its beginning, without gap or repetition; every request asks for what follows the answers
    * returned before it; and there is never more than one request pending. */
  lemma EveryUpdateExactlyOnce<T>(server: Server<T>, script: seq<FutureEvent>, polls: nat)
    requires server.Valid()
    ensures var c, returned := Run(server, script, polls), Returned(server, script, polls);
      && (forall n: nat :: n <= |returned| ==>
           var at := server.Position(TokenAfter(returned, n));
           at.Some? && at.value <= |server.log| && Updates(returned[..n]) == server.log[..at.value])
      && (forall i :: 0 <= i < |c.sent| ==>
           c.sent[i].after <= |returned| && c.sent[i].since == TokenAfter(returned, c.sent[i].after))
      && c.finished <= |c.sent| <= c.finished + 1
  {
    AllReturned(server, script, polls);
    Reachable(server, script, polls);
    var c := Run(server, script, polls);
    hide Run, Returned;
    forall n: nat | n <= |c.yielded|
      ensures TokenAfter(c.yielded[..n], n) == TokenAfter(c.yielded, n) && Caught(c.yielded[..n], server)
    {
    }
  }

  lemma OnePollGoesOn<T>(c: Client<T>, server: Server<T>)
    requires Invariant(c, server)
    ensures var polled, start := PollOnce(c, server), |Updates(c.yielded)|;
      polled.poll.Ready? ==>
        var end := start + |polled.poll.batch.updates|;
        end <= |server.log| && polled.poll.batch == Batch(server.log[start..end], server.tokens[end])
  {
    PollTurnsOut(c, server);
    assert c.yielded[..|c.yielded|] == c.yielded;
    assert Caught(c.yielded, server);
    hide PollOnce, TokenAfter, Updates;
  }

  /** So a poll that returns anything returns what comes next in the log after all that was returned before. */
  lemma EveryPollGoesOn<T>(server: Server<T>, script: seq<FutureEvent>, polls: nat)
    requires server.Valid()
    ensures var polled, start := PollOnce(Run(server, script, polls), server),
      |Updates(Returned(server, script, polls))|;
      polled.poll.Ready? ==>
        var end := start + |polled.poll.batch.updates|;
        end <= |server.log| && polled.poll.batch == Batch(server.log[start..end], server.tokens[end])
  {
    hide *;
    AllReturned(server, script, polls);
    Reachable(server, script, polls);
    OnePollGoesOn(Run(server, script, polls), server);
  }

  // ---- The client of the source -----------------------------------------------------------------------------

  /** The HTTP client as the sync loop uses it, with the requests it was given. */
  class SyncHttp<T> {
    const server: Server<T>
    var script: seq<FutureEvent>
    ghost var sent: seq<Sent>
    ghost var finished: nat

    constructor (server: Server<T>, script: seq<FutureEvent>)
      ensures this.server == server && this.script == script && sent == [] && finished == 0
    {
      this.server, this.script, sent, finished := server, script, [], 0;
    }
  }

  class MatrixSyncClient<T> {
    const http: SyncHttp<T>
    var nextToken: Option<string>
    var currentSync: Option<Option<string>>
    ghost var yielded: seq<Batch<T>>

    constructor (http: SyncHttp<T>)
      requires http.sent == [] && http.finished == 0
      ensures this.http == http && View() == Init(http.script)
    {
      this.http := http;
      nextToken, currentSync, yielded := None, None, [];
    }

    ghost function View(): Client<T>
      reads this, http
    {
      Client(nextToken, currentSync, http.script, http.sent, http.finished, yielded)
    }

    method PollSync() returns (poll: Poll<T>)
      modifies this, http
      ensures PollOnce(old(View()), http.server) == Polled(poll, View())
    {
      while true
        invariant PollOnce(View(), http.server) == PollOnce(old(View()), http.server)
        decreases |http.script|, currentSync.None?
      {
        if currentSync.None? {
          currentSync := Some(nextToken);
          http.sent := http.sent + [Sent(nextToken, |yielded|)];
          continue;
        }
        var since := currentSync.value;
        if http.script == [] {
          return NotReady;
        }
        var event := http.script[0];
        http.script := http.script[1..];
        match event
        case NotYet =>
          return NotReady;
        case Lost =>
          currentSync := None;
          http.finished := http.finished + 1;
        case BadStatus(_) =>
          currentSync := None;
          http.finished := http.finished + 1;
          return Failed;
        case BadJson =>
          currentSync := None;
          http.finished := http.finished + 1;
          return Failed;
        case Answer(upto) =>
          currentSync := None;
          http.finished := http.finished + 1;
          var batch := Serve(http.server, since, upto);
          if batch.None? {
            return Failed;
          }
          nextToken := Some(batch.value.nextBatch);
          yielded := yielded + [batch.value];
          return Ready(batch.value);
      }
    }
  }
}
