/** Lines on the IRC connection: how octets become commands, and how lines become octets. */
module IrcLines {
  import opened Prelude
  import opened Network
  import opened IrcCommands
  import Utf8

  const MAX_LINE: nat := 2048

  /** The characters that `trim_end` removes. */
  predicate IsWhitespace(c: char) {
    || '\U{09}' <= c <= '\U{0D}' || c == ' ' || c == '\U{85}' || c == '\U{A0}' || c == '\U{1680}'
    || '\U{2000}' <= c <= '\U{200A}' || c == '\U{2028}' || c == '\U{2029}' || c == '\U{202F}' || c == '\U{205F}'
    || c == '\U{3000}'
  }

  function TrimEnd(s: string): string {
    if s != [] && IsWhitespace(s[|s| - 1]) then TrimEnd(s[..|s| - 1]) else s
  }

  datatype ReadError = NotText | LineTooLong | ConnectionError

  /** What can be done with the octets that have arrived: deliver a command, pass over a line, give up, or wait. */
  datatype Move = Deliver(command: IrcCommand, rest: bytes) | Skip(rest: bytes) | Refuse(error: ReadError, rest: bytes)
    | Wait {
    function Append(more: bytes): Move {
      if Wait? then this else this.(rest := rest + more)
    }
  }

  /** A line of text, with its line end still on it. */
  function TakeLine(line: bytes, rest: bytes): Move {
    match Utf8.Decode(line)
    case None => Refuse(NotText, rest)
    case Some(text) =>
      match ParseCommand(TrimEnd(text))
      case Some(command) => Deliver(command, rest)
      case None => Skip(rest)
  }

  /** Reading gives up on a line exactly if there is no text that is written as these octets. */
  lemma RefusedExactly(line: bytes, rest: bytes)
    ensures TakeLine(line, rest).Refuse? <==> forall text: string :: Utf8.Encode(text) != line
  {
    hide Utf8.Decode, Utf8.Encode, ParseCommand, TrimEnd;
    if Utf8.Decode(line).Some? {
      Utf8.DecodesExactly(line, Utf8.Decode(line).value);
    }
    forall text: string
      ensures Utf8.Encode(text) == line ==> Utf8.Decode(line) == Some(text)
    {
      Utf8.DecodesExactly(line, text);
    }
  }

  function Step(b: bytes): (m: Move)
    ensures !m.Wait? ==> |m.rest| <= |b|
    ensures m.Deliver? || m.Skip? ==> |m.rest| < |b|
    ensures m.Wait? ==> |b| < MAX_LINE
  {
    var i := IndexOf(b, LF);
    if i < |b| && i < MAX_LINE then TakeLine(b[..i + 1], b[i + 1..])
    else if |b| >= MAX_LINE then Refuse(LineTooLong, b)
    else Wait
  }

  lemma StepAppend(b: bytes, more: bytes)
    requires !Step(b).Wait?
    ensures Step(b + more) == Step(b).Append(more)
  {
    hide Utf8.Decode, ParseCommand, TrimEnd;
    var i := IndexOf(b, LF);
    if i < |b| {
      assert (b + more)[..i] == b[..i];
      IndexOfUnique(b + more, LF, i);
      assert (b + more)[..i + 1] == b[..i + 1];
      assert (b + more)[i + 1..] == b[i + 1..] + more;
    } else {
      assert b[..i] == b;
      assert forall k :: 0 <= k < |b| ==> (b + more)[k] == b[k] != LF;
    }
  }

  datatype Progress = Got(command: IrcCommand, rest: bytes) | Failed(error: ReadError, rest: bytes)
    | Starved(rest: bytes) {
    function Append(more: bytes): Progress {
      this.(rest := rest + more)
    }
  }

  /** Passes over lines until one of them is a command. */
  function Advance(b: bytes): (r: Progress)
    ensures |r.rest| <= |b|
    ensures r.Got? ==> |r.rest| < |b|
    ensures r.Starved? ==> |r.rest| < MAX_LINE && Step(r.rest).Wait?
    decreases |b|
  {
    match Step(b)
    case Deliver(command, rest) => Got(command, rest)
    case Skip(rest) => Advance(rest)
    case Refuse(error, rest) => Failed(error, rest)
    case Wait => Starved(b)
  }

  lemma {:induction false} AdvanceAppend(b: bytes, more: bytes)
    ensures Advance(b).Starved? ==> Advance(b + more) == Advance(Advance(b).rest + more)
    ensures !Advance(b).Starved? ==> Advance(b + more) == Advance(b).Append(more)
    decreases |b|
  {
    hide Step;
    if !Step(b).Wait? {
      StepAppend(b, more);
      if Step(b).Skip? {
        AdvanceAppend(Step(b).rest, more);
      }
    }
  }

  /** How a connection ends for its reader. */
  datatype Outcome = Waiting(rest: bytes) | EndOfStream | Stopped(error: ReadError)

  datatype Reading = Reading(commands: seq<IrcCommand>, outcome: Outcome) {
    function Prepend(command: IrcCommand): Reading {
      this.(commands := [command] + commands)
    }
  }

  /** Reading a whole stream at once. An unfinished line at the end is dropped. */
  function ReadAll(b: bytes, ending: Ending): Reading
    decreases |b|
  {
    match Advance(b)
    case Got(command, rest) => ReadAll(rest, ending).Prepend(command)
    case Failed(error, _) => Reading([], Stopped(error))
    case Starved(rest) => AtEnd(rest, ending)
  }

  function AtEnd(rest: bytes, ending: Ending): Reading {
    match ending
    case Open => Reading([], Waiting(rest))
    case Closed => Reading([], EndOfStream)
    case Broken => Reading([], Stopped(ConnectionError))
  }

  // ---- One poll over scripted reads -------------------------------------------------------------------------

  datatype Poll = Ready(command: IrcCommand) | NotReady | AtEof | ReadFailed(error: ReadError)

  datatype Polled = Polled(poll: Poll, buffer: bytes, script: seq<ReadEvent>)

  /** Room for octets and events still to come: every read makes it smaller. */
  function Weight(script: seq<ReadEvent>): nat {
    if script == [] then 0
    else (match script[0] { case Data(piece) => |piece| case WouldBlock => 1 }) + Weight(script[1..])
  }

  /** A read takes what there is room for and leaves the rest to the next one. */
  function Rest(script: seq<ReadEvent>, taken: nat): seq<ReadEvent>
    requires script != [] && script[0].Data? && taken <= |script[0].piece|
  {
    if taken == |script[0].piece| then script[1..] else [Data(script[0].piece[taken..])] + script[1..]
  }

  function Room(b: bytes, piece: bytes): (n: nat)
    requires |b| < MAX_LINE
    ensures n <= |piece| && |b| + n <= MAX_LINE
    ensures piece != [] ==> n > 0
  {
    if |piece| <= MAX_LINE - |b| then |piece| else MAX_LINE - |b|
  }

  lemma RestIsLess(script: seq<ReadEvent>, taken: nat)
    requires script != [] && script[0].Data? && 0 < taken <= |script[0].piece|
    ensures Weight(Rest(script, taken)) < Weight(script)
    ensures Arriving(script) == script[0].piece[..taken] + Arriving(Rest(script, taken))
  {
    var piece := script[0].piece;
    LessOfTheFirst(script[0], script[1..]);
    assert [script[0]] + script[1..] == script;
    hide Weight, Arriving;
    if taken < |piece| {
      LessOfTheFirst(Data(piece[taken..]), script[1..]);
      CutInTwo(piece, taken, Arriving(script[1..]));
    } else {
      assert piece[..taken] == piece;
    }
  }

  lemma CutInTwo(piece: bytes, n: nat, rest: bytes)
    requires n <= |piece|
    ensures piece + rest == piece[..n] + (piece[n..] + rest)
  {
  }

  lemma LessOfTheFirst(event: ReadEvent, script: seq<ReadEvent>)
    requires event.Data?
    ensures Weight([event] + script) == |event.piece| + Weight(script) &&
      Arriving([event] + script) == event.piece + Arriving(script)
  {
    assert ([event] + script)[1..] == script;
  }

  function PollScript(b: bytes, script: seq<ReadEvent>, ending: Ending): (r: Polled)
    ensures r.poll.NotReady? ==> Weight(r.script) < Weight(script) || (script == [] && ending.Open?)
    ensures r.poll.Ready? ==> Weight(r.script) < Weight(script) || (r.script == script && |r.buffer| < |b|)
    decreases Weight(script)
  {
    match Advance(b)
    case Got(command, rest) => Polled(Ready(command), rest, script)
    case Failed(error, rest) => Polled(ReadFailed(error), rest, script)
    case Starved(rest) =>
      if script == [] then Polled(AtStop(ending), AfterStop(rest, ending), [])
      else
        match script[0]
        case WouldBlock => Polled(NotReady, rest, script[1..])
        case Data(piece) =>
          var n := Room(rest, piece);
          RestIsLess(script, n);
          PollScript(rest + piece[..n], Rest(script, n), ending)
  }

  function AtStop(ending: Ending): Poll {
    match ending case Open => NotReady case Closed => AtEof case Broken => ReadFailed(ConnectionError)
  }

  /** What the next line in the buffer, or the next read, leads to. */
  lemma PollUnfolds(b: bytes, script: seq<ReadEvent>, ending: Ending)
    ensures Step(b).Deliver? ==> PollScript(b, script, ending) == Polled(Ready(Step(b).command), Step(b).rest, script)
    ensures Step(b).Skip? ==> PollScript(b, script, ending) == PollScript(Step(b).rest, script, ending)
    ensures Step(b).Refuse? ==> PollScript(b, script, ending) == Polled(ReadFailed(Step(b).error), Step(b).rest, script)
    ensures Step(b).Wait? && script == [] ==>
      PollScript(b, script, ending) == Polled(AtStop(ending), AfterStop(b, ending), [])
    ensures Step(b).Wait? && script != [] && script[0].WouldBlock? ==>
      PollScript(b, script, ending) == Polled(NotReady, b, script[1..])
  {
    hide Step, Weight, TakeLine;
  }

  lemma ReadUnfolds(b: bytes, script: seq<ReadEvent>, ending: Ending)
    requires Step(b).Wait? && script != [] && script[0].Data?
    ensures var n := Room(b, script[0].piece);
      PollScript(b, script, ending) == PollScript(b + script[0].piece[..n], Rest(script, n), ending)
  {
    hide Step, Weight;
  }

  /** A failing read leaves the buffer stretched to its full size. */
  function AfterStop(rest: bytes, ending: Ending): bytes
    requires |rest| <= MAX_LINE
  {
    if ending.Broken? then rest + seq(MAX_LINE - |rest|, _ => 0) else rest
  }

  /** Polls until the connection has ended or nothing more is scripted. */
  function RunPolls(b: bytes, script: seq<ReadEvent>, ending: Ending): Reading
    decreases Weight(script), |b|
  {
    var polled := PollScript(b, script, ending);
    match polled.poll
    case Ready(command) => RunPolls(polled.buffer, polled.script, ending).Prepend(command)
    case ReadFailed(error) => Reading([], Stopped(error))
    case AtEof => Reading([], EndOfStream)
    case NotReady =>
      if script == [] then Reading([], Waiting(polled.buffer)) else RunPolls(polled.buffer, polled.script, ending)
  }

  /** `polled` is the first step of the reading `whole`. */
  ghost predicate FirstStep(polled: Polled, whole: Reading, ending: Ending) {
    var rest := ReadAll(polled.buffer + Arriving(polled.script), ending);
    match polled.poll
    case Ready(command) => whole == rest.Prepend(command)
    case NotReady => whole == rest
    case AtEof => whole == Reading([], EndOfStream)
    case ReadFailed(error) => whole == Reading([], Stopped(error))
  }

  lemma SameAdvanceSameReading(b: bytes, c: bytes, ending: Ending)
    requires Advance(b) == Advance(c)
    ensures ReadAll(b, ending) == ReadAll(c, ending)
  {
  }

  lemma PollWithoutReading(b: bytes, script: seq<ReadEvent>, ending: Ending)
    requires !Advance(b).Starved?
    ensures FirstStep(PollScript(b, script, ending), ReadAll(b + Arriving(script), ending), ending)
  {
    AdvanceAppend(b, Arriving(script));
  }

  lemma PollAtTheEnd(b: bytes, ending: Ending)
    requires Advance(b).Starved?
    ensures FirstStep(PollScript(b, [], ending), ReadAll(b, ending), ending)
  {
    var rest := Advance(b).rest;
    assert rest + Arriving([]) == rest;
    assert Advance(rest) == Starved(rest);
    SameAdvanceSameReading(b, rest, ending);
  }

  lemma {:induction false} PollReads(b: bytes, script: seq<ReadEvent>, ending: Ending)
    ensures FirstStep(PollScript(b, script, ending), ReadAll(b + Arriving(script), ending), ending)
    decreases Weight(script)
  {
    hide Step, Advance, ReadAll;
    if !Advance(b).Starved? {
      PollWithoutReading(b, script, ending);
    } else if script == [] {
      PollAtTheEnd(b, ending);
      assert b + Arriving(script) == b;
    } else {
      var rest := Advance(b).rest;
      var whole := ReadAll(b + Arriving(script), ending);
      assert whole == ReadAll(rest + Arriving(script), ending) by {
        AdvanceAppend(b, Arriving(script));
        SameAdvanceSameReading(b + Arriving(script), rest + Arriving(script), ending);
      }
      if script[0].Data? {
        var piece := script[0].piece;
        var n := Room(rest, piece);
        RestIsLess(script, n);
        assert rest + Arriving(script) == rest + piece[..n] + Arriving(Rest(script, n));
        PollReads(rest + piece[..n], Rest(script, n), ending);
      } else {
        assert Arriving(script) == Arriving(script[1..]);
      }
    }
  }

  /** The commands delivered and the way the connection ends depend only on the octets, not on how they were cut into
    * reads, how much room each read found, or how often a read would have blocked. */
  lemma {:induction false} FragmentationIndependence(b: bytes, script: seq<ReadEvent>, ending: Ending)
    ensures RunPolls(b, script, ending) == ReadAll(b + Arriving(script), ending)
    decreases Weight(script), |b|
  {
    hide PollScript, ReadAll;
    PollReads(b, script, ending);
    var polled := PollScript(b, script, ending);
    if polled.poll.Ready? || (polled.poll.NotReady? && script != []) {
      FragmentationIndependence(polled.buffer, polled.script, ending);
    } else if polled.poll.NotReady? {
      NothingLeft(b, ending);
    }
  }

  lemma NothingLeft(b: bytes, ending: Ending)
    requires PollScript(b, [], ending).poll.NotReady?
    ensures ReadAll(b + Arriving([]), ending) == Reading([], Waiting(PollScript(b, [], ending).buffer))
  {
    assert b + Arriving([]) == b;
  }

  // ---- What is there to be read now -------------------------------------------------------------------------

  /** The reads before the first that would block. */
  function UntilBlock(script: seq<ReadEvent>): seq<ReadEvent> {
    if script == [] || script[0].WouldBlock? then [] else [script[0]] + UntilBlock(script[1..])
  }

  function AfterBlock(script: seq<ReadEvent>): seq<ReadEvent> {
    if script == [] then [] else if script[0].WouldBlock? then script[1..] else AfterBlock(script[1..])
  }

  predicate Blocks(script: seq<ReadEvent>) {
    script != [] && (script[0].WouldBlock? || Blocks(script[1..]))
  }

  /** The reading of all octets that have arrived: those in the buffer and those before the first blocking read. */
  function Audible(b: bytes, script: seq<ReadEvent>, ending: Ending): Reading {
    ReadAll(b + Arriving(UntilBlock(script)), if Blocks(script) then Open else ending)
  }

  /** `polled` is the first step of `whole`, which is what can be read now; and it stops only where nothing more can. */
  ghost predicate FirstHeard(polled: Polled, whole: Reading, after: seq<ReadEvent>, ending: Ending) {
    match polled.poll
    case Ready(command) =>
      whole == Audible(polled.buffer, polled.script, ending).Prepend(command) && AfterBlock(polled.script) == after
    case NotReady => whole == Reading([], Waiting(polled.buffer)) && polled.script == after
    case AtEof => whole == Reading([], EndOfStream)
    case ReadFailed(error) => whole == Reading([], Stopped(error))
  }

  lemma RestIsAudible(script: seq<ReadEvent>, taken: nat)
    requires script != [] && script[0].Data? && taken <= |script[0].piece|
    ensures var rest := Rest(script, taken);
      && Arriving(UntilBlock(script)) == script[0].piece[..taken] + Arriving(UntilBlock(rest))
      && Blocks(rest) == Blocks(script) && AfterBlock(rest) == AfterBlock(script)
  {
    var piece := script[0].piece;
    LessOfTheFirst(script[0], UntilBlock(script[1..]));
    if taken < |piece| {
      var rest := Rest(script, taken);
      assert rest[1..] == script[1..];
      LessOfTheFirst(rest[0], UntilBlock(script[1..]));
      CutInTwo(piece, taken, Arriving(UntilBlock(script[1..])));
    } else {
      assert piece[..taken] == piece;
    }
  }

  lemma HeardWithoutReading(b: bytes, script: seq<ReadEvent>, ending: Ending)
    requires !Advance(b).Starved?
    ensures FirstHeard(PollScript(b, script, ending), Audible(b, script, ending), AfterBlock(script), ending)
  {
    AdvanceAppend(b, Arriving(UntilBlock(script)));
  }

  lemma HeardNothing(b: bytes, script: seq<ReadEvent>, ending: Ending)
    requires Advance(b).Starved? && (script == [] || script[0].WouldBlock?)
    ensures FirstHeard(PollScript(b, script, ending), Audible(b, script, ending), AfterBlock(script), ending)
  {
    hide Step;
    assert b + Arriving(UntilBlock(script)) == b;
  }

  /** A poll delivers the first command among all that has arrived, however it has arrived; it comes back without one
    * only when all of that is read and holds none. */
  lemma {:induction false} PollHears(b: bytes, script: seq<ReadEvent>, ending: Ending)
    ensures FirstHeard(PollScript(b, script, ending), Audible(b, script, ending), AfterBlock(script), ending)
    decreases Weight(script)
  {
    if !Advance(b).Starved? {
      HeardWithoutReading(b, script, ending);
    } else if script == [] || script[0].WouldBlock? {
      HeardNothing(b, script, ending);
    } else {
      var rest, piece := Advance(b).rest, script[0].piece;
      var n := Room(rest, piece);
      RestIsLess(script, n);
      RestIsAudible(script, n);
      PollHears(rest + piece[..n], Rest(script, n), ending);
      AudibleMoves(b, script, ending);
      assert PollScript(b, script, ending) == PollScript(rest + piece[..n], Rest(script, n), ending);
    }
  }

  /** Reading a piece into the buffer changes nothing about what can be read. */
  lemma AudibleMoves(b: bytes, script: seq<ReadEvent>, ending: Ending)
    requires Advance(b).Starved? && script != [] && script[0].Data?
    ensures var rest, piece := Advance(b).rest, script[0].piece;
      var n := Room(rest, piece);
      Audible(b, script, ending) == Audible(rest + piece[..n], Rest(script, n), ending)
  {
    hide Step, Advance, ReadAll, UntilBlock, Blocks;
    var rest, piece := Advance(b).rest, script[0].piece;
    var n := Room(rest, piece);
    var arrived, mode := Arriving(UntilBlock(script)), if Blocks(script) then Open else ending;
    AdvanceAppend(b, arrived);
    SameAdvanceSameReading(b + arrived, rest + arrived, mode);
    RestIsAudible(script, n);
    assert rest + piece[..n] + Arriving(UntilBlock(Rest(script, n))) == rest + arrived;
  }

  // ---- Which commands a stream of lines holds ---------------------------------------------------------------

  /** A line that fits, is text, and contains no line end. */
  predicate Readable(line: bytes) {
    |line| < MAX_LINE && LF !in line && Utf8.Decode(line + [LF]).Some?
  }

  /** The commands among the lines, in order; the others are passed over. */
  function CommandsIn(lines: seq<bytes>): seq<IrcCommand>
    requires forall i :: 0 <= i < |lines| ==> Readable(lines[i])
  {
    if lines == [] then []
    else CommandIn(lines[0]) + CommandsIn(lines[1..])
  }

  function CommandIn(line: bytes): seq<IrcCommand>
    requires Readable(line)
  {
    match ParseCommand(TrimEnd(Utf8.Decode(line + [LF]).value))
    case None => []
    case Some(command) => [command]
  }

  lemma StepLine(line: bytes, rest: bytes)
    requires Readable(line)
    ensures Step(line + [LF] + rest) == if CommandIn(line) == [] then Skip(rest) else Deliver(CommandIn(line)[0], rest)
    ensures |CommandIn(line)| <= 1
  {
    hide Utf8.Decode, ParseCommand, TrimEnd;
    var b := line + [LF] + rest;
    assert b[..|line|] == line;
    IndexOfUnique(b, LF, |line|);
    assert b[..|line| + 1] == line + [LF];
    assert b[|line| + 1..] == rest;
  }

  lemma AfterOneLine(line: bytes, rest: bytes, ending: Ending)
    requires Readable(line)
    ensures var after := ReadAll(rest, ending);
      ReadAll(line + [LF] + rest, ending) == after.(commands := CommandIn(line) + after.commands)
  {
    hide Step, Readable;
    StepLine(line, rest);
    var after := ReadAll(rest, ending);
    assert [] + after.commands == after.commands;
    assert CommandIn(line) != [] ==> CommandIn(line) == [CommandIn(line)[0]];
  }

  /** Every complete line before the end is delivered, if it is a command, exactly once and in order. */
  lemma {:induction false} CompleteLinesAreDelivered(lines: seq<bytes>, rest: bytes, ending: Ending)
    requires forall i :: 0 <= i < |lines| ==> Readable(lines[i])
    ensures var tail := ReadAll(rest, ending);
      ReadAll(Ended([LF], lines) + rest, ending) == tail.(commands := CommandsIn(lines) + tail.commands)
    decreases |lines|
  {
    hide Readable, CommandIn, ReadAll;
    var tail := ReadAll(rest, ending);
    if lines == [] {
      assert Ended([LF], lines) + rest == rest;
      assert [] + tail.commands == tail.commands;
    } else {
      CompleteLinesAreDelivered(lines[1..], rest, ending);
      var more := Ended([LF], lines[1..]) + rest;
      AfterOneLine(lines[0], more, ending);
      assert Ended([LF], lines) + rest == lines[0] + [LF] + more;
      assert CommandIn(lines[0]) + (CommandsIn(lines[1..]) + tail.commands) == CommandsIn(lines) + tail.commands;
    }
  }

  /** What a rest that holds no readable line leads to. */
  ghost predicate Unreadable(rest: bytes, error: ReadError) {
    match error
    case LineTooLong => |rest| >= 2048 && LF !in rest[..2048]
    case NotText =>
      exists i: nat ::
        i < |rest| && i < MAX_LINE && LF !in rest[..i] && rest[i] == LF && Utf8.Decode(rest[..i + 1]).None?
    case ConnectionError => false
  }

  lemma StepUnreadable(rest: bytes, error: ReadError)
    requires Unreadable(rest, error)
    ensures Step(rest).Refuse? && Step(rest).error == error
  {
    hide Utf8.Decode, ParseCommand, TrimEnd;
    if error.LineTooLong? {
      forall k | 0 <= k < MAX_LINE
        ensures rest[k] != LF
      {
        assert rest[k] in rest[..MAX_LINE];
      }
    } else {
      var i: nat :| i < |rest| && i < MAX_LINE && LF !in rest[..i] && rest[i] == LF && Utf8.Decode(rest[..i + 1]).None?;
      IndexOfUnique(rest, LF, i);
    }
  }

  /** Reading stops at the first line that is not text, and at the first 2048 octets without a line end; everything
    * before has been delivered. */
  lemma ReadingStopsThere(lines: seq<bytes>, rest: bytes, error: ReadError, ending: Ending)
    requires forall i :: 0 <= i < |lines| ==> Readable(lines[i])
    requires Unreadable(rest, error)
    ensures ReadAll(Ended([LF], lines) + rest, ending) == Reading(CommandsIn(lines), Stopped(error))
  {
    hide Step, Readable, CommandsIn, Unreadable;
    CompleteLinesAreDelivered(lines, rest, ending);
    StepUnreadable(rest, error);
    assert Advance(rest) == Failed(error, Step(rest).rest);
    assert CommandsIn(lines) + [] == CommandsIn(lines);
  }

  /** An unfinished line at the end is never delivered. */
  lemma UnfinishedLineIsDropped(lines: seq<bytes>, rest: bytes, ending: Ending)
    requires forall i :: 0 <= i < |lines| ==> Readable(lines[i])
    requires |rest| < MAX_LINE && LF !in rest
    ensures ReadAll(Ended([LF], lines) + rest, ending) == AtEnd(rest, ending).(commands := CommandsIn(lines))
  {
    hide Readable, CommandsIn, TakeLine;
    CompleteLinesAreDelivered(lines, rest, ending);
    IndexOfUnique(rest, LF, |rest|);
    assert Advance(rest) == Starved(rest);
    assert CommandsIn(lines) + [] == CommandsIn(lines);
  }

  // ---- Writing ----------------------------------------------------------------------------------------------

  datatype Flushed = FlushDone | FlushBlocked | FlushFailed

  /** What the connection does with a write and the flush after it. */
  datatype WriteEvent = Took(count: nat, flushed: Flushed) | WriteBlocked | WriteFailed

  datatype WriteResult = AllWritten | Pending | WriteError

  datatype Written = Written(result: WriteResult, taken: nat, script: seq<WriteEvent>)

  function Taken(pending: bytes, count: nat): (n: nat)
    ensures n <= |pending| && n <= count
  {
    if count < |pending| then count else |pending|
  }

  /** Writes what is pending until the connection stops taking it. */
  function WriteScript(pending: bytes, script: seq<WriteEvent>): (r: Written)
    ensures r.taken <= |pending|
    ensures r.result.AllWritten? ==> r.taken == |pending|
  {
    if pending == [] then Written(AllWritten, 0, script)
    else if script == [] then Written(Pending, 0, [])
    else
      match script[0]
      case WriteBlocked => Written(Pending, 0, script[1..])
      case WriteFailed => Written(WriteError, 0, script[1..])
      case Took(count, flushed) =>
        var n := Taken(pending, count);
        match flushed
        case FlushBlocked => Written(Pending, n, script[1..])
        case FlushFailed => Written(WriteError, n, script[1..])
        case FlushDone =>
          var more := WriteScript(pending[n..], script[1..]);
          more.(taken := n + more.taken)
  }

  predicate IsFailure(event: WriteEvent) {
    event.WriteFailed? || (event.Took? && event.flushed.FlushFailed?)
  }

  /** The socket will fail at some write or flush. */
  predicate Fails(script: seq<WriteEvent>) {
    script != [] && (IsFailure(script[0]) || Fails(script[1..]))
  }

  /** Writing goes wrong only on a socket that fails, and does not make it worse. */
  lemma {:induction false} OnlyFailuresFail(pending: bytes, script: seq<WriteEvent>)
    ensures WriteScript(pending, script).result.WriteError? ==> Fails(script)
    ensures Fails(WriteScript(pending, script).script) ==> Fails(script)
    decreases |script|
  {
    if pending != [] && script != [] && script[0].Took? {
      OnlyFailuresFail(pending[Taken(pending, script[0].count)..], script[1..]);
    }
  }

  /** What the next write leads to. */
  lemma WriteUnfolds(pending: bytes, script: seq<WriteEvent>)
    ensures pending == [] ==> WriteScript(pending, script) == Written(AllWritten, 0, script)
    ensures pending != [] && script == [] ==> WriteScript(pending, script) == Written(Pending, 0, [])
    ensures pending != [] && script != [] && script[0].WriteBlocked? ==>
      WriteScript(pending, script) == Written(Pending, 0, script[1..])
    ensures pending != [] && script != [] && script[0].WriteFailed? ==>
      WriteScript(pending, script) == Written(WriteError, 0, script[1..])
  {
  }

  lemma TookUnfolds(pending: bytes, script: seq<WriteEvent>)
    requires pending != [] && script != [] && script[0].Took?
    ensures var n, flushed := Taken(pending, script[0].count), script[0].flushed;
      && (flushed.FlushBlocked? ==> WriteScript(pending, script) == Written(Pending, n, script[1..]))
      && (flushed.FlushFailed? ==> WriteScript(pending, script) == Written(WriteError, n, script[1..]))
      && (flushed.FlushDone? ==>
            WriteScript(pending, script) ==
              WriteScript(pending[n..], script[1..]).(taken := n + WriteScript(pending[n..], script[1..]).taken))
  {
  }

  /** A connection that takes at least one octet at a time, and can be flushed, takes everything. */
  lemma {:induction false} ProgressWritesAll(pending: bytes, script: seq<WriteEvent>)
    requires |script| >= |pending|
    requires forall i :: 0 <= i < |pending| ==> script[i].Took? && script[i].count > 0 && script[i].flushed.FlushDone?
    ensures WriteScript(pending, script).result.AllWritten? && WriteScript(pending, script).taken == |pending|
  {
    if pending != [] {
      var n := if script[0].count < |pending| then script[0].count else |pending|;
      ProgressWritesAll(pending[n..], script[1..]);
    }
  }

  /** The complete lines at the front of what was sent. */
  function CompleteLines(b: bytes): seq<bytes>
    decreases |b|
  {
    var i := IndexOf(b, LF);
    if i < |b| then [b[..i]] + CompleteLines(b[i + 1..]) else []
  }

  lemma FirstCompleteLine(line: bytes, rest: bytes)
    requires LF !in line
    ensures CompleteLines(line + [LF] + rest) == [line] + CompleteLines(rest)
  {
    var b := line + [LF] + rest;
    assert b[..|line|] == line;
    IndexOfUnique(b, LF, |line|);
    assert b[|line| + 1..] == rest;
  }

  lemma NoCompleteLine(b: bytes)
    requires LF !in b
    ensures CompleteLines(b) == []
  {
    IndexOfUnique(b, LF, |b|);
  }

  /** Whatever part of the lines has been sent, a reader finds in it the first of those lines and nothing else. */
  lemma {:induction false} SentLinesAreAPrefix(lines: seq<bytes>, sent: bytes, unsent: bytes)
    requires forall i :: 0 <= i < |lines| ==> LF !in lines[i]
    requires sent + unsent == Ended([LF], lines)
    ensures CompleteLines(sent) <= lines
    ensures unsent == [] ==> CompleteLines(sent) == lines
    decreases |lines|
  {
    hide CompleteLines;
    if lines == [] {
      NoCompleteLine(sent);
    } else {
      var line, more := lines[0], Ended([LF], lines[1..]);
      var all := line + [LF] + more;
      var n := |line|;
      if n < |sent| {
        var others := sent[n + 1..];
        assert others + unsent == all[n + 1..] == more;
        assert sent == all[..n + 1] + others;
        assert all[..n + 1] == line + [LF];
        FirstCompleteLine(line, others);
        SentLinesAreAPrefix(lines[1..], others, unsent);
        assert lines == [line] + lines[1..];
      } else {
        assert sent == all[..|sent|] == line[..|sent|];
        NoCompleteLine(sent);
        assert unsent != [];
      }
    }
  }
}
