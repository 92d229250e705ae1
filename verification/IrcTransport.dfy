/** The IRC connection of the source: a bounded read buffer, and a write buffer with a cursor. */
module IrcTransport {
  import opened Prelude
  import opened Network
  import opened IrcCommands
  import opened IrcLines
  import Utf8

  /** The socket: what it will answer to reads and writes, and what it has sent. */
  class IrcSocket {
    var script: seq<ReadEvent>
    const ending: Ending
    var writes: seq<WriteEvent>
    var wire: bytes

    constructor (script: seq<ReadEvent>, ending: Ending, writes: seq<WriteEvent>)
      ensures this.script == script && this.ending == ending && this.writes == writes && wire == []
    {
      this.script, this.ending, this.writes, wire := script, ending, writes, [];
    }
  }

  datatype StreamPoll = Item(command: IrcCommand) | EndOfItems | NothingYet | ReadStopped(error: ReadError)
    | WriteStopped

  /** What the user of the connection is told of a read. */
  function Reported(poll: Poll): StreamPoll {
    match poll
    case Ready(command) => Item(command)
    case NotReady => NothingYet
    case AtEof => EndOfItems
    case ReadFailed(error) => ReadStopped(error)
  }

  /** A stream cut in two after `done` more octets. */
  lemma CutStream(wire: bytes, pending: bytes, sent: bytes, left: bytes, done: nat)
    requires sent + left == wire + pending && |sent| == |wire| + done && done <= |pending|
    ensures sent == wire + pending[..done] && left == pending[done..]
  {
    var all := wire + pending;
    assert sent == all[..|sent|] && left == all[|sent|..];
  }

  class IrcServerConnection {
    const conn: IrcSocket
    var readBuffer: bytes
    var writeBuffer: bytes
    var position: nat
    var writeTask: bool
    var notified: bool
    var closed: bool
    ghost var lines: seq<bytes>

    constructor (conn: IrcSocket)
      requires conn.wire == []
      ensures this.conn == conn && Valid() && lines == [] && readBuffer == [] && !closed && Pending() == []
    {
      this.conn := conn;
      readBuffer, writeBuffer, position := [], [], 0;
      writeTask, notified, closed := false, false, false;
      lines := [];
    }

    /** What has been written so far is either sent or still in the buffer behind the cursor; no octet is lost,
      * repeated or reordered. */
    ghost predicate Valid()
      reads this`readBuffer, this`writeBuffer, this`position, this`lines, conn`wire
    {
      && |readBuffer| <= MAX_LINE
      && position <= |writeBuffer|
      && Stream() == Ended([LF], lines)
    }

    function Pending(): bytes
      reads this`writeBuffer, this`position
      requires position <= |writeBuffer|
    {
      writeBuffer[position..]
    }

    /** Everything that was ever to be sent, in order. */
    function Stream(): bytes
      reads this`writeBuffer, this`position, conn`wire
      requires position <= |writeBuffer|
    {
      conn.wire + Pending()
    }

    /** At any moment the peer can make out the first of the lines written, and nothing else. */
    lemma PeerSeesTheFirstLines()
      requires Valid() && forall i :: 0 <= i < |lines| ==> LF !in lines[i]
      ensures CompleteLines(conn.wire) <= lines
      ensures Pending() == [] ==> CompleteLines(conn.wire) == lines
    {
      SentLinesAreAPrefix(lines, conn.wire, Pending());
    }

    /** Gives the socket what is behind the cursor and moves the cursor over what it took. */
    method SendSome(count: nat) returns (n: nat)
      requires position <= |writeBuffer|
      modifies this`position, conn`wire
      ensures n == Taken(old(Pending()), count)
      ensures position <= |writeBuffer| && Pending() == old(Pending())[n..]
      ensures Stream() == old(Stream()) && |conn.wire| == |old(conn.wire)| + n
    {
      var toWrite := writeBuffer[position..];
      n := Taken(toWrite, count);
      conn.wire := conn.wire + toWrite[..n];
      position := position + n;
      assert Pending() == toWrite[n..];
      assert toWrite == toWrite[..n] + toWrite[n..];
      assert old(conn.wire) + toWrite[..n] + toWrite[n..] == old(conn.wire) + toWrite;
    }

    /** What the socket makes of the next write. */
    method NextWrite() returns (event: WriteEvent)
      modifies conn`writes
      ensures event == if old(conn.writes) == [] then WriteBlocked else old(conn.writes)[0]
      ensures conn.writes == if old(conn.writes) == [] then [] else old(conn.writes)[1..]
    {
      if conn.writes == [] {
        return WriteBlocked;
      }
      event := conn.writes[0];
      conn.writes := conn.writes[1..];
    }

    /** One write, and the flush after it. */
    method WriteOnce() returns (stop: Option<WriteResult>, n: nat)
      requires position < |writeBuffer|
      modifies this`position, conn`writes, conn`wire
      ensures position <= |writeBuffer| && Stream() == old(Stream())
      ensures |Pending()| + n == |old(Pending())| && |conn.wire| == |old(conn.wire)| + n
      ensures stop.Some? ==> WriteScript(old(Pending()), old(conn.writes)) == Written(stop.value, n, conn.writes)
      ensures stop.None? ==>
        && |conn.writes| < |old(conn.writes)|
        && WriteScript(old(Pending()), old(conn.writes)) ==
             WriteScript(Pending(), conn.writes).(taken := n + WriteScript(Pending(), conn.writes).taken)
    {
      ghost var pending, script := Pending(), conn.writes;
      assert pending != [];
      WriteUnfolds(pending, script);
      if script != [] && script[0].Took? {
        TookUnfolds(pending, script);
      }
      hide WriteScript;
      var event := NextWrite();
      match event
      case WriteBlocked => return Some(IrcLines.Pending), 0;
      case WriteFailed => return Some(WriteError), 0;
      case Took(count, flushed) =>
        n := SendSome(count);
        match flushed {
          case FlushDone => return None, n;
          case FlushBlocked => return Some(IrcLines.Pending), n;
          case FlushFailed => return Some(WriteError), n;
        }
    }

    /** Sends what the socket takes. `Pending` means that the rest has to wait. */
    method PollWrite() returns (r: WriteResult)
      requires Valid()
      modifies this`writeBuffer, this`position, this`writeTask, conn`writes, conn`wire
      ensures Valid() && writeTask
      ensures var sent := WriteScript(old(Pending()), old(conn.writes));
        && r == sent.result && conn.writes == sent.script
        && conn.wire == old(conn.wire) + old(Pending())[..sent.taken]
        && Pending() == old(Pending())[sent.taken..]
    {
      hide Ended, WriteScript, Pending, Stream;
      ghost var before, wire := Pending(), conn.wire;
      ghost var done: nat := 0;
      StreamIs();
      while true
        invariant position <= |writeBuffer| && done + |Pending()| == |before|
        invariant Stream() == wire + before && |conn.wire| == |wire| + done
        invariant WriteScript(before, old(conn.writes)) ==
          var more := WriteScript(Pending(), conn.writes);
          more.(taken := done + more.taken)
        decreases |conn.writes|
      {
        WriteUnfolds(Pending(), conn.writes);
        writeTask := true;
        var allWritten := NothingPending();
        if allWritten {
          StreamIs();
          CutStream(wire, before, conn.wire, Pending(), done);
          return AllWritten;
        }
        var stop, n := WriteOnce();
        done := done + n;
        if stop.Some? {
          StreamIs();
          CutStream(wire, before, conn.wire, Pending(), done);
          return stop.value;
        }
      }
    }

    lemma StreamIs()
      requires position <= |writeBuffer|
      ensures Stream() == conn.wire + Pending()
    {
    }

    /** Whether everything is sent; then the buffer starts afresh. */
    method NothingPending() returns (yes: bool)
      requires position <= |writeBuffer|
      modifies this`writeBuffer, this`position
      ensures position <= |writeBuffer| && Pending() == old(Pending()) && Stream() == old(Stream())
      ensures yes <==> Pending() == []
      ensures !yes ==> position < |writeBuffer|
    {
      if writeBuffer == [] {
        return true;
      }
      if |writeBuffer| - position == 0 {
        writeBuffer, position := [], 0;
        return true;
      }
      return false;
    }

    /** Appends a line; a failure to send it right away is not reported here. */
    method WriteLine(line: bytes)
      requires Valid()
      modifies this`writeBuffer, this`position, this`writeTask, this`notified, this`lines, conn`writes, conn`wire
      ensures Valid() && lines == old(lines) + [line] && old(conn.wire) <= conn.wire
      ensures notified == (old(notified) || old(writeTask))
      ensures var sent := WriteScript(old(Pending()) + line + [LF], old(conn.writes));
        conn.writes == sent.script && |conn.wire| == |old(conn.wire)| + sent.taken
      ensures Fails(conn.writes) ==> Fails(old(conn.writes))
    {
      hide WriteScript, Fails, Ended, Stream, Pending;
      ghost var pending, script, wire := Pending() + line + [LF], conn.writes, conn.wire;
      Append(line);
      if writeTask {
        notified := true;
      }
      var ignored := PollWrite();
      SentOf(pending, script, wire, conn.wire);
    }

    static lemma SentOf(pending: bytes, script: seq<WriteEvent>, before: bytes, after: bytes)
      requires after == before + pending[..WriteScript(pending, script).taken]
      ensures before <= after && |after| == |before| + WriteScript(pending, script).taken
      ensures Fails(WriteScript(pending, script).script) ==> Fails(script)
    {
      OnlyFailuresFail(pending, script);
    }

    method Append(line: bytes)
      requires Valid()
      modifies this`writeBuffer, this`lines
      ensures Valid() && lines == old(lines) + [line] && Pending() == old(Pending()) + line + [LF]
    {
      EndedOneMore(lines, line);
      hide Ended;
      ghost var before := writeBuffer;
      writeBuffer := writeBuffer + line;
      writeBuffer := writeBuffer + [LF];
      lines := lines + [line];
      BufferGrows(before, line, position);
      Regroup(conn.wire, before[position..], line + [LF]);
    }

    static lemma BufferGrows(before: bytes, line: bytes, position: nat)
      requires position <= |before|
      ensures (before + line + [LF])[position..] == before[position..] + line + [LF]
      ensures before[position..] + line + [LF] == before[position..] + (line + [LF])
    {
    }

    static lemma EndedOneMore(lines: seq<bytes>, line: bytes)
      ensures Ended([LF], lines + [line]) == Ended([LF], lines) + (line + [LF])
    {
      EndedConcat([LF], lines, [line]);
      assert Ended([LF], [line]) == line + [LF] + Ended([LF], []);
    }

    /** The next command, if the octets for it are there. At the end of the stream it notes that the connection is
      * closed. */
    method PollRead() returns (poll: Poll)
      requires Valid()
      modifies this`readBuffer, this`closed, conn`script
      ensures Valid()
      ensures var polled := PollScript(old(readBuffer), old(conn.script), conn.ending);
        && polled.buffer == readBuffer && polled.script == conn.script
        && (if polled.poll.AtEof? then poll.NotReady? && closed else poll == polled.poll && closed == old(closed))
    {
      hide Step, Advance, PollScript, Ended;
      while true
        invariant |readBuffer| <= MAX_LINE && closed == old(closed)
        invariant PollScript(readBuffer, conn.script, conn.ending) ==
          PollScript(old(readBuffer), old(conn.script), conn.ending)
        decreases Weight(conn.script), |readBuffer|
      {
        PollUnfolds(readBuffer, conn.script, conn.ending);
        var found := ReadLine();
        match found {
          case Deliver(command, _) => return Ready(command);
          case Skip(_) => continue;
          case Refuse(error, _) => return ReadFailed(error);
          case Wait =>
        }
        var startLen := |readBuffer|;
        readBuffer := readBuffer + seq(MAX_LINE - startLen, _ => 0);
        if conn.script == [] {
          match conn.ending
          case Open =>
            readBuffer := readBuffer[..startLen];
            return NotReady;
          case Closed =>
            closed := true;
            readBuffer := readBuffer[..startLen];
            return NotReady;
          case Broken =>
            return ReadFailed(ConnectionError);
        }
        match conn.script[0]
        case WouldBlock =>
          readBuffer := readBuffer[..startLen];
          conn.script := conn.script[1..];
          return NotReady;
        case Data(piece) =>
          var n := if |piece| <= MAX_LINE - startLen then |piece| else MAX_LINE - startLen;
          RestIsLess(conn.script, n);
          ReadUnfolds(readBuffer[..startLen], conn.script, conn.ending);
          readBuffer := readBuffer[..startLen] + piece[..n];
          conn.script := if n == |piece| then conn.script[1..] else [Data(piece[n..])] + conn.script[1..];
      }
    }

    /** Takes a complete line out of the buffer and reads it; without one, sees whether there is room for more. */
    method ReadLine() returns (m: Move)
      requires |readBuffer| <= MAX_LINE
      modifies this`readBuffer
      ensures m == Step(old(readBuffer))
      ensures readBuffer == if m.Wait? then old(readBuffer) else m.rest
    {
      hide Utf8.Decode, ParseCommand, TrimEnd;
      var pos := IndexOf(readBuffer, LF);
      if pos < |readBuffer| {
        var toReturn := readBuffer[..pos + 1];
        readBuffer := readBuffer[pos + 1..];
        var text := Utf8.Decode(toReturn);
        if text.None? {
          return Refuse(NotText, readBuffer);
        }
        var command := ParseCommand(TrimEnd(text.value));
        if command.Some? {
          return Deliver(command.value, readBuffer);
        }
        return Skip(readBuffer);
      }
      if |readBuffer| >= MAX_LINE {
        return Refuse(LineTooLong, readBuffer);
      }
      return Wait;
    }

    /** Reads, and says what that means for the stream. */
    method PollNext() returns (r: StreamPoll)
      requires Valid() && !closed
      modifies this`readBuffer, this`closed, conn`script
      ensures Valid()
      ensures var polled := PollScript(old(readBuffer), old(conn.script), conn.ending);
        && readBuffer == polled.buffer && conn.script == polled.script && closed == polled.poll.AtEof?
        && r == Reported(polled.poll)
    {
      hide Step, Advance, PollScript, Ended, Stream;
      var poll := PollRead();
      match poll
      case Ready(command) => r := Item(command);
      case ReadFailed(error) => r := ReadStopped(error);
      case NotReady => r := if closed then EndOfItems else NothingYet;
      case AtEof => r := EndOfItems;
    }

    /** Sends what can be sent, then reads; a closed connection has nothing more to give. */
    method Poll() returns (r: StreamPoll)
      requires Valid()
      modifies this, conn
      ensures Valid() && lines == old(lines)
      ensures old(closed) ==> r.EndOfItems? && unchanged(this) && unchanged(conn)
      ensures !old(closed) ==>
        var sent := WriteScript(old(Pending()), old(conn.writes));
        && conn.wire == old(conn.wire) + old(Pending())[..sent.taken] && conn.writes == sent.script
        && if sent.result.WriteError? then
             r.WriteStopped? && readBuffer == old(readBuffer) && conn.script == old(conn.script) && !closed
           else
             var polled := PollScript(old(readBuffer), old(conn.script), conn.ending);
             && readBuffer == polled.buffer && conn.script == polled.script && closed == polled.poll.AtEof?
             && r == Reported(polled.poll)
      ensures (r.WriteStopped? ==> Fails(old(conn.writes))) && (Fails(conn.writes) ==> Fails(old(conn.writes)))
    {
      OnlyFailuresFail(Pending(), conn.writes);
      hide WriteScript, PollScript, Fails, Ended, Stream;
      if closed {
        return EndOfItems;
      }
      var result := PollWrite();
      if result.WriteError? {
        return WriteStopped;
      }
      r := PollNext();
    }
  }
}
