/** The IRC user's connection: what the bridge says to its client, and which commands it answers by itself. */
module IrcSession {
  import opened Prelude
  import opened Network
  import opened IrcGrammar
  import opened IrcCommands
  import opened IrcTransport
  import opened ServerModel
  import opened Text
  import IrcLines
  import Ordered
  import Utf8

  datatype Identity = Identity(nick: string, user: string, serverName: string) {
    function Prefix(): string {
      nick + "!" + user + "@" + serverName
    }
  }

  datatype Out =
    | Redirected(asked: string, channel: string)
    | Said(sender: string, channel: string, text: string)
    | Plain(line: string)

  function NumericLine(me: Identity, code: string, target: string, rest: string): string {
    ":" + me.serverName + " " + code + " " + target + " " + rest
  }

  function Render(me: Identity, out: Out): string {
    match out
    case Redirected(asked, channel) => NumericLine(me, "470", me.nick,
                                                   asked + " " + channel + " :Forwarding to another channel")
    case Said(sender, channel, text) => ":" + sender + " PRIVMSG " + channel + " :" + text
    case Plain(line) => line
  }

  /** The lines as they are given to the transport. */
  function Wire(me: Identity, outs: seq<Out>): (lines: seq<bytes>)
    ensures |lines| == |outs|
  {
    seq(|outs|, i requires 0 <= i < |outs| => Utf8.Encode(Render(me, outs[i])))
  }

  // ---- Messages ---------------------------------------------------------------------------------------------

  function Texts(sender: string, channel: string, texts: seq<string>): (outs: seq<Out>)
    ensures |outs| == |texts|
  {
    seq(|texts|, i requires 0 <= i < |texts| => Said(sender, channel, texts[i]))
  }

  const SOH: string := "\U{01}"

  function Action(text: string): string {
    SOH + "ACTION " + text + SOH
  }

  function Actions(texts: seq<string>): (r: seq<string>)
    ensures |r| == |texts|
  {
    seq(|texts|, i requires 0 <= i < |texts| => Action(texts[i]))
  }

  /** A message that is said can be read back, with its sender, its channel and its text, exactly when the names are
    * words of the grammar and the text has none of the characters that the grammar excludes. */
  lemma SaidIsUnderstoodExactly(me: Identity, sender: string, channel: string, text: string)
    ensures var line := Render(me, Said(sender, channel, text));
      (ParseCommand(line) == Some(PrivMsgCmd(channel, text)) && ParseLine(line).value.prefix == Some(sender))
        <==> sender != [] && All(IsWord, sender) && ValidParam(channel) && All(IsTrailing, text)
  {
    hide ParseLine, ParseCommand, Render, ValidParam, All;
    var line := Render(me, Said(sender, channel, text));
    if sender != [] && All(IsWord, sender) && ValidParam(channel) && All(IsTrailing, text) {
      SaidIsUnderstood(me, sender, channel, text);
    } else if ParseCommand(line) == Some(PrivMsgCmd(channel, text)) {
      UnderstoodWasSaid(line, sender, channel, text);
    }
  }

  /** Whatever is understood as a message has proper names and a proper text. */
  lemma UnderstoodWasSaid(line: string, sender: string, channel: string, text: string)
    requires ParseCommand(line) == Some(PrivMsgCmd(channel, text))
    ensures ParseLine(line).Some?
    ensures ParseLine(line).value.prefix == Some(sender) ==> sender != [] && All(IsWord, sender)
    ensures ValidParam(channel) && All(IsTrailing, text)
  {
    hide ParseLine, ParseCommand, PrintLine;
    UnderstoodCommandsWereSaid(line);
    var g := AcceptedLinesArePrinted(line);
    var l := ParseLine(line).value;
    hide All;
    var args := l.Args();
    assert Words(PrivMsgCmd(channel, text)) == [channel, text] <= args;
    assert args[0] == channel && args[1] == text;
    assert |l.params| >= 1 && args[0] == l.params[0];
    if |l.params| > 1 {
      assert args[1] == l.params[1];
      WordsAreTrailing(text);
    } else {
      assert l.trailing == Some(text);
    }
  }

  lemma WordsAreTrailing(s: string)
    requires ValidParam(s)
    ensures All(IsTrailing, s)
  {
  }

  lemma SaidIsUnderstood(me: Identity, sender: string, channel: string, text: string)
    requires sender != [] && All(IsWord, sender) && ValidParam(channel) && All(IsTrailing, text)
    ensures ParseCommand(Render(me, Said(sender, channel, text))) == Some(PrivMsgCmd(channel, text))
    ensures ParseLine(Render(me, Said(sender, channel, text))).value.prefix == Some(sender)
  {
    hide ParseLine, ParseCommand;
    var l, g := Line(Some(sender), "PRIVMSG", [channel], Some(text)), SingleGaps(1);
    assert Spaces(1) == " ";
    assert PrintParams([], l.trailing, g.each[1..], g.last) == " :" + text;
    assert PrintParams(l.params, l.trailing, g.each, g.last) == " " + channel + (" :" + text) by {
      assert l.params[1..] == [];
    }
    assert PrintLine(l, g) == ":" + sender + " " + ("PRIVMSG" + (" " + channel + (" :" + text)));
    assert PrintLine(l, g) == Render(me, Said(sender, channel, text));
    assert l.command == NameOf(PrivMsg);
    CommandsAreUnderstood(PrivMsgCmd(channel, text), l, g);
    PrintedLinesParse(l, g);
  }

  // ---- Opening a channel ------------------------------------------------------------------------------------

  function Shown(l: Listed): string {
    (if l.operator then "@" else "") + l.nick
  }

  function ShownAll(names: seq<Listed>): (r: seq<string>)
    ensures |r| == |names|
  {
    seq(|names|, i requires 0 <= i < |names| => Shown(names[i]))
  }

  /** Every name followed by a space. */
  function Row(names: seq<Listed>): string {
    if names == [] then [] else Row(names[..|names| - 1]) + Shown(names[|names| - 1]) + " "
  }

  function NamesHead(channel: string): string {
    "@ " + channel + " :"
  }

  /** Since it starts with an `@`, only the end of it needs trimming. */
  function NamesText(channel: string, names: seq<Listed>): string {
    IrcLines.TrimEnd(NamesHead(channel) + Row(names))
  }

  function NamesOuts(me: Identity, channel: string, chunks: seq<seq<Listed>>): (outs: seq<Out>)
    ensures |outs| == |chunks|
  {
    seq(|chunks|, i requires 0 <= i < |chunks| => Plain(NumericLine(me, "353", me.nick, NamesText(channel, chunks[i]))))
  }

  /** What is said when a channel is opened. The topic is addressed to the server's name, as the source does. */
  function JoinOuts(me: Identity, server: Server, channel: string): seq<Out>
    requires channel in server.channels
  {
    var c := server.channels[channel];
    [Plain(":" + me.Prefix() + " JOIN " + c.name),
     Plain(NumericLine(me, "332", me.serverName, c.name + " :" + c.topic))]
    + NamesOuts(me, channel, Chunks(MembersOf(server, channel), 10))
    + [Plain(NumericLine(me, "366", me.nick, channel + " :End of /NAMES")),
       Plain(NumericLine(me, "324", me.nick, c.name + " +n"))]
  }

  /** The last name neither ends in a blank of any kind nor is empty, unless something else is there to be seen. */
  predicate EndShows(names: seq<Listed>)
    requires names != []
  {
    var last := names[|names| - 1];
    if last.nick == "" then last.operator || |names| == 1 else !EndsBlank(last.nick)
  }

  /** A list of names in which no name looks like two and the end of which is not cut off. */
  predicate ReadsBack(names: seq<Listed>)
    requires names != []
  {
    (forall i :: 0 <= i < |names| ==> ' ' !in names[i].nick) && EndShows(names)
  }

  lemma {:induction false} RowIsWords(names: seq<Listed>)
    requires names != []
    ensures Row(names) == Rejoin(' ', ShownAll(names)) + " "
  {
    var before, last := names[..|names| - 1], names[|names| - 1];
    if before == [] {
      assert Row(before) == "";
    } else {
      RowIsWords(before);
      RejoinOneMore(ShownAll(before), Shown(last));
      assert ShownAll(names) == ShownAll(before) + [Shown(last)];
    }
  }

  lemma {:induction false} RejoinOneMore(words: seq<string>, word: string)
    requires words != []
    ensures Rejoin(' ', words + [word]) == Rejoin(' ', words) + " " + word
  {
    if |words| > 1 {
      RejoinOneMore(words[1..], word);
      assert (words + [word])[1..] == words[1..] + [word];
    } else {
      assert (words + [word])[1..] == [word];
    }
  }

  lemma {:induction false} RejoinEnds(words: seq<string>)
    requires words != []
    ensures var s, last := Rejoin(' ', words), words[|words| - 1];
      && (last != [] ==> s != [] && s[|s| - 1] == last[|last| - 1])
      && (last == [] && |words| > 1 ==> s != [] && s[|s| - 1] == ' ')
      && (last == [] && |words| == 1 ==> s == [])
  {
    if |words| > 1 {
      RejoinEnds(words[1..]);
    }
  }

  predicate EndsBlank(s: string) {
    s != [] && IrcLines.IsWhitespace(s[|s| - 1])
  }

  /** Trimming stops at the last character that is no blank. */
  lemma {:induction false} TrimAfter(head: string, s: string)
    requires head != [] && !EndsBlank(head)
    ensures IrcLines.TrimEnd(head + s) == head + IrcLines.TrimEnd(s)
    decreases |s|
  {
    if s == [] {
      assert head + s == head;
    } else {
      assert (head + s)[..|head + s| - 1] == head + s[..|s| - 1];
      TrimAfter(head, s[..|s| - 1]);
    }
  }

  lemma {:induction false} TrimChanges(s: string)
    ensures IrcLines.TrimEnd(s) == s <==> !EndsBlank(s)
    ensures |IrcLines.TrimEnd(s)| <= |s|
  {
    if EndsBlank(s) {
      TrimChanges(s[..|s| - 1]);
    }
  }

  /** What is sent for a list of names: the names with spaces between them, trimmed at the end. */
  lemma NamesTextIs(channel: string, names: seq<Listed>)
    requires names != []
    ensures NamesText(channel, names) == NamesHead(channel) + IrcLines.TrimEnd(Rejoin(' ', ShownAll(names)))
  {
    RowIsWords(names);
    TrimAfter(NamesHead(channel), Row(names));
    var s := Rejoin(' ', ShownAll(names));
    assert (s + " ")[..|s|] == s && IrcLines.IsWhitespace(' ');
  }

  lemma ShownFacts(names: seq<Listed>)
    requires names != []
    ensures Without(' ', ShownAll(names)) <==> forall i :: 0 <= i < |names| ==> ' ' !in names[i].nick
    ensures ReadsBack(names) <==> Without(' ', ShownAll(names)) && !EndsBlank(Rejoin(' ', ShownAll(names)))
  {
    var words, last := ShownAll(names), names[|names| - 1];
    forall i | 0 <= i < |names|
      ensures ' ' in words[i] <==> ' ' in names[i].nick
    {
    }
    RejoinEnds(words);
    assert words[|names| - 1] == Shown(last);
  }

  /** These names, in order, with an `@` before the operators. */
  ghost predicate AreTheNames(words: seq<string>, names: seq<Listed>) {
    && |words| == |names|
    && forall i :: 0 <= i < |names| ==> words[i] == if names[i].operator then "@" + names[i].nick else names[i].nick
  }

  lemma NamesAreShown(words: seq<string>, names: seq<Listed>)
    ensures AreTheNames(words, names) <==> words == ShownAll(names)
  {
    forall i | 0 <= i < |names|
      ensures ShownAll(names)[i] == if names[i].operator then "@" + names[i].nick else names[i].nick
    {
      assert "" + names[i].nick == names[i].nick;
    }
  }

  /** A reader who takes a list of names apart at its spaces finds the names of that list, operators marked, in order,
    * exactly when the list reads back. */
  lemma NamesReadBackExactly(channel: string, names: seq<Listed>)
    requires names != []
    ensures NamesHead(channel) <= NamesText(channel, names)
    ensures AreTheNames(Split(' ', NamesText(channel, names)[|NamesHead(channel)|..]), names) <==> ReadsBack(names)
  {
    var words := ShownAll(names);
    var s := Rejoin(' ', words);
    NamesTextIs(channel, names);
    ShownFacts(names);
    TrimChanges(s);
    NamesAreShown(Split(' ', IrcLines.TrimEnd(s)), names);
    hide NamesHead, NamesText, Rejoin, Split, IrcLines.TrimEnd, ShownAll, ReadsBack, Without, AreTheNames;
    assert NamesText(channel, names)[|NamesHead(channel)|..] == IrcLines.TrimEnd(s);
    if ReadsBack(names) {
      RejoinSplits(' ', words);
    } else if Split(' ', IrcLines.TrimEnd(s)) == words {
      SplitRejoins(' ', IrcLines.TrimEnd(s));
      assert false;
    }
  }

  const NO_BREAK_SPACE: char := '\U{A0}'

  lemma TrimOne(s: string, c: char)
    requires !EndsBlank(s) && IrcLines.IsWhitespace(c)
    ensures IrcLines.TrimEnd(s + [c]) == s == IrcLines.TrimEnd(s)
  {
    assert (s + [c])[..|s|] == s;
  }

  lemma NoBreakSpaceIsBlank()
    ensures IrcLines.IsWhitespace(NO_BREAK_SPACE)
  {
  }

  lemma OneName(channel: string, nick: string)
    ensures NamesText(channel, [Listed(nick, false)]) == NamesHead(channel) + IrcLines.TrimEnd(nick)
  {
    hide IrcLines.TrimEnd, NamesHead, NamesText;
    NamesTextIs(channel, [Listed(nick, false)]);
    assert Shown(Listed(nick, false)) == "" + nick == nick;
    assert ShownAll([Listed(nick, false)]) == [nick];
  }

  /** A list that does not read back: a blank that is no space is cut off the end of a nick. */
  lemma BlankIsCutOff(channel: string, base: string)
    requires base != "" && !EndsBlank(base) && ' ' !in base
    ensures var names := [Listed(base + [NO_BREAK_SPACE], false)];
      NamesText(channel, names) == NamesText(channel, [Listed(base, false)]) == NamesHead(channel) + base
  {
    hide *;
    NoBreakSpaceIsBlank();
    OneName(channel, base);
    OneName(channel, base + [NO_BREAK_SPACE]);
    TrimOne(base, NO_BREAK_SPACE);
  }

  /** A line with these names, which a reader finds by taking it apart at its spaces. */
  ghost predicate ListsNames(me: Identity, channel: string, out: Out, names: seq<Listed>) {
    exists text ::
      out == Plain(NumericLine(me, "353", me.nick, "@ " + channel + " :" + text)) &&
        AreTheNames(Split(' ', text), names)
  }

  /** The lists of names sent for a channel are about every member exactly once, in order, ten at most to a list; and
    * exactly from those that read back can the names be told. */
  lemma JoinNamesEveryMember(me: Identity, server: Server, channel: string)
    requires channel in server.channels
    ensures var chunks := Chunks(MembersOf(server, channel), 10);
      && Flatten(chunks) == MembersOf(server, channel) && |JoinOuts(me, server, channel)| == |chunks| + 4
      && forall i :: 0 <= i < |chunks| ==>
           && |chunks[i]| <= 10
           && (ListsNames(me, channel, JoinOuts(me, server, channel)[2 + i], chunks[i]) <==> ReadsBack(chunks[i]))
  {
    hide MembersOf, Chunks, NamesOuts, ListsNames, ReadsBack, Flatten, NumericLine;
    var chunks := Chunks(MembersOf(server, channel), 10);
    ChunksRejoin(MembersOf(server, channel), 10);
    forall i | 0 <= i < |chunks|
      ensures ListsNames(me, channel, JoinOuts(me, server, channel)[2 + i], chunks[i]) <==> ReadsBack(chunks[i])
    {
      NamesLineLists(me, channel, chunks, i);
      assert JoinOuts(me, server, channel)[2 + i] == NamesOuts(me, channel, chunks)[i];
    }
  }

  lemma NamesLineLists(me: Identity, channel: string, chunks: seq<seq<Listed>>, i: nat)
    requires i < |chunks| && chunks[i] != []
    ensures ListsNames(me, channel, NamesOuts(me, channel, chunks)[i], chunks[i]) <==> ReadsBack(chunks[i])
  {
    assert NamesHead(channel) == "@ " + channel + " :";
    hide NamesText, Split, NamesHead, ShownAll, NumericLine, ReadsBack, AreTheNames;
    NamesReadBackExactly(channel, chunks[i]);
    var full, head := NamesText(channel, chunks[i]), NamesHead(channel);
    assert full == head + full[|head|..];
    forall text | NumericLine(me, "353", me.nick, full) == NumericLine(me, "353", me.nick, head + text)
      ensures text == full[|head|..]
    {
      SameRest(me, "353", me.nick, full, head + text);
      assert (head + text)[|head|..] == text;
    }
  }

  /** Two numerics that are the same line say the same. */
  lemma SameRest(me: Identity, code: string, target: string, a: string, b: string)
    requires NumericLine(me, code, target, a) == NumericLine(me, code, target, b)
    ensures a == b
  {
    var front := ":" + me.serverName + " " + code + " " + target + " ";
    assert a == NumericLine(me, code, target, a)[|front|..];
    assert b == NumericLine(me, code, target, b)[|front|..];
  }

  /** Whom a numeric is addressed to. */
  ghost predicate AddressedTo(me: Identity, out: Out, target: string) {
    exists code: string, rest :: |code| == 3 && out == Plain(NumericLine(me, code, target, rest))
  }

  ghost predicate AllAddressed(me: Identity, outs: seq<Out>) {
    forall i :: 1 <= i < |outs| ==> AddressedTo(me, outs[i], me.nick)
  }

  /** Of the numerics with which a channel is opened, the topic is addressed to the name of the server instead of the
    * user; so all of them are addressed to the user exactly when what follows the code there happens to begin with the
    * nick. With names that are words, this is when the server is called like the user. */
  lemma TopicIsMisaddressedExactly(me: Identity, server: Server, channel: string)
    requires channel in server.channels
    ensures var outs, c := JoinOuts(me, server, channel), server.channels[channel];
      && (forall i :: 2 <= i < |outs| ==> AddressedTo(me, outs[i], me.nick))
      && (AllAddressed(me, outs) <==> me.nick + " " <= me.serverName + " " + (c.name + " :" + c.topic))
      && (' ' !in me.nick && ' ' !in me.serverName ==> (AllAddressed(me, outs) <==> me.serverName == me.nick))
  {
    hide MembersOf, Chunks, NumericLine, AddressedTo, NamesText;
    var outs, c := JoinOuts(me, server, channel), server.channels[channel];
    var chunks := Chunks(MembersOf(server, channel), 10);
    forall i | 2 <= i < |outs|
      ensures AddressedTo(me, outs[i], me.nick)
    {
      if i < 2 + |chunks| {
        assert outs[i] == NamesOuts(me, channel, chunks)[i - 2];
        IsAddressed(me, "353", me.nick, NamesText(channel, chunks[i - 2]));
      } else if i == 2 + |chunks| {
        IsAddressed(me, "366", me.nick, channel + " :End of /NAMES");
      } else {
        IsAddressed(me, "324", me.nick, c.name + " +n");
      }
    }
    var rest := c.name + " :" + c.topic;
    assert outs[1] == Plain(NumericLine(me, "332", me.serverName, rest));
    AddressedExactly(me, "332", me.serverName, rest, me.nick);
    if ' ' !in me.nick && ' ' !in me.serverName {
      OneAddressee(me.serverName, rest, me.nick);
    }
    assert AllAddressed(me, outs) <==> AddressedTo(me, outs[1], me.nick);
  }

  lemma IsAddressed(me: Identity, code: string, target: string, rest: string)
    requires |code| == 3
    ensures AddressedTo(me, Plain(NumericLine(me, code, target, rest)), target)
  {
  }

  /** A line can be read as addressed to whatever stands between two spaces there. */
  lemma AddressedExactly(me: Identity, code: string, target: string, rest: string, other: string)
    requires |code| == 3
    ensures AddressedTo(me, Plain(NumericLine(me, code, target, rest)), other) <==> other + " " <= target + " " + rest
  {
    var line, front := NumericLine(me, code, target, rest), ":" + me.serverName + " ";
    var all := target + " " + rest;
    assert line == front + code + " " + all;
    if AddressedTo(me, Plain(line), other) {
      var code2: string, rest2 :| |code2| == 3 && line == NumericLine(me, code2, other, rest2);
      assert other + " " + rest2 == line[|front| + 4..] == all;
    }
    if other + " " <= all {
      var rest2 := all[|other| + 1..];
      assert all == other + " " + rest2;
      assert line == NumericLine(me, code, other, rest2);
    }
  }

  lemma OneAddressee(target: string, rest: string, other: string)
    requires ' ' !in target && ' ' !in other
    ensures other + " " <= target + " " + rest <==> target == other
  {
    var all := target + " " + rest;
    FirstWord(target, rest);
    if other + " " <= all {
      assert all == other + " " + all[|other| + 1..];
      FirstWord(other, all[|other| + 1..]);
    }
  }

  lemma FirstWord(word: string, rest: string)
    requires ' ' !in word
    ensures var s := word + " " + rest; s[..IndexOf(s, ' ')] == word
  {
    var s := word + " " + rest;
    assert s[..|word|] == word;
    IndexOfUnique(s, ' ', |word|);
  }

  // ---- Commands that the connection answers by itself -------------------------------------------------------

  function WhoOuts(me: Identity, server: Server, channel: string, nicks: seq<string>): (outs: seq<Out>)
    requires forall i :: 0 <= i < |nicks| ==> nicks[i] in server.users
    ensures |outs| == |nicks|
  {
    seq(|nicks|, i requires 0 <= i < |nicks| =>
      var u := server.users[nicks[i]];
      Plain(NumericLine(me, "352", me.nick,
        channel + " " + u.nick + " " + u.mask + " " + me.serverName + " " + u.user + " H :0 " + u.user)))
  }

  function WelcomeOuts(me: Identity): seq<Out> {
    [Plain(NumericLine(me, "001", me.nick, ":Welcome to the Matrix Internet Relay Network")),
     Plain(NumericLine(me, "375", me.nick, ":- " + me.serverName + " Message of the day -")),
     Plain(NumericLine(me, "372", me.nick, ":-")),
     Plain(NumericLine(me, "372", me.nick, ":- This is a bridge into Matrix")),
     Plain(NumericLine(me, "372", me.nick, ":-")),
     Plain(NumericLine(me, "376", me.nick, ":End of MOTD"))]
  }

  function ModeOut(me: Identity, channel: string): Out {
    Plain(NumericLine(me, "324", me.nick, channel + " +n"))
  }

  predicate IsChannelName(s: string) {
    s != [] && s[0] == '#'
  }

  /** What is said in answer, and whether the command is passed on to the bridge. */
  datatype Answer = Answer(outs: seq<Out>, passed: bool)

  ghost function AnswerTo(me: Identity, server: Server, c: IrcCommand): Answer
    requires ServerModel.Consistent(server)
  {
    match c
    case PingCmd(data) => Answer([Plain(":" + me.serverName + " PONG " + data)], false)
    case JoinCmd(channel) => if channel in server.channels then Answer(JoinOuts(me, server, channel), false)
      else Answer([], true)
    case WhoCmd(matches) =>
      if IsChannelName(matches) && matches in server.channels then
        var nicks := Ordered.Keys(server.channels[matches].users.Keys);
        Answer(WhoOuts(me, server, matches, nicks) +
               [Plain(NumericLine(me, "315", me.nick, matches + " :End of /WHO"))], false)
      else Answer([], false)
    case ModeCmd(target, mask) => Answer(if IsChannelName(target) && mask.None? then [ModeOut(me, target)]
                                         else [], false)
    case PongCmd(_) => Answer([], false)
    case _ => Answer([], true)
  }

  /** All that is said in answer to some commands. */
  ghost function Answers(me: Identity, server: Server, heard: seq<IrcCommand>): seq<Out>
    requires ServerModel.Consistent(server)
  {
    if heard == [] then []
    else Answers(me, server, heard[..|heard| - 1]) + AnswerTo(me, server, heard[|heard| - 1]).outs
  }

  lemma AnswersNone(me: Identity, server: Server)
    requires ServerModel.Consistent(server)
    ensures Answers(me, server, []) == []
  {
  }

  lemma AnswersOneMore(me: Identity, server: Server, heard: seq<IrcCommand>, c: IrcCommand)
    requires ServerModel.Consistent(server)
    ensures Answers(me, server, heard + [c]) == Answers(me, server, heard) + AnswerTo(me, server, c).outs
  {
    assert (heard + [c])[..|heard|] == heard;
  }

  /** One poll of the connection, as far as reading goes: commands are answered until one has to be passed on, or
    * nothing more is there. */
  datatype Polling = Polling(poll: StreamPoll, heard: seq<IrcCommand>, buffer: bytes, script: seq<ReadEvent>) {
    function After(before: seq<IrcCommand>): Polling {
      this.(heard := before + heard)
    }
  }

  lemma AfterOneMore(p: Polling, before: seq<IrcCommand>, c: IrcCommand)
    ensures p.After([c]).After(before) == p.After(before + [c])
  {
    Regroup(before, [c], p.heard);
  }

  lemma AfterNothing(p: Polling)
    ensures p.After([]) == p
  {
  }

  ghost function PollUser(me: Identity, server: Server, b: bytes, script: seq<ReadEvent>, ending: Ending): Polling
    requires ServerModel.Consistent(server)
    decreases IrcLines.Weight(script), |b|
  {
    var polled := IrcLines.PollScript(b, script, ending);
    match polled.poll
    case NotReady => Polling(NothingYet, [], polled.buffer, polled.script)
    case AtEof => Polling(EndOfItems, [], polled.buffer, polled.script)
    case ReadFailed(error) => Polling(ReadStopped(error), [], polled.buffer, polled.script)
    case Ready(c) =>
      if AnswerTo(me, server, c).passed then Polling(Item(c), [c], polled.buffer, polled.script)
      else
        PollUser(me, server, polled.buffer, polled.script, ending).After([c])
  }

  lemma PollUserUnfolds(me: Identity, server: Server, b: bytes, script: seq<ReadEvent>, ending: Ending)
    requires ServerModel.Consistent(server)
    ensures var polled := IrcLines.PollScript(b, script, ending);
      var p := PollUser(me, server, b, script, ending);
      && (polled.poll.NotReady? ==> p == Polling(NothingYet, [], polled.buffer, polled.script))
      && (polled.poll.AtEof? ==> p == Polling(EndOfItems, [], polled.buffer, polled.script))
      && (polled.poll.ReadFailed? ==> p == Polling(ReadStopped(polled.poll.error), [], polled.buffer, polled.script))
      && (polled.poll.Ready? ==>
            var c := polled.poll.command;
            p == if AnswerTo(me, server, c).passed then Polling(Item(c), [c], polled.buffer, polled.script)
                 else PollUser(me, server, polled.buffer, polled.script, ending).After([c]))
  {
    hide AnswerTo, IrcLines.PollScript;
  }

  /** A poll hears exactly the next commands of the stream, however it is cut into reads: what it heard and what is
    * still to be read make up the reading of the whole stream. */
  lemma {:induction false} HeardIsWhatWasSent(me: Identity, server: Server, b: bytes, script: seq<ReadEvent>,
                                              ending: Ending)
    requires ServerModel.Consistent(server)
    ensures var p := PollUser(me, server, b, script, ending);
      var whole := IrcLines.ReadAll(b + Arriving(script), ending);
      var rest := IrcLines.ReadAll(p.buffer + Arriving(p.script), ending);
      match p.poll
      case Item(c) => whole == rest.(commands := p.heard + rest.commands) && p.heard != [] &&
        c == p.heard[|p.heard| - 1]
      case NothingYet => whole == rest.(commands := p.heard + rest.commands)
      case EndOfItems => whole == IrcLines.Reading(p.heard, IrcLines.EndOfStream)
      case ReadStopped(error) => whole == IrcLines.Reading(p.heard, IrcLines.Stopped(error))
      case WriteStopped => false
    decreases IrcLines.Weight(script), |b|
  {
    hide IrcLines.PollScript, IrcLines.ReadAll, AnswerTo;
    IrcLines.PollReads(b, script, ending);
    var polled := IrcLines.PollScript(b, script, ending);
    if polled.poll.Ready? && !AnswerTo(me, server, polled.poll.command).passed {
      HeardIsWhatWasSent(me, server, polled.buffer, polled.script, ending);
      var later := PollUser(me, server, polled.buffer, polled.script, ending);
      var rest := IrcLines.ReadAll(later.buffer + Arriving(later.script), ending);
      Regroup([polled.poll.command], later.heard, rest.commands);
    }
  }

  /** What was heard is `whole`, all that could be read, up to where the poll stopped; `after` is what comes after the
    * next read that blocks. */
  ghost predicate HearsAll(r: StreamPoll, heard: seq<IrcCommand>, whole: IrcLines.Reading, after: seq<ReadEvent>,
                           buffer: bytes, script: seq<ReadEvent>, ending: Ending) {
    match r
    case Item(_) =>
      var rest := IrcLines.Audible(buffer, script, ending);
      whole == rest.(commands := heard + rest.commands) && IrcLines.AfterBlock(script) == after
    case NothingYet => whole == IrcLines.Reading(heard, IrcLines.Waiting(buffer)) && script == after
    case EndOfItems => whole == IrcLines.Reading(heard, IrcLines.EndOfStream)
    case ReadStopped(error) => whole == IrcLines.Reading(heard, IrcLines.Stopped(error))
    case WriteStopped => heard <= whole.commands
  }

  lemma {:induction false} UserHears(me: Identity, server: Server, b: bytes, script: seq<ReadEvent>, ending: Ending)
    requires ServerModel.Consistent(server)
    ensures var p := PollUser(me, server, b, script, ending);
      var whole := IrcLines.Audible(b, script, ending);
      && HearsAll(p.poll, p.heard, whole, IrcLines.AfterBlock(script), p.buffer, p.script, ending)
      && p.heard <= whole.commands && !p.poll.WriteStopped?
    decreases IrcLines.Weight(script), |b|
  {
    hide IrcLines.PollScript, IrcLines.Audible, IrcLines.AfterBlock, AnswerTo, IrcLines.Weight;
    IrcLines.PollHears(b, script, ending);
    var polled := IrcLines.PollScript(b, script, ending);
    if polled.poll.Ready? && !AnswerTo(me, server, polled.poll.command).passed {
      UserHears(me, server, polled.buffer, polled.script, ending);
    }
  }

  /** A poll that hears a command has used up something. */
  lemma {:induction false} HearingUsesUp(me: Identity, server: Server, b: bytes, script: seq<ReadEvent>, ending: Ending)
    requires ServerModel.Consistent(server)
    ensures var p := PollUser(me, server, b, script, ending);
      p.poll.Item? ==> IrcLines.Weight(p.script) < IrcLines.Weight(script) || (p.script == script && |p.buffer| < |b|)
    decreases IrcLines.Weight(script), |b|
  {
    hide AnswerTo, IrcLines.PollScript, IrcLines.Weight;
    var polled := IrcLines.PollScript(b, script, ending);
    if polled.poll.Ready? && !AnswerTo(me, server, polled.poll.command).passed {
      HearingUsesUp(me, server, polled.buffer, polled.script, ending);
    }
  }

  // ---- The connection of the source -------------------------------------------------------------------------

  class IrcUserConnection {
    const me: Identity
    const conn: IrcServerConnection
    const serverModel: ServerState
    ghost var outs: seq<Out>

    constructor (me: Identity, conn: IrcServerConnection)
      requires conn.Valid() && conn.lines == []
      ensures Valid() && this.me == me && this.conn == conn && outs == []
      ensures fresh(serverModel) && serverModel.View() == EMPTY
    {
      this.me, this.conn, outs := me, conn, [];
      serverModel := new ServerState();
    }

    /** What was said is what the transport was given, which is on the wire or on its way. */
    ghost predicate Valid()
      reads this, conn, conn.conn
    {
      conn.Valid() && conn.lines == Wire(me, outs)
    }

    /** Nothing happened but that `more` was said. */
    twostate predicate OnlySaid(more: seq<Out>)
      reads this, conn, conn.conn
    {
      && Valid() && outs == old(outs) + more
      && conn.readBuffer == old(conn.readBuffer) && conn.conn.script == old(conn.conn.script) &&
        conn.closed == old(conn.closed)
      && (IrcLines.Fails(conn.conn.writes) ==> old(IrcLines.Fails(conn.conn.writes)))
    }

    method WriteLine(line: string, ghost out: Out)
      requires Valid() && line == Render(me, out)
      modifies this`outs, conn, conn.conn
      ensures OnlySaid([out])
    {
      conn.WriteLine(Utf8.Encode(line));
      outs := outs + [out];
    }

    method WriteNumeric(code: string, target: string, rest: string, ghost out: Out)
      requires Valid() && NumericLine(me, code, target, rest) == Render(me, out)
      modifies this`outs, conn, conn.conn
      ensures OnlySaid([out])
    {
      WriteLine(NumericLine(me, code, target, rest), out);
    }

    method Numeric(code: string, target: string, rest: string)
      requires Valid()
      modifies this`outs, conn, conn.conn
      ensures OnlySaid([Plain(NumericLine(me, code, target, rest))])
    {
      WriteNumeric(code, target, rest, Plain(NumericLine(me, code, target, rest)));
    }

    static method NamesLine(channel: string, names: seq<Listed>) returns (line: string)
      ensures line == NamesText(channel, names)
    {
      line := NamesHead(channel);
      for j := 0 to |names|
        invariant line == NamesHead(channel) + Row(names[..j])
      {
        assert names[..j + 1][..j] == names[..j];
        line := line + ((if names[j].operator then "@" else "") + names[j].nick + " ");
      }
      assert names[..|names|] == names;
      return IrcLines.TrimEnd(line);
    }

    method WriteNames(channel: string, names: seq<Listed>)
      requires Valid()
      modifies this`outs, conn, conn.conn
      ensures OnlySaid(NamesOuts(me, channel, Chunks(names, 10)) +
                       [Plain(NumericLine(me, "366", me.nick, channel + " :End of /NAMES"))])
    {
      hide Chunks, NamesText, NumericLine, Wire, IrcServerConnection.Valid;
      var chunks := Chunks(names, 10);
      for i := 0 to |chunks|
        invariant OnlySaid(NamesOuts(me, channel, chunks)[..i])
      {
        var line := NamesLine(channel, chunks[i]);
        Numeric("353", me.nick, line);
      }
      Numeric("366", me.nick, channel + " :End of /NAMES");
    }

    /** The lines that open a channel, if the channel is known. */
    method AttemptToWriteJoinResponse(name: string) returns (known: bool)
      requires Valid() && ServerModel.Consistent(serverModel.View())
      modifies this`outs, conn, conn.conn
      ensures known == serverModel.ChannelExists(name)
      ensures OnlySaid(if known then JoinOuts(me, serverModel.View(), name) else [])
    {
      hide MembersOf, Chunks, NamesOuts, NumericLine, Wire, IrcServerConnection.Valid, ServerModel.Consistent;
      var members := serverModel.GetMembers(name);
      if !serverModel.ChannelExists(name) || members.None? {
        return false;
      }
      var channel := serverModel.channels[name];
      WriteLine(":" + me.Prefix() + " JOIN " + channel.name, Plain(":" + me.Prefix() + " JOIN " + channel.name));
      Numeric("332", me.serverName, channel.name + " :" + channel.topic);
      WriteNames(name, members.value);
      Numeric("324", me.nick, channel.name + " +n");
      return true;
    }

    method CreateUser(nick: string, user: string)
      modifies serverModel
      ensures serverModel.View() == WithUser(old(serverModel.View()), nick, user)
    {
      serverModel.CreateUser(nick, user);
    }

    method AddChannel(name: string, topic: string, members: seq<Listed>)
      requires Valid() && ServerModel.Consistent(serverModel.View())
      requires !serverModel.ChannelExists(name) && Nicks(members) <= serverModel.users.Keys
      modifies this`outs, conn, conn.conn, serverModel
      ensures serverModel.View() == WithChannel(old(serverModel.View()), name, topic, members)
      ensures OnlySaid(JoinOuts(me, serverModel.View(), name))
    {
      WithChannelConsistent(serverModel.View(), name, topic, members);
      serverModel.AddChannel(name, topic, members);
      var known := AttemptToWriteJoinResponse(name);
    }

    method SendMessage(channel: string, sender: string, body: string)
      requires Valid()
      modifies this`outs, conn, conn.conn
      ensures OnlySaid(Texts(sender, channel, Split('\n', body)))
    {
      var lines := Split('\n', body);
      for i := 0 to |lines|
        invariant OnlySaid(Texts(sender, channel, lines)[..i])
      {
        WriteLine(":" + sender + " PRIVMSG " + channel + " :" + lines[i], Said(sender, channel, lines[i]));
      }
    }

    method SendAction(channel: string, sender: string, body: string)
      requires Valid()
      modifies this`outs, conn, conn.conn
      ensures OnlySaid(Texts(sender, channel, Actions(Split('\n', body))))
    {
      var lines := Split('\n', body);
      for i := 0 to |lines|
        invariant OnlySaid(Texts(sender, channel, Actions(lines))[..i])
      {
        WriteLine(":" + sender + " PRIVMSG " + channel + " :" + (SOH + "ACTION " + lines[i] + SOH),
                  Said(sender, channel, Action(lines[i])));
      }
    }

    method WriteRedirectJoin(oldChannel: string, newChannel: string)
      requires Valid()
      modifies this`outs, conn, conn.conn
      ensures OnlySaid([Redirected(oldChannel, newChannel)])
    {
      WriteNumeric("470", me.nick, oldChannel + " " + newChannel + " :Forwarding to another channel",
                   Redirected(oldChannel, newChannel));
    }

    method Welcome()
      requires Valid()
      modifies this`outs, conn, conn.conn
      ensures OnlySaid(WelcomeOuts(me))
    {
      hide NumericLine, Wire, IrcServerConnection.Valid, IrcLines.Fails;
      Numeric("001", me.nick, ":Welcome to the Matrix Internet Relay Network");
      Numeric("375", me.nick, ":- " + me.serverName + " Message of the day -");
      Numeric("372", me.nick, ":-");
      Numeric("372", me.nick, ":- This is a bridge into Matrix");
      Numeric("372", me.nick, ":-");
      Numeric("376", me.nick, ":End of MOTD");
    }

    method SendPing(data: string)
      requires Valid()
      modifies this`outs, conn, conn.conn
      ensures OnlySaid([Plain("PING " + data)])
    {
      WriteLine("PING " + data, Plain("PING " + data));
    }

    method HandleWhoChannelCmd(channel: string)
      requires Valid() && ServerModel.Consistent(serverModel.View()) && IsChannelName(channel)
      modifies this`outs, conn, conn.conn
      ensures OnlySaid(AnswerTo(me, serverModel.View(), WhoCmd(channel)).outs)
    {
      hide NumericLine, Wire, IrcServerConnection.Valid, Ordered.Keys;
      if channel !in serverModel.channels {
        return;
      }
      var nicks := Ordered.Keys(serverModel.channels[channel].users.Keys);
      ghost var server := serverModel.View();
      assert forall i :: 0 <= i < |nicks| ==> nicks[i] in nicks && nicks[i] in server.users;
      hide ServerModel.Consistent;
      for i := 0 to |nicks|
        invariant OnlySaid(WhoOuts(me, server, channel, nicks)[..i])
      {
        var user := serverModel.users[nicks[i]];
        Numeric("352", me.nick,
          channel + " " + user.nick + " " + user.mask + " " + me.serverName + " " + user.user + " H :0 " + user.user);
      }
      Numeric("315", me.nick, channel + " :End of /WHO");
    }

    /** Answers a command, unless the bridge has to. */
    method Handle(c: IrcCommand) returns (passed: bool)
      requires Valid() && ServerModel.Consistent(serverModel.View())
      modifies this`outs, conn, conn.conn
      ensures passed == AnswerTo(me, serverModel.View(), c).passed
      ensures OnlySaid(AnswerTo(me, serverModel.View(), c).outs)
    {
      hide JoinOuts, WhoOuts;
      match c {
        case PingCmd(data) =>
          WriteLine(":" + me.serverName + " PONG " + data, Plain(":" + me.serverName + " PONG " + data));
          return false;
        case JoinCmd(channel) =>
          var known := AttemptToWriteJoinResponse(channel);
          return !known;
        case WhoCmd(matches) =>
          if IsChannelName(matches) {
            HandleWhoChannelCmd(matches);
          }
          return false;
        case ModeCmd(target, mask) =>
          if IsChannelName(target) && mask.None? {
            Numeric("324", me.nick, target + " +n");
          }
          return false;
        case PongCmd(_) => return false;
        case _ => return true;
      }
    }

    /** Sends what is due and looks for one more command. */
    method Hear() returns (r: StreamPoll)
      requires Valid()
      modifies conn, conn.conn
      ensures Valid()
      ensures old(conn.closed) ==> r.EndOfItems? && conn.closed
      ensures !old(conn.closed) && r.WriteStopped? ==>
        !conn.closed && conn.readBuffer == old(conn.readBuffer) && conn.conn.script == old(conn.conn.script)
      ensures r.WriteStopped? ==> old(IrcLines.Fails(conn.conn.writes))
      ensures IrcLines.Fails(conn.conn.writes) ==> old(IrcLines.Fails(conn.conn.writes))
      ensures !old(conn.closed) && !r.WriteStopped? ==>
        var polled := IrcLines.PollScript(old(conn.readBuffer), old(conn.conn.script), conn.conn.ending);
        && conn.readBuffer == polled.buffer && conn.conn.script == polled.script && conn.closed == polled.poll.AtEof?
        && r == Reported(polled.poll)
    {
      hide IrcLines.PollScript, IrcLines.WriteScript, IrcLines.Fails, IrcServerConnection.Valid;
      r := conn.Poll();
    }

    /** Answers what it can and returns the first command that it cannot. Unless the connection breaks while it is being
      * written to, what it hears depends only on what the client has sent. */
    method Poll() returns (r: StreamPoll, ghost heard: seq<IrcCommand>)
      requires Valid() && ServerModel.Consistent(serverModel.View())
      modifies this`outs, conn, conn.conn
      ensures Valid() && outs == old(outs) + Answers(me, serverModel.View(), heard)
      ensures forall i :: 0 <= i < |heard| ==>
        (AnswerTo(me, serverModel.View(), heard[i]).passed <==> r.Item? && i == |heard| - 1)
      ensures r.Item? ==> heard != [] && r.command == heard[|heard| - 1]
      ensures old(conn.closed) ==> r.EndOfItems? && heard == []
      ensures !old(conn.closed) && !r.WriteStopped? ==>
        PollUser(me, serverModel.View(), old(conn.readBuffer), old(conn.conn.script), conn.conn.ending)
          == Polling(r, heard, conn.readBuffer, conn.conn.script)
      ensures !old(conn.closed) ==>
        heard <= PollUser(me, serverModel.View(), old(conn.readBuffer), old(conn.conn.script), conn.conn.ending).heard
      ensures r.WriteStopped? ==> old(IrcLines.Fails(conn.conn.writes))
      ensures IrcLines.Fails(conn.conn.writes) ==> old(IrcLines.Fails(conn.conn.writes))
      ensures r.Item? ==> conn.closed == old(conn.closed)
    {
      hide IrcLines.Fails;
      hide AnswerTo, Answers, PollUser, IrcLines.PollScript, Wire, IrcServerConnection.Valid, IrcLines.Weight,
        ServerModel.Consistent;
      ghost var server := serverModel.View();
      AnswersNone(me, server);
      AfterNothing(PollUser(me, server, conn.readBuffer, conn.conn.script, conn.conn.ending));
      heard := [];
      while true
        invariant Valid() && outs == old(outs) + Answers(me, server, heard) && conn.closed == old(conn.closed)
        invariant IrcLines.Fails(conn.conn.writes) ==> old(IrcLines.Fails(conn.conn.writes))
        invariant old(conn.closed) ==> heard == []
        invariant forall i :: 0 <= i < |heard| ==> !AnswerTo(me, server, heard[i]).passed
        invariant !old(conn.closed) ==>
          PollUser(me, server, old(conn.readBuffer), old(conn.conn.script), conn.conn.ending)
            == PollUser(me, server, conn.readBuffer, conn.conn.script, conn.conn.ending).After(heard)
        decreases IrcLines.Weight(conn.conn.script), |conn.readBuffer|
      {
        PollUserUnfolds(me, server, conn.readBuffer, conn.conn.script, conn.conn.ending);
        r := Hear();
        if !r.Item? {
          return;
        }
        AnswersOneMore(me, server, heard, r.command);
        AfterOneMore(PollUser(me, server, conn.readBuffer, conn.conn.script, conn.conn.ending), heard, r.command);
        heard := heard + [r.command];
        var passed := Handle(r.command);
        if passed {
          return;
        }
      }
    }
  }
}
