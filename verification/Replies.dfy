/** What a client that keeps to the grammar makes of the lines that the bridge says to it. */
module Replies {
  import opened Prelude
  import opened IrcGrammar
  import opened IrcCommands
  import opened IrcSession
  import opened Timeline
  import opened Bridging
  import opened ServerModel
  import opened Text
  import Ordered

  // ---- Lines with one space everywhere ----------------------------------------------------------------------

  function Spaced(words: seq<string>): string {
    if words == [] then "" else " " + words[0] + Spaced(words[1..])
  }

  function Tail(trailing: Option<string>): string {
    match trailing case None => "" case Some(t) => " :" + t
  }

  lemma {:induction false} ParamsPrintSpaced(params: seq<string>, trailing: Option<string>, each: seq<nat>)
    requires |each| == |params| && forall i :: 0 <= i < |each| ==> each[i] == 1
    ensures PrintParams(params, trailing, each, 1) == Spaced(params) + Tail(trailing)
  {
    assert Spaces(1) == " ";
    if params != [] {
      ParamsPrintSpaced(params[1..], trailing, each[1..]);
      Regroup(" " + params[0], Spaced(params[1..]), Tail(trailing));
    }
  }

  /** A client reads the line as this. */
  ghost predicate ReadsAs(me: Identity, out: Out, l: Line) {
    ParseLine(Render(me, out)) == Some(l)
  }

  lemma SpacedLinesRead(me: Identity, out: Out, sender: string, command: string, params: seq<string>,
                        trailing: Option<string>)
    requires ValidLine(Line(Some(sender), command, params, trailing))
    requires Render(me, out) == ":" + sender + " " + (command + (Spaced(params) + Tail(trailing)))
    ensures ReadsAs(me, out, Line(Some(sender), command, params, trailing))
  {
    var l, g := Line(Some(sender), command, params, trailing), SingleGaps(|params|);
    hide ParseLine, ValidLine, Render;
    ParamsPrintSpaced(params, trailing, g.each);
    assert Spaces(1) == " ";
    assert PrintLine(l, g) == ":" + sender + " " + (command + PrintParams(params, trailing, g.each, 1));
    PrintedLinesParse(l, g);
  }

  /** Names that can stand in a line. */
  predicate ProperIdentity(me: Identity) {
    ValidParam(me.nick) && ValidParam(me.serverName) && All(IsWord, me.user)
  }

  predicate AllProper(words: seq<string>) {
    forall i :: 0 <= i < |words| ==> ValidParam(words[i])
  }

  /** A numeric is read as its code, whom it is for, and what it says. */
  lemma NumericReads(me: Identity, code: string, target: string, words: seq<string>, trailing: Option<string>,
                     rest: string)
    requires ProperIdentity(me) && |code| == 3 && All(IsDigit, code) && ValidParam(target) && AllProper(words)
    requires trailing.Some? ==> All(IsTrailing, trailing.value)
    requires " " + rest == Spaced(words) + Tail(trailing)
    ensures ReadsAs(me, Plain(NumericLine(me, code, target, rest)),
                    Line(Some(me.serverName), code, [target] + words, trailing))
  {
    var out := Plain(NumericLine(me, code, target, rest));
    var params := [target] + words;
    assert ValidLine(Line(Some(me.serverName), code, params, trailing));
    assert params[1..] == words;
    assert Spaced(params) == " " + target + Spaced(words);
    hide Spaced, Tail, ValidLine;
    Regroup(" " + target, Spaced(words), Tail(trailing));
    assert Render(me, out) == ":" + me.serverName + " " + (code + (" " + target + (" " + rest)));
    SpacedLinesRead(me, out, me.serverName, code, params, trailing);
  }

  lemma OneWord(a: string)
    ensures Spaced([a]) == " " + a
  {
    assert [a][1..] == [];
  }

  lemma TwoWords(a: string, b: string)
    ensures Spaced([a, b]) == " " + a + " " + b
  {
    assert [a, b][1..] == [b];
    OneWord(b);
  }

  // ---- Redirects and pongs ----------------------------------------------------------------------------------

  /** A redirect tells the client first what it asked for, and then what it gets. */
  lemma RedirectReadsBack(me: Identity, asked: string, channel: string)
    requires ProperIdentity(me) && ValidParam(asked) && ValidParam(channel)
    ensures ReadsAs(me, Redirected(asked, channel),
                    Line(Some(me.serverName), "470", [me.nick, asked, channel], Some("Forwarding to another channel")))
  {
    var text, rest := "Forwarding to another channel", asked + " " + channel + " :Forwarding to another channel";
    ForwardingIsText();
    TwoWords(asked, channel);
    assert All(IsDigit, "470");
    hide Spaced, ValidParam, All, Tail, NumericLine;
    assert AllProper([asked, channel]);
    Regroup(" " + asked, " " + channel, Tail(Some(text)));
    assert " " + rest == " " + asked + " " + channel + Tail(Some(text));
    NumericReads(me, "470", me.nick, [asked, channel], Some(text), rest);
    assert [me.nick] + [asked, channel] == [me.nick, asked, channel];
    assert Render(me, Redirected(asked, channel)) == Render(me, Plain(NumericLine(me, "470", me.nick, rest)));
    hide ParseLine, Render;
  }

  lemma PiecesAreText()
    ensures All(IsTrailing, "Forwarding to ") && All(IsTrailing, "another channel")
  {
  }

  lemma JoinedIsText(a: string, b: string)
    requires All(IsTrailing, a) && All(IsTrailing, b)
    ensures All(IsTrailing, a + b)
  {
  }

  lemma ForwardingIsInPieces()
    ensures "Forwarding to another channel" == "Forwarding to " + "another channel"
    ensures " :Forwarding to another channel" == " :" + "Forwarding to another channel"
  {
  }

  lemma ForwardingIsText()
    ensures All(IsTrailing, "Forwarding to another channel")
    ensures Tail(Some("Forwarding to another channel")) == " :Forwarding to another channel"
  {
    PiecesAreText();
    ForwardingIsInPieces();
    hide All;
    JoinedIsText("Forwarding to ", "another channel");
  }

  lemma PongReadsBack(me: Identity, data: string)
    requires ProperIdentity(me) && ValidParam(data)
    ensures ReadsAs(me, Plain(":" + me.serverName + " PONG " + data), Line(Some(me.serverName), "PONG", [data], None))
  {
    OneWord(data);
    assert ValidLine(Line(Some(me.serverName), "PONG", [data], None));
    assert ":" + me.serverName + " PONG " + data ==
      ":" + me.serverName + " " + ("PONG" + (Spaced([data]) + Tail(None)));
    hide ValidLine;
    SpacedLinesRead(me, Plain(":" + me.serverName + " PONG " + data), me.serverName, "PONG", [data], None);
  }

  // ---- Opening a channel ------------------------------------------------------------------------------------

  lemma JoinReads(me: Identity, channel: string)
    requires ProperIdentity(me) && ValidParam(channel)
    ensures ReadsAs(me, Plain(":" + me.Prefix() + " JOIN " + channel),
                    Line(Some(me.nick + "!" + me.user + "@" + me.serverName), "JOIN", [channel], None))
  {
    OneWord(channel);
    PrefixIsWord(me);
    assert ValidLine(Line(Some(me.Prefix()), "JOIN", [channel], None));
    assert ":" + me.Prefix() + " JOIN " + channel ==
      ":" + me.Prefix() + " " + ("JOIN" + (Spaced([channel]) + Tail(None)));
    hide ValidLine;
    SpacedLinesRead(me, Plain(":" + me.Prefix() + " JOIN " + channel), me.Prefix(), "JOIN", [channel], None);
  }

  lemma PrefixIsWord(me: Identity)
    requires ProperIdentity(me)
    ensures me.Prefix() != "" && All(IsWord, me.Prefix())
  {
  }

  lemma TopicReads(me: Identity, channel: string, topic: string)
    requires ProperIdentity(me) && ValidParam(channel) && All(IsTrailing, topic)
    ensures ReadsAs(me, Plain(NumericLine(me, "332", me.serverName, channel + " :" + topic)),
                    Line(Some(me.serverName), "332", [me.serverName, channel], Some(topic)))
  {
    OneWord(channel);
    assert All(IsDigit, "332");
    hide ValidParam, All, Spaced;
    assert AllProper([channel]);
    assert " " + (channel + " :" + topic) == " " + channel + (" :" + topic);
    NumericReads(me, "332", me.serverName, [channel], Some(topic), channel + " :" + topic);
    assert [me.serverName] + [channel] == [me.serverName, channel];
  }

  lemma EndOfNamesReads(me: Identity, channel: string)
    requires ProperIdentity(me) && ValidParam(channel)
    ensures ReadsAs(me, Plain(NumericLine(me, "366", me.nick, channel + " :End of /NAMES")),
                    Line(Some(me.serverName), "366", [me.nick, channel], Some("End of /NAMES")))
  {
    OneWord(channel);
    assert All(IsTrailing, "End of /NAMES");
    hide ValidParam, All, Spaced;
    assert AllProper([channel]);
    assert " " + (channel + " :End of /NAMES") == " " + channel + (" :" + "End of /NAMES");
    NumericReads(me, "366", me.nick, [channel], Some("End of /NAMES"), channel + " :End of /NAMES");
    assert [me.nick] + [channel] == [me.nick, channel];
  }

  lemma EndOfWhoReads(me: Identity, channel: string)
    requires ProperIdentity(me) && ValidParam(channel)
    ensures ReadsAs(me, Plain(NumericLine(me, "315", me.nick, channel + " :End of /WHO")),
                    Line(Some(me.serverName), "315", [me.nick, channel], Some("End of /WHO")))
  {
    OneWord(channel);
    assert All(IsTrailing, "End of /WHO");
    hide ValidParam, All, Spaced;
    assert AllProper([channel]);
    assert " " + (channel + " :End of /WHO") == " " + channel + (" :" + "End of /WHO");
    NumericReads(me, "315", me.nick, [channel], Some("End of /WHO"), channel + " :End of /WHO");
    assert [me.nick] + [channel] == [me.nick, channel];
  }

  lemma ModeReads(me: Identity, channel: string)
    requires ProperIdentity(me) && ValidParam(channel)
    ensures ReadsAs(me, Plain(NumericLine(me, "324", me.nick, channel + " +n")),
                    Line(Some(me.serverName), "324", [me.nick, channel, "+n"], None))
  {
    TwoWords(channel, "+n");
    assert ValidParam("+n");
    hide ValidParam, All, Spaced;
    assert AllProper([channel, "+n"]);
    assert " " + (channel + " +n") == " " + channel + " " + "+n" + "";
    NumericReads(me, "324", me.nick, [channel, "+n"], None, channel + " +n");
    assert [me.nick] + [channel, "+n"] == [me.nick, channel, "+n"];
  }

  /** A list of names as a client finds it: by taking the text of a 353 apart at its spaces. */
  ghost predicate ReadsAsNames(me: Identity, channel: string, out: Out, names: seq<Listed>) {
    exists text ::
      && ReadsAs(me, out, Line(Some(me.serverName), "353", [me.nick, "@", channel], Some(text)))
      && AreTheNames(Split(' ', text), names)
  }

  lemma {:induction false} RejoinIsText(words: seq<string>)
    requires words != [] && forall i :: 0 <= i < |words| ==> All(IsTrailing, words[i])
    ensures All(IsTrailing, Rejoin(' ', words))
  {
    if |words| > 1 {
      RejoinIsText(words[1..]);
    }
  }

  lemma NamesAreText(words: seq<string>, names: seq<Listed>)
    requires AreTheNames(words, names) && forall i :: 0 <= i < |names| ==> All(IsWord, names[i].nick)
    ensures forall i :: 0 <= i < |words| ==> All(IsTrailing, words[i])
  {
    forall i | 0 <= i < |words|
      ensures All(IsTrailing, words[i])
    {
      assert All(IsWord, names[i].nick);
    }
  }

  lemma NamesRead(me: Identity, channel: string, out: Out, names: seq<Listed>)
    requires ProperIdentity(me) && ValidParam(channel) && names != []
    requires forall i :: 0 <= i < |names| ==> All(IsWord, names[i].nick)
    requires ListsNames(me, channel, out, names)
    ensures ReadsAsNames(me, channel, out, names)
  {
    var text :| out == Plain(NumericLine(me, "353", me.nick, "@ " + channel + " :" + text)) &&
      AreTheNames(Split(' ', text), names);
    NamesAreText(Split(' ', text), names);
    SplitRejoins(' ', text);
    RejoinIsText(Split(' ', text));
    NamesLineReads(me, channel, text);
    hide ReadsAs, Split, AreTheNames;
  }

  lemma NamesLineReads(me: Identity, channel: string, text: string)
    requires ProperIdentity(me) && ValidParam(channel) && All(IsTrailing, text)
    ensures ReadsAs(me, Plain(NumericLine(me, "353", me.nick, "@ " + channel + " :" + text)),
                    Line(Some(me.serverName), "353", [me.nick, "@", channel], Some(text)))
  {
    TwoWords("@", channel);
    assert ValidParam("@") && All(IsDigit, "353");
    hide ValidParam, All, Spaced;
    assert AllProper(["@", channel]);
    assert " " + ("@ " + channel + " :" + text) == " " + "@" + " " + channel + (" :" + text);
    NumericReads(me, "353", me.nick, ["@", channel], Some(text), "@ " + channel + " :" + text);
    assert [me.nick] + ["@", channel] == [me.nick, "@", channel];
  }

  /** What a client sees of a channel that is opened: that it has joined, the topic, the names in lists of at most ten,
    * of which it can read those that read back, the end of the lists, and the mode. */
  ghost predicate SeesOpening(me: Identity, server: Server, channel: string, outs: seq<Out>)
    requires channel in server.channels
  {
    var chunks := Chunks(MembersOf(server, channel), 10);
    && |outs| == |chunks| + 4
    && ReadsAs(me, outs[0], Line(Some(me.nick + "!" + me.user + "@" + me.serverName), "JOIN", [channel], None))
    && ReadsAs(me, outs[1],
               Line(Some(me.serverName), "332", [me.serverName, channel], Some(server.channels[channel].topic)))
    && (forall i :: 0 <= i < |chunks| && ReadsBack(chunks[i]) ==> ReadsAsNames(me, channel, outs[2 + i], chunks[i]))
    && ReadsAs(me, outs[|chunks| + 2], Line(Some(me.serverName), "366", [me.nick, channel], Some("End of /NAMES")))
    && ReadsAs(me, outs[|chunks| + 3], Line(Some(me.serverName), "324", [me.nick, channel, "+n"], None))
  }

  /** Everything about the channel can stand in a line. */
  ghost predicate ProperChannel(server: Server, channel: string)
    requires channel in server.channels
  {
    && ValidParam(channel) && server.channels[channel].name == channel &&
      All(IsTrailing, server.channels[channel].topic)
    && forall l :: l in MembersOf(server, channel) ==> All(IsWord, l.nick)
  }

  lemma OpeningParts(me: Identity, server: Server, channel: string)
    requires channel in server.channels && server.channels[channel].name == channel
    ensures var outs, n := JoinOuts(me, server, channel), |Chunks(MembersOf(server, channel), 10)|;
      && |outs| == n + 4
      && outs[0] == Plain(":" + me.Prefix() + " JOIN " + channel)
      && outs[1] == Plain(NumericLine(me, "332", me.serverName, channel + " :" + server.channels[channel].topic))
      && outs[n + 2] == Plain(NumericLine(me, "366", me.nick, channel + " :End of /NAMES"))
      && outs[n + 3] == Plain(NumericLine(me, "324", me.nick, channel + " +n"))
  {
    hide MembersOf, Chunks, NumericLine;
  }

  lemma ChunkIsProper(server: Server, channel: string, chunk: seq<Listed>)
    requires channel in server.channels && ProperChannel(server, channel)
    requires forall l :: l in chunk ==> l in MembersOf(server, channel)
    ensures forall i :: 0 <= i < |chunk| ==> All(IsWord, chunk[i].nick)
  {
    hide MembersOf, All;
  }

  lemma OpeningIsSeen(me: Identity, server: Server, channel: string)
    requires ProperIdentity(me) && channel in server.channels && ProperChannel(server, channel)
    ensures SeesOpening(me, server, channel, JoinOuts(me, server, channel))
  {
    hide MembersOf, Chunks, NumericLine, ReadsAs, ReadsAsNames, ListsNames, ReadsBack, All, ValidParam, JoinOuts;
    hide ProperIdentity, Flatten;
    var outs, chunks := JoinOuts(me, server, channel), Chunks(MembersOf(server, channel), 10);
    OpeningParts(me, server, channel);
    JoinReads(me, channel);
    TopicReads(me, channel, server.channels[channel].topic);
    EndOfNamesReads(me, channel);
    ModeReads(me, channel);
    JoinNamesEveryMember(me, server, channel);
    ChunksAreParts(MembersOf(server, channel), 10);
    forall i | 0 <= i < |chunks| && ReadsBack(chunks[i])
      ensures ReadsAsNames(me, channel, outs[2 + i], chunks[i])
    {
      ChunkIsProper(server, channel, chunks[i]);
      NamesRead(me, channel, outs[2 + i], chunks[i]);
    }
  }

  // ---- Answers ----------------------------------------------------------------------------------------------

  lemma {:induction false} SpacedConcat(a: seq<string>, b: seq<string>)
    ensures Spaced(a + b) == Spaced(a) + Spaced(b)
  {
    if a == [] {
      assert a + b == b;
    } else {
      SpacedConcat(a[1..], b);
      assert (a + b)[1..] == a[1..] + b && (a + b)[0] == a[0];
      Regroup(" " + a[0], Spaced(a[1..]), Spaced(b));
    }
  }

  lemma SixWords(a: string, b: string, c: string, d: string, e: string, f: string)
    ensures Spaced([a, b, c, d, e, f]) == (" " + a + " " + b) + (" " + c + " " + d) + (" " + e + " " + f)
  {
    SpacedConcat([a, b] + [c, d], [e, f]);
    SpacedConcat([a, b], [c, d]);
    assert [a, b] + [c, d] + [e, f] == [a, b, c, d, e, f];
    hide Spaced;
    TwoWords(a, b);
    TwoWords(c, d);
    TwoWords(e, f);
  }

  lemma WhoInPieces(a: string, b: string, c: string, d: string, e: string)
    ensures " " + (a + " " + b + " " + c + " " + d + " " + e + " H :0 " + e) ==
      (" " + a + " " + b) + (" " + c + " " + d) + (" " + e + " " + "H") + (" :" + ("0 " + e))
  {
    var front, end := " " + a + " " + b, " :" + ("0 " + e);
    assert " H :0 " + e == " H" + end;
    assert " " + e + " " + "H" == " " + e + " H";
    assert " " + (a + " " + b + " " + c + " " + d + " " + e + " H :0 " + e) ==
      front + " " + c + " " + d + " " + e + (" H :0 " + e);
  }

  /** What a client sees of a user: channel, nick, host, server and identifier, and the identifier again as a name. */
  ghost predicate SeesUser(me: Identity, channel: string, u: User, out: Out) {
    ReadsAs(me, out, Line(Some(me.serverName), "352",
      [me.nick] + [channel, u.nick, "/matrix/user", me.serverName, u.user, "H"], Some("0 " + u.user)))
  }

  lemma WhoWordsAreProper(me: Identity, channel: string, u: User)
    requires ProperIdentity(me) && ValidParam(channel) && ValidParam(u.nick) && ValidParam(u.user)
    ensures AllProper([channel, u.nick, MATRIX_HOST, me.serverName, u.user, "H"])
    ensures All(IsTrailing, "0 " + u.user) && All(IsDigit, "352")
  {
    assert ValidParam(MATRIX_HOST) && ValidParam("H");
    assert All(IsTrailing, "0 ");
    JoinedIsText("0 ", u.user);
    hide ValidParam, All;
  }

  function WhoText(a: string, b: string, c: string, d: string, e: string): string {
    a + " " + b + " " + c + " " + d + " " + e + " H :0 " + e
  }

  lemma WhoTextIs(a: string, b: string, c: string, d: string, e: string)
    ensures " " + WhoText(a, b, c, d, e) == Spaced([a, b, c, d, e, "H"]) + Tail(Some("0 " + e))
  {
    SixWords(a, b, c, d, e, "H");
    WhoInPieces(a, b, c, d, e);
    hide Spaced;
  }

  lemma UserIsSeen(me: Identity, channel: string, u: User)
    requires ProperIdentity(me) && ValidParam(channel) && ValidParam(u.nick) && ValidParam(u.user)
    requires u.mask == MATRIX_HOST
    ensures SeesUser(me, channel, u, Plain(NumericLine(me, "352", me.nick,
      channel + " " + u.nick + " " + u.mask + " " + me.serverName + " " + u.user + " H :0 " + u.user)))
  {
    var rest := WhoText(channel, u.nick, u.mask, me.serverName, u.user);
    assert rest == channel + " " + u.nick + " " + u.mask + " " + me.serverName + " " + u.user + " H :0 " + u.user;
    WhoWordsAreProper(me, channel, u);
    WhoTextIs(channel, u.nick, u.mask, me.serverName, u.user);
    hide ValidParam, All, Spaced, Tail, ReadsAs, NumericLine, WhoText, ProperIdentity, AllProper;
    NumericReads(me, "352", me.nick, [channel, u.nick, u.mask, me.serverName, u.user, "H"], Some("0 " + u.user), rest);
  }

  /** Everybody in the channel can stand in a line. */
  ghost predicate ProperUsers(server: Server, channel: string)
    requires channel in server.channels
  {
    forall n :: n in server.channels[channel].users ==>
      && n in server.users && server.users[n].nick == n && server.users[n].mask == MATRIX_HOST
      && ValidParam(n) && ValidParam(server.users[n].user)
  }

  /** What a client sees of the answer to a WHO: everybody in the channel, once, and the end. */
  ghost predicate SeesWho(me: Identity, server: Server, channel: string, outs: seq<Out>)
    requires channel in server.channels && ProperUsers(server, channel)
  {
    var nicks := Ordered.Keys(server.channels[channel].users.Keys);
    && |outs| == |nicks| + 1
    && (forall i :: 0 <= i < |nicks| ==> nicks[i] in nicks && SeesUser(me, channel, server.users[nicks[i]], outs[i]))
    && ReadsAs(me, outs[|nicks|], Line(Some(me.serverName), "315", [me.nick, channel], Some("End of /WHO")))
  }

  /** What a client sees of the answer to a command. */
  ghost predicate SeesAnswer(me: Identity, server: Server, c: IrcCommand, outs: seq<Out>) {
    match c
    case PingCmd(data) =>
      |outs| == 1 && (ValidParam(data) ==> ReadsAs(me, outs[0], Line(Some(me.serverName), "PONG", [data], None)))
    case JoinCmd(channel) =>
      if channel in server.channels then ProperChannel(server, channel) ==> SeesOpening(me, server, channel, outs)
      else outs == []
    case WhoCmd(channel) =>
      if channel in server.channels && channel != "" && channel[0] == '#' then
        ValidParam(channel) && ProperUsers(server, channel) ==> SeesWho(me, server, channel, outs)
      else outs == []
    case ModeCmd(channel, mask) =>
      if channel != "" && channel[0] == '#' && mask.None? then
        && |outs| == 1
        && (ValidParam(channel) ==>
              ReadsAs(me, outs[0], Line(Some(me.serverName), "324", [me.nick, channel, "+n"], None)))
      else outs == []
    case _ => outs == []
  }

  lemma WhoAnswerIs(me: Identity, server: Server, channel: string)
    requires ServerModel.Consistent(server) && channel in server.channels && IsChannelName(channel)
    ensures var nicks := Ordered.Keys(server.channels[channel].users.Keys);
      var outs := AnswerTo(me, server, WhoCmd(channel)).outs;
      && (forall i :: 0 <= i < |nicks| ==> nicks[i] in nicks && nicks[i] in server.users)
      && |outs| == |nicks| + 1
      && outs[|nicks|] == Plain(NumericLine(me, "315", me.nick, channel + " :End of /WHO"))
      && forall i :: 0 <= i < |nicks| ==>
           var u := server.users[nicks[i]];
           outs[i] == Plain(NumericLine(me, "352", me.nick,
             channel + " " + u.nick + " " + u.mask + " " + me.serverName + " " + u.user + " H :0 " + u.user))
  {
    var nicks := Ordered.Keys(server.channels[channel].users.Keys);
    assert forall i :: 0 <= i < |nicks| ==> nicks[i] in nicks;
    hide NumericLine, Ordered.Keys;
  }

  lemma WhoIsSeen(me: Identity, server: Server, channel: string)
    requires ProperIdentity(me) && ServerModel.Consistent(server) && channel in server.channels
    requires ValidParam(channel) && ProperUsers(server, channel) && IsChannelName(channel)
    ensures SeesWho(me, server, channel, AnswerTo(me, server, WhoCmd(channel)).outs)
  {
    hide AnswerTo, Ordered.Keys, NumericLine, ReadsAs, SeesUser, ValidParam, ProperIdentity, ServerModel.Consistent;
    var nicks, outs := Ordered.Keys(server.channels[channel].users.Keys), AnswerTo(me, server, WhoCmd(channel)).outs;
    EndOfWhoReads(me, channel);
    WhoAnswerIs(me, server, channel);
    forall i | 0 <= i < |nicks|
      ensures SeesUser(me, channel, server.users[nicks[i]], outs[i])
    {
      UserIsSeen(me, channel, server.users[nicks[i]]);
    }
  }

  /** What the connection answers by itself is seen as the answer, and everything else goes unanswered. */
  lemma AnswersAreSeen(me: Identity, server: Server, c: IrcCommand)
    requires ProperIdentity(me) && ServerModel.Consistent(server)
    ensures SeesAnswer(me, server, c, AnswerTo(me, server, c).outs)
  {
    hide JoinOuts, WhoOuts, NumericLine, ReadsAs, ProperIdentity, ValidParam, SeesOpening, SeesWho, ProperChannel,
      Ordered.Keys;
    hide ProperUsers;
    match c
    case PingCmd(data) =>
      if ValidParam(data) {
        PongReadsBack(me, data);
      }
    case JoinCmd(channel) =>
      if channel in server.channels && ProperChannel(server, channel) {
        OpeningIsSeen(me, server, channel);
      }
    case WhoCmd(channel) =>
      if channel in server.channels && IsChannelName(channel) && ValidParam(channel) && ProperUsers(server, channel) {
        WhoIsSeen(me, server, channel);
      }
    case ModeCmd(channel, mask) =>
      if ValidParam(channel) {
        ModeReads(me, channel);
      }
    case _ =>
  }

  // ---- The greeting -----------------------------------------------------------------------------------------

  lemma TextReads(me: Identity, code: string, text: string, rest: string)
    requires ProperIdentity(me) && |code| == 3 && All(IsDigit, code) && All(IsTrailing, text) && rest == ":" + text
    ensures ReadsAs(me, Plain(NumericLine(me, code, me.nick, rest)),
                    Line(Some(me.serverName), code, [me.nick], Some(text)))
  {
    assert Spaced([]) + Tail(Some(text)) == " :" + text == " " + rest;
    hide Spaced, Tail, All, ReadsAs, NumericLine;
    NumericReads(me, code, me.nick, [], Some(text), rest);
    assert [me.nick] + [] == [me.nick];
  }

  lemma GreetingPiecesAreText()
    ensures All(IsTrailing, "Welcome to the ") && All(IsTrailing, "Matrix Internet ") &&
      All(IsTrailing, "Relay Network")
    ensures All(IsTrailing, "- This is a ") && All(IsTrailing, "bridge into Matrix") && All(IsTrailing, "End of MOTD")
    ensures All(IsTrailing, "-") && All(IsTrailing, "- ") && All(IsTrailing, " Message of the day -")
  {
  }

  lemma WelcomeIsInPieces()
    ensures ":Welcome to the Matrix Internet Relay Network" ==
      ":" + ("Welcome to the " + "Matrix Internet " + "Relay Network")
  {
    assert ":Welcome to the Matrix Internet Relay Network" ==
      (":Welcome to the " + "Matrix Internet ") + "Relay Network";
    assert ":Welcome to the " == ":" + "Welcome to the ";
    Regroup(":", "Welcome to the ", "Matrix Internet ");
    Regroup(":", "Welcome to the " + "Matrix Internet ", "Relay Network");
  }

  lemma BridgeIsInPieces()
    ensures ":- This is a bridge into Matrix" == ":" + ("- This is a " + "bridge into Matrix")
  {
    assert ":- This is a bridge into Matrix" == ":- This is a " + "bridge into Matrix";
    assert ":- This is a " == ":" + "- This is a ";
    Regroup(":", "- This is a ", "bridge into Matrix");
  }

  lemma CodesAreDigits()
    ensures All(IsDigit, "001") && All(IsDigit, "372") && All(IsDigit, "375") && All(IsDigit, "376")
  {
  }

  lemma FirstLineReads(me: Identity)
    requires ProperIdentity(me)
    ensures ReadsAs(me, Plain(NumericLine(me, "001", me.nick, ":Welcome to the Matrix Internet Relay Network")),
                    Line(Some(me.serverName), "001", [me.nick],
                         Some("Welcome to the " + "Matrix Internet " + "Relay Network")))
  {
    GreetingPiecesAreText();
    CodesAreDigits();
    WelcomeIsInPieces();
    hide All, ReadsAs, NumericLine, ProperIdentity;
    JoinedIsText("Welcome to the ", "Matrix Internet ");
    JoinedIsText("Welcome to the " + "Matrix Internet ", "Relay Network");
    TextReads(me, "001", "Welcome to the " + "Matrix Internet " + "Relay Network",
              ":Welcome to the Matrix Internet Relay Network");
  }

  lemma MotdLinesRead(me: Identity)
    requires ProperIdentity(me)
    ensures ReadsAs(me, Plain(NumericLine(me, "375", me.nick, ":- " + me.serverName + " Message of the day -")),
                    Line(Some(me.serverName), "375", [me.nick], Some("- " + me.serverName + " Message of the day -")))
    ensures ReadsAs(me, Plain(NumericLine(me, "372", me.nick, ":-")),
                    Line(Some(me.serverName), "372", [me.nick], Some("-")))
    ensures ReadsAs(me, Plain(NumericLine(me, "372", me.nick, ":- This is a bridge into Matrix")),
                    Line(Some(me.serverName), "372", [me.nick], Some("- This is a " + "bridge into Matrix")))
    ensures ReadsAs(me, Plain(NumericLine(me, "376", me.nick, ":End of MOTD")),
                    Line(Some(me.serverName), "376", [me.nick], Some("End of MOTD")))
  {
    GreetingPiecesAreText();
    CodesAreDigits();
    BridgeIsInPieces();
    ServerNameIsText(me);
    MotdIsInPieces(me.serverName);
    hide All, ReadsAs, NumericLine, ProperIdentity;
    JoinedIsText("- This is a ", "bridge into Matrix");
    JoinedIsText("- ", me.serverName);
    JoinedIsText("- " + me.serverName, " Message of the day -");
    TextReads(me, "375", "- " + me.serverName + " Message of the day -",
              ":- " + me.serverName + " Message of the day -");
    TextReads(me, "372", "-", ":-");
    TextReads(me, "372", "- This is a " + "bridge into Matrix", ":- This is a bridge into Matrix");
    TextReads(me, "376", "End of MOTD", ":End of MOTD");
  }

  /** A client reads the greeting as a welcome and the message of the day. */
  lemma WelcomeIsSeen(me: Identity)
    requires ProperIdentity(me)
    ensures var outs, sn, to := WelcomeOuts(me), Some(me.serverName), [me.nick];
      && |outs| == 6
      && ReadsAs(me, outs[0], Line(sn, "001", to, Some("Welcome to the " + "Matrix Internet " + "Relay Network")))
      && ReadsAs(me, outs[1], Line(sn, "375", to, Some("- " + me.serverName + " Message of the day -")))
      && ReadsAs(me, outs[2], Line(sn, "372", to, Some("-")))
      && ReadsAs(me, outs[3], Line(sn, "372", to, Some("- This is a " + "bridge into Matrix")))
      && ReadsAs(me, outs[4], Line(sn, "372", to, Some("-")))
      && ReadsAs(me, outs[5], Line(sn, "376", to, Some("End of MOTD")))
  {
    hide ReadsAs, NumericLine, ProperIdentity;
    FirstLineReads(me);
    MotdLinesRead(me);
  }

  lemma ServerNameIsText(me: Identity)
    requires ProperIdentity(me)
    ensures All(IsTrailing, me.serverName)
  {
  }

  lemma MotdIsInPieces(name: string)
    ensures ":- " + name + " Message of the day -" == ":" + ("- " + name + " Message of the day -")
    ensures ":-" == ":" + "-" && ":End of MOTD" == ":" + "End of MOTD"
  {
    assert ":- " == ":" + "- ";
    hide All;
    Regroup(":", "- ", name);
    Regroup(":", "- " + name, " Message of the day -");
  }

  // ---- Being away -------------------------------------------------------------------------------------------

  lemma FourWords(a: string, b: string, c: string, d: string)
    ensures Spaced([a, b, c, d]) == " " + a + " " + b + (" " + c + " " + d)
  {
    assert [a, b, c, d][1..] == [b, c, d] && [b, c, d][1..] == [c, d];
    TwoWords(c, d);
  }

  /** Away with a message, and back without one. */
  lemma AwayIsSeen(me: Identity, message: string)
    requires ProperIdentity(me)
    ensures ReadsAs(me, AwayOut(me, message),
                    if message == "" then Line(Some(me.serverName), "305", [me.nick, "Welcome", "back"], None)
                    else Line(Some(me.serverName), "306", [me.nick, "You", "are", "now", "away"], None))
  {
    TwoWords("Welcome", "back");
    FourWords("You", "are", "now", "away");
    AwayWordsAreProper();
    assert All(IsDigit, "305") && All(IsDigit, "306");
    assert [me.nick] + ["Welcome", "back"] == [me.nick, "Welcome", "back"];
    assert [me.nick] + ["You", "are", "now", "away"] == [me.nick, "You", "are", "now", "away"];
    assert " " + "Welcome back" == " " + "Welcome" + " " + "back" + "";
    assert " " + "You are now away" == " " + "You" + " " + "are" + (" " + "now" + " " + "away") + "";
    hide Spaced, ValidParam, All, ReadsAs, NumericLine;
    NumericReads(me, "305", me.nick, ["Welcome", "back"], None, "Welcome back");
    NumericReads(me, "306", me.nick, ["You", "are", "now", "away"], None, "You are now away");
  }

  lemma AwayWordsAreProper()
    ensures AllProper(["Welcome", "back"]) && AllProper(["You", "are", "now", "away"])
  {
  }

  /** Before the first sync nothing is answered; after it every command is, as a client expects, and nothing else is
    * said. */
  lemma HeardIsAnswered(w: Setting, b: Bridge, c: IrcCommand)
    requires Sound(b) && ProperIdentity(w.me)
    ensures b.first ==> Hear(w, b, c) == b
    ensures !b.first ==> exists answer ::
      && SeesAnswer(w.me, b.directory.server, c, answer)
      && Hear(w, b, c).outs == b.outs + answer + if c.AwayCmd? then [AwayOut(w.me, c.message)] else []
  {
    HearIs(w, b, c);
    if !b.first {
      ServerIsConsistent(b);
      AnswersAreSeen(w.me, b.directory.server, c);
      if c.AwayCmd? {
        AwayIsPassed(w.me, b.directory.server, c);
      }
      var answer := AnswerTo(w.me, b.directory.server, c).outs;
      hide AnswerTo, SeesAnswer, Hear, Sound, AwayOut;
      var away := if c.AwayCmd? then [AwayOut(w.me, c.message)] else [];
      Regroup(b.outs, answer, away);
    }
  }

  lemma ServerIsConsistent(b: Bridge)
    requires Sound(b)
    ensures ServerModel.Consistent(b.directory.server)
  {
  }

  lemma AwayIsPassed(me: Identity, server: Server, c: IrcCommand)
    requires ServerModel.Consistent(server) && c.AwayCmd?
    ensures AnswerTo(me, server, c).passed
  {
  }
}
