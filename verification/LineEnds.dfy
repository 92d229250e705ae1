/** When each line that the bridge says is one line for the client. Messages are cut at their line ends and nicks have
  * none, but the name and the topic of a channel are passed on as they come. */
module LineEnds {
  import opened Prelude
  import opened MatrixEvents
  import opened RoomState
  import opened Names
  import opened Mapping
  import opened ServerModel
  import opened IrcCommands
  import opened IrcSession
  import opened MatrixClient
  import opened Timeline
  import opened Bridging
  import opened ChannelLines
  import opened BridgeRuns
  import opened Nicks
  import opened Text
  import Decimal
  import IrcGrammar
  import IrcLines
  import Ordered
  import Utf8

  predicate Flat(s: string) {
    '\n' !in s
  }

  predicate AllFlat(words: seq<string>) {
    forall i :: 0 <= i < |words| ==> Flat(words[i])
  }

  predicate FlatIdentity(me: Identity) {
    Flat(me.nick) && Flat(me.user) && Flat(me.serverName)
  }

  ghost predicate FlatOuts(me: Identity, outs: seq<Out>) {
    forall i :: 0 <= i < |outs| ==> Flat(Render(me, outs[i]))
  }

  lemma JoinedIsFlatExactly(a: string, b: string)
    ensures Flat(a + b) <==> Flat(a) && Flat(b)
  {
    assert forall i :: 0 <= i < |a| ==> (a + b)[i] == a[i];
    assert forall i :: 0 <= i < |b| ==> (a + b)[|a| + i] == b[i];
  }

  lemma FlatConcat(me: Identity, a: seq<Out>, b: seq<Out>)
    ensures FlatOuts(me, a + b) <==> FlatOuts(me, a) && FlatOuts(me, b)
  {
    hide Render, Flat;
    if FlatOuts(me, a + b) {
      assert forall i :: 0 <= i < |a| ==> (a + b)[i] == a[i];
      assert forall i :: 0 <= i < |b| ==> (a + b)[|a| + i] == b[i];
    }
  }

  // ---- What is heard ----------------------------------------------------------------------------------------

  predicate FlatCommand(c: IrcCommand) {
    AllFlat(Words(c))
  }

  /** No command that the bridge understands has a line feed in it. */
  lemma HeardCommandsAreFlat(s: string)
    requires ParseCommand(s).Some?
    ensures FlatCommand(ParseCommand(s).value)
  {
    hide *;
    UnderstoodCommandsWereSaid(s);
    var g := IrcGrammar.AcceptedLinesArePrinted(s);
    ArgsAreFlat(IrcGrammar.ParseLine(s).value);
    WordsAreFlat(IrcGrammar.ParseLine(s).value.Args(), ParseCommand(s).value);
  }

  lemma WordsAreFlat(args: seq<string>, c: IrcCommand)
    requires Says(args, c) && AllFlat(args)
    ensures FlatCommand(c)
  {
    if !c.UserCmd? && !c.AwayCmd? {
      assert forall i :: 0 <= i < |Words(c)| ==> Words(c)[i] == args[i];
    }
  }

  lemma ArgsAreFlat(l: IrcGrammar.Line)
    requires IrcGrammar.ValidLine(l)
    ensures AllFlat(l.Args())
  {
  }

  // ---- What is said -----------------------------------------------------------------------------------------

  lemma NumericIsFlat(me: Identity, code: string, target: string, rest: string)
    requires FlatIdentity(me) && Flat(code) && Flat(target)
    ensures Flat(NumericLine(me, code, target, rest)) <==> Flat(rest)
  {
  }

  lemma {:induction false} TrimIsFlat(s: string)
    requires Flat(s)
    ensures Flat(IrcLines.TrimEnd(s))
  {
    if EndsBlank(s) {
      TrimIsFlat(s[..|s| - 1]);
    }
  }

  ghost predicate FlatListed(names: seq<Listed>) {
    forall l :: l in names ==> Flat(l.nick)
  }

  lemma {:induction false} RowIsFlat(names: seq<Listed>)
    requires FlatListed(names)
    ensures Flat(Row(names))
  {
    if names != [] {
      RowIsFlat(names[..|names| - 1]);
      assert Flat(names[|names| - 1].nick);
    }
  }

  lemma NamesAreFlat(me: Identity, channel: string, names: seq<Listed>)
    requires FlatIdentity(me) && Flat(channel) && FlatListed(names)
    ensures Flat(NumericLine(me, "353", me.nick, NamesText(channel, names)))
  {
    RowIsFlat(names);
    TrimIsFlat(NamesHead(channel) + Row(names));
    hide NamesText, NumericLine;
    NamesTextIsTrimmed(channel, names);
    NumericIsFlat(me, "353", me.nick, NamesText(channel, names));
  }

  lemma NamesTextIsTrimmed(channel: string, names: seq<Listed>)
    ensures NamesText(channel, names) == IrcLines.TrimEnd(NamesHead(channel) + Row(names))
  {
  }

  lemma NamesOutsAreFlat(me: Identity, channel: string, chunks: seq<seq<Listed>>)
    requires FlatIdentity(me) && Flat(channel) && forall i :: 0 <= i < |chunks| ==> FlatListed(chunks[i])
    ensures FlatOuts(me, NamesOuts(me, channel, chunks))
  {
    hide NumericLine, NamesText, Flat, FlatListed;
    forall i | 0 <= i < |chunks|
      ensures Flat(Render(me, NamesOuts(me, channel, chunks)[i]))
    {
      NamesAreFlat(me, channel, chunks[i]);
    }
  }

  lemma HeadIsFlatExactly(me: Identity, channel: string, topic: string)
    requires FlatIdentity(me)
    ensures var join, said := ":" + me.Prefix() + " JOIN " + channel,
      NumericLine(me, "332", me.serverName, channel + " :" + topic);
      FlatOuts(me, [Plain(join), Plain(said)]) <==> Flat(channel) && Flat(topic)
  {
    var join, said := ":" + me.Prefix() + " JOIN " + channel,
      NumericLine(me, "332", me.serverName, channel + " :" + topic);
    NumericIsFlat(me, "332", me.serverName, channel + " :" + topic);
    assert Flat(channel + " :" + topic) <==> Flat(channel) && Flat(topic);
    assert Flat(join) <==> Flat(channel);
    hide NumericLine, Flat;
    TwoLines(me, join, said);
  }

  lemma TwoLines(me: Identity, a: string, b: string)
    ensures FlatOuts(me, [Plain(a), Plain(b)]) <==> Flat(a) && Flat(b)
  {
    var outs := [Plain(a), Plain(b)];
    if FlatOuts(me, outs) {
      assert Flat(Render(me, outs[0])) && Flat(Render(me, outs[1]));
    }
  }

  lemma FootIsFlat(me: Identity, channel: string)
    requires FlatIdentity(me) && Flat(channel)
    ensures FlatOuts(me, [Plain(NumericLine(me, "366", me.nick, channel + " :End of /NAMES")),
                          Plain(NumericLine(me, "324", me.nick, channel + " +n"))])
  {
    NumericIsFlat(me, "366", me.nick, channel + " :End of /NAMES");
    NumericIsFlat(me, "324", me.nick, channel + " +n");
    hide NumericLine;
  }

  /** A channel is opened in proper lines exactly when neither its name nor its topic has a line feed in it. */
  lemma OpeningIsFlatExactly(me: Identity, server: Server, channel: string)
    requires FlatIdentity(me) && channel in server.channels && server.channels[channel].name == channel
    requires FlatListed(MembersOf(server, channel))
    ensures FlatOuts(me, JoinOuts(me, server, channel)) <==> Flat(channel) && Flat(server.channels[channel].topic)
  {
    var topic, chunks := server.channels[channel].topic, Chunks(MembersOf(server, channel), 10);
    var head := [Plain(":" + me.Prefix() + " JOIN " + channel),
                 Plain(NumericLine(me, "332", me.serverName, channel + " :" + topic))];
    var foot := [Plain(NumericLine(me, "366", me.nick, channel + " :End of /NAMES")),
                 Plain(NumericLine(me, "324", me.nick, channel + " +n"))];
    var names := NamesOuts(me, channel, chunks);
    assert JoinOuts(me, server, channel) == head + names + foot;
    HeadIsFlatExactly(me, channel, topic);
    FlatConcat(me, head + names, foot);
    FlatConcat(me, head, names);
    if Flat(channel) && Flat(topic) {
      FootIsFlat(me, channel);
      ChunksAreParts(MembersOf(server, channel), 10);
      hide Chunks, MembersOf, NamesOuts, FlatOuts, Flat;
      NamesOutsAreFlat(me, channel, chunks);
    }
  }

  lemma TextsAreFlat(me: Identity, nick: string, channel: string, texts: seq<string>)
    requires Flat(nick) && Flat(channel) && AllFlat(texts)
    ensures FlatOuts(me, Texts(nick, channel, texts))
  {
  }

  lemma ActionsAreFlat(texts: seq<string>)
    requires AllFlat(texts)
    ensures AllFlat(Actions(texts))
  {
  }

  /** Whatever a message consists of. */
  lemma EventIsFlat(w: Setting, nicks: map<string, string>, channel: string, ev: Event)
    requires Flat(channel) && forall u :: u in nicks ==> Flat(nicks[u])
    ensures FlatOuts(w.me, EventOuts(w, nicks, channel, ev))
  {
    forall s: string
      ensures AllFlat(Split('\n', s))
    {
      SplitRejoins('\n', s);
    }
    forall nick, texts | Flat(nick) && AllFlat(texts)
      ensures FlatOuts(w.me, Texts(nick, channel, texts)) && AllFlat(Actions(texts))
    {
      TextsAreFlat(w.me, nick, channel, texts);
      ActionsAreFlat(texts);
    }
    hide Split, Texts, Actions, FlatOuts, AllFlat;
    assert FlatOuts(w.me, []) by {
      NothingIsFlat(w.me);
    }
  }

  lemma NothingIsFlat(me: Identity)
    ensures FlatOuts(me, [])
  {
  }

  lemma {:induction false} TimelineIsFlat(w: Setting, nicks: map<string, string>, channel: string, events: seq<Event>)
    requires Flat(channel) && forall u :: u in nicks ==> Flat(nicks[u])
    ensures FlatOuts(w.me, TimelineOuts(w, nicks, channel, events))
  {
    hide Flat, EventOuts, FlatOuts;
    if events == [] {
      NothingIsFlat(w.me);
    } else {
      TimelineIsFlat(w, nicks, channel, events[..|events| - 1]);
      EventIsFlat(w, nicks, channel, events[|events| - 1]);
      FlatConcat(w.me, TimelineOuts(w, nicks, channel, events[..|events| - 1]),
                 EventOuts(w, nicks, channel, events[|events| - 1]));
    }
  }

  // ---- Answers ----------------------------------------------------------------------------------------------

  /** No channel has a line feed in its name or its topic. */
  ghost predicate FlatChannels(server: Server) {
    forall c :: c in server.channels ==> Flat(c) && Flat(server.channels[c].topic)
  }

  /** Nor has any nick. */
  ghost predicate FlatNames(d: Directory) {
    forall u :: u in d.uidToNick ==> Flat(d.uidToNick[u])
  }

  ghost predicate FlatUsers(server: Server) {
    forall n :: n in server.users ==> Flat(n)
  }

  lemma UsersAreFlat(d: Directory)
    requires Mapping.Consistent(d) && FlatNames(d)
    ensures FlatUsers(d.server)
  {
    forall n | n in d.server.users
      ensures Flat(n)
    {
      assert d.uidToNick[d.nickToUid[n]] == n;
    }
  }

  lemma ListedAreFlat(server: Server, channel: string)
    requires ServerModel.Consistent(server) && FlatUsers(server) && channel in server.channels
    ensures FlatListed(MembersOf(server, channel))
  {
    forall l | l in MembersOf(server, channel)
      ensures Flat(l.nick)
    {
      assert l.nick in server.channels[channel].users;
    }
  }

  lemma WhoRestIsFlatExactly(me: Identity, channel: string, u: User)
    requires Flat(me.serverName) && Flat(channel) && Flat(u.nick) && u.mask == MATRIX_HOST
    ensures Flat(channel + " " + u.nick + " " + u.mask + " " + me.serverName + " " + u.user + " H :0 " + u.user) <==>
      Flat(u.user)
  {
    var front := channel + " " + u.nick + " " + u.mask + " ";
    assert Flat(front);
    var back := me.serverName + " " + u.user + " H :0 " + u.user;
    assert Flat(back) <==> Flat(u.user);
    hide Flat;
    assert channel + " " + u.nick + " " + u.mask + " " + me.serverName + " " + u.user + " H :0 " + u.user ==
      front + back;
    JoinedIsFlatExactly(front, back);
  }

  /** The answer to a WHO gives everybody's identifier as it is. */
  lemma WhoIsFlatExactly(me: Identity, server: Server, channel: string, nicks: seq<string>)
    requires ServerModel.Consistent(server) && FlatIdentity(me) && FlatUsers(server) && Flat(channel)
    requires forall i :: 0 <= i < |nicks| ==> nicks[i] in server.users
    ensures FlatOuts(me, WhoOuts(me, server, channel, nicks)) <==>
      forall i :: 0 <= i < |nicks| ==> Flat(server.users[nicks[i]].user)
  {
    hide Flat, NumericLine;
    assert Flat("352") by {
      Literals();
    }
    forall i | 0 <= i < |nicks|
      ensures Flat(Render(me, WhoOuts(me, server, channel, nicks)[i])) <==> Flat(server.users[nicks[i]].user)
    {
      var u := server.users[nicks[i]];
      WhoRestIsFlatExactly(me, channel, u);
      NumericIsFlat(me, "352", me.nick,
        channel + " " + u.nick + " " + u.mask + " " + me.serverName + " " + u.user + " H :0 " + u.user);
    }
  }

  lemma Literals()
    ensures Flat("352")
  {
  }

  lemma PongIsFlat(me: Identity, data: string)
    requires FlatIdentity(me) && Flat(data)
    ensures FlatOuts(me, [Plain(":" + me.serverName + " PONG " + data)])
  {
  }

  lemma PlainIsFlat(me: Identity, code: string, rest: string)
    requires FlatIdentity(me) && Flat(code) && Flat(rest)
    ensures FlatOuts(me, [Plain(NumericLine(me, code, me.nick, rest))])
  {
    NumericIsFlat(me, code, me.nick, rest);
    hide NumericLine;
  }

  /** Everybody in the channel has an identifier without a line feed. */
  ghost predicate FlatIds(server: Server, channel: string)
    requires channel in server.channels
  {
    forall n :: n in server.channels[channel].users && n in server.users ==> Flat(server.users[n].user)
  }

  /** It is no WHO about a channel with somebody else in it. */
  ghost predicate AsksFlat(server: Server, c: IrcCommand) {
    c.WhoCmd? && IsChannelName(c.matches) && c.matches in server.channels ==> FlatIds(server, c.matches)
  }

  lemma WhoAnswerIsFlatExactly(me: Identity, server: Server, channel: string)
    requires ServerModel.Consistent(server) && FlatIdentity(me) && FlatUsers(server) && Flat(channel)
    requires IsChannelName(channel) && channel in server.channels
    ensures FlatOuts(me, AnswerTo(me, server, WhoCmd(channel)).outs) <==> FlatIds(server, channel)
  {
    hide FlatOuts, NumericLine, WhoOuts, Flat, FlatIdentity;
    var nicks := Ordered.Keys(server.channels[channel].users.Keys);
    assert forall i :: 0 <= i < |nicks| ==> nicks[i] in nicks;
    hide Ordered.Keys, FlatUsers;
    WhoIsFlatExactly(me, server, channel, nicks);
    WhoEndIsFlat(me, channel);
    FlatConcat(me, WhoOuts(me, server, channel, nicks),
               [Plain(NumericLine(me, "315", me.nick, channel + " :End of /WHO"))]);
  }

  lemma WhoEndIsFlat(me: Identity, channel: string)
    requires FlatIdentity(me) && Flat(channel)
    ensures FlatOuts(me, [Plain(NumericLine(me, "315", me.nick, channel + " :End of /WHO"))])
  {
    PlainIsFlat(me, "315", channel + " :End of /WHO");
  }

  lemma AnswerIsFlatExactly(me: Identity, server: Server, c: IrcCommand)
    requires ServerModel.Consistent(server) && FlatIdentity(me) && FlatUsers(server) && FlatChannels(server)
    requires FlatCommand(c)
    ensures FlatOuts(me, AnswerTo(me, server, c).outs) <==> AsksFlat(server, c)
  {
    assert FlatOuts(me, []) by {
      NothingIsFlat(me);
    }
    hide FlatOuts, JoinOuts, NumericLine, WhoOuts, Ordered.Keys, MembersOf, FlatUsers, FlatIdentity;
    match c
    case PingCmd(data) =>
      assert Flat(Words(c)[0]);
      PongIsFlat(me, data);
    case JoinCmd(channel) =>
      if channel in server.channels {
        ListedAreFlat(server, channel);
        OpeningIsFlatExactly(me, server, channel);
      }
    case WhoCmd(matches) =>
      assert Flat(Words(c)[0]);
      if IsChannelName(matches) && matches in server.channels {
        WhoAnswerIsFlatExactly(me, server, matches);
      }
    case ModeCmd(target, mask) =>
      assert Flat(Words(c)[0]);
      PlainIsFlat(me, "324", target + " +n");
    case _ =>
  }

  // ---- One room ---------------------------------------------------------------------------------------------

  /** What a room would be called, and its topic. */
  predicate FlatRoom(room: RoomView) {
    Flat(ChannelBase(room)) && Flat(Mapping.Topic(room))
  }

  lemma FreshIsFlatExactly(base: string, taken: set<string>)
    ensures Flat(FreshName(base, taken)) <==> Flat(base)
  {
    if base in taken {
      var k := LeastFree(base, taken);
      assert FreshName(base, taken) == base + "[" + Decimal.Text(k) + "]";
      if !Flat(base) {
        CandidateExtends(base, k);
        assert forall i :: 0 <= i < |base| ==> base[i] == FreshName(base, taken)[i];
      }
    }
  }

  /** What a new channel is like; the others stay as they are. */
  lemma ChannelOpened(d: Directory, room: RoomView)
    requires Mapping.Consistent(d)
    ensures var o := GetChannel(d, room);
      && (room.roomId in d.roomToChannel ==> o.directory == d)
      && (room.roomId !in d.roomToChannel ==>
            && o.channel == FreshName(ChannelBase(room), d.server.channels.Keys)
            && o.directory.server.channels.Keys == d.server.channels.Keys + {o.channel}
            && o.directory.server.channels[o.channel].topic == Mapping.Topic(room)
            && forall c :: c in d.server.channels ==> o.directory.server.channels[c] == d.server.channels[c])
  {
    hide GetNicks, FreshName, ChannelBase, MembersInOrder, Mapping.Topic, Joined, Entries, ServerModel.Nicks;
    if room.roomId !in d.roomToChannel {
      var channel := FreshName(ChannelBase(room), d.server.channels.Keys);
      MapChannelKeeps(d, channel, room.roomId);
      GetNicksKeeps(MapChannel(d, channel, room.roomId), MembersInOrder(room), {channel});
    }
  }

  lemma FlatAfterOpening(d: Directory, room: RoomView)
    requires Mapping.Consistent(d)
    ensures var o := GetChannel(d, room);
      FlatChannels(o.directory.server) <==> FlatChannels(d.server) && (room.roomId in d.roomToChannel || FlatRoom(room))
  {
    hide GetChannel, Flat, ChannelBase, Mapping.Topic, FreshName;
    ChannelOpened(d, room);
    FreshIsFlatExactly(ChannelBase(room), d.server.channels.Keys);
  }

  ghost predicate FlatJoining(joining: map<string, string>) {
    forall r :: r in joining ==> Flat(joining[r])
  }

  lemma RedirectIsFlat(me: Identity, asked: string, channel: string)
    requires FlatIdentity(me) && Flat(asked) && Flat(channel)
    ensures FlatOuts(me, [Redirected(asked, channel)])
  {
    var rest := asked + " " + channel + " :Forwarding to another channel";
    assert Flat(rest);
    NumericIsFlat(me, "470", me.nick, rest);
    hide NumericLine;
  }

  /** The lines said so far are one line each exactly when no channel has a line feed about it and the questions that
    * were asked are `proper`. */
  ghost predicate OneEach(w: Setting, b: Bridge, proper: bool) {
    FlatOuts(w.me, b.outs) <==> FlatChannels(b.directory.server) && proper
  }

  /** What is said after the opening is proper if the channel's name is. */
  lemma RestIsFlat(w: Setting, joining: map<string, string>, id: string, channel: string, nicks: map<string, string>,
                   events: seq<Event>)
    requires FlatIdentity(w.me) && FlatJoining(joining) && Flat(channel) && forall u :: u in nicks ==> Flat(nicks[u])
    ensures FlatOuts(w.me, Redirect(joining, id, channel) + TimelineOuts(w, nicks, channel, events))
  {
    hide FlatOuts, Flat, TimelineOuts, Render;
    TimelineIsFlat(w, nicks, channel, events);
    if id in joining && joining[id] != channel {
      RedirectIsFlat(w.me, joining[id], channel);
    } else {
      NothingIsFlat(w.me);
    }
    FlatConcat(w.me, Redirect(joining, id, channel), TimelineOuts(w, nicks, channel, events));
  }

  lemma OpeningIsFlat(me: Identity, d: Directory, channel: string)
    requires FlatIdentity(me) && Mapping.Consistent(d) && FlatNames(d) && channel in d.server.channels
    ensures FlatOuts(me, JoinOuts(me, d.server, channel)) <==> Flat(channel) && Flat(d.server.channels[channel].topic)
  {
    UsersAreFlat(d);
    ListedAreFlat(d.server, channel);
    hide FlatOuts, JoinOuts, MembersOf, Flat;
    OpeningIsFlatExactly(me, d.server, channel);
  }

  /** What is said when it is a room's turn is proper as far as its new channel is. */
  lemma OpeningOfRoomIsFlat(me: Identity, d: Directory, room: RoomView)
    requires FlatIdentity(me) && Mapping.Consistent(d) && Mapping.Consistent(GetChannel(d, room).directory)
    requires FlatNames(GetChannel(d, room).directory) && room.roomId !in d.roomToChannel
    requires GetChannel(d, room).channel in GetChannel(d, room).directory.server.channels
    ensures FlatOuts(me, JoinOuts(me, GetChannel(d, room).directory.server, GetChannel(d, room).channel)) <==>
      FlatRoom(room)
  {
    hide FlatOuts, JoinOuts, GetChannel, FlatNames, ConsistentBut, Flat, FlatIdentity, FreshName, ChannelBase,
      Mapping.Topic;
    var o := GetChannel(d, room);
    ChannelOpened(d, room);
    FreshIsFlatExactly(ChannelBase(room), d.server.channels.Keys);
    OpeningIsFlat(me, o.directory, o.channel);
  }

  lemma StillOneEach(w: Setting, b: Bridge, r: Bridge, opening: seq<Out>, rest: seq<Out>, flat: bool, proper: bool)
    requires OneEach(w, b, proper) && r.outs == b.outs + opening + rest
    requires FlatOuts(w.me, opening) <==> flat
    requires FlatChannels(r.directory.server) <==> FlatChannels(b.directory.server) && flat
    requires FlatChannels(r.directory.server) ==> FlatOuts(w.me, rest)
    ensures OneEach(w, r, proper)
  {
    hide FlatOuts, FlatChannels;
    FlatConcat(w.me, b.outs + opening, rest);
    FlatConcat(w.me, b.outs, opening);
  }

  lemma FlatFacts(d: Directory, channel: string)
    requires FlatNames(d) && FlatChannels(d.server) && channel in d.server.channels
    ensures Flat(channel) && forall u :: u in d.uidToNick ==> Flat(d.uidToNick[u])
  {
  }

  lemma HandleRoomOneEach(w: Setting, b: Bridge, id: string, sync: RoomSync, proper: bool)
    requires Sound(b) && id in b.rooms && FlatIdentity(w.me) && FlatJoining(b.joining) && OneEach(w, b, proper)
    requires FlatNames(HandleRoom(w, b, id, sync).directory)
    ensures var r := HandleRoom(w, b, id, sync);
      && OneEach(w, r, proper)
      && (FlatChannels(r.directory.server) <==>
            FlatChannels(b.directory.server) && (id in b.directory.roomToChannel || FlatRoom(b.rooms[id])))
  {
    hide *;
    HandleRoomIs(w, b, id, sync);
    var r, o := HandleRoom(w, b, id, sync), GetChannel(b.directory, b.rooms[id]);
    FlatAfterOpening(b.directory, b.rooms[id]);
    var opening := if o.isNew then JoinOuts(w.me, o.directory.server, o.channel) else [];
    var rest := Redirect(b.joining, id, o.channel) + TimelineOuts(w, o.directory.uidToNick, o.channel, sync.timeline);
    assert r.outs == b.outs + opening + rest;
    if o.isNew {
      OpeningOfRoomIsFlat(w.me, b.directory, b.rooms[id]);
    } else {
      NothingIsFlat(w.me);
    }
    if FlatChannels(o.directory.server) {
      FlatFacts(o.directory, o.channel);
      RestIsFlat(w, b.joining, id, o.channel, o.directory.uidToNick, sync.timeline);
    }
    StillOneEach(w, b, r, opening, rest, !o.isNew || FlatRoom(b.rooms[id]), proper);
  }

  // ---- Any number of rooms ----------------------------------------------------------------------------------

  /** Every room of the list that has no channel yet will get a proper one. */
  ghost predicate NewOnesFlat(b: Bridge, order: seq<string>) {
    forall id :: id in order && id in b.rooms && id !in b.directory.roomToChannel ==> FlatRoom(b.rooms[id])
  }

  lemma OneFlatRoomMore(b: Bridge, mid: Bridge, before: seq<string>, last: string, order: seq<string>)
    requires mid.rooms == b.rooms && last in b.rooms && forall id :: id in order <==> id in before || id == last
    requires forall id :: id in mid.directory.roomToChannel <==> id in b.directory.roomToChannel || id in before
    ensures NewOnesFlat(b, order) <==>
      NewOnesFlat(b, before) && (last in mid.directory.roomToChannel || FlatRoom(b.rooms[last]))
  {
    hide FlatRoom;
  }

  lemma FlatNamesBefore(d: Directory, e: Directory)
    requires KeepsNames(d, e) && FlatNames(e)
    ensures FlatNames(d)
  {
  }

  lemma FlatJoiningAfter(b: Bridge, r: Bridge, rooms: set<string>)
    requires Handled(b, r, rooms) && FlatJoining(b.joining)
    ensures FlatJoining(r.joining)
  {
  }

  lemma {:induction false} HandleRoomsOneEach(w: Setting, b: Bridge, order: seq<string>, join: map<string, RoomSync>,
                                              proper: bool)
    requires Sound(b) && AllKnown(b, order, join)
    requires FlatIdentity(w.me) && FlatJoining(b.joining) && OneEach(w, b, proper)
    requires FlatNames(HandleRooms(w, b, order, join).directory)
    ensures var r := HandleRooms(w, b, order, join);
      && OneEach(w, r, proper) && FlatJoining(r.joining)
      && (FlatChannels(r.directory.server) <==> FlatChannels(b.directory.server) && NewOnesFlat(b, order))
  {
    hide *;
    if order == [] {
      NoRoom(w, b, join);
      NoNewOne(b);
    } else {
      var before, last := order[..|order| - 1], order[|order| - 1];
      LastRoom(w, b, order, join);
      var mid := HandleRooms(w, b, before, join);
      var r := HandleRoom(w, mid, last, join[last]);
      RoomHandled(w, mid, last, join[last]);
      HandledKeepsNames(mid, r, {last});
      FlatNamesBefore(mid.directory, r.directory);
      HandleRoomsOneEach(w, b, before, join, proper);
      HandleRoomOneEach(w, mid, last, join[last], proper);
      FlatJoiningAfter(mid, r, {last});
      RoomsHandled(w, b, before, join);
      KeysHandled(b, mid, before);
      OneFlatRoomMore(b, mid, before, last, order);
    }
  }

  lemma NoNewOne(b: Bridge)
    ensures NewOnesFlat(b, [])
  {
  }

  // ---- Every step -------------------------------------------------------------------------------------------

  /** The rooms that this sync is the first to mention are proper. */
  ghost predicate NewRoomsFlat(before: seq<Action>, join: map<string, RoomSync>)
    requires AllValid(join)
  {
    forall room :: room in join && !Mentioned(before, room) ==> FlatRoom(NewRoom(room, WithoutEchoes(join[room])))
  }

  lemma NewOnesAreNewRooms(b: Bridge, greeted: Bridge, order: seq<string>, before: seq<Action>,
                           join: map<string, RoomSync>)
    requires AllValid(join) && AllValid(Cleaned(join)) && RoomsStand(b, before)
    requires greeted.directory == b.directory && greeted.rooms == Absorb(b.rooms, Cleaned(join))
    requires forall id :: id in order <==> id in join
    ensures NewOnesFlat(greeted, order) <==> NewRoomsFlat(before, join)
  {
    hide Mentioned, AllValid, ValidSync, WithoutEchoes, Update, NewRoom, FlatRoom;
    forall room | room in join
      ensures room in greeted.rooms && (room in b.rooms <==> Mentioned(before, room))
      ensures ValidSync(WithoutEchoes(join[room]))
      ensures room !in b.rooms ==> greeted.rooms[room] == NewRoom(room, WithoutEchoes(join[room]))
    {
      assert ChannelOf(b, room).Some? <==> Mentioned(before, room);
      assert room in Cleaned(join);
      CleanedRoom(join, room);
      NewRoomIs(b.rooms, Cleaned(join), room);
    }
  }

  lemma NewRoomIs(rooms: map<string, RoomView>, join: map<string, RoomSync>, room: string)
    requires AllValid(join) && room in join
    ensures ValidSync(join[room]) && room in Absorb(rooms, join)
    ensures room !in rooms ==> Absorb(rooms, join)[room] == NewRoom(room, join[room])
  {
    hide NewRoom, Update;
  }

  lemma CodesAreFlat()
    ensures Flat("001") && Flat("372") && Flat("375") && Flat("376") && Flat("PING HELLO")
    ensures Flat(":-") && Flat(":End of MOTD") && Flat(":- ")
  {
  }

  lemma PiecesAreFlat()
    ensures Flat(":Welcome to the ") && Flat("Matrix Internet ") && Flat("Relay Network")
    ensures Flat(" Message of the day -") && Flat(":- This is a ") && Flat("bridge into Matrix")
  {
  }

  lemma WelcomeTextsAreFlat()
    ensures Flat(":Welcome to the Matrix Internet Relay Network") && Flat(" Message of the day -")
    ensures Flat(":- This is a bridge into Matrix")
  {
    PiecesAreFlat();
    hide Flat;
    JoinedIsFlatExactly(":Welcome to the ", "Matrix Internet ");
    JoinedIsFlatExactly(":Welcome to the " + "Matrix Internet ", "Relay Network");
    JoinedIsFlatExactly(":- This is a ", "bridge into Matrix");
    assert ":Welcome to the Matrix Internet Relay Network" ==
      (":Welcome to the " + "Matrix Internet ") + "Relay Network";
    assert ":- This is a bridge into Matrix" == ":- This is a " + "bridge into Matrix";
  }

  lemma GreetingIsFlat(w: Setting, b: Bridge)
    requires FlatIdentity(w.me)
    ensures FlatOuts(w.me, Greeting(w, b))
  {
    CodesAreFlat();
    WelcomeTextsAreFlat();
    JoinedIsFlatExactly(":- ", w.me.serverName);
    JoinedIsFlatExactly(":- " + w.me.serverName, " Message of the day -");
    hide NumericLine, Flat;
    NumericIsFlat(w.me, "001", w.me.nick, ":Welcome to the Matrix Internet Relay Network");
    NumericIsFlat(w.me, "375", w.me.nick, ":- " + w.me.serverName + " Message of the day -");
    NumericIsFlat(w.me, "372", w.me.nick, ":-");
    NumericIsFlat(w.me, "372", w.me.nick, ":- This is a bridge into Matrix");
    NumericIsFlat(w.me, "376", w.me.nick, ":End of MOTD");
  }

  lemma MoreIsSaid(w: Setting, b: Bridge, r: Bridge, more: seq<Out>, flat: bool, proper: bool)
    requires OneEach(w, b, proper) && r.outs == b.outs + more && r.directory == b.directory
    requires FlatChannels(b.directory.server) ==> (FlatOuts(w.me, more) <==> flat)
    ensures OneEach(w, r, proper && flat)
  {
    hide FlatOuts, FlatChannels;
    FlatConcat(w.me, b.outs, more);
  }

  lemma SyncOneEach(w: Setting, b: Bridge, before: seq<Action>, response: SyncResponse, proper: bool)
    requires Sound(b) && AllValid(response.join) && RoomsStand(b, before)
    requires FlatIdentity(w.me) && FlatJoining(b.joining) && OneEach(w, b, proper)
    requires FlatNames(Sync(w, b, response).directory)
    ensures var r := Sync(w, b, response);
      && OneEach(w, r, proper) && FlatJoining(r.joining)
      && (FlatChannels(r.directory.server) <==> FlatChannels(b.directory.server) && NewRoomsFlat(before, response.join))
  {
    hide *;
    SyncIs(w, b, response);
    var join, order := Cleaned(response.join), Ordered.Keys(response.join.Keys);
    var greeted := Greet(w, b, join);
    GreetsRooms(w, b, response.join);
    GreetingIsFlat(w, b);
    MoreIsSaid(w, b, greeted, Greeting(w, b), true, proper);
    HandleRoomsOneEach(w, greeted, order, join, proper);
    NewOnesAreNewRooms(b, greeted, order, before, response.join);
    SameSaid(w, HandleRooms(w, greeted, order, join), Sync(w, b, response), proper);
  }

  lemma SameSaid(w: Setting, b: Bridge, r: Bridge, proper: bool)
    requires OneEach(w, b, proper) && r.outs == b.outs && r.directory == b.directory
    ensures OneEach(w, r, proper)
  {
  }

  lemma ReplyOneEach(w: Setting, b: Bridge, asked: string, roomId: string, proper: bool)
    requires Sound(b) && FlatIdentity(w.me) && FlatJoining(b.joining) && OneEach(w, b, proper) && Flat(asked)
    ensures var r := Reply(b, asked, roomId);
      OneEach(w, r, proper) && FlatJoining(r.joining) && r.directory == b.directory
  {
    hide FlatOuts, Flat, FlatIdentity, ConsistentBut, OneEach;
    ChannelsAreKnown(b.directory);
    if roomId in b.directory.roomToChannel {
      var channel := b.directory.roomToChannel[roomId];
      if FlatChannels(b.directory.server) {
        RedirectIsFlat(w.me, asked, channel);
      }
      if channel == asked {
        SameSaid(w, b, Reply(b, asked, roomId), proper);
      } else {
        MoreIsSaid(w, b, Reply(b, asked, roomId), [Redirected(asked, channel)], true, proper);
      }
    } else {
      SameSaid(w, b, Reply(b, asked, roomId), proper);
    }
  }

  lemma AwayIsFlat(me: Identity, message: string)
    requires FlatIdentity(me)
    ensures FlatOuts(me, [AwayOut(me, message)])
  {
    PlainIsFlat(me, "305", "Welcome back");
    PlainIsFlat(me, "306", "You are now away");
    hide NumericLine;
  }

  /** It is no command that would be answered with a line feed in the answer. */
  ghost predicate FlatHear(b: Bridge, c: IrcCommand) {
    b.first || AsksFlat(b.directory.server, c)
  }

  lemma HearOneEach(w: Setting, b: Bridge, c: IrcCommand, proper: bool)
    requires Sound(b) && FlatIdentity(w.me) && OneEach(w, b, proper) && FlatCommand(c) && FlatNames(b.directory)
    ensures var r := Hear(w, b, c);
      OneEach(w, r, proper && FlatHear(b, c)) && r.joining == b.joining && r.directory == b.directory
  {
    hide *;
    HearIs(w, b, c);
    SoundIsConsistent(b);
    ConsistentServer(b.directory);
    UsersAreFlat(b.directory);
    NothingIsFlat(w.me);
    var answer := AnswerTo(w.me, b.directory.server, c);
    var away := if answer.passed && c.AwayCmd? then [AwayOut(w.me, c.message)] else [];
    if c.AwayCmd? {
      AwayIsFlat(w.me, c.message);
    }
    if FlatChannels(b.directory.server) {
      AnswerIsFlatExactly(w.me, b.directory.server, c);
    }
    FlatConcat(w.me, answer.outs, away);
    FlatHearIs(b, c);
    MoreIsSaid(w, b, Hear(w, b, c), if b.first then [] else answer.outs + away, FlatHear(b, c), proper);
  }

  lemma FlatHearIs(b: Bridge, c: IrcCommand)
    ensures FlatHear(b, c) <==> b.first || AsksFlat(b.directory.server, c)
  {
  }

  lemma ConsistentServer(d: Directory)
    requires Mapping.Consistent(d)
    ensures ServerModel.Consistent(d.server)
  {
  }

  // ---- Every run --------------------------------------------------------------------------------------------

  /** Nothing that the client says has a line feed in it, be it a command or, later, a name that it once asked for. */
  predicate FlatAction(a: Action) {
    match a
    case Synced(_) => true
    case Replied(asked, _) => Flat(asked)
    case Heard(c) => FlatCommand(c)
  }

  ghost predicate FlatActions(actions: seq<Action>) {
    forall i :: 0 <= i < |actions| ==> FlatAction(actions[i])
  }

  ghost predicate FlatStep(before: seq<Action>, a: Action)
    requires Fits(a)
  {
    a.Synced? ==> NewRoomsFlat(before, a.response.join)
  }

  /** Every room came with a proper name and a proper topic when it came for the first time. */
  ghost predicate FlatRun(actions: seq<Action>)
    requires AllFit(actions)
  {
    actions == [] ||
    (FlatRun(actions[..|actions| - 1]) && FlatStep(actions[..|actions| - 1], actions[|actions| - 1]))
  }

  /** No WHO was heard about a channel with somebody in it whose identifier has a line feed. */
  ghost predicate FlatWhos(w: Setting, nick: string, uid: string, actions: seq<Action>)
    requires AllFit(actions)
  {
    actions == [] ||
    (FlatWhos(w, nick, uid, actions[..|actions| - 1])
     && FlatAsked(Reached(w, nick, uid, actions[..|actions| - 1]), actions[|actions| - 1]))
  }

  ghost predicate FlatAsked(b: Bridge, a: Action) {
    a.Heard? ==> FlatHear(b, a.command)
  }

  lemma StepOneEach(w: Setting, b: Bridge, before: seq<Action>, a: Action, proper: bool)
    requires Sound(b) && Fits(a) && RoomsStand(b, before) && FlatAction(a) && FlatNames(Step(w, b, a).directory)
    requires FlatIdentity(w.me) && FlatJoining(b.joining) && OneEach(w, b, proper)
    ensures var r := Step(w, b, a);
      && OneEach(w, r, proper && FlatAsked(b, a)) && FlatJoining(r.joining)
      && (FlatChannels(r.directory.server) <==> FlatChannels(b.directory.server) && FlatStep(before, a))
  {
    hide Sound, Sync, Hear, Reply, AllValid, NewRoomsFlat, RoomsStand, FlatJoining, OneEach, FlatNames, FlatChannels;
    hide FlatIdentity, Flat, FlatCommand, FlatHear;
    match a
    case Synced(response) => SyncOneEach(w, b, before, response, proper);
    case Replied(asked, roomId) => ReplyOneEach(w, b, asked, roomId, proper);
    case Heard(c) =>
      HearIs(w, b, c);
      HearOneEach(w, b, c, proper);
  }

  lemma {:induction false} RunOneEach(w: Setting, nick: string, uid: string, actions: seq<Action>)
    requires AllFit(actions) && FlatActions(actions) && FlatIdentity(w.me)
    requires FlatNames(Reached(w, nick, uid, actions).directory)
    ensures var b := Reached(w, nick, uid, actions);
      && OneEach(w, b, FlatWhos(w, nick, uid, actions)) && FlatJoining(b.joining)
      && (FlatChannels(b.directory.server) <==> FlatRun(actions))
  {
    if actions == [] {
      hide Sound;
      NothingIsFlat(w.me);
    } else {
      hide *;
      var before, last := actions[..|actions| - 1], actions[|actions| - 1];
      ReachedStep(w, nick, uid, actions);
      var b := Reached(w, nick, uid, before);
      StepKeepsNames(w, b, last);
      FlatNamesBefore(b.directory, Step(w, b, last).directory);
      LastFlat(w, nick, uid, actions);
      RunOneEach(w, nick, uid, before);
      RunStands(w, nick, uid, before);
      StepOneEach(w, b, before, last, FlatWhos(w, nick, uid, before));
    }
  }

  lemma LastFlat(w: Setting, nick: string, uid: string, actions: seq<Action>)
    requires AllFit(actions) && FlatActions(actions) && actions != []
    ensures var before, last := actions[..|actions| - 1], actions[|actions| - 1];
      && AllFit(before) && Fits(last) && FlatActions(before) && FlatAction(last)
      && (FlatRun(actions) <==> FlatRun(before) && FlatStep(before, last))
      && (FlatWhos(w, nick, uid, actions) <==>
            FlatWhos(w, nick, uid, before) && FlatAsked(Reached(w, nick, uid, before), last))
  {
    hide Fits, FlatAction, FlatStep, Reached, FlatAsked;
  }

  lemma NicksAreFlat(w: Setting, nick: string, uid: string, actions: seq<Action>)
    requires AllFit(actions) && Flat(nick)
    ensures FlatNames(Reached(w, nick, uid, actions).directory)
  {
    hide Reached;
    NicksAlwaysLack(w, nick, uid, actions, '\n');
    OwnNickStays(w, nick, uid, actions);
  }

  /** Whatever is written in messages and whatever people call themselves: what the bridge says is free of line feeds
    * exactly when every room had, when it came for the first time, a name and a topic without one, and no WHO was heard
    * about a channel with somebody in it whose identifier has one. */
  lemma SaidInLinesExactly(w: Setting, nick: string, uid: string, actions: seq<Action>)
    requires AllFit(actions) && FlatActions(actions) && FlatIdentity(w.me) && Flat(nick)
    ensures FlatOuts(w.me, Reached(w, nick, uid, actions).outs) <==>
      FlatRun(actions) && FlatWhos(w, nick, uid, actions)
  {
    hide Reached, FlatOuts, FlatChannels, FlatRun, FlatWhos, FlatActions, FlatNames, FlatIdentity, FlatJoining, Flat;
    NicksAreFlat(w, nick, uid, actions);
    RunOneEach(w, nick, uid, actions);
  }

  // ---- At the client ----------------------------------------------------------------------------------------

  lemma {:induction false} FlatIsOneLineExactly(s: string)
    ensures Flat(s) <==> LF !in Utf8.Encode(s)
  {
    if s != "" {
      FlatIsOneLineExactly(s[1..]);
      CharIsLineFeedExactly(s[0]);
      hide Utf8.EncodeChar;
      assert s == [s[0]] + s[1..];
      assert Flat(s) <==> s[0] != '\n' && Flat(s[1..]);
    }
  }

  lemma CharIsLineFeedExactly(c: char)
    ensures LF in Utf8.EncodeChar(c) <==> c == '\n'
  {
  }

  lemma {:induction false} CompleteLinesHaveNone(b: bytes)
    ensures forall i :: 0 <= i < |IrcLines.CompleteLines(b)| ==> LF !in IrcLines.CompleteLines(b)[i]
    decreases |b|
  {
    var i := IndexOf(b, LF);
    if i < |b| {
      CompleteLinesHaveNone(b[i + 1..]);
    }
  }

  lemma WireIsFlatExactly(me: Identity, outs: seq<Out>)
    ensures FlatOuts(me, outs) <==> forall i :: 0 <= i < |outs| ==> LF !in Wire(me, outs)[i]
  {
    hide Flat, Render, Utf8.Encode;
    forall i | 0 <= i < |outs|
      ensures Flat(Render(me, outs[i])) <==> LF !in Wire(me, outs)[i]
    {
      FlatIsOneLineExactly(Render(me, outs[i]));
    }
  }

  /** Under the same condition, and only then, the lines that the client makes out of all that is sent are the lines
    * that were said; and those that it makes out before are the first of them. */
  lemma LinesArriveAsSaidExactly(w: Setting, nick: string, uid: string, actions: seq<Action>, sent: bytes,
                                 unsent: bytes)
    requires AllFit(actions) && FlatActions(actions) && FlatIdentity(w.me) && Flat(nick)
    requires sent + unsent == Ended([LF], Wire(w.me, Reached(w, nick, uid, actions).outs))
    ensures var said, flat := Wire(w.me, Reached(w, nick, uid, actions).outs),
                              FlatRun(actions) && FlatWhos(w, nick, uid, actions);
      && (flat ==> IrcLines.CompleteLines(sent) <= said)
      && (unsent == [] ==> (IrcLines.CompleteLines(sent) == said <==> flat))
  {
    hide *;
    var outs := Reached(w, nick, uid, actions).outs;
    SaidInLinesExactly(w, nick, uid, actions);
    WireIsFlatExactly(w.me, outs);
    CompleteLinesHaveNone(sent);
    if FlatRun(actions) && FlatWhos(w, nick, uid, actions) {
      IrcLines.SentLinesAreAPrefix(Wire(w.me, outs), sent, unsent);
    }
  }
}
