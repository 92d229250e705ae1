/** The bridge of the source: one IRC connection and one Matrix session, mapped onto each other. */
module BridgeSession {
  import opened Prelude
  import opened MatrixEvents
  import opened Mapping
  import opened MappingStore
  import opened IrcCommands
  import opened IrcTransport
  import opened Network
  import opened IrcSession
  import opened MatrixClient
  import opened Timeline
  import opened Bridging
  import IrcLines
  import ServerModel
  import Ordered

  function Heards(commands: seq<IrcCommand>): (actions: seq<Action>)
    ensures |actions| == |commands| && AllFit(actions)
  {
    seq(|commands|, i requires 0 <= i < |commands| => Heard(commands[i]))
  }

  lemma HeardOneMore(w: Setting, b: Bridge, commands: seq<IrcCommand>, c: IrcCommand)
    requires Sound(b)
    ensures Run(w, b, Heards(commands + [c])) == Hear(w, Run(w, b, Heards(commands)), c)
  {
    hide Sound, Hear;
    assert Heards(commands + [c])[..|commands|] == Heards(commands);
  }

  /** Commands that the connection answers by itself only add their answers. */
  lemma {:induction false} HeardAnswers(w: Setting, b: Bridge, commands: seq<IrcCommand>)
    requires Sound(b) && !b.first
    requires forall i :: 0 <= i < |commands| ==> !AnswerTo(w.me, b.directory.server, commands[i]).passed
    ensures Run(w, b, Heards(commands)) == b.(outs := b.outs + Answers(w.me, b.directory.server, commands))
  {
    hide *;
    ServerIsSound(b);
    if commands == [] {
      NothingHeard(w, b);
      AnswersNone(w.me, b.directory.server);
      assert b.outs + [] == b.outs;
    } else {
      var before, c := commands[..|commands| - 1], commands[|commands| - 1];
      assert commands == before + [c];
      HeardAnswers(w, b, before);
      HeardOneMore(w, b, before, c);
      AnswersOneMore(w.me, b.directory.server, before, c);
      HearOne(w, b, b.(outs := b.outs + Answers(w.me, b.directory.server, before)), c);
    }
  }

  lemma ServerIsSound(b: Bridge)
    requires Sound(b)
    ensures ServerModel.Consistent(b.directory.server)
  {
    hide AllWellNamed;
  }

  /** What the connection heard in one go: all that it answered, and perhaps one command for the bridge at the end. */
  lemma HeardAtOnce(w: Setting, b: Bridge, heard: seq<IrcCommand>, passed: bool)
    requires Sound(b) && !b.first && (passed ==> heard != [])
    requires forall i :: 0 <= i < |heard| ==>
      (AnswerTo(w.me, b.directory.server, heard[i]).passed <==> passed && i == |heard| - 1)
    ensures var answered := b.(outs := b.outs + Answers(w.me, b.directory.server, heard));
      Run(w, b, Heards(heard)) == if passed then Bridging.Pass(w, answered, heard[|heard| - 1]) else answered
  {
    ServerIsSound(b);
    hide *;
    if passed {
      var before, c := heard[..|heard| - 1], heard[|heard| - 1];
      assert heard == before + [c];
      assert forall i :: 0 <= i < |before| ==> before[i] == heard[i];
      HeardAnswers(w, b, before);
      HeardOneMore(w, b, before, c);
      AnswersOneMore(w.me, b.directory.server, before, c);
      HearOne(w, b, b.(outs := b.outs + Answers(w.me, b.directory.server, before)), c);
      Regroup(b.outs, Answers(w.me, b.directory.server, before), AnswerTo(w.me, b.directory.server, c).outs);
    } else {
      HeardAnswers(w, b, heard);
    }
  }

  lemma HearOne(w: Setting, b: Bridge, mid: Bridge, c: IrcCommand)
    requires Sound(b) && !b.first && mid == b.(outs := mid.outs)
    ensures Sound(mid)
    ensures var answer := AnswerTo(w.me, b.directory.server, c);
      var answered := mid.(outs := mid.outs + answer.outs);
      Hear(w, mid, c) == if answer.passed then Bridging.Pass(w, answered, c) else answered
  {
    hide AnswerTo, AllWellNamed, Bridging.Pass;
  }

  lemma {:induction false} HeardMore(w: Setting, b: Bridge, commands: seq<IrcCommand>, more: seq<IrcCommand>)
    requires Sound(b)
    ensures Run(w, Run(w, b, Heards(commands)), Heards(more)) == Run(w, b, Heards(commands + more))
  {
    hide Sound, Hear, Run;
    if more == [] {
      assert commands + more == commands;
      NothingHeard(w, Run(w, b, Heards(commands)));
    } else {
      var front, c := more[..|more| - 1], more[|more| - 1];
      HeardMore(w, b, commands, front);
      HeardOneMore(w, b, commands + front, c);
      HeardOneMore(w, Run(w, b, Heards(commands)), front, c);
      assert more == front + [c] && commands + more == commands + front + [c];
    }
  }

  lemma NothingHeard(w: Setting, b: Bridge)
    requires Sound(b)
    ensures Run(w, b, Heards([])) == b
  {
    hide Sound;
  }

  lemma KnownInOrder(b: Bridge, join: map<string, RoomSync>)
    requires forall id :: id in join ==> id in b.rooms
    ensures AllKnown(b, Ordered.Keys(join.Keys), join)
  {
    var order := Ordered.Keys(join.Keys);
    hide Ordered.Keys;
    forall i | 0 <= i < |order|
      ensures order[i] in join
    {
      assert order[i] in order;
    }
  }

  lemma NextHandled(w: Setting, b: Bridge, order: seq<string>, i: nat, join: map<string, RoomSync>)
    requires Sound(b) && AllKnown(b, order, join) && i < |order|
    ensures AllKnown(b, order[..i], join) && AllKnown(b, order[..i + 1], join) && order[i] in b.rooms &&
      order[i] in join
    ensures HandleRooms(w, b, order[..i + 1], join) ==
      HandleRoom(w, HandleRooms(w, b, order[..i], join), order[i], join[order[i]])
  {
    hide Sound, HandleRoom;
    assert order[..i + 1][..i] == order[..i];
  }

  lemma TakenIsSound(b: Bridge, join: map<string, RoomSync>)
    requires Sound(b) && AllValid(join)
    ensures Sound(b.(rooms := Absorb(b.rooms, join))) && Absorb(b.rooms, join).Keys == b.rooms.Keys + join.Keys
  {
    hide Mapping.Consistent, Absorb, AllWellNamed;
    AbsorbKeeps(b.rooms, join);
  }

  lemma KeysStay(join: map<string, RoomSync>)
    ensures Cleaned(join).Keys == join.Keys
  {
  }

  lemma ReplyIsSound(b: Bridge, asked: string, roomId: string)
    requires Sound(b)
    ensures Sound(Reply(b, asked, roomId))
  {
    hide Mapping.Consistent, AllWellNamed;
  }

  lemma GreetIs(w: Setting, b: Bridge, join: map<string, RoomSync>)
    requires Sound(b) && AllValid(join)
    ensures Greet(w, b, join) == b.(rooms := Absorb(b.rooms, join), outs := b.outs + Greeting(w, b))
  {
    hide Sound, Absorb, Greeting, AllValid;
  }

  /** After a command there is less left to read. */
  ghost predicate UsedUp(r: StreamPoll, script: seq<ReadEvent>, later: seq<ReadEvent>, buffer: bytes,
                         laterBuffer: bytes) {
    r.Item? ==> IrcLines.Weight(later) < IrcLines.Weight(script) || (later == script && |laterBuffer| < |buffer|)
  }

  class Session {
    const w: Setting
    const irc: IrcUserConnection
    const matrix: MatrixSession
    const mappings: Mappings
    var closed: bool
    var isFirstSync: bool
    var joiningMap: map<string, string>
    var asks: seq<string>
    var sent: seq<Send>

    ghost function View(): Bridge
      reads this`joiningMap, this`isFirstSync, this`asks, this`sent, irc, irc.serverModel, matrix, matrix.rooms.Values,
        mappings
    {
      Bridge(mappings.View(irc.serverModel.View()), matrix.View(), joiningMap, isFirstSync, irc.outs, asks, sent)
    }

    ghost predicate Sane()
      reads irc, irc.conn, irc.conn.conn, matrix
    {
      irc.Valid() && matrix.Valid() && w.me == irc.me
    }

    ghost predicate Valid()
      reads this`joiningMap, this`isFirstSync, this`asks, this`sent, irc, irc.conn, irc.conn.conn, irc.serverModel
      reads matrix, matrix.rooms.Values, mappings
    {
      Sane() && Sound(View())
    }

    /** After both logins; the user's own nick is the first to be known. */
    constructor Create(w: Setting, irc: IrcUserConnection, userId: string)
      requires irc.Valid() && irc.me == w.me && irc.outs == [] && irc.serverModel.View() == ServerModel.EMPTY
      modifies irc.serverModel
      ensures Valid() && !closed && this.w == w && this.irc == irc && View() == Created(irc.me.nick, userId)
    {
      this.w, this.irc := w, irc;
      matrix := new MatrixSession(userId);
      mappings := new Mappings();
      closed, isFirstSync, joiningMap, asks, sent := false, true, map[], [], [];
      new;
      mappings.InsertNick(irc, irc.me.nick, userId);
      CreatedIsSound(irc.me.nick, userId);
    }

    // ---- Syncs ----------------------------------------------------------------------------------------------

    /** Passes on one event, if there is something in it to pass on. */
    method HandleEvent(channel: string, ev: Event)
      requires irc.Valid()
      modifies irc`outs, irc.conn, irc.conn.conn
      ensures irc.OnlySaid(EventOuts(w, mappings.matrixUidToNick, channel, ev))
    {
      if ev.etype == "m.room.message" {
        var sender := mappings.GetNickFromMatrix(ev.sender);
        if sender.None? {
          return;
        }
        var body, msgtype := ev.content.GetStr("body"), ev.content.GetStr("msgtype");
        if body.None? || msgtype.None? {
          return;
        }
        if msgtype.value == "m.text" {
          irc.SendMessage(channel, sender.value, body.value);
        } else if msgtype.value == "m.emote" {
          irc.SendAction(channel, sender.value, body.value);
        } else if IsMedia(msgtype.value) {
          var url := ev.content.GetStr("url");
          if url.Some? {
            irc.SendMessage(channel, sender.value, w.mediaUrl(url.value));
          }
        } else {
          irc.SendMessage(channel, sender.value, body.value);
        }
      }
    }

    method HandleTimeline(channel: string, events: seq<Event>)
      requires Sane()
      modifies irc`outs, irc.conn, irc.conn.conn
      ensures Sane() && View() ==
        old(View()).(outs := old(View()).outs + TimelineOuts(w, old(View()).directory.uidToNick, channel, events))
    {
      hide EventOuts, IrcServerConnection.Valid, Wire;
      for i := 0 to |events|
        invariant irc.OnlySaid(TimelineOuts(w, mappings.matrixUidToNick, channel, events[..i]))
      {
        TimelineOneMore(w, mappings.matrixUidToNick, channel, events[..i], events[i]);
        assert events[..i + 1] == events[..i] + [events[i]];
        HandleEvent(channel, events[i]);
      }
      assert events[..|events|] == events;
    }

    /** Tells whoever asked for the room under another name. */
    method AnswerJoin(roomId: string, channel: string)
      requires Sane()
      modifies this`joiningMap, irc`outs, irc.conn, irc.conn.conn
      ensures Sane()
      ensures View() == old(View()).(joining := old(View()).joining - {roomId},
                                     outs := old(View()).outs + Redirect(old(View()).joining, roomId, channel))
    {
      hide IrcServerConnection.Valid, Wire;
      if roomId in joiningMap {
        var attempt := joiningMap[roomId];
        joiningMap := joiningMap - {roomId};
        if attempt != channel {
          irc.WriteRedirectJoin(attempt, channel);
        }
      } else {
        assert joiningMap - {roomId} == joiningMap;
        assert irc.outs + [] == irc.outs;
      }
    }

    /** Finds or opens the channel of a room. */
    method OpenRoom(roomId: string) returns (channel: string, ghost opening: seq<Out>)
      requires Sane() && roomId in matrix.rooms && Mapping.Consistent(View().directory)
      modifies irc`outs, irc.conn, irc.conn.conn, irc.serverModel, mappings
      ensures Sane()
      ensures var before := old(View());
        var o := Mapping.GetChannel(before.directory, before.rooms[roomId]);
        && o.channel == channel && channel in o.directory.server.channels
        && opening == (if o.isNew then JoinOuts(w.me, o.directory.server, channel) else [])
        && View() == before.(directory := o.directory, outs := before.outs + opening)
    {
      hide Mapping.GetChannel, JoinOuts, IrcServerConnection.Valid, Wire, Mapping.Consistent;
      var room := matrix.rooms[roomId];
      ghost var before := View();
      var isNew;
      channel, isNew := mappings.CreateOrGetChannelNameFromMatrix(irc, room);
      opening := if isNew then JoinOuts(irc.me, irc.serverModel.View(), channel) else [];
      assert matrix.View() == before.rooms;
    }

    method HandleRoomSync(roomId: string, sync: RoomSync)
      requires Valid() && roomId in matrix.rooms
      modifies this`joiningMap, irc`outs, irc.conn, irc.conn.conn, irc.serverModel, mappings
      ensures Valid() && View() == HandleRoom(w, old(View()), roomId, sync)
    {
      assert roomId in View().rooms;
      HandleRoomIs(w, View(), roomId, sync);
      hide View, Sane, HandleRoom, Mapping.GetChannel, JoinOuts, TimelineOuts, Mapping.Consistent, Sound, Redirect;
      var channel, opening := OpenRoom(roomId);
      AnswerJoin(roomId, channel);
      HandleTimeline(channel, sync.timeline);
    }

    /** The client is welcomed the first time; then the rooms follow, in the order of their identifiers. */
    method HandleSyncResponse(response: SyncResponse)
      requires Valid() && forall id :: id in response.join ==> id in matrix.rooms
      modifies this`joiningMap, this`isFirstSync, irc`outs, irc.conn, irc.conn.conn, irc.serverModel, mappings
      ensures var order := Ordered.Keys(response.join.Keys);
        && Sound(Greeted(old(View()))) && AllKnown(Greeted(old(View())), order, response.join)
        && View() == HandleRooms(w, Greeted(old(View())), order, response.join).(first := false)
      ensures Valid()
    {
      Welcome();
      HandleAll(response.join);
      Finish();
    }

    method HandleAll(join: map<string, RoomSync>)
      requires Valid() && forall id :: id in join ==> id in matrix.rooms
      modifies this`joiningMap, irc`outs, irc.conn, irc.conn.conn, irc.serverModel, mappings
      ensures var order := Ordered.Keys(join.Keys);
        AllKnown(old(View()), order, join) && View() == HandleRooms(w, old(View()), order, join)
      ensures Valid()
    {
      ghost var start := View();
      var order := Ordered.Keys(join.Keys);
      hide *;
      ReadyFor(join);
      NoRoom(w, start, join);
      assert order[..0] == [];
      for i := 0 to |order|
        invariant Valid() && AllKnown(start, order[..i], join) && View() == HandleRooms(w, start, order[..i], join)
      {
        HandleNext(order, i, join, start);
      }
      assert order[..|order|] == order;
    }

    lemma ReadyFor(join: map<string, RoomSync>)
      requires Valid() && forall id :: id in join ==> id in matrix.rooms
      ensures Sound(View()) && AllKnown(View(), Ordered.Keys(join.Keys), join)
      ensures forall i :: 0 <= i < |join.Keys| ==>
        Ordered.Keys(join.Keys)[i] in matrix.rooms && Ordered.Keys(join.Keys)[i] in join
    {
      hide Sound, Sane;
      assert View().rooms.Keys == matrix.rooms.Keys;
      KnownInOrder(View(), join);
    }

    method HandleNext(order: seq<string>, i: nat, join: map<string, RoomSync>, ghost start: Bridge)
      requires Valid() && Sound(start) && AllKnown(start, order, join) && i < |order| && order[i] in matrix.rooms &&
        order[i] in join
      requires AllKnown(start, order[..i], join) && View() == HandleRooms(w, start, order[..i], join)
      modifies this`joiningMap, irc`outs, irc.conn, irc.conn.conn, irc.serverModel, mappings
      ensures Valid() && AllKnown(start, order[..i + 1], join) && View() == HandleRooms(w, start, order[..i + 1], join)
    {
      hide *;
      NextHandled(w, start, order, i, join);
      HandleRoomSync(order[i], join[order[i]]);
    }

    ghost function Greeted(b: Bridge): Bridge {
      b.(outs := b.outs + Greeting(w, b))
    }

    lemma GreetedIsSound(b: Bridge)
      requires Sound(b)
      ensures Sound(Greeted(b))
    {
      hide Mapping.Consistent, AllWellNamed;
    }

    /** Welcomes the client, if this is the first sync. */
    method Welcome()
      requires Valid()
      modifies irc`outs, irc.conn, irc.conn.conn
      ensures Valid() && View() == Greeted(old(View())) && Sound(Greeted(old(View())))
    {
      ghost var before := View();
      GreetedIsSound(before);
      hide Sound, IrcServerConnection.Valid, Wire, WelcomeOuts, MatrixSession.View, MatrixSession.Valid;
      if isFirstSync {
        irc.Welcome();
        irc.SendPing("HELLO");
        assert "PING " + "HELLO" == "PING HELLO";
        assert irc.outs == before.outs + (WelcomeOuts(w.me) + [Plain("PING HELLO")]);
      } else {
        assert before.outs + [] == before.outs;
      }
      assert View() == Greeted(before);
    }

    method Finish()
      requires Valid()
      modifies this`isFirstSync
      ensures Valid() && View() == old(View()).(first := false)
    {
      hide Mapping.Consistent, AllWellNamed, IrcServerConnection.Valid, Wire;
      isFirstSync := false;
    }

    /** A response of the sync loop: the Matrix side takes it in, and then it is handled. */
    method PollMatrix(response: SyncResponse)
      requires Valid() && AllValid(response.join)
      modifies this`joiningMap, this`isFirstSync, irc`outs, irc.conn, irc.conn.conn, irc.serverModel, matrix`rooms,
        matrix.rooms.Values, mappings
      ensures Valid() && View() == Sync(w, old(View()), response)
    {
      ghost var before := View();
      SyncIs(w, before, response);
      GreetIs(w, before, Cleaned(response.join));
      hide Sound, Sync, HandleRooms, Greet, Cleaned, Absorb, AllKnown, Ordered.Keys, Greeting,
        IrcServerConnection.Valid, Wire;
      var cleaned := TakeResponse(response);
      HandleSyncResponse(cleaned);
    }

    /** What the Matrix side does with a response. */
    method TakeIn(response: SyncResponse) returns (cleaned: SyncResponse)
      requires Sane() && AllValid(response.join)
      modifies matrix`rooms, matrix.rooms.Values
      ensures Sane() && AllValid(Cleaned(response.join)) && cleaned == response.(join := Cleaned(response.join))
      ensures View() == old(View()).(rooms := Absorb(old(View()).rooms, cleaned.join))
      ensures forall r :: r in matrix.rooms.Values ==> r in old(matrix.rooms.Values) || fresh(r)
    {
      CleanedIsValid(response.join);
      hide Cleaned, IrcUserConnection.Valid, Absorb, Mappings.View, ServerModel.ServerState.View, AllValid;
      cleaned := matrix.TakeResponse(response);
    }

    /** The same, before it is passed on: every room that it mentions is known then. */
    method TakeResponse(response: SyncResponse) returns (cleaned: SyncResponse)
      requires Valid() && AllValid(response.join)
      modifies matrix`rooms, matrix.rooms.Values
      ensures Valid() && cleaned == response.(join := Cleaned(response.join)) && cleaned.join.Keys == response.join.Keys
      ensures AllValid(cleaned.join) && View() == old(View()).(rooms := Absorb(old(View()).rooms, cleaned.join))
      ensures forall id :: id in cleaned.join ==> id in matrix.rooms
      ensures forall r :: r in matrix.rooms.Values ==> r in old(matrix.rooms.Values) || fresh(r)
    {
      hide *;
      SaneAndSound();
      CleanedIsValid(response.join);
      TakenIsSound(View(), Cleaned(response.join));
      KeysStay(response.join);
      cleaned := TakeIn(response);
      SaneAndSound();
      RoomsInView();
    }

    lemma SaneAndSound()
      ensures Valid() <==> Sane() && Sound(View())
    {
    }

    lemma RoomsInView()
      ensures matrix.rooms.Keys == View().rooms.Keys
    {
    }

    // ---- Answers to joins -----------------------------------------------------------------------------------

    /** The answer to a join: the room is redirected to, or waited for. */
    method JoinReplied(asked: string, roomId: string)
      requires Valid()
      modifies this`joiningMap, irc`outs, irc.conn, irc.conn.conn
      ensures Valid() && View() == Reply(old(View()), asked, roomId)
    {
      hide View, Sane, Sound, Reply;
      ReplyIsSound(View(), asked, roomId);
      RedirectOrWait(asked, roomId);
    }

    method RedirectOrWait(asked: string, roomId: string)
      requires Sane()
      modifies this`joiningMap, irc`outs, irc.conn, irc.conn.conn
      ensures Sane() && View() == Reply(old(View()), asked, roomId)
    {
      hide IrcServerConnection.Valid, Wire;
      var mapped := mappings.RoomIdToChannel(roomId);
      if mapped.Some? {
        if mapped.value != asked {
          irc.WriteRedirectJoin(asked, mapped.value);
        }
      } else {
        joiningMap := joiningMap[roomId := asked];
      }
    }

    // ---- Commands -------------------------------------------------------------------------------------------

    /** A command that the connection did not answer. */
    method HandleIrcCmd(c: IrcCommand)
      requires Sane()
      modifies this`asks, this`sent, irc`outs, irc.conn, irc.conn.conn
      ensures Sane() && View() == Bridging.Pass(w, old(View()), c)
      ensures irc.conn.readBuffer == old(irc.conn.readBuffer) && irc.conn.conn.script == old(irc.conn.conn.script)
      ensures irc.conn.closed == old(irc.conn.closed)
      ensures IrcLines.Fails(irc.conn.conn.writes) ==> old(IrcLines.Fails(irc.conn.conn.writes))
    {
      hide IrcServerConnection.Valid, Wire, NumericLine, MatrixSession.View, MatrixSession.Valid;
      match c
      case PrivMsgCmd(channel, text) =>
        var roomId := mappings.ChannelToRoomId(channel);
        if roomId.Some? {
          sent := sent + [Inbound(roomId.value, text)];
        }
      case JoinCmd(channel) =>
        asks := asks + [channel];
      case AwayCmd(message) =>
        SayAway(message);
      case _ =>
    }

    method SayAway(message: string)
      requires irc.Valid()
      modifies irc`outs, irc.conn, irc.conn.conn
      ensures irc.OnlySaid([AwayOut(irc.me, message)])
    {
      if message == "" {
        irc.Numeric("305", irc.me.nick, "Welcome back");
      } else {
        irc.Numeric("306", irc.me.nick, "You are now away");
      }
    }

    /** All that the client has sent and that has arrived. */
    ghost function WhatIsThere(): IrcLines.Reading
      reads irc.conn, irc.conn.conn
    {
      IrcLines.Audible(irc.conn.readBuffer, irc.conn.conn.script, irc.conn.conn.ending)
    }

    /** Lets the connection answer what it can. */
    method PollConnection() returns (r: StreamPoll, ghost heard: seq<IrcCommand>)
      requires Sane() && ServerModel.Consistent(View().directory.server)
      modifies irc`outs, irc.conn, irc.conn.conn
      ensures Sane() &&
        View() == old(View()).(outs := old(View()).outs + Answers(w.me, old(View()).directory.server, heard))
      ensures r.Item? ==> heard != [] && r.command == heard[|heard| - 1] && irc.conn.closed == old(irc.conn.closed)
      ensures forall i :: 0 <= i < |heard| ==>
        (AnswerTo(w.me, old(View()).directory.server, heard[i]).passed <==> r.Item? && i == |heard| - 1)
      ensures old(irc.conn.closed) ==> r.EndOfItems? && heard == []
      ensures !old(irc.conn.closed) && !r.WriteStopped? ==>
        old(AllHeard()) == Polling(r, heard, irc.conn.readBuffer, irc.conn.conn.script)
      ensures !old(irc.conn.closed) ==> heard <= old(AllHeard()).heard
      ensures r.WriteStopped? ==> old(IrcLines.Fails(irc.conn.conn.writes))
      ensures IrcLines.Fails(irc.conn.conn.writes) ==> old(IrcLines.Fails(irc.conn.conn.writes))
    {
      hide AnswerTo, Answers, PollUser, IrcServerConnection.Valid, Wire, ServerModel.Consistent, IrcLines.Fails;
      r, heard := irc.Poll();
    }

    /** What polling the connection will come to, if it can be written to. */
    ghost function AllHeard(): Polling
      reads this`joiningMap, this`isFirstSync, this`asks, this`sent, irc, irc.serverModel, matrix, matrix.rooms.Values,
        mappings
      reads irc.conn, irc.conn.conn
      requires ServerModel.Consistent(View().directory.server)
    {
      PollUser(w.me, View().directory.server, irc.conn.readBuffer, irc.conn.conn.script, irc.conn.conn.ending)
    }

    lemma AllHeardIs()
      requires ServerModel.Consistent(View().directory.server)
      ensures AllHeard() ==
        PollUser(w.me, View().directory.server, irc.conn.readBuffer, irc.conn.conn.script, irc.conn.conn.ending)
      ensures WhatIsThere() == IrcLines.Audible(irc.conn.readBuffer, irc.conn.conn.script, irc.conn.conn.ending)
    {
      hide PollUser, View;
    }

    /** Lets the connection answer what it can and handles the first command that is left. */
    method HearNext() returns (r: StreamPoll, ghost heard: seq<IrcCommand>)
      requires Valid() && !isFirstSync
      modifies this`asks, this`sent, irc`outs, irc.conn, irc.conn.conn
      ensures Valid() && View() == Run(w, old(View()), Heards(heard))
      ensures UsedUp(r, old(irc.conn.conn.script), irc.conn.conn.script, old(irc.conn.readBuffer), irc.conn.readBuffer)
      ensures old(irc.conn.closed) ==> r.EndOfItems? && heard == []
      ensures !old(irc.conn.closed) && !r.WriteStopped? ==>
        && ServerModel.Consistent(old(View()).directory.server)
        && old(AllHeard()) == Polling(r, heard, irc.conn.readBuffer, irc.conn.conn.script)
      ensures !old(irc.conn.closed) ==>
        HearsAll(r, heard, old(WhatIsThere()), old(IrcLines.AfterBlock(irc.conn.conn.script)),
                 irc.conn.readBuffer, irc.conn.conn.script, irc.conn.conn.ending)
      ensures r.WriteStopped? ==> old(IrcLines.Fails(irc.conn.conn.writes))
      ensures IrcLines.Fails(irc.conn.conn.writes) ==> old(IrcLines.Fails(irc.conn.conn.writes))
      ensures r.Item? ==> irc.conn.closed == old(irc.conn.closed)
    {
      assert !View().first;
      ghost var buffer, script, ending := irc.conn.readBuffer, irc.conn.conn.script, irc.conn.conn.ending;
      ghost var before, wasClosed := View(), irc.conn.closed;
      hide *;
      SoundView();
      ServerIsSound(before);
      AllHeardIs();
      ghost var all, whole := AllHeard(), WhatIsThere();
      UserHears(w.me, before.directory.server, buffer, script, ending);
      HearingUsesUp(w.me, before.directory.server, buffer, script, ending);
      r, heard := Answer(before);
      if !wasClosed {
        Heeded(r, heard, all, whole, buffer, script, irc.conn.readBuffer, irc.conn.conn.script, ending);
      } else {
        NothingUsedUp(r, script, irc.conn.conn.script, buffer, irc.conn.readBuffer);
      }
    }

    method Answer(ghost before: Bridge) returns (r: StreamPoll, ghost heard: seq<IrcCommand>)
      requires Valid() && before == View() && !before.first
      modifies this`asks, this`sent, irc`outs, irc.conn, irc.conn.conn
      ensures Valid() && View() == Run(w, before, Heards(heard))
      ensures ServerModel.Consistent(before.directory.server)
      ensures old(irc.conn.closed) ==> r.EndOfItems? && heard == []
      ensures !old(irc.conn.closed) && !r.WriteStopped? ==>
        old(AllHeard()) == Polling(r, heard, irc.conn.readBuffer, irc.conn.conn.script)
      ensures !old(irc.conn.closed) ==> heard <= old(AllHeard()).heard
      ensures r.WriteStopped? ==> old(IrcLines.Fails(irc.conn.conn.writes))
      ensures IrcLines.Fails(irc.conn.conn.writes) ==> old(IrcLines.Fails(irc.conn.conn.writes))
      ensures r.Item? ==> irc.conn.closed == old(irc.conn.closed)
    {
      hide View, Sane, Sound, Run, AnswerTo, Answers, PollUser, AllHeard, ServerModel.Consistent, Bridging.Pass,
        IrcLines.Fails;
      ServerIsSound(before);
      r, heard := PollConnection();
      HeardAtOnce(w, before, heard, r.Item?);
      if r.Item? {
        HandleIrcCmd(r.command);
      }
    }

    lemma SoundView()
      requires Valid()
      ensures Sound(View())
    {
      hide Sound;
    }

    /** Nothing is heard before the first sync. From then on a poll hears exactly the commands in what has arrived from
      * the client, in order, and stops at the first read that blocks, at the end of the stream or where it cannot be
      * read on; unless the connection fails while it is being written to, and then it has heard the first of them. */
    method PollIrc() returns (r: StreamPoll, ghost heard: seq<IrcCommand>)
      requires Valid()
      modifies this`asks, this`sent, this`closed, irc`outs, irc.conn, irc.conn.conn
      ensures Valid() && View() == Run(w, old(View()), Heards(heard))
      ensures old(isFirstSync) ==> r.NothingYet? && heard == [] && unchanged(irc.conn) && unchanged(irc.conn.conn)
      ensures !r.Item? && closed == (old(closed) || (r.EndOfItems? && !old(isFirstSync)))
      ensures !old(isFirstSync) && old(irc.conn.closed) ==> r.EndOfItems? && heard == []
      ensures !old(isFirstSync) && !old(irc.conn.closed) ==>
        HearsAll(r, heard, old(WhatIsThere()), old(IrcLines.AfterBlock(irc.conn.conn.script)),
                 irc.conn.readBuffer, irc.conn.conn.script, irc.conn.conn.ending)
      ensures r.WriteStopped? ==> old(IrcLines.Fails(irc.conn.conn.writes))
    {
      hide View, Valid, Sound, Run, Heards, PollUser, IrcLines.Weight, ServerModel.Consistent;
      hide IrcLines.Audible, IrcLines.AfterBlock, IrcLines.Fails;
      heard := [];
      SoundView();
      NothingHeard(w, View());
      if isFirstSync {
        return NothingYet, [];
      }
      ghost var whole, after, wasClosed := WhatIsThere(), IrcLines.AfterBlock(irc.conn.conn.script), irc.conn.closed;
      while true
        invariant Valid() && !isFirstSync && closed == old(closed) && View() == Run(w, old(View()), Heards(heard))
        invariant irc.conn.closed == wasClosed && (wasClosed ==> heard == [])
        invariant !wasClosed ==> whole == WhatIsThere().(commands := heard + WhatIsThere().commands)
        invariant IrcLines.AfterBlock(irc.conn.conn.script) == after
        invariant IrcLines.Fails(irc.conn.conn.writes) ==> old(IrcLines.Fails(irc.conn.conn.writes))
        decreases IrcLines.Weight(irc.conn.conn.script), |irc.conn.readBuffer|
      {
        ghost var there, before, more := WhatIsThere(), heard, [];
        r, more := HearNext();
        HeardMore(w, old(View()), before, more);
        heard := before + more;
        if !wasClosed {
          HearsMore(r, before, more, whole, there, after, irc.conn.readBuffer, irc.conn.conn.script,
                    irc.conn.conn.ending);
        }
        if r.EndOfItems? {
          closed := true;
        }
        if !r.Item? {
          return;
        }
      }
    }
  }

  /** From what a poll would come to, to what this one heard. */
  lemma Heeded(r: StreamPoll, heard: seq<IrcCommand>, all: Polling, whole: IrcLines.Reading, buffer: bytes,
               script: seq<ReadEvent>, laterBuffer: bytes, later: seq<ReadEvent>, ending: Ending)
    requires heard <= all.heard <= whole.commands
    requires !r.WriteStopped? ==> all == Polling(r, heard, laterBuffer, later)
    requires HearsAll(all.poll, all.heard, whole, IrcLines.AfterBlock(script), all.buffer, all.script, ending)
    requires all.poll.Item? ==>
      IrcLines.Weight(all.script) < IrcLines.Weight(script) || (all.script == script && |all.buffer| < |buffer|)
    ensures HearsAll(r, heard, whole, IrcLines.AfterBlock(script), laterBuffer, later, ending)
    ensures UsedUp(r, script, later, buffer, laterBuffer)
  {
    if r.WriteStopped? {
      HeardTheFirst(heard, all.heard, whole, IrcLines.AfterBlock(script), laterBuffer, later, ending);
    }
  }

  lemma NothingUsedUp(r: StreamPoll, script: seq<ReadEvent>, later: seq<ReadEvent>, buffer: bytes, laterBuffer: bytes)
    requires !r.Item?
    ensures UsedUp(r, script, later, buffer, laterBuffer)
  {
  }

  lemma HeardTheFirst(heard: seq<IrcCommand>, all: seq<IrcCommand>, whole: IrcLines.Reading, after: seq<ReadEvent>,
                      buffer: bytes, script: seq<ReadEvent>, ending: Ending)
    requires heard <= all <= whole.commands
    ensures HearsAll(WriteStopped, heard, whole, after, buffer, script, ending)
  {
  }

  /** Hearing on, from where a poll stopped. */
  lemma HearsMore(r: StreamPoll, heard: seq<IrcCommand>, more: seq<IrcCommand>, whole: IrcLines.Reading,
                  rest: IrcLines.Reading, after: seq<ReadEvent>, buffer: bytes, script: seq<ReadEvent>, ending: Ending)
    requires whole == rest.(commands := heard + rest.commands) && HearsAll(r, more, rest, after, buffer, script, ending)
    ensures HearsAll(r, heard + more, whole, after, buffer, script, ending)
  {
    hide IrcLines.Audible, IrcLines.AfterBlock;
    if r.Item? {
      var later := IrcLines.Audible(buffer, script, ending);
      assert heard + (more + later.commands) == heard + more + later.commands;
    } else if r.WriteStopped? {
      assert heard + more <= heard + rest.commands;
    }
  }
}
