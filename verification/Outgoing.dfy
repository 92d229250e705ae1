/** What the IRC client says that goes on to Matrix: over any run, which messages are sent and which rooms are asked
  * for. */
module Outgoing {
  import opened MatrixEvents
  import opened Mapping
  import opened IrcCommands
  import opened IrcSession
  import opened MatrixClient
  import opened Timeline
  import opened Bridging
  import opened ChannelLines
  import opened BridgeRuns
  import Ordered

  // ---- In the words of the client ---------------------------------------------------------------------------

  /** Something said in the channel of a room. */
  datatype Told = Told(roomId: string, text: string)

  /** The channel of a room that has been mentioned. */
  predicate IsOpen(d: Directory, before: seq<Action>, channel: string) {
    channel in d.channelToRoom && Mentioned(before, d.channelToRoom[channel])
  }

  predicate HasSynced(actions: seq<Action>) {
    exists i :: 0 <= i < |actions| && actions[i].Synced?
  }

  function ToldBy(d: Directory, before: seq<Action>, a: Action): seq<Told> {
    if a.Heard? && a.command.PrivMsgCmd? && IsOpen(d, before, a.command.channel) then
      [Told(d.channelToRoom[a.command.channel], a.command.text)]
    else []
  }

  function AskedBy(d: Directory, before: seq<Action>, a: Action): seq<string> {
    if a.Heard? && a.command.JoinCmd? && HasSynced(before) && !IsOpen(d, before, a.command.channel) then
      [a.command.channel]
    else []
  }

  /** All that was said in open channels, in order. */
  function AllTold(d: Directory, actions: seq<Action>): seq<Told> {
    if actions == [] then []
    else
      var before := actions[..|actions| - 1];
      AllTold(d, before) + ToldBy(d, before, actions[|actions| - 1])
  }

  /** All channels that were to be joined and were not open, in order. */
  function AllAsked(d: Directory, actions: seq<Action>): seq<string> {
    if actions == [] then []
    else
      var before := actions[..|actions| - 1];
      AllAsked(d, before) + AskedBy(d, before, actions[|actions| - 1])
  }

  /** What has to be sent for it: an action without its wrapping, as an emote, and anything else as it is. */
  ghost predicate IsFor(send: Send, told: Told) {
    && send.roomId == told.roomId
    && if send.msgtype == "m.emote" then told.text == "\U{01}ACTION" + send.body + "\U{01}"
       else send.msgtype == "m.text" && send.body == told.text
              && forall inner: string :: told.text != "\U{01}ACTION" + inner + "\U{01}"
  }

  ghost predicate AreFor(sent: seq<Send>, told: seq<Told>) {
    |sent| == |told| && forall i :: 0 <= i < |sent| ==> IsFor(sent[i], told[i])
  }

  /** There is only one way to send something. */
  lemma OneWayToSend(a: Send, b: Send, told: Told)
    requires IsFor(a, told) && IsFor(b, told)
    ensures a == b
  {
    if a.msgtype == b.msgtype == "m.emote" {
      assert a.body == told.text[7..|told.text| - 1] == b.body;
    }
  }

  lemma InboundIs(roomId: string, text: string)
    ensures var send := Inbound(roomId, text);
      && send.roomId == roomId
      && if |text| > 7 && text[..7] == "\U{01}ACTION" && text[|text| - 1] == '\U{01}' then
           send.msgtype == "m.emote" && send.body == text[7..|text| - 1]
         else send.msgtype == "m.text" && send.body == text
  {
    assert |SOH + "ACTION"| == 7 && SOH + "ACTION" == "\U{01}ACTION";
  }

  lemma InboundIsFor(roomId: string, text: string)
    ensures IsFor(Inbound(roomId, text), Told(roomId, text))
  {
    var send := Inbound(roomId, text);
    hide Inbound;
    InboundIs(roomId, text);
    var start, end := "\U{01}ACTION", "\U{01}";
    if send.msgtype == "m.emote" {
      assert text == text[..7] + text[7..|text| - 1] + text[|text| - 1..];
    } else {
      forall inner: string
        ensures text != start + inner + end
      {
        var whole := start + inner + end;
        assert whole[..7] == start && whole[|whole| - 1] == end[0] && |whole| > 7;
      }
    }
  }

  lemma AreForMore(sent: seq<Send>, told: seq<Told>, send: Send, one: Told)
    requires AreFor(sent, told) && IsFor(send, one)
    ensures AreFor(sent + [send], told + [one])
  {
    hide IsFor;
  }

  // ---- In every run -----------------------------------------------------------------------------------------

  lemma {:induction false} RoomsSendNothing(w: Setting, b: Bridge, order: seq<string>, join: map<string, RoomSync>)
    requires Sound(b) && AllKnown(b, order, join)
    ensures var r := HandleRooms(w, b, order, join); r.sent == b.sent && r.asks == b.asks
  {
    hide *;
    if order == [] {
      NoRoom(w, b, join);
    } else {
      var before, last := order[..|order| - 1], order[|order| - 1];
      LastRoom(w, b, order, join);
      RoomsSendNothing(w, b, before, join);
      HandleRoomIs(w, HandleRooms(w, b, before, join), last, join[last]);
    }
  }

  lemma GreetSendsNothing(w: Setting, b: Bridge, join: map<string, RoomSync>)
    requires Sound(b) && AllValid(join)
    ensures var r := Greet(w, b, join); r.sent == b.sent && r.asks == b.asks
  {
    hide Sound, Absorb, Greeting, AllValid;
  }

  lemma SyncSendsNothing(w: Setting, b: Bridge, response: SyncResponse)
    requires Sound(b) && AllValid(response.join)
    ensures var r := Sync(w, b, response); r.sent == b.sent && r.asks == b.asks && !r.first
  {
    hide *;
    SyncIs(w, b, response);
    GreetSendsNothing(w, b, Cleaned(response.join));
    RoomsSendNothing(w, Greet(w, b, Cleaned(response.join)), Ordered.Keys(response.join.Keys), Cleaned(response.join));
  }

  lemma HearSends(w: Setting, b: Bridge, c: IrcCommand)
    requires Sound(b)
    ensures var r := Hear(w, b, c);
      && r.first == b.first
      && r.sent == b.sent + (if !b.first && c.PrivMsgCmd? && c.channel in b.directory.channelToRoom then
                               [Inbound(b.directory.channelToRoom[c.channel], c.text)] else [])
      && r.asks ==
        b.asks + (if !b.first && c.JoinCmd? && c.channel !in b.directory.channelToRoom then [c.channel] else [])
  {
    hide AllWellNamed, JoinOuts, WhoOuts, Inbound, NumericLine, AwayOut;
  }

  /** A channel that is known at some time is, by the names that there are in the end, that of a room mentioned by
    * then. */
  lemma OpenMeans(b: Directory, d: Directory, before: seq<Action>, channel: string)
    requires Inverse(b.channelToRoom, b.roomToChannel) && Inverse(d.channelToRoom, d.roomToChannel) && KeepsNames(b, d)
    requires forall room :: room in b.roomToChannel <==> Mentioned(before, room)
    ensures channel in b.channelToRoom <==> IsOpen(d, before, channel)
    ensures channel in b.channelToRoom ==>
      channel in d.channelToRoom && b.channelToRoom[channel] == d.channelToRoom[channel]
  {
    hide Mentioned;
    if channel in b.channelToRoom {
      assert b.channelToRoom[channel] in b.roomToChannel;
    }
    if IsOpen(d, before, channel) {
      var room := d.channelToRoom[channel];
      assert b.roomToChannel[room] == d.roomToChannel[room] == channel;
    }
  }

  lemma SoundIsInverse(b: Bridge)
    requires Sound(b)
    ensures Inverse(b.directory.channelToRoom, b.directory.roomToChannel)
  {
  }

  lemma StandingRooms(b: Bridge, actions: seq<Action>)
    requires RoomsStand(b, actions)
    ensures forall room :: room in b.directory.roomToChannel <==> Mentioned(actions, room)
  {
    hide Mentioned;
    forall room
      ensures room in b.directory.roomToChannel <==> Mentioned(actions, room)
    {
      assert ChannelOf(b, room).Some? <==> Mentioned(actions, room);
    }
  }

  /** What has gone out, by the names `d`. */
  ghost predicate GoneOut(b: Bridge, d: Directory, actions: seq<Action>) {
    && (b.first <==> !HasSynced(actions))
    && AreFor(b.sent, AllTold(d, actions)) && b.asks == AllAsked(d, actions)
  }

  lemma LastTold(d: Directory, before: seq<Action>, a: Action)
    ensures AllTold(d, before + [a]) == AllTold(d, before) + ToldBy(d, before, a)
    ensures AllAsked(d, before + [a]) == AllAsked(d, before) + AskedBy(d, before, a)
    ensures HasSynced(before + [a]) <==> HasSynced(before) || a.Synced?
  {
    var actions := before + [a];
    assert actions[..|before|] == before && actions[|before|] == a;
    if HasSynced(before) {
      var i :| 0 <= i < |before| && before[i].Synced?;
      assert actions[i].Synced?;
    }
  }

  lemma NothingGoesOut(w: Setting, b: Bridge, d: Directory, before: seq<Action>, a: Action)
    requires Sound(b) && Fits(a) && !a.Heard? && GoneOut(b, d, before)
    ensures GoneOut(Step(w, b, a), d, before + [a])
  {
    hide AreFor, AllTold, AllAsked, HasSynced, Sound, Sync, AllValid, IsOpen;
    LastTold(d, before, a);
    assert AllTold(d, before) + [] == AllTold(d, before) && AllAsked(d, before) + [] == AllAsked(d, before);
    if a.Synced? {
      SyncSendsNothing(w, b, a.response);
    }
  }

  lemma HeardGoesOut(w: Setting, b: Bridge, d: Directory, before: seq<Action>, c: IrcCommand)
    requires Sound(b) && GoneOut(b, d, before) && RoomsStand(b, before) && KeepsNames(b.directory, d)
    requires Inverse(d.channelToRoom, d.roomToChannel)
    ensures GoneOut(Hear(w, b, c), d, before + [Heard(c)])
  {
    HearSends(w, b, c);
    LastTold(d, before, Heard(c));
    SoundIsInverse(b);
    StandingRooms(b, before);
    if c.PrivMsgCmd? || c.JoinCmd? {
      OpenMeans(b.directory, d, before, c.channel);
      if !HasSynced(before) {
        UnsyncedIsUnmentioned(before);
      }
    }
    hide AreFor, AllTold, AllAsked, HasSynced, Sound, Hear, Inbound, IsOpen, Mentioned, RoomsStand, IsFor;
    if c.PrivMsgCmd? && !b.first && c.channel in b.directory.channelToRoom {
      var room := b.directory.channelToRoom[c.channel];
      InboundIsFor(room, c.text);
      AreForMore(b.sent, AllTold(d, before), Inbound(room, c.text), Told(room, c.text));
    } else {
      assert AllTold(d, before) + [] == AllTold(d, before) && b.sent + [] == b.sent;
    }
  }

  lemma {:induction false} UnsyncedIsUnmentioned(actions: seq<Action>)
    requires !HasSynced(actions)
    ensures forall room :: !Mentioned(actions, room)
  {
    if actions != [] {
      var before, last := actions[..|actions| - 1], actions[|actions| - 1];
      assert actions == before + [last];
      LastTold(NOBODY, before, last);
      UnsyncedIsUnmentioned(before);
    }
  }

  lemma {:induction false} RunGoesOut(w: Setting, nick: string, uid: string, actions: seq<Action>, d: Directory)
    requires AllFit(actions) && KeepsNames(Reached(w, nick, uid, actions).directory, d)
    requires Inverse(d.channelToRoom, d.roomToChannel)
    ensures GoneOut(Reached(w, nick, uid, actions), d, actions)
  {
    hide *;
    if actions == [] {
      NothingYetOut(w, nick, uid, d);
    } else {
      var before, last := actions[..|actions| - 1], actions[|actions| - 1];
      assert actions == before + [last];
      ReachedStep(w, nick, uid, actions);
      var b := Reached(w, nick, uid, before);
      StepKeepsNames(w, b, last);
      KeepsNamesThen(b.directory, Step(w, b, last).directory, d);
      RunGoesOut(w, nick, uid, before, d);
      RunStands(w, nick, uid, before);
      if last.Heard? {
        HeardGoesOut(w, b, d, before, last.command);
        StepHears(w, b, last);
      } else {
        NothingGoesOut(w, b, d, before, last);
      }
    }
  }

  lemma NothingYetOut(w: Setting, nick: string, uid: string, d: Directory)
    ensures GoneOut(Reached(w, nick, uid, []), d, [])
  {
    hide Sound;
  }

  lemma StepHears(w: Setting, b: Bridge, a: Action)
    requires Sound(b) && Fits(a) && a.Heard?
    ensures Step(w, b, a) == Hear(w, b, a.command)
  {
    hide Sound, Hear;
  }

  /** Over any run, given the names that the bridge has made up: what is sent to Matrix is, in order, one message for
    * each thing that was said in the channel of a room which had been mentioned by then, in that room and with that
    * text; and the rooms asked for are, in order, the channels that were to be joined after the first sync and were not
    * open. */
  lemma EverythingSaidGoesOut(w: Setting, nick: string, uid: string, actions: seq<Action>)
    requires AllFit(actions)
    ensures var b := Reached(w, nick, uid, actions);
      AreFor(b.sent, AllTold(b.directory, actions)) && b.asks == AllAsked(b.directory, actions)
  {
    hide AreFor, AllTold, AllAsked, Reached;
    var b := Reached(w, nick, uid, actions);
    SoundIsInverse(b);
    hide Sound;
    RunGoesOut(w, nick, uid, actions, b.directory);
  }

  // ---- Before the first sync --------------------------------------------------------------------------------

  lemma SilentStep(w: Setting, b: Bridge, before: seq<Action>, a: Action)
    requires Sound(b) && Fits(a) && !a.Synced? && b.first && b.outs == [] && RoomsStand(b, before)
    requires forall room :: !Mentioned(before, room)
    ensures Step(w, b, a).outs == []
  {
    StandingRooms(b, before);
    hide Sound, Mentioned, RoomsStand;
  }

  lemma {:induction false} SilentRun(w: Setting, nick: string, uid: string, actions: seq<Action>)
    requires AllFit(actions) && !HasSynced(actions)
    ensures Reached(w, nick, uid, actions).outs == []
  {
    hide *;
    if actions == [] {
      NothingSaidAtFirst(w, nick, uid);
    } else {
      var before, last := actions[..|actions| - 1], actions[|actions| - 1];
      assert actions == before + [last];
      LastTold(NOBODY, before, last);
      ReachedStep(w, nick, uid, actions);
      SilentRun(w, nick, uid, before);
      RunStands(w, nick, uid, before);
      UnsyncedIsUnmentioned(before);
      NothingBeforeTheFirstSync(w, nick, uid, before);
      SilentStep(w, Reached(w, nick, uid, before), before, last);
    }
  }

  lemma NothingSaidAtFirst(w: Setting, nick: string, uid: string)
    ensures Reached(w, nick, uid, []).outs == []
  {
    hide Sound;
  }

  /** Before the first sync nothing is sent, asked for or said. */
  lemma QuietBeforeTheFirstSync(w: Setting, nick: string, uid: string, actions: seq<Action>)
    requires AllFit(actions) && !HasSynced(actions)
    ensures var b := Reached(w, nick, uid, actions); b.first && b.sent == [] && b.asks == [] && b.outs == []
  {
    hide *;
    NothingBeforeTheFirstSync(w, nick, uid, actions);
    SilentRun(w, nick, uid, actions);
  }

  /** With the first sync the client is greeted, and never again: a later sync about no room says nothing. */
  lemma GreetedOnce(w: Setting, b: Bridge, response: SyncResponse)
    requires Sound(b) && AllValid(response.join) && response.join == map[]
    ensures Sync(w, b, response).outs == b.outs + if b.first then WelcomeOuts(w.me) + [Plain("PING HELLO")] else []
  {
    SyncIs(w, b, response);
    GreetsRooms(w, b, response.join);
    NoKeys(response.join);
    NoRoom(w, Greet(w, b, Cleaned(response.join)), Cleaned(response.join));
    hide HandleRooms, Greet, Sound, AllValid, Ordered.Keys, WelcomeOuts;
  }

  lemma NoKeys(join: map<string, RoomSync>)
    requires join == map[]
    ensures Ordered.Keys(join.Keys) == []
  {
  }

  lemma NothingBeforeTheFirstSync(w: Setting, nick: string, uid: string, actions: seq<Action>)
    requires AllFit(actions) && !HasSynced(actions)
    ensures var b := Reached(w, nick, uid, actions); b.first && b.sent == [] && b.asks == []
  {
    hide AreFor, Reached;
    var b := Reached(w, nick, uid, actions);
    SoundIsInverse(b);
    hide Sound;
    RunGoesOut(w, nick, uid, actions, b.directory);
    NothingTold(b.directory, actions);
    hide AllTold, AllAsked;
    NoneForNone(b.sent);
  }

  lemma NoneForNone(sent: seq<Send>)
    requires AreFor(sent, [])
    ensures sent == []
  {
  }

  lemma {:induction false} NothingTold(d: Directory, actions: seq<Action>)
    requires !HasSynced(actions)
    ensures AllTold(d, actions) == [] && AllAsked(d, actions) == []
  {
    if actions != [] {
      var before, last := actions[..|actions| - 1], actions[|actions| - 1];
      assert actions == before + [last];
      LastTold(d, before, last);
      UnsyncedIsUnmentioned(before);
      NothingTold(d, before);
    }
  }
}
