/** The bridge as a state machine: what one sync, one answer to a join, and one command of the IRC client do to it. */
module Bridging {
  import opened Prelude
  import opened MatrixEvents
  import opened RoomState
  import opened Mapping
  import opened IrcCommands
  import opened IrcSession
  import opened MatrixClient
  import opened Timeline
  import Ordered

  /** A message on its way to Matrix. */
  datatype Send = Send(roomId: string, msgtype: string, body: string)

  /** `joining` remembers under which name a room was asked for whose sync is still to come; `asks` and `sent` are the
    * requests made of Matrix, and `outs` is what was said to the IRC client, from the beginning. */
  datatype Bridge = Bridge(
    directory: Directory, rooms: map<string, RoomView>, joining: map<string, string>, first: bool,
    outs: seq<Out>, asks: seq<string>, sent: seq<Send>)

  datatype Action = Synced(response: SyncResponse) | Replied(asked: string, roomId: string) | Heard(command: IrcCommand)

  ghost predicate Fits(a: Action) {
    a.Synced? ==> AllValid(a.response.join)
  }

  ghost predicate AllFit(actions: seq<Action>) {
    forall i :: 0 <= i < |actions| ==> Fits(actions[i])
  }

  /** What every step keeps: the maps agree with each other and with the IRC side, only known rooms have channels, and
    * no room that has a channel is waited for. */
  ghost predicate Sound(b: Bridge) {
    && Mapping.Consistent(b.directory)
    && b.directory.roomToChannel.Keys <= b.rooms.Keys
    && b.joining.Keys !! b.directory.roomToChannel.Keys
    && AllWellNamed(b.rooms)
  }

  // ---- Syncs ------------------------------------------------------------------------------------------------

  /** The answer to an early join, if the room did not get the name that was asked for. */
  function Redirect(joining: map<string, string>, roomId: string, channel: string): seq<Out> {
    if roomId in joining && joining[roomId] != channel then [Redirected(joining[roomId], channel)] else []
  }

  ghost function HandleRoom(w: Setting, b: Bridge, id: string, sync: RoomSync): (r: Bridge)
    requires Sound(b) && id in b.rooms
    ensures Sound(r) && r.rooms == b.rooms && r.first == b.first
    ensures r.directory == GetChannel(b.directory, b.rooms[id]).directory
    ensures r.directory.roomToChannel.Keys == b.directory.roomToChannel.Keys + {id}
    ensures r.joining == b.joining - {id}
  {
    var o := GetChannel(b.directory, b.rooms[id]);
    GetChannelKeeps(b.directory, b.rooms[id]);
    ChannelsAreKnown(o.directory);
    var opening := if o.isNew then JoinOuts(w.me, o.directory.server, o.channel) else [];
    b.(directory := o.directory, joining := b.joining - {id},
       outs := b.outs + opening + Redirect(b.joining, id, o.channel) +
         TimelineOuts(w, o.directory.uidToNick, o.channel, sync.timeline))
  }

  /** Every room with a channel has it on the IRC side. */
  lemma ChannelsAreKnown(d: Directory)
    requires Mapping.Consistent(d)
    ensures forall r :: r in d.roomToChannel ==>
      d.roomToChannel[r] in d.server.channels && d.channelToRoom[d.roomToChannel[r]] == r
  {
  }

  /** Handling a room in full. */
  lemma HandleRoomIs(w: Setting, b: Bridge, id: string, sync: RoomSync)
    requires Sound(b) && id in b.rooms
    ensures Mapping.Consistent(b.directory) && b.rooms[id].roomId == id
    ensures var o := GetChannel(b.directory, b.rooms[id]);
      && Mapping.Consistent(o.directory) && o.channel in o.directory.server.channels
      && (o.isNew <==> id !in b.directory.roomToChannel)
      && HandleRoom(w, b, id, sync) == b.(directory := o.directory, joining := b.joining - {id},
           outs := b.outs + (if o.isNew then JoinOuts(w.me, o.directory.server, o.channel) else [])
                   + Redirect(b.joining, id, o.channel)
                   + TimelineOuts(w, o.directory.uidToNick, o.channel, sync.timeline))
  {
    hide GetChannel, JoinOuts, TimelineOuts, Redirect, ConsistentBut;
    GetChannelKeeps(b.directory, b.rooms[id]);
    ChannelsAreKnown(GetChannel(b.directory, b.rooms[id]).directory);
  }

  ghost predicate AllKnown(b: Bridge, order: seq<string>, join: map<string, RoomSync>) {
    forall i :: 0 <= i < |order| ==> order[i] in b.rooms && order[i] in join
  }

  ghost function HandleRooms(w: Setting, b: Bridge, order: seq<string>, join: map<string, RoomSync>): (r: Bridge)
    requires Sound(b) && AllKnown(b, order, join)
    ensures Sound(r) && r.rooms == b.rooms && r.first == b.first
  {
    if order == [] then b
    else
      var last := order[|order| - 1];
      HandleRoom(w, HandleRooms(w, b, order[..|order| - 1], join), last, join[last])
  }

  lemma NoRoom(w: Setting, b: Bridge, join: map<string, RoomSync>)
    requires Sound(b)
    ensures AllKnown(b, [], join) && HandleRooms(w, b, [], join) == b
  {
    hide Sound;
  }

  function Greeting(w: Setting, b: Bridge): seq<Out> {
    if b.first then WelcomeOuts(w.me) + [Plain("PING HELLO")] else []
  }

  ghost function Greet(w: Setting, b: Bridge, join: map<string, RoomSync>): (r: Bridge)
    requires Sound(b) && AllValid(join)
    ensures Sound(r) && r.rooms.Keys == b.rooms.Keys + join.Keys && r.directory == b.directory && r.joining == b.joining
  {
    AbsorbKeeps(b.rooms, join);
    b.(rooms := Absorb(b.rooms, join), outs := b.outs + Greeting(w, b))
  }

  lemma AbsorbKeeps(rooms: map<string, RoomView>, join: map<string, RoomSync>)
    requires AllWellNamed(rooms) && AllValid(join)
    ensures AllWellNamed(Absorb(rooms, join)) && Absorb(rooms, join).Keys == rooms.Keys + join.Keys
  {
    hide Update, NewRoom, ValidSync;
    forall id | id in join
      ensures AbsorbRoom(rooms, id, join[id]).roomId == id && WellNamed(AbsorbRoom(rooms, id, join[id]))
    {
      if id in rooms {
        UpdateIsWellNamed(rooms[id], join[id]);
      } else {
        NewRoomIsWellNamed(id, join[id]);
      }
    }
  }

  lemma GreetingKnows(w: Setting, b: Bridge, join: map<string, RoomSync>)
    requires Sound(b) && AllValid(join)
    ensures AllValid(Cleaned(join)) && AllKnown(Greet(w, b, Cleaned(join)), Ordered.Keys(join.Keys), Cleaned(join))
  {
    hide Sound, Greet, Ordered.Keys, ValidSync, WithoutEchoes;
    CleanedIsValid(join);
    assert Cleaned(join).Keys == join.Keys;
    var order := Ordered.Keys(join.Keys);
    forall i | 0 <= i < |order|
      ensures order[i] in join
    {
      assert order[i] in order;
    }
  }

  /** All rooms are brought up to date first; then each is handled, in the order of their identifiers. */
  ghost function Sync(w: Setting, b: Bridge, response: SyncResponse): (r: Bridge)
    requires Sound(b) && AllValid(response.join)
    ensures Sound(r) && !r.first
  {
    hide Mapping.Consistent, Cleaned, AllWellNamed, Greet, AllKnown;
    GreetingKnows(w, b, response.join);
    var join := Cleaned(response.join);
    HandleRooms(w, Greet(w, b, join), Ordered.Keys(response.join.Keys), join).(first := false)
  }

  /** A sync is a greeting, the first time, and then room after room. */
  lemma SyncIs(w: Setting, b: Bridge, response: SyncResponse)
    requires Sound(b) && AllValid(response.join)
    ensures AllValid(Cleaned(response.join))
    ensures var greeted, order := Greet(w, b, Cleaned(response.join)), Ordered.Keys(response.join.Keys);
      && AllKnown(greeted, order, Cleaned(response.join))
      && Sync(w, b, response) == HandleRooms(w, greeted, order, Cleaned(response.join)).(first := false)
    ensures forall id :: id in Ordered.Keys(response.join.Keys) <==> id in response.join
  {
    hide HandleRooms, Greet, Sound, Ordered.Keys, AllKnown, AllValid, Cleaned;
    GreetingKnows(w, b, response.join);
  }

  // ---- Answers to joins -------------------------------------------------------------------------------------

  function Reply(b: Bridge, asked: string, roomId: string): Bridge {
    if roomId in b.directory.roomToChannel then
      var channel := b.directory.roomToChannel[roomId];
      if channel == asked then b else b.(outs := b.outs + [Redirected(asked, channel)])
    else b.(joining := b.joining[roomId := asked])
  }

  // ---- Commands ---------------------------------------------------------------------------------------------

  /** How a message of the IRC client is marked for Matrix. */
  function Inbound(roomId: string, text: string): Send {
    var action := SOH + "ACTION";
    if action <= text && |text| > |action| && text[|text| - 1] == SOH[0] then
      Send(roomId, "m.emote", text[|action|..|text| - 1])
    else Send(roomId, "m.text", text)
  }

  /** An emote that a bridge has said, said again by an IRC client, is an emote for Matrix too, but with a space in
    * front of it that was not there; so its text never survives the round trip. */
  lemma EmotesGainASpace(roomId: string, text: string)
    ensures Inbound(roomId, IrcSession.Action(text)) == Send(roomId, "m.emote", " " + text) && " " + text != text
  {
    var said := IrcSession.Action(text);
    assert SOH + "ACTION" <= said;
    assert said[7..|said| - 1] == " " + text;
  }

  function Pass(w: Setting, b: Bridge, c: IrcCommand): Bridge {
    match c
    case PrivMsgCmd(channel, text) =>
      if channel in b.directory.channelToRoom then
        b.(sent := b.sent + [Inbound(b.directory.channelToRoom[channel], text)]) else b
    case JoinCmd(channel) => b.(asks := b.asks + [channel])
    case AwayCmd(message) => b.(outs := b.outs + [AwayOut(w.me, message)])
    case _ => b
  }

  function AwayOut(me: Identity, message: string): Out {
    if message == "" then Plain(NumericLine(me, "305", me.nick, "Welcome back"))
    else Plain(NumericLine(me, "306", me.nick, "You are now away"))
  }

  ghost function Hear(w: Setting, b: Bridge, c: IrcCommand): Bridge
    requires Sound(b)
  {
    if b.first then b
    else
      var answer := AnswerTo(w.me, b.directory.server, c);
      var answered := b.(outs := b.outs + answer.outs);
      if answer.passed then Pass(w, answered, c) else answered
  }

  lemma HearIs(w: Setting, b: Bridge, c: IrcCommand)
    requires Sound(b)
    ensures var r, answer := Hear(w, b, c), AnswerTo(w.me, b.directory.server, c);
      && r.directory == b.directory && r.joining == b.joining
      && r.outs == b.outs + if b.first then []
                            else answer.outs + if answer.passed && c.AwayCmd? then [AwayOut(w.me, c.message)] else []
  {
    hide AnswerTo, AwayOut;
  }

  // ---- Runs -------------------------------------------------------------------------------------------------

  ghost function Step(w: Setting, b: Bridge, a: Action): (r: Bridge)
    requires Sound(b) && Fits(a)
    ensures Sound(r)
  {
    hide Mapping.Consistent, AllWellNamed, AnswerTo;
    match a
    case Synced(response) => Sync(w, b, response)
    case Replied(asked, roomId) => Reply(b, asked, roomId)
    case Heard(command) => Hear(w, b, command)
  }

  /** A new bridge knows its own user and nothing else. */
  function Created(nick: string, uid: string): Bridge {
    Bridge(InsertNick(NOBODY, nick, uid), map[], map[], true, [], [], [])
  }

  lemma CreatedIsSound(nick: string, uid: string)
    ensures Sound(Created(nick, uid))
  {
    InsertNickKeeps(NOBODY, nick, uid, {});
  }

  ghost function Run(w: Setting, start: Bridge, actions: seq<Action>): (r: Bridge)
    requires Sound(start) && AllFit(actions)
    ensures Sound(r)
  {
    if actions == [] then start else Step(w, Run(w, start, actions[..|actions| - 1]), actions[|actions| - 1])
  }

  /** A bridge created for a user, after some actions. */
  ghost function Reached(w: Setting, nick: string, uid: string, actions: seq<Action>): (b: Bridge)
    requires AllFit(actions)
    ensures Sound(b)
  {
    CreatedIsSound(nick, uid);
    Run(w, Created(nick, uid), actions)
  }

  lemma ReachedStep(w: Setting, nick: string, uid: string, actions: seq<Action>)
    requires AllFit(actions) && actions != []
    ensures var before, last := actions[..|actions| - 1], actions[|actions| - 1];
      AllFit(before) && Fits(last) && Reached(w, nick, uid, actions) == Step(w, Reached(w, nick, uid, before), last)
  {
    hide Sound, Step, Fits;
  }

  function ChannelOf(b: Bridge, room: string): Option<string> {
    if room in b.directory.roomToChannel then Some(b.directory.roomToChannel[room]) else None
  }
}
