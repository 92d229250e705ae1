/** What is said about a channel, one step of the bridge at a time: the redirects to it and the messages in it. */
module ChannelLines {
  import opened Prelude
  import opened MatrixEvents
  import opened Mapping
  import opened IrcCommands
  import opened IrcSession
  import opened MatrixClient
  import opened Timeline
  import opened Bridging
  import opened Text
  import ServerModel
  import Ordered

  // ---- Lines about a channel --------------------------------------------------------------------------------

  predicate IsAbout(channel: string, out: Out) {
    !out.Plain? && out.channel == channel
  }

  /** The redirects to a channel and the messages in it, in order. */
  function About(channel: string, outs: seq<Out>): seq<Out> {
    if outs == [] then []
    else
      var last := outs[|outs| - 1];
      About(channel, outs[..|outs| - 1]) + if IsAbout(channel, last) then [last] else []
  }

  lemma {:induction false} AboutConcat(channel: string, a: seq<Out>, b: seq<Out>)
    ensures About(channel, a + b) == About(channel, a) + About(channel, b)
  {
    if b == [] {
      assert a + b == a;
    } else {
      AboutConcat(channel, a, b[..|b| - 1]);
      assert (a + b)[..|a + b| - 1] == a + b[..|b| - 1];
    }
  }

  lemma {:induction false} NothingAbout(channel: string, outs: seq<Out>)
    requires forall i :: 0 <= i < |outs| ==> !IsAbout(channel, outs[i])
    ensures About(channel, outs) == []
  {
    if outs != [] {
      NothingAbout(channel, outs[..|outs| - 1]);
    }
  }

  ghost predicate AllAbout(channel: string, outs: seq<Out>) {
    forall i :: 0 <= i < |outs| ==> IsAbout(channel, outs[i])
  }

  lemma {:induction false} EverythingAbout(channel: string, outs: seq<Out>)
    requires AllAbout(channel, outs)
    ensures About(channel, outs) == outs
  {
    if outs != [] {
      EverythingAbout(channel, outs[..|outs| - 1]);
    }
  }

  ghost predicate Silent(outs: seq<Out>) {
    forall i :: 0 <= i < |outs| ==> outs[i].Plain?
  }

  lemma {:induction false} TimelineIsAbout(w: Setting, nicks: map<string, string>, channel: string, events: seq<Event>)
    ensures AllAbout(channel, TimelineOuts(w, nicks, channel, events))
  {
    if events != [] {
      hide Split;
      TimelineIsAbout(w, nicks, channel, events[..|events| - 1]);
    }
  }

  lemma OpeningIsSilent(me: Identity, server: ServerModel.Server, channel: string)
    requires channel in server.channels
    ensures Silent(JoinOuts(me, server, channel))
  {
    hide Chunks, ServerModel.MembersOf;
  }

  lemma AnswerIsSilent(me: Identity, server: ServerModel.Server, c: IrcCommand)
    requires ServerModel.Consistent(server)
    ensures Silent(AnswerTo(me, server, c).outs)
  {
    hide JoinOuts;
    if c.JoinCmd? && c.channel in server.channels {
      OpeningIsSilent(me, server, c.channel);
    }
  }

  // ---- One room ---------------------------------------------------------------------------------------------

  /** What is said is about channels that exist. */
  ghost predicate AboutChannels(b: Bridge) {
    forall i :: 0 <= i < |b.outs| ==> b.outs[i].Plain? || b.outs[i].channel in b.directory.channelToRoom
  }

  ghost function AboutOf(b: Bridge, room: string): seq<Out> {
    if room in b.directory.roomToChannel then About(b.directory.roomToChannel[room], b.outs) else []
  }

  /** What handling a room says about its channel: the redirect that is due, and then the messages. */
  ghost function RoomSays(w: Setting, joining: map<string, string>, id: string, d: Directory,
                          sync: RoomSync): seq<Out> {
    if id in d.roomToChannel then
      Redirect(joining, id, d.roomToChannel[id]) + TimelineOuts(w, d.uidToNick, d.roomToChannel[id], sync.timeline)
    else []
  }

  lemma HandleRoomSays(w: Setting, b: Bridge, id: string, sync: RoomSync) returns (opening: seq<Out>)
    requires Sound(b) && id in b.rooms
    ensures var r := HandleRoom(w, b, id, sync);
      && id in r.directory.roomToChannel && Silent(opening)
      && r.outs == b.outs + opening + RoomSays(w, b.joining, id, r.directory, sync)
      && KeepsNames(b.directory, r.directory)
      && (id !in b.directory.roomToChannel ==> r.directory.roomToChannel[id] !in b.directory.channelToRoom)
  {
    hide GetChannel, JoinOuts, TimelineOuts, ConsistentBut, Redirect;
    var o := GetChannel(b.directory, b.rooms[id]);
    GetChannelKeeps(b.directory, b.rooms[id]);
    ChannelsAreKnown(o.directory);
    ChannelsAreKnown(b.directory);
    opening := if o.isNew then JoinOuts(w.me, o.directory.server, o.channel) else [];
    if o.isNew {
      OpeningIsSilent(w.me, o.directory.server, o.channel);
    }
  }

  lemma RoomSaysThere(w: Setting, joining: map<string, string>, id: string, d: Directory, sync: RoomSync)
    requires id in d.roomToChannel
    ensures AllAbout(d.roomToChannel[id], RoomSays(w, joining, id, d, sync))
  {
    TimelineIsAbout(w, d.uidToNick, d.roomToChannel[id], sync.timeline);
    hide TimelineOuts;
  }

  lemma AboutMore(b: Bridge, r: Bridge, channel: string, opening: seq<Out>, more: seq<Out>)
    requires AboutChannels(b) && KeepsNames(b.directory, r.directory) && Silent(opening) && AllAbout(channel, more)
    requires channel in r.directory.channelToRoom && r.outs == b.outs + opening + more
    ensures AboutChannels(r)
  {
  }

  /** What a step does to the lines of a room, told from the lines alone. */
  lemma AboutStep(b: Bridge, r: Bridge, id: string, room: string, opening: seq<Out>, more: seq<Out>)
    requires KeepsNames(b.directory, r.directory) && AboutChannels(b) && Silent(opening)
    requires id in r.directory.roomToChannel && r.directory.roomToChannel.Keys == b.directory.roomToChannel.Keys + {id}
    requires id !in b.directory.roomToChannel ==> r.directory.roomToChannel[id] !in b.directory.channelToRoom
    requires room in r.directory.roomToChannel ==>
      (r.directory.roomToChannel[room] == r.directory.roomToChannel[id] <==> room == id)
    requires AllAbout(r.directory.roomToChannel[id], more) && r.outs == b.outs + opening + more
    ensures AboutOf(r, room) == AboutOf(b, room) + if room == id then more else []
  {
    hide About, Silent, AllAbout, AboutChannels;
    if room in r.directory.roomToChannel {
      var c := r.directory.roomToChannel[room];
      AboutParts(c, r.directory.roomToChannel[id], b.outs, opening, more);
      if room !in b.directory.roomToChannel {
        NothingAboutNew(b, c);
      }
    }
  }

  lemma AboutParts(c: string, channel: string, before: seq<Out>, opening: seq<Out>, more: seq<Out>)
    requires Silent(opening) && AllAbout(channel, more)
    ensures About(c, before + opening + more) == if c == channel then About(c, before) + more else About(c, before)
  {
    AboutConcat(c, before + opening, more);
    AboutConcat(c, before, opening);
    NothingAbout(c, opening);
    if c == channel {
      EverythingAbout(c, more);
    } else {
      NothingAbout(c, more);
    }
  }

  lemma NothingAboutNew(b: Bridge, channel: string)
    requires AboutChannels(b) && channel !in b.directory.channelToRoom
    ensures About(channel, b.outs) == []
  {
    NothingAbout(channel, b.outs);
  }

  lemma HandleRoomAbout(w: Setting, b: Bridge, id: string, sync: RoomSync, room: string)
    requires Sound(b) && id in b.rooms && AboutChannels(b)
    ensures var r := HandleRoom(w, b, id, sync);
      && AboutChannels(r)
      && AboutOf(r, room) == AboutOf(b, room) + if room == id then RoomSays(w, b.joining, id, r.directory, sync) else []
  {
    hide *;
    var opening := HandleRoomSays(w, b, id, sync);
    var r := HandleRoom(w, b, id, sync);
    var more := RoomSays(w, b.joining, id, r.directory, sync);
    OneChannelEach(r, id, room);
    RoomSaysThere(w, b.joining, id, r.directory, sync);
    AboutMore(b, r, r.directory.roomToChannel[id], opening, more);
    AboutStep(b, r, id, room, opening, more);
  }

  lemma OneChannelEach(b: Bridge, id: string, room: string)
    requires Sound(b) && id in b.directory.roomToChannel
    ensures b.directory.roomToChannel[id] in b.directory.channelToRoom
    ensures room in b.directory.roomToChannel ==>
      (b.directory.roomToChannel[room] == b.directory.roomToChannel[id] <==> room == id)
  {
  }

  // ---- One sync ---------------------------------------------------------------------------------------------

  ghost function SetOf(ids: seq<string>): set<string> {
    set id | id in ids
  }

  ghost predicate Handled(b: Bridge, r: Bridge, rooms: set<string>) {
    && KeepsNames(b.directory, r.directory)
    && r.joining == b.joining - rooms
    && r.directory.roomToChannel.Keys == b.directory.roomToChannel.Keys + rooms
  }

  lemma HandledThen(b: Bridge, mid: Bridge, r: Bridge, rooms: set<string>, id: string)
    requires Handled(b, mid, rooms) && Handled(mid, r, {id})
    ensures Handled(b, r, rooms + {id})
  {
  }

  lemma RoomHandled(w: Setting, b: Bridge, id: string, sync: RoomSync)
    requires Sound(b) && id in b.rooms
    ensures Handled(b, HandleRoom(w, b, id, sync), {id})
  {
    hide HandleRoom, Sound;
    var opening := HandleRoomSays(w, b, id, sync);
  }

  /** The last room of a list is handled after the others. */
  lemma LastRoom(w: Setting, b: Bridge, order: seq<string>, join: map<string, RoomSync>)
    requires Sound(b) && AllKnown(b, order, join) && order != []
    ensures var before, last := order[..|order| - 1], order[|order| - 1];
      && AllKnown(b, before, join) && last in b.rooms && last in join
      && HandleRooms(w, b, order, join) == HandleRoom(w, HandleRooms(w, b, before, join), last, join[last])
      && (forall id :: id in order <==> id in before || id == last)
      && SetOf(order) == SetOf(before) + {last}
  {
    hide HandleRoom, Sound;
    assert order == order[..|order| - 1] + [order[|order| - 1]];
  }

  lemma {:induction false} RoomsHandled(w: Setting, b: Bridge, order: seq<string>, join: map<string, RoomSync>)
    requires Sound(b) && AllKnown(b, order, join)
    ensures Handled(b, HandleRooms(w, b, order, join), SetOf(order))
  {
    if order != [] {
      hide *;
      var before, last := order[..|order| - 1], order[|order| - 1];
      LastRoom(w, b, order, join);
      RoomsHandled(w, b, before, join);
      var mid := HandleRooms(w, b, before, join);
      RoomHandled(w, mid, last, join[last]);
      HandledThen(b, mid, HandleRoom(w, mid, last, join[last]), SetOf(before), last);
    }
  }

  /** The list up to and including a room. */
  function UpTo(order: seq<string>, room: string): seq<string>
    requires room in order
  {
    order[..IndexOf(order, room) + 1]
  }

  predicate Distinct(order: seq<string>) {
    forall i, j :: 0 <= i < j < |order| ==> order[i] != order[j]
  }

  lemma UpToLast(order: seq<string>, room: string)
    requires order != [] && Distinct(order) && room in order
    ensures var before, last := order[..|order| - 1], order[|order| - 1];
      && Distinct(before)
      && (room == last ==> UpTo(order, room) == order && room !in before)
      && (room != last ==> room in before && UpTo(order, room) == UpTo(before, room))
  {
    var before, last := order[..|order| - 1], order[|order| - 1];
    if room == last {
      IndexOfUnique(order, room, |order| - 1);
    } else {
      var i := IndexOf(before, room);
      assert order == before + [last];
      assert before[..i] == order[..i];
      IndexOfUnique(order, room, i);
      assert before[..i + 1] == order[..i + 1];
    }
  }

  lemma {:induction false} KnownUpTo(b: Bridge, order: seq<string>, join: map<string, RoomSync>, room: string)
    requires AllKnown(b, order, join) && room in order
    ensures AllKnown(b, UpTo(order, room), join)
  {
  }

  lemma WaitedFor(b: Bridge, mid: Bridge, rooms: set<string>, id: string, d: Directory, w: Setting, sync: RoomSync)
    requires Handled(b, mid, rooms) && id !in rooms
    ensures RoomSays(w, mid.joining, id, d, sync) == RoomSays(w, b.joining, id, d, sync)
  {
    hide TimelineOuts;
  }

  /** Of all rooms of a sync only one speaks about its channel, and it does so with the names as they are at its
    * turn. */
  lemma {:induction false} HandleRoomsAbout(w: Setting, b: Bridge, order: seq<string>, join: map<string, RoomSync>,
                                            room: string)
    requires Sound(b) && AboutChannels(b) && AllKnown(b, order, join) && Distinct(order)
    ensures room in order ==> room in join && AllKnown(b, UpTo(order, room), join)
    ensures var r := HandleRooms(w, b, order, join);
      && AboutChannels(r)
      && AboutOf(r, room) == AboutOf(b, room)
           + if room in order then
             RoomSays(w, b.joining, room, HandleRooms(w, b, UpTo(order, room), join).directory, join[room]) else []
  {
    hide *;
    if order == [] {
      NoRoom(w, b, join);
    } else {
      var before, last := order[..|order| - 1], order[|order| - 1];
      LastRoom(w, b, order, join);
      LastIsDistinct(order);
      var mid := HandleRooms(w, b, before, join);
      HandleRoomsAbout(w, b, before, join, room);
      HandleRoomAbout(w, mid, last, join[last], room);
      if room in order {
        KnownUpTo(b, order, join, room);
        UpToLast(order, room);
        RoomsHandled(w, b, before, join);
        WaitedFor(b, mid, SetOf(before), last, HandleRooms(w, b, order, join).directory, w, join[last]);
      }
    }
  }

  lemma LastIsDistinct(order: seq<string>)
    requires order != [] && Distinct(order)
    ensures Distinct(order[..|order| - 1]) && order[|order| - 1] !in SetOf(order[..|order| - 1])
  {
  }

  lemma MoreSaid(b: Bridge, r: Bridge, more: seq<Out>, room: string)
    requires AboutChannels(b) && r.directory == b.directory && r.outs == b.outs + more && Silent(more)
    ensures AboutChannels(r) && AboutOf(r, room) == AboutOf(b, room)
  {
    if room in b.directory.roomToChannel {
      AboutConcat(b.directory.roomToChannel[room], b.outs, more);
      NothingAbout(b.directory.roomToChannel[room], more);
    }
  }

  lemma {:induction false} NamesFromPrefix(w: Setting, b: Bridge, order: seq<string>, join: map<string, RoomSync>,
                                           n: nat)
    requires Sound(b) && AllKnown(b, order, join) && n <= |order|
    ensures AllKnown(b, order[..n], join)
    ensures KeepsNames(HandleRooms(w, b, order[..n], join).directory, HandleRooms(w, b, order, join).directory)
    decreases |order|
  {
    hide HandleRooms, Sound;
    if n == |order| {
      assert order[..n] == order;
    } else {
      var before, last := order[..|order| - 1], order[|order| - 1];
      assert before[..n] == order[..n];
      hide *;
      LastRoom(w, b, order, join);
      NamesFromPrefix(w, b, before, join, n);
      var mid := HandleRooms(w, b, before, join);
      RoomHandled(w, mid, last, join[last]);
      HandledKeepsNames(mid, HandleRoom(w, mid, last, join[last]), {last});
      KeepsNamesThen(HandleRooms(w, b, before[..n], join).directory, mid.directory,
                     HandleRooms(w, b, order, join).directory);
    }
  }

  lemma KeepsNamesThen(d: Directory, e: Directory, f: Directory)
    requires KeepsNames(d, e) && KeepsNames(e, f)
    ensures KeepsNames(d, f)
  {
  }

  lemma HandledKeepsNames(b: Bridge, r: Bridge, rooms: set<string>)
    requires Handled(b, r, rooms)
    ensures KeepsNames(b.directory, r.directory)
  {
  }

  lemma GreetsRooms(w: Setting, b: Bridge, join: map<string, RoomSync>)
    requires Sound(b) && AllValid(Cleaned(join))
    ensures var greeted := Greet(w, b, Cleaned(join));
      && greeted.rooms == Absorb(b.rooms, Cleaned(join)) && greeted.rooms.Keys == b.rooms.Keys + join.Keys
      && greeted.directory == b.directory && greeted.joining == b.joining && greeted.outs == b.outs + Greeting(w, b)
  {
    hide Sound, Absorb, AllValid, Greeting;
    assert Cleaned(join).Keys == join.Keys;
  }

  lemma GreetingIsSilent(w: Setting, b: Bridge)
    ensures Silent(Greeting(w, b))
  {
  }

  /** The state in which it is the turn of a room, when its channel and the nicks of its first members have been
    * settled. */
  ghost function AtItsTurn(w: Setting, b: Bridge, response: SyncResponse, room: string): (at: Bridge)
    requires Sound(b) && AllValid(response.join) && room in response.join
  {
    SyncIs(w, b, response);
    KnownUpTo(Greet(w, b, Cleaned(response.join)), Ordered.Keys(response.join.Keys), Cleaned(response.join), room);
    HandleRooms(w, Greet(w, b, Cleaned(response.join)), UpTo(Ordered.Keys(response.join.Keys), room),
                Cleaned(response.join))
  }

  /** After a sync every room that it mentions has a channel and is not waited for any more; and about the channel of a
    * room nothing was said but what the sync of that room called for. */
  lemma SyncAbout(w: Setting, b: Bridge, response: SyncResponse, room: string)
    requires Sound(b) && AboutChannels(b) && AllValid(response.join)
    ensures var r := Sync(w, b, response);
      && Handled(b, r, response.join.Keys) && AboutChannels(r)
      && (room in response.join ==> KeepsNames(AtItsTurn(w, b, response, room).directory, r.directory))
      && AboutOf(r, room) == AboutOf(b, room)
           + if room in response.join then
               RoomSays(w, b.joining, room, AtItsTurn(w, b, response, room).directory,
                        WithoutEchoes(response.join[room]))
             else []
  {
    hide *;
    SyncIs(w, b, response);
    var join, order := Cleaned(response.join), Ordered.Keys(response.join.Keys);
    var greeted := Greet(w, b, join);
    var handled := HandleRooms(w, greeted, order, join);
    GreetsRooms(w, b, response.join);
    GreetingIsSilent(w, b);
    MoreSaid(b, greeted, Greeting(w, b), room);
    RoomsHandled(w, greeted, order, join);
    KeysAreTheRooms(response.join);
    HandleRoomsAbout(w, greeted, order, join, room);
    SameBut(b, greeted, handled, Sync(w, b, response), response.join.Keys, room);
    if room in response.join {
      CleanedRoom(response.join, room);
      TurnIs(w, b, response, room);
      NamesUpTo(w, greeted, order, join, room);
    }
  }

  lemma SyncHandled(w: Setting, b: Bridge, response: SyncResponse)
    requires Sound(b) && AllValid(response.join)
    ensures Handled(b, Sync(w, b, response), response.join.Keys)
  {
    hide *;
    SyncIs(w, b, response);
    var greeted, order := Greet(w, b, Cleaned(response.join)), Ordered.Keys(response.join.Keys);
    var handled := HandleRooms(w, greeted, order, Cleaned(response.join));
    GreetsRooms(w, b, response.join);
    RoomsHandled(w, greeted, order, Cleaned(response.join));
    KeysAreTheRooms(response.join);
    SameBut(b, greeted, handled, Sync(w, b, response), response.join.Keys, "");
  }

  lemma NamesUpTo(w: Setting, b: Bridge, order: seq<string>, join: map<string, RoomSync>, room: string)
    requires Sound(b) && AllKnown(b, order, join) && room in order
    ensures AllKnown(b, UpTo(order, room), join)
    ensures KeepsNames(HandleRooms(w, b, UpTo(order, room), join).directory, HandleRooms(w, b, order, join).directory)
  {
    hide HandleRooms, Sound, KeepsNames;
    NamesFromPrefix(w, b, order, join, IndexOf(order, room) + 1);
  }

  lemma TurnIs(w: Setting, b: Bridge, response: SyncResponse, room: string)
    requires Sound(b) && AllValid(response.join) && room in response.join
    ensures var join, order := Cleaned(response.join), Ordered.Keys(response.join.Keys);
      && AllValid(join) && room in order && AllKnown(Greet(w, b, join), UpTo(order, room), join)
      && AtItsTurn(w, b, response, room) == HandleRooms(w, Greet(w, b, join), UpTo(order, room), join)
  {
    hide HandleRooms, Greet, Sound, Ordered.Keys, AllValid, Cleaned, UpTo, AllKnown;
    SyncIs(w, b, response);
    KnownUpTo(Greet(w, b, Cleaned(response.join)), Ordered.Keys(response.join.Keys), Cleaned(response.join), room);
  }

  lemma ChannelAtItsTurn(w: Setting, b: Bridge, response: SyncResponse, room: string)
    requires Sound(b) && AllValid(response.join) && room in response.join
    ensures room in AtItsTurn(w, b, response, room).directory.roomToChannel
  {
    hide *;
    TurnIs(w, b, response, room);
    var order := UpTo(Ordered.Keys(response.join.Keys), room);
    RoomsHandled(w, Greet(w, b, Cleaned(response.join)), order, Cleaned(response.join));
    HandledHasChannel(Greet(w, b, Cleaned(response.join)), AtItsTurn(w, b, response, room),
                      Ordered.Keys(response.join.Keys), room);
  }

  lemma HandledHasChannel(b: Bridge, r: Bridge, order: seq<string>, room: string)
    requires room in order && Handled(b, r, SetOf(UpTo(order, room)))
    ensures room in r.directory.roomToChannel
  {
    var i := IndexOf(order, room);
    assert UpTo(order, room)[i] == room;
  }

  lemma KeysAreTheRooms(join: map<string, RoomSync>)
    ensures Distinct(Ordered.Keys(join.Keys)) && SetOf(Ordered.Keys(join.Keys)) == join.Keys
    ensures forall id :: id in Ordered.Keys(join.Keys) <==> id in join
  {
    Ordered.KeysAreDistinct(join.Keys);
    hide Ordered.Keys;
  }

  lemma CleanedRoom(join: map<string, RoomSync>, room: string)
    requires room in join
    ensures room in Cleaned(join) && Cleaned(join)[room] == WithoutEchoes(join[room])
    ensures AllValid(join) ==> ValidSync(join[room]) && ValidSync(WithoutEchoes(join[room]))
  {
  }

  lemma SameBut(b: Bridge, greeted: Bridge, handled: Bridge, r: Bridge, rooms: set<string>, room: string)
    requires Handled(greeted, handled, rooms) && greeted.directory == b.directory && greeted.joining == b.joining
    requires r == handled.(first := false)
    ensures Handled(b, r, rooms)
    ensures AboutChannels(handled) ==> AboutChannels(r)
    ensures AboutOf(r, room) == AboutOf(handled, room)
  {
    hide About;
  }

  lemma HearSays(w: Setting, b: Bridge, c: IrcCommand) returns (more: seq<Out>)
    requires Sound(b)
    ensures Silent(more)
    ensures var r := Hear(w, b, c);
      && r.outs == b.outs + more && r.directory == b.directory && r.joining == b.joining && r.rooms == b.rooms
  {
    hide AnswerTo, AllWellNamed;
    AnswerIsSilent(w.me, b.directory.server, c);
    var answer := AnswerTo(w.me, b.directory.server, c);
    var away := if answer.passed && c.AwayCmd? then [AwayOut(w.me, c.message)] else [];
    more := if b.first then [] else answer.outs + away;
  }
}
