/** The race between the answer to a join and the sync that brings the room: both orders come to the same. */
module Confluence {
  import opened MatrixEvents
  import opened Mapping
  import opened IrcSession
  import opened MatrixClient
  import opened Timeline
  import opened Bridging
  import opened ChannelLines
  import Ordered

  /** Two bridges that differ at most in what they wait for and in what they have said. */
  predicate Alike(b: Bridge, c: Bridge) {
    b.(joining := c.joining, outs := c.outs) == c
  }

  /** Handling a room says the same in both, but for the redirect. */
  lemma HandleBoth(w: Setting, b: Bridge, c: Bridge, id: string, sync: RoomSync)
    returns (opening: seq<Out>, timeline: seq<Out>)
    requires Sound(b) && Sound(c) && Alike(b, c) && id in b.rooms
    ensures var r, s := HandleRoom(w, b, id, sync), HandleRoom(w, c, id, sync);
      && Alike(r, s) && KeepsNames(b.directory, r.directory) && ChannelOf(r, id).Some?
      && var channel := ChannelOf(r, id).value;
      && r.outs == b.outs + opening + Redirect(b.joining, id, channel) + timeline
      && s.outs == c.outs + opening + Redirect(c.joining, id, channel) + timeline
  {
    hide GetChannel, JoinOuts, TimelineOuts, Mapping.Consistent, KeepsNames, AllWellNamed, Redirect;
    var o := GetChannel(b.directory, b.rooms[id]);
    GetChannelKeeps(b.directory, b.rooms[id]);
    ChannelsAreKnown(o.directory);
    assert b.rooms[id].roomId == id by {
      RoomIsNamed(b, id);
    }
    opening := if o.isNew then JoinOuts(w.me, o.directory.server, o.channel) else [];
    timeline := TimelineOuts(w, o.directory.uidToNick, o.channel, sync.timeline);
  }

  lemma RoomIsNamed(b: Bridge, id: string)
    requires Sound(b) && id in b.rooms
    ensures b.rooms[id].roomId == id
  {
    hide Mapping.Consistent;
  }

  /** The second bridge waits for one room more. */
  ghost predicate WaitsFor(b: Bridge, c: Bridge, room: string, asked: string) {
    Alike(b, c) && room !in b.joining && c.joining == b.joining[room := asked] && c.outs == b.outs
  }

  /** The second bridge has said one redirect more, in the middle. */
  ghost predicate SaidToo(b: Bridge, c: Bridge, p: seq<Out>, redirect: seq<Out>, q: seq<Out>) {
    Alike(b, c) && c.joining == b.joining && b.outs == p + q && c.outs == p + redirect + q
  }

  /** Another room makes no difference to either relation. */
  lemma OtherRoom(w: Setting, b: Bridge, c: Bridge, id: string, sync: RoomSync, room: string, asked: string)
    requires Sound(b) && Sound(c) && id in b.rooms && id != room && WaitsFor(b, c, room, asked)
    ensures WaitsFor(HandleRoom(w, b, id, sync), HandleRoom(w, c, id, sync), room, asked)
  {
    hide HandleRoom, Sound;
    var opening, timeline := HandleBoth(w, b, c, id, sync);
  }

  lemma TheRoom(w: Setting, b: Bridge, c: Bridge, id: string, sync: RoomSync, asked: string)
    returns (p: seq<Out>, q: seq<Out>)
    requires Sound(b) && Sound(c) && id in b.rooms && WaitsFor(b, c, id, asked)
    ensures var r := HandleRoom(w, b, id, sync);
      && ChannelOf(r, id).Some? && b.outs <= p
      && SaidToo(r, HandleRoom(w, c, id, sync), p, Redirect(map[id := asked], id, ChannelOf(r, id).value), q)
  {
    hide HandleRoom, Sound, Redirect;
    var opening, timeline := HandleBoth(w, b, c, id, sync);
    var r, s := HandleRoom(w, b, id, sync), HandleRoom(w, c, id, sync);
    p, q := b.outs + opening, timeline;
    OnlyOneWaits(b, c, id, asked, ChannelOf(r, id).value);
    WithoutAndWith(p, Redirect(map[id := asked], id, ChannelOf(r, id).value), q, r.outs, s.outs);
  }

  lemma WithoutAndWith(p: seq<Out>, redirect: seq<Out>, q: seq<Out>, without: seq<Out>, with: seq<Out>)
    requires without == p + [] + q && with == p + redirect + q
    ensures without == p + q
  {
  }

  lemma OnlyOneWaits(b: Bridge, c: Bridge, id: string, asked: string, channel: string)
    requires WaitsFor(b, c, id, asked)
    ensures Redirect(b.joining, id, channel) == [] &&
      Redirect(c.joining, id, channel) == Redirect(map[id := asked], id, channel)
    ensures b.joining - {id} == c.joining - {id}
  {
  }

  lemma AfterTheRoom(w: Setting, b: Bridge, c: Bridge, id: string, sync: RoomSync, p: seq<Out>, redirect: seq<Out>,
                     q: seq<Out>) returns (more: seq<Out>)
    requires Sound(b) && Sound(c) && id in b.rooms && SaidToo(b, c, p, redirect, q)
    ensures SaidToo(HandleRoom(w, b, id, sync), HandleRoom(w, c, id, sync), p, redirect, more)
    ensures KeepsNames(b.directory, HandleRoom(w, b, id, sync).directory)
  {
    hide HandleRoom, Sound, KeepsNames, Redirect;
    var opening, timeline := HandleBoth(w, b, c, id, sync);
    var r := HandleRoom(w, b, id, sync);
    more := q + (opening + Redirect(b.joining, id, ChannelOf(r, id).value) + timeline);
    Regroup(p, redirect, q, opening, Redirect(b.joining, id, ChannelOf(r, id).value), timeline);
  }

  lemma Regroup(p: seq<Out>, redirect: seq<Out>, q: seq<Out>, a: seq<Out>, b: seq<Out>, c: seq<Out>)
    ensures p + q + a + b + c == p + (q + (a + b + c))
    ensures p + redirect + q + a + b + c == p + redirect + (q + (a + b + c))
  {
  }

  /** How the two bridges stand after some rooms. */
  ghost predicate Standing(b: Bridge, r: Bridge, s: Bridge, handled: bool, room: string, asked: string, p: seq<Out>,
                           q: seq<Out>) {
    if handled then
      && ChannelOf(r, room).Some? && b.outs <= p
      && SaidToo(r, s, p, Redirect(map[room := asked], room, ChannelOf(r, room).value), q)
    else WaitsFor(r, s, room, asked) && b.outs <= r.outs
  }

  lemma NextRoom(w: Setting, b: Bridge, r: Bridge, s: Bridge, handled: bool, id: string, sync: RoomSync, room: string,
                 asked: string, p: seq<Out>, q: seq<Out>) returns (p': seq<Out>, q': seq<Out>)
    requires Sound(r) && Sound(s) && id in r.rooms && Standing(b, r, s, handled, room, asked, p, q)
    ensures Standing(b, HandleRoom(w, r, id, sync), HandleRoom(w, s, id, sync), handled || id == room, room, asked, p',
                     q')
  {
    p', q' := p, q;
    hide HandleRoom, Sound, Redirect;
    if handled {
      q' := AfterTheRoom(w, r, s, id, sync, p, Redirect(map[room := asked], room, ChannelOf(r, room).value), q);
    } else if id == room {
      p', q' := TheRoom(w, r, s, id, sync, asked);
    } else {
      OtherRoom(w, r, s, id, sync, room, asked);
      var opening := HandleRoomSays(w, r, id, sync);
    }
  }

  lemma {:induction false} AllRooms(w: Setting, b: Bridge, c: Bridge, order: seq<string>, join: map<string, RoomSync>,
                                    room: string, asked: string)
    returns (p: seq<Out>, q: seq<Out>)
    requires Sound(b) && Sound(c) && AllKnown(b, order, join) && AllKnown(c, order, join) && WaitsFor(b, c, room, asked)
    ensures Standing(b, HandleRooms(w, b, order, join), HandleRooms(w, c, order, join), room in order, room, asked, p,
                     q)
  {
    if order == [] {
      p, q := [], [];
    } else {
      hide *;
      var before, last := order[..|order| - 1], order[|order| - 1];
      LastRoom(w, b, order, join);
      LastRoom(w, c, order, join);
      p, q := AllRooms(w, b, c, before, join, room, asked);
      p, q := NextRoom(w, b, HandleRooms(w, b, before, join), HandleRooms(w, c, before, join), room in before, last,
                       join[last], room, asked, p, q);
    }
  }

  lemma GreetBoth(w: Setting, b: Bridge, c: Bridge, join: map<string, RoomSync>, room: string, asked: string)
    requires Sound(b) && Sound(c) && AllValid(join) && WaitsFor(b, c, room, asked)
    ensures WaitsFor(Greet(w, b, join), Greet(w, c, join), room, asked) && b.outs <= Greet(w, b, join).outs
  {
    hide Sound, Absorb, AllValid;
  }

  lemma ReplyAfter(b: Bridge, asked: string, room: string)
    requires ChannelOf(b, room).Some?
    ensures Reply(b, asked, room) == b.(outs := b.outs + Redirect(map[room := asked], room, ChannelOf(b, room).value))
  {
  }

  lemma ReplyBefore(b: Bridge, asked: string, room: string)
    requires Sound(b) && ChannelOf(b, room).None? && room !in b.joining
    ensures Sound(Reply(b, asked, room)) && WaitsFor(b, Reply(b, asked, room), room, asked)
  {
    hide Mapping.Consistent, AllWellNamed;
  }

  lemma SyncBoth(w: Setting, b: Bridge, c: Bridge, asked: string, room: string, response: SyncResponse)
    returns (before: seq<Out>, after: seq<Out>)
    requires Sound(b) && Sound(c) && AllValid(response.join) && room in response.join && WaitsFor(b, c, room, asked)
    ensures ChannelOf(Sync(w, b, response), room).Some? && b.outs <= before
    ensures SaidToo(Sync(w, b, response), Sync(w, c, response), before,
                    Redirect(map[room := asked], room, ChannelOf(Sync(w, b, response), room).value), after)
  {
    hide *;
    var join, order := Cleaned(response.join), Ordered.Keys(response.join.Keys);
    SyncIs(w, b, response);
    SyncIs(w, c, response);
    GreetBoth(w, b, c, join, room, asked);
    before, after := AllRooms(w, Greet(w, b, join), Greet(w, c, join), order, join, room, asked);
    Finished(b, Greet(w, b, join), HandleRooms(w, Greet(w, b, join), order, join),
             HandleRooms(w, Greet(w, c, join), order, join),
             room, asked, before, after);
  }

  lemma Finished(b: Bridge, greeted: Bridge, r: Bridge, s: Bridge, room: string, asked: string, p: seq<Out>,
                 q: seq<Out>)
    requires Standing(greeted, r, s, true, room, asked, p, q) && b.outs <= greeted.outs
    ensures var x, y := r.(first := false), s.(first := false);
      ChannelOf(x, room).Some? && b.outs <= p &&
        SaidToo(x, y, p, Redirect(map[room := asked], room, ChannelOf(x, room).value), q)
  {
    hide Redirect;
  }

  /** Whether the answer to a join or the sync with the room comes first: the bridge ends up in the same state, and in
    * both cases says exactly one redirect if the name asked for is not the channel's, and none otherwise. All else that
    * is said is the same and in the same order. */
  lemma JoinAndSyncCommute(w: Setting, b: Bridge, asked: string, room: string, response: SyncResponse)
    returns (before: seq<Out>, after: seq<Out>)
    requires Sound(b) && AllValid(response.join) && room in response.join
    requires ChannelOf(b, room).None? && room !in b.joining
    ensures Sound(Reply(b, asked, room))
    ensures var replyFirst := Sync(w, Reply(b, asked, room), response);
      var syncFirst := Reply(Sync(w, b, response), asked, room);
      && replyFirst.(outs := []) == syncFirst.(outs := []) && room !in syncFirst.joining
      && ChannelOf(syncFirst, room).Some?
      && var channel := ChannelOf(syncFirst, room).value;
      && var redirect := if asked == channel then [] else [Redirected(asked, channel)];
      && b.outs <= before
      && syncFirst.outs == before + after + redirect && replyFirst.outs == before + redirect + after
  {
    hide *;
    ReplyBefore(b, asked, room);
    before, after := SyncBoth(w, b, Reply(b, asked, room), asked, room, response);
    SyncHandles(w, b, response, room);
    Commuted(Sync(w, b, response), Sync(w, Reply(b, asked, room), response), asked, room, before, after);
  }

  lemma Commuted(b: Bridge, c: Bridge, asked: string, room: string, before: seq<Out>, after: seq<Out>)
    requires ChannelOf(b, room).Some? && room !in b.joining
    requires SaidToo(b, c, before, Redirect(map[room := asked], room, ChannelOf(b, room).value), after)
    ensures var r := Reply(b, asked, room);
      && r.(outs := []) == c.(outs := []) && room !in r.joining && ChannelOf(r, room) == ChannelOf(b, room)
      && var channel := ChannelOf(b, room).value;
      && var redirect := if asked == channel then [] else [Redirected(asked, channel)];
      && r.outs == before + after + redirect && c.outs == before + redirect + after
  {
    ReplyAfter(b, asked, room);
  }

  lemma SyncHandles(w: Setting, b: Bridge, response: SyncResponse, room: string)
    requires Sound(b) && AllValid(response.join) && room in response.join
    ensures room !in Sync(w, b, response).joining
  {
    hide *;
    SyncIs(w, b, response);
    var greeted, order := Greet(w, b, Cleaned(response.join)), Ordered.Keys(response.join.Keys);
    RoomsHandled(w, greeted, order, Cleaned(response.join));
    KeysAreTheRooms(response.join);
    NotWaiting(greeted, HandleRooms(w, greeted, order, Cleaned(response.join)), SetOf(order), room);
  }

  lemma NotWaiting(b: Bridge, r: Bridge, rooms: set<string>, room: string)
    requires Handled(b, r, rooms) && room in rooms
    ensures room !in r.joining
  {
  }
}
