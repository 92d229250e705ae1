/** How Matrix identifiers and IRC names are mapped onto each other, and what always holds between the four maps and the
  * IRC side's picture of the server. */
module Mapping {
  import opened Prelude
  import opened Names
  import opened ServerModel
  import opened RoomState
  import opened MatrixEvents
  import Utf8
  import Decimal
  import Ordered

  datatype Directory = Directory(
    channelToRoom: map<string, string>, roomToChannel: map<string, string>,
    uidToNick: map<string, string>, nickToUid: map<string, string>,
    server: Server)

  const NOBODY: Directory := Directory(map[], map[], map[], map[], EMPTY)

  ghost predicate Inverse(f: map<string, string>, g: map<string, string>) {
    && (forall x :: x in f ==> f[x] in g && g[f[x]] == x)
    && (forall y :: y in g ==> g[y] in f && f[g[y]] == y)
  }

  /** `pending` are channels that are already mapped but not yet opened. */
  ghost predicate ConsistentBut(d: Directory, pending: set<string>) {
    && Inverse(d.channelToRoom, d.roomToChannel)
    && Inverse(d.nickToUid, d.uidToNick)
    && d.channelToRoom.Keys == d.server.channels.Keys + pending
    && d.server.channels.Keys !! pending
    && d.nickToUid.Keys == d.server.users.Keys
    && (forall n :: n in d.server.users ==> d.server.users[n].user == d.nickToUid[n])
    && ServerModel.Consistent(d.server)
  }

  ghost predicate Consistent(d: Directory) {
    ConsistentBut(d, {})
  }

  function InsertNick(d: Directory, nick: string, uid: string): Directory {
    d.(uidToNick := d.uidToNick[uid := nick], nickToUid := d.nickToUid[nick := uid],
       server := WithUser(d.server, nick, uid))
  }

  lemma InsertNickKeeps(d: Directory, nick: string, uid: string, pending: set<string>)
    requires ConsistentBut(d, pending) && nick !in d.nickToUid && uid !in d.uidToNick
    ensures ConsistentBut(InsertNick(d, nick, uid), pending)
  {
    WithUserConsistent(d.server, nick, uid);
  }

  /** What a user would like to be called, or, when too little of that can be shown, who the user is. */
  function NickBase(uid: string, displayName: string): string {
    var nick := Sanitise(displayName);
    if |Utf8.Encode(nick)| < 3 then Sanitise(uid) else nick
  }

  datatype Named = Named(directory: Directory, nick: string)

  ghost function GetNick(d: Directory, uid: string, displayName: string): Named {
    if uid in d.uidToNick then Named(d, d.uidToNick[uid])
    else
      var nick := FreshName(NickBase(uid, displayName), d.server.users.Keys);
      Named(InsertNick(d, nick, uid), nick)
  }

  datatype Registered = Registered(directory: Directory, listed: seq<Listed>)

  /** Finds or makes up nicks for the members, one after the other. */
  ghost function GetNicks(d: Directory, members: seq<Member>): Registered {
    if members == [] then Registered(d, [])
    else
      var last := members[|members| - 1];
      var before := GetNicks(d, members[..|members| - 1]);
      var named := GetNick(before.directory, last.userId, last.displayName);
      Registered(named.directory, before.listed + [Listed(named.nick, last.moderator)])
  }

  /** The later directory still knows everybody, by the same nick, and has the same channels. */
  ghost predicate Extends(d: Directory, e: Directory) {
    && (forall u :: u in d.uidToNick ==> u in e.uidToNick && e.uidToNick[u] == d.uidToNick[u])
    && e.channelToRoom == d.channelToRoom && e.roomToChannel == d.roomToChannel
    && e.server.channels.Keys == d.server.channels.Keys
    && (forall c :: c in d.server.channels ==> e.server.channels[c] == d.server.channels[c])
  }

  /** The listing names every member, in order, by the nick of that member. */
  ghost predicate Lists(d: Directory, members: seq<Member>, listed: seq<Listed>) {
    && |listed| == |members|
    && (forall i :: 0 <= i < |members| ==>
          members[i].userId in d.uidToNick && listed[i] == Listed(d.uidToNick[members[i].userId], members[i].moderator))
  }

  lemma GetNickKeeps(d: Directory, uid: string, displayName: string, pending: set<string>)
    requires ConsistentBut(d, pending)
    ensures var named := GetNick(d, uid, displayName);
      && ConsistentBut(named.directory, pending) && Extends(d, named.directory)
      && uid in named.directory.uidToNick && named.directory.uidToNick[uid] == named.nick
  {
    if uid !in d.uidToNick {
      InsertNickKeeps(d, FreshName(NickBase(uid, displayName), d.server.users.Keys), uid, pending);
    }
  }

  lemma {:induction false} GetNicksKeeps(d: Directory, members: seq<Member>, pending: set<string>)
    requires ConsistentBut(d, pending)
    ensures var r := GetNicks(d, members);
      ConsistentBut(r.directory, pending) && Extends(d, r.directory) && Lists(r.directory, members, r.listed)
  {
    hide ConsistentBut, GetNick;
    if members != [] {
      var last := members[|members| - 1];
      GetNicksKeeps(d, members[..|members| - 1], pending);
      GetNickKeeps(GetNicks(d, members[..|members| - 1]).directory, last.userId, last.displayName, pending);
    }
  }

  // ---- Channels ---------------------------------------------------------------------------------------------

  /** The content of a state event under a key, when it is text. */
  function StateText(room: RoomView, etype: string, key: string): Option<string> {
    match Lookup(room.state, etype, "") { case Some(ev) => ev.content.GetStr(key) case None => None }
  }

  /** The alias of the room, or its name without the characters IRC cannot have, or its identifier. */
  function ChannelBase(room: RoomView): string {
    match StateText(room, "m.room.canonical_alias", "alias")
    case Some(alias) => alias
    case None =>
      match StateText(room, "m.room.name", "name")
      case Some(name) => if Sanitise(name) != [] then "#" + Sanitise(name) else "#" + room.roomId
      case None => "#" + room.roomId
  }

  function Topic(room: RoomView): string {
    match StateText(room, "m.room.topic", "topic") { case Some(topic) => topic case None => "" }
  }

  ghost predicate WellNamed(room: RoomView) {
    forall u :: u in room.members ==> room.members[u].userId == u
  }

  function MembersInOrder(room: RoomView): seq<Member> {
    var order := Ordered.Keys(room.members.Keys);
    seq(|order|, i requires 0 <= i < |order| => assert order[i] in order; room.members[order[i]])
  }

  datatype Opened = Opened(directory: Directory, channel: string, isNew: bool)

  function MapChannel(d: Directory, channel: string, roomId: string): Directory {
    d.(roomToChannel := d.roomToChannel[roomId := channel], channelToRoom := d.channelToRoom[channel := roomId])
  }

  /** The channel of a room; for a room without one, a new channel with the room's members in it. */
  ghost function GetChannel(d: Directory, room: RoomView): Opened {
    if room.roomId in d.roomToChannel then Opened(d, d.roomToChannel[room.roomId], false)
    else
      var channel := FreshName(ChannelBase(room), d.server.channels.Keys);
      var r := GetNicks(MapChannel(d, channel, room.roomId), MembersInOrder(room));
      Opened(r.directory.(server := WithChannel(r.directory.server, channel, Topic(room), r.listed)), channel, true)
  }

  lemma MapChannelKeeps(d: Directory, channel: string, roomId: string)
    requires Consistent(d) && channel !in d.server.channels && roomId !in d.roomToChannel
    ensures ConsistentBut(MapChannel(d, channel, roomId), {channel})
  {
  }

  lemma OpenKeeps(d: Directory, channel: string, topic: string, listed: seq<Listed>)
    requires ConsistentBut(d, {channel}) && Nicks(listed) <= d.server.users.Keys
    ensures Consistent(d.(server := WithChannel(d.server, channel, topic, listed)))
  {
    WithChannelConsistent(d.server, channel, topic, listed);
  }

  lemma MembersInOrderAre(room: RoomView)
    requires WellNamed(room)
    ensures forall u :: u in room.members ==> room.members[u] in MembersInOrder(room)
    ensures forall m :: m in MembersInOrder(room) ==> m.userId in room.members && room.members[m.userId] == m
    ensures forall i, j :: 0 <= i < j < |MembersInOrder(room)| ==>
      MembersInOrder(room)[i].userId != MembersInOrder(room)[j].userId
  {
    var order, members := Ordered.Keys(room.members.Keys), MembersInOrder(room);
    Ordered.KeysAreDistinct(room.members.Keys);
    assert forall i :: 0 <= i < |order| ==> order[i] in order && members[i] == room.members[order[i]];
    forall u | u in room.members
      ensures room.members[u] in members
    {
      assert u in order;
      var i :| 0 <= i < |order| && order[i] == u;
      assert members[i] == room.members[u];
    }
  }

  /** What a new channel is opened with. */
  lemma NewChannelKeeps(d: Directory, room: RoomView)
    requires Consistent(d) && room.roomId !in d.roomToChannel
    ensures var channel := FreshName(ChannelBase(room), d.server.channels.Keys);
      var r := GetNicks(MapChannel(d, channel, room.roomId), MembersInOrder(room));
      var o := GetChannel(d, room);
      && channel !in r.directory.server.channels && ConsistentBut(r.directory, {channel})
      && Nicks(r.listed) <= r.directory.server.users.Keys
      && Consistent(o.directory) && channel !in d.channelToRoom
      && o.directory.roomToChannel == d.roomToChannel[room.roomId := channel]
      && o.directory.channelToRoom == d.channelToRoom[channel := room.roomId]
      && (forall u :: u in d.uidToNick ==> u in o.directory.uidToNick && o.directory.uidToNick[u] == d.uidToNick[u])
  {
    hide GetNicks, ChannelBase, MembersInOrder, Topic, WithChannel, ConsistentBut, Nicks, FreshName;
    var channel := FreshName(ChannelBase(room), d.server.channels.Keys);
    var mapped := MapChannel(d, channel, room.roomId);
    MapChannelKeeps(d, channel, room.roomId);
    GetNicksKeeps(mapped, MembersInOrder(room), {channel});
    var r := GetNicks(mapped, MembersInOrder(room));
    KeysAgree(d, {});
    KeysAgree(r.directory, {channel});
    ListedAreUsers(r.directory, MembersInOrder(room), r.listed, {channel});
    OpenKeeps(r.directory, channel, Topic(room), r.listed);
  }

  lemma KeysAgree(d: Directory, pending: set<string>)
    requires ConsistentBut(d, pending)
    ensures d.channelToRoom.Keys == d.server.channels.Keys + pending && d.server.channels.Keys !! pending
  {
  }

  lemma ListedAreUsers(d: Directory, members: seq<Member>, listed: seq<Listed>, pending: set<string>)
    requires ConsistentBut(d, pending) && Lists(d, members, listed)
    ensures Nicks(listed) <= d.server.users.Keys
  {
    forall n | n in Nicks(listed)
      ensures n in d.server.users
    {
      ListedIsMember(d, members, listed, n);
    }
  }

  /** Whoever has a name keeps it. */
  ghost predicate KeepsNames(d: Directory, e: Directory) {
    && (forall r :: r in d.roomToChannel ==> r in e.roomToChannel && e.roomToChannel[r] == d.roomToChannel[r])
    && (forall c :: c in d.channelToRoom ==> c in e.channelToRoom && e.channelToRoom[c] == d.channelToRoom[c])
    && (forall u :: u in d.uidToNick ==> u in e.uidToNick && e.uidToNick[u] == d.uidToNick[u])
  }

  lemma GetChannelKeeps(d: Directory, room: RoomView)
    requires Consistent(d)
    ensures var o := GetChannel(d, room);
      && Consistent(o.directory) && KeepsNames(d, o.directory)
      && room.roomId in o.directory.roomToChannel && o.directory.roomToChannel[room.roomId] == o.channel
      && (o.isNew <==> room.roomId !in d.roomToChannel)
      && o.directory.roomToChannel == d.roomToChannel[room.roomId := o.channel]
      && (o.isNew ==> o.channel !in d.channelToRoom)
  {
    hide GetNicks, FreshName, Sanitise, ConsistentBut, WithChannel, ChannelBase;
    if room.roomId !in d.roomToChannel {
      NewChannelKeeps(d, room);
    }
  }

  lemma ListedAsMembers(d: Directory, members: seq<Member>, listed: seq<Listed>)
    requires Inverse(d.nickToUid, d.uidToNick) && Lists(d, members, listed)
    requires forall i, j :: 0 <= i < j < |members| ==> members[i].userId != members[j].userId
    ensures forall i, j :: 0 <= i < j < |listed| ==> listed[i].nick != listed[j].nick
  {
    forall i, j | 0 <= i < j < |listed|
      ensures listed[i].nick != listed[j].nick
    {
      assert d.nickToUid[listed[i].nick] == members[i].userId;
      assert d.nickToUid[listed[j].nick] == members[j].userId;
    }
  }

  lemma MemberIsListed(d: Directory, members: seq<Member>, listed: seq<Listed>, m: Member)
    requires Lists(d, members, listed) && m in members
    ensures m.userId in d.uidToNick && Listed(d.uidToNick[m.userId], m.moderator) in listed
    ensures d.uidToNick[m.userId] in Nicks(listed)
  {
    var i :| 0 <= i < |members| && members[i] == m;
    assert listed[i] in listed;
  }

  lemma ListedIsMember(d: Directory, members: seq<Member>, listed: seq<Listed>, nick: string)
    requires Lists(d, members, listed) && Inverse(d.nickToUid, d.uidToNick) && nick in Nicks(listed)
    ensures nick in d.nickToUid && exists m :: m in members && m.userId == d.nickToUid[nick]
  {
    var l :| l in listed && l.nick == nick;
    var i :| 0 <= i < |listed| && listed[i] == l;
    assert members[i] in members;
  }

  /** The entries made from the list of a room's members. */
  lemma ListedEntries(d: Directory, room: RoomView, listed: seq<Listed>)
    requires WellNamed(room) && Inverse(d.nickToUid, d.uidToNick) && Lists(d, MembersInOrder(room), listed)
    ensures forall u :: u in room.members ==>
      && u in d.uidToNick && d.uidToNick[u] in Entries(listed)
      && Entries(listed)[d.uidToNick[u]] == Entry(room.members[u].moderator, false)
    ensures forall n :: n in Entries(listed) ==> n in d.nickToUid && d.nickToUid[n] in room.members
  {
    hide MembersInOrder, Entries;
    var members := MembersInOrder(room);
    MembersInOrderAre(room);
    ListedAsMembers(d, members, listed);
    EntriesKeys(listed);
    forall u | u in room.members
      ensures u in d.uidToNick && Listed(d.uidToNick[u], room.members[u].moderator) in listed
      ensures d.uidToNick[u] in Nicks(listed)
    {
      MemberIsListed(d, members, listed, room.members[u]);
    }
    forall n | n in Nicks(listed)
      ensures n in d.nickToUid && d.nickToUid[n] in room.members
    {
      ListedIsMember(d, members, listed, n);
    }
  }

  /** A new channel lists exactly the members of its room, each under the nick of that member alone, and as operators
    * exactly the moderators. */
  lemma NewChannelListsTheMembers(d: Directory, room: RoomView)
    requires Consistent(d) && room.roomId !in d.roomToChannel && WellNamed(room)
    ensures var o := GetChannel(d, room);
      && o.channel in o.directory.server.channels
      && var users := o.directory.server.channels[o.channel].users;
      && (forall u :: u in room.members ==>
           && u in o.directory.uidToNick && o.directory.uidToNick[u] in users
           && users[o.directory.uidToNick[u]] == Entry(room.members[u].moderator, false))
      && (forall n :: n in users ==> n in o.directory.nickToUid && o.directory.nickToUid[n] in room.members)
      && (forall u, v :: u in room.members && v in room.members && u != v ==>
          o.directory.uidToNick[u] != o.directory.uidToNick[v])
  {
    hide GetNicks, FreshName, MembersInOrder, Entries;
    var channel := FreshName(ChannelBase(room), d.server.channels.Keys);
    var mapped := MapChannel(d, channel, room.roomId);
    MapChannelKeeps(d, channel, room.roomId);
    GetNicksKeeps(mapped, MembersInOrder(room), {channel});
    ListedEntries(GetNicks(mapped, MembersInOrder(room)).directory, room,
                  GetNicks(mapped, MembersInOrder(room)).listed);
  }

  /** From the sync that first mentions a room to the channel on the IRC side: in the channel are exactly the users
    * whose last membership in that sync is `join`, and as operators those with a power level of at least 50. */
  lemma ChannelShowsWhoJoined(d: Directory, roomId: string, sync: RoomSync, user: string)
    requires Consistent(d) && roomId !in d.roomToChannel && ValidSync(sync)
    ensures var o := GetChannel(d, NewRoom(roomId, sync));
      var last := Latest(sync, "m.room.member", user);
      && o.channel in o.directory.server.channels
      && var users := o.directory.server.channels[o.channel].users;
      && ((user in o.directory.uidToNick && o.directory.uidToNick[user] in users) <==> SaysJoin(last))
      && (SaysJoin(last) ==>
           (users[o.directory.uidToNick[user]].operator <==>
            HasPower(Latest(sync, "m.room.power_levels", ""), user, 50)))
  {
    hide NewRoom, GetChannel;
    var room := NewRoom(roomId, sync);
    NewRoomIsWellNamed(roomId, sync);
    NewChannelListsTheMembers(d, room);
    GetChannelKeeps(d, room);
    MembersOfANewRoom(roomId, sync, user);
  }

  /** What the last such state event of a sync says under a key, when it is text. */
  function StateSays(sync: RoomSync, etype: string, key: string): Option<string> {
    var ev := Latest(sync, etype, "");
    if ev.Some? then ev.value.content.GetStr(key) else None
  }

  /** What a room would be called by what its first sync says: the alias before the name, and the name, if anything of
    * it can be shown, before the identifier. */
  function CalledBy(roomId: string, sync: RoomSync): string {
    var alias, name := StateSays(sync, "m.room.canonical_alias", "alias"), StateSays(sync, "m.room.name", "name");
    if alias.Some? then alias.value
    else if name.Some? && Sanitise(name.value) != "" then "#" + Sanitise(name.value)
    else "#" + roomId
  }

  function TopicBy(sync: RoomSync): string {
    var topic := StateSays(sync, "m.room.topic", "topic");
    if topic.Some? then topic.value else ""
  }

  lemma NewRoomIsCalled(roomId: string, sync: RoomSync)
    requires ValidSync(sync)
    ensures ChannelBase(NewRoom(roomId, sync)) == CalledBy(roomId, sync)
    ensures Topic(NewRoom(roomId, sync)) == TopicBy(sync)
  {
    var nobody := RoomView(roomId, map[], map[]);
    UpdateLooksUp(nobody, roomId, sync, "m.room.canonical_alias", "");
    UpdateLooksUp(nobody, roomId, sync, "m.room.name", "");
    UpdateLooksUp(nobody, roomId, sync, "m.room.topic", "");
    assert NewRoom(roomId, sync).roomId == roomId;
    hide NewRoom, Latest, Lookup, Sanitise;
  }

  /** From the first sync of a room to its channel: it is called what the room is called, with a number if that is
    * taken, and has the topic of the room. */
  lemma ChannelIsCalled(d: Directory, roomId: string, sync: RoomSync)
    requires Consistent(d) && roomId !in d.roomToChannel && ValidSync(sync)
    ensures var o, name := GetChannel(d, NewRoom(roomId, sync)), CalledBy(roomId, sync);
      && o.directory.roomToChannel == d.roomToChannel[roomId := o.channel]
      && (name !in d.server.channels ==> o.channel == name)
      && (name in d.server.channels ==>
            exists k: nat ::
              k > 0 && o.channel == name + "[" + Decimal.Text(k) + "]" && o.channel !in d.server.channels)
      && o.channel in o.directory.server.channels
      && o.directory.server.channels[o.channel].topic == TopicBy(sync)
  {
    var room := NewRoom(roomId, sync);
    NewRoomIsWellNamed(roomId, sync);
    NewRoomIsCalled(roomId, sync);
    GetChannelKeeps(d, room);
    FreshNameIs(ChannelBase(room), d.server.channels.Keys);
    hide GetNicks, FreshName, ChannelBase, Topic, MembersInOrder, NewRoom, CalledBy, TopicBy, Entries, Joined;
  }

  lemma NewRoomIsWellNamed(roomId: string, sync: RoomSync)
    requires ValidSync(sync)
    ensures WellNamed(NewRoom(roomId, sync)) && NewRoom(roomId, sync).roomId == roomId
  {
    DerivedEntries(PutAll(map[], StateEvents(sync)));
  }

  lemma UpdateIsWellNamed(r: RoomView, sync: RoomSync)
    requires ValidSync(sync) && WellNamed(r)
    ensures WellNamed(Update(r, sync)) && Update(r, sync).roomId == r.roomId
  {
    hide PutAll, Derived;
    DerivedEntries(PutAll(r.state, StateEvents(sync)));
  }

  // ---- Who gets a nick --------------------------------------------------------------------------------------

  lemma GetNickKnows(d: Directory, uid: string, displayName: string)
    ensures GetNick(d, uid, displayName).directory.uidToNick.Keys == d.uidToNick.Keys + {uid}
  {
  }

  lemma {:induction false} GetNicksKnows(d: Directory, members: seq<Member>, user: string)
    ensures user in GetNicks(d, members).directory.uidToNick <==>
      user in d.uidToNick || exists i :: 0 <= i < |members| && members[i].userId == user
  {
    hide GetNick;
    if members != [] {
      var before, last := members[..|members| - 1], members[|members| - 1];
      GetNicksKnows(d, before, user);
      GetNickKnows(GetNicks(d, before).directory, last.userId, last.displayName);
      if user in GetNicks(d, members).directory.uidToNick && user !in d.uidToNick && user != last.userId {
        var i :| 0 <= i < |before| && before[i].userId == user;
        assert members[i].userId == user;
      }
    }
  }

  lemma GetChannelKnows(d: Directory, room: RoomView, user: string)
    requires WellNamed(room)
    ensures user in GetChannel(d, room).directory.uidToNick <==>
      user in d.uidToNick || (room.roomId !in d.roomToChannel && user in room.members)
  {
    hide GetNicks, FreshName, MembersInOrder, WithChannel;
    if room.roomId !in d.roomToChannel {
      MembersInOrderAre(room);
      GetNicksKnows(MapChannel(d, FreshName(ChannelBase(room), d.server.channels.Keys), room.roomId),
                    MembersInOrder(room), user);
      if user in room.members {
        var i :| 0 <= i < |MembersInOrder(room)| && MembersInOrder(room)[i] == room.members[user];
      }
    }
  }
}
