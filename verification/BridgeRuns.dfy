/** What holds in every state that the bridge can get into: who has a name, which rooms have channels, and what a sync
  * of a room makes the bridge say. */
module BridgeRuns {
  import opened Prelude
  import opened MatrixEvents
  import opened RoomState
  import opened Mapping
  import opened IrcSession
  import opened MatrixClient
  import opened Timeline
  import opened Bridging
  import opened ChannelLines
  import Ordered

  // ---- Rooms ------------------------------------------------------------------------------------------------

  predicate Mentions(a: Action, room: string) {
    a.Synced? && room in a.response.join
  }

  predicate Mentioned(actions: seq<Action>, room: string) {
    actions != [] && (Mentioned(actions[..|actions| - 1], room) || Mentions(actions[|actions| - 1], room))
  }

  function Responses(actions: seq<Action>): seq<SyncResponse> {
    if actions == [] then []
    else
      var last := actions[|actions| - 1];
      Responses(actions[..|actions| - 1]) + if last.Synced? then [last.response] else []
  }

  lemma {:induction false} ResponsesAreValid(actions: seq<Action>)
    requires AllFit(actions)
    ensures AllResponsesValid(Responses(actions))
  {
    if actions != [] {
      hide ValidSync, AllValid;
      ResponsesAreValid(actions[..|actions| - 1]);
    }
  }

  lemma SyncRooms(w: Setting, b: Bridge, response: SyncResponse)
    requires Sound(b) && AllValid(response.join) && b.directory.roomToChannel.Keys == b.rooms.Keys
    ensures AllValid(Cleaned(response.join))
    ensures var r := Sync(w, b, response);
      r.rooms == Absorb(b.rooms, Cleaned(response.join)) && r.directory.roomToChannel.Keys == r.rooms.Keys
  {
    hide *;
    SyncIs(w, b, response);
    var greeted, order := Greet(w, b, Cleaned(response.join)), Ordered.Keys(response.join.Keys);
    var handled := HandleRooms(w, greeted, order, Cleaned(response.join));
    RoomsHandled(w, greeted, order, Cleaned(response.join));
    GreetsRooms(w, b, response.join);
    KeysHandled(greeted, handled, order);
  }

  lemma KeysHandled(b: Bridge, r: Bridge, order: seq<string>)
    requires Handled(b, r, SetOf(order))
    ensures r.directory.roomToChannel.Keys == b.directory.roomToChannel.Keys + SetOf(order)
    ensures forall id :: id in SetOf(order) <==> id in order
  {
  }

  /** The rooms with channels are at any time the rooms that the Matrix client knows, and these are what the syncs made
    * of them; which is why no room is ever missing when a sync is handled. */
  lemma {:induction false} EveryRoomHasAChannel(w: Setting, nick: string, uid: string, actions: seq<Action>)
    requires AllFit(actions)
    ensures AllResponsesValid(Responses(actions))
    ensures var b := Reached(w, nick, uid, actions);
      b.rooms == Rooms(Responses(actions)) && b.directory.roomToChannel.Keys == b.rooms.Keys
  {
    ResponsesAreValid(actions);
    if actions == [] {
      hide Sound;
    } else {
      hide *;
      var before, last := actions[..|actions| - 1], actions[|actions| - 1];
      ReachedStep(w, nick, uid, actions);
      EveryRoomHasAChannel(w, nick, uid, before);
      StepRooms(w, Reached(w, nick, uid, before), before, last);
      assert actions == before + [last];
    }
  }

  lemma StepRooms(w: Setting, b: Bridge, before: seq<Action>, a: Action)
    requires Sound(b) && Fits(a) && AllResponsesValid(Responses(before)) && AllResponsesValid(Responses(before + [a]))
    requires b.rooms == Rooms(Responses(before)) && b.directory.roomToChannel.Keys == b.rooms.Keys
    ensures var r := Step(w, b, a);
      r.rooms == Rooms(Responses(before + [a])) && r.directory.roomToChannel.Keys == r.rooms.Keys
  {
    hide Sound, Sync, Hear, Absorb, AllValid;
    assert (before + [a])[..|before|] == before;
    assert Responses(before) + [] == Responses(before);
    match a
    case Synced(response) =>
      SyncRooms(w, b, response);
      assert Responses(before + [a])[..|Responses(before)|] == Responses(before);
    case Replied(asked, roomId) =>
    case Heard(c) =>
      var more := HearSays(w, b, c);
  }

  /** A room has a channel from the first sync on that mentions it. */
  lemma {:induction false} ChannelsOfMentionedRooms(w: Setting, nick: string, uid: string, actions: seq<Action>,
                                                    room: string)
    requires AllFit(actions)
    ensures ChannelOf(Reached(w, nick, uid, actions), room).Some? <==> Mentioned(actions, room)
  {
    if actions == [] {
      hide Sound;
    } else {
      hide *;
      var before, last := actions[..|actions| - 1], actions[|actions| - 1];
      ReachedStep(w, nick, uid, actions);
      ChannelsOfMentionedRooms(w, nick, uid, before, room);
      StepMentions(w, Reached(w, nick, uid, before), last, room);
      MentionedStep(actions, room);
    }
  }

  lemma MentionedStep(actions: seq<Action>, room: string)
    requires actions != []
    ensures Mentioned(actions, room) <==>
      Mentioned(actions[..|actions| - 1], room) || Mentions(actions[|actions| - 1], room)
  {
  }

  lemma StepMentions(w: Setting, b: Bridge, a: Action, room: string)
    requires Sound(b) && Fits(a)
    ensures ChannelOf(Step(w, b, a), room).Some? <==> ChannelOf(b, room).Some? || Mentions(a, room)
  {
    hide Sound, Sync, Hear, AllValid;
    match a
    case Synced(response) => SyncHandled(w, b, response);
    case Replied(asked, roomId) =>
    case Heard(c) =>
      var more := HearSays(w, b, c);
  }

  // ---- The maps ---------------------------------------------------------------------------------------------

  /** In every state the bridge can get into: channels and rooms are paired one to one, and so are nicks and users; the
    * channels and nicks are those that the IRC side knows; it and the users agree on who is where; and no room with a
    * channel is waited for. */
  lemma TheMapsAlwaysAgree(w: Setting, nick: string, uid: string, actions: seq<Action>)
    requires AllFit(actions)
    ensures var b := Reached(w, nick, uid, actions);
      var d := b.directory;
      && d.channelToRoom.Items == (set r | r in d.roomToChannel :: (d.roomToChannel[r], r))
      && d.nickToUid.Items == (set u | u in d.uidToNick :: (d.uidToNick[u], u))
      && d.channelToRoom.Keys == d.server.channels.Keys && d.nickToUid.Keys == d.server.users.Keys
      && (forall n :: n in d.server.users ==>
          d.server.users[n].user == d.nickToUid[n] && d.server.users[n].channels <= d.channelToRoom.Keys)
      && (forall c :: c in d.server.channels ==> d.server.channels[c].users.Keys <= d.nickToUid.Keys)
      && (forall n, c :: n in d.server.users && c in d.server.channels ==>
          (n in d.server.channels[c].users <==> c in d.server.users[n].channels))
      && b.joining.Keys !! d.roomToChannel.Keys
  {
    hide Reached, AllWellNamed;
    var d := Reached(w, nick, uid, actions).directory;
    InverseItems(d.channelToRoom, d.roomToChannel);
    InverseItems(d.nickToUid, d.uidToNick);
  }

  lemma InverseItems(f: map<string, string>, g: map<string, string>)
    requires Inverse(f, g)
    ensures f.Items == (set y | y in g :: (g[y], y))
  {
    var pairs := set y | y in g :: (g[y], y);
    forall p | p in f.Items
      ensures p in pairs
    {
      assert p.0 in f && f[p.0] == p.1;
      assert p == (g[p.1], p.1);
    }
    forall p | p in pairs
      ensures p in f.Items
    {
      var y :| y in g && p == (g[y], y);
      assert g[y] in f && f[g[y]] == y;
    }
  }

  // ---- Names ------------------------------------------------------------------------------------------------

  lemma StepKeepsNames(w: Setting, b: Bridge, a: Action)
    requires Sound(b) && Fits(a)
    ensures KeepsNames(b.directory, Step(w, b, a).directory)
  {
    hide Sound, Sync, Hear, AllValid;
    match a
    case Synced(response) => SyncHandled(w, b, response);
    case Replied(asked, roomId) =>
    case Heard(c) =>
      var more := HearSays(w, b, c);
  }

  /** A room keeps its channel and a user keeps their nick, whatever happens later. */
  lemma {:induction false} NamesAreForever(w: Setting, nick: string, uid: string, actions: seq<Action>, n: nat)
    requires AllFit(actions) && n <= |actions|
    ensures AllFit(actions[..n])
    ensures KeepsNames(Reached(w, nick, uid, actions[..n]).directory, Reached(w, nick, uid, actions).directory)
    decreases |actions|
  {
    hide Reached, Step;
    if n == |actions| {
      assert actions[..n] == actions;
    } else {
      var before, last := actions[..|actions| - 1], actions[|actions| - 1];
      assert before[..n] == actions[..n];
      NamesAreForever(w, nick, uid, before, n);
      hide *;
      ReachedStep(w, nick, uid, actions);
      StepKeepsNames(w, Reached(w, nick, uid, before), last);
      KeepsNamesThen(Reached(w, nick, uid, before[..n]).directory, Reached(w, nick, uid, before).directory,
                     Reached(w, nick, uid, actions).directory);
    }
  }

  // ---- Who has a nick ---------------------------------------------------------------------------------------

  /** The user is in a room of the list that has no channel yet. */
  ghost predicate InANewRoom(b: Bridge, order: seq<string>, user: string) {
    exists id :: id in order && id in b.rooms && id !in b.directory.roomToChannel && user in b.rooms[id].members
  }

  lemma HandleRoomKnows(w: Setting, b: Bridge, id: string, sync: RoomSync, user: string)
    requires Sound(b) && id in b.rooms
    ensures user in HandleRoom(w, b, id, sync).directory.uidToNick <==>
      user in b.directory.uidToNick || (id !in b.directory.roomToChannel && user in b.rooms[id].members)
  {
    hide GetChannel, JoinOuts, TimelineOuts, Mapping.Consistent;
    GetChannelKnows(b.directory, b.rooms[id], user);
  }

  lemma {:induction false} HandleRoomsKnow(w: Setting, b: Bridge, order: seq<string>, join: map<string, RoomSync>,
                                           user: string)
    requires Sound(b) && AllKnown(b, order, join)
    ensures user in HandleRooms(w, b, order, join).directory.uidToNick <==>
      user in b.directory.uidToNick || InANewRoom(b, order, user)
  {
    if order == [] {
      hide Sound;
    } else {
      hide *;
      var before, last := order[..|order| - 1], order[|order| - 1];
      LastRoom(w, b, order, join);
      var mid := HandleRooms(w, b, before, join);
      HandleRoomsKnow(w, b, before, join, user);
      HandleRoomKnows(w, mid, last, join[last], user);
      RoomsHandled(w, b, before, join);
      KeysHandled(b, mid, before);
      OneRoomMore(b, mid, before, last, order, user);
    }
  }

  lemma OneRoomMore(b: Bridge, mid: Bridge, before: seq<string>, last: string, order: seq<string>, user: string)
    requires mid.rooms == b.rooms && last in b.rooms && forall id :: id in order <==> id in before || id == last
    requires forall id :: id in mid.directory.roomToChannel <==> id in b.directory.roomToChannel || id in before
    ensures InANewRoom(b, order, user) <==>
      InANewRoom(b, before, user) || (last !in mid.directory.roomToChannel && user in b.rooms[last].members)
  {
  }

  /** The user's last membership in the sync is `join`. */
  predicate HasJoined(sync: RoomSync, user: string) {
    SaysJoin(Latest(sync, "m.room.member", user))
  }

  /** One of these rooms of a sync comes for the first time, and the user is in it. */
  ghost predicate IntroducedIn(before: seq<Action>, response: SyncResponse, rooms: seq<string>, user: string) {
    exists room :: room in rooms && room in response.join && !Mentioned(before, room) &&
      HasJoined(WithoutEchoes(response.join[room]), user)
  }

  ghost predicate Introduces(before: seq<Action>, a: Action, user: string) {
    a.Synced? && IntroducedIn(before, a.response, Ordered.Keys(a.response.join.Keys), user)
  }

  ghost predicate Introduced(actions: seq<Action>, user: string) {
    actions != [] &&
      (Introduced(actions[..|actions| - 1], user) || Introduces(actions[..|actions| - 1], actions[|actions| - 1], user))
  }

  lemma NewRoomHasJoined(rooms: map<string, RoomView>, join: map<string, RoomSync>, room: string, user: string)
    requires AllValid(join) && room in join && room !in rooms && ValidSync(join[room])
    ensures user in Absorb(rooms, join)[room].members <==> HasJoined(join[room], user)
  {
    hide NewRoom;
    MembersOfANewRoom(room, join[room], user);
  }

  /** What is known about rooms after a run. */
  ghost predicate RoomsStand(b: Bridge, actions: seq<Action>) {
    && b.directory.roomToChannel.Keys == b.rooms.Keys
    && forall room :: ChannelOf(b, room).Some? <==> Mentioned(actions, room)
  }

  /** Going through the first rooms of a sync makes exactly those known whom they introduce. */
  lemma RoomsKnow(w: Setting, b: Bridge, before: seq<Action>, response: SyncResponse, n: nat, user: string)
    requires Sound(b) && AllValid(response.join) && RoomsStand(b, before) && n <= |response.join.Keys|
    ensures AllValid(Cleaned(response.join))
    ensures var greeted, order := Greet(w, b, Cleaned(response.join)), Ordered.Keys(response.join.Keys)[..n];
      && AllKnown(greeted, order, Cleaned(response.join))
      && (user in HandleRooms(w, greeted, order, Cleaned(response.join)).directory.uidToNick <==>
            user in b.directory.uidToNick || IntroducedIn(before, response, order, user))
  {
    hide *;
    SyncIs(w, b, response);
    var greeted, keys := Greet(w, b, Cleaned(response.join)), Ordered.Keys(response.join.Keys);
    KnownPrefix(greeted, keys, Cleaned(response.join), n);
    HandleRoomsKnow(w, greeted, keys[..n], Cleaned(response.join), user);
    GreetsRooms(w, b, response.join);
    NewRoomsIntroduce(b, greeted, keys[..n], before, response, user);
  }

  lemma KnownPrefix(b: Bridge, order: seq<string>, join: map<string, RoomSync>, n: nat)
    requires AllKnown(b, order, join) && n <= |order|
    ensures AllKnown(b, order[..n], join)
  {
  }

  lemma NewRoomsIntroduce(b: Bridge, greeted: Bridge, order: seq<string>, before: seq<Action>, response: SyncResponse,
                          user: string)
    requires AllValid(response.join) && AllValid(Cleaned(response.join)) && RoomsStand(b, before)
    requires greeted.directory == b.directory && greeted.rooms == Absorb(b.rooms, Cleaned(response.join))
    requires AllKnown(greeted, order, Cleaned(response.join))
    ensures InANewRoom(greeted, order, user) <==> IntroducedIn(before, response, order, user)
  {
    hide Absorb, HasJoined, Mentioned, AllValid, ValidSync, WithoutEchoes;
    var join := response.join;
    forall room | room in order
      ensures room in join && room in greeted.rooms
      ensures room !in b.rooms ==> (user in greeted.rooms[room].members <==> HasJoined(WithoutEchoes(join[room]), user))
      ensures room in b.rooms <==> Mentioned(before, room)
    {
      assert room in Cleaned(join);
      CleanedRoom(join, room);
      assert ChannelOf(b, room).Some? <==> Mentioned(before, room);
      if room !in b.rooms {
        NewRoomHasJoined(b.rooms, Cleaned(join), room, user);
      }
    }
  }

  lemma SyncKnows(w: Setting, b: Bridge, before: seq<Action>, response: SyncResponse, user: string)
    requires Sound(b) && AllValid(response.join) && RoomsStand(b, before)
    ensures user in Sync(w, b, response).directory.uidToNick <==>
      user in b.directory.uidToNick || Introduces(before, Synced(response), user)
  {
    var keys := Ordered.Keys(response.join.Keys);
    assert keys[..|keys|] == keys;
    assert Introduces(before, Synced(response), user) <==> IntroducedIn(before, response, keys, user);
    hide *;
    SyncIs(w, b, response);
    RoomsKnow(w, b, before, response, |keys|, user);
  }

  /** Whoever is known when it is the turn of a room. */
  lemma KnownAtItsTurn(w: Setting, b: Bridge, before: seq<Action>, response: SyncResponse, room: string, user: string)
    requires Sound(b) && AllValid(response.join) && RoomsStand(b, before) && room in response.join
    ensures room in Ordered.Keys(response.join.Keys)
    ensures user in AtItsTurn(w, b, response, room).directory.uidToNick <==>
      || user in b.directory.uidToNick
      || IntroducedIn(before, response, UpTo(Ordered.Keys(response.join.Keys), room), user)
  {
    hide Sound, HandleRooms, Greet, Cleaned, AllValid, RoomsStand, IntroducedIn, AllKnown, AtItsTurn, Ordered.Keys;
    TurnIs(w, b, response, room);
    RoomsKnow(w, b, before, response, IndexOf(Ordered.Keys(response.join.Keys), room) + 1, user);
  }

  lemma {:induction false} RunStands(w: Setting, nick: string, uid: string, actions: seq<Action>)
    requires AllFit(actions)
    ensures RoomsStand(Reached(w, nick, uid, actions), actions)
  {
    hide Reached, ChannelOf, Mentioned;
    EveryRoomHasAChannel(w, nick, uid, actions);
    forall room
      ensures ChannelOf(Reached(w, nick, uid, actions), room).Some? <==> Mentioned(actions, room)
    {
      ChannelsOfMentionedRooms(w, nick, uid, actions, room);
    }
  }

  /** At any time the users with a nick, whose messages are passed on, are the bridge's own user and those who were in
    * some room when that room first came down the sync. Somebody who joins later is not among them. */
  lemma {:induction false} KnownUsersExactly(w: Setting, nick: string, uid: string, actions: seq<Action>, user: string)
    requires AllFit(actions)
    ensures user in Reached(w, nick, uid, actions).directory.uidToNick <==> user == uid || Introduced(actions, user)
  {
    if actions == [] {
      hide Sound;
    } else {
      var before, last := actions[..|actions| - 1], actions[|actions| - 1];
      hide *;
      ReachedStep(w, nick, uid, actions);
      KnownUsersExactly(w, nick, uid, before, user);
      var b := Reached(w, nick, uid, before);
      RunStands(w, nick, uid, before);
      StepKnows(w, b, before, last, user);
      IntroducedStep(actions, user);
    }
  }

  lemma IntroducedStep(actions: seq<Action>, user: string)
    requires actions != []
    ensures Introduced(actions, user) <==>
      Introduced(actions[..|actions| - 1], user) || Introduces(actions[..|actions| - 1], actions[|actions| - 1], user)
  {
  }

  lemma StepKnows(w: Setting, b: Bridge, before: seq<Action>, a: Action, user: string)
    requires Sound(b) && Fits(a) && RoomsStand(b, before)
    ensures user in Step(w, b, a).directory.uidToNick <==> user in b.directory.uidToNick || Introduces(before, a, user)
  {
    hide Sound, Sync, Hear, AllValid, Introduces, RoomsStand;
    match a
    case Synced(response) => SyncKnows(w, b, before, response, user);
    case Replied(asked, roomId) => NobodyNew(before, a, user);
    case Heard(c) =>
      var more := HearSays(w, b, c);
      NobodyNew(before, a, user);
  }

  lemma NobodyNew(before: seq<Action>, a: Action, user: string)
    requires !a.Synced?
    ensures !Introduces(before, a, user)
  {
  }
}
