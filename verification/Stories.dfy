/** What a channel of the IRC client gets to see of its room over a whole run: which messages, in whose name, and which
  * redirects; and which answer to a join is lost. */
module Stories {
  import opened MatrixEvents
  import opened Mapping
  import opened IrcCommands
  import opened IrcSession
  import opened MatrixClient
  import opened Timeline
  import opened Bridging
  import opened ChannelLines
  import opened BridgeRuns
  import Ordered

  // ---- What a run tells about a room ------------------------------------------------------------------------

  function Answered(a: Action, room: string): seq<string> {
    if a.Replied? && a.roomId == room then [a.asked] else []
  }

  /** The names under which the room was asked for, as the answers came in. */
  function Replies(actions: seq<Action>, room: string): seq<string> {
    if actions == [] then [] else Replies(actions[..|actions| - 1], room) + Answered(actions[|actions| - 1], room)
  }

  /** Those whose answer came before the room was first synced. */
  function Early(actions: seq<Action>, room: string): seq<string> {
    if actions == [] then []
    else
      var before := actions[..|actions| - 1];
      Early(before, room) + if Mentioned(before, room) then [] else Answered(actions[|actions| - 1], room)
  }

  function Late(actions: seq<Action>, room: string): seq<string> {
    if actions == [] then []
    else
      var before := actions[..|actions| - 1];
      Late(before, room) + if Mentioned(before, room) then Answered(actions[|actions| - 1], room) else []
  }

  lemma {:induction false} EarlyThenLate(actions: seq<Action>, room: string)
    ensures Replies(actions, room) == Early(actions, room) + Late(actions, room)
    ensures !Mentioned(actions, room) ==> Late(actions, room) == []
  {
    if actions != [] {
      EarlyThenLate(actions[..|actions| - 1], room);
    }
  }

  function LastOf(names: seq<string>): seq<string> {
    if names == [] then [] else [names[|names| - 1]]
  }

  /** A redirect for each of the names that is not the channel's own. */
  function Redirections(channel: string, names: seq<string>): seq<Out> {
    if names == [] then []
    else
      var last := names[|names| - 1];
      Redirections(channel, names[..|names| - 1]) + if last == channel then [] else [Redirected(last, channel)]
  }

  /** The nicks of those who are known when it is the turn of a room in a sync: the bridge's own user, and all whom this
    * and earlier syncs have introduced by then. */
  ghost function NicksAt(nicks: map<string, string>, uid: string, before: seq<Action>, response: SyncResponse,
                         room: string): map<string, string>
    requires room in response.join
  {
    var rooms := UpTo(Ordered.Keys(response.join.Keys), room);
    map u | u in nicks && (u == uid || Introduced(before, u) || IntroducedIn(before, response, rooms, u)) :: nicks[u]
  }

  /** What an action adds to the story of a room: a sync its messages, and the first one also the redirect for the name
    * that was last asked for; an answer to a join, once the room is there, a redirect. */
  ghost function Chapter(w: Setting, nicks: map<string, string>, uid: string, before: seq<Action>, a: Action,
                         room: string, channel: string): seq<Out> {
    match a
    case Synced(response) =>
      if room !in response.join then []
      else
        (if Mentioned(before, room) then [] else Redirections(channel, LastOf(Early(before, room))))
        + TimelineOuts(w, NicksAt(nicks, uid, before, response, room), channel,
                       WithoutEchoes(response.join[room]).timeline)
    case Replied(asked, roomId) =>
      if roomId == room && Mentioned(before, room) then Redirections(channel, [asked]) else []
    case Heard(_) => []
  }

  ghost function Story(w: Setting, nicks: map<string, string>, uid: string, actions: seq<Action>, room: string,
                       channel: string): seq<Out> {
    if actions == [] then []
    else
      var before := actions[..|actions| - 1];
      Story(w, nicks, uid, before, room, channel) +
        Chapter(w, nicks, uid, before, actions[|actions| - 1], room, channel)
  }

  lemma OneMore(actions: seq<Action>, a: Action, room: string)
    ensures Mentioned(actions + [a], room) <==> Mentioned(actions, room) || Mentions(a, room)
    ensures Early(actions + [a], room) ==
      Early(actions, room) + if Mentioned(actions, room) then [] else Answered(a, room)
    ensures Late(actions + [a], room) ==
      Late(actions, room) + if Mentioned(actions, room) then Answered(a, room) else []
    ensures Answered(a, room) == [] ==>
      Early(actions + [a], room) == Early(actions, room) && Late(actions + [a], room) == Late(actions, room)
  {
    assert (actions + [a])[..|actions|] == actions;
  }

  lemma StoryGoesOn(w: Setting, nicks: map<string, string>, uid: string, actions: seq<Action>, a: Action, room: string,
                    channel: string)
    ensures Story(w, nicks, uid, actions + [a], room, channel)
      == Story(w, nicks, uid, actions, room, channel) + Chapter(w, nicks, uid, actions, a, room, channel)
  {
    hide Chapter;
    assert (actions + [a])[..|actions|] == actions;
  }

  lemma {:induction false} NoStoryYet(w: Setting, nicks: map<string, string>, uid: string, actions: seq<Action>,
                                      room: string, channel: string)
    requires !Mentioned(actions, room)
    ensures Story(w, nicks, uid, actions, room, channel) == []
  {
    if actions != [] {
      NoStoryYet(w, nicks, uid, actions[..|actions| - 1], room, channel);
    }
  }

  lemma RedirectionsOfOne(channel: string, name: string)
    ensures Redirections(channel, [name]) == if name == channel then [] else [Redirected(name, channel)]
    ensures Redirections(channel, []) == []
  {
    assert [name][..0] == [];
    assert Redirections(channel, [name][..0]) == [];
  }

  // ---- Every step adds its chapter --------------------------------------------------------------------------

  /** The state of a room's story: until the room comes, the last name asked for it is remembered; then the channel has
    * seen the story up to here. */
  ghost predicate Told(w: Setting, b: Bridge, nicks: map<string, string>, uid: string, actions: seq<Action>,
                       room: string) {
    && AboutChannels(b)
    && (!Mentioned(actions, room) ==>
          && (room in b.joining <==> Early(actions, room) != [])
          && (room in b.joining ==> [b.joining[room]] == LastOf(Early(actions, room))))
    && (ChannelOf(b, room).Some? ==> AboutOf(b, room) == Story(w, nicks, uid, actions, room, ChannelOf(b, room).value))
  }

  ghost predicate KnownAre(b: Bridge, uid: string, actions: seq<Action>) {
    forall u :: u in b.directory.uidToNick <==> u == uid || Introduced(actions, u)
  }

  /** These nicks include all that have been given. */
  ghost predicate Include(nicks: map<string, string>, d: Directory) {
    forall u :: u in d.uidToNick ==> u in nicks && nicks[u] == d.uidToNick[u]
  }

  lemma NicksAtItsTurn(w: Setting, b: Bridge, nicks: map<string, string>, uid: string, before: seq<Action>,
                       response: SyncResponse, room: string)
    requires Sound(b) && AllValid(response.join) && RoomsStand(b, before) && KnownAre(b, uid, before) &&
      room in response.join
    requires Include(nicks, AtItsTurn(w, b, response, room).directory)
    ensures AtItsTurn(w, b, response, room).directory.uidToNick == NicksAt(nicks, uid, before, response, room)
  {
    hide Sound, AllValid, RoomsStand, AtItsTurn, Introduced, IntroducedIn, UpTo, Ordered.Keys;
    var at := AtItsTurn(w, b, response, room);
    assert room in Ordered.Keys(response.join.Keys);
    forall u
      ensures u in at.directory.uidToNick <==>
        || u == uid || Introduced(before, u)
        || IntroducedIn(before, response, UpTo(Ordered.Keys(response.join.Keys), room), u)
    {
      KnownAtItsTurn(w, b, before, response, room, u);
    }
  }

  lemma RoomSaysChapter(w: Setting, b: Bridge, at: Directory, nicks: map<string, string>, uid: string,
                        before: seq<Action>, response: SyncResponse, room: string, channel: string)
    requires Sound(b) && Told(w, b, nicks, uid, before, room) && room in response.join && RoomsStand(b, before)
    requires room in at.roomToChannel && at.roomToChannel[room] == channel &&
      at.uidToNick == NicksAt(nicks, uid, before, response, room)
    ensures RoomSays(w, b.joining, room, at, WithoutEchoes(response.join[room])) ==
      Chapter(w, nicks, uid, before, Synced(response), room, channel)
  {
    hide TimelineOuts, NicksAt, Early, Mentioned, Mapping.Consistent, AllWellNamed, Redirections, AboutOf, Story,
      AboutChannels, WithoutEchoes;
    assert ChannelOf(b, room).Some? <==> Mentioned(before, room);
    if room in b.joining {
      RedirectionsOfOne(channel, b.joining[room]);
    } else {
      RedirectionsOfOne(channel, "");
    }
  }

  lemma SyncTold(w: Setting, b: Bridge, nicks: map<string, string>, uid: string, before: seq<Action>,
                 response: SyncResponse, room: string)
    requires Sound(b) && AllValid(response.join) && RoomsStand(b, before) && KnownAre(b, uid, before)
    requires Include(nicks, Sync(w, b, response).directory) && Told(w, b, nicks, uid, before, room)
    ensures Told(w, Sync(w, b, response), nicks, uid, before + [Synced(response)], room)
  {
    hide *;
    ToldIsAboutChannels(w, b, nicks, uid, before, room);
    var r, a := Sync(w, b, response), Synced(response);
    SyncAbout(w, b, response, room);
    OneMore(before, a, room);
    var channel := if ChannelOf(r, room).Some? then ChannelOf(r, room).value else "";
    StoryGoesOn(w, nicks, uid, before, a, room, channel);
    if room in response.join {
      TurnIsChapter(w, b, nicks, uid, before, response, room, channel);
    }
    SyncToldParts(w, b, r, nicks, uid, before, response, room, channel);
  }

  lemma ToldIsAboutChannels(w: Setting, b: Bridge, nicks: map<string, string>, uid: string, before: seq<Action>,
                            room: string)
    requires Told(w, b, nicks, uid, before, room)
    ensures AboutChannels(b)
  {
    hide AboutChannels, Story, Early, Mentioned, AboutOf;
  }

  /** What is said at its turn is the room's chapter. */
  lemma TurnIsChapter(w: Setting, b: Bridge, nicks: map<string, string>, uid: string, before: seq<Action>,
                      response: SyncResponse, room: string, channel: string)
    requires Sound(b) && AllValid(response.join) && RoomsStand(b, before) && KnownAre(b, uid, before)
    requires Include(nicks, Sync(w, b, response).directory) && Told(w, b, nicks, uid, before, room)
    requires room in response.join
    requires var r := Sync(w, b, response);
      && channel == (if ChannelOf(r, room).Some? then ChannelOf(r, room).value else "")
      && KeepsNames(AtItsTurn(w, b, response, room).directory, r.directory)
    ensures RoomSays(w, b.joining, room, AtItsTurn(w, b, response, room).directory,
                     WithoutEchoes(response.join[room])) ==
      Chapter(w, nicks, uid, before, Synced(response), room, channel)
  {
    hide *;
    var r, at := Sync(w, b, response), AtItsTurn(w, b, response, room).directory;
    ChannelAtItsTurn(w, b, response, room);
    IncludeEarlier(nicks, at, r.directory, room, channel, r);
    NicksAtItsTurn(w, b, nicks, uid, before, response, room);
    RoomSaysChapter(w, b, at, nicks, uid, before, response, room, channel);
  }

  lemma IncludeEarlier(nicks: map<string, string>, at: Directory, d: Directory, room: string, channel: string,
                       r: Bridge)
    requires Include(nicks, d) && KeepsNames(at, d) && r.directory == d && room in at.roomToChannel
    requires channel == if ChannelOf(r, room).Some? then ChannelOf(r, room).value else ""
    ensures Include(nicks, at) && at.roomToChannel[room] == channel
  {
  }

  /** Putting together what is known after a sync. */
  lemma SyncToldParts(w: Setting, b: Bridge, r: Bridge, nicks: map<string, string>, uid: string, before: seq<Action>,
                      response: SyncResponse, room: string, channel: string)
    requires Told(w, b, nicks, uid, before, room) && RoomsStand(b, before) && AboutChannels(r) &&
      Handled(b, r, response.join.Keys)
    requires channel == if ChannelOf(r, room).Some? then ChannelOf(r, room).value else ""
    requires var a := Synced(response);
      && (Mentioned(before + [a], room) <==> Mentioned(before, room) || Mentions(a, room))
      && Early(before + [a], room) == Early(before, room) + (if Mentioned(before, room) then [] else Answered(a, room))
      && Story(w, nicks, uid, before + [a], room, channel) ==
        Story(w, nicks, uid, before, room, channel) + Chapter(w, nicks, uid, before, a, room, channel)
    requires AboutOf(r, room) == AboutOf(b, room)
      + if room in response.join then Chapter(w, nicks, uid, before, Synced(response), room, channel) else []
    ensures Told(w, r, nicks, uid, before + [Synced(response)], room)
  {
    hide Story, Early, Mentioned, AboutChannels, About, NicksAt, TimelineOuts, Redirections;
    assert ChannelOf(b, room).Some? <==> Mentioned(before, room);
    assert Early(before + [Synced(response)], room) == Early(before, room);
    if ChannelOf(b, room).None? {
      NoStoryYet(w, nicks, uid, before, room, channel);
    }
  }

  lemma ReplyTold(w: Setting, b: Bridge, nicks: map<string, string>, uid: string, before: seq<Action>, asked: string,
                  roomId: string, room: string)
    requires Sound(b) && RoomsStand(b, before) && Told(w, b, nicks, uid, before, room)
    ensures Told(w, Reply(b, asked, roomId), nicks, uid, before + [Replied(asked, roomId)], room)
  {
    hide *;
    MentionedHasChannel(b, before, room);
    if room != roomId {
      OtherReplyTold(w, b, nicks, uid, before, asked, roomId, room);
    } else if ChannelOf(b, room).Some? {
      LateReplyTold(w, b, nicks, uid, before, asked, room);
    } else {
      EarlyReplyTold(w, b, nicks, uid, before, asked, room);
    }
  }

  lemma MentionedHasChannel(b: Bridge, before: seq<Action>, room: string)
    requires RoomsStand(b, before)
    ensures ChannelOf(b, room).Some? <==> Mentioned(before, room)
  {
  }

  /** An answer about the room before it comes. */
  lemma EarlyReplyTold(w: Setting, b: Bridge, nicks: map<string, string>, uid: string, before: seq<Action>,
                       asked: string, room: string)
    requires Told(w, b, nicks, uid, before, room) && ChannelOf(b, room).None? && !Mentioned(before, room)
    ensures Told(w, Reply(b, asked, room), nicks, uid, before + [Replied(asked, room)], room)
  {
    var a, r := Replied(asked, room), Reply(b, asked, room);
    OneMore(before, a, room);
    hide Story, Early, Late, Mentioned, AboutChannels, AboutOf;
    SameLines(b, r);
  }

  /** An answer about another room. */
  lemma OtherReplyTold(w: Setting, b: Bridge, nicks: map<string, string>, uid: string, before: seq<Action>,
                       asked: string, roomId: string, room: string)
    requires Sound(b) && Told(w, b, nicks, uid, before, room) && room != roomId
    requires ChannelOf(b, room).Some? <==> Mentioned(before, room)
    ensures Told(w, Reply(b, asked, roomId), nicks, uid, before + [Replied(asked, roomId)], room)
  {
    hide *;
    var a, r := Replied(asked, roomId), Reply(b, asked, roomId);
    OneMore(before, a, room);
    OtherReply(b, asked, roomId, room);
    var channel := if ChannelOf(b, room).Some? then ChannelOf(b, room).value else "";
    OtherChapter(w, nicks, uid, before, asked, roomId, room, channel);
    NothingNewTold(w, b, r, nicks, uid, before, before + [a], room);
  }

  /** A step that leaves the room alone. */
  lemma NothingNewTold(w: Setting, b: Bridge, r: Bridge, nicks: map<string, string>, uid: string, before: seq<Action>,
                       actions: seq<Action>, room: string)
    requires Told(w, b, nicks, uid, before, room)
    requires AboutChannels(b) ==> AboutChannels(r) && AboutOf(r, room) == AboutOf(b, room)
    requires ChannelOf(r, room) == ChannelOf(b, room) && (room in r.joining <==> room in b.joining)
    requires room in b.joining ==> r.joining[room] == b.joining[room]
    requires (Mentioned(actions, room) <==> Mentioned(before, room)) && Early(actions, room) == Early(before, room)
    requires var channel := if ChannelOf(b, room).Some? then ChannelOf(b, room).value else "";
      Story(w, nicks, uid, actions, room, channel) == Story(w, nicks, uid, before, room, channel)
    ensures Told(w, r, nicks, uid, actions, room)
  {
    hide Story, Early, Mentioned, AboutChannels, AboutOf, ChannelOf;
  }

  lemma OtherReply(b: Bridge, asked: string, roomId: string, room: string)
    requires Sound(b) && room != roomId
    ensures !Mentions(Replied(asked, roomId), room) && Answered(Replied(asked, roomId), room) == []
    ensures var r := Reply(b, asked, roomId);
      && (AboutChannels(b) ==> AboutChannels(r) && AboutOf(r, room) == AboutOf(b, room))
      && ChannelOf(r, room) == ChannelOf(b, room) && (room in r.joining <==> room in b.joining)
      && (room in b.joining ==> r.joining[room] == b.joining[room])
  {
    hide AboutChannels, AboutOf, Sound;
    var r := Reply(b, asked, roomId);
    if AboutChannels(b) {
      if ChannelOf(b, roomId).Some? && ChannelOf(b, roomId).value != asked {
        OneChannelEach(b, roomId, room);
        RedirectAbout(b, r, roomId, asked, room);
      } else {
        SameLines(b, r);
      }
    }
  }

  lemma OtherChapter(w: Setting, nicks: map<string, string>, uid: string, before: seq<Action>, asked: string,
                     roomId: string, room: string, channel: string)
    requires room != roomId
    ensures Story(w, nicks, uid, before + [Replied(asked, roomId)], room, channel) ==
      Story(w, nicks, uid, before, room, channel)
  {
    hide Story;
    StoryGoesOn(w, nicks, uid, before, Replied(asked, roomId), room, channel);
  }

  /** An answer about the room after it came. */
  lemma LateReplyTold(w: Setting, b: Bridge, nicks: map<string, string>, uid: string, before: seq<Action>,
                      asked: string, room: string)
    requires Sound(b) && Told(w, b, nicks, uid, before, room) && ChannelOf(b, room).Some? && Mentioned(before, room)
    ensures Told(w, Reply(b, asked, room), nicks, uid, before + [Replied(asked, room)], room)
  {
    var a, r, channel := Replied(asked, room), Reply(b, asked, room), ChannelOf(b, room).value;
    OneMore(before, a, room);
    StoryGoesOn(w, nicks, uid, before, a, room, channel);
    RedirectionsOfOne(channel, asked);
    hide Story, Early, Late, Mentioned, AboutChannels, About, Sound, Redirections;
    if channel != asked {
      OneChannelEach(b, room, room);
      RedirectAbout(b, r, room, asked, room);
    }
  }

  lemma SameLines(b: Bridge, r: Bridge)
    requires r.directory == b.directory && r.outs == b.outs && AboutChannels(b)
    ensures AboutChannels(r) && forall room :: AboutOf(r, room) == AboutOf(b, room)
  {
    hide About;
  }

  lemma RedirectAbout(b: Bridge, r: Bridge, roomId: string, asked: string, room: string)
    requires ChannelOf(b, roomId).Some? && ChannelOf(b, roomId).value in b.directory.channelToRoom && AboutChannels(b)
    requires r == b.(outs := b.outs + [Redirected(asked, ChannelOf(b, roomId).value)])
    requires ChannelOf(b, room).Some? ==> (ChannelOf(b, room) == ChannelOf(b, roomId) <==> room == roomId)
    ensures AboutChannels(r)
    ensures AboutOf(r, room) ==
      AboutOf(b, room) + if room == roomId then [Redirected(asked, ChannelOf(b, roomId).value)] else []
  {
    if ChannelOf(b, room).Some? {
      var c, out := ChannelOf(b, room).value, [Redirected(asked, ChannelOf(b, roomId).value)];
      AboutConcat(c, b.outs, out);
      if room == roomId {
        EverythingAbout(c, out);
      } else {
        NothingAbout(c, out);
      }
    }
  }

  lemma HearTold(w: Setting, b: Bridge, nicks: map<string, string>, uid: string, before: seq<Action>, c: IrcCommand,
                 room: string)
    requires Sound(b) && Told(w, b, nicks, uid, before, room)
    ensures Told(w, Hear(w, b, c), nicks, uid, before + [Heard(c)], room)
  {
    hide Story, Early, Mentioned, AboutChannels, About, Sound, Hear;
    OneMore(before, Heard(c), room);
    var more := HearSays(w, b, c);
    MoreSaid(b, Hear(w, b, c), more, room);
    if ChannelOf(b, room).Some? {
      StoryGoesOn(w, nicks, uid, before, Heard(c), room, ChannelOf(b, room).value);
    }
  }

  lemma StepTold(w: Setting, b: Bridge, nicks: map<string, string>, uid: string, before: seq<Action>, a: Action,
                 room: string)
    requires Sound(b) && Fits(a) && RoomsStand(b, before) && KnownAre(b, uid, before)
    requires Include(nicks, Step(w, b, a).directory) && Told(w, b, nicks, uid, before, room)
    ensures Told(w, Step(w, b, a), nicks, uid, before + [a], room)
  {
    hide Told, Sound, Sync, Reply, Hear, RoomsStand, KnownAre, Include;
    match a
    case Synced(response) => SyncTold(w, b, nicks, uid, before, response, room);
    case Replied(asked, roomId) => ReplyTold(w, b, nicks, uid, before, asked, roomId, room);
    case Heard(command) => HearTold(w, b, nicks, uid, before, command, room);
  }

  lemma NothingTold(w: Setting, nick: string, nicks: map<string, string>, uid: string, room: string)
    ensures Told(w, Reached(w, nick, uid, []), nicks, uid, [], room)
  {
    hide Sound;
  }

  lemma IncludeBefore(nicks: map<string, string>, d: Directory, e: Directory)
    requires KeepsNames(d, e) && Include(nicks, e)
    ensures Include(nicks, d)
  {
  }

  lemma {:induction false} StoriesAreTold(w: Setting, nick: string, nicks: map<string, string>, uid: string,
                                          actions: seq<Action>, room: string)
    requires AllFit(actions) && Include(nicks, Reached(w, nick, uid, actions).directory)
    ensures Told(w, Reached(w, nick, uid, actions), nicks, uid, actions, room)
  {
    hide *;
    if actions == [] {
      NothingTold(w, nick, nicks, uid, room);
    } else {
      var before, last := actions[..|actions| - 1], actions[|actions| - 1];
      ReachedStep(w, nick, uid, actions);
      var b := Reached(w, nick, uid, before);
      StepKeepsNames(w, b, last);
      IncludeBefore(nicks, b.directory, Step(w, b, last).directory);
      StoriesAreTold(w, nick, nicks, uid, before, room);
      RunStands(w, nick, uid, before);
      RunKnows(w, nick, uid, before);
      StepTold(w, b, nicks, uid, before, last, room);
      assert actions == before + [last];
    }
  }

  lemma RunKnows(w: Setting, nick: string, uid: string, actions: seq<Action>)
    requires AllFit(actions)
    ensures KnownAre(Reached(w, nick, uid, actions), uid, actions)
  {
    hide Reached, Introduced;
    forall u
      ensures u in Reached(w, nick, uid, actions).directory.uidToNick <==> u == uid || Introduced(actions, u)
    {
      KnownUsersExactly(w, nick, uid, actions, u);
    }
  }

  /** Over any run, all that the channel of a room gets to see besides its opening is the story of that room, in order:
    * from every sync the messages in the names of those known by then, and the redirects for those who asked for it
    * under another name. */
  lemma EveryChannelTellsItsStory(w: Setting, nick: string, uid: string, actions: seq<Action>, room: string)
    requires AllFit(actions)
    ensures var b := Reached(w, nick, uid, actions);
      && (ChannelOf(b, room).Some? <==> Mentioned(actions, room))
      && (Mentioned(actions, room) ==>
            && About(ChannelOf(b, room).value, b.outs) ==
              Story(w, b.directory.uidToNick, uid, actions, room, ChannelOf(b, room).value))
      && (!Mentioned(actions, room) ==>
            if Early(actions, room) == [] then room !in b.joining
            else room in b.joining && [b.joining[room]] == LastOf(Early(actions, room)))
  {
    hide Reached, About, Story, Early, Mentioned, AboutChannels, Mapping.Consistent, AllWellNamed;
    var b := Reached(w, nick, uid, actions);
    StoriesAreTold(w, nick, b.directory.uidToNick, uid, actions, room);
    ChannelsOfMentionedRooms(w, nick, uid, actions, room);
  }

  // ---- Which answers are followed by a redirect -------------------------------------------------------------

  function RedirectsIn(outs: seq<Out>): seq<Out> {
    if outs == [] then []
    else RedirectsIn(outs[..|outs| - 1]) + if outs[|outs| - 1].Redirected? then [outs[|outs| - 1]] else []
  }

  lemma {:induction false} RedirectsInConcat(a: seq<Out>, b: seq<Out>)
    ensures RedirectsIn(a + b) == RedirectsIn(a) + RedirectsIn(b)
  {
    if b == [] {
      assert a + b == a;
    } else {
      RedirectsInConcat(a, b[..|b| - 1]);
      assert (a + b)[..|a + b| - 1] == a + b[..|b| - 1];
    }
  }

  lemma {:induction false} RedirectsInMessages(w: Setting, nicks: map<string, string>, channel: string,
                                               events: seq<Event>)
    ensures RedirectsIn(TimelineOuts(w, nicks, channel, events)) == []
  {
    if events != [] {
      var before, last := events[..|events| - 1], events[|events| - 1];
      RedirectsInMessages(w, nicks, channel, before);
      RedirectsInConcat(TimelineOuts(w, nicks, channel, before), EventOuts(w, nicks, channel, last));
      NoRedirectsIn(EventOuts(w, nicks, channel, last));
    }
  }

  lemma {:induction false} NoRedirectsIn(outs: seq<Out>)
    requires forall i :: 0 <= i < |outs| ==> !outs[i].Redirected?
    ensures RedirectsIn(outs) == []
  {
    if outs != [] {
      NoRedirectsIn(outs[..|outs| - 1]);
    }
  }

  lemma {:induction false} RedirectsInRedirections(channel: string, names: seq<string>)
    ensures RedirectsIn(Redirections(channel, names)) == Redirections(channel, names)
  {
    if names != [] {
      var before, last := names[..|names| - 1], names[|names| - 1];
      RedirectsInRedirections(channel, before);
      if last == channel {
        assert Redirections(channel, names) == Redirections(channel, before);
      } else {
        var one := [Redirected(last, channel)];
        assert one[..0] == [] && RedirectsIn(one) == RedirectsIn(one[..0]) + one;
        RedirectsInConcat(Redirections(channel, before), one);
      }
    }
  }

  lemma {:induction false} RedirectionsConcat(channel: string, a: seq<string>, b: seq<string>)
    ensures Redirections(channel, a + b) == Redirections(channel, a) + Redirections(channel, b)
  {
    if b == [] {
      assert a + b == a;
    } else {
      RedirectionsConcat(channel, a, b[..|b| - 1]);
      assert (a + b)[..|a + b| - 1] == a + b[..|b| - 1];
    }
  }

  lemma ChapterRedirects(w: Setting, nicks: map<string, string>, uid: string, before: seq<Action>, a: Action,
                         room: string, channel: string)
    ensures RedirectsIn(Chapter(w, nicks, uid, before, a, room, channel)) ==
      if Mentions(a, room) && !Mentioned(before, room) then Redirections(channel, LastOf(Early(before, room)))
      else if Mentioned(before, room) then Redirections(channel, Answered(a, room))
      else []
  {
    hide TimelineOuts, NicksAt, Redirections, RedirectsIn, Mentioned, Early, WithoutEchoes;
    NoRedirectsIn([]);
    RedirectionsOfOne(channel, "");
    match a
    case Synced(response) =>
      if room in response.join {
        var names := if Mentioned(before, room) then [] else LastOf(Early(before, room));
        var messages := TimelineOuts(w, NicksAt(nicks, uid, before, response, room), channel,
                                     WithoutEchoes(response.join[room]).timeline);
        RedirectsInConcat(Redirections(channel, names), messages);
        RedirectsInRedirections(channel, names);
        RedirectsInMessages(w, NicksAt(nicks, uid, before, response, room), channel,
                            WithoutEchoes(response.join[room]).timeline);
      }
    case Replied(asked, roomId) => RedirectsInRedirections(channel, [asked]);
    case Heard(_) =>
  }

  lemma MentionIsNoAnswer(a: Action, room: string)
    ensures Mentions(a, room) ==> Answered(a, room) == []
  {
  }

  lemma {:induction false} StoryRedirects(w: Setting, nicks: map<string, string>, uid: string, actions: seq<Action>,
                                          room: string, channel: string)
    requires Mentioned(actions, room)
    ensures RedirectsIn(Story(w, nicks, uid, actions, room, channel)) ==
      Redirections(channel, LastOf(Early(actions, room)) + Late(actions, room))
  {
    assert actions != [];
    hide *;
    var before, a := actions[..|actions| - 1], actions[|actions| - 1];
    assert actions == before + [a];
    OneMore(before, a, room);
    StoryGoesOn(w, nicks, uid, before, a, room, channel);
    RedirectsInConcat(Story(w, nicks, uid, before, room, channel), Chapter(w, nicks, uid, before, a, room, channel));
    ChapterRedirects(w, nicks, uid, before, a, room, channel);
    if Mentioned(before, room) {
      StoryRedirects(w, nicks, uid, before, room, channel);
      RedirectionsConcat(channel, LastOf(Early(before, room)) + Late(before, room), Answered(a, room));
      OneLater(LastOf(Early(before, room)), Late(before, room), Answered(a, room), Early(before, room));
    } else {
      NoStoryYet(w, nicks, uid, before, room, channel);
      NoRedirectsIn([]);
      EarlyThenLate(before, room);
      MentionIsNoAnswer(a, room);
      NothingLater(LastOf(Early(before, room)), RedirectsIn(Chapter(w, nicks, uid, before, a, room, channel)));
    }
  }

  lemma OneLater(last: seq<string>, late: seq<string>, answered: seq<string>, early: seq<string>)
    ensures last + late + answered == last + (late + answered) && early + [] == early
  {
  }

  lemma NothingLater(last: seq<string>, redirects: seq<Out>)
    ensures last + [] == last && [] + redirects == redirects
  {
  }

  function AllButLast(names: seq<string>): seq<string> {
    if names == [] then [] else names[..|names| - 1]
  }

  predicate AllAre(channel: string, names: seq<string>) {
    forall i :: 0 <= i < |names| ==> names[i] == channel
  }

  /** Every answer to a join is followed by a redirect unless the name is the channel's own: this holds exactly when, of
    * the answers that came before the room did, all but the last were for the channel's own name. With at most one join
    * outstanding when the room comes it always holds. */
  lemma EveryAnswerCountsExactly(w: Setting, nick: string, uid: string, actions: seq<Action>, room: string)
    requires AllFit(actions) && Mentioned(actions, room)
    ensures var b, early := Reached(w, nick, uid, actions), Early(actions, room);
      && ChannelOf(b, room).Some?
      && var channel := ChannelOf(b, room).value;
      && var complete := RedirectsIn(About(channel, b.outs)) == Redirections(channel, Replies(actions, room));
      && (complete <==> AllAre(channel, AllButLast(early)))
      && (|early| <= 1 ==> complete)
  {
    hide *;
    EveryChannelTellsItsStory(w, nick, uid, actions, room);
    var b := Reached(w, nick, uid, actions);
    StoryRedirects(w, b.directory.uidToNick, uid, actions, room, ChannelOf(b, room).value);
    EarlyThenLate(actions, room);
    CountsExactly(ChannelOf(b, room).value, Early(actions, room), Late(actions, room));
  }

  lemma CountsExactly(channel: string, early: seq<string>, late: seq<string>)
    ensures Redirections(channel, LastOf(early) + late) == Redirections(channel, early + late) <==>
      AllAre(channel, AllButLast(early))
    ensures |early| <= 1 ==> AllAre(channel, AllButLast(early))
  {
    hide Redirections;
    var front, rest := AllButLast(early), LastOf(early) + late;
    assert early + late == front + rest;
    RedirectionsConcat(channel, front, rest);
    NoRedirections(channel, front);
    SuffixOnly(Redirections(channel, front), Redirections(channel, rest));
  }

  lemma SuffixOnly(a: seq<Out>, b: seq<Out>)
    ensures b == a + b <==> a == []
  {
    assert |a + b| == |a| + |b|;
    assert [] + b == b;
  }

  lemma {:induction false} NoRedirections(channel: string, names: seq<string>)
    ensures Redirections(channel, names) == [] <==> AllAre(channel, names)
  {
    if names != [] {
      NoRedirections(channel, names[..|names| - 1]);
    }
  }

  /** Two answers and a sync. */
  function Three(one: Action, two: Action, sync: Action): seq<Action> {
    [one] + [two] + [sync]
  }

  lemma TwoEarly(a: Action, c: Action, s: Action, room: string)
    requires a.Replied? && c.Replied? && a.roomId == c.roomId == room && Mentions(s, room)
    ensures Mentioned(Three(a, c, s), room) &&
      LastOf(Early(Three(a, c, s), room)) + Late(Three(a, c, s), room) == [c.asked]
    ensures Replies(Three(a, c, s), room) == [a.asked] + [c.asked]
  {
    NothingAsked(room);
    EarlyThenLate(Three(a, c, s), room);
    hide Early, Late, Mentioned, Replies;
    OneMore([], a, room);
    assert [] + [a] == [a];
    OneMore([a], c, room);
    OneMore([a] + [c], s, room);
  }

  lemma NothingAsked(room: string)
    ensures Early([], room) == [] == Late([], room) && !Mentioned([], room)
  {
  }

  lemma ThreeFit(one: Action, two: Action, sync: Action)
    requires one.Replied? && two.Replied? && Fits(sync)
    ensures AllFit(Three(one, two, sync))
  {
  }

  /** Two joins for the same room, by different names, that are both answered before the room comes: the first name is
    * forgotten. Unless it happens to be the channel's own, a redirect was due for it, and there is none. */
  lemma OverwrittenJoinIsLost(w: Setting, nick: string, uid: string, room: string, one: Action, two: Action,
                              sync: Action)
    requires one.Replied? && two.Replied? && one.roomId == two.roomId == room && one.asked != two.asked
    requires Fits(sync) && Mentions(sync, room)
    ensures AllFit(Three(one, two, sync))
    ensures var b := Reached(w, nick, uid, Three(one, two, sync));
      && ChannelOf(b, room).Some?
      && var channel := ChannelOf(b, room).value;
      && var redirect := Redirected(one.asked, channel);
      && redirect !in RedirectsIn(About(channel, b.outs))
      && (redirect in Redirections(channel, Replies(Three(one, two, sync), room)) <==> one.asked != channel)
  {
    hide *;
    ThreeFit(one, two, sync);
    var actions := Three(one, two, sync);
    TwoEarly(one, two, sync, room);
    EveryChannelTellsItsStory(w, nick, uid, actions, room);
    var b := Reached(w, nick, uid, actions);
    var channel := ChannelOf(b, room).value;
    StoryRedirects(w, b.directory.uidToNick, uid, actions, room, channel);
    RedirectionsConcat(channel, [one.asked], [two.asked]);
    RedirectionsOfOne(channel, one.asked);
    RedirectionsOfOne(channel, two.asked);
  }
}
