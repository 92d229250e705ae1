/** The nicks that the bridge makes up: what they consist of, and whether they survive in a list of names. */
module Nicks {
  import opened RoomState
  import opened MatrixEvents
  import opened Names
  import opened Mapping
  import opened IrcSession
  import opened MatrixClient
  import opened Timeline
  import opened Bridging
  import opened ChannelLines
  import opened BridgeRuns
  import opened ServerModel
  import opened Text
  import IrcGrammar
  import Ordered
  import Utf8

  // ---- One nick ---------------------------------------------------------------------------------------------

  /** A nick that a user can get: from some display name, while some nicks are taken. */
  ghost predicate MadeUp(uid: string, nick: string) {
    exists displayName, taken :: nick == FreshName(NickBase(uid, displayName), taken)
  }

  /** At the end of a list such a name can be seen, and seen whole. */
  predicate EndsWell(nick: string) {
    nick != "" && !EndsBlank(nick)
  }

  /** The nick that an unknown user gets: it has no character that is to be dropped; it fits the grammar exactly when
    * its base has no character beyond the second plane, and can end a list of names exactly when it was numbered or its
    * base can. */
  lemma NewNickIs(d: Directory, uid: string, displayName: string)
    requires uid !in d.uidToNick
    ensures var base, nick := NickBase(uid, displayName), GetNick(d, uid, displayName).nick;
      && base == (if |Utf8.Encode(Sanitise(displayName))| >= 3 then Sanitise(displayName) else Sanitise(uid))
      && nick == FreshName(base, d.server.users.Keys)
      && MadeUp(uid, nick) && AllKept(base) && AllKept(nick)
      && (IrcGrammar.All(IrcGrammar.IsWord, nick) <==> forall i :: 0 <= i < |base| ==> base[i] <= '\U{1FFFF}')
      && (EndsWell(nick) <==> base in d.server.users || EndsWell(base))
  {
    hide Sanitise, Candidate;
    var base, taken := NickBase(uid, displayName), d.server.users.Keys;
    FreshNamesFitTheGrammarExactly(base, taken);
    if base in taken {
      CandidateIsKept(base, LeastFree(base, taken));
    }
  }

  /** Hence a display name can lead to a nick whose end is cut off. */
  lemma NickThatIsCutOff(channel: string)
    ensures var nick := GetNick(NOBODY, "@someone", "abc" + [NO_BREAK_SPACE]).nick;
      nick == "abc" + [NO_BREAK_SPACE] && NamesText(channel, [Listed(nick, false)]) == NamesHead(channel) + "abc"
  {
    var s := "abc" + [NO_BREAK_SPACE];
    NothingToSanitise(s);
    Utf8AtLeast(s);
    BlankIsCutOff(channel, "abc");
  }

  lemma {:induction false} Utf8AtLeast(s: string)
    ensures |Utf8.Encode(s)| >= |s|
  {
    if s != "" {
      Utf8AtLeast(s[1..]);
    }
  }

  lemma MadeUpIsKept(uid: string, nick: string)
    requires MadeUp(uid, nick)
    ensures AllKept(nick)
  {
    hide Sanitise, FreshName;
    var displayName, taken :| nick == FreshName(NickBase(uid, displayName), taken);
    FreshNamesFitTheGrammarExactly(NickBase(uid, displayName), taken);
  }

  // ---- Every nick -------------------------------------------------------------------------------------------

  /** Everybody but the bridge's own user has a nick that was made up for them. */
  ghost predicate AllMadeUp(d: Directory, own: string) {
    forall u :: u in d.uidToNick && u != own ==> MadeUp(u, d.uidToNick[u])
  }

  lemma GetNickMakesUp(d: Directory, uid: string, displayName: string, own: string)
    requires AllMadeUp(d, own)
    ensures AllMadeUp(GetNick(d, uid, displayName).directory, own)
  {
    hide FreshName, NickBase;
    if uid !in d.uidToNick {
      assert MadeUp(uid, FreshName(NickBase(uid, displayName), d.server.users.Keys));
    }
  }

  lemma {:induction false} GetNicksMakeUp(d: Directory, members: seq<Member>, own: string)
    requires AllMadeUp(d, own)
    ensures AllMadeUp(GetNicks(d, members).directory, own)
  {
    hide AllMadeUp, GetNick;
    if members != [] {
      var before, last := members[..|members| - 1], members[|members| - 1];
      GetNicksMakeUp(d, before, own);
      GetNickMakesUp(GetNicks(d, before).directory, last.userId, last.displayName, own);
    }
  }

  lemma GetChannelMakesUp(d: Directory, room: RoomView, own: string)
    requires AllMadeUp(d, own)
    ensures AllMadeUp(GetChannel(d, room).directory, own)
  {
    hide GetNicks, FreshName, ChannelBase, MembersInOrder, WithChannel, MadeUp;
    if room.roomId !in d.roomToChannel {
      GetNicksMakeUp(MapChannel(d, FreshName(ChannelBase(room), d.server.channels.Keys), room.roomId),
                     MembersInOrder(room), own);
    }
  }

  lemma {:induction false} HandleRoomsMakeUp(w: Setting, b: Bridge, order: seq<string>, join: map<string, RoomSync>,
                                             own: string)
    requires Sound(b) && AllKnown(b, order, join) && AllMadeUp(b.directory, own)
    ensures AllMadeUp(HandleRooms(w, b, order, join).directory, own)
  {
    hide *;
    if order == [] {
      NoRoom(w, b, join);
    } else {
      var before, last := order[..|order| - 1], order[|order| - 1];
      LastRoom(w, b, order, join);
      var mid := HandleRooms(w, b, before, join);
      HandleRoomsMakeUp(w, b, before, join, own);
      GetChannelMakesUp(mid.directory, mid.rooms[last], own);
    }
  }

  lemma SyncMakesUp(w: Setting, b: Bridge, response: SyncResponse, own: string)
    requires Sound(b) && AllValid(response.join) && AllMadeUp(b.directory, own)
    ensures AllMadeUp(Sync(w, b, response).directory, own)
  {
    hide *;
    SyncIs(w, b, response);
    GreetsRooms(w, b, response.join);
    HandleRoomsMakeUp(w, Greet(w, b, Cleaned(response.join)), Ordered.Keys(response.join.Keys), Cleaned(response.join),
                      own);
  }

  lemma StepMakesUp(w: Setting, b: Bridge, a: Action, own: string)
    requires Sound(b) && Fits(a) && AllMadeUp(b.directory, own)
    ensures AllMadeUp(Step(w, b, a).directory, own)
  {
    hide Sound, Sync, Hear, AllValid, AllMadeUp;
    match a
    case Synced(response) => SyncMakesUp(w, b, response, own);
    case Replied(asked, roomId) =>
    case Heard(c) =>
      var more := HearSays(w, b, c);
  }

  /** In every state that the bridge can get into. */
  lemma {:induction false} NicksAreMadeUp(w: Setting, nick: string, uid: string, actions: seq<Action>)
    requires AllFit(actions)
    ensures AllMadeUp(Reached(w, nick, uid, actions).directory, uid)
  {
    if actions == [] {
      hide Sound;
    } else {
      hide *;
      var before, last := actions[..|actions| - 1], actions[|actions| - 1];
      ReachedStep(w, nick, uid, actions);
      NicksAreMadeUp(w, nick, uid, before);
      StepMakesUp(w, Reached(w, nick, uid, before), last, uid);
    }
  }

  lemma OwnNickStays(w: Setting, nick: string, uid: string, actions: seq<Action>)
    requires AllFit(actions)
    ensures var d := Reached(w, nick, uid, actions).directory; uid in d.uidToNick && d.uidToNick[uid] == nick
  {
    NamesAreForever(w, nick, uid, actions, 0);
  }

  /** Nobody but this user has a nick with the character in it. */
  ghost predicate OthersLack(d: Directory, own: string, c: char) {
    forall u :: u in d.uidToNick && u != own ==> c !in d.uidToNick[u]
  }

  lemma MadeUpLack(d: Directory, own: string, c: char)
    requires AllMadeUp(d, own) && IsDropped(c)
    ensures OthersLack(d, own, c)
  {
    hide MadeUp;
    forall u | u in d.uidToNick && u != own
      ensures c !in d.uidToNick[u]
    {
      MadeUpIsKept(u, d.uidToNick[u]);
      assert !IsKept(c);
    }
  }

  /** Whatever people call themselves, no nick ever has a character that is to be dropped, but for the one that the
    * bridge's own user has been given. */
  lemma NicksAlwaysLack(w: Setting, nick: string, uid: string, actions: seq<Action>, c: char)
    requires AllFit(actions) && IsDropped(c)
    ensures OthersLack(Reached(w, nick, uid, actions).directory, uid, c)
  {
    hide *;
    NicksAreMadeUp(w, nick, uid, actions);
    MadeUpLack(Reached(w, nick, uid, actions).directory, uid, c);
  }

  // ---- Lists of names ---------------------------------------------------------------------------------------

  /** Everybody who is in a channel has a nick. */
  lemma ListedLack(d: Directory, own: string, channel: string, c: char)
    requires Mapping.Consistent(d) && own in d.uidToNick && OthersLack(d, own, c) && channel in d.server.channels
    ensures forall l :: l in MembersOf(d.server, channel) ==> c !in l.nick || l.nick == d.uidToNick[own]
  {
    hide ServerModel.Consistent;
    forall l | l in MembersOf(d.server, channel)
      ensures c !in l.nick || l.nick == d.uidToNick[own]
    {
      MembersAreUsers(d.server, channel, l);
      assert d.uidToNick[d.nickToUid[l.nick]] == l.nick;
    }
  }

  lemma MembersAreUsers(server: Server, channel: string, l: Listed)
    requires ServerModel.Consistent(server) && channel in server.channels && l in MembersOf(server, channel)
    ensures l.nick in server.users
  {
    assert l.nick in server.channels[channel].users;
  }

  lemma SoundIsConsistent(b: Bridge)
    requires Sound(b)
    ensures Mapping.Consistent(b.directory)
  {
  }

  /** Which lists can be read in a channel where nobody but the own user has a nick with a space in it. */
  lemma ListsThatRead(me: Identity, d: Directory, own: string, channel: string)
    requires Mapping.Consistent(d) && own in d.uidToNick && OthersLack(d, own, ' ') && channel in d.server.channels
    ensures var nick, chunks := d.uidToNick[own], Chunks(MembersOf(d.server, channel), 10);
      forall i :: 0 <= i < |chunks| ==>
        (ListsNames(me, channel, JoinOuts(me, d.server, channel)[2 + i], chunks[i]) <==>
         EndShows(chunks[i]) && (' ' in nick ==> !Includes(chunks[i], nick)))
  {
    hide *;
    ListedLack(d, own, channel, ' ');
    var chunks := Chunks(MembersOf(d.server, channel), 10);
    JoinNamesEveryMember(me, d.server, channel);
    ChunksAreParts(MembersOf(d.server, channel), 10);
    forall i | 0 <= i < |chunks|
      ensures ReadsBack(chunks[i]) <==>
        EndShows(chunks[i]) && (' ' in d.uidToNick[own] ==> !Includes(chunks[i], d.uidToNick[own]))
    {
      ReadsBackIs(chunks[i], d.uidToNick[own]);
    }
  }

  /** In every state that the bridge can get into, whether a list of names can be read depends on nothing but the end of
    * the last name in it, and on whether the bridge's own user is in it, if that nick has a space in it. */
  lemma OnlyTheEndMatters(w: Setting, nick: string, uid: string, actions: seq<Action>, channel: string)
    requires AllFit(actions) && channel in Reached(w, nick, uid, actions).directory.server.channels
    ensures var server := Reached(w, nick, uid, actions).directory.server;
      var chunks := Chunks(MembersOf(server, channel), 10);
      forall i :: 0 <= i < |chunks| ==>
        (ListsNames(w.me, channel, JoinOuts(w.me, server, channel)[2 + i], chunks[i]) <==>
         EndShows(chunks[i]) && (' ' in nick ==> !Includes(chunks[i], nick)))
  {
    assert IsDropped(' ');
    hide *;
    NicksAlwaysLack(w, nick, uid, actions, ' ');
    OwnNickStays(w, nick, uid, actions);
    SoundIsConsistent(Reached(w, nick, uid, actions));
    ListsThatRead(w.me, Reached(w, nick, uid, actions).directory, uid, channel);
  }

  predicate Includes(names: seq<Listed>, nick: string) {
    exists l :: l in names && l.nick == nick
  }

  lemma ReadsBackIs(names: seq<Listed>, nick: string)
    requires names != [] && forall l :: l in names ==> ' ' !in l.nick || l.nick == nick
    ensures ReadsBack(names) <==> EndShows(names) && (' ' in nick ==> !Includes(names, nick))
  {
    hide EndShows;
    assert forall i :: 0 <= i < |names| ==> names[i] in names;
  }
}
