/** What the client keeps of a room: nested maps of state events, and the table of members derived from them. */
module RoomState {
  import opened Prelude
  import opened MatrixEvents
  import Ordered

  type StateMap = map<string, map<string, Event>>

  datatype Member = Member(userId: string, displayName: string, moderator: bool)

  datatype RoomView = RoomView(roomId: string, state: StateMap, members: map<string, Member>)

  const MEMBER := "m.room.member"
  const POWER_LEVELS := "m.room.power_levels"
  const MISSPELT_MEMBER := "m.room_member"

  /** Files an event under its type and its state key. */
  function Put(state: StateMap, ev: Event): StateMap
    requires ev.stateKey.Some?
  {
    state[ev.etype := (if ev.etype in state then state[ev.etype] else map[])[ev.stateKey.value := ev]]
  }

  function PutAll(state: StateMap, events: seq<Event>): StateMap
    requires AllState(events)
  {
    if events == [] then state else Put(PutAll(state, events[..|events| - 1]), events[|events| - 1])
  }

  function Lookup(state: StateMap, etype: string, key: string): Option<Event> {
    if etype in state && key in state[etype] then Some(state[etype][key]) else None
  }

  predicate Writes(ev: Event, etype: string, key: string) {
    ev.etype == etype && ev.stateKey == Some(key)
  }

  /** The last of the events with this type and this state key. */
  function LastWriter(events: seq<Event>, etype: string, key: string): Option<Event> {
    if events == [] then None
    else
      var last := events[|events| - 1];
      if Writes(last, etype, key) then Some(last)
      else LastWriter(events[..|events| - 1], etype, key)
  }

  function OrElse<T>(a: Option<T>, b: Option<T>): Option<T> {
    if a.Some? then a else b
  }

  lemma {:induction false} LookupAfterPut(state: StateMap, events: seq<Event>, etype: string, key: string)
    requires AllState(events)
    ensures Lookup(PutAll(state, events), etype, key) ==
      OrElse(LastWriter(events, etype, key), Lookup(state, etype, key))
  {
    if events != [] {
      LookupAfterPut(state, events[..|events| - 1], etype, key);
    }
  }

  lemma {:induction false} LastWriterConcat(a: seq<Event>, b: seq<Event>, etype: string, key: string)
    ensures LastWriter(a + b, etype, key) == OrElse(LastWriter(b, etype, key), LastWriter(a, etype, key))
  {
    if b == [] {
      assert a + b == a;
    } else {
      LastWriterConcat(a, b[..|b| - 1], etype, key);
      assert (a + b)[..|a + b| - 1] == a + b[..|b| - 1];
    }
  }

  /** This event has the type and the key, and none after it has. */
  predicate IsLastWrite(events: seq<Event>, etype: string, key: string, i: int) {
    && 0 <= i < |events| && Writes(events[i], etype, key)
    && forall j :: i < j < |events| ==> !Writes(events[j], etype, key)
  }

  /** The last writer is the event after which nobody writes, and there is none only if nobody ever writes. */
  lemma {:induction false} LastWriterIsLast(events: seq<Event>, etype: string, key: string)
    ensures LastWriter(events, etype, key).None? <==> forall i :: 0 <= i < |events| ==> !Writes(events[i], etype, key)
    ensures LastWriter(events, etype, key).Some? ==> exists i :: IsLastWrite(events, etype, key, i)
    ensures forall i :: IsLastWrite(events, etype, key, i) ==> LastWriter(events, etype, key) == Some(events[i])
  {
    hide Writes;
    if events != [] {
      var before, last := events[..|events| - 1], events[|events| - 1];
      LastWriterIsLast(before, etype, key);
      if Writes(last, etype, key) {
        assert IsLastWrite(events, etype, key, |events| - 1);
      } else {
        forall i
          ensures IsLastWrite(events, etype, key, i) <==> IsLastWrite(before, etype, key, i)
        {
          assert forall j :: 0 <= j < |before| ==> before[j] == events[j];
        }
      }
    }
  }

  // ---- Members ----------------------------------------------------------------------------------------------

  function Membership(ev: Event): string {
    match ev.content.GetStr("membership") { case Some(s) => s case None => "" }
  }

  function DisplayName(ev: Event): string {
    match ev.content.GetStr("displayname") { case Some(s) => s case None => "" }
  }

  predicate IsJoin(ev: Event) {
    Membership(ev) == "join"
  }

  predicate IsModeratorLevel(level: Json) {
    level.AsU64().Some? && level.AsU64().value >= 50
  }

  /** Whether a power-levels event gives this user at least level 50. */
  predicate Empowers(levels: Option<Event>, user: string) {
    match levels
    case None => false
    case Some(ev) =>
      match ev.content.Get("users")
      case Some(JObject(users)) => user in users && IsModeratorLevel(users[user])
      case _ => false
  }

  function MemberEvents(state: StateMap): map<string, Event> {
    if MEMBER in state then state[MEMBER] else map[]
  }

  function MemberOf(state: StateMap, user: string, ev: Event): Member {
    Member(user, DisplayName(ev), Empowers(Lookup(state, POWER_LEVELS, ""), user))
  }

  /** The table that the state says: who has joined, under which name, and with which power. */
  function Derived(state: StateMap): map<string, Member> {
    var events := MemberEvents(state);
    map user | user in events && IsJoin(events[user]) :: MemberOf(state, user, events[user])
  }

  /** Joined members are added or replaced; nobody is ever taken out. */
  function Recalculate(r: RoomView): RoomView {
    r.(members := r.members + Derived(r.state))
  }

  function NewRoom(roomId: string, sync: RoomSync): RoomView
    requires ValidSync(sync)
  {
    Recalculate(RoomView(roomId, PutAll(map[], StateEvents(sync)), map[]))
  }

  predicate Misspelt(events: seq<Event>) {
    exists ev :: ev in events && ev.etype == MISSPELT_MEMBER
  }

  lemma MisspeltOneMore(events: seq<Event>, ev: Event)
    ensures Misspelt(events + [ev]) <==> Misspelt(events) || ev.etype == MISSPELT_MEMBER
  {
    assert forall e :: e in events + [ev] <==> e in events || e == ev;
    assert ev in events + [ev];
  }

  /** Some state event of the sync is of the misspelt type. */
  predicate HasMisspelt(sync: RoomSync) {
    || (exists ev :: ev in sync.state && ev.etype == "m.room_member")
    || (exists ev :: ev in sync.timeline && ev.stateKey.Some? && ev.etype == "m.room_member")
  }

  lemma MisspeltIs(sync: RoomSync)
    requires ValidSync(sync)
    ensures Misspelt(StateEvents(sync)) <==> HasMisspelt(sync)
  {
    FilterKeeps(IsState, sync.timeline);
    var events := StateEvents(sync);
    assert forall ev :: ev in events <==> ev in sync.state || (ev in sync.timeline && IsState(ev));
  }

  function Update(r: RoomView, sync: RoomSync): RoomView
    requires ValidSync(sync)
  {
    var updated := r.(state := PutAll(r.state, StateEvents(sync)));
    if Misspelt(StateEvents(sync)) then Recalculate(updated) else updated
  }

  // ---- State over any number of syncs -----------------------------------------------------------------------

  predicate ValidSyncs(syncs: seq<RoomSync>) {
    forall i :: 0 <= i < |syncs| ==> ValidSync(syncs[i])
  }

  function After(roomId: string, syncs: seq<RoomSync>): RoomView
    requires syncs != [] && ValidSyncs(syncs)
  {
    if |syncs| == 1 then NewRoom(roomId, syncs[0])
    else Update(After(roomId, syncs[..|syncs| - 1]), syncs[|syncs| - 1])
  }

  /** What a sync says last about a type and a key: its timeline comes after its state. */
  function Latest(sync: RoomSync, etype: string, key: string): Option<Event> {
    OrElse(LastWriter(sync.timeline, etype, key), LastWriter(sync.state, etype, key))
  }

  lemma {:induction false} LastWriterIsState(events: seq<Event>, etype: string, key: string)
    ensures LastWriter(Filter(IsState, events), etype, key) == LastWriter(events, etype, key)
  {
    if events != [] {
      var before, last := events[..|events| - 1], events[|events| - 1];
      LastWriterIsState(before, etype, key);
      FilterOneMore(events, |events| - 1);
      assert events[..|events| - 1 + 1] == events;
      var kept := Filter(IsState, before);
      assert (kept + [last])[..|kept|] == kept && kept + [] == kept;
    }
  }

  lemma LatestIs(sync: RoomSync, etype: string, key: string)
    requires ValidSync(sync)
    ensures LastWriter(StateEvents(sync), etype, key) == Latest(sync, etype, key)
  {
    LastWriterIsState(sync.timeline, etype, key);
    LastWriterConcat(sync.state, Filter(IsState, sync.timeline), etype, key);
  }

  /** What is filed after a sync: what it says last, and otherwise what was there before. */
  lemma UpdateLooksUp(r: RoomView, roomId: string, sync: RoomSync, etype: string, key: string)
    requires ValidSync(sync)
    ensures Lookup(Update(r, sync).state, etype, key) == OrElse(Latest(sync, etype, key), Lookup(r.state, etype, key))
    ensures Lookup(NewRoom(roomId, sync).state, etype, key) == Latest(sync, etype, key)
  {
    LatestIs(sync, etype, key);
    LookupAfterPut(r.state, StateEvents(sync), etype, key);
    LookupAfterPut(map[], StateEvents(sync), etype, key);
    hide StateEvents, LastWriter, PutAll;
  }

  predicate NobodyWrites(events: seq<Event>, etype: string, key: string) {
    forall i :: 0 <= i < |events| ==> !Writes(events[i], etype, key)
  }

  /** The same, event by event: the last one of the timeline, or else the last one of the state, or else as before. */
  ghost predicate Follows(found: Option<Event>, sync: RoomSync, etype: string, key: string, before: Option<Event>) {
    && (forall i :: IsLastWrite(sync.timeline, etype, key, i) ==> found == Some(sync.timeline[i]))
    && (NobodyWrites(sync.timeline, etype, key) ==>
          forall i :: IsLastWrite(sync.state, etype, key, i) ==> found == Some(sync.state[i]))
    && (NobodyWrites(sync.timeline, etype, key) && NobodyWrites(sync.state, etype, key) ==> found == before)
  }

  lemma TimelineComesAfterState(r: RoomView, roomId: string, sync: RoomSync, etype: string, key: string)
    requires ValidSync(sync)
    ensures Follows(Lookup(Update(r, sync).state, etype, key), sync, etype, key, Lookup(r.state, etype, key))
    ensures Follows(Lookup(NewRoom(roomId, sync).state, etype, key), sync, etype, key, None)
  {
    UpdateLooksUp(r, roomId, sync, etype, key);
    LastWriterIsLast(sync.timeline, etype, key);
    LastWriterIsLast(sync.state, etype, key);
    hide LastWriter, Update, NewRoom;
  }

  /** Where an event stands: in which sync, in which part of it, and where there. */
  datatype Place = Place(sync: nat, inTimeline: bool, index: nat)

  function Part(sync: RoomSync, inTimeline: bool): seq<Event> {
    if inTimeline then sync.timeline else sync.state
  }

  predicate WritesAt(syncs: seq<RoomSync>, p: Place, etype: string, key: string) {
    && p.sync < |syncs| && p.index < |Part(syncs[p.sync], p.inTimeline)|
    && Writes(Part(syncs[p.sync], p.inTimeline)[p.index], etype, key)
  }

  /** Sync after sync, the timeline of each after its state, and event after event. */
  predicate Before(p: Place, q: Place) {
    || p.sync < q.sync
    || (p.sync == q.sync && !p.inTimeline && q.inTimeline)
    || (p.sync == q.sync && p.inTimeline == q.inTimeline && p.index < q.index)
  }

  ghost predicate WritesLast(syncs: seq<RoomSync>, p: Place, etype: string, key: string) {
    WritesAt(syncs, p, etype, key) && forall q :: WritesAt(syncs, q, etype, key) ==> !Before(p, q)
  }

  /** What the syncs say last. */
  function LatestOf(syncs: seq<RoomSync>, etype: string, key: string): Option<Event> {
    if syncs == [] then None
    else OrElse(Latest(syncs[|syncs| - 1], etype, key), LatestOf(syncs[..|syncs| - 1], etype, key))
  }

  lemma {:induction false} StateIsLatest(roomId: string, syncs: seq<RoomSync>, etype: string, key: string)
    requires syncs != [] && ValidSyncs(syncs)
    ensures Lookup(After(roomId, syncs).state, etype, key) == LatestOf(syncs, etype, key)
  {
    hide Latest, Update, NewRoom;
    var before, last := syncs[..|syncs| - 1], syncs[|syncs| - 1];
    if |syncs| == 1 {
      UpdateLooksUp(RoomView(roomId, map[], map[]), roomId, last, etype, key);
      assert LatestOf(before, etype, key) == None;
    } else {
      StateIsLatest(roomId, before, etype, key);
      UpdateLooksUp(After(roomId, before), roomId, last, etype, key);
    }
  }

  /** The latest word is said at the last place. */
  lemma {:induction false} LatestIsWrittenLast(syncs: seq<RoomSync>, etype: string, key: string) returns (p: Place)
    ensures LatestOf(syncs, etype, key).None? ==> forall q :: !WritesAt(syncs, q, etype, key)
    ensures LatestOf(syncs, etype, key).Some? ==>
      && WritesLast(syncs, p, etype, key)
      && Part(syncs[p.sync], p.inTimeline)[p.index] == LatestOf(syncs, etype, key).value
  {
    p := Place(0, false, 0);
    if syncs != [] {
      hide Writes, LastWriter, LatestOf;
      var n := |syncs| - 1;
      var before, last := syncs[..n], syncs[n];
      LatestUnfolds(syncs, etype, key);
      LastWriterIsLast(last.timeline, etype, key);
      LastWriterIsLast(last.state, etype, key);
      if LastWriter(last.timeline, etype, key).Some? {
        var i :| IsLastWrite(last.timeline, etype, key, i);
        p := Place(n, true, i);
      } else if LastWriter(last.state, etype, key).Some? {
        var i :| IsLastWrite(last.state, etype, key, i);
        p := Place(n, false, i);
      } else {
        p := LatestIsWrittenLast(before, etype, key);
        forall q | WritesAt(syncs, q, etype, key)
          ensures WritesAt(before, q, etype, key)
        {
        }
      }
    }
  }

  lemma LatestUnfolds(syncs: seq<RoomSync>, etype: string, key: string)
    requires syncs != []
    ensures LatestOf(syncs, etype, key) ==
      OrElse(Latest(syncs[|syncs| - 1], etype, key), LatestOf(syncs[..|syncs| - 1], etype, key))
  {
  }

  lemma OnlyOneIsLast(syncs: seq<RoomSync>, p: Place, q: Place, etype: string, key: string)
    requires WritesLast(syncs, p, etype, key) && WritesLast(syncs, q, etype, key)
    ensures p == q
  {
  }

  /** After any syncs the nested maps answer every question as the stream of events does: with the event of that type
    * and key which comes last, by sync, then by part with the timeline after the state, then by index; and with nothing
    * only if there never was one. */
  lemma StateIsLastWriterWins(roomId: string, syncs: seq<RoomSync>, etype: string, key: string)
    requires syncs != [] && ValidSyncs(syncs)
    ensures var found := Lookup(After(roomId, syncs).state, etype, key);
      && (found.None? <==> forall p :: !WritesAt(syncs, p, etype, key))
      && (forall p :: WritesLast(syncs, p, etype, key) ==>
            found == Some(Part(syncs[p.sync], p.inTimeline)[p.index]))
  {
    hide After, LatestOf, Writes;
    StateIsLatest(roomId, syncs, etype, key);
    var last := LatestIsWrittenLast(syncs, etype, key);
    forall p | WritesLast(syncs, p, etype, key)
      ensures p == last
    {
      assert WritesAt(syncs, p, etype, key);
      OnlyOneIsLast(syncs, p, last, etype, key);
    }
  }

  // ---- What a sync says of a user ---------------------------------------------------------------------------

  predicate SaysJoin(ev: Option<Event>) {
    ev.Some? && ev.value.content.GetStr("membership") == Some("join")
  }

  /** The user has a power level of at least this much. */
  predicate HasPower(levels: Option<Event>, user: string, least: nat) {
    && levels.Some?
    && var users := levels.value.content.Get("users");
    && users.Some? && users.value.JObject? && user in users.value.fields
    && var level := users.value.fields[user];
    level.JInt? && least <= level.n < 0x1_0000_0000_0000_0000
  }

  function NameGiven(ev: Event): string {
    var name := ev.content.GetStr("displayname");
    if name.Some? then name.value else ""
  }

  /** The table in terms of the events that are filed. */
  lemma DerivedSays(state: StateMap, user: string)
    ensures var last, levels := Lookup(state, "m.room.member", user), Lookup(state, "m.room.power_levels", "");
      && (user in Derived(state) <==> SaysJoin(last))
      && (user in Derived(state) ==>
          Derived(state)[user] == Member(user, NameGiven(last.value), HasPower(levels, user, 50)))
  {
  }

  /** A room just created lists exactly the users whose last membership in that sync is `join`, with the name they gave,
    * and as moderators those whom the last power levels give at least 50. */
  lemma MembersOfANewRoom(roomId: string, sync: RoomSync, user: string)
    requires ValidSync(sync)
    ensures var r := NewRoom(roomId, sync);
      var last := Latest(sync, "m.room.member", user);
      && (user in r.members <==> SaysJoin(last))
      && (user in r.members ==>
           r.members[user] ==
             Member(user, NameGiven(last.value), HasPower(Latest(sync, "m.room.power_levels", ""), user, 50)))
  {
    UpdateLooksUp(RoomView(roomId, map[], map[]), roomId, sync, MEMBER, user);
    UpdateLooksUp(RoomView(roomId, map[], map[]), roomId, sync, POWER_LEVELS, "");
    hide PutAll, Latest, Derived, SaysJoin, HasPower, Lookup, NameGiven, StateEvents;
    DerivedSays(NewRoom(roomId, sync).state, user);
  }

  // ---- When the members stay right --------------------------------------------------------------------------

  ghost predicate Agrees(r: RoomView) {
    r.members == Derived(r.state)
  }

  /** The sync makes nobody leave who is listed. */
  ghost predicate NobodyLeaves(r: RoomView, sync: RoomSync) {
    forall user :: user in r.members ==>
      Latest(sync, "m.room.member", user).None? || SaysJoin(Latest(sync, "m.room.member", user))
  }

  /** The power levels after a sync. */
  function LevelsAfter(r: RoomView, sync: RoomSync): Option<Event> {
    OrElse(Latest(sync, "m.room.power_levels", ""), Lookup(r.state, "m.room.power_levels", ""))
  }

  /** The sync says of everybody what the table already says. */
  ghost predicate NothingNew(r: RoomView, sync: RoomSync) {
    && (forall user :: Latest(sync, "m.room.member", user).Some? ==>
          SaysWhatIsListed(r, Latest(sync, "m.room.member", user), user))
    && (forall user :: user in r.members ==> r.members[user].moderator == HasPower(LevelsAfter(r, sync), user, 50))
  }

  predicate SaysWhatIsListed(r: RoomView, last: Option<Event>, user: string)
    requires last.Some?
  {
    if SaysJoin(last) then user in r.members && r.members[user].displayName == NameGiven(last.value)
    else user !in r.members
  }

  lemma DerivedAfter(r: RoomView, sync: RoomSync, user: string)
    requires ValidSync(sync) && Agrees(r)
    ensures var d := Derived(PutAll(r.state, StateEvents(sync)));
      var last := Latest(sync, "m.room.member", user);
      var power := HasPower(LevelsAfter(r, sync), user, 50);
      && (user in d <==> if last.Some? then SaysJoin(last) else user in r.members)
      && (user in d && last.Some? ==> d[user] == Member(user, NameGiven(last.value), power))
      && (user in d && last.None? ==> d[user] == r.members[user].(moderator := power))
  {
    UpdateLooksUp(r, r.roomId, sync, MEMBER, user);
    UpdateLooksUp(r, r.roomId, sync, POWER_LEVELS, "");
    hide Latest, PutAll, StateEvents, Misspelt, Derived, SaysJoin, HasPower, Lookup, NameGiven;
    DerivedSays(r.state, user);
    DerivedSays(PutAll(r.state, StateEvents(sync)), user);
  }

  /** The client refreshes the members on events of a type that it misspells, and then only adds. So a table that was
    * right stays right exactly when, with such an event in the sync, nobody leaves, and, without one, the sync changes
    * nothing that the table shows. */
  lemma MembersStayRightExactly(r: RoomView, sync: RoomSync)
    requires ValidSync(sync) && Agrees(r)
    ensures Agrees(Update(r, sync)) <==> if HasMisspelt(sync) then NobodyLeaves(r, sync) else NothingNew(r, sync)
  {
    MisspeltIs(sync);
    var after := Update(r, sync);
    var d := Derived(after.state);
    forall user
      ensures var last := Latest(sync, "m.room.member", user);
        (user in d <==> if last.Some? then SaysJoin(last) else user in r.members)
    {
      DerivedAfter(r, sync, user);
    }
    if HasMisspelt(sync) {
      hide Latest, SaysJoin, Derived, PutAll, HasMisspelt, StateEvents;
      assert after.members == r.members + d;
      assert NobodyLeaves(r, sync) <==> r.members.Keys <= d.Keys;
      assert r.members.Keys <= d.Keys ==> r.members + d == d;
      assert r.members + d == d ==> (r.members + d).Keys == d.Keys;
    } else {
      UnrefreshedStaysRight(r, sync);
    }
  }

  lemma UnrefreshedStaysRight(r: RoomView, sync: RoomSync)
    requires ValidSync(sync) && Agrees(r)
    ensures r.members == Derived(PutAll(r.state, StateEvents(sync))) <==> NothingNew(r, sync)
  {
    hide Derived, PutAll, Latest, HasPower, SaysJoin, LevelsAfter, StateEvents;
    var d := Derived(PutAll(r.state, StateEvents(sync)));
    if NothingNew(r, sync) {
      forall user
        ensures user in d <==> user in r.members
        ensures user in d ==> d[user] == r.members[user]
      {
        DerivedAfter(r, sync, user);
        if user in r.members {
          MemberIsNamed(r, user);
        }
      }
      assert r.members == d;
    }
    if r.members == d {
      forall user
        ensures Latest(sync, "m.room.member", user).Some? ==>
          SaysWhatIsListed(r, Latest(sync, "m.room.member", user), user)
        ensures user in r.members ==> r.members[user].moderator == HasPower(LevelsAfter(r, sync), user, 50)
      {
        DerivedAfter(r, sync, user);
      }
    }
  }

  lemma MemberIsNamed(r: RoomView, user: string)
    requires Agrees(r) && user in r.members
    ensures r.members[user].userId == user
  {
  }

  /** A member who leaves stays listed: the smallest sync that shows it. */
  lemma LeaverStaysListed(roomId: string, user: string, join: Event, leave: Event)
    requires join.etype == leave.etype == "m.room.member" && join.stateKey == leave.stateKey == Some(user)
    requires SaysJoin(Some(join)) && !SaysJoin(Some(leave))
    ensures var r := Update(NewRoom(roomId, RoomSync([], [join])), RoomSync([leave], []));
      user in r.members && user !in Derived(r.state)
  {
    var first, second := RoomSync([], [join]), RoomSync([leave], []);
    var r := NewRoom(roomId, first);
    MembersOfANewRoom(roomId, first, user);
    assert Latest(first, "m.room.member", user) == Some(join);
    assert Latest(second, "m.room.member", user) == Some(leave);
    assert !HasMisspelt(second);
    MisspeltIs(second);
    DerivedAfter(r, second, user);
    hide HasMisspelt, Misspelt, Latest, StateEvents, PutAll;
  }

  // ---- The members over any number of syncs -----------------------------------------------------------------

  /** The table is brought up to date by the first sync, and later by those with an event of the misspelt type. */
  predicate Refreshes(syncs: seq<RoomSync>)
    requires syncs != [] && ValidSyncs(syncs)
  {
    |syncs| == 1 || HasMisspelt(syncs[|syncs| - 1])
  }

  /** What the syncs together say of a user, if they say that the user has joined. */
  function JoinedNow(syncs: seq<RoomSync>, user: string): Option<Member> {
    var last := LatestOf(syncs, "m.room.member", user);
    if SaysJoin(last) then
      Some(Member(user, NameGiven(last.value), HasPower(LatestOf(syncs, "m.room.power_levels", ""), user, 50)))
    else None
  }

  /** What was last said of a user at a refresh that found the user joined. */
  function LastListed(syncs: seq<RoomSync>, user: string): Option<Member>
    requires ValidSyncs(syncs)
  {
    if syncs == [] then None
    else if Refreshes(syncs) && JoinedNow(syncs, user).Some? then JoinedNow(syncs, user)
    else LastListed(syncs[..|syncs| - 1], user)
  }

  lemma DerivedIsJoinedNow(roomId: string, syncs: seq<RoomSync>, user: string)
    requires syncs != [] && ValidSyncs(syncs)
    ensures var d := Derived(After(roomId, syncs).state);
      (user in d <==> JoinedNow(syncs, user).Some?) && (user in d ==> d[user] == JoinedNow(syncs, user).value)
  {
    hide After, LatestOf;
    StateIsLatest(roomId, syncs, MEMBER, user);
    StateIsLatest(roomId, syncs, POWER_LEVELS, "");
    hide Derived, SaysJoin, HasPower, Lookup, NameGiven;
    DerivedSays(After(roomId, syncs).state, user);
  }

  /** After any syncs a user is listed exactly if some refresh found the user joined, and as the last such refresh found
    * them: with the name and the power of that moment. */
  lemma {:induction false} MembersAreThoseLastListed(roomId: string, syncs: seq<RoomSync>, user: string)
    requires syncs != [] && ValidSyncs(syncs)
    ensures var members := After(roomId, syncs).members;
      (user in members <==> LastListed(syncs, user).Some?) &&
        (user in members ==> members[user] == LastListed(syncs, user).value)
  {
    DerivedIsJoinedNow(roomId, syncs, user);
    MisspeltIs(syncs[|syncs| - 1]);
    hide PutAll, Derived, JoinedNow, HasMisspelt, Misspelt, StateEvents;
    if |syncs| > 1 {
      MembersAreThoseLastListed(roomId, syncs[..|syncs| - 1], user);
    } else {
      assert LastListed(syncs[..0], user) == None;
    }
  }

  /** Without events of the misspelt type the table stays for ever what the first sync made it. */
  lemma {:induction false} MembersStayAsTheyWere(roomId: string, syncs: seq<RoomSync>)
    requires syncs != [] && ValidSyncs(syncs) && forall i :: 0 < i < |syncs| ==> !HasMisspelt(syncs[i])
    ensures After(roomId, syncs).members == NewRoom(roomId, syncs[0]).members
  {
    MisspeltIs(syncs[|syncs| - 1]);
    hide HasMisspelt, Misspelt, NewRoom, StateEvents;
    if |syncs| > 1 {
      MembersStayAsTheyWere(roomId, syncs[..|syncs| - 1]);
    }
  }

  // ---- The room of the source -------------------------------------------------------------------------------

  class Room {
    const roomId: string
    var state: StateMap
    var members: map<string, Member>

    function View(): RoomView
      reads this
    {
      RoomView(roomId, state, members)
    }

    constructor FromSync(roomId: string, sync: RoomSync)
      requires ValidSync(sync)
      ensures View() == NewRoom(roomId, sync) && this.roomId == roomId
    {
      this.roomId, state, members := roomId, map[], map[];
      new;
      var seen := Absorb(sync);
      RecalculateMembers();
    }

    method Insert(ev: Event)
      requires ev.stateKey.Some?
      modifies this`state
      ensures state == Put(old(state), ev)
    {
      if ev.etype !in state {
        state := state[ev.etype := map[]];
      }
      state := state[ev.etype := state[ev.etype][ev.stateKey.value := ev]];
    }

    /** Files all state events; reports whether one had the type that triggers a refresh of the members. */
    method Absorb(sync: RoomSync) returns (containedMemberEvent: bool)
      requires ValidSync(sync)
      modifies this`state
      ensures state == PutAll(old(state), StateEvents(sync))
      ensures containedMemberEvent <==> Misspelt(StateEvents(sync))
    {
      hide PutAll, Put, Misspelt;
      containedMemberEvent := false;
      ghost var before, sofar := state, [];
      PutNothing(state);
      for i := 0 to |sync.state|
        invariant sofar == sync.state[..i] && AllState(sofar) && state == PutAll(before, sofar)
        invariant containedMemberEvent <==> Misspelt(sofar)
      {
        containedMemberEvent := containedMemberEvent || sync.state[i].etype == MISSPELT_MEMBER;
        Insert(sync.state[i]);
        PutOneMore(before, sofar, sync.state[i]);
        MisspeltOneMore(sofar, sync.state[i]);
        sofar := sofar + [sync.state[i]];
      }
      for i := 0 to |sync.timeline|
        invariant sofar == sync.state + Filter(IsState, sync.timeline[..i]) && AllState(sofar)
        invariant state == PutAll(before, sofar)
        invariant containedMemberEvent <==> Misspelt(sofar)
      {
        var ev := sync.timeline[i];
        FilterOneMore(sync.timeline, i);
        if ev.stateKey.Some? {
          containedMemberEvent := containedMemberEvent || ev.etype == MISSPELT_MEMBER;
          Insert(ev);
          PutOneMore(before, sofar, ev);
          MisspeltOneMore(sofar, ev);
          sofar := sofar + [ev];
        }
      }
      assert sync.timeline[..|sync.timeline|] == sync.timeline;
    }

    method UpdateFromSync(sync: RoomSync)
      requires ValidSync(sync)
      modifies this
      ensures View() == Update(old(View()), sync)
    {
      var containedMemberEvent := Absorb(sync);
      if containedMemberEvent {
        RecalculateMembers();
      }
    }

    method Moderators() returns (mods: set<string>)
      ensures forall user :: user in mods <==> Empowers(Lookup(state, POWER_LEVELS, ""), user)
    {
      mods := {};
      var levels := Lookup(state, POWER_LEVELS, "");
      if levels.Some? {
        var users := levels.value.content.Get("users");
        if users.Some? && users.value.JObject? {
          var listed := users.value.fields;
          var order := Ordered.Keys(listed.Keys);
          for i := 0 to |order|
            invariant forall user :: user in mods <==> user in order[..i] && IsModeratorLevel(listed[user])
          {
            var level := listed[order[i]].AsU64();
            if level.Some? && level.value >= 50 {
              mods := mods + {order[i]};
            }
          }
        }
      }
    }

    method RecalculateMembers()
      modifies this`members
      ensures View() == Recalculate(old(View()))
    {
      var mods := Moderators();
      hide Derived, Empowers, Membership, DisplayName, Restrict, IsJoin, MemberOf;
      ghost var derived := Derived(state);
      if MEMBER in state {
        var events := state[MEMBER];
        var order := Ordered.Keys(events.Keys);
        RestrictEnds(old(members), derived, order, state);
        for i := 0 to |order|
          invariant members == old(members) + Restrict(derived, order[..i])
        {
          var userId := order[i];
          assert userId in order;
          DerivedEntry(state, userId);
          if Membership(events[userId]) == "join" {
            members := members[userId := Member(userId, DisplayName(events[userId]), userId in mods)];
          }
          RestrictOneMore(old(members), derived, order[..i], userId);
          assert order[..i + 1] == order[..i] + [userId];
        }
        assert order[..|order|] == order;
      } else {
        NobodyDerived(state);
        assert members + map[] == members;
      }
    }
  }

  lemma DerivedEntry(state: StateMap, user: string)
    requires user in MemberEvents(state)
    ensures user in Derived(state) <==> Membership(MemberEvents(state)[user]) == "join"
    ensures user in Derived(state) ==>
      var levels := Lookup(state, POWER_LEVELS, "");
      Derived(state)[user] == Member(user, DisplayName(MemberEvents(state)[user]), Empowers(levels, user))
  {
  }

  lemma NobodyDerived(state: StateMap)
    requires MEMBER !in state
    ensures Derived(state) == map[]
  {
  }

  lemma RestrictEnds(before: map<string, Member>, m: map<string, Member>, keys: seq<string>, state: StateMap)
    requires m == Derived(state) && forall user :: user in MemberEvents(state) ==> user in keys
    ensures before + Restrict(m, []) == before && Restrict(m, keys) == m
  {
  }

  lemma DerivedEntries(state: StateMap)
    ensures forall user :: user in Derived(state) <==> user in MemberEvents(state) && IsJoin(MemberEvents(state)[user])
    ensures forall user :: user in Derived(state) ==>
      Derived(state)[user] == MemberOf(state, user, MemberEvents(state)[user])
  {
  }

  ghost function Restrict(m: map<string, Member>, keys: seq<string>): map<string, Member> {
    map user | user in m && user in keys :: m[user]
  }

  lemma RestrictOneMore(before: map<string, Member>, m: map<string, Member>, keys: seq<string>, key: string)
    ensures before + Restrict(m, keys + [key]) ==
      if key in m then (before + Restrict(m, keys))[key := m[key]] else before + Restrict(m, keys)
  {
  }

  lemma PutNothing(state: StateMap)
    ensures PutAll(state, []) == state && !Misspelt([])
  {
  }

  lemma FilterOneMore(events: seq<Event>, i: nat)
    requires i < |events|
    ensures Filter(IsState, events[..i + 1]) ==
      Filter(IsState, events[..i]) + if IsState(events[i]) then [events[i]] else []
  {
    assert events[..i + 1] == events[..i] + [events[i]];
    FilterConcat(IsState, events[..i], [events[i]]);
    assert [events[i]][1..] == [];
  }

  lemma PutOneMore(state: StateMap, events: seq<Event>, ev: Event)
    requires AllState(events) && ev.stateKey.Some?
    ensures PutAll(state, events + [ev]) == Put(PutAll(state, events), ev)
  {
    assert (events + [ev])[..|events|] == events;
  }
}
