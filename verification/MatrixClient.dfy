/** The Matrix session: it drops the echoes of its own messages and keeps the state of every room. */
module MatrixClient {
  import opened Prelude
  import opened MatrixEvents
  import opened RoomState
  import Decimal
  import Ordered

  const ECHO_PREFIX := "mircd-"

  /** An event that this client did not send itself. */
  predicate IsForeign(ev: Event) {
    !(ev.transactionId.Some? && ECHO_PREFIX <= ev.transactionId.value)
  }

  /** An echo is known by its transaction identifier, which begins like all that the client makes up. */
  lemma EchoesExactly(ev: Event)
    ensures !IsForeign(ev) <==> exists rest: string :: ev.transactionId == Some("mircd-" + rest)
  {
    if !IsForeign(ev) {
      var id := ev.transactionId.value;
      assert id == "mircd-" + id[6..];
    }
  }

  /** So none of its own messages comes back, whatever number it was given. */
  lemma OwnMessagesAreEchoes(ev: Event, n: nat)
    requires ev.transactionId == Some("mircd-" + Decimal.Text(n))
    ensures !IsForeign(ev)
  {
    EchoesExactly(ev);
  }

  function WithoutEchoes(sync: RoomSync): RoomSync {
    sync.(timeline := Filter(IsForeign, sync.timeline))
  }

  function Cleaned(join: map<string, RoomSync>): map<string, RoomSync> {
    map id | id in join :: WithoutEchoes(join[id])
  }

  ghost predicate AllValid(join: map<string, RoomSync>) {
    forall id :: id in join ==> ValidSync(join[id])
  }

  function AbsorbRoom(rooms: map<string, RoomView>, id: string, sync: RoomSync): RoomView
    requires ValidSync(sync)
  {
    if id in rooms then Update(rooms[id], sync) else NewRoom(id, sync)
  }

  /** What a sync does to the rooms does not depend on the order in which it is gone through. */
  ghost function Absorb(rooms: map<string, RoomView>, join: map<string, RoomSync>): map<string, RoomView>
    requires AllValid(join)
  {
    map id | id in rooms.Keys + join.Keys :: if id in join then AbsorbRoom(rooms, id, join[id]) else rooms[id]
  }

  ghost predicate AllWellNamed(rooms: map<string, RoomView>) {
    forall id :: id in rooms ==> rooms[id].roomId == id && forall u :: u in rooms[id].members ==>
      rooms[id].members[u].userId == u
  }

  // ---- Any number of syncs ----------------------------------------------------------------------------------

  ghost predicate AllResponsesValid(responses: seq<SyncResponse>) {
    forall i :: 0 <= i < |responses| ==> AllValid(responses[i].join)
  }

  ghost function Rooms(responses: seq<SyncResponse>): map<string, RoomView>
    requires AllResponsesValid(responses)
  {
    if responses == [] then map[]
    else Absorb(Rooms(responses[..|responses| - 1]), Cleaned(responses[|responses| - 1].join))
  }

  /** What the syncs say about one room, without echoes. */
  function SyncsOf(responses: seq<SyncResponse>, id: string): seq<RoomSync> {
    if responses == [] then []
    else
      var last := responses[|responses| - 1].join;
      SyncsOf(responses[..|responses| - 1], id) + if id in last then [WithoutEchoes(last[id])] else []
  }

  /** Rooms do not get mixed up: the client knows exactly the rooms that were mentioned, and each is what its own syncs
    * made of it. So all that holds of a single room over any number of syncs holds of each room here. */
  lemma {:induction false} RoomsFollowTheirSyncs(responses: seq<SyncResponse>, id: string)
    requires AllResponsesValid(responses)
    ensures ValidSyncs(SyncsOf(responses, id))
    ensures id in Rooms(responses) <==> SyncsOf(responses, id) != []
    ensures id in Rooms(responses) ==> Rooms(responses)[id] == After(id, SyncsOf(responses, id))
  {
    hide Update, NewRoom;
    if responses != [] {
      var before, last := responses[..|responses| - 1], responses[|responses| - 1].join;
      RoomsFollowTheirSyncs(before, id);
      if id in last {
        var syncs := SyncsOf(before, id) + [WithoutEchoes(last[id])];
        assert SyncsOf(responses, id) == syncs && syncs[..|syncs| - 1] == SyncsOf(before, id);
      } else {
        assert SyncsOf(responses, id) == SyncsOf(before, id);
      }
    }
  }

  // ---- The client of the source -----------------------------------------------------------------------------

  ghost function Among(join: map<string, RoomSync>, keys: seq<string>): map<string, RoomSync> {
    map id | id in join && id in keys :: join[id]
  }

  lemma AbsorbOneMore(rooms: map<string, RoomView>, join: map<string, RoomSync>, keys: seq<string>, id: string)
    requires AllValid(join) && id in join && id !in keys
    ensures AllValid(Among(join, keys)) && AllValid(Among(join, keys + [id]))
    ensures Absorb(rooms, Among(join, keys + [id])) ==
      var before := Absorb(rooms, Among(join, keys)); before[id := AbsorbRoom(before, id, join[id])]
  {
    hide AbsorbRoom, ValidSync;
    AmongOneMore(join, keys, id);
    var before, after := Absorb(rooms, Among(join, keys)), Absorb(rooms, Among(join, keys + [id]));
    assert id in before <==> id in rooms;
    AbsorbSame(before, rooms, id, join[id]);
    assert after.Keys == before.Keys + {id};
    assert forall other :: other in before && other != id ==> after[other] == before[other];
  }

  lemma AbsorbSame(rooms: map<string, RoomView>, others: map<string, RoomView>, id: string, sync: RoomSync)
    requires ValidSync(sync) && (id in rooms <==> id in others) && (id in rooms ==> rooms[id] == others[id])
    ensures AbsorbRoom(rooms, id, sync) == AbsorbRoom(others, id, sync)
  {
  }

  lemma AbsorbNothing(rooms: map<string, RoomView>, join: map<string, RoomSync>)
    ensures Among(join, []) == map[] && Absorb(rooms, map[]) == rooms
  {
  }

  lemma AmongOneMore(join: map<string, RoomSync>, keys: seq<string>, id: string)
    requires id in join
    ensures Among(join, keys + [id]) == Among(join, keys)[id := join[id]]
    ensures AllValid(join) ==> AllValid(Among(join, keys + [id]))
  {
  }

  lemma AmongAll(join: map<string, RoomSync>, keys: seq<string>)
    requires forall id :: id in join ==> id in keys
    ensures Among(join, keys) == join
  {
  }

  class MatrixSession {
    const userId: string
    var rooms: map<string, Room>

    constructor (userId: string)
      ensures Valid() && this.userId == userId && rooms == map[]
    {
      this.userId, rooms := userId, map[];
    }

    /** Every room is filed under its own identifier, so that no two entries are the same object. */
    predicate Valid()
      reads this
    {
      forall id :: id in rooms ==> rooms[id].roomId == id
    }

    ghost function View(): map<string, RoomView>
      reads this, rooms.Values
    {
      map id | id in rooms :: rooms[id].View()
    }

    method Retain(events: seq<Event>) returns (kept: seq<Event>)
      ensures kept == Filter(IsForeign, events)
    {
      kept := [];
      for i := 0 to |events|
        invariant kept == Filter(IsForeign, events[..i])
      {
        assert events[..i + 1] == events[..i] + [events[i]];
        FilterConcat(IsForeign, events[..i], [events[i]]);
        assert [events[i]][1..] == [];
        if !(events[i].transactionId.Some? && ECHO_PREFIX <= events[i].transactionId.value) {
          kept := kept + [events[i]];
        }
      }
      assert events[..|events|] == events;
    }

    /** One room of a response: its echoes are dropped and its state is brought up to date. */
    method TakeRoom(id: string, sync: RoomSync) returns (cleaned: RoomSync)
      requires Valid() && ValidSync(sync)
      modifies this`rooms, if id in rooms then {rooms[id]} else {}
      ensures Valid() && cleaned == WithoutEchoes(sync)
      ensures View() == old(View())[id := AbsorbRoom(old(View()), id, cleaned)]
      ensures forall r :: r in rooms.Values ==> r in old(rooms.Values) || fresh(r)
    {
      hide Update, NewRoom, Filter;
      var kept := Retain(sync.timeline);
      cleaned := sync.(timeline := kept);
      if id in rooms {
        rooms[id].UpdateFromSync(cleaned);
        assert forall other :: other in rooms && other != id ==> rooms[other] != rooms[id];
      } else {
        var room := new Room.FromSync(id, cleaned);
        rooms := rooms[id := room];
      }
    }

    /** What happens to a response before anybody else sees it. */
    method TakeResponse(response: SyncResponse) returns (cleaned: SyncResponse)
      requires Valid() && AllValid(response.join)
      modifies this`rooms, rooms.Values
      ensures Valid() && cleaned == response.(join := Cleaned(response.join))
      ensures View() == Absorb(old(View()), cleaned.join)
      ensures forall r :: r in rooms.Values ==> r in old(rooms.Values) || fresh(r)
    {
      hide AbsorbRoom, WithoutEchoes, Absorb, Among, ValidSync;
      var order := Ordered.Keys(response.join.Keys);
      Ordered.KeysAreDistinct(response.join.Keys);
      ghost var all := Cleaned(response.join);
      CleanedIsValid(response.join);
      var join: map<string, RoomSync> := map[];
      AbsorbNothing(old(View()), all);
      for i := 0 to |order|
        invariant Valid() && join == Among(all, order[..i])
        invariant AllValid(Among(all, order[..i])) && View() == Absorb(old(View()), Among(all, order[..i]))
        invariant forall r :: r in rooms.Values ==> r in old(rooms.Values) || fresh(r)
      {
        var id := order[i];
        assert id in order;
        assert id !in order[..i];
        AbsorbOneMore(old(View()), all, order[..i], id);
        assert order[..i + 1] == order[..i] + [id];
        AmongOneMore(all, order[..i], id);
        var one := TakeRoom(id, response.join[id]);
        join := join[id := one];
      }
      assert order[..|order|] == order;
      AmongAll(all, order);
      cleaned := response.(join := join);
    }
  }

  lemma CleanedIsValid(join: map<string, RoomSync>)
    requires AllValid(join)
    ensures AllValid(Cleaned(join))
  {
  }
}
