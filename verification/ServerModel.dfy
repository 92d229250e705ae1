/** The IRC side's picture of channels and users. */
module ServerModel {
  import opened Prelude
  import Ordered

  datatype Entry = Entry(operator: bool, voice: bool)

  datatype Channel = Channel(name: string, topic: string, modes: string, users: map<string, Entry>)

  datatype User = User(nick: string, user: string, mask: string, channels: set<string>)

  datatype Server = Server(channels: map<string, Channel>, users: map<string, User>)

  const EMPTY: Server := Server(map[], map[])

  datatype Listed = Listed(nick: string, operator: bool)

  /** The host that everybody seems to be at. */
  const MATRIX_HOST := "/matrix/user"

  function NewUser(nick: string, user: string): User {
    User(nick, user, MATRIX_HOST, {})
  }

  function WithUser(s: Server, nick: string, user: string): Server {
    s.(users := s.users[nick := NewUser(nick, user)])
  }

  /** The entries of a new channel; a nick listed twice keeps the last one. */
  function Entries(members: seq<Listed>): map<string, Entry> {
    if members == [] then map[]
    else
      var last := members[|members| - 1];
      Entries(members[..|members| - 1])[last.nick := Entry(last.operator, false)]
  }

  function Nicks(members: seq<Listed>): set<string> {
    set m | m in members :: m.nick
  }

  function NewChannel(name: string, topic: string, members: seq<Listed>): Channel {
    Channel(name, topic, "+n", Entries(members))
  }

  function Joined(users: map<string, User>, nicks: set<string>, name: string): map<string, User> {
    map nick | nick in users ::
      if nick in nicks then users[nick].(channels := users[nick].channels + {name}) else users[nick]
  }

  function WithChannel(s: Server, name: string, topic: string, members: seq<Listed>): Server {
    Server(s.channels[name := NewChannel(name, topic, members)], Joined(s.users, Nicks(members), name))
  }

  /** The members of a channel in the order of their nicks. */
  function MembersOf(s: Server, channel: string): seq<Listed>
    requires channel in s.channels
  {
    var users := s.channels[channel].users;
    var order := Ordered.Keys(users.Keys);
    seq(|order|, i requires 0 <= i < |order| => assert order[i] in order; Listed(order[i], users[order[i]].operator))
  }

  /** Users and channels agree on who is where, and every entry is filed under its own name. */
  ghost predicate Consistent(s: Server) {
    && (forall n :: n in s.users ==>
          s.users[n].nick == n && s.users[n].mask == MATRIX_HOST && s.users[n].channels <= s.channels.Keys)
    && (forall c :: c in s.channels ==> s.channels[c].name == c && s.channels[c].users.Keys <= s.users.Keys)
    && (forall n, c :: n in s.users && c in s.channels ==> (n in s.channels[c].users <==> c in s.users[n].channels))
  }

  lemma {:induction false} EntriesKeys(members: seq<Listed>)
    ensures Entries(members).Keys == Nicks(members)
    ensures (forall i, j :: 0 <= i < j < |members| ==> members[i].nick != members[j].nick) ==>
      forall m :: m in members ==> Entries(members)[m.nick] == Entry(m.operator, false)
  {
    if members != [] {
      var before, last := members[..|members| - 1], members[|members| - 1];
      EntriesKeys(before);
      assert members == before + [last];
      assert Nicks(members) == Nicks(before) + {last.nick};
    }
  }

  lemma WithUserConsistent(s: Server, nick: string, user: string)
    requires Consistent(s) && nick !in s.users
    ensures Consistent(WithUser(s, nick, user))
  {
  }

  lemma WithChannelConsistent(s: Server, name: string, topic: string, members: seq<Listed>)
    requires Consistent(s) && name !in s.channels && Nicks(members) <= s.users.Keys
    ensures Consistent(WithChannel(s, name, topic, members))
  {
    EntriesKeys(members);
  }

  lemma JoinedNobody(users: map<string, User>, name: string)
    ensures Joined(users, Nicks([]), name) == users
  {
  }

  lemma JoinedOneMore(users: map<string, User>, members: seq<Listed>, member: Listed, name: string)
    ensures var before := Joined(users, Nicks(members), name);
      Joined(users, Nicks(members + [member]), name) ==
        if member.nick in before then
          before[member.nick := before[member.nick].(channels := before[member.nick].channels + {name})]
        else before
  {
    assert Nicks(members + [member]) == Nicks(members) + {member.nick} by {
      assert forall m :: m in members + [member] <==> m in members || m == member;
    }
    hide Nicks;
    var before, after := Joined(users, Nicks(members), name), Joined(users, Nicks(members) + {member.nick}, name);
    if member.nick in before {
      var u := users[member.nick];
      assert (u.channels + {name}) + {name} == u.channels + {name};
    }
  }

  class ServerState {
    var channels: map<string, Channel>
    var users: map<string, User>

    constructor ()
      ensures View() == EMPTY
    {
      channels, users := map[], map[];
    }

    function View(): Server
      reads this
    {
      Server(channels, users)
    }

    predicate ChannelExists(channel: string)
      reads this
    {
      channel in channels
    }

    method CreateUser(nick: string, user: string)
      modifies this
      ensures View() == WithUser(old(View()), nick, user)
    {
      users := users[nick := NewUser(nick, user)];
    }

    /** The source panics when the channel is already there. */
    method AddChannel(name: string, topic: string, members: seq<Listed>)
      requires !ChannelExists(name)
      modifies this
      ensures View() == WithChannel(old(View()), name, topic, members)
    {
      var entries := CollectEntries(members);
      channels := channels[name := Channel(name, topic, "+n", entries)];
      EnterAll(name, members);
    }

    static method CollectEntries(members: seq<Listed>) returns (entries: map<string, Entry>)
      ensures entries == Entries(members)
    {
      entries := map[];
      for i := 0 to |members|
        invariant entries == Entries(members[..i])
      {
        entries := entries[members[i].nick := Entry(members[i].operator, false)];
        assert members[..i + 1][..i] == members[..i];
      }
      assert members[..|members|] == members;
    }

    /** Notes the channel with each of its members. */
    method EnterAll(name: string, members: seq<Listed>)
      modifies this`users
      ensures users == Joined(old(users), Nicks(members), name)
    {
      hide Joined, Nicks;
      JoinedNobody(users, name);
      for i := 0 to |members|
        invariant users == Joined(old(users), Nicks(members[..i]), name)
      {
        var nick := members[i].nick;
        JoinedOneMore(old(users), members[..i], members[i], name);
        assert members[..i + 1] == members[..i] + [members[i]];
        if nick in users {
          users := users[nick := users[nick].(channels := users[nick].channels + {name})];
        }
      }
      assert members[..|members|] == members;
    }

    /** The source expects every nick in a channel to be a known user. */
    method GetMembers(channel: string) returns (members: Option<seq<Listed>>)
      requires Consistent(View())
      ensures members == if ChannelExists(channel) then Some(MembersOf(View(), channel)) else None
    {
      if channel !in channels {
        return None;
      }
      var entries := channels[channel].users;
      var order := Ordered.Keys(entries.Keys);
      var found: seq<Listed> := [];
      for i := 0 to |order|
        invariant found == MembersOf(View(), channel)[..i]
      {
        assert order[i] in order;
        var user := users[order[i]];
        found := found + [Listed(user.nick, entries[order[i]].operator)];
      }
      assert found == MembersOf(View(), channel);
      return Some(found);
    }
  }
}
