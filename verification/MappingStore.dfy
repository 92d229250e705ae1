/** The four maps of the source, and how names are found and made up for what comes from Matrix. */
module MappingStore {
  import opened Prelude
  import opened Names
  import opened ServerModel
  import opened RoomState
  import opened Mapping
  import opened IrcSession
  import Utf8

  class Mappings {
    var channelToRoomId: map<string, string>
    var roomIdToChannel: map<string, string>
    var matrixUidToNick: map<string, string>
    var nickMatrixUid: map<string, string>

    constructor ()
      ensures View(EMPTY) == NOBODY
    {
      channelToRoomId, roomIdToChannel, matrixUidToNick, nickMatrixUid := map[], map[], map[], map[];
    }

    function View(server: Server): Directory
      reads this
    {
      Directory(channelToRoomId, roomIdToChannel, matrixUidToNick, nickMatrixUid, server)
    }

    method InsertNick(irc: IrcUserConnection, nick: string, userId: string)
      modifies this`matrixUidToNick, this`nickMatrixUid, irc.serverModel
      ensures View(irc.serverModel.View()) == Mapping.InsertNick(old(View(irc.serverModel.View())), nick, userId)
    {
      matrixUidToNick := matrixUidToNick[userId := nick];
      nickMatrixUid := nickMatrixUid[nick := userId];
      irc.CreateUser(nick, userId);
    }

    function ChannelToRoomId(channel: string): Option<string>
      reads this
    {
      if channel in channelToRoomId then Some(channelToRoomId[channel]) else None
    }

    function RoomIdToChannel(roomId: string): Option<string>
      reads this
    {
      if roomId in roomIdToChannel then Some(roomIdToChannel[roomId]) else None
    }

    function GetNickFromMatrix(userId: string): Option<string>
      reads this
    {
      if userId in matrixUidToNick then Some(matrixUidToNick[userId]) else None
    }

    method CreateOrGetNickFromMatrix(irc: IrcUserConnection, userId: string, displayName: string) returns (nick: string)
      modifies this`matrixUidToNick, this`nickMatrixUid, irc.serverModel
      ensures Mapping.GetNick(old(View(irc.serverModel.View())), userId, displayName) ==
        Named(View(irc.serverModel.View()), nick)
    {
      hide Sanitise, FreshName;
      if userId in matrixUidToNick {
        return matrixUidToNick[userId];
      }
      nick := Sanitise(displayName);
      if |Utf8.Encode(nick)| < 3 {
        nick := Sanitise(userId);
      }
      var probes;
      nick, probes := FindFreshName(nick, irc.serverModel.users.Keys);
      matrixUidToNick := matrixUidToNick[userId := nick];
      nickMatrixUid := nickMatrixUid[nick := userId];
      irc.CreateUser(nick, userId);
    }

    /** Nicks for all members, as they are met; a new user can turn up in the middle of opening a channel. */
    method RegisterMembers(irc: IrcUserConnection, members: seq<Member>) returns (listed: seq<Listed>)
      modifies this`matrixUidToNick, this`nickMatrixUid, irc.serverModel
      ensures GetNicks(old(View(irc.serverModel.View())), members) == Registered(View(irc.serverModel.View()), listed)
    {
      hide GetNick;
      listed := [];
      for i := 0 to |members|
        invariant GetNicks(old(View(irc.serverModel.View())), members[..i]) ==
          Registered(View(irc.serverModel.View()), listed)
        invariant channelToRoomId == old(channelToRoomId) && roomIdToChannel == old(roomIdToChannel)
      {
        assert members[..i + 1][..i] == members[..i];
        var nick := CreateOrGetNickFromMatrix(irc, members[i].userId, members[i].displayName);
        listed := listed + [Listed(nick, members[i].moderator)];
      }
      assert members[..|members|] == members;
    }

    static method BaseName(room: Room) returns (channel: string)
      ensures channel == ChannelBase(room.View())
    {
      hide Sanitise;
      var alias := StateText(room.View(), "m.room.canonical_alias", "alias");
      if alias.Some? {
        return alias.value;
      }
      var name := StateText(room.View(), "m.room.name", "name");
      if name.Some? {
        var stripped := Sanitise(name.value);
        if stripped != [] {
          return "#" + stripped;
        }
      }
      return "#" + room.roomId;
    }

    /** The channel of a room; if it has none, one is made up, with nicks for all members, and opened on the IRC side.
      * Neither the panic about a channel that exists already nor the one about an unknown member can happen. */
    method CreateOrGetChannelNameFromMatrix(irc: IrcUserConnection, room: Room) returns (channel: string, isNew: bool)
      requires irc.Valid() && Mapping.Consistent(View(irc.serverModel.View()))
      modifies this, irc`outs, irc.conn, irc.conn.conn, irc.serverModel
      ensures Mapping.GetChannel(old(View(irc.serverModel.View())), room.View()) ==
        Opened(View(irc.serverModel.View()), channel, isNew)
      ensures Mapping.Consistent(View(irc.serverModel.View())) && irc.serverModel.ChannelExists(channel)
      ensures irc.OnlySaid(if isNew then JoinOuts(irc.me, irc.serverModel.View(), channel) else [])
    {
      hide GetNicks, ChannelBase, FreshName, MembersInOrder, JoinOuts, ConsistentBut, WithChannel, Topic, Nicks;
      var view := room.View();
      ghost var before := View(irc.serverModel.View());
      GetChannelKeeps(before, view);
      KnownChannels(before);
      KnownChannels(Mapping.GetChannel(before, view).directory);
      if room.roomId in roomIdToChannel {
        return roomIdToChannel[room.roomId], false;
      }
      NewChannelKeeps(before, view);
      channel := BaseName(room);
      var probes;
      channel, probes := FindFreshName(channel, irc.serverModel.channels.Keys);
      roomIdToChannel := roomIdToChannel[room.roomId := channel];
      channelToRoomId := channelToRoomId[channel := room.roomId];
      var listed := RegisterMembers(irc, MembersInOrder(view));
      ServerIsConsistent(View(irc.serverModel.View()), {channel});
      irc.AddChannel(channel, Topic(view), listed);
      isNew := true;
    }
  }

  lemma KnownChannels(d: Directory)
    requires Mapping.Consistent(d)
    ensures forall r :: r in d.roomToChannel ==> d.roomToChannel[r] in d.server.channels
  {
  }

  lemma ServerIsConsistent(d: Directory, pending: set<string>)
    requires ConsistentBut(d, pending)
    ensures ServerModel.Consistent(d.server)
  {
  }
}
