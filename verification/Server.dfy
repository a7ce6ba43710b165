/**
  The server as it is written: an object whose handlers update its maps in place, loop over clients
  and members, and build replies by appending. Each method is proved to do what module Machine says.
 */
module ServerProcess {
  import opened Text
  import opened Keys
  import opened Lists
  import opened ActiveUsers
  import opened ChatRooms
  import opened Commands
  import opened Machine

  class Server {
    const env: Env
    const users: ActiveUsersManager
    const rooms: ChatRoomManager
    var clients: map<Id, Option<Socket>>
    var out: seq<Sent>
    var clock: nat
    var nextSocket: Socket
    var up: bool

    ghost function View(): State
      reads this, users, rooms
    {
      State(clients, users.activeUsers, rooms.rooms, out, clock, nextSocket, up)
    }

    constructor (env: Env)
      ensures this.env == env && View() == INITIAL && fresh(users) && fresh(rooms)
    {
      this.env := env;
      users := new ActiveUsersManager();
      rooms := new ChatRoomManager();
      clients, out, clock, nextSocket, up := map[], [], 0, 0, true;
    }

    /* ----- the environment ----- */

    /** boost::asio::write. */
    method Write(socket: Socket, text: string) returns (ok: bool)
      modifies this`out, this`clock
      ensures ok <==> !env.fails(old(clock), socket)
      ensures View() == if ok then Written(old(View()), socket, text) else Ticked(old(View()))
    {
      ok := !env.fails(clock, socket);
      clock := clock + 1;
      if ok {
        out := out + [Sent(socket, text)];
      }
    }

    /** The order in which a hash table with these keys is traversed now. */
    method Traversal(keys: set<string>) returns (order: seq<string>)
      modifies this`clock
      ensures order == env.order(old(clock), keys) && Enumerates(order, keys)
      ensures View() == Ticked(old(View()))
    {
      order := env.order(clock, keys);
      clock := clock + 1;
    }

    /** clients_[id]. */
    method Lookup(id: Id) returns (socket: Option<Socket>)
      modifies this`clients
      ensures View() == Touched(old(View()), id)
      ensures id in clients && socket == clients[id]
    {
      if id !in clients {
        clients := clients[id := None];
      }
      socket := clients[id];
    }

    /* ----- broadcast and disconnect ----- */

    method BuildUserList(order: seq<Id>) returns (userList: string)
      requires forall k :: k in order ==> k in users.activeUsers
      ensures userList == UserListText(users.activeUsers, order)
    {
      userList := "USER_LIST:";
      for i := 0 to |order|
        invariant userList == "USER_LIST:" + Terminated(NamesOf(users.activeUsers, order[..i]))
      {
        assert order[i] in order;
        NamesOfSnoc(users.activeUsers, order, i);
        ListingGrows("USER_LIST:", NamesOf(users.activeUsers, order[..i]), users.activeUsers[order[i]]);
        userList := userList + users.activeUsers[order[i]] + ",";
      }
      assert order[..|order|] == order;
      ghost var names := NamesOf(users.activeUsers, order);
      if names != [] {
        DropLastComma(names);
      }
      if userList != "" && userList[|userList| - 1] == ',' {
        userList := userList[..|userList| - 1];
      }
      userList := userList + "\n";
    }

    method BroadcastActiveUsers()
      modifies this, users
      ensures View() == Broadcast(env, old(View()))
      ensures |clients.Keys| <= |old(clients.Keys)|
      decreases |clients.Keys|, 2
    {
      var order := Traversal(users.activeUsers.Keys);
      var userList := BuildUserList(order);
      ghost var goal := SendToAll(env, View(), userList, Begin);
      var c := Begin;
      while Ahead(clients.Keys, c) != {}
        invariant |clients.Keys| <= |old(clients.Keys)|
        invariant SendToAll(env, View(), userList, c) == goal
        decreases |clients.Keys|, |Ahead(clients.Keys, c)|
      {
        AheadStep(clients.Keys, c);
        var id := Least(Ahead(clients.Keys, c));
        if clients[id].Some? {
          var ok := Write(clients[id].value, userList);
          if !ok {
            HandleClientDisconnection(id);
          }
        }
        c := At(id);
      }
    }

    method HandleClientDisconnection(clientId: Id)
      modifies this, users
      ensures View() == Disconnect(env, old(View()), clientId)
      ensures |clients.Keys| <= |old(clients.Keys)|
      ensures clientId in old(clients) ==> |clients.Keys| < |old(clients.Keys)|
      decreases |clients.Keys|, 0
    {
      if clientId in clients {
        SubsetSize(clients.Keys - {clientId}, clients.Keys);
        clients := clients - {clientId};
        users.RemoveUser(clientId);
        BroadcastActiveUsers();
      }
    }

    /* ----- connections ----- */

    /** The accept handler. */
    method HandleNewConnection(clientId: Id)
      modifies this, users
      ensures View() == Accepted(env, old(View()), clientId)
    {
      users.AddUser(clientId, "User" + Decimal(|clients| + 1));
      clients := clients[clientId := Some(nextSocket)];
      nextSocket := nextSocket + 1;
      assert View() == Registered(old(View()), clientId);
      BroadcastActiveUsers();
    }

    /* ----- commands ----- */

    /** A reply written without an error code. */
    method SendReply(clientId: Id, text: string)
      modifies this
      ensures View() == Reply(env, old(View()), clientId, text)
    {
      var socket := Lookup(clientId);
      if socket.Some? {
        var ok := Write(socket.value, text);
        if !ok {
          up := false;
        }
      }
    }

    method HandleNickname(clientId: Id, nickname: string)
      modifies this, users
      ensures View() == OnNickname(env, old(View()), clientId, nickname)
    {
      users.UpdateNickname(clientId, nickname);
      BroadcastActiveUsers();
    }

    method HandleCreateRoom(clientId: Id, line: string)
      modifies this, rooms
      ensures View() == Handled(env, old(View()), clientId, ParseCreate(Tokens(line)))
    {
      var roomName, isPrivate, password := ReadCreateArguments(line);
      var created := rooms.CreateRoom(roomName, isPrivate, password);
      SendReply(clientId, CreateReply(roomName, created));
    }

    method AppendLabelled(text: string, tag: string, names: seq<string>, ghost before: seq<string>)
        returns (r: string)
      requires text == "ROOM_LIST:" + Terminated(before)
      ensures r == "ROOM_LIST:" + Terminated(before + Labelled(tag, names))
    {
      r := text;
      assert before + Labelled(tag, names[..0]) == before;
      for i := 0 to |names|
        invariant r == "ROOM_LIST:" + Terminated(before + Labelled(tag, names[..i]))
      {
        assert names[..i + 1] == names[..i] + [names[i]];
        LabelledGrows(before, tag, names[..i], names[i]);
        r := r + tag + names[i] + ",";
      }
      assert names[..|names|] == names;
    }

    method BuildRoomList(publicRooms: seq<string>, privateRooms: seq<string>) returns (response: string)
      ensures response == RoomListText(publicRooms, privateRooms)
    {
      response := "ROOM_LIST:";
      response := AppendLabelled(response, "PUBLIC:", publicRooms, []);
      assert [] + Labelled("PUBLIC:", publicRooms) == Labelled("PUBLIC:", publicRooms);
      response := AppendLabelled(response, "PRIVATE:", privateRooms, Labelled("PUBLIC:", publicRooms));
      ghost var items := Labelled("PUBLIC:", publicRooms) + Labelled("PRIVATE:", privateRooms);
      if publicRooms != [] || privateRooms != [] {
        DropLastComma(items);
        response := response[..|response| - 1];
      }
      response := response + "\n";
    }

    method GatherRoomList() returns (response: string)
      modifies this`clock
      ensures View() == Ticked(Ticked(old(View())))
      ensures response == RoomListNow(env, old(View()))
    {
      var order1 := Traversal(rooms.rooms.Keys);
      var publicRooms := rooms.GetPublicRooms(order1);
      var order2 := Traversal(rooms.rooms.Keys);
      var privateRooms := rooms.GetPrivateRooms(order2);
      response := BuildRoomList(publicRooms, privateRooms);
    }

    method HandleListRooms(clientId: Id)
      modifies this, users
      ensures View() == OnListRooms(env, old(View()), clientId)
    {
      var response := GatherRoomList();
      SendRoomList(clientId, response);
    }

    /** The write of a room list, whose error code is looked at. */
    method SendRoomList(clientId: Id, response: string)
      modifies this, users
      ensures View() == ReplyOrDrop(env, old(View()), clientId, response)
    {
      var socket := Lookup(clientId);
      if socket.Some? {
        var ok := Write(socket.value, response);
        if !ok {
          HandleClientDisconnection(clientId);
        }
      }
    }

    method HandleRoomMsg(clientId: Id, line: string)
      requires up
      modifies this
      ensures View() == Handled(env, old(View()), clientId, ParseRoomMsg(line))
    {
      var cmd := Extract(line);
      var arguments := if cmd.Word? then Extract(cmd.rest) else Failed;
      var message := if arguments.Word? then UpToNewline(arguments.rest) else "";
      if message == "" {
        up := false; // substr(1) of the empty string
        return;
      }
      var roomName := arguments.word;
      message := message[1..];
      var roomInfo := rooms.GetRoomInfo(roomName);
      if roomInfo.Some? && clientId in roomInfo.value.members {
        var nickname := users.GetNickname(clientId);
        var text := RoomText(roomName, nickname, message);
        var members := Traversal(roomInfo.value.members);
        SendToEach(members, text);
      }
    }

    /** The delivery loop of a room message. */
    method SendToEach(members: seq<Id>, text: string)
      modifies this
      ensures View() == SendToMembers(env, old(View()), members, text)
    {
      var i := 0;
      while i < |members| && up
        invariant 0 <= i <= |members|
        invariant SendToMembers(env, View(), members[i..], text) == SendToMembers(env, old(View()), members, text)
      {
        assert members[i..][1..] == members[i + 1..];
        SendReply(members[i], text);
        i := i + 1;
      }
    }

    method BuildRoomUsers(members: seq<Id>) returns (response: string)
      ensures response == RoomUsersText(users.activeUsers, members)
    {
      response := "ROOM_USER_LIST:";
      var hasUsers := false;
      for i := 0 to |members|
        invariant response == "ROOM_USER_LIST:" + Terminated(NamesOf(users.activeUsers, members[..i]))
        invariant hasUsers <==> NamesOf(users.activeUsers, members[..i]) != []
      {
        NamesOfSnoc(users.activeUsers, members, i);
        if members[i] in users.activeUsers {
          ListingGrows("ROOM_USER_LIST:", NamesOf(users.activeUsers, members[..i]), users.activeUsers[members[i]]);
          response := response + users.activeUsers[members[i]] + ",";
          hasUsers := true;
        } else {
          assert NamesOf(users.activeUsers, members[..i]) + [] == NamesOf(users.activeUsers, members[..i]);
        }
      }
      assert members[..|members|] == members;
      if hasUsers {
        DropLastComma(NamesOf(users.activeUsers, members));
        response := response[..|response| - 1];
      }
      response := response + "\n";
    }

    method HandleRoomUsers(clientId: Id, argument: string)
      modifies this
      ensures View() == OnRoomUsers(env, old(View()), clientId, Trim(argument))
    {
      var roomName := Trim(argument);
      var roomInfo := rooms.GetRoomInfo(roomName);
      if roomInfo.Some? {
        var members := Traversal(roomInfo.value.members);
        var response := BuildRoomUsers(members);
        SendReply(clientId, response);
      }
    }

    method HandleJoinRoom(clientId: Id, raw: string)
      modifies this, rooms
      ensures View() == Handled(env, old(View()), clientId, ParseJoin(raw))
    {
      var roomName, password := raw, "";
      var pwPos := IndexOf(raw, PASSWORD);
      if pwPos != -1 {
        roomName := raw[..pwPos];
        password := Trim(raw[pwPos + 10..]);
      }
      roomName, password := Trim(roomName), Trim(password);
      var joined := rooms.JoinRoom(roomName, clientId, password);
      SendReply(clientId, JoinReply(roomName, joined));
      assert ParseJoin(raw) == Command.JoinRoom(roomName, password);
    }

    method HandleLeaveRoom(clientId: Id, argument: string)
      modifies this, rooms
      ensures View() == OnLeaveRoom(env, old(View()), clientId, Trim(argument))
    {
      var roomName := Trim(argument);
      var left := rooms.LeaveRoom(roomName, clientId);
      SendReply(clientId, LeaveReply(roomName, left));
    }

    /** A line that is no command: everybody gets it. */
    method HandleChat(clientId: Id, text: string)
      modifies this, users
      ensures View() == OnChat(env, old(View()), clientId, text)
    {
      var nickname := users.GetNickname(clientId);
      var message := nickname + ": " + text + "\n";
      ghost var goal := SendToAll(env, View(), message, Begin);
      var c := Begin;
      while Ahead(clients.Keys, c) != {}
        invariant SendToAll(env, View(), message, c) == goal
        decreases |clients.Keys|, |Ahead(clients.Keys, c)|
      {
        AheadStep(clients.Keys, c);
        var id := Least(Ahead(clients.Keys, c));
        if clients[id].Some? {
          var ok := Write(clients[id].value, message);
          if !ok {
            HandleClientDisconnection(id);
          }
        }
        c := At(id);
      }
    }

    method HandleClientData(clientId: Id, data: string)
      requires up
      modifies this, users, rooms
      ensures View() == Handled(env, old(View()), clientId, Parse(data))
    {
      var line := data;
      if line != "" && line[|line| - 1] == '\n' {
        line := line[..|line| - 1];
      }
      HandleBranch(clientId, BranchOf(line), line);
    }

    method HandleBranch(clientId: Id, branch: Branch, line: string)
      requires up && |line| >= ArgumentStart(branch)
      modifies this, users, rooms
      ensures View() == Handled(env, old(View()), clientId, ParseIn(branch, line))
    {
      match branch
      case NoCommand =>
      case UsersBranch => BroadcastActiveUsers();
      case NicknameBranch => HandleNickname(clientId, line[10..]);
      case ListBranch => HandleListRooms(clientId);
      case ChatBranch => HandleChat(clientId, line);
      case _ => HandleRoomBranch(clientId, branch, line);
    }

    /** The commands about one room. */
    method HandleRoomBranch(clientId: Id, branch: Branch, line: string)
      requires up && |line| >= ArgumentStart(branch)
      requires !branch.NoCommand? && !branch.UsersBranch? && !branch.NicknameBranch?
      requires !branch.ListBranch? && !branch.ChatBranch?
      modifies this, rooms
      ensures View() == Handled(env, old(View()), clientId, ParseIn(branch, line))
    {
      ghost var command := ParseIn(branch, line);
      match branch
      case CreateBranch =>
        HandleCreateRoom(clientId, line);
        assert command == ParseCreate(Tokens(line));
      case MsgBranch =>
        HandleRoomMsg(clientId, line);
        assert command == ParseRoomMsg(line);
      case RoomUsersBranch =>
        HandleRoomUsers(clientId, line[11..]);
        assert command == RoomUsers(Trim(line[11..]));
      case JoinBranch =>
        HandleJoinRoom(clientId, line[11..]);
        assert command == ParseJoin(line[11..]);
      case LeaveBranch =>
        HandleLeaveRoom(clientId, line[11..]);
        assert command == Command.LeaveRoom(Trim(line[11..]));
    }

    /** One turn of the IO thread. */
    method Dispatch(event: Event)
      modifies this, users, rooms
      ensures View() == Step(env, old(View()), event)
    {
      if up {
        match event
        case Accept(id) => HandleNewConnection(id);
        case Data(id, data) => HandleClientData(id, data);
        case ReadError(id) => HandleClientDisconnection(id);
      }
    }
  }

  /** One turn of a loop over rooms: the tag and the name are appended, with a comma. */
  lemma LabelledGrows(before: seq<string>, tag: string, names: seq<string>, x: string)
    ensures "ROOM_LIST:" + Terminated(before + Labelled(tag, names + [x])) ==
            "ROOM_LIST:" + Terminated(before + Labelled(tag, names)) + tag + x + ","
  {
    LabelledSnoc(tag, names, x);
    var items := before + Labelled(tag, names);
    assert before + (Labelled(tag, names) + [tag + x]) == items + [tag + x];
    TerminatedSnoc(items, tag + x);
    AppendInPieces("ROOM_LIST:", Terminated(items), tag, x);
  }

  lemma AppendInPieces(a: string, b: string, tag: string, x: string)
    ensures a + (b + (tag + x) + ",") == a + b + tag + x + ","
  {
  }

  lemma {:induction false} LabelledSnoc(tag: string, names: seq<string>, x: string)
    ensures Labelled(tag, names + [x]) == Labelled(tag, names) + [tag + x]
  {
    if names == [] {
      assert names + [x] == [x];
      assert [x][1..] == [];
    } else {
      assert (names + [x])[1..] == names[1..] + [x];
      LabelledSnoc(tag, names[1..], x);
    }
  }
}
