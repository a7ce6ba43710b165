/**
  The chat server (src/server/server.cpp) as a state machine. Handlers run one at a time on the
  IO thread; each event is one handler. What the sockets and the hash tables do is the choice of
  an environment: any write may fail at any time, and any traversal may take any order.
 */
module Machine {
  import opened Text
  import opened Keys
  import opened Lists
  import opened ActiveUsers
  import opened ChatRooms
  import opened Commands

  type Id = string // "address:port"
  type Socket = nat // a shared_ptr to a socket: one number per accepted connection

  /** A text written to a socket. */
  datatype Sent = Sent(socket: Socket, text: string)

  datatype RawEnv = RawEnv(fails: (nat, Socket) -> bool, order: (nat, set<string>) -> seq<string>)

  ghost predicate Lawful(e: RawEnv) {
    forall t, keys :: Enumerates(e.order(t, keys), keys)
  }

  /** fails(t, s): a write to s at time t fails. order(t, keys): how a hash table is traversed at time t. */
  type Env = e: RawEnv | Lawful(e) witness RawEnv((t, s) => false, (t, keys) => Ascending(keys))

  datatype State = State(
    clients: map<Id, Option<Socket>>, // clients_; operator[] on an absent id inserts a null pointer
    users: Users,
    rooms: Rooms,
    out: seq<Sent>,                   // everything written so far, in order
    clock: nat,                       // counts the questions put to the environment
    nextSocket: Socket,
    up: bool                          // false once an exception has left a handler
  )

  const INITIAL := State(map[], map[], map[], [], 0, 0, true)

  /* ----- single steps ----- */

  function Ticked(s: State): State {
    s.(clock := s.clock + 1)
  }

  function Written(s: State, socket: Socket, text: string): State {
    s.(clock := s.clock + 1, out := s.out + [Sent(socket, text)])
  }

  function Crashed(s: State): State {
    s.(up := false)
  }

  function Erased(s: State, id: Id): State {
    s.(clients := s.clients - {id}, users := s.users - {id})
  }

  /** clients_[id], as an expression: afterwards the key is there. */
  function Touched(s: State, id: Id): State {
    if id in s.clients then s else s.(clients := s.clients[id := None])
  }

  /* ----- the broadcast / disconnect cascade ----- */

  function UserListText(users: Users, order: seq<Id>): string {
    "USER_LIST:" + Joined(NamesOf(users, order)) + "\n"
  }

  /**
    The loop `for (id, socket) : clients_` of a broadcast and of a plain chat line, from position c on:
    a failed write disconnects the client before the loop goes on to the next greater key still present.
   */
  function SendToAll(env: Env, s: State, text: string, c: Cursor): (r: State)
    ensures r.clients.Keys <= s.clients.Keys
    ensures r.rooms == s.rooms && r.up == s.up && r.nextSocket == s.nextSocket && r.clock >= s.clock
    decreases |s.clients.Keys|, 1, |Ahead(s.clients.Keys, c)|
  {
    if Ahead(s.clients.Keys, c) == {} then s
    else
      var k := Least(Ahead(s.clients.Keys, c));
      AheadStep(s.clients.Keys, c);
      match s.clients[k]
      case None => SendToAll(env, s, text, At(k))
      case Some(socket) =>
        if env.fails(s.clock, socket) then
          var s' := Disconnect(env, Ticked(s), k);
          SubsetSize(s'.clients.Keys, s.clients.Keys);
          SendToAll(env, s', text, At(k))
        else SendToAll(env, Written(s, socket, text), text, At(k))
  }

  /** handleClientDisconnection. */
  function Disconnect(env: Env, s: State, id: Id): (r: State)
    ensures r.clients.Keys <= s.clients.Keys - {id}
    ensures r.rooms == s.rooms && r.up == s.up && r.nextSocket == s.nextSocket && r.clock >= s.clock
    decreases |s.clients.Keys|, 0, 0
  {
    if id in s.clients then
      SubsetSize(s.clients.Keys - {id}, s.clients.Keys);
      Broadcast(env, Erased(s, id))
    else s
  }

  /** broadcastActiveUsers. */
  function Broadcast(env: Env, s: State): (r: State)
    ensures r.clients.Keys <= s.clients.Keys
    ensures r.rooms == s.rooms && r.up == s.up && r.nextSocket == s.nextSocket && r.clock >= s.clock
    decreases |s.clients.Keys|, 2, 0
  {
    SendToAll(env, Ticked(s), UserListText(s.users, env.order(s.clock, s.users.Keys)), Begin)
  }

  /* ----- replies ----- */

  /** A write without an error code: it throws when it fails, and nothing above catches it. */
  function Reply(env: Env, s: State, id: Id, text: string): State {
    var t := Touched(s, id);
    match t.clients[id]
    case None => t
    case Some(socket) => if env.fails(t.clock, socket) then Crashed(Ticked(t)) else Written(t, socket, text)
  }

  /** The write of a room list, whose error code is looked at. */
  function ReplyOrDrop(env: Env, s: State, id: Id, text: string): State {
    var t := Touched(s, id);
    match t.clients[id]
    case None => t
    case Some(socket) =>
      if env.fails(t.clock, socket) then Disconnect(env, Ticked(t), id) else Written(t, socket, text)
  }

  /** The loop over the members of a room; a failed write throws. */
  function SendToMembers(env: Env, s: State, members: seq<Id>, text: string): State
    decreases |members|
  {
    if members == [] || !s.up then s else SendToMembers(env, Reply(env, s, members[0], text), members[1..], text)
  }

  /* ----- texts ----- */

  function CreateReply(room: string, created: bool): string {
    (if created then "채팅방 [" + room + "] 생성 완료\n" else "채팅방 생성 실패: 같은 이름의 방이 존재합니다\n") + "\n"
  }

  function JoinReply(room: string, joined: bool): string {
    if joined then "채팅방 [" + room + "] 참여 완료\n" else "채팅방 참여 실패: 비밀번호가 틀렸거나 방이 존재하지 않습니다\n"
  }

  function LeaveReply(room: string, left: bool): string {
    if left then "채팅방 [" + room + "] 퇴장 완료\n" else "채팅방 퇴장 실패: 방이 존재하지 않거나 이미 퇴장한 상태입니다\n"
  }

  function RoomText(room: string, nickname: string, message: string): string {
    "ROOM_MSG:채팅방 [" + room + "] " + nickname + ": " + message + "\n"
  }

  function ChatText(nickname: string, text: string): string {
    nickname + ": " + text + "\n"
  }

  function Labelled(tag: string, names: seq<string>): seq<string> {
    if names == [] then [] else [tag + names[0]] + Labelled(tag, names[1..])
  }

  function RoomListText(public: seq<string>, private: seq<string>): string {
    "ROOM_LIST:" + Joined(Labelled("PUBLIC:", public) + Labelled("PRIVATE:", private)) + "\n"
  }

  function RoomUsersText(users: Users, members: seq<Id>): string {
    "ROOM_USER_LIST:" + Joined(NamesOf(users, members)) + "\n"
  }

  /* ----- events ----- */

  datatype Event =
    | Accept(id: Id)
    | Data(id: Id, data: string) // what one read hands to handleClientData, newline included
    | ReadError(id: Id)

  function Decimal(n: nat): string {
    if n < 10 then ['0' + n as char] else Decimal(n / 10) + ['0' + (n % 10) as char]
  }

  /** The new connection is entered in both maps; its nickname counts the map entries, null ones included. */
  function Registered(s: State, id: Id): State {
    s.(users := s.users[id := "User" + Decimal(|s.clients| + 1)],
       clients := s.clients[id := Some(s.nextSocket)],
       nextSocket := s.nextSocket + 1)
  }

  function Accepted(env: Env, s: State, id: Id): State {
    Broadcast(env, Registered(s, id))
  }

  function OnNickname(env: Env, s: State, id: Id, nickname: string): State {
    Broadcast(env, s.(users := Renamed(s.users, id, nickname)))
  }

  function OnCreateRoom(env: Env, s: State, id: Id, room: string, isPrivate: bool, password: string): State {
    Reply(env, s.(rooms := Created(s.rooms, room, isPrivate, password)), id, CreateReply(room, room !in s.rooms))
  }

  /** The answer to /list_rooms, from two traversals of the rooms, one after the other. */
  function RoomListNow(env: Env, s: State): string {
    RoomListText(Select(s.rooms, env.order(s.clock, s.rooms.Keys), Public),
                 Select(s.rooms, env.order(s.clock + 1, s.rooms.Keys), Private))
  }

  function OnListRooms(env: Env, s: State, id: Id): State {
    ReplyOrDrop(env, Ticked(Ticked(s)), id, RoomListNow(env, s))
  }

  function OnRoomMsg(env: Env, s: State, id: Id, room: string, message: string): State {
    if IsMember(s.rooms, room, id) then
      SendToMembers(env, Ticked(s), env.order(s.clock, s.rooms[room].members),
                    RoomText(room, NicknameOf(s.users, id), message))
    else s
  }

  function OnRoomUsers(env: Env, s: State, id: Id, room: string): State {
    if room in s.rooms then
      Reply(env, Ticked(s), id, RoomUsersText(s.users, env.order(s.clock, s.rooms[room].members)))
    else s
  }

  function OnJoinRoom(env: Env, s: State, id: Id, room: string, password: string): State {
    Reply(env, s.(rooms := AfterJoin(s.rooms, room, id, password)), id,
          JoinReply(room, CanJoin(s.rooms, room, id, password)))
  }

  function OnLeaveRoom(env: Env, s: State, id: Id, room: string): State {
    Reply(env, s.(rooms := AfterLeave(s.rooms, room, id)), id, LeaveReply(room, IsMember(s.rooms, room, id)))
  }

  function OnChat(env: Env, s: State, id: Id, text: string): State {
    SendToAll(env, s, ChatText(NicknameOf(s.users, id), text), Begin)
  }

  function Handled(env: Env, s: State, id: Id, command: Command): State {
    match command
    case Blank => s
    case ListUsers => Broadcast(env, s)
    case Nickname(nickname) => OnNickname(env, s, id, nickname)
    case CreateRoom(room, isPrivate, password) => OnCreateRoom(env, s, id, room, isPrivate, password)
    case ListRooms => OnListRooms(env, s, id)
    case RoomMsgWithoutText => Crashed(s)
    case RoomMsg(room, message) => OnRoomMsg(env, s, id, room, message)
    case RoomUsers(room) => OnRoomUsers(env, s, id, room)
    case JoinRoom(room, password) => OnJoinRoom(env, s, id, room, password)
    case LeaveRoom(room) => OnLeaveRoom(env, s, id, room)
    case Chat(text) => OnChat(env, s, id, text)
  }

  /** One handler. Once the process has gone down nothing happens any more. */
  function Step(env: Env, s: State, e: Event): State {
    if !s.up then s
    else
      match e
      case Accept(id) => Accepted(env, s, id)
      case Data(id, data) => Handled(env, s, id, Parse(data))
      case ReadError(id) => Disconnect(env, s, id)
  }

  function Run(env: Env, events: seq<Event>): State {
    if events == [] then INITIAL else Step(env, Run(env, events[..|events| - 1]), events[|events| - 1])
  }
}
