/**
  What each event does to the server, said about Step itself and about the line that arrived: one theorem
  for every kind of event, with the texts written out.
 */
module Steps {
  import opened Text
  import opened Keys
  import opened ActiveUsers
  import opened ChatRooms
  import opened Commands
  import opened CommandLines
  import opened Machine
  import opened Cascade
  import opened Runs

  /* ----- connections ----- */

  predicate Digits(text: string) {
    forall c :: c in text ==> '0' <= c <= '9'
  }

  /** A numeral, read back. */
  function NumberOf(digits: string): nat
    requires Digits(digits)
  {
    if digits == "" then 0
    else
      var front, last := digits[..|digits| - 1], digits[|digits| - 1];
      assert last in digits;
      assert forall c :: c in front ==> c in digits;
      10 * NumberOf(front) + (last - '0') as nat
  }

  /** Decimal writes the numeral of the number, without leading zeros. */
  lemma {:induction false} DecimalIsNumeral(n: nat)
    ensures Decimal(n) != "" && Digits(Decimal(n))
    ensures NumberOf(Decimal(n)) == n
    ensures n > 0 ==> Decimal(n)[0] != '0'
    ensures n == 0 ==> Decimal(n) == "0"
  {
    if n < 10 {
      var d := Decimal(n);
      assert d[..0] == "" && d[0] - '0' == n as char;
    } else {
      DecimalIsNumeral(n / 10);
      var d := Decimal(n);
      assert d[..|d| - 1] == Decimal(n / 10);
      assert d[|d| - 1] - '0' == (n % 10) as char;
    }
  }

  /** The state in which a newcomer is announced. */
  function WithNewcomer(s: State, id: Id, nickname: string): State {
    s.(users := s.users[id := nickname], clients := s.clients[id := Some(s.nextSocket)], nextSocket := s.nextSocket + 1)
  }

  /** The state in which a departure is announced. */
  function Without(s: State, id: Id): State {
    s.(users := s.users - {id}, clients := s.clients - {id})
  }

  /**
    A connection. From the state with the newcomer in both maps, under "User" and the numeral of the map
    entries plus one, on a socket nobody had, everybody is told.
   */
  lemma AcceptStep(env: Env, s: State, id: Id, numeral: string, broken: set<Socket>) returns (lines: seq<string>)
    requires Connected(s) && s.up && numeral == Decimal(|s.clients| + 1)
    requires Stable(env, WithNewcomer(s, id, "User" + numeral), Step(env, s, Accept(id)).clock, broken)
    ensures EverybodyTold(WithNewcomer(s, id, "User" + numeral), Step(env, s, Accept(id)), broken, lines)
    ensures NumeralOf(numeral, |s.clients| + 1)
    ensures var r := Step(env, s, Accept(id));
            && r.up && r.rooms == s.rooms
            && (s.nextSocket !in broken ==> Live(r, id) && SocketOf(r, id) == s.nextSocket && r.users[id] == "User" + numeral)
  {
    DecimalIsNumeral(|s.clients| + 1);
    assert WithNewcomer(s, id, "User" + numeral) == Registered(s, id);
    lines := AcceptTheorem(env, s, broken, id);
  }

  predicate NumeralOf(digits: string, n: nat) {
    digits != "" && Digits(digits) && NumberOf(digits) == n && (n > 0 ==> digits[0] != '0')
  }

  /**
    A read error. Afterwards the id is in neither map, whoever it was; if it was known, everybody left is
    told, from the state without it on; a late one changes nothing.
   */
  lemma ReadErrorStep(env: Env, s: State, id: Id, broken: set<Socket>) returns (lines: seq<string>)
    requires Connected(s) && s.up
    requires id in s.clients ==> Stable(env, Without(s, id), Step(env, s, ReadError(id)).clock, broken)
    ensures var r := Step(env, s, ReadError(id));
            && r.up && r.rooms == s.rooms && id !in r.clients && id !in r.users
            && (id !in s.clients ==> r == s)
            && (id in s.clients ==> EverybodyTold(Without(s, id), r, broken, lines))
  {
    lines := [];
    if id in s.clients {
      assert Without(s, id) == Erased(s, id);
      Shrunk(s, Erased(s, id), {id});
      lines := BroadcastTheorem(env, Erased(s, id), broken);
    } else {
      assert id !in s.users by {
        assert HasSocket(s.clients, id) <==> id in s.users;
      }
    }
  }

  /** In every run and every environment, whatever fails: the id is gone, and who is left heard once of each that went. */
  lemma ReadErrorInRun(env: Env, events: seq<Event>, id: Id)
    requires Run(env, events).up
    ensures var s, r := Run(env, events), Run(env, events + [ReadError(id)]);
            && id !in r.clients && id !in r.users && r.rooms == s.rooms && r.up
            && (id !in s.clients ==> r == s)
            && (forall k :: Live(r, k) ==> Live(s, k) && SocketOf(r, k) == SocketOf(s, k) && Heard(s, r, k, 0))
  {
    var s := Run(env, events);
    assert (events + [ReadError(id)])[..|events + [ReadError(id)]| - 1] == events;
    RunInvariant(env, events);
    DisconnectGone(env, s, id);
    DisconnectTells(env, s, id);
  }

  lemma DisconnectGone(env: Env, s: State, id: Id)
    requires Connected(s)
    ensures var r := Disconnect(env, s, id);
            id !in r.clients && id !in r.users && (id !in s.clients ==> r == s)
  {
    DisconnectKeeps(env, s, id);
    var r := Disconnect(env, s, id);
    assert id !in r.clients;
    assert HasSocket(r.clients, id) <==> id in r.users;
  }

  /** Once the process is down no event changes anything. */
  lemma DownForGood(env: Env, s: State, e: Event)
    requires !s.up
    ensures Step(env, s, e) == s
  {
  }

  /* ----- lines to everybody ----- */

  lemma StepParsed(env: Env, s: State, id: Id, data: string, command: Command)
    requires s.up && Parse(data) == command
    ensures Step(env, s, Data(id, data)) == Handled(env, s, id, command)
  {
  }

  /** A blank line does nothing. */
  lemma BlankStep(env: Env, s: State, id: Id)
    requires s.up
    ensures Step(env, s, Data(id, "\n")) == s && Step(env, s, Data(id, "")) == s
  {
    assert Chomp("\n") == "";
  }

  /** The line /users, and no other, asks for the user list alone: everybody gets it. */
  lemma UsersStep(env: Env, s: State, id: Id, line: string, broken: set<Socket>) returns (lines: seq<string>)
    requires Connected(s) && s.up && line == "/users"
    requires Stable(env, s, Step(env, s, Data(id, line + "\n")).clock, broken)
    ensures EverybodyTold(s, Step(env, s, Data(id, line + "\n")), broken, lines)
  {
    ListUsersIff(line);
    ChompDropsOneNewline(line);
    StepParsed(env, s, id, line + "\n", ListUsers);
    lines := BroadcastTheorem(env, s, broken);
  }

  /** The state in which a nickname is announced: an id without a socket is not renamed. */
  function Named(s: State, id: Id, nickname: string): State {
    if Live(s, id) then s.(users := s.users[id := nickname]) else s
  }

  lemma NicknameStep(env: Env, s: State, id: Id, nickname: string, broken: set<Socket>) returns (lines: seq<string>)
    requires Connected(s) && s.up
    requires Stable(env, s, Step(env, s, Data(id, "/nickname " + nickname + "\n")).clock, broken)
    ensures EverybodyTold(Named(s, id, nickname), Step(env, s, Data(id, "/nickname " + nickname + "\n")), broken, lines)
  {
    var line := "/nickname " + nickname;
    NicknameIff(line);
    assert line[10..] == nickname;
    ChompDropsOneNewline(line);
    StepParsed(env, s, id, line + "\n", Nickname(nickname));
    lines := NicknameTheorem(env, s, broken, id, nickname);
    assert Named(s, id, nickname) == NewlyNamed(s, id, nickname);
  }

  /** Any other line: every survivor gets it once, behind the sender's nickname, with the lists of the cascade. */
  lemma ChatStep(env: Env, s: State, id: Id, line: string, broken: set<Socket>) returns (lists: seq<string>)
    requires Connected(s) && s.up
    requires line != "" && line != "/users" && !HasCommandPrefix(line)
    requires Stable(env, s, Step(env, s, Data(id, line + "\n")).clock, broken)
    ensures Delivered(s, Step(env, s, Data(id, line + "\n")), broken,
                      [(if id in s.users then s.users[id] else id) + ": " + line + "\n"] + lists)
    ensures Successive(lists, s.users, Failing(s, broken))
  {
    ChatIff(line);
    ChompDropsOneNewline(line);
    StepParsed(env, s, id, line + "\n", Chat(line));
    lists := ChatTheorem(env, s, Step(env, s, Data(id, line + "\n")), broken, id, line);
  }

  /* ----- lines to the asker ----- */

  /** The id's socket is there and takes a write at this time. */
  predicate Takes(env: Env, s: State, id: Id, time: nat) {
    Live(s, id) && !env.fails(time, SocketOf(s, id))
  }

  /**
    From s to r one text has been answered at this time: it is all that was written, to the asker alone; a
    refused write has ended the process; an id that was not in the client map now has a null entry.
   */
  ghost predicate Answered(env: Env, s: State, r: State, id: Id, time: nat, text: string) {
    && r.out == s.out + (if Takes(env, s, id, time) then [Sent(SocketOf(s, id), text)] else [])
    && (r.up <==> (Live(s, id) ==> Takes(env, s, id, time)))
    && r.clients == (if id in s.clients then s.clients else s.clients[id := None])
    && r.users == s.users && r.nextSocket == s.nextSocket
  }

  lemma ReplyAnswers(env: Env, s: State, t: State, id: Id, text: string)
    requires s.up && t.up && t.clients == s.clients && t.users == s.users && t.out == s.out
    requires t.nextSocket == s.nextSocket
    ensures Answered(env, s, Reply(env, t, id, text), id, t.clock, text)
    ensures Reply(env, t, id, text).rooms == t.rooms
  {
  }

  /** The two answers to a create line, without their newlines. */
  const CREATE_REFUSED := "채팅방 생성 실패: 같은 이름의 방이 존재합니다"

  function CreateDoneLine(room: string): string {
    "채팅방 [" + room + "] 생성 완료"
  }

  /**
    A create line. The asker is told "채팅방 [room] 생성 완료" exactly if the name was free; then the room
    stands on the asked terms, empty; otherwise no room has changed.
   */
  lemma CreateStep(env: Env, s: State, id: Id, data: string, room: string, isPrivate: bool, password: string)
    requires s.up && Parse(data) == CreateRoom(room, isPrivate, password)
    ensures var r := Step(env, s, Data(id, data));
            && Answered(env, s, r, id, s.clock, (if room in s.rooms then CREATE_REFUSED else CreateDoneLine(room)) + "\n" + "\n")
            && r.rooms == if room in s.rooms then s.rooms else s.rooms[room := ChatRoomInfo(room, {}, isPrivate, password)]
    ensures CREATE_REFUSED != CreateDoneLine(room)
  {
    StepParsed(env, s, id, data, CreateRoom(room, isPrivate, password));
    ReplyAnswers(env, s, s.(rooms := Created(s.rooms, room, isPrivate, password)), id, CreateReply(room, room !in s.rooms));
    CreateTexts(room);
  }

  lemma CreateTexts(room: string)
    ensures CreateReply(room, true) == CreateDoneLine(room) + "\n" + "\n"
    ensures CreateReply(room, false) == CREATE_REFUSED + "\n" + "\n"
    ensures CREATE_REFUSED != CreateDoneLine(room)
  {
    EndOfText("채팅방 [" + room, "] 생성 완료", "\n");
    assert "] 생성 완료\n" == "] 생성 완료" + "\n";
    assert "채팅방 생성 실패: 같은 이름의 방이 존재합니다\n" == CREATE_REFUSED + "\n";
    assert CREATE_REFUSED[4] == '생' && CreateDoneLine(room)[4] == '[';
  }

  lemma EndOfText(head: string, tail: string, newline: string)
    ensures head + (tail + newline) == head + tail + newline
  {
  }

  const LEAVE_REFUSED := "채팅방 퇴장 실패: 방이 존재하지 않거나 이미 퇴장한 상태입니다"

  function LeaveDoneLine(room: string): string {
    "채팅방 [" + room + "] 퇴장 완료"
  }

  /**
    A leave line. The asker is told "채팅방 [room] 퇴장 완료" exactly if it was a member; it is none
    afterwards, and everything else about the rooms is as it was.
   */
  lemma LeaveStep(env: Env, s: State, id: Id, data: string, room: string)
    requires s.up && Parse(data) == LeaveRoom(room)
    ensures var r := Step(env, s, Data(id, data));
            && Answered(env, s, r, id, s.clock, (if IsMember(s.rooms, room, id) then LeaveDoneLine(room) else LEAVE_REFUSED) + "\n")
            && !IsMember(r.rooms, room, id)
            && r.rooms.Keys == s.rooms.Keys
            && (forall q :: q in s.rooms && q != room ==> r.rooms[q] == s.rooms[q])
            && (room in s.rooms ==> r.rooms[room] == s.rooms[room].(members := s.rooms[room].members - {id}))
    ensures LEAVE_REFUSED != LeaveDoneLine(room)
  {
    StepParsed(env, s, id, data, LeaveRoom(room));
    ReplyAnswers(env, s, s.(rooms := AfterLeave(s.rooms, room, id)), id, LeaveReply(room, IsMember(s.rooms, room, id)));
    LeaveTexts(room);
    LeaveChanges(s.rooms, room, id);
  }

  lemma LeaveChanges(rooms: Rooms, room: string, id: Id)
    ensures var after := AfterLeave(rooms, room, id);
            && !IsMember(after, room, id) && after.Keys == rooms.Keys
            && (forall q :: q in rooms && q != room ==> after[q] == rooms[q])
            && (room in rooms ==> after[room] == rooms[room].(members := rooms[room].members - {id}))
  {
    if room in rooms && id !in rooms[room].members {
      assert rooms[room].members - {id} == rooms[room].members;
    }
  }

  lemma LeaveTexts(room: string)
    ensures LeaveReply(room, true) == LeaveDoneLine(room) + "\n"
    ensures LeaveReply(room, false) == LEAVE_REFUSED + "\n"
    ensures LEAVE_REFUSED != LeaveDoneLine(room)
  {
    EndOfText("채팅방 [" + room, "] 퇴장 완료", "\n");
    assert "] 퇴장 완료\n" == "] 퇴장 완료" + "\n";
    assert "채팅방 퇴장 실패: 방이 존재하지 않거나 이미 퇴장한 상태입니다\n" == LEAVE_REFUSED + "\n";
    assert LEAVE_REFUSED[4] == '퇴' && LeaveDoneLine(room)[4] == '[';
  }

  const JOIN_REFUSED := "채팅방 참여 실패: 비밀번호가 틀렸거나 방이 존재하지 않습니다"

  function JoinDoneLine(room: string): string {
    "채팅방 [" + room + "] 참여 완료"
  }

  /** A join line lets in exactly a non-member of a room that is public or whose password is given. */
  predicate LetsIn(s: State, room: string, id: Id, password: string) {
    && room in s.rooms && id !in s.rooms[room].members
    && (!s.rooms[room].isPrivate || s.rooms[room].password == password)
  }

  lemma JoinStep(env: Env, s: State, id: Id, data: string, room: string, password: string)
    requires s.up && Parse(data) == JoinRoom(room, password)
    ensures var r := Step(env, s, Data(id, data));
            && Answered(env, s, r, id, s.clock, (if LetsIn(s, room, id, password) then JoinDoneLine(room) else JOIN_REFUSED) + "\n")
            && r.rooms == if !LetsIn(s, room, id, password) then s.rooms
                          else s.rooms[room := s.rooms[room].(members := s.rooms[room].members + {id})]
    ensures JOIN_REFUSED != JoinDoneLine(room)
  {
    StepParsed(env, s, id, data, JoinRoom(room, password));
    JoinChanges(s, room, id, password);
    ReplyAnswers(env, s, s.(rooms := AfterJoin(s.rooms, room, id, password)), id,
                 JoinReply(room, CanJoin(s.rooms, room, id, password)));
    JoinTexts(room);
  }

  lemma JoinChanges(s: State, room: string, id: Id, password: string)
    ensures CanJoin(s.rooms, room, id, password) <==> LetsIn(s, room, id, password)
    ensures AfterJoin(s.rooms, room, id, password) ==
            if !LetsIn(s, room, id, password) then s.rooms
            else s.rooms[room := s.rooms[room].(members := s.rooms[room].members + {id})]
  {
  }

  lemma JoinTexts(room: string)
    ensures JoinReply(room, true) == JoinDoneLine(room) + "\n"
    ensures JoinReply(room, false) == JOIN_REFUSED + "\n"
    ensures JOIN_REFUSED != JoinDoneLine(room)
  {
    EndOfText("채팅방 [" + room, "] 참여 완료", "\n");
    assert "] 참여 완료\n" == "] 참여 완료" + "\n";
    assert "채팅방 참여 실패: 비밀번호가 틀렸거나 방이 존재하지 않습니다\n" == JOIN_REFUSED + "\n";
    assert JOIN_REFUSED[4] == '참' && JoinDoneLine(room)[4] == '[';
  }

  /* ----- a line about the members of a room ----- */

  /** A question about a room that does not exist gets no answer at all. */
  lemma RoomUsersStep(env: Env, s: State, id: Id, data: string, room: string) returns (order: seq<Id>)
    requires s.up && Parse(data) == RoomUsers(room)
    ensures room !in s.rooms ==> Step(env, s, Data(id, data)) == s
    ensures room in s.rooms ==>
              && Enumerates(order, s.rooms[room].members)
              && Answered(env, s, Step(env, s, Data(id, data)), id, s.clock + 1, RoomUsersText(s.users, order))
              && Step(env, s, Data(id, data)).rooms == s.rooms
  {
    StepParsed(env, s, id, data, RoomUsers(room));
    order := [];
    if room in s.rooms {
      order := env.order(s.clock, s.rooms[room].members);
      ReplyAnswers(env, s, Ticked(s), id, RoomUsersText(s.users, order));
    }
  }

  /**
    A room message. From a non-member, or to a room that does not exist, it does nothing; otherwise no
    entry of the client map changes, and a member that has none gets a null one.
   */
  lemma RoomMsgStep(env: Env, s: State, id: Id, data: string, room: string, message: string)
    requires s.up && Parse(data) == RoomMsg(room, message)
    ensures var r := Step(env, s, Data(id, data));
            && r.users == s.users && r.rooms == s.rooms && r.nextSocket == s.nextSocket
            && (!IsMember(s.rooms, room, id) ==> r == s)
            && (forall k :: k in s.clients ==> k in r.clients && r.clients[k] == s.clients[k])
            && (forall k :: k in r.clients && k !in s.clients ==> r.clients[k] == None && IsMember(s.rooms, room, k))
            && (r.up && IsMember(s.rooms, room, id) ==> forall k :: IsMember(s.rooms, room, k) ==> k in r.clients)
  {
    StepParsed(env, s, id, data, RoomMsg(room, message));
    if IsMember(s.rooms, room, id) {
      var order := env.order(s.clock, s.rooms[room].members);
      assert Enumerates(order, s.rooms[room].members);
      MembersLookedUp(env, Ticked(s), order, RoomText(room, NicknameOf(s.users, id), message));
      assert forall k :: IsMember(s.rooms, room, k) <==> k in order;
    }
  }

  lemma {:induction false} MembersLookedUp(env: Env, s: State, members: seq<Id>, text: string)
    ensures var r := SendToMembers(env, s, members, text);
            && r.users == s.users && r.rooms == s.rooms && r.nextSocket == s.nextSocket
            && (forall k :: k in s.clients ==> k in r.clients && r.clients[k] == s.clients[k])
            && (forall k :: k in r.clients && k !in s.clients ==> r.clients[k] == None && k in members)
            && (r.up ==> forall k :: k in members ==> k in r.clients)
    decreases |members|
  {
    if members != [] && s.up {
      var t := Reply(env, s, members[0], text);
      assert t.clients == if members[0] in s.clients then s.clients else s.clients[members[0] := None];
      MembersLookedUp(env, t, members[1..], text);
      assert members == [members[0]] + members[1..];
    } else if members != [] {
      assert !s.up;
    }
  }
}
