/**
  Where the lines in the clients' logs come from: which event wrote which text to whom, over whole runs.
 */
module Origins {
  import opened Text
  import opened Keys
  import opened ActiveUsers
  import opened ChatRooms
  import opened Commands
  import opened CommandLines
  import opened Machine
  import opened Cascade
  import opened Runs

  /* ----- entries and events ----- */

  /** Entry p of the log was written while event i was handled. */
  ghost predicate WrittenBy(env: Env, events: seq<Event>, i: nat, p: nat) {
    i < |events| && |Run(env, events[..i]).out| <= p < |Run(env, events[..i + 1]).out|
  }

  lemma {:induction false} EveryEntryHasItsEvent(env: Env, events: seq<Event>, p: nat)
    requires p < |Run(env, events).out|
    ensures exists i: nat :: WrittenBy(env, events, i, p)
  {
    var before := events[..|events| - 1];
    if p < |Run(env, before).out| {
      EveryEntryHasItsEvent(env, before, p);
      var i: nat :| WrittenBy(env, before, i, p);
      assert before[..i] == events[..i] && before[..i + 1] == events[..i + 1];
      assert WrittenBy(env, events, i, p);
    } else {
      assert events[..|before| + 1] == events;
      assert WrittenBy(env, events, |before|, p);
    }
  }

  /* ----- what one event can write ----- */

  predicate EndsLine(text: string) {
    text != "" && text[|text| - 1] == '\n'
  }

  /** A user list with its newline. */
  predicate UserListed(text: string) {
    "USER_LIST:" <= text && EndsLine(text)
  }

  /** From s to r the log has only grown, by this text and by user lists. */
  ghost predicate Wrote(s: State, r: State, text: Option<string>) {
    && s.out <= r.out
    && forall p :: |s.out| <= p < |r.out| ==> Some(r.out[p].text) == text || UserListed(r.out[p].text)
  }

  lemma WroteThen(s: State, t: State, r: State, text: Option<string>)
    requires Wrote(s, t, text) && Wrote(t, r, text)
    ensures Wrote(s, r, text)
  {
    forall p | |s.out| <= p < |r.out| ensures Some(r.out[p].text) == text || UserListed(r.out[p].text) {
      if p < |t.out| {
        assert r.out[p] == t.out[p];
      }
    }
  }

  lemma {:induction false} LoopWrote(env: Env, s: State, text: string, c: Cursor)
    ensures Wrote(s, SendToAll(env, s, text, c), Some(text))
    decreases |s.clients.Keys|, 1, |Ahead(s.clients.Keys, c)|
  {
    if Ahead(s.clients.Keys, c) != {} {
      var k := Least(Ahead(s.clients.Keys, c));
      AheadStep(s.clients.Keys, c);
      LoopStep(env, s, text, c);
      if !Live(s, k) {
        LoopWrote(env, s, text, At(k));
      } else if env.fails(s.clock, SocketOf(s, k)) {
        LoopWroteAfterDrop(env, s, text, c);
      } else {
        var t := Written(s, SocketOf(s, k), text);
        LoopWrote(env, t, text, At(k));
        WroteThen(s, t, SendToAll(env, t, text, At(k)), Some(text));
      }
    }
  }

  lemma {:induction false} LoopWroteAfterDrop(env: Env, s: State, text: string, c: Cursor)
    requires Ahead(s.clients.Keys, c) != {}
    requires var k := Least(Ahead(s.clients.Keys, c)); Live(s, k) && env.fails(s.clock, SocketOf(s, k))
    ensures Wrote(s, SendToAll(env, s, text, c), Some(text))
    decreases |s.clients.Keys|, 1, 0
  {
    var k := Least(Ahead(s.clients.Keys, c));
    var t := Disconnect(env, Ticked(s), k);
    DisconnectWrote(env, Ticked(s), k);
    assert t.clients.Keys <= s.clients.Keys - {k};
    SubsetSize(t.clients.Keys, s.clients.Keys);
    LoopWrote(env, t, text, At(k));
    assert Wrote(s, t, Some(text));
    WroteThen(s, t, SendToAll(env, t, text, At(k)), Some(text));
    LoopStep(env, s, text, c);
  }

  lemma {:induction false} DisconnectWrote(env: Env, s: State, id: Id)
    ensures Wrote(s, Disconnect(env, s, id), None)
    decreases |s.clients.Keys|, 0, 0
  {
    if id in s.clients {
      Fewer(s.clients, {id});
      BroadcastWrote(env, Erased(s, id));
    }
  }

  lemma {:induction false} BroadcastWrote(env: Env, s: State)
    ensures Wrote(s, Broadcast(env, s), None)
    decreases |s.clients.Keys|, 2, 0
  {
    var text := UserListText(s.users, env.order(s.clock, s.users.Keys));
    assert UserListed(text);
    LoopWrote(env, Ticked(s), text, Begin);
  }

  lemma ReplyWrote(env: Env, s: State, id: Id, text: string)
    ensures Wrote(s, Reply(env, s, id, text), Some(text))
  {
    ReplyFields(env, s, id, text);
  }

  lemma ReplyOrDropWrote(env: Env, s: State, id: Id, text: string)
    ensures Wrote(s, ReplyOrDrop(env, s, id, text), Some(text))
  {
    ReplyOrDropCases(env, s, id, text);
    DisconnectWrote(env, Ticked(Touched(s, id)), id);
  }

  lemma {:induction false} MembersWrote(env: Env, s: State, members: seq<Id>, text: string)
    ensures Wrote(s, SendToMembers(env, s, members, text), Some(text))
    decreases |members|
  {
    if members != [] && s.up {
      var t := Reply(env, s, members[0], text);
      ReplyWrote(env, s, members[0], text);
      MembersWrote(env, t, members[1..], text);
      WroteThen(s, t, SendToMembers(env, t, members[1..], text), Some(text));
    }
  }

  /** The text a command writes, apart from user lists. */
  function OwnText(env: Env, s: State, id: Id, command: Command): Option<string> {
    match command
    case CreateRoom(room, _, _) => Some(CreateReply(room, room !in s.rooms))
    case ListRooms => Some(RoomListNow(env, s))
    case RoomMsg(room, message) => Some(RoomText(room, NicknameOf(s.users, id), message))
    case RoomUsers(room) =>
      if room in s.rooms then Some(RoomUsersText(s.users, env.order(s.clock, s.rooms[room].members))) else None
    case JoinRoom(room, password) => Some(JoinReply(room, CanJoin(s.rooms, room, id, password)))
    case LeaveRoom(room) => Some(LeaveReply(room, IsMember(s.rooms, room, id)))
    case Chat(text) => Some(ChatText(NicknameOf(s.users, id), text))
    case _ => None
  }

  lemma HandledWrote(env: Env, s: State, id: Id, command: Command)
    ensures Wrote(s, Handled(env, s, id, command), OwnText(env, s, id, command))
  {
    match command
    case ListUsers => BroadcastWrote(env, s);
    case Nickname(nickname) => BroadcastWrote(env, s.(users := Renamed(s.users, id, nickname)));
    case CreateRoom(room, isPrivate, password) =>
      AboutRoomWrote(env, s, Created(s.rooms, room, isPrivate, password), id, CreateReply(room, room !in s.rooms));
    case ListRooms => ListRoomsWrote(env, s, id);
    case RoomMsg(room, message) => RoomMsgWrote(env, s, id, room, message);
    case RoomUsers(room) => RoomUsersWrote(env, s, id, room);
    case JoinRoom(room, password) =>
      AboutRoomWrote(env, s, AfterJoin(s.rooms, room, id, password), id,
                     JoinReply(room, CanJoin(s.rooms, room, id, password)));
    case LeaveRoom(room) =>
      AboutRoomWrote(env, s, AfterLeave(s.rooms, room, id), id, LeaveReply(room, IsMember(s.rooms, room, id)));
    case Chat(text) => LoopWrote(env, s, ChatText(NicknameOf(s.users, id), text), Begin);
    case _ =>
  }

  lemma AboutRoomWrote(env: Env, s: State, rooms: Rooms, id: Id, text: string)
    ensures Wrote(s, Reply(env, s.(rooms := rooms), id, text), Some(text))
  {
    ReplyWrote(env, s.(rooms := rooms), id, text);
  }

  lemma ListRoomsWrote(env: Env, s: State, id: Id)
    ensures Wrote(s, OnListRooms(env, s, id), OwnText(env, s, id, ListRooms))
  {
    ReplyOrDropWrote(env, Ticked(Ticked(s)), id, OwnText(env, s, id, ListRooms).value);
  }

  lemma RoomMsgWrote(env: Env, s: State, id: Id, room: string, message: string)
    ensures Wrote(s, OnRoomMsg(env, s, id, room, message), Some(RoomText(room, NicknameOf(s.users, id), message)))
  {
    if IsMember(s.rooms, room, id) {
      MembersWrote(env, Ticked(s), env.order(s.clock, s.rooms[room].members),
                   RoomText(room, NicknameOf(s.users, id), message));
    }
  }

  lemma RoomUsersWrote(env: Env, s: State, id: Id, room: string)
    ensures Wrote(s, OnRoomUsers(env, s, id, room), OwnText(env, s, id, RoomUsers(room)))
  {
    if room in s.rooms {
      ReplyWrote(env, Ticked(s), id, RoomUsersText(s.users, env.order(s.clock, s.rooms[room].members)));
    }
  }

  function OwnTextOf(env: Env, s: State, e: Event): Option<string> {
    if e.Data? then OwnText(env, s, e.id, Parse(e.data)) else None
  }

  /** What one event adds to the log: its own text, if it has one, and user lists. */
  lemma StepWrote(env: Env, s: State, e: Event)
    ensures Wrote(s, Step(env, s, e), OwnTextOf(env, s, e))
  {
    if s.up {
      match e
      case Accept(id) => BroadcastWrote(env, Registered(s, id));
      case Data(id, data) => HandledWrote(env, s, id, Parse(data));
      case ReadError(id) => DisconnectWrote(env, s, id);
    }
  }

  /** Entry p, written while event i was handled, is that event's own text or a user list. */
  lemma EntryText(env: Env, events: seq<Event>, i: nat, p: nat)
    requires WrittenBy(env, events, i, p)
    ensures p < |Run(env, events).out|
    ensures var text := Run(env, events).out[p].text;
            Some(text) == OwnTextOf(env, Run(env, events[..i]), events[i]) || UserListed(text)
    ensures Run(env, events[..i]).up
  {
    assert events[..i + 1][..i] == events[..i];
    StepWrote(env, Run(env, events[..i]), events[i]);
    RunGrows(env, events, i + 1);
  }

  /* ----- every line is ended ----- */

  lemma OwnTextEndsLine(env: Env, s: State, id: Id, command: Command)
    ensures var text := OwnText(env, s, id, command); text.Some? ==> EndsLine(text.value)
  {
    LiteralsEndLine();
  }

  lemma LiteralsEndLine()
    ensures forall room, created :: EndsLine(CreateReply(room, created))
    ensures forall room, joined :: EndsLine(JoinReply(room, joined))
    ensures forall room, left :: EndsLine(LeaveReply(room, left))
  {
  }

  /** Whatever the server ever writes ends with a newline. */
  lemma EveryEntryEndsLine(env: Env, events: seq<Event>, p: nat)
    requires p < |Run(env, events).out|
    ensures EndsLine(Run(env, events).out[p].text)
  {
    EveryEntryHasItsEvent(env, events, p);
    var i: nat :| WrittenBy(env, events, i, p);
    EntryText(env, events, i, p);
    if events[i].Data? {
      OwnTextEndsLine(env, Run(env, events[..i]), events[i].id, Parse(events[i].data));
    }
  }

  /* ----- who ever gets a room message ----- */

  /** An entry that a room message adds to the log. */
  lemma RoomEntry(env: Env, s: State, sender: Id, room: string, message: string, p: nat)
    requires Connected(s)
    requires |s.out| <= p < |OnRoomMsg(env, s, sender, room, message).out|
    ensures var r := OnRoomMsg(env, s, sender, room, message);
            && IsMember(s.rooms, room, sender)
            && r.out[p].text == RoomText(room, NicknameOf(s.users, sender), message)
            && exists k :: IsMember(s.rooms, room, k) && Live(s, k) && r.out[p].socket == SocketOf(s, k)
  {
    var r := OnRoomMsg(env, s, sender, room, message);
    RoomMsgTheorem(env, s, sender, room, message);
    var order :| Enumerates(order, s.rooms[room].members) &&
                 FannedOut(Ticked(s), r, order, RoomText(room, NicknameOf(s.users, sender), message));
    assert SocketAmong(Ticked(s), order, r.out[p].socket);
    var k :| k in order && Live(Ticked(s), k) && SocketOf(Ticked(s), k) == r.out[p].socket;
    assert IsMember(s.rooms, room, k) && Live(s, k);
  }

  /**
    Whatever a room message line ever put into a log was put there while its sender and the owner of
    the socket were both members of the room, and it is the message in the room format.
   */
  lemma RoomMessagesStayInTheRoom(env: Env, events: seq<Event>, i: nat, p: nat, sender: Id, room: string, message: string)
    requires WrittenBy(env, events, i, p)
    requires events[i].Data? && events[i].id == sender && Parse(events[i].data) == RoomMsg(room, message)
    ensures var s := Run(env, events[..i]);
            && IsMember(s.rooms, room, sender)
            && p < |Run(env, events).out|
            && Run(env, events).out[p].text == RoomText(room, NicknameOf(s.users, sender), message)
            && exists k :: IsMember(s.rooms, room, k) && Live(s, k) && Run(env, events).out[p].socket == SocketOf(s, k)
  {
    var s, t := Run(env, events[..i]), OnRoomMsg(env, Run(env, events[..i]), sender, room, message);
    HandledAsRoomMsg(env, events, i, sender, room, message);
    RunInvariant(env, events[..i]);
    RunGrows(env, events, i + 1);
    RoomEntry(env, s, sender, room, message, p);
    assert Run(env, events).out[p] == t.out[p];
  }

  /** An event whose log grew was handled, and a room message by OnRoomMsg. */
  lemma HandledAsRoomMsg(env: Env, events: seq<Event>, i: nat, sender: Id, room: string, message: string)
    requires i < |events| && |Run(env, events[..i]).out| < |Run(env, events[..i + 1]).out|
    requires events[i].Data? && events[i].id == sender && Parse(events[i].data) == RoomMsg(room, message)
    ensures Run(env, events[..i + 1]) == OnRoomMsg(env, Run(env, events[..i]), sender, room, message)
  {
    assert events[..i + 1][..i] == events[..i];
  }

  /** The client takes the line for a room message. */
  predicate RoomTagged(text: string) {
    "ROOM_MSG:" <= text
  }

  /** A nickname whose owner's chat lines look like room messages. */
  predicate Forges(nickname: string) {
    nickname == "ROOM_MSG" || "ROOM_MSG:" <= nickname
  }

  lemma ChatTaggedIff(nickname: string, text: string)
    ensures RoomTagged(ChatText(nickname, text)) <==> Forges(nickname)
  {
    var line := ChatText(nickname, text);
    var tag := "ROOM_MSG:";
    assert line == nickname + (": " + text + "\n");
    if |nickname| >= 9 {
      assert line[..9] == nickname[..9];
    } else {
      ShortNickname(nickname, ": " + text + "\n");
    }
  }

  lemma ShortNickname(nickname: string, rest: string)
    requires |nickname| < 9 && |rest| >= 2 && rest[0] == ':'
    ensures "ROOM_MSG:" <= nickname + rest <==> nickname == "ROOM_MSG"
  {
    var line, tag := nickname + rest, "ROOM_MSG:";
    assert line[|nickname|] == ':';
    if tag <= line {
      assert tag[|nickname|] == line[|nickname|] == ':';
      assert |nickname| == 8;
      assert nickname == line[..8] == tag[..8] == "ROOM_MSG";
    }
  }

  /** The only texts that look like room messages are room messages and the chat lines of a forging nickname. */
  lemma OwnTextTaggedIff(env: Env, s: State, id: Id, command: Command)
    requires OwnText(env, s, id, command).Some?
    ensures RoomTagged(OwnText(env, s, id, command).value) <==>
            command.RoomMsg? || (command.Chat? && Forges(NicknameOf(s.users, id)))
  {
    match command
    case Chat(text) => ChatTaggedIff(NicknameOf(s.users, id), text);
    case RoomMsg(room, message) => RoomTextTagged(room, NicknameOf(s.users, id), message);
    case CreateRoom(room, _, _) => RepliesUntagged(CreateReply(room, room !in s.rooms));
    case JoinRoom(room, password) => RepliesUntagged(JoinReply(room, CanJoin(s.rooms, room, id, password)));
    case LeaveRoom(room) => RepliesUntagged(LeaveReply(room, IsMember(s.rooms, room, id)));
    case ListRooms => RoomListUntagged(OwnText(env, s, id, command).value);
    case RoomUsers(room) => RoomUsersUntagged(OwnText(env, s, id, command).value);
  }

  lemma RoomTextTagged(room: string, nickname: string, message: string)
    ensures RoomTagged(RoomText(room, nickname, message))
  {
    var text := RoomText(room, nickname, message);
    assert "ROOM_MSG:채팅방 [" <= text;
    assert text[..9] == "ROOM_MSG:채팅방 ["[..9] == "ROOM_MSG:";
  }

  lemma RepliesUntagged(text: string)
    requires text != "" && text[0] == '채'
    ensures !RoomTagged(text)
  {
  }

  lemma RoomListUntagged(text: string)
    requires "ROOM_LIST:" <= text
    ensures !RoomTagged(text)
  {
    assert text[5] == "ROOM_LIST:"[5] != "ROOM_MSG:"[5];
  }

  lemma RoomUsersUntagged(text: string)
    requires "ROOM_USER_LIST:" <= text
    ensures !RoomTagged(text)
  {
    assert text[5] == "ROOM_USER_LIST:"[5] != "ROOM_MSG:"[5];
  }

  lemma UserListUntagged(text: string)
    requires UserListed(text)
    ensures !RoomTagged(text)
  {
    assert text[0] == "USER_LIST:"[0] == 'U';
  }

  /** The entry was written by a room message of a member of the room, for a live member of it. */
  ghost predicate FromMember(s: State, e: Event, entry: Sent) {
    && e.Data? && Parse(e.data).RoomMsg?
    && var (room, message) := (Parse(e.data).room, Parse(e.data).message);
    && IsMember(s.rooms, room, e.id)
    && entry.text == RoomText(room, NicknameOf(s.users, e.id), message)
    && exists k :: IsMember(s.rooms, room, k) && Live(s, k) && entry.socket == SocketOf(s, k)
  }

  /** The entry is a plain chat line of somebody whose nickname makes it look like a room message. */
  ghost predicate Forged(s: State, e: Event, entry: Sent) {
    && e.Data? && Parse(e.data).Chat? && Forges(NicknameOf(s.users, e.id))
    && entry.text == ChatText(NicknameOf(s.users, e.id), Parse(e.data).text)
  }

  /**
    Every line of room message form ever logged, and the event that wrote it: it was sent while sender and
    receiver were both members of the room, or it is a chat line under a forging nickname.
   */
  lemma RoomLineOriginIff(env: Env, events: seq<Event>, i: nat, p: nat)
    requires WrittenBy(env, events, i, p)
    ensures p < |Run(env, events).out|
    ensures var s, entry := Run(env, events[..i]), Run(env, events).out[p];
            RoomTagged(entry.text) <==> FromMember(s, events[i], entry) || Forged(s, events[i], entry)
  {
    var s := Run(env, events[..i]);
    EntryText(env, events, i, p);
    var entry := Run(env, events).out[p];
    if UserListed(entry.text) {
      UserListUntagged(entry.text);
      NoOrigin(s, events[i], entry);
    } else {
      var id, command := events[i].id, Parse(events[i].data);
      OwnTextTaggedIff(env, s, id, command);
      if command.RoomMsg? {
        RoomMessagesStayInTheRoom(env, events, i, p, id, command.room, command.message);
      }
    }
  }

  lemma NoOrigin(s: State, e: Event, entry: Sent)
    requires !RoomTagged(entry.text)
    ensures !FromMember(s, e, entry) && !Forged(s, e, entry)
  {
    if e.Data? {
      match Parse(e.data)
      case RoomMsg(room, message) => RoomTextTagged(room, NicknameOf(s.users, e.id), message);
      case Chat(text) => ChatTaggedIff(NicknameOf(s.users, e.id), text);
      case _ =>
    }
  }

  /** So for every entry of every run, without naming the event. */
  lemma EveryRoomLineHasAnOrigin(env: Env, events: seq<Event>, p: nat)
    requires p < |Run(env, events).out| && RoomTagged(Run(env, events).out[p].text)
    ensures exists i: nat :: WrittenBy(env, events, i, p) &&
              (FromMember(Run(env, events[..i]), events[i], Run(env, events).out[p]) ||
               Forged(Run(env, events[..i]), events[i], Run(env, events).out[p]))
  {
    EveryEntryHasItsEvent(env, events, p);
    var i: nat :| WrittenBy(env, events, i, p);
    RoomLineOriginIff(env, events, i, p);
  }

  /* ----- a forged room message ----- */

  function ForgedName(room: string, nickname: string): string {
    "ROOM_MSG:채팅방 [" + room + "] " + nickname
  }

  lemma ForgedText(room: string, nickname: string, message: string)
    ensures ChatText(ForgedName(room, nickname), message) == RoomText(room, nickname, message)
    ensures Forges(ForgedName(room, nickname))
  {
    RoomTextTagged(room, nickname, message);
    ChatTaggedIff(ForgedName(room, nickname), message);
  }

  lemma NicknameLine(env: Env, s: State, id: Id, name: string)
    requires s.up
    ensures Step(env, s, Data(id, "/nickname " + name + "\n")) == OnNickname(env, s, id, name)
  {
    var line := "/nickname " + name;
    assert Chomp(line + "\n") == line;
    assert line[1] == "/nickname "[1] == 'n';
    assert BranchOf(line) == NicknameBranch;
    assert line[10..] == name;
  }

  lemma ChatLine(env: Env, s: State, id: Id, line: string)
    requires s.up && BranchOf(line) == ChatBranch
    ensures Step(env, s, Data(id, line + "\n")) == OnChat(env, s, id, line)
  {
    assert Chomp(line + "\n") == line;
  }

  /** A nickname and then a chat line, with no write failing: everybody's log ends with that line under that name. */
  lemma ChatUnderName(env: Env, s: State, id: Id, name: string, line: string, k: Id)
    requires Connected(s) && s.up && Live(s, id) && Live(s, k)
    requires forall t, q :: t >= s.clock ==> !env.fails(t, q)
    requires BranchOf(line) == ChatBranch
    ensures var named := Step(env, s, Data(id, "/nickname " + name + "\n"));
            var r := Step(env, named, Data(id, line + "\n"));
            var log := Received(r.out, SocketOf(s, k));
            log != [] && log[|log| - 1] == ChatText(name, line) && r.rooms == s.rooms
  {
    var named := OnNickname(env, s, id, name);
    NicknameLine(env, s, id, name);
    RenamedUndisturbed(env, s, id, name);
    ChatLine(env, named, id, line);
    ChatUndisturbed(env, named, id, line, k);
  }

  /**
    Two lines from any client put a perfect copy of a room message into every log: of a room the client is
    not a member of, or one that does not exist. The rooms are not touched.
   */
  lemma ForgedRoomMessage(env: Env, s: State, id: Id, room: string, nickname: string, line: string, k: Id)
    requires Connected(s) && s.up && Live(s, id) && Live(s, k)
    requires forall t, q :: t >= s.clock ==> !env.fails(t, q)
    requires BranchOf(line) == ChatBranch
    ensures var named := Step(env, s, Data(id, "/nickname " + ForgedName(room, nickname) + "\n"));
            var r := Step(env, named, Data(id, line + "\n"));
            var log := Received(r.out, SocketOf(s, k));
            log != [] && log[|log| - 1] == RoomText(room, nickname, line) && r.rooms == s.rooms
  {
    ForgedText(room, nickname, line);
    ChatUnderName(env, s, id, ForgedName(room, nickname), line, k);
  }

  lemma RenamedUndisturbed(env: Env, s: State, id: Id, nickname: string)
    requires Connected(s) && Live(s, id)
    requires forall t, q :: t >= s.clock ==> !env.fails(t, q)
    ensures var r := OnNickname(env, s, id, nickname);
            && Connected(r) && r.clients == s.clients && r.up == s.up && r.rooms == s.rooms && r.clock >= s.clock
            && NicknameOf(r.users, id) == nickname
  {
    var lines := NicknameTheorem(env, s, {}, id, nickname);
    RenameKeeps(env, s, id, nickname);
    NobodyDropped(NewlyNamed(s, id, nickname), OnNickname(env, s, id, nickname), lines);
  }

  lemma NobodyDropped(s: State, r: State, lines: seq<string>)
    requires EverybodyTold(s, r, {}, lines)
    ensures r.clients == s.clients && r.users == s.users
  {
    assert Failing(s, {}) == {};
  }

  lemma ChatUndisturbed(env: Env, s: State, id: Id, text: string, k: Id)
    requires Connected(s) && Live(s, k)
    requires forall t, q :: t >= s.clock ==> !env.fails(t, q)
    ensures Received(OnChat(env, s, id, text).out, SocketOf(s, k)) ==
            Received(s.out, SocketOf(s, k)) + [ChatText(NicknameOf(s.users, id), text)]
  {
    var lists := ChatTheorem(env, s, OnChat(env, s, id, text), {}, id, text);
    assert Failing(s, {}) == {};
    assert GrewBy(s, OnChat(env, s, id, text), {}, [ChatText(NicknameOf(s.users, id), text)] + lists, k);
    BelowBound({}, k);
  }
}
