/**
  Client and server put together: what one end builds, the other end takes apart again.
 */
module EndToEnd {
  import opened Text
  import opened Keys
  import opened Lists
  import opened ActiveUsers
  import opened ChatRooms
  import opened Commands
  import opened CommandLines
  import opened Machine
  import opened Cascade
  import opened Runs
  import opened Steps
  import opened Survival
  import opened Origins
  import opened Framing
  import opened ClientCommands
  import opened ClientWindow
  import opened Listings

  /* ----- a room message from input field to window ----- */

  /** What the server sends for a room message, without "ROOM_MSG:" and newline. */
  function RoomMsgBody(room: string, nickname: string, message: string): string {
    "채팅방 [" + room + "] " + nickname + ": " + message
  }

  lemma RoomTextParts(room: string, nickname: string, message: string)
    ensures RoomText(room, nickname, message) == "ROOM_MSG:" + RoomMsgBody(room, nickname, message) + "\n"
  {
    assert "ROOM_MSG:채팅방 [" == "ROOM_MSG:" + "채팅방 [";
    var rest := room + "] " + nickname + ": " + message;
    assert RoomMsgBody(room, nickname, message) == "채팅방 [" + rest;
    assert RoomText(room, nickname, message) == "ROOM_MSG:채팅방 [" + rest + "\n";
  }

  /** A name up to its first "]". */
  function UpToBracket(room: string): string {
    if Contains(room, "]") then room[..IndexOf(room, "]")] else room
  }

  lemma UpToBracketFacts(room: string) returns (rest: string)
    ensures ']' !in UpToBracket(room)
    ensures ']' in room <==> UpToBracket(room) != room
    ensures ']' in room ==> room == UpToBracket(room) + ("]" + rest)
  {
    rest := "";
    var i := IndexOf(room, "]");
    IndexOfIsLeftmost(room, "]", 0);
    forall j: nat | j < |room| && room[j] == ']' ensures 0 <= i <= j {
      assert OccursAt(room, "]", j);
      IndexOfIsLeftmost(room, "]", j);
    }
    if i != -1 {
      assert room[i] == room[i..][0] == ']';
      rest := room[i + 1..];
      assert room == room[..i] + ([room[i]] + rest);
    }
  }

  /** The first brackets of prefix + "[" + room + "]" + rest. */
  lemma Brackets(prefix: string, room: string, rest: string)
    requires '[' !in prefix && ']' !in prefix
    ensures var s := prefix + ("[" + (room + ("]" + rest)));
            && IndexOf(s, "[") == |prefix|
            && IndexOf(s, "]") == |prefix| + 1 + |UpToBracket(room)|
            && s[|prefix| + 1..|prefix| + 1 + |UpToBracket(room)|] == UpToBracket(room)
  {
    var u := UpToBracket(room);
    var more := UpToBracketFacts(room);
    var after := if ']' in room then more + ("]" + rest) else rest;
    assert room + ("]" + rest) == u + ("]" + after);
    FirstBrackets(prefix, u, after);
  }

  lemma FirstBrackets(prefix: string, u: string, after: string)
    requires '[' !in prefix && ']' !in prefix && ']' !in u
    ensures var s := prefix + ("[" + (u + ("]" + after)));
            && IndexOf(s, "[") == |prefix| && IndexOf(s, "]") == |prefix| + 1 + |u|
            && s[|prefix| + 1..|prefix| + 1 + |u|] == u
  {
    var s := prefix + ("[" + (u + ("]" + after)));
    IndexOfChar(prefix, '[', u + ("]" + after));
    assert prefix + ['['] + (u + ("]" + after)) == s && ['['] == "[";
    IndexOfChar(prefix + "[" + u, ']', after);
    assert (prefix + "[" + u) + [']'] + after == s && [']'] == "]";
  }

  /** The body is addressed to this room: its name stands between the first brackets. */
  predicate AddressedTo(body: string, room: string) {
    var start, end := IndexOf(body, "[") + 1, IndexOf(body, "]");
    start > 0 && end > start && Mid(body, start, end - start) == room
  }

  /** A room message is addressed to the room it was sent to exactly when the name is not empty and holds no "]". */
  lemma RoomNameRecoveredIff(room: string, nickname: string, message: string)
    ensures AddressedTo(RoomMsgBody(room, nickname, message), room) <==> room != "" && ']' !in room
  {
    var msg := RoomMsgBody(room, nickname, message);
    var rest := " " + nickname + ": " + message;
    assert msg == "채팅방 " + ("[" + (room + ("]" + rest))) by {
      assert "채팅방 [" == "채팅방 " + "[" && "] " == "]" + " ";
    }
    Brackets("채팅방 ", room, rest);
    var more := UpToBracketFacts(room);
  }

  lemma DropHead(head: string, text: string, whole: string)
    requires whole == head + text
    ensures whole[|head|..] == text
  {
  }

  lemma StrippedBody(room: string, nickname: string, message: string)
    requires ']' !in room
    ensures Stripped(RoomMsgBody(room, nickname, message)) == nickname + ": " + message
  {
    var msg := RoomMsgBody(room, nickname, message);
    var rest := " " + nickname + ": " + message;
    assert msg == "채팅방 " + ("[" + (room + ("]" + rest))) by {
      assert "채팅방 [" == "채팅방 " + "[" && "] " == "]" + " ";
    }
    Brackets("채팅방 ", room, rest);
    var more := UpToBracketFacts(room);
    DropHead("채팅방 [" + room + "] ", nickname + ": " + message, msg);
  }

  /** The line contains the opening of a room name, whatever comes after. */
  lemma OpensRoom(prefix: string, tail: string)
    ensures Contains(prefix + ("채팅방 [" + tail), ROOM_OPEN)
  {
    var s := prefix + ("채팅방 [" + tail);
    assert s[|prefix|..] == "채팅방 [" + tail;
    assert OccursAt(s, ROOM_OPEN, |prefix|);
    IndexOfIsLeftmost(s, ROOM_OPEN, |prefix|);
  }

  /** The whole line a room message travels in. */
  function RoomMsgLineText(room: string, nickname: string, message: string): string {
    "ROOM_MSG:" + RoomMsgBody(room, nickname, message)
  }

  lemma RoomLineBranch(v: ClientView, body: string)
    ensures Appended(v, "ROOM_MSG:" + body) == WithRoomLine(v, body)
  {
    KindOfTagged(body);
  }

  lemma AnnouncedInRoomLine(room: string, nickname: string, message: string)
    requires ']' !in room
    ensures AnnouncedRoom(RoomMsgLineText(room, nickname, message)) == room
  {
    var rest := " " + nickname + ": " + message;
    var prefix := "ROOM_MSG:채팅방 ";
    var line := RoomMsgLineText(room, nickname, message);
    assert line == prefix + ("[" + (room + ("]" + rest))) by {
      assert "ROOM_MSG:" + "채팅방 [" == prefix + "[" && "] " == "]" + " ";
      assert line == "ROOM_MSG:" + "채팅방 [" + (room + "] " + nickname + ": " + message);
    }
    Brackets(prefix, room, rest);
    var more := UpToBracketFacts(room);
  }

  /** The window of the room has the message as one more line, and nothing else has changed. */
  function Shown(v: ClientView, room: string, text: string): ClientView
    requires WindowAt(v.windows, room) < |v.windows|
  {
    var i := WindowAt(v.windows, room);
    v.(windows := v.windows[i := v.windows[i].(display := v.windows[i].display + [text])])
  }

  /** A message that is addressed to no room at all changes nothing. */
  lemma UnaddressedLine(v: ClientView, body: string)
    ensures WithRoomLine(v, body) == v || exists room :: AddressedTo(body, room)
  {
    var start, end := IndexOf(body, "[") + 1, IndexOf(body, "]");
    if start > 0 && end > start {
      assert AddressedTo(body, Mid(body, start, end - start));
    }
  }

  lemma AddressedLine(v: ClientView, body: string, room: string, text: string)
    requires AddressedTo(body, room) && Stripped(body) == text
    requires WindowAt(v.windows, room) < |v.windows|
    ensures WithRoomLine(v, body) == Shown(v, room, text)
  {
  }

  lemma RoomLineAppended(v: ClientView, room: string, nickname: string, message: string)
    requires room != "" && ']' !in room && WindowAt(v.windows, room) < |v.windows|
    ensures Appended(v, RoomMsgLineText(room, nickname, message)) == Shown(v, room, nickname + ": " + message)
  {
    var body := RoomMsgBody(room, nickname, message);
    RoomLineBranch(v, body);
    assert AddressedTo(body, room) by { RoomNameRecoveredIff(room, nickname, message); }
    StrippedBody(room, nickname, message);
    AddressedLine(v, body, room, nickname + ": " + message);
  }

  lemma RoomLineAnnouncesIff(room: string, nickname: string, message: string)
    ensures var line := RoomMsgLineText(room, nickname, message);
            Announces(line) <==> Contains(line, JOIN_DONE) && !Contains(line, JOIN_FAILED)
  {
    var tail := room + "] " + nickname + ": " + message;
    OpensRoom("ROOM_MSG:", tail);
    assert RoomMsgBody(room, nickname, message) == "채팅방 [" + tail;
  }

  /** The client after a room message, by the two phrases the callback looks for anywhere in a line. */
  function AfterRoomLine(v: ClientView, line: string, room: string, text: string): ClientView
    requires WindowAt(v.windows, room) < |v.windows|
  {
    if Contains(line, JOIN_FAILED) then Shown(Warned(v), room, text)
    else if Contains(line, JOIN_DONE) then v
    else Shown(v, room, text)
  }

  /**
    With the window of the room open, the client shows exactly "nickname: message" there, and nothing
    else happens, if and only if the line holds neither the refusal nor the confirmation phrase of a join.
    With the refusal phrase there is a warning besides; with only the confirmation phrase the message is lost.
   */
  lemma RoomLineShownIff(v: ClientView, room: string, nickname: string, message: string)
    requires room != "" && ']' !in room && WindowAt(v.windows, room) < |v.windows|
    ensures var line, text := RoomMsgLineText(room, nickname, message), nickname + ": " + message;
            && OnLine(v, line) == AfterRoomLine(v, line, room, text)
            && (OnLine(v, line) == Shown(v, room, text) <==> !Contains(line, JOIN_FAILED) && !Contains(line, JOIN_DONE))
  {
    var line, text := RoomMsgLineText(room, nickname, message), nickname + ": " + message;
    RoomLineAnnouncesIff(room, nickname, message);
    AnnouncedInRoomLine(room, nickname, message);
    RoomLineAppended(v, room, nickname, message);
    RoomLineAppended(Warned(v), room, nickname, message);
    LineShown(v, line);
    ShownDiffers(v, room, text);
  }

  lemma ShownDiffers(v: ClientView, room: string, text: string)
    requires WindowAt(v.windows, room) < |v.windows|
    ensures Shown(v, room, text) != v && Shown(v, room, text) != Shown(Warned(v), room, text)
  {
    var i := WindowAt(v.windows, room);
    assert Shown(v, room, text).windows[i].display != v.windows[i].display;
  }

  lemma ChompLine(line: string)
    ensures Chomp(line + "\n") == line
  {
  }

  /** The command line of a group window, wrapped for the wire with its two newlines, reaches the server as one line. */
  lemma CommandArrives(chunks: seq<string>, body: string)
    requires body != "" && '\n' !in body && Concat(chunks) == Wire(body + "\n")
    ensures NonEmpty(Frames("", chunks)) == [body]
  {
    assert "" + Concat(chunks) == body + "\n" + "\n";
    OneLineArrives("", chunks, body, "\n");
  }

  /** The body of a /room_msg command line. */
  function RoomMsgCommandLine(room: string, message: string): string {
    "/room_msg " + (room + " " + message)
  }

  /** Every live member of the room got the text once, and no other socket got anything. */
  ghost predicate MembersGot(s: State, r: State, room: string, text: string) {
    && (forall k :: IsMember(s.rooms, room, k) && Live(s, k) ==>
         Received(r.out, SocketOf(s, k)) == Received(s.out, SocketOf(s, k)) + [text])
    && (forall q :: (forall k :: IsMember(s.rooms, room, k) && Live(s, k) ==> SocketOf(s, k) != q) ==>
         Received(r.out, q) == Received(s.out, q))
  }

  /**
    A room message from the sender's input field to the log of a receiving member. The sender is a
    member of the room; the message is what the input field gives after trimming. However the command
    is cut into chunks, the server handles exactly one non-empty line, and if all writes succeed every
    live member's socket gets the formatted line once and no other socket anything.
   */
  lemma RoomMessageSent(env: Env, s: State, sender: Id, room: string, message: string, chunks: seq<string>)
    requires Inv(s) && s.up && IsMember(s.rooms, room, sender)
    requires room != "" && !LowMarker(room) && '\n' !in message
    requires Concat(chunks) == Wire(RoomMsgCommand(room, message))
    ensures NonEmpty(Frames("", chunks)) == [RoomMsgCommandLine(room, message)]
    ensures var r := Step(env, s, Data(sender, RoomMsgCommandLine(room, message) + "\n"));
            r.up ==> MembersGot(s, r, room, RoomMsgLineText(room, NicknameOf(s.users, sender), message) + "\n")
  {
    assert SpaceFree(room);
    RoomCommandArrives(room, message, chunks);
    RoomCommandHandled(env, s, sender, room, message);
    EveryMemberServed(env, s, sender, room, message);
    RoomTextParts(room, NicknameOf(s.users, sender), message);
  }

  lemma RoomCommandHandled(env: Env, s: State, sender: Id, room: string, message: string)
    requires s.up && room != "" && SpaceFree(room) && '\n' !in message
    ensures Step(env, s, Data(sender, RoomMsgCommandLine(room, message) + "\n")) ==
            OnRoomMsg(env, s, sender, room, message)
  {
    RoomCommandParsed(room, message);
    StepParsed(env, s, sender, RoomMsgCommandLine(room, message) + "\n", RoomMsg(room, message));
  }

  lemma RoomCommandArrives(room: string, message: string, chunks: seq<string>)
    requires SpaceFree(room) && !LowMarker(room) && '\n' !in message
    requires Concat(chunks) == Wire(RoomMsgCommand(room, message))
    ensures NonEmpty(Frames("", chunks)) == [RoomMsgCommandLine(room, message)]
  {
    var line := RoomMsgCommandLine(room, message);
    RoomMsgCommandText(room, message);
    assert '\n' !in line by { WordHasNoNewline(room); }
    CommandArrives(chunks, line);
  }

  lemma RoomCommandParsed(room: string, message: string)
    requires room != "" && SpaceFree(room) && '\n' !in message
    ensures Parse(RoomMsgCommandLine(room, message) + "\n") == RoomMsg(room, message)
  {
    ChompLine(RoomMsgCommandLine(room, message));
    RoomMsgLine(room, message);
  }

  lemma WordHasNoNewline(w: string)
    requires SpaceFree(w)
    ensures '\n' !in w
  {
  }

  lemma EveryMemberServed(env: Env, s: State, sender: Id, room: string, message: string)
    requires Connected(s) && IsMember(s.rooms, room, sender)
    ensures var r := OnRoomMsg(env, s, sender, room, message);
            r.up ==> MembersGot(s, r, room, RoomText(room, NicknameOf(s.users, sender), message))
  {
    var r := OnRoomMsg(env, s, sender, room, message);
    var text := RoomText(room, NicknameOf(s.users, sender), message);
    RoomMsgTheorem(env, s, sender, room, message);
    var order :| Enumerates(order, s.rooms[room].members) && FannedOut(Ticked(s), r, order, text);
    forall k | IsMember(s.rooms, room, k) && Live(s, k) ensures SocketAmong(Ticked(s), order, SocketOf(s, k)) {
      assert k in order && Live(Ticked(s), k);
    }
    forall q | forall k :: IsMember(s.rooms, room, k) && Live(s, k) ==> SocketOf(s, k) != q
      ensures !SocketAmong(Ticked(s), order, q)
    {
      if m :| m in order && Live(Ticked(s), m) && SocketOf(Ticked(s), m) == q {
        assert IsMember(s.rooms, room, m) && Live(s, m);
      }
    }
  }

  /**
    The same message from the log of the receiving member to the window. However the text is cut into
    chunks, the client handles exactly the one line, and shows "nickname: message" in the window of the
    room and does nothing else if and only if the line holds neither phrase of an answer to a join.
   */
  lemma RoomMessageReceived(v: ClientView, room: string, nickname: string, message: string, chunks: seq<string>)
    requires room != "" && SpaceFree(room) && ']' !in room && '\n' !in nickname && '\n' !in message
    requires WindowAt(v.windows, room) < |v.windows|
    requires Concat(chunks) == RoomMsgLineText(room, nickname, message) + "\n"
    ensures NonEmpty(Frames("", chunks)) == [RoomMsgLineText(room, nickname, message)]
    ensures var line, text := RoomMsgLineText(room, nickname, message), nickname + ": " + message;
            && OnLine(v, line) == AfterRoomLine(v, line, room, text)
            && (OnLine(v, line) == Shown(v, room, text) <==> !Contains(line, JOIN_FAILED) && !Contains(line, JOIN_DONE))
  {
    var line := RoomMsgLineText(room, nickname, message);
    assert '\n' !in line by { WordHasNoNewline(room); }
    LineArrives(chunks, line);
    RoomLineShownIff(v, room, nickname, message);
  }

  /** What the room message protocol is for, about one receiver: from the server's log to its window. */
  ghost predicate ArrivesAndShows(s: State, r: State, k: Id, v: ClientView, room: string, nickname: string,
                                  message: string, down: seq<string>)
    requires Live(s, k) && WindowAt(v.windows, room) < |v.windows|
  {
    var line, text := RoomMsgLineText(room, nickname, message), nickname + ": " + message;
    && Received(r.out, SocketOf(s, k)) == Received(s.out, SocketOf(s, k)) + [line + "\n"]
    && (Concat(down) == line + "\n" ==> NonEmpty(Frames("", down)) == [line])
    && OnLine(v, line) == AfterRoomLine(v, line, room, text)
    && (OnLine(v, line) == Shown(v, room, text) <==> !Contains(line, JOIN_FAILED) && !Contains(line, JOIN_DONE))
  }

  /** The writes a room message takes succeed, each at its moment. */
  ghost predicate Deliverable(env: Env, s: State, room: string)
    requires room in s.rooms
  {
    AllTakeWrites(env, Ticked(s), env.order(s.clock, s.rooms[room].members))
  }

  /**
    A room message end to end, in every reachable state of every environment, over every chunking of both
    directions. The input is any text typed into one line; the room is any stored one whose name is not
    empty and holds neither "]" nor a low place marker. The server handles exactly one line. It stays up
    exactly if all the writes succeed, and they do if no live member's socket fails from now on. Then the
    receiver shows "nickname: message" in the window of that room, and nothing else, if and only if the
    line holds neither phrase of an answer to a join.
   */
  lemma RoomMessageEndToEnd(env: Env, events: seq<Event>, sender: Id, k: Id, room: string,
                            input: string, sent: seq<string>, v: ClientView, down: seq<string>)
    requires forall e :: e in events ==> FramedEvent(e)
    requires var s := Run(env, events);
             s.up && IsMember(s.rooms, room, sender) && IsMember(s.rooms, room, k) && Live(s, k)
    requires room != "" && ']' !in room && !LowMarker(room) && '\n' !in input && '\n' !in sender
    requires Concat(sent) == Wire(RoomMsgCommand(room, Trimmed(input)))
    requires WindowAt(v.windows, room) < |v.windows|
    ensures NonEmpty(Frames("", sent)) == [RoomMsgCommandLine(room, Trimmed(input))]
    ensures var s := Run(env, events);
            var r := Step(env, s, Data(sender, RoomMsgCommandLine(room, Trimmed(input)) + "\n"));
            && (r.up <==> Deliverable(env, s, room))
            && (r.up ==> ArrivesAndShows(s, r, k, v, room, NicknameOf(s.users, sender), Trimmed(input), down))
    ensures var s := Run(env, events);
            (forall m, t :: IsMember(s.rooms, room, m) && Live(s, m) && t > s.clock ==> !env.fails(t, SocketOf(s, m)))
            ==> Deliverable(env, s, room)
  {
    var s, message := Run(env, events), Trimmed(input);
    TrimmedSolid(input);
    RunInvariant(env, events);
    RoomMessageSent(env, s, sender, room, message, sent);
    RoomCommandHandled(env, s, sender, room, message);
    RoomMsgSurvivesIff(env, s, sender, room, message);
    ShownToReceiver(env, events, sender, v, room, message, down);
    HealthyRoom(env, s, room);
  }

  lemma HealthyRoom(env: Env, s: State, room: string)
    requires room in s.rooms
    ensures (forall m, t :: IsMember(s.rooms, room, m) && Live(s, m) && t > s.clock ==> !env.fails(t, SocketOf(s, m)))
            ==> Deliverable(env, s, room)
  {
    var order := env.order(s.clock, s.rooms[room].members);
    assert Enumerates(order, s.rooms[room].members);
    if forall m, t :: IsMember(s.rooms, room, m) && Live(s, m) && t > s.clock ==> !env.fails(t, SocketOf(s, m)) {
      forall m, t | m in order && Live(Ticked(s), m) && t >= Ticked(s).clock
        ensures !env.fails(t, SocketOf(Ticked(s), m))
      {
        assert IsMember(s.rooms, room, m) && Live(s, m) && SocketOf(Ticked(s), m) == SocketOf(s, m);
        assert !env.fails(t, SocketOf(s, m));
      }
      HealthyMembersTakeWrites(env, Ticked(s), order);
    }
  }

  lemma ShownToReceiver(env: Env, events: seq<Event>, sender: Id, v: ClientView, room: string, message: string,
                        down: seq<string>)
    requires forall e :: e in events ==> FramedEvent(e)
    requires '\n' !in sender && '\n' !in message
    requires room != "" && SpaceFree(room) && ']' !in room && WindowAt(v.windows, room) < |v.windows|
    ensures var nickname := NicknameOf(Run(env, events).users, sender);
            var line, text := RoomMsgLineText(room, nickname, message), nickname + ": " + message;
            && (Concat(down) == line + "\n" ==> NonEmpty(Frames("", down)) == [line])
            && OnLine(v, line) == AfterRoomLine(v, line, room, text)
            && (OnLine(v, line) == Shown(v, room, text) <==> !Contains(line, JOIN_FAILED) && !Contains(line, JOIN_DONE))
  {
    var nickname := NicknameOf(Run(env, events).users, sender);
    NicknamesAreOneLine(env, events);
    RoomLineShownIff(v, room, nickname, message);
    if Concat(down) == RoomMsgLineText(room, nickname, message) + "\n" {
      RoomMessageReceived(v, room, nickname, message, down);
    }
  }

  /* ----- create, then join ----- */

  /** A room, once created as private, stands with its password whatever happens between. */
  lemma PrivateRoomStands(env: Env, before: seq<Event>, create: Event, between: seq<Event>, name: string, password: string)
    requires create.Data? && Parse(create.data) == CreateRoom(name, true, password)
    requires Run(env, before).up && name !in Run(env, before).rooms
    ensures var s := Run(env, before + [create] + between);
            name in s.rooms && s.rooms[name].isPrivate && s.rooms[name].password == password
  {
    var created := before + [create];
    var prior := created + between;
    assert created[..|created| - 1] == before;
    StepRooms(env, Run(env, before), create);
    assert prior[..|created|] == created;
    RunGrows(env, prior, |created|);
  }

  lemma JoinDecides(env: Env, prior: seq<Event>, join: Event, name: string, k: Id, password: string)
    requires join.Data? && join.id == k && Parse(join.data) == JoinRoom(name, password)
    requires var s := Run(env, prior);
             s.up && name in s.rooms && s.rooms[name].isPrivate && !IsMember(s.rooms, name, k)
    ensures IsMember(Run(env, prior + [join]).rooms, name, k) <==> password == Run(env, prior).rooms[name].password
  {
    assert (prior + [join])[..|prior + [join]| - 1] == prior;
    StepRooms(env, Run(env, prior), join);
  }

  /** The line that went out last. */
  function LastSent(v: ClientView): string {
    if v.sent == [] then "" else v.sent[|v.sent| - 1]
  }

  /**
    What the create dialog does. Without a name it warns. Otherwise exactly one line goes out, the room is
    the current one and one more refresh is due; and the server reads that line as the room that was asked
    for, private only with a password, exactly if the name and, if private, the password are single words.
   */
  lemma CreateDialogSends(v: ClientView, dialogName: string, dialogPassword: string, isPrivate: bool)
    ensures var name, password := Trimmed(dialogName), Trimmed(dialogPassword);
            var w := AfterCreateDialog(v, dialogName, dialogPassword, isPrivate);
            && (name == "" ==> w == v.(warnings := v.warnings + 1))
            && (name != "" ==>
                  && w == v.(current := name, sent := v.sent + [LastSent(w)], timers := v.timers + 1)
                  && (Parse(LastSent(w)) == CreateRoom(name, isPrivate && password != "", if isPrivate then password else "")
                      <==> SpaceFree(name) && (isPrivate ==> SpaceFree(password))))
  {
    var name, password := Trimmed(dialogName), Trimmed(dialogPassword);
    if name != "" {
      var sent := SentByDialog(v, dialogName, dialogPassword, isPrivate);
      CreateArrivesIff(name, password, isPrivate);
    }
  }

  lemma SentByDialog(v: ClientView, dialogName: string, dialogPassword: string, isPrivate: bool) returns (sent: string)
    requires Trimmed(dialogName) != ""
    ensures sent == Wire(CreateCommand(Trimmed(dialogName), Trimmed(dialogPassword), isPrivate))
    ensures AfterCreateDialog(v, dialogName, dialogPassword, isPrivate) ==
            v.(current := Trimmed(dialogName), sent := v.sent + [sent], timers := v.timers + 1)
    ensures LastSent(AfterCreateDialog(v, dialogName, dialogPassword, isPrivate)) == sent
  {
    var name, password := Trimmed(dialogName), Trimmed(dialogPassword);
    SameCreateLine(name, password, isPrivate);
    sent := LastOfAsked(v, name, CreateLine(name, password, isPrivate), v.timers + 1);
  }

  lemma LastOfAsked(v: ClientView, room: string, command: string, timers: nat) returns (sent: string)
    ensures sent == Wire(command)
    ensures Asked(v, room, command).(timers := timers) == v.(current := room, sent := v.sent + [sent], timers := timers)
    ensures LastSent(Asked(v, room, command).(timers := timers)) == sent
  {
    sent := Wire(command);
  }

  lemma SameCreateLine(name: string, password: string, isPrivate: bool)
    ensures CreateLine(name, password, isPrivate) == CreateCommand(name, password, isPrivate)
  {
    CreateCommandText(name, password, isPrivate);
  }

  /** What a click on a public room does: one join line goes out, read as that room exactly if its name allows it. */
  lemma RoomClickSends(v: ClientView, room: string)
    ensures var w := AfterRoomClick(v, room);
            && w.current == room && w.sent == v.sent + [LastSent(w)] && w.warnings == v.warnings && w.chat == v.chat
            && WindowAt(w.windows, room) < |w.windows|
            && (WindowAt(v.windows, room) < |v.windows| ==> w.windows == v.windows)
            && (Parse(LastSent(w)) == JoinRoom(room, "") <==> Solid(IsBlank, room) && !Contains(room, PASSWORD))
  {
    JoinCommandText(room);
    JoinLine(room);
    ChompLine("/join_room " + room);
    WindowInConcat(v.windows, WindowView(room, [], []), room);
    assert LastSent(AfterRoomClick(v, room)) == Wire("/join_room " + room);
  }

  /** What the password dialog does: nothing on an empty entry; otherwise one line goes out, and no window is opened. */
  lemma JoinDialogSends(v: ClientView, room: string, entered: string)
    ensures var w := AfterJoinDialog(v, room, entered);
            && (entered == "" ==> w == v)
            && (entered != "" ==>
                  && w == v.(current := room, sent := v.sent + [LastSent(w)])
                  && (SpaceFree(room) && !Contains(room, PASSWORD) && !LowMarker(room) ==>
                        Parse(LastSent(w)) == JoinRoom(room, Trim(entered))))
  {
    if entered != "" {
      assert LastSent(AfterJoinDialog(v, room, entered)) == Wire(JoinPrivateCommand(room, entered));
      if SpaceFree(room) && !Contains(room, PASSWORD) && !LowMarker(room) {
        JoinParsed(room, entered);
      }
    }
  }

  /**
    From dialog to dialog. What one client's create dialog sent for a private room lets a non-member in,
    after any other events, through what its own password dialog sent, exactly when the trimmed entry is
    the trimmed creation password.
   */
  lemma CreateThenJoin(env: Env, before: seq<Event>, creator: Id, v: ClientView, dialogName: string,
                       dialogPassword: string, between: seq<Event>, k: Id, u: ClientView, entered: string)
    requires var name, password := Trimmed(dialogName), Trimmed(dialogPassword);
             && name != "" && SpaceFree(name) && !Contains(name, PASSWORD) && !LowMarker(name)
             && password != "" && SpaceFree(password) && entered != ""
             && Run(env, before).up && name !in Run(env, before).rooms
    requires var create := Data(creator, LastSent(AfterCreateDialog(v, dialogName, dialogPassword, true)));
             var s := Run(env, before + [create] + between);
             s.up && !IsMember(s.rooms, Trimmed(dialogName), k)
    ensures var name := Trimmed(dialogName);
            var create := Data(creator, LastSent(AfterCreateDialog(v, dialogName, dialogPassword, true)));
            var join := Data(k, LastSent(AfterJoinDialog(u, name, entered)));
            IsMember(Run(env, before + [create] + between + [join]).rooms, name, k) <==>
            Trim(entered) == Trimmed(dialogPassword)
  {
    var name, password := Trimmed(dialogName), Trimmed(dialogPassword);
    var create := Data(creator, LastSent(AfterCreateDialog(v, dialogName, dialogPassword, true)));
    var join := Data(k, LastSent(AfterJoinDialog(u, name, entered)));
    CreateDialogSends(v, dialogName, dialogPassword, true);
    JoinDialogSends(u, name, entered);
    PrivateRoomStands(env, before, create, between, name, password);
    JoinDecides(env, before + [create] + between, join, name, k, Trim(entered));
  }

  lemma JoinParsed(name: string, entered: string)
    requires SpaceFree(name) && !Contains(name, PASSWORD) && !LowMarker(name)
    ensures Parse(Wire(JoinPrivateCommand(name, entered))) == JoinRoom(name, Trim(entered))
  {
    JoinPrivateCommandText(name, entered);
    JoinPasswordParse(name, entered);
    ChompLine(JoinPrivateCommand(name, entered));
    TrimSpaceFree(name);
  }

  /** What the dialog asks for is what the server creates, exactly when name and password are single words. */
  lemma CreateArrivesIff(name: string, password: string, isPrivate: bool)
    requires name != ""
    ensures Parse(Wire(CreateCommand(name, password, isPrivate))) ==
            CreateRoom(name, isPrivate && password != "", if isPrivate then password else "")
       <==> SpaceFree(name) && (isPrivate ==> SpaceFree(password))
  {
    CreateCommandText(name, password, isPrivate);
    ChompLine(CreateCommand(name, password, isPrivate));
    CreatePrivateLine(name, password);
    CreatePublicLine(name);
    assert SpaceFree("");
  }

  /* ----- join, reply, window ----- */

  /** A confirmation for a one-word room name never contains the refusal phrase. */
  lemma ConfirmationIsNoRefusal(room: string)
    requires SpaceFree(room)
    ensures !Contains(JoinDoneLine(room), JOIN_FAILED)
  {
    var t := JoinDoneLine(room);
    var i := IndexOf(t, JOIN_FAILED);
    IndexOfIsLeftmost(t, JOIN_FAILED, 0);
    if i != -1 {
      RefusalNeverAt(room, i);
    }
  }

  lemma RefusalNeverAt(room: string, i: nat)
    requires SpaceFree(room)
    ensures !OccursAt(JoinDoneLine(room), JOIN_FAILED, i)
  {
    var t := JoinDoneLine(room);
    if OccursAt(t, JOIN_FAILED, i) {
      assert |t| == |room| + 12 && i + 9 <= |t|;
      assert t[i + 3] == t[i..][3] == JOIN_FAILED[3] == ' ';
      assert t[i + 4] == t[i..][4] == JOIN_FAILED[4] == '참';
      assert t[i + 7] == t[i..][7] == JOIN_FAILED[7] == '실';
      SpacesOfConfirmation(room, i + 3);
    }
  }

  lemma SpacesOfConfirmation(room: string, j: nat)
    requires SpaceFree(room) && j < |room| + 12
    ensures var t := JoinDoneLine(room);
            && |t| == |room| + 12
            && (t[j] == ' ' ==> j == 3 || j == |room| + 6 || j == |room| + 9)
            && t[4] == '[' && t[|room| + 10] == '완'
  {
    var t := JoinDoneLine(room);
    var head, end := "채팅방 [", "] 참여 완료";
    assert t == head + room + end;
    if 5 <= j < 5 + |room| {
      assert t[j] == room[j - 5] && room[j - 5] in room;
    } else if j >= 5 + |room| {
      assert t[j] == end[j - 5 - |room|];
    } else {
      assert t[j] == head[j];
    }
    assert t[|room| + 10] == end[5];
  }

  lemma ConfirmationParts(room: string)
    requires SpaceFree(room)
    ensures Announces(JoinDoneLine(room)) && AnnouncedRoom(JoinDoneLine(room)) == UpToBracket(room)
    ensures KindOf(JoinDoneLine(room)) == ChatKind
  {
    ConfirmationIsNoRefusal(room);
    ConfirmationPhrases(room);
    ConfirmationRoom(room);
    assert JoinDoneLine(room)[0] == '채';
  }

  lemma ConfirmationPhrases(room: string)
    ensures Contains(JoinDoneLine(room), ROOM_OPEN) && Contains(JoinDoneLine(room), JOIN_DONE)
  {
    OpensRoom("", room + "] 참여 완료");
    assert JoinDoneLine(room) == "" + ("채팅방 [" + (room + "] 참여 완료"));
    ClosesJoin("채팅방 [" + room);
  }

  lemma ConfirmationRoom(room: string)
    ensures AnnouncedRoom(JoinDoneLine(room)) == UpToBracket(room)
  {
    var line := JoinDoneLine(room);
    var rest := " 참여 완료";
    assert line == "채팅방 " + ("[" + (room + ("]" + rest))) by {
      assert "채팅방 [" == "채팅방 " + "[" && "] 참여 완료" == "]" + rest;
    }
    Brackets("채팅방 ", room, rest);
  }

  lemma ClosesJoin(prefix: string)
    ensures Contains(prefix + "] 참여 완료", JOIN_DONE)
  {
    var s := prefix + "] 참여 완료";
    assert s[|prefix|..] == "] 참여 완료";
    assert OccursAt(s, JOIN_DONE, |prefix|);
    IndexOfIsLeftmost(s, JOIN_DONE, |prefix|);
  }

  /** The client after a confirmation: a window titled by the name up to its first "]" stands, or is opened. */
  function Confirmed(v: ClientView, room: string): ClientView {
    var title := UpToBracket(room);
    if WindowAt(v.windows, title) < |v.windows| then v
    else v.(windows := v.windows + [WindowView(title, [], [])], chat := v.chat + [JoinDoneLine(room)])
  }

  lemma {:induction false} WindowInConcat(a: seq<WindowView>, w: WindowView, title: string)
    ensures WindowAt(a + [w], title) < |a + [w]| <==> WindowAt(a, title) < |a| || w.title == title
  {
    if a == [] {
      assert a + [w] == [w];
    } else {
      assert (a + [w])[1..] == a[1..] + [w];
      WindowInConcat(a[1..], w, title);
    }
  }

  /**
    A confirmation of a one-word room changes the client like this and in no other way. The room itself
    has a window afterwards exactly if it had one or its name is free of "]".
   */
  lemma ConfirmationOpensWindow(v: ClientView, room: string)
    requires SpaceFree(room)
    ensures OnLine(v, JoinDoneLine(room)) == Confirmed(v, room)
    ensures var w := Confirmed(v, room);
            WindowAt(w.windows, room) < |w.windows| <==> WindowAt(v.windows, room) < |v.windows| || ']' !in room
  {
    ConfirmationParts(room);
    var rest := UpToBracketFacts(room);
    WindowInConcat(v.windows, WindowView(UpToBracket(room), [], []), room);
  }

  /** After a refusal the client is warned once, and no window changes. */
  lemma RefusalWarns(v: ClientView)
    ensures OnLine(v, JOIN_REFUSED) == v.(warnings := v.warnings + 1, chat := v.chat + [JOIN_REFUSED])
  {
    assert JOIN_REFUSED[..9] == JOIN_FAILED;
    assert JOIN_FAILED <= JOIN_REFUSED[0..];
    assert OccursAt(JOIN_REFUSED, JOIN_FAILED, 0);
    IndexOfIsLeftmost(JOIN_REFUSED, JOIN_FAILED, 0);
    assert JOIN_REFUSED[0] == '채';
    assert KindOf(JOIN_REFUSED) == ChatKind;
  }

  /** The line the server answers a join line with. */
  function JoinAnswer(s: State, k: Id, room: string, password: string): string {
    if CanJoin(s.rooms, room, k, password) then JoinDoneLine(room) else JOIN_REFUSED
  }

  /**
    A line that the server reads as a join, from a client whose socket takes the answer: exactly one line
    goes out, to that client. If it is let in, it is a member afterwards, the client's view changes by the
    confirmation and in no other way, and it has a window of the room unless the name holds "]"; otherwise
    no room has changed, and the client is warned once and shows the line, nothing else.
   */
  lemma JoinEndToEnd(env: Env, s: State, k: Id, data: string, room: string, password: string, v: ClientView)
    requires Inv(s) && s.up && CanWrite(env, s, k) && Parse(data) == JoinRoom(room, password)
    ensures var r, line := Step(env, s, Data(k, data)), JoinAnswer(s, k, room, password);
            && r.out == s.out + [Sent(SocketOf(s, k), line + "\n")]
            && (CanJoin(s.rooms, room, k, password) ==>
                 && IsMember(r.rooms, room, k) && OnLine(v, line) == Confirmed(v, room)
                 && (WindowAt(OnLine(v, line).windows, room) < |OnLine(v, line).windows| <==>
                     WindowAt(v.windows, room) < |v.windows| || ']' !in room))
            && (!CanJoin(s.rooms, room, k, password) ==>
                 && r.rooms == s.rooms
                 && OnLine(v, line) == v.(warnings := v.warnings + 1, chat := v.chat + [JOIN_REFUSED]))
  {
    JoinStep(env, s, k, data, room, password);
    if CanJoin(s.rooms, room, k, password) {
      ConfirmationOpensWindow(v, room);
    } else {
      RefusalWarns(v);
    }
  }

  /* ----- the other answers on the screen ----- */

  /** A phrase of a space and a letter in head + room + tail, for a room without spaces, lies in one of the ends. */
  lemma NoPhraseAcross(head: string, room: string, tail: string, phrase: string)
    requires |phrase| == 2 && phrase[0] == ' ' && SpaceFree(room)
    requires head != "" && head[|head| - 1] != ' ' && !Contains(head, phrase) && !Contains(tail, phrase)
    ensures !Contains(head + room + tail, phrase)
  {
    var s := head + room + tail;
    if Contains(s, phrase) {
      var j := IndexOf(s, phrase);
      IndexOfIsLeftmost(s, phrase, 0);
      var n := |head| + |room|;
      assert s[j] == s[j..][0] == ' ' && s[j + 1] == s[j..][1] == phrase[1];
      if j < |head| {
        assert s[j] == head[j];
        assert j + 1 < |head|;
        assert head[j..][..2] == phrase;
        IndexOfIsLeftmost(head, phrase, j);
      } else if j < n {
        InTheMiddle(head, room, tail, j);
      } else {
        assert s[n..] == tail && s[j..] == tail[j - n..];
        IndexOfIsLeftmost(tail, phrase, j - n);
      }
    }
  }

  lemma InTheMiddle(head: string, room: string, tail: string, j: nat)
    requires |head| <= j < |head| + |room|
    ensures (head + room + tail)[j] in room
  {
    assert (head + room + tail)[j] == room[j - |head|];
  }

  lemma LongerPhrase(s: string, phrase: string, k: nat, part: string)
    requires part != "" && k + |part| <= |phrase| && phrase[k..k + |part|] == part && !Contains(s, part)
    ensures !Contains(s, phrase)
  {
    if Contains(s, phrase) {
      var j := IndexOf(s, phrase);
      IndexOfIsLeftmost(s, phrase, 0);
      assert s[j + k..][..|part|] == s[j..][..|phrase|][k..k + |part|];
      IndexOfIsLeftmost(s, part, j + k);
    }
  }

  /** A line with " 참" nowhere and without a tag is only shown in the chat. */
  lemma PlainLineShown(v: ClientView, line: string)
    requires !Contains(line, " 참") && line != "" && line[0] == '채'
    ensures OnLine(v, line) == v.(chat := v.chat + [line])
  {
    assert JOIN_FAILED[3..3 + 2] == " 참" && JOIN_DONE[1..1 + 2] == " 참";
    LongerPhrase(line, JOIN_FAILED, 3, " 참");
    LongerPhrase(line, JOIN_DONE, 1, " 참");
    ChatKindIff(v, line);
    assert "ROOM_LIST:"[0] == 'R' && "ROOM_USER_LIST:"[0] == 'R' && "USER_LIST:"[0] == 'U' && "ROOM_MSG:"[0] == 'R';
  }

  lemma DoneLineShown(v: ClientView, room: string, tail: string)
    requires SpaceFree(room) && '참' !in tail
    ensures OnLine(v, "채팅방 [" + room + tail) == v.(chat := v.chat + ["채팅방 [" + room + tail])
  {
    var head := "채팅방 [";
    assert " 참"[1] == '참' && '참' !in head;
    WithoutCharacter(head, " 참", '참');
    WithoutCharacter(tail, " 참", '참');
    NoPhraseAcross(head, room, tail, " 참");
    assert (head + room + tail)[0] == head[0] == '채';
    PlainLineShown(v, head + room + tail);
  }

  lemma RefusedLineShown(v: ClientView, line: string)
    requires line == CREATE_REFUSED || line == LEAVE_REFUSED
    ensures OnLine(v, line) == v.(chat := v.chat + [line])
  {
    assert " 참"[1] == '참';
    assert '참' !in CREATE_REFUSED && '참' !in LEAVE_REFUSED;
    WithoutCharacter(line, " 참", '참');
    assert CREATE_REFUSED[0] == '채' && LEAVE_REFUSED[0] == '채';
    PlainLineShown(v, line);
  }

  /**
    A line that the server reads as a creation, from a client whose socket takes the answer. Exactly one
    text goes out, to that client: the confirmation if the name was free, and then the room stands, empty,
    on the asked terms; otherwise the refusal, and no room has changed. The client shows the line in the
    chat and does nothing else.
   */
  lemma CreateEndToEnd(env: Env, s: State, k: Id, data: string, room: string, isPrivate: bool, password: string,
                       v: ClientView)
    requires s.up && CanWrite(env, s, k) && Parse(data) == CreateRoom(room, isPrivate, password)
    ensures var r, line := Step(env, s, Data(k, data)), if room in s.rooms then CREATE_REFUSED else CreateDoneLine(room);
            && r.up && r.out == s.out + [Sent(SocketOf(s, k), line + "\n" + "\n")]
            && r.rooms == (if room in s.rooms then s.rooms
                           else s.rooms[room := ChatRoomInfo(room, {}, isPrivate, password)])
            && OnLine(v, line) == v.(chat := v.chat + [line])
  {
    CreateStep(env, s, k, data, room, isPrivate, password);
    CreatedNameIsWord(Chomp(data));
    if room in s.rooms {
      RefusedLineShown(v, CREATE_REFUSED);
    } else {
      DoneLineShown(v, room, "] 생성 완료");
    }
  }

  /** A leave line, likewise. */
  lemma LeaveEndToEnd(env: Env, s: State, k: Id, data: string, room: string, v: ClientView)
    requires RoomsNamed(s.rooms) && s.up && CanWrite(env, s, k) && Parse(data) == LeaveRoom(room)
    ensures var r, line := Step(env, s, Data(k, data)),
                           if IsMember(s.rooms, room, k) then LeaveDoneLine(room) else LEAVE_REFUSED;
            && r.up && r.out == s.out + [Sent(SocketOf(s, k), line + "\n")]
            && !IsMember(r.rooms, room, k)
            && (!IsMember(s.rooms, room, k) ==> r.rooms == s.rooms)
            && OnLine(v, line) == v.(chat := v.chat + [line])
  {
    LeaveStep(env, s, k, data, room);
    if IsMember(s.rooms, room, k) {
      DoneLineShown(v, room, "] 퇴장 완료");
    } else {
      RefusedLineShown(v, LEAVE_REFUSED);
      StepRooms(env, s, Data(k, data));
    }
  }

  /* ----- a connection from chunks to state ----- */

  /** The server handling these lines of one client, one after the other. */
  function Serve(env: Env, s: State, id: Id, lines: seq<string>): State
    decreases |lines|
  {
    if lines == [] then s else Serve(env, Step(env, s, Data(id, lines[0] + "\n")), id, lines[1..])
  }

  /** Empty lines do nothing. */
  lemma {:induction false} BlankLinesIgnored(env: Env, s: State, id: Id, lines: seq<string>)
    ensures Serve(env, s, id, lines) == Serve(env, s, id, NonEmpty(lines))
    decreases |lines|
  {
    if lines != [] {
      var t := Step(env, s, Data(id, lines[0] + "\n"));
      BlankLinesIgnored(env, t, id, lines[1..]);
      if lines[0] == "" {
        ChompLine("");
        assert t == s;
        assert [] + NonEmpty(lines[1..]) == NonEmpty(lines[1..]);
      } else {
        assert NonEmpty(lines)[1..] == NonEmpty(lines[1..]);
      }
    }
  }

  /** Over a harmless chunking the server ends in the very state the sent lines lead to. */
  lemma HarmlessChunksServeTheStream(env: Env, s: State, id: Id, chunks: seq<string>)
    requires Harmless(chunks)
    ensures Serve(env, s, id, Frames("", chunks)) == Serve(env, s, id, Lines(Concat(chunks)))
  {
    NonBlankExactIff("", chunks);
    assert "" + Concat(chunks) == Concat(chunks);
    BlankLinesIgnored(env, s, id, Frames("", chunks));
    BlankLinesIgnored(env, s, id, Lines(Concat(chunks)));
  }

  /* ----- a connection from the log to the screen ----- */

  /** The client handling these lines, one after the other. */
  function ShowAll(v: ClientView, lines: seq<string>): ClientView
    decreases |lines|
  {
    if lines == [] then v else ShowAll(OnLine(v, lines[0]), lines[1..])
  }

  /** The lines of a log of texts. */
  function LinesOf(texts: seq<string>): seq<string> {
    if texts == [] then [] else Lines(texts[0]) + LinesOf(texts[1..])
  }

  lemma {:induction false} EndedTextIsFinished(text: string)
    requires EndsLine(text)
    ensures Unfinished(text) == ""
    decreases |text|
  {
    CutAtNewline(text);
    var rest := Discarded(text);
    assert '\n' in text;
    if rest != "" {
      assert rest[|rest| - 1] == text[|text| - 1];
      EndedTextIsFinished(rest);
    }
  }

  lemma {:induction false} LinesOfLog(texts: seq<string>)
    requires forall x :: x in texts ==> EndsLine(x)
    ensures Lines(Concat(texts)) == LinesOf(texts)
  {
    if texts == [] {
      LinesCut("", "");
    } else {
      LinesOfLog(texts[1..]);
      EndedTextIsFinished(texts[0]);
      LinesOfConcat(texts[0], Concat(texts[1..]));
      assert "" + Concat(texts[1..]) == Concat(texts[1..]);
    }
  }

  lemma {:induction false} ReceivedWasWritten(out: seq<Sent>, q: Socket)
    ensures forall x :: x in Received(out, q) ==> exists p :: 0 <= p < |out| && out[p].text == x
  {
    if out != [] {
      var before := out[..|out| - 1];
      ReceivedWasWritten(before, q);
      forall x | x in Received(out, q) ensures exists p :: 0 <= p < |out| && out[p].text == x {
        if x in Received(before, q) {
          var p :| 0 <= p < |before| && before[p].text == x;
          assert out[p].text == x;
        } else {
          assert out[|out| - 1].text == x;
        }
      }
    }
  }

  /**
    The client's side of a whole connection. If what the server ever wrote to a socket reaches the client
    in a harmless chunking, the client ends up with what the lines of that log, one after the other, make
    of its view.
   */
  lemma HarmlessChunksShowTheLog(env: Env, events: seq<Event>, q: Socket, v: ClientView, chunks: seq<string>)
    requires Harmless(chunks) && Concat(chunks) == Concat(Received(Run(env, events).out, q))
    ensures ShowAll(v, NonEmpty(Frames("", chunks))) == ShowAll(v, NonEmpty(LinesOf(Received(Run(env, events).out, q))))
  {
    var out := Run(env, events).out;
    NonBlankExactIff("", chunks);
    assert "" + Concat(chunks) == Concat(chunks);
    ReceivedWasWritten(out, q);
    forall x | x in Received(out, q) ensures EndsLine(x) {
      var p :| 0 <= p < |out| && out[p].text == x;
      EveryEntryEndsLine(env, events, p);
    }
    LinesOfLog(Received(out, q));
  }
}
