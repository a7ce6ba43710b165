/**
  Real inputs for every case in which the system does not do what it seems meant to do: chunks, lines,
  names and whole runs on which the exact conditions proved elsewhere fail.
 */
module Witnesses {
  import opened Text
  import opened Keys
  import opened Lists
  import opened ActiveUsers
  import opened ChatRooms
  import opened Commands
  import opened CommandLines
  import opened Machine
  import opened Cascade
  import opened Runs
  import opened Steps
  import opened Views
  import opened Survival
  import opened Origins
  import opened Framing
  import opened ClientCommands
  import opened ClientWindow
  import opened EndToEnd

  /* ----- lines and names ----- */

  /** Two lines in one chunk: the second is lost. */
  lemma SecondLineLost()
    ensures Frames("", ["a\nb\n"]) == ["a"] && Lines(Concat(["a\nb\n"])) == ["a", "b"]
    ensures !Clean(["a\nb\n"]) && !Harmless(["a\nb\n"])
  {
    var chunk := "a\nb\n";
    assert chunk == "a" + "\n" + ("b" + "\n" + "");
    TwoLinesInOneChunk("a", "b", chunk);
  }

  /** For any two non-empty lines. */
  lemma TwoLinesInOneChunk(a: string, b: string, chunk: string)
    requires '\n' !in a && '\n' !in b && a != "" && b != "" && chunk == a + "\n" + (b + "\n" + "")
    ensures Frames("", [chunk]) == [a] && Lines(Concat([chunk])) == [a, b]
    ensures !Clean([chunk]) && !Harmless([chunk])
  {
    OneChunk(a, b + "\n" + "", chunk);
    LinesCut(a, b + "\n" + "");
    LinesCut(b, "");
    LinesCut("", "");
    BothAreText(a, b);
    FramingIsExactIff("", [chunk]);
    NonBlankExactIff("", [chunk]);
    assert "" + Concat([chunk]) == chunk;
  }

  lemma OneChunk(a: string, rest: string, chunk: string)
    requires '\n' !in a && chunk == a + "\n" + rest
    ensures Frames("", [chunk]) == [a] && Concat([chunk]) == chunk
  {
    assert [chunk][1..] == [] && chunk + Concat([]) == chunk;
    NewlineAtIs(a, rest);
    assert "" + chunk == chunk && chunk[..|a|] == a;
  }

  lemma BothAreText(a: string, b: string)
    requires a != "" && b != ""
    ensures NonEmpty([a]) == [a] && NonEmpty([a, b]) == [a, b] && NonEmpty([a]) != NonEmpty([a, b])
  {
    assert [a][1..] == [] && [a, b][1..] == [b];
    assert NonEmpty([b]) == [b];
    assert |NonEmpty([a, b])| == 2;
  }

  /**
    Rooms that can be created, and whose join line asks for another room: any word without '-' with
    --password behind it, "a--password" for instance.
   */
  lemma KeywordInName(word: string, room: string)
    requires room == word + PASSWORD && SpaceFree(word) && '-' !in word
    ensures ParseLine("/create_room " + room) == CreateRoom(room, false, "")
    ensures ParseLine("/join_room " + room) == JoinRoom(word, "")
  {
    KeywordsAreWords();
    WordsJoined(word, PASSWORD);
    CreatePublicLine(room);
    DispatchJoin(room);
    LeftmostBehind(word, PASSWORD, room);
    assert PASSWORD[0] == '-' && |PASSWORD| == 10;
    ParseJoinAt(room, |word|, word, "");
    TrimSpaceFree(word);
    assert Trim("") == "";
  }

  lemma WordsJoined(a: string, b: string)
    requires SpaceFree(a) && SpaceFree(b)
    ensures SpaceFree(a + b)
  {
  }

  lemma LeftmostBehind(word: string, pat: string, whole: string)
    requires pat != "" && pat[0] !in word && whole == word + pat
    ensures IndexOf(whole, pat) == |word| && whole[..|word|] == word && whole[|word| + |pat|..] == ""
  {
    assert whole[|word|..] == pat;
    forall j: nat | j < |word| ensures !OccursAt(whole, pat, j) {
      assert whole[j..][0] == word[j] && word[j] in word;
    }
    IndexOfIs(whole, pat, |word|);
  }

  lemma LoneMarker(marker: string, x: string)
    requires marker == "%1"
    ensures Lowest(Pieces(marker)) == 1 && Fill(Pieces(marker), 1, x) == x
  {
    MarkerThen(marker, 1, "");
    assert marker + "" == marker && [Marker(1, marker)] + Plains("") == [Marker(1, marker)];
    assert [Marker(1, marker)][1..] == [];
  }

  /** A room named %1 swallows the message: the command names the message as the room, and its text is "%2". */
  lemma MarkerAsName(room: string, message: string)
    requires room == "%1"
    ensures LowMarker(room) && RoomMsgCommand(room, message) == "/room_msg " + (message + " " + "%2") + "\n"
  {
    LoneMarker(room, message);
    SecondArg("/room_msg", "", "\n", room, message);
    TemplateWithMarker("/room_msg", message, "%2", "\n");
    assert "/room_msg" + " " == "/room_msg ";
  }

  lemma TemplateWithMarker(head: string, message: string, marker: string, tail: string)
    ensures Template(head, message, "", marker, tail) == head + " " + (message + " " + marker) + tail
  {
  }

  /** A private room without a password is asked for as a public one. */
  lemma PrivateWithoutPassword()
    ensures CreateCommand("r", "", true) == "/create_room r"
    ensures Parse(Wire(CreateCommand("r", "", true))) == CreateRoom("r", false, "")
  {
    CreateCommandText("r", "", true);
    assert "/create_room " + "r" == "/create_room r";
    CreatePublicLine("r");
    ChompLine("/create_room r");
  }

  /* ----- messages the client takes for something else ----- */

  lemma EndsWith(prefix: string, phrase: string)
    requires phrase != ""
    ensures Contains(prefix + phrase, phrase)
  {
    assert (prefix + phrase)[|prefix|..] == phrase;
    IndexOfIsLeftmost(prefix + phrase, phrase, |prefix|);
  }

  /** A room message line, up to the message. */
  function RoomLineHead(room: string, nickname: string): string {
    "ROOM_MSG:" + ("채팅방 [" + room + "] " + nickname + ": ")
  }

  lemma MessageEndsLine(room: string, nickname: string, message: string)
    ensures RoomMsgLineText(room, nickname, message) == RoomLineHead(room, nickname) + message
  {
  }

  /** The message "] 참여 완료" never shows up in the window of the room r, whoever sent it. */
  lemma ConfirmationPhraseLost(v: ClientView, room: string, nickname: string)
    requires WindowAt(v.windows, room) < |v.windows| && room == "r" && '실' !in nickname
    ensures OnLine(v, RoomMsgLineText(room, nickname, JOIN_DONE)) == v
  {
    var line := RoomMsgLineText(room, nickname, JOIN_DONE);
    MessageEndsLine(room, nickname, JOIN_DONE);
    EndsWith(RoomLineHead(room, nickname), JOIN_DONE);
    RefusalNeedsLetter(room, nickname);
    WithoutCharacter(line, JOIN_FAILED, '실');
    RoomLineShownIff(v, room, nickname, JOIN_DONE);
  }

  lemma RefusalNeedsLetter(room: string, nickname: string)
    requires '실' !in room && '실' !in nickname
    ensures '실' in JOIN_FAILED && '실' !in RoomLineHead(room, nickname) + JOIN_DONE
  {
    assert JOIN_FAILED[7] == '실';
    var a, b, c, d := "ROOM_MSG:", "채팅방 [", "] ", ": ";
    assert '실' !in a && '실' !in b && '실' !in c && '실' !in d && '실' !in JOIN_DONE;
    assert RoomLineHead(room, nickname) == a + (b + room + c + nickname + d);
  }

  /** The message "채팅방 참여 실패" is shown, and warns the user of a refused join besides. */
  lemma RefusalPhraseWarns(v: ClientView, room: string, nickname: string)
    requires WindowAt(v.windows, room) < |v.windows| && room == "r"
    ensures OnLine(v, RoomMsgLineText(room, nickname, JOIN_FAILED)) ==
            Shown(Warned(v), room, nickname + ": " + JOIN_FAILED)
  {
    MessageEndsLine(room, nickname, JOIN_FAILED);
    EndsWith(RoomLineHead(room, nickname), JOIN_FAILED);
    RoomLineShownIff(v, room, nickname, JOIN_FAILED);
  }

  /* ----- runs ----- */

  /** Every write succeeds until `since`; from then on those to this socket fail. */
  function Breaking(socket: Socket, since: nat): Env {
    RawEnv((t, q) => t >= since && q == socket, (t, keys) => Ascending(keys))
  }

  lemma OneKeyAhead(a: Id)
    ensures Ahead({a}, Begin) == {a} && Least({a}) == a && Ahead({a}, At(a)) == {}
  {
    LessIrreflexive(a);
  }

  lemma TwoKeysAhead(a: Id, b: Id)
    requires Less(a, b)
    ensures Ahead({a, b}, Begin) == {a, b} && Least({a, b}) == a
    ensures Ahead({a, b}, At(a)) == {b} && Least({b}) == b && Ahead({a, b}, At(b)) == {}
  {
    LessIrreflexive(a);
    LessIrreflexive(b);
    LessAsymmetric(a, b);
    var k := Least({a, b});
    assert k == a || (k == b && Less(b, a));
  }

  /** A loop over one client. */
  lemma LoopOverOne(env: Env, s: State, text: string, a: Id, p: Socket)
    requires s.clients == map[a := Some(p)] && !env.fails(s.clock, p)
    ensures SendToAll(env, s, text, Begin) == Written(s, p, text)
  {
    OneKeyAhead(a);
    assert s.clients.Keys == {a};
    LoopStep(env, s, text, Begin);
    assert Written(s, p, text).clients.Keys == {a};
  }

  /** A loop over two clients. */
  lemma LoopOverTwo(env: Env, s: State, text: string, a: Id, b: Id, p: Socket, q: Socket)
    requires Less(a, b) && s.clients == map[a := Some(p), b := Some(q)] && a != b
    requires !env.fails(s.clock, p) && !env.fails(s.clock + 1, q)
    ensures SendToAll(env, s, text, Begin) == Written(Written(s, p, text), q, text)
  {
    TwoKeysAhead(a, b);
    assert s.clients.Keys == {a, b};
    LoopStep(env, s, text, Begin);
    var t := Written(s, p, text);
    assert t.clients.Keys == {a, b};
    LoopStep(env, t, text, At(a));
    assert Written(t, q, text).clients.Keys == {a, b};
  }

  /** The first connection of a run. */
  lemma FirstConnection(env: Env, a: Id)
    requires !env.fails(1, 0)
    ensures var s := Run(env, [Accept(a)]);
            && s.clients == map[a := Some(0)] && s.users.Keys == {a} && s.rooms == map[]
            && s.clock == 2 && s.nextSocket == 1 && s.up
  {
    var r := Registered(INITIAL, a);
    assert r.clients == map[a := Some(0)];
    LoopOverOne(env, Ticked(r), UserListText(r.users, env.order(0, r.users.Keys)), a, 0);
    assert [Accept(a)][..0] == [];
    assert Run(env, [Accept(a)]) == Accepted(env, INITIAL, a);
  }

  lemma RunSnoc(env: Env, events: seq<Event>, e: Event)
    ensures Run(env, events + [e]) == Step(env, Run(env, events), e)
  {
    assert (events + [e])[..|events + [e]| - 1] == events;
  }

  lemma SecondConnection(env: Env, a: Id, b: Id)
    requires Less(a, b) && a != b && forall t, q :: t < 5 ==> !env.fails(t, q)
    ensures var s := Run(env, [Accept(a)] + [Accept(b)]);
            && s.clients == map[a := Some(0), b := Some(1)] && s.clock == 5 && s.up
  {
    FirstConnection(env, a);
    var s := Run(env, [Accept(a)]);
    var r := Registered(s, b);
    RunSnoc(env, [Accept(a)], Accept(b));
    assert r.clients == map[a := Some(0), b := Some(1)];
    LoopOverTwo(env, Ticked(r), UserListText(r.users, env.order(2, r.users.Keys)), a, b, 0, 1);
  }

  lemma UsersLine(env: Env, s: State, id: Id)
    requires s.up
    ensures Step(env, s, Data(id, "/users\n")) == Broadcast(env, s)
  {
    assert Chomp("/users\n") == "/users";
    assert BranchOf("/users") == UsersBranch;
  }

  /** Two ids of unequal length: the longer one comes first, because '1' comes before '9'. */
  lemma LongerComesFirst(a: Id, b: Id)
    requires a == "10.0.0.10:5" && b == "10.0.0.9:5"
    ensures Less(a, b) && a != b
  {
    LessByFirstDifference("10.0.0.", '1', "0:5", '9', ":5");
    assert a == "10.0.0." + ['1'] + "0:5" && b == "10.0.0." + ['9'] + ":5";
    assert a[7] == '1' && b[7] == '9';
  }

  /**
    A run in which a survivor is left with a stale list: two clients connect, the socket of the first one
    breaks, the other one asks for the users. The last list it gets still names the first.
   */
  lemma StaleListInRun(a: Id, b: Id)
    requires a == "10.0.0.10:5" && b == "10.0.0.9:5"
    ensures var env := Breaking(0, 5);
            var before := [Accept(a)] + [Accept(b)];
            var s, r := Run(env, before), Run(env, before + [Data(b, "/users\n")]);
            && Live(s, b) && Live(r, b) && a in s.users && a !in r.users
            && !SeesCurrentUsers(r, SocketOf(s, b))
  {
    LongerComesFirst(a, b);
    StaleFor(a, b);
  }

  lemma StaleFor(a: Id, b: Id)
    requires Less(a, b) && a != b
    ensures var env := Breaking(0, 5);
            var before := [Accept(a)] + [Accept(b)];
            var s, r := Run(env, before), Run(env, before + [Data(b, "/users\n")]);
            && Live(s, b) && Live(r, b) && a in s.users && a !in r.users
            && !SeesCurrentUsers(r, SocketOf(s, b))
  {
    var env := Breaking(0, 5);
    var before := [Accept(a)] + [Accept(b)];
    var s := Run(env, before);
    SecondConnection(env, a, b);
    RunInvariant(env, before);
    RunSnoc(env, before, Data(b, "/users\n"));
    UsersLine(env, s, b);
    StaleAfterBreak(env, s, a, b);
  }

  lemma StaleAfterBreak(env: Env, s: State, a: Id, b: Id)
    requires Less(a, b) && a != b && Connected(s) && s.clients == map[a := Some(0), b := Some(1)]
    requires forall t, q :: t >= s.clock ==> (env.fails(t, q) <==> q == 0)
    ensures var r := Broadcast(env, s);
            && Live(s, b) && Live(r, b) && a in s.users && a !in r.users
            && !SeesCurrentUsers(r, SocketOf(s, b))
  {
    assert HasSocket(s.clients, a) && HasSocket(s.clients, b);
    assert Failing(s, {0}) == {a};
    assert Survives(s, {0}, b);
    var lines := BroadcastTheorem(env, s, {0});
    UpToDateViewIff(env, s, {0}, b);
  }

  /** A run in which nothing fails: two clients connect, one is lost, and the other is told. */
  lemma LossInRun(env: Env, a: Id, b: Id)
    requires Less(a, b) && a != b && env == Never()
    ensures var before := [Accept(a)] + [Accept(b)];
            var s, r := Run(env, before), Run(env, before + [ReadError(a)]);
            && a in s.users && a !in r.users && a !in r.clients && Live(r, b)
            && SeesCurrentUsers(r, SocketOf(r, b))
  {
    var before := [Accept(a)] + [Accept(b)];
    var s := Run(env, before);
    SecondConnection(env, a, b);
    RunInvariant(env, before);
    RunSnoc(env, before, ReadError(a));
    LossHeard(env, s, a, b);
  }

  lemma LossHeard(env: Env, s: State, a: Id, b: Id)
    requires a != b && Connected(s) && s.up && s.clients == map[a := Some(0), b := Some(1)]
    requires forall t, q :: !env.fails(t, q)
    ensures var r := Step(env, s, ReadError(a));
            && a in s.users && a !in r.users && a !in r.clients && Live(r, b)
            && SeesCurrentUsers(r, SocketOf(r, b))
  {
    assert HasSocket(s.clients, a) && HasSocket(s.clients, b);
    var lines := ReadErrorStep(env, s, a, {});
    StaysLive(s, Step(env, s, ReadError(a)), a, b, lines);
    DisconnectViewIff(env, s, {}, a, b);
    assert Failing(s, {}) == {};
  }

  lemma StaysLive(s: State, r: State, a: Id, b: Id, lines: seq<string>)
    requires a != b && Live(s, b) && EverybodyTold(Without(s, a), r, {}, lines)
    ensures Live(r, b) && SocketOf(r, b) == SocketOf(s, b)
  {
    assert Failing(Without(s, a), {}) == {};
  }

  const CREATE_LINE := Data("a", "/create_room " + "r" + "\n")
  const JOIN_LINE := Data("a", "/join_room " + "r" + "\n")

  lemma RoomInRun(env: Env)
    requires forall t, q :: t < 4 ==> !env.fails(t, q)
    ensures var s := Run(env, [Accept("a")] + [CREATE_LINE]);
            && s.up && s.clients == map["a" := Some(0)] && s.clock == 3
            && s.rooms == map["r" := ChatRoomInfo("r", {}, false, "")]
  {
    FirstConnection(env, "a");
    var s := Run(env, [Accept("a")]);
    RunSnoc(env, [Accept("a")], CREATE_LINE);
    CreateLineRead("r");
    StepParsed(env, s, "a", CREATE_LINE.data, CreateRoom("r", false, ""));
    AnswerTaken(env, s, Created(s.rooms, "r", false, ""), "a", CreateReply("r", true));
  }

  /** The member of a room r, after three events of a run. */
  lemma MemberInRun(env: Env)
    requires forall t, q :: t < 4 ==> !env.fails(t, q)
    ensures var s := Run(env, [Accept("a")] + [CREATE_LINE] + [JOIN_LINE]);
            s.up && IsMember(s.rooms, "r", "a") && s.clock == 4 && Live(s, "a") && SocketOf(s, "a") == 0
  {
    RoomInRun(env);
    var s := Run(env, [Accept("a")] + [CREATE_LINE]);
    RunSnoc(env, [Accept("a")] + [CREATE_LINE], JOIN_LINE);
    JoinLineRead("r");
    StepParsed(env, s, "a", JOIN_LINE.data, JoinRoom("r", ""));
    FirstMember(s.rooms, "r", "a");
    AnswerTaken(env, s, AfterJoin(s.rooms, "r", "a", ""), "a", JoinReply("r", true));
  }

  lemma FirstMember(rooms: Rooms, room: string, id: Id)
    requires rooms == map[room := ChatRoomInfo(room, {}, false, "")]
    ensures CanJoin(rooms, room, id, "") && IsMember(AfterJoin(rooms, room, id, ""), room, id)
  {
  }

  lemma AnswerTaken(env: Env, s: State, rooms: Rooms, id: Id, text: string)
    requires s.up && CanWrite(env, s, id)
    ensures var r := Reply(env, s.(rooms := rooms), id, text);
            r.up && r.clients == s.clients && r.users == s.users && r.rooms == rooms && r.clock == s.clock + 1
  {
  }

  lemma CreateLineRead(room: string)
    requires SpaceFree(room)
    ensures Parse("/create_room " + room + "\n") == CreateRoom(room, false, "")
  {
    CreatePublicLine(room);
    ChompLine("/create_room " + room);
  }

  lemma JoinLineRead(room: string)
    requires SpaceFree(room) && '-' !in room
    ensures Parse("/join_room " + room + "\n") == JoinRoom(room, "")
  {
    assert PASSWORD[0] == '-';
    WithoutCharacter(room, PASSWORD, '-');
    WordIsSolid(room);
    JoinLine(room);
    ChompLine("/join_room " + room);
  }

  /** What the room message of that member looks like. */
  function MessageLine(room: string, message: string): Event {
    Data("a", RoomMsgCommandLine(room, message) + "\n")
  }

  /** A run that a room message ends: its only member's socket has broken since it joined. */
  lemma RoomMessageEndsRun(message: string)
    requires '\n' !in message
    ensures var env := Breaking(0, 4);
            var before := [Accept("a")] + [CREATE_LINE] + [JOIN_LINE];
            Run(env, before).up && !Run(env, before + [MessageLine("r", message)]).up
  {
    var env := Breaking(0, 4);
    var before := [Accept("a")] + [CREATE_LINE] + [JOIN_LINE];
    MemberInRun(env);
    RunInvariant(env, before);
    RunSnoc(env, before, MessageLine("r", message));
    RoomCommandHandled(env, Run(env, before), "a", "r", message);
    RefusedByMember(env, Run(env, before), "r", "a", message);
  }

  lemma RefusedByMember(env: Env, s: State, room: string, id: Id, message: string)
    requires Connected(s) && s.up && IsMember(s.rooms, room, id) && Live(s, id)
    requires forall t :: t > s.clock ==> env.fails(t, SocketOf(s, id))
    ensures !OnRoomMsg(env, s, id, room, message).up
  {
    var order := env.order(s.clock, s.rooms[room].members);
    assert Enumerates(order, s.rooms[room].members);
    assert id in order;
    var i :| 0 <= i < |order| && order[i] == id;
    assert env.fails(Ticked(s).clock + Writes(Ticked(s), order[..i]), SocketOf(s, id));
    assert !TakesWrite(env, Ticked(s), order, i);
    RoomMsgSurvivesIff(env, s, id, room, message);
  }

  /** A run that ends with a line without a text. */
  lemma TextlessLineEndsRun(env: Env)
    ensures !Run(env, [Accept("a")] + [Data("a", "/room_msg x\n")]).up
  {
    RunSnoc(env, [Accept("a")], Data("a", "/room_msg x\n"));
    TextlessLineEndsProcess(env, Run(env, [Accept("a")]), "a");
  }

  /** Every write succeeds. */
  function Never(): (env: Env)
    ensures forall t, q :: !env.fails(t, q)
  {
    RawEnv((t, q) => false, (t, keys) => Ascending(keys))
  }

  lemma ForgeryAfter(env: Env, events: seq<Event>, id: Id, room: string, nickname: string, line: string)
    requires var s := Run(env, events); Connected(s) && s.up && Live(s, id)
    requires forall t, q :: !env.fails(t, q)
    requires BranchOf(line) == ChatBranch
    ensures var naming := Data(id, "/nickname " + ForgedName(room, nickname) + "\n");
            var s, r := Run(env, events), Run(env, events + [naming] + [Data(id, line + "\n")]);
            var log := Received(r.out, SocketOf(s, id));
            log != [] && log[|log| - 1] == RoomText(room, nickname, line) && r.rooms == s.rooms
  {
    var naming := Data(id, "/nickname " + ForgedName(room, nickname) + "\n");
    RunSnoc(env, events, naming);
    RunSnoc(env, events + [naming], Data(id, line + "\n"));
    ForgedRoomMessage(env, Run(env, events), id, room, nickname, line, id);
  }

  /**
    Runs of one client and two lines, without any room, whose log ends with a message to a room. The line
    is any that is no command, "hi" for instance.
   */
  lemma ForgeryInRun(env: Env, room: string, nickname: string, line: string)
    requires BranchOf(line) == ChatBranch && env == Never()
    ensures var naming := Data("a", "/nickname " + ForgedName(room, nickname) + "\n");
            var s := Run(env, [Accept("a")] + [naming] + [Data("a", line + "\n")]);
            var log := Received(s.out, 0);
            s.rooms == map[] && log != [] && log[|log| - 1] == RoomText(room, nickname, line)
  {
    FirstConnection(env, "a");
    RunInvariant(env, [Accept("a")]);
    ForgeryAfter(env, [Accept("a")], "a", room, nickname, line);
  }

  /** "hi" is such a line. */
  lemma PlainLineIsChat()
    ensures BranchOf("hi") == ChatBranch
  {
    assert "hi"[0] == 'h';
  }
}
