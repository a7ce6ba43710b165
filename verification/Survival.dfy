/**
  When the server process survives an event. Writes without an error code throw, and so does a room
  message without a text; nothing catches either.
 */
module Survival {
  import opened Text
  import opened Keys
  import opened ActiveUsers
  import opened ChatRooms
  import opened Commands
  import opened CommandLines
  import opened Machine
  import opened Cascade
  import opened Runs

  /* ----- the delivery loop ----- */

  /** How many of the members have a socket: the number of writes the loop makes for them. */
  function Writes(s: State, members: seq<Id>): nat {
    if members == [] then 0 else (if Live(s, members[0]) then 1 else 0) + Writes(s, members[1..])
  }

  /** If the i-th member is live, its socket takes the write at the moment the loop gets to it. */
  predicate TakesWrite(env: Env, s: State, members: seq<Id>, i: nat)
    requires i < |members|
  {
    Live(s, members[i]) ==> !env.fails(s.clock + Writes(s, members[..i]), SocketOf(s, members[i]))
  }

  ghost predicate AllTakeWrites(env: Env, s: State, members: seq<Id>) {
    forall i :: 0 <= i < |members| ==> TakesWrite(env, s, members, i)
  }

  lemma {:induction false} SameWrites(s: State, t: State, members: seq<Id>)
    requires forall k :: Live(t, k) <==> Live(s, k)
    ensures Writes(t, members) == Writes(s, members)
  {
    if members != [] {
      SameWrites(s, t, members[1..]);
    }
  }

  /** The state after the first member has been served: the same clients, one write later if it is live. */
  ghost predicate FirstServed(s: State, s1: State, members: seq<Id>) {
    && members != []
    && (forall k :: Live(s1, k) <==> Live(s, k))
    && (forall k :: Live(s, k) ==> SocketOf(s1, k) == SocketOf(s, k))
    && s1.clock == s.clock + if Live(s, members[0]) then 1 else 0
  }

  lemma OneWriteLater(env: Env, s: State, s1: State, members: seq<Id>, i: nat)
    requires FirstServed(s, s1, members) && i + 1 < |members|
    ensures TakesWrite(env, s, members, i + 1) <==> TakesWrite(env, s1, members[1..], i)
  {
    assert members[..i + 1][1..] == members[1..][..i];
    SameWrites(s, s1, members[1..][..i]);
    assert members[1..][i] == members[i + 1];
  }

  /** The first member's write, and then the others'. */
  lemma TakeWritesStep(env: Env, s: State, s1: State, members: seq<Id>)
    requires FirstServed(s, s1, members)
    ensures AllTakeWrites(env, s, members) <==>
            (Live(s, members[0]) ==> CanWrite(env, s, members[0])) && AllTakeWrites(env, s1, members[1..])
  {
    assert Writes(s, members[..0]) == 0;
    assert TakesWrite(env, s, members, 0) <==> (Live(s, members[0]) ==> CanWrite(env, s, members[0]));
    forall i | 0 <= i < |members[1..]|
      ensures TakesWrite(env, s, members, i + 1) <==> TakesWrite(env, s1, members[1..], i)
    {
      OneWriteLater(env, s, s1, members, i);
    }
    if AllTakeWrites(env, s1, members[1..]) {
      forall i | 0 < i < |members| ensures TakesWrite(env, s, members, i) {
        assert TakesWrite(env, s1, members[1..], i - 1);
      }
    }
  }

  lemma {:induction false} FanOutSurvivesIff(env: Env, s: State, members: seq<Id>, text: string)
    requires Connected(s) && s.up
    ensures SendToMembers(env, s, members, text).up <==> AllTakeWrites(env, s, members)
    decreases |members|
  {
    if members != [] {
      var s1 := Reply(env, s, members[0], text);
      ReplyKeeps(env, s, members[0], text);
      TakeWritesStep(env, s, s1, members);
      if s1.up {
        FanOutSurvivesIff(env, s1, members[1..], text);
      }
    }
  }

  /** A member's room message leaves the process up exactly when every live member's socket takes its write. */
  lemma RoomMsgSurvivesIff(env: Env, s: State, id: Id, room: string, message: string)
    requires Connected(s) && s.up && IsMember(s.rooms, room, id)
    ensures OnRoomMsg(env, s, id, room, message).up <==>
            AllTakeWrites(env, Ticked(s), env.order(s.clock, s.rooms[room].members))
  {
    TickKeeps(s, {});
    FanOutSurvivesIff(env, Ticked(s), env.order(s.clock, s.rooms[room].members),
                      RoomText(room, NicknameOf(s.users, id), message));
  }

  /** If no live member's socket fails from now on, that is so. */
  lemma HealthyMembersTakeWrites(env: Env, s: State, members: seq<Id>)
    requires forall m, t :: m in members && Live(s, m) && t >= s.clock ==> !env.fails(t, SocketOf(s, m))
    ensures AllTakeWrites(env, s, members)
  {
    forall i | 0 <= i < |members| ensures TakesWrite(env, s, members, i) {
      assert members[i] in members;
    }
  }

  /* ----- one event ----- */

  /** A reply, if there is a socket to write it to, is written. */
  predicate Answerable(env: Env, s: State, id: Id) {
    Live(s, id) ==> CanWrite(env, s, id)
  }

  /** What a command needs for the process to survive it. */
  ghost predicate CommandWithstood(env: Env, s: State, id: Id, command: Command) {
    match command
    case RoomMsgWithoutText => false
    case CreateRoom(_, _, _) => Answerable(env, s, id)
    case JoinRoom(_, _) => Answerable(env, s, id)
    case LeaveRoom(_) => Answerable(env, s, id)
    case RoomUsers(room) => room in s.rooms ==> Answerable(env, Ticked(s), id)
    case RoomMsg(room, _) =>
      IsMember(s.rooms, room, id) ==> AllTakeWrites(env, Ticked(s), env.order(s.clock, s.rooms[room].members))
    case _ => true
  }

  ghost predicate Withstood(env: Env, s: State, e: Event) {
    e.Data? ==> CommandWithstood(env, s, e.id, Parse(e.data))
  }

  lemma CommandSurvivesIff(env: Env, s: State, id: Id, command: Command)
    requires Connected(s) && s.up
    ensures Handled(env, s, id, command).up <==> CommandWithstood(env, s, id, command)
  {
    match command
    case CreateRoom(room, isPrivate, password) =>
      ReplyFields(env, s.(rooms := Created(s.rooms, room, isPrivate, password)), id, CreateReply(room, room !in s.rooms));
    case JoinRoom(room, password) =>
      ReplyFields(env, s.(rooms := AfterJoin(s.rooms, room, id, password)), id,
                  JoinReply(room, CanJoin(s.rooms, room, id, password)));
    case LeaveRoom(room) =>
      ReplyFields(env, s.(rooms := AfterLeave(s.rooms, room, id)), id, LeaveReply(room, IsMember(s.rooms, room, id)));
    case RoomUsers(room) =>
      if room in s.rooms {
        ReplyFields(env, Ticked(s), id, RoomUsersText(s.users, env.order(s.clock, s.rooms[room].members)));
      }
    case RoomMsg(room, message) =>
      if IsMember(s.rooms, room, id) {
        RoomMsgSurvivesIff(env, s, id, room, message);
      }
    case ListRooms => ListRoomsSurvives(env, s, id);
    case _ =>
  }

  lemma ListRoomsSurvives(env: Env, s: State, id: Id)
    ensures OnListRooms(env, s, id).up == s.up
  {
  }

  /**
    One event, in any environment. Connections, read errors, nicknames, user and room listings and chat
    lines never bring the process down; a create, join or leave line does exactly if the answer cannot be
    written to a socket that is there; /room_users likewise if the room exists; a room message if its
    sender is a member and some live member's socket refuses its write, or if it has no text.
   */
  lemma StepSurvivesIff(env: Env, s: State, e: Event)
    requires Connected(s) && s.up
    ensures Step(env, s, e).up <==> Withstood(env, s, e)
  {
    if e.Data? {
      CommandSurvivesIff(env, s, e.id, Parse(e.data));
    }
  }

  /** The i-th event of the run was withstood in the state it met. */
  ghost predicate WithstoodAt(env: Env, events: seq<Event>, i: nat) {
    i < |events| && Withstood(env, Run(env, events[..i]), events[i])
  }

  lemma LastEventSurvivesIff(env: Env, events: seq<Event>)
    requires events != []
    ensures Run(env, events).up <==> Run(env, events[..|events| - 1]).up && WithstoodAt(env, events, |events| - 1)
  {
    var s := Run(env, events[..|events| - 1]);
    RunInvariant(env, events[..|events| - 1]);
    if s.up {
      StepSurvivesIff(env, s, events[|events| - 1]);
    }
  }

  lemma UpWithstood(env: Env, events: seq<Event>, i: nat)
    requires Run(env, events).up && i < |events|
    ensures WithstoodAt(env, events, i)
  {
    RunGrows(env, events, i + 1);
    LastEventSurvivesIff(env, events[..i + 1]);
    assert events[..i + 1][..i] == events[..i];
  }

  /** The event that brought the process down. */
  lemma {:induction false} FatalEvent(env: Env, events: seq<Event>) returns (i: nat)
    requires !Run(env, events).up
    ensures i < |events| && Run(env, events[..i]).up && !WithstoodAt(env, events, i)
  {
    var n := |events| - 1;
    LastEventSurvivesIff(env, events);
    if Run(env, events[..n]).up {
      i := n;
    } else {
      i := FatalEvent(env, events[..n]);
      assert events[..n][..i] == events[..i];
    }
  }

  /** A run is still up at its end exactly when it withstood every one of its events. */
  lemma RunSurvivesIff(env: Env, events: seq<Event>)
    ensures Run(env, events).up <==> forall i :: 0 <= i < |events| ==> WithstoodAt(env, events, i)
  {
    if Run(env, events).up {
      forall i | 0 <= i < |events| ensures WithstoodAt(env, events, i) {
        UpWithstood(env, events, i);
      }
    } else {
      var i := FatalEvent(env, events);
    }
  }

  /* ----- a room message without a text ----- */

  /** The argument of /room_msg is blank, or one word with nothing or a newline directly behind it. */
  ghost predicate Textless(argument: string) {
    All(IsSpace, argument) || exists pad, room, tail :: LoneWord(argument, pad, room, tail)
  }

  predicate LoneWord(argument: string, pad: string, room: string, tail: string) {
    && argument == pad + room + tail && (forall c :: c in pad ==> IsSpace(c))
    && room != "" && SpaceFree(room) && (tail == "" || tail[0] == '\n')
  }

  lemma ExtractedParts(s: string) returns (pad: string)
    requires Extract(s).Word?
    ensures All(IsSpace, pad) && s == pad + Extract(s).word + Extract(s).rest
  {
    pad := PadOf(IsSpace, s);
    var t := TrimLeft(IsSpace, s);
    RegroupText(pad, t, WordLength(t));
  }

  lemma RegroupText(pad: string, t: string, n: nat)
    requires n <= |t|
    ensures pad + t == pad + t[..n] + t[n..]
  {
  }

  lemma MessageIsEmptyIff(tail: string)
    ensures UpToNewline(tail) == "" <==> tail == "" || tail[0] == '\n'
  {
    var i := IndexOf(tail, "\n");
    if tail != "" {
      IndexOfIsLeftmost(tail, "\n", 0);
      assert OccursAt(tail, "\n", 0) <==> tail[0] == '\n';
      if i == 0 {
        assert tail[0..] == tail;
      }
    }
  }

  /** Where /room_msg throws, for every argument. */
  lemma TextlessArgumentIff(argument: string)
    ensures ParseRoomMsgArguments(argument) == RoomMsgWithoutText <==> Textless(argument)
  {
    if All(IsSpace, argument) {
      ExtractBlank(argument);
    } else if Extract(argument).Word? {
      var pad := ExtractedParts(argument);
      var room, tail := Extract(argument).word, Extract(argument).rest;
      MessageIsEmptyIff(tail);
      if tail == "" || tail[0] == '\n' {
        assert LoneWord(argument, pad, room, tail);
      }
      forall pad, room, tail | LoneWord(argument, pad, room, tail)
        ensures Extract(argument) == Word(room, tail)
      {
        ExtractWord(pad, room, tail);
      }
    } else {
      var pad := PadOf(IsSpace, argument);
      assert false;
    }
  }

  /** A line ends the process by itself exactly if it starts with "/room_msg " and has no text behind the room. */
  lemma TextlessLineIff(line: string)
    ensures ParseLine(line) == RoomMsgWithoutText <==> "/room_msg " <= line && Textless(line[10..])
  {
    if "/room_msg " <= line {
      DispatchMsg(line[10..]);
      assert line == "/room_msg " + line[10..];
      TextlessAfterSpace(line[10..]);
      TextlessArgumentIff(line[10..]);
    }
  }

  lemma TextlessAfterSpace(x: string)
    ensures ParseRoomMsgArguments(" " + x) == ParseRoomMsgArguments(x)
  {
    TrimLeftPadding(IsSpace, " ", x);
  }

  /** A room without a text, whatever the room. */
  lemma LoneRoomLine(room: string)
    requires room != "" && SpaceFree(room)
    ensures ParseLine("/room_msg " + room) == RoomMsgWithoutText
  {
    assert LoneWord(room, "", room, "");
    TextlessArgumentIff(room);
    TextlessAfterSpace(room);
    DispatchMsg(room);
  }

  /** For instance "/room_msg x", sent by anybody, in any state and environment. */
  lemma TextlessLineEndsProcess(env: Env, s: State, id: Id)
    ensures !Step(env, s, Data(id, "/room_msg x\n")).up
  {
    LoneRoomLine("x");
    EndsProcess(env, s, id, "/room_msg " + "x");
    assert "/room_msg " + "x" + "\n" == "/room_msg x\n";
  }

  lemma EndsProcess(env: Env, s: State, id: Id, line: string)
    requires ParseLine(line) == RoomMsgWithoutText
    ensures !Step(env, s, Data(id, line + "\n")).up
  {
    assert Chomp(line + "\n") == line;
  }
}
