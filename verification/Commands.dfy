/**
  How the server reads a command line (handleClientData in src/server/server.cpp). Two tokenisers
  are at work: `iss >>` for /create_room and /room_msg, and substr + find + trim for the others.
 */
module Commands {
  import opened Text

  datatype Command =
    | Blank
    | ListUsers
    | Nickname(nickname: string)
    | CreateRoom(room: string, isPrivate: bool, password: string)
    | ListRooms
    | RoomMsg(room: string, message: string)
    | RoomMsgWithoutText // message.substr(1) throws std::out_of_range
    | RoomUsers(room: string)
    | JoinRoom(room: string, password: string)
    | LeaveRoom(room: string)
    | Chat(text: string)

  const PRIVATE := "--private"
  const PASSWORD := "--password"

  /** handleClientData drops one trailing newline. */
  function Chomp(data: string): string {
    if data != "" && data[|data| - 1] == '\n' then data[..|data| - 1] else data
  }

  function Parse(data: string): Command {
    ParseLine(Chomp(data))
  }

  /** The branch of handleClientData a line falls into. */
  datatype Branch =
    | NoCommand | UsersBranch | NicknameBranch | CreateBranch | ListBranch | MsgBranch
    | RoomUsersBranch | JoinBranch | LeaveBranch | ChatBranch

  function BranchOf(line: string): (b: Branch)
    ensures |line| >= ArgumentStart(b)
  {
    if line == "" then NoCommand
    else if line == "/users" then UsersBranch
    else if "/nickname " <= line then NicknameBranch
    else if "/create_room " <= line then CreateBranch
    else if "/list_rooms" <= line then ListBranch
    else if "/room_msg " <= line then MsgBranch
    else if "/room_users " <= line then RoomUsersBranch
    else if "/join_room " <= line then JoinBranch
    else if "/leave_room " <= line then LeaveBranch
    else ChatBranch
  }

  /** Where the branch cuts its argument off the line with substr; 0 if it does not. */
  function ArgumentStart(b: Branch): nat {
    match b
    case NicknameBranch => 10
    case RoomUsersBranch => 11
    case JoinBranch => 11
    case LeaveBranch => 11
    case _ => 0
  }

  function ParseLine(line: string): Command {
    ParseIn(BranchOf(line), line)
  }

  function ParseIn(b: Branch, line: string): Command
    requires |line| >= ArgumentStart(b)
  {
    match b
    case NoCommand => Blank
    case UsersBranch => ListUsers
    case NicknameBranch => Nickname(line[10..])
    case CreateBranch => ParseCreate(Tokens(line))
    case ListBranch => ListRooms
    case MsgBranch => ParseRoomMsg(line)
    case RoomUsersBranch => RoomUsers(Trim(line[11..]))
    case JoinBranch => ParseJoin(line[11..])
    case LeaveBranch => LeaveRoom(Trim(line[11..]))
    case ChatBranch => Chat(line)
  }

  /* ----- /create_room ----- */

  function ParseCreate(tokens: seq<string>): (cmd: Command)
    ensures cmd.CreateRoom?
  {
    var name := if |tokens| > 1 then tokens[1] else "";
    var (isPrivate, password) := ReadOptions(OptionTokens(tokens), false, "");
    CreateRoom(name, isPrivate, password)
  }

  /** The tokens after the command word and the room name. */
  function OptionTokens(tokens: seq<string>): seq<string> {
    if |tokens| > 2 then tokens[2..] else []
  }

  /** The option loop, one token after the other. */
  function ReadOptions(tokens: seq<string>, isPrivate: bool, password: string): (bool, string)
    decreases |tokens|
  {
    if tokens == [] then (isPrivate, password)
    else if tokens[0] == PRIVATE then ReadOptions(tokens[1..], true, password)
    else if tokens[0] == PASSWORD then
      if |tokens| == 1 then (isPrivate, password) else ReadOptions(tokens[2..], isPrivate, tokens[1])
    else ReadOptions(tokens[1..], isPrivate, password)
  }

  /** How many consecutive --password tokens stand directly before position i. */
  function PasswordRun(tokens: seq<string>, i: nat): nat
    requires i <= |tokens|
  {
    if i > 0 && tokens[i - 1] == PASSWORD then 1 + PasswordRun(tokens, i - 1) else 0
  }

  /** A token is read as a flag, and not as the argument of a --password, when that run is even. */
  predicate FlagPosition(tokens: seq<string>, i: nat)
    requires i <= |tokens|
  {
    PasswordRun(tokens, i) % 2 == 0
  }

  predicate PrivateFlagAt(tokens: seq<string>, i: nat) {
    i < |tokens| && FlagPosition(tokens, i) && tokens[i] == PRIVATE
  }

  predicate PasswordArgumentAt(tokens: seq<string>, i: nat) {
    0 < i < |tokens| && FlagPosition(tokens, i - 1) && tokens[i - 1] == PASSWORD
  }

  /** The token at k is the last password argument before position end. */
  ghost predicate LastAt(tokens: seq<string>, end: nat, k: nat) {
    k < end && PasswordArgumentAt(tokens, k) && forall j: nat :: k < j < end ==> !PasswordArgumentAt(tokens, j)
  }

  /** pw is the last password argument before position end, or empty if there is none. */
  ghost predicate LastArgument(tokens: seq<string>, end: nat, pw: string) {
    || (pw == "" && forall i: nat :: i < end ==> !PasswordArgumentAt(tokens, i))
    || exists k: nat :: k < end && LastAt(tokens, end, k) && pw == tokens[k]
  }

  ghost predicate PrivateSoFar(tokens: seq<string>, i: nat, isPrivate: bool) {
    isPrivate <==> exists j: nat :: j < i && PrivateFlagAt(tokens, j)
  }

  /** isPrivate and password are what the grammar says about the tokens before position i. */
  ghost predicate ReadSoFar(tokens: seq<string>, i: nat, isPrivate: bool, password: string) {
    PrivateSoFar(tokens, i, isPrivate) && LastArgument(tokens, i, password)
  }

  lemma PrivateStep(tokens: seq<string>, i: nat, isPrivate: bool)
    requires PrivateSoFar(tokens, i, isPrivate)
    ensures PrivateSoFar(tokens, i + 1, isPrivate || PrivateFlagAt(tokens, i))
  {
  }

  lemma ArgumentStep(tokens: seq<string>, i: nat, password: string)
    requires i < |tokens| && LastArgument(tokens, i, password)
    ensures LastArgument(tokens, i + 1, if PasswordArgumentAt(tokens, i) then tokens[i] else password)
  {
    if !PasswordArgumentAt(tokens, i) {
      if k: nat :| k < i && LastAt(tokens, i, k) && password == tokens[k] {
        assert LastAt(tokens, i + 1, k);
      }
    } else {
      assert LastAt(tokens, i + 1, i);
    }
  }

  lemma ReadStep(tokens: seq<string>, i: nat, isPrivate: bool, password: string)
    requires i < |tokens| && ReadSoFar(tokens, i, isPrivate, password)
    ensures ReadSoFar(tokens, i + 1, isPrivate || PrivateFlagAt(tokens, i),
                      if PasswordArgumentAt(tokens, i) then tokens[i] else password)
  {
    PrivateStep(tokens, i, isPrivate);
    ArgumentStep(tokens, i, password);
  }

  lemma KeywordsDiffer()
    ensures PRIVATE != PASSWORD
  {
    assert PASSWORD[3] == 'a' && PRIVATE[3] == 'r';
  }

  /** A --password in a flag position makes the next token its argument, and only such a token is one. */
  lemma RunStep(tokens: seq<string>, i: nat)
    requires i < |tokens|
    ensures FlagPosition(tokens, i + 1) <==> tokens[i] != PASSWORD || !FlagPosition(tokens, i)
    ensures PasswordArgumentAt(tokens, i) <==> !FlagPosition(tokens, i)
  {
  }

  /** A token in a flag position that is no --password. */
  lemma ReadFlag(tokens: seq<string>, i: nat, isPrivate: bool, password: string)
    requires i < |tokens| && FlagPosition(tokens, i) && tokens[i] != PASSWORD
    requires ReadSoFar(tokens, i, isPrivate, password)
    ensures FlagPosition(tokens, i + 1)
    ensures ReadSoFar(tokens, i + 1, isPrivate || tokens[i] == PRIVATE, password)
  {
    RunStep(tokens, i);
    ReadStep(tokens, i, isPrivate, password);
  }

  /** A --password in a flag position without an argument. */
  lemma ReadLastPassword(tokens: seq<string>, i: nat, isPrivate: bool, password: string)
    requires i + 1 == |tokens| && FlagPosition(tokens, i) && tokens[i] == PASSWORD
    requires ReadSoFar(tokens, i, isPrivate, password)
    ensures ReadSoFar(tokens, i + 1, isPrivate, password)
  {
    KeywordsDiffer();
    RunStep(tokens, i);
    ReadStep(tokens, i, isPrivate, password);
  }

  /** A --password in a flag position, with the next token as its argument. */
  lemma ReadPassword(tokens: seq<string>, i: nat, isPrivate: bool, password: string)
    requires i + 1 < |tokens| && FlagPosition(tokens, i) && tokens[i] == PASSWORD
    requires ReadSoFar(tokens, i, isPrivate, password)
    ensures FlagPosition(tokens, i + 2)
    ensures ReadSoFar(tokens, i + 2, isPrivate, tokens[i + 1])
  {
    KeywordsDiffer();
    RunStep(tokens, i);
    ReadStep(tokens, i, isPrivate, password);
    RunStep(tokens, i + 1);
    ReadStep(tokens, i + 1, isPrivate, password);
  }

  /* The option loop at a position of the token sequence. */

  lemma OptionsAtFlag(tokens: seq<string>, i: nat, isPrivate: bool, password: string)
    requires i < |tokens| && tokens[i] != PASSWORD
    ensures ReadOptions(tokens[i..], isPrivate, password) ==
            ReadOptions(tokens[i + 1..], isPrivate || tokens[i] == PRIVATE, password)
  {
    assert tokens[i..][1..] == tokens[i + 1..];
  }

  lemma OptionsAtLastPassword(tokens: seq<string>, i: nat, isPrivate: bool, password: string)
    requires i + 1 == |tokens| && tokens[i] == PASSWORD
    ensures ReadOptions(tokens[i..], isPrivate, password) == (isPrivate, password)
  {
    KeywordsDiffer();
  }

  lemma OptionsAtPassword(tokens: seq<string>, i: nat, isPrivate: bool, password: string)
    requires i + 1 < |tokens| && tokens[i] == PASSWORD
    ensures ReadOptions(tokens[i..], isPrivate, password) == ReadOptions(tokens[i + 2..], isPrivate, tokens[i + 1])
  {
    KeywordsDiffer();
    assert tokens[i..][2..] == tokens[i + 2..];
  }

  lemma {:induction false} OptionsFrom(tokens: seq<string>, i: nat, isPrivate: bool, password: string)
    requires i <= |tokens| && FlagPosition(tokens, i)
    requires ReadSoFar(tokens, i, isPrivate, password)
    ensures ReadSoFar(tokens, |tokens|, ReadOptions(tokens[i..], isPrivate, password).0,
                      ReadOptions(tokens[i..], isPrivate, password).1)
    decreases |tokens| - i
  {
    if i == |tokens| {
    } else if tokens[i] != PASSWORD {
      OptionsAtFlag(tokens, i, isPrivate, password);
      ReadFlag(tokens, i, isPrivate, password);
      OptionsFrom(tokens, i + 1, isPrivate || tokens[i] == PRIVATE, password);
    } else if i + 1 == |tokens| {
      OptionsAtLastPassword(tokens, i, isPrivate, password);
      ReadLastPassword(tokens, i, isPrivate, password);
    } else {
      OptionsAtPassword(tokens, i, isPrivate, password);
      ReadPassword(tokens, i, isPrivate, password);
      OptionsFrom(tokens, i + 2, isPrivate, tokens[i + 1]);
    }
  }

  /**
    The option loop against its grammar, for every token sequence: private iff --private stands in a
    flag position, and the password is the argument of the last --password that has one, else empty.
   */
  lemma OptionGrammar(tokens: seq<string>)
    ensures var (isPrivate, password) := ReadOptions(tokens, false, "");
            && (isPrivate <==> exists j: nat :: PrivateFlagAt(tokens, j))
            && LastArgument(tokens, |tokens|, password)
  {
    assert tokens[0..] == tokens;
    OptionsFrom(tokens, 0, false, "");
    var (isPrivate, password) := ReadOptions(tokens, false, "");
    ReadToTheEnd(tokens, isPrivate, password);
  }

  lemma ReadToTheEnd(tokens: seq<string>, isPrivate: bool, password: string)
    requires ReadSoFar(tokens, |tokens|, isPrivate, password)
    ensures isPrivate <==> exists j: nat :: PrivateFlagAt(tokens, j)
    ensures LastArgument(tokens, |tokens|, password)
  {
    if j: nat :| PrivateFlagAt(tokens, j) {
      assert j < |tokens|;
    }
  }

  /** The `while (iss >> opt)` loop of the /create_room branch, reading word by word. */
  method ReadOptionWords(text: string) returns (isPrivate: bool, password: string)
    ensures (isPrivate, password) == ReadOptions(Tokens(text), false, "")
  {
    isPrivate, password := false, "";
    var rest := text;
    var next := Extract(rest);
    while next.Word?
      invariant next == Extract(rest)
      invariant ReadOptions(Tokens(rest), isPrivate, password) == ReadOptions(Tokens(text), false, "")
      decreases |rest|
    {
      var opt := next.word;
      assert Tokens(rest) == [opt] + Tokens(next.rest);
      rest := next.rest;
      if opt == PRIVATE {
        isPrivate := true;
      } else if opt == PASSWORD {
        var argument := Extract(rest);
        if argument.Word? {
          assert ([opt] + Tokens(rest))[2..] == Tokens(argument.rest);
          password, rest := argument.word, argument.rest;
        }
      }
      next := Extract(rest);
    }
  }

  /** The reading part of the /create_room branch. */
  method ReadCreateArguments(line: string) returns (roomName: string, isPrivate: bool, password: string)
    ensures CreateRoom(roomName, isPrivate, password) == ParseCreate(Tokens(line))
    ensures SpaceFree(roomName)
    ensures var opts := OptionTokens(Tokens(line));
            && (isPrivate <==> exists j: nat :: PrivateFlagAt(opts, j))
            && LastArgument(opts, |opts|, password)
  {
    OptionGrammar(OptionTokens(Tokens(line)));
    roomName, isPrivate, password := "", false, "";
    var cmd := Extract(line);
    if cmd.Failed? {
      return;
    }
    var name := Extract(cmd.rest);
    if name.Failed? {
      return;
    }
    roomName := name.word;
    isPrivate, password := ReadOptionWords(name.rest);
    assert Tokens(line) == [cmd.word] + ([name.word] + Tokens(name.rest));
    assert OptionTokens(Tokens(line)) == Tokens(name.rest);
  }

  /* ----- /room_msg ----- */

  /** std::getline: the text up to a newline. */
  function UpToNewline(s: string): string {
    var i := IndexOf(s, "\n");
    if i == -1 then s else s[..i]
  }

  function ParseRoomMsg(line: string): (cmd: Command)
    ensures cmd.RoomMsg? || cmd.RoomMsgWithoutText?
  {
    match Extract(line)
    case Failed => RoomMsgWithoutText
    case Word(_, rest) => ParseRoomMsgArguments(rest)
  }

  function ParseRoomMsgArguments(text: string): (cmd: Command)
    ensures cmd.RoomMsg? || cmd.RoomMsgWithoutText?
  {
    match Extract(text)
    case Failed => RoomMsgWithoutText
    case Word(room, tail) =>
      var message := UpToNewline(tail);
      if message == "" then RoomMsgWithoutText else RoomMsg(room, message[1..])
  }

  /* ----- /join_room ----- */

  function ParseJoin(raw: string): (cmd: Command)
    ensures cmd.JoinRoom?
  {
    var p := IndexOf(raw, PASSWORD);
    if p == -1 then JoinRoom(Trim(raw), Trim(""))
    else JoinRoom(Trim(raw[..p]), Trim(Trim(raw[p + 10..])))
  }
}
