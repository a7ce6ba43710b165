/**
  When a command line means what its sender meant. For every command that names a room, the exact
  condition under which the server's tokeniser hands back the parts the line was built from.
 */
module CommandLines {
  import opened Text
  import opened Commands

  /* ----- words ----- */

  lemma TokensCons(w: string, rest: string)
    requires w != "" && SpaceFree(w)
    ensures Tokens(w + " " + rest) == [w] + Tokens(rest)
  {
    ExtractWord("", w, " " + rest);
    assert "" + w + (" " + rest) == w + " " + rest;
    TrimLeftPadding(IsSpace, " ", rest);
  }

  lemma TokensBefore(w: string, rest: string, tokens: seq<string>)
    requires w != "" && SpaceFree(w) && Tokens(rest) == tokens
    ensures Tokens(w + " " + rest) == [w] + tokens
  {
    TokensCons(w, rest);
  }

  lemma TokensTwo(a: string, b: string, rest: string)
    requires a != "" && b != "" && SpaceFree(a) && SpaceFree(b)
    ensures Tokens(a + " " + (b + " " + rest)) == [a, b] + Tokens(rest)
  {
    TokensCons(b, rest);
    TokensCons(a, b + " " + rest);
  }

  lemma TokensOne(w: string)
    requires w != "" && SpaceFree(w)
    ensures Tokens(w) == [w]
  {
    ExtractWord("", w, "");
    assert "" + w + "" == w;
    ExtractBlank("");
  }

  lemma TokensNone(s: string)
    requires s == "" || s == " "
    ensures Tokens(s) == []
  {
    ExtractBlank(s);
  }

  lemma {:induction false} TokensSpaceFree(s: string, i: nat)
    requires i < |Tokens(s)|
    ensures Tokens(s)[i] != "" && SpaceFree(Tokens(s)[i])
    decreases |s|
  {
    if i > 0 {
      TokensSpaceFree(Extract(s).rest, i - 1);
    }
  }

  /* ----- which branch a line takes ----- */

  lemma BranchOfCreate(line: string)
    requires "/create_room " <= line
    ensures BranchOf(line) == CreateBranch
  {
    assert line[1] == "/create_room "[1] == 'c';
  }

  lemma BranchOfMsg(line: string)
    requires "/room_msg " <= line
    ensures BranchOf(line) == MsgBranch
  {
    assert line[1] == "/room_msg "[1] == 'r';
  }

  lemma BranchOfRoomUsers(line: string)
    requires "/room_users " <= line
    ensures BranchOf(line) == RoomUsersBranch
  {
    assert line[1] == "/room_users "[1] == 'r';
    assert line[6] == "/room_users "[6] == 'u';
  }

  lemma BranchOfJoin(line: string)
    requires "/join_room " <= line
    ensures BranchOf(line) == JoinBranch
  {
    assert line[1] == "/join_room "[1] == 'j';
  }

  lemma BranchOfLeave(line: string)
    requires "/leave_room " <= line
    ensures BranchOf(line) == LeaveBranch
  {
    assert line[1] == "/leave_room "[1] == 'l';
    assert line[2] == "/leave_room "[2] == 'e';
  }

  lemma BranchOfNickname(line: string)
    requires "/nickname " <= line
    ensures BranchOf(line) == NicknameBranch
  {
    assert line[1] == "/nickname "[1] == 'n';
  }

  lemma BranchOfList(line: string)
    requires "/list_rooms" <= line
    ensures BranchOf(line) == ListBranch
  {
    assert line[1] == "/list_rooms"[1] == 'l';
    assert line[2] == "/list_rooms"[2] == 'i';
  }

  lemma BranchOfUsers(line: string)
    requires line == "/users"
    ensures BranchOf(line) == UsersBranch
  {
  }

  /** The line starts with one of the command words, which then decides what it is. */
  predicate HasCommandPrefix(line: string) {
    || "/nickname " <= line || "/create_room " <= line || "/list_rooms" <= line || "/room_msg " <= line
    || "/room_users " <= line || "/join_room " <= line || "/leave_room " <= line
  }

  lemma NicknameIff(line: string)
    ensures ParseLine(line).Nickname? <==> "/nickname " <= line
    ensures "/nickname " <= line ==> ParseLine(line) == Nickname(line[10..])
  {
    if "/nickname " <= line {
      BranchOfNickname(line);
    }
  }

  lemma CreateIff(line: string)
    ensures ParseLine(line).CreateRoom? <==> "/create_room " <= line
  {
    if "/create_room " <= line {
      BranchOfCreate(line);
    }
  }

  lemma ListRoomsIff(line: string)
    ensures ParseLine(line) == ListRooms <==> "/list_rooms" <= line
  {
    if "/list_rooms" <= line {
      BranchOfList(line);
    }
  }

  lemma RoomMsgIff(line: string)
    ensures ParseLine(line).RoomMsg? || ParseLine(line).RoomMsgWithoutText? <==> "/room_msg " <= line
  {
    if "/room_msg " <= line {
      BranchOfMsg(line);
    }
  }

  lemma RoomUsersIff(line: string)
    ensures ParseLine(line).RoomUsers? <==> "/room_users " <= line
    ensures "/room_users " <= line ==> ParseLine(line) == RoomUsers(Trim(line[12..]))
  {
    if "/room_users " <= line {
      BranchOfRoomUsers(line);
      DispatchRoomUsers(line[12..]);
      assert line == "/room_users " + line[12..];
    }
  }

  lemma JoinIff(line: string)
    ensures ParseLine(line).JoinRoom? <==> "/join_room " <= line
  {
    if "/join_room " <= line {
      BranchOfJoin(line);
    }
  }

  lemma LeaveIff(line: string)
    ensures ParseLine(line).LeaveRoom? <==> "/leave_room " <= line
    ensures "/leave_room " <= line ==> ParseLine(line) == LeaveRoom(Trim(line[12..]))
  {
    if "/leave_room " <= line {
      BranchOfLeave(line);
      DispatchLeave(line[12..]);
      assert line == "/leave_room " + line[12..];
    }
  }

  lemma ListUsersIff(line: string)
    ensures ParseLine(line) == ListUsers <==> line == "/users"
    ensures ParseLine(line) == Blank <==> line == ""
  {
    if line == "/users" {
      BranchOfUsers(line);
    }
  }

  /** A line is chat, with all of its text, exactly if it is not empty, not /users, and starts with no command word. */
  lemma ChatIff(line: string)
    ensures ParseLine(line).Chat? <==> line != "" && line != "/users" && !HasCommandPrefix(line)
    ensures ParseLine(line).Chat? ==> ParseLine(line) == Chat(line)
  {
    NicknameIff(line);
    CreateIff(line);
    ListRoomsIff(line);
    RoomMsgIff(line);
    RoomUsersIff(line);
    JoinIff(line);
    LeaveIff(line);
    ListUsersIff(line);
  }

  /** One trailing newline is dropped, and nothing else. */
  lemma ChompDropsOneNewline(line: string)
    ensures Chomp(line + "\n") == line
    ensures (line == "" || line[|line| - 1] != '\n') ==> Chomp(line) == line
  {
  }

  lemma DispatchCreate(x: string)
    ensures ParseLine("/create_room " + x) == ParseCreate(["/create_room"] + Tokens(x))
  {
    BranchOfCreate("/create_room " + x);
    assert "/create_room" + " " + x == "/create_room " + x;
    TokensCons("/create_room", x);
  }

  lemma DispatchMsg(x: string)
    ensures ParseLine("/room_msg " + x) == ParseRoomMsgArguments(" " + x)
  {
    BranchOfMsg("/room_msg " + x);
    ExtractBeforeSpace("/room_msg", x);
    assert "/room_msg" + " " + x == "/room_msg " + x;
  }

  lemma ExtractBeforeSpace(w: string, x: string)
    requires w != "" && SpaceFree(w)
    ensures Extract(w + " " + x) == Word(w, " " + x)
  {
    ExtractWord("", w, " " + x);
    assert "" + w + (" " + x) == w + " " + x;
  }

  lemma DispatchRoomUsers(x: string)
    ensures ParseLine("/room_users " + x) == RoomUsers(Trim(x))
  {
    var line := "/room_users " + x;
    BranchOfRoomUsers(line);
    assert line[11..] == " " + x;
    TrimLeftPadding(IsBlank, " ", x);
  }

  lemma DispatchJoin(x: string)
    ensures ParseLine("/join_room " + x) == ParseJoin(x)
  {
    var line := "/join_room " + x;
    BranchOfJoin(line);
    assert line[11..] == x;
  }

  lemma DispatchLeave(x: string)
    ensures ParseLine("/leave_room " + x) == LeaveRoom(Trim(x))
  {
    var line := "/leave_room " + x;
    BranchOfLeave(line);
    assert line[11..] == " " + x;
    TrimLeftPadding(IsBlank, " ", x);
  }

  /* ----- /create_room ----- */

  /** A create line stores the typed name under that very name exactly when it is one word. */
  lemma CreatePublicLine(name: string)
    ensures ParseLine("/create_room " + name) == CreateRoom(name, false, "") <==> SpaceFree(name)
  {
    DispatchCreate(name);
    if SpaceFree(name) {
      TokensOfWord(name);
    } else if Tokens(name) != [] {
      TokensSpaceFree(name, 0);
    }
  }

  lemma CreatedNameIsWord(line: string)
    requires ParseLine(line).CreateRoom?
    ensures SpaceFree(ParseLine(line).room) && SpaceFree(ParseLine(line).password)
  {
    var tokens := Tokens(line);
    if |tokens| > 1 {
      TokensSpaceFree(line, 1);
    }
    var opts := OptionTokens(tokens);
    OptionGrammar(opts);
    var password := ReadOptions(opts, false, "").1;
    if password != "" {
      var i: nat :| i < |opts| && password == opts[i];
      TokensSpaceFree(line, i + 2);
    }
  }

  /**
    What any create line asks for: the second word as the name, or none; private exactly if --private stands
    in a flag position behind it; the argument of the last --password that has one, private or not.
   */
  lemma CreateGrammar(line: string)
    requires "/create_room " <= line
    ensures var c, words := ParseLine(line), Tokens(line);
            var opts := if |words| > 2 then words[2..] else [];
            && c.CreateRoom? && c.room == (if |words| > 1 then words[1] else "")
            && (c.isPrivate <==> exists j: nat :: PrivateFlagAt(opts, j))
            && LastArgument(opts, |opts|, c.password)
  {
    CreateIff(line);
    OptionGrammar(OptionTokens(Tokens(line)));
  }

  /** The part of a private create line that follows the command word. */
  function PrivateTail(name: string, password: string): string {
    name + " " + (PRIVATE + " " + (PASSWORD + " " + password))
  }

  lemma KeywordsAreWords()
    ensures PRIVATE != "" && SpaceFree(PRIVATE)
    ensures PASSWORD != "" && SpaceFree(PASSWORD)
    ensures PRIVATE != PASSWORD
  {
    KeywordsDiffer();
  }

  lemma TokensOfWord(w: string)
    requires SpaceFree(w)
    ensures Tokens(w) == if w == "" then [] else [w]
  {
    if w == "" {
      TokensNone(w);
    } else {
      TokensOne(w);
    }
  }

  /** Without a name, the first option word is taken for one. */
  lemma NamelessTail(word: string, rest: string)
    requires word != "" && SpaceFree(word)
    ensures Tokens("" + " " + (word + " " + rest)) != []
    ensures Tokens("" + " " + (word + " " + rest))[0] == word
  {
    ExtractWord(" ", word, " " + rest);
    assert "" + " " + (word + " " + rest) == " " + word + (" " + rest);
  }

  lemma OptionsOfPrivate(opts: seq<string>, password: string)
    requires opts == [PRIVATE, PASSWORD] + if password == "" then [] else [password]
    ensures ReadOptions(opts, false, "") == (true, password)
  {
    KeywordsAreWords();
    var rest := opts[1..];
    assert rest[0] == PASSWORD;
    if password != "" {
      assert rest[1] == password && rest[2..] == [];
    }
    assert ReadOptions(opts, false, "") == ReadOptions(rest, true, "");
  }

  lemma PrivateLineIntact(name: string, password: string)
    requires name != "" && SpaceFree(name) && SpaceFree(password)
    ensures ParseCreate(["/create_room"] + Tokens(PrivateTail(name, password))) == CreateRoom(name, true, password)
  {
    var opts := [PRIVATE, PASSWORD] + if password == "" then [] else [password];
    assert Tokens(PRIVATE + " " + (PASSWORD + " " + password)) == opts by {
      KeywordsAreWords();
      TokensTwo(PRIVATE, PASSWORD, password);
      TokensOfWord(password);
    }
    TokensBefore(name, PRIVATE + " " + (PASSWORD + " " + password), opts);
    NamedOptions(name, opts);
    OptionsOfPrivate(opts, password);
  }

  lemma NamedOptions(name: string, opts: seq<string>)
    requires opts != []
    ensures var tokens := ["/create_room"] + ([name] + opts);
            |tokens| > 2 && tokens[1] == name && OptionTokens(tokens) == opts
  {
  }

  lemma PrivateLineWithoutName(password: string)
    ensures ParseCreate(["/create_room"] + Tokens(PrivateTail("", password))).room == PRIVATE
  {
    KeywordsAreWords();
    NamelessTail(PRIVATE, PASSWORD + " " + password);
  }

  /** A private create line arrives intact exactly when name and password are single words and the name is not empty. */
  lemma CreatePrivateLine(name: string, password: string)
    ensures ParseLine("/create_room " + PrivateTail(name, password)) == CreateRoom(name, true, password)
       <==> name != "" && SpaceFree(name) && SpaceFree(password)
  {
    DispatchCreate(PrivateTail(name, password));
    if name == "" {
      KeywordsAreWords();
      PrivateLineWithoutName(password);
    } else if SpaceFree(name) && SpaceFree(password) {
      PrivateLineIntact(name, password);
    } else {
      CreatedNameIsWord("/create_room " + PrivateTail(name, password));
    }
  }

  /* ----- /room_msg ----- */

  lemma UpToNewlineFacts(s: string)
    ensures '\n' !in UpToNewline(s)
    ensures '\n' !in s ==> UpToNewline(s) == s
  {
    var i := IndexOf(s, "\n");
    IndexOfIsLeftmost(s, "\n", 0);
    if i != -1 {
      assert s[i] == s[i..][0] == '\n';
    }
    forall j: nat | j < |s| && s[j] == '\n' ensures 0 <= i <= j {
      assert OccursAt(s, "\n", j);
      IndexOfIsLeftmost(s, "\n", j);
    }
  }

  lemma RoomMsgArguments(room: string, message: string)
    ensures ParseRoomMsgArguments(" " + (room + " " + message)) == RoomMsg(room, message)
       <==> room != "" && SpaceFree(room) && '\n' !in message
  {
    var text := " " + (room + " " + message);
    if room != "" && SpaceFree(room) && '\n' !in message {
      ExtractWord(" ", room, " " + message);
      assert " " + room + (" " + message) == text;
      UpToNewlineFacts(" " + message);
    } else if Extract(text).Word? {
      UpToNewlineFacts(Extract(text).rest);
    }
  }

  /** A room message arrives intact exactly when the room is one word and the text is one line. */
  lemma RoomMsgLine(room: string, message: string)
    ensures ParseLine("/room_msg " + (room + " " + message)) == RoomMsg(room, message)
       <==> room != "" && SpaceFree(room) && '\n' !in message
  {
    DispatchMsg(room + " " + message);
    RoomMsgArguments(room, message);
  }

  /** However it is spaced: the room is the first word, and the text is what follows one separator, up to a newline. */
  lemma RoomMsgSpaced(pad: string, room: string, sep: char, message: string, after: string)
    requires All(IsSpace, pad) && room != "" && SpaceFree(room)
    requires IsSpace(sep) && sep != '\n' && '\n' !in message && (after == "" || after[0] == '\n')
    ensures ParseLine("/room_msg " + (pad + room + ([sep] + message + after))) == RoomMsg(room, message)
  {
    var tail := [sep] + message + after;
    DispatchMsg(pad + room + tail);
    assert " " + (pad + room + tail) == (" " + pad) + room + tail;
    assert All(IsSpace, " " + pad);
    ExtractWord(" " + pad, room, tail);
    UpToFirstNewline([sep] + message, after);
  }

  lemma UpToFirstNewline(text: string, after: string)
    requires '\n' !in text && (after == "" || after[0] == '\n')
    ensures UpToNewline(text + after) == text
  {
    if after == "" {
      UpToNewlineFacts(text);
      assert text + after == text;
    } else {
      IndexOfChar(text, '\n', after[1..]);
      assert text + ['\n'] + after[1..] == text + after && ['\n'] == "\n";
    }
  }

  /* ----- /leave_room and /room_users ----- */

  lemma TrimSolid(s: string)
    ensures Solid(IsBlank, Trim(s))
    ensures |Trim(s)| <= |s|
    ensures Trim(s) == s <==> Solid(IsBlank, s)
  {
    var t := TrimLeft(IsBlank, s);
    if Solid(IsBlank, s) {
      TrimPadded("", s, "");
      assert "" + s + "" == s;
    }
  }

  lemma LeaveAndUsersLine(room: string)
    ensures ParseLine("/leave_room " + room) == LeaveRoom(room) <==> Solid(IsBlank, room)
    ensures ParseLine("/room_users " + room) == RoomUsers(room) <==> Solid(IsBlank, room)
  {
    DispatchLeave(room);
    DispatchRoomUsers(room);
    TrimSolid(room);
  }

  /* ----- /join_room ----- */

  lemma CoversSpace(s: string, pat: string, j: nat, k: nat)
    requires OccursAt(s, pat, j) && j <= k < j + |pat| && k < |s| && s[k] == ' '
    ensures ' ' in pat && !SpaceFree(pat)
  {
    assert pat[k - j] == s[j..][k - j] == s[k];
    assert ' ' in pat;
  }

  /** An occurrence of a space-free pattern cannot straddle a space. */
  lemma NoStraddling(room: string, tail: string, pat: string, j: nat)
    requires pat != "" && SpaceFree(pat)
    requires j <= |room| && OccursAt(room + " " + tail, pat, j)
    ensures OccursAt(room, pat, j)
  {
    var raw := room + " " + tail;
    if j + |pat| > |room| {
      CoversSpace(raw, pat, j, |room|);
    }
    assert room[j..] == raw[j..][..|room| - j];
  }

  lemma KeywordPosition(room: string, pat: string, tail: string)
    requires pat != "" && SpaceFree(pat)
    requires !Contains(room, pat)
    ensures IndexOf(room + " " + (pat + tail), pat) == |room| + 1
  {
    var raw := room + " " + (pat + tail);
    assert raw[|room| + 1..] == pat + tail;
    forall j: nat | j < |room| + 1 ensures !OccursAt(raw, pat, j) {
      if OccursAt(raw, pat, j) {
        NoStraddling(room, pat + tail, pat, j);
        IndexOfIsLeftmost(room, pat, j);
      }
    }
    IndexOfIs(raw, pat, |room| + 1);
  }

  /** The part of a join line that follows the command word, when a password is given. */
  function PasswordTail(room: string, password: string): string {
    room + " " + (PASSWORD + " " + password)
  }

  lemma ParseJoinAt(raw: string, p: nat, left: string, right: string)
    requires IndexOf(raw, PASSWORD) == p
    requires raw[..p] == left && raw[p + 10..] == right
    ensures ParseJoin(raw) == JoinRoom(Trim(left), Trim(Trim(right)))
  {
  }

  lemma JoinPasswordParse(room: string, password: string)
    requires !Contains(room, PASSWORD)
    ensures ParseLine("/join_room " + PasswordTail(room, password)) == JoinRoom(Trim(room), Trim(password))
  {
    var raw := PasswordTail(room, password);
    DispatchJoin(raw);
    PasswordTailKeyword(room, password);
    ParseJoinAt(raw, |room| + 1, room + " ", " " + password);
    PaddedPassword(password);
    TrimOfPadded(room);
  }

  lemma PasswordTailKeyword(room: string, password: string)
    requires !Contains(room, PASSWORD)
    ensures var raw := PasswordTail(room, password);
            && IndexOf(raw, PASSWORD) == |room| + 1
            && raw[..|room| + 1] == room + " "
            && raw[|room| + 11..] == " " + password
  {
    KeywordsAreWords();
    KeywordPosition(room, PASSWORD, " " + password);
    assert PASSWORD + " " + password == PASSWORD + (" " + password);
    CutAtKeyword(room, PASSWORD, password);
  }

  lemma CutAtKeyword(room: string, pat: string, password: string)
    ensures var raw := room + " " + (pat + " " + password);
            && raw[..|room| + 1] == room + " "
            && raw[|room| + 1 + |pat|..] == " " + password
  {
    var raw := room + " " + (pat + " " + password);
    assert raw == room + " " + pat + (" " + password);
    assert |room + " " + pat| == |room| + 1 + |pat|;
  }

  lemma PaddedPassword(password: string)
    ensures Trim(Trim(" " + password)) == Trim(password)
  {
    TrimLeftPadding(IsBlank, " ", password);
    TrimSolid(password);
    TrimSolid(Trim(password));
  }

  lemma TrimOfPadded(s: string)
    ensures Trim(s + " ") == Trim(s)
  {
    var t := TrimLeft(IsBlank, s);
    TrimLeftThenPad(s);
    if t == "" {
      assert Trim(s) == "";
    } else {
      TrimRightPadding(IsBlank, t, " ");
    }
  }

  lemma {:induction false} TrimLeftThenPad(s: string)
    ensures TrimLeft(IsBlank, s + " ") == if TrimLeft(IsBlank, s) == "" then "" else TrimLeft(IsBlank, s) + " "
  {
    if s == "" {
      assert s + " " == " ";
      assert " "[1..] == "";
    } else {
      assert (s + " ")[1..] == s[1..] + " ";
      assert (s + " ")[0] == s[0];
      if IsBlank(s[0]) {
        TrimLeftThenPad(s[1..]);
      }
    }
  }

  lemma LeftmostInLonger(s: string, pat: string, tail: string)
    requires pat != "" && Contains(s, pat)
    ensures 0 <= IndexOf(s + tail, pat) < |s|
  {
    var i := IndexOf(s, pat);
    IndexOfIsLeftmost(s, pat, 0);
    assert (s + tail)[i..] == s[i..] + tail;
    IndexOfIsLeftmost(s + tail, pat, i);
  }

  /** With --password inside the name, the line names a shorter room: the real one cannot be reached. */
  lemma KeywordInsideName(room: string, tail: string)
    requires Contains(room, PASSWORD)
    ensures ParseLine("/join_room " + (room + tail)).JoinRoom?
    ensures |ParseLine("/join_room " + (room + tail)).room| < |room|
  {
    var raw := room + tail;
    DispatchJoin(raw);
    KeywordsAreWords();
    LeftmostInLonger(room, PASSWORD, tail);
    TrimSolid(raw[..IndexOf(raw, PASSWORD)]);
  }

  lemma TrimKeepsOut(s: string, pat: string)
    requires pat != "" && Contains(Trim(s), pat)
    ensures Contains(s, pat)
  {
    IndexOfIsLeftmost(Trim(s), pat, 0);
    var i := OccursInTrimmed(s, pat, IndexOf(Trim(s), pat));
    IndexOfIsLeftmost(s, pat, i);
  }

  lemma NothingBeforeLeftmost(s: string, pat: string)
    requires pat != "" && Contains(s, pat)
    ensures !Contains(s[..IndexOf(s, pat)], pat)
  {
    var p := IndexOf(s, pat);
    if Contains(s[..p], pat) {
      var i := IndexOf(s[..p], pat);
      IndexOfIsLeftmost(s[..p], pat, 0);
      OccursBeforeCut(s, p, pat, i);
      IndexOfIsLeftmost(s, pat, i);
    }
  }

  lemma RoomBeforeKeyword(raw: string)
    ensures !Contains(ParseJoin(raw).room, PASSWORD)
  {
    KeywordsAreWords();
    var left := if Contains(raw, PASSWORD) then raw[..IndexOf(raw, PASSWORD)] else raw;
    if Contains(raw, PASSWORD) {
      NothingBeforeLeftmost(raw, PASSWORD);
    }
    assert ParseJoin(raw).room == Trim(left);
    if Contains(Trim(left), PASSWORD) {
      TrimKeepsOut(left, PASSWORD);
    }
  }

  /** What any join line asks for: the trimmed text before the first --password, with the trimmed text behind it. */
  lemma JoinParts(line: string)
    requires "/join_room " <= line
    ensures var raw := line[11..];
            && (!Contains(raw, PASSWORD) ==> ParseLine(line) == JoinRoom(Trim(raw), ""))
            && (forall p: nat :: OccursAt(raw, PASSWORD, p) && (forall j: nat :: j < p ==> !OccursAt(raw, PASSWORD, j)) ==>
                  |raw| >= p + 10 && ParseLine(line) == JoinRoom(Trim(raw[..p]), Trim(raw[p + 10..])))
  {
    var raw := line[11..];
    BranchOfJoin(line);
    KeywordsAreWords();
    assert Trim("") == "";
    forall p: nat | OccursAt(raw, PASSWORD, p) && (forall j: nat :: j < p ==> !OccursAt(raw, PASSWORD, j))
      ensures |raw| >= p + 10 && ParseLine(line) == JoinRoom(Trim(raw[..p]), Trim(raw[p + 10..]))
    {
      assert |PASSWORD| == 10;
      IndexOfIs(raw, PASSWORD, p);
      ParseJoinAt(raw, p, raw[..p], raw[p + 10..]);
      TrimSolid(raw[p + 10..]);
      TrimSolid(Trim(raw[p + 10..]));
    }
  }

  /** No /join_room line whatsoever names a room that contains --password. */
  lemma JoinNeverNamesKeyword(line: string)
    requires ParseLine(line).JoinRoom?
    ensures !Contains(ParseLine(line).room, PASSWORD)
  {
    assert BranchOf(line) == JoinBranch;
    RoomBeforeKeyword(line[11..]);
  }

  /** /join_room without a password recovers the room exactly when the name is trimmed and free of --password. */
  lemma JoinLine(room: string)
    ensures ParseLine("/join_room " + room) == JoinRoom(room, "")
       <==> Solid(IsBlank, room) && !Contains(room, PASSWORD)
  {
    DispatchJoin(room);
    TrimSolid(room);
    if Contains(room, PASSWORD) {
      KeywordInsideName(room, "");
      assert room + "" == room;
    }
  }

  lemma KeywordInsidePrivateName(room: string, password: string)
    requires Contains(room, PASSWORD)
    ensures ParseLine("/join_room " + PasswordTail(room, password)) != JoinRoom(room, password)
  {
    KeywordInsideName(room, " " + (PASSWORD + " " + password));
    assert room + (" " + (PASSWORD + " " + password)) == PasswordTail(room, password);
  }

  /** /join_room with a password, likewise. */
  lemma JoinPasswordLine(room: string, password: string)
    ensures ParseLine("/join_room " + PasswordTail(room, password)) == JoinRoom(room, password)
       <==> Solid(IsBlank, room) && Solid(IsBlank, password) && !Contains(room, PASSWORD)
  {
    if Contains(room, PASSWORD) {
      KeywordInsidePrivateName(room, password);
    } else {
      TrimSolid(room);
      TrimSolid(password);
      JoinPasswordParse(room, password);
    }
  }

  lemma WordIsSolid(w: string)
    requires SpaceFree(w)
    ensures Solid(IsBlank, w)
  {
    assert w != "" ==> w[0] in w && w[|w| - 1] in w;
  }

  /** The two tokenisers agree on the keys that /create_room can store. */
  lemma TokenisersAgree(line: string, r: string, message: string)
    requires ParseLine(line).CreateRoom? && ParseLine(line).room == r
    requires '\n' !in message
    ensures ParseLine("/leave_room " + r) == LeaveRoom(r)
    ensures ParseLine("/room_users " + r) == RoomUsers(r)
    ensures ParseLine("/join_room " + r) == JoinRoom(r, "") <==> !Contains(r, PASSWORD)
    ensures ParseLine("/room_msg " + (r + " " + message)) == RoomMsg(r, message) <==> r != ""
  {
    CreatedNameIsWord(line);
    WordIsSolid(r);
    LeaveAndUsersLine(r);
    JoinLine(r);
    RoomMsgLine(r, message);
  }
}
