/**
  What the client does with a line it received: the message callback and appendMessage of
  src/client/gui/mainwindow.cpp, and the prefix stripping of src/client/gui/groupchatwindow.cpp.
 */
module ClientWindow {
  import opened Text
  import opened Keys
  import opened Lists
  import opened CommandLines
  import opened ClientCommands

  /* ----- the visible state ----- */

  datatype WindowView = WindowView(title: string, display: seq<string>, users: seq<string>)

  datatype ClientView = ClientView(
    rooms: seq<string>,
    privateRooms: seq<string>,
    users: seq<string>,
    windows: seq<WindowView>,
    current: string,
    chat: seq<string>,
    warnings: nat,
    sent: seq<string>, // the lines handed to sendMessage, as they go over the wire
    timers: nat        // the refreshes of the room list that are still to come
  )

  const JOIN_FAILED := "채팅방 참여 실패"
  const ROOM_OPEN := "채팅방 ["
  const JOIN_DONE := "] 참여 완료"

  /** Where the first window with this title is, or the number of windows. */
  function WindowAt(windows: seq<WindowView>, title: string): (i: nat)
    ensures i <= |windows|
    ensures i < |windows| ==> windows[i].title == title
    ensures forall j :: 0 <= j < i ==> windows[j].title != title
  {
    if windows == [] || windows[0].title == title then 0 else 1 + WindowAt(windows[1..], title)
  }

  /** What a group window shows of a message: the text behind the first "] ". */
  function Stripped(msg: string): string {
    if IndexOf(msg, "]") + 2 > 1 then Mid(msg, IndexOf(msg, "]") + 2, -1) else msg
  }

  /** The names carried by the parts with this tag. */
  function Tagged(parts: seq<string>, tag: string): seq<string> {
    if parts == [] then [] else TagOf(parts[0], tag) + Tagged(parts[1..], tag)
  }

  function TagOf(part: string, tag: string): seq<string> {
    if tag <= part then [part[|tag|..]] else []
  }

  datatype Kind = RoomListKind | RoomUsersKind | UsersKind | RoomMsgKind | ChatKind

  /** The branch of appendMessage a line falls into. */
  function KindOf(line: string): (k: Kind)
    ensures |line| >= TagLength(k)
  {
    if "ROOM_LIST:" <= line then RoomListKind
    else if "ROOM_USER_LIST:" <= line then RoomUsersKind
    else if "USER_LIST:" <= line then UsersKind
    else if "ROOM_MSG:" <= line then RoomMsgKind
    else ChatKind
  }

  function TagLength(k: Kind): nat {
    match k
    case RoomListKind => 10
    case RoomUsersKind => 15
    case UsersKind => 10
    case RoomMsgKind => 9
    case ChatKind => 0
  }

  function Appended(v: ClientView, line: string): ClientView {
    AppendedAs(v, KindOf(line), line[TagLength(KindOf(line))..])
  }

  /** appendMessage, once the tag is cut off. */
  function AppendedAs(v: ClientView, kind: Kind, body: string): ClientView {
    match kind
    case RoomListKind => WithRoomLists(v, Parts(body))
    case RoomUsersKind => WithRoomUsers(v, Parts(body))
    case UsersKind => v.(users := Parts(body))
    case RoomMsgKind => WithRoomLine(v, body)
    case ChatKind => v.(chat := v.chat + [body])
  }

  function WithRoomLists(v: ClientView, parts: seq<string>): ClientView {
    v.(rooms := Tagged(parts, "PUBLIC:"), privateRooms := Tagged(parts, "PRIVATE:"))
  }

  function WithRoomUsers(v: ClientView, users: seq<string>): ClientView {
    var i := WindowAt(v.windows, v.current);
    if i < |v.windows| then v.(windows := v.windows[i := v.windows[i].(users := users)]) else v
  }

  /** A room message goes to the window of the room named between its first brackets. */
  function WithRoomLine(v: ClientView, msg: string): ClientView {
    var start, end := IndexOf(msg, "[") + 1, IndexOf(msg, "]");
    if start > 0 && end > start then WithRoomMsg(v, Mid(msg, start, end - start), msg) else v
  }

  function WithRoomMsg(v: ClientView, room: string, msg: string): ClientView {
    var i := WindowAt(v.windows, room);
    if i < |v.windows| then
      v.(windows := v.windows[i := v.windows[i].(display := v.windows[i].display + [Stripped(msg)])])
    else v
  }

  /** The room a join confirmation names: what stands between the first brackets. */
  function AnnouncedRoom(line: string): string {
    Mid(line, if IndexOf(line, "[") >= 0 then IndexOf(line, "[") + 1 else 0,
        IndexOf(line, "]") - (IndexOf(line, "[") + 1))
  }

  /** The callback takes a line for a join confirmation. */
  predicate Announces(line: string) {
    !Contains(line, JOIN_FAILED) && Contains(line, ROOM_OPEN) && Contains(line, JOIN_DONE)
  }

  /** The callback: a refused join warns; a confirmed one opens a window, or only raises the one there is. */
  function OnLine(v: ClientView, line: string): ClientView {
    if Contains(line, JOIN_FAILED) then Appended(Warned(v), line)
    else if Announces(line) then WithJoined(v, AnnouncedRoom(line), line)
    else Appended(v, line)
  }

  function Warned(v: ClientView): ClientView {
    v.(warnings := v.warnings + 1)
  }

  function WithJoined(v: ClientView, room: string, line: string): ClientView {
    if WindowAt(v.windows, room) < |v.windows| then v else Appended(WithWindow(v, room), line)
  }

  /** A command has been sent, and the room it is about is now the current one. */
  function Asked(v: ClientView, room: string, command: string): ClientView {
    v.(current := room, sent := v.sent + [Wire(command)])
  }

  /** There is a window with this title, new if need be. */
  function WithWindow(v: ClientView, title: string): ClientView {
    if WindowAt(v.windows, title) < |v.windows| then v else v.(windows := v.windows + [WindowView(title, [], [])])
  }

  /** The line that asks for a new room. */
  function CreateLine(name: string, password: string, isPrivate: bool): string {
    "/create_room " + if isPrivate && password != "" then PrivateTail(name, password) else name
  }

  /** The create dialog, accepted with these inputs. */
  function AfterCreateDialog(v: ClientView, dialogName: string, dialogPassword: string, isPrivate: bool): ClientView {
    var name, password := Trimmed(dialogName), Trimmed(dialogPassword);
    if name == "" then Warned(v) else Asked(v, name, CreateLine(name, password, isPrivate)).(timers := v.timers + 1)
  }

  /** A click in the list of public rooms. */
  function AfterRoomClick(v: ClientView, room: string): ClientView {
    WithWindow(Asked(v, room, JoinCommand(room)), room)
  }

  /** A click in the list of private rooms, with this text entered as the password. */
  function AfterJoinDialog(v: ClientView, room: string, password: string): ClientView {
    if password == "" then v else Asked(v, room, JoinPrivateCommand(room, password))
  }

  /* ----- the objects ----- */

  class GroupChatWindow {
    const roomName: string
    var display: seq<string>
    var users: seq<string>

    ghost function View(): WindowView
      reads this
    {
      WindowView(roomName, display, users)
    }

    constructor (roomName: string)
      ensures View() == WindowView(roomName, [], [])
    {
      this.roomName, display, users := roomName, [], [];
    }

    method AppendMessage(msg: string)
      modifies this
      ensures View() == old(View()).(display := old(display) + [Stripped(msg)])
    {
      var displayMsg := msg;
      var start := IndexOf(displayMsg, "]") + 2;
      if start > 1 {
        displayMsg := Mid(displayMsg, start, -1);
      }
      display := display + [displayMsg];
    }

    /** The send button: the trimmed input becomes a command unless it is empty. */
    method OnSendButtonClicked(input: string) returns (command: Option<string>)
      ensures command == if Trimmed(input) == "" then None else Some(RoomMsgCommand(roomName, Trimmed(input)))
      ensures command.Some? && !LowMarker(roomName) ==>
                command.value == "/room_msg " + (roomName + " " + Trimmed(input)) + "\n"
    {
      var msg := Trimmed(input);
      if msg == "" {
        return None;
      }
      if !LowMarker(roomName) {
        RoomMsgCommandText(roomName, msg);
      }
      RoomMsgTemplate();
      return Some(Arg(Arg("/room_msg %1 %2\n", roomName), msg));
    }

    method UpdateUserList(users: seq<string>)
      modifies this
      ensures View() == old(View()).(users := users)
    {
      this.users := users;
    }
  }

  ghost function Views(windows: seq<GroupChatWindow>): seq<WindowView>
    reads windows
  {
    seq(|windows|, i requires 0 <= i < |windows| reads windows => windows[i].View())
  }

  class MainWindow {
    var roomList: seq<string>
    var privateRoomList: seq<string>
    var userList: seq<string>
    var groupChatWindows: seq<GroupChatWindow>
    var currentRoomName: string
    var chatDisplay: seq<string>
    var warnings: nat
    var sent: seq<string>
    var timers: nat

    /** Each window is its own object. */
    ghost predicate Valid()
      reads this
    {
      Distinct(groupChatWindows)
    }

    ghost function View(): ClientView
      reads this, groupChatWindows
    {
      ClientView(roomList, privateRoomList, userList, Views(groupChatWindows), currentRoomName, chatDisplay, warnings,
                 sent, timers)
    }

    /** At the start one refresh of the room list is due. */
    constructor ()
      ensures Valid() && View() == ClientView([], [], [], [], "", [], 0, [], 1)
    {
      roomList, privateRoomList, userList, groupChatWindows := [], [], [], [];
      currentRoomName, chatDisplay, warnings, sent, timers := "", [], 0, [], 1;
    }

    method SendMessage(message: string)
      modifies this`sent
      ensures View() == old(View()).(sent := old(sent) + [Wire(message)])
      ensures sent == old(sent) + [message + "\n"]
    {
      sent := sent + [message + "\n"];
    }

    /** The create dialog, accepted. A private room without a password is asked for as a public one. */
    method CreateNewRoom(dialogName: string, dialogPassword: string, isPrivate: bool)
      modifies this
      ensures View() == AfterCreateDialog(old(View()), dialogName, dialogPassword, isPrivate)
    {
      var roomName := Trimmed(dialogName);
      var password := Trimmed(dialogPassword);
      if roomName == "" {
        warnings := warnings + 1;
        return;
      }
      SendCreate(roomName, password, isPrivate);
    }

    /** The command goes out, and half a second later the room lists are asked for again. */
    method SendCreate(roomName: string, password: string, isPrivate: bool)
      modifies this
      ensures View() ==
              Asked(old(View()), roomName, CreateLine(roomName, password, isPrivate)).(timers := old(timers) + 1)
    {
      var command := BuildCreateCommand(roomName, password, isPrivate);
      SendRequest(roomName, command);
      timers := timers + 1;
    }

    /** A timer goes off: the room lists are asked for again. */
    method OnRefreshTimer()
      requires timers > 0
      modifies this`timers, this`sent
      ensures View() == old(View()).(timers := old(timers) - 1, sent := old(sent) + [Wire("/list_rooms")])
    {
      timers := timers - 1;
      SendMessage("/list_rooms");
    }

    method BuildCreateCommand(roomName: string, password: string, isPrivate: bool) returns (command: string)
      ensures command == CreateLine(roomName, password, isPrivate)
    {
      command := Arg("/create_room %1", roomName);
      if isPrivate && password != "" {
        command := command + Arg(" --private --password %1", password);
      }
      assert command == CreateCommand(roomName, password, isPrivate);
      CreateCommandText(roomName, password, isPrivate);
    }

    /** A click in the list of public rooms: ask to join, and open the window if it is not open yet. */
    method JoinSelectedRoom(roomName: string)
      requires Valid()
      modifies this
      ensures Valid()
      ensures View() == AfterRoomClick(old(View()), roomName)
      ensures currentRoomName == roomName && sent == old(sent) + ["/join_room " + roomName + "\n"]
    {
      assert JoinCommand(roomName) == "/join_room " + roomName by { JoinCommandText(roomName); }
      SendRequest(roomName, JoinCommand(roomName));
      RaiseWindow(roomName);
    }

    method RaiseWindow(title: string)
      requires Valid()
      modifies this`groupChatWindows
      ensures Valid() && View() == WithWindow(old(View()), title)
    {
      var i := FindWindow(title);
      if i == |groupChatWindows| {
        OpenWindow(title);
      }
    }

    method SendRequest(roomName: string, command: string)
      modifies this`currentRoomName, this`sent
      ensures View() == Asked(old(View()), roomName, command)
      ensures currentRoomName == roomName && sent == old(sent) + [command + "\n"]
    {
      currentRoomName := roomName;
      SendMessage(command);
    }

    /** A click in the list of private rooms, with the password typed into the dialog. */
    method JoinSelectedPrivateRoom(roomName: string, password: string)
      modifies this
      ensures View() == AfterJoinDialog(old(View()), roomName, password)
      ensures password != "" ==> currentRoomName == roomName && |sent| == |old(sent)| + 1
    {
      if password != "" {
        SendRequest(roomName, JoinPrivateCommand(roomName, password));
      }
    }

    method RequestRoomUserList(roomName: string)
      modifies this
      ensures View() == old(View()).(sent := old(sent) + [Wire("/room_users " + roomName)])
    {
      RoomUsersCommandText(roomName);
      SendMessage(RoomUsersCommand(roomName));
    }

    /** The loops that look for the window of a room. */
    method FindWindow(title: string) returns (i: nat)
      ensures i == WindowAt(Views(groupChatWindows), title)
    {
      i := 0;
      ghost var views := Views(groupChatWindows);
      while i < |groupChatWindows| && groupChatWindows[i].roomName != title
        invariant i <= |groupChatWindows|
        invariant forall j :: 0 <= j < i ==> views[j].title != title
      {
        assert views[i] == groupChatWindows[i].View();
        i := i + 1;
      }
      assert i < |groupChatWindows| ==> views[i] == groupChatWindows[i].View();
      assert WindowAt(views, title) == i;
    }

    /** The loop over the parts of a ROOM_LIST: line. */
    method FillRoomLists(parts: seq<string>)
      modifies this`roomList, this`privateRoomList
      ensures roomList == Tagged(parts, "PUBLIC:") && privateRoomList == Tagged(parts, "PRIVATE:")
    {
      roomList, privateRoomList := [], [];
      for i := 0 to |parts|
        invariant roomList == Tagged(parts[..i], "PUBLIC:") && privateRoomList == Tagged(parts[..i], "PRIVATE:")
      {
        assert parts[..i + 1] == parts[..i] + [parts[i]];
        TaggedSnoc(parts[..i], parts[i], "PUBLIC:");
        TaggedSnoc(parts[..i], parts[i], "PRIVATE:");
        TagsExclude(parts[i]);
        if "PUBLIC:" <= parts[i] {
          roomList := roomList + [parts[i][7..]];
        } else if "PRIVATE:" <= parts[i] {
          privateRoomList := privateRoomList + [parts[i][8..]];
        }
      }
      assert parts[..|parts|] == parts;
    }

    method AppendMessage(line: string)
      requires Valid()
      modifies this, groupChatWindows
      ensures Valid() && groupChatWindows == old(groupChatWindows)
      ensures View() == Appended(old(View()), line)
    {
      AppendBody(KindOf(line), line[TagLength(KindOf(line))..]);
    }

    method AppendBody(kind: Kind, body: string)
      requires Valid()
      modifies this, groupChatWindows
      ensures Valid() && groupChatWindows == old(groupChatWindows)
      ensures View() == AppendedAs(old(View()), kind, body)
    {
      match kind
      case RoomListKind => FillRoomLists(Parts(body));
      case RoomUsersKind => ShowRoomUsers(Parts(body));
      case UsersKind => userList := Parts(body);
      case RoomMsgKind => ShowRoomMsg(body);
      case ChatKind => chatDisplay := chatDisplay + [body];
    }

    method ShowRoomUsers(users: seq<string>)
      requires Valid()
      modifies groupChatWindows
      ensures View() == WithRoomUsers(old(View()), users)
    {
      var i := FindWindow(currentRoomName);
      if i < |groupChatWindows| {
        ghost var before := Views(groupChatWindows);
        groupChatWindows[i].UpdateUserList(users);
        assert Views(groupChatWindows) == before[i := before[i].(users := users)];
      }
    }

    method ShowRoomMsg(roomMsg: string)
      requires Valid()
      modifies groupChatWindows
      ensures View() == WithRoomLine(old(View()), roomMsg)
    {
      var start := IndexOf(roomMsg, "[") + 1;
      var end := IndexOf(roomMsg, "]");
      if start > 0 && end > start {
        var roomName := Mid(roomMsg, start, end - start);
        AppendIn(roomName, roomMsg);
      }
    }

    method AppendIn(roomName: string, roomMsg: string)
      requires Valid()
      modifies groupChatWindows
      ensures View() == WithRoomMsg(old(View()), roomName, roomMsg)
    {
      var i := FindWindow(roomName);
      if i < |groupChatWindows| {
        ghost var before := Views(groupChatWindows);
        groupChatWindows[i].AppendMessage(roomMsg);
        assert Views(groupChatWindows) == before[i := before[i].(display := before[i].display + [Stripped(roomMsg)])];
      }
    }

    /** The message callback of the connection. */
    method OnMessage(line: string)
      requires Valid()
      modifies this, groupChatWindows
      ensures Valid() && forall w :: w in groupChatWindows ==> w in old(groupChatWindows) || fresh(w)
      ensures View() == OnLine(old(View()), line)
    {
      if Contains(line, JOIN_FAILED) {
        OnRefused(line);
      } else if Contains(line, ROOM_OPEN) && Contains(line, JOIN_DONE) {
        OnJoined(AnnouncedRoom(line), line);
      } else {
        AppendMessage(line);
      }
    }

    /** A refused join: a warning, and the line is shown like any other. */
    method OnRefused(line: string)
      requires Valid()
      modifies this, groupChatWindows
      ensures Valid() && groupChatWindows == old(groupChatWindows)
      ensures View() == Appended(Warned(old(View())), line)
    {
      warnings := warnings + 1;
      assert View() == Warned(old(View()));
      AppendMessage(line);
    }

    /** A confirmed join raises the window of the room, or opens one and shows the line. */
    method OnJoined(roomName: string, line: string)
      requires Valid()
      modifies this, groupChatWindows
      ensures Valid() && forall w :: w in groupChatWindows ==> w in old(groupChatWindows) || fresh(w)
      ensures View() == WithJoined(old(View()), roomName, line)
    {
      var i := FindWindow(roomName);
      if i < |groupChatWindows| {
        return;
      }
      OpenWindow(roomName);
      assert View() == WithWindow(old(View()), roomName);
      AppendMessage(line);
    }

    method OpenWindow(roomName: string)
      requires Valid()
      modifies this`groupChatWindows
      ensures Valid() && |groupChatWindows| == |old(groupChatWindows)| + 1
      ensures groupChatWindows[..|old(groupChatWindows)|] == old(groupChatWindows)
      ensures fresh(groupChatWindows[|old(groupChatWindows)|])
      ensures View() == old(View()).(windows := old(View()).windows + [WindowView(roomName, [], [])])
    {
      var window := new GroupChatWindow(roomName);
      ghost var before := Views(groupChatWindows);
      groupChatWindows := groupChatWindows + [window];
      assert Views(groupChatWindows) == before + [window.View()];
    }
  }

  /** The first window with this title. */
  predicate FirstTitled(windows: seq<WindowView>, title: string, i: nat) {
    i < |windows| && windows[i].title == title && forall j :: 0 <= j < i ==> windows[j].title != title
  }

  /** The users of a room go to the first window of the current room, and nothing else changes. */
  lemma RoomUsersGoToCurrent(v: ClientView, users: seq<string>)
    ensures var w := WithRoomUsers(v, users);
            && w == v.(windows := w.windows) && |w.windows| == |v.windows|
            && forall i :: 0 <= i < |v.windows| ==>
                 w.windows[i] == if FirstTitled(v.windows, v.current, i) then v.windows[i].(users := users) else v.windows[i]
  {
  }

  /** A line is chat exactly if it carries none of the four tags, and then it is shown as it is. */
  lemma ChatKindIff(v: ClientView, line: string)
    ensures KindOf(line) == ChatKind <==>
            !("ROOM_LIST:" <= line) && !("ROOM_USER_LIST:" <= line) && !("USER_LIST:" <= line) && !("ROOM_MSG:" <= line)
    ensures KindOf(line) == ChatKind ==> Appended(v, line) == v.(chat := v.chat + [line])
  {
    assert line[0..] == line;
  }

  /** A text without "]" is shown whole. */
  lemma StrippedWhole(msg: string)
    requires ']' !in msg
    ensures Stripped(msg) == msg
  {
    WithoutCharacter(msg, "]", ']');
  }

  lemma TagsExclude(part: string)
    ensures TagOf(part, "PUBLIC:") == if "PUBLIC:" <= part then [part[7..]] else []
    ensures TagOf(part, "PRIVATE:") == if "PUBLIC:" <= part then [] else if "PRIVATE:" <= part then [part[8..]] else []
  {
    if "PUBLIC:" <= part {
      assert part[1] == "PUBLIC:"[1] != "PRIVATE:"[1];
    }
  }

  lemma KindOfTagged(body: string)
    ensures KindOf("ROOM_LIST:" + body) == RoomListKind && ("ROOM_LIST:" + body)[10..] == body
    ensures KindOf("ROOM_USER_LIST:" + body) == RoomUsersKind && ("ROOM_USER_LIST:" + body)[15..] == body
    ensures KindOf("USER_LIST:" + body) == UsersKind && ("USER_LIST:" + body)[10..] == body
    ensures KindOf("ROOM_MSG:" + body) == RoomMsgKind && ("ROOM_MSG:" + body)[9..] == body
  {
    var a, b, c, d := "ROOM_LIST:" + body, "ROOM_USER_LIST:" + body, "USER_LIST:" + body, "ROOM_MSG:" + body;
    assert "ROOM_LIST:"[5] == 'L' && "ROOM_USER_LIST:"[5] == 'U' && "ROOM_MSG:"[5] == 'M' && "USER_LIST:"[0] == 'U';
    assert a[5] == 'L' && b[5] == 'U' && d[5] == 'M';
    assert a[0] == 'R' && b[0] == 'R' && c[0] == 'U' && d[0] == 'R';
  }

  lemma {:induction false} TaggedConcat(a: seq<string>, b: seq<string>, tag: string)
    ensures Tagged(a + b, tag) == Tagged(a, tag) + Tagged(b, tag)
  {
    if a == [] {
      assert a + b == b;
    } else {
      assert (a + b)[1..] == a[1..] + b;
      TaggedConcat(a[1..], b, tag);
    }
  }

  lemma TaggedSnoc(parts: seq<string>, x: string, tag: string)
    ensures Tagged(parts + [x], tag) == Tagged(parts, tag) + TagOf(x, tag)
  {
    TaggedConcat(parts, [x], tag);
    assert [x][1..] == [];
  }
}
