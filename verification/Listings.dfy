/**
  The listings: what the server prints for ROOM_LIST:, USER_LIST: and ROOM_USER_LIST:, and what the
  client reads back. The exact conditions under which nothing is lost on the way.
 */
module Listings {
  import opened Text
  import opened Keys
  import opened Lists
  import opened ActiveUsers
  import opened ChatRooms
  import opened Machine
  import opened Cascade
  import opened Runs
  import opened Steps
  import opened Commands
  import opened CommandLines
  import opened Framing
  import opened ClientWindow

  /* ----- listings ----- */

  /** A line without spaces is no reply to a join, whatever it lists. */
  lemma ListingIsAppended(v: ClientView, line: string)
    requires ' ' !in line
    ensures OnLine(v, line) == Appended(v, line)
  {
    assert JOIN_FAILED[3] == ' ' && ROOM_OPEN[3] == ' ';
    WithoutCharacter(line, JOIN_FAILED, ' ');
    WithoutCharacter(line, ROOM_OPEN, ' ');
  }

  lemma {:induction false} TaggedLabels(tag: string, names: seq<string>, other: string)
    requires |tag| > 1 && |other| > 1 && tag[1] != other[1]
    ensures Tagged(Labelled(tag, names), tag) == names
    ensures Tagged(Labelled(tag, names), other) == []
    ensures NonEmpty(Labelled(tag, names)) == Labelled(tag, names)
  {
    if names != [] {
      TaggedLabels(tag, names[1..], other);
      var x := tag + names[0];
      assert tag <= x && x[|tag|..] == names[0];
      assert !(other <= x) by {
        assert x[1] == tag[1];
      }
    }
  }

  lemma CommaFreeCons(x: string, rest: seq<string>)
    ensures CommaFree([x] + rest) <==> ',' !in x && CommaFree(rest)
  {
    assert x in [x] + rest;
    assert forall y :: y in rest ==> y in [x] + rest;
  }

  lemma {:induction false} CommaFreeLabels(tag: string, names: seq<string>)
    requires ',' !in tag
    ensures CommaFree(Labelled(tag, names)) <==> CommaFree(names)
  {
    if names != [] {
      CommaFreeLabels(tag, names[1..]);
      CommaFreeCons(tag + names[0], Labelled(tag, names[1..]));
      CommaFreeCons(names[0], names[1..]);
      assert names == [names[0]] + names[1..];
    }
  }

  lemma {:induction false} TaggedIsCommaFree(parts: seq<string>, tag: string)
    requires CommaFree(parts)
    ensures CommaFree(Tagged(parts, tag))
  {
    if parts != [] {
      assert parts[0] in parts;
      TaggedIsCommaFree(parts[1..], tag);
    }
  }

  /** The client's reading of a printed room list gives back both lists exactly when no name holds a comma. */
  lemma RoomListParse(public: seq<string>, private: seq<string>)
    ensures var parts := Parts(Joined(Labelled("PUBLIC:", public) + Labelled("PRIVATE:", private)));
            Tagged(parts, "PUBLIC:") == public && Tagged(parts, "PRIVATE:") == private
            <==> CommaFree(public) && CommaFree(private)
  {
    var a, b := Labelled("PUBLIC:", public), Labelled("PRIVATE:", private);
    var parts := Parts(Joined(a + b));
    if CommaFree(public) && CommaFree(private) {
      CommaFreeLabels("PUBLIC:", public);
      CommaFreeLabels("PRIVATE:", private);
      SplitUndoesJoin(a + b);
      TaggedLabels("PUBLIC:", public, "PRIVATE:");
      TaggedLabels("PRIVATE:", private, "PUBLIC:");
      NonEmptyConcat(a, b);
      TaggedConcat(a, b, "PUBLIC:");
      TaggedConcat(a, b, "PRIVATE:");
    } else {
      NonEmptyMembers(Split(Joined(a + b)));
      assert CommaFree(parts);
      TaggedIsCommaFree(parts, "PUBLIC:");
      TaggedIsCommaFree(parts, "PRIVATE:");
    }
  }

  lemma {:induction false} JoinedHasOnly(items: seq<string>, c: char)
    requires c != ',' && forall x :: x in items ==> c !in x
    ensures c !in Joined(items)
  {
    if items != [] {
      assert items[0] in items;
      JoinedHasOnly(items[1..], c);
    }
  }

  lemma {:induction false} LabelledHasOnly(tag: string, names: seq<string>, c: char)
    requires c !in tag && forall x :: x in names ==> c !in x
    ensures forall x :: x in Labelled(tag, names) ==> c !in x
  {
    if names != [] {
      assert names[0] in names;
      LabelledHasOnly(tag, names[1..], c);
    }
  }

  lemma WordsHaveNoSpace(names: seq<string>)
    requires forall x :: x in names ==> SpaceFree(x)
    ensures forall x :: x in names ==> ' ' !in x && '\n' !in x
  {
  }

  /** The printed room list is one line without spaces when every name is one word. */
  lemma RoomListLine(public: seq<string>, private: seq<string>)
    requires forall x :: x in public || x in private ==> SpaceFree(x)
    ensures var body := Joined(Labelled("PUBLIC:", public) + Labelled("PRIVATE:", private));
            ' ' !in body && '\n' !in body
  {
    WordsHaveNoSpace(public);
    WordsHaveNoSpace(private);
    LabelledHasOnly("PUBLIC:", public, ' ');
    LabelledHasOnly("PRIVATE:", private, ' ');
    LabelledHasOnly("PUBLIC:", public, '\n');
    LabelledHasOnly("PRIVATE:", private, '\n');
    var items := Labelled("PUBLIC:", public) + Labelled("PRIVATE:", private);
    JoinedHasOnly(items, ' ');
    JoinedHasOnly(items, '\n');
  }

  /** What the client makes of a room list line. */
  lemma RoomListShown(v: ClientView, body: string)
    requires ' ' !in body
    ensures OnLine(v, "ROOM_LIST:" + body) == WithRoomLists(v, Parts(body))
  {
    ListingIsAppended(v, "ROOM_LIST:" + body);
    KindOfTagged(body);
  }

  /** The line that answers /list_rooms with these two lists, and what the client shows of it. */
  lemma RoomListReply(public: seq<string>, private: seq<string>, v: ClientView) returns (line: string)
    requires forall x :: x in public || x in private ==> SpaceFree(x)
    ensures line + "\n" == RoomListText(public, private)
    ensures line != "" && '\n' !in line
    ensures OnLine(v, line) == v.(rooms := public, privateRooms := private) <==> CommaFree(public) && CommaFree(private)
  {
    var body := Joined(Labelled("PUBLIC:", public) + Labelled("PRIVATE:", private));
    line := "ROOM_LIST:" + body;
    RoomListLine(public, private);
    RoomListShown(v, body);
    RoomListParse(public, private);
    SameLists(v, Parts(body), public, private);
  }

  lemma SameLists(v: ClientView, parts: seq<string>, public: seq<string>, private: seq<string>)
    ensures WithRoomLists(v, parts) == v.(rooms := public, privateRooms := private)
       <==> Tagged(parts, "PUBLIC:") == public && Tagged(parts, "PRIVATE:") == private
  {
  }

  /** The two lists hold every room once, each in the list it belongs to. */
  ghost predicate PartitionRooms(rooms: Rooms, public: seq<string>, private: seq<string>) {
    && Distinct(public + private)
    && (forall r :: r in public + private <==> r in rooms)
    && (forall r :: r in public ==> !rooms[r].isPrivate)
    && (forall r :: r in private ==> rooms[r].isPrivate)
  }

  lemma RoomListOf(env: Env, s: State, id: Id, v: ClientView)
      returns (public: seq<string>, private: seq<string>, line: string)
    requires RoomsNamed(s.rooms) && Live(s, id) && !env.fails(s.clock + 2, SocketOf(s, id))
    ensures PartitionRooms(s.rooms, public, private)
    ensures OnListRooms(env, s, id).out == s.out + [Sent(SocketOf(s, id), line + "\n")]
    ensures line != "" && '\n' !in line
    ensures OnLine(v, line) == v.(rooms := public, privateRooms := private) <==> forall r :: r in s.rooms ==> ',' !in r
  {
    var order1, order2 := env.order(s.clock, s.rooms.Keys), env.order(s.clock + 1, s.rooms.Keys);
    public, private := Select(s.rooms, order1, Public), Select(s.rooms, order2, Private);
    PublicAndPrivatePartition(s.rooms, order1, order2);
    MembersOfBoth(public, private, s.rooms);
    line := RoomListReply(public, private, v);
    ListRoomsWrites(env, s, id, public, private);
  }

  /**
    The room list round trip in every reachable state, for every line that asks for it. The answer is one
    line, to the asker alone; however it is cut into chunks, the client gets it whole and ends up with the
    public and the private names, in the order printed, exactly when no room name holds a comma; and the
    two lists partition the rooms.
   */
  lemma RoomListRoundTrip(env: Env, events: seq<Event>, s: State, id: Id, asked: string, v: ClientView,
                          chunks: seq<string>)
      returns (public: seq<string>, private: seq<string>, line: string)
    requires s == Run(env, events) && s.up && Live(s, id) && !env.fails(s.clock + 2, SocketOf(s, id))
    requires "/list_rooms" <= asked
    ensures PartitionRooms(s.rooms, public, private)
    ensures var r := Step(env, s, Data(id, asked + "\n"));
            && r.out == s.out + [Sent(SocketOf(s, id), line + "\n")]
            && r.up && r.clients == s.clients && r.users == s.users && r.rooms == s.rooms
    ensures Concat(chunks) == line + "\n" ==> NonEmpty(Frames("", chunks)) == [line]
    ensures OnLine(v, line) == v.(rooms := public, privateRooms := private) <==> forall r :: r in s.rooms ==> ',' !in r
  {
    RunInvariant(env, events);
    public, private, line := RoomListOf(env, s, id, v);
    LineArrivesIf(chunks, line);
    ListRoomsStep(env, s, id, asked);
    ListRoomsLeaves(env, s, id);
  }

  lemma ListRoomsStep(env: Env, s: State, id: Id, asked: string)
    requires s.up && "/list_rooms" <= asked
    ensures Step(env, s, Data(id, asked + "\n")) == OnListRooms(env, s, id)
  {
    ListRoomsIff(asked);
    ChompDropsOneNewline(asked);
    StepParsed(env, s, id, asked + "\n", Command.ListRooms);
  }

  lemma ListRoomsLeaves(env: Env, s: State, id: Id)
    requires Live(s, id) && !env.fails(s.clock + 2, SocketOf(s, id))
    ensures var r := OnListRooms(env, s, id);
            r.up == s.up && r.clients == s.clients && r.users == s.users && r.rooms == s.rooms
  {
  }

  /** If the asker's socket refuses the list, the asker is dropped, and everybody left is told. */
  lemma RoomListRefused(env: Env, s: State, id: Id, asked: string, broken: set<Socket>) returns (lines: seq<string>)
    requires Connected(s) && s.up && Live(s, id) && env.fails(s.clock + 2, SocketOf(s, id)) && "/list_rooms" <= asked
    requires Stable(env, Without(s, id).(clock := s.clock + 3), Step(env, s, Data(id, asked + "\n")).clock, broken)
    ensures EverybodyTold(Without(s, id).(clock := s.clock + 3), Step(env, s, Data(id, asked + "\n")), broken, lines)
    ensures Step(env, s, Data(id, asked + "\n")).up
  {
    var t := Without(s, id).(clock := s.clock + 3);
    ListRoomsStep(env, s, id, asked);
    Shrunk(s, t, {id});
    DroppedAfterRefusal(env, s, id);
    lines := BroadcastTheorem(env, t, broken);
  }

  lemma DroppedAfterRefusal(env: Env, s: State, id: Id)
    requires Live(s, id) && env.fails(s.clock + 2, SocketOf(s, id))
    ensures OnListRooms(env, s, id) == Broadcast(env, Without(s, id).(clock := s.clock + 3))
  {
    var t := Ticked(Ticked(s));
    ReplyOrDropCases(env, t, id, RoomListNow(env, s));
    assert Erased(Ticked(t), id) == Without(s, id).(clock := s.clock + 3);
  }

  lemma LineArrivesIf(chunks: seq<string>, line: string)
    requires '\n' !in line && line != ""
    ensures Concat(chunks) == line + "\n" ==> NonEmpty(Frames("", chunks)) == [line]
  {
    if Concat(chunks) == line + "\n" {
      LineArrives(chunks, line);
    }
  }

  lemma MembersOfBoth(public: seq<string>, private: seq<string>, rooms: Rooms)
    requires forall r :: r in public + private <==> r in rooms
    requires RoomsNamed(rooms)
    ensures CommaFree(public) && CommaFree(private) <==> forall r :: r in rooms ==> ',' !in r
    ensures forall x :: x in public || x in private ==> SpaceFree(x)
  {
    assert forall r :: r in public || r in private <==> r in public + private;
  }

  /** A single line with its newline is handed over whole, however it is cut into chunks. */
  lemma LineArrives(chunks: seq<string>, line: string)
    requires '\n' !in line && line != "" && Concat(chunks) == line + "\n"
    ensures NonEmpty(Frames("", chunks)) == [line]
  {
    assert "" + Concat(chunks) == line + "\n" + "";
    OneLineArrives("", chunks, line, "");
  }

  lemma ListRoomsWrites(env: Env, s: State, id: Id, public: seq<string>, private: seq<string>)
    requires Live(s, id) && !env.fails(s.clock + 2, SocketOf(s, id))
    requires public == Select(s.rooms, env.order(s.clock, s.rooms.Keys), Public)
    requires private == Select(s.rooms, env.order(s.clock + 1, s.rooms.Keys), Private)
    ensures OnListRooms(env, s, id).out == s.out + [Sent(SocketOf(s, id), RoomListText(public, private))]
  {
  }

  /* ----- user lists ----- */

  function ActiveOf(users: Users, order: seq<Id>): set<Id> {
    set k | k in order && k in users
  }

  lemma ActiveStep(users: Users, order: seq<Id>)
    requires order != [] && Distinct(order)
    ensures order[0] !in ActiveOf(users, order[1..])
    ensures ActiveOf(users, order) == ActiveOf(users, order[1..]) + if order[0] in users then {order[0]} else {}
  {
    assert order == [order[0]] + order[1..];
    assert order[0] !in order[1..];
  }

  lemma {:induction false} NamesCount(users: Users, order: seq<Id>)
    requires Distinct(order)
    ensures |NamesOf(users, order)| == |ActiveOf(users, order)|
  {
    if order != [] {
      ActiveStep(users, order);
      NamesCount(users, order[1..]);
    }
  }

  /**
    Reading back a printed USER_LIST: line, without its tag and its newline, gives exactly the non-empty
    nicknames, in the order printed, if and only if no nickname holds a comma. Before the empty ones are
    skipped there is one per user.
   */
  lemma UserListRoundTrip(users: Users, order: seq<Id>, line: string)
    requires Enumerates(order, users.Keys) && line + "\n" == UserListText(users, order)
    ensures KindOf(line) == UsersKind
    ensures Parts(line[10..]) == NonEmpty(NamesOf(users, order)) <==> forall k :: k in users ==> ',' !in users[k]
    ensures |NamesOf(users, order)| == |users|
  {
    var body := Joined(NamesOf(users, order));
    assert line == "USER_LIST:" + body by {
      assert (line + "\n")[..|line|] == ("USER_LIST:" + body + "\n")[..|line|];
    }
    KindOfTagged(body);
    SplitUndoesJoin(NamesOf(users, order));
    NamesMembers(users, order);
    NamesCount(users, order);
    assert ActiveOf(users, order) == users.Keys;
  }

  lemma {:induction false} NamesMembers(users: Users, order: seq<Id>)
    ensures forall x :: x in NamesOf(users, order) ==> exists k :: k in order && k in users && users[k] == x
    ensures forall k :: k in order && k in users ==> users[k] in NamesOf(users, order)
  {
    if order != [] {
      NamesMembers(users, order[1..]);
      assert order == [order[0]] + order[1..];
      forall x | x in NamesOf(users, order) ensures exists k :: k in order && k in users && users[k] == x {
        if x in NamesOf(users, order[1..]) {
          var k :| k in order[1..] && k in users && users[k] == x;
          assert k in order;
        } else {
          assert order[0] in order;
        }
      }
    }
  }

  /**
    The same for ROOM_USER_LIST: in every reachable state: one nickname for each member with a live
    connection, and the client recovers the non-empty ones if and only if none of them holds a comma.
   */
  lemma RoomUsersRoundTrip(env: Env, events: seq<Event>, room: string, order: seq<Id>)
    requires room in Run(env, events).rooms
    requires Enumerates(order, Run(env, events).rooms[room].members)
    ensures var s := Run(env, events);
            var live := set k | k in s.rooms[room].members && Live(s, k);
            && |NamesOf(s.users, order)| == |live|
            && live <= s.users.Keys
            && (Parts(Joined(NamesOf(s.users, order))) == NonEmpty(NamesOf(s.users, order))
                <==> forall k :: k in live && k in s.users ==> ',' !in s.users[k])
  {
    var s := Run(env, events);
    RunInvariant(env, events);
    SplitUndoesJoin(NamesOf(s.users, order));
    NamesMembers(s.users, order);
    NamesCount(s.users, order);
    assert ActiveOf(s.users, order) == set k | k in s.rooms[room].members && Live(s, k);
  }

  /**
    The answer to a line that asks for the users of a room, in every reachable state: one line, to the
    asking client, whose body the client reads back as the non-empty nicknames of the connected members,
    in the order printed, if and only if none of them holds a comma. For no room there is no answer.
   */
  lemma RoomUsersAnswered(env: Env, events: seq<Event>, s: State, id: Id, data: string, room: string)
      returns (order: seq<Id>, body: string)
    requires s == Run(env, events) && s.up && Parse(data) == RoomUsers(room)
    ensures room !in s.rooms ==> Step(env, s, Data(id, data)) == s
    ensures room in s.rooms ==>
              && Answered(env, s, Step(env, s, Data(id, data)), id, s.clock + 1, "ROOM_USER_LIST:" + body + "\n")
              && Step(env, s, Data(id, data)).rooms == s.rooms
              && Enumerates(order, s.rooms[room].members)
              && (Parts(body) == NonEmpty(NamesOf(s.users, order)) <==>
                  forall k :: k in s.rooms[room].members && k in s.users ==> ',' !in s.users[k])
  {
    order := RoomUsersStep(env, s, id, data, room);
    body := Joined(NamesOf(s.users, order));
    RunInvariant(env, events);
    if room in s.rooms {
      RoomUsersRoundTrip(env, events, room, order);
    }
  }

  /** The line passes for the confirmation of a join whose window is open already, and goes no further. */
  predicate Swallowed(v: ClientView, line: string) {
    Announces(line) && WindowAt(v.windows, AnnouncedRoom(line)) < |v.windows|
  }

  /** What the callback does before it appends a line it does not swallow. */
  function Heeded(v: ClientView, line: string): ClientView {
    if Contains(line, JOIN_FAILED) then Warned(v)
    else if Announces(line) then WithWindow(v, AnnouncedRoom(line))
    else v
  }

  lemma LineShown(v: ClientView, line: string)
    ensures OnLine(v, line) == if Swallowed(v, line) then v else Appended(Heeded(v, line), line)
  {
  }

  /**
    What the client shows of the two user lists: the parsed body, in the user list or in the window of
    the current room, and nothing else, unless a nickname makes the line pass for an answer to a join:
    then there is a warning, or a window is opened first, or, if it is open already, the list is lost.
   */
  lemma UserListsShown(v: ClientView, body: string)
    ensures var line := "USER_LIST:" + body;
            OnLine(v, line) == if Swallowed(v, line) then v else Heeded(v, line).(users := Parts(body))
    ensures var line := "ROOM_USER_LIST:" + body;
            OnLine(v, line) == if Swallowed(v, line) then v else WithRoomUsers(Heeded(v, line), Parts(body))
  {
    LineShown(v, "USER_LIST:" + body);
    LineShown(v, "ROOM_USER_LIST:" + body);
    UsersAppended(Heeded(v, "USER_LIST:" + body), body);
    UsersAppended(Heeded(v, "ROOM_USER_LIST:" + body), body);
  }

  lemma UsersAppended(v: ClientView, body: string)
    ensures Appended(v, "USER_LIST:" + body) == v.(users := Parts(body))
    ensures Appended(v, "ROOM_USER_LIST:" + body) == WithRoomUsers(v, Parts(body))
  {
    KindOfTagged(body);
  }
}
