/** The store of chat rooms (src/common/chat_room.cpp). */
module ChatRooms {
  import opened Text
  import opened Keys

  datatype ChatRoomInfo = ChatRoomInfo(name: string, members: set<string>, isPrivate: bool, password: string)

  type Rooms = map<string, ChatRoomInfo>

  /* ----- what the commands do to the store ----- */

  function Created(rooms: Rooms, name: string, isPrivate: bool, password: string): Rooms {
    if name in rooms then rooms else rooms[name := ChatRoomInfo(name, {}, isPrivate, password)]
  }

  /** The room lets in anyone if it is public, and otherwise whoever gives its password. */
  predicate Admits(room: ChatRoomInfo, password: string) {
    room.isPrivate ==> room.password == password
  }

  predicate CanJoin(rooms: Rooms, name: string, user: string, password: string) {
    name in rooms && Admits(rooms[name], password) && user !in rooms[name].members
  }

  predicate IsMember(rooms: Rooms, name: string, user: string) {
    name in rooms && user in rooms[name].members
  }

  function WithMembers(rooms: Rooms, name: string, members: set<string>): Rooms
    requires name in rooms
  {
    rooms[name := rooms[name].(members := members)]
  }

  function AfterJoin(rooms: Rooms, name: string, user: string, password: string): Rooms {
    if CanJoin(rooms, name, user, password) then WithMembers(rooms, name, rooms[name].members + {user}) else rooms
  }

  function AfterLeave(rooms: Rooms, name: string, user: string): Rooms {
    if IsMember(rooms, name, user) then WithMembers(rooms, name, rooms[name].members - {user}) else rooms
  }

  /* ----- queries ----- */

  datatype Query = Every | Public | Private | Having(user: string)

  predicate Matches(room: ChatRoomInfo, q: Query) {
    match q
    case Every => true
    case Public => !room.isPrivate
    case Private => room.isPrivate
    case Having(user) => user in room.members
  }

  /** The keys of the matching rooms, in traversal order. */
  function Select(rooms: Rooms, order: seq<string>, q: Query): seq<string> {
    if order == [] then []
    else
      (if order[0] in rooms && Matches(rooms[order[0]], q) then [order[0]] else []) + Select(rooms, order[1..], q)
  }

  lemma {:induction false} SelectConcat(rooms: Rooms, a: seq<string>, b: seq<string>, q: Query)
    ensures Select(rooms, a + b, q) == Select(rooms, a, q) + Select(rooms, b, q)
  {
    if a == [] {
      assert a + b == b;
    } else {
      assert (a + b)[1..] == a[1..] + b;
      SelectConcat(rooms, a[1..], b, q);
    }
  }

  lemma {:induction false} SelectIsExact(rooms: Rooms, order: seq<string>, q: Query)
    requires Distinct(order)
    ensures Distinct(Select(rooms, order, q))
    ensures forall r :: r in Select(rooms, order, q) <==> r in order && r in rooms && Matches(rooms[r], q)
  {
    if order != [] {
      SelectIsExact(rooms, order[1..], q);
      assert order[0] !in order[1..];
    }
  }

  /** The public and the private listing partition the rooms, whatever order each traversal takes. */
  lemma PublicAndPrivatePartition(rooms: Rooms, order1: seq<string>, order2: seq<string>)
    requires Enumerates(order1, rooms.Keys) && Enumerates(order2, rooms.Keys)
    ensures Distinct(Select(rooms, order1, Public) + Select(rooms, order2, Private))
    ensures forall r :: r in Select(rooms, order1, Public) + Select(rooms, order2, Private) <==> r in rooms
    ensures forall r :: r in Select(rooms, order1, Public) ==> !rooms[r].isPrivate
    ensures forall r :: r in Select(rooms, order2, Private) ==> rooms[r].isPrivate
  {
    SelectIsExact(rooms, order1, Public);
    SelectIsExact(rooms, order2, Private);
    var a, b := Select(rooms, order1, Public), Select(rooms, order2, Private);
    forall i, j | 0 <= i < j < |a + b| ensures (a + b)[i] != (a + b)[j] {
      if i < |a| <= j {
        assert a[i] in a && b[j - |a|] in b;
      }
    }
  }

  /* ----- histories of the store ----- */

  datatype RoomOp =
    | Create(name: string, isPrivate: bool, password: string)
    | Delete(name: string)
    | Join(name: string, user: string, password: string)
    | Leave(name: string, user: string)

  function Apply(rooms: Rooms, op: RoomOp): Rooms {
    match op
    case Create(name, isPrivate, password) => Created(rooms, name, isPrivate, password)
    case Delete(name) => rooms - {name}
    case Join(name, user, password) => AfterJoin(rooms, name, user, password)
    case Leave(name, user) => AfterLeave(rooms, name, user)
  }

  function ApplyAll(ops: seq<RoomOp>): Rooms {
    if ops == [] then map[] else Apply(ApplyAll(ops[..|ops| - 1]), ops[|ops| - 1])
  }

  predicate CreateAt(ops: seq<RoomOp>, i: nat, name: string) {
    i < |ops| && ops[i].Create? && ops[i].name == name
  }

  predicate DeleteAt(ops: seq<RoomOp>, i: nat, name: string) {
    i < |ops| && ops[i] == Delete(name)
  }

  predicate LeaveAt(ops: seq<RoomOp>, i: nat, name: string, user: string) {
    i < |ops| && ops[i] == Leave(name, user)
  }

  /** The name is free before position i: every earlier creation was followed by a deletion. */
  ghost predicate FreeBefore(ops: seq<RoomOp>, i: nat, name: string) {
    forall b: nat :: b < i && CreateAt(ops, b, name) ==> exists d: nat :: b < d < i && DeleteAt(ops, d, name)
  }

  /** Operation c made the room that stands before position end: the first creation after the last deletion. */
  ghost predicate StandsFrom(ops: seq<RoomOp>, end: nat, name: string, c: nat) {
    && c < end && CreateAt(ops, c, name) && FreeBefore(ops, c, name)
    && forall d: nat :: c < d < end ==> !DeleteAt(ops, d, name)
  }

  /** Operation i asks to let the user into a room that stands, and gives its password if it is private. */
  ghost predicate AdmittedAt(ops: seq<RoomOp>, i: nat, name: string, user: string) {
    && i < |ops| && ops[i].Join? && ops[i].name == name && ops[i].user == user
    && exists c: nat :: StandsFrom(ops, i, name, c) && (ops[c].isPrivate ==> ops[c].password == ops[i].password)
  }

  /** The user's last admitted join comes after every leave of the user and every deletion of the room. */
  ghost predicate JoinedLast(ops: seq<RoomOp>, name: string, user: string) {
    exists i: nat :: JoinedAt(ops, i, name, user)
  }

  ghost predicate JoinedAt(ops: seq<RoomOp>, i: nat, name: string, user: string) {
    && AdmittedAt(ops, i, name, user)
    && forall j: nat :: i < j < |ops| ==> !LeaveAt(ops, j, name, user) && !DeleteAt(ops, j, name)
  }

  /* Positions up to n mean the same in the first n operations. */

  lemma FreeInPrefix(ops: seq<RoomOp>, n: nat, i: nat, name: string)
    requires i <= n <= |ops|
    ensures FreeBefore(ops[..n], i, name) <==> FreeBefore(ops, i, name)
  {
    assert forall j: nat :: j < n ==> (CreateAt(ops[..n], j, name) <==> CreateAt(ops, j, name));
    assert forall j: nat :: j < n ==> (DeleteAt(ops[..n], j, name) <==> DeleteAt(ops, j, name));
  }

  lemma StandsInPrefix(ops: seq<RoomOp>, n: nat, end: nat, name: string, c: nat)
    requires end <= n <= |ops|
    ensures StandsFrom(ops[..n], end, name, c) <==> StandsFrom(ops, end, name, c)
  {
    if c < end {
      FreeInPrefix(ops, n, c, name);
      assert forall j: nat :: j < n ==> (DeleteAt(ops[..n], j, name) <==> DeleteAt(ops, j, name));
    }
  }

  lemma AdmittedInPrefix(ops: seq<RoomOp>, n: nat, i: nat, name: string, user: string)
    requires i < n <= |ops|
    ensures AdmittedAt(ops[..n], i, name, user) <==> AdmittedAt(ops, i, name, user)
  {
    forall c: nat ensures StandsFrom(ops[..n], i, name, c) <==> StandsFrom(ops, i, name, c) {
      StandsInPrefix(ops, n, i, name, c);
    }
  }

  /** One more operation: what stands afterwards. */
  lemma StandsStep(ops: seq<RoomOp>, name: string, c: nat)
    requires ops != []
    ensures var n := |ops| - 1;
            StandsFrom(ops, |ops|, name, c) <==>
            if c == n then CreateAt(ops, n, name) && FreeBefore(ops, n, name)
            else StandsFrom(ops[..n], n, name, c) && !DeleteAt(ops, n, name)
  {
    StandsInPrefix(ops, |ops| - 1, |ops| - 1, name, c);
  }

  ghost predicate Taken(ops: seq<RoomOp>, end: nat, name: string) {
    exists c: nat :: StandsFrom(ops, end, name, c)
  }

  /** A name is taken exactly when it is not free. */
  lemma {:induction false} TakenIff(ops: seq<RoomOp>, end: nat, name: string)
    requires end <= |ops|
    ensures Taken(ops, end, name) <==> !FreeBefore(ops, end, name)
  {
    if end > 0 && !FreeBefore(ops, end, name) {
      var n := end - 1;
      TakenIff(ops, n, name);
      assert !DeleteAt(ops, n, name);
      if FreeBefore(ops, n, name) {
        assert CreateAt(ops, n, name);
        assert StandsFrom(ops, end, name, n);
      } else {
        var c: nat :| StandsFrom(ops, n, name, c);
        assert StandsFrom(ops, end, name, c);
      }
    }
  }

  /** Creation c, if it stands, made the room there is. */
  ghost predicate MadeBy(ops: seq<RoomOp>, c: nat, name: string)
    requires c < |ops| && ops[c].Create?
  {
    && name in ApplyAll(ops)
    && var room := ApplyAll(ops)[name];
       room.name == name && room.isPrivate == ops[c].isPrivate && room.password == ops[c].password
  }

  /** The store is a function of its history: which rooms exist, and on whose terms. */
  lemma {:induction false} RoomsAreCreations(ops: seq<RoomOp>, name: string)
    ensures name in ApplyAll(ops) <==> Taken(ops, |ops|, name)
    ensures forall c: nat :: StandsFrom(ops, |ops|, name, c) ==> MadeBy(ops, c, name)
  {
    if ops != [] {
      var n := |ops| - 1;
      RoomsAreCreations(ops[..n], name);
      RoomAfterOp(ApplyAll(ops[..n]), ops[n], name);
      TakenIff(ops[..n], n, name);
      FreeInPrefix(ops, n, n, name);
      forall c: nat | StandsFrom(ops, |ops|, name, c) ensures MadeBy(ops, c, name) {
        StandsStep(ops, name, c);
      }
      if name in ApplyAll(ops) {
        StillTaken(ops, name);
      }
    }
  }

  lemma StillTaken(ops: seq<RoomOp>, name: string)
    requires ops != [] && name in ApplyAll(ops)
    requires name in ApplyAll(ops[..|ops| - 1]) <==> Taken(ops[..|ops| - 1], |ops| - 1, name)
    ensures Taken(ops, |ops|, name)
  {
    var n := |ops| - 1;
    RoomAfterOp(ApplyAll(ops[..n]), ops[n], name);
    if name in ApplyAll(ops[..n]) {
      var c: nat :| StandsFrom(ops[..n], n, name, c);
      StandsStep(ops, name, c);
    } else {
      TakenIff(ops[..n], n, name);
      FreeInPrefix(ops, n, n, name);
      StandsStep(ops, name, n);
    }
  }

  /** What one operation does to the room of this name. */
  lemma RoomAfterOp(rooms: Rooms, op: RoomOp, name: string)
    ensures var after := Apply(rooms, op);
            && (name in after <==> (name in rooms && op != Delete(name)) || (op.Create? && op.name == name))
            && (name in rooms && name in after ==>
                  && after[name].name == rooms[name].name && after[name].isPrivate == rooms[name].isPrivate
                  && after[name].password == rooms[name].password)
            && (name !in rooms && name in after ==>
                  after[name] == ChatRoomInfo(name, {}, op.isPrivate, op.password))
  {
  }

  lemma MemberAfterOp(rooms: Rooms, op: RoomOp, name: string, user: string)
    ensures IsMember(Apply(rooms, op), name, user) <==>
            || (IsMember(rooms, name, user) && op != Delete(name) && op != Leave(name, user))
            || (op.Join? && op.name == name && op.user == user && name in rooms && Admits(rooms[name], op.password))
  {
  }

  /** The last operation, if it is a join, lets the user in exactly when the store before it does. */
  lemma AdmittedByStore(ops: seq<RoomOp>, name: string, user: string)
    requires ops != []
    ensures var n := |ops| - 1;
            AdmittedAt(ops, n, name, user) <==>
            && ops[n].Join? && ops[n].name == name && ops[n].user == user
            && name in ApplyAll(ops[..n]) && Admits(ApplyAll(ops[..n])[name], ops[n].password)
  {
    var n := |ops| - 1;
    RoomsAreCreations(ops[..n], name);
    forall c: nat ensures StandsFrom(ops[..n], n, name, c) <==> StandsFrom(ops, n, name, c) {
      StandsInPrefix(ops, n, n, name, c);
    }
  }

  lemma JoinedStep(ops: seq<RoomOp>, i: nat, name: string, user: string)
    requires i < |ops|
    ensures var n := |ops| - 1;
            JoinedAt(ops, i, name, user) <==>
            if i == n then AdmittedAt(ops, n, name, user)
            else JoinedAt(ops[..n], i, name, user) && !LeaveAt(ops, n, name, user) && !DeleteAt(ops, n, name)
  {
    var n := |ops| - 1;
    if i < n {
      AdmittedInPrefix(ops, n, i, name, user);
      assert forall j: nat :: j < n ==> (DeleteAt(ops[..n], j, name) <==> DeleteAt(ops, j, name));
      assert forall j: nat :: j < n ==> (LeaveAt(ops[..n], j, name, user) <==> LeaveAt(ops, j, name, user));
    }
  }

  lemma JoinedLastStep(ops: seq<RoomOp>, name: string, user: string)
    requires ops != []
    ensures var n := |ops| - 1;
            JoinedLast(ops, name, user) <==>
            || AdmittedAt(ops, n, name, user)
            || (JoinedLast(ops[..n], name, user) && !LeaveAt(ops, n, name, user) && !DeleteAt(ops, n, name))
  {
    var n := |ops| - 1;
    if i: nat :| JoinedAt(ops, i, name, user) {
      JoinedStep(ops, i, name, user);
    }
    if i: nat :| JoinedAt(ops[..n], i, name, user) {
      JoinedStep(ops, i, name, user);
    }
    JoinedStep(ops, n, name, user);
  }

  /** Membership is a function of the history: a member is whose last admitted join was not undone. */
  lemma {:induction false} MembersAreJoins(ops: seq<RoomOp>, name: string, user: string)
    ensures IsMember(ApplyAll(ops), name, user) <==> JoinedLast(ops, name, user)
  {
    if ops != [] {
      var n := |ops| - 1;
      MembersAreJoins(ops[..n], name, user);
      MemberAfterOp(ApplyAll(ops[..n]), ops[n], name, user);
      JoinedLastStep(ops, name, user);
      AdmittedByStore(ops, name, user);
    }
  }

  /** The store is a function of its history: which rooms exist, on what terms, and who is in them. */
  lemma StoreIsHistory(ops: seq<RoomOp>, name: string, user: string)
    ensures name in ApplyAll(ops) <==> Taken(ops, |ops|, name)
    ensures forall c: nat :: StandsFrom(ops, |ops|, name, c) ==> MadeBy(ops, c, name)
    ensures IsMember(ApplyAll(ops), name, user) <==> JoinedLast(ops, name, user)
  {
    RoomsAreCreations(ops, name);
    MembersAreJoins(ops, name, user);
  }

  /** getUserRooms inverts membership after any history, listing each room once under its own name. */
  lemma UserRoomsInvertMembership(ops: seq<RoomOp>, order: seq<string>, user: string)
    requires Enumerates(order, ApplyAll(ops).Keys)
    ensures Distinct(Select(ApplyAll(ops), order, Having(user)))
    ensures forall r :: r in Select(ApplyAll(ops), order, Having(user)) <==> JoinedLast(ops, r, user)
    ensures forall r :: r in ApplyAll(ops) ==> ApplyAll(ops)[r].name == r
  {
    SelectIsExact(ApplyAll(ops), order, Having(user));
    forall r ensures IsMember(ApplyAll(ops), r, user) <==> JoinedLast(ops, r, user) {
      MembersAreJoins(ops, r, user);
    }
    forall r | r in ApplyAll(ops) ensures ApplyAll(ops)[r].name == r {
      RoomsAreCreations(ops, r);
    }
  }

  class ChatRoomManager {
    var rooms: Rooms

    constructor ()
      ensures rooms == map[]
    {
      rooms := map[];
    }

    method CreateRoom(roomName: string, isPrivate: bool, password: string) returns (created: bool)
      modifies this
      ensures created <==> roomName !in old(rooms)
      ensures rooms == Created(old(rooms), roomName, isPrivate, password)
    {
      if roomName in rooms {
        return false;
      }
      var newRoom := ChatRoomInfo(roomName, {}, isPrivate, password);
      rooms := rooms[roomName := newRoom];
      return true;
    }

    method DeleteRoom(roomName: string) returns (deleted: bool)
      modifies this
      ensures deleted <==> roomName in old(rooms)
      ensures rooms == old(rooms) - {roomName}
    {
      deleted := roomName in rooms;
      rooms := rooms - {roomName};
    }

    method JoinRoom(roomName: string, userId: string, password: string) returns (joined: bool)
      modifies this
      ensures joined <==> CanJoin(old(rooms), roomName, userId, password)
      ensures rooms == AfterJoin(old(rooms), roomName, userId, password)
    {
      if roomName !in rooms {
        return false;
      }
      var room := rooms[roomName];
      if room.isPrivate {
        if room.password != password {
          return false;
        }
      }
      if userId in room.members {
        return false;
      }
      rooms := rooms[roomName := room.(members := room.members + {userId})];
      return true;
    }

    method LeaveRoom(roomName: string, userId: string) returns (left: bool)
      modifies this
      ensures left <==> IsMember(old(rooms), roomName, userId)
      ensures rooms == AfterLeave(old(rooms), roomName, userId)
    {
      if roomName !in rooms {
        return false;
      }
      var room := rooms[roomName];
      if userId !in room.members {
        return false;
      }
      rooms := rooms[roomName := room.(members := room.members - {userId})];
      return true;
    }

    method GetRoomInfo(roomName: string) returns (info: Option<ChatRoomInfo>)
      ensures info == if roomName in rooms then Some(rooms[roomName]) else None
    {
      if roomName !in rooms {
        return None;
      }
      return Some(rooms[roomName]);
    }

    /** getUserRooms; `order` is the order in which the hash table is traversed. */
    method GetUserRooms(userId: string, order: seq<string>) returns (names: seq<string>)
      requires Enumerates(order, rooms.Keys)
      ensures names == Select(rooms, order, Having(userId))
      ensures Distinct(names)
      ensures forall r :: r in names <==> IsMember(rooms, r, userId)
    {
      names := [];
      for i := 0 to |order|
        invariant names == Select(rooms, order[..i], Having(userId))
      {
        assert order[..i + 1] == order[..i] + [order[i]];
        SelectConcat(rooms, order[..i], [order[i]], Having(userId));
        if userId in rooms[order[i]].members {
          names := names + [order[i]];
        }
      }
      assert order[..|order|] == order;
      SelectIsExact(rooms, order, Having(userId));
    }

    method GetAllRooms(order: seq<string>) returns (names: seq<string>)
      requires Enumerates(order, rooms.Keys)
      ensures names == Select(rooms, order, Every)
      ensures Enumerates(names, rooms.Keys)
    {
      names := [];
      for i := 0 to |order|
        invariant names == Select(rooms, order[..i], Every)
      {
        assert order[..i + 1] == order[..i] + [order[i]];
        SelectConcat(rooms, order[..i], [order[i]], Every);
        names := names + [order[i]];
      }
      assert order[..|order|] == order;
      SelectIsExact(rooms, order, Every);
    }

    method GetPublicRooms(order: seq<string>) returns (names: seq<string>)
      requires Enumerates(order, rooms.Keys)
      ensures names == Select(rooms, order, Public)
    {
      names := [];
      for i := 0 to |order|
        invariant names == Select(rooms, order[..i], Public)
      {
        assert order[..i + 1] == order[..i] + [order[i]];
        SelectConcat(rooms, order[..i], [order[i]], Public);
        if !rooms[order[i]].isPrivate {
          names := names + [order[i]];
        }
      }
      assert order[..|order|] == order;
    }

    method GetPrivateRooms(order: seq<string>) returns (names: seq<string>)
      requires Enumerates(order, rooms.Keys)
      ensures names == Select(rooms, order, Private)
    {
      names := [];
      for i := 0 to |order|
        invariant names == Select(rooms, order[..i], Private)
      {
        assert order[..i + 1] == order[..i] + [order[i]];
        SelectConcat(rooms, order[..i], [order[i]], Private);
        if rooms[order[i]].isPrivate {
          names := names + [order[i]];
        }
      }
      assert order[..|order|] == order;
    }
  }
}
