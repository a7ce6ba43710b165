/**
  What holds over whole runs of the server, for every environment and every sequence of accepts,
  lines and read errors, late ones included.
 */
module Runs {
  import opened Text
  import opened Keys
  import opened ActiveUsers
  import opened ChatRooms
  import opened Commands
  import opened CommandLines
  import opened Machine
  import opened Cascade

  /* ----- connections ----- */

  /** Users may have gone, but nobody was renamed. */
  ghost predicate NicknamesKept(before: Users, after: Users) {
    forall k :: k in after ==> k in before && after[k] == before[k]
  }

  lemma {:induction false} LoopKeeps(env: Env, s: State, text: string, c: Cursor)
    requires Connected(s)
    ensures Connected(SendToAll(env, s, text, c)) && s.out <= SendToAll(env, s, text, c).out
    ensures NicknamesKept(s.users, SendToAll(env, s, text, c).users)
    decreases |s.clients.Keys|, 1, |Ahead(s.clients.Keys, c)|
  {
    if Ahead(s.clients.Keys, c) != {} {
      var k := Least(Ahead(s.clients.Keys, c));
      AheadStep(s.clients.Keys, c);
      LoopStep(env, s, text, c);
      if !Live(s, k) {
        LoopKeeps(env, s, text, At(k));
      } else if env.fails(s.clock, SocketOf(s, k)) {
        LoopKeepsAfterDrop(env, s, text, c);
      } else {
        WriteKeeps(s, {}, SocketOf(s, k), text);
        LoopKeeps(env, Written(s, SocketOf(s, k), text), text, At(k));
      }
    }
  }

  lemma {:induction false} LoopKeepsAfterDrop(env: Env, s: State, text: string, c: Cursor)
    requires Connected(s) && Ahead(s.clients.Keys, c) != {}
    requires var k := Least(Ahead(s.clients.Keys, c)); Live(s, k) && env.fails(s.clock, SocketOf(s, k))
    ensures Connected(SendToAll(env, s, text, c)) && s.out <= SendToAll(env, s, text, c).out
    ensures NicknamesKept(s.users, SendToAll(env, s, text, c).users)
    decreases |s.clients.Keys|, 1, 0
  {
    var k := Least(Ahead(s.clients.Keys, c));
    var s1 := Disconnect(env, Ticked(s), k);
    TickKeeps(s, {});
    DisconnectKeeps(env, Ticked(s), k);
    assert s1.clients.Keys <= s.clients.Keys - {k};
    SubsetSize(s1.clients.Keys, s.clients.Keys);
    LoopKeeps(env, s1, text, At(k));
    LoopStep(env, s, text, c);
  }

  lemma {:induction false} DisconnectKeeps(env: Env, s: State, id: Id)
    requires Connected(s)
    ensures Connected(Disconnect(env, s, id)) && s.out <= Disconnect(env, s, id).out
    ensures NicknamesKept(s.users, Disconnect(env, s, id).users)
    decreases |s.clients.Keys|, 0, 0
  {
    if id in s.clients {
      Shrunk(s, Erased(s, id), {id});
      Fewer(s.clients, {id});
      BroadcastKeeps(env, Erased(s, id));
    }
  }

  lemma {:induction false} BroadcastKeeps(env: Env, s: State)
    requires Connected(s)
    ensures Connected(Broadcast(env, s)) && s.out <= Broadcast(env, s).out
    ensures NicknamesKept(s.users, Broadcast(env, s).users)
    decreases |s.clients.Keys|, 2, 0
  {
    TickKeeps(s, {});
    LoopKeeps(env, Ticked(s), UserListText(s.users, env.order(s.clock, s.users.Keys)), Begin);
  }

  /* ----- how often everybody is told, whatever fails and when ----- */

  /** Entries have only gone; what is still there is as it was. */
  ghost predicate OnlyDropped(s: State, r: State) {
    forall k :: k in r.clients ==> k in s.clients && r.clients[k] == s.clients[k]
  }

  /** Between s and r, k was sent n texts, and one more for every client dropped. */
  ghost predicate Heard(s: State, r: State, k: Id, n: int)
    requires Live(r, k)
  {
    |Received(r.out, SocketOf(r, k))| ==
    |Received(s.out, SocketOf(r, k))| + n + |s.clients.Keys| - |r.clients.Keys|
  }

  function Turns(c: Cursor, k: Id): int {
    if k in Ahead({k}, c) then 1 else 0
  }

  lemma TurnsStep(keys: set<Id>, c: Cursor, k: Id)
    requires Ahead(keys, c) != {} && k in keys
    ensures var k0 := Least(Ahead(keys, c));
            Turns(c, k) == (if k == k0 then 1 else 0) + Turns(At(k0), k)
  {
    AheadStep(keys, c);
    var k0 := Least(Ahead(keys, c));
    assert k in Ahead({k}, c) <==> k in Ahead(keys, c);
    assert k in Ahead({k}, At(k0)) <==> k in Ahead(keys, At(k0));
  }

  /** One failed write at k0: the nested broadcast has told everybody once for each client gone by then. */
  lemma HeardAfterDrop(s: State, s1: State, r: State, c: Cursor)
    requires Ahead(s.clients.Keys, c) != {}
    requires OnlyDropped(s, s1) && OnlyDropped(s1, r) && Least(Ahead(s.clients.Keys, c)) !in s1.clients
    requires forall k :: Live(s1, k) ==> Heard(s, s1, k, 0)
    requires forall k :: Live(r, k) ==> Heard(s1, r, k, Turns(At(Least(Ahead(s.clients.Keys, c))), k))
    ensures forall k :: Live(r, k) ==> Heard(s, r, k, Turns(c, k))
  {
    forall k | Live(r, k) ensures Heard(s, r, k, Turns(c, k)) {
      assert Live(s1, k);
      assert Heard(s, s1, k, 0) && Heard(s1, r, k, Turns(At(Least(Ahead(s.clients.Keys, c))), k));
      TurnsStep(s.clients.Keys, c, k);
    }
  }

  lemma HeardAfterWrite(s: State, r: State, text: string, c: Cursor)
    requires Connected(s) && Ahead(s.clients.Keys, c) != {} && Live(s, Least(Ahead(s.clients.Keys, c)))
    requires var k0 := Least(Ahead(s.clients.Keys, c));
             var s1 := Written(s, SocketOf(s, k0), text);
             OnlyDropped(s1, r) && forall k :: Live(r, k) ==> Heard(s1, r, k, Turns(At(k0), k))
    ensures forall k :: Live(r, k) ==> Heard(s, r, k, Turns(c, k))
  {
    var k0 := Least(Ahead(s.clients.Keys, c));
    var s1 := Written(s, SocketOf(s, k0), text);
    forall k | Live(r, k) ensures Heard(s, r, k, Turns(c, k)) {
      assert Heard(s1, r, k, Turns(At(k0), k));
      ReceivedSnoc(s.out, Sent(SocketOf(s, k0), text), SocketOf(r, k));
      TurnsStep(s.clients.Keys, c, k);
      assert Live(s, k) && SocketOf(s, k) == SocketOf(r, k);
    }
  }

  lemma HeardAfterNull(s: State, r: State, c: Cursor)
    requires Ahead(s.clients.Keys, c) != {} && !Live(s, Least(Ahead(s.clients.Keys, c)))
    requires OnlyDropped(s, r)
    requires forall k :: Live(r, k) ==> Heard(s, r, k, Turns(At(Least(Ahead(s.clients.Keys, c))), k))
    ensures forall k :: Live(r, k) ==> Heard(s, r, k, Turns(c, k))
  {
    forall k | Live(r, k) ensures Heard(s, r, k, Turns(c, k)) {
      TurnsStep(s.clients.Keys, c, k);
    }
  }

  lemma {:induction false} LoopTells(env: Env, s: State, text: string, c: Cursor)
    requires Connected(s)
    ensures OnlyDropped(s, SendToAll(env, s, text, c))
    ensures forall k :: Live(SendToAll(env, s, text, c), k) ==> Heard(s, SendToAll(env, s, text, c), k, Turns(c, k))
    decreases |s.clients.Keys|, 1, |Ahead(s.clients.Keys, c)|
  {
    if Ahead(s.clients.Keys, c) == {} {
      forall k | Live(s, k) ensures Turns(c, k) == 0 {
        assert k in Ahead({k}, c) <==> k in Ahead(s.clients.Keys, c);
      }
    } else {
      var k := Least(Ahead(s.clients.Keys, c));
      AheadStep(s.clients.Keys, c);
      LoopStep(env, s, text, c);
      if !Live(s, k) {
        LoopTells(env, s, text, At(k));
        HeardAfterNull(s, SendToAll(env, s, text, c), c);
      } else if env.fails(s.clock, SocketOf(s, k)) {
        LoopTellsAfterDrop(env, s, text, c);
      } else {
        WriteKeeps(s, {}, SocketOf(s, k), text);
        LoopTells(env, Written(s, SocketOf(s, k), text), text, At(k));
        HeardAfterWrite(s, SendToAll(env, s, text, c), text, c);
      }
    }
  }

  lemma {:induction false} LoopTellsAfterDrop(env: Env, s: State, text: string, c: Cursor)
    requires Connected(s) && Ahead(s.clients.Keys, c) != {}
    requires var k := Least(Ahead(s.clients.Keys, c)); Live(s, k) && env.fails(s.clock, SocketOf(s, k))
    ensures OnlyDropped(s, SendToAll(env, s, text, c))
    ensures forall k :: Live(SendToAll(env, s, text, c), k) ==> Heard(s, SendToAll(env, s, text, c), k, Turns(c, k))
    decreases |s.clients.Keys|, 1, 0
  {
    var k := Least(Ahead(s.clients.Keys, c));
    var s1 := Disconnect(env, Ticked(s), k);
    TickKeeps(s, {});
    DisconnectKeeps(env, Ticked(s), k);
    DisconnectTells(env, Ticked(s), k);
    HeardSinceTick(s, s1, 0);
    assert s1.clients.Keys <= s.clients.Keys - {k};
    SubsetSize(s1.clients.Keys, s.clients.Keys);
    LoopTells(env, s1, text, At(k));
    HeardAfterDrop(s, s1, SendToAll(env, s1, text, At(k)), c);
    LoopStep(env, s, text, c);
  }

  lemma HeardSinceTick(s: State, r: State, n: int)
    requires OnlyDropped(Ticked(s), r) && forall k :: Live(r, k) ==> Heard(Ticked(s), r, k, n)
    ensures OnlyDropped(s, r) && forall k :: Live(r, k) ==> Heard(s, r, k, n)
  {
    forall k | Live(r, k) ensures Heard(s, r, k, n) {
      assert Heard(Ticked(s), r, k, n);
    }
  }

  /** Whoever is still connected after a disconnection has heard once of each client that went. */
  lemma {:induction false} DisconnectTells(env: Env, s: State, id: Id)
    requires Connected(s)
    ensures OnlyDropped(s, Disconnect(env, s, id))
    ensures forall k :: Live(Disconnect(env, s, id), k) ==> Heard(s, Disconnect(env, s, id), k, 0)
    decreases |s.clients.Keys|, 0, 0
  {
    if id in s.clients {
      Shrunk(s, Erased(s, id), {id});
      Fewer(s.clients, {id});
      BroadcastTells(env, Erased(s, id));
      HeardSinceErased(s, id, Disconnect(env, s, id));
    }
  }

  lemma HeardSinceErased(s: State, id: Id, r: State)
    requires id in s.clients
    requires OnlyDropped(Erased(s, id), r) && forall k :: Live(r, k) ==> Heard(Erased(s, id), r, k, 1)
    ensures OnlyDropped(s, r) && forall k :: Live(r, k) ==> Heard(s, r, k, 0)
  {
    assert Erased(s, id).clients.Keys == s.clients.Keys - {id};
    forall k | Live(r, k) ensures Heard(s, r, k, 0) {
      assert Heard(Erased(s, id), r, k, 1);
    }
  }

  /**
    For every environment, writes failing and recovering as they like: whoever is still connected after a
    broadcast was sent exactly one text, and one more for every client that was dropped on the way.
   */
  lemma {:induction false} BroadcastTells(env: Env, s: State)
    requires Connected(s)
    ensures OnlyDropped(s, Broadcast(env, s))
    ensures forall k :: Live(Broadcast(env, s), k) ==> Heard(s, Broadcast(env, s), k, 1)
    decreases |s.clients.Keys|, 2, 0
  {
    TickKeeps(s, {});
    var text := UserListText(s.users, env.order(s.clock, s.users.Keys));
    LoopTells(env, Ticked(s), text, Begin);
    forall k | Live(Broadcast(env, s), k) ensures Heard(Ticked(s), Broadcast(env, s), k, 1) {
      assert Heard(Ticked(s), Broadcast(env, s), k, Turns(Begin, k));
    }
    HeardSinceTick(s, Broadcast(env, s), 1);
  }

  /** The same for a chat line: once the line, and once for every client dropped. */
  lemma ChatTells(env: Env, s: State, id: Id, text: string)
    requires Connected(s)
    ensures forall k :: Live(OnChat(env, s, id, text), k) ==> Heard(s, OnChat(env, s, id, text), k, 1)
  {
    LoopTells(env, s, ChatText(NicknameOf(s.users, id), text), Begin);
    forall k | Live(OnChat(env, s, id, text), k) ensures Heard(s, OnChat(env, s, id, text), k, 1) {
      assert Heard(s, OnChat(env, s, id, text), k, Turns(Begin, k));
    }
  }

  /* ----- accepts and replies ----- */

  lemma RegisterKeeps(s: State, id: Id)
    requires Connected(s)
    ensures Connected(Registered(s, id))
  {
    var t := Registered(s, id);
    assert forall k :: HasSocket(t.clients, k) <==> k == id || HasSocket(s.clients, k);
    assert forall k :: HasSocket(t.clients, k) && k != id ==> t.clients[k] == s.clients[k];
  }

  /** A null entry changes nothing that counts: the same ids are live, on the same sockets. */
  lemma TouchKeeps(s: State, id: Id)
    requires Connected(s)
    ensures var t := Touched(s, id);
            && Connected(t) && (forall k :: Live(t, k) <==> Live(s, k))
            && (forall k :: Live(s, k) ==> SocketOf(t, k) == SocketOf(s, k))
  {
    assert forall k :: Live(Touched(s, id), k) <==> Live(s, k);
  }

  predicate CanWrite(env: Env, s: State, id: Id) {
    Live(s, id) && !env.fails(s.clock, SocketOf(s, id))
  }

  lemma ReplyFields(env: Env, s: State, id: Id, text: string)
    ensures var r := Reply(env, s, id, text);
            && r.clients == Touched(s, id).clients && r.users == s.users && r.nextSocket == s.nextSocket
            && r.rooms == s.rooms
            && r.out == s.out + (if CanWrite(env, s, id) then [Sent(SocketOf(s, id), text)] else [])
            && (r.up <==> s.up && (Live(s, id) ==> CanWrite(env, s, id)))
  {
  }

  /** What a reply leaves as it was, and what it writes. */
  lemma ReplyKeeps(env: Env, s: State, id: Id, text: string)
    requires Connected(s)
    ensures var r := Reply(env, s, id, text);
            && Connected(r) && r.rooms == s.rooms && r.users == s.users
            && (forall k :: Live(r, k) <==> Live(s, k))
            && (forall k :: Live(s, k) ==> SocketOf(r, k) == SocketOf(s, k))
            && r.out == s.out + (if CanWrite(env, s, id) then [Sent(SocketOf(s, id), text)] else [])
            && (r.up <==> s.up && (Live(s, id) ==> CanWrite(env, s, id)))
  {
    ReplyFields(env, s, id, text);
    TouchKeeps(s, id);
  }

  lemma ReplyOrDropCases(env: Env, s: State, id: Id, text: string)
    ensures var t := Touched(s, id);
            ReplyOrDrop(env, s, id, text) ==
            if !Live(t, id) then t
            else if CanWrite(env, t, id) then Written(t, SocketOf(t, id), text)
            else Disconnect(env, Ticked(t), id)
  {
  }

  /** The run of the server goes on from s to r: connections stay in order, the log grows, rooms are left alone. */
  ghost predicate Undisturbed(s: State, r: State) {
    Connected(r) && r.rooms == s.rooms && r.up == s.up && s.out <= r.out && NicknamesKept(s.users, r.users)
  }

  lemma ReplyOrDropKeeps(env: Env, s: State, id: Id, text: string)
    requires Connected(s)
    ensures Undisturbed(s, ReplyOrDrop(env, s, id, text))
  {
    var t := Touched(s, id);
    TouchKeeps(s, id);
    ReplyOrDropCases(env, s, id, text);
    if Live(t, id) {
      if CanWrite(env, t, id) {
        WriteKeeps(t, {}, SocketOf(t, id), text);
      } else {
        TickKeeps(t, {});
        DisconnectKeeps(env, Ticked(t), id);
      }
    }
  }

  /* ----- what everybody hears of a change of users ----- */

  /**
    From state s on, with these sockets broken: the failing clients are dropped, and every survivor got
    one list of the users in s and one of each set left over as the failing ids went, smallest first.
   */
  ghost predicate EverybodyTold(s: State, r: State, broken: set<Socket>, lines: seq<string>) {
    && Delivered(s, r, broken, lines)
    && lines != [] && ListsUsers(lines[0], s.users) && Successive(lines[1..], s.users, Failing(s, broken))
  }

  /**
    A connection: the newcomer is live on a socket of its own, under its first nickname, and everybody
    hears of it. If its own socket takes no write, it is dropped again like any other failing client.
   */
  lemma AcceptTheorem(env: Env, s: State, broken: set<Socket>, id: Id) returns (lines: seq<string>)
    requires Connected(s) && Stable(env, Registered(s, id), Accepted(env, s, id).clock, broken)
    ensures EverybodyTold(Registered(s, id), Accepted(env, s, id), broken, lines)
    ensures var r := Accepted(env, s, id);
            && (s.nextSocket in broken ==> id !in r.clients && id !in r.users)
            && (s.nextSocket !in broken ==>
                  && Live(r, id) && SocketOf(r, id) == s.nextSocket
                  && id in r.users && r.users[id] == "User" + Decimal(|s.clients| + 1))
            && forall k :: Live(r, k) && k != id ==> Live(s, k) && SocketOf(r, k) == SocketOf(s, k)
  {
    RegisterKeeps(s, id);
    lines := BroadcastTheorem(env, Registered(s, id), broken);
    Newcomer(s, id, Accepted(env, s, id), broken, Failing(Registered(s, id), broken));
  }

  lemma Newcomer(s: State, id: Id, r: State, broken: set<Socket>, gone: set<Id>)
    requires gone == Failing(Registered(s, id), broken)
    requires r.clients == Registered(s, id).clients - gone && r.users == Registered(s, id).users - gone
    ensures s.nextSocket in broken ==> id !in r.clients && id !in r.users
    ensures s.nextSocket !in broken ==>
              && Live(r, id) && SocketOf(r, id) == s.nextSocket
              && id in r.users && r.users[id] == "User" + Decimal(|s.clients| + 1)
    ensures forall k :: Live(r, k) && k != id ==> Live(s, k) && SocketOf(r, k) == SocketOf(s, k)
  {
    var clients, users := Registered(s, id).clients, Registered(s, id).users;
    assert clients[id] == Some(s.nextSocket) && users[id] == "User" + Decimal(|s.clients| + 1);
    assert id in gone <==> s.nextSocket in broken;
    KeptUnless(clients, gone, id);
    KeptUnless(users, gone, id);
    OthersAsBefore(s.clients, id, Some(s.nextSocket), gone);
  }

  lemma OthersAsBefore(clients: Clients, id: Id, socket: Option<Socket>, gone: set<Id>)
    ensures var r := clients[id := socket] - gone;
            forall k :: HasSocket(r, k) && k != id ==> HasSocket(clients, k) && r[k] == clients[k]
  {
  }

  lemma KeptUnless<V>(m: map<Id, V>, gone: set<Id>, id: Id)
    requires id in m
    ensures id in m - gone <==> id !in gone
    ensures id in m - gone ==> (m - gone)[id] == m[id]
  {
  }

  /** The state in which a new nickname is announced. */
  function NewlyNamed(s: State, id: Id, nickname: string): State {
    s.(users := if Live(s, id) then s.users[id := nickname] else s.users)
  }

  lemma NamedIsRenamed(s: State, id: Id, nickname: string)
    requires Connected(s)
    ensures NewlyNamed(s, id, nickname) == s.(users := Renamed(s.users, id, nickname))
    ensures Connected(NewlyNamed(s, id, nickname))
  {
    assert forall k :: k in NewlyNamed(s, id, nickname).users <==> k in s.users;
  }

  lemma NamedIsStable(env: Env, s: State, broken: set<Socket>, id: Id, nickname: string)
    requires Stable(env, s, Broadcast(env, NewlyNamed(s, id, nickname)).clock, broken)
    ensures var t := NewlyNamed(s, id, nickname);
            && Stable(env, t, Broadcast(env, t).clock, broken)
            && Failing(t, broken) == Failing(s, broken)
            && forall k :: Survives(s, broken, k) ==> Survives(t, broken, k) && SocketOf(t, k) == SocketOf(s, k)
  {
    var t := NewlyNamed(s, id, nickname);
    StableRest(env, s, t, Broadcast(env, t), broken);
  }

  lemma ErasedIsStable(env: Env, s: State, broken: set<Socket>, id: Id)
    requires Stable(env, s, Broadcast(env, Erased(s, id)).clock, broken)
    ensures var t := Erased(s, id);
            && Stable(env, t, Broadcast(env, t).clock, broken)
            && Failing(t, broken) == Failing(s, broken) - {id}
            && forall k :: Survives(s, broken, k) && k != id ==> Survives(t, broken, k) && SocketOf(t, k) == SocketOf(s, k)
  {
    var t := Erased(s, id);
    StableRest(env, s, t, Broadcast(env, t), broken);
  }

  /** A nickname: if the client is still known, it has the new name in every list; otherwise nobody is renamed. */
  lemma NicknameTheorem(env: Env, s: State, broken: set<Socket>, id: Id, nickname: string)
      returns (lines: seq<string>)
    requires Connected(s) && Stable(env, s, OnNickname(env, s, id, nickname).clock, broken)
    ensures EverybodyTold(NewlyNamed(s, id, nickname), OnNickname(env, s, id, nickname), broken, lines)
    ensures var r := OnNickname(env, s, id, nickname);
            forall k :: k in r.users ==> k in s.users && r.users[k] == if k == id then nickname else s.users[k]
  {
    var t := NewlyNamed(s, id, nickname);
    NamedIsRenamed(s, id, nickname);
    NamedIsStable(env, s, broken, id, nickname);
    lines := BroadcastTheorem(env, t, broken);
    NamesLeft(s, id, nickname, OnNickname(env, s, id, nickname).users, Failing(t, broken));
  }

  lemma NamesLeft(s: State, id: Id, nickname: string, left: Users, gone: set<Id>)
    requires Connected(s) && left == NewlyNamed(s, id, nickname).users - gone
    ensures forall k :: k in left ==> k in s.users && left[k] == if k == id then nickname else s.users[k]
  {
  }

  /** A read error: a known client is dropped and everybody left hears of it; a late error does nothing at all. */
  lemma DisconnectTheorem(env: Env, s: State, broken: set<Socket>, id: Id) returns (lines: seq<string>)
    requires Connected(s) && Stable(env, s, Disconnect(env, s, id).clock, broken)
    ensures id !in s.clients ==> Disconnect(env, s, id) == s
    ensures id in s.clients ==> EverybodyTold(Erased(s, id), Disconnect(env, s, id), broken, lines)
    ensures id !in Disconnect(env, s, id).clients && id !in Disconnect(env, s, id).users
  {
    lines := [];
    if id in s.clients {
      var t := Erased(s, id);
      Shrunk(s, t, {id});
      ErasedIsStable(env, s, broken, id);
      lines := BroadcastTheorem(env, t, broken);
    }
  }

  /* ----- delivery of a room message ----- */

  ghost predicate SocketAmong(s: State, members: seq<Id>, q: Socket) {
    exists m :: m in members && Live(s, m) && SocketOf(s, m) == q
  }

  /**
    The delivery loop. Whatever it adds was added for a live member, with this text. If no write fails
    each member's socket gets exactly one copy and no other socket anything; a failed write throws, and
    then at most one.
   */
  ghost predicate FannedOut(s: State, r: State, members: seq<Id>, text: string) {
    && Connected(r) && r.rooms == s.rooms && r.users == s.users
    && s.out <= r.out && (r.up ==> s.up)
    && (forall p :: |s.out| <= p < |r.out| ==> r.out[p].text == text && SocketAmong(s, members, r.out[p].socket))
    && (forall q :: Received(r.out, q) == Received(s.out, q) ||
                    (SocketAmong(s, members, q) && Received(r.out, q) == Received(s.out, q) + [text]))
    && (r.up ==> forall q :: SocketAmong(s, members, q) ==> Received(r.out, q) == Received(s.out, q) + [text])
  }

  lemma {:induction false} MembersServed(env: Env, s: State, members: seq<Id>, text: string)
    requires Connected(s) && Distinct(members)
    ensures FannedOut(s, SendToMembers(env, s, members, text), members, text)
    decreases |members|
  {
    if members != [] && s.up {
      var s1 := Reply(env, s, members[0], text);
      ReplyKeeps(env, s, members[0], text);
      MembersServed(env, s1, members[1..], text);
      OneMoreServed(env, s, s1, SendToMembers(env, s1, members[1..], text), members, text);
    }
  }

  lemma SplitSockets(s: State, s1: State, members: seq<Id>, q: Socket)
    requires members != []
    requires forall k :: Live(s1, k) <==> Live(s, k)
    requires forall k :: Live(s, k) ==> SocketOf(s1, k) == SocketOf(s, k)
    ensures SocketAmong(s, members, q) <==>
            (Live(s, members[0]) && SocketOf(s, members[0]) == q) || SocketAmong(s1, members[1..], q)
  {
    if m :| m in members && Live(s, m) && SocketOf(s, m) == q {
      assert m == members[0] || m in members[1..];
    }
    if m :| m in members[1..] && Live(s1, m) && SocketOf(s1, m) == q {
      assert m in members;
    }
    assert members[0] in members;
  }

  lemma OneMoreServed(env: Env, s: State, s1: State, r: State, members: seq<Id>, text: string)
    requires Connected(s) && Distinct(members) && members != [] && s.up
    requires s1 == Reply(env, s, members[0], text)
    requires FannedOut(s1, r, members[1..], text)
    ensures FannedOut(s, r, members, text)
  {
    ReplyKeeps(env, s, members[0], text);
    forall q
      ensures SocketAmong(s1, members[1..], q) ==> SocketAmong(s, members, q)
      ensures Received(r.out, q) == Received(s.out, q) ||
              (SocketAmong(s, members, q) && Received(r.out, q) == Received(s.out, q) + [text])
      ensures r.up && SocketAmong(s, members, q) ==> Received(r.out, q) == Received(s.out, q) + [text]
    {
      SocketServed(env, s, s1, r, members, text, q);
    }
    FirstEntry(env, s, s1, members, text);
  }

  /** The first member's own entry, if there is one. */
  lemma FirstEntry(env: Env, s: State, s1: State, members: seq<Id>, text: string)
    requires Connected(s) && members != []
    requires s1 == Reply(env, s, members[0], text)
    ensures forall p :: |s.out| <= p < |s1.out| ==>
                          s1.out[p].text == text && SocketAmong(s, members, s1.out[p].socket)
  {
    ReplyKeeps(env, s, members[0], text);
    assert members[0] in members;
  }

  lemma SocketServed(env: Env, s: State, s1: State, r: State, members: seq<Id>, text: string, q: Socket)
    requires Connected(s) && Distinct(members) && members != [] && s.up
    requires s1 == Reply(env, s, members[0], text)
    requires FannedOut(s1, r, members[1..], text)
    ensures SocketAmong(s1, members[1..], q) ==> SocketAmong(s, members, q)
    ensures Received(r.out, q) == Received(s.out, q) ||
            (SocketAmong(s, members, q) && Received(r.out, q) == Received(s.out, q) + [text])
    ensures r.up && SocketAmong(s, members, q) ==> Received(r.out, q) == Received(s.out, q) + [text]
  {
    var m0 := members[0];
    ReplyKeeps(env, s, m0, text);
    SplitSockets(s, s1, members, q);
    OwnSocketOnly(s, s1, members, q);
    if CanWrite(env, s, m0) {
      ReceivedSnoc(s.out, Sent(SocketOf(s, m0), text), q);
    }
  }

  lemma OwnSocketOnly(s: State, s1: State, members: seq<Id>, q: Socket)
    requires Connected(s) && Distinct(members) && members != []
    requires forall k :: Live(s1, k) <==> Live(s, k)
    requires forall k :: Live(s, k) ==> SocketOf(s1, k) == SocketOf(s, k)
    ensures Live(s, members[0]) && SocketOf(s, members[0]) == q ==> !SocketAmong(s1, members[1..], q)
  {
    assert members[0] !in members[1..];
  }

  /**
    A room message. From a non-member, or to a room that does not exist, nothing happens at all. From a
    member, each member with a live socket gets exactly one copy and nobody else gets anything.
   */
  lemma RoomMsgTheorem(env: Env, s: State, id: Id, room: string, message: string)
    requires Connected(s)
    ensures var r := OnRoomMsg(env, s, id, room, message);
            && Connected(r) && r.rooms == s.rooms && r.users == s.users && s.out <= r.out && (r.up ==> s.up)
            && (!IsMember(s.rooms, room, id) ==> r == s)
            && (IsMember(s.rooms, room, id) ==>
                  exists order :: Enumerates(order, s.rooms[room].members) &&
                    FannedOut(Ticked(s), r, order, RoomText(room, NicknameOf(s.users, id), message)))
  {
    if IsMember(s.rooms, room, id) {
      var order := env.order(s.clock, s.rooms[room].members);
      TickKeeps(s, {});
      MembersServed(env, Ticked(s), order, RoomText(room, NicknameOf(s.users, id), message));
    }
  }

  /* ----- one step ----- */

  /** Every room is stored under its own name, which is one word. */
  ghost predicate RoomsNamed(rooms: Rooms) {
    forall r :: r in rooms ==> rooms[r].name == r && SpaceFree(r)
  }

  ghost predicate Inv(s: State) {
    Connected(s) && RoomsNamed(s.rooms)
  }

  /** The room store one command leaves; every other event leaves it alone. */
  function OpOf(e: Event): Option<RoomOp> {
    match e
    case Data(id, data) =>
      (match Parse(data)
       case CreateRoom(room, isPrivate, password) => Some(Create(room, isPrivate, password))
       case JoinRoom(room, password) => Some(Join(room, id, password))
       case LeaveRoom(room) => Some(Leave(room, id))
       case _ => None)
    case _ => None
  }

  function ApplyOptional(rooms: Rooms, op: Option<RoomOp>): Rooms {
    match op
    case None => rooms
    case Some(o) => Apply(rooms, o)
  }

  lemma HandledKeeps(env: Env, s: State, id: Id, command: Command)
    requires Connected(s)
    ensures var r := Handled(env, s, id, command);
            && Connected(r) && s.out <= r.out && (r.up ==> s.up)
            && NicknamesKept(if command.Nickname? then Renamed(s.users, id, command.nickname) else s.users, r.users)
  {
    match command
    case Blank =>
    case ListUsers => BroadcastKeeps(env, s);
    case Nickname(nickname) => RenameKeeps(env, s, id, nickname);
    case CreateRoom(room, isPrivate, password) =>
      ReplyAboutRoom(env, s, Created(s.rooms, room, isPrivate, password), id, CreateReply(room, room !in s.rooms));
    case ListRooms => ListRoomsKeeps(env, s, id);
    case RoomMsgWithoutText =>
    case RoomMsg(room, message) => RoomMsgTheorem(env, s, id, room, message);
    case RoomUsers(room) => RoomUsersKeeps(env, s, id, room);
    case JoinRoom(room, password) =>
      ReplyAboutRoom(env, s, AfterJoin(s.rooms, room, id, password), id,
                     JoinReply(room, CanJoin(s.rooms, room, id, password)));
    case LeaveRoom(room) =>
      ReplyAboutRoom(env, s, AfterLeave(s.rooms, room, id), id, LeaveReply(room, IsMember(s.rooms, room, id)));
    case Chat(text) => LoopKeeps(env, s, ChatText(NicknameOf(s.users, id), text), Begin);
  }

  lemma ReplyAboutRoom(env: Env, s: State, rooms: Rooms, id: Id, text: string)
    requires Connected(s)
    ensures var r := Reply(env, s.(rooms := rooms), id, text);
            Connected(r) && r.users == s.users && s.out <= r.out && (r.up ==> s.up)
  {
    ReplyKeeps(env, s.(rooms := rooms), id, text);
  }

  lemma RoomUsersKeeps(env: Env, s: State, id: Id, room: string)
    requires Connected(s)
    ensures var r := OnRoomUsers(env, s, id, room);
            Connected(r) && r.users == s.users && s.out <= r.out && (r.up ==> s.up)
  {
    if room in s.rooms {
      TickKeeps(s, {});
      ReplyKeeps(env, Ticked(s), id, RoomUsersText(s.users, env.order(s.clock, s.rooms[room].members)));
    }
  }

  lemma RenameKeeps(env: Env, s: State, id: Id, nickname: string)
    requires Connected(s)
    ensures var r := OnNickname(env, s, id, nickname);
            Connected(r) && s.out <= r.out && NicknamesKept(Renamed(s.users, id, nickname), r.users)
  {
    var t := s.(users := Renamed(s.users, id, nickname));
    assert t.users.Keys == s.users.Keys;
    assert forall k :: k in t.users <==> k in s.users;
    BroadcastKeeps(env, t);
  }

  lemma ListRoomsKeeps(env: Env, s: State, id: Id)
    requires Connected(s)
    ensures var r := OnListRooms(env, s, id);
            Connected(r) && s.out <= r.out && NicknamesKept(s.users, r.users)
  {
    var t := Ticked(Ticked(s));
    TickKeeps(s, {});
    TickKeeps(Ticked(s), {});
    ReplyOrDropKeeps(env, t, id, RoomListNow(env, s));
  }

  /** Connections, disconnections, broadcasts, nicknames and messages never touch the rooms. */
  lemma StepRooms(env: Env, s: State, e: Event)
    ensures Step(env, s, e).rooms == if s.up then ApplyOptional(s.rooms, OpOf(e)) else s.rooms
  {
    if s.up && e.Data? {
      HandledRooms(env, s, e.id, Parse(e.data));
    }
  }

  lemma HandledRooms(env: Env, s: State, id: Id, command: Command)
    ensures Handled(env, s, id, command).rooms ==
            match command {
              case CreateRoom(room, isPrivate, password) => Created(s.rooms, room, isPrivate, password)
              case JoinRoom(room, password) => AfterJoin(s.rooms, room, id, password)
              case LeaveRoom(room) => AfterLeave(s.rooms, room, id)
              case _ => s.rooms
            }
  {
    match command
    case CreateRoom(room, isPrivate, password) =>
      ReplyFields(env, s.(rooms := Created(s.rooms, room, isPrivate, password)), id, CreateReply(room, room !in s.rooms));
    case JoinRoom(room, password) =>
      ReplyFields(env, s.(rooms := AfterJoin(s.rooms, room, id, password)), id,
                  JoinReply(room, CanJoin(s.rooms, room, id, password)));
    case LeaveRoom(room) =>
      ReplyFields(env, s.(rooms := AfterLeave(s.rooms, room, id)), id, LeaveReply(room, IsMember(s.rooms, room, id)));
    case RoomMsg(room, message) =>
      if IsMember(s.rooms, room, id) {
        SendKeepsRooms(env, Ticked(s), env.order(s.clock, s.rooms[room].members),
                       RoomText(room, NicknameOf(s.users, id), message));
      }
    case RoomUsers(room) =>
      if room in s.rooms {
        ReplyFields(env, Ticked(s), id, RoomUsersText(s.users, env.order(s.clock, s.rooms[room].members)));
      }
    case ListRooms => ListRoomsFields(env, s, id);
    case _ =>
  }

  lemma ListRoomsFields(env: Env, s: State, id: Id)
    ensures OnListRooms(env, s, id).rooms == s.rooms
  {
  }

  lemma {:induction false} SendKeepsRooms(env: Env, s: State, members: seq<Id>, text: string)
    ensures SendToMembers(env, s, members, text).rooms == s.rooms
    decreases |members|
  {
    if members != [] && s.up {
      ReplyFields(env, s, members[0], text);
      SendKeepsRooms(env, Reply(env, s, members[0], text), members[1..], text);
    }
  }

  /** Each room of before is still there, with the same name, privacy and password. */
  ghost predicate TermsKept(before: Rooms, after: Rooms) {
    forall r :: r in before ==>
      && r in after && after[r].name == before[r].name
      && after[r].isPrivate == before[r].isPrivate && after[r].password == before[r].password
  }

  lemma OpKeepsTerms(rooms: Rooms, op: Option<RoomOp>)
    requires RoomsNamed(rooms)
    requires op.Some? ==> !op.value.Delete? && (op.value.Create? ==> SpaceFree(op.value.name))
    ensures RoomsNamed(ApplyOptional(rooms, op)) && TermsKept(rooms, ApplyOptional(rooms, op))
  {
  }

  lemma StepKeepsConnections(env: Env, s: State, e: Event)
    requires Connected(s)
    ensures var r := Step(env, s, e);
            Connected(r) && s.out <= r.out && (r.up ==> s.up)
  {
    if s.up {
      match e
      case Accept(id) =>
        RegisterKeeps(s, id);
        BroadcastKeeps(env, Registered(s, id));
      case Data(id, data) => HandledKeeps(env, s, id, Parse(data));
      case ReadError(id) => DisconnectKeeps(env, s, id);
    }
  }

  lemma OpOfIsPlain(e: Event)
    ensures var op := OpOf(e);
            op.Some? ==> !op.value.Delete? && (op.value.Create? ==> SpaceFree(op.value.name))
  {
    if e.Data? && Parse(e.data).CreateRoom? {
      CreatedNameIsWord(Chomp(e.data));
    }
  }

  lemma StepKeeps(env: Env, s: State, e: Event)
    requires Inv(s)
    ensures Inv(Step(env, s, e))
    ensures s.out <= Step(env, s, e).out
    ensures Step(env, s, e).up ==> s.up
    ensures TermsKept(s.rooms, Step(env, s, e).rooms)
  {
    StepRooms(env, s, e);
    StepKeepsConnections(env, s, e);
    OpOfIsPlain(e);
    OpKeepsTerms(s.rooms, OpOf(e));
  }

  /* ----- whole runs ----- */

  /** In every reachable state the active users are exactly the ids with a socket, and no two share one. */
  lemma {:induction false} RunInvariant(env: Env, events: seq<Event>)
    ensures Inv(Run(env, events))
  {
    if events != [] {
      RunInvariant(env, events[..|events| - 1]);
      StepKeeps(env, Run(env, events[..|events| - 1]), events[|events| - 1]);
    }
  }

  /** Once created, a room stays, and its name, privacy and password never change; the log only grows. */
  lemma {:induction false} RunGrows(env: Env, events: seq<Event>, i: nat)
    requires i <= |events|
    ensures TermsKept(Run(env, events[..i]).rooms, Run(env, events).rooms)
    ensures Run(env, events[..i]).out <= Run(env, events).out
    ensures Run(env, events).up ==> Run(env, events[..i]).up
  {
    if i < |events| {
      var before := events[..|events| - 1];
      assert before[..i] == events[..i];
      RunGrows(env, before, i);
      RunInvariant(env, before);
      StepKeeps(env, Run(env, before), events[|events| - 1]);
    } else {
      assert events[..i] == events;
    }
  }

  /** What one read hands over: a line with its newline. */
  predicate FramedEvent(e: Event) {
    e.Data? ==> e.data != "" && e.data[|e.data| - 1] == '\n' && '\n' !in Chomp(e.data)
  }

  ghost predicate OneLineNicknames(users: Users) {
    forall k :: k in users ==> '\n' !in users[k]
  }

  lemma {:induction false} DecimalIsOneLine(n: nat)
    ensures '\n' !in Decimal(n)
  {
    if n >= 10 {
      DecimalIsOneLine(n / 10);
    }
  }

  lemma StepNicknames(env: Env, s: State, e: Event)
    requires Connected(s) && OneLineNicknames(s.users) && FramedEvent(e)
    ensures OneLineNicknames(Step(env, s, e).users)
  {
    if s.up {
      match e
      case Accept(id) =>
        DecimalIsOneLine(|s.clients| + 1);
        RegisterKeeps(s, id);
        BroadcastKeeps(env, Registered(s, id));
      case Data(id, data) =>
        NicknameIsOneLine(Chomp(data));
        HandledNicknames(env, s, id, Parse(data));
      case ReadError(id) => DisconnectKeeps(env, s, id);
    }
  }

  lemma HandledNicknames(env: Env, s: State, id: Id, command: Command)
    requires Connected(s) && OneLineNicknames(s.users)
    requires command.Nickname? ==> '\n' !in command.nickname
    ensures OneLineNicknames(Handled(env, s, id, command).users)
  {
    HandledKeeps(env, s, id, command);
  }

  lemma NicknameIsOneLine(line: string)
    requires '\n' !in line
    ensures ParseLine(line).Nickname? ==> '\n' !in ParseLine(line).nickname
  {
    if BranchOf(line).NicknameBranch? {
      assert forall c :: c in line[10..] ==> c in line;
    }
  }

  /** In every run of framed lines each nickname is one line, so every printed reply is. */
  lemma {:induction false} NicknamesAreOneLine(env: Env, events: seq<Event>)
    requires forall e :: e in events ==> FramedEvent(e)
    ensures OneLineNicknames(Run(env, events).users)
  {
    if events != [] {
      var before, last := events[..|events| - 1], events[|events| - 1];
      assert last in events && forall e :: e in before ==> e in events;
      NicknamesAreOneLine(env, before);
      RunInvariant(env, before);
      StepNicknames(env, Run(env, before), last);
    }
  }

  /** The events that were still handled: up to and including the one that brought the process down. */
  function HandledEvents(env: Env, events: seq<Event>): seq<Event> {
    if events == [] then []
    else
      var before := events[..|events| - 1];
      HandledEvents(env, before) + if Run(env, before).up then [events[|events| - 1]] else []
  }

  function OpsOf(events: seq<Event>): seq<RoomOp> {
    if events == [] then []
    else
      OpsOf(events[..|events| - 1]) +
      match OpOf(events[|events| - 1]) { case None => [] case Some(op) => [op] }
  }

  /** The rooms of a run are what the create, join and leave lines among the handled events make them, and nothing else. */
  lemma {:induction false} RoomsAreHistory(env: Env, events: seq<Event>)
    ensures Run(env, events).rooms == ApplyAll(OpsOf(HandledEvents(env, events)))
  {
    if events != [] {
      var before, last := events[..|events| - 1], events[|events| - 1];
      RoomsAreHistory(env, before);
      StepRooms(env, Run(env, before), last);
      if Run(env, before).up {
        AppendOp(HandledEvents(env, before), last);
      } else {
        assert HandledEvents(env, before) + [] == HandledEvents(env, before);
      }
    }
  }

  lemma AppendOp(events: seq<Event>, e: Event)
    ensures ApplyAll(OpsOf(events + [e])) == ApplyOptional(ApplyAll(OpsOf(events)), OpOf(e))
  {
    assert (events + [e])[..|events + [e]| - 1] == events;
    var ops := OpsOf(events);
    if OpOf(e).Some? {
      assert (ops + [OpOf(e).value])[..|ops + [OpOf(e).value]| - 1] == ops;
    } else {
      assert ops + [] == ops;
    }
  }

  /**
    Membership over whole runs. A room exists exactly if one of the handled create lines was for its name,
    and the first of those lines gives its terms; k is a member exactly when k's last admitted join line
    comes after every leave line of k.
   */
  lemma MembershipIsHistory(env: Env, events: seq<Event>, room: string, k: Id)
    ensures var s, ops := Run(env, events), OpsOf(HandledEvents(env, events));
            && (room in s.rooms <==> exists c: nat :: FirstCreate(ops, c, room))
            && (forall c: nat :: FirstCreate(ops, c, room) ==>
                  && room in s.rooms && s.rooms[room].isPrivate == ops[c].isPrivate
                  && s.rooms[room].password == ops[c].password)
            && (IsMember(s.rooms, room, k) <==>
                  exists i: nat :: AdmittedAt(ops, i, room, k) && forall j: nat :: i < j < |ops| ==> !LeaveAt(ops, j, room, k))
  {
    var ops := OpsOf(HandledEvents(env, events));
    RoomsAreHistory(env, events);
    StoreIsHistory(ops, room, k);
    NothingDeleted(HandledEvents(env, events));
    forall c: nat ensures FirstCreate(ops, c, room) <==> StandsFrom(ops, |ops|, room, c) {
    }
    forall i: nat
      ensures JoinedAt(ops, i, room, k) <==>
              AdmittedAt(ops, i, room, k) && forall j: nat :: i < j < |ops| ==> !LeaveAt(ops, j, room, k)
    {
    }
  }

  predicate FirstCreate(ops: seq<RoomOp>, c: nat, room: string) {
    CreateAt(ops, c, room) && forall b: nat :: b < c ==> !CreateAt(ops, b, room)
  }

  /** No line deletes a room. */
  lemma {:induction false} NothingDeleted(events: seq<Event>)
    ensures forall op :: op in OpsOf(events) ==> !op.Delete?
  {
    if events != [] {
      NothingDeleted(events[..|events| - 1]);
      OpOfIsPlain(events[|events| - 1]);
    }
  }

  /** Event i is a line of k that asks to join the room with this password, and the room was there. */
  ghost predicate JoinLineAt(env: Env, events: seq<Event>, i: nat, k: Id, room: string, password: string) {
    && i < |events| && events[i].Data? && events[i].id == k
    && Parse(events[i].data) == JoinRoom(room, password)
    && room in Run(env, events[..i]).rooms
  }

  lemma NewMemberSentJoin(rooms: Rooms, e: Event, room: string, k: Id)
    requires IsMember(ApplyOptional(rooms, OpOf(e)), room, k) && !IsMember(rooms, room, k)
    ensures e.Data? && e.id == k && Parse(e.data).JoinRoom? && Parse(e.data).room == room
    ensures room in rooms && Admits(rooms[room], Parse(e.data).password)
    ensures ApplyOptional(rooms, OpOf(e))[room].isPrivate == rooms[room].isPrivate
    ensures ApplyOptional(rooms, OpOf(e))[room].password == rooms[room].password
  {
  }

  lemma JoinLineEarlier(env: Env, events: seq<Event>, n: nat, i: nat, k: Id, room: string, password: string)
    requires n <= |events| && JoinLineAt(env, events[..n], i, k, room, password)
    ensures JoinLineAt(env, events, i, k, room, password)
  {
    assert events[..n][..i] == events[..i];
  }

  /** A member that is new with the last event got in by that event's password. */
  lemma LastEventJoined(env: Env, events: seq<Event>, room: string, k: Id)
    requires events != [] && IsMember(Run(env, events).rooms, room, k) && Run(env, events).rooms[room].isPrivate
    requires !IsMember(Run(env, events[..|events| - 1]).rooms, room, k)
    ensures JoinLineAt(env, events, |events| - 1, k, room, Run(env, events).rooms[room].password)
  {
    var s, last := Run(env, events[..|events| - 1]), events[|events| - 1];
    StepRooms(env, s, last);
    NewMemberSentJoin(s.rooms, last, room, k);
  }

  /** Every member of a private room once sent a join line with exactly the password the room was created with. */
  lemma {:induction false} PrivateRoomSafety(env: Env, events: seq<Event>, room: string, k: Id)
    requires IsMember(Run(env, events).rooms, room, k) && Run(env, events).rooms[room].isPrivate
    ensures exists i: nat :: JoinLineAt(env, events, i, k, room, Run(env, events).rooms[room].password)
  {
    if events != [] {
      var n := |events| - 1;
      if IsMember(Run(env, events[..n]).rooms, room, k) {
        RunGrows(env, events, n);
        PrivateRoomSafety(env, events[..n], room, k);
        var password := Run(env, events[..n]).rooms[room].password;
        var i: nat :| JoinLineAt(env, events[..n], i, k, room, password);
        JoinLineEarlier(env, events, n, i, k, room, password);
      } else {
        LastEventJoined(env, events, room, k);
      }
    }
  }

  /** A room whose name contains --password never has a member, in any run. */
  lemma {:induction false} KeywordRoomStaysEmpty(env: Env, events: seq<Event>, room: string, k: Id)
    requires Contains(room, PASSWORD)
    ensures !IsMember(Run(env, events).rooms, room, k)
  {
    if events != [] {
      var before, last := events[..|events| - 1], events[|events| - 1];
      KeywordRoomStaysEmpty(env, before, room, k);
      StepRooms(env, Run(env, before), last);
      NobodyJoins(Run(env, before).rooms, last, room, k);
    }
  }

  lemma NobodyJoins(rooms: Rooms, e: Event, room: string, k: Id)
    requires Contains(room, PASSWORD) && !IsMember(rooms, room, k)
    ensures !IsMember(ApplyOptional(rooms, OpOf(e)), room, k)
  {
    if IsMember(ApplyOptional(rooms, OpOf(e)), room, k) {
      NewMemberSentJoin(rooms, e, room, k);
      JoinNeverNamesKeyword(Chomp(e.data));
    }
  }
}
