/**
  The exact account of the broadcast / disconnect cascade. A write that fails drops its client, and
  dropping a client broadcasts the shorter user list from inside the loop that noticed the failure.
  For a fixed set of broken sockets: who is dropped, and which lines every survivor gets in which order.
 */
module Cascade {
  import opened Text
  import opened Keys
  import opened Lists
  import opened ActiveUsers
  import opened Machine

  /* ----- vocabulary ----- */

  type Clients = map<Id, Option<Socket>>

  predicate HasSocket(clients: Clients, k: Id) {
    k in clients && clients[k].Some?
  }

  predicate Live(s: State, k: Id) {
    HasSocket(s.clients, k)
  }

  function SocketOf(s: State, k: Id): Socket
    requires Live(s, k)
  {
    s.clients[k].value
  }

  /** The active users are the ids with a socket; no two of them share one; new sockets are new. */
  ghost predicate Wired(clients: Clients, users: Users, nextSocket: Socket) {
    && (forall k :: k in users <==> HasSocket(clients, k))
    && (forall a, b :: HasSocket(clients, a) && HasSocket(clients, b) && clients[a] == clients[b] ==> a == b)
    && (forall k :: HasSocket(clients, k) ==> clients[k].value < nextSocket)
  }

  ghost predicate Connected(s: State) {
    Wired(s.clients, s.users, s.nextSocket)
  }

  /** The texts written to a socket, in order. */
  function Received(out: seq<Sent>, socket: Socket): seq<string> {
    if out == [] then []
    else
      var last := out[|out| - 1];
      Received(out[..|out| - 1], socket) + if last.socket == socket then [last.text] else []
  }

  lemma ReceivedSnoc(out: seq<Sent>, x: Sent, socket: Socket)
    ensures Received(out + [x], socket) == Received(out, socket) + if x.socket == socket then [x.text] else []
  {
    assert (out + [x])[..|out + [x]| - 1] == out;
  }

  /**
    While the clock goes from s.clock up to `until`, writes fail on the broken ones among the sockets of
    the clients, and on no others. Nothing is said about what happened before, comes later, or concerns
    other sockets.
   */
  ghost predicate Stable(env: Env, s: State, until: nat, broken: set<Socket>) {
    forall k, t :: Live(s, k) && s.clock <= t < until ==>
      (env.fails(t, SocketOf(s, k)) <==> SocketOf(s, k) in broken)
  }

  /** The same holds of any later state with some of these clients, for a shorter time. */
  lemma StableLater(env: Env, s: State, t: State, until: nat, earlier: nat, broken: set<Socket>)
    requires Stable(env, s, until, broken)
    requires s.clock <= t.clock && earlier <= until
    requires forall k :: Live(t, k) ==> Live(s, k) && SocketOf(s, k) == SocketOf(t, k)
    ensures Stable(env, t, earlier, broken)
  {
  }

  function FailingIn(clients: Clients, broken: set<Socket>): set<Id> {
    set k | k in clients && clients[k].Some? && clients[k].value in broken
  }

  function Failing(s: State, broken: set<Socket>): set<Id> {
    FailingIn(s.clients, broken)
  }

  ghost predicate Survives(s: State, broken: set<Socket>, k: Id) {
    Live(s, k) && k !in Failing(s, broken)
  }

  /** How many of the keys come before k. */
  function Below(keys: set<Id>, k: Id): nat {
    |set x | x in keys && Less(x, k)|
  }

  /** The lines with the first j moved to the back, in reverse. */
  function Arrange(lines: seq<string>, j: nat): seq<string>
    requires j <= |lines|
  {
    if j == 0 then lines else Arrange(lines[1..], j - 1) + [lines[0]]
  }

  /** The line lists exactly these users, in some traversal order. */
  ghost predicate ListsUsers(line: string, users: Users) {
    exists order :: Enumerates(order, users.Keys) && line == UserListText(users, order)
  }

  /** One user list for each set left over as the failing ids go, smallest first. */
  ghost predicate Successive(lines: seq<string>, users: Users, failing: set<Id>) {
    if failing == {} then lines == []
    else
      var f := Least(failing);
      lines != [] && ListsUsers(lines[0], users - {f}) && Successive(lines[1..], users - {f}, failing - {f})
  }

  lemma {:induction false} SuccessiveLength(lines: seq<string>, users: Users, failing: set<Id>)
    requires Successive(lines, users, failing)
    ensures |lines| == |failing|
  {
    if failing != {} {
      SuccessiveLength(lines[1..], users - {Least(failing)}, failing - {Least(failing)});
    }
  }

  lemma BelowBound(keys: set<Id>, k: Id)
    ensures Below(keys, k) <= |keys|
  {
    SubsetSize((set x | x in keys && Less(x, k)), keys);
  }

  /** Removing the least key f leaves one key less below every k above f, and none below a k under f. */
  lemma BelowWithoutLeast(keys: set<Id>, k: Id)
    requires keys != {} && k !in keys
    ensures var f := Least(keys);
            && (Less(f, k) ==> Below(keys, k) == Below(keys - {f}, k) + 1)
            && (!Less(f, k) ==> Below(keys, k) == 0 && Below(keys - {f}, k) == 0)
  {
    var f := Least(keys);
    var all := set x | x in keys && Less(x, k);
    var rest := set x | x in keys - {f} && Less(x, k);
    if Less(f, k) {
      assert all == rest + {f};
    } else {
      forall x | x in keys ensures !Less(x, k) {
        if Less(x, k) && x != f {
          LessTransitive(f, x, k);
        }
      }
      assert all == {} && rest == {};
    }
  }

  /* ----- the account ----- */

  /**
    What the loop has done by its end, from state s at position c: the failing ids are gone from both
    maps; a survivor ahead of c has its lines in the stated arrangement, one behind c has only the
    nested user lists; no other socket got anything.
   */
  ghost predicate Account(s: State, r: State, broken: set<Socket>, text: string, c: Cursor, lists: seq<string>) {
    var failing := Failing(s, broken);
    && |lists| == |failing|
    && r.clients == s.clients - failing && r.users == s.users - failing
    && (forall k :: Survives(s, broken, k) ==> SurvivorAccount(s, r, failing, text, c, lists, k))
    && (forall q :: (forall k :: Survives(s, broken, k) ==> SocketOf(s, k) != q) ==>
                      Received(r.out, q) == Received(s.out, q))
  }

  ghost predicate SurvivorAccount(s: State, r: State, failing: set<Id>, text: string, c: Cursor,
                                  lists: seq<string>, k: Id)
    requires Live(s, k)
    requires |lists| == |failing|
  {
    Received(r.out, SocketOf(s, k)) == Received(s.out, SocketOf(s, k)) + Share(failing, text, c, lists, k)
  }

  function Share(failing: set<Id>, text: string, c: Cursor, lists: seq<string>, k: Id): seq<string>
    requires |lists| == |failing|
  {
    BelowBound(failing, k);
    if k in Ahead({k}, c) then Arrange([text] + lists, Below(failing, k)) else lists
  }

  /** A null entry: the loop goes on, and no survivor is passed over. */
  lemma SkipNull(s: State, r: State, broken: set<Socket>, text: string, c: Cursor, lists: seq<string>)
    requires Ahead(s.clients.Keys, c) != {} && !Live(s, Least(Ahead(s.clients.Keys, c)))
    requires Account(s, r, broken, text, At(Least(Ahead(s.clients.Keys, c))), lists)
    ensures Account(s, r, broken, text, c, lists)
  {
    var k0 := Least(Ahead(s.clients.Keys, c));
    AheadStep(s.clients.Keys, c);
    forall k | Survives(s, broken, k)
      ensures SurvivorAccount(s, r, Failing(s, broken), text, c, lists, k)
    {
      assert SurvivorAccount(s, r, Failing(s, broken), text, At(k0), lists, k);
      assert k in Ahead({k}, c) <==> k in Ahead(s.clients.Keys, c);
      assert k in Ahead({k}, At(k0)) <==> k in Ahead(s.clients.Keys, At(k0));
    }
  }

  /** A write that succeeds: this survivor has its line, and the loop goes on behind it. */
  ghost predicate Served(s: State, s1: State, r: State, broken: set<Socket>, text: string, c: Cursor, lists: seq<string>) {
    && Failing(s, broken) <= Ahead(s.clients.Keys, c) != {}
    && var k0 := Least(Ahead(s.clients.Keys, c));
    && Survives(s, broken, k0)
    && s1 == Written(s, SocketOf(s, k0), text)
    && Account(s1, r, broken, text, At(k0), lists)
  }

  lemma WriteKeeps(s: State, broken: set<Socket>, socket: Socket, text: string)
    ensures Connected(s) ==> Connected(Written(s, socket, text))
    ensures Failing(Written(s, socket, text), broken) == Failing(s, broken)
    ensures forall k :: Survives(Written(s, socket, text), broken, k) <==> Survives(s, broken, k)
  {
    var t := Written(s, socket, text);
    assert forall k :: Live(t, k) <==> Live(s, k);
  }

  lemma AfterWrite(s: State, s1: State, r: State, broken: set<Socket>, text: string, c: Cursor, lists: seq<string>)
    requires Connected(s) && Served(s, s1, r, broken, text, c, lists)
    ensures Account(s, r, broken, text, c, lists)
  {
    var k0 := Least(Ahead(s.clients.Keys, c));
    WriteKeeps(s, broken, SocketOf(s, k0), text);
    forall k | Survives(s, broken, k)
      ensures SurvivorAccount(s, r, Failing(s, broken), text, c, lists, k)
    {
      SurvivorAfterWrite(s, s1, r, broken, text, c, lists, k);
    }
    forall q | forall k :: Survives(s, broken, k) ==> SocketOf(s, k) != q
      ensures Received(r.out, q) == Received(s.out, q)
    {
      ReceivedSnoc(s.out, Sent(SocketOf(s, k0), text), q);
    }
  }

  lemma SurvivorAfterWrite(s: State, s1: State, r: State, broken: set<Socket>, text: string, c: Cursor,
                           lists: seq<string>, k: Id)
    requires Connected(s) && Served(s, s1, r, broken, text, c, lists) && Survives(s, broken, k)
    requires |lists| == |Failing(s, broken)|
    ensures SurvivorAccount(s, r, Failing(s, broken), text, c, lists, k)
  {
    var k0 := Least(Ahead(s.clients.Keys, c));
    var q := SocketOf(s, k);
    var own := if k == k0 then [text] else [];
    WriteKeeps(s, broken, SocketOf(s, k0), text);
    assert SurvivorAccount(s1, r, Failing(s, broken), text, At(k0), lists, k);
    assert Received(s1.out, q) == Received(s.out, q) + own by {
      ReceivedSnoc(s.out, Sent(SocketOf(s, k0), text), q);
      assert Live(s, k) && Live(s, k0);
    }
    ShareAfterWrite(s.clients.Keys, Failing(s, broken), text, c, lists, k);
    Regroup(Received(s.out, q), own, Share(Failing(s, broken), text, At(k0), lists, k));
  }

  lemma ShareAfterWrite(keys: set<Id>, failing: set<Id>, text: string, c: Cursor, lists: seq<string>, k: Id)
    requires failing <= Ahead(keys, c) != {} && k in keys
    requires |lists| == |failing|
    ensures Share(failing, text, c, lists, k)
         == (if k == Least(Ahead(keys, c)) then [text] else [])
          + Share(failing, text, At(Least(Ahead(keys, c))), lists, k)
  {
    AheadStep(keys, c);
    NoneBelowLeast(failing, Ahead(keys, c));
    assert k in Ahead({k}, c) <==> k in Ahead(keys, c);
    assert k in Ahead({k}, At(Least(Ahead(keys, c)))) <==> k in Ahead(keys, At(Least(Ahead(keys, c))));
  }

  lemma NoneBelowLeast(failing: set<Id>, ahead: set<Id>)
    requires failing <= ahead && ahead != {}
    ensures Below(failing, Least(ahead)) == 0
  {
    var k0 := Least(ahead);
    forall x | x in failing ensures !Less(x, k0) {
      if Less(x, k0) {
        LessIrreflexive(k0);
        LessAsymmetric(x, k0);
      }
    }
    assert (set x | x in failing && Less(x, k0)) == {};
  }

  /**
    A write that fails: s1 is the state the nested broadcast starts from, s2 the one it ends in. It has
    served every survivor, and the loop resumes with its old text.
   */
  ghost predicate Interrupted(s: State, s1: State, s2: State, r: State, broken: set<Socket>, text: string, c: Cursor,
                              line: string, nested: seq<string>) {
    var failing := Failing(s, broken);
    && failing <= Ahead(s.clients.Keys, c) != {}
    && failing != {} && Least(failing) == Least(Ahead(s.clients.Keys, c))
    && s1.clients == s.clients - {Least(failing)} && s1.users == s.users - {Least(failing)} && s1.out == s.out
    && Account(s1, s2, broken, line, Begin, nested)
    && Account(s2, r, broken, text, At(Least(failing)), [])
  }

  lemma InterruptedFailing(s: State, s1: State, s2: State, broken: set<Socket>)
    requires Failing(s, broken) != {}
    requires s1.clients == s.clients - {Least(Failing(s, broken))}
    requires s2.clients == s1.clients - Failing(s1, broken)
    ensures Failing(s1, broken) == Failing(s, broken) - {Least(Failing(s, broken))}
    ensures Failing(s2, broken) == {}
    ensures forall k :: Survives(s, broken, k) <==> Survives(s1, broken, k)
    ensures forall k :: Survives(s, broken, k) <==> Survives(s2, broken, k)
    ensures s2.clients == s.clients - Failing(s, broken)
  {
  }

  lemma AfterFailure(s: State, s1: State, s2: State, r: State, broken: set<Socket>, text: string, c: Cursor,
                     line: string, nested: seq<string>)
    requires Interrupted(s, s1, s2, r, broken, text, c, line, nested)
    ensures Account(s, r, broken, text, c, [line] + nested)
  {
    InterruptedFailing(s, s1, s2, broken);
    forall k | Survives(s, broken, k)
      ensures SurvivorAccount(s, r, Failing(s, broken), text, c, [line] + nested, k)
    {
      SurvivorAfterFailure(s, s1, s2, r, broken, text, c, line, nested, k);
    }
  }

  lemma SurvivorAfterFailure(s: State, s1: State, s2: State, r: State, broken: set<Socket>, text: string, c: Cursor,
                             line: string, nested: seq<string>, k: Id)
    requires Interrupted(s, s1, s2, r, broken, text, c, line, nested) && Survives(s, broken, k)
    requires |nested| + 1 == |Failing(s, broken)|
    ensures SurvivorAccount(s, r, Failing(s, broken), text, c, [line] + nested, k)
  {
    InterruptedFailing(s, s1, s2, broken);
    var failing := Failing(s, broken);
    var f := Least(failing);
    assert SurvivorAccount(s1, s2, failing - {f}, line, Begin, nested, k);
    assert SurvivorAccount(s2, r, {}, text, At(f), [], k);
    ShareAfterFailure(s.clients.Keys, failing, text, c, line, nested, k);
    Regroup(Received(s.out, SocketOf(s, k)), Share(failing - {f}, line, Begin, nested, k), Share({}, text, At(f), [], k));
  }

  lemma ShareAfterFailure(keys: set<Id>, failing: set<Id>, text: string, c: Cursor,
                          line: string, nested: seq<string>, k: Id)
    requires failing != {} && failing <= Ahead(keys, c) && Least(failing) == Least(Ahead(keys, c))
    requires k in keys && k !in failing
    requires |nested| + 1 == |failing|
    ensures Share(failing - {Least(failing)}, line, Begin, nested, k) + Share({}, text, At(Least(failing)), [], k)
         == Share(failing, text, c, [line] + nested, k)
  {
    var f := Least(failing);
    var lists := [line] + nested;
    AheadStep(keys, c);
    BelowWithoutLeast(failing, k);
    BelowBound(failing, k);
    BelowBound(failing - {f}, k);
    assert k in Ahead({k}, c) <==> k in Ahead(keys, c);
    assert Below({}, k) == 0 by {
      assert (set x: string | x in {} && Less(x, k)) == {};
    }
    if Less(f, k) {
      assert k in Ahead(keys, At(f));
      assert ([text] + lists)[1..] == lists;
      assert Share({}, text, At(f), [], k) == [text];
    } else {
      assert k !in Ahead(keys, c);
      assert Share({}, text, At(f), [], k) == [];
    }
  }

  lemma LoopStep(env: Env, s: State, text: string, c: Cursor)
    requires Ahead(s.clients.Keys, c) != {}
    ensures var k := Least(Ahead(s.clients.Keys, c));
            SendToAll(env, s, text, c) ==
            if !Live(s, k) then SendToAll(env, s, text, At(k))
            else if env.fails(s.clock, SocketOf(s, k)) then
              SendToAll(env, Broadcast(env, Erased(Ticked(s), k)), text, At(k))
            else SendToAll(env, Written(s, SocketOf(s, k), text), text, At(k))
  {
  }

  /** What the stability of s says about the rest of a loop that goes on, in the same environment, from a later state. */
  lemma StableRest(env: Env, s: State, t: State, r: State, broken: set<Socket>)
    requires Stable(env, s, r.clock, broken) && s.clock <= t.clock
    requires forall k :: Live(t, k) ==> Live(s, k) && SocketOf(s, k) == SocketOf(t, k)
    ensures Stable(env, t, r.clock, broken)
  {
    StableLater(env, s, t, r.clock, r.clock, broken);
  }

  /** A write that is made before r is reached fails exactly on a broken socket. */
  lemma WriteFailsIff(env: Env, s: State, k: Id, r: State, broken: set<Socket>)
    requires Live(s, k) && Stable(env, s, r.clock, broken) && s.clock < r.clock
    ensures env.fails(s.clock, SocketOf(s, k)) <==> SocketOf(s, k) in broken
  {
  }

  lemma LoopWrites(env: Env, s: State, text: string, c: Cursor)
    requires Ahead(s.clients.Keys, c) != {} && Live(s, Least(Ahead(s.clients.Keys, c)))
    ensures s.clock < SendToAll(env, s, text, c).clock
  {
    LoopStep(env, s, text, c);
  }

  /** A write that succeeds leaves the rest of the loop a state it can be accounted from. */
  lemma ReadyAfterWrite(env: Env, s: State, broken: set<Socket>, text: string, c: Cursor)
    requires Connected(s) && Stable(env, s, SendToAll(env, s, text, c).clock, broken)
    requires Failing(s, broken) <= Ahead(s.clients.Keys, c) != {}
    requires var k0 := Least(Ahead(s.clients.Keys, c)); Live(s, k0) && SocketOf(s, k0) !in broken
    ensures var k0 := Least(Ahead(s.clients.Keys, c));
            var s1 := Written(s, SocketOf(s, k0), text);
            && SendToAll(env, s, text, c) == SendToAll(env, s1, text, At(k0))
            && Connected(s1) && Stable(env, s1, SendToAll(env, s1, text, At(k0)).clock, broken)
            && Failing(s1, broken) == Failing(s, broken) <= Ahead(s1.clients.Keys, At(k0))
            && |Ahead(s1.clients.Keys, At(k0))| < |Ahead(s.clients.Keys, c)|
  {
    var k0 := Least(Ahead(s.clients.Keys, c));
    var s1 := Written(s, SocketOf(s, k0), text);
    LoopWrites(env, s, text, c);
    WriteFailsIff(env, s, k0, SendToAll(env, s, text, c), broken);
    LoopStep(env, s, text, c);
    WriteKeeps(s, broken, SocketOf(s, k0), text);
    StableRest(env, s, s1, SendToAll(env, s, text, c), broken);
    AheadStep(s.clients.Keys, c);
  }

  lemma {:induction false} AccountFrom(env: Env, s: State, broken: set<Socket>, text: string, c: Cursor)
      returns (lists: seq<string>)
    requires Connected(s) && Stable(env, s, SendToAll(env, s, text, c).clock, broken)
    requires Failing(s, broken) <= Ahead(s.clients.Keys, c)
    ensures Successive(lists, s.users, Failing(s, broken))
    ensures Account(s, SendToAll(env, s, text, c), broken, text, c, lists)
    decreases |s.clients.Keys|, |Ahead(s.clients.Keys, c)|
  {
    if Ahead(s.clients.Keys, c) == {} {
      lists := [];
      return;
    }
    var k0 := Least(Ahead(s.clients.Keys, c));
    if !Live(s, k0) {
      AheadStep(s.clients.Keys, c);
      LoopStep(env, s, text, c);
      lists := AccountFrom(env, s, broken, text, At(k0));
      SkipNull(s, SendToAll(env, s, text, c), broken, text, c, lists);
    } else if SocketOf(s, k0) !in broken {
      var s1 := Written(s, SocketOf(s, k0), text);
      ReadyAfterWrite(env, s, broken, text, c);
      lists := AccountFrom(env, s1, broken, text, At(k0));
      AfterWrite(s, s1, SendToAll(env, s, text, c), broken, text, c, lists);
    } else {
      LeastOfSubset(Failing(s, broken), Ahead(s.clients.Keys, c));
      lists := AccountOfFailure(env, s, broken, text, c);
    }
  }

  /** The state in which the nested broadcast of a failure at f sends its first line, and that line. */
  function Restart(s: State, f: Id): State {
    Ticked(Erased(Ticked(s), f))
  }

  function RestartText(env: Env, s: State, f: Id): string {
    UserListText(s.users - {f}, env.order(s.clock + 1, (s.users - {f}).Keys))
  }

  /** A failed write at f: the loop is the nested broadcast, and then the rest of the loop. */
  lemma LoopAfterFailure(env: Env, s: State, text: string, c: Cursor, f: Id)
    requires Ahead(s.clients.Keys, c) != {} && f == Least(Ahead(s.clients.Keys, c))
    requires Live(s, f) && env.fails(s.clock, SocketOf(s, f))
    ensures SendToAll(env, s, text, c) ==
            SendToAll(env, SendToAll(env, Restart(s, f), RestartText(env, s, f), Begin), text, At(f))
  {
    LoopStep(env, s, text, c);
  }

  /** The failing case: account for the nested broadcast, then for the rest of the loop. */
  lemma {:induction false} AccountOfFailure(env: Env, s: State, broken: set<Socket>, text: string, c: Cursor)
      returns (lists: seq<string>)
    requires Connected(s) && Stable(env, s, SendToAll(env, s, text, c).clock, broken)
    requires Failing(s, broken) <= Ahead(s.clients.Keys, c) != {}
    requires Failing(s, broken) != {} && Least(Failing(s, broken)) == Least(Ahead(s.clients.Keys, c))
    ensures Successive(lists, s.users, Failing(s, broken))
    ensures Account(s, SendToAll(env, s, text, c), broken, text, c, lists)
    decreases |s.clients.Keys|, |Ahead(s.clients.Keys, c)|, 0
  {
    var f := Least(Failing(s, broken));
    var s1, line := Restart(s, f), RestartText(env, s, f);
    var s2, r := SendToAll(env, s1, line, Begin), SendToAll(env, s, text, c);
    LoopWrites(env, s, text, c);
    WriteFailsIff(env, s, f, r, broken);
    LoopAfterFailure(env, s, text, c, f);
    Fewer(s.clients, {f});
    Shrunk(s, s1, {f});
    StableLater(env, s, s1, r.clock, s2.clock, broken);
    var nested := AccountFrom(env, s1, broken, line, Begin);
    StableRest(env, s, s2, r, broken);
    AccountOfRest(env, s1, s2, broken, text, f, line, nested);
    InterruptedFailing(s, s1, s2, broken);
    AfterFailure(s, s1, s2, r, broken, text, c, line, nested);
    lists := [line] + nested;
    assert ListsUsers(line, s.users - {f});
  }

  /** After the nested broadcast nobody is left whose write could fail: the rest of the loop is undisturbed. */
  lemma {:induction false} AccountOfRest(env: Env, s1: State, s2: State, broken: set<Socket>, text: string, f: Id,
                                         line: string, nested: seq<string>)
    requires Connected(s1) && Stable(env, s2, SendToAll(env, s2, text, At(f)).clock, broken)
    requires Account(s1, s2, broken, line, Begin, nested) && s2.nextSocket == s1.nextSocket
    ensures Account(s2, SendToAll(env, s2, text, At(f)), broken, text, At(f), [])
  {
    Shrunk(s1, s2, Failing(s1, broken));
    Fewer(s1.clients, Failing(s1, broken));
    assert Failing(s2, broken) == {};
    UndisturbedLoop(env, s2, broken, text, At(f));
  }

  /** With no broken socket left, the loop just writes the line to everyone still ahead. */
  lemma {:induction false} UndisturbedLoop(env: Env, s: State, broken: set<Socket>, text: string, c: Cursor)
    requires Connected(s) && Stable(env, s, SendToAll(env, s, text, c).clock, broken) && Failing(s, broken) == {}
    ensures Account(s, SendToAll(env, s, text, c), broken, text, c, [])
    decreases |Ahead(s.clients.Keys, c)|
  {
    if Ahead(s.clients.Keys, c) != {} {
      var k0 := Least(Ahead(s.clients.Keys, c));
      var r := SendToAll(env, s, text, c);
      LoopStep(env, s, text, c);
      AheadStep(s.clients.Keys, c);
      if !Live(s, k0) {
        UndisturbedLoop(env, s, broken, text, At(k0));
        SkipNull(s, r, broken, text, c, []);
      } else {
        var s1 := Written(s, SocketOf(s, k0), text);
        ReadyAfterWrite(env, s, broken, text, c);
        UndisturbedLoop(env, s1, broken, text, At(k0));
        AfterWrite(s, s1, r, broken, text, c, []);
      }
    }
  }

  /** Dropping ids from both maps keeps the invariant. */
  lemma Shrunk(s: State, t: State, gone: set<Id>)
    requires Connected(s)
    requires t.clients == s.clients - gone && t.users == s.users - gone && t.nextSocket == s.nextSocket
    ensures Connected(t)
  {
    assert forall k :: Live(t, k) <==> Live(s, k) && k !in gone;
  }

  lemma Fewer(clients: Clients, gone: set<Id>)
    ensures |(clients - gone).Keys| <= |clients.Keys|
    ensures gone * clients.Keys != {} ==> |(clients - gone).Keys| < |clients.Keys|
  {
    SubsetSize((clients - gone).Keys, clients.Keys);
    if k :| k in gone * clients.Keys {
      assert k !in (clients - gone).Keys;
    }
  }

  lemma LeastOfSubset(a: set<string>, b: set<string>)
    requires a <= b && b != {} && Least(b) in a
    ensures Least(a) == Least(b)
  {
    if Least(a) != Least(b) {
      LessAsymmetric(Least(a), Least(b));
    }
  }

  /* ----- the theorems ----- */

  /** Survivor k's log has grown by these lines, arranged by the number of failing ids below k. */
  ghost predicate GrewBy(s: State, r: State, broken: set<Socket>, lines: seq<string>, k: Id)
    requires Survives(s, broken, k)
  {
    && |lines| == |Failing(s, broken)| + 1
    && Below(Failing(s, broken), k) <= |lines|
    && Received(r.out, SocketOf(s, k)) ==
       Received(s.out, SocketOf(s, k)) + Arrange(lines, Below(Failing(s, broken), k))
  }

  /** Exactly the failing ids are gone, every survivor got the lines, and no other socket got anything. */
  ghost predicate Delivered(s: State, r: State, broken: set<Socket>, lines: seq<string>) {
    && r.clients == s.clients - Failing(s, broken)
    && r.users == s.users - Failing(s, broken)
    && (forall k :: Survives(s, broken, k) ==> GrewBy(s, r, broken, lines, k))
    && (forall q :: (forall k :: Survives(s, broken, k) ==> SocketOf(s, k) != q) ==>
                      Received(r.out, q) == Received(s.out, q))
  }

  lemma AccountIsDelivery(s: State, r: State, broken: set<Socket>, text: string, lists: seq<string>)
    requires Account(s, r, broken, text, Begin, lists)
    ensures Delivered(s, r, broken, [text] + lists)
  {
    forall k | Survives(s, broken, k) ensures GrewBy(s, r, broken, [text] + lists, k) {
      assert SurvivorAccount(s, r, Failing(s, broken), text, Begin, lists, k);
      BelowBound(Failing(s, broken), k);
    }
  }

  /**
    A user list broadcast with failing set F drops exactly F, and every survivor gets |F| + 1 user
    lists: one of the users at the start, and one of each set left over as F is dropped, smallest first.
   */
  lemma BroadcastTheorem(env: Env, s: State, broken: set<Socket>) returns (lines: seq<string>)
    requires Connected(s) && Stable(env, s, Broadcast(env, s).clock, broken)
    ensures Delivered(s, Broadcast(env, s), broken, lines)
    ensures lines != [] && ListsUsers(lines[0], s.users) && Successive(lines[1..], s.users, Failing(s, broken))
  {
    var text := UserListText(s.users, env.order(s.clock, s.users.Keys));
    TickKeeps(s, broken);
    StableRest(env, s, Ticked(s), Broadcast(env, s), broken);
    var lists := AccountFrom(env, Ticked(s), broken, text, Begin);
    AccountIsDelivery(Ticked(s), Broadcast(env, s), broken, text, lists);
    lines := [text] + lists;
    SameDelivery(s, Ticked(s), Broadcast(env, s), broken, lines);
    assert ListsUsers(text, s.users);
  }

  lemma TickKeeps(s: State, broken: set<Socket>)
    requires Connected(s)
    ensures Connected(Ticked(s)) && Failing(Ticked(s), broken) == Failing(s, broken)
  {
    assert forall k :: Live(Ticked(s), k) <==> Live(s, k);
  }

  lemma SameDelivery(s: State, t: State, r: State, broken: set<Socket>, lines: seq<string>)
    requires t.clients == s.clients && t.users == s.users && t.out == s.out
    requires Delivered(t, r, broken, lines)
    ensures Delivered(s, r, broken, lines)
  {
    assert Failing(s, broken) == Failing(t, broken);
    forall k | Survives(s, broken, k) ensures GrewBy(s, r, broken, lines, k) {
      assert Survives(t, broken, k);
      assert GrewBy(t, r, broken, lines, k);
    }
    assert forall k :: Survives(t, broken, k) ==> Survives(s, broken, k);
  }

  /**
    A plain chat line with failing set F is delivered exactly once to every survivor, together with
    exactly |F| user lists: the cascade of the first failure already drops every other failing client.
   */
  lemma ChatTheorem(env: Env, s: State, r: State, broken: set<Socket>, id: Id, text: string) returns (lists: seq<string>)
    requires r == OnChat(env, s, id, text)
    requires Connected(s) && Stable(env, s, r.clock, broken)
    ensures Delivered(s, r, broken, [ChatText(NicknameOf(s.users, id), text)] + lists)
    ensures Successive(lists, s.users, Failing(s, broken))
  {
    var line := ChatText(NicknameOf(s.users, id), text);
    lists := AccountFrom(env, s, broken, line, Begin);
    AccountIsDelivery(s, r, broken, line, lists);
  }
}
