/**
  What a client that got through a cascade has on its screen at the end: which user list came last, after
  each of the handlers that can set a cascade off.
 */
module Views {
  import opened Text
  import opened Keys
  import opened Lists
  import opened ActiveUsers
  import opened Machine
  import opened Cascade
  import opened Runs

  /* ----- what the arrangement means ----- */

  function Reversed(xs: seq<string>): seq<string> {
    if xs == [] then [] else Reversed(xs[1..]) + [xs[0]]
  }

  /** With j failing ids below it, a survivor sees the lists from the j-th on, and then the first j backwards. */
  lemma {:induction false} ArrangeClosedForm(lines: seq<string>, j: nat)
    requires j <= |lines|
    ensures Arrange(lines, j) == lines[j..] + Reversed(lines[..j])
  {
    if j > 0 {
      ArrangeClosedForm(lines[1..], j - 1);
      assert lines[1..][j - 1..] == lines[j..];
      assert lines[..j][1..] == lines[1..][..j - 1];
      assert lines[j..] + Reversed(lines[..j]) == lines[j..] + Reversed(lines[..j][1..]) + [lines[0]];
    }
  }

  /** Every line comes exactly once. */
  lemma {:induction false} ArrangeKeepsEachLine(lines: seq<string>, j: nat)
    requires j <= |lines|
    ensures multiset(Arrange(lines, j)) == multiset(lines)
    ensures |Arrange(lines, j)| == |lines|
  {
    if j > 0 {
      ArrangeKeepsEachLine(lines[1..], j - 1);
      assert lines == [lines[0]] + lines[1..];
    }
  }

  lemma {:induction false} LastOfSuccessive(lines: seq<string>, users: Users, failing: set<Id>)
    requires Successive(lines, users, failing) && failing != {}
    ensures lines != [] && ListsUsers(lines[|lines| - 1], users - failing)
  {
    var f := Least(failing);
    if failing == {f} {
      assert lines[1..] == [];
    } else {
      assert failing - {f} != {};
      LastOfSuccessive(lines[1..], users - {f}, failing - {f});
      assert users - {f} - (failing - {f}) == users - failing;
    }
  }

  function Width(users: Users, order: seq<Id>): nat {
    |Terminated(NamesOf(users, order))|
  }

  lemma {:induction false} MoreNamesAreLonger(users: Users, more: seq<Id>, fewer: seq<Id>)
    requires Distinct(more) && Distinct(fewer)
    requires forall k :: k in more ==> k in users
    requires forall k :: k in fewer ==> k in more
    ensures |fewer| <= |more| && Width(users, fewer) <= Width(users, more)
    ensures |fewer| < |more| ==> Width(users, fewer) < Width(users, more)
  {
    if fewer != [] {
      assert fewer[0] in fewer;
      var i :| 0 <= i < |more| && more[i] == fewer[0];
      var rest := more[..i] + more[i + 1..];
      TakeOut(more, i, fewer);
      MoreNamesAreLonger(users, rest, fewer[1..]);
      WidthWithout(users, more, i);
      WidthWithout(users, fewer, 0);
      assert fewer[..0] + fewer[1..] == fewer[1..];
    } else if more != [] {
      assert more[0] in more;
      WidthWithout(users, more, 0);
    }
  }

  lemma WidthWithout(users: Users, order: seq<Id>, i: nat)
    requires i < |order| && order[i] in users
    ensures Width(users, order) == Width(users, order[..i] + order[i + 1..]) + |users[order[i]]| + 1
  {
    NamesWithout(users, order[..i], order[i], order[i + 1..]);
    assert order == order[..i] + ([order[i]] + order[i + 1..]);
  }

  lemma TakeOut(more: seq<Id>, i: nat, fewer: seq<Id>)
    requires Distinct(more) && Distinct(fewer) && fewer != []
    requires i < |more| && more[i] == fewer[0]
    requires forall k :: k in fewer ==> k in more
    ensures var rest := more[..i] + more[i + 1..];
            && Distinct(rest)
            && (forall k :: k in rest ==> k in more)
            && (forall k :: k in fewer[1..] ==> k in rest)
  {
    var rest := more[..i] + more[i + 1..];
    forall k | k in fewer[1..] ensures k in rest {
      assert k in fewer && k in more;
      var j :| 0 <= j < |more| && more[j] == k;
      assert k == if j < i then rest[j] else rest[j - 1];
    }
  }

  lemma {:induction false} TerminatedLength(a: seq<string>, b: seq<string>)
    ensures |Terminated(a + b)| == |Terminated(a)| + |Terminated(b)|
  {
    if a == [] {
      assert a + b == b;
    } else {
      assert (a + b)[1..] == a[1..] + b;
      TerminatedLength(a[1..], b);
    }
  }

  lemma NamesWithout(users: Users, a: seq<Id>, x: Id, b: seq<Id>)
    requires x in users
    ensures |Terminated(NamesOf(users, a + ([x] + b)))| == |Terminated(NamesOf(users, a + b))| + |users[x]| + 1
  {
    NamesOfConcat(users, a, [x] + b);
    NamesOfConcat(users, [x], b);
    NamesOfConcat(users, a, b);
    TerminatedLength(NamesOf(users, a), NamesOf(users, [x] + b));
    TerminatedLength(NamesOf(users, [x]), NamesOf(users, b));
    TerminatedLength(NamesOf(users, a), NamesOf(users, b));
    assert [users[x]][1..] == [];
    assert NamesOf(users, [x]) == [users[x]];
  }

  lemma {:induction false} SameNames(users: Users, fewer: Users, order: seq<Id>)
    requires forall k :: k in fewer ==> k in users && users[k] == fewer[k]
    requires forall k :: k in order ==> k in fewer
    ensures NamesOf(users, order) == NamesOf(fewer, order)
    ensures order != [] ==> NamesOf(users, order) != []
  {
    if order != [] {
      assert order[0] in order;
      SameNames(users, fewer, order[1..]);
    }
  }

  /** A list of some of the users is never also a list of all of them. */
  lemma ListsOneSetOnly(line: string, users: Users, gone: set<Id>)
    requires ListsUsers(line, users) && gone * users.Keys != {} && users.Keys - gone != {}
    ensures !ListsUsers(line, users - gone)
  {
    var fewer := users - gone;
    if ListsUsers(line, fewer) {
      var o1 :| Enumerates(o1, users.Keys) && line == UserListText(users, o1);
      var o2 :| Enumerates(o2, fewer.Keys) && line == UserListText(fewer, o2);
      SameNames(users, users, o1);
      SameNames(users, fewer, o2);
      MoreNamesAreLonger(users, o1, o2);
      var x :| x in gone * users.Keys;
      var y :| y in fewer;
      assert y in o2;
      NotAll(o1, o2, x);
      DropLastComma(NamesOf(users, o1));
      DropLastComma(NamesOf(users, o2));
      UserListLength(users, o1);
      UserListLength(fewer, o2);
    }
  }

  lemma UserListLength(users: Users, order: seq<Id>)
    ensures |UserListText(users, order)| == |Joined(NamesOf(users, order))| + 11
  {
  }

  lemma NotAll(more: seq<Id>, fewer: seq<Id>, x: Id)
    requires Distinct(more) && Distinct(fewer)
    requires forall k :: k in fewer ==> k in more
    requires x in more && x !in fewer
    ensures |fewer| < |more|
  {
    var a, b := set k | k in fewer, set k | k in more;
    SeqSize(fewer);
    SeqSize(more);
    SubsetSize(a, b);
    assert x in b && x !in a;
  }

  lemma {:induction false} SeqSize(xs: seq<Id>)
    requires Distinct(xs)
    ensures |set k | k in xs| == |xs|
  {
    if xs != [] {
      SeqSize(xs[1..]);
      assert (set k | k in xs) == {xs[0]} + set k | k in xs[1..];
      assert xs[0] !in xs[1..];
    }
  }

  /**
    A survivor is left with the up-to-date user list on screen exactly when no failing id comes before
    its own. Behind a failing id the outer loop resumes with its old text, and the last list a survivor
    sees still names every client that was dropped.
   */
  lemma UpToDateViewIff(env: Env, s: State, broken: set<Socket>, k: Id)
    requires Connected(s) && Stable(env, s, Broadcast(env, s).clock, broken) && Survives(s, broken, k)
    ensures var log := Received(Broadcast(env, s).out, SocketOf(s, k));
            && log != []
            && (ListsUsers(log[|log| - 1], Broadcast(env, s).users) <==>
                forall f :: f in Failing(s, broken) ==> !Less(f, k))
            && (!ListsUsers(log[|log| - 1], Broadcast(env, s).users) ==> ListsUsers(log[|log| - 1], s.users))
  {
    var lines := BroadcastTheorem(env, s, broken);
    var j := Below(Failing(s, broken), k);
    assert GrewBy(s, Broadcast(env, s), broken, lines, k);
    LastLine(lines, j);
    BelowIsZero(Failing(s, broken), k);
    FirstAndLastList(lines, s, broken, k);
  }

  lemma FirstAndLastList(lines: seq<string>, s: State, broken: set<Socket>, k: Id)
    requires Connected(s) && Survives(s, broken, k)
    requires lines != [] && ListsUsers(lines[0], s.users) && Successive(lines[1..], s.users, Failing(s, broken))
    ensures ListsUsers(lines[|lines| - 1], s.users - Failing(s, broken))
    ensures Below(Failing(s, broken), k) > 0 ==> !ListsUsers(lines[0], s.users - Failing(s, broken))
  {
    var failing := Failing(s, broken);
    BelowBound(failing, k);
    if failing == {} {
      assert s.users - failing == s.users;
    } else {
      LastOfSuccessive(lines[1..], s.users, failing);
      var f :| f in failing;
      assert f in failing * s.users.Keys && k in s.users.Keys - failing;
      ListsOneSetOnly(lines[0], s.users, failing);
    }
  }

  lemma BelowIsZero(failing: set<Id>, k: Id)
    ensures Below(failing, k) == 0 <==> forall f :: f in failing ==> !Less(f, k)
  {
    var below := set x | x in failing && Less(x, k);
    if f :| f in failing && Less(f, k) {
      assert f in below;
    } else {
      assert below == {};
    }
  }

  lemma {:induction false} LastLine(lines: seq<string>, j: nat)
    requires j <= |lines| && lines != []
    ensures Arrange(lines, j) != []
    ensures var shown := Arrange(lines, j);
            shown[|shown| - 1] == if j == 0 then lines[|lines| - 1] else lines[0]
  {
  }

  /* ----- after a connection, a nickname and a disconnection ----- */

  /** The last line in k's log, from state s to r, is an up-to-date user list. */
  ghost predicate SeesCurrentUsers(r: State, q: Socket) {
    var log := Received(r.out, q);
    log != [] && ListsUsers(log[|log| - 1], r.users)
  }

  /** Who sees the current users after a connection, a nickname and a disconnection: those with no failing id before them. */
  lemma AcceptViewIff(env: Env, s: State, broken: set<Socket>, id: Id, k: Id)
    requires Connected(s) && Stable(env, Registered(s, id), Accepted(env, s, id).clock, broken)
    requires Survives(Registered(s, id), broken, k)
    ensures SeesCurrentUsers(Accepted(env, s, id), SocketOf(Registered(s, id), k)) <==>
            forall f :: f in Failing(Registered(s, id), broken) ==> !Less(f, k)
  {
    RegisterKeeps(s, id);
    UpToDateViewIff(env, Registered(s, id), broken, k);
  }

  lemma NicknameViewIff(env: Env, s: State, broken: set<Socket>, id: Id, nickname: string, k: Id)
    requires Connected(s) && Stable(env, s, OnNickname(env, s, id, nickname).clock, broken)
    requires Survives(s, broken, k)
    ensures SeesCurrentUsers(OnNickname(env, s, id, nickname), SocketOf(s, k)) <==>
            forall f :: f in Failing(s, broken) ==> !Less(f, k)
  {
    var t := NewlyNamed(s, id, nickname);
    NamedIsRenamed(s, id, nickname);
    NamedIsStable(env, s, broken, id, nickname);
    UpToDateViewIff(env, t, broken, k);
  }

  lemma DisconnectViewIff(env: Env, s: State, broken: set<Socket>, id: Id, k: Id)
    requires Connected(s) && Stable(env, s, Disconnect(env, s, id).clock, broken)
    requires id in s.clients && k != id && Survives(s, broken, k)
    ensures SeesCurrentUsers(Disconnect(env, s, id), SocketOf(s, k)) <==>
            forall f :: f in Failing(s, broken) && f != id ==> !Less(f, k)
  {
    var t := Erased(s, id);
    Shrunk(s, t, {id});
    ErasedIsStable(env, s, broken, id);
    UpToDateViewIff(env, t, broken, k);
  }

  /* ----- after a chat line ----- */

  lemma AtMostOneBelow(failing: set<Id>, k: Id)
    ensures Below(failing, k) <= 1 <==>
            forall f, g :: f in failing && g in failing && Less(f, k) && Less(g, k) ==> f == g
  {
    var below := set x | x in failing && Less(x, k);
    if f, g :| f in failing && g in failing && Less(f, k) && Less(g, k) && f != g {
      SubsetSize({f, g}, below);
    } else if below != {} {
      var f :| f in below;
      assert below == {f};
    }
  }

  /** The last user list a survivor got with a chat line: its last line, or the one before if the chat line came last. */
  function LastListAt(log: seq<string>, j: nat): int {
    if j == 0 then |log| - 1 else |log| - 2
  }

  /**
    After a chat line that drops somebody, the last user list a survivor got is up to date exactly when
    there are no two failing ids below its own; otherwise it is the list without the first of them.
   */
  lemma ChatViewIff(env: Env, s: State, broken: set<Socket>, id: Id, text: string, k: Id)
    requires Connected(s) && Stable(env, s, OnChat(env, s, id, text).clock, broken)
    requires Survives(s, broken, k) && Failing(s, broken) != {}
    ensures var r, failing := OnChat(env, s, id, text), Failing(s, broken);
            var log := Received(r.out, SocketOf(s, k));
            var last := LastListAt(log, Below(failing, k));
            && |Received(s.out, SocketOf(s, k))| <= last < |log|
            && (last != |log| - 1 ==> log[|log| - 1] == ChatText(NicknameOf(s.users, id), text))
            && (ListsUsers(log[last], r.users) <==>
                forall f, g :: f in failing && g in failing && Less(f, k) && Less(g, k) ==> f == g)
            && (!ListsUsers(log[last], r.users) ==> ListsUsers(log[last], s.users - {Least(failing)}))
  {
    var failing, r := Failing(s, broken), OnChat(env, s, id, text);
    var lists := ChatGrowth(env, s, broken, id, text, k);
    var chat, j := ChatText(NicknameOf(s.users, id), text), Below(failing, k);
    AtMostOneBelow(failing, k);
    LastListOfChat(chat, lists, j);
    EndOfLog(Received(s.out, SocketOf(s, k)), Arrange([chat] + lists, j), j);
  }

  /** What the survivor's log has grown by, and which of the lists in it are up to date. */
  lemma ChatGrowth(env: Env, s: State, broken: set<Socket>, id: Id, text: string, k: Id) returns (lists: seq<string>)
    requires Connected(s) && Stable(env, s, OnChat(env, s, id, text).clock, broken)
    requires Survives(s, broken, k) && Failing(s, broken) != {}
    ensures var r, failing := OnChat(env, s, id, text), Failing(s, broken);
            var j := Below(failing, k);
            && lists != [] && j <= |lists|
            && Received(r.out, SocketOf(s, k)) == Received(s.out, SocketOf(s, k)) +
               Arrange([ChatText(NicknameOf(s.users, id), text)] + lists, j)
            && ListsUsers(lists[|lists| - 1], r.users)
            && ListsUsers(lists[0], s.users - {Least(failing)})
            && (j > 1 ==> !ListsUsers(lists[0], r.users))
  {
    lists := ChatTheorem(env, s, OnChat(env, s, id, text), broken, id, text);
    assert GrewBy(s, OnChat(env, s, id, text), broken, [ChatText(NicknameOf(s.users, id), text)] + lists, k);
    SuccessiveLength(lists, s.users, Failing(s, broken));
    BelowBound(Failing(s, broken), k);
    ListsOfChat(lists, s, broken, k);
  }

  lemma EndOfLog(before: seq<string>, shown: seq<string>, j: nat)
    requires |shown| > 1
    ensures var log := before + shown;
            && LastListAt(log, j) == |before| + LastListAt(shown, j)
            && log[LastListAt(log, j)] == shown[LastListAt(shown, j)]
            && log[|log| - 1] == shown[|shown| - 1]
  {
  }

  /** Where the last list stands among the lines a survivor gets, and which one it is. */
  lemma LastListOfChat(chat: string, lists: seq<string>, j: nat)
    requires lists != [] && j <= |lists|
    ensures var shown := Arrange([chat] + lists, j);
            && |shown| == |lists| + 1
            && (j > 0 ==> shown[|shown| - 1] == chat)
            && shown[LastListAt(shown, j)] == if j <= 1 then lists[|lists| - 1] else lists[0]
  {
    var lines := [chat] + lists;
    ArrangeKeepsEachLine(lines, j);
    if j == 0 {
      LastLine(lines, 0);
    } else {
      assert lines[1..] == lists;
      ArrangeKeepsEachLine(lists, j - 1);
      LastLine(lists, j - 1);
    }
  }

  lemma ListsOfChat(lists: seq<string>, s: State, broken: set<Socket>, k: Id)
    requires Connected(s) && Survives(s, broken, k) && Failing(s, broken) != {}
    requires Successive(lists, s.users, Failing(s, broken))
    ensures lists != [] && ListsUsers(lists[|lists| - 1], s.users - Failing(s, broken))
    ensures ListsUsers(lists[0], s.users - {Least(Failing(s, broken))})
    ensures Below(Failing(s, broken), k) > 1 ==> !ListsUsers(lists[0], s.users - Failing(s, broken))
  {
    LastOfSuccessive(lists, s.users, Failing(s, broken));
    BelowBound(Failing(s, broken), k);
    if Below(Failing(s, broken), k) > 1 {
      FirstOfSeveral(lists[0], s.users, Failing(s, broken), Least(Failing(s, broken)), k);
    }
  }

  /** The list without the first of several failing ids still names another one. */
  lemma FirstOfSeveral(line: string, users: Users, failing: set<Id>, f: Id, k: Id)
    requires f in failing && failing <= users.Keys && |failing| > 1 && k in users && k !in failing
    requires ListsUsers(line, users - {f})
    ensures !ListsUsers(line, users - failing)
  {
    var rest := failing - {f};
    assert |failing| == |rest| + 1;
    assert rest != {};
    var g :| g in rest;
    assert g in rest * (users - {f}).Keys;
    assert k in (users - {f}).Keys - rest;
    ListsOneSetOnly(line, users - {f}, rest);
    assert users - {f} - rest == users - failing;
  }
}
