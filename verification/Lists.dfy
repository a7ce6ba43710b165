/**
  Comma-separated listings: how the server prints them (append "item," and drop the last
  comma) and how the client reads them (split at commas, skipping empty parts).
 */
module Lists {

  lemma Regroup<T>(a: seq<T>, b: seq<T>, c: seq<T>)
    ensures (a + b) + c == a + (b + c)
  {
  }

  function Terminated(items: seq<string>): string {
    if items == [] then "" else items[0] + "," + Terminated(items[1..])
  }

  /** The items with a comma between each two of them. */
  function Joined(items: seq<string>): string {
    if items == [] then "" else if |items| == 1 then items[0] else items[0] + "," + Joined(items[1..])
  }

  lemma {:induction false} TerminatedSnoc(items: seq<string>, x: string)
    ensures Terminated(items + [x]) == Terminated(items) + x + ","
  {
    if items == [] {
      assert items + [x] == [x];
      assert [x][1..] == [];
      assert x + "," + "" == "" + x + ",";
    } else {
      assert (items + [x])[1..] == items[1..] + [x];
      TerminatedSnoc(items[1..], x);
    }
  }

  /** One turn of a loop that appends "item,". */
  lemma ListingGrows(prefix: string, items: seq<string>, x: string)
    ensures prefix + Terminated(items + [x]) == prefix + Terminated(items) + x + ","
  {
    TerminatedSnoc(items, x);
  }

  /** Dropping the last comma of a non-empty listing leaves the join. */
  lemma {:induction false} DropLastComma(items: seq<string>)
    requires items != []
    ensures Terminated(items) == Joined(items) + ","
  {
    if |items| == 1 {
      assert items[1..] == [];
    } else {
      DropLastComma(items[1..]);
    }
  }

  /* ----- QString::split(",", Qt::SkipEmptyParts) ----- */

  function Split(s: string): (parts: seq<string>)
    ensures parts != []
    ensures forall p :: p in parts ==> ',' !in p
  {
    if s == "" then [""]
    else if s[0] == ',' then [""] + Split(s[1..])
    else
      var rest := Split(s[1..]);
      [[s[0]] + rest[0]] + rest[1..]
  }

  /** The parts that are not empty: what SkipEmptyParts leaves, and the lines both ends look at. */
  function NonEmpty(parts: seq<string>): seq<string> {
    if parts == [] then []
    else (if parts[0] == "" then [] else [parts[0]]) + NonEmpty(parts[1..])
  }

  lemma {:induction false} NonEmptyMembers(parts: seq<string>)
    ensures forall p :: p in NonEmpty(parts) <==> p in parts && p != ""
  {
    if parts != [] {
      NonEmptyMembers(parts[1..]);
      assert parts == [parts[0]] + parts[1..];
    }
  }

  function Parts(s: string): seq<string> {
    NonEmpty(Split(s))
  }

  lemma {:induction false} NonEmptyConcat(a: seq<string>, b: seq<string>)
    ensures NonEmpty(a + b) == NonEmpty(a) + NonEmpty(b)
  {
    if a == [] {
      assert a + b == b;
    } else {
      assert (a + b)[1..] == a[1..] + b;
      NonEmptyConcat(a[1..], b);
    }
  }

  lemma {:induction false} SplitCommaFree(a: string)
    requires ',' !in a
    ensures Split(a) == [a]
  {
    if a != "" {
      assert a[0] in a && a == [a[0]] + a[1..];
      SplitCommaFree(a[1..]);
    }
  }

  lemma {:induction false} SplitAfter(a: string, b: string)
    requires ',' !in a
    ensures Split(a + "," + b) == [a] + Split(b)
  {
    if a == "" {
      assert a + "," + b == "," + b;
    } else {
      assert a[0] in a && a == [a[0]] + a[1..];
      assert (a + "," + b)[1..] == a[1..] + "," + b;
      SplitAfter(a[1..], b);
    }
  }

  ghost predicate CommaFree(items: seq<string>) {
    forall x :: x in items ==> ',' !in x
  }

  lemma {:induction false} PartsOfJoined(items: seq<string>)
    requires CommaFree(items)
    ensures Parts(Joined(items)) == NonEmpty(items)
  {
    if items == [] {
    } else if |items| == 1 {
      SplitCommaFree(items[0]);
      assert items == [items[0]];
    } else {
      SplitAfter(items[0], Joined(items[1..]));
      PartsOfJoined(items[1..]);
      NonEmptyConcat([items[0]], Split(Joined(items[1..])));
      NonEmptyConcat([items[0]], items[1..]);
      assert items == [items[0]] + items[1..];
    }
  }

  /** The client's split undoes the server's join on the non-empty items, exactly when no item holds a comma. */
  lemma SplitUndoesJoin(items: seq<string>)
    ensures Parts(Joined(items)) == NonEmpty(items) <==> CommaFree(items)
  {
    if CommaFree(items) {
      PartsOfJoined(items);
    } else {
      var x :| x in items && ',' in x;
      NonEmptyMembers(items);
      NonEmptyMembers(Split(Joined(items)));
      assert x in NonEmpty(items) && x !in Parts(Joined(items));
    }
  }

  /* ----- nicknames in traversal order ----- */

  /** The nicknames of the listed ids, leaving out ids that are not active. */
  function NamesOf(users: map<string, string>, order: seq<string>): seq<string> {
    if order == [] then []
    else (if order[0] in users then [users[order[0]]] else []) + NamesOf(users, order[1..])
  }

  lemma {:induction false} NamesOfConcat(users: map<string, string>, a: seq<string>, b: seq<string>)
    ensures NamesOf(users, a + b) == NamesOf(users, a) + NamesOf(users, b)
  {
    if a == [] {
      assert a + b == b;
    } else {
      assert (a + b)[1..] == a[1..] + b;
      NamesOfConcat(users, a[1..], b);
    }
  }

  lemma NamesOfSnoc(users: map<string, string>, order: seq<string>, i: nat)
    requires i < |order|
    ensures NamesOf(users, order[..i + 1]) ==
            NamesOf(users, order[..i]) + if order[i] in users then [users[order[i]]] else []
  {
    assert order[..i + 1] == order[..i] + [order[i]];
    NamesOfConcat(users, order[..i], [order[i]]);
    assert [order[i]][1..] == [];
  }
}
