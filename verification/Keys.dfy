/**
  Traversing containers: `std::map` visits its keys in ascending order, `std::unordered_map`
  and `std::unordered_set` in an order that only has to list every element once.
 */
module Keys {

  /** std::string's operator<. */
  predicate Less(a: string, b: string) {
    b != "" && (a == "" || a[0] < b[0] || (a[0] == b[0] && Less(a[1..], b[1..])))
  }

  lemma {:induction false} LessIrreflexive(a: string)
    ensures !Less(a, a)
  {
    if a != "" {
      LessIrreflexive(a[1..]);
    }
  }

  lemma {:induction false} LessTotal(a: string, b: string)
    ensures Less(a, b) || a == b || Less(b, a)
  {
    if a != "" && b != "" && a[0] == b[0] {
      LessTotal(a[1..], b[1..]);
      assert a == [a[0]] + a[1..] && b == [b[0]] + b[1..];
    }
  }

  lemma {:induction false} LessTransitive(a: string, b: string, c: string)
    requires Less(a, b) && Less(b, c)
    ensures Less(a, c)
  {
    if a != "" && a[0] == b[0] == c[0] {
      LessTransitive(a[1..], b[1..], c[1..]);
    }
  }

  lemma LessAsymmetric(a: string, b: string)
    requires Less(a, b)
    ensures !Less(b, a)
  {
    if Less(b, a) {
      LessTransitive(a, b, a);
      LessIrreflexive(a);
    }
  }

  /** The two texts agree before position n, and there b goes on with a greater character, or a ends and b does not. */
  predicate DiffersAt(a: string, b: string, n: nat) {
    && n <= |a| && n < |b| && a[..n] == b[..n]
    && (n < |a| ==> a[n] < b[n])
  }

  /** The order is decided by the first difference, whatever the lengths. */
  lemma {:induction false} LessIff(a: string, b: string)
    ensures Less(a, b) <==> exists n: nat :: DiffersAt(a, b, n)
  {
    if a == "" || b == "" || a[0] != b[0] {
      if b != "" {
        assert DiffersAt(a, b, 0) <==> a == "" || a[0] < b[0];
      }
      forall n: nat | DiffersAt(a, b, n) ensures n == 0 {
      }
    } else {
      LessIff(a[1..], b[1..]);
      forall n: nat ensures DiffersAt(a, b, n + 1) <==> DiffersAt(a[1..], b[1..], n) {
        DiffersLater(a, b, n);
      }
      if n: nat :| DiffersAt(a, b, n) {
        assert n > 0;
        assert DiffersAt(a[1..], b[1..], n - 1);
      }
      if n: nat :| DiffersAt(a[1..], b[1..], n) {
        assert DiffersAt(a, b, n + 1);
      }
    }
  }

  lemma DiffersLater(a: string, b: string, n: nat)
    requires a != "" && b != "" && a[0] == b[0]
    ensures DiffersAt(a, b, n + 1) <==> DiffersAt(a[1..], b[1..], n)
  {
    if n + 1 <= |a| && n + 1 <= |b| {
      assert a[..n + 1] == [a[0]] + a[1..][..n];
      assert b[..n + 1] == [b[0]] + b[1..][..n];
      SameTails(a[0], a[1..][..n], b[1..][..n]);
    }
  }

  lemma SameTails(c: char, x: string, y: string)
    ensures [c] + x == [c] + y <==> x == y
  {
    if [c] + x == [c] + y {
      assert x == ([c] + x)[1..] && y == ([c] + y)[1..];
    }
  }

  /** After a common beginning the first different characters decide, and a text comes before its continuations. */
  lemma {:induction false} LessByFirstDifference(p: string, c: char, x: string, d: char, y: string)
    requires c != d
    ensures Less(p + [c] + x, p + [d] + y) <==> c < d
    ensures Less(p, p + [c] + x) && !Less(p + [c] + x, p)
  {
    if p == "" {
      assert p + [c] + x == [c] + x && p + [d] + y == [d] + y;
    } else {
      assert (p + [c] + x)[1..] == p[1..] + [c] + x;
      assert (p + [d] + y)[1..] == p[1..] + [d] + y;
      LessByFirstDifference(p[1..], c, x, d, y);
    }
  }

  /* ----- finite sets ----- */

  lemma {:induction false} SubsetSize<T>(a: set<T>, b: set<T>)
    requires a <= b
    ensures |a| <= |b|
    ensures a != b ==> |a| < |b|
  {
    if a == {} {
      assert b != {} ==> |b| > 0;
    } else {
      var x :| x in a;
      SubsetSize(a - {x}, b - {x});
    }
  }

  /* ----- ascending order ----- */

  predicate IsLeast(k: string, keys: set<string>) {
    k in keys && forall x :: x in keys && x != k ==> Less(k, x)
  }

  lemma {:induction false} LeastExists(keys: set<string>)
    requires keys != {}
    ensures exists k :: IsLeast(k, keys)
  {
    var x :| x in keys;
    if keys == {x} {
      assert IsLeast(x, keys);
    } else {
      LeastExists(keys - {x});
      var y :| IsLeast(y, keys - {x});
      LessTotal(x, y);
      if Less(x, y) {
        forall z | z in keys && z != x ensures Less(x, z) {
          if z != y {
            LessTransitive(x, y, z);
          }
        }
        assert IsLeast(x, keys);
      } else {
        assert IsLeast(y, keys);
      }
    }
  }

  function Least(keys: set<string>): (k: string)
    requires keys != {}
    ensures IsLeast(k, keys)
  {
    LeastExists(keys);
    assert forall a, b :: IsLeast(a, keys) && IsLeast(b, keys) ==> a == b by {
      forall a, b | IsLeast(a, keys) && IsLeast(b, keys) ensures a == b {
        if a != b {
          LessAsymmetric(a, b);
        }
      }
    }
    var k :| k in keys && IsLeast(k, keys);
    k
  }

  /** The position of a map iterator: before the first key, or at a key (present or just erased). */
  datatype Cursor = Begin | At(key: string)

  /** The keys an iterator at c has still to visit. */
  function Ahead(keys: set<string>, c: Cursor): set<string> {
    set k | k in keys && (c.Begin? || Less(c.key, k))
  }

  /** Stepping to the next greater key leaves exactly the other keys ahead. */
  lemma AheadStep(keys: set<string>, c: Cursor)
    requires Ahead(keys, c) != {}
    ensures Ahead(keys, At(Least(Ahead(keys, c)))) == Ahead(keys, c) - {Least(Ahead(keys, c))}
    ensures |Ahead(keys, At(Least(Ahead(keys, c))))| < |Ahead(keys, c)|
  {
    var k := Least(Ahead(keys, c));
    LessIrreflexive(k);
    forall x | x in keys && Less(k, x) ensures x in Ahead(keys, c) {
      if c.At? {
        LessTransitive(c.key, k, x);
      }
    }
    assert Ahead(keys, At(k)) == Ahead(keys, c) - {k};
  }

  /* ----- any order ----- */

  predicate Distinct<T(==)>(xs: seq<T>) {
    forall i, j :: 0 <= i < j < |xs| ==> xs[i] != xs[j]
  }

  /** order lists the keys, each once. */
  predicate Enumerates(order: seq<string>, keys: set<string>) {
    && Distinct(order)
    && (forall k :: k in order ==> k in keys)
    && (forall k :: k in keys ==> k in order)
  }

  function Ascending(keys: set<string>): (order: seq<string>)
    ensures Enumerates(order, keys)
  {
    if keys == {} then [] else [Least(keys)] + Ascending(keys - {Least(keys)})
  }
}
