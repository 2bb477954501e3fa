/** ORDER BY as a function: the ascending sequence of a finite set under a strict total order, with the
    byte order of keys. */
module Ordering {

  type Less<!T> = (T, T) -> bool

  ghost predicate StrictTotal<T(!new)>(lt: Less<T>) {
    && (forall x :: !lt(x, x))
    && (forall x, y, z :: lt(x, y) && lt(y, z) ==> lt(x, z))
    && (forall x, y :: x == y || lt(x, y) || lt(y, x))
  }

  predicate IsMin<T(==)>(m: T, s: set<T>, lt: Less<T>) {
    m in s && forall y :: y in s ==> y == m || lt(m, y)
  }

  lemma {:induction false} MinExists<T(!new)>(s: set<T>, lt: Less<T>)
    requires StrictTotal(lt) && s != {}
    ensures exists m :: IsMin(m, s, lt)
  {
    var x :| x in s;
    if s == {x} {
      assert IsMin(x, s, lt);
    } else {
      assert s - {x} != {};
      MinExists(s - {x}, lt);
      var m :| IsMin(m, s - {x}, lt);
      var k := if lt(x, m) then x else m;
      forall y | y in s
        ensures y == k || lt(k, y)
      {
        if y != x {
          assert y in s - {x};
        }
      }
      assert IsMin(k, s, lt);
    }
  }

  /** SELECT ... ORDER BY. */
  function Sorted<T(==, !new)>(s: set<T>, lt: Less<T>): seq<T>
    requires StrictTotal(lt)
    decreases |s|
  {
    if s == {} then []
    else
      MinExists(s, lt);
      var m :| IsMin(m, s, lt);
      [m] + Sorted(s - {m}, lt)
  }

  predicate Ascending<T>(q: seq<T>, lt: Less<T>) {
    forall i, j :: 0 <= i < j < |q| ==> lt(q[i], q[j])
  }

  predicate SameElements<T(==)>(q: seq<T>, s: set<T>) {
    && (forall x :: x in q ==> x in s)
    && (forall x :: x in s ==> x in q)
  }

  /** The first row of the answer is the least, and the rest answers the rest. */
  lemma SortedHead<T(!new)>(s: set<T>, lt: Less<T>)
    requires StrictTotal(lt) && s != {}
    ensures
      var z := Sorted(s, lt);
      z != [] && IsMin(z[0], s, lt) && z == [z[0]] + Sorted(s - {z[0]}, lt)
  {
    MinExists(s, lt);
  }

  lemma AscendingCons<T>(m: T, rest: seq<T>, lt: Less<T>)
    requires Ascending(rest, lt) && forall i :: 0 <= i < |rest| ==> lt(m, rest[i])
    ensures Ascending([m] + rest, lt)
  {
  }

  lemma {:induction false} SortedIsSorted<T(!new)>(s: set<T>, lt: Less<T>)
    requires StrictTotal(lt)
    ensures Ascending(Sorted(s, lt), lt) && SameElements(Sorted(s, lt), s) && |Sorted(s, lt)| == |s|
    decreases |s|
  {
    if s != {} {
      SortedHead(s, lt);
      var m := Sorted(s, lt)[0];
      var rest := Sorted(s - {m}, lt);
      SortedIsSorted(s - {m}, lt);
      assert forall i :: 0 <= i < |rest| ==> rest[i] in rest;
      AscendingCons(m, rest, lt);
      forall x | x in s
        ensures x in [m] + rest
      {
        if x != m {
          assert x in s - {m};
        }
      }
    }
  }

  /** A set has only one ascending listing, so whatever is ascending and lists the set is the query's
      answer. */
  lemma {:induction false} SortedUnique<T(!new)>(q: seq<T>, s: set<T>, lt: Less<T>)
    requires StrictTotal(lt) && Ascending(q, lt) && SameElements(q, s)
    ensures q == Sorted(s, lt)
    decreases |s|
  {
    if q == [] {
      assert s == {};
    } else {
      var m := q[0];
      assert m in q;
      forall y | y in s
        ensures y == m || lt(m, y)
      {
        var k :| 0 <= k < |q| && q[k] == y;
      }
      assert IsMin(m, s, lt);
      assert Sorted(s, lt) == [m] + Sorted(s - {m}, lt);
      var rest := q[1..];
      forall x | x in s - {m}
        ensures x in rest
      {
        var k :| 0 <= k < |q| && q[k] == x;
        assert rest[k - 1] == x;
      }
      forall x | x in rest
        ensures x in s - {m}
      {
        var k :| 0 <= k < |rest| && rest[k] == x;
        assert q[k + 1] in q && lt(m, q[k + 1]);
      }
      SortedUnique(rest, s - {m}, lt);
    }
  }

  /** The listing of what lies above a bound is the listing from that place on. */
  lemma SortedAbove<T(!new)>(s: set<T>, above: set<T>, lt: Less<T>, n: nat)
    requires StrictTotal(lt) && n <= |s| && |Sorted(s, lt)| == |s|
    requires above <= s
    requires forall i :: 0 <= i < |s| ==> (Sorted(s, lt)[i] in above <==> n <= i)
    ensures Sorted(above, lt) == Sorted(s, lt)[n..]
  {
    SortedIsSorted(s, lt);
    var z := Sorted(s, lt);
    var q := z[n..];
    forall x | x in above
      ensures x in q
    {
      var k :| 0 <= k < |z| && z[k] == x;
      assert q[k - n] == x;
    }
    forall x | x in q
      ensures x in above
    {
      var k :| 0 <= k < |q| && q[k] == x;
      assert z[k + n] == x;
    }
    SortedUnique(q, above, lt);
  }

  // ---------------------------------------------------------------- keys

  /** Byte order of strings. */
  predicate LexLess(a: string, b: string) {
    if b == "" then false
    else if a == "" then true
    else a[0] < b[0] || (a[0] == b[0] && LexLess(a[1..], b[1..]))
  }

  /** The order without recursion: at the first place where they differ a has the smaller byte, or a ends there. */
  ghost predicate ByteOrder(a: string, b: string) {
    exists n :: FirstDifference(a, b, n)
  }

  predicate FirstDifference(a: string, b: string, n: nat) {
    && n <= |a| && n < |b| && a[..n] == b[..n]
    && (n == |a| || a[n] < b[n])
  }

  lemma {:induction false} LexIsByteOrder(a: string, b: string)
    ensures LexLess(a, b) <==> ByteOrder(a, b)
  {
    if a != "" && b != "" && a[0] == b[0] {
      LexIsByteOrder(a[1..], b[1..]);
      hide FirstDifference;
      if ByteOrder(a[1..], b[1..]) {
        var n: nat :| FirstDifference(a[1..], b[1..], n);
        SameStart(a, b, n);
      }
      if ByteOrder(a, b) {
        var n: nat :| FirstDifference(a, b, n);
        SameRest(a, b, n);
      }
    } else {
      FirstBytes(a, b);
    }
  }

  lemma FirstBytes(a: string, b: string)
    requires a == "" || b == "" || a[0] != b[0]
    ensures ByteOrder(a, b) <==> b != "" && (a == "" || a[0] < b[0])
  {
    if b != "" && (a == "" || a[0] < b[0]) {
      assert FirstDifference(a, b, 0);
    }
    forall n: nat | FirstDifference(a, b, n)
      ensures n == 0
    {
      SameFirst(a, b, n);
    }
  }

  lemma SameFirst(a: string, b: string, n: nat)
    requires FirstDifference(a, b, n)
    ensures n > 0 ==> a != "" && b != "" && a[0] == b[0]
  {
    assert n > 0 ==> a[..n][0] == b[..n][0];
  }

  lemma SameRest(a: string, b: string, n: nat)
    requires a != "" && b != "" && a[0] == b[0] && FirstDifference(a, b, n)
    ensures n > 0 && FirstDifference(a[1..], b[1..], n - 1)
  {
    assert a[1..][..n - 1] == a[..n][1..] && b[1..][..n - 1] == b[..n][1..];
  }

  lemma SameStart(a: string, b: string, n: nat)
    requires a != "" && b != "" && a[0] == b[0] && FirstDifference(a[1..], b[1..], n)
    ensures FirstDifference(a, b, n + 1)
  {
    assert a[..n + 1] == [a[0]] + a[1..][..n] && b[..n + 1] == [b[0]] + b[1..][..n];
  }

  lemma {:induction false} LexIrreflexive(a: string)
    ensures !LexLess(a, a)
  {
    if a != "" {
      LexIrreflexive(a[1..]);
    }
  }

  lemma {:induction false} LexTransitive(a: string, b: string, c: string)
    requires LexLess(a, b) && LexLess(b, c)
    ensures LexLess(a, c)
  {
    if a != "" && a[0] == b[0] && b[0] == c[0] {
      LexTransitive(a[1..], b[1..], c[1..]);
    }
  }

  lemma {:induction false} LexTotal(a: string, b: string)
    ensures a == b || LexLess(a, b) || LexLess(b, a)
  {
    if a != "" && b != "" && a[0] == b[0] {
      LexTotal(a[1..], b[1..]);
      if a[1..] == b[1..] {
        assert a == [a[0]] + a[1..] && b == [b[0]] + b[1..];
      }
    }
  }

  lemma LexIsStrictTotal()
    ensures StrictTotal(LexLess)
  {
    forall x
      ensures !LexLess(x, x)
    {
      LexIrreflexive(x);
    }
    forall x, y, z | LexLess(x, y) && LexLess(y, z)
      ensures LexLess(x, z)
    {
      LexTransitive(x, y, z);
    }
    forall x, y
      ensures x == y || LexLess(x, y) || LexLess(y, x)
    {
      LexTotal(x, y);
    }
  }

  // ---------------------------------------------------------------- descending order

  function Reverse<T>(q: seq<T>): (r: seq<T>)
    ensures |r| == |q| && forall i :: 0 <= i < |q| ==> r[i] == q[|q| - 1 - i]
  {
    seq(|q|, i requires 0 <= i < |q| => q[|q| - 1 - i])
  }

  function Flip<T(!new)>(lt: Less<T>): Less<T> {
    (x, y) => lt(y, x)
  }

  /** ORDER BY ... DESC is the ascending answer reversed. */
  lemma SortedDescending<T(!new)>(s: set<T>, lt: Less<T>)
    requires StrictTotal(lt)
    ensures StrictTotal(Flip(lt))
    ensures Sorted(s, Flip(lt)) == Reverse(Sorted(s, lt))
  {
    assert StrictTotal(Flip(lt)) by {
      forall x, y, z | lt(y, x) && lt(z, y)
        ensures lt(z, x)
      {
      }
    }
    SortedIsSorted(s, lt);
    var z := Sorted(s, lt);
    var q := Reverse(z);
    forall x | x in s
      ensures x in q
    {
      var k :| 0 <= k < |z| && z[k] == x;
      assert q[|z| - 1 - k] == x;
    }
    forall x | x in q
      ensures x in s
    {
      var k :| 0 <= k < |q| && q[k] == x;
      assert z[|z| - 1 - k] in z;
    }
    SortedUnique(q, s, Flip(lt));
  }
}
