/** Sorted sets of internal/store/sqlstore: rank and score queries over the member rows of one key.  Scores
    are real numbers; the members of a key are told apart by their SHA-256 hash, taken to be injective, so
    a key's rows form a map from member to score. */
module ZSets {
  import opened Ordering

  type Members = map<string, real>

  datatype ZMember = ZMember(member: string, score: real)

  /** ORDER BY score ASC, member ASC. */
  predicate ZLess(a: ZMember, b: ZMember) {
    a.score < b.score || (a.score == b.score && LexLess(a.member, b.member))
  }

  lemma ZIsStrictTotal()
    ensures StrictTotal(ZLess)
  {
    LexIsStrictTotal();
    hide LexLess;
    forall x, y, z | ZLess(x, y) && ZLess(y, z)
      ensures ZLess(x, z)
    {
      assert LexLess(x.member, y.member) && LexLess(y.member, z.member) ==> LexLess(x.member, z.member);
    }
    forall x, y: ZMember
      ensures x == y || ZLess(x, y) || ZLess(y, x)
    {
      assert x.member == y.member || LexLess(x.member, y.member) || LexLess(y.member, x.member);
    }
  }

  function Rows(m: Members): set<ZMember> {
    set k | k in m :: ZMember(k, m[k])
  }

  function Listing(rows: set<ZMember>): seq<ZMember> {
    ZIsStrictTotal();
    Sorted(rows, ZLess)
  }

  /** All members in rank order. */
  function Ranking(m: Members): seq<ZMember> {
    Listing(Rows(m))
  }

  /** OFFSET and LIMIT; a negative limit means none. */
  function Window<T>(q: seq<T>, offset: int, limit: int): seq<T> {
    var lo := if offset <= 0 then 0 else if offset > |q| then |q| else offset;
    var hi := if limit < 0 || lo + limit > |q| then |q| else lo + limit;
    q[lo..hi]
  }

  // ---------------------------------------------------------------- ranks

  datatype Range = Empty | Between(start: nat, stop: nat)

  /** normalizeRange, with the row count n it looks up. */
  function NormalizeRange(n: nat, start: int, stop: int): Range {
    var s := if start < 0 then n + start else start;
    var e := if stop < 0 then n + stop else stop;
    var s' := if s < 0 then 0 else s;
    if e < 0 || e < s' then Empty else Between(s', e)
  }

  function ZRange(m: Members, start: int, stop: int): seq<ZMember> {
    match NormalizeRange(|m|, start, stop)
    case Empty => []
    case Between(s, e) => Window(Ranking(m), s, e - s + 1)
  }

  datatype Popped = Popped(members: seq<ZMember>, rest: Members)

  function Names(q: seq<ZMember>): set<string> {
    set x | x in q :: x.member
  }

  /** zpop: the first rows in order, and what is left. */
  function ZPop(m: Members, count: int, max: bool): Popped {
    var n := if count <= 0 then 1 else count;
    ZIsStrictTotal();
    SortedDescending(Rows(m), ZLess);
    var order := if max then Sorted(Rows(m), Flip(ZLess)) else Ranking(m);
    var rows := Window(order, 0, n);
    Popped(rows, m - Names(rows))
  }

  // ---------------------------------------------------------------- rank lemmas

  lemma {:induction false} RowsCount(m: Members)
    ensures |Rows(m)| == |m|
    decreases |m|
  {
    if m != map[] {
      var k :| k in m;
      var m' := m - {k};
      RowsCount(m');
      var x := ZMember(k, m[k]);
      forall j | j in m
        ensures ZMember(j, m[j]) in Rows(m') + {x}
      {
        if j != k {
          assert j in m' && m'[j] == m[j];
        }
      }
      assert x in Rows(m) && x !in Rows(m');
      assert Rows(m) == Rows(m') + {x};
    } else {
      assert Rows(m) == {};
    }
  }

  lemma RankingSize(m: Members)
    ensures |Ranking(m)| == |m|
  {
    ZIsStrictTotal();
    hide ZLess, Sorted;
    RowsCount(m);
    SortedIsSorted(Rows(m), ZLess);
  }

  lemma RankingAscends(m: Members)
    ensures Ascending(Ranking(m), ZLess)
  {
    ZIsStrictTotal();
    hide ZLess, Sorted;
    SortedIsSorted(Rows(m), ZLess);
  }

  lemma RankingRows(m: Members)
    ensures |Ranking(m)| == |m|
    ensures forall i :: 0 <= i < |m| ==> Ranking(m)[i].member in m && Ranking(m)[i].score == m[Ranking(m)[i].member]
    ensures forall k :: k in m ==> ZMember(k, m[k]) in Ranking(m)
  {
    ZIsStrictTotal();
    hide ZLess, Sorted;
    RankingSize(m);
    SortedIsSorted(Rows(m), ZLess);
    var z := Ranking(m);
    forall i | 0 <= i < |m|
      ensures z[i].member in m && z[i].score == m[z[i].member]
    {
      assert z[i] in z;
    }
    forall k | k in m
      ensures ZMember(k, m[k]) in z
    {
      assert ZMember(k, m[k]) in Rows(m);
    }
  }

  /** The ranking lists lower scores first, and equal scores in the byte order of the members. */
  lemma RankingOrder(m: Members, i: nat, j: nat)
    requires i < j < |m| && |Ranking(m)| == |m|
    ensures
      var x, y := Ranking(m)[i], Ranking(m)[j];
      x.score < y.score || (x.score == y.score && ByteOrder(x.member, y.member))
  {
    hide Ranking, LexLess;
    RankingAscends(m);
    var x, y := Ranking(m)[i], Ranking(m)[j];
    assert ZLess(x, y);
    LexIsByteOrder(x.member, y.member);
  }

  predicate Distinct(z: seq<ZMember>) {
    forall i, j :: 0 <= i < j < |z| ==> z[i].member != z[j].member
  }

  lemma RankingDistinct(m: Members)
    ensures Distinct(Ranking(m))
  {
    ZIsStrictTotal();
    hide ZLess, Ranking;
    RankingAscends(m);
    RankingRows(m);
    var z := Ranking(m);
    forall i, j | 0 <= i < j < |z|
      ensures z[i].member != z[j].member
    {
      assert ZLess(z[i], z[j]);
    }
  }

  /** A map whose rows are a stretch of m's ranking has that stretch as its ranking. */
  lemma RankingOfPart(m: Members, part: Members, q: seq<ZMember>, lo: nat, hi: nat)
    requires lo <= hi <= |m| && |Ranking(m)| == |m| && q == Ranking(m)[lo..hi]
    requires forall k :: k in part ==> k in m && part[k] == m[k]
    requires forall i :: 0 <= i < |m| ==> (Ranking(m)[i].member in part <==> lo <= i < hi)
    ensures Ranking(part) == q
  {
    hide ZLess, Ranking;
    RankingAscends(m);
    RankingRows(m);
    var z := Ranking(m);
    forall x | x in q
      ensures x in Rows(part)
    {
      var i :| 0 <= i < |q| && q[i] == x;
      assert x == z[lo + i] && x.member in part && x == ZMember(x.member, part[x.member]);
    }
    forall x | x in Rows(part)
      ensures x in q
    {
      assert ZMember(x.member, m[x.member]) in z;
      var i :| 0 <= i < |z| && z[i] == x;
      assert q[i - lo] == x;
    }
    assert Ascending(q, ZLess);
    PartIsListing(part, q);
  }

  lemma PartIsListing(part: Members, q: seq<ZMember>)
    requires Ascending(q, ZLess) && SameElements(q, Rows(part))
    ensures Ranking(part) == q
  {
    ZIsStrictTotal();
    SortedUnique(q, Rows(part), ZLess);
  }

  function PopCount(m: Members, count: int): (k: nat)
    ensures k <= |m|
  {
    var n := if count <= 0 then 1 else count;
    if n > |m| then |m| else n
  }

  lemma PoppedRows(m: Members, count: int, max: bool)
    ensures
      var p, n := ZPop(m, count, max), if count <= 0 then 1 else count;
      && p.members == Window(if max then Reverse(Ranking(m)) else Ranking(m), 0, n)
      && p.rest == m - Names(p.members)
  {
    hide ZLess, Sorted, StrictTotal, Window, Names;
    ZIsStrictTotal();
    SortedDescending(Rows(m), ZLess);
  }

  lemma PoppedMembers(m: Members, count: int, max: bool)
    ensures
      var k, z := PopCount(m, count), Ranking(m);
      |z| == |m| && ZPop(m, count, max).members == if max then Reverse(z[|m| - k..]) else z[..k]
    ensures ZPop(m, count, max).rest == m - Names(ZPop(m, count, max).members)
  {
    hide Ranking, ZPop, Names;
    PoppedRows(m, count, max);
    RankingSize(m);
    if max {
      ReverseTake(Ranking(m), PopCount(m, count));
    }
  }

  lemma ReverseTake<T>(z: seq<T>, k: nat)
    requires k <= |z|
    ensures Reverse(z)[..k] == Reverse(z[|z| - k..])
  {
  }

  /** Popping takes a run from one end of the ranking and leaves exactly the other part. */
  lemma ZPopMinProperties(m: Members, count: int)
    ensures
      var k, z, p := PopCount(m, count), Ranking(m), ZPop(m, count, false);
      && |z| == |m|
      && p.members == z[..k]
      && Ranking(p.rest) == z[k..]
      && |p.rest| == |m| - k
  {
    hide Ranking, ZPop, Names, PopCount;
    PoppedMembers(m, count, false);
    var k, z, popped := PopCount(m, count), Ranking(m), ZPop(m, count, false).members;
    PoppedRest(m, popped, k, |m|, false);
    assert z[k..|m|] == z[k..];
    RankingSize(m - Names(popped));
  }

  lemma ZPopMaxProperties(m: Members, count: int)
    ensures
      var k, z, p := PopCount(m, count), Ranking(m), ZPop(m, count, true);
      && |z| == |m|
      && p.members == Reverse(z[|m| - k..])
      && Ranking(p.rest) == z[..|m| - k]
      && |p.rest| == |m| - k
  {
    hide Ranking, ZPop, Names, PopCount;
    PoppedMembers(m, count, true);
    var k, z, popped := PopCount(m, count), Ranking(m), ZPop(m, count, true).members;
    PoppedRest(m, popped, 0, |m| - k, true);
    assert z[0..|m| - k] == z[..|m| - k];
    RankingSize(m - Names(popped));
  }

  lemma PoppedRest(m: Members, popped: seq<ZMember>, lo: nat, hi: nat, max: bool)
    requires |Ranking(m)| == |m| && lo <= hi <= |m|
    requires if max then lo == 0 && popped == Reverse(Ranking(m)[hi..]) else hi == |m| && popped == Ranking(m)[..lo]
    ensures Ranking(m - Names(popped)) == Ranking(m)[lo..hi]
  {
    hide Ranking, Names, Distinct;
    var z, rest := Ranking(m), m - Names(popped);
    RankingRows(m);
    RankingDistinct(m);
    forall i | 0 <= i < |m|
      ensures z[i].member in rest <==> lo <= i < hi
    {
      PoppedNames(z, popped, i, lo, hi, max);
    }
    RankingOfPart(m, rest, z[lo..hi], lo, hi);
  }

  lemma PoppedNames(z: seq<ZMember>, popped: seq<ZMember>, i: nat, lo: nat, hi: nat, max: bool)
    requires i < |z| && lo <= hi <= |z|
    requires Distinct(z)
    requires if max then lo == 0 && popped == Reverse(z[hi..]) else hi == |z| && popped == z[..lo]
    ensures z[i].member in Names(popped) <==> !(lo <= i < hi)
  {
    if z[i].member in Names(popped) {
      var x :| x in popped && x.member == z[i].member;
      var j :| 0 <= j < |popped| && popped[j] == x;
      var a := if max then |z| - 1 - j else j;
      assert x == z[a];
    }
    if !(lo <= i < hi) {
      var j := if max then |z| - 1 - i else i;
      assert popped[j] == z[i];
      assert z[i] in popped;
    }
  }

  // ---------------------------------------------------------------- rank theorems

  /** ZRANGE is the Redis slice: with negative indexes counted from the end, it returns, in rank order,
      exactly the members whose rank lies between start and stop. */
  lemma ZRangeIsSlice(m: Members, start: int, stop: int)
    ensures
      var n, z, r := |m|, Ranking(m), ZRange(m, start, stop);
      var s := if start < 0 then n + start else start;
      var e := if stop < 0 then n + stop else stop;
      && |z| == n
      && Ascending(r, ZLess)
      && forall i :: 0 <= i < n ==> (z[i] in r <==> s <= i <= e)
  {
    hide ZLess, Ranking, ZRange, Distinct;
    RankingSize(m);
    RankingAscends(m);
    RankingDistinct(m);
    var n, z := |m|, Ranking(m);
    var s := if start < 0 then n + start else start;
    var e := if stop < 0 then n + stop else stop;
    var lo := if s < 0 then 0 else if s > n then n else s;
    var hi := if e < lo then lo else if e + 1 > n then n else e + 1;
    ZRangeIsStretch(m, start, stop, lo, hi);
    forall i | 0 <= i < n
      ensures z[i] in z[lo..hi] <==> s <= i <= e
    {
      InStretch(z, lo, hi, i);
    }
  }

  lemma ZRangeIsStretch(m: Members, start: int, stop: int, lo: nat, hi: nat)
    requires |Ranking(m)| == |m|
    requires
      var n := |m|;
      var s := if start < 0 then n + start else start;
      var e := if stop < 0 then n + stop else stop;
      && lo == (if s < 0 then 0 else if s > n then n else s)
      && hi == (if e < lo then lo else if e + 1 > n then n else e + 1)
    ensures lo <= hi <= |m| && ZRange(m, start, stop) == Ranking(m)[lo..hi]
  {
    hide Ranking;
  }

  lemma InStretch(z: seq<ZMember>, lo: nat, hi: nat, i: nat)
    requires lo <= hi <= |z| && i < |z|
    requires Distinct(z)
    ensures z[i] in z[lo..hi] <==> lo <= i < hi
  {
    var r := z[lo..hi];
    if lo <= i < hi {
      assert r[i - lo] == z[i];
    }
    if z[i] in r {
      var j :| 0 <= j < |r| && r[j] == z[i];
      assert z[lo + j].member == z[i].member;
    }
  }

  lemma PopCountAdds(m: Members, rest: Members, n: int, k: int)
    requires n >= 1 && k >= 1 && |rest| == |m| - PopCount(m, n)
    ensures PopCount(m, n + k) == PopCount(m, n) + PopCount(rest, k)
  {
  }

  lemma TakeTwice<T>(z: seq<T>, i: nat, j: nat)
    requires i + j <= |z|
    ensures z[..i] + z[i..][..j] == z[..i + j] && z[i..][j..] == z[i + j..]
  {
  }

  /** Popping n members and then k more is popping n + k. */
  lemma ZPopMinAdds(m: Members, n: int, k: int)
    requires n >= 1 && k >= 1
    ensures
      var first := ZPop(m, n, false);
      var second := ZPop(first.rest, k, false);
      ZPop(m, n + k, false) == Popped(first.members + second.members, second.rest)
  {
    hide Ranking, ZPop, PopCount;
    ZPopMinProperties(m, n);
    ZPopMinProperties(m, n + k);
    var first, both := ZPop(m, n, false), ZPop(m, n + k, false);
    ZPopMinProperties(first.rest, k);
    var second := ZPop(first.rest, k, false);
    var z, i, j := Ranking(m), PopCount(m, n), PopCount(first.rest, k);
    PopCountAdds(m, first.rest, n, k);
    TakeTwice(z, i, j);
    assert Ranking(both.rest) == Ranking(second.rest);
    RankingDeterminesMembers(both.rest, second.rest);
  }

  lemma RankingDeterminesMembers(a: Members, b: Members)
    requires Ranking(a) == Ranking(b)
    ensures a == b
  {
    hide Ranking;
    SameRows(a, b);
    SameRows(b, a);
  }

  lemma SameRows(a: Members, b: Members)
    requires Ranking(a) == Ranking(b)
    ensures forall k :: k in a ==> k in b && a[k] == b[k]
  {
    hide Ranking;
    RankingRows(a);
    RankingRows(b);
    forall k | k in a
      ensures k in b && a[k] == b[k]
    {
      assert ZMember(k, a[k]) in Ranking(a);
      var i :| 0 <= i < |Ranking(b)| && Ranking(b)[i] == ZMember(k, a[k]);
    }
  }

  /** ZPOPMAX k is ZRANGE -k -1 backwards. */
  lemma ZPopMaxIsTail(m: Members, k: int)
    requires k >= 1
    ensures ZPop(m, k, true).members == Reverse(ZRange(m, -k, -1))
  {
    hide Ranking, ZPop;
    ZPopMaxProperties(m, k);
    var n := if k > |m| then |m| else k;
    assert ZRange(m, -k, -1) == Ranking(m)[|m| - n..];
  }

  // ---------------------------------------------------------------- score ranges

  datatype ScoreBound = ScoreBound(value: real, infinite: int, exclusive: bool)

  /** applyScoreBounds. */
  predicate InBounds(score: real, min: ScoreBound, max: ScoreBound) {
    && (if min.infinite > 0 then false
        else if min.infinite == 0 then (if min.exclusive then score > min.value else score >= min.value)
        else true)
    && (if max.infinite < 0 then false
        else if max.infinite == 0 then (if max.exclusive then score < max.value else score <= max.value)
        else true)
  }

  function Selected(m: Members, min: ScoreBound, max: ScoreBound): Members {
    map k | k in m && InBounds(m[k], min, max) :: m[k]
  }

  function ZRangeByScore(
      m: Members, min: ScoreBound, max: ScoreBound, offset: int, limit: int, rev: bool): seq<ZMember>
  {
    var rows := Rows(Selected(m, min, max));
    ZIsStrictTotal();
    SortedDescending(rows, ZLess);
    Window(if rev then Sorted(rows, Flip(ZLess)) else Listing(rows), offset, limit)
  }

  function ZCount(m: Members, min: ScoreBound, max: ScoreBound): nat {
    |set k | k in m && InBounds(m[k], min, max)|
  }

  function ZRemRangeByScore(m: Members, min: ScoreBound, max: ScoreBound): (Members, nat) {
    var gone := set k | k in m && InBounds(m[k], min, max);
    (m - gone, |gone|)
  }

  /** Counting, listing without a limit, and removing agree; and removing keeps everyone else. */
  lemma ScoreRangesAgree(m: Members, min: ScoreBound, max: ScoreBound)
    ensures
      var n := ZCount(m, min, max);
      var (rest, removed) := ZRemRangeByScore(m, min, max);
      && |ZRangeByScore(m, min, max, 0, -1, false)| == n == removed
      && |rest| == |m| - n
      && (forall k :: k in rest <==> k in m && !InBounds(m[k], min, max))
      && (forall k :: k in rest ==> rest[k] == m[k])
  {
    hide ZLess, Sorted;
    var sel := Selected(m, min, max);
    RankingSize(sel);
    assert Window(Ranking(sel), 0, -1) == Ranking(sel);
    var gone := set k | k in m && InBounds(m[k], min, max);
    assert sel.Keys == gone;
    assert m.Keys - gone == (m - gone).Keys;
    SubsetSize(gone, m.Keys);
  }

  lemma SubsetSize<T>(a: set<T>, b: set<T>)
    requires a <= b
    ensures |b - a| == |b| - |a|
  {
    assert b == a + (b - a);
  }

  /** A member of the set is listed without a limit, and removed, if and only if `yes`. */
  predicate Picks(m: Members, min: ScoreBound, max: ScoreBound, k: string, yes: bool)
    requires k in m
  {
    && (ZMember(k, m[k]) in ZRangeByScore(m, min, max, 0, -1, false) <==> yes)
    && (k !in ZRemRangeByScore(m, min, max).0 <==> yes)
  }

  lemma PicksInBounds(m: Members, min: ScoreBound, max: ScoreBound, k: string)
    requires k in m
    ensures Picks(m, min, max, k, InBounds(m[k], min, max))
  {
    hide ZLess, Sorted;
    var sel := Selected(m, min, max);
    RankingRows(sel);
    assert Window(Ranking(sel), 0, -1) == Ranking(sel);
    if k in sel {
      assert ZMember(k, sel[k]) in Ranking(sel);
    }
  }

  /** The comparisons written out: a <= s <= b for `a b`, a < s <= b for `(a b`, and so on; `-inf` and `+inf`
      at their own ends leave that side open, and at the other end they let nobody through. */
  lemma BoundsAreComparisons(m: Members, a: real, b: real, k: string)
    requires k in m
    ensures Picks(m, ScoreBound(a, 0, false), ScoreBound(b, 0, false), k, a <= m[k] <= b)
    ensures Picks(m, ScoreBound(a, 0, true), ScoreBound(b, 0, false), k, a < m[k] <= b)
    ensures Picks(m, ScoreBound(a, 0, false), ScoreBound(b, 0, true), k, a <= m[k] < b)
    ensures Picks(m, ScoreBound(a, 0, true), ScoreBound(b, 0, true), k, a < m[k] < b)
    ensures Picks(m, NEG_INF, ScoreBound(b, 0, false), k, m[k] <= b)
    ensures Picks(m, NEG_INF, ScoreBound(b, 0, true), k, m[k] < b)
    ensures Picks(m, ScoreBound(a, 0, false), POS_INF, k, a <= m[k])
    ensures Picks(m, ScoreBound(a, 0, true), POS_INF, k, a < m[k])
    ensures Picks(m, NEG_INF, POS_INF, k, true)
    ensures forall other :: Picks(m, POS_INF, other, k, false) && Picks(m, other, NEG_INF, k, false)
  {
    hide Picks;
    forall min, max, yes | yes == InBounds(m[k], min, max)
      ensures Picks(m, min, max, k, yes)
    {
      PicksInBounds(m, min, max, k);
    }
  }

  /** With an offset and a limit, the listing is the stretch of the unlimited one that they name. */
  lemma LimitIsSlice(m: Members, min: ScoreBound, max: ScoreBound, offset: nat, limit: int, rev: bool)
    ensures
      var all, part := ZRangeByScore(m, min, max, 0, -1, rev), ZRangeByScore(m, min, max, offset, limit, rev);
      var room := if offset > |all| then 0 else |all| - offset;
      && |part| == (if 0 <= limit < room then limit else room)
      && forall i :: 0 <= i < |part| ==> part[i] == all[offset + i]
  {
    hide ZLess, Sorted;
    ZIsStrictTotal();
  }

  lemma ZRangeByScoreOfNobody(min: ScoreBound, max: ScoreBound, offset: int, limit: int, rev: bool)
    ensures ZRangeByScore(map[], min, max, offset, limit, rev) == []
  {
    assert Rows(Selected(map[], min, max)) == {};
    ZIsStrictTotal();
    SortedDescending(Rows(Selected(map[], min, max)), ZLess);
  }

  /** The reverse form is the same answer backwards. */
  lemma ReverseRange(m: Members, min: ScoreBound, max: ScoreBound)
    ensures ZRangeByScore(m, min, max, 0, -1, true) == Reverse(ZRangeByScore(m, min, max, 0, -1, false))
  {
    var rows := Rows(Selected(m, min, max));
    ZIsStrictTotal();
    hide ZLess, Sorted;
    SortedDescending(rows, ZLess);
    var q := Listing(rows);
    assert Window(q, 0, -1) == q && Window(Reverse(q), 0, -1) == Reverse(q);
  }

  /** Consecutive LIMIT windows concatenate to the window over both, and to the rest without a limit. */
  lemma WindowsConcatenate<T>(q: seq<T>, offset: nat, a: nat, b: int)
    ensures Window(q, offset, a) + Window(q, offset + a, b) == Window(q, offset, if b < 0 then b else a + b)
  {
  }

  lemma LimitWindows(m: Members, min: ScoreBound, max: ScoreBound, offset: nat, a: nat, b: int, rev: bool)
    ensures ZRangeByScore(m, min, max, offset, a, rev) + ZRangeByScore(m, min, max, offset + a, b, rev)
            == ZRangeByScore(m, min, max, offset, if b < 0 then b else a + b, rev)
  {
    var rows := Rows(Selected(m, min, max));
    ZIsStrictTotal();
    hide ZLess, Sorted;
    SortedDescending(rows, ZLess);
    WindowsConcatenate(if rev then Sorted(rows, Flip(ZLess)) else Listing(rows), offset, a, b);
  }

  const NEG_INF := ScoreBound(0.0, -1, false)
  const POS_INF := ScoreBound(0.0, 1, false)

  /** Splitting at any score s into (-inf, (s) and [s, +inf) cuts the ranking in two: nobody is lost, nobody
      is listed twice, and the counts add up to ZCARD. */
  lemma SplitAtScore(m: Members, s: real)
    ensures
      var low := ZRangeByScore(m, NEG_INF, ScoreBound(s, 0, true), 0, -1, false);
      var high := ZRangeByScore(m, ScoreBound(s, 0, false), POS_INF, 0, -1, false);
      low + high == Ranking(m)
    ensures ZCount(m, NEG_INF, ScoreBound(s, 0, true)) + ZCount(m, ScoreBound(s, 0, false), POS_INF) == |m|
  {
    var a, b := Selected(m, NEG_INF, ScoreBound(s, 0, true)), Selected(m, ScoreBound(s, 0, false), POS_INF);
    var low, high := Ranking(a), Ranking(b);
    assert Window(low, 0, -1) == low && Window(high, 0, -1) == high;
    ScoreRangesAgree(m, NEG_INF, ScoreBound(s, 0, true));
    ScoreRangesAgree(m, ScoreBound(s, 0, false), POS_INF);
    SplitRanking(m, s, a, b);
    RankingSize(m);
  }

  lemma SplitRanking(m: Members, s: real, a: Members, b: Members)
    requires forall k :: k in a <==> k in m && m[k] < s
    requires forall k :: k in b <==> k in m && m[k] >= s
    requires (forall k :: k in a ==> a[k] == m[k]) && (forall k :: k in b ==> b[k] == m[k])
    ensures Ranking(a) + Ranking(b) == Ranking(m)
  {
    hide Ranking;
    RankingAscends(a);
    RankingAscends(b);
    RankingRows(a);
    RankingRows(b);
    var low, high := Ranking(a), Ranking(b);
    var q := low + high;
    assert Ascending(q, ZLess) by {
      forall i, j | 0 <= i < j < |q|
        ensures ZLess(q[i], q[j])
      {
        if i < |low| <= j {
          assert q[i].score < s <= q[j].score;
        }
      }
    }
    assert SameElements(q, Rows(m)) by {
      hide ZLess;
      forall x | x in Rows(m)
        ensures x in q
      {
        if x.score < s {
          assert ZMember(x.member, a[x.member]) in low;
        } else {
          assert ZMember(x.member, b[x.member]) in high;
        }
      }
      forall x | x in q
        ensures x in Rows(m)
      {
        var i :| 0 <= i < |q| && q[i] == x;
        assert x == ZMember(x.member, m[x.member]);
      }
    }
    PartIsListing(m, q);
  }
}
