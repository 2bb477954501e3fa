/** Keyset pagination: SCAN over keys and the paged listing of documents, in internal/store/sqlstore (and
    repeated in internal/store/d1store).  A page sees the keys that are live and match at the moment its
    query runs; between two pages anything may be inserted, deleted or expire. */
module Paging {
  import opened Ordering
  import opened Like
  import opened StoreTypes
  import S = SqlStore

  /** The live, matching keys that one page's query sees. */
  type Snapshot = set<string>

  function Listing(s: set<string>): seq<string> {
    LexIsStrictTotal();
    Sorted(s, LexLess)
  }

  function Above(s: Snapshot, last: string): set<string> {
    set k | k in s && LexLess(last, k)
  }

  function Take(q: seq<string>, n: nat): seq<string> {
    if |q| <= n then q else q[..n]
  }

  /** WHERE key > last ORDER BY key ASC LIMIT n. */
  function Page(s: Snapshot, last: string, n: nat): seq<string> {
    Take(Listing(Above(s, last)), n)
  }

  /** The keys of a database that SCAN's WHERE clause lets through at a time. */
  function ScanSnapshot(t: S.Tables, db: int, pattern: string, now: int, same: Same): Snapshot {
    set k | k in t.keys && k.0 == db && !Passed(t.keys[k].expiresAt, now)
            && (pattern == "" || pattern == "*" || LikeMatch(PatternToLike(pattern), k.1, '\\', same)) :: k.1
  }

  /** SCAN with a pattern sees exactly the keys of its database that are there, as GET has it, and that the
      glob matches; an empty pattern matches all. */
  lemma ScanSnapshotIsGlob(t: S.Tables, db: int, pattern: string, now: int, same: Same, key: string)
    ensures key in ScanSnapshot(t, db, pattern, now, same) <==>
            (db, key) in S.View(t, now) && (pattern == "" || GlobMatch(pattern, key, same))
  {
    hide GlobMatch, LikeMatch, PatternToLike;
    GlobPreserved(pattern, key, same);
    StarMatchesAll(key, same);
    if (db, key) in S.View(t, now) && (pattern == "" || GlobMatch(pattern, key, same)) {
      var k := (db, key);
      assert k.1 == key;
    }
  }

  // ---------------------------------------------------------------- one page

  lemma PageSound(s: Snapshot, last: string, n: nat)
    ensures
      var page := Page(s, last, n);
      && |page| <= n
      && Ascending(page, LexLess)
      && (forall i :: 0 <= i < |page| ==> page[i] in s && LexLess(last, page[i]))
  {
    hide LexLess, Sorted;
    LexIsStrictTotal();
    var above := Above(s, last);
    SortedIsSorted(above, LexLess);
    var z := Listing(above);
    forall i | 0 <= i < |z|
      ensures z[i] in s && LexLess(last, z[i])
    {
      assert z[i] in z;
    }
  }

  /** A candidate that is not on the page lies beyond it, and the page is full. */
  lemma PageCutsOff(s: Snapshot, last: string, n: nat, k: string)
    requires k in s && LexLess(last, k) && k !in Page(s, last, n)
    ensures
      var page := Page(s, last, n);
      |page| == n && forall i :: 0 <= i < n ==> LexLess(page[i], k)
  {
    hide LexLess, Sorted;
    LexIsStrictTotal();
    var above := Above(s, last);
    SortedIsSorted(above, LexLess);
    var z := Listing(above);
    assert k in above;
    assert |z| > n && z == z[..n] + z[n..];
    var j :| 0 <= j < |z[n..]| && z[n..][j] == k;
    assert z[n + j] == k;
  }

  lemma PageProperties(s: Snapshot, last: string, n: nat)
    ensures
      var page := Page(s, last, n);
      && |page| <= n
      && Ascending(page, LexLess)
      && (forall i :: 0 <= i < |page| ==> page[i] in s && LexLess(last, page[i]))
      && (forall k :: k in s && LexLess(last, k) && k !in page ==>
            |page| == n && forall i :: 0 <= i < n ==> LexLess(page[i], k))
  {
    hide LexLess, Page;
    PageSound(s, last, n);
    var page := Page(s, last, n);
    forall k | k in s && LexLess(last, k) && k !in page
      ensures |page| == n && forall i :: 0 <= i < n ==> LexLess(page[i], k)
    {
      PageCutsOff(s, last, n, k);
    }
  }

  // ---------------------------------------------------------------- SCAN

  datatype ScanResult = ScanResult(cursor: string, keys: seq<string>)

  function ClampCount(count: int): (n: nat)
    ensures 1 <= n <= 1000
  {
    if count <= 0 then 10 else if count > 1000 then 1000 else count
  }

  function ScanPage(s: Snapshot, cursor: string, count: int): ScanResult {
    var n := ClampCount(count);
    var keys := Page(s, if cursor != "0" then cursor else "", n);
    ScanResult(if keys == [] || |keys| < n then "0" else keys[|keys| - 1], keys)
  }

  method Scan(s: Snapshot, cursor: string, count: int) returns (r: ScanResult)
    ensures r == ScanPage(s, cursor, count)
  {
    var n := count;
    if n <= 0 {
      n := 10;
    }
    if n > 1000 {
      n := 1000;
    }
    var last := "";
    if cursor != "0" {
      last := cursor;
    }
    var rows := Page(s, last, n);
    var keys: seq<string> := [];
    var next := "0";
    for i := 0 to |rows|
      invariant keys == rows[..i]
      invariant next == if i == 0 then "0" else rows[i - 1]
    {
      keys := keys + [rows[i]];
      next := rows[i];
    }
    if |rows| < n {
      next := "0";
    }
    return ScanResult(next, keys);
  }

  /** A whole SCAN: the i-th page sees snaps[i], and the scan ends when the cursor comes back to "0". */
  datatype ScanRun = ScanRun(keys: seq<string>, pages: nat, done: bool)

  function ScanAll(snaps: seq<Snapshot>, cursor: string, count: int): ScanRun {
    if snaps == [] then ScanRun([], 0, false)
    else
      var page := ScanPage(snaps[0], cursor, count);
      if page.cursor == "0" then ScanRun(page.keys, 1, true)
      else
        var rest := ScanAll(snaps[1..], page.cursor, count);
        ScanRun(page.keys + rest.keys, 1 + rest.pages, rest.done)
  }

  function Last(cursor: string): string {
    if cursor != "0" then cursor else ""
  }

  lemma ScanPagesBound(snaps: seq<Snapshot>, cursor: string, count: int)
    ensures ScanAll(snaps, cursor, count).pages <= |snaps|
  {
  }

  lemma {:induction false} AscendingConcat(a: seq<string>, b: seq<string>, last: string)
    requires Ascending(a, LexLess) && Ascending(b, LexLess)
    requires forall i :: 0 <= i < |a| ==> LexLess(last, a[i])
    requires a == [] ==> forall i :: 0 <= i < |b| ==> LexLess(last, b[i])
    requires a != [] ==> forall i :: 0 <= i < |b| ==> LexLess(a[|a| - 1], b[i])
    ensures Ascending(a + b, LexLess)
    ensures forall i :: 0 <= i < |a + b| ==> LexLess(last, (a + b)[i])
  {
    hide LexLess;
    LexIsStrictTotal();
    var c := a + b;
    forall i, j | 0 <= i < j < |c|
      ensures LexLess(c[i], c[j])
    {
      if i < |a| <= j {
        assert c[j] == b[j - |a|];
        if i < |a| - 1 {
          assert LexLess(a[i], a[|a| - 1]);
        }
      }
    }
    forall i | 0 <= i < |c|
      ensures LexLess(last, c[i])
    {
      if |a| <= i && a != [] {
        assert LexLess(last, a[|a| - 1]) && LexLess(a[|a| - 1], b[i - |a|]);
      }
    }
  }

  /** Whatever happens between the pages, the keys come back strictly ascending, so none comes twice, and
      each was live and matching when some page ran. */
  lemma {:induction false} ScanNeverRepeats(snaps: seq<Snapshot>, cursor: string, count: int)
    ensures
      var run := ScanAll(snaps, cursor, count);
      && Ascending(run.keys, LexLess)
      && (forall i :: 0 <= i < |run.keys| ==>
            LexLess(Last(cursor), run.keys[i]) && exists p :: 0 <= p < run.pages <= |snaps| && run.keys[i] in snaps[p])
  {
    hide LexLess;
    if snaps != [] {
      PageProperties(snaps[0], Last(cursor), ClampCount(count));
      var page := ScanPage(snaps[0], cursor, count);
      ScanPagesBound(snaps, cursor, count);
      if page.cursor != "0" {
        ScanNeverRepeats(snaps[1..], page.cursor, count);
        var rest := ScanAll(snaps[1..], page.cursor, count);
        AscendingConcat(page.keys, rest.keys, Last(cursor));
        var run := ScanAll(snaps, cursor, count);
        forall i | 0 <= i < |run.keys|
          ensures exists p :: 0 <= p < run.pages <= |snaps| && run.keys[i] in snaps[p]
        {
          if i < |page.keys| {
            assert run.keys[i] in snaps[0];
          } else {
            assert run.keys[i] == rest.keys[i - |page.keys|];
            var p :| 0 <= p < rest.pages && rest.keys[i - |page.keys|] in snaps[1..][p];
            assert run.keys[i] in snaps[p + 1];
          }
        }
      }
    }
  }

  /** The scan ends because a full page ends with the key "0", whose name is the end marker. */
  predicate EndsAtZero(snaps: seq<Snapshot>, cursor: string, count: int) {
    snaps != [] &&
    var page := ScanPage(snaps[0], cursor, count);
    if page.cursor == "0" then |page.keys| == ClampCount(count) else EndsAtZero(snaps[1..], page.cursor, count)
  }

  lemma {:induction false} ZeroComesLast(snaps: seq<Snapshot>, cursor: string, count: int)
    requires EndsAtZero(snaps, cursor, count)
    ensures
      var keys := ScanAll(snaps, cursor, count).keys;
      keys != [] && keys[|keys| - 1] == "0"
  {
    hide Page;
    var page := ScanPage(snaps[0], cursor, count);
    if page.cursor != "0" {
      ZeroComesLast(snaps[1..], page.cursor, count);
    }
  }

  lemma {:induction false} MissedOnlyBeyondZero(snaps: seq<Snapshot>, cursor: string, count: int, k: string)
    requires ScanAll(snaps, cursor, count).done && ScanAll(snaps, cursor, count).pages <= |snaps|
    requires forall p :: 0 <= p < ScanAll(snaps, cursor, count).pages ==> k in snaps[p]
    requires LexLess(Last(cursor), k) && !(EndsAtZero(snaps, cursor, count) && LexLess("0", k))
    ensures k in ScanAll(snaps, cursor, count).keys
  {
    hide LexLess, Page;
    PageProperties(snaps[0], Last(cursor), ClampCount(count));
    var page := ScanPage(snaps[0], cursor, count);
    assert k in snaps[0];
    if k !in page.keys {
      assert page.keys[|page.keys| - 1] == page.cursor && LexLess(page.cursor, k);
      var rest := ScanAll(snaps[1..], page.cursor, count);
      forall p | 0 <= p < rest.pages
        ensures k in snaps[1..][p]
      {
        assert snaps[1..][p] == snaps[p + 1];
      }
      MissedOnlyBeyondZero(snaps[1..], page.cursor, count, k);
    }
  }

  /** A key that is live and matches while every page runs is returned before the cursor comes back to "0" if
      and only if the scan does not end at the key "0" with the key beyond it.  (The key "" is never returned:
      it is not above the first cursor.) */
  lemma ScanMissesNothing(snaps: seq<Snapshot>, cursor: string, count: int, k: string)
    requires ScanAll(snaps, cursor, count).done
    requires ScanAll(snaps, cursor, count).pages <= |snaps|
    requires forall p :: 0 <= p < ScanAll(snaps, cursor, count).pages ==> k in snaps[p]
    requires LexLess(Last(cursor), k)
    ensures k in ScanAll(snaps, cursor, count).keys <==> !(EndsAtZero(snaps, cursor, count) && LexLess("0", k))
  {
    hide LexLess, ScanPage, Page;
    var keys := ScanAll(snaps, cursor, count).keys;
    LexIsStrictTotal();
    if EndsAtZero(snaps, cursor, count) && LexLess("0", k) {
      ZeroComesLast(snaps, cursor, count);
      ScanNeverRepeats(snaps, cursor, count);
      forall i | 0 <= i < |keys|
        ensures keys[i] != k
      {
        assert keys[i] == "0" || LexLess(keys[i], "0");
      }
    } else {
      MissedOnlyBeyondZero(snaps, cursor, count, k);
    }
  }

  // ---------------------------------------------------------------- SCAN over an unchanging keyspace

  /** Where a scan of the listing z that stands at position p stops: at the end, unless a full page ends
      with the key "0". */
  function StopAt(z: seq<string>, p: nat, n: nat): (stop: nat)
    requires p <= |z| && n > 0
    ensures p <= stop <= |z|
    decreases |z| - p
  {
    if p + n > |z| then |z|
    else if z[p + n - 1] == "0" then p + n
    else StopAt(z, p + n, n)
  }

  function PageCount(z: seq<string>, p: nat, n: nat): nat
    requires p <= |z| && n > 0
    decreases |z| - p
  {
    if p + n > |z| || z[p + n - 1] == "0" then 1 else 1 + PageCount(z, p + n, n)
  }

  /** What lies above the key at one place of the listing is the rest of it. */
  lemma AbovePosition(s: Snapshot, p: nat)
    requires 0 < p <= |Listing(Above(s, ""))|
    ensures Listing(Above(s, Listing(Above(s, ""))[p - 1])) == Listing(Above(s, ""))[p..]
  {
    hide LexLess;
    LexIsStrictTotal();
    var all := Above(s, "");
    SortedIsSorted(all, LexLess);
    var z := Listing(all);
    var last := z[p - 1];
    assert last in z && LexLess("", last);
    var above := Above(s, last);
    forall x | x in above
      ensures x in all
    {
      assert LexLess("", last) && LexLess(last, x);
    }
    forall i | 0 <= i < |z|
      ensures z[i] in above <==> p <= i
    {
      assert z[i] in z;
      if p <= i {
        assert LexLess(z[p - 1], z[i]);
      } else if i < p - 1 {
        assert LexLess(z[i], z[p - 1]);
      }
    }
    SortedAbove(all, above, LexLess, p);
  }

  /** The page that starts at place p of the listing. */
  lemma StaticPage(s: Snapshot, z: seq<string>, cursor: string, count: int, p: nat)
    requires p <= |z| && Listing(Above(s, Last(cursor))) == z[p..]
    ensures
      var n := ClampCount(count);
      ScanPage(s, cursor, count) ==
        if p + n > |z| then ScanResult("0", z[p..]) else ScanResult(z[p + n - 1], z[p..p + n])
  {
    hide Listing, Above;
    var n := ClampCount(count);
    if p + n <= |z| {
      assert Take(z[p..], n) == z[p..p + n];
    }
  }

  lemma SliceJoin(z: seq<string>, p: nat, q: nat, r: nat)
    requires p <= q <= r <= |z|
    ensures z[p..q] + z[q..r] == z[p..r]
  {
  }

  /** A first page and the scan that goes on from its last key. */
  lemma ScanAllStep(snaps: seq<Snapshot>, s: Snapshot, cursor: string, count: int)
    requires snaps != [] && snaps[0] == s
    ensures
      var page := ScanPage(s, cursor, count);
      var rest := ScanAll(snaps[1..], page.cursor, count);
      ScanAll(snaps, cursor, count) ==
        if page.cursor == "0" then ScanRun(page.keys, 1, true)
        else ScanRun(page.keys + rest.keys, 1 + rest.pages, rest.done)
  {
  }

  lemma StopStep(z: seq<string>, p: nat, n: nat)
    requires p <= |z| && n > 0
    ensures
      if p + n > |z| then StopAt(z, p, n) == |z| && PageCount(z, p, n) == 1
      else if z[p + n - 1] == "0" then StopAt(z, p, n) == p + n && PageCount(z, p, n) == 1
      else StopAt(z, p, n) == StopAt(z, p + n, n) && PageCount(z, p, n) == 1 + PageCount(z, p + n, n)
  {
  }

  lemma {:induction false} StaticScanFrom(
      snaps: seq<Snapshot>, s: Snapshot, z: seq<string>, cursor: string, count: int, p: nat)
    requires forall i :: 0 <= i < |snaps| ==> snaps[i] == s
    requires z == Listing(Above(s, "")) && p <= |z| && Listing(Above(s, Last(cursor))) == z[p..]
    requires |snaps| >= PageCount(z, p, ClampCount(count))
    ensures
      var n := ClampCount(count);
      ScanAll(snaps, cursor, count) == ScanRun(z[p..StopAt(z, p, n)], PageCount(z, p, n), true)
    decreases |z| - p
  {
    hide Listing, Above, ScanPage, ClampCount, ScanAll, StopAt, PageCount, LexLess;
    var n := ClampCount(count);
    StopStep(z, p, n);
    StaticPage(s, z, cursor, count, p);
    ScanAllStep(snaps, s, cursor, count);
    assert z[p..] == z[p..|z|];
    if p + n <= |z| && z[p + n - 1] != "0" {
      AbovePosition(s, p + n);
      StaticScanFrom(snaps[1..], s, z, z[p + n - 1], count, p + n);
      SliceJoin(z, p, p + n, StopAt(z, p + n, n));
    }
  }

  /** Place j of the listing ends a full page of n. */
  predicate EndsPage(j: nat, n: nat)
    requires n > 0
  {
    (j + 1) % n == 0
  }

  lemma PageEnds(p: nat, n: nat)
    requires n > 0 && p % n == 0
    ensures forall j :: p <= j < p + n ==> (EndsPage(j, n) <==> j == p + n - 1)
    ensures (p + n) % n == 0
  {
    NextMultiple(p, n);
    forall j | p <= j < p + n
      ensures EndsPage(j, n) <==> j == p + n - 1
    {
      if EndsPage(j, n) {
        OnlyMultiple(p, j + 1, n);
      }
    }
  }

  lemma {:induction false} StopIsEnd(z: seq<string>, p: nat, n: nat)
    requires p <= |z| && n > 0 && p % n == 0
    ensures StopAt(z, p, n) < |z| <==> exists j :: p <= j < |z| - 1 && z[j] == "0" && EndsPage(j, n)
    decreases |z| - p
  {
    hide EndsPage;
    PageEnds(p, n);
    if p + n <= |z| && z[p + n - 1] != "0" {
      StopIsEnd(z, p + n, n);
    }
  }

  lemma {:induction false} PageCountIsQuotient(z: seq<string>, p: nat, n: nat)
    requires p <= |z| && n > 0 && p % n == 0
    requires forall j :: p <= j < |z| && z[j] == "0" ==> !EndsPage(j, n)
    ensures PageCount(z, p, n) == (|z| - p) / n + 1
    decreases |z| - p
  {
    hide EndsPage;
    PageEnds(p, n);
    if p + n <= |z| {
      assert z[p + n - 1] != "0";
      PageCountIsQuotient(z, p + n, n);
      OneMore(|z| - (p + n), n);
    } else {
      SmallQuotient(|z| - p, n);
    }
  }

  lemma SmallQuotient(a: nat, n: nat)
    requires a < n
    ensures a / n == 0
  {
  }

  lemma OneMore(a: nat, n: nat)
    requires n > 0
    ensures (a + n) / n == a / n + 1
  {
    var q, r := a / n, a % n;
    assert a + n == n * (q + 1) + r;
    Quotient(a + n, n, q + 1, r);
  }

  lemma NextMultiple(p: nat, n: nat)
    requires n > 0 && p % n == 0
    ensures (p + n) % n == 0
  {
    var q := p / n;
    assert p + n == n * (q + 1) + 0;
    Quotient(p + n, n, q + 1, 0);
  }

  lemma Quotient(a: nat, n: nat, q: nat, r: nat)
    requires n > 0 && r < n && a == n * q + r
    ensures a / n == q && a % n == r
  {
    var d, e := a / n, a % n;
    MultipleGap(n, d, q, r - e);
  }

  /** Two multiples of n less than n apart are the same one. */
  lemma MultipleGap(n: int, d: int, q: int, gap: int)
    requires n > 0 && n * d - n * q == gap && -n < gap < n
    ensures d == q
  {
    assert n * (d - q) == gap;
    assert d - q >= 1 ==> n * (d - q) >= n;
    assert d - q <= -1 ==> n * (d - q) <= -n;
  }

  /** The only multiple of n in (p, p + n], when p is one, is p + n. */
  lemma OnlyMultiple(p: nat, m: nat, n: nat)
    requires n > 0 && p % n == 0 && m % n == 0 && p < m <= p + n
    ensures m == p + n
  {
    var a, b := p / n, m / n;
    assert p == n * a && m == n * b;
    if m < p + n {
      MultipleGap(n, b, a, m - p);
    }
  }

  /** Over an unchanging keyspace a scan started with "0" returns exactly the listing of its keys (the key
      "" aside) if and only if the key "0" does not end a full page that others follow; and when "0" ends
      no page at all, it takes floor(m / count) + 1 pages for m keys. */
  lemma StaticScan(snaps: seq<Snapshot>, s: Snapshot, count: int)
    requires forall i :: 0 <= i < |snaps| ==> snaps[i] == s
    requires |snaps| >= PageCount(Listing(Above(s, "")), 0, ClampCount(count))
    ensures
      var z, n := Listing(Above(s, "")), ClampCount(count);
      var run := ScanAll(snaps, "0", count);
      && run.done
      && (run.keys == z <==> !exists j :: 0 <= j < |z| - 1 && z[j] == "0" && EndsPage(j, n))
      && ((forall j :: 0 <= j < |z| && z[j] == "0" ==> !EndsPage(j, n)) ==> run.pages == |z| / n + 1)
  {
    hide Listing, Above, ScanPage, ClampCount, EndsPage;
    var z, n := Listing(Above(s, "")), ClampCount(count);
    assert z[0..] == z;
    StaticScanFrom(snaps, s, z, "0", count, 0);
    StopIsEnd(z, 0, n);
    if forall j :: 0 <= j < |z| && z[j] == "0" ==> !EndsPage(j, n) {
      PageCountIsQuotient(z, 0, n);
    }
    assert StopAt(z, 0, n) == |z| ==> z[..StopAt(z, 0, n)] == z;
  }

  /** A concrete keyspace in which the end marker loses a key: SCAN 0 COUNT 1 over {"0", "1"}. */
  lemma ScanLosesKeyAfterZero(snaps: seq<Snapshot>)
    requires |snaps| >= 1 && forall i :: 0 <= i < |snaps| ==> snaps[i] == {"0", "1"}
    ensures ScanAll(snaps, "0", 1) == ScanRun(["0"], 1, true)
  {
    var s := {"0", "1"};
    LexIsStrictTotal();
    assert LexLess("", "0") && LexLess("", "1") && LexLess("0", "1");
    assert Above(s, "") == s;
    SortedUnique(["0", "1"], s, LexLess);
    assert Page(s, "", 1) == ["0"];
  }

  lemma PageSize(s: Snapshot, last: string, n: nat)
    ensures
      var left := |Above(s, last)|;
      |Page(s, last, n)| == if left < n then left else n
  {
    hide LexLess, Sorted;
    LexIsStrictTotal();
    SortedIsSorted(Above(s, last), LexLess);
  }

  /** A SCAN page has as many keys as were asked for, ten if none were and a thousand at most, unless fewer are
      left; and the cursor comes back to "0" when there are fewer. */
  lemma ScanPageSize(s: Snapshot, cursor: string, count: int)
    ensures
      var last, page := if cursor == "0" then "" else cursor, ScanPage(s, cursor, count);
      var left := |Above(s, last)|;
      var n := if count <= 0 then 10 else if count <= 1000 then count else 1000;
      && |page.keys| == (if left < n then left else n)
      && (left < n ==> page.cursor == "0")
      && (left >= n ==> page.cursor == page.keys[n - 1])
  {
    hide LexLess, Page;
    PageSize(s, if cursor == "0" then "" else cursor, ClampCount(count));
  }

  // ---------------------------------------------------------------- documents

  datatype QueryResult = QueryResult(docs: seq<string>, nextCursor: string, hasMore: bool)

  function NormalizeDocLimit(limit: int): (n: nat)
    ensures 1 <= n <= 100
  {
    if limit <= 0 then 20 else if limit > 100 then 100 else limit
  }

  function DocPage(rows: seq<string>, limit: nat): QueryResult {
    if |rows| <= limit then QueryResult(rows, "", false)
    else QueryResult(rows[..limit], if limit == 0 then "" else rows[limit - 1], true)
  }

  method DocQueryResult(allRows: seq<string>, limit: nat) returns (r: QueryResult)
    ensures r == DocPage(allRows, limit)
  {
    var rows := allRows;
    var hasMore := |rows| > limit;
    if hasMore {
      rows := rows[..limit];
    }
    var docs: seq<string> := [];
    var next := "";
    for i := 0 to |rows|
      invariant docs == rows[..i] && next == if i == 0 then "" else rows[i - 1]
    {
      docs := docs + [rows[i]];
      next := rows[i];
    }
    if !hasMore {
      next := "";
    }
    return QueryResult(docs, next, hasMore);
  }

  /** One page of a listing: one row more than the limit is fetched to see whether there are more. */
  function QueryPage(s: Snapshot, cursor: string, limit: int): QueryResult {
    DocPage(Page(s, cursor, NormalizeDocLimit(limit) + 1), NormalizeDocLimit(limit))
  }

  /** A page has as many documents as were asked for, twenty if none were and a hundred at most, unless fewer are
      left; and it says that there are more if and only if there are. */
  lemma DocPageSize(s: Snapshot, cursor: string, limit: int)
    ensures
      var page, left := QueryPage(s, cursor, limit), |Above(s, cursor)|;
      var n := if limit <= 0 then 20 else if limit <= 100 then limit else 100;
      && |page.docs| == (if left < n then left else n)
      && (page.hasMore <==> left > n)
      && page.nextCursor == if left > n then page.docs[n - 1] else ""
  {
    hide LexLess, Page;
    PageSize(s, cursor, NormalizeDocLimit(limit) + 1);
  }

  datatype DocRun = DocRun(docs: seq<string>, pages: nat, done: bool)

  function QueryAll(snaps: seq<Snapshot>, cursor: string, limit: int): DocRun {
    if snaps == [] then DocRun([], 0, false)
    else
      var page := QueryPage(snaps[0], cursor, limit);
      if !page.hasMore then DocRun(page.docs, 1, true)
      else
        var rest := QueryAll(snaps[1..], page.nextCursor, limit);
        DocRun(page.docs + rest.docs, 1 + rest.pages, rest.done)
  }

  /** The page itself, and what a document missing from it must satisfy. */
  lemma QueryPageProperties(s: Snapshot, cursor: string, limit: int)
    ensures
      var page := QueryPage(s, cursor, limit);
      && Ascending(page.docs, LexLess)
      && (forall i :: 0 <= i < |page.docs| ==> page.docs[i] in s && LexLess(cursor, page.docs[i]))
      && (page.hasMore ==> page.docs != [] && page.nextCursor == page.docs[|page.docs| - 1])
      && (forall k :: k in s && LexLess(cursor, k) && k !in page.docs ==>
            page.hasMore && LexLess(page.nextCursor, k))
  {
    hide Page, LexLess;
    var n := NormalizeDocLimit(limit);
    PageProperties(s, cursor, n + 1);
    var rows, page := Page(s, cursor, n + 1), QueryPage(s, cursor, limit);
    forall k | k in s && LexLess(cursor, k) && k !in page.docs
      ensures page.hasMore && LexLess(page.nextCursor, k)
    {
      if k in rows {
        assert |rows| == n + 1 && rows == rows[..n] + [rows[n]];
        assert k == rows[n] && LexLess(rows[n - 1], rows[n]);
      } else {
        assert LexLess(rows[n - 1], k);
      }
    }
  }

  /** Following NextCursor from any cursor until HasMore is false lists documents in strictly ascending id
      order, and misses no document above that cursor that is live and matches on every page. */
  lemma {:induction false} DocPagingComplete(snaps: seq<Snapshot>, cursor: string, limit: int)
    ensures
      var run := QueryAll(snaps, cursor, limit);
      && run.pages <= |snaps|
      && Ascending(run.docs, LexLess)
      && (forall i :: 0 <= i < |run.docs| ==>
            LexLess(cursor, run.docs[i]) && exists p :: 0 <= p < run.pages && run.docs[i] in snaps[p])
      && (forall k :: run.done && LexLess(cursor, k) && (forall p :: 0 <= p < run.pages ==> k in snaps[p]) ==>
            k in run.docs)
  {
    hide LexLess;
    if snaps != [] {
      QueryPageProperties(snaps[0], cursor, limit);
      var page := QueryPage(snaps[0], cursor, limit);
      var run := QueryAll(snaps, cursor, limit);
      if page.hasMore {
        DocPagingComplete(snaps[1..], page.nextCursor, limit);
        var rest := QueryAll(snaps[1..], page.nextCursor, limit);
        AscendingConcat(page.docs, rest.docs, cursor);
        forall i | 0 <= i < |run.docs|
          ensures exists p :: 0 <= p < run.pages && run.docs[i] in snaps[p]
        {
          if i < |page.docs| {
            assert run.docs[i] in snaps[0];
          } else {
            var p :| 0 <= p < rest.pages && rest.docs[i - |page.docs|] in snaps[1..][p];
            assert run.docs[i] in snaps[p + 1];
          }
        }
        forall k | run.done && LexLess(cursor, k) && forall p :: 0 <= p < run.pages ==> k in snaps[p]
          ensures k in run.docs
        {
          assert k in snaps[0];
          forall p | 0 <= p < rest.pages
            ensures k in snaps[1..][p]
          {
            assert k in snaps[p + 1];
          }
        }
      }
    }
  }
}
