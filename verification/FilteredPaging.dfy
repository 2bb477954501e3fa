/** Paging through an index: the query takes the next limit + 1 ids from the index and only then drops the
    documents that have expired or that the search term does not match.  When is the page still right? */
module FilteredPaging {
  import opened Ordering
  import opened Paging

  /** The listed ids that are kept, in their order. */
  function Filter(q: seq<string>, keep: set<string>): seq<string> {
    if q == [] then []
    else
      var n := |q| - 1;
      Filter(q[..n], keep) + if q[n] in keep then [q[n]] else []
  }

  lemma {:induction false} FilterProperties(q: seq<string>, keep: set<string>)
    requires Ascending(q, LexLess)
    ensures
      var f := Filter(q, keep);
      && |f| <= |q|
      && Ascending(f, LexLess)
      && (forall k :: k in f <==> k in q && k in keep)
      && (|f| == |q| ==> f == q)
  {
    hide LexLess;
    if q != [] {
      var n := |q| - 1;
      FilterProperties(q[..n], keep);
      assert q == q[..n] + [q[n]];
      var g, f := Filter(q[..n], keep), Filter(q, keep);
      forall i | 0 <= i < |g|
        ensures LexLess(g[i], q[n])
      {
        assert g[i] in q[..n];
      }
    }
  }

  /** A page is determined by what it is meant to be: ascending, from the right ids, and cut off only where
      the limit cuts it. */
  lemma PageUnique(s: Snapshot, last: string, n: nat, q: seq<string>)
    requires Ascending(q, LexLess) && |q| <= n
    requires forall i :: 0 <= i < |q| ==> q[i] in s && LexLess(last, q[i])
    requires forall k :: k in s && LexLess(last, k) && k !in q ==> |q| == n && forall i :: 0 <= i < n ==>
        LexLess(q[i], k)
    ensures q == Page(s, last, n)
  {
    hide LexLess, Sorted;
    LexIsStrictTotal();
    var above := Above(s, last);
    var rest := set k | k in above && k !in q;
    SortedIsSorted(rest, LexLess);
    var r := Sorted(rest, LexLess);
    forall i | 0 <= i < |r|
      ensures r[i] in s && LexLess(last, r[i]) && r[i] !in q
    {
      assert r[i] in r;
    }
    assert Ascending(q + r, LexLess);
    forall k
      ensures k in q + r <==> k in above
    {
    }
    SortedUnique(q + r, above, LexLess);
    if r != [] {
      assert r[0] in s && |q| == n;
    }
    assert Take(q + r, n) == q;
  }

  /** Ids beyond the ones the index query returned. */
  ghost predicate SomeBeyond(keep: Snapshot, cursor: string, page: seq<string>) {
    exists k :: k in keep && LexLess(cursor, k) && k !in page
  }

  /** Nothing dropped: the page is the page of the kept ids. */
  lemma AllKept(ids: Snapshot, keep: Snapshot, cursor: string, n: nat)
    requires keep <= ids
    requires forall i :: 0 <= i < |Page(ids, cursor, n)| ==> Page(ids, cursor, n)[i] in keep
    ensures Page(keep, cursor, n) == Page(ids, cursor, n)
  {
    hide LexLess, Page;
    PageProperties(ids, cursor, n);
    PageUnique(keep, cursor, n, Page(ids, cursor, n));
  }

  /** Nothing beyond: the kept part of the page is everything. */
  lemma NoneBeyond(ids: Snapshot, keep: Snapshot, cursor: string, n: nat)
    requires keep <= ids && !SomeBeyond(keep, cursor, Page(ids, cursor, n))
    ensures Page(keep, cursor, n) == Filter(Page(ids, cursor, n), keep)
  {
    hide LexLess, Page, Filter;
    PageProperties(ids, cursor, n);
    var page := Page(ids, cursor, n);
    FilterProperties(page, keep);
    var f := Filter(page, keep);
    forall i | 0 <= i < |f|
      ensures f[i] in keep && LexLess(cursor, f[i])
    {
      assert f[i] in f && f[i] in page;
    }
    PageUnique(keep, cursor, n, f);
  }

  /** A page through the index is the page of the kept ids if and only if nothing on it was dropped or no
      kept id lies beyond it.  In the remaining case the page says that there is no more, and the ids beyond
      are lost. */
  lemma FilteredPageExact(ids: Snapshot, keep: Snapshot, cursor: string, limit: int)
    requires keep <= ids
    ensures
      var n := NormalizeDocLimit(limit);
      var page := Page(ids, cursor, n + 1);
      DocPage(Filter(page, keep), n) == QueryPage(keep, cursor, limit) <==>
        (forall i :: 0 <= i < |page| ==> page[i] in keep) || !SomeBeyond(keep, cursor, page)
  {
    hide LexLess, Page, Filter;
    var n := NormalizeDocLimit(limit);
    var page := Page(ids, cursor, n + 1);
    PageProperties(ids, cursor, n + 1);
    FilterProperties(page, keep);
    var f := Filter(page, keep);
    if forall i :: 0 <= i < |page| ==> page[i] in keep {
      AllKept(ids, keep, cursor, n + 1);
      AllFiltered(page, keep);
    } else if !SomeBeyond(keep, cursor, page) {
      NoneBeyond(ids, keep, cursor, n + 1);
    } else {
      var k :| k in keep && LexLess(cursor, k) && k !in page;
      var i :| 0 <= i < |page| && page[i] !in keep;
      assert page[i] !in f && |f| < |page|;
      QueryPageProperties(keep, cursor, limit);
      assert k !in f;
      assert !DocPage(f, n).hasMore && DocPage(f, n).docs == f;
    }
  }

  lemma AllFiltered(q: seq<string>, keep: set<string>)
    requires forall i :: 0 <= i < |q| ==> q[i] in keep
    ensures Filter(q, keep) == q
  {
    if q != [] {
      AllFiltered(q[..|q| - 1], keep);
      assert q == q[..|q| - 1] + [q[|q| - 1]];
    }
  }
}
