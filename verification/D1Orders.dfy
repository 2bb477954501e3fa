/** Which orders of a few overlapping calls there are, and what they amount to on a counter. */
module D1Orders {
  import opened Decimal
  import opened StoreTypes
  import opened D1Protocol

  // ---------------------------------------------------------------- front to back

  lemma {:induction false} Front(st: Option<Cell>, g: seq<Event>, key: Key)
    requires g != [] && g[0].call.key == key
    ensures Legal(st, g, key) <==> Explained(st, g[0]) && Legal(After(st, g[0]), g[1..], key)
    ensures Replay(st, g, key) == Replay(After(st, g[0]), g[1..], key)
  {
    hide Explained, After;
    var n := |g| - 1;
    if n == 0 {
      assert g[..0] == [] && g[1..] == [];
    } else {
      Front(st, g[..n], key);
      assert g[..n][1..] == g[1..][..n - 1] && g[1..][n - 1] == g[n];
    }
  }

  // ---------------------------------------------------------------- counters without their text

  /** A key that is missing, or holds an integer. */
  datatype Tally = Nothing | Tally(n: int64, expiresAt: Option<int>)

  function CellOf(t: Tally): Option<Cell> {
    if t.Nothing? then None else Some(Cell(StringKind, FormatInt(t.n), t.expiresAt))
  }

  lemma CellOfInjective(t: Tally, u: Tally)
    requires CellOf(t) == CellOf(u)
    ensures t == u
  {
    hide FormatInt;
    if t.Tally? && u.Tally? {
      FormatIntInjective(t.n, u.n);
    }
  }

  predicate OnCounter(e: Event) {
    !Failed(e) && (e.call.IncrBy? || e.call.Expire? || e.call.Persist? || e.call.Delete?)
  }

  /** The tally after an event, if its reply is the one the atomic command gives. */
  function Next(t: Tally, e: Event): Option<Tally> {
    var live := if t.Tally? && Passed(t.expiresAt, e.at) then Nothing else t;
    match e.call
    case IncrBy(_, delta) =>
      var u := if live.Nothing? then Tally(delta, None) else Tally(Add64(live.n, delta), live.expiresAt);
      if e.reply == Number(u.n) then Some(u) else None
    case Expire(_, ttl) =>
      if e.reply != Changed(live.Tally?) then None
      else Some(if live.Tally? then Tally(live.n, Some(e.at + ttl)) else live)
    case Persist(_) =>
      var has := live.Tally? && live.expiresAt.Some?;
      if e.reply != Changed(has) then None else Some(if has then Tally(live.n, None) else live)
    case Delete(_) => if e.reply == Deleted(if t.Tally? then 1 else 0) then Some(Nothing) else None
    case _ => None
  }

  function Through(t: Tally, g: seq<Event>): Option<Tally>
    decreases |g|
  {
    if g == [] then Some(t)
    else
      match Next(t, g[0])
      case None => None
      case Some(u) => Through(u, g[1..])
  }

  function Then(o: Option<Tally>, e: Event): Option<Tally> {
    if o.None? then None else Next(o.value, e)
  }

  lemma ThroughThree(t: Tally, a: Event, b: Event, c: Event)
    ensures Through(t, [a, b, c]) == Then(Then(Next(t, a), b), c)
  {
    hide Next;
    assert [a, b, c][1..] == [b, c] && [b, c][1..] == [c] && [c][1..] == [];
    if Next(t, a).Some? {
      var u := Next(t, a).value;
      if Next(u, b).Some? {
        assert Through(Next(u, b).value, [c]) == Next(Next(u, b).value, c);
      }
      assert Through(u, [b, c]) == Then(Next(u, b), c);
    }
  }

  lemma ThroughFour(t: Tally, a: Event, b: Event, c: Event, d: Event)
    ensures Through(t, [a, b, c, d]) == Then(Then(Then(Next(t, a), b), c), d)
  {
    hide Next;
    assert [a, b, c, d][1..] == [b, c, d];
    if Next(t, a).Some? {
      ThroughThree(Next(t, a).value, b, c, d);
    }
  }

  lemma NextIsAtomic(t: Tally, e: Event)
    requires OnCounter(e)
    ensures Explained(CellOf(t), e) <==> Next(t, e).Some?
    ensures Next(t, e).Some? ==> After(CellOf(t), e) == CellOf(Next(t, e).value)
  {
    hide FormatInt, ParseInt, Add64;
    if t.Tally? {
      IntRoundTrip(t.n);
    }
  }

  lemma {:induction false} ThroughIsLegal(t: Tally, g: seq<Event>, key: Key)
    requires forall e :: e in g ==> OnCounter(e) && e.call.key == key
    ensures Legal(CellOf(t), g, key) <==> Through(t, g).Some?
    ensures Through(t, g).Some? ==> Replay(CellOf(t), g, key) == CellOf(Through(t, g).value)
    decreases |g|
  {
    hide Explained, After, CellOf, Next, OnCounter;
    if g != [] {
      Front(CellOf(t), g, key);
      NextIsAtomic(t, g[0]);
      if Next(t, g[0]).Some? {
        ThroughIsLegal(Next(t, g[0]).value, g[1..], key);
      }
    }
  }

  /** No order of some calls takes one tally to another. */
  ghost predicate NoWay(t: Tally, h: seq<Event>, u: Tally) {
    forall g | Linearizes(g, h) :: Through(t, g) != Some(u)
  }

  lemma NoWayUnexplained(t: Tally, h: seq<Event>, u: Tally, key: Key)
    requires forall e :: e in h ==> OnCounter(e) && e.call.key == key
    requires NoWay(t, h, u)
    ensures !Explainable(CellOf(t), h, key, CellOf(u))
  {
    hide CellOf, Legal, Replay, Through, OnCounter;
    forall g | Linearizes(g, h)
      ensures !(Legal(CellOf(t), g, key) && Replay(CellOf(t), g, key) == CellOf(u))
    {
      forall e | e in g
        ensures OnCounter(e) && e.call.key == key
      {
        assert e in multiset(g);
      }
      ThroughIsLegal(t, g, key);
      if Through(t, g).Some? && CellOf(Through(t, g).value) == CellOf(u) {
        CellOfInjective(Through(t, g).value, u);
      }
    }
  }

  // ---------------------------------------------------------------- orders of a few calls

  lemma Cancel<T>(a: multiset<T>, b: multiset<T>, x: T)
    requires a + multiset{x} == b + multiset{x}
    ensures a == b
  {
    assert a == (a + multiset{x}) - multiset{x};
    assert b == (b + multiset{x}) - multiset{x};
  }

  lemma Lift<T>(g: seq<T>, y: nat)
    requires y < |g|
    ensures
      var others := g[..y] + g[y + 1..];
      && g == others[..y] + [g[y]] + others[y..]
      && multiset(g) == multiset(others) + multiset{g[y]}
  {
    assert g == g[..y] + [g[y]] + g[y + 1..];
  }

  lemma SameMembers<T>(a: seq<T>, b: seq<T>)
    requires multiset(a) == multiset(b)
    ensures |a| == |b| && forall i :: 0 <= i < |a| ==> a[i] in b
  {
    assert |a| == |multiset(a)| && |b| == |multiset(b)|;
    forall i | 0 <= i < |a|
      ensures a[i] in b
    {
      assert a[i] in multiset(a);
    }
  }

  lemma Displaced<T>(e: T, rest: seq<T>)
    ensures multiset([e] + rest) == multiset(rest) + multiset{e}
  {
  }

  ghost predicate InTime(g: seq<Event>) {
    forall x, y :: 0 <= x < y < |g| ==> g[x].begun <= g[y].done
  }

  lemma StillInTime(g: seq<Event>, y: nat)
    requires y < |g| && InTime(g)
    ensures InTime(g[..y] + g[y + 1..])
  {
    var others := g[..y] + g[y + 1..];
    forall a, b | 0 <= a < b < |others|
      ensures others[a].begun <= others[b].done
    {
      var i, j := if a < y then a else a + 1, if b < y then b else b + 1;
      assert others[a] == g[i] && others[b] == g[j];
    }
  }

  /** One call stands somewhere in an order, and without it the others are in order. */
  lemma TakenOut(g: seq<Event>, e: Event, rest: seq<Event>) returns (y: nat, others: seq<Event>)
    requires Linearizes(g, [e] + rest)
    ensures y <= |others| && g == others[..y] + [e] + others[y..] && Linearizes(others, rest)
  {
    SameMembers([e] + rest, g);
    assert ([e] + rest)[0] == e;
    y :| 0 <= y < |g| && g[y] == e;
    others := g[..y] + g[y + 1..];
    Lift(g, y);
    StillInTime(g, y);
    Displaced(e, rest);
    Cancel(multiset(others), multiset(rest), e);
  }

  lemma OrdersAlike(g: seq<Event>, h: seq<Event>, k: seq<Event>)
    requires Linearizes(g, h) && multiset(h) == multiset(k)
    ensures Linearizes(g, k)
  {
  }

  lemma OneOrder(g: seq<Event>, a: Event)
    requires Linearizes(g, [a])
    ensures g == [a]
  {
    SameMembers(g, [a]);
  }

  lemma TwoOrders(g: seq<Event>, a: Event, b: Event)
    requires Linearizes(g, [a] + [b])
    ensures g == [a, b] || g == [b, a]
  {
    hide Linearizes;
    var y, others := TakenOut(g, a, [b]);
    OneOrder(others, b);
    assert [b][..0] == [] && [b][..1] == [b] && [b][0..] == [b] && [b][1..] == [];
    assert y == 0 || y == 1;
  }

  /** The first was done before the second began. */
  lemma InTurn(g: seq<Event>, a: Event, b: Event)
    requires Linearizes(g, [a] + [b]) && a.done < b.begun
    ensures g == [a, b]
  {
    TwoOrders(g, a, b);
  }

  lemma ThirdTakenOut(g: seq<Event>, a: Event, b: Event, c: Event) returns (y: nat, others: seq<Event>)
    requires Linearizes(g, [a] + [b] + [c])
    ensures y <= |others| && g == others[..y] + [c] + others[y..] && Linearizes(others, [a] + [b])
  {
    hide Linearizes;
    MovedUp([a] + [b], c, []);
    OrdersAlike(g, [a] + [b] + [c], [c] + ([a] + [b]));
    y, others := TakenOut(g, c, [a] + [b]);
  }

  /** The first was done before the second began, and a third overlaps with both. */
  lemma ThreeOverlapping(g: seq<Event>, a: Event, b: Event, c: Event)
    requires Linearizes(g, [a] + [b] + [c]) && a.done < b.begun
    ensures g == [a, b, c] || g == [a, c, b] || g == [c, a, b]
  {
    hide Linearizes;
    var y, others := ThirdTakenOut(g, a, b, c);
    InTurn(others, a, b);
    InsertedInTwo(a, b, c, y);
  }

  lemma BothLater(a: Event, b: Event, c: Event)
    requires a.done < b.begun && a.done < c.begun
    ensures forall d :: d in [b] + [c] ==> a.done < d.begun
  {
  }

  /** The first was done before the other two began. */
  lemma FirstInTurn(g: seq<Event>, a: Event, b: Event, c: Event)
    requires Linearizes(g, [a] + ([b] + [c])) && a.done < b.begun && a.done < c.begun
    ensures g == [a, b, c] || g == [a, c, b]
  {
    hide Linearizes;
    BothLater(a, b, c);
    FirstComesFirst(g, a, [b] + [c]);
    TwoOrders(g[1..], b, c);
    assert g == [a] + g[1..];
  }

  lemma FourthTakenOut(g: seq<Event>, a: Event, b: Event, c: Event, d: Event) returns (y: nat, others: seq<Event>)
    requires Linearizes(g, [a] + [b] + [d] + [c])
    ensures y <= |others| && g == others[..y] + [d] + others[y..] && Linearizes(others, [a] + ([b] + [c]))
  {
    hide Linearizes;
    MovedUp([a] + [b], d, [c]);
    assert ([a] + [b]) + [c] == [a] + ([b] + [c]);
    OrdersAlike(g, [a] + [b] + [d] + [c], [d] + ([a] + ([b] + [c])));
    y, others := TakenOut(g, d, [a] + ([b] + [c]));
  }

  /** The first was done before the second and the third began, and a fourth overlaps with all of them. */
  lemma FourOverlapping(g: seq<Event>, a: Event, b: Event, c: Event, d: Event)
    requires Linearizes(g, [a] + [b] + [d] + [c]) && a.done < b.begun && a.done < c.begun
    ensures
      || g == [d, a, b, c] || g == [a, d, b, c] || g == [a, b, d, c] || g == [a, b, c, d]
      || g == [d, a, c, b] || g == [a, d, c, b] || g == [a, c, d, b] || g == [a, c, b, d]
  {
    hide Linearizes;
    var y, others := FourthTakenOut(g, a, b, c, d);
    FirstInTurn(others, a, b, c);
    InsertedInThree(a, b, c, d, y);
    InsertedInThree(a, c, b, d, y);
  }

  lemma MovedUp(p: seq<Event>, e: Event, q: seq<Event>)
    ensures multiset(p + [e] + q) == multiset([e] + (p + q))
    ensures q == [] ==> p + [e] + q == p + [e] && [e] + (p + q) == [e] + p
  {
    assert multiset([e] + (p + q)) == multiset{e} + (multiset(p) + multiset(q));
    assert multiset(p + [e] + q) == multiset(p) + multiset{e} + multiset(q);
  }

  lemma InsertedInTwo<T>(a: T, b: T, c: T, y: nat)
    requires y <= 2
    ensures
      var g := [a, b][..y] + [c] + [a, b][y..];
      g == [c, a, b] || g == [a, c, b] || g == [a, b, c]
  {
    var o := [a, b];
    assert o[..0] == [] && o[..1] == [a] && o[..2] == o;
    assert o[0..] == o && o[1..] == [b] && o[2..] == [];
    assert y == 0 || y == 1 || y == 2;
  }

  lemma InsertedInThree<T>(a: T, b: T, c: T, d: T, y: nat)
    requires y <= 3
    ensures
      var g := [a, b, c][..y] + [d] + [a, b, c][y..];
      g == [d, a, b, c] || g == [a, d, b, c] || g == [a, b, d, c] || g == [a, b, c, d]
  {
    var o := [a, b, c];
    assert o[..0] == [] && o[..1] == [a] && o[..2] == [a, b] && o[..3] == o;
    assert o[0..] == o && o[1..] == [b, c] && o[2..] == [c] && o[3..] == [];
    assert y == 0 || y == 1 || y == 2 || y == 3;
  }

  // ---------------------------------------------------------------- calls before the race

  /** A call that was done before all the others began comes first in every order. */
  lemma {:induction false} FirstComesFirst(g: seq<Event>, e: Event, rest: seq<Event>)
    requires Linearizes(g, [e] + rest) && forall d :: d in rest ==> e.done < d.begun
    ensures g != [] && g[0] == e && Linearizes(g[1..], rest)
  {
    var y, others := TakenOut(g, e, rest);
    assert g[y] == e;
    SameMembers(others, rest);
    assert others[..0] + [e] + others[0..] == [e] + others;
  }

  /** So it can be taken off the front of what has to be explained. */
  lemma NotExplainedLater(st: Option<Cell>, e: Event, rest: seq<Event>, key: Key, end: Option<Cell>)
    requires e.call.key == key && forall d :: d in rest ==> e.done < d.begun
    requires !Explainable(After(st, e), rest, key, end)
    ensures !Explainable(st, [e] + rest, key, end)
  {
    hide Legal, Replay, After, Explained;
    forall g | Linearizes(g, [e] + rest)
      ensures !(Legal(st, g, key) && Replay(st, g, key) == end)
    {
      FirstComesFirst(g, e, rest);
      Front(st, g, key);
    }
  }
}
