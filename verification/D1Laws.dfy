/** The D1 store against the timed map that the SQL store refines: calls that run one after another reply alike,
    so whatever CommandLaws says of the one holds of the other.  And what a SET leaves, from its statements. */
module D1Laws {
  import opened Decimal
  import opened StoreTypes
  import opened D1Protocol
  import opened D1Unchecked
  import opened D1Sequential
  import D1Exact
  import T = TimedMap

  // ---------------------------------------------------------------- SET and GET, statement by statement

  /** When a SET at a time lets its value expire: ttl later, or with KEEPTTL as the old value was to, or never. */
  function ExpiryOf(opts: SetOptions, row: Row, now: int): Option<int> {
    if opts.ttl > 0 then Some(now + opts.ttl) else if opts.keepTTL then row.expiresAt else None
  }

  /** A whole SET without NX on a live string, and a whole GET at any later time: the SET replies with the old
      value and leaves the new one with its expiry, and the GET replies with the new one until that. */
  lemma SetThenGet(s: State, c: Client, d: Client, call: Call, row: Row, now: int, later: int)
    requires AllIdle(s) && call.Set? && !call.opts.nx
    requires Lookup(s.table, call.key) == Some(row) && row.kind == StringKind && !Passed(row.expiresAt, now)
    ensures
      var expires := ExpiryOf(call.opts, row, now);
      var written := Run(s, [Begin(c, call), Step(c, now), Step(c, now)]);
      var read := Run(written, Whole(Turn(d, Get(call.key), later)));
      var gone := expires.Some? && expires.value <= later;
      && Lookup(written.table, call.key) ==
           Some(row.(data := call.value, expiresAt := expires, version := row.version + 1, updatedAt := now))
      && |written.history| == |s.history| + 1 && |read.history| == |s.history| + 2
      && written.history[|s.history|].reply == Written(Some(row.data), true)
      && read.history[|s.history| + 1].reply == Value(if gone then None else Some(call.value))
  {
    hide Run, Whole;
    D1Exact.OverwriteRuns(s, c, call, row, now);
    assert Start(c, call, now) + [Step(c, now)] == [Begin(c, call), Step(c, now), Step(c, now)];
    var written := Run(s, [Begin(c, call), Step(c, now), Step(c, now)]);
    IdleAgain(s, written, c);
    WholeTurn(written, Turn(d, Get(call.key), later));
  }

  // ---------------------------------------------------------------- the same replies as the timed map

  function CommandOf(call: Call): T.Command
    requires !call.Delete?
  {
    match call
    case Get(_) => T.Get
    case Set(_, value, opts) => T.Command.Set(value, opts)
    case IncrBy(_, delta) => T.Command.IncrBy(delta)
    case Expire(_, ttl) => T.Command.Expire(ttl)
    case Persist(_) => T.Command.Persist
  }

  function OpOf(call: Call): T.Op {
    if call.Delete? then T.Del([call.key]) else T.On(call.key, CommandOf(call))
  }

  /** The same contents; a sorted set's members are in another table. */
  predicate Alike(st: Option<Cell>, e: Option<T.Entry>) {
    && (st.Some? <==> e.Some?)
    && (st.Some? ==>
          && st.value.expiresAt == e.value.expiresAt
          && (st.value.kind == StringKind <==> e.value.content.Str?)
          && (st.value.kind == StringKind ==> st.value.data == e.value.content.data))
  }

  /** The string that a value is given back as. */
  predicate Gives(data: Option<string>, e: Option<T.Entry>) {
    && (data.Some? <==> e.Some?)
    && (e.Some? && e.value.content.Str? ==> data.value == e.value.content.data)
  }

  /** The two replies say the same; the timed map does not count what DEL deletes. */
  predicate Says(r: Reply, q: T.Reply) {
    match r
    case Value(data) => q.Value? && Gives(data, q.entry)
    case Written(previous, wrote) => q.Wrote? && wrote == q.wrote && Gives(previous, q.before)
    case Number(n) => q == T.Number(n)
    case Deleted(_) => q == T.Done
    case Changed(ok) => q == T.Flag(ok)
    case WrongType => q == T.WrongType
    case NotInt => q == T.NotInt
    case Conflict => false
    case Duplicate => false
  }

  /** One command on a cell that is live. */
  lemma AtomicIsAct(st: Option<Cell>, e: Option<T.Entry>, call: Call, now: int)
    requires !call.Delete? && Alike(st, e) && Live(st, now) == st
    ensures
      var (st', r) := Atomic(st, call, now);
      var (e', q) := T.Act(e, CommandOf(call), now);
      Alike(st', e') && Says(r, q)
  {
    hide FormatInt, ParseInt, Add64;
  }

  /** The table holds, of what is live at a time, what the map holds. */
  ghost predicate Agrees(table: Table, v: T.Db, now: int) {
    forall k :: Alike(Live(Abs(table, k), now), T.Lookup(T.Live(v, now), k))
  }

  lemma AgreesLater(table: Table, v: T.Db, now: int, later: int)
    requires Agrees(table, v, now) && now <= later
    ensures Agrees(table, v, later)
  {
    forall k
      ensures Alike(Live(Abs(table, k), later), T.Lookup(T.Live(v, later), k))
    {
      assert Alike(Live(Abs(table, k), now), T.Lookup(T.Live(v, now), k));
    }
  }

  lemma TurnAgrees(s: State, t: State, u: Turn, v: T.Db)
    requires TurnTaken(s, t, u) && Agrees(s.table, v, u.now)
    ensures
      var (w, q) := T.Apply(T.Live(v, u.now), OpOf(u.call), u.now);
      Agrees(t.table, w, u.now) && Says(t.history[|s.history|].reply, q)
  {
    hide T.Act, OnLive;
    var (w, q) := T.Apply(T.Live(v, u.now), OpOf(u.call), u.now);
    var key := u.call.key;
    assert Alike(Live(Abs(s.table, key), u.now), T.Lookup(T.Live(v, u.now), key));
    if !u.call.Delete? {
      AtomicIsAct(Live(Abs(s.table, key), u.now), T.Lookup(T.Live(v, u.now), key), u.call, u.now);
    }
    forall k
      ensures Alike(Live(Abs(t.table, k), u.now), T.Lookup(T.Live(w, u.now), k))
    {
      assert Alike(Live(Abs(s.table, k), u.now), T.Lookup(T.Live(v, u.now), k));
    }
  }

  function TraceOf(turns: seq<Turn>): seq<T.Timed<T.Op>> {
    seq(|turns|, i requires 0 <= i < |turns| => T.Timed(OpOf(turns[i].call), turns[i].now))
  }

  /** Calls that run one after another on D1, with time moving forward, reply as the timed map does, and leave
      what it holds: as long as nobody races, the two stores cannot be told apart. */
  lemma {:induction false} OneByOneIsTimedMap(s0: State, turns: seq<Turn>, v: T.Db, start: int)
    requires Quiescent(s0) && Agrees(s0.table, v, start) && T.InOrder(TraceOf(turns), start)
    ensures
      var s, (w, replies) := Run(s0, OneByOne(turns)), T.Run(v, TraceOf(turns));
      && |s.history| == |replies| == |turns|
      && (forall i :: 0 <= i < |turns| ==> Says(s.history[i].reply, replies[i]))
      && Agrees(s.table, w, T.LastTime(TraceOf(turns), start))
  {
    hide Run, Whole, Atomic, T.Apply, T.Live, T.Run, Says, Agrees, OpOf;
    if turns == [] {
      RunNothing(s0);
      NoReplies(v);
    } else {
      var n := |turns| - 1;
      var before, u := turns[..n], turns[n];
      var trace, last := TraceOf(before), T.Timed(OpOf(u.call), u.now);
      assert TraceOf(turns) == trace + [last] && TraceOf(turns)[n] == last;
      InOrderBefore(trace, last, start);
      OneByOneIsTimedMap(s0, before, v, start);
      SequentialIsLegal(s0, before, u.call.key);
      var s := Run(s0, OneByOne(before));
      RunConcat(s0, OneByOne(before), Whole(u));
      T.RunNext(v, trace, last);
      WholeTurn(s, u);
      AgreesLater(s.table, T.Run(v, trace).0, T.LastTime(trace, start), u.now);
      TurnAgrees(s, Run(s, Whole(u)), u, T.Run(v, trace).0);
    }
  }

  lemma NoReplies(v: T.Db)
    ensures T.Run(v, []) == (v, [])
  {
  }

  lemma InOrderBefore(trace: seq<T.Timed<T.Op>>, last: T.Timed<T.Op>, start: int)
    requires T.InOrder(trace + [last], start)
    ensures T.InOrder(trace, start) && T.LastTime(trace, start) <= last.now
  {
    var all := trace + [last];
    assert forall i :: 0 <= i < |trace| ==> trace[i] == all[i];
    assert all[|trace|] == last;
  }
}
