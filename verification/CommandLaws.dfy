/** What the commands of TimedMap are worth to a client: laws between a command and what is asked later, with
    any operations on other keys, and any reads of the same key, in between.  None of them names the function
    that says what a single command does. */
module CommandLaws {
  import opened Decimal
  import opened StoreTypes
  import opened TimedMap
  import Z = ZSets
  import opened Ordering

  // ---------------------------------------------------------------- keys that are left alone

  /** An operation that may change the entry of key k. */
  predicate Touches(op: Op, k: Key) {
    match op
    case On(j, c) => j == k && IsWriter(c)
    case MSet(pairs, _) => exists i :: 0 <= i < |pairs| && pairs[i].key == k
    case Del(keys) => k in keys
    case Purge(_) => false
  }

  /** What a key holds at a time. */
  function At(v: Db, k: Key, t: int): Option<Entry> {
    Lookup(Live(v, t), k)
  }

  /** What is left of an entry at a time. */
  function Still(e: Option<Entry>, t: int): Option<Entry> {
    if e.Some? && Passed(e.value.expiresAt, t) then None else e
  }

  lemma StoredAt(v: Db, j: Key, e: Option<Entry>, k: Key, now: int, t: int)
    requires now <= t
    ensures At(Stored(v, j, e, now), k, t) == if j == k then Still(e, t) else At(v, k, t)
  {
  }

  lemma {:induction false} MSetLeaves(v: Db, pairs: seq<Pair>, opts: SetOptions, now: int, k: Key, t: int)
    requires now <= t && forall i :: 0 <= i < |pairs| ==> pairs[i].key != k
    ensures
      var w := MSetAll(v, pairs, opts, now);
      w.Some? ==> At(w.value, k, t) == At(v, k, t)
  {
    hide At, SetAct, Stored;
    if pairs != [] {
      var n := |pairs| - 1;
      MSetLeaves(v, pairs[..n], opts, now, k, t);
      var w := MSetAll(v, pairs[..n], opts, now);
      if w.Some? {
        var e := SetAct(Lookup(w.value, pairs[n].key), pairs[n].value, opts, now).0;
        StoredAt(w.value, pairs[n].key, e, k, now, t);
      }
    }
  }

  lemma LeftAlone(v: Db, op: Op, k: Key, now: int, t: int)
    requires now <= t && !Touches(op, k)
    ensures At(Apply(Live(v, now), op, now).0, k, t) == At(v, k, t)
  {
    hide Act, MSetAll, Stored, IsWriter;
    var w := Live(v, now);
    LiveTwice(v, now, t);
    match op
    case On(j, c) =>
      if j == k {
        LiveTwice(v, now, now);
        ReadersKeep(w, k, c, now);
      } else {
        StoredAt(w, j, Act(Lookup(w, j), c, now).0, k, now, t);
      }
    case MSet(pairs, opts) => MSetLeaves(w, pairs, opts, now, k, t);
    case Del(keys) =>
    case Purge(_) =>
  }

  /** Nothing of the trace changes key k, and all of it happens by time t. */
  predicate Quiet(trace: seq<Timed<Op>>, k: Key, t: int) {
    forall i :: 0 <= i < |trace| ==> trace[i].now <= t && !Touches(trace[i].op, k)
  }

  /** A key that nothing changes holds what it held, until that expires. */
  lemma {:induction false} Untouched(v: Db, trace: seq<Timed<Op>>, k: Key, t: int)
    requires Quiet(trace, k, t)
    ensures At(Run(v, trace).0, k, t) == At(v, k, t)
  {
    hide At, Apply, Touches;
    if trace != [] {
      var n := |trace| - 1;
      Untouched(v, trace[..n], k, t);
      LeftAlone(Run(v, trace[..n]).0, trace[n].op, k, trace[n].now, t);
    }
  }

  lemma {:induction false} RunSplit(v: Db, a: seq<Timed<Op>>, b: seq<Timed<Op>>)
    ensures
      var (w, first) := Run(v, a);
      var (u, second) := Run(w, b);
      Run(v, a + b) == (u, first + second)
  {
    hide Apply;
    if b == [] {
      assert a + b == a && Run(v, a).1 + [] == Run(v, a).1;
    } else {
      var n := |b| - 1;
      RunSplit(v, a, b[..n]);
      assert (a + b)[..|a + b| - 1] == a + b[..n];
      var (w, first) := Run(v, a);
      var reply := Apply(Live(Run(w, b[..n]).0, b[n].now), b[n].op, b[n].now).1;
      assert first + Run(w, b[..n]).1 + [reply] == first + (Run(w, b[..n]).1 + [reply]);
    }
  }

  // ---------------------------------------------------------------- one command, and one later

  function Script(first: Op, s: int, between: seq<Timed<Op>>, k: Key, second: Command, t: int): seq<Timed<Op>> {
    [Timed(first, s)] + between + [Timed(On(k, second), t)]
  }

  /** The replies to an operation at time s and to a command on key k at time t, after everything in between. */
  function Asked(v: Db, first: Op, s: int, between: seq<Timed<Op>>, k: Key, second: Command, t: int): (Reply, Reply) {
    var script := Script(first, s, between, k, second, t);
    RunLength(v, script);
    var replies := Run(v, script).1;
    (replies[0], replies[|replies| - 1])
  }

  lemma RunOne(v: Db, op: Op, now: int)
    ensures Run(v, [Timed(op, now)]) == var (w, reply) := Apply(Live(v, now), op, now); (w, [reply])
  {
    hide Apply;
    var reply := Apply(Live(v, now), op, now).1;
    assert [Timed(op, now)][..0] == [] && Run(v, []) == (v, []);
    assert [] + [reply] == [reply];
  }

  lemma AfterOp(v: Db, first: Op, s: int, between: seq<Timed<Op>>, k: Key, second: Command, t: int)
    requires s <= t && Quiet(between, k, t)
    ensures
      var (w, reply) := Apply(Live(v, s), first, s);
      Asked(v, first, s, between, k, second, t) == (reply, Act(At(w, k, t), second, t).1)
  {
    hide Act, Run, Quiet, Stored, Live, MSetAll;
    var a, b, c := [Timed(first, s)], between, [Timed(On(k, second), t)];
    RunSplit(v, a + b, c);
    RunSplit(v, a, b);
    RunLength(v, a);
    RunLength(Run(v, a).0, b);
    RunOne(v, first, s);
    RunOne(Run(v, a + b).0, On(k, second), t);
    Untouched(Run(v, a).0, b, k, t);
  }

  lemma Afterwards(v: Db, k: Key, first: Command, s: int, between: seq<Timed<Op>>, second: Command, t: int)
    requires s <= t && Quiet(between, k, t)
    ensures
      var (e, reply) := Act(At(v, k, s), first, s);
      Asked(v, On(k, first), s, between, k, second, t) == (reply, Act(Still(e, t), second, t).1)
  {
    hide Act, Asked, Quiet, Stored, Live;
    AfterOp(v, On(k, first), s, between, k, second, t);
    StoredAt(Live(v, s), k, Act(At(v, k, s), first, s).0, k, s, t);
  }

  // ---------------------------------------------------------------- strings and expiry

  function Told(e: Option<Entry>): Reply {
    if e.Some? && e.value.content.ZSet? then WrongType else Value(e)
  }

  /** When a SET at time s lets its value expire: ttl later, or with KEEPTTL when the old one was to, or never. */
  function ExpiryOf(opts: SetOptions, e: Option<Entry>, s: int): Option<int> {
    if opts.ttl > 0 then Some(s + opts.ttl)
    else if opts.keepTTL && e.Some? then e.value.expiresAt else None
  }

  /** A SET that NX, XX and the type of the old value let through: it replies with the old value, and the new
      one is read back, with its time to live, until that is over. */
  lemma SetThenRead(
      v: Db, k: Key, value: string, opts: SetOptions, s: int, between: seq<Timed<Op>>, t: int)
    requires s <= t && Quiet(between, k, t)
    requires opts.nx ==> At(v, k, s).None?
    requires opts.xx ==> At(v, k, s).Some?
    requires At(v, k, s).Some? ==> At(v, k, s).value.content.Str?
    ensures
      var e, set0 := At(v, k, s), Command.Set(value, opts);
      var expires := ExpiryOf(opts, e, s);
      var gone := expires.Some? && expires.value <= t;
      var version := if e.Some? then e.value.version + 1 else 1;
      && Asked(v, On(k, set0), s, between, k, Get, t) ==
           (Wrote(e, true), Value(if gone then None else Some(Entry(Str(value), expires, version))))
      && Asked(v, On(k, set0), s, between, k, TypeOf, t).1 == Kind(if gone then "none" else "string")
      && Asked(v, On(k, set0), s, between, k, Ttl, t).1 ==
           if gone then TimeLeft(false, None)
           else TimeLeft(true, if expires.Some? then Some(expires.value - t) else None)
  {
    hide At, Asked, Quiet;
    Afterwards(v, k, Command.Set(value, opts), s, between, Get, t);
    Afterwards(v, k, Command.Set(value, opts), s, between, TypeOf, t);
    Afterwards(v, k, Command.Set(value, opts), s, between, Ttl, t);
  }

  /** A SET that they do not let through says so and changes nothing. */
  lemma SetRefused(v: Db, k: Key, value: string, opts: SetOptions, s: int, between: seq<Timed<Op>>, t: int)
    requires s <= t && Quiet(between, k, t)
    requires
      var e := At(v, k, s);
      (opts.nx && e.Some?) || (opts.xx && e.None?) || (e.Some? && e.value.content.ZSet?)
    ensures
      var e := At(v, k, s);
      var refusal := if (opts.nx && e.Some?) || (opts.xx && e.None?) then Wrote(e, false) else WrongType;
      Asked(v, On(k, Command.Set(value, opts)), s, between, k, Get, t) == (refusal, Told(Still(e, t)))
  {
    hide At, Asked, Quiet;
    Afterwards(v, k, Command.Set(value, opts), s, between, Get, t);
  }

  /** GETDEL replies as GET would, and a string is gone after it. */
  lemma GetDelThenGet(v: Db, k: Key, s: int, between: seq<Timed<Op>>, t: int)
    requires s <= t && Quiet(between, k, t)
    ensures
      var e := At(v, k, s);
      var kept := e.Some? && e.value.content.ZSet?;
      Asked(v, On(k, Command.GetDel), s, between, k, TypeOf, t) ==
        (Told(e), Kind(if kept && Still(e, t).Some? then "zset" else "none"))
  {
    hide At, Asked, Quiet;
    Afterwards(v, k, Command.GetDel, s, between, TypeOf, t);
  }

  /** EXPIRE ttl on a key that is there: TTL counts down from ttl, and the key, with its old contents, is there
      until ttl has passed and not after. */
  lemma ExpireThenRead(v: Db, k: Key, ttl: int, s: int, between: seq<Timed<Op>>, t: int)
    requires s <= t && Quiet(between, k, t) && At(v, k, s).Some?
    ensures
      var e := At(v, k, s).value;
      var later := if t < s + ttl
                   then Some(Entry(e.content, Some(s + ttl), e.version + 1)) else None;
      && Asked(v, On(k, Command.Expire(ttl)), s, between, k, Ttl, t) ==
           (Flag(true), if t < s + ttl then TimeLeft(true, Some(ttl - (t - s))) else TimeLeft(false, None))
      && Asked(v, On(k, Command.Expire(ttl)), s, between, k, Get, t).1 == Told(later)
  {
    hide At, Asked, Quiet;
    Afterwards(v, k, Command.Expire(ttl), s, between, Ttl, t);
    Afterwards(v, k, Command.Expire(ttl), s, between, Get, t);
  }

  /** PERSIST on a key with an expiry: the key, with its old contents, is there for good. */
  lemma PersistThenRead(v: Db, k: Key, s: int, between: seq<Timed<Op>>, t: int)
    requires s <= t && Quiet(between, k, t) && At(v, k, s).Some? && At(v, k, s).value.expiresAt.Some?
    ensures
      var e := At(v, k, s).value;
      && Asked(v, On(k, Command.Persist), s, between, k, Ttl, t) == (Flag(true), TimeLeft(true, None))
      && Asked(v, On(k, Command.Persist), s, between, k, Get, t).1 == Told(Some(Entry(e.content, None, e.version + 1)))
  {
    hide At, Asked, Quiet;
    Afterwards(v, k, Command.Persist, s, between, Ttl, t);
    Afterwards(v, k, Command.Persist, s, between, Get, t);
  }

  /** EXPIRE and PERSIST on a key that is not there, and PERSIST on one that does not expire, do nothing. */
  lemma NothingToTouch(v: Db, k: Key, c: Command, s: int, between: seq<Timed<Op>>, t: int)
    requires s <= t && Quiet(between, k, t)
    requires c.Expire? || c.Persist?
    requires At(v, k, s).None? || (c.Persist? && At(v, k, s).value.expiresAt.None?)
    ensures Asked(v, On(k, c), s, between, k, Get, t) == (Flag(false), Told(At(v, k, s)))
  {
    hide At, Asked, Quiet;
    Afterwards(v, k, c, s, between, Get, t);
  }

  /** After DEL there is nothing. */
  lemma DelThenType(v: Db, keys: seq<Key>, k: Key, s: int, between: seq<Timed<Op>>, t: int)
    requires s <= t && Quiet(between, k, t) && k in keys
    ensures Asked(v, Del(keys), s, between, k, TypeOf, t) == (Done, Kind("none"))
  {
    hide Asked, Quiet, Act;
    AfterOp(v, Del(keys), s, between, k, TypeOf, t);
    assert At(Apply(Live(v, s), Del(keys), s).0, k, t).None?;
    TypeOfNothing(t);
  }

  lemma TypeOfNothing(t: int)
    ensures Act(None, TypeOf, t).1 == Kind("none")
  {
  }

  // ---------------------------------------------------------------- MSET

  predicate Plain(opts: SetOptions) {
    !opts.nx && !opts.xx && !opts.keepTTL
  }

  /** An MSET without NX, XX and KEEPTTL that goes through stores for every key the last value it gives. */
  lemma {:induction false} MSetWritesLast(v: Db, pairs: seq<Pair>, opts: SetOptions, now: int, i: nat)
    requires Plain(opts)
    requires i < |pairs| && forall j :: i < j < |pairs| ==> pairs[j].key != pairs[i].key
    ensures
      var w := MSetAll(v, pairs, opts, now);
      w.Some? ==>
        var e := Lookup(w.value, pairs[i].key);
        && e.Some? && e.value.content == Str(pairs[i].value)
        && e.value.expiresAt == if opts.ttl > 0 then Some(now + opts.ttl) else None
  {
    var n := |pairs| - 1;
    if i < n {
      MSetWritesLast(v, pairs[..n], opts, now, i);
    }
  }

  predicate HoldsSet(v: Db, k: Key) {
    k in v && v[k].content.ZSet?
  }

  /** It goes through if and only if none of its keys holds a sorted set. */
  lemma {:induction false} MSetGoesThrough(v: Db, pairs: seq<Pair>, opts: SetOptions, now: int)
    requires Plain(opts)
    ensures
      var w := MSetAll(v, pairs, opts, now);
      && (w.Some? <==> forall i :: 0 <= i < |pairs| ==> !HoldsSet(v, pairs[i].key))
      && (w.Some? ==> forall k :: HoldsSet(w.value, k) <==> HoldsSet(v, k))
  {
    if pairs != [] {
      var n := |pairs| - 1;
      MSetGoesThrough(v, pairs[..n], opts, now);
    }
  }

  /** MSET is all or nothing: with a sorted set under one of its keys it changes no key, named or not; otherwise
      every key it names is read back with the last value given for it. */
  lemma MSetThenGet(v: Db, pairs: seq<Pair>, opts: SetOptions, s: int, between: seq<Timed<Op>>, k: Key, t: int)
    requires s <= t && Quiet(between, k, t) && Plain(opts)
    ensures
      var refused := exists i :: 0 <= i < |pairs| && HoldsSet(Live(v, s), pairs[i].key);
      var (reply, read) := Asked(v, MSet(pairs, opts), s, between, k, Get, t);
      if refused then reply == WrongType && read == Told(At(v, k, t))
      else
        && reply == Done
        && forall i :: 0 <= i < |pairs| && pairs[i].key == k && (forall j :: i < j < |pairs| ==> pairs[j].key != k) ==>
             if 0 < opts.ttl <= t - s then read == Value(None)
             else read.Value? && read.entry.Some? && read.entry.value.content == Str(pairs[i].value)
  {
    hide Asked, Quiet, MSetAll, Live;
    AfterOp(v, MSet(pairs, opts), s, between, k, Get, t);
    MSetGoesThrough(Live(v, s), pairs, opts, s);
    LiveTwice(v, s, t);
    var w := MSetAll(Live(v, s), pairs, opts, s);
    if w.Some? {
      forall i | 0 <= i < |pairs| && pairs[i].key == k && (forall j :: i < j < |pairs| ==> pairs[j].key != k)
        ensures At(w.value, k, t) == Still(Lookup(w.value, k), t)
        ensures var e := Lookup(w.value, k);
          && e.Some? && e.value.content == Str(pairs[i].value)
          && e.value.expiresAt == if opts.ttl > 0 then Some(s + opts.ttl) else None
      {
        MSetWritesLast(Live(v, s), pairs, opts, s, i);
        AtIsStill(w.value, k, t);
      }
    }
  }

  lemma AtIsStill(v: Db, k: Key, t: int)
    ensures At(v, k, t) == Still(Lookup(v, k), t)
  {
  }

  function SetsOf(pairs: seq<Pair>, opts: SetOptions, s: int): seq<Timed<Op>> {
    seq(|pairs|, i requires 0 <= i < |pairs| => Timed(On(pairs[i].key, Command.Set(pairs[i].value, opts)), s))
  }

  /** With whatever options: an MSET that goes through is its SETs in order, and it is refused if and only if one
      of them would be. */
  lemma {:induction false} MSetIsSets(v: Db, pairs: seq<Pair>, opts: SetOptions, s: int)
    ensures
      var w := MSetAll(Live(v, s), pairs, opts, s);
      var (u, replies) := Run(v, SetsOf(pairs, opts, s));
      && |replies| == |pairs|
      && (w.Some? <==> WrongType !in replies)
      && (w.Some? ==> w.value == Live(u, s) && Live(w.value, s) == w.value)
  {
    hide SetAct, Stored;
    LiveTwice(v, s, s);
    if pairs != [] {
      var n := |pairs| - 1;
      MSetIsSets(v, pairs[..n], opts, s);
      assert SetsOf(pairs, opts, s)[..n] == SetsOf(pairs[..n], opts, s);
      var w, u := MSetAll(Live(v, s), pairs[..n], opts, s), Run(v, SetsOf(pairs[..n], opts, s)).0;
      var (e, reply) := SetAct(Lookup(Live(u, s), pairs[n].key), pairs[n].value, opts, s);
      SetReplies(Lookup(Live(u, s), pairs[n].key), pairs[n].value, opts, s);
      StoredIsLive(Live(u, s), pairs[n].key, e, s);
    }
  }

  lemma SetReplies(e: Option<Entry>, value: string, opts: SetOptions, s: int)
    ensures Failed(SetAct(e, value, opts, s).1) <==> SetAct(e, value, opts, s).1 == WrongType
  {
  }

  lemma StoredIsLive(v: Db, k: Key, e: Option<Entry>, s: int)
    requires Live(v, s) == v
    ensures Live(Stored(v, k, e, s), s) == Stored(v, k, e, s)
  {
    forall j | j in v
      ensures !Passed(v[j].expiresAt, s)
    {
      assert j in Live(v, s);
    }
  }

  // ---------------------------------------------------------------- counters

  predicate IsIncrement(op: Op, k: Key) {
    op.On? && op.key == k && op.command.IncrBy?
  }

  function GainOf(op: Op, k: Key): int {
    if IsIncrement(op, k) then op.command.delta else 0
  }

  /** What the increments of a trace add to key k. */
  function Gains(trace: seq<Timed<Op>>, k: Key): int {
    if trace == [] then 0
    else
      var n := |trace| - 1;
      Gains(trace[..n], k) + GainOf(trace[n].op, k)
  }

  /** The key holds the text of n, or nothing if n is what nothing counts for. */
  predicate Counts(e: Option<Entry>, n: int) {
    if e.None? then n == 0 else e.value.content.Str? && ParseInt(e.value.content.data) == Some(n)
  }

  lemma WrapAdds(n: int, a: int64, b: int64)
    requires a == Wrap64(n)
    ensures Add64(a, b) == Wrap64(n + b)
  {
    var q := (n - MIN_INT64) / TWO64;
    assert n == a + TWO64 * q;
    WrapUnique(n + b, Add64(a, b), q + Carry(a, b));
  }

  /** One increment of a counter that is there. */
  lemma Incremented(e: Option<Entry>, delta: int64, now: int, n: int)
    requires Counts(e, Wrap64(n))
    ensures
      var (e', reply) := Act(e, Command.IncrBy(delta), now);
      && reply == Number(Wrap64(n + delta))
      && e'.Some? && e'.value.content == Str(FormatInt(Wrap64(n + delta))) && Counts(e', Wrap64(n + delta))
      && Grown(e, e', 1)
  {
    hide ParseInt, FormatInt, Wrap64, Add64;
    WrapAdds(n, Wrap64(n), delta);
    IntRoundTrip(Wrap64(n + delta));
    if e.None? {
      AddToNothing(n, delta);
    }
  }

  lemma AddToNothing(n: int, delta: int64)
    requires Wrap64(n) == 0
    ensures Wrap64(n + delta) == delta
  {
    WrapAdds(n, 0, delta);
  }

  /** What a client learns about a counter from one reply: an increment replies the total with its own delta, a
      GET the text of the total, and nothing if nothing was ever counted. */
  predicate TellsTotal(op: Op, k: Key, reply: Reply, before: int, after: int) {
    && (IsIncrement(op, k) ==> reply == Number(after))
    && (op == On(k, Get) ==> reply.Value? && Counts(reply.entry, before))
  }

  /** What an operation leaves is live. */
  lemma ApplyIsLive(v: Db, op: Op, now: int)
    ensures Live(Apply(Live(v, now), op, now).0, now) == Apply(Live(v, now), op, now).0
  {
    hide Stored, MSetAll, Act;
    LiveTwice(v, now, now);
    match op
    case On(k, c) => StoredIsLive(Live(v, now), k, Act(Lookup(Live(v, now), k), c, now).0, now);
    case MSet(pairs, opts) => MSetIsSets(v, pairs, opts, now);
    case Del(keys) => GoneIsLive(Live(v, now), KeySet(keys), now);
    case Purge(_) =>
  }

  lemma GoneIsLive(v: Db, gone: set<Key>, now: int)
    requires Live(v, now) == v
    ensures Live(v - gone, now) == v - gone
  {
    forall k | k in v
      ensures !Passed(v[k].expiresAt, now)
    {
      assert k in Live(v, now);
    }
  }

  /** How n increments leave the rest of an entry: the expiry stays, or there is none if the key was not there,
      and the version counts them. */
  predicate Grown(e: Option<Entry>, e': Option<Entry>, n: nat) {
    && (e'.None? <==> e.None? && n == 0)
    && (e'.Some? ==>
          && e'.value.expiresAt == (if e.Some? then e.value.expiresAt else None)
          && e'.value.version == (if e.Some? then e.value.version else 0) + n)
  }

  function Increments(trace: seq<Timed<Op>>, k: Key): nat {
    if trace == [] then 0
    else
      var n := |trace| - 1;
      Increments(trace[..n], k) + if IsIncrement(trace[n].op, k) then 1 else 0
  }

  lemma IncrementStep(v: Db, k: Key, delta: int64, now: int, n: int)
    requires Counts(Lookup(v, k), Wrap64(n)) && Still(Lookup(v, k), now) == Lookup(v, k)
    ensures
      var (w, reply) := Step(Live(v, now), k, Command.IncrBy(delta), now);
      && reply == Number(Wrap64(n + delta)) && Counts(Lookup(w, k), Wrap64(n + delta))
      && k in w && w[k].content == Str(FormatInt(Wrap64(n + delta))) && Grown(Lookup(v, k), Lookup(w, k), 1)
  {
    hide Act, Counts, Wrap64, FormatInt, Live;
    AtIsStill(v, k, now);
    Incremented(Lookup(v, k), delta, now, n);
  }

  lemma OtherStep(v: Db, op: Op, k: Key, now: int)
    requires !Touches(op, k) && Still(Lookup(v, k), now) == Lookup(v, k)
    ensures Lookup(Apply(Live(v, now), op, now).0, k) == Lookup(v, k)
    ensures op == On(k, Get) ==> Apply(Live(v, now), op, now).1 == Told(Lookup(v, k))
  {
    hide Apply, Touches, Live;
    AtIsStill(v, k, now);
    LeftAlone(v, op, k, now, now);
    ApplyIsLive(v, op, now);
    if op == On(k, Get) {
      GetTells(v, k, now);
    }
  }

  lemma GetTells(v: Db, k: Key, now: int)
    ensures Apply(Live(v, now), On(k, Get), now).1 == Told(At(v, k, now))
  {
  }

  ghost predicate OnlyCounted(v: Db, trace: seq<Timed<Op>>, k: Key) {
    forall i :: 0 <= i < |trace| ==>
      && (Touches(trace[i].op, k) ==> IsIncrement(trace[i].op, k))
      && Still(Lookup(v, k), trace[i].now) == Lookup(v, k)
  }

  lemma CounterStep(v: Db, op: Op, k: Key, now: int, n: int)
    requires Touches(op, k) ==> IsIncrement(op, k)
    requires Counts(Lookup(v, k), Wrap64(n)) && Still(Lookup(v, k), now) == Lookup(v, k)
    ensures
      var (w, reply) := Apply(Live(v, now), op, now);
      && Counts(Lookup(w, k), Wrap64(n + GainOf(op, k)))
      && Grown(Lookup(v, k), Lookup(w, k), if IsIncrement(op, k) then 1 else 0)
      && TellsTotal(op, k, reply, Wrap64(n), Wrap64(n + GainOf(op, k)))
      && (if IsIncrement(op, k) then k in w && w[k].content == Str(FormatInt(Wrap64(n + op.command.delta)))
          else Lookup(w, k) == Lookup(v, k))
  {
    hide Apply, Live, Touches, FormatInt, Counts, Wrap64;
    if IsIncrement(op, k) {
      IncrementStep(v, k, op.command.delta, now, n);
      OneIncrement(v, op, k, now);
    } else {
      OtherStep(v, op, k, now);
      CountsTold(Lookup(v, k), Wrap64(n));
    }
  }

  lemma OneIncrement(v: Db, op: Op, k: Key, now: int)
    requires IsIncrement(op, k)
    ensures Apply(Live(v, now), op, now) == Step(Live(v, now), k, Command.IncrBy(op.command.delta), now)
  {
  }

  lemma CountsTold(e: Option<Entry>, n: int)
    requires Counts(e, n)
    ensures Told(e) == Value(e)
  {
  }

  /** What the key holds after such a run: the wrapped sum, as its text once anything was added. */
  lemma {:induction false} CounterHolds(v: Db, trace: seq<Timed<Op>>, k: Key, n: int64)
    requires Counts(Lookup(v, k), n) && OnlyCounted(v, trace, k)
    ensures
      var w, total := Run(v, trace).0, Wrap64(n + Gains(trace, k));
      && Counts(Lookup(w, k), total)
      && Grown(Lookup(v, k), Lookup(w, k), Increments(trace, k))
      && (if exists i :: 0 <= i < |trace| && IsIncrement(trace[i].op, k)
          then k in w && w[k].content == Str(FormatInt(total))
          else Lookup(w, k) == Lookup(v, k))
  {
    hide Apply, Live, Touches, FormatInt, Counts, Wrap64, TellsTotal;
    if trace == [] {
      WrapUnique(n, n, 0);
    } else {
      var m := |trace| - 1;
      CounterHolds(v, trace[..m], k, n);
      var u := Run(v, trace[..m]).0;
      CounterStep(u, trace[m].op, k, trace[m].now, n + Gains(trace[..m], k));
    }
  }

  /** The reply in the middle of a run is that of its operation on what the run has left by then. */
  lemma {:induction false} ReplyAt(v: Db, trace: seq<Timed<Op>>, i: nat)
    requires i < |trace|
    ensures |Run(v, trace).1| == |trace|
    ensures Run(v, trace).1[i] == Apply(Live(Run(v, trace[..i]).0, trace[i].now), trace[i].op, trace[i].now).1
  {
    hide Apply, Live;
    var m := |trace| - 1;
    RunLength(v, trace);
    RunLength(v, trace[..m]);
    if i < m {
      ReplyAt(v, trace[..m], i);
      assert trace[..m][..i] == trace[..i];
    }
  }

  lemma GainsNext(trace: seq<Timed<Op>>, k: Key, i: nat)
    requires i < |trace|
    ensures Gains(trace[..i + 1], k) == Gains(trace[..i], k) + GainOf(trace[i].op, k)
  {
    assert trace[..i + 1][..i] == trace[..i];
  }

  lemma CounterTells(v: Db, trace: seq<Timed<Op>>, k: Key, n: int64, i: nat)
    requires Counts(Lookup(v, k), n) && OnlyCounted(v, trace, k) && i < |trace|
    ensures |Run(v, trace).1| == |trace|
    ensures TellsTotal(trace[i].op, k, Run(v, trace).1[i], Wrap64(n + Gains(trace[..i], k)),
                       Wrap64(n + Gains(trace[..i + 1], k)))
  {
    hide Run, Apply, Live, Touches, FormatInt, Counts, Wrap64, TellsTotal, Gains, GainOf, IsIncrement;
    CounterHolds(v, trace[..i], k, n);
    ReplyAt(v, trace, i);
    CounterStep(Run(v, trace[..i]).0, trace[i].op, k, trace[i].now, n + Gains(trace[..i], k));
    GainsNext(trace, k, i);
  }

  /** Any run in which nothing but increments changes the key, and its expiry does not pass: every increment
      replies the running total, every GET the total so far, and the key ends with the wrapped sum as its text
      and with the expiry it had, and its version counts the increments. */
  lemma CounterRuns(v: Db, trace: seq<Timed<Op>>, k: Key, n: int64)
    requires Counts(Lookup(v, k), n) && OnlyCounted(v, trace, k)
    ensures
      var (w, replies) := Run(v, trace);
      && |replies| == |trace|
      && (forall i :: 0 <= i < |trace| ==>
            TellsTotal(trace[i].op, k, replies[i], Wrap64(n + Gains(trace[..i], k)),
                       Wrap64(n + Gains(trace[..i + 1], k))))
      && Counts(Lookup(w, k), Wrap64(n + Gains(trace, k)))
      && Grown(Lookup(v, k), Lookup(w, k), Increments(trace, k))
      && ((exists i :: 0 <= i < |trace| && IsIncrement(trace[i].op, k)) ==>
            k in w && w[k].content == Str(FormatInt(Wrap64(n + Gains(trace, k)))))
  {
    hide Run, FormatInt, Counts, Wrap64, TellsTotal, Gains, OnlyCounted, Grown, Increments, IsIncrement;
    RunLength(v, trace);
    CounterHolds(v, trace, k, n);
    forall i | 0 <= i < |trace|
      ensures TellsTotal(trace[i].op, k, Run(v, trace).1[i], Wrap64(n + Gains(trace[..i], k)),
                         Wrap64(n + Gains(trace[..i + 1], k)))
    {
      CounterTells(v, trace, k, n, i);
    }
  }

  /** On a text that is no integer INCRBY says so and changes nothing. */
  lemma NoCounter(v: Db, k: Key, delta: int64, s: int, between: seq<Timed<Op>>, t: int)
    requires s <= t && Quiet(between, k, t)
    requires At(v, k, s).Some? && At(v, k, s).value.content.Str? && ParseInt(At(v, k, s).value.content.data).None?
    ensures Asked(v, On(k, Command.IncrBy(delta)), s, between, k, Get, t) == (NotInt, Told(Still(At(v, k, s), t)))
  {
    hide At, Asked, Quiet, ParseInt, FormatInt;
    Afterwards(v, k, Command.IncrBy(delta), s, between, Get, t);
  }

  // ---------------------------------------------------------------- sorted sets

  /** The key holds a sorted set, or nothing, which counts as an empty one, and goes on to until time t. */
  predicate IsSet(e: Option<Entry>, t: int) {
    e.Some? ==> e.value.content.ZSet? && !Passed(e.value.expiresAt, t)
  }

  function MembersIn(e: Option<Entry>): Z.Members {
    if e.Some? && e.value.content.ZSet? then e.value.content.members else map[]
  }

  function ScoreIn(m: Z.Members, x: string): Option<real> {
    if x in m then Some(m[x]) else None
  }

  /** What the reads tell of a sorted set. */
  lemma SetReads(e: Option<Entry>, t: int, x: string)
    requires IsSet(e, t)
    ensures Act(e, ZScore(x), t).1 == Score(ScoreIn(MembersIn(e), x))
    ensures Act(e, ZCard, t).1 == Number(|MembersIn(e)|)
    ensures Act(e, TypeOf, t).1 == Kind(if e.Some? then "zset" else "none")
  {
  }

  predicate Listed(reply: Reply, x: Z.ZMember) {
    reply.MemberList? && x in reply.q
  }

  /** After a command that puts a member in at a score, everything that can be asked says so: its score and its
      place in score ranges are new, everybody else's are as they were, and so is the time to live. */
  ghost predicate HasMember(
      v: Db, k: Key, c: Command, s: int, between: seq<Timed<Op>>, t: int, member: string, score: real)
  {
    var e := At(v, k, s);
    var m := MembersIn(e);
    && (forall x :: Asked(v, On(k, c), s, between, k, ZScore(x), t).1 ==
          Score(if x == member then Some(score) else ScoreIn(m, x)))
    && Asked(v, On(k, c), s, between, k, ZCard, t).1 == Number(|m| + if member in m then 0 else 1)
    && Asked(v, On(k, c), s, between, k, TypeOf, t).1 == Kind("zset")
    && Asked(v, On(k, c), s, between, k, Ttl, t).1 ==
         TimeLeft(true, if e.Some? && e.value.expiresAt.Some? then Some(e.value.expiresAt.value - t) else None)
  }

  lemma TtlReads(e: Option<Entry>, t: int)
    ensures Act(e, Ttl, t).1 ==
            TimeLeft(e.Some?, if e.Some? && e.value.expiresAt.Some? then Some(e.value.expiresAt.value - t) else None)
  {
  }

  lemma AfterPut(
      v: Db, k: Key, c: Command, s: int, between: seq<Timed<Op>>, t: int, member: string, score: real)
    requires s <= t && Quiet(between, k, t) && IsSet(At(v, k, s), t)
    requires
      var e := At(v, k, s);
      var version := if e.Some? then e.value.version + 1 else 1;
      Act(e, c, s).0 ==
        Some(Entry(ZSet(MembersIn(e)[member := score]), if e.Some? then e.value.expiresAt else None, version))
    ensures HasMember(v, k, c, s, between, t, member, score)
  {
    hide At, Asked, Quiet, Act;
    var e := Act(At(v, k, s), c, s).0;
    forall x
      ensures Asked(v, On(k, c), s, between, k, ZScore(x), t).1 ==
          Score(if x == member then Some(score) else ScoreIn(MembersIn(At(v, k, s)), x))
    {
      SetReads(e, t, x);
      Afterwards(v, k, c, s, between, ZScore(x), t);
    }
    SetReads(e, t, "");
    TtlReads(e, t);
    Afterwards(v, k, c, s, between, ZCard, t);
    Afterwards(v, k, c, s, between, TypeOf, t);
    Afterwards(v, k, c, s, between, Ttl, t);
  }

  /** ZADD moves the member to its score, whether or not it was there, and replies 1 if it was not. */
  lemma ZAddThenRead(v: Db, k: Key, score: real, member: string, s: int, between: seq<Timed<Op>>, t: int)
    requires s <= t && Quiet(between, k, t) && IsSet(At(v, k, s), t)
    ensures HasMember(v, k, Command.ZAdd(score, member), s, between, t, member, score)
    ensures Asked(v, On(k, Command.ZAdd(score, member)), s, between, k, ZCard, t).0 ==
            Number(if member in MembersIn(At(v, k, s)) then 0 else 1)
  {
    hide At, Asked, Quiet, HasMember;
    AfterPut(v, k, Command.ZAdd(score, member), s, between, t, member, score);
    Afterwards(v, k, Command.ZAdd(score, member), s, between, ZCard, t);
  }

  /** ZINCRBY moves the member by the amount, from zero if it was not there, and replies the new score. */
  lemma ZIncrByThenRead(v: Db, k: Key, member: string, delta: real, s: int, between: seq<Timed<Op>>, t: int)
    requires s <= t && Quiet(between, k, t) && IsSet(At(v, k, s), t)
    ensures
      var m := MembersIn(At(v, k, s));
      var score := if member in m then m[member] + delta else delta;
      && HasMember(v, k, Command.ZIncrBy(member, delta), s, between, t, member, score)
      && Asked(v, On(k, Command.ZIncrBy(member, delta)), s, between, k, ZScore(member), t) ==
           (Score(Some(score)), Score(Some(score)))
  {
    hide At, Asked, Quiet, HasMember;
    var m := MembersIn(At(v, k, s));
    var score := if member in m then m[member] + delta else delta;
    AfterPut(v, k, Command.ZIncrBy(member, delta), s, between, t, member, score);
    Afterwards(v, k, Command.ZIncrBy(member, delta), s, between, ZScore(member), t);
  }

  /** A member just added is found by score if and only if the bounds enclose its score. */
  lemma ZAddThenByScore(
      v: Db, k: Key, score: real, member: string, s: int, between: seq<Timed<Op>>, t: int, a: real, b: real)
    requires s <= t && Quiet(between, k, t) && IsSet(At(v, k, s), t)
    ensures
      var min, max := Z.ScoreBound(a, 0, false), Z.ScoreBound(b, 0, false);
      var add, find := Command.ZAdd(score, member), ZRangeByScore(min, max, 0, -1, false);
      Listed(Asked(v, On(k, add), s, between, k, find, t).1, Z.ZMember(member, score)) <==> a <= score <= b
  {
    hide At, Asked, Quiet, Z.ZRangeByScore;
    var min, max := Z.ScoreBound(a, 0, false), Z.ScoreBound(b, 0, false);
    var m := MembersIn(At(v, k, s))[member := score];
    Z.BoundsAreComparisons(m, a, b, member);
    Afterwards(v, k, Command.ZAdd(score, member), s, between, ZRangeByScore(min, max, 0, -1, false), t);
  }

  /** ZREM takes out exactly the named members, replies how many of them were there, and ZCARD falls by that. */
  lemma ZRemThenRead(v: Db, k: Key, names: set<string>, s: int, between: seq<Timed<Op>>, t: int, x: string)
    requires s <= t && Quiet(between, k, t) && IsSet(At(v, k, s), t)
    ensures
      var m := MembersIn(At(v, k, s));
      var removed, rem := |set y | y in m && y in names|, On(k, Command.ZRem(names));
      && Asked(v, rem, s, between, k, ZScore(x), t) ==
           (Number(removed), Score(if x in names then None else ScoreIn(m, x)))
      && Asked(v, rem, s, between, k, ZCard, t).1 == Number(|m| - removed)
  {
    hide At, Asked, Quiet, Act;
    var e := At(v, k, s);
    ZRemActs(e, names, s, t);
    SetReads(Act(e, Command.ZRem(names), s).0, t, x);
    Afterwards(v, k, Command.ZRem(names), s, between, ZScore(x), t);
    Afterwards(v, k, Command.ZRem(names), s, between, ZCard, t);
  }

  lemma ZRemActs(e: Option<Entry>, names: set<string>, s: int, t: int)
    requires IsSet(e, t)
    ensures
      var (e', reply) := Act(e, Command.ZRem(names), s);
      var m, m' := MembersIn(e), MembersIn(e');
      var removed := |set y | y in m && y in names|;
      && reply == Number(removed) && IsSet(e', t) && |m'| == |m| - removed
      && forall y :: ScoreIn(m', y) == if y in names then None else ScoreIn(m, y)
  {
    WithoutNames(MembersIn(e), names);
    ZRemIs(e, names, s, t);
    hide Act;
  }

  lemma ZRemIs(e: Option<Entry>, names: set<string>, s: int, t: int)
    requires IsSet(e, t)
    ensures
      var m, n := MembersIn(e), |MembersIn(e).Keys * names|;
      && (n > 0 ==> e.Some?)
      && Act(e, Command.ZRem(names), s) == (if n > 0 then WithMembers(e.value, m - names) else e, Number(n))
  {
  }

  lemma WithoutNames(m: Z.Members, names: set<string>)
    ensures
      var removed := set y | y in m && y in names;
      && removed == m.Keys * names && |m - names| == |m| - |removed|
      && (removed == {} ==> m - names == m)
  {
    assert (set y | y in m && y in names) == m.Keys * names;
    assert (m - names).Keys == m.Keys - m.Keys * names;
    Z.SubsetSize(m.Keys * names, m.Keys);
  }

  /** ZREMRANGEBYSCORE replies what ZCOUNT would have, ZCARD falls by that, and ZCOUNT then finds nobody. */
  lemma ZRemRangeThenCount(
      v: Db, k: Key, min: Z.ScoreBound, max: Z.ScoreBound, s: int, between: seq<Timed<Op>>, t: int)
    requires s <= t && Quiet(between, k, t) && IsSet(At(v, k, s), t)
    ensures
      var m, rem := MembersIn(At(v, k, s)), On(k, ZRemRange(min, max));
      var n := Z.ZCount(m, min, max);
      && Asked(v, rem, s, between, k, ZCard, t) == (Number(n), Number(|m| - n))
      && Asked(v, rem, s, between, k, ZCount(min, max), t).1 == Number(0)
      && Asked(v, On(k, ZCount(min, max)), s, between, k, ZCard, t) == (Number(n), Number(|m|))
  {
    hide At, Asked, Quiet, Act;
    var e := At(v, k, s);
    ZRemRangeActs(e, min, max, s, t);
    var e' := Act(e, ZRemRange(min, max), s).0;
    SetReads(e', t, "");
    SetReads(e, t, "");
    ZCountActs(e, min, max, s);
    ZCountActs(e', min, max, t);
    Afterwards(v, k, ZRemRange(min, max), s, between, ZCard, t);
    Afterwards(v, k, ZRemRange(min, max), s, between, ZCount(min, max), t);
    Afterwards(v, k, ZCount(min, max), s, between, ZCard, t);
  }

  lemma ZCountActs(e: Option<Entry>, min: Z.ScoreBound, max: Z.ScoreBound, s: int)
    requires IsSet(e, s)
    ensures Act(e, ZCount(min, max), s) == (e, Number(Z.ZCount(MembersIn(e), min, max)))
  {
    hide Z.InBounds;
    NobodyLeft(map[], min, max);
  }

  lemma ZRemRangeActs(e: Option<Entry>, min: Z.ScoreBound, max: Z.ScoreBound, s: int, t: int)
    requires IsSet(e, t)
    ensures
      var (e', reply) := Act(e, ZRemRange(min, max), s);
      var n := Z.ZCount(MembersIn(e), min, max);
      && reply == Number(n) && IsSet(e', t) && |MembersIn(e')| == |MembersIn(e)| - n
      && Z.ZCount(MembersIn(e'), min, max) == 0
  {
    hide Z.ZRemRangeByScore, Z.InBounds, Z.ZCount, Z.ZRangeByScore;
    var m := MembersIn(e);
    Z.ScoreRangesAgree(m, min, max);
    NobodyLeft(Z.ZRemRangeByScore(m, min, max).0, min, max);
    NobodyLeft(map[], min, max);
  }

  lemma NobodyLeft(m: Z.Members, min: Z.ScoreBound, max: Z.ScoreBound)
    ensures (forall k :: k in m ==> !Z.InBounds(m[k], min, max)) ==> Z.ZCount(m, min, max) == 0
  {
    hide Z.InBounds;
    if forall k :: k in m ==> !Z.InBounds(m[k], min, max) {
      assert (set k | k in m && Z.InBounds(m[k], min, max)) == {};
    }
  }

  /** ZPOPMIN and ZPOPMAX of n members, one if n is not positive: they reply with the first n of the ranking, or
      the last n backwards, and ZRANGE then lists the others. */
  lemma ZPopThenRange(v: Db, k: Key, count: int, highest: bool, s: int, between: seq<Timed<Op>>, t: int)
    requires s <= t && Quiet(between, k, t) && IsSet(At(v, k, s), t)
    ensures
      var m, pop := MembersIn(At(v, k, s)), On(k, Command.ZPop(count, highest));
      var z, wanted := Z.Ranking(m), if count <= 0 then 1 else count;
      var n := if wanted > |m| then |m| else wanted;
      && |z| == |m|
      && Asked(v, pop, s, between, k, ZRange(0, -1), t) ==
           if highest then (MemberList(Reverse(z[|m| - n..])), MemberList(z[..|m| - n]))
           else (MemberList(z[..n]), MemberList(z[n..]))
  {
    hide At, Asked, Quiet, Act, Z.Ranking, Z.ZRange;
    var e := At(v, k, s);
    ZPopActs(e, count, highest, s, t);
    AllOfRange(MembersIn(Act(e, Command.ZPop(count, highest), s).0));
    ZRangeActs(Act(e, Command.ZPop(count, highest), s).0, t);
    Afterwards(v, k, Command.ZPop(count, highest), s, between, ZRange(0, -1), t);
  }

  lemma AllOfRange(m: Z.Members)
    ensures Z.ZRange(m, 0, -1) == Z.Ranking(m)
  {
    hide Z.Ranking;
    Z.RankingSize(m);
    Z.ZRangeIsStretch(m, 0, -1, 0, |m|);
  }

  lemma ZRangeActs(e: Option<Entry>, t: int)
    requires IsSet(e, t)
    ensures Act(e, ZRange(0, -1), t).1 == MemberList(Z.ZRange(MembersIn(e), 0, -1))
  {
    hide Z.ZRange;
    AllOfRange(map[]);
    Z.RankingSize(map[]);
  }

  lemma ZPopActs(e: Option<Entry>, count: int, highest: bool, s: int, t: int)
    requires IsSet(e, t)
    ensures
      var (e', reply) := Act(e, Command.ZPop(count, highest), s);
      var m, m' := MembersIn(e), MembersIn(e');
      var z, wanted := Z.Ranking(m), if count <= 0 then 1 else count;
      var n := if wanted > |m| then |m| else wanted;
      && IsSet(e', t) && |z| == |m|
      && (reply, Z.Ranking(m')) ==
           if highest then (MemberList(Reverse(z[|m| - n..])), z[..|m| - n]) else (MemberList(z[..n]), z[n..])
  {
    hide Z.ZPop, Z.Ranking;
    var m := MembersIn(e);
    Z.RankingSize(m);
    if highest {
      Z.ZPopMaxProperties(m, count);
    } else {
      Z.ZPopMinProperties(m, count);
    }
  }

  /** ZRANGE and ZRANGEBYSCORE are the slices of ZSets, for all their arguments, whatever reads came before. */
  lemma RangesTell(
      v: Db, k: Key, s: int, between: seq<Timed<Op>>, t: int, start: int, stop: int, min: Z.ScoreBound,
      max: Z.ScoreBound, offset: int, limit: int, rev: bool)
    requires s <= t && Quiet(between, k, t) && IsSet(At(v, k, s), t)
    ensures
      var m := MembersIn(At(v, k, s));
      && Asked(v, On(k, ZCard), s, between, k, ZRange(start, stop), t) ==
           (Number(|m|), MemberList(Z.ZRange(m, start, stop)))
      && Asked(v, On(k, ZCard), s, between, k, ZRangeByScore(min, max, offset, limit, rev), t).1 ==
           MemberList(Z.ZRangeByScore(m, min, max, offset, limit, rev))
  {
    hide At, Asked, Quiet, Act, Z.ZRange, Z.ZRangeByScore;
    var e := At(v, k, s);
    CardActs(e, s, t);
    RangeActs(e, t, start, stop);
    ByScoreActs(e, t, min, max, offset, limit, rev);
    Afterwards(v, k, ZCard, s, between, ZRange(start, stop), t);
    Afterwards(v, k, ZCard, s, between, ZRangeByScore(min, max, offset, limit, rev), t);
  }

  lemma CardActs(e: Option<Entry>, s: int, t: int)
    requires IsSet(e, t)
    ensures Act(e, ZCard, s) == (e, Number(|MembersIn(e)|))
  {
  }

  lemma RangeActs(e: Option<Entry>, t: int, start: int, stop: int)
    requires IsSet(e, t)
    ensures Act(e, ZRange(start, stop), t).1 == MemberList(Z.ZRange(MembersIn(e), start, stop))
  {
    hide Z.Ranking;
    Z.RankingSize(map[]);
  }

  lemma ByScoreActs(
      e: Option<Entry>, t: int, min: Z.ScoreBound, max: Z.ScoreBound, offset: int, limit: int, rev: bool)
    requires IsSet(e, t)
    ensures Act(e, ZRangeByScore(min, max, offset, limit, rev), t).1 ==
            MemberList(Z.ZRangeByScore(MembersIn(e), min, max, offset, limit, rev))
  {
    hide Z.ZRangeByScore;
    Z.ZRangeByScoreOfNobody(min, max, offset, limit, rev);
  }

  // ---------------------------------------------------------------- wrong types

  predicate IsSetCommand(c: Command) {
    c.ZAdd? || c.ZIncrBy? || c.ZRem? || c.ZRemRange? || c.ZPop? || c.ZCard? || c.ZScore? || c.ZCount? || c.ZRange? ||
    c.ZRangeByScore?
  }

  /** A sorted-set command on a string, and GET, GETDEL and INCRBY on a sorted set, say so and change nothing. */
  lemma WrongTypeChangesNothing(v: Db, k: Key, c: Command, s: int, between: seq<Timed<Op>>, t: int, x: string)
    requires s <= t && Quiet(between, k, t) && At(v, k, s).Some?
    requires if At(v, k, s).value.content.Str? then IsSetCommand(c) else c.Get? || c.GetDel? || c.IncrBy?
    ensures
      var e := Still(At(v, k, s), t);
      && Asked(v, On(k, c), s, between, k, Get, t) == (WrongType, Told(e))
      && (e.Some? && e.value.content.ZSet? ==>
            Asked(v, On(k, c), s, between, k, ZScore(x), t).1 == Score(ScoreIn(MembersIn(e), x)))
  {
    hide At, Asked, Quiet, Act;
    var e := At(v, k, s);
    WrongTypeActs(e, c, s, t);
    if Still(e, t).Some? && e.value.content.ZSet? {
      SetReads(e, t, x);
    }
    Afterwards(v, k, c, s, between, Get, t);
    Afterwards(v, k, c, s, between, ZScore(x), t);
  }

  lemma WrongTypeActs(e: Option<Entry>, c: Command, s: int, t: int)
    requires e.Some? && if e.value.content.Str? then IsSetCommand(c) else c.Get? || c.GetDel? || c.IncrBy?
    ensures Act(e, c, s) == (e, WrongType)
    ensures Act(Still(e, t), Get, t).1 == Told(Still(e, t))
  {
    hide Z.ZPop, Z.ZRange, Z.ZRangeByScore, Z.ZCount, Z.ZRemRangeByScore, FormatInt, ParseInt;
  }
}
