/** The reference the SQL store is measured against: a map from keys to strings and sorted sets, each with
    an optional expiry time, in which an entry is simply gone from its expiry on.  No tables, no lazy
    deletion, no order of statements. */
module TimedMap {
  import opened Decimal
  import opened StoreTypes
  import opened ZSets

  datatype Content = Str(data: string) | ZSet(members: Members)

  datatype Entry = Entry(content: Content, expiresAt: Option<int>, version: int)

  type Db = map<Key, Entry>

  /** What is still there at a time. */
  function Live(v: Db, now: int): Db {
    map k | k in v && !Passed(v[k].expiresAt, now) :: v[k]
  }

  function Lookup(v: Db, k: Key): Option<Entry> {
    if k in v then Some(v[k]) else None
  }

  /** The map with one key's entry replaced, and gone if it is already past its expiry. */
  function Stored(v: Db, k: Key, e: Option<Entry>, now: int): Db {
    if e.Some? && !Passed(e.value.expiresAt, now) then v[k := e.value] else v - {k}
  }

  // ---------------------------------------------------------------- commands on one key

  datatype Command =
    | Get
    | TypeOf
    | Ttl
    | Set(value: string, opts: SetOptions)
    | GetDel
    | Expire(ttl: int)
    | Persist
    | IncrBy(delta: int64)
    | ZAdd(score: real, member: string)
    | ZIncrBy(member: string, increment: real)
    | ZRem(names: set<string>)
    | ZRemRange(min: ScoreBound, max: ScoreBound)
    | ZPop(count: int, highest: bool)
    | ZCard
    | ZScore(member: string)
    | ZCount(min: ScoreBound, max: ScoreBound)
    | ZRange(start: int, stop: int)
    | ZRangeByScore(min: ScoreBound, max: ScoreBound, offset: int, limit: int, rev: bool)

  predicate IsWriter(c: Command) {
    c.Set? || c.GetDel? || c.Expire? || c.Persist? || c.IncrBy? ||
    c.ZAdd? || c.ZIncrBy? || c.ZRem? || c.ZRemRange? || c.ZPop?
  }

  datatype Reply =
    | WrongType
    | NotInt
    | Value(entry: Option<Entry>)
    | Kind(name: string)
    | Wrote(before: Option<Entry>, wrote: bool)
    | Flag(ok: bool)
    | TimeLeft(found: bool, left: Option<int>)
    | Number(n: int)
    | Score(score: Option<real>)
    | MemberList(q: seq<ZMember>)
    | Done

  predicate Failed(r: Reply) {
    r.WrongType? || r.NotInt?
  }

  function SetAct(e: Option<Entry>, value: string, opts: SetOptions, now: int): (Option<Entry>, Reply) {
    if opts.nx && e.Some? then (e, Wrote(e, false))
    else if opts.xx && e.None? then (e, Wrote(None, false))
    else if e.Some? && e.value.content.ZSet? then (e, WrongType)
    else
      var kept := if opts.keepTTL && e.Some? then e.value.expiresAt else None;
      var expires := if opts.ttl > 0 then Some(now + opts.ttl) else kept;
      var version := if e.Some? then e.value.version + 1 else 1;
      (Some(Entry(Str(value), expires, version)), Wrote(e, true))
  }

  /** A sorted-set command's new contents; touching them bumps the version. */
  function WithMembers(e: Entry, m: Members): Option<Entry> {
    Some(Entry(ZSet(m), e.expiresAt, e.version + 1))
  }

  /** What a command does to the entry it finds, and what it replies. */
  function Act(e: Option<Entry>, c: Command, now: int): (Option<Entry>, Reply) {
    match c
    case Get =>
      if e.Some? && e.value.content.ZSet? then (e, WrongType) else (e, Value(e))
    case TypeOf =>
      (e, Kind(if e.None? then "none" else if e.value.content.Str? then "string" else "zset"))
    case Ttl =>
      var left := if e.Some? && e.value.expiresAt.Some? then Some(e.value.expiresAt.value - now) else None;
      (e, TimeLeft(e.Some?, left))
    case Set(value, opts) => SetAct(e, value, opts, now)
    case GetDel =>
      if e.None? then (e, Value(None))
      else if e.value.content.ZSet? then (e, WrongType)
      else (None, Value(e))
    case Expire(ttl) =>
      if e.None? then (e, Flag(false))
      else (Some(e.value.(expiresAt := Some(now + ttl), version := e.value.version + 1)), Flag(true))
    case Persist =>
      if e.None? || e.value.expiresAt.None? then (e, Flag(false))
      else (Some(e.value.(expiresAt := None, version := e.value.version + 1)), Flag(true))
    case IncrBy(delta) =>
      if e.None? then (Some(Entry(Str(FormatInt(delta)), None, 1)), Number(delta))
      else if e.value.content.ZSet? then (e, WrongType)
      else
        (match ParseInt(e.value.content.data)
         case None => (e, NotInt)
         case Some(n) =>
           (Some(e.value.(content := Str(FormatInt(Add64(n, delta))), version := e.value.version + 1)),
            Number(Add64(n, delta))))
    case ZAdd(score, member) =>
      if e.None? then (Some(Entry(ZSet(map[member := score]), None, 1)), Number(1))
      else if e.value.content.Str? then (e, WrongType)
      else
        var m := e.value.content.members;
        (WithMembers(e.value, m[member := score]), Number(if member in m then 0 else 1))
    case ZIncrBy(member, delta) =>
      if e.None? then (Some(Entry(ZSet(map[member := delta]), None, 1)), Score(Some(delta)))
      else if e.value.content.Str? then (e, WrongType)
      else
        var m := e.value.content.members;
        var out := if member in m then m[member] + delta else delta;
        (WithMembers(e.value, m[member := out]), Score(Some(out)))
    case ZRem(names) =>
      if e.None? then (e, Number(0))
      else if e.value.content.Str? then (e, WrongType)
      else
        var m := e.value.content.members;
        var n := |m.Keys * names|;
        (if n > 0 then WithMembers(e.value, m - names) else e, Number(n))
    case ZRemRange(min, max) =>
      if e.None? then (e, Number(0))
      else if e.value.content.Str? then (e, WrongType)
      else
        var (rest, n) := ZRemRangeByScore(e.value.content.members, min, max);
        (if n > 0 then WithMembers(e.value, rest) else e, Number(n))
    case ZPop(count, highest) =>
      if e.None? then (e, MemberList([]))
      else if e.value.content.Str? then (e, WrongType)
      else
        var p := ZSets.ZPop(e.value.content.members, count, highest);
        (if p.members != [] then WithMembers(e.value, p.rest) else e, MemberList(p.members))
    case ZCard =>
      if e.None? then (e, Number(0))
      else if e.value.content.Str? then (e, WrongType)
      else (e, Number(|e.value.content.members|))
    case ZScore(member) =>
      if e.None? then (e, Score(None))
      else if e.value.content.Str? then (e, WrongType)
      else
        var m := e.value.content.members;
        (e, Score(if member in m then Some(m[member]) else None))
    case ZCount(min, max) =>
      if e.None? then (e, Number(0))
      else if e.value.content.Str? then (e, WrongType)
      else (e, Number(ZSets.ZCount(e.value.content.members, min, max)))
    case ZRange(start, stop) =>
      if e.None? then (e, MemberList([]))
      else if e.value.content.Str? then (e, WrongType)
      else (e, MemberList(ZSets.ZRange(e.value.content.members, start, stop)))
    case ZRangeByScore(min, max, offset, limit, rev) =>
      if e.None? then (e, MemberList([]))
      else if e.value.content.Str? then (e, WrongType)
      else (e, MemberList(ZSets.ZRangeByScore(e.value.content.members, min, max, offset, limit, rev)))
  }

  /** A command against the whole map. */
  function Step(v: Db, k: Key, c: Command, now: int): (Db, Reply) {
    var (e, reply) := Act(Lookup(v, k), c, now);
    (Stored(v, k, e, now), reply)
  }

  // ---------------------------------------------------------------- MSET

  datatype Pair = Pair(key: Key, value: string)

  /** All the pairs in order, or nothing at all when one of the keys holds a sorted set. */
  function MSetAll(v: Db, pairs: seq<Pair>, opts: SetOptions, now: int): Option<Db> {
    if pairs == [] then Some(v)
    else
      var n := |pairs| - 1;
      match MSetAll(v, pairs[..n], opts, now)
      case None => None
      case Some(w) =>
        var (e, reply) := SetAct(Lookup(w, pairs[n].key), pairs[n].value, opts, now);
        if Failed(reply) then None else Some(Stored(w, pairs[n].key, e, now))
  }

  // ---------------------------------------------------------------- runs

  datatype Op =
    | On(key: Key, command: Command)
    | MSet(pairs: seq<Pair>, opts: SetOptions)
    | Del(keys: seq<Key>)
    | Purge(key: Key)  // delete the rows of a key that is past its expiry, if it is

  function KeySet(keys: seq<Key>): set<Key> {
    set k | k in keys
  }

  /** An operation on the map.  DEL replies with a count of table rows, which the map does not know about:
      here it just replies Done. */
  function Apply(v: Db, op: Op, now: int): (Db, Reply) {
    match op
    case On(k, c) => Step(v, k, c, now)
    case MSet(pairs, opts) =>
      (match MSetAll(v, pairs, opts, now)
       case None => (v, WrongType)
       case Some(w) => (w, Done))
    case Del(keys) => (v - KeySet(keys), Done)
    case Purge(_) => (v, Done)
  }

  datatype Timed<T> = Timed(op: T, now: int)

  predicate InOrder<T>(trace: seq<Timed<T>>, start: int) {
    && (forall i :: 0 <= i < |trace| ==> start <= trace[i].now)
    && (forall i, j :: 0 <= i < j < |trace| ==> trace[i].now <= trace[j].now)
  }

  function LastTime<T>(trace: seq<Timed<T>>, start: int): int {
    if trace == [] then start else trace[|trace| - 1].now
  }

  /** A whole run: the map at the time of its last operation, and the replies. */
  function Run(v: Db, trace: seq<Timed<Op>>): (Db, seq<Reply>) {
    if trace == [] then (v, [])
    else
      var n := |trace| - 1;
      var (w, replies) := Run(v, trace[..n]);
      var (w', reply) := Apply(Live(w, trace[n].now), trace[n].op, trace[n].now);
      (w', replies + [reply])
  }

  function WithoutPurges(trace: seq<Timed<Op>>): seq<Timed<Op>> {
    if trace == [] then []
    else
      var n := |trace| - 1;
      WithoutPurges(trace[..n]) + if trace[n].op.Purge? then [] else [trace[n]]
  }

  /** The replies to everything but the purges. */
  function Heard(trace: seq<Timed<Op>>, replies: seq<Reply>): seq<Reply>
    requires |replies| == |trace|
  {
    if trace == [] then []
    else
      var n := |trace| - 1;
      Heard(trace[..n], replies[..n]) + if trace[n].op.Purge? then [] else [replies[n]]
  }

  lemma {:induction false} RunLength(v: Db, trace: seq<Timed<Op>>)
    ensures |Run(v, trace).1| == |trace|
  {
    if trace != [] {
      RunLength(v, trace[..|trace| - 1]);
    }
  }

  lemma RunNext(v: Db, trace: seq<Timed<Op>>, e: Timed<Op>)
    ensures
      var (w, replies) := Run(v, trace);
      var (w', reply) := Apply(Live(w, e.now), e.op, e.now);
      Run(v, trace + [e]) == (w', replies + [reply])
  {
    hide Apply, Live;
    assert (trace + [e])[..|trace|] == trace;
  }

  lemma StrippedNext(trace: seq<Timed<Op>>, e: Timed<Op>)
    ensures WithoutPurges(trace + [e]) == if e.op.Purge? then WithoutPurges(trace) else WithoutPurges(trace) + [e]
  {
    assert (trace + [e])[..|trace|] == trace;
    assert WithoutPurges(trace) + [] == WithoutPurges(trace);
  }

  lemma HeardNext(trace: seq<Timed<Op>>, e: Timed<Op>, replies: seq<Reply>, r: Reply)
    requires |replies| == |trace|
    ensures Heard(trace + [e], replies + [r]) ==
            if e.op.Purge? then Heard(trace, replies) else Heard(trace, replies) + [r]
  {
    assert (trace + [e])[..|trace|] == trace && (replies + [r])[..|trace|] == replies;
    assert Heard(trace, replies) + [] == Heard(trace, replies);
  }

  /** Deleting expired keys, at any points of a run, changes no reply to anything else and nothing of what
      is there at any later time. */
  lemma {:induction false} PurgesAreInvisible(v: Db, trace: seq<Timed<Op>>, start: int, later: int)
    requires InOrder(trace, start) && LastTime(trace, start) <= later
    ensures |Run(v, trace).1| == |trace|
    ensures Live(Run(v, trace).0, later) == Live(Run(v, WithoutPurges(trace)).0, later)
    ensures Heard(trace, Run(v, trace).1) == Run(v, WithoutPurges(trace)).1
  {
    hide Apply, Live;
    RunLength(v, trace);
    if trace != [] {
      var n := |trace| - 1;
      var before, e := trace[..n], trace[n];
      assert trace == before + [e];
      PurgesAreInvisible(v, before, start, e.now);
      hide Run, WithoutPurges, Heard;
      RunNext(v, before, e);
      StrippedNext(before, e);
      HeardNext(before, e, Run(v, before).1, Run(v, trace).1[n]);
      if e.op.Purge? {
        PurgeIsNothing(Run(v, before).0, e.op, e.now, later);
        LiveTwice(Run(v, WithoutPurges(before)).0, e.now, later);
      } else {
        RunNext(v, WithoutPurges(before), e);
      }
    }
  }

  lemma PurgeIsNothing(v: Db, op: Op, now: int, later: int)
    requires op.Purge? && now <= later
    ensures Live(Apply(Live(v, now), op, now).0, later) == Live(Live(v, now), later)
  {
  }

  // ---------------------------------------------------------------- facts about time

  /** Looking later at what was left earlier is looking later. */
  lemma LiveTwice(v: Db, t: int, u: int)
    requires t <= u
    ensures Live(Live(v, t), u) == Live(v, u)
  {
  }

  /** Commands that only read leave the map alone, and so do commands that fail. */
  lemma ReadersKeep(v: Db, k: Key, c: Command, now: int)
    requires Live(v, now) == v
    requires !IsWriter(c) || Failed(Act(Lookup(v, k), c, now).1)
    ensures Step(v, k, c, now).0 == v
  {
    assert k in v ==> k in Live(v, now);
  }
}
