/** The in-process cache of internal/cache in front of the SQL store: GET goes through it, every writer
    deletes from it (internal/command/router.go; the Store API and the admin API write in the same way).
    Ristretto is a map that may drop any entry at any time and serves an entry only before its deadline. */
module CacheRouter {
  import opened Decimal
  import opened StoreTypes
  import opened TimedMap
  import S = SqlStore
  import Z = ZSets

  datatype Cached = Cached(bytes: string, deadline: int)

  type Entries = map<string, Cached>

  function Hit(entries: Entries, key: string, now: int): Option<string> {
    if key in entries && now < entries[key].deadline then Some(entries[key].bytes) else None
  }

  /** A time to live is cut to the default, which also stands in for none. */
  function ClampTTL(ttl: int, defaultTTL: int): int {
    if ttl <= 0 || ttl > defaultTTL then defaultTTL else ttl
  }

  class Memory {
    const enabled: bool
    const defaultTTL: int
    var entries: Entries
    var setOK: nat
    var setDropped: nat

    ghost predicate Valid()
      reads this
    {
      defaultTTL > 0 && (!enabled ==> entries == map[])
    }

    constructor (enabled: bool, defaultTTL: int)
      ensures Valid() && entries == map[] && this.enabled == enabled && setOK == setDropped == 0
      ensures this.defaultTTL == if defaultTTL <= 0 then 5000 else defaultTTL
    {
      this.enabled := enabled;
      this.defaultTTL := if defaultTTL <= 0 then 5000 else defaultTTL;
      this.entries := map[];
      this.setOK, this.setDropped := 0, 0;
    }

    method Get(key: string, now: int) returns (r: Option<string>)
      requires Valid()
      ensures r == Hit(entries, key, now)
    {
      if !enabled {
        return None;
      }
      return Hit(entries, key, now);
    }

    /** `admitted` is ristretto's verdict. */
    method Set(key: string, value: string, ttl: int, now: int, admitted: bool)
      requires Valid()
      modifies this
      ensures Valid()
      ensures entries == if enabled && admitted
                         then old(entries)[key := Cached(value, now + ClampTTL(ttl, defaultTTL))]
                         else old(entries)
      ensures enabled && admitted ==>
        var until := now + if 0 < ttl < defaultTTL then ttl else defaultTTL;
        forall t :: Hit(entries, key, t) == if t < until then Some(value) else None
      ensures setOK == old(setOK) + if enabled && admitted then 1 else 0
      ensures setDropped == old(setDropped) + if enabled && !admitted then 1 else 0
    {
      if !enabled {
        return;
      }
      var t := ttl;
      if t <= 0 || t > defaultTTL {
        t := defaultTTL;
      }
      if admitted {
        entries := entries[key := Cached(value, now + t)];
        setOK := setOK + 1;
        return;
      }
      setDropped := setDropped + 1;
    }

    method Del(key: string)
      requires Valid()
      modifies this`entries
      ensures Valid() && entries == old(entries) - {key}
    {
      if !enabled {
        return;
      }
      entries := entries - {key};
    }

    /** Whatever ristretto throws out, whenever it likes. */
    method Evict(gone: set<string>)
      requires Valid()
      modifies this`entries
      ensures Valid() && entries == old(entries) - gone
    {
      entries := entries - gone;
    }
  }

  // ---------------------------------------------------------------- cache keys

  function CacheKey(k: Key): string {
    FormatInt(k.0) + ":" + k.1
  }

  lemma ColonComesAfter(a: string, b: string, x: string, y: string)
    requires a + ":" + x == b + ":" + y && ':' !in a
    ensures |a| <= |b|
  {
    var s := a + ":" + x;
    forall i | 0 <= i < |a|
      ensures s[i] != ':'
    {
      assert s[i] == a[i];
    }
    assert (b + ":" + y)[|b|] == ':';
  }

  lemma SplitAtColon(a: string, b: string, x: string, y: string)
    requires a + ":" + x == b + ":" + y
    requires ':' !in a && ':' !in b
    ensures a == b && x == y
  {
    ColonComesAfter(a, b, x, y);
    ColonComesAfter(b, a, y, x);
    var s := a + ":" + x;
    assert a == s[..|a|] && b == s[..|a|];
    assert x == s[|a| + 1..] && y == s[|a| + 1..];
  }

  /** Two databases or two keys never share a cache entry. */
  lemma CacheKeyInjective(j: Key, k: Key)
    requires CacheKey(j) == CacheKey(k)
    ensures j == k
  {
    SplitAtColon(FormatInt(j.0), FormatInt(k.0), j.1, k.1);
    FormatIntInjective(j.0, k.0);
  }

  // ---------------------------------------------------------------- agreement

  /** An entry that can still be served is the live string row, and dies no later than the row. */
  ghost predicate AgreesAt(t: S.Tables, entries: Entries, k: Key, now: int) {
    var ck := CacheKey(k);
    ck in entries && now < entries[ck].deadline ==>
      var row := S.LiveRow(t, k, now);
      && row.Some? && row.value.kind == S.StringRow && row.value.data == entries[ck].bytes
      && (row.value.expiresAt.Some? ==> entries[ck].deadline <= row.value.expiresAt.value)
  }

  ghost predicate Agreement(t: S.Tables, entries: Entries, now: int) {
    forall k: Key :: AgreesAt(t, entries, k, now)
  }

  lemma AgreementHere(t: S.Tables, entries: Entries, k: Key, now: int)
    requires Agreement(t, entries, now)
    ensures AgreesAt(t, entries, k, now)
  {
  }

  /** Agreement lasts: entries and rows die together. */
  lemma AgreementLasts(t: S.Tables, entries: Entries, now: int, later: int)
    requires Agreement(t, entries, now) && now <= later
    ensures Agreement(t, entries, later)
  {
    forall k: Key
      ensures AgreesAt(t, entries, k, later)
    {
      assert AgreesAt(t, entries, k, now);
    }
  }

  lemma EvictionKeepsAgreement(t: S.Tables, entries: Entries, gone: set<string>, now: int)
    requires Agreement(t, entries, now)
    ensures Agreement(t, entries - gone, now)
  {
    forall k: Key
      ensures AgreesAt(t, entries - gone, k, now)
    {
      assert AgreesAt(t, entries, k, now);
    }
  }

  /** A write followed by the deletion of the entries of every key it may have changed. */
  lemma InvalidationKeepsAgreement(
      t: S.Tables, u: S.Tables, entries: Entries, left: Entries, changed: set<Key>, now: int)
    requires Agreement(t, entries, now) && S.KeepsRows(t, u, changed, now)
    requires forall ck :: ck in left ==> ck in entries && left[ck] == entries[ck]
    requires forall k :: k in changed ==> CacheKey(k) !in left
    ensures Agreement(u, left, now)
  {
    forall k: Key
      ensures AgreesAt(u, left, k, now)
    {
      assert AgreesAt(t, entries, k, now);
    }
  }

  /** Caching the row just read. */
  lemma InsertKeepsAgreement(t: S.Tables, entries: Entries, k: Key, row: S.KeyRow, defaultTTL: int, now: int)
    requires Agreement(t, entries, now) && S.LiveRow(t, k, now) == Some(row) && row.kind == S.StringRow
    requires defaultTTL > 0
    ensures
      var ttl := if row.expiresAt.Some? then row.expiresAt.value - now else 0;
      Agreement(t, entries[CacheKey(k) := Cached(row.data, now + ClampTTL(ttl, defaultTTL))], now)
  {
    var ttl := if row.expiresAt.Some? then row.expiresAt.value - now else 0;
    var more := entries[CacheKey(k) := Cached(row.data, now + ClampTTL(ttl, defaultTTL))];
    forall j: Key
      ensures AgreesAt(t, more, j, now)
    {
      assert AgreesAt(t, entries, j, now);
      if CacheKey(j) == CacheKey(k) {
        CacheKeyInjective(j, k);
      }
    }
  }

  // ---------------------------------------------------------------- the router

  /** What goes over the wire: a GET reply carries the bytes, not the row's expiry and version. */
  function Wire(r: Reply): Reply {
    if r.Value? && r.entry.Some? then Value(Some(Entry(r.entry.value.content, None, 0))) else r
  }

  /** What can happen to a router, its store and its cache between two clock readings. */
  datatype Event =
    | Client(op: Op, admitted: bool)                              // a client's command, ristretto's verdict
    | ZAddMany(key: Key, items: seq<(Option<real>, string)>)      // None is a score that does not parse
    | Cleanup(found: set<Key>)                                    // the expiry ticker, or the admin's button
    | Evict(gone: set<string>)                                    // ristretto throwing entries out

  /** ZADD on the timed map, member after member until one fails; what went before it stays. */
  function ZAddAll(v: Db, k: Key, items: seq<(Option<real>, string)>, now: int): (Db, Reply) {
    if items == [] then (v, Number(0))
    else
      var n := |items| - 1;
      var (w, r) := ZAddAll(v, k, items[..n], now);
      if !r.Number? then (w, r)
      else if items[n].0.None? then (w, NotInt)
      else
        var (x, q) := Step(w, k, Command.ZAdd(items[n].0.value, items[n].1), now);
        (x, if q.Number? then Number(r.n + q.n) else q)
  }

  function ApplyEvent(v: Db, e: Event, now: int): (Db, Reply) {
    match e
    case Client(op, _) => Apply(v, op, now)
    case ZAddMany(k, items) => ZAddAll(v, k, items, now)
    case Cleanup(_) => (v, Done)
    case Evict(_) => (v, Done)
  }

  /** The run of events on the timed map: no cache, no tables. */
  function RunEvents(v: Db, trace: seq<Timed<Event>>): (Db, seq<Reply>) {
    if trace == [] then (v, [])
    else
      var n := |trace| - 1;
      var (w, replies) := RunEvents(v, trace[..n]);
      var (w', reply) := ApplyEvent(Live(w, trace[n].now), trace[n].op, trace[n].now);
      (w', replies + [reply])
  }

  predicate IsGet(e: Event) {
    e.Client? && e.op.On? && e.op.command.Get?
  }

  predicate NoCleanup(trace: seq<Timed<Event>>) {
    forall i :: 0 <= i < |trace| ==> !trace[i].op.Cleanup?
  }

  lemma {:induction false} ZAddStops(v: Db, k: Key, items: seq<(Option<real>, string)>, now: int, i: nat)
    requires i <= |items| && !ZAddAll(v, k, items[..i], now).1.Number?
    ensures ZAddAll(v, k, items, now) == ZAddAll(v, k, items[..i], now)
  {
    if i < |items| {
      var n := |items| - 1;
      assert items[..n][..i] == items[..i];
      ZAddStops(v, k, items[..n], now, i);
    } else {
      assert items[..i] == items;
    }
  }

  function MembersAt(v: Db, k: Key): Z.Members {
    if k in v && v[k].content.ZSet? then v[k].content.members else map[]
  }

  /** Where the last of the items for a member puts it, or where it was. */
  function LastScore(m: Z.Members, items: seq<(Option<real>, string)>, x: string): Option<real> {
    if items == [] then (if x in m then Some(m[x]) else None)
    else
      var n := |items| - 1;
      if items[n].1 == x then items[n].0 else LastScore(m, items[..n], x)
  }

  /** ZADD with several members, all of whose scores parse: each ends where its last score puts it, everybody else
      stays, and the reply is by how many the set has grown. */
  lemma {:induction false} ZAddAllAdds(v: Db, k: Key, items: seq<(Option<real>, string)>, now: int)
    requires k in v ==> v[k].content.ZSet? && !Passed(v[k].expiresAt, now)
    requires forall i :: 0 <= i < |items| ==> items[i].0.Some?
    ensures
      var (w, reply) := ZAddAll(v, k, items, now);
      var m, m' := MembersAt(v, k), MembersAt(w, k);
      && (k in w ==> w[k].content.ZSet? && !Passed(w[k].expiresAt, now))
      && reply.Number? && |m'| == |m| + reply.n
      && forall x :: (if x in m' then Some(m'[x]) else None) == LastScore(m, items, x)
  {
    hide Step;
    if items != [] {
      var n := |items| - 1;
      ZAddAllAdds(v, k, items[..n], now);
      AddsOne(ZAddAll(v, k, items[..n], now).0, k, items[n].0.value, items[n].1, now);
    }
  }

  lemma AddsOne(v: Db, k: Key, score: real, member: string, now: int)
    requires k in v ==> v[k].content.ZSet? && !Passed(v[k].expiresAt, now)
    ensures
      var (w, reply) := Step(v, k, Command.ZAdd(score, member), now);
      && k in w && w[k].content.ZSet? && !Passed(w[k].expiresAt, now)
      && MembersAt(w, k) == MembersAt(v, k)[member := score]
      && reply == Number(if member in MembersAt(v, k) then 0 else 1)
      && |MembersAt(w, k)| == |MembersAt(v, k)| + reply.n
  {
    var m := MembersAt(v, k);
    assert m[member := score].Keys == m.Keys + {member};
    assert member !in m ==> |m.Keys + {member}| == |m.Keys| + 1;
    assert member in m ==> m.Keys + {member} == m.Keys;
  }

  /** A score that does not parse ends it: what came before is stored, what comes after is not. */
  lemma ZAddAllEnds(v: Db, k: Key, items: seq<(Option<real>, string)>, now: int, i: nat)
    requires i < |items| && items[i].0.None? && ZAddAll(v, k, items[..i], now).1.Number?
    ensures ZAddAll(v, k, items, now) == (ZAddAll(v, k, items[..i], now).0, NotInt)
  {
    assert items[..i + 1][..i] == items[..i];
    ZAddStops(v, k, items, now, i + 1);
  }

  lemma ZAddReplies(v: Db, k: Key, score: real, member: string, now: int)
    ensures
      var r := Step(v, k, Command.ZAdd(score, member), now).1;
      r.Number? || r == WrongType
  {
  }

  class Router {
    const store: S.Store
    const cache: Memory

    constructor (store: S.Store, cache: Memory)
      ensures this.store == store && this.cache == cache
    {
      this.store := store;
      this.cache := cache;
    }

    ghost predicate Valid(now: int)
      reads store, cache
    {
      cache.Valid() && Agreement(store.Now(), cache.entries, now)
    }

    /** GET replies, and leaves the tables, exactly as the store alone would, hit or miss. */
    method Get(k: Key, now: int, admitted: bool) returns (reply: Reply)
      requires Valid(now)
      modifies store, cache
      ensures Valid(now)
      ensures Wire(reply) == Wire(S.RowReply(S.LiveRow(old(store.Now()), k, now)))
      ensures store.Now() == S.Purged(old(store.Now()), k, now)
      ensures
        var row := S.LiveRow(old(store.Now()), k, now);
        cache.enabled && admitted && row.Some? && row.value.kind == S.StringRow ==>
          Hit(cache.entries, CacheKey(k), now) == Some(row.value.data)
      ensures S.Owned(old(store.Now())) ==>
        && S.Owned(store.Now())
        && S.View(store.Now(), now) == S.View(old(store.Now()), now)
        && Wire(reply) == Wire(Step(S.View(old(store.Now()), now), k, Command.Get, now).1)
    {
      hide CacheKey, Agreement, Step, S.View, S.Owned, S.Refines, S.KeepsRows;
      var ck := CacheKey(k);
      AgreementHere(store.Now(), cache.entries, k, now);
      S.PurgeKeeps(store.Now(), k, now);
      GetSpec(store.Now(), k, now);
      var hit := cache.Get(ck, now);
      if hit.Some? {
        return Value(Some(Entry(Str(hit.value), None, 0)));
      }
      reply := store.ReadRow(k, Command.Get, now);
      InvalidationKeepsAgreement(old(store.Now()), store.Now(), cache.entries, cache.entries, {}, now);
      if reply.Value? && reply.entry.Some? {
        var v := reply.entry.value;
        var ttl := if v.expiresAt.Some? then v.expiresAt.value - now else 0;
        ghost var row := S.LiveRow(store.Now(), k, now);
        assert row == S.LiveRow(old(store.Now()), k, now) && row.Some?;
        InsertKeepsAgreement(store.Now(), cache.entries, k, row.value, cache.defaultTTL, now);
        cache.Set(ck, v.content.data, ttl, now, admitted);
      }
    }

    /** Every other command on one key: writers delete the cache entry once the store has written;
        readers, and writers that fail, leave the cache alone. */
    method Execute(k: Key, c: Command, now: int) returns (reply: Reply)
      requires Valid(now) && !c.Get?
      modifies store, cache
      ensures Valid(now)
      ensures S.Refines(old(store.Now()), store.Now(), k, c, now, reply)
    {
      reply := store.Execute(k, c, now);
      ghost var before := cache.entries;
      if IsWriter(c) && !Failed(reply) {
        cache.Del(CacheKey(k));
      }
      InvalidationKeepsAgreement(old(store.Now()), store.Now(), before, cache.entries, S.Changed(k, c, reply), now);
    }

    /** ZADD with several members: one store call each.  A bad score (None) or a wrong type ends the
        command at once, with the earlier members stored and the cache entry not deleted. */
    method ZAddMany(k: Key, items: seq<(Option<real>, string)>, now: int) returns (reply: Reply)
      requires Valid(now)
      modifies store, cache
      ensures Valid(now)
      ensures S.Owned(old(store.Now())) ==>
        && S.Owned(store.Now())
        && (S.View(store.Now(), now), reply) == ZAddAll(S.View(old(store.Now()), now), k, items, now)
    {
      hide Act, S.View, S.Owned, S.KeepsRows, Agreement, AgreesAt, Step;
      var added := 0;
      ghost var v := S.View(store.Now(), now);
      for i := 0 to |items|
        invariant Valid(now) && cache.entries == old(cache.entries)
        invariant S.Owned(old(store.Now())) ==>
          S.Owned(store.Now()) && (S.View(store.Now(), now), Number(added)) == ZAddAll(v, k, items[..i], now)
      {
        assert items[..i + 1][..i] == items[..i];
        if items[i].0.None? {
          reply := NotInt;
        } else {
          ghost var t := store.Now();
          reply := store.ZAdd(k, items[i].0.value, items[i].1, now);
          ZAddKeepsAgreement(t, store.Now(), cache.entries, k, now);
          ZAddReplies(S.View(t, now), k, items[i].0.value, items[i].1, now);
        }
        if !reply.Number? {
          if S.Owned(old(store.Now())) {
            ZAddStops(v, k, items, now, i + 1);
          }
          return;
        }
        added := added + reply.n;
      }
      assert items[..|items|] == items;
      cache.Del(CacheKey(k));
      EvictionKeepsAgreement(store.Now(), old(cache.entries), {CacheKey(k)}, now);
      return Number(added);
    }

    /** Deletes the entries of some keys, as the Store API's delCache and the DEL and MSET loops do. */
    method DelCache(ks: seq<Key>)
      requires cache.Valid()
      modifies cache
      ensures cache.Valid()
      ensures forall ck :: ck in cache.entries ==>
                ck in old(cache.entries) && cache.entries[ck] == old(cache.entries)[ck]
      ensures forall k :: k in ks ==> CacheKey(k) !in cache.entries
    {
      for i := 0 to |ks|
        invariant cache.Valid()
        invariant forall ck :: ck in cache.entries ==>
                    ck in old(cache.entries) && cache.entries[ck] == old(cache.entries)[ck]
        invariant forall j :: 0 <= j < i ==> CacheKey(ks[j]) !in cache.entries
      {
        cache.Del(CacheKey(ks[i]));
      }
    }

    /** MSET, here and in the Store API: all keys are invalidated after the transaction, none on failure. */
    method MSet(pairs: seq<Pair>, opts: SetOptions, now: int) returns (reply: Reply)
      requires Valid(now)
      modifies store, cache
      ensures Valid(now)
      ensures S.Owned(old(store.Now())) ==>
        && S.Owned(store.Now())
        && (S.View(store.Now(), now), reply) == Apply(S.View(old(store.Now()), now), Op.MSet(pairs, opts), now)
    {
      hide Apply, S.View, S.Owned, S.KeepsRows, Agreement;
      reply := store.MSet(pairs, opts, now);
      ghost var before := cache.entries;
      if Failed(reply) {
        InvalidationKeepsAgreement(old(store.Now()), store.Now(), before, before, {}, now);
        return;
      }
      var ks := seq(|pairs|, i requires 0 <= i < |pairs| => pairs[i].key);
      DelCache(ks);
      forall k | k in S.PairKeys(pairs)
        ensures k in ks
      {
        var i :| 0 <= i < |pairs| && pairs[i].key == k;
        assert ks[i] == k;
      }
      InvalidationKeepsAgreement(old(store.Now()), store.Now(), before, cache.entries, S.PairKeys(pairs), now);
    }

    /** DEL, here, in the Store API and in the admin API. */
    method Del(ks: seq<Key>, now: int) returns (n: nat)
      requires Valid(now)
      modifies store, cache
      ensures Valid(now)
      ensures n == |old(store.keys).Keys * KeySet(ks)|
      ensures S.Owned(old(store.Now())) ==>
        S.Owned(store.Now()) && S.View(store.Now(), now) == S.View(old(store.Now()), now) - KeySet(ks)
    {
      hide S.View, S.Owned, Agreement;
      n := store.Delete(ks);
      S.DeleteKeeps(old(store.Now()), KeySet(ks), now);
      ghost var before := cache.entries;
      DelCache(ks);
      InvalidationKeepsAgreement(old(store.Now()), store.Now(), before, cache.entries, KeySet(ks), now);
    }

    /** The expiry ticker deletes rows behind the cache's back, and agreement still holds. */
    method Cleanup(found: set<Key>, now: int) returns (n: nat)
      requires Valid(now)
      modifies store
      ensures Valid(now)
      ensures S.View(store.Now(), now) == S.View(old(store.Now()), now)
    {
      n := store.CleanupExpired(found, now);
      InvalidationKeepsAgreement(old(store.Now()), store.Now(), cache.entries, cache.entries, {}, now);
    }

    method Purge(k: Key, now: int)
      requires Valid(now)
      modifies store
      ensures Valid(now)
      ensures S.Owned(old(store.Now())) ==> S.Owned(store.Now())
      ensures S.View(store.Now(), now) == S.View(old(store.Now()), now)
    {
      var n := store.Purge(k, now);
      InvalidationKeepsAgreement(old(store.Now()), store.Now(), cache.entries, cache.entries, {}, now);
    }

    /** A client's command. */
    method Handle(op: Op, now: int, admitted: bool) returns (reply: Reply)
      requires Valid(now)
      modifies store, cache
      ensures Valid(now)
      ensures S.Owned(old(store.Now())) ==>
        && S.Owned(store.Now())
        && S.View(store.Now(), now) == Apply(S.View(old(store.Now()), now), op, now).0
        && Wire(reply) == Wire(Apply(S.View(old(store.Now()), now), op, now).1)
      ensures op.On? && op.command.Get? ==>
        && store.Now() == S.Purged(old(store.Now()), op.key, now)
        && Wire(reply) == Wire(S.RowReply(S.LiveRow(old(store.Now()), op.key, now)))
    {
      hide Act, S.View, S.Owned, Agreement;
      match op {
        case On(k, c) =>
          if c.Get? {
            LiveView(store.Now(), now);
            GetLeavesMap(S.View(store.Now(), now), k, now);
            reply := Get(k, now, admitted);
          } else {
            reply := Execute(k, c, now);
          }
        case MSet(pairs, opts) => reply := MSet(pairs, opts, now);
        case Del(ks) =>
          var n := Del(ks, now);
          reply := Done;
        case Purge(k) =>
          Purge(k, now);
          reply := Done;
      }
    }

    /** One event of a run. */
    method Serve(e: Event, now: int) returns (reply: Reply)
      requires Valid(now)
      modifies store, cache
      ensures Valid(now)
      ensures S.Owned(old(store.Now())) && !e.Cleanup? ==>
        && S.Owned(store.Now())
        && S.View(store.Now(), now) == ApplyEvent(S.View(old(store.Now()), now), e, now).0
        && Wire(reply) == Wire(ApplyEvent(S.View(old(store.Now()), now), e, now).1)
      ensures IsGet(e) ==>
        && store.Now() == S.Purged(old(store.Now()), e.op.key, now)
        && Wire(reply) == Wire(S.RowReply(S.LiveRow(old(store.Now()), e.op.key, now)))
    {
      hide Apply, S.View, S.Owned, Agreement, ZAddAll;
      match e {
        case Client(op, admitted) => reply := Handle(op, now, admitted);
        case ZAddMany(k, items) => reply := ZAddMany(k, items, now);
        case Cleanup(found) =>
          var n := Cleanup(found, now);
          reply := Done;
        case Evict(gone) =>
          EvictionKeepsAgreement(store.Now(), cache.entries, gone, now);
          cache.Evict(gone);
          reply := Done;
      }
    }

    /** Over a whole run of commands, cleanups and evictions the cache is never seen: `tables[i]` being the
        tables just before event i, every GET replies and leaves the tables as the store alone would; and
        until the first cleanup everything replies as the timed map does. */
    method RunAll(trace: seq<Timed<Event>>, start: int) returns (replies: seq<Reply>, tables: seq<S.Tables>)
      requires Valid(start) && InOrder(trace, start)
      modifies store, cache
      ensures Valid(LastTime(trace, start))
      ensures |replies| == |trace| && |tables| == |trace| + 1
      ensures tables[0] == old(store.Now()) && tables[|trace|] == store.Now()
      ensures forall i :: 0 <= i < |trace| && IsGet(trace[i].op) ==>
          GetAsAlone(trace[i], tables[i], tables[i + 1], replies[i])
      ensures S.Owned(old(store.Now())) && NoCleanup(trace) ==>
        var (v, expected) := RunEvents(S.View(old(store.Now()), start), trace);
        && S.Owned(store.Now()) && S.View(store.Now(), LastTime(trace, start)) == v
        && |expected| == |trace| && forall i :: 0 <= i < |trace| ==> Wire(replies[i]) == Wire(expected[i])
    {
      hide ApplyEvent, S.View, S.Owned, Agreement, S.LiveRow, S.Purged;
      replies, tables := [], [store.Now()];
      ghost var v := S.View(store.Now(), start);
      for i := 0 to |trace|
        invariant Valid(LastTime(trace[..i], start))
        invariant |replies| == i && |tables| == i + 1
        invariant tables[0] == old(store.Now()) && tables[i] == store.Now()
        invariant forall j :: 0 <= j < i && IsGet(trace[j].op) ==>
            GetAsAlone(trace[j], tables[j], tables[j + 1], replies[j])
        invariant S.Owned(old(store.Now())) && NoCleanup(trace) ==>
          && S.Owned(store.Now())
          && S.View(store.Now(), LastTime(trace[..i], start)) == RunEvents(v, trace[..i]).0
          && |RunEvents(v, trace[..i]).1| == i
          && forall j :: 0 <= j < i ==> Wire(replies[j]) == Wire(RunEvents(v, trace[..i]).1[j])
      {
        var now := trace[i].now;
        assert trace[..i + 1][..i] == trace[..i];
        AgreementLasts(store.Now(), cache.entries, LastTime(trace[..i], start), now);
        S.ViewLater(store.Now(), LastTime(trace[..i], start), now);
        var reply := Serve(trace[i].op, now);
        replies, tables := replies + [reply], tables + [store.Now()];
      }
      assert trace[..|trace|] == trace;
    }
  }

  /** A GET that took tables `t` to `u`, against the same GET without a cache. */
  ghost predicate GetAsAlone(at: Timed<Event>, t: S.Tables, u: S.Tables, reply: Reply)
    requires IsGet(at.op)
  {
    && Wire(reply) == Wire(S.RowReply(S.LiveRow(t, at.op.op.key, at.now)))
    && u == S.Purged(t, at.op.op.key, at.now)
  }

  lemma GetSpec(t: S.Tables, k: Key, now: int)
    ensures S.Owned(t) ==>
      Wire(Step(S.View(t, now), k, Command.Get, now).1) == Wire(S.RowReply(S.LiveRow(t, k, now)))
  {
    S.LookupView(t, k, now);
  }

  lemma GetLeavesMap(v: Db, k: Key, now: int)
    requires Live(v, now) == v
    ensures Step(v, k, Command.Get, now).0 == v
  {
    ReadersKeep(v, k, Command.Get, now);
  }

  lemma LiveView(t: S.Tables, now: int)
    ensures Live(S.View(t, now), now) == S.View(t, now)
  {
  }

  /** A ZADD that goes through found no live string there, so no live entry either. */
  lemma ZAddKeepsAgreement(t: S.Tables, u: S.Tables, entries: Entries, k: Key, now: int)
    requires Agreement(t, entries, now)
    requires S.KeepsRows(t, u, {}, now) || (S.KeepsRows(t, u, {k}, now) && (S.LiveRow(t, k, now).None? ||
        t.keys[k].kind == S.ZSetRow))
    ensures Agreement(u, entries, now)
  {
    forall j: Key
      ensures AgreesAt(u, entries, j, now)
    {
      assert AgreesAt(t, entries, j, now);
    }
  }
}
