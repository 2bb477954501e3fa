/** The cache when nothing is atomic.  A GET is a lookup, a store read, a clock reading for the time to
    live and a cache insert; a writer is a store write and a cache delete; the steps of any number of
    sessions and of the clock interleave as they please.  A behaviour is the sequence of states that a
    sequence of steps goes through. */
module Staleness {
  import opened Decimal
  import opened StoreTypes
  import opened CacheRouter

  type Session = int

  datatype Row = Row(bytes: string, expiresAt: Option<int>)

  type Db = map<Key, Row>

  /** Where a session is in its GET. */
  datatype Phase =
    | Idle
    | Missed(key: Key)
    | Got(key: Key, row: Row)
    | Measured(key: Key, row: Row, ttl: int)

  datatype State = State(now: int, db: Db, cache: Entries, sessions: map<Session, Phase>)

  datatype Action =
    | Tick(ticks: nat)
    | Lookup(session: Session, key: Key)
    | Read(session: Session)
    | Measure(session: Session)
    | Insert(session: Session, admitted: bool)
    | Write(changes: map<Key, Option<Row>>)    // whatever a writer, a lazy deletion or a cleanup changes
    | Delete(gone: set<string>)                // an invalidation, or an eviction

  function PhaseOf(s: State, c: Session): Phase {
    if c in s.sessions then s.sessions[c] else Idle
  }

  function LiveRow(db: Db, k: Key, now: int): Option<Row> {
    if k in db && (db[k].expiresAt.Some? ==> now < db[k].expiresAt.value) then Some(db[k]) else None
  }

  /** Zero stands for no expiry, and is also what a row read just before its expiry may measure. */
  function TimeLeft(row: Row, now: int): int {
    if row.expiresAt.Some? then row.expiresAt.value - now else 0
  }

  function Rewrite(db: Db, changes: map<Key, Option<Row>>): Db {
    map k | k in db.Keys + changes.Keys && (k in changes ==> changes[k].Some?) ::
      if k in changes then changes[k].value else db[k]
  }

  function Enter(s: State, c: Session, p: Phase): State {
    s.(sessions := s.sessions[c := p])
  }

  function NewEntry(row: Row, ttl: int, now: int, defaultTTL: int): Cached {
    Cached(row.bytes, now + ClampTTL(ttl, defaultTTL))
  }

  function Next(s: State, a: Action, defaultTTL: int): State {
    match a
    case Tick(ticks) => s.(now := s.now + ticks)
    case Lookup(c, k) =>
      if PhaseOf(s, c).Idle? && Hit(s.cache, CacheKey(k), s.now).None? then Enter(s, c, Missed(k)) else s
    case Read(c) =>
      (match PhaseOf(s, c)
       case Missed(k) =>
         var row := LiveRow(s.db, k, s.now);
         Enter(s, c, if row.Some? then Got(k, row.value) else Idle)
       case _ => s)
    case Measure(c) =>
      (match PhaseOf(s, c)
       case Got(k, row) => Enter(s, c, Measured(k, row, TimeLeft(row, s.now)))
       case _ => s)
    case Insert(c, admitted) =>
      (match PhaseOf(s, c)
       case Measured(k, row, ttl) =>
         var t := Enter(s, c, Idle);
         if admitted then t.(cache := s.cache[CacheKey(k) := NewEntry(row, ttl, s.now, defaultTTL)]) else t
       case _ => s)
    case Write(changes) => s.(db := Rewrite(s.db, changes))
    case Delete(gone) => s.(cache := s.cache - gone)
  }

  ghost predicate StepAt(ss: seq<State>, acts: seq<Action>, defaultTTL: int, i: nat)
    requires |ss| == |acts| + 1 && i < |acts|
  {
    ss[i + 1] == Next(ss[i], acts[i], defaultTTL)
  }

  /** Starting with an empty cache and nobody in the middle of anything. */
  ghost predicate Behaviour(ss: seq<State>, acts: seq<Action>, defaultTTL: int) {
    && |ss| == |acts| + 1
    && ss[0].cache == map[] && ss[0].sessions == map[]
    && forall i :: 0 <= i < |acts| ==> StepAt(ss, acts, defaultTTL, i)
  }

  // ---------------------------------------------------------------- where an entry comes from

  /** The GET that put an entry in the cache: its session, what it read, and the steps at which it read,
      measured and inserted. */
  datatype Origin = Origin(session: Session, row: Row, ttl: int, read: nat, measured: nat, inserted: nat)

  ghost predicate Fetched(ss: seq<State>, acts: seq<Action>, k: Key, c: Session, row: Row, read: nat, n: nat)
    requires |ss| == |acts| + 1 && n <= |acts|
  {
    && read < n
    && acts[read] == Read(c)
    && LiveRow(ss[read].db, k, ss[read].now) == Some(row)
    && forall i :: read < i <= n ==> PhaseOf(ss[i], c) == Got(k, row)
  }

  ghost predicate Prepared(ss: seq<State>, acts: seq<Action>, k: Key, o: Origin, n: nat)
    requires |ss| == |acts| + 1 && n <= |acts|
  {
    && o.measured < n
    && Fetched(ss, acts, k, o.session, o.row, o.read, o.measured)
    && acts[o.measured] == Measure(o.session)
    && o.ttl == TimeLeft(o.row, ss[o.measured].now)
    && forall i :: o.measured < i <= n ==> PhaseOf(ss[i], o.session) == Measured(k, o.row, o.ttl)
  }

  ghost predicate IsOrigin(ss: seq<State>, acts: seq<Action>, defaultTTL: int, k: Key, o: Origin, n: nat)
    requires |ss| == |acts| + 1 && n <= |acts|
  {
    && o.inserted < n
    && Prepared(ss, acts, k, o, o.inserted)
    && acts[o.inserted] == Insert(o.session, true)
    && forall i :: o.inserted < i <= n ==>
         && CacheKey(k) in ss[i].cache
         && ss[i].cache[CacheKey(k)] == NewEntry(o.row, o.ttl, ss[o.inserted].now, defaultTTL)
  }

  lemma {:induction false} GotWasFetched(
      ss: seq<State>, acts: seq<Action>, defaultTTL: int, k: Key, c: Session, row: Row, n: nat)
    returns (read: nat)
    requires Behaviour(ss, acts, defaultTTL) && n <= |acts| && PhaseOf(ss[n], c) == Got(k, row)
    ensures Fetched(ss, acts, k, c, row, read, n)
  {
    hide FormatInt;
    assert n > 0;
    assert StepAt(ss, acts, defaultTTL, n - 1);
    if PhaseOf(ss[n - 1], c) == Got(k, row) {
      read := GotWasFetched(ss, acts, defaultTTL, k, c, row, n - 1);
    } else {
      read := n - 1;
    }
  }

  lemma {:induction false} MeasuredWasPrepared(
      ss: seq<State>, acts: seq<Action>, defaultTTL: int, k: Key, c: Session, row: Row, ttl: int, n: nat)
    returns (o: Origin)
    requires Behaviour(ss, acts, defaultTTL) && n <= |acts| && PhaseOf(ss[n], c) == Measured(k, row, ttl)
    ensures o.session == c && o.row == row && o.ttl == ttl && Prepared(ss, acts, k, o, n)
  {
    hide FormatInt;
    assert n > 0;
    assert StepAt(ss, acts, defaultTTL, n - 1);
    if PhaseOf(ss[n - 1], c) == Measured(k, row, ttl) {
      o := MeasuredWasPrepared(ss, acts, defaultTTL, k, c, row, ttl, n - 1);
    } else {
      var read := GotWasFetched(ss, acts, defaultTTL, k, c, row, n - 1);
      o := Origin(c, row, ttl, read, n - 1, n - 1);
    }
  }

  /** Every cache entry has a GET behind it, and has not been touched since that GET inserted it. */
  lemma {:induction false} EntryHasOrigin(ss: seq<State>, acts: seq<Action>, defaultTTL: int, k: Key, n: nat)
    returns (o: Origin)
    requires Behaviour(ss, acts, defaultTTL) && n <= |acts| && CacheKey(k) in ss[n].cache
    ensures IsOrigin(ss, acts, defaultTTL, k, o, n)
  {
    hide FormatInt, CacheKey;
    assert n > 0;
    assert StepAt(ss, acts, defaultTTL, n - 1);
    var s, a := ss[n - 1], acts[n - 1];
    if a.Insert? && a.admitted && PhaseOf(s, a.session).Measured? &&
        CacheKey(PhaseOf(s, a.session).key) == CacheKey(k) {
      var p := PhaseOf(s, a.session);
      CacheKeyInjective(p.key, k);
      o := MeasuredWasPrepared(ss, acts, defaultTTL, k, a.session, p.row, p.ttl, n - 1);
      o := o.(inserted := n - 1);
    } else {
      o := EntryHasOrigin(ss, acts, defaultTTL, k, n - 1);
    }
  }

  lemma {:induction false} ClockMovesForward(ss: seq<State>, acts: seq<Action>, defaultTTL: int, i: nat, j: nat)
    requires Behaviour(ss, acts, defaultTTL) && i <= j <= |acts|
    ensures ss[i].now <= ss[j].now
  {
    hide FormatInt, CacheKey;
    if i < j {
      ClockMovesForward(ss, acts, defaultTTL, i, j - 1);
      assert StepAt(ss, acts, defaultTTL, j - 1);
    }
  }

  // ---------------------------------------------------------------- what a hit promises

  ghost predicate HitAt(ss: seq<State>, acts: seq<Action>, k: Key, bytes: string, i: nat)
    requires |ss| == |acts| + 1
  {
    && i < |acts|
    && acts[i].Lookup? && acts[i].key == k
    && Hit(ss[i].cache, CacheKey(k), ss[i].now) == Some(bytes)
  }

  /** Every hit serves bytes that were the key's live value when some GET read them, less than the default
      time to live, plus that GET's own delay between read and insert, before the hit. */
  lemma BoundedStaleness(ss: seq<State>, acts: seq<Action>, defaultTTL: int, k: Key, bytes: string, i: nat)
    returns (o: Origin)
    requires Behaviour(ss, acts, defaultTTL) && defaultTTL > 0 && HitAt(ss, acts, k, bytes, i)
    ensures IsOrigin(ss, acts, defaultTTL, k, o, i) && o.row.bytes == bytes
    ensures LiveRow(ss[o.read].db, k, ss[o.read].now) == Some(o.row)
    ensures ss[o.read].now <= ss[o.measured].now <= ss[o.inserted].now <= ss[i].now
    ensures ss[i].now - ss[o.read].now < defaultTTL + (ss[o.inserted].now - ss[o.read].now)
    // A row with an expiry, measured before it, is not served past it by more than the insert took.
    ensures o.row.expiresAt.Some? && ss[o.measured].now < o.row.expiresAt.value ==>
              ss[i].now - o.row.expiresAt.value < ss[o.inserted].now - ss[o.measured].now
  {
    hide CacheKey;
    o := EntryHasOrigin(ss, acts, defaultTTL, k, i);
    ClockMovesForward(ss, acts, defaultTTL, o.read, o.measured);
    ClockMovesForward(ss, acts, defaultTTL, o.measured, o.inserted);
    ClockMovesForward(ss, acts, defaultTTL, o.inserted, i);
  }

  /** The insert came too late for the row's expiry: the row was measured at or past it, or the insert took
      longer than the cut to the default time to live left room for. */
  predicate CachedTooLate(expiry: int, measured: int, inserted: int, defaultTTL: int) {
    measured >= expiry || inserted > if expiry - measured > defaultTTL then expiry - defaultTTL else measured
  }

  /** An entry can be served past the expiry of the row it was read from if and only if its GET inserted it
      too late, which its own three clock readings decide. */
  lemma OutlivesRowIff(ss: seq<State>, acts: seq<Action>, defaultTTL: int, k: Key, o: Origin, n: nat, expiry: int)
    requires Behaviour(ss, acts, defaultTTL) && defaultTTL > 0 && n <= |acts|
    requires IsOrigin(ss, acts, defaultTTL, k, o, n) && o.row.expiresAt == Some(expiry)
    ensures (exists t :: t >= expiry && Hit(ss[n].cache, CacheKey(k), t) == Some(o.row.bytes)) <==>
            CachedTooLate(expiry, ss[o.measured].now, ss[o.inserted].now, defaultTTL)
  {
    hide CacheKey;
    ClockMovesForward(ss, acts, defaultTTL, o.measured, o.inserted);
    var entry := ss[n].cache[CacheKey(k)];
    assert entry == NewEntry(o.row, o.ttl, ss[o.inserted].now, defaultTTL);
    if CachedTooLate(expiry, ss[o.measured].now, ss[o.inserted].now, defaultTTL) {
      assert Hit(ss[n].cache, CacheKey(k), expiry) == Some(o.row.bytes);
    }
  }

  /** No step from `i` up to `j` writes the key. */
  ghost predicate Unwritten(acts: seq<Action>, k: Key, i: nat, j: nat)
    requires i <= j <= |acts|
  {
    forall n :: i <= n < j && acts[n].Write? ==> k !in acts[n].changes
  }

  lemma {:induction false} RowStays(ss: seq<State>, acts: seq<Action>, defaultTTL: int, k: Key, i: nat, j: nat)
    requires Behaviour(ss, acts, defaultTTL) && i <= j <= |acts| && Unwritten(acts, k, i, j)
    ensures k in ss[j].db <==> k in ss[i].db
    ensures k in ss[i].db ==> ss[j].db[k] == ss[i].db[k]
  {
    hide FormatInt, CacheKey;
    if i < j {
      RowStays(ss, acts, defaultTTL, k, i, j - 1);
      assert StepAt(ss, acts, defaultTTL, j - 1);
    }
  }

  /** Once the last writer of a key has also deleted its entry, a hit serves what that writer stored,
      unless the entry comes from a GET that straddles both: it read no later than the write and inserted
      after the delete. */
  lemma StaleOnlyByStraddling(
      ss: seq<State>, acts: seq<Action>, defaultTTL: int, k: Key, bytes: string, write: nat, deletion: nat,
      i: nat)
    returns (o: Origin)
    requires Behaviour(ss, acts, defaultTTL) && HitAt(ss, acts, k, bytes, i)
    requires write < deletion < i && Unwritten(acts, k, write + 1, i)
    requires acts[deletion].Delete? && CacheKey(k) in acts[deletion].gone
    ensures IsOrigin(ss, acts, defaultTTL, k, o, i) && o.row.bytes == bytes && deletion < o.inserted
    ensures o.read <= write || (k in ss[i].db && ss[i].db[k] == o.row)
  {
    hide CacheKey;
    o := EntryHasOrigin(ss, acts, defaultTTL, k, i);
    assert StepAt(ss, acts, defaultTTL, deletion);
    assert CacheKey(k) !in ss[deletion + 1].cache;
    if o.read > write {
      RowStays(ss, acts, defaultTTL, k, o.read, i);
    }
  }

  // ---------------------------------------------------------------- both bounds are met

  /** A row read just before its expiry and measured at it is cached for the whole default time to live,
      so it is still served `defaultTTL - 1` past its expiry, with no writer around. */
  lemma ExpiredRowServed(k: Key, defaultTTL: int) returns (ss: seq<State>, acts: seq<Action>)
    requires defaultTTL > 0
    ensures Behaviour(ss, acts, defaultTTL) && |acts| == 7 && HitAt(ss, acts, k, "v", 6)
    ensures forall i :: 0 <= i < |acts| ==> !acts[i].Write?
    ensures ss[0].db == map[k := Row("v", Some(10))] && ss[6].now == 10 + defaultTTL - 1
  {
    hide CacheKey, Next;
    var row := Row("v", Some(10));
    acts := [Lookup(1, k), Read(1), Tick(1), Measure(1), Insert(1, true), Tick(defaultTTL - 1), Lookup(2, k)];
    var s0 := State(9, map[k := row], map[], map[]);
    var s1 := Enter(s0, 1, Missed(k));
    var s2 := Enter(s1, 1, Got(k, row));
    var s3 := s2.(now := 10);
    var s4 := Enter(s3, 1, Measured(k, row, 0));
    var s5 := Enter(s4, 1, Idle).(cache := map[CacheKey(k) := Cached("v", 10 + defaultTTL)]);
    var s6 := s5.(now := 10 + defaultTTL - 1);
    FetchSteps(s0, k, row, defaultTTL);
    LateSteps(s2, k, row, defaultTTL);
    InsertSteps(s4, k, row, 0, defaultTTL - 1, defaultTTL);
    ss := [s0, s1, s2, s3, s4, s5, s6, s6];
  }

  lemma LateSteps(s: State, k: Key, row: Row, defaultTTL: int)
    requires PhaseOf(s, 1) == Got(k, row)
    ensures
      var t := s.(now := s.now + 1);
      Next(s, Tick(1), defaultTTL) == t && Next(t, Measure(1), defaultTTL) ==
          Enter(t, 1, Measured(k, row, TimeLeft(row, t.now)))
  {
    hide CacheKey;
  }

  /** A GET that straddles a write and its invalidation brings the overwritten value back for the rest of
      the default time to live: the bounds above cannot be improved. */
  lemma StraddlingServesStale(k: Key, defaultTTL: int) returns (ss: seq<State>, acts: seq<Action>)
    requires defaultTTL > 0
    ensures Behaviour(ss, acts, defaultTTL) && |acts| == 8 && HitAt(ss, acts, k, "old", 7)
    ensures acts[3] == Write(map[k := Some(Row("new", None))]) && acts[4] == Delete({CacheKey(k)})
    ensures ss[7].db == map[k := Row("new", None)] && ss[7].now == ss[4].now + defaultTTL - 1
  {
    hide CacheKey, Next;
    var row, newer := Row("old", None), Row("new", None);
    var s0 := State(0, map[k := row], map[], map[]);
    var s1 := Enter(s0, 1, Missed(k));
    var s2 := Enter(s1, 1, Got(k, row));
    var s3 := Enter(s2, 1, Measured(k, row, 0));
    var s4 := s3.(db := map[k := newer]);
    var s6 := Enter(s4, 1, Idle).(cache := map[CacheKey(k) := Cached("old", defaultTTL)]);
    var s7 := s6.(now := defaultTTL - 1);
    var write := Write(map[k := Some(newer)]);
    FetchSteps(s0, k, row, defaultTTL);
    assert Rewrite(s3.db, write.changes) == s4.db;
    WriteSteps(s3, write, {CacheKey(k)}, defaultTTL);
    assert s4.cache - {CacheKey(k)} == s4.cache;
    InsertSteps(s4, k, row, 0, defaultTTL - 1, defaultTTL);
    acts := [Lookup(1, k), Read(1), Measure(1), write, Delete({CacheKey(k)}), Insert(1, true),
             Tick(defaultTTL - 1), Lookup(2, k)];
    ss := [s0, s1, s2, s3, s4, s4, s6, s7, s7];
  }

  /** The first half of session 1's GET. */
  lemma FetchSteps(s: State, k: Key, row: Row, defaultTTL: int)
    requires s.cache == map[] && s.sessions == map[] && LiveRow(s.db, k, s.now) == Some(row)
    ensures
      var s1 := Enter(s, 1, Missed(k));
      var s2 := Enter(s1, 1, Got(k, row));
      && Next(s, Lookup(1, k), defaultTTL) == s1
      && Next(s1, Read(1), defaultTTL) == s2
      && Next(s2, Measure(1), defaultTTL) == Enter(s2, 1, Measured(k, row, TimeLeft(row, s.now)))
  {
    hide CacheKey;
  }

  lemma WriteSteps(s: State, write: Action, gone: set<string>, defaultTTL: int)
    requires write.Write?
    ensures
      var t := s.(db := Rewrite(s.db, write.changes));
      Next(s, write, defaultTTL) == t && Next(t, Delete(gone), defaultTTL) == t.(cache := t.cache - gone)
  {
    hide CacheKey;
  }

  /** The insert that ends it, a wait shorter than the default time to live, and session 2's lookup. */
  lemma InsertSteps(s: State, k: Key, row: Row, ttl: int, wait: nat, defaultTTL: int)
    requires s.cache == map[] && PhaseOf(s, 1) == Measured(k, row, ttl) && wait < ClampTTL(ttl, defaultTTL)
    ensures
      var t := Enter(s, 1, Idle).(cache := map[CacheKey(k) := NewEntry(row, ttl, s.now, defaultTTL)]);
      var u := t.(now := s.now + wait);
      && Next(s, Insert(1, true), defaultTTL) == t
      && Next(t, Tick(wait), defaultTTL) == u
      && Next(u, Lookup(2, k), defaultTTL) == u
  {
    hide CacheKey;
  }
}
