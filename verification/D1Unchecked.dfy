/** Why the serialisation theorem of D1Protocol keeps the unchecked writers out.  A plain SET on a missing
    key is an upsert that writes version 1 over whatever it finds; DEL lets a key start again at version 1;
    EXPIRE and PERSIST write a version computed from an old read; and the lazy deletion of an expired row
    deletes whatever row is there by then.  Each race below ends in replies and a row that no order of its
    calls explains, not even one that rearranges calls that overlap.  It starts from any state in which its
    clients are idle and runs at one clock reading. */
module D1Unchecked {
  import opened Decimal
  import opened StoreTypes
  import opened D1Protocol
  import opened D1Orders

  // ---------------------------------------------------------------- runs in pieces

  lemma {:induction false} RunConcat(s: State, a: seq<Action>, b: seq<Action>)
    ensures Run(s, a + b) == Run(Run(s, a), b)
  {
    hide Do;
    if b == [] {
      assert a + b == a;
    } else {
      var n := |b| - 1;
      RunConcat(s, a, b[..n]);
      assert (a + b)[..|a + b| - 1] == a + b[..n];
    }
  }

  lemma RunSix(
      s: State, a: seq<Action>, b: seq<Action>, c: seq<Action>, d: seq<Action>, e: seq<Action>, f: seq<Action>)
    ensures Run(s, a + b + c + d + e + f) == Run(Run(Run(Run(Run(Run(s, a), b), c), d), e), f)
  {
    hide Run;
    RunConcat(s, a + b + c + d + e, f);
    RunConcat(s, a + b + c + d, e);
    RunConcat(s, a + b + c, d);
    RunConcat(s, a + b, c);
    RunConcat(s, a, b);
  }

  lemma RunTwo(s: State, a: Action, b: Action)
    ensures Run(s, [a]) == Do(s, a) && Run(s, [a, b]) == Do(Do(s, a), b)
  {
    hide Do;
    assert [a][..0] == [] && [a, b][..1] == [a];
  }

  /** A call begins and its client takes the first step. */
  function Start(c: Client, call: Call, now: int): seq<Action> {
    [Begin(c, call), Step(c, now)]
  }

  function Enter(s: State, c: Client, p: Phase): State {
    s.(phases := s.phases[c := p])
  }

  lemma EnterTwice(s: State, c: Client, p: Phase, q: Phase)
    ensures Enter(Enter(s, c, p), c, q) == Enter(s, c, q)
  {
    assert s.phases[c := p][c := q] == s.phases[c := q];
  }

  /** The state after client c, which read the row as soon as it began, has written `row` and reported. */
  function Wrote(s: State, c: Client, row: Row, call: Call, reply: Reply, since: nat, at: int): State {
    var e := Event(c, call, reply, since, since, |s.history|, at);
    State(s.table[call.key := row], s.phases[c := Idle], s.history + [e])
  }

  /** A first step that finds a live row, or none, and decides to write. */
  lemma StartIssues(s: State, c: Client, call: Call, stmt: Stmt, now: int)
    requires PhaseOf(s, c) == Idle && !call.Delete?
    requires
      var seen := Lookup(s.table, call.key);
      (seen.Some? ==> !Passed(seen.value.expiresAt, now)) && Plan(call, seen, now) == Issue(stmt)
    ensures Run(s, Start(c, call, now)) ==
            Enter(s, c, Writing(call, |s.history|, Lookup(s.table, call.key), stmt, |s.history|, now))
  {
    hide Run, Plan;
    RunTwo(s, Begin(c, call), Step(c, now));
    var h := |s.history|;
    EnterTwice(s, c, Reading(call, h), Writing(call, h, Lookup(s.table, call.key), stmt, h, now));
  }

  /** The write of a client and its report. */
  lemma WriteStep(s: State, c: Client, now: int)
    requires PhaseOf(s, c).Writing?
    ensures
      var Writing(call, begun, seen, stmt, since, at) := PhaseOf(s, c);
      var (table, outcome) := ExecStmt(s.table, call.key, stmt);
      Run(s, [Step(c, now)]) == Reported(s.(table := table), c, call, begun, Finish(call, seen, outcome), since, at)
  {
    hide Run, Plan, ExecStmt, Finish;
    RunTwo(s, Step(c, now), Step(c, now));
  }

  // ---------------------------------------------------------------- increments

  predicate Counts(row: Row, n: int64) {
    row.kind == StringKind && row.data == FormatInt(n)
  }

  /** A client that has read the counter at n and is about to write. */
  function Pending(key: Key, delta: int64, n: int64, seen: Row, now: int, since: nat): Phase {
    var stmt := IncrWhere(FormatInt(Add64(n, delta)), seen.version + 1, now, seen.version);
    Writing(IncrBy(key, delta), since, Some(seen), stmt, since, now)
  }

  lemma IncrReads(s: State, c: Client, key: Key, delta: int64, n: int64, row: Row, now: int)
    requires PhaseOf(s, c) == Idle && Lookup(s.table, key) == Some(row) && Counts(row, n) && !Passed(row.expiresAt, now)
    ensures Run(s, Start(c, IncrBy(key, delta), now)) == Enter(s, c, Pending(key, delta, n, row, now, |s.history|))
  {
    hide FormatInt, ParseInt, Run, Add64;
    IntRoundTrip(n);
    var stmt := IncrWhere(FormatInt(Add64(n, delta)), row.version + 1, now, row.version);
    assert Plan(IncrBy(key, delta), Some(row), now) == Issue(stmt);
    StartIssues(s, c, IncrBy(key, delta), stmt, now);
  }

  function Counted(row: Row, n: int64, version: int, now: int): Row {
    row.(data := FormatInt(n), version := version, updatedAt := now)
  }

  /** Its guard asks for nothing but the version. */
  lemma IncrWrites(s: State, c: Client, key: Key, delta: int64, n: int64, seen: Row, now: int, since: nat)
    requires PhaseOf(s, c) == Pending(key, delta, n, seen, now, since) && Counts(seen, n)
    requires key in s.table && s.table[key].version == seen.version
    ensures
      var sum := Add64(n, delta);
      Run(s, [Step(c, now)]) ==
        Wrote(s, c, Counted(s.table[key], sum, seen.version + 1, now), IncrBy(key, delta), Number(sum), since, now)
  {
    hide FormatInt, ParseInt, Run, Plan, Add64;
    WriteStep(s, c, now);
    IntRoundTrip(n);
  }

  /** An increment from beginning to end. */
  lemma IncrRuns(s: State, c: Client, key: Key, delta: int64, n: int64, row: Row, now: int)
    requires PhaseOf(s, c) == Idle && Lookup(s.table, key) == Some(row) && Counts(row, n) && !Passed(row.expiresAt, now)
    ensures
      var sum := Add64(n, delta);
      Run(s, Start(c, IncrBy(key, delta), now) + [Step(c, now)]) ==
        Wrote(s, c, Counted(row, sum, row.version + 1, now), IncrBy(key, delta), Number(sum), |s.history|, now)
  {
    hide FormatInt, ParseInt, Run, Add64;
    RunConcat(s, Start(c, IncrBy(key, delta), now), [Step(c, now)]);
    IncrReads(s, c, key, delta, n, row, now);
    var p := Pending(key, delta, n, row, now, |s.history|);
    IncrWrites(Enter(s, c, p), c, key, delta, n, row, now, |s.history|);
    EnterTwice(s, c, p, Idle);
  }

  function FirstRow(n: int64, now: int): Row {
    Row(StringKind, FormatInt(n), None, 1, now, now)
  }

  lemma AddZero(n: int64)
    ensures Add64(0, n) == n
  {
  }

  /** The write of an increment that found no row, and finds none. */
  lemma InsertWrites(s: State, c: Client, key: Key, delta: int64, now: int, since: nat)
    requires PhaseOf(s, c) == Writing(IncrBy(key, delta), since, None, Insert(FirstRow(delta, now)), since, now)
    requires key !in s.table
    ensures Run(s, [Step(c, now)]) ==
            Wrote(s, c, FirstRow(delta, now), IncrBy(key, delta), Number(delta), since, now)
  {
    hide FormatInt, ParseInt, Run, Plan, Add64;
    WriteStep(s, c, now);
    AddZero(delta);
  }

  lemma InsertRuns(s: State, c: Client, key: Key, delta: int64, now: int)
    requires PhaseOf(s, c) == Idle && key !in s.table
    ensures Run(s, Start(c, IncrBy(key, delta), now) + [Step(c, now)]) ==
            Wrote(s, c, FirstRow(delta, now), IncrBy(key, delta), Number(delta), |s.history|, now)
  {
    hide FormatInt, ParseInt, Run;
    RunConcat(s, Start(c, IncrBy(key, delta), now), [Step(c, now)]);
    StartIssues(s, c, IncrBy(key, delta), Insert(FirstRow(delta, now)), now);
    var p := Writing(IncrBy(key, delta), |s.history|, None, Insert(FirstRow(delta, now)), |s.history|, now);
    InsertWrites(Enter(s, c, p), c, key, delta, now, |s.history|);
    EnterTwice(s, c, p, Idle);
  }

  // ---------------------------------------------------------------- the races

  /** Where the races start. */
  predicate Ready(s: State) {
    PhaseOf(s, 0) == Idle && PhaseOf(s, 1) == Idle && PhaseOf(s, 2) == Idle && PhaseOf(s, 3) == Idle
  }

  lemma CountsTally(table: Table, key: Key, n: int64)
    requires key in table && Counts(table[key], n)
    ensures Abs(table, key) == CellOf(Tally(n, table[key].expiresAt))
  {
  }

  lemma Regroup(h: seq<Event>, a: Event, b: Event, c: Event)
    ensures h + [a] + [b] + [c] == h + ([a] + [b] + [c])
  {
  }

  lemma RegroupFour(h: seq<Event>, a: Event, b: Event, c: Event, d: Event)
    ensures h + [a] + [b] + [c] + [d] == h + ([a] + [b] + [c] + [d])
  {
  }

  // ---------------------------------------------------------------- DEL

  /** Client 2 has read n; client 0 deletes the key and client 1 counts a from nothing; then client 2 writes. */
  function DeleteRace(key: Key, a: int64, b: int64, now: int): seq<Action> {
    Start(2, IncrBy(key, b), now) + Start(0, Delete(key), now) +
    (Start(1, IncrBy(key, a), now) + [Step(1, now)]) + [Step(2, now)]
  }

  lemma Deletes(s: State, key: Key, now: int)
    requires PhaseOf(s, 0) == Idle && key in s.table
    ensures
      var h := |s.history|;
      Run(s, Start(0, Delete(key), now)) ==
        State(s.table - {key}, s.phases[0 := Idle], s.history + [Event(0, Delete(key), Deleted(1), h, h, h, 0)])
  {
    hide FormatInt, ParseInt, Run;
    RunTwo(s, Begin(0, Delete(key)), Step(0, now));
    var p := Writing(Delete(key), |s.history|, None, DeleteRow, |s.history|, 0);
    assert Do(s, Begin(0, Delete(key))) == Enter(s, 0, p);
    EnterTwice(s, 0, p, Idle);
  }

  /** What the three calls report, the history being h long when they start. */
  function DeleteEvents(h: nat, key: Key, n: int64, a: int64, b: int64, now: int): seq<Event> {
    [Event(0, Delete(key), Deleted(1), h, h, h, 0)] +
    [Event(1, IncrBy(key, a), Number(a), h + 1, h + 1, h + 1, now)] +
    [Event(2, IncrBy(key, b), Number(Add64(n, b)), h, h, h + 2, now)]
  }

  lemma DeleteRuns(s: State, key: Key, row: Row, n: int64, a: int64, b: int64, now: int)
    requires Ready(s) && Lookup(s.table, key) == Some(row) && Counts(row, n) && !Passed(row.expiresAt, now)
    requires row.version == 1
    ensures
      var t := Run(s, DeleteRace(key, a, b, now));
      && t.history == s.history + DeleteEvents(|s.history|, key, n, a, b, now)
      && Abs(t.table, key) == CellOf(Tally(Add64(n, b), None))
  {
    hide FormatInt, ParseInt, Do, Run, Add64, Start;
    var p0, p1 := Start(2, IncrBy(key, b), now), Start(0, Delete(key), now);
    var p2 := Start(1, IncrBy(key, a), now) + [Step(1, now)];
    RunConcat(s, p0 + p1 + p2, [Step(2, now)]);
    RunConcat(s, p0 + p1, p2);
    RunConcat(s, p0, p1);
    IncrReads(s, 2, key, b, n, row, now);
    var s1, h := Run(s, p0), |s.history|;
    Deletes(s1, key, now);
    var s2 := Run(s1, p1);
    InsertRuns(s2, 1, key, a, now);
    var s3 := Run(s2, p2);
    IncrWrites(s3, 2, key, b, n, row, now, h);
    Regroup(s.history, Event(0, Delete(key), Deleted(1), h, h, h, 0),
            Event(1, IncrBy(key, a), Number(a), h + 1, h + 1, h + 1, now),
            Event(2, IncrBy(key, b), Number(Add64(n, b)), h, h, h + 2, now));
  }

  /** All three calls report success, and the increment that client 1 was told of is gone: no order explains
      it, unless the counter was deleted at the value it restarted with, or restarted at the sum. */
  lemma DeleteLosesUpdate(s: State, key: Key, row: Row, n: int64, a: int64, b: int64, now: int)
    requires Ready(s) && Lookup(s.table, key) == Some(row) && Counts(row, n) && !Passed(row.expiresAt, now)
    requires row.version == 1 && a != n && a != Add64(n, b)
    ensures
      var t, events := Run(s, DeleteRace(key, a, b, now)), DeleteEvents(|s.history|, key, n, a, b, now);
      && t.history == s.history + events
      && Abs(t.table, key) == CellOf(Tally(Add64(n, b), None))
      && !Explainable(Abs(s.table, key), events, key, Abs(t.table, key))
  {
    hide CellOf, Run, Abs, Explainable, NoWay;
    DeleteRuns(s, key, row, n, a, b, now);
    CountsTally(s.table, key, n);
    var events := DeleteEvents(|s.history|, key, n, a, b, now);
    DeleteNoWay(|s.history|, key, n, row.expiresAt, a, b, now);
    NoWayUnexplained(Tally(n, row.expiresAt), events, Tally(Add64(n, b), None), key);
  }

  lemma DeleteNoWay(h: nat, key: Key, n: int64, expiresAt: Option<int>, a: int64, b: int64, now: int)
    requires !Passed(expiresAt, now) && a != n && a != Add64(n, b)
    ensures NoWay(Tally(n, expiresAt), DeleteEvents(h, key, n, a, b, now), Tally(Add64(n, b), None))
  {
    hide Linearizes, Through;
    var t, e0 := Tally(n, expiresAt), Event(0, Delete(key), Deleted(1), h, h, h, 0);
    var e1 := Event(1, IncrBy(key, a), Number(a), h + 1, h + 1, h + 1, now);
    var e2 := Event(2, IncrBy(key, b), Number(Add64(n, b)), h, h, h + 2, now);
    forall g | Linearizes(g, DeleteEvents(h, key, n, a, b, now))
      ensures Through(t, g) != Some(Tally(Add64(n, b), None))
    {
      ThreeOverlapping(g, e0, e1, e2);
      ThroughThree(t, e0, e1, e2);
      ThroughThree(t, e0, e2, e1);
      ThroughThree(t, e2, e0, e1);
    }
  }

  // ---------------------------------------------------------------- EXPIRE and PERSIST

  /** Client 0's EXPIRE or PERSIST has read the row; client 1 counts a; client 2 reads; client 3 counts c;
      client 0 sets the version back to the one client 2 read; then client 2 writes. */
  function TouchRace(call: Call, a: int64, b: int64, c: int64, now: int): seq<Action> {
    Start(0, call, now) + (Start(1, IncrBy(call.key, a), now) + [Step(1, now)]) +
    Start(2, IncrBy(call.key, b), now) + (Start(3, IncrBy(call.key, c), now) + [Step(3, now)]) +
    [Step(0, now)] + [Step(2, now)]
  }

  /** EXPIRE writes on any row, PERSIST on one that has an expiry. */
  predicate Touches(call: Call, expiresAt: Option<int>) {
    call.Expire? || (call.Persist? && expiresAt.Some?)
  }

  function TouchedTo(call: Call, now: int): Option<int> {
    if call.Expire? then Some(now + call.ttl) else None
  }

  lemma TouchReads(s: State, call: Call, row: Row, now: int)
    requires PhaseOf(s, 0) == Idle && Lookup(s.table, call.key) == Some(row) && !Passed(row.expiresAt, now)
    requires Touches(call, row.expiresAt)
    ensures
      var stmt, h := Touch(TouchedTo(call, now), row.version + 1, now), |s.history|;
      Run(s, Start(0, call, now)) == Enter(s, 0, Writing(call, h, Some(row), stmt, h, now))
  {
    hide FormatInt, ParseInt, Run;
    StartIssues(s, 0, call, Touch(TouchedTo(call, now), row.version + 1, now), now);
  }

  lemma TouchWrites(s: State, call: Call, seen: Row, expiresAt: Option<int>, version: int, now: int, since: nat)
    requires call.Expire? || call.Persist?
    requires PhaseOf(s, 0) == Writing(call, since, Some(seen), Touch(expiresAt, version, now), since, now)
    requires call.key in s.table
    ensures
      var row := s.table[call.key].(expiresAt := expiresAt, version := version, updatedAt := now);
      Run(s, [Step(0, now)]) == Wrote(s, 0, row, call, Changed(true), since, now)
  {
    hide FormatInt, ParseInt, Run, Plan;
    WriteStep(s, 0, now);
  }

  /** What the calls of this race, and of the next one, report; n is what client 1 found. */
  function FourEvents(h: nat, call: Call, reply: Reply, n: int64, a: int64, b: int64, c: int64, now: int): seq<Event> {
    var m := Add64(n, a);
    [Event(1, IncrBy(call.key, a), Number(m), h, h, h, now)] +
    [Event(3, IncrBy(call.key, c), Number(Add64(m, c)), h + 1, h + 1, h + 1, now)] +
    [Event(0, call, reply, h, h, h + 2, now)] +
    [Event(2, IncrBy(call.key, b), Number(Add64(m, b)), h + 1, h + 1, h + 3, now)]
  }

  /** Client 2 reads the counter at m, and client 3 counts c. */
  lemma ReadThenCount(s: State, key: Key, row: Row, m: int64, b: int64, c: int64, now: int)
    requires PhaseOf(s, 2) == Idle && PhaseOf(s, 3) == Idle
    requires Lookup(s.table, key) == Some(row) && Counts(row, m) && !Passed(row.expiresAt, now)
    ensures
      var p2, p3 := Start(2, IncrBy(key, b), now), Start(3, IncrBy(key, c), now) + [Step(3, now)];
      var pending := Enter(s, 2, Pending(key, b, m, row, now, |s.history|));
      Run(Run(s, p2), p3) ==
        Wrote(pending, 3, Counted(row, Add64(m, c), row.version + 1, now), IncrBy(key, c), Number(Add64(m, c)),
              |s.history|, now)
  {
    hide FormatInt, ParseInt, Do, Run, Add64, Start;
    IncrReads(s, 2, key, b, m, row, now);
    IncrRuns(Run(s, Start(2, IncrBy(key, b), now)), 3, key, c, m, row, now);
  }

  lemma TouchRuns(s: State, call: Call, row: Row, n: int64, a: int64, b: int64, c: int64, now: int)
    requires Ready(s) && Lookup(s.table, call.key) == Some(row) && Counts(row, n) && !Passed(row.expiresAt, now)
    requires Touches(call, row.expiresAt)
    ensures
      var t := Run(s, TouchRace(call, a, b, c, now));
      && t.history == s.history + FourEvents(|s.history|, call, Changed(true), n, a, b, c, now)
      && Abs(t.table, call.key) == CellOf(Tally(Add64(Add64(n, a), b), TouchedTo(call, now)))
  {
    hide FormatInt, ParseInt, Do, Run, Add64, Start;
    var key, m, h := call.key, Add64(n, a), |s.history|;
    var p0, p1 := Start(0, call, now), Start(1, IncrBy(key, a), now) + [Step(1, now)];
    var p2, p3 := Start(2, IncrBy(key, b), now), Start(3, IncrBy(key, c), now) + [Step(3, now)];
    RunSix(s, p0, p1, p2, p3, [Step(0, now)], [Step(2, now)]);
    TouchReads(s, call, row, now);
    var s1 := Run(s, p0);
    IncrRuns(s1, 1, key, a, n, row, now);
    var s2 := Run(s1, p1);
    var mid := Counted(row, m, row.version + 1, now);
    ReadThenCount(s2, key, mid, m, b, c, now);
    var s4 := Run(Run(s2, p2), p3);
    TouchWrites(s4, call, row, TouchedTo(call, now), row.version + 1, now, h);
    var s5 := Run(s4, [Step(0, now)]);
    IncrWrites(s5, 2, key, b, m, mid, now, h + 1);
    RegroupFour(s.history, Event(1, IncrBy(key, a), Number(m), h, h, h, now),
                Event(3, IncrBy(key, c), Number(Add64(m, c)), h + 1, h + 1, h + 1, now),
                Event(0, call, Changed(true), h, h, h + 2, now),
                Event(2, IncrBy(key, b), Number(Add64(m, b)), h + 1, h + 1, h + 3, now));
  }

  /** All four calls report success, and client 3's increment, unless it was of nothing, is gone. */
  lemma TouchLosesUpdate(s: State, call: Call, row: Row, n: int64, a: int64, b: int64, c: int64, now: int)
    requires Ready(s) && Lookup(s.table, call.key) == Some(row) && Counts(row, n) && !Passed(row.expiresAt, now)
    requires Touches(call, row.expiresAt) && c != 0
    ensures
      var t := Run(s, TouchRace(call, a, b, c, now));
      var events := FourEvents(|s.history|, call, Changed(true), n, a, b, c, now);
      && t.history == s.history + events
      && Abs(t.table, call.key) == CellOf(Tally(Add64(Add64(n, a), b), TouchedTo(call, now)))
      && !Explainable(Abs(s.table, call.key), events, call.key, Abs(t.table, call.key))
  {
    hide CellOf, Run, Abs, Explainable, NoWay, Add64;
    TouchRuns(s, call, row, n, a, b, c, now);
    CountsTally(s.table, call.key, n);
    var events := FourEvents(|s.history|, call, Changed(true), n, a, b, c, now);
    TouchNoWay(|s.history|, call, n, row.expiresAt, a, b, c, now);
    NoWayUnexplained(
      Tally(n, row.expiresAt), events, Tally(Add64(Add64(n, a), b), TouchedTo(call, now)), call.key);
  }

  lemma TouchNoWay(h: nat, call: Call, n: int64, expiresAt: Option<int>, a: int64, b: int64, c: int64, now: int)
    requires !Passed(expiresAt, now) && Touches(call, expiresAt) && c != 0
    ensures NoWay(Tally(n, expiresAt), FourEvents(h, call, Changed(true), n, a, b, c, now),
                  Tally(Add64(Add64(n, a), b), TouchedTo(call, now)))
  {
    hide Linearizes, Through;
    var t, key, m := Tally(n, expiresAt), call.key, Add64(n, a);
    var e1 := Event(1, IncrBy(key, a), Number(m), h, h, h, now);
    var e3 := Event(3, IncrBy(key, c), Number(Add64(m, c)), h + 1, h + 1, h + 1, now);
    var e0 := Event(0, call, Changed(true), h, h, h + 2, now);
    var e2 := Event(2, IncrBy(key, b), Number(Add64(m, b)), h + 1, h + 1, h + 3, now);
    forall g | Linearizes(g, FourEvents(h, call, Changed(true), n, a, b, c, now))
      ensures Through(t, g) != Some(Tally(Add64(m, b), TouchedTo(call, now)))
    {
      FourOverlapping(g, e1, e3, e2, e0);
      TouchAmong(t, e1, e3, e2, e0, m, b, c, now);
      TouchAmong(t, e1, e2, e3, e0, m, b, c, now);
    }
  }

  lemma Sums(m: int64, b: int64, c: int64)
    ensures Add64(Add64(m, c), b) == Add64(Add64(m, b), c)
    ensures c != 0 ==> Add64(Add64(m, b), c) != Add64(m, b)
  {
  }

  /** Three increments that report m, and m + c and m + b in one order or the other. */
  predicate LostAmong(t: Tally, e1: Event, x: Event, y: Event, m: int64, b: int64, c: int64, now: int) {
    && t.Tally? && !Passed(t.expiresAt, now) && c != 0
    && e1.call.IncrBy? && x.call.IncrBy? && y.call.IncrBy? && e1.at == x.at == y.at == now
    && e1.reply == Number(m) && m == Add64(t.n, e1.call.delta)
    && (|| (x.call.delta == c && x.reply == Number(Add64(m, c)) && y.call.delta == b && y.reply == Number(Add64(m, b)))
        || (x.call.delta == b && x.reply == Number(Add64(m, b)) && y.call.delta == c && y.reply == Number(Add64(m, c))))
  }

  /** The increments in one of their two orders, and the touch anywhere among them. */
  lemma TouchAmong(t: Tally, e1: Event, x: Event, y: Event, e0: Event, m: int64, b: int64, c: int64, now: int)
    requires LostAmong(t, e1, x, y, m, b, c, now)
    requires Touches(e0.call, t.expiresAt) && e0.reply == Changed(true) && e0.at == now
    ensures
      var end := Some(Tally(Add64(m, b), TouchedTo(e0.call, now)));
      && Through(t, [e0, e1, x, y]) != end && Through(t, [e1, e0, x, y]) != end
      && Through(t, [e1, x, e0, y]) != end && Through(t, [e1, x, y, e0]) != end
  {
    hide Through, LostAmong;
    TouchFirst(t, e1, x, y, e0, m, b, c, now);
    TouchSecond(t, e1, x, y, e0, m, b, c, now);
    TouchThird(t, e1, x, y, e0, m, b, c, now);
    TouchLast(t, e1, x, y, e0, m, b, c, now);
  }

  lemma TouchFirst(t: Tally, e1: Event, x: Event, y: Event, e0: Event, m: int64, b: int64, c: int64, now: int)
    requires LostAmong(t, e1, x, y, m, b, c, now)
    requires Touches(e0.call, t.expiresAt) && e0.reply == Changed(true) && e0.at == now
    ensures Through(t, [e0, e1, x, y]) != Some(Tally(Add64(m, b), TouchedTo(e0.call, now)))
  {
    hide Through, Add64;
    Sums(m, b, c);
    ThroughFour(t, e0, e1, x, y);
  }

  lemma TouchSecond(t: Tally, e1: Event, x: Event, y: Event, e0: Event, m: int64, b: int64, c: int64, now: int)
    requires LostAmong(t, e1, x, y, m, b, c, now)
    requires Touches(e0.call, t.expiresAt) && e0.reply == Changed(true) && e0.at == now
    ensures Through(t, [e1, e0, x, y]) != Some(Tally(Add64(m, b), TouchedTo(e0.call, now)))
  {
    hide Through, Add64;
    Sums(m, b, c);
    ThroughFour(t, e1, e0, x, y);
  }

  lemma TouchThird(t: Tally, e1: Event, x: Event, y: Event, e0: Event, m: int64, b: int64, c: int64, now: int)
    requires LostAmong(t, e1, x, y, m, b, c, now)
    requires Touches(e0.call, t.expiresAt) && e0.reply == Changed(true) && e0.at == now
    ensures Through(t, [e1, x, e0, y]) != Some(Tally(Add64(m, b), TouchedTo(e0.call, now)))
  {
    hide Through, Add64;
    Sums(m, b, c);
    ThroughFour(t, e1, x, e0, y);
  }

  lemma TouchLast(t: Tally, e1: Event, x: Event, y: Event, e0: Event, m: int64, b: int64, c: int64, now: int)
    requires LostAmong(t, e1, x, y, m, b, c, now)
    requires Touches(e0.call, t.expiresAt) && e0.reply == Changed(true) && e0.at == now
    ensures Through(t, [e1, x, y, e0]) != Some(Tally(Add64(m, b), TouchedTo(e0.call, now)))
  {
    hide Through, Add64;
    Sums(m, b, c);
    ThroughFour(t, e1, x, y, e0);
  }

  // ---------------------------------------------------------------- SET on a missing key

  /** Client 0's SET has found the key missing; client 1 counts a; client 2 reads; client 3 counts c; the SET
      stores its value, with the version that client 2 read; then client 2 writes. */
  function UpsertRace(call: Call, a: int64, b: int64, c: int64, now: int): seq<Action> {
    TouchRace(call, a, b, c, now)
  }

  function UpsertRow(call: Call, now: int): Row
    requires call.Set?
  {
    Row(StringKind, call.value, if call.opts.ttl > 0 then Some(now + call.opts.ttl) else None, 1, now, now)
  }

  lemma UpsertWrites(s: State, call: Call, now: int, since: nat)
    requires call.Set? && !call.opts.nx
    requires PhaseOf(s, 0) == Writing(call, since, None, Upsert(UpsertRow(call, now)), since, now)
    requires call.key in s.table && s.table[call.key].createdAt == now
    ensures Run(s, [Step(0, now)]) == Wrote(s, 0, UpsertRow(call, now), call, Written(None, true), since, now)
  {
    hide FormatInt, ParseInt, Run, Plan;
    WriteStep(s, 0, now);
  }

  lemma UpsertRuns(s: State, call: Call, a: int64, b: int64, c: int64, now: int)
    requires Ready(s) && call.key !in s.table && call.Set? && !call.opts.nx && !call.opts.xx
    ensures
      var t := Run(s, UpsertRace(call, a, b, c, now));
      && t.history == s.history + FourEvents(|s.history|, call, Written(None, true), 0, a, b, c, now)
      && Abs(t.table, call.key) == CellOf(Tally(Add64(a, b), UpsertRow(call, now).expiresAt))
  {
    AddZero(a);
    hide FormatInt, ParseInt, Do, Run, Add64, Start;
    var key, h := call.key, |s.history|;
    var p0, p1 := Start(0, call, now), Start(1, IncrBy(key, a), now) + [Step(1, now)];
    var p2, p3 := Start(2, IncrBy(key, b), now), Start(3, IncrBy(key, c), now) + [Step(3, now)];
    RunSix(s, p0, p1, p2, p3, [Step(0, now)], [Step(2, now)]);
    StartIssues(s, 0, call, Upsert(UpsertRow(call, now)), now);
    var s1 := Run(s, p0);
    InsertRuns(s1, 1, key, a, now);
    var s2 := Run(s1, p1);
    ReadThenCount(s2, key, FirstRow(a, now), a, b, c, now);
    var s4 := Run(Run(s2, p2), p3);
    UpsertWrites(s4, call, now, h);
    var s5 := Run(s4, [Step(0, now)]);
    IncrWrites(s5, 2, key, b, a, FirstRow(a, now), now, h + 1);
    RegroupFour(s.history, Event(1, IncrBy(key, a), Number(a), h, h, h, now),
                Event(3, IncrBy(key, c), Number(Add64(a, c)), h + 1, h + 1, h + 1, now),
                Event(0, call, Written(None, true), h, h, h + 2, now),
                Event(2, IncrBy(key, b), Number(Add64(a, b)), h + 1, h + 1, h + 3, now));
  }

  /** All four calls report success, whatever the SET stores: it says that nothing was there, and client 3's
      increment, unless it was of nothing, is gone. */
  lemma UpsertLosesUpdate(s: State, call: Call, a: int64, b: int64, c: int64, now: int)
    requires Ready(s) && call.key !in s.table && call.Set? && !call.opts.nx && !call.opts.xx && c != 0
    ensures
      var t := Run(s, UpsertRace(call, a, b, c, now));
      var events := FourEvents(|s.history|, call, Written(None, true), 0, a, b, c, now);
      && t.history == s.history + events
      && Abs(t.table, call.key) == CellOf(Tally(Add64(a, b), UpsertRow(call, now).expiresAt))
      && !Explainable(None, events, call.key, Abs(t.table, call.key))
  {
    hide CellOf, Run, Linearizes, Legal, Replay, Add64;
    UpsertRuns(s, call, a, b, c, now);
    AddZero(a);
    var key, h, end := call.key, |s.history|, CellOf(Tally(Add64(a, b), UpsertRow(call, now).expiresAt));
    var e1 := Event(1, IncrBy(key, a), Number(a), h, h, h, now);
    var e3 := Event(3, IncrBy(key, c), Number(Add64(a, c)), h + 1, h + 1, h + 1, now);
    var e0 := Event(0, call, Written(None, true), h, h, h + 2, now);
    var e2 := Event(2, IncrBy(key, b), Number(Add64(a, b)), h + 1, h + 1, h + 3, now);
    forall g | Linearizes(g, FourEvents(h, call, Written(None, true), 0, a, b, c, now))
      ensures !(Legal(None, g, key) && Replay(None, g, key) == end)
    {
      FourOverlapping(g, e1, e3, e2, e0);
      if g[0] == e0 {
        SetFirst(e0, e1, e3, e2, a, b, c, now);
        SetFirst(e0, e1, e2, e3, a, b, c, now);
      } else {
        SetLater(g, e0, now);
      }
    }
  }

  /** A SET that says nothing was there cannot come after an increment. */
  lemma SetLater(g: seq<Event>, e0: Event, now: int)
    requires e0.call.Set? && !e0.call.opts.nx && !e0.call.opts.xx && e0.reply == Written(None, true) && e0.at == now
    requires e0 in g && g[0] != e0
    requires forall i :: 0 <= i < |g| && g[i] != e0 ==>
      g[i].call.IncrBy? && g[i].call.key == e0.call.key && g[i].reply.Number? && g[i].at == now
    ensures !Legal(None, g, e0.call.key)
  {
    hide FormatInt, ParseInt, Legal, Replay;
    Front(None, g, e0.call.key);
    SetOnCounter(CellOf(Tally(g[0].call.delta, None)), g[1..], e0, now);
  }

  lemma {:induction false} SetOnCounter(st: Option<Cell>, g: seq<Event>, e0: Event, now: int)
    requires st.Some? && !Passed(st.value.expiresAt, now)
    requires e0.call.Set? && !e0.call.opts.nx && !e0.call.opts.xx && e0.reply == Written(None, true) && e0.at == now
    requires e0 in g
    requires forall i :: 0 <= i < |g| && g[i] != e0 ==>
      g[i].call.IncrBy? && g[i].call.key == e0.call.key && g[i].reply.Number? && g[i].at == now
    ensures !Legal(st, g, e0.call.key)
    decreases |g|
  {
    hide FormatInt, ParseInt, Legal, Replay;
    Front(st, g, e0.call.key);
    if g[0] != e0 {
      SetOnCounter(After(st, g[0]), g[1..], e0, now);
    }
  }

  /** With the SET first, the increments count from what it stored. */
  lemma SetFirst(e0: Event, e1: Event, x: Event, y: Event, a: int64, b: int64, c: int64, now: int)
    requires e0.call.Set? && !e0.call.opts.nx && !e0.call.opts.xx && e0.reply == Written(None, true)
    requires e1.call == IncrBy(e0.call.key, a) && e1.reply == Number(a) && c != 0
    requires
      || (x.call == IncrBy(e0.call.key, c) && x.reply == Number(Add64(a, c)) &&
          y.call == IncrBy(e0.call.key, b) && y.reply == Number(Add64(a, b)))
      || (x.call == IncrBy(e0.call.key, b) && x.reply == Number(Add64(a, b)) &&
          y.call == IncrBy(e0.call.key, c) && y.reply == Number(Add64(a, c)))
    requires e0.at == e1.at == x.at == y.at == now
    ensures
      var g, key, end := [e0, e1, x, y], e0.call.key, CellOf(Tally(Add64(a, b), UpsertRow(e0.call, now).expiresAt));
      !(Legal(None, g, key) && Replay(None, g, key) == end)
  {
    hide FormatInt, ParseInt, Legal, Replay, CellOf;
    var key, expires := e0.call.key, UpsertRow(e0.call, now).expiresAt;
    var g, end := [e0, e1, x, y], Tally(Add64(a, b), expires);
    Front(None, g, key);
    assert g[1..] == [e1, x, y] && [e1, x, y][1..] == [x, y] && [x, y][1..] == [y] && [y][1..] == [];
    var stored := Some(Cell(StringKind, e0.call.value, expires));
    Front(stored, [e1, x, y], key);
    FromStored(stored, e1, a);
    var t := Tally(a, expires);
    ThroughIsLegal(t, [x, y], key);
    assert Through(t, [x, y]) != Some(end) by {
      LastTwo(t, x, y);
    }
    if Through(t, [x, y]).Some? && CellOf(Through(t, [x, y]).value) == CellOf(end) {
      CellOfInjective(Through(t, [x, y]).value, end);
    }
  }

  lemma LastTwo(t: Tally, x: Event, y: Event)
    ensures Through(t, [x, y]) == Then(Next(t, x), y)
  {
    hide Next;
    assert [x, y][1..] == [y] && [y][1..] == [];
    if Next(t, x).Some? {
      assert Through(Next(t, x).value, [y]) == Next(Next(t, x).value, y);
    }
  }

  /** An increment by a that returned a found the integer 0. */
  lemma FromStored(st: Option<Cell>, e: Event, a: int64)
    requires st.Some? && st.value.kind == StringKind && !Passed(st.value.expiresAt, e.at)
    requires e.call.IncrBy? && e.call.delta == a && e.reply == Number(a)
    ensures Explained(st, e) ==> After(st, e) == CellOf(Tally(a, st.value.expiresAt))
  {
    hide FormatInt, ParseInt;
  }

  // ---------------------------------------------------------------- lazy deletion

  /** Client 0's GET has read the expired row; client 1 finds it expired too, deletes it and counts a; then
      client 0 deletes what it believes to be the expired row. */
  function LazyRace(key: Key, a: int64, now: int): seq<Action> {
    Start(0, Get(key), now) + Start(1, IncrBy(key, a), now) + [Step(1, now)] + [Step(1, now)] + [Step(0, now)]
  }

  lemma StartPurges(s: State, c: Client, call: Call, now: int)
    requires PhaseOf(s, c) == Idle && !call.Delete?
    requires call.key in s.table && Passed(s.table[call.key].expiresAt, now)
    ensures Run(s, Start(c, call, now)) == Enter(s, c, Purging(call, |s.history|))
  {
    hide Run, Plan;
    RunTwo(s, Begin(c, call), Step(c, now));
    EnterTwice(s, c, Reading(call, |s.history|), Purging(call, |s.history|));
  }

  lemma PurgeStep(s: State, c: Client, now: int)
    requires PhaseOf(s, c).Purging?
    ensures
      var Purging(call, begun) := PhaseOf(s, c);
      Run(s, [Step(c, now)]) == Settle(s.(table := s.table - {call.key}), c, call, begun, None, now)
  {
    hide Run, Plan, Settle;
    RunTwo(s, Step(c, now), Step(c, now));
  }

  function LazyEvents(h: nat, key: Key, a: int64, now: int): seq<Event> {
    [Event(1, IncrBy(key, a), Number(a), h, h, h, now)] + [Event(0, Get(key), Value(None), h, h + 1, h + 1, now)]
  }

  /** Whatever the expired row held, the increment reports success and the key is absent afterwards.  The
      GET, which sees nothing, may come before the increment, but then the counter would be there: neither
      order explains both replies and row, from whatever contents at the start. */
  lemma LazyDeletionLosesUpdate(s: State, key: Key, a: int64, now: int)
    requires PhaseOf(s, 0) == Idle && PhaseOf(s, 1) == Idle
    requires key in s.table && Passed(s.table[key].expiresAt, now)
    ensures
      var t, events := Run(s, LazyRace(key, a, now)), LazyEvents(|s.history|, key, a, now);
      && t.history == s.history + events
      && key !in t.table
      && forall st :: !Explainable(st, events, key, None)
  {
    hide FormatInt, ParseInt, Do, Run, Explainable;
    var p0, p1, h := Start(0, Get(key), now), Start(1, IncrBy(key, a), now), |s.history|;
    RunConcat(s, p0 + p1 + [Step(1, now)] + [Step(1, now)], [Step(0, now)]);
    RunConcat(s, p0 + p1 + [Step(1, now)], [Step(1, now)]);
    RunConcat(s, p0 + p1, [Step(1, now)]);
    RunConcat(s, p0, p1);
    StartPurges(s, 0, Get(key), now);
    var s1 := Run(s, p0);
    StartPurges(s1, 1, IncrBy(key, a), now);
    var s2 := Run(s1, p1);
    PurgeStep(s2, 1, now);
    var s3 := Run(s2, [Step(1, now)]);
    InsertWrites(s3, 1, key, a, now, h);
    var s4 := Run(s3, [Step(1, now)]);
    PurgeStep(s4, 0, now);
    forall st
      ensures !Explainable(st, LazyEvents(h, key, a, now), key, None)
    {
      LazyUnexplained(st, h, key, a, now);
    }
  }

  lemma LazyUnexplained(st: Option<Cell>, h: nat, key: Key, a: int64, now: int)
    ensures !Explainable(st, LazyEvents(h, key, a, now), key, None)
  {
    hide FormatInt, ParseInt, Linearizes, Legal, Replay;
    var incr := Event(1, IncrBy(key, a), Number(a), h, h, h, now);
    var get := Event(0, Get(key), Value(None), h, h + 1, h + 1, now);
    forall g | Linearizes(g, LazyEvents(h, key, a, now))
      ensures !(Legal(st, g, key) && Replay(st, g, key) == None)
    {
      TwoOrders(g, incr, get);
      Front(st, g, key);
      Front(After(st, g[0]), g[1..], key);
      assert g[1..][1..] == [];
      NothingLeft(After(After(st, g[0]), g[1]), key);
    }
  }

  lemma NothingLeft(st: Option<Cell>, key: Key)
    ensures Replay(st, [], key) == st
  {
  }
}
