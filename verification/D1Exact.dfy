/** The conditions of D1Protocol.Linearizable are exact.  A kind of call may be mixed with the calls the
    protocol protects, with every run linearizable, if and only if it is one of them; and a row may be there
    at the start if and only if it outlasts the run.  The bad runs end in replies and a row that no order of
    the calls explains in which a call that was done before another began comes first. */
module D1Exact {
  import opened Decimal
  import opened StoreTypes
  import opened D1Protocol
  import opened D1Orders
  import opened D1Unchecked

  /** One more kind of call beside the protected ones. */
  predicate Mixes(a: Action, call: Call, present: bool, lo: int, hi: int) {
    Calm(a, call.key, present, lo, hi) || (a.Begin? && a.call == call)
  }

  ghost predicate AllMix(acts: seq<Action>, call: Call, present: bool, lo: int, hi: int) {
    forall a :: a in acts ==> Mixes(a, call, present, lo, hi)
  }

  ghost predicate MixedRun(s0: State, acts: seq<Action>, call: Call, present: bool, lo: int, hi: int) {
    && Quiescent(s0) && (call.key in s0.table <==> present)
    && (present ==> Outlasts(s0.table[call.key], hi))
    && AllMix(acts, call, present, lo, hi)
  }

  /** The run is linearizable at a key: some order of its calls explains the replies and the row. */
  ghost predicate RunExplained(s0: State, acts: seq<Action>, key: Key) {
    Explainable(Abs(s0.table, key), Run(s0, acts).history, key, Abs(Run(s0, acts).table, key))
  }

  ghost predicate AlwaysExplained(call: Call, present: bool, lo: int, hi: int) {
    forall s0, acts :: MixedRun(s0, acts, call, present, lo, hi) ==> RunExplained(s0, acts, call.key)
  }

  // ---------------------------------------------------------------- a row to race for

  const SET_NX := SetOptions(0, false, true, false)

  function ZeroRow(lo: int, hi: int): Row {
    Row(StringKind, FormatInt(0), Some(hi + 1), 1, lo, lo)
  }

  /** SET NX on a missing key, from beginning to end. */
  lemma InsertOnce(s: State, c: Client, call: Call, now: int)
    requires PhaseOf(s, c) == Idle && call.Set? && call.opts.nx && !call.opts.xx && call.key !in s.table
    ensures Run(s, Start(c, call, now) + [Step(c, now)]) ==
            Wrote(s, c, UpsertRow(call, now), call, Written(None, true), |s.history|, now)
  {
    hide FormatInt, ParseInt, Run;
    RunConcat(s, Start(c, call, now), [Step(c, now)]);
    StartIssues(s, c, call, InsertOrIgnore(UpsertRow(call, now)), now);
    var p := Writing(call, |s.history|, None, InsertOrIgnore(UpsertRow(call, now)), |s.history|, now);
    WriteStep(Enter(s, c, p), c, now);
    EnterTwice(s, c, p, Idle);
  }

  function FirstSet(key: Key, lo: int, hi: int): Call {
    Set(key, FormatInt(0), SET_NX.(ttl := hi + 1 - lo))
  }

  /** A counter at zero, stored at the start or, on a key that has to be absent then, by client 9. */
  function Begun(key: Key, present: bool, lo: int, hi: int): State {
    if present then State(map[key := ZeroRow(lo, hi)], map[], []) else State(map[], map[], [])
  }

  function Preparation(key: Key, present: bool, lo: int, hi: int): seq<Action> {
    if present then [] else Start(9, FirstSet(key, lo, hi), lo) + [Step(9, lo)]
  }

  function PreparedBy(key: Key, present: bool, lo: int, hi: int): seq<Event> {
    if present then [] else [Event(9, FirstSet(key, lo, hi), Written(None, true), 0, 0, 0, lo)]
  }

  lemma Prepared(key: Key, present: bool, lo: int, hi: int)
    requires lo <= hi
    ensures
      var s := Run(Begun(key, present, lo, hi), Preparation(key, present, lo, hi));
      && Ready(s) && PhaseOf(s, 8) == Idle && s.history == PreparedBy(key, present, lo, hi)
      && Lookup(s.table, key) == Some(ZeroRow(lo, hi))
  {
    hide FormatInt, ParseInt, Do;
    if !present {
      hide Run;
      var s0, call := Begun(key, present, lo, hi), FirstSet(key, lo, hi);
      InsertOnce(s0, 9, call, lo);
      assert UpsertRow(call, lo) == ZeroRow(lo, hi);
    }
  }

  /** What no order of later calls explains, no order of all calls explains. */
  lemma UnexplainedAfterPreparation(
      key: Key, present: bool, lo: int, hi: int, events: seq<Event>, end: Option<Cell>)
    requires lo <= hi && forall d :: d in events ==> |PreparedBy(key, present, lo, hi)| <= d.begun
    requires
      var s := Run(Begun(key, present, lo, hi), Preparation(key, present, lo, hi));
      !Explainable(Abs(s.table, key), events, key, end)
    ensures
      var s0, pre := Begun(key, present, lo, hi), PreparedBy(key, present, lo, hi);
      !Explainable(Abs(s0.table, key), pre + events, key, end)
  {
    hide FormatInt, ParseInt, Do, Run, Explainable;
    Prepared(key, present, lo, hi);
    if present {
      assert PreparedBy(key, present, lo, hi) + events == events;
    } else {
      var e := PreparedBy(key, present, lo, hi)[0];
      NotExplainedLater(None, e, events, key, end);
    }
  }

  // ---------------------------------------------------------------- SET with an expiry inside the run

  /** A SET on a live string, from beginning to end: the new value, which expires ttl later, or as the old one
      with KEEPTTL, or never. */
  lemma OverwriteRuns(s: State, c: Client, call: Call, row: Row, now: int)
    requires PhaseOf(s, c) == Idle && call.Set? && !call.opts.nx
    requires Lookup(s.table, call.key) == Some(row) && row.kind == StringKind && !Passed(row.expiresAt, now)
    ensures
      var expires := if call.opts.ttl > 0 then Some(now + call.opts.ttl)
                     else if call.opts.keepTTL then row.expiresAt else None;
      var next := row.(data := call.value, expiresAt := expires, version := row.version + 1, updatedAt := now);
      Run(s, Start(c, call, now) + [Step(c, now)]) ==
        Wrote(s, c, next, call, Written(Some(row.data), true), |s.history|, now)
  {
    hide FormatInt, ParseInt, Run;
    RunConcat(s, Start(c, call, now), [Step(c, now)]);
    var expires := if call.opts.ttl > 0 then Some(now + call.opts.ttl)
                   else if call.opts.keepTTL then row.expiresAt else None;
    var stmt := SetWhere(call.value, expires, row.version + 1, now, row.version);
    StartIssues(s, c, call, stmt, now);
    var p := Writing(call, |s.history|, Some(row), stmt, |s.history|, now);
    WriteStep(Enter(s, c, p), c, now);
    EnterTwice(s, c, p, Idle);
  }

  function ShortRun(call: Call, present: bool, lo: int, hi: int): seq<Action>
    requires call.Set?
  {
    if !present && call.opts.nx then Start(8, call, lo) + [Step(8, lo)]
    else Preparation(call.key, present, lo, hi) + (Start(8, call, lo) + [Step(8, lo)])
  }

  /** Calls on the key, each done before the next began. */
  ghost predicate InTurns(h: seq<Event>, key: Key) {
    forall i :: 0 <= i < |h| ==> h[i].call.key == key && h[i].begun == h[i].done == i
  }

  /** The SET that writes a row which expires before the run is over. */
  lemma ShortLived(call: Call, present: bool, lo: int, hi: int)
    requires lo <= hi && call.Set? && !NeverWrites(call.opts, present)
    requires call.opts.ttl > 0 && lo + call.opts.ttl <= hi
    ensures
      var s := Run(Begun(call.key, present, lo, hi), ShortRun(call, present, lo, hi));
      && PhaseOf(s, 0) == Idle && PhaseOf(s, 1) == Idle && InTurns(s.history, call.key)
      && call.key in s.table && Passed(s.table[call.key].expiresAt, lo + call.opts.ttl)
  {
    hide FormatInt, ParseInt, Run, Do;
    var s0 := Begun(call.key, present, lo, hi);
    if !present && call.opts.nx {
      InsertOnce(s0, 8, call, lo);
    } else {
      var p := Preparation(call.key, present, lo, hi);
      Prepared(call.key, present, lo, hi);
      RunConcat(s0, p, Start(8, call, lo) + [Step(8, lo)]);
      OverwriteRuns(Run(s0, p), 8, call, ZeroRow(lo, hi), lo);
    }
  }

  /** What no contents whatever explain, no calls in turn before it explain. */
  lemma {:induction false} UnexplainedAfterTurns(
      st: Option<Cell>, pre: seq<Event>, events: seq<Event>, key: Key, end: Option<Cell>, i: nat)
    requires i <= |pre| && InTurns(pre, key) && forall d :: d in events ==> |pre| <= d.begun
    requires forall x :: !Explainable(x, events, key, end)
    ensures !Explainable(st, pre[i..] + events, key, end)
    decreases |pre| - i
  {
    hide Explainable, After;
    if i == |pre| {
      assert pre[i..] + events == events;
    } else {
      UnexplainedAfterTurns(After(st, pre[i]), pre, events, key, end, i + 1);
      var rest := pre[i + 1..] + events;
      forall d | d in rest
        ensures pre[i].done < d.begun
      {
        if d !in events {
          var j :| 0 <= j < |pre[i + 1..]| && pre[i + 1..][j] == d;
          assert pre[i + 1 + j] == d;
        }
      }
      NotExplainedLater(st, pre[i], rest, key, end);
      assert pre[i..] + events == [pre[i]] + rest;
    }
  }

  // ---------------------------------------------------------------- the theorems

  /** A run that goes wrong, for every call that is not protected. */
  function BadRun(call: Call, present: bool, lo: int, hi: int): seq<Action> {
    match call
    case Delete(key) => Preparation(key, present, lo, hi) + DeleteRace(key, 1, 2, lo)
    case Expire(key, _) => Preparation(key, present, lo, hi) + TouchRace(call, 1, 1, 1, lo)
    case Persist(key) => Preparation(key, present, lo, hi) + TouchRace(call, 1, 1, 1, lo)
    case Set(key, _, opts) =>
      if !present && !opts.nx && !opts.xx then UpsertRace(call, 1, 1, 1, lo)
      else ShortRun(call, present, lo, hi) + LazyRace(key, 1, lo + opts.ttl)
    case _ => []
  }

  /** A first step of the call itself, or of a protected one. */
  lemma StartMixes(c: Client, other: Call, now: int, call: Call, present: bool, lo: int, hi: int)
    requires other == call || (other.key == call.key && Protected(other, present, lo, hi))
    requires lo <= now <= hi
    ensures AllMix(Start(c, other, now), call, present, lo, hi) && AllMix([Step(c, now)], call, present, lo, hi)
    ensures AllMix(Start(c, other, now) + [Step(c, now)], call, present, lo, hi)
  {
    hide Protected;
  }

  lemma PreparationMixes(call: Call, present: bool, lo: int, hi: int)
    requires lo <= hi
    ensures AllMix(Preparation(call.key, present, lo, hi), call, present, lo, hi)
  {
    if !present {
      StartMixes(9, FirstSet(call.key, lo, hi), lo, call, present, lo, hi);
    }
  }

  lemma ShortRunMixes(call: Call, present: bool, lo: int, hi: int)
    requires lo <= hi && call.Set?
    ensures AllMix(ShortRun(call, present, lo, hi), call, present, lo, hi)
  {
    hide Mixes, FirstSet;
    PreparationMixes(call, present, lo, hi);
    StartMixes(8, call, lo, call, present, lo, hi);
  }

  lemma RacesMix(call: Call, present: bool, lo: int, hi: int, now: int)
    requires lo <= now <= hi
    ensures AllMix(LazyRace(call.key, 1, now), call, present, lo, hi)
    ensures AllMix(TouchRace(call, 1, 1, 1, now), call, present, lo, hi)
    ensures call.Delete? ==> AllMix(DeleteRace(call.key, 1, 2, now), call, present, lo, hi)
  {
    var incr := IncrBy(call.key, 1);
    StartMixes(0, call, now, call, present, lo, hi);
    StartMixes(0, Get(call.key), now, call, present, lo, hi);
    StartMixes(1, incr, now, call, present, lo, hi);
    StartMixes(2, incr, now, call, present, lo, hi);
    StartMixes(2, IncrBy(call.key, 2), now, call, present, lo, hi);
    StartMixes(3, incr, now, call, present, lo, hi);
    hide Mixes, Start;
  }

  lemma BadRunIsMixed(call: Call, present: bool, lo: int, hi: int)
    requires lo <= hi && !Protected(call, present, lo, hi)
    ensures MixedRun(Begun(call.key, present, lo, hi), BadRun(call, present, lo, hi), call, present, lo, hi)
  {
    hide FormatInt, ParseInt, Mixes, Preparation, ShortRun, LazyRace, TouchRace, DeleteRace;
    PreparationMixes(call, present, lo, hi);
    RacesMix(call, present, lo, hi, lo);
    if call.Set? {
      ShortRunMixes(call, present, lo, hi);
      if present || call.opts.nx || call.opts.xx {
        RacesMix(call, present, lo, hi, lo + call.opts.ttl);
      }
    }
  }

  lemma BadRunUnexplained(call: Call, present: bool, lo: int, hi: int)
    requires lo <= hi && !Protected(call, present, lo, hi)
    ensures !RunExplained(Begun(call.key, present, lo, hi), BadRun(call, present, lo, hi), call.key)
  {
    hide Explainable, Run, RunExplained;
    if call.Delete? {
      DeleteUnexplained(call, present, lo, hi);
    } else if call.Expire? || call.Persist? {
      TouchUnexplained(call, present, lo, hi);
    } else if !present && !call.opts.nx && !call.opts.xx {
      UpsertUnexplained(call, lo, hi);
    } else {
      ShortUnexplained(call, present, lo, hi);
    }
  }

  lemma DeleteUnexplained(call: Call, present: bool, lo: int, hi: int)
    requires lo <= hi && call.Delete?
    ensures !RunExplained(Begun(call.key, present, lo, hi), BadRun(call, present, lo, hi), call.key)
  {
    assert Add64(0, 2) == 2;
    hide FormatInt, ParseInt, Run, Do, Explainable, Add64, DeleteRace, DeleteEvents, Abs;
    var s0, p, key := Begun(call.key, present, lo, hi), Preparation(call.key, present, lo, hi), call.key;
    Prepared(key, present, lo, hi);
    RunConcat(s0, p, DeleteRace(key, 1, 2, lo));
    var s := Run(s0, p);
    DeleteLosesUpdate(s, key, ZeroRow(lo, hi), 0, 1, 2, lo);
    var t := Run(s, DeleteRace(key, 1, 2, lo));
    DeletesBegin(|s.history|, key, lo);
    UnexplainedAfterPreparation(
      key, present, lo, hi, DeleteEvents(|s.history|, key, 0, 1, 2, lo), Abs(t.table, key));
  }

  lemma DeletesBegin(h: nat, key: Key, lo: int)
    ensures forall d :: d in DeleteEvents(h, key, 0, 1, 2, lo) ==> h <= d.begun
  {
    hide Add64;
  }

  lemma TouchesBegin(h: nat, call: Call, lo: int)
    ensures forall d :: d in FourEvents(h, call, Changed(true), 0, 1, 1, 1, lo) ==> h <= d.begun
  {
    hide Add64;
  }

  lemma TouchUnexplained(call: Call, present: bool, lo: int, hi: int)
    requires lo <= hi && (call.Expire? || call.Persist?)
    ensures !RunExplained(Begun(call.key, present, lo, hi), BadRun(call, present, lo, hi), call.key)
  {
    hide FormatInt, ParseInt, Run, Do, Explainable, Add64, TouchRace, FourEvents, Abs;
    var s0, p, key := Begun(call.key, present, lo, hi), Preparation(call.key, present, lo, hi), call.key;
    Prepared(key, present, lo, hi);
    RunConcat(s0, p, TouchRace(call, 1, 1, 1, lo));
    var s := Run(s0, p);
    TouchLosesUpdate(s, call, ZeroRow(lo, hi), 0, 1, 1, 1, lo);
    var t := Run(s, TouchRace(call, 1, 1, 1, lo));
    TouchesBegin(|s.history|, call, lo);
    UnexplainedAfterPreparation(
      key, present, lo, hi, FourEvents(|s.history|, call, Changed(true), 0, 1, 1, 1, lo), Abs(t.table, key));
  }

  lemma UpsertUnexplained(call: Call, lo: int, hi: int)
    requires lo <= hi && call.Set? && !call.opts.nx && !call.opts.xx
    ensures !RunExplained(Begun(call.key, false, lo, hi), BadRun(call, false, lo, hi), call.key)
  {
    hide FormatInt, ParseInt, Run, Do, Explainable, Add64, TouchRace;
    var s0 := Begun(call.key, false, lo, hi);
    UpsertLosesUpdate(s0, call, 1, 1, 1, lo);
    var events := FourEvents(0, call, Written(None, true), 0, 1, 1, 1, lo);
    assert s0.history + events == events;
  }

  lemma ShortUnexplained(call: Call, present: bool, lo: int, hi: int)
    requires lo <= hi && call.Set? && !NeverWrites(call.opts, present)
    requires (present || call.opts.nx || call.opts.xx) && call.opts.ttl > 0 && lo + call.opts.ttl <= hi
    ensures !RunExplained(Begun(call.key, present, lo, hi), BadRun(call, present, lo, hi), call.key)
  {
    hide FormatInt, ParseInt, Run, Do, Explainable, ShortRun, LazyRace;
    var s0, q, key := Begun(call.key, present, lo, hi), ShortRun(call, present, lo, hi), call.key;
    var now := lo + call.opts.ttl;
    ShortLived(call, present, lo, hi);
    RunConcat(s0, q, LazyRace(key, 1, now));
    var s := Run(s0, q);
    LazyDeletionLosesUpdate(s, key, 1, now);
    var events := LazyEvents(|s.history|, key, 1, now);
    UnexplainedAfterTurns(Abs(s0.table, key), s.history, events, key, None, 0);
    assert s.history[0..] == s.history;
  }

  /** Mixed in any way with reads, increments and guarded SETs, a call leaves every run linearizable if and
      only if it is protected: one that is not has a race with them that no order of the calls explains. */
  lemma ProtectedIsExact(call: Call, present: bool, lo: int, hi: int)
    requires lo <= hi
    ensures Protected(call, present, lo, hi) <==> AlwaysExplained(call, present, lo, hi)
  {
    hide Run, Explainable, Protected, RunExplained, BadRun;
    if Protected(call, present, lo, hi) {
      forall s0, acts | MixedRun(s0, acts, call, present, lo, hi)
        ensures RunExplained(s0, acts, call.key)
      {
        forall a | a in acts
          ensures Calm(a, call.key, call.key in s0.table, lo, hi)
        {
          assert Mixes(a, call, present, lo, hi);
        }
        CalmIsExplained(s0, acts, call.key, lo, hi);
      }
    } else {
      BadRunIsMixed(call, present, lo, hi);
      BadRunUnexplained(call, present, lo, hi);
    }
  }

  lemma CalmIsExplained(s0: State, acts: seq<Action>, key: Key, lo: int, hi: int)
    requires Quiescent(s0)
    requires key in s0.table ==> Outlasts(s0.table[key], hi)
    requires forall a :: a in acts ==> Calm(a, key, key in s0.table, lo, hi)
    ensures RunExplained(s0, acts, key)
  {
    hide Run, Explainable;
    Linearizable(s0, acts, key, lo, hi);
  }

  ghost predicate CalmRun(acts: seq<Action>, key: Key, present: bool, lo: int, hi: int) {
    forall a :: a in acts ==> Calm(a, key, present, lo, hi)
  }

  /** Given protected calls only, every run is linearizable if and only if the row that is there at the start
      outlasts the run: otherwise a GET and an increment are enough to lose the increment. */
  lemma OutlastsIsExact(s0: State, key: Key, lo: int, hi: int)
    requires Quiescent(s0) && key in s0.table && lo <= hi
    ensures Outlasts(s0.table[key], hi) <==>
            forall acts :: CalmRun(acts, key, true, lo, hi) ==> RunExplained(s0, acts, key)
  {
    hide Run, Explainable;
    if Outlasts(s0.table[key], hi) {
      forall acts | CalmRun(acts, key, true, lo, hi)
        ensures RunExplained(s0, acts, key)
      {
        CalmIsExplained(s0, acts, key, lo, hi);
      }
    } else {
      LazyDeletionLosesUpdate(s0, key, 1, hi);
      var events := LazyEvents(0, key, 1, hi);
      assert s0.history + events == events;
      assert CalmRun(LazyRace(key, 1, hi), key, true, lo, hi);
      assert !RunExplained(s0, LazyRace(key, 1, hi), key);
    }
  }
}
