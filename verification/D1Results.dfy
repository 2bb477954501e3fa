/** What the serialisation theorem of D1Protocol means for counters and for SET NX. */
module D1Results {
  import opened Decimal
  import opened StoreTypes
  import opened D1Protocol

  // ---------------------------------------------------------------- calls in a state come from the run

  ghost predicate CallsOk(s: State, key: Key, p: Call -> bool) {
    && (forall c :: PhaseOf(s, c) != Idle && PhaseOf(s, c).call.key == key ==> p(PhaseOf(s, c).call))
    && (forall e :: e in s.history && e.call.key == key ==> p(e.call))
    && (forall e :: e in s.history && e.call.Set? && e.call.opts.nx ==> !Failed(e))
  }

  /** A SET NX is never told of a conflict. */
  lemma NXNeverFails(call: Call, seen: Option<Row>, now: int, outcome: Outcome)
    requires call.Set? && call.opts.nx
    ensures Plan(call, seen, now).Answer? ==>
              !Plan(call, seen, now).reply.Conflict? && !Plan(call, seen, now).reply.Duplicate?
    ensures !Finish(call, seen, outcome).Conflict? && !Finish(call, seen, outcome).Duplicate?
  {
  }

  lemma CallsStep(s: State, a: Action, key: Key, p: Call -> bool)
    requires CallsOk(s, key, p)
    requires a.Begin? && a.call.key == key ==> p(a.call)
    ensures CallsOk(Do(s, a), key, p)
  {
    hide Finish, ExecStmt, PlanSet, PlanIncr;
    var phase := PhaseOf(s, a.client);
    if a.Step? && phase != Idle && phase.call.Set? && phase.call.opts.nx {
      match phase
      case Reading(call, _) => NXNeverFails(call, Lookup(s.table, call.key), a.now, Violation);
      case Purging(call, _) => NXNeverFails(call, None, a.now, Violation);
      case Writing(call, _, seen, stmt, _, _) =>
        NXNeverFails(call, seen, a.now, ExecStmt(s.table, call.key, stmt).1);
      case Idle =>
    }
    if a.Begin? && a.call.Delete? {
      assert Plan(a.call, None, 0) == Issue(DeleteRow);
    }
    var t := Do(s, a);
    forall c | PhaseOf(t, c) != Idle && PhaseOf(t, c).call.key == key
      ensures p(PhaseOf(t, c).call)
    {
      assert PhaseOf(s, c) != Idle && PhaseOf(s, c).call.key == key ==> p(PhaseOf(s, c).call);
    }
    assert PhaseOf(s, a.client) != Idle && PhaseOf(s, a.client).call.key == key ==>
        p(PhaseOf(s, a.client).call);
  }

  lemma {:induction false} CallsFromRun(s0: State, acts: seq<Action>, key: Key, p: Call -> bool)
    requires Quiescent(s0)
    requires forall a :: a in acts && a.Begin? && a.call.key == key ==> p(a.call)
    ensures CallsOk(Run(s0, acts), key, p)
  {
    hide Do, CallsOk;
    if acts == [] {
      CallsStart(s0, key, p);
    } else {
      var n := |acts| - 1;
      CallsFromRun(s0, acts[..n], key, p);
      assert acts[n] in acts;
      CallsStep(Run(s0, acts[..n]), acts[n], key, p);
    }
  }

  lemma CallsStart(s0: State, key: Key, p: Call -> bool)
    requires Quiescent(s0)
    ensures CallsOk(s0, key, p)
  {
  }

  // ---------------------------------------------------------------- counters

  /** The increment of a call that returned a number; 0 for every other event. */
  function Gain(e: Event, key: Key): int64 {
    if e.call.key == key && e.call.IncrBy? && e.reply.Number? then e.call.delta else 0
  }

  /** Sum of the increments of exactly the calls that returned a number. */
  function SumDeltas(h: seq<Event>, key: Key): int {
    if h == [] then 0 else SumDeltas(h[..|h| - 1], key) + Gain(h[|h| - 1], key)
  }

  /** The same sum in 64-bit arithmetic, from a start value. */
  function Total(n0: int64, h: seq<Event>, key: Key): int64 {
    if h == [] then n0 else Add64(Total(n0, h[..|h| - 1], key), Gain(h[|h| - 1], key))
  }

  function Carries(n0: int64, h: seq<Event>, key: Key): int {
    if h == [] then 0
    else Carries(n0, h[..|h| - 1], key) + Carry(Total(n0, h[..|h| - 1], key), Gain(h[|h| - 1], key))
  }

  lemma {:induction false} TotalIsWrappedSum(n0: int64, h: seq<Event>, key: Key)
    ensures n0 + SumDeltas(h, key) == Total(n0, h, key) + TWO64 * Carries(n0, h, key)
    ensures Total(n0, h, key) == Wrap64(n0 + SumDeltas(h, key))
  {
    hide Wrap64;
    if h != [] {
      TotalIsWrappedSum(n0, h[..|h| - 1], key);
    }
    WrapUnique(n0 + SumDeltas(h, key), Total(n0, h, key), Carries(n0, h, key));
  }

  predicate CounterCall(call: Call) {
    call.Get? || call.IncrBy?
  }

  predicate CounterCalls(h: seq<Event>, key: Key) {
    forall i :: 0 <= i < |h| && h[i].call.key == key ==> CounterCall(h[i].call)
  }

  /** The integer a cell holds; a missing key counts as 0. */
  function CellInt(st: Option<Cell>): Option<int64> {
    if st.None? then Some(0)
    else if st.value.kind == ZSetKind then None
    else ParseInt(st.value.data)
  }

  lemma CallsPrefix(h: seq<Event>, key: Key, n: nat)
    requires CounterCalls(h, key) && n <= |h|
    ensures CounterCalls(h[..n], key)
  {
    hide CounterCall;
  }

  /** Legality, event by event. */
  lemma {:induction false} LegalPrefix(st: Option<Cell>, h: seq<Event>, key: Key, n: nat)
    requires Legal(st, h, key) && NeverPassed(st, h, key) && n <= |h|
    ensures Legal(st, h[..n], key) && NeverPassed(st, h[..n], key)
    ensures n < |h| && h[n].call.key == key ==> Explained(Replay(st, h[..n], key), h[n])
  {
    if n == |h| {
      assert h[..n] == h;
    } else if n < |h| - 1 {
      var g := h[..|h| - 1];
      LegalPrefix(st, g, key, n);
      assert g[..n] == h[..n] && g[n] == h[n];
    }
  }

  /** One counter event against the integer it found. */
  lemma CounterStep(st: Option<Cell>, e: Event, key: Key, total: int64)
    requires e.call.key == key && CounterCall(e.call) && Explained(st, e)
    requires CellInt(st) == Some(total) && Live(st, e.at) == st
    ensures CellInt(After(st, e)) == Some(Add64(total, Gain(e, key)))
    ensures After(st, e).None? <==> st.None? && !IsWrite(e, key)
    ensures e.reply.Number? ==> e.reply.n == Add64(total, Gain(e, key))
  {
    hide FormatInt, ParseInt;
    if e.call.IncrBy? {
      AddNothing(total, e.call.delta);
      IntRoundTrip(Add64(total, e.call.delta));
    } else {
      AddNothing(0, total);
    }
  }

  lemma AddNothing(total: int64, delta: int64)
    ensures Add64(0, delta) == delta && Add64(total, 0) == total
  {
  }

  lemma {:induction false} CounterReplay(st: Option<Cell>, h: seq<Event>, key: Key, n0: int64)
    requires Legal(st, h, key) && NeverPassed(st, h, key)
    requires CounterCalls(h, key)
    requires CellInt(st) == Some(n0)
    ensures CellInt(Replay(st, h, key)) == Some(Total(n0, h, key))
    ensures Replay(st, h, key).None? <==> st.None? && Writes(h, key) == 0
    ensures h != [] && h[|h| - 1].call.key == key && h[|h| - 1].reply.Number? ==>
              h[|h| - 1].reply.n == Total(n0, h, key)
  {
    hide CellInt, After, Explained, Live, CounterCall, Add64;
    if h != [] {
      var n := |h| - 1;
      CounterReplay(st, h[..n], key, n0);
      if h[n].call.key == key {
        CounterStep(Replay(st, h[..n], key), h[n], key, Total(n0, h[..n], key));
      } else {
        AddNothing(Total(n0, h[..n], key), 0);
      }
    }
  }

  /** Every successful increment returned the running total at its place in the history. */
  ghost predicate ReturnsTotals(h: seq<Event>, key: Key, n0: int64) {
    forall i :: 0 <= i < |h| && h[i].call.key == key && h[i].reply.Number? ==>
      h[i].reply.n == Total(n0, h[..i + 1], key)
  }

  lemma RunningTotals(st: Option<Cell>, h: seq<Event>, key: Key, n0: int64)
    requires Legal(st, h, key) && NeverPassed(st, h, key)
    requires CounterCalls(h, key)
    requires CellInt(st) == Some(n0)
    ensures ReturnsTotals(h, key, n0)
  {
    hide CellInt, CounterCalls, Legal, NeverPassed, Total;
    forall i | 0 <= i < |h| && h[i].call.key == key && h[i].reply.Number?
      ensures h[i].reply.n == Total(n0, h[..i + 1], key)
    {
      LegalPrefix(st, h, key, i + 1);
      CallsPrefix(h, key, i + 1);
      CounterReplay(st, h[..i + 1], key, n0);
    }
  }

  /** Counters lose no update: whatever the interleaving, the stored integer is the start value plus the
      increments of exactly the calls that returned a number, modulo 2^64; the version rises by one for
      each of them; each returned the running total; and every other call left no trace. */
  lemma NoLostUpdate(s0: State, acts: seq<Action>, key: Key, n0: int64, lo: int, hi: int)
    requires Quiescent(s0)
    requires key in s0.table ==> Outlasts(s0.table[key], hi)
    requires CellInt(Abs(s0.table, key)) == Some(n0)
    requires forall a :: a in acts && a.Begin? && a.call.key == key ==> CounterCall(a.call)
    requires forall a :: a in acts && a.Step? ==> lo <= a.now <= hi
    ensures
      var s := Run(s0, acts);
      && CellInt(Abs(s.table, key)) == Some(Wrap64(n0 + SumDeltas(s.history, key)))
      && BaseVersion(s.table, key) == BaseVersion(s0.table, key) + Writes(s.history, key)
      && (key in s.table <==> key in s0.table || Writes(s.history, key) > 0)
      && ReturnsTotals(s.history, key, n0)
      && FailuresJustified(s.history, key)
  {
    hide Wrap64, CellInt, Run, Legal, NeverPassed, ReturnsTotals, FailuresJustified, SumDeltas, Total;
    Linearizable(s0, acts, key, lo, hi);
    CallsFromRun(s0, acts, key, CounterCall);
    var h := Run(s0, acts).history;
    assert CounterCalls(h, key);
    CounterReplay(Abs(s0.table, key), h, key, n0);
    TotalIsWrappedSum(n0, h, key);
    RunningTotals(Abs(s0.table, key), h, key, n0);
  }

  // ---------------------------------------------------------------- SET NX

  predicate NXCall(call: Call) {
    call.Set? && call.opts.nx
  }

  predicate HoldsText(st: Option<Cell>, text: string) {
    st.Some? && st.value.kind == StringKind && st.value.data == text
  }

  lemma {:induction false} WinnerReplay(h: seq<Event>, key: Key)
    requires Legal(None, h, key) && NeverPassed(None, h, key)
    requires forall e :: e in h && e.call.key == key ==> NXCall(e.call) && !Failed(e)
    ensures Writes(h, key) == if Replay(None, h, key).None? then 0 else 1
    ensures forall e :: e in h && IsWrite(e, key) ==>
              e.call.Set? && HoldsText(Replay(None, h, key), e.call.value)
    ensures forall e :: e in h && e.call.key == key && e.call.Set? && !e.call.opts.xx ==>
              Replay(None, h, key).Some?
  {
    if h != [] {
      var n := |h| - 1;
      var g, e := h[..n], h[n];
      WinnerReplay(g, key);
      assert h == g + [e];
      assert e.call.key == key ==> Explained(Replay(None, g, key), e);
      assert Writes(h, key) > 0 && IsWrite(e, key) ==> Writes(g, key) == 0;
      forall d | d in h && IsWrite(d, key)
        ensures d.call.Set? && HoldsText(Replay(None, h, key), d.call.value)
      {
        if IsWrite(e, key) && d != e {
          NoWriteIn(g, d, key);
        }
      }
    }
  }

  lemma {:induction false} NoWriteIn(h: seq<Event>, d: Event, key: Key)
    requires Writes(h, key) == 0
    ensures !(d in h && IsWrite(d, key))
  {
    if h != [] {
      assert h == h[..|h| - 1] + [h[|h| - 1]];
      NoWriteIn(h[..|h| - 1], d, key);
    }
  }

  /** SET NX elects one winner: on a key that was absent, at most one of the racing calls ever reports
      written, exactly one has as soon as any call (without XX) has finished, and the row holds its value. */
  lemma OneWinner(s0: State, acts: seq<Action>, key: Key, lo: int, hi: int)
    requires Quiescent(s0) && key !in s0.table
    requires forall a :: a in acts && a.Begin? && a.call.key == key ==>
               NXCall(a.call) && Protected(a.call, false, lo, hi)
    requires forall a :: a in acts && a.Step? ==> lo <= a.now <= hi
    ensures
      var s := Run(s0, acts);
      && Writes(s.history, key) == (if key in s.table then 1 else 0)
      && (forall e :: e in s.history && IsWrite(e, key) ==>
            && key in s.table && e.call.Set?
            && s.table[key].kind == StringKind && s.table[key].data == e.call.value)
      && (forall e :: e in s.history && e.call.key == key && e.call.Set? && !e.call.opts.xx ==> key in s.table)
  {
    Linearizable(s0, acts, key, lo, hi);
    CallsFromRun(s0, acts, key, NXCall);
    WinnerReplay(Run(s0, acts).history, key);
  }
}
