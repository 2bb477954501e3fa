/** What the reference of D1Protocol is worth: calls of every kind, at any clock readings, that run one after
    another always leave a legal history.  So a history that is not legal takes a race. */
module D1Sequential {
  import opened Decimal
  import opened StoreTypes
  import opened D1Protocol
  import opened D1Unchecked

  /** A call with all its steps, of which the longest takes three: read, delete an expired row, write. */
  datatype Turn = Turn(client: Client, call: Call, now: int)

  function Whole(u: Turn): seq<Action> {
    [Begin(u.client, u.call), Step(u.client, u.now)] + [Step(u.client, u.now), Step(u.client, u.now)]
  }

  function OneByOne(turns: seq<Turn>): seq<Action> {
    if turns == [] then [] else OneByOne(turns[..|turns| - 1]) + Whole(turns[|turns| - 1])
  }

  ghost predicate AllIdle(s: State) {
    forall c :: PhaseOf(s, c) == Idle
  }

  ghost predicate OthersIdle(s: State, c: Client) {
    forall d :: d != c ==> PhaseOf(s, d) == Idle
  }

  /** Only client c has moved, and it is idle again. */
  lemma IdleAgain(s: State, t: State, c: Client)
    requires OthersIdle(s, c) && PhaseOf(t, c) == Idle
    requires forall d :: d != c ==> (d in t.phases <==> d in s.phases)
    requires forall d :: d != c && d in s.phases ==> t.phases[d] == s.phases[d]
    ensures AllIdle(t)
  {
    forall d
      ensures PhaseOf(t, d) == Idle
    {
      if d != c {
        assert PhaseOf(s, d) == Idle;
      }
    }
  }

  lemma OthersStayIdle(s: State, c: Client, p: Phase)
    requires OthersIdle(s, c)
    ensures OthersIdle(Enter(s, c, p), c)
  {
    forall d | d != c
      ensures PhaseOf(Enter(s, c, p), d) == Idle
    {
      assert PhaseOf(s, d) == Idle;
    }
  }

  function ClockOf(u: Turn): int {
    if u.call.Delete? then 0 else u.now
  }

  /** One more event, and the key's contents, are what the atomic command makes of them. */
  ghost predicate TurnTaken(s: State, t: State, u: Turn) {
    var at, h := ClockOf(u), |s.history|;
    var (st, reply) := Atomic(Abs(s.table, u.call.key), u.call, at);
    && AllIdle(t)
    && t.history == s.history + [Event(u.client, u.call, reply, h, h, h, at)]
    && Abs(t.table, u.call.key) == st
    && forall k :: k != u.call.key ==> Abs(t.table, k) == Abs(s.table, k)
  }

  // ---------------------------------------------------------------- one call

  /** What a client that reads the row and writes at once does is the atomic command. */
  lemma UndisturbedIsAtomic(table: Table, call: Call, now: int)
    requires !call.Delete?
    requires call.key in table ==> !Passed(table[call.key].expiresAt, now)
    ensures
      var seen, st := Lookup(table, call.key), Abs(table, call.key);
      match Plan(call, seen, now)
      case Answer(reply) => Atomic(st, call, now) == (st, reply)
      case Issue(stmt) =>
        var (after, outcome) := ExecStmt(table, call.key, stmt);
        && Atomic(st, call, now) == (Abs(after, call.key), Finish(call, seen, outcome))
        && forall k :: k != call.key ==> Abs(after, k) == Abs(table, k)
  {
    hide FormatInt, ParseInt, Add64;
    if call.IncrBy? {
      AddZero(call.delta);
    }
  }

  /** From the reading of the row on: decide, and write if there is something to write. */
  lemma SettleAndWrite(s: State, c: Client, call: Call, now: int)
    requires !call.Delete? && OthersIdle(s, c)
    requires call.key in s.table ==> !Passed(s.table[call.key].expiresAt, now)
    ensures
      var t := Do(Settle(s, c, call, |s.history|, Lookup(s.table, call.key), now), Step(c, now));
      TurnTaken(s, t, Turn(c, call, now)) && Do(t, Step(c, now)) == t
  {
    hide Plan, ExecStmt, Finish, Atomic, Abs;
    UndisturbedIsAtomic(s.table, call, now);
    IdleAgain(s, Do(Settle(s, c, call, |s.history|, Lookup(s.table, call.key), now), Step(c, now)), c);
  }

  lemma RunWhole(s: State, u: Turn)
    ensures
      var step := Step(u.client, u.now);
      Run(s, Whole(u)) == Do(Do(Do(Do(s, Begin(u.client, u.call)), step), step), step)
  {
    hide Do;
    var begin, step := Begin(u.client, u.call), Step(u.client, u.now);
    RunConcat(s, [begin, step], [step, step]);
    RunTwo(s, begin, step);
    RunTwo(Run(s, [begin, step]), step, step);
  }

  lemma DeleteTurn(s: State, u: Turn)
    requires AllIdle(s) && u.call.Delete?
    ensures TurnTaken(s, Run(s, Whole(u)), u)
  {
    hide Run;
    RunWhole(s, u);
    var p := Writing(u.call, |s.history|, None, DeleteRow, |s.history|, 0);
    assert Do(s, Begin(u.client, u.call)) == Enter(s, u.client, p);
    IdleAgain(s, Run(s, Whole(u)), u.client);
  }

  lemma PurgeTurn(s: State, u: Turn)
    requires AllIdle(s) && !u.call.Delete?
    requires u.call.key in s.table && Passed(s.table[u.call.key].expiresAt, u.now)
    ensures TurnTaken(s, Run(s, Whole(u)), u)
  {
    hide Run, Plan, OnLive;
    RunWhole(s, u);
    var c, call, now := u.client, u.call, u.now;
    var purging := Enter(Enter(s, c, Reading(call, |s.history|)), c, Purging(call, |s.history|));
    var bare := purging.(table := s.table - {call.key});
    OthersStayIdle(s, c, Reading(call, |s.history|));
    OthersStayIdle(Enter(s, c, Reading(call, |s.history|)), c, Purging(call, |s.history|));
    assert OthersIdle(bare, c) by {
      forall d | d != c
        ensures PhaseOf(bare, d) == Idle
      {
        assert PhaseOf(purging, d) == Idle;
      }
    }
    SettleAndWrite(bare, c, call, now);
    hide Settle;
    assert Do(Do(s, Begin(c, call)), Step(c, now)) == purging;
    assert Do(purging, Step(c, now)) == Settle(bare, c, call, |s.history|, None, now);
  }

  lemma PlainTurn(s: State, u: Turn)
    requires AllIdle(s) && !u.call.Delete?
    requires u.call.key in s.table ==> !Passed(s.table[u.call.key].expiresAt, u.now)
    ensures TurnTaken(s, Run(s, Whole(u)), u)
  {
    hide Run, Plan, Atomic;
    RunWhole(s, u);
    var c, call, now := u.client, u.call, u.now;
    var reading := Enter(s, c, Reading(call, |s.history|));
    OthersStayIdle(s, c, Reading(call, |s.history|));
    SettleAndWrite(reading, c, call, now);
    hide Settle;
    assert Do(s, Begin(c, call)) == reading;
    assert Do(reading, Step(c, now)) == Settle(reading, c, call, |s.history|, Lookup(s.table, call.key), now);
  }

  lemma WholeTurn(s: State, u: Turn)
    requires AllIdle(s)
    ensures TurnTaken(s, Run(s, Whole(u)), u)
  {
    hide Run, Whole, TurnTaken;
    if u.call.Delete? {
      DeleteTurn(s, u);
    } else if u.call.key in s.table && Passed(s.table[u.call.key].expiresAt, u.now) {
      PurgeTurn(s, u);
    } else {
      PlainTurn(s, u);
    }
  }

  // ---------------------------------------------------------------- whole runs

  lemma AtomicNeverFails(st: Option<Cell>, call: Call, now: int)
    ensures !Atomic(st, call, now).1.Conflict? && !Atomic(st, call, now).1.Duplicate?
  {
  }

  lemma TurnIsLegal(s: State, t: State, u: Turn, st: Option<Cell>, key: Key)
    requires TurnTaken(s, t, u)
    requires Legal(st, s.history, key) && Replay(st, s.history, key) == Abs(s.table, key)
    ensures Legal(st, t.history, key) && Replay(st, t.history, key) == Abs(t.table, key)
  {
    hide Atomic, Abs;
    AtomicNeverFails(Abs(s.table, u.call.key), u.call, ClockOf(u));
    assert t.history[..|s.history|] == s.history;
  }

  /** One call after another, of any kind and at any clock readings, on a table with any rows, expired ones
      included: the replies are those of the atomic commands, and the row is what they leave. */
  lemma {:induction false} SequentialIsLegal(s0: State, turns: seq<Turn>, key: Key)
    requires Quiescent(s0)
    ensures
      var s := Run(s0, OneByOne(turns));
      && AllIdle(s) && |s.history| == |turns|
      && Legal(Abs(s0.table, key), s.history, key)
      && Replay(Abs(s0.table, key), s.history, key) == Abs(s.table, key)
  {
    hide Run, Whole, Atomic, Abs;
    if turns == [] {
      RunNothing(s0);
    } else {
      var before, u := turns[..|turns| - 1], turns[|turns| - 1];
      SequentialIsLegal(s0, before, key);
      RunConcat(s0, OneByOne(before), Whole(u));
      var s := Run(s0, OneByOne(before));
      WholeTurn(s, u);
      TurnIsLegal(s, Run(s, Whole(u)), u, Abs(s0.table, key), key);
    }
  }

  lemma RunNothing(s: State)
    ensures Run(s, []) == s
  {
  }
}
