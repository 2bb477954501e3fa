/** The optimistic write protocol of internal/store/d1store: every command is a SELECT followed by one
    guarded statement, with no transaction around the two.  Each client is a small state machine whose
    steps are single SQL statements, and a run interleaves the clients in any order.

    Times are milliseconds.  A step carries the clock reading its client takes between two statements. */
module D1Protocol {
  import opened Decimal
  import opened StoreTypes

  type Client = nat

  datatype Kind = StringKind | ZSetKind

  datatype Row = Row(
    kind: Kind, data: string, expiresAt: Option<int>, version: int, createdAt: int, updatedAt: int)

  type Table = map<Key, Row>

  datatype Call =
    | Get(key: Key)
    | Set(key: Key, value: string, opts: SetOptions)
    | IncrBy(key: Key, delta: int64)
    | Delete(key: Key)
    | Expire(key: Key, ttl: int)
    | Persist(key: Key)

  datatype Reply =
    | Value(data: Option<string>)
    | Written(previous: Option<string>, wrote: bool)
    | Number(n: int64)
    | Deleted(count: nat)
    | Changed(ok: bool)
    | WrongType
    | NotInt
    | Conflict   // the guarded UPDATE changed no row
    | Duplicate  // the INSERT hit the primary key

  /** One statement on the row of the call's key. */
  datatype Stmt =
    | InsertOrIgnore(row: Row)
    | Insert(row: Row)
    | Upsert(row: Row)
    | SetWhere(data: string, expiresAt: Option<int>, version: int, now: int, expected: int)
    | IncrWhere(data: string, version: int, now: int, expected: int)
    | Touch(expiresAt: Option<int>, version: int, now: int)
    | DeleteRow

  datatype Outcome = Changes(n: nat) | Violation

  function ExecStmt(table: Table, key: Key, stmt: Stmt): (Table, Outcome) {
    match stmt
    case InsertOrIgnore(row) =>
      if key in table then (table, Changes(0)) else (table[key := row], Changes(1))
    case Insert(row) =>
      if key in table then (table, Violation) else (table[key := row], Changes(1))
    case Upsert(row) =>
      if key in table then
        (table[key := row.(createdAt := table[key].createdAt)], Changes(1))
      else (table[key := row], Changes(1))
    case SetWhere(data, expiresAt, version, now, expected) =>
      if key in table && table[key].version == expected then
        (table[key := table[key].(kind := StringKind, data := data, expiresAt := expiresAt,
                                  version := version, updatedAt := now)], Changes(1))
      else (table, Changes(0))
    case IncrWhere(data, version, now, expected) =>
      if key in table && table[key].version == expected then
        (table[key := table[key].(data := data, version := version, updatedAt := now)], Changes(1))
      else (table, Changes(0))
    case Touch(expiresAt, version, now) =>
      if key in table then
        (table[key := table[key].(expiresAt := expiresAt, version := version, updatedAt := now)], Changes(1))
      else (table, Changes(0))
    case DeleteRow =>
      if key in table then (table - {key}, Changes(1)) else (table, Changes(0))
  }

  /** What a client does once it knows the live row: answer, or issue its one write. */
  datatype Decision = Answer(reply: Reply) | Issue(stmt: Stmt)

  function Plan(call: Call, seen: Option<Row>, now: int): Decision {
    match call
    case Get(_) =>
      if seen.None? then Answer(Value(None))
      else if seen.value.kind != StringKind then Answer(WrongType)
      else Answer(Value(Some(seen.value.data)))
    case Set(_, value, opts) => PlanSet(value, opts, seen, now)
    case IncrBy(_, delta) => PlanIncr(delta, seen, now)
    case Delete(_) => Issue(DeleteRow)
    case Expire(_, ttl) =>
      if seen.None? then Answer(Changed(false))
      else Issue(Touch(Some(now + ttl), seen.value.version + 1, now))
    case Persist(_) =>
      if seen.None? || seen.value.expiresAt.None? then Answer(Changed(false))
      else Issue(Touch(None, seen.value.version + 1, now))
  }

  function PlanSet(value: string, opts: SetOptions, seen: Option<Row>, now: int): Decision {
    if opts.nx && seen.Some? then Answer(Written(Some(seen.value.data), false))
    else if opts.xx && seen.None? then Answer(Written(None, false))
    else if seen.Some? && seen.value.kind != StringKind then Answer(WrongType)
    else
      var kept := if opts.keepTTL && seen.Some? then seen.value.expiresAt else None;
      var expires := if opts.ttl > 0 then Some(now + opts.ttl) else kept;
      if opts.nx then Issue(InsertOrIgnore(Row(StringKind, value, expires, 1, now, now)))
      else if seen.Some? then
        Issue(SetWhere(value, expires, seen.value.version + 1, now, seen.value.version))
      else Issue(Upsert(Row(StringKind, value, expires, 1, now, now)))
  }

  function PlanIncr(delta: int64, seen: Option<Row>, now: int): Decision {
    if seen.None? then
      Issue(Insert(Row(StringKind, FormatInt(delta), None, 1, now, now)))
    else if seen.value.kind != StringKind then Answer(WrongType)
    else
      match ParseInt(seen.value.data)
      case None => Answer(NotInt)
      case Some(current) =>
        Issue(IncrWhere(FormatInt(Add64(current, delta)), seen.value.version + 1, now, seen.value.version))
  }

  /** The reply a client gives once its write has reported. */
  function Finish(call: Call, seen: Option<Row>, outcome: Outcome): Reply {
    match call
    case Get(_) => Value(None)
    case Set(_, _, opts) =>
      if opts.nx then Written(None, outcome == Changes(1))
      else if seen.Some? then
        (if outcome == Changes(1) then Written(Some(seen.value.data), true) else Conflict)
      else Written(None, true)
    case IncrBy(_, delta) =>
      if outcome.Violation? then Duplicate
      else if outcome == Changes(0) then Conflict
      else Number(Add64(Current(seen), delta))
    case Delete(_) => Deleted(if outcome.Changes? then outcome.n else 0)
    case Expire(_, _) => Changed(outcome == Changes(1))
    case Persist(_) => Changed(outcome == Changes(1))
  }

  function Current(seen: Option<Row>): int64 {
    if seen.None? then 0
    else match ParseInt(seen.value.data) case None => 0 case Some(n) => n
  }

  // ---------------------------------------------------------------- clients and runs

  datatype Phase =
    | Idle
    | Reading(call: Call, begun: nat)
    | Purging(call: Call, begun: nat)
    | Writing(call: Call, begun: nat, seen: Option<Row>, stmt: Stmt, since: nat, at: int)

  /** A finished call.  The lengths of the history when the call began, when it read the row and when it was
      done are `begun`, `since` and `done`; `at` is the clock reading it decided with.  (DEL reads no clock.) */
  datatype Event = Event(client: Client, call: Call, reply: Reply, begun: nat, since: nat, done: nat, at: int)

  datatype State = State(table: Table, phases: map<Client, Phase>, history: seq<Event>)

  datatype Action = Begin(client: Client, call: Call) | Step(client: Client, now: int)

  function PhaseOf(s: State, c: Client): Phase {
    if c in s.phases then s.phases[c] else Idle
  }

  function Lookup(table: Table, key: Key): Option<Row> {
    if key in table then Some(table[key]) else None
  }

  function Reported(s: State, c: Client, call: Call, begun: nat, reply: Reply, since: nat, at: int): State {
    var e := Event(c, call, reply, begun, since, |s.history|, at);
    s.(phases := s.phases[c := Idle], history := s.history + [e])
  }

  function Settle(s: State, c: Client, call: Call, begun: nat, seen: Option<Row>, now: int): State {
    match Plan(call, seen, now)
    case Answer(reply) => Reported(s, c, call, begun, reply, |s.history|, now)
    case Issue(stmt) => s.(phases := s.phases[c := Writing(call, begun, seen, stmt, |s.history|, now)])
  }

  /** One step of one client.  An action that does not apply changes nothing. */
  function Do(s: State, a: Action): State {
    match a
    case Begin(c, call) =>
      if PhaseOf(s, c) != Idle then s
      else if call.Delete? then Settle(s, c, call, |s.history|, None, 0)
      else s.(phases := s.phases[c := Reading(call, |s.history|)])
    case Step(c, now) =>
      match PhaseOf(s, c)
      case Idle => s
      case Reading(call, begun) =>
        var seen := Lookup(s.table, call.key);
        if seen.Some? && Passed(seen.value.expiresAt, now) then s.(phases := s.phases[c := Purging(call, begun)])
        else Settle(s, c, call, begun, seen, now)
      case Purging(call, begun) => Settle(s.(table := s.table - {call.key}), c, call, begun, None, now)
      case Writing(call, begun, seen, stmt, since, at) =>
        var (table, outcome) := ExecStmt(s.table, call.key, stmt);
        Reported(s.(table := table), c, call, begun, Finish(call, seen, outcome), since, at)
  }

  function Run(s: State, acts: seq<Action>): State {
    if acts == [] then s else Do(Run(s, acts[..|acts| - 1]), acts[|acts| - 1])
  }

  // ---------------------------------------------------------------- the sequential reference

  /** What one key holds when commands run one at a time. */
  datatype Cell = Cell(kind: Kind, data: string, expiresAt: Option<int>)

  function Abs(table: Table, key: Key): Option<Cell> {
    if key in table then Some(Cell(table[key].kind, table[key].data, table[key].expiresAt)) else None
  }

  /** A cell past its expiry counts as gone. */
  function Live(st: Option<Cell>, now: int): Option<Cell> {
    if st.Some? && Passed(st.value.expiresAt, now) then None else st
  }

  /** The atomic command at a time: new contents and reply.  Every command first drops a cell that is past
      its expiry, except DEL, which looks at no clock and counts it. */
  function Atomic(st: Option<Cell>, call: Call, now: int): (Option<Cell>, Reply) {
    if call.Delete? then (None, Deleted(if st.Some? then 1 else 0)) else OnLive(Live(st, now), call, now)
  }

  function OnLive(st: Option<Cell>, call: Call, now: int): (Option<Cell>, Reply)
    requires !call.Delete?
  {
    match call
    case Get(_) =>
      if st.None? then (st, Value(None))
      else if st.value.kind == ZSetKind then (st, WrongType)
      else (st, Value(Some(st.value.data)))
    case Set(_, value, opts) =>
      if opts.nx && st.Some? then (st, Written(Some(st.value.data), false))
      else if opts.xx && st.None? then (st, Written(None, false))
      else if st.Some? && st.value.kind == ZSetKind then (st, WrongType)
      else
        var kept := if opts.keepTTL && st.Some? then st.value.expiresAt else None;
        var expires := if opts.ttl > 0 then Some(now + opts.ttl) else kept;
        (Some(Cell(StringKind, value, expires)), Written(if st.Some? then Some(st.value.data) else None, true))
    case IncrBy(_, delta) =>
      if st.None? then (Some(Cell(StringKind, FormatInt(delta), None)), Number(delta))
      else if st.value.kind == ZSetKind then (st, WrongType)
      else
        (match ParseInt(st.value.data)
         case None => (st, NotInt)
         case Some(n) => (Some(st.value.(data := FormatInt(Add64(n, delta)))), Number(Add64(n, delta))))
    case Expire(_, ttl) =>
      if st.None? then (st, Changed(false)) else (Some(st.value.(expiresAt := Some(now + ttl))), Changed(true))
    case Persist(_) =>
      if st.None? || st.value.expiresAt.None? then (st, Changed(false))
      else (Some(st.value.(expiresAt := None)), Changed(true))
  }

  predicate Failed(e: Event) {
    e.reply.Conflict? || e.reply.Duplicate?
  }

  function After(st: Option<Cell>, e: Event): Option<Cell> {
    if Failed(e) then st else Atomic(st, e.call, e.at).0
  }

  /** The reply is the atomic command's, or a reported failure.  A SET NX that loses the race to the
      INSERT reports "not written" without the value that beat it. */
  predicate Explained(st: Option<Cell>, e: Event) {
    || Failed(e)
    || e.reply == Atomic(st, e.call, e.at).1
    || (e.call.Set? && e.call.opts.nx && Live(st, e.at).Some? && e.reply == Written(None, false))
  }

  function Replay(st: Option<Cell>, h: seq<Event>, key: Key): Option<Cell> {
    if h == [] then st
    else
      var before := Replay(st, h[..|h| - 1], key);
      var e := h[|h| - 1];
      if e.call.key == key then After(before, e) else before
  }

  predicate IsWrite(e: Event, key: Key) {
    e.call.key == key && (e.reply.Number? || (e.reply.Written? && e.reply.wrote))
  }

  function Writes(h: seq<Event>, key: Key): nat {
    if h == [] then 0
    else Writes(h[..|h| - 1], key) + if IsWrite(h[|h| - 1], key) then 1 else 0
  }

  /** Every completed call on the key, taken in completion order, replies as the atomic commands do. */
  predicate Legal(st: Option<Cell>, h: seq<Event>, key: Key) {
    h == [] ||
    var before, e := h[..|h| - 1], h[|h| - 1];
    Legal(st, before, key) && (e.call.key == key ==> Explained(Replay(st, before, key), e))
  }

  /** An order of the completed calls that puts no call before one that was done when it began. */
  ghost predicate Linearizes(g: seq<Event>, h: seq<Event>) {
    multiset(g) == multiset(h) && forall x, y :: 0 <= x < y < |g| ==> g[x].begun <= g[y].done
  }

  /** Some such order is legal from the contents `st` and leaves the contents `end`. */
  ghost predicate Explainable(st: Option<Cell>, h: seq<Event>, key: Key, end: Option<Cell>) {
    exists g :: Linearizes(g, h) && Legal(st, g, key) && Replay(st, g, key) == end
  }

  /** No call on the key found it past its expiry. */
  predicate NeverPassed(st: Option<Cell>, h: seq<Event>, key: Key) {
    h == [] ||
    var before, e := h[..|h| - 1], h[|h| - 1];
    NeverPassed(st, before, key) &&
    (e.call.key == key ==> Live(Replay(st, before, key), e.at) == Replay(st, before, key))
  }

  /** A call fails only when another call wrote the key after this call read it. */
  ghost predicate FailuresJustified(h: seq<Event>, key: Key) {
    forall i :: 0 <= i < |h| && h[i].call.key == key && Failed(h[i]) ==>
      exists j :: h[i].since <= j < i && IsWrite(h[j], key)
  }

  // ---------------------------------------------------------------- the runs the protocol protects

  /** SET with both NX and XX, or with NX on a key that stays present, never writes. */
  predicate NeverWrites(opts: SetOptions, present: bool) {
    opts.nx && (opts.xx || present)
  }

  /** Calls the protocol serialises on a key: reads, increments, and SET, unless it may take the upsert
      path or sets an expiry inside the window [lo, hi] of clock readings. */
  predicate Protected(call: Call, present: bool, lo: int, hi: int) {
    || call.Get?
    || call.IncrBy?
    || (call.Set? && NeverWrites(call.opts, present))
    || (call.Set? && (present || call.opts.nx || call.opts.xx) && (call.opts.ttl <= 0 || lo + call.opts.ttl > hi))
  }

  predicate Calm(a: Action, key: Key, present: bool, lo: int, hi: int) {
    match a
    case Begin(_, call) => call.key == key ==> Protected(call, present, lo, hi)
    case Step(_, now) => lo <= now <= hi
  }

  predicate Outlasts(row: Row, hi: int) {
    row.expiresAt.None? || row.expiresAt.value > hi
  }

  predicate Quiescent(s: State) {
    s.phases == map[] && s.history == []
  }

  function BaseVersion(table: Table, key: Key): int {
    if key in table then table[key].version else 0
  }

  ghost predicate PhaseOk(s: State, c: Client, key: Key, s0: State, lo: int, hi: int) {
    match PhaseOf(s, c)
    case Idle => true
    case Reading(call, _) => call.key == key ==> Protected(call, key in s0.table, lo, hi)
    case Purging(call, _) => call.key != key
    case Writing(call, _, seen, stmt, since, at) =>
      call.key == key ==>
        && Protected(call, key in s0.table, lo, hi)
        && since <= |s.history|
        && lo <= at <= hi && Plan(call, seen, at) == Issue(stmt)
        && (if seen.Some? then
              && key in s.table
              && Outlasts(seen.value, hi)
              && seen.value.version == BaseVersion(s0.table, key) + Writes(s.history[..since], key)
              && seen.value.version <= s.table[key].version
              && (seen.value.version == s.table[key].version ==> seen.value == s.table[key])
            else key !in s0.table && Writes(s.history[..since], key) == 0)
  }

  ghost predicate TableOk(s: State, key: Key, s0: State, hi: int) {
    && (key in s.table ==>
          && Outlasts(s.table[key], hi)
          && s.table[key].version == BaseVersion(s0.table, key) + Writes(s.history, key)
          && (key in s0.table || Writes(s.history, key) > 0))
    && (key !in s.table ==> key !in s0.table && Writes(s.history, key) == 0)
    && Abs(s.table, key) == Replay(Abs(s0.table, key), s.history, key)
  }

  ghost predicate Inv(s: State, key: Key, s0: State, lo: int, hi: int) {
    && TableOk(s, key, s0, hi)
    && (forall c :: PhaseOk(s, c, key, s0, lo, hi))
    && Legal(Abs(s0.table, key), s.history, key)
    && NeverPassed(Abs(s0.table, key), s.history, key)
    && FailuresJustified(s.history, key)
  }

  // ---------------------------------------------------------------- history lemmas

  lemma {:induction false} WritesSplit(h: seq<Event>, n: nat, key: Key)
    requires n <= |h|
    ensures Writes(h[..n], key) <= Writes(h, key)
    ensures Writes(h[..n], key) < Writes(h, key) ==> exists j :: n <= j < |h| && IsWrite(h[j], key)
  {
    if n == |h| {
      assert h[..n] == h;
    } else {
      var g := h[..|h| - 1];
      assert g[..n] == h[..n];
      WritesSplit(g, n, key);
    }
  }

  /** What appending one event does to every history predicate. */
  lemma AppendEvent(h: seq<Event>, e: Event, key: Key, st: Option<Cell>)
    requires Legal(st, h, key) && NeverPassed(st, h, key) && FailuresJustified(h, key)
    requires e.call.key == key ==>
      Explained(Replay(st, h, key), e) && Live(Replay(st, h, key), e.at) == Replay(st, h, key)
    requires e.call.key == key && Failed(e) ==> exists j :: e.since <= j < |h| && IsWrite(h[j], key)
    ensures Legal(st, h + [e], key) && NeverPassed(st, h + [e], key) && FailuresJustified(h + [e], key)
    ensures Replay(st, h + [e], key) ==
            if e.call.key == key then After(Replay(st, h, key), e) else Replay(st, h, key)
    ensures Writes(h + [e], key) == Writes(h, key) + if IsWrite(e, key) then 1 else 0
    ensures forall n :: 0 <= n <= |h| ==> (h + [e])[..n] == h[..n]
  {
    var g := h + [e];
    assert g[..|h|] == h;
    forall i | 0 <= i < |g| && g[i].call.key == key && Failed(g[i])
      ensures exists j :: g[i].since <= j < i && IsWrite(g[j], key)
    {
      var j :| g[i].since <= j < i && IsWrite(h[j], key);
      assert IsWrite(g[j], key);
    }
  }

  // ---------------------------------------------------------------- one step

  /** A client that reports a reply without writing the key keeps the invariant. */
  lemma ReportKeeps(s: State, c: Client, call: Call, begun: nat, reply: Reply, since: nat, at: int,
                    key: Key, s0: State, lo: int, hi: int)
    requires Inv(s, key, s0, lo, hi)
    requires call.key == key ==>
      var e := Event(c, call, reply, begun, since, |s.history|, at);
      && at <= hi
      && !IsWrite(e, key)
      && Explained(Abs(s.table, key), e)
      && After(Abs(s.table, key), e) == Abs(s.table, key)
      && (Failed(e) ==> exists j :: since <= j < |s.history| && IsWrite(s.history[j], key))
    ensures Inv(Reported(s, c, call, begun, reply, since, at), key, s0, lo, hi)
  {
    hide Protected, Plan, Atomic, Replay, Legal, NeverPassed, Writes;
    var e := Event(c, call, reply, begun, since, |s.history|, at);
    AppendEvent(s.history, e, key, Abs(s0.table, key));
    var t := Reported(s, c, call, begun, reply, since, at);
    forall d ensures PhaseOk(t, d, key, s0, lo, hi) {
      assert PhaseOk(s, d, key, s0, lo, hi);
    }
  }

  /** Work on another key leaves everything about this key alone. */
  lemma OtherKey(s: State, table: Table, key: Key, s0: State, lo: int, hi: int)
    requires Inv(s, key, s0, lo, hi)
    requires Lookup(table, key) == Lookup(s.table, key)
    ensures Inv(s.(table := table), key, s0, lo, hi)
  {
    var t := s.(table := table);
    forall d ensures PhaseOk(t, d, key, s0, lo, hi) {
      assert PhaseOk(s, d, key, s0, lo, hi);
    }
  }

  lemma PhaseChange(s: State, c: Client, phase: Phase, key: Key, s0: State, lo: int, hi: int)
    requires Inv(s, key, s0, lo, hi)
    requires PhaseOk(s.(phases := s.phases[c := phase]), c, key, s0, lo, hi)
    ensures Inv(s.(phases := s.phases[c := phase]), key, s0, lo, hi)
  {
    var t := s.(phases := s.phases[c := phase]);
    forall d ensures PhaseOk(t, d, key, s0, lo, hi) {
      assert PhaseOk(s, d, key, s0, lo, hi);
    }
  }

  /** Reading the current row and deciding, for a call on the protected key. */
  lemma SettleKeeps(s: State, c: Client, call: Call, begun: nat, now: int, key: Key, s0: State, lo: int, hi: int)
    requires Inv(s, key, s0, lo, hi)
    requires call.key == key && Protected(call, key in s0.table, lo, hi) && lo <= now <= hi
    ensures Inv(Settle(s, c, call, begun, Lookup(s.table, key), now), key, s0, lo, hi)
  {
    var seen := Lookup(s.table, key);
    match Plan(call, seen, now)
    case Answer(reply) =>
      ReportKeeps(s, c, call, begun, reply, |s.history|, now, key, s0, lo, hi);
    case Issue(stmt) =>
      assert s.history[..|s.history|] == s.history;
      PhaseChange(s, c, Writing(call, begun, seen, stmt, |s.history|, now), key, s0, lo, hi);
  }

  /** Another client's pending write stays consistent when the row moves to the next version. */
  lemma PhaseAfterWrite(s: State, t: State, d: Client, key: Key, s0: State, lo: int, hi: int)
    requires PhaseOk(s, d, key, s0, lo, hi)
    requires PhaseOf(t, d) == PhaseOf(s, d) || PhaseOf(t, d).Idle?
    requires key in t.table && t.table[key].version == BaseVersion(s.table, key) + 1
    requires |s.history| <= |t.history|
    requires forall n :: 0 <= n <= |s.history| ==> t.history[..n] == s.history[..n]
    ensures PhaseOk(t, d, key, s0, lo, hi)
  {
  }

  /** A guarded write that went through: the row it read was still current. */
  lemma WriteKeeps(s: State, c: Client, call: Call, begun: nat, reply: Reply, since: nat, at: int, row: Row,
                   key: Key, s0: State, lo: int, hi: int)
    requires Inv(s, key, s0, lo, hi)
    requires call.key == key && at <= hi
    requires Outlasts(row, hi) && row.version == BaseVersion(s.table, key) + 1
    requires reply.Number? || (reply.Written? && reply.wrote)
    requires Atomic(Abs(s.table, key), call, at) == (Some(Cell(row.kind, row.data, row.expiresAt)), reply)
    ensures Inv(Reported(s.(table := s.table[key := row]), c, call, begun, reply, since, at), key, s0, lo, hi)
  {
    hide Protected, Plan, Legal, NeverPassed;
    var e := Event(c, call, reply, begun, since, |s.history|, at);
    AppendEvent(s.history, e, key, Abs(s0.table, key));
    var t := Reported(s.(table := s.table[key := row]), c, call, begun, reply, since, at);
    assert TableOk(t, key, s0, hi);
    forall d ensures PhaseOk(t, d, key, s0, lo, hi) {
      PhaseAfterWrite(s, t, d, key, s0, lo, hi);
    }
  }

  /** What a planned write does to the table it finds, given that equal versions mean equal rows. */
  lemma PlannedWrite(table: Table, call: Call, seen: Option<Row>, stmt: Stmt, at: int, present: bool, lo: int, hi: int)
    requires lo <= at <= hi && Protected(call, present, lo, hi)
    requires Plan(call, seen, at) == Issue(stmt)
    requires seen.None? ==> !present
    requires call.key in table ==> Outlasts(table[call.key], hi)
    requires seen.Some? ==>
      && call.key in table && Outlasts(seen.value, hi)
      && (seen.value.version == table[call.key].version ==> seen.value == table[call.key])
    ensures
      var key := call.key;
      var (after, outcome) := ExecStmt(table, key, stmt);
      var reply := Finish(call, seen, outcome);
      if outcome == Changes(1) then
        && key in after && after == table[key := after[key]]
        && Outlasts(after[key], hi) && after[key].version == BaseVersion(table, key) + 1
        && (reply.Number? || (reply.Written? && reply.wrote))
        && Atomic(Abs(table, key), call, at) == (Abs(after, key), reply)
      else
        && after == table && key in table
        && (seen.Some? ==> seen.value.version != table[key].version)
        && (reply.Conflict? || reply.Duplicate? ||
            (call.Set? && call.opts.nx && reply == Written(None, false)))
  {
  }

  lemma WritingKeeps(s: State, c: Client, key: Key, s0: State, lo: int, hi: int, now: int)
    requires Inv(s, key, s0, lo, hi)
    requires PhaseOf(s, c).Writing? && PhaseOf(s, c).call.key == key
    ensures Inv(Do(s, Step(c, now)), key, s0, lo, hi)
  {
    hide ExecStmt, Finish, Plan, Replay;
    assert PhaseOk(s, c, key, s0, lo, hi);
    var Writing(call, begun, seen, stmt, since, at) := PhaseOf(s, c);
    PlannedWrite(s.table, call, seen, stmt, at, key in s0.table, lo, hi);
    var (table, outcome) := ExecStmt(s.table, key, stmt);
    var reply := Finish(call, seen, outcome);
    if outcome == Changes(1) {
      WriteKeeps(s, c, call, begun, reply, since, at, table[key], key, s0, lo, hi);
    } else {
      WritesSplit(s.history, since, key);
      ReportKeeps(s, c, call, begun, reply, since, at, key, s0, lo, hi);
    }
  }

  lemma StepKeeps(s: State, a: Action, key: Key, s0: State, lo: int, hi: int)
    requires Inv(s, key, s0, lo, hi)
    requires Calm(a, key, key in s0.table, lo, hi)
    ensures Inv(Do(s, a), key, s0, lo, hi)
  {
    hide Legal, NeverPassed, Replay, Writes, Finish;
    match a
    case Begin(c, call) =>
      if PhaseOf(s, c) == Idle {
        if call.Delete? {
          PhaseChange(s, c, Writing(call, |s.history|, None, DeleteRow, |s.history|, 0), key, s0, lo, hi);
        } else {
          PhaseChange(s, c, Reading(call, |s.history|), key, s0, lo, hi);
        }
      }
    case Step(c, now) =>
      assert PhaseOk(s, c, key, s0, lo, hi);
      match PhaseOf(s, c)
      case Idle =>
      case Reading(call, begun) =>
        if call.key == key {
          SettleKeeps(s, c, call, begun, now, key, s0, lo, hi);
        } else {
          var seen := Lookup(s.table, call.key);
          if seen.Some? && Passed(seen.value.expiresAt, now) {
            PhaseChange(s, c, Purging(call, begun), key, s0, lo, hi);
          } else {
            SettleElsewhere(s, c, call, begun, seen, now, key, s0, lo, hi);
          }
        }
      case Purging(call, begun) =>
        OtherKey(s, s.table - {call.key}, key, s0, lo, hi);
        SettleElsewhere(s.(table := s.table - {call.key}), c, call, begun, None, now, key, s0, lo, hi);
      case Writing(call, begun, seen, stmt, since, at) =>
        if call.key == key {
          WritingKeeps(s, c, key, s0, lo, hi, now);
        } else {
          var (table, outcome) := ExecStmt(s.table, call.key, stmt);
          OtherKey(s, table, key, s0, lo, hi);
          ReportKeeps(s.(table := table), c, call, begun, Finish(call, seen, outcome), since, at, key, s0, lo, hi);
        }
  }

  lemma SettleElsewhere(s: State, c: Client, call: Call, begun: nat, seen: Option<Row>, now: int,
                        key: Key, s0: State, lo: int, hi: int)
    requires Inv(s, key, s0, lo, hi) && call.key != key
    ensures Inv(Settle(s, c, call, begun, seen, now), key, s0, lo, hi)
  {
    match Plan(call, seen, now)
    case Answer(reply) => ReportKeeps(s, c, call, begun, reply, |s.history|, now, key, s0, lo, hi);
    case Issue(stmt) => PhaseChange(s, c, Writing(call, begun, seen, stmt, |s.history|, now), key, s0, lo, hi);
  }

  lemma {:induction false} RunKeeps(s0: State, acts: seq<Action>, key: Key, lo: int, hi: int)
    requires Quiescent(s0)
    requires key in s0.table ==> Outlasts(s0.table[key], hi)
    requires forall a :: a in acts ==> Calm(a, key, key in s0.table, lo, hi)
    ensures Inv(Run(s0, acts), key, s0, lo, hi)
  {
    if acts != [] {
      var n := |acts| - 1;
      assert forall a :: a in acts[..n] ==> a in acts;
      RunKeeps(s0, acts[..n], key, lo, hi);
      assert acts[n] in acts;
      StepKeeps(Run(s0, acts[..n]), acts[n], key, s0, lo, hi);
    }
  }

  // ---------------------------------------------------------------- completion order is an order

  ghost predicate Stamped(s: State) {
    && (forall i :: 0 <= i < |s.history| ==> s.history[i].begun <= i == s.history[i].done)
    && (forall c :: c in s.phases && s.phases[c] != Idle ==> s.phases[c].begun <= |s.history|)
  }

  lemma StepStamps(s: State, a: Action)
    requires Stamped(s)
    ensures Stamped(Do(s, a))
  {
    hide Plan, ExecStmt, Finish;
  }

  lemma {:induction false} RunStamps(s0: State, acts: seq<Action>)
    requires Quiescent(s0)
    ensures Stamped(Run(s0, acts))
  {
    hide Do;
    if acts != [] {
      RunStamps(s0, acts[..|acts| - 1]);
      StepStamps(Run(s0, acts[..|acts| - 1]), acts[|acts| - 1]);
    }
  }

  // ---------------------------------------------------------------- the theorems

  /** In every interleaving the completed calls on the key, in completion order, are a legal sequential
      history that ends in the stored row; the version counts the successful writes; and a call reports a
      conflict only when some other call wrote the key after this one read it. */
  lemma Linearizable(s0: State, acts: seq<Action>, key: Key, lo: int, hi: int)
    requires Quiescent(s0)
    requires key in s0.table ==> Outlasts(s0.table[key], hi)
    requires forall a :: a in acts ==> Calm(a, key, key in s0.table, lo, hi)
    ensures
      var s := Run(s0, acts);
      && Legal(Abs(s0.table, key), s.history, key)
      && Abs(s.table, key) == Replay(Abs(s0.table, key), s.history, key)
      && BaseVersion(s.table, key) == BaseVersion(s0.table, key) + Writes(s.history, key)
      && FailuresJustified(s.history, key)
      && NeverPassed(Abs(s0.table, key), s.history, key)
      && Explainable(Abs(s0.table, key), s.history, key, Abs(s.table, key))
  {
    hide Run, Legal, NeverPassed, Replay;
    RunKeeps(s0, acts, key, lo, hi);
    RunStamps(s0, acts);
    assert Linearizes(Run(s0, acts).history, Run(s0, acts).history);
  }
}
