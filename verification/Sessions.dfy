/** Sessions and transactions of internal/command/router.go: authentication, database selection, and the
    MULTI / EXEC / DISCARD queue.  The commands that read and write the store and the cache are a
    parameter: whatever they do to the shared world, the theorems below hold of it. */
module Sessions {
  import opened Decimal

  type Args = seq<string>

  datatype Reply =
    | Simple(text: string)
    | Error(text: string)
    | BulkText(text: string)
    | NullBulk
    | Items(replies: seq<Reply>)
    | Raw(bytes: string)

  /** The fields of a Session. */
  datatype SessionState = SessionState(authed: bool, db: int, name: string, inMulti: bool, queued: seq<Args>)

  /** The router's password and its data commands: world, database and arguments to world and reply. */
  datatype Env<!W> = Env(password: string, data: (W, int, Args) -> (W, Reply))

  datatype Outcome<W> = Outcome(session: SessionState, world: W, reply: Reply)

  function UpperChar(c: char): char {
    if 'a' <= c <= 'z' then c - 'a' + 'A' else c
  }

  /** strings.ToUpper, on ASCII letters. */
  function Upper(s: string): string {
    seq(|s|, i requires 0 <= i < |s| => UpperChar(s[i]))
  }

  predicate IsTransactional(cmd: string) {
    cmd == "EXEC" || cmd == "DISCARD" || cmd == "MULTI" || cmd == "QUIT"
  }

  predicate AllNonEmpty(queue: seq<Args>) {
    forall i :: 0 <= i < |queue| ==> queue[i] != []
  }

  predicate NonEmptyQueue(st: SessionState) {
    AllNonEmpty(st.queued)
  }

  // ---------------------------------------------------------------- the router as functions

  function Auth<W>(env: Env<W>, st: SessionState, args: Args): (SessionState, Reply)
    requires args != []
  {
    if |args| != 2 && |args| != 3 then
      (st, Error("ERR wrong number of arguments for 'auth' command"))
    else if |args| == 3 && Upper(args[1]) != "DEFAULT" then
      (st, Error("WRONGPASS Redge only supports the default Redis user."))
    else if env.password == "" || args[|args| - 1] != env.password then
      (st, Error("WRONGPASS invalid username-password pair or user is disabled."))
    else (st.(authed := true), Simple("OK"))
  }

  function SelectDb(st: SessionState, args: Args): (SessionState, Reply) {
    if |args| != 2 then (st, Error("ERR wrong number of arguments for 'select' command"))
    else
      match ParseInt(args[1])
      case None => (st, Error("ERR invalid DB index"))
      case Some(db) =>
        if db < 0 then (st, Error("ERR invalid DB index")) else (st.(db := db), Simple("OK"))
  }

  function ClientCommand(st: SessionState, args: Args): (SessionState, Reply) {
    if |args| >= 3 && Upper(args[1]) == "SETNAME" then (st.(name := args[2]), Simple("OK"))
    else if |args| >= 2 && Upper(args[1]) == "GETNAME" then
      (st, if st.name == "" then NullBulk else BulkText(st.name))
    else (st, Error("ERR unsupported CLIENT subcommand"))
  }

  /** The commands that touch neither the queue nor the world. */
  predicate IsSessionCommand(cmd: string) {
    cmd == "AUTH" || cmd == "PING" || cmd == "ECHO" || cmd == "QUIT" || cmd == "SELECT" || cmd == "CLIENT"
  }

  function SessionCommand<W>(env: Env<W>, st: SessionState, args: Args): (r: (SessionState, Reply))
    requires args != [] && IsSessionCommand(Upper(args[0]))
    ensures r.0.inMulti == st.inMulti && r.0.queued == st.queued && (st.authed ==> r.0.authed)
  {
    var cmd := Upper(args[0]);
    if cmd == "AUTH" then Auth(env, st, args)
    else if cmd == "PING" then (st, if |args| > 1 then BulkText(args[1]) else Simple("PONG"))
    else if cmd == "ECHO" then
      (st, if |args| != 2 then Error("ERR wrong number of arguments for 'echo' command") else BulkText(args[1]))
    else if cmd == "QUIT" then (st, Simple("OK"))
    else if cmd == "SELECT" then SelectDb(st, args)
    else ClientCommand(st, args)
  }

  function Execute<W>(env: Env<W>, st: SessionState, w: W, args: Args): (r: Outcome<W>)
    requires args != [] && NonEmptyQueue(st)
    ensures NonEmptyQueue(r.session) && |r.session.queued| <= |st.queued|
    decreases |st.queued|, 0
  {
    var cmd := Upper(args[0]);
    if IsSessionCommand(cmd) then
      var (st', reply) := SessionCommand(env, st, args);
      Outcome(st', w, reply)
    else if cmd == "MULTI" then
      if st.inMulti then Outcome(st, w, Error("ERR MULTI calls can not be nested"))
      else Outcome(st.(inMulti := true, queued := []), w, Simple("OK"))
    else if cmd == "DISCARD" then
      if !st.inMulti then Outcome(st, w, Error("ERR DISCARD without MULTI"))
      else Outcome(st.(inMulti := false, queued := []), w, Simple("OK"))
    else if cmd == "EXEC" then
      if !st.inMulti then Outcome(st, w, Error("ERR EXEC without MULTI"))
      else if st.queued == [] then Outcome(st.(inMulti := false), w, Items([]))
      else
        var (st', w', replies) := ExecuteAll(env, st.(inMulti := false, queued := []), w, st.queued);
        Outcome(st', w', Items(replies))
    else
      var (w', reply) := env.data(w, st.db, args);
      Outcome(st, w', reply)
  }

  /** The loop of EXEC: the queue, in order, through execute. */
  function ExecuteAll<W>(env: Env<W>, st: SessionState, w: W, queue: seq<Args>): (r: (SessionState, W, seq<Reply>))
    requires st.queued == [] && AllNonEmpty(queue)
    ensures r.0.queued == []
    decreases |st.queued|, |queue|
  {
    if queue == [] then (st, w, [])
    else
      var n := |queue| - 1;
      var (st1, w1, replies) := ExecuteAll(env, st, w, queue[..n]);
      var o := Execute(env, st1, w1, queue[n]);
      (o.session, o.world, replies + [o.reply])
  }

  function Handle<W>(env: Env<W>, st: SessionState, w: W, args: Args): (r: Outcome<W>)
    requires NonEmptyQueue(st)
    ensures NonEmptyQueue(r.session)
  {
    if args == [] then Outcome(st, w, Error("ERR empty command"))
    else
      var cmd := Upper(args[0]);
      if env.password != "" && !st.authed && cmd != "AUTH" && cmd != "PING" && cmd != "QUIT" then
        Outcome(st, w, Error("NOAUTH Authentication required."))
      else if st.inMulti && !IsTransactional(cmd) then
        Outcome(st.(queued := st.queued + [args]), w, Simple("QUEUED"))
      else Execute(env, st, w, args)
  }

  /** A client sending commands one after another. */
  function HandleAll<W>(env: Env<W>, st: SessionState, w: W, cmds: seq<Args>): (r: (SessionState, W, seq<Reply>))
    requires NonEmptyQueue(st)
    ensures NonEmptyQueue(r.0)
  {
    if cmds == [] then (st, w, [])
    else
      var n := |cmds| - 1;
      var (st1, w1, replies) := HandleAll(env, st, w, cmds[..n]);
      var o := Handle(env, st1, w1, cmds[n]);
      (o.session, o.world, replies + [o.reply])
  }

  // ---------------------------------------------------------------- the router as it runs

  class Session {
    var authed: bool
    var db: int
    var name: string
    var inMulti: bool
    var queued: seq<Args>

    constructor ()
      ensures State() == SessionState(false, 0, "", false, [])
    {
      authed, db, name, inMulti, queued := false, 0, "", false, [];
    }

    function State(): SessionState
      reads this
    {
      SessionState(authed, db, name, inMulti, queued)
    }

    method Store(st: SessionState)
      modifies this
      ensures State() == st
    {
      authed, db, name, inMulti, queued := st.authed, st.db, st.name, st.inMulti, st.queued;
    }
  }

  class Router<W> {
    const env: Env<W>
    var world: W

    constructor (env: Env<W>, world: W)
      ensures this.env == env && this.world == world
    {
      this.env := env;
      this.world := world;
    }

    method HandleCommand(s: Session, args: Args) returns (reply: Reply)
      requires NonEmptyQueue(s.State())
      modifies s, this`world
      ensures Outcome(s.State(), world, reply) == Handle(env, old(s.State()), old(world), args)
    {
      if args == [] {
        return Error("ERR empty command");
      }
      var cmd := Upper(args[0]);
      if env.password != "" && !s.authed && cmd != "AUTH" && cmd != "PING" && cmd != "QUIT" {
        return Error("NOAUTH Authentication required.");
      }
      if s.inMulti && cmd != "EXEC" && cmd != "DISCARD" && cmd != "MULTI" && cmd != "QUIT" {
        s.queued := s.queued + [args];
        return Simple("QUEUED");
      }
      reply := ExecuteCommand(s, args);
    }

    method ExecuteCommand(s: Session, args: Args) returns (reply: Reply)
      requires args != [] && NonEmptyQueue(s.State())
      modifies s, this`world
      ensures Outcome(s.State(), world, reply) == Execute(env, old(s.State()), old(world), args)
      decreases |s.queued|
    {
      hide SessionCommand, Upper;
      var cmd := Upper(args[0]);
      if IsSessionCommand(cmd) {
        var (st, r) := SessionCommand(env, s.State(), args);
        s.Store(st);
        return r;
      } else if cmd == "MULTI" {
        if s.inMulti {
          return Error("ERR MULTI calls can not be nested");
        }
        s.inMulti := true;
        s.queued := [];
        return Simple("OK");
      } else if cmd == "DISCARD" {
        if !s.inMulti {
          return Error("ERR DISCARD without MULTI");
        }
        s.inMulti := false;
        s.queued := [];
        return Simple("OK");
      } else if cmd == "EXEC" {
        if !s.inMulti {
          return Error("ERR EXEC without MULTI");
        }
        var queue := s.queued;
        s.inMulti := false;
        s.queued := [];
        var start, w := s.State(), world;
        var items: seq<Reply> := [];
        for i := 0 to |queue|
          invariant s.queued == []
          invariant (s.State(), world, items) == ExecuteAll(env, start, w, queue[..i])
        {
          assert queue[..i + 1][..i] == queue[..i];
          var item := ExecuteCommand(s, queue[i]);
          items := items + [item];
        }
        assert queue[..|queue|] == queue;
        return Items(items);
      } else {
        var (w', r) := env.data(world, s.db, args);
        world := w';
        return r;
      }
    }
  }

  // ---------------------------------------------------------------- what every session keeps

  /** Outside MULTI the queue is empty; inside it the client is authenticated, or there is no password;
      and the queue holds no empty command and none of MULTI, EXEC, DISCARD and QUIT. */
  predicate SessionInv<W>(env: Env<W>, st: SessionState) {
    && (!st.inMulti ==> st.queued == [])
    && (st.inMulti ==> st.authed || env.password == "")
    && AllPlain(st.queued)
  }

  predicate AllPlain(queue: seq<Args>) {
    AllNonEmpty(queue) && forall i :: 0 <= i < |queue| ==> Plain(queue[i])
  }

  predicate Plain(args: Args) {
    args != [] && !IsTransactional(Upper(args[0]))
  }

  /** A plain command never starts, ends or fills a transaction. */
  lemma ExecutePlain<W>(env: Env<W>, st: SessionState, w: W, args: Args)
    requires Plain(args) && NonEmptyQueue(st)
    ensures
      var o := Execute(env, st, w, args);
      o.session.inMulti == st.inMulti && o.session.queued == st.queued && (st.authed ==> o.session.authed)
  {
  }

  lemma {:induction false} ExecuteAllPlain<W>(env: Env<W>, st: SessionState, w: W, queue: seq<Args>)
    requires st.queued == [] && !st.inMulti && AllPlain(queue)
    ensures
      var (st', _, replies) := ExecuteAll(env, st, w, queue);
      !st'.inMulti && (st.authed ==> st'.authed) && |replies| == |queue|
  {
    if queue != [] {
      var n := |queue| - 1;
      ExecuteAllPlain(env, st, w, queue[..n]);
      var (st1, w1, _) := ExecuteAll(env, st, w, queue[..n]);
      ExecutePlain(env, st1, w1, queue[n]);
    }
  }

  lemma HandleKeeps<W>(env: Env<W>, st: SessionState, w: W, args: Args)
    requires SessionInv(env, st)
    ensures SessionInv(env, Handle(env, st, w, args).session)
  {
    if args != [] && Upper(args[0]) == "EXEC" && st.inMulti {
      ExecuteAllPlain(env, st.(inMulti := false, queued := []), w, st.queued);
    }
  }

  /** Every session reached from a fresh one keeps the invariant. */
  lemma {:induction false} SessionsKeepInv<W>(env: Env<W>, st: SessionState, w: W, cmds: seq<Args>)
    requires SessionInv(env, st)
    ensures SessionInv(env, HandleAll(env, st, w, cmds).0)
  {
    if cmds != [] {
      var n := |cmds| - 1;
      SessionsKeepInv(env, st, w, cmds[..n]);
      var (st1, w1, _) := HandleAll(env, st, w, cmds[..n]);
      HandleKeeps(env, st1, w1, cmds[n]);
    }
  }

  // ---------------------------------------------------------------- MULTI ... EXEC

  predicate MayRun<W>(env: Env<W>, st: SessionState) {
    env.password == "" || st.authed
  }

  lemma {:induction false} HandleAllSplit<W>(env: Env<W>, st: SessionState, w: W, a: seq<Args>, b: seq<Args>)
    requires NonEmptyQueue(st)
    ensures
      var (st1, w1, r1) := HandleAll(env, st, w, a);
      var (st2, w2, r2) := HandleAll(env, st1, w1, b);
      HandleAll(env, st, w, a + b) == (st2, w2, r1 + r2)
  {
    hide Handle;
    var (st1, w1, r1) := HandleAll(env, st, w, a);
    if b == [] {
      assert a + b == a;
      assert r1 + [] == r1;
    } else {
      var n := |b| - 1;
      HandleAllSplit(env, st, w, a, b[..n]);
      assert (a + b)[..|a + b| - 1] == a + b[..n];
      var (_, _, r2) := HandleAll(env, st1, w1, b[..n]);
      var o := Handle(env, HandleAll(env, st1, w1, b[..n]).0, HandleAll(env, st1, w1, b[..n]).1, b[n]);
      assert r1 + r2 + [o.reply] == r1 + (r2 + [o.reply]);
    }
  }

  function Acks(n: nat): seq<Reply> {
    if n == 0 then [] else Acks(n - 1) + [Simple("QUEUED")]
  }

  /** Inside MULTI the plain commands are queued, in order, and do nothing else. */
  lemma {:induction false} QueueAll<W>(env: Env<W>, st: SessionState, w: W, cmds: seq<Args>)
    requires MayRun(env, st) && st.inMulti && st.queued == []
    requires AllPlain(cmds)
    ensures HandleAll(env, st, w, cmds) == (st.(queued := cmds), w, Acks(|cmds|))
  {
    hide Execute, Upper;
    if cmds == [] {
      assert st.(queued := cmds) == st;
    } else {
      var n := |cmds| - 1;
      QueueAll(env, st, w, cmds[..n]);
      assert cmds[..n] + [cmds[n]] == cmds;
    }
  }

  /** Outside MULTI, sending plain commands is executing them. */
  lemma {:induction false} SendIsExecute<W>(env: Env<W>, st: SessionState, w: W, cmds: seq<Args>)
    requires MayRun(env, st) && !st.inMulti && st.queued == []
    requires AllPlain(cmds)
    ensures HandleAll(env, st, w, cmds) == ExecuteAll(env, st, w, cmds)
  {
    if cmds != [] {
      var n := |cmds| - 1;
      SendIsExecute(env, st, w, cmds[..n]);
      ExecuteAllPlain(env, st, w, cmds[..n]);
    }
  }

  /** MULTI, and then n plain commands: they wait in the queue. */
  lemma MultiQueues<W>(env: Env<W>, st: SessionState, w: W, cmds: seq<Args>)
    requires SessionInv(env, st) && MayRun(env, st) && !st.inMulti && AllPlain(cmds)
    ensures HandleAll(env, st, w, [["MULTI"]] + cmds) ==
            (st.(inMulti := true, queued := cmds), w, [Simple("OK")] + Acks(|cmds|))
  {
    hide HandleAll;
    OneCommand(env, st, w, ["MULTI"]);
    NamesAreUpper();
    QueueAll(env, st.(inMulti := true), w, cmds);
    HandleAllSplit(env, st, w, [["MULTI"]], cmds);
  }

  /** EXEC runs the queue as if its commands were sent now. */
  lemma ExecRuns<W>(env: Env<W>, st: SessionState, w: W, cmds: seq<Args>)
    requires SessionInv(env, st) && MayRun(env, st) && !st.inMulti && AllPlain(cmds)
    ensures
      var (direct, dw, replies) := HandleAll(env, st, w, cmds);
      Handle(env, st.(inMulti := true, queued := cmds), w, ["EXEC"]) == Outcome(direct, dw, Items(replies))
  {
    NamesAreUpper();
    SendIsExecute(env, st, w, cmds);
    var full := st.(inMulti := true, queued := cmds);
    assert full.(inMulti := false, queued := []) == st;
    if cmds == [] {
      assert full.(inMulti := false) == st;
    }
  }

  /** MULTI c1 .. cn EXEC leaves the session, the store and the cache exactly as sending c1 .. cn does, and
      EXEC replies with the array of the same n replies. */
  lemma MultiExecIsSending<W>(env: Env<W>, st: SessionState, w: W, cmds: seq<Args>)
    requires SessionInv(env, st) && MayRun(env, st) && !st.inMulti && AllPlain(cmds)
    ensures
      var (direct, dw, replies) := HandleAll(env, st, w, cmds);
      HandleAll(env, st, w, [["MULTI"]] + cmds + [["EXEC"]]) ==
        (direct, dw, [Simple("OK")] + Acks(|cmds|) + [Items(replies)])
  {
    hide HandleAll, Handle;
    MultiQueues(env, st, w, cmds);
    ExecRuns(env, st, w, cmds);
    OneCommand(env, st.(inMulti := true, queued := cmds), w, ["EXEC"]);
    HandleAllSplit(env, st, w, [["MULTI"]] + cmds, [["EXEC"]]);
  }

  /** MULTI c1 .. cn DISCARD changes nothing at all. */
  lemma MultiDiscardIsNothing<W>(env: Env<W>, st: SessionState, w: W, cmds: seq<Args>)
    requires SessionInv(env, st) && MayRun(env, st) && !st.inMulti && AllPlain(cmds)
    ensures HandleAll(env, st, w, [["MULTI"]] + cmds + [["DISCARD"]]).0 == st
    ensures HandleAll(env, st, w, [["MULTI"]] + cmds + [["DISCARD"]]).1 == w
  {
    hide HandleAll;
    MultiQueues(env, st, w, cmds);
    NamesAreUpper();
    OneCommand(env, st.(inMulti := true, queued := cmds), w, ["DISCARD"]);
    HandleAllSplit(env, st, w, [["MULTI"]] + cmds, [["DISCARD"]]);
  }

  lemma OneCommand<W>(env: Env<W>, st: SessionState, w: W, args: Args)
    requires NonEmptyQueue(st)
    ensures
      var o := Handle(env, st, w, args);
      HandleAll(env, st, w, [args]) == (o.session, o.world, [o.reply])
  {
    assert [args][..0] == [];
    assert HandleAll(env, st, w, []) == (st, w, []);
    assert [] + [Handle(env, st, w, args).reply] == [Handle(env, st, w, args).reply];
  }

  lemma NamesAreUpper()
    ensures Upper("MULTI") == "MULTI" && Upper("EXEC") == "EXEC" && Upper("DISCARD") == "DISCARD"
  {
  }
}
