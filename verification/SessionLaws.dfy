/** What a client of internal/command/router.go gets from a whole session: nothing before the password, and
    afterwards every command on data with the database it selected last, transactions included. */
module SessionLaws {
  import opened Decimal
  import opened Sessions

  const FRESH := SessionState(false, 0, "", false, [])

  // ---------------------------------------------------------------- names in any case

  /** s is the upper-case name, in any mix of cases. */
  predicate Spells(s: string, name: string) {
    && |s| == |name|
    && forall i :: 0 <= i < |s| ==>
         s[i] == name[i] || ('A' <= name[i] <= 'Z' && s[i] as int == name[i] as int - 'A' as int + 'a' as int)
  }

  lemma SpellingIsUpper(s: string, name: string)
    requires forall i :: 0 <= i < |name| ==> 'A' <= name[i] <= 'Z'
    ensures Upper(s) == name <==> Spells(s, name)
  {
    if Upper(s) == name {
      forall i | 0 <= i < |s|
        ensures s[i] == name[i] || ('A' <= name[i] <= 'Z' && s[i] as int == name[i] as int - 'A' as int + 'a' as int)
      {
        assert Upper(s)[i] == name[i];
      }
    }
  }

  lemma Names(s: string)
    ensures Upper(s) == "AUTH" <==> Spells(s, "AUTH")
    ensures Upper(s) == "PING" <==> Spells(s, "PING")
    ensures Upper(s) == "ECHO" <==> Spells(s, "ECHO")
    ensures Upper(s) == "QUIT" <==> Spells(s, "QUIT")
    ensures Upper(s) == "SELECT" <==> Spells(s, "SELECT")
    ensures Upper(s) == "CLIENT" <==> Spells(s, "CLIENT")
    ensures Upper(s) == "MULTI" <==> Spells(s, "MULTI")
    ensures Upper(s) == "EXEC" <==> Spells(s, "EXEC")
    ensures Upper(s) == "DISCARD" <==> Spells(s, "DISCARD")
    ensures Upper(s) == "DEFAULT" <==> Spells(s, "DEFAULT")
    ensures Upper(s) == "SETNAME" <==> Spells(s, "SETNAME")
    ensures Upper(s) == "GETNAME" <==> Spells(s, "GETNAME")
  {
    hide Upper, Spells;
    SpellingIsUpper(s, "AUTH");
    SpellingIsUpper(s, "PING");
    SpellingIsUpper(s, "ECHO");
    SpellingIsUpper(s, "QUIT");
    SpellingIsUpper(s, "SELECT");
    SpellingIsUpper(s, "CLIENT");
    SpellingIsUpper(s, "MULTI");
    SpellingIsUpper(s, "EXEC");
    SpellingIsUpper(s, "DISCARD");
    SpellingIsUpper(s, "DEFAULT");
    SpellingIsUpper(s, "SETNAME");
    SpellingIsUpper(s, "GETNAME");
  }

  // ---------------------------------------------------------------- before the password

  /** AUTH password, or AUTH default password. */
  predicate IsLogin(args: Args, password: string) {
    && (|args| == 2 || (|args| == 3 && Spells(args[1], "DEFAULT")))
    && Spells(args[0], "AUTH") && args[|args| - 1] == password
  }

  /** What a client that has not logged in is told. */
  predicate ToldOff(args: Args, reply: Reply) {
    if args == [] then reply == Error("ERR empty command")
    else if Spells(args[0], "PING") then reply == if |args| > 1 then BulkText(args[1]) else Simple("PONG")
    else if Spells(args[0], "QUIT") then reply == Simple("OK")
    else if Spells(args[0], "AUTH") then reply.Error?
    else reply == Error("NOAUTH Authentication required.")
  }

  lemma Stranger<W>(env: Env<W>, w: W, args: Args)
    requires env.password != "" && !IsLogin(args, env.password)
    ensures
      var o := Handle(env, FRESH, w, args);
      o.session == FRESH && o.world == w && ToldOff(args, o.reply)
  {
    hide Upper, Spells;
    if args != [] {
      Names(args[0]);
      if |args| == 3 {
        Names(args[1]);
      }
    }
  }

  lemma Login<W>(env: Env<W>, st: SessionState, w: W, args: Args)
    requires env.password != "" && IsLogin(args, env.password) && !st.inMulti && st.queued == []
    ensures Handle(env, st, w, args) == Outcome(st.(authed := true), w, Simple("OK"))
  {
    hide Upper, Spells;
    Names(args[0]);
    Names(args[1]);
  }

  predicate NoLogin(cmds: seq<Args>, password: string) {
    forall i :: 0 <= i < |cmds| ==> !IsLogin(cmds[i], password)
  }

  /** With a password set, a session without a login sees and changes nothing: the session is still fresh, the
      world is as it was, and everything but AUTH, PING and QUIT is refused. */
  lemma {:induction false} NothingWithoutLogin<W>(env: Env<W>, w: W, cmds: seq<Args>)
    requires env.password != "" && NoLogin(cmds, env.password)
    ensures
      var (st, w', replies) := HandleAll(env, FRESH, w, cmds);
      && st == FRESH && w' == w && |replies| == |cmds|
      && forall i :: 0 <= i < |cmds| ==> ToldOff(cmds[i], replies[i])
  {
    hide Handle, ToldOff, IsLogin;
    if cmds != [] {
      var n := |cmds| - 1;
      NothingWithoutLogin(env, w, cmds[..n]);
      Stranger(env, w, cmds[n]);
    }
  }

  /** The first login opens the session, and everything after it goes as in a session opened that way. */
  lemma FirstLogin<W>(env: Env<W>, w: W, before: seq<Args>, login: Args, after: seq<Args>)
    requires env.password != "" && NoLogin(before, env.password) && IsLogin(login, env.password)
    ensures
      var (st, w', replies) := HandleAll(env, FRESH.(authed := true), w, after);
      var (all, wAll, _) := HandleAll(env, FRESH, w, before + [login] + after);
      all == st && wAll == w' && st.authed
  {
    hide Handle, HandleAll, IsLogin;
    NothingWithoutLogin(env, w, before);
    Login(env, FRESH, w, login);
    OneCommand(env, FRESH, w, login);
    HandleAllSplit(env, FRESH, w, before, [login]);
    HandleAllSplit(env, FRESH, w, before + [login], after);
    StaysAuthed(env, FRESH.(authed := true), w, after);
  }

  lemma {:induction false} StaysAuthed<W>(env: Env<W>, st: SessionState, w: W, cmds: seq<Args>)
    requires SessionInv(env, st) && st.authed
    ensures HandleAll(env, st, w, cmds).0.authed
  {
    hide Handle;
    if cmds != [] {
      var n := |cmds| - 1;
      StaysAuthed(env, st, w, cmds[..n]);
      SessionsKeepInv(env, st, w, cmds[..n]);
      var (st1, w1, _) := HandleAll(env, st, w, cmds[..n]);
      AuthedNext(env, st1, w1, cmds[n]);
    }
  }

  lemma AuthedNext<W>(env: Env<W>, st: SessionState, w: W, args: Args)
    requires SessionInv(env, st) && st.authed
    ensures Handle(env, st, w, args).session.authed
  {
    if args != [] && Upper(args[0]) == "EXEC" && st.inMulti {
      ExecuteAllPlain(env, st.(inMulti := false, queued := []), w, st.queued);
    }
  }

  /** A session is authenticated if and only if there is a password and it has sent it. */
  lemma AuthedIffLogin<W>(env: Env<W>, w: W, cmds: seq<Args>)
    ensures HandleAll(env, FRESH, w, cmds).0.authed <==> env.password != "" && !NoLogin(cmds, env.password)
  {
    hide HandleAll, IsLogin;
    if env.password == "" {
      NoPassword(env, w, cmds);
    } else if NoLogin(cmds, env.password) {
      NothingWithoutLogin(env, w, cmds);
    } else {
      var i := FirstOf(cmds, env.password);
      assert cmds == cmds[..i] + [cmds[i]] + cmds[i + 1..];
      FirstLogin(env, w, cmds[..i], cmds[i], cmds[i + 1..]);
    }
  }

  lemma {:induction false} QueueWithoutPassword<W>(env: Env<W>, st: SessionState, w: W, queue: seq<Args>)
    requires env.password == "" && !st.authed && st.queued == [] && !st.inMulti && AllPlain(queue)
    ensures !ExecuteAll(env, st, w, queue).0.authed
  {
    if queue != [] {
      var n := |queue| - 1;
      QueueWithoutPassword(env, st, w, queue[..n]);
      ExecuteAllPlain(env, st, w, queue[..n]);
    }
  }

  lemma {:induction false} NoPassword<W>(env: Env<W>, w: W, cmds: seq<Args>)
    requires env.password == ""
    ensures !HandleAll(env, FRESH, w, cmds).0.authed
  {
    if cmds != [] {
      var n := |cmds| - 1;
      NoPassword(env, w, cmds[..n]);
      SessionsKeepInv(env, FRESH, w, cmds[..n]);
      var (st, w1, _) := HandleAll(env, FRESH, w, cmds[..n]);
      if st.inMulti {
        QueueWithoutPassword(env, st.(inMulti := false, queued := []), w1, st.queued);
      }
    }
  }

  lemma {:induction false} FirstOf(cmds: seq<Args>, password: string) returns (i: nat)
    requires !NoLogin(cmds, password)
    ensures i < |cmds| && IsLogin(cmds[i], password) && NoLogin(cmds[..i], password)
  {
    hide IsLogin;
    var n := |cmds| - 1;
    if NoLogin(cmds[..n], password) {
      i := n;
    } else {
      i := FirstOf(cmds[..n], password);
      assert cmds[..n][..i] == cmds[..i];
    }
  }

  // ---------------------------------------------------------------- what takes effect

  /** The commands that have taken effect, in order, and the transaction that is still open. */
  datatype Flat = Flat(done: seq<Args>, open: bool, queue: seq<Args>)

  /** A transaction takes effect at its EXEC, command by command, and not at all if it is discarded. */
  function Flatten(cmds: seq<Args>): Flat {
    if cmds == [] then Flat([], false, [])
    else
      var n := |cmds| - 1;
      var f, args := Flatten(cmds[..n]), cmds[n];
      if args == [] then f
      else if Spells(args[0], "MULTI") then Flat(f.done, true, f.queue)
      else if Spells(args[0], "DISCARD") then Flat(f.done, false, [])
      else if Spells(args[0], "EXEC") then Flat(f.done + f.queue, false, [])
      else if f.open && !Spells(args[0], "QUIT") then f.(queue := f.queue + [args])
      else f.(done := f.done + [args])
  }

  /** SELECT with a number that is accepted. */
  function Selected(args: Args): Option<int> {
    if |args| != 2 || !Spells(args[0], "SELECT") then None
    else match ParseInt(args[1]) case None => None case Some(n) => if n < 0 then None else Some(n)
  }

  /** The number of the last accepted SELECT, or 0. */
  function LastDb(done: seq<Args>): int {
    if done == [] then 0
    else
      var n := |done| - 1;
      if Selected(done[n]).Some? then Selected(done[n]).value else LastDb(done[..n])
  }

  predicate SetsName(args: Args) {
    |args| >= 3 && Spells(args[0], "CLIENT") && Spells(args[1], "SETNAME")
  }

  /** The name of the last CLIENT SETNAME, or none. */
  function LastName(done: seq<Args>): string {
    if done == [] then ""
    else
      var n := |done| - 1;
      if SetsName(done[n]) then done[n][2] else LastName(done[..n])
  }

  /** Commands about the session itself, which leave the data alone. */
  predicate AboutSession(args: Args)
    requires args != []
  {
    || Spells(args[0], "AUTH") || Spells(args[0], "PING") || Spells(args[0], "ECHO") || Spells(args[0], "QUIT")
    || Spells(args[0], "SELECT") || Spells(args[0], "CLIENT")
  }

  /** Every other command on the data, in order, with the number selected last. */
  function Effects<W>(env: Env<W>, w: W, done: seq<Args>): W {
    if done == [] then w
    else
      var n := |done| - 1;
      var w1 := Effects(env, w, done[..n]);
      if done[n] == [] || AboutSession(done[n]) then w1 else env.data(w1, LastDb(done[..n]), done[n]).0
  }

  /** What a session looks like after these commands. */
  predicate After(st: SessionState, done: seq<Args>) {
    st.db == LastDb(done) && st.name == LastName(done)
  }

  /** One command that runs now. */
  lemma ExecuteEffect<W>(env: Env<W>, st: SessionState, w: W, w0: W, done: seq<Args>, args: Args)
    requires (Plain(args) || (args != [] && Upper(args[0]) == "QUIT")) && NonEmptyQueue(st)
    requires After(st, done) && w == Effects(env, w0, done)
    ensures
      var o := Execute(env, st, w, args);
      && After(o.session, done + [args]) && o.world == Effects(env, w0, done + [args])
      && o.session.inMulti == st.inMulti && o.session.queued == st.queued
  {
    hide Upper, Spells, SessionCommand, Selected, SetsName;
    Names(args[0]);
    Settings(env, st, args);
    var all := done + [args];
    assert all[..|all| - 1] == done;
  }

  /** SELECT and CLIENT SETNAME set what they say, and no other command sets any of it. */
  lemma Settings<W>(env: Env<W>, st: SessionState, args: Args)
    requires args != []
    ensures
      var st' := if IsSessionCommand(Upper(args[0])) then SessionCommand(env, st, args).0 else st;
      && st'.db == (if Selected(args).Some? then Selected(args).value else st.db)
      && st'.name == (if SetsName(args) then args[2] else st.name)
  {
    hide Upper, Spells, ParseInt;
    Names(args[0]);
    if |args| > 1 {
      Names(args[1]);
    }
  }

  lemma {:induction false} QueueEffect<W>(
      env: Env<W>, st: SessionState, w: W, w0: W, done: seq<Args>, queue: seq<Args>)
    requires st.queued == [] && !st.inMulti && AllPlain(queue)
    requires After(st, done) && w == Effects(env, w0, done)
    ensures
      var (st', w', replies) := ExecuteAll(env, st, w, queue);
      && After(st', done + queue) && w' == Effects(env, w0, done + queue)
      && !st'.inMulti && st'.queued == []
  {
    hide Execute, Effects, After, Plain;
    if queue == [] {
      assert done + queue == done;
    } else {
      var n := |queue| - 1;
      QueueEffect(env, st, w, w0, done, queue[..n]);
      var (st1, w1, _) := ExecuteAll(env, st, w, queue[..n]);
      ExecuteEffect(env, st1, w1, w0, done + queue[..n], queue[n]);
      assert done + queue[..n] + [queue[n]] == done + queue;
    }
  }

  /** The session and the world after commands that flatten to f. */
  ghost predicate Reached<W>(env: Env<W>, w0: W, st: SessionState, w: W, f: Flat) {
    && After(st, f.done) && w == Effects(env, w0, f.done)
    && st.inMulti == f.open && st.queued == f.queue
  }

  lemma HandleEffect<W>(env: Env<W>, w0: W, st: SessionState, w: W, cmds: seq<Args>, args: Args)
    requires MayRun(env, st) && SessionInv(env, st) && Reached(env, w0, st, w, Flatten(cmds))
    ensures
      var o := Handle(env, st, w, args);
      Reached(env, w0, o.session, o.world, Flatten(cmds + [args]))
  {
    hide Upper, Spells, Effects, LastDb, LastName, SessionCommand;
    assert (cmds + [args])[..|cmds|] == cmds;
    var f := Flatten(cmds);
    assert f.done + [] == f.done;
    if args != [] {
      Names(args[0]);
      if Upper(args[0]) == "EXEC" && st.inMulti {
        QueueEffect(env, st.(inMulti := false, queued := []), w, w0, f.done, st.queued);
      } else if Upper(args[0]) == "QUIT" || (!IsTransactional(Upper(args[0])) && !st.inMulti) {
        ExecuteEffect(env, st, w, w0, f.done, args);
      }
    }
  }

  /** A session that may run commands, from its start: the world is the effect of the flattened commands, each
      on the database selected last, and the session holds that number, the last name and the open queue. */
  lemma {:induction false} SessionEffect<W>(env: Env<W>, st: SessionState, w: W, cmds: seq<Args>)
    requires MayRun(env, st) && st.db == 0 && st.name == "" && !st.inMulti && st.queued == []
    ensures
      var (st', w', _) := HandleAll(env, st, w, cmds);
      Reached(env, w, st', w', Flatten(cmds)) && MayRun(env, st')
  {
    hide Handle;
    if cmds != [] {
      var n := |cmds| - 1;
      SessionEffect(env, st, w, cmds[..n]);
      SessionsKeepInv(env, st, w, cmds[..n]);
      var (st1, w1, _) := HandleAll(env, st, w, cmds[..n]);
      HandleEffect(env, w, st1, w1, cmds[..n], cmds[n]);
      assert cmds[..n] + [cmds[n]] == cmds;
      if st1.authed {
        AuthedNext(env, st1, w1, cmds[n]);
      }
    }
  }

  /** With a password set, that is the effect of what comes after the first login, and of nothing before it. */
  lemma LoginEffect<W>(env: Env<W>, w: W, before: seq<Args>, login: Args, after: seq<Args>)
    requires env.password != "" && NoLogin(before, env.password) && IsLogin(login, env.password)
    ensures
      var (st, w', _) := HandleAll(env, FRESH, w, before + [login] + after);
      Reached(env, w, st, w', Flatten(after)) && st.authed
  {
    hide HandleAll, Reached, IsLogin;
    FirstLogin(env, w, before, login, after);
    SessionEffect(env, FRESH.(authed := true), w, after);
  }

  /** The replies of such a session outside a transaction: a command on data replies as it does on that world and
      that database, PING and ECHO give back their argument, and CLIENT GETNAME the last name. */
  lemma RepliesNow<W>(env: Env<W>, st: SessionState, w: W, cmds: seq<Args>, args: Args)
    requires MayRun(env, st) && st.db == 0 && st.name == "" && !st.inMulti && st.queued == []
    requires !Flatten(cmds).open && Plain(args)
    ensures
      var (st', w', _) := HandleAll(env, st, w, cmds);
      var reply, done := Handle(env, st', w', args).reply, Flatten(cmds).done;
      && (!AboutSession(args) ==> reply == env.data(Effects(env, w, done), LastDb(done), args).1)
      && (Spells(args[0], "PING") ==> reply == if |args| > 1 then BulkText(args[1]) else Simple("PONG"))
      && (Spells(args[0], "ECHO") && |args| == 2 ==> reply == BulkText(args[1]))
      && (Spells(args[0], "SELECT") && Selected(args).Some? ==> reply == Simple("OK"))
      && (Spells(args[0], "CLIENT") && |args| == 2 && Spells(args[1], "GETNAME") ==>
            reply == if LastName(done) == "" then NullBulk else BulkText(LastName(done)))
  {
    hide HandleAll, Flatten, Effects, LastDb, LastName, Upper, Spells, ParseInt;
    SessionEffect(env, st, w, cmds);
    SessionsKeepInv(env, st, w, cmds);
    Names(args[0]);
    if |args| > 1 {
      Names(args[1]);
    }
  }
}
