/** The per-client rate limiter of internal/docapi and internal/storeapi (the two are the same code), in
    exact real arithmetic.  Times are seconds.  The clock is read before the lock is taken, so the
    timestamps that reach the buckets need not be in order: nothing below assumes that they are, except
    where a theorem says so. */
module TokenBucket {

  datatype Bucket = Bucket(tokens: real, last: real)

  datatype Call = Call(key: string, now: real)

  class RateLimiter {
    const rate: real
    const burst: real
    var clients: map<string, Bucket>

    /** The calls so far, in the order they took the lock. */
    ghost var history: seq<Call>

    ghost predicate Valid()
      reads this
    {
      clients == Buckets(rate, burst, history)
    }

    constructor (rate: real, burst: real)
      ensures Valid() && history == [] && this.rate == rate && this.burst == burst
    {
      this.rate := rate;
      this.burst := burst;
      this.clients := map[];
      this.history := [];
    }

    method Allow(key: string, now: real) returns (ok: bool)
      requires Valid()
      modifies this
      ensures Valid() && history == old(history) + [Call(key, now)]
      ensures ok == Admitted(rate, burst, history, |old(history)|)
    {
      history := history + [Call(key, now)];
      assert history[..|old(history)|] == old(history);
      if key !in clients {
        clients := clients[key := Bucket(burst - 1.0, now)];
        return true;
      }
      var b := clients[key];
      var elapsed := now - b.last;
      var tokens := b.tokens + elapsed * rate;
      assert elapsed * rate == Accrued(rate, b.last, now);
      if tokens > burst {
        tokens := burst;
      }
      if tokens < 1.0 {
        clients := clients[key := Bucket(tokens, now)];
        return false;
      }
      clients := clients[key := Bucket(tokens - 1.0, now)];
      return true;
    }
  }

  // ---------------------------------------------------------------- histories

  function Min(a: real, b: real): real {
    if a < b then a else b
  }

  /** Tokens the rate adds between two timestamps; negative when they run backwards. */
  function Accrued(rate: real, s: real, t: real): real {
    rate * (t - s)
  }

  lemma AccruedAdd(rate: real, s: real, t: real, u: real)
    ensures Accrued(rate, s, u) == Accrued(rate, s, t) + Accrued(rate, t, u)
    ensures Accrued(rate, s, s) == 0.0
  {
  }

  /** Tokens on hand when a call arrives, before it takes one. */
  function Available(rate: real, burst: real, clients: map<string, Bucket>, call: Call): real {
    if call.key !in clients then burst
    else Min(burst, clients[call.key].tokens + Accrued(rate, clients[call.key].last, call.now))
  }

  predicate Admits(rate: real, burst: real, clients: map<string, Bucket>, call: Call) {
    call.key !in clients || Available(rate, burst, clients, call) >= 1.0
  }

  function Buckets(rate: real, burst: real, calls: seq<Call>): map<string, Bucket> {
    if calls == [] then map[]
    else
      var before := Buckets(rate, burst, calls[..|calls| - 1]);
      var call := calls[|calls| - 1];
      var tokens := Available(rate, burst, before, call);
      before[call.key := Bucket(if Admits(rate, burst, before, call) then tokens - 1.0 else tokens, call.now)]
  }

  /** The verdict on the n-th call of a history. */
  predicate Admitted(rate: real, burst: real, calls: seq<Call>, n: nat)
    requires n < |calls|
  {
    Admits(rate, burst, Buckets(rate, burst, calls[..n]), calls[n])
  }

  /** How many calls of one client are admitted among calls[i..j]. */
  function Count(rate: real, burst: real, calls: seq<Call>, key: string, i: nat, j: nat): nat
    requires i <= j <= |calls|
    decreases j
  {
    if i == j then 0
    else
      Count(rate, burst, calls, key, i, j - 1) +
      if calls[j - 1].key == key && Admitted(rate, burst, calls, j - 1) then 1 else 0
  }

  /** The client has called before call n. */
  predicate Seen(calls: seq<Call>, key: string, n: nat)
    requires n <= |calls|
  {
    exists i :: 0 <= i < n && calls[i].key == key
  }

  /** The calls of the client of calls[n] admitted since its call i, counting call n as one more, stay
      within the burst plus what the rate refills between the two timestamps. */
  predicate WithinBound(rate: real, burst: real, calls: seq<Call>, i: nat, n: nat)
    requires i <= n < |calls|
  {
    Count(rate, burst, calls, calls[n].key, i, n) as real + 1.0
      <= burst + Accrued(rate, calls[i].now, calls[n].now)
  }

  // ---------------------------------------------------------------- what a bucket holds

  /** What the client's call i leaves room for by the time `now`, after n calls in all. */
  function Room(rate: real, burst: real, calls: seq<Call>, key: string, i: nat, n: nat, now: real): real
    requires i < n <= |calls|
  {
    burst + Accrued(rate, calls[i].now, now) - Count(rate, burst, calls, key, i, n) as real
  }

  lemma RoomStep(rate: real, burst: real, calls: seq<Call>, key: string, i: nat, n: nat, t: real, now: real)
    requires i < n < |calls|
    ensures Room(rate, burst, calls, key, i, n + 1, now) ==
            Room(rate, burst, calls, key, i, n, t) + Accrued(rate, t, now)
            - (if calls[n].key == key && Admitted(rate, burst, calls, n) then 1.0 else 0.0)
  {
    hide Accrued;
    var a := calls[i].now;
    AccruedAdd(rate, a, t, now);
  }

  /** The tokens in a bucket are the least room any of the client's calls leaves, and some call attains it:
      the running arithmetic of one float equals a minimum over the whole history. */
  ghost predicate IsLeastRoom(rate: real, burst: real, calls: seq<Call>, key: string, n: nat, now: real, tokens: real)
    requires n <= |calls|
  {
    && (forall i :: 0 <= i < n && calls[i].key == key ==> tokens <= Room(rate, burst, calls, key, i, n, now))
    && (exists i :: 0 <= i < n && calls[i].key == key && tokens == Room(rate, burst, calls, key, i, n, now))
  }

  lemma {:induction false} BucketIsLeastRoom(rate: real, burst: real, calls: seq<Call>, key: string, n: nat)
    requires n <= |calls|
    ensures key in Buckets(rate, burst, calls[..n]) <==> Seen(calls, key, n)
    ensures key in Buckets(rate, burst, calls[..n]) ==>
              var b := Buckets(rate, burst, calls[..n])[key];
              IsLeastRoom(rate, burst, calls, key, n, b.last, b.tokens)
  {
    if n > 0 {
      var m := n - 1;
      assert calls[..n][..m] == calls[..m];
      BucketIsLeastRoom(rate, burst, calls, key, m);
      var before, after := Buckets(rate, burst, calls[..m]), Buckets(rate, burst, calls[..n]);
      assert calls[..n][m] == calls[m];
      if calls[m].key == key {
        OwnCall(rate, burst, calls, key, m);
      } else if key in before {
        OtherCall(rate, burst, calls, key, m, before[key]);
      }
    }
  }

  lemma OtherCall(rate: real, burst: real, calls: seq<Call>, key: string, m: nat, b: Bucket)
    requires m < |calls| && calls[m].key != key
    requires IsLeastRoom(rate, burst, calls, key, m, b.last, b.tokens)
    ensures IsLeastRoom(rate, burst, calls, key, m + 1, b.last, b.tokens)
  {
    hide Accrued;
    forall i | 0 <= i < m
      ensures Room(rate, burst, calls, key, i, m + 1, b.last) == Room(rate, burst, calls, key, i, m, b.last)
    {
      RoomStep(rate, burst, calls, key, i, m, b.last, b.last);
    }
    var i :| 0 <= i < m && calls[i].key == key && b.tokens == Room(rate, burst, calls, key, i, m, b.last);
    assert b.tokens == Room(rate, burst, calls, key, i, m + 1, b.last);
  }

  lemma OwnCall(rate: real, burst: real, calls: seq<Call>, key: string, m: nat)
    requires m < |calls| && calls[m].key == key
    requires
      var before := Buckets(rate, burst, calls[..m]);
      key in before ==> IsLeastRoom(rate, burst, calls, key, m, before[key].last, before[key].tokens)
    requires key in Buckets(rate, burst, calls[..m]) <==> Seen(calls, key, m)
    ensures
      var after := Buckets(rate, burst, calls[..m + 1]);
      key in after && IsLeastRoom(rate, burst, calls, key, m + 1, after[key].last, after[key].tokens)
  {
    hide Accrued;
    var before := Buckets(rate, burst, calls[..m]);
    var now := calls[m].now;
    assert calls[..m + 1][..m] == calls[..m];
    var after := Buckets(rate, burst, calls[..m + 1])[key];
    var taken := if Admitted(rate, burst, calls, m) then 1.0 else 0.0;
    var available := Available(rate, burst, before, calls[m]);
    assert after == Bucket(available - taken, now);
    assert Room(rate, burst, calls, key, m, m + 1, now) == burst - taken by {
      assert Count(rate, burst, calls, key, m, m) == 0;
      AccruedAdd(rate, now, now, now);
    }
    if key in before {
      var b := before[key];
      forall i | 0 <= i < m && calls[i].key == key
        ensures Room(rate, burst, calls, key, i, m + 1, now) ==
                Room(rate, burst, calls, key, i, m, b.last) + Accrued(rate, b.last, now) - taken
        ensures after.tokens <= Room(rate, burst, calls, key, i, m + 1, now)
      {
        RoomStep(rate, burst, calls, key, i, m, b.last, now);
      }
      if available == burst {
        assert after.tokens == Room(rate, burst, calls, key, m, m + 1, now);
      } else {
        var i :| 0 <= i < m && calls[i].key == key && b.tokens == Room(rate, burst, calls, key, i, m, b.last);
        assert after.tokens == Room(rate, burst, calls, key, i, m + 1, now);
      }
    } else {
      assert after.tokens == Room(rate, burst, calls, key, m, m + 1, now);
    }
  }

  // ---------------------------------------------------------------- the theorems

  /** The limiter admits exactly the calls the bound allows: a call that is not its client's first is
      admitted if and only if it keeps the client within the bound counted from every one of its earlier
      calls and from itself.  No call is refused that the bound would allow, whatever the timestamps. */
  lemma AdmittedIffWithinBound(rate: real, burst: real, calls: seq<Call>, n: nat)
    requires n < |calls| && Seen(calls, calls[n].key, n)
    ensures Admitted(rate, burst, calls, n) <==>
            forall i :: 0 <= i <= n && calls[i].key == calls[n].key ==> WithinBound(rate, burst, calls, i, n)
  {
    hide Accrued;
    var key, now := calls[n].key, calls[n].now;
    BucketIsLeastRoom(rate, burst, calls, key, n);
    var b := Buckets(rate, burst, calls[..n])[key];
    assert WithinBound(rate, burst, calls, n, n) <==> burst >= 1.0 by {
      AccruedAdd(rate, now, now, now);
    }
    forall i | 0 <= i < n && calls[i].key == key
      ensures WithinBound(rate, burst, calls, i, n) <==>
              Room(rate, burst, calls, key, i, n, b.last) + Accrued(rate, b.last, now) >= 1.0
    {
      var a := calls[i].now;
      AccruedAdd(rate, a, b.last, now);
    }
    var k :| 0 <= k < n && calls[k].key == key && b.tokens == Room(rate, burst, calls, key, k, n, b.last);
    if forall i :: 0 <= i <= n && calls[i].key == key ==> WithinBound(rate, burst, calls, i, n) {
      assert WithinBound(rate, burst, calls, k, n);
    }
  }

  /** A client's first call is admitted unconditionally, which is within the bound if and only if the
      burst is at least 1; the servers never build a limiter with a smaller one. */
  lemma FirstCall(rate: real, burst: real, calls: seq<Call>, n: nat)
    requires n < |calls| && !Seen(calls, calls[n].key, n)
    ensures Admitted(rate, burst, calls, n)
    ensures WithinBound(rate, burst, calls, n, n) <==> burst >= 1.0
  {
    hide Accrued;
    BucketIsLeastRoom(rate, burst, calls, calls[n].key, n);
    AccruedAdd(rate, calls[n].now, calls[n].now, calls[n].now);
  }

  /** Over any stretch of the history that begins with a call of the client at time s and ends with one of
      its admitted calls at time t, at most burst + rate * (t - s) of its calls were admitted. */
  lemma AdmissionBound(rate: real, burst: real, calls: seq<Call>, i: nat, n: nat)
    requires i <= n < |calls| && calls[i].key == calls[n].key
    requires Admitted(rate, burst, calls, n)
    requires burst >= 1.0 || Seen(calls, calls[n].key, n)
    ensures Count(rate, burst, calls, calls[n].key, i, n + 1) as real
            <= burst + Accrued(rate, calls[i].now, calls[n].now)
  {
    hide Accrued;
    if Seen(calls, calls[n].key, n) {
      AdmittedIffWithinBound(rate, burst, calls, n);
      assert WithinBound(rate, burst, calls, i, n);
    } else {
      FirstCall(rate, burst, calls, n);
      assert WithinBound(rate, burst, calls, n, n);
    }
  }

  /** How many of calls[i..j] are the client's. */
  function Calls(calls: seq<Call>, key: string, i: nat, j: nat): nat
    requires i <= j <= |calls|
    decreases j
  {
    if i == j then 0 else Calls(calls, key, i, j - 1) + if calls[j - 1].key == key then 1 else 0
  }

  lemma {:induction false} CountAtMostCalls(rate: real, burst: real, calls: seq<Call>, key: string, i: nat, j: nat)
    requires i <= j <= |calls|
    ensures Count(rate, burst, calls, key, i, j) <= Calls(calls, key, i, j)
    decreases j
  {
    if i < j {
      CountAtMostCalls(rate, burst, calls, key, i, j - 1);
    }
  }

  /** Consecutive calls of the client are at least 1 / rate apart. */
  predicate Polite(rate: real, calls: seq<Call>, key: string) {
    forall i, j :: 0 <= i < j < |calls| && calls[i].key == key && calls[j].key == key
                   && Calls(calls, key, i, j) == 1 ==>
      Accrued(rate, calls[i].now, calls[j].now) >= 1.0
  }

  lemma PoliteIsSpaced(rate: real, calls: seq<Call>, key: string, i: nat, j: nat)
    requires Polite(rate, calls, key)
    requires i < j < |calls| && calls[i].key == key && calls[j].key == key
    ensures Accrued(rate, calls[i].now, calls[j].now) >= Calls(calls, key, i, j) as real
    decreases j
  {
    hide Accrued;
    if Calls(calls, key, i, j) != 1 {
      var k := LastCall(calls, key, i, j);
      PoliteIsSpaced(rate, calls, key, i, k);
      assert Accrued(rate, calls[k].now, calls[j].now) >= 1.0;
      var a, b, c := calls[i].now, calls[k].now, calls[j].now;
      AccruedAdd(rate, a, b, c);
    }
  }

  /** The client's last call before j. */
  lemma LastCall(calls: seq<Call>, key: string, i: nat, j: nat) returns (k: nat)
    requires i < j <= |calls| && calls[i].key == key && Calls(calls, key, i, j) != 1
    ensures i < k < j && calls[k].key == key
    ensures Calls(calls, key, i, j) == Calls(calls, key, i, k) + 1 && Calls(calls, key, k, j) == 1
    decreases j
  {
    if calls[j - 1].key == key {
      k := j - 1;
      assert Calls(calls, key, j - 1, j - 1) == 0;
      assert Calls(calls, key, i, i) == 0;
    } else {
      k := LastCall(calls, key, i, j - 1);
    }
  }

  /** With a burst of at least 1, a client whose consecutive calls are at least 1 / rate apart is never
      refused, however the other clients behave. */
  lemma PoliteClientNeverRefused(rate: real, burst: real, calls: seq<Call>, n: nat)
    requires burst >= 1.0 && n < |calls| && Polite(rate, calls, calls[n].key)
    ensures Admitted(rate, burst, calls, n)
  {
    hide Accrued;
    var key := calls[n].key;
    if Seen(calls, key, n) {
      AdmittedIffWithinBound(rate, burst, calls, n);
      forall i | 0 <= i <= n && calls[i].key == key
        ensures WithinBound(rate, burst, calls, i, n)
      {
        if i < n {
          PoliteIsSpaced(rate, calls, key, i, n);
          CountAtMostCalls(rate, burst, calls, key, i, n);
        } else {
          AccruedAdd(rate, calls[n].now, calls[n].now, calls[n].now);
        }
      }
    } else {
      FirstCall(rate, burst, calls, n);
    }
  }
}
