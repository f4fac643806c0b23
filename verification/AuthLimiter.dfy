/** The sliding-window limiter of authentication attempts (core/admin_auth.py): five per minute and address. */
module AuthLimiter {
  const LIMIT := 5
  const WINDOW := 60.0

  datatype Attempt = Attempt(ip: string, now: real)

  type Attempts = map<string, seq<real>>

  function Stored(m: Attempts, ip: string): seq<real> { if ip in m then m[ip] else [] }

  /** The times less than a window old. */
  function Recent(times: seq<real>, now: real): seq<real> {
    if times == [] then []
    else (if now - times[0] < WINDOW then [times[0]] else []) + Recent(times[1..], now)
  }

  predicate Accepts(m: Attempts, a: Attempt) { |Recent(Stored(m, a.ip), a.now)| < LIMIT }

  /** A rejected attempt is not recorded, but old attempts are forgotten all the same. */
  function AfterAttempt(m: Attempts, a: Attempt): Attempts {
    m[a.ip := Recent(Stored(m, a.ip), a.now) + if Accepts(m, a) then [a.now] else []]
  }

  method Prune(times: seq<real>, now: real) returns (kept: seq<real>)
    ensures kept == Recent(times, now)
  {
    kept := [];
    assert times[0..] == times;
    for i := 0 to |times|
      invariant kept + Recent(times[i..], now) == Recent(times, now)
    {
      assert times[i..][1..] == times[i + 1..];
      if now - times[i] < WINDOW {
        kept := kept + [times[i]];
      }
    }
    assert times[|times|..] == [];
  }

  class Limiter {
    var attempts: Attempts

    constructor ()
      ensures attempts == map[]
    {
      attempts := map[];
    }

    /** `ok` is false where the source raises status 429. */
    method Check(a: Attempt) returns (ok: bool)
      modifies this
      ensures ok == Accepts(old(attempts), a)
      ensures attempts == AfterAttempt(old(attempts), a)
    {
      if a.ip !in attempts {
        attempts := attempts[a.ip := []];
      }
      var kept := Prune(attempts[a.ip], a.now);
      attempts := attempts[a.ip := kept];
      assert kept + [] == kept;
      if |attempts[a.ip]| >= LIMIT {
        assert attempts == AfterAttempt(old(attempts), a);
        return false;
      }
      attempts := attempts[a.ip := attempts[a.ip] + [a.now]];
      ok := true;
    }
  }

  // ----- Runs from an empty store -----

  function Run(attempts: seq<Attempt>): Attempts {
    if attempts == [] then map[] else AfterAttempt(Run(attempts[..|attempts| - 1]), attempts[|attempts| - 1])
  }

  /** The times at which a run accepted attempts from `ip`, none forgotten. */
  function History(attempts: seq<Attempt>, ip: string): seq<real> {
    if attempts == [] then []
    else
      var front, last := attempts[..|attempts| - 1], attempts[|attempts| - 1];
      History(front, ip) + if last.ip == ip && Accepts(Run(front), last) then [last.now] else []
  }

  predicate ClockNeverBack(attempts: seq<Attempt>) {
    forall i, j :: 0 <= i < j < |attempts| ==> attempts[i].now <= attempts[j].now
  }

  predicate Sorted(times: seq<real>) { forall i, j :: 0 <= i < j < |times| ==> times[i] <= times[j] }

  /** Of sorted times, exactly a tail is recent. */
  lemma {:induction false} RecentIsTail(times: seq<real>, now: real) returns (k: nat)
    requires Sorted(times)
    ensures k <= |times| && Recent(times, now) == times[k..]
    ensures forall j :: 0 <= j < k ==> now - times[j] >= WINDOW
    ensures forall j :: k <= j < |times| ==> now - times[j] < WINDOW
    decreases |times|
  {
    if times == [] {
      k := 0;
    } else {
      var rest := times[1..];
      var k' := RecentIsTail(rest, now);
      assert forall j :: 0 <= j < |rest| ==> rest[j] == times[j + 1];
      if now - times[0] < WINDOW {
        k := 0;
        assert rest != [] ==> times[0] <= rest[0];
        assert Recent(times, now) == [times[0]] + rest == times;
      } else {
        k := k' + 1;
        assert times[k..] == rest[k'..];
        forall j | 0 <= j < k ensures now - times[j] >= WINDOW {
          assert j > 0 ==> times[j] == rest[j - 1];
        }
        forall j | k <= j < |times| ensures now - times[j] < WINDOW {
          assert times[j] == rest[j - 1];
        }
      }
    }
  }

  lemma {:induction false} RecentIs(times: seq<real>, now: real, n: nat)
    requires n <= |times|
    requires forall j :: 0 <= j < n ==> now - times[j] >= WINDOW
    requires forall j :: n <= j < |times| ==> now - times[j] < WINDOW
    ensures Recent(times, now) == times[n..]
    decreases |times|
  {
    if times != [] {
      var rest := times[1..];
      assert forall j :: 0 <= j < |rest| ==> rest[j] == times[j + 1];
      RecentIs(rest, now, if n == 0 then 0 else n - 1);
      assert times == [times[0]] + rest;
    }
  }

  /** Pruning a tail of a sorted history gives the recent tail of the whole history. */
  lemma TailOfTail(h: seq<real>, k: nat, now: real) returns (n: nat)
    requires Sorted(h) && k <= |h| && forall j :: 0 <= j < k ==> now - h[j] >= WINDOW
    ensures k <= n <= |h| && Recent(h[k..], now) == Recent(h, now) == h[n..]
    ensures forall j :: 0 <= j < n ==> now - h[j] >= WINDOW
    ensures forall j :: n <= j < |h| ==> now - h[j] < WINDOW
  {
    var tail := h[k..];
    assert forall j :: 0 <= j < |tail| ==> tail[j] == h[k + j];
    var m := RecentIsTail(tail, now);
    n := k + m;
    assert tail[m..] == h[n..];
    forall j | 0 <= j < n ensures now - h[j] >= WINDOW {
      assert j < k || h[j] == tail[j - k];
    }
    forall j | n <= j < |h| ensures now - h[j] < WINDOW {
      assert h[j] == tail[j - k];
    }
    RecentIs(h, now, n);
  }

  /** The stored times are the history without its first `k`, which are at least a window old. */
  predicate TailStored(h: seq<real>, stored: seq<real>, k: nat, now: real) {
    && Sorted(h) && (forall j :: 0 <= j < |h| ==> h[j] <= now)
    && k <= |h| && stored == h[k..]
    && forall j :: 0 <= j < k ==> now - h[j] >= WINDOW
  }

  lemma StepKeepsTail(h: seq<real>, stored: seq<real>, k: nat, at: real) returns (n: nat)
    requires TailStored(h, stored, k, at)
    ensures TailStored(h, Recent(stored, at), n, at)
    ensures TailStored(h + [at], Recent(stored, at) + [at], n, at)
  {
    n := TailOfTail(h, k, at);
    assert (h + [at])[n..] == h[n..] + [at];
  }

  /** The store of an address is a tail of its history, and what was forgotten is at least a window old. */
  lemma {:induction false} StoreIsTail(attempts: seq<Attempt>, ip: string, now: real) returns (k: nat)
    requires ClockNeverBack(attempts)
    requires forall i :: 0 <= i < |attempts| ==> attempts[i].now <= now
    ensures TailStored(History(attempts, ip), Stored(Run(attempts), ip), k, now)
    decreases |attempts|
  {
    k := 0;
    if attempts != [] {
      var front, last := attempts[..|attempts| - 1], attempts[|attempts| - 1];
      k := StoreIsTail(front, ip, last.now);
      if last.ip == ip {
        k := StepKeepsTail(History(front, ip), Stored(Run(front), ip), k, last.now);
        assert Recent(Stored(Run(front), ip), last.now) + [] == Recent(Stored(Run(front), ip), last.now);
        assert History(front, ip) + [] == History(front, ip);
      }
    }
  }

  /** Forgetting changes no decision: an attempt is accepted exactly when fewer than five of all the
      attempts ever accepted from its address are less than a minute old. */
  lemma {:induction false} DecisionLooksAtWholeHistory(attempts: seq<Attempt>, a: Attempt)
    requires ClockNeverBack(attempts + [a])
    ensures Accepts(Run(attempts), a) <==> |Recent(History(attempts, a.ip), a.now)| < LIMIT
  {
    var all := attempts + [a];
    assert forall i :: 0 <= i < |attempts| ==> all[i] == attempts[i] && all[i].now <= all[|attempts|].now;
    var k := StoreIsTail(attempts, a.ip, a.now);
    var n := TailOfTail(History(attempts, a.ip), k, a.now);
  }

  lemma SixthIsLate(h: seq<real>, now: real, i: nat)
    requires Sorted(h) && |Recent(h, now)| < LIMIT && i + LIMIT <= |h|
    ensures now - h[i] >= WINDOW
  {
    var n := RecentIsTail(h, now);
  }

  /** The main theorem: any six accepted attempts of one address span at least a minute. */
  lemma {:induction false} SixSpanAMinute(attempts: seq<Attempt>, ip: string, i: nat, j: nat)
    requires ClockNeverBack(attempts)
    requires i + LIMIT <= j < |History(attempts, ip)|
    ensures History(attempts, ip)[j] - History(attempts, ip)[i] >= WINDOW
    decreases |attempts|
  {
    var front, last := attempts[..|attempts| - 1], attempts[|attempts| - 1];
    assert attempts == front + [last];
    var h := History(front, ip);
    if j < |h| {
      SixSpanAMinute(front, ip, i, j);
    } else {
      assert last.ip == ip && Accepts(Run(front), last);
      hide Run, History, Accepts, Recent;
      DecisionLooksAtWholeHistory(front, last);
      forall k | 0 <= k < |front| ensures front[k].now <= last.now {
        assert attempts[k].now <= attempts[|front|].now;
      }
      var k := StoreIsTail(front, ip, last.now);
      SixthIsLate(h, last.now, i);
    }
  }
}
