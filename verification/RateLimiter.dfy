/**
 The per-tenant token bucket (core/middleware.py, and its copy in core/app_context.py),
 with time and tokens as reals. The clock is whatever the caller sampled: samples may
 arrive out of order, because the time is read before the lock is taken.
 */
module RateLimiter {
  datatype Bucket = Bucket(tokens: real, last: real)

  type Buckets = map<string, Bucket>

  /** One call: the tenant, the rate in force for it, and the time the caller read. */
  datatype Call = Call(tenant: string, rps: int, now: real)

  datatype Answer = Answer(allowed: bool, retryAfter: real)

  const BURST := 4.0

  function Burst(rps: int): real { rps as real * BURST }

  function Min(a: real, b: real): real { if a < b then a else b }

  function Max(a: real, b: real): real { if a < b then b else a }

  /** The tokens a call finds, before it takes one. */
  function Refilled(bs: Buckets, c: Call): real {
    if c.tenant in bs
    then Min(Burst(c.rps), bs[c.tenant].tokens + (c.now - bs[c.tenant].last) * c.rps as real)
    else Burst(c.rps)
  }

  function Answered(bs: Buckets, c: Call): Answer {
    if c.rps <= 0 then Answer(true, 0.0)
    else if Refilled(bs, c) >= 1.0 then Answer(true, 0.0)
    else Answer(false, Max(0.001, (1.0 - Refilled(bs, c)) / c.rps as real))
  }

  function AfterCall(bs: Buckets, c: Call): Buckets {
    if c.rps <= 0 then bs
    else
      var tokens := Refilled(bs, c);
      bs[c.tenant := Bucket(if tokens >= 1.0 then tokens - 1.0 else tokens, c.now)]
  }

  class Limiter {
    var buckets: Buckets

    constructor ()
      ensures buckets == map[]
    {
      buckets := map[];
    }

    /** The critical section of one call, together with the time it read before. */
    method Take(c: Call) returns (a: Answer)
      modifies this
      ensures a == Answered(old(buckets), c)
      ensures buckets == AfterCall(old(buckets), c)
    {
      if c.rps <= 0 {
        return Answer(true, 0.0);
      }
      var burst := c.rps as real * BURST;
      var tokens, last := burst, c.now;
      if c.tenant in buckets {
        tokens, last := buckets[c.tenant].tokens, buckets[c.tenant].last;
      }
      var elapsed := c.now - last;
      tokens := Min(burst, tokens + elapsed * c.rps as real);
      assert elapsed == 0.0 ==> elapsed * c.rps as real == 0.0;
      assert tokens == Refilled(buckets, c);
      if tokens >= 1.0 {
        buckets := buckets[c.tenant := Bucket(tokens - 1.0, c.now)];
        return Answer(true, 0.0);
      }
      a := Answer(false, Max(0.001, (1.0 - tokens) / c.rps as real));
      buckets := buckets[c.tenant := Bucket(tokens, c.now)];
    }
  }

  // ----- Runs -----

  function Run(bs: Buckets, calls: seq<Call>): Buckets
    decreases |calls|
  {
    if calls == [] then bs else Run(AfterCall(bs, calls[0]), calls[1..])
  }

  /** How many calls of the tenant a run admits. */
  function Admitted(bs: Buckets, calls: seq<Call>, tenant: string): nat
    decreases |calls|
  {
    if calls == [] then 0
    else
      (if calls[0].tenant == tenant && Answered(bs, calls[0]).allowed then 1 else 0)
      + Admitted(AfterCall(bs, calls[0]), calls[1..], tenant)
  }

  predicate FixedRate(calls: seq<Call>, tenant: string, rps: int) {
    forall c :: c in calls && c.tenant == tenant ==> c.rps == rps
  }

  /** A call never changes another tenant's bucket. */
  lemma {:induction false} OtherTenantsUntouched(bs: Buckets, c: Call, tenant: string)
    requires tenant != c.tenant
    ensures tenant in AfterCall(bs, c) <==> tenant in bs
    ensures tenant in bs ==> AfterCall(bs, c)[tenant] == bs[tenant]
  {
  }

  /** Nor does it look at one: the answer depends on the caller's own bucket alone. */
  lemma {:induction false} AnswerIsOwn(bs: Buckets, bs': Buckets, c: Call)
    requires c.tenant in bs <==> c.tenant in bs'
    requires c.tenant in bs ==> bs[c.tenant] == bs'[c.tenant]
    ensures Answered(bs, c) == Answered(bs', c)
  {
  }

  /** What the bucket could still pay for at time zero: no call raises it, and an admission costs one. */
  function Credit(b: Bucket, rps: int): real { b.tokens - rps as real * b.last }

  lemma {:induction false} CallLowersCredit(bs: Buckets, c: Call)
    requires c.rps > 0 && c.tenant in bs
    ensures c.tenant in AfterCall(bs, c)
    ensures Credit(AfterCall(bs, c)[c.tenant], c.rps)
         <= Credit(bs[c.tenant], c.rps) - if Answered(bs, c).allowed then 1.0 else 0.0
  {
    var b, b' := bs[c.tenant], AfterCall(bs, c)[c.tenant];
    assert b'.last == c.now;
    assert Refilled(bs, c) <= b.tokens + (c.now - b.last) * c.rps as real;
    assert (c.now - b.last) * c.rps as real == c.rps as real * c.now - c.rps as real * b.last;
  }

  lemma {:induction false} RunLowersCredit(bs: Buckets, calls: seq<Call>, tenant: string, rps: int)
    requires rps > 0 && FixedRate(calls, tenant, rps) && tenant in bs
    ensures tenant in Run(bs, calls)
    ensures Credit(Run(bs, calls)[tenant], rps) <= Credit(bs[tenant], rps) - Admitted(bs, calls, tenant) as real
    decreases |calls|
  {
    if calls != [] {
      var c, rest := calls[0], calls[1..];
      assert c in calls && forall d :: d in rest ==> d in calls;
      if c.tenant == tenant {
        CallLowersCredit(bs, c);
      } else {
        OtherTenantsUntouched(bs, c, tenant);
      }
      RunLowersCredit(AfterCall(bs, c), rest, tenant, rps);
    }
  }

  lemma {:induction false} RunSplits(bs: Buckets, a: seq<Call>, b: seq<Call>, tenant: string)
    ensures Run(bs, a + b) == Run(Run(bs, a), b)
    ensures Admitted(bs, a + b, tenant) == Admitted(bs, a, tenant) + Admitted(Run(bs, a), b, tenant)
    decreases |a|
  {
    if a == [] {
      assert a + b == b;
    } else {
      assert (a + b)[0] == a[0] && (a + b)[1..] == a[1..] + b;
      RunSplits(AfterCall(bs, a[0]), a[1..], b, tenant);
    }
  }

  lemma RunOfOne(bs: Buckets, c: Call, rest: seq<Call>, tenant: string)
    ensures Run(bs, [c] + rest) == Run(AfterCall(bs, c), rest)
    ensures Admitted(bs, [c] + rest, tenant)
         == (if c.tenant == tenant && Answered(bs, c).allowed then 1 else 0) + Admitted(AfterCall(bs, c), rest, tenant)
  {
    assert ([c] + rest)[1..] == rest;
  }

  /** Four times the rate, plus the rate for every second between two times. */
  function Allowance(rps: int, from: real, to: real): real { BURST * rps as real + rps as real * (to - from) }

  /** Between two admissions of a tenant. */
  lemma BoundBetweenAdmissions(bs: Buckets, first: Call, middle: seq<Call>, last: Call)
    requires last.rps > 0 && first.rps == last.rps && first.tenant == last.tenant
    requires FixedRate(middle, last.tenant, last.rps)
    requires Answered(bs, first).allowed
    requires Answered(Run(AfterCall(bs, first), middle), last).allowed
    ensures Admitted(bs, [first] + middle + [last], last.tenant) as real
         <= Allowance(last.rps, first.now, last.now)
  {
    var tenant, rps := last.tenant, last.rps;
    var b1 := AfterCall(bs, first);
    var b2 := Run(b1, middle);
    var b3 := AfterCall(b2, last);
    RunLowersCredit(b1, middle, tenant, rps);
    CallLowersCredit(b2, last);
    RunOfOne(bs, first, middle + [last], tenant);
    assert [first] + middle + [last] == [first] + (middle + [last]);
    RunSplits(b1, middle, [last], tenant);
    RunOfOne(b2, last, [], tenant);
    assert [last] + [] == [last];
    LastCredit(b1[tenant], b3[tenant], first, last, Admitted(b1, middle, tenant) + 1);
  }

  lemma LastCredit(b1: Bucket, b3: Bucket, first: Call, last: Call, n: nat)
    requires last.rps > 0 && b1.last == first.now && b3.last == last.now
    requires b1.tokens <= Burst(last.rps) - 1.0 && b3.tokens >= 0.0
    requires Credit(b3, last.rps) <= Credit(b1, last.rps) - n as real
    ensures (n + 1) as real <= Allowance(last.rps, first.now, last.now)
  {
    var r, from, to := last.rps as real, first.now, last.now;
    assert r * (to - from) == r * to - r * from;
    assert BURST * r == Burst(last.rps);
    assert b3.tokens - r * to <= b1.tokens - r * from - n as real;
  }

  /** The time of the tenant's first admission in a run, or `otherwise`. */
  function FirstAdmission(bs: Buckets, calls: seq<Call>, tenant: string, otherwise: real): real
    decreases |calls|
  {
    if calls == [] then otherwise
    else if calls[0].tenant == tenant && Answered(bs, calls[0]).allowed then calls[0].now
    else FirstAdmission(AfterCall(bs, calls[0]), calls[1..], tenant, otherwise)
  }

  lemma SelfAllowance(rps: int, t: real)
    requires rps > 0
    ensures Allowance(rps, t, t) >= 4.0
  {
    assert t - t == 0.0;
  }

  /** The main theorem. From any buckets, a stretch of calls of all tenants that ends in an admission
      of a tenant at a fixed rate admits at most four times the rate of that tenant's calls, plus the
      rate for every second between its first and its last admission. Nothing is asked of the clock. */
  lemma {:induction false} AdmissionBound(bs: Buckets, calls: seq<Call>, last: Call)
    requires last.rps > 0 && FixedRate(calls, last.tenant, last.rps)
    requires Answered(Run(bs, calls), last).allowed
    ensures Admitted(bs, calls + [last], last.tenant) as real
         <= Allowance(last.rps, FirstAdmission(bs, calls, last.tenant, last.now), last.now)
    decreases |calls|
  {
    var tenant := last.tenant;
    if calls == [] {
      assert calls + [last] == [last] + [];
      RunOfOne(bs, last, [], tenant);
      SelfAllowance(last.rps, last.now);
    } else {
      var c, rest := calls[0], calls[1..];
      assert calls == [c] + rest;
      assert c in calls && forall d :: d in rest ==> d in calls;
      assert calls + [last] == [c] + (rest + [last]) == [c] + rest + [last];
      if c.tenant == tenant && Answered(bs, c).allowed {
        BoundBetweenAdmissions(bs, c, rest, last);
      } else {
        RunOfOne(bs, c, rest + [last], tenant);
        AdmissionBound(AfterCall(bs, c), rest, last);
      }
    }
  }

  // ----- Retrying -----

  /** After a denial, and any calls of other tenants, the tenant's next call is admitted exactly when
      the missing part of a token has had time to flow in. */
  lemma {:induction false} RetryExact(bs: Buckets, denied: Call, others: seq<Call>, retry: Call)
    requires denied.rps > 0 && !Answered(bs, denied).allowed
    requires forall c :: c in others ==> c.tenant != denied.tenant
    requires retry.tenant == denied.tenant && retry.rps == denied.rps
    ensures Answered(Run(AfterCall(bs, denied), others), retry).allowed
       <==> retry.now - denied.now >= (1.0 - Refilled(bs, denied)) / denied.rps as real
  {
    var b := AfterCall(bs, denied);
    KeepsBucket(b, others, denied.tenant);
    var rps, missing := denied.rps as real, 1.0 - Refilled(bs, denied);
    var gap := retry.now - denied.now;
    ScaleBack(gap, missing, rps);
  }

  lemma ScaleBack(gap: real, missing: real, rps: real)
    requires rps > 0.0
    ensures gap >= missing / rps <==> gap * rps >= missing
  {
    assert missing / rps * rps == missing;
    if gap >= missing / rps {
      assert (gap - missing / rps) * rps >= 0.0;
    } else {
      assert (missing / rps - gap) * rps > 0.0;
    }
  }

  lemma {:induction false} KeepsBucket(bs: Buckets, calls: seq<Call>, tenant: string)
    requires tenant in bs && forall c :: c in calls ==> c.tenant != tenant
    ensures tenant in Run(bs, calls) && Run(bs, calls)[tenant] == bs[tenant]
    decreases |calls|
  {
    if calls != [] {
      var c, rest := calls[0], calls[1..];
      assert c in calls && forall d :: d in rest ==> d in calls;
      OtherTenantsUntouched(bs, c, tenant);
      KeepsBucket(AfterCall(bs, c), rest, tenant);
    }
  }

  /** Waiting for the advertised time is enough. */
  lemma {:induction false} RetryAfterSuffices(bs: Buckets, denied: Call, others: seq<Call>, retry: Call)
    requires denied.rps > 0 && !Answered(bs, denied).allowed
    requires forall c :: c in others ==> c.tenant != denied.tenant
    requires retry.tenant == denied.tenant && retry.rps == denied.rps
    requires retry.now >= denied.now + Answered(bs, denied).retryAfter
    ensures Answered(Run(AfterCall(bs, denied), others), retry).allowed
  {
    RetryExact(bs, denied, others, retry);
  }
}
