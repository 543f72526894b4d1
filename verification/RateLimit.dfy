/** The in-memory token bucket limiter and why forgetting idle clients is safe.
    Seconds and tokens are reals; rounding is not modelled. */
module RateLimit {

  datatype Bucket = Bucket(tokens: real, lastRefill: real)

  datatype Limits = Limits(capacity: real, rate: real, maxIdle: real)

  datatype Call = Call(key: string, now: real)

  type Buckets = map<string, Bucket>

  const MAX_BUCKETS := 10000

  function MinReal(a: real, b: real): real { if a < b then a else b }

  /** The tokens that come back in `elapsed` seconds. */
  function Gain(elapsed: real, rate: real): real { elapsed * rate }

  /** The bucket of `key` at time `now`, before a token is taken. */
  function Refilled(l: Limits, m: Buckets, key: string, now: real): Bucket {
    if key !in m then Bucket(l.capacity, now)
    else if now > m[key].lastRefill then
      Bucket(MinReal(l.capacity, m[key].tokens + Gain(now - m[key].lastRefill, l.rate)), now)
    else m[key]
  }

  predicate Allowed(l: Limits, m: Buckets, c: Call) {
    Refilled(l, m, c.key, c.now).tokens >= 1.0
  }

  /** A limiter that never forgets a bucket. */
  function Keep(l: Limits, m: Buckets, c: Call): Buckets {
    var b := Refilled(l, m, c.key, c.now);
    m[c.key := if Allowed(l, m, c) then b.(tokens := b.tokens - 1.0) else b]
  }

  predicate Idle(l: Limits, b: Bucket, now: real) {
    now - b.lastRefill > l.maxIdle
  }

  function Evict(l: Limits, m: Buckets, now: real): Buckets {
    map k | k in m && !Idle(l, m[k], now) :: m[k]
  }

  /** The limiter as it is: an allowed call that finds too many buckets drops the
      idle ones. */
  function KeepOrEvict(l: Limits, m: Buckets, c: Call): Buckets {
    var kept := Keep(l, m, c);
    if Allowed(l, m, c) && |kept| > MAX_BUCKETS then Evict(l, kept, c.now) else kept
  }

  class Memory {
    var buckets: Buckets
    const capacity: real
    const refillPerSecond: real
    const maxIdle: real

    constructor (capacity: real, refillPerSecond: real)
      ensures buckets == map[] && GetLimits() == Limits(capacity, refillPerSecond, 600.0)
    {
      buckets := map[];
      this.capacity, this.refillPerSecond, this.maxIdle := capacity, refillPerSecond, 600.0;
    }

    function GetLimits(): Limits {
      Limits(capacity, refillPerSecond, maxIdle)
    }

    /** Refills the bucket of `key` and takes one token from it. */
    method Allow(key: string, now: real) returns (ok: bool)
      modifies this`buckets
      ensures ok == Allowed(GetLimits(), old(buckets), Call(key, now))
      ensures buckets == KeepOrEvict(GetLimits(), old(buckets), Call(key, now))
    {
      if key !in buckets {
        buckets := buckets[key := Bucket(capacity, now)];
      }
      var b := buckets[key];
      var elapsed := now - b.lastRefill;
      if elapsed > 0.0 {
        b := Bucket(MinReal(capacity, b.tokens + Gain(elapsed, refillPerSecond)), now);
        buckets := buckets[key := b];
      }
      assert b == Refilled(GetLimits(), old(buckets), key, now);
      assert buckets == old(buckets)[key := b];
      if b.tokens < 1.0 {
        assert buckets == Keep(GetLimits(), old(buckets), Call(key, now));
        return false;
      }
      buckets := buckets[key := b.(tokens := b.tokens - 1.0)];
      assert buckets == Keep(GetLimits(), old(buckets), Call(key, now));
      if |buckets| > MAX_BUCKETS {
        Sweep(now);
      }
      return true;
    }

    /** The clean-up loop of Allow. */
    method Sweep(now: real)
      modifies this`buckets
      ensures buckets == Evict(GetLimits(), old(buckets), now)
    {
      var rest := buckets.Keys;
      while rest != {}
        invariant rest <= old(buckets).Keys
        invariant forall k :: k in buckets <==> k in old(buckets) && (k in rest || !Idle(GetLimits(), old(buckets)[k], now))
        invariant forall k :: k in buckets ==> buckets[k] == old(buckets)[k]
        decreases rest
      {
        var k :| k in rest;
        if now - buckets[k].lastRefill > maxIdle {
          buckets := buckets - {k};
        }
        rest := rest - {k};
      }
    }
  }

  // ---- Runs ----------------------------------------------------------------

  ghost predicate InOrder(calls: seq<Call>) {
    forall i, j :: 0 <= i < j < |calls| ==> calls[i].now <= calls[j].now
  }

  /** The buckets after `calls`, with and without forgetting. */
  ghost function Real(l: Limits, calls: seq<Call>): Buckets {
    if calls == [] then map[] else KeepOrEvict(l, Real(l, calls[..|calls| - 1]), calls[|calls| - 1])
  }

  ghost function Ideal(l: Limits, calls: seq<Call>): Buckets {
    if calls == [] then map[] else Keep(l, Ideal(l, calls[..|calls| - 1]), calls[|calls| - 1])
  }

  /** The answer to call `i`. */
  ghost predicate RealAnswer(l: Limits, calls: seq<Call>, i: nat)
    requires i < |calls|
  {
    Allowed(l, Real(l, calls[..i]), calls[i])
  }

  ghost predicate IdealAnswer(l: Limits, calls: seq<Call>, i: nat)
    requires i < |calls|
  {
    Allowed(l, Ideal(l, calls[..i]), calls[i])
  }

  /** An idle bucket has had the time to fill up. */
  ghost predicate FillsWhenIdle(l: Limits) {
    l.capacity >= 0.0 && l.rate >= 0.0 && l.maxIdle >= 0.0 && l.rate * l.maxIdle >= l.capacity
  }

  lemma MulMonotone(a: real, b: real, c: real)
    requires a <= b && c >= 0.0
    ensures Gain(a, c) <= Gain(b, c)
  {
  }

  lemma MulSplits(a: real, b: real, c: real, rate: real)
    ensures Gain(c - a, rate) == Gain(b - a, rate) + Gain(c - b, rate)
  {
  }

  // ---- Forgetting is invisible ---------------------------------------------

  ghost predicate WithinLimits(l: Limits, m: Buckets, now: real) {
    forall k :: k in m ==> 0.0 <= m[k].tokens <= l.capacity && m[k].lastRefill <= now
  }

  /** By `now` the bucket is as full as a new one. */
  predicate FullAgain(l: Limits, b: Bucket, now: real) {
    b.lastRefill < now && b.tokens + Gain(now - b.lastRefill, l.rate) >= l.capacity
  }

  /** `actual` lost only buckets that at time `now`, and so ever after, are
      indistinguishable from new ones. */
  ghost predicate Simulates(l: Limits, actual: Buckets, ideal: Buckets, now: real) {
    && (forall k :: k in actual ==> k in ideal && actual[k] == ideal[k])
    && (forall k :: k in ideal && k !in actual ==> FullAgain(l, ideal[k], now))
  }

  lemma RefilledWithin(l: Limits, m: Buckets, key: string, earlier: real, now: real)
    requires FillsWhenIdle(l) && WithinLimits(l, m, earlier) && earlier <= now
    ensures var b := Refilled(l, m, key, now); 0.0 <= b.tokens <= l.capacity && b.lastRefill == now
  {
    if key in m { MulMonotone(0.0, now - m[key].lastRefill, l.rate); }
  }

  lemma KeepWithin(l: Limits, m: Buckets, c: Call, earlier: real)
    requires FillsWhenIdle(l) && WithinLimits(l, m, earlier) && earlier <= c.now
    ensures WithinLimits(l, Keep(l, m, c), c.now)
  {
    RefilledWithin(l, m, c.key, earlier, c.now);
  }

  lemma LaterStillFull(l: Limits, b: Bucket, earlier: real, now: real)
    requires l.rate >= 0.0 && earlier <= now && FullAgain(l, b, earlier)
    ensures FullAgain(l, b, now)
  {
    MulMonotone(earlier - b.lastRefill, now - b.lastRefill, l.rate);
  }

  lemma SimulatesLater(l: Limits, m: Buckets, ideal: Buckets, earlier: real, now: real)
    requires l.rate >= 0.0 && earlier <= now && Simulates(l, m, ideal, earlier)
    ensures Simulates(l, m, ideal, now)
  {
    forall k | k in ideal && k !in m ensures FullAgain(l, ideal[k], now) {
      LaterStillFull(l, ideal[k], earlier, now);
    }
  }

  /** Whether or not its bucket was forgotten, a client finds the same tokens. */
  lemma SameRefill(l: Limits, m: Buckets, ideal: Buckets, key: string, now: real)
    requires Simulates(l, m, ideal, now)
    ensures Refilled(l, m, key, now) == Refilled(l, ideal, key, now)
  {
  }

  lemma IdleIsFull(l: Limits, b: Bucket, now: real)
    requires FillsWhenIdle(l) && b.tokens >= 0.0 && Idle(l, b, now)
    ensures FullAgain(l, b, now)
  {
    MulMonotone(l.maxIdle, now - b.lastRefill, l.rate);
    assert l.rate * l.maxIdle == l.maxIdle * l.rate;
  }

  /** Dropping a bucket shows in the next refill unless it is full again. */
  lemma DropIsInvisibleIff(l: Limits, m: Buckets, key: string, now: real)
    requires key in m && m[key].lastRefill < now
    ensures Refilled(l, m, key, now) == Refilled(l, m - {key}, key, now) <==> FullAgain(l, m[key], now)
  {
  }

  /** Waiting for some tokens to come back. */
  lemma WaitFor(l: Limits, tokens: real)
    requires l.rate > 0.0
    ensures Gain(tokens / l.rate, l.rate) == tokens && (tokens > 0.0 ==> tokens / l.rate > 0.0)
  {
  }

  /** A time at which the bucket is idle and not full again. */
  lemma NotFullAt(l: Limits, tokens: real, seen: real) returns (now: real)
    requires l.rate >= 0.0 && tokens + Gain(l.maxIdle, l.rate) < l.capacity
    ensures now - seen > l.maxIdle && tokens + Gain(now - seen, l.rate) < l.capacity
  {
    var missing := (l.capacity - tokens - Gain(l.maxIdle, l.rate)) / 2.0;
    if l.rate == 0.0 {
      now := seen + l.maxIdle + 1.0;
    } else {
      WaitFor(l, missing);
      now := seen + l.maxIdle + missing / l.rate;
      MulSplits(0.0, l.maxIdle, l.maxIdle + missing / l.rate, l.rate);
    }
  }

  /** Being idle stands for being full, which the sweep does not look at, exactly
      when a whole bucket comes back in the idle time. */
  lemma IdleMeansFullIff(l: Limits)
    requires l.capacity >= 0.0 && l.rate >= 0.0 && l.maxIdle >= 0.0
    ensures (forall b: Bucket, now: real :: 0.0 <= b.tokens <= l.capacity && Idle(l, b, now) ==> FullAgain(l, b, now))
            <==> l.rate * l.maxIdle >= l.capacity
  {
    if l.rate * l.maxIdle >= l.capacity {
      forall b: Bucket, now: real | 0.0 <= b.tokens <= l.capacity && Idle(l, b, now) ensures FullAgain(l, b, now) {
        IdleIsFull(l, b, now);
      }
    } else {
      assert Gain(l.maxIdle, l.rate) == l.rate * l.maxIdle;
      var now := NotFullAt(l, 0.0, 0.0);
      assert Idle(l, Bucket(0.0, 0.0), now) && !FullAgain(l, Bucket(0.0, 0.0), now);
    }
  }

  lemma EvictSimulates(l: Limits, m: Buckets, ideal: Buckets, now: real)
    requires FillsWhenIdle(l) && WithinLimits(l, ideal, now) && Simulates(l, m, ideal, now)
    ensures Simulates(l, Evict(l, m, now), ideal, now)
  {
    forall k | k in ideal && k !in Evict(l, m, now) ensures FullAgain(l, ideal[k], now) {
      if k in m { IdleIsFull(l, ideal[k], now); }
    }
  }

  lemma PutSimulates(l: Limits, m: Buckets, ideal: Buckets, key: string, b: Bucket, now: real)
    requires Simulates(l, m, ideal, now)
    ensures Simulates(l, m[key := b], ideal[key := b], now)
  {
  }

  lemma KeepSimulates(l: Limits, m: Buckets, ideal: Buckets, c: Call)
    requires Simulates(l, m, ideal, c.now)
    ensures Simulates(l, Keep(l, m, c), Keep(l, ideal, c), c.now)
  {
    SameRefill(l, m, ideal, c.key, c.now);
    var b := Refilled(l, m, c.key, c.now);
    PutSimulates(l, m, ideal, c.key, if b.tokens >= 1.0 then b.(tokens := b.tokens - 1.0) else b, c.now);
  }

  lemma StepSimulates(l: Limits, m: Buckets, ideal: Buckets, c: Call, earlier: real)
    requires FillsWhenIdle(l) && earlier <= c.now
    requires WithinLimits(l, ideal, earlier) && Simulates(l, m, ideal, earlier)
    ensures Simulates(l, KeepOrEvict(l, m, c), Keep(l, ideal, c), c.now)
  {
    SimulatesLater(l, m, ideal, earlier, c.now);
    KeepSimulates(l, m, ideal, c);
    KeepWithin(l, ideal, c, earlier);
    EvictSimulates(l, Keep(l, m, c), Keep(l, ideal, c), c.now);
  }

  lemma {:induction false} RunSimulates(l: Limits, calls: seq<Call>, now: real)
    requires FillsWhenIdle(l) && InOrder(calls) && forall i :: 0 <= i < |calls| ==> calls[i].now <= now
    ensures WithinLimits(l, Ideal(l, calls), now) && Simulates(l, Real(l, calls), Ideal(l, calls), now)
  {
    if calls != [] {
      var init, last := calls[..|calls| - 1], calls[|calls| - 1];
      RunSimulates(l, init, last.now);
      StepSimulates(l, Real(l, init), Ideal(l, init), last, last.now);
      KeepWithin(l, Ideal(l, init), last, last.now);
      SimulatesLater(l, Real(l, calls), Ideal(l, calls), last.now, now);
    }
  }

  /** Forgetting idle clients changes no answer: over every sequence of calls on a
      clock that does not go back, the limiter answers as one that never forgets. */
  lemma EvictionIsInvisible(l: Limits, calls: seq<Call>, i: nat)
    requires FillsWhenIdle(l) && InOrder(calls) && i < |calls|
    ensures RealAnswer(l, calls, i) <==> IdealAnswer(l, calls, i)
  {
    RunSimulates(l, calls[..i], calls[i].now);
    SameRefill(l, Real(l, calls[..i]), Ideal(l, calls[..i]), calls[i].key, calls[i].now);
  }

  // ---- Forgetting is visible -----------------------------------------------

  /** A clock that does not go back reads `now` after `calls`. */
  ghost predicate EndsBy(calls: seq<Call>, now: real) {
    InOrder(calls) && forall i :: 0 <= i < |calls| ==> calls[i].now <= now
  }

  lemma OneMoreCall(l: Limits, calls: seq<Call>, c: Call, earlier: real)
    requires EndsBy(calls, earlier) && earlier <= c.now
    ensures EndsBy(calls + [c], c.now)
    ensures Real(l, calls + [c]) == KeepOrEvict(l, Real(l, calls), c)
    ensures Ideal(l, calls + [c]) == Keep(l, Ideal(l, calls), c)
    ensures RealAnswer(l, calls + [c], |calls|) == Allowed(l, Real(l, calls), c)
    ensures IdealAnswer(l, calls + [c], |calls|) == Allowed(l, Ideal(l, calls), c)
  {
    assert (calls + [c])[..|calls|] == calls;
  }

  /** The clients of a run that fills the limiter: "", "x", "xx" and so on. */
  function Client(n: nat): (key: string)
    ensures |key| == n
  {
    seq(n, _ => 'x')
  }

  /** Client 0 was last seen at `seen`; clients 1 to `n` were each allowed a call at
      `now`. */
  function Crowd(l: Limits, tokens: real, seen: real, now: real, n: nat): Buckets {
    if n == 0 then map[Client(0) := Bucket(tokens, seen)]
    else Crowd(l, tokens, seen, now, n - 1)[Client(n) := Bucket(l.capacity - 1.0, now)]
  }

  lemma {:induction false} CrowdIs(l: Limits, tokens: real, seen: real, now: real, n: nat)
    ensures var m := Crowd(l, tokens, seen, now, n);
            && |m| == n + 1 && Client(0) in m && m[Client(0)] == Bucket(tokens, seen)
            && forall k :: k in m ==> |k| <= n && (k == Client(0) || m[k].lastRefill == now)
  {
    if n > 0 { CrowdIs(l, tokens, seen, now, n - 1); }
  }

  /** A client that is not known is allowed a call. */
  lemma NewClient(l: Limits, m: Buckets, key: string, now: real)
    requires l.capacity >= 1.0 && key !in m
    ensures Allowed(l, m, Call(key, now)) && Keep(l, m, Call(key, now)) == m[key := Bucket(l.capacity - 1.0, now)]
    ensures |m| < MAX_BUCKETS ==> KeepOrEvict(l, m, Call(key, now)) == Keep(l, m, Call(key, now))
  {
    assert |m[key := Bucket(l.capacity - 1.0, now)]| == |m| + 1;
  }

  lemma CrowdGrows(l: Limits, tokens: real, seen: real, now: real, n: nat, m: Buckets)
    requires l.capacity >= 1.0 && n > 0 && m == Crowd(l, tokens, seen, now, n - 1)
    ensures Keep(l, m, Call(Client(n), now)) == Crowd(l, tokens, seen, now, n) && Allowed(l, m, Call(Client(n), now))
    ensures n < MAX_BUCKETS ==> KeepOrEvict(l, m, Call(Client(n), now)) == Crowd(l, tokens, seen, now, n)
  {
    CrowdIs(l, tokens, seen, now, n - 1);
    NewClient(l, m, Client(n), now);
  }

  /** What a bucket holds at `later`. */
  function HasAt(l: Limits, tokens: real, now: real, later: real): real {
    if now < later then MinReal(l.capacity, tokens + Gain(later - now, l.rate)) else tokens
  }

  lemma LoneStep(l: Limits, m: Buckets, tokens: real, now: real, later: real, has: real)
    requires m == map[Client(0) := Bucket(tokens, now)] && now <= later && 1.0 <= has
    requires has == HasAt(l, tokens, now, later)
    ensures Allowed(l, m, Call(Client(0), later))
    ensures KeepOrEvict(l, m, Call(Client(0), later)) == map[Client(0) := Bucket(has - 1.0, later)]
    ensures Keep(l, m, Call(Client(0), later)) == map[Client(0) := Bucket(has - 1.0, later)]
  {
    var after := map[Client(0) := Bucket(has - 1.0, later)];
    assert m[Client(0) := Bucket(has - 1.0, later)] == after && |after| == 1;
  }

  /** The only client takes a token, at once or after waiting for it. */
  lemma LoneCall(l: Limits, calls: seq<Call>, tokens: real, now: real, later: real, has: real) returns (all: seq<Call>)
    requires EndsBy(calls, now) && now <= later && 1.0 <= has
    requires Real(l, calls) == Ideal(l, calls) == map[Client(0) := Bucket(tokens, now)]
    requires has == HasAt(l, tokens, now, later)
    ensures EndsBy(all, later) && Real(l, all) == Ideal(l, all) == map[Client(0) := Bucket(has - 1.0, later)]
  {
    LoneStep(l, Real(l, calls), tokens, now, later, has);
    OneMoreCall(l, calls, Call(Client(0), later), now);
    all := calls + [Call(Client(0), later)];
  }

  /** Client 0 spends what it has; `spent` is so little that its bucket is not full
      again when it becomes idle. */
  lemma {:induction false} SpendAll(l: Limits, calls: seq<Call>, tokens: real, now: real, n: nat)
    returns (all: seq<Call>, spent: real, end: real)
    requires l.capacity >= 1.0 && l.rate >= 0.0 && Gain(l.maxIdle, l.rate) < l.capacity
    requires 0.0 <= tokens <= l.capacity && tokens < n as real && EndsBy(calls, now)
    requires Real(l, calls) == Ideal(l, calls) == map[Client(0) := Bucket(tokens, now)]
    requires l.rate == 0.0 ==> tokens <= l.capacity - 1.0
    ensures EndsBy(all, end) && Real(l, all) == Ideal(l, all) == map[Client(0) := Bucket(spent, end)]
    ensures 0.0 <= spent && spent + Gain(l.maxIdle, l.rate) < l.capacity
    ensures l.rate == 0.0 ==> spent <= l.capacity - 1.0
    decreases n
  {
    if tokens == 0.0 || l.rate == 0.0 {
      assert l.rate == 0.0 ==> Gain(l.maxIdle, l.rate) == 0.0;
      return calls, tokens, now;
    }
    if tokens >= 1.0 {
      var next := LoneCall(l, calls, tokens, now, now, tokens);
      all, spent, end := SpendAll(l, next, tokens - 1.0, now, n - 1);
    } else {
      WaitFor(l, 1.0 - tokens);
      spent, end := 0.0, now + (1.0 - tokens) / l.rate;
      all := LoneCall(l, calls, tokens, now, end, 1.0);
    }
  }

  /** Other clients fill the limiter, all allowed, none dropped yet. */
  lemma {:induction false} FillUp(l: Limits, calls: seq<Call>, tokens: real, seen: real, now: real, n: nat) returns (all: seq<Call>)
    requires l.capacity >= 1.0 && seen <= now && EndsBy(calls, seen) && n < MAX_BUCKETS
    requires Real(l, calls) == Ideal(l, calls) == map[Client(0) := Bucket(tokens, seen)]
    ensures EndsBy(all, now) && Real(l, all) == Ideal(l, all) == Crowd(l, tokens, seen, now, n)
  {
    if n == 0 {
      all := calls;
    } else {
      var init := FillUp(l, calls, tokens, seen, now, n - 1);
      CrowdGrows(l, tokens, seen, now, n, Real(l, init));
      OneMoreCall(l, init, Call(Client(n), now), now);
      all := init + [Call(Client(n), now)];
    }
  }

  /** One client too many: client 0 is dropped and nobody else. */
  lemma Overflow(l: Limits, calls: seq<Call>, tokens: real, seen: real, now: real, n: nat) returns (all: seq<Call>)
    requires l.capacity >= 1.0 && l.maxIdle >= 0.0 && now - seen > l.maxIdle && EndsBy(calls, now) && n == MAX_BUCKETS
    requires Real(l, calls) == Ideal(l, calls) == Crowd(l, tokens, seen, now, n - 1)
    ensures EndsBy(all, now) && Client(0) !in Real(l, all)
    ensures Client(0) in Ideal(l, all) && Ideal(l, all)[Client(0)] == Bucket(tokens, seen)
  {
    CrowdGrows(l, tokens, seen, now, n, Real(l, calls));
    CrowdIs(l, tokens, seen, now, n);
    OneMoreCall(l, calls, Call(Client(n), now), now);
    all := calls + [Call(Client(n), now)];
  }

  /** A client that was just refilled survives its own call. */
  lemma OwnCall(l: Limits, m: Buckets, c: Call)
    requires l.maxIdle >= 0.0 && Refilled(l, m, c.key, c.now).lastRefill == c.now
    ensures c.key in KeepOrEvict(l, m, c) && KeepOrEvict(l, m, c)[c.key] == Keep(l, m, c)[c.key]
    ensures KeepOrEvict(l, m, c)[c.key]
            == Bucket(Refilled(l, m, c.key, c.now).tokens - if Allowed(l, m, c) then 1.0 else 0.0, c.now)
  {
  }

  /** A call at the time of the last refill, allowed by both limiters. */
  lemma BothAllow(l: Limits, calls: seq<Call>, key: string, more: real, less: real, now: real) returns (all: seq<Call>)
    requires l.maxIdle >= 0.0 && EndsBy(calls, now) && 1.0 <= less <= more
    requires key in Real(l, calls) && Real(l, calls)[key] == Bucket(more, now)
    requires key in Ideal(l, calls) && Ideal(l, calls)[key] == Bucket(less, now)
    ensures EndsBy(all, now)
    ensures key in Real(l, all) && Real(l, all)[key] == Bucket(more - 1.0, now)
    ensures key in Ideal(l, all) && Ideal(l, all)[key] == Bucket(less - 1.0, now)
  {
    var c := Call(key, now);
    OneMoreCall(l, calls, c, now);
    OwnCall(l, Real(l, calls), c);
    all := calls + [c];
  }

  /** A call that only one limiter has a token for. */
  lemma OneAllows(l: Limits, calls: seq<Call>, key: string, more: real, less: real, now: real, later: real) returns (all: seq<Call>)
    requires EndsBy(calls, now) && now <= later && HasAt(l, less, now, later) < 1.0 <= HasAt(l, more, now, later)
    requires key in Real(l, calls) && Real(l, calls)[key] == Bucket(more, now)
    requires key in Ideal(l, calls) && Ideal(l, calls)[key] == Bucket(less, now)
    ensures InOrder(all) && all != [] && RealAnswer(l, all, |all| - 1) && !IdealAnswer(l, all, |all| - 1)
  {
    OneMoreCall(l, calls, Call(key, later), now);
    all := calls + [Call(key, later)];
  }

  /** A client with more tokens in one limiter than in the other will be allowed a
      call by that one alone. */
  lemma {:induction false} Diverge(l: Limits, calls: seq<Call>, key: string, more: real, less: real, now: real, n: nat)
    returns (all: seq<Call>)
    requires l.capacity >= 1.0 && l.rate >= 0.0 && l.maxIdle >= 0.0 && EndsBy(calls, now)
    requires key in Real(l, calls) && Real(l, calls)[key] == Bucket(more, now)
    requires key in Ideal(l, calls) && Ideal(l, calls)[key] == Bucket(less, now)
    requires 0.0 <= less < more && less < n as real && (l.rate == 0.0 ==> less + 1.0 <= more)
    ensures InOrder(all) && all != [] && RealAnswer(l, all, |all| - 1) && !IdealAnswer(l, all, |all| - 1)
    decreases n
  {
    if less >= 1.0 {
      var next := BothAllow(l, calls, key, more, less, now);
      all := Diverge(l, next, key, more - 1.0, less - 1.0, now, n - 1);
    } else if more >= 1.0 {
      all := OneAllows(l, calls, key, more, less, now, now);
    } else {
      WaitFor(l, 1.0 - more);
      all := OneAllows(l, calls, key, more, less, now, now + (1.0 - more) / l.rate);
    }
  }

  /** With room for a token but not the time to fill up, there is a run on which
      forgetting a client allows a call too many. */
  lemma VisibleRun(l: Limits) returns (calls: seq<Call>)
    requires l.capacity >= 1.0 && l.rate >= 0.0 && l.maxIdle >= 0.0 && Gain(l.maxIdle, l.rate) < l.capacity
    ensures InOrder(calls) && calls != [] && RealAnswer(l, calls, |calls| - 1) && !IdealAnswer(l, calls, |calls| - 1)
  {
    OneMoreCall(l, [], Call(Client(0), 0.0), 0.0);
    var first := [] + [Call(Client(0), 0.0)];
    var spending, tokens, seen := SpendAll(l, first, l.capacity - 1.0, 0.0, l.capacity.Floor + 1);
    var now := NotFullAt(l, tokens, seen);
    var full := FillUp(l, spending, tokens, seen, now, MAX_BUCKETS - 1);
    var dropped := Overflow(l, full, tokens, seen, now, MAX_BUCKETS);
    calls := Return(l, dropped, Client(0), tokens, seen, now);
  }

  /** The forgotten client comes back. */
  lemma Return(l: Limits, calls: seq<Call>, key: string, tokens: real, seen: real, now: real) returns (all: seq<Call>)
    requires l.capacity >= 1.0 && l.rate >= 0.0 && l.maxIdle >= 0.0 && EndsBy(calls, now)
    requires key !in Real(l, calls) && key in Ideal(l, calls) && Ideal(l, calls)[key] == Bucket(tokens, seen)
    requires seen < now && 0.0 <= tokens && tokens + Gain(now - seen, l.rate) < l.capacity
    requires l.rate == 0.0 ==> tokens <= l.capacity - 1.0
    ensures InOrder(all) && all != [] && RealAnswer(l, all, |all| - 1) && !IdealAnswer(l, all, |all| - 1)
  {
    var c := Call(key, now);
    OneMoreCall(l, calls, c, now);
    all := calls + [c];
    MulMonotone(0.0, now - seen, l.rate);
    var less := tokens + Gain(now - seen, l.rate);
    if less >= 1.0 {
      OwnCall(l, Real(l, calls), c);
      all := Diverge(l, all, key, l.capacity - 1.0, less - 1.0, now, less.Floor + 1);
    }
  }

  ghost predicate AtMost(l: Limits, m: Buckets) {
    forall k :: k in m ==> m[k].tokens <= l.capacity
  }

  /** Where no call is ever allowed, nothing is ever dropped. */
  lemma {:induction false} NothingAllowed(l: Limits, calls: seq<Call>)
    requires l.capacity < 1.0
    ensures Real(l, calls) == Ideal(l, calls) && AtMost(l, Ideal(l, calls))
  {
    if calls != [] { NothingAllowed(l, calls[..|calls| - 1]); }
  }

  /** Every run is answered as by a limiter that never forgets. */
  ghost predicate Invisible(l: Limits) {
    forall calls, i: nat :: InOrder(calls) && i < |calls| ==> RealAnswer(l, calls, i) == IdealAnswer(l, calls, i)
  }

  /** Forgetting changes no answer of any run exactly when a whole bucket comes back
      in the idle time, or no call is ever allowed. */
  lemma InvisibleIff(l: Limits)
    requires l.capacity >= 0.0 && l.rate >= 0.0 && l.maxIdle >= 0.0
    ensures Invisible(l) <==> l.rate * l.maxIdle >= l.capacity || l.capacity < 1.0
  {
    assert Gain(l.maxIdle, l.rate) == l.rate * l.maxIdle;
    if l.capacity >= 1.0 && l.rate * l.maxIdle < l.capacity {
      var calls := VisibleRun(l);
      assert !Invisible(l) by { assert RealAnswer(l, calls, |calls| - 1) != IdealAnswer(l, calls, |calls| - 1); }
    } else {
      forall calls, i: nat | InOrder(calls) && i < |calls| ensures RealAnswer(l, calls, i) == IdealAnswer(l, calls, i) {
        if l.capacity < 1.0 { NothingAllowed(l, calls[..i]); } else { EvictionIsInvisible(l, calls, i); }
      }
    }
  }

  /** The limits the API server uses: a budget per minute, refilled over a minute. */
  lemma RequestLimitersFill(perMinute: int)
    requires perMinute > 0
    ensures FillsWhenIdle(Limits(perMinute as real, perMinute as real / 60.0, 600.0))
  {
  }

  // ---- The bound on every client -------------------------------------------

  ghost function Taken(l: Limits, calls: seq<Call>, key: string, j: nat): nat
    requires j < |calls|
  {
    if calls[j].key == key && RealAnswer(l, calls, j) then 1 else 0
  }

  /** How many of the calls `calls[i..j]` of `key` are allowed. */
  ghost function AllowedCount(l: Limits, calls: seq<Call>, key: string, i: nat, j: nat): nat
    requires i <= j <= |calls|
    decreases j
  {
    if i == j then 0
    else AllowedCount(l, calls, key, i, j - 1) + Taken(l, calls, key, j - 1)
  }

  ghost function Available(l: Limits, m: Buckets, key: string, now: real): real {
    Refilled(l, m, key, now).tokens
  }

  lemma RefillAtMost(l: Limits, b: Bucket, earlier: real, now: real)
    requires l.rate >= 0.0 && b.lastRefill <= earlier <= now && b.tokens <= l.capacity
    ensures MinReal(l.capacity, b.tokens + Gain(now - b.lastRefill, l.rate))
            <= MinReal(l.capacity, b.tokens + Gain(earlier - b.lastRefill, l.rate)) + Gain(now - earlier, l.rate)
  {
    MulSplits(b.lastRefill, earlier, now, l.rate);
    MulMonotone(0.0, now - earlier, l.rate);
  }

  lemma AvailableGrows(l: Limits, m: Buckets, key: string, earlier: real, now: real)
    requires FillsWhenIdle(l) && WithinLimits(l, m, earlier) && earlier <= now
    ensures Available(l, m, key, now) <= l.capacity
    ensures Available(l, m, key, now) <= Available(l, m, key, earlier) + Gain(now - earlier, l.rate)
  {
    if key in m {
      RefillAtMost(l, m[key], earlier, now);
    } else {
      MulMonotone(0.0, now - earlier, l.rate);
    }
  }

  lemma AvailableAfter(l: Limits, m: Buckets, key: string, c: Call)
    requires WithinLimits(l, m, c.now)
    ensures Available(l, Keep(l, m, c), key, c.now)
            == Available(l, m, key, c.now) - if c.key == key && Allowed(l, m, c) then 1.0 else 0.0
  {
  }

  /** What `key` can still take right after call `j - 1`. */
  ghost function Left(l: Limits, calls: seq<Call>, key: string, j: nat): real
    requires 0 < j <= |calls|
  {
    Available(l, Ideal(l, calls[..j]), key, calls[j - 1].now)
  }

  /** A call takes its token out of what was left and came back since. */
  lemma CallSpends(l: Limits, m: Buckets, key: string, c: Call, earlier: real)
    requires FillsWhenIdle(l) && WithinLimits(l, m, earlier) && earlier <= c.now
    ensures var left := Available(l, Keep(l, m, c), key, c.now) + if c.key == key && Allowed(l, m, c) then 1.0 else 0.0;
            left <= l.capacity && left <= Available(l, m, key, earlier) + Gain(c.now - earlier, l.rate)
  {
    AvailableAfter(l, m, key, c);
    AvailableGrows(l, m, key, earlier, c.now);
  }

  lemma LeftAfterFirst(l: Limits, calls: seq<Call>, key: string, j: nat)
    requires FillsWhenIdle(l) && InOrder(calls) && 0 < j <= |calls|
    ensures Left(l, calls, key, j) + Taken(l, calls, key, j - 1) as real <= l.capacity
  {
    var c := calls[j - 1];
    assert calls[..j][..j - 1] == calls[..j - 1];
    EvictionIsInvisible(l, calls, j - 1);
    RunSimulates(l, calls[..j - 1], c.now);
    CallSpends(l, Ideal(l, calls[..j - 1]), key, c, c.now);
  }

  lemma LeftAfterNext(l: Limits, calls: seq<Call>, key: string, j: nat)
    requires FillsWhenIdle(l) && InOrder(calls) && 1 < j <= |calls|
    ensures Left(l, calls, key, j) + Taken(l, calls, key, j - 1) as real
            <= Left(l, calls, key, j - 1) + Gain(calls[j - 1].now - calls[j - 2].now, l.rate)
  {
    var c, earlier, before := calls[j - 1], calls[j - 2].now, Ideal(l, calls[..j - 1]);
    assert Ideal(l, calls[..j]) == Keep(l, before, c) by {
      assert calls[..j][..j - 1] == calls[..j - 1];
    }
    assert RealAnswer(l, calls, j - 1) <==> Allowed(l, before, c) by {
      EvictionIsInvisible(l, calls, j - 1);
    }
    assert WithinLimits(l, before, earlier) by {
      RunSimulates(l, calls[..j - 1], earlier);
    }
    CallSpends(l, before, key, c, earlier);
  }

  lemma AddUp(count: nat, taken: nat, left: real, before: real, capacity: real, rate: real, t0: real, t1: real, t2: real)
    requires count as real + before <= capacity + Gain(t1 - t0, rate)
    requires left + taken as real <= before + Gain(t2 - t1, rate)
    ensures (count + taken) as real + left <= capacity + Gain(t2 - t0, rate)
  {
    MulSplits(t0, t1, t2, rate);
  }

  lemma {:induction false} Budget(l: Limits, calls: seq<Call>, key: string, i: nat, j: nat)
    requires FillsWhenIdle(l) && InOrder(calls) && i < j <= |calls|
    ensures AllowedCount(l, calls, key, i, j) as real + Left(l, calls, key, j)
            <= l.capacity + Gain(calls[j - 1].now - calls[i].now, l.rate)
    decreases j
  {
    if i == j - 1 {
      LeftAfterFirst(l, calls, key, j);
      var taken, elapsed := Taken(l, calls, key, j - 1), calls[j - 1].now - calls[i].now;
      assert AllowedCount(l, calls, key, i, j) == taken;
      assert elapsed == 0.0 && Gain(elapsed, l.rate) == 0.0;
    } else {
      Budget(l, calls, key, i, j - 1);
      LeftAfterNext(l, calls, key, j);
      AddUp(AllowedCount(l, calls, key, i, j - 1), Taken(l, calls, key, j - 1), Left(l, calls, key, j),
            Left(l, calls, key, j - 1), l.capacity, l.rate, calls[i].now, calls[j - 2].now, calls[j - 1].now);
    }
  }

  /** In any interval, however long the run before it, a client is allowed at most a
      full bucket plus what the interval refills. */
  lemma AtMostCapacityPlusRefill(l: Limits, calls: seq<Call>, key: string, i: nat, j: nat)
    requires FillsWhenIdle(l) && InOrder(calls) && i < j <= |calls|
    ensures AllowedCount(l, calls, key, i, j) as real <= l.capacity + Gain(calls[j - 1].now - calls[i].now, l.rate)
  {
    Budget(l, calls, key, i, j);
    RunSimulates(l, calls[..j], calls[j - 1].now);
    RefilledWithin(l, Ideal(l, calls[..j]), key, calls[j - 1].now, calls[j - 1].now);
  }

  // ---- Clients do not affect each other ------------------------------------

  ghost function Own(calls: seq<Call>, key: string): seq<Call> {
    if calls == [] then []
    else
      var before, last := Own(calls[..|calls| - 1], key), calls[|calls| - 1];
      if last.key == key then before + [last] else before
  }

  /** `key` finds the same bucket in both. */
  predicate SameBucket(m: Buckets, n: Buckets, key: string) {
    (key in m <==> key in n) && (key in m ==> m[key] == n[key])
  }

  lemma SameBucketSameAnswer(l: Limits, m: Buckets, n: Buckets, c: Call)
    requires SameBucket(m, n, c.key)
    ensures Allowed(l, m, c) == Allowed(l, n, c)
    ensures SameBucket(Keep(l, m, c), Keep(l, n, c), c.key)
  {
  }

  lemma {:induction false} OwnBucket(l: Limits, calls: seq<Call>, key: string)
    ensures SameBucket(Ideal(l, calls), Ideal(l, Own(calls, key)), key)
  {
    if calls != [] {
      var init, last := calls[..|calls| - 1], calls[|calls| - 1];
      OwnBucket(l, init, key);
      if last.key == key {
        SameBucketSameAnswer(l, Ideal(l, init), Ideal(l, Own(init, key)), last);
        assert (Own(init, key) + [last])[..|Own(init, key)|] == Own(init, key);
      }
    }
  }

  /** The answer to a client depends on its own calls only, however many buckets
      other clients make the limiter drop. */
  lemma ClientsAreIsolated(l: Limits, calls: seq<Call>, i: nat)
    requires FillsWhenIdle(l) && InOrder(calls) && i < |calls|
    ensures RealAnswer(l, calls, i) <==> Allowed(l, Ideal(l, Own(calls[..i], calls[i].key)), calls[i])
  {
    EvictionIsInvisible(l, calls, i);
    OwnBucket(l, calls[..i], calls[i].key);
    SameBucketSameAnswer(l, Ideal(l, calls[..i]), Ideal(l, Own(calls[..i], calls[i].key)), calls[i]);
  }
}
