/** adapter/middleware/rate_limit.go: token buckets per client address, with floats as reals. */
module RateLimit {
  import opened Bytes

  /** Seconds an idle bucket is kept: ten minutes. */
  const BUCKET_TTL := 600.0

  datatype RawLimits = Limits(rate: real, capacity: int)

  type Limits = l: RawLimits | l.rate >= 0.0
    witness RawLimits.Limits(0.0, 0)

  datatype Bucket = Bucket(tokens: real, lastCheck: real)

  type Buckets = map<string, Bucket>

  /**
   * `Request` carries the instants at which the call reads the clock: `t1` for the elapsed time (not read for
   * a new bucket) and `t2` for `lastCheck`. `Sweep` is one run of the background cleanup.
   */
  datatype Event = Request(ip: string, t1: real, t2: real) | Sweep(now: real)

  /** Tokens that flow in during `dt` seconds. */
  function Gain(l: Limits, dt: real): real {
    dt * l.rate
  }

  function Refilled(l: Limits, b: Bucket, t: real): real {
    var tokens := b.tokens + Gain(l, t - b.lastCheck);
    if tokens > l.capacity as real then l.capacity as real else tokens
  }

  function Admits(l: Limits, x: Option<Bucket>, t1: real): bool {
    x.None? || Refilled(l, x.value, t1) >= 1.0
  }

  /** The bucket that a request leaves. */
  function Charged(l: Limits, x: Option<Bucket>, t1: real, t2: real): Bucket {
    if x.None? then Bucket(l.capacity as real - 1.0, t2)
    else
      var tokens := Refilled(l, x.value, t1);
      Bucket(if tokens >= 1.0 then tokens - 1.0 else tokens, t2)
  }

  predicate Stale(b: Bucket, now: real) {
    now - b.lastCheck > BUCKET_TTL
  }

  function Lookup(bs: Buckets, ip: string): Option<Bucket> {
    if ip in bs then Some(bs[ip]) else None
  }

  function StepAll(l: Limits, bs: Buckets, e: Event): Buckets {
    match e
    case Request(ip, t1, t2) => bs[ip := Charged(l, Lookup(bs, ip), t1, t2)]
    case Sweep(now) => map ip | ip in bs && !Stale(bs[ip], now) :: bs[ip]
  }

  class RateLimiter {
    var buckets: Buckets
    const limits: Limits

    constructor (limits: Limits)
      ensures this.limits == limits && buckets == map[]
    {
      this.limits := limits;
      buckets := map[];
    }

    method Allow(ip: string, t1: real, t2: real) returns (ok: bool)
      modifies this
      ensures ok == Admits(limits, Lookup(old(buckets), ip), t1)
      ensures buckets == StepAll(limits, old(buckets), Request(ip, t1, t2))
    {
      if ip !in buckets {
        buckets := buckets[ip := Bucket(limits.capacity as real - 1.0, t2)];
        return true;
      }
      var b := buckets[ip];
      var elapsed := t1 - b.lastCheck;
      var tokens := b.tokens + elapsed * limits.rate;
      if tokens > limits.capacity as real {
        tokens := limits.capacity as real;
      }
      assert tokens == Refilled(limits, b, t1);
      if tokens < 1.0 {
        buckets := buckets[ip := Bucket(tokens, t2)];
        return false;
      }
      buckets := buckets[ip := Bucket(tokens - 1.0, t2)];
      return true;
    }

    method Cleanup(now: real)
      modifies this
      ensures buckets == StepAll(limits, old(buckets), Sweep(now))
    {
      var todo := buckets.Keys;
      while todo != {}
        invariant forall ip :: ip in buckets <==> ip in old(buckets) && (ip in todo || !Stale(old(buckets)[ip], now))
        invariant forall ip :: ip in buckets ==> buckets[ip] == old(buckets)[ip]
        invariant todo <= old(buckets).Keys
        decreases |todo|
      {
        var ip :| ip in todo;
        if now - buckets[ip].lastCheck > BUCKET_TTL {
          buckets := buckets - {ip};
        }
        todo := todo - {ip};
      }
    }
  }
}

/** What one client gets over a run of everybody's requests and of sweeps. */
module RateLimitRuns {
  import opened Bytes
  import opened RateLimit

  function AfterAll(l: Limits, bs: Buckets, run: seq<Event>): Buckets {
    if run == [] then bs else StepAll(l, AfterAll(l, bs, run[..|run| - 1]), run[|run| - 1])
  }

  // ---- one client's bucket ----

  function Step(l: Limits, ip: string, x: Option<Bucket>, e: Event): Option<Bucket> {
    match e
    case Request(i, t1, t2) => if i == ip then Some(Charged(l, x, t1, t2)) else x
    case Sweep(now) => if x.Some? && Stale(x.value, now) then None else x
  }

  function After(l: Limits, ip: string, x: Option<Bucket>, run: seq<Event>): Option<Bucket> {
    if run == [] then x else Step(l, ip, After(l, ip, x, run[..|run| - 1]), run[|run| - 1])
  }

  predicate AdmittedBy(l: Limits, ip: string, x: Option<Bucket>, e: Event) {
    e.Request? && e.ip == ip && Admits(l, x, e.t1)
  }

  /** How many requests of the client the run admits. */
  function Admitted(l: Limits, ip: string, x: Option<Bucket>, run: seq<Event>): nat {
    if run == [] then 0
    else
      var init := run[..|run| - 1];
      Admitted(l, ip, x, init) + if AdmittedBy(l, ip, After(l, ip, x, init), run[|run| - 1]) then 1 else 0
  }

  /** Clients do not interfere: a client's bucket depends on its own requests and the sweeps alone. */
  lemma {:induction false} BucketsAreIndependent(l: Limits, ip: string, bs: Buckets, run: seq<Event>)
    ensures Lookup(AfterAll(l, bs, run), ip) == After(l, ip, Lookup(bs, ip), run)
    decreases |run|
  {
    if run != [] {
      BucketsAreIndependent(l, ip, bs, run[..|run| - 1]);
    }
  }

  // ---- time ----

  function Begin(e: Event): real {
    if e.Request? then e.t1 else e.now
  }

  function End(e: Event): real {
    if e.Request? then e.t2 else e.now
  }

  function Clock(s: real, run: seq<Event>): real {
    if run == [] then s else End(run[|run| - 1])
  }

  /** Calls hold the limiter's mutex, so the clock readings of one come before those of the next. */
  predicate Timely(s: real, run: seq<Event>) {
    if run == [] then true
    else
      var init, e := run[..|run| - 1], run[|run| - 1];
      Timely(s, init) && Clock(s, init) <= Begin(e) <= End(e)
  }

  // ---- the level of a bucket ----

  /** The burst a fresh bucket gives: a first request is always admitted, even with capacity 0. */
  function Burst(l: Limits): real {
    if l.capacity < 1 then 1.0 else l.capacity as real
  }

  function Least(x: real, y: real): real {
    if x < y then x else y
  }

  function Credit(l: Limits, b: Bucket): real {
    if l.capacity < 1 then 0.0 else b.tokens
  }

  /** What the client could spend at once at instant `t`. */
  function Level(l: Limits, x: Option<Bucket>, t: real): real {
    if x.None? then Burst(l) else Least(Burst(l), Credit(l, x.value) + Gain(l, t - x.value.lastCheck))
  }

  predicate Sound(l: Limits, x: Option<Bucket>, clock: real) {
    x.Some? ==>
      && x.value.lastCheck <= clock
      && 0.0 <= Credit(l, x.value) <= Burst(l) && x.value.tokens <= l.capacity as real
  }

  lemma RateTimesSeconds(l: Limits, dt: real)
    ensures Gain(l, dt) == l.rate * dt
  {
  }

  lemma GainAdds(l: Limits, a: real, b: real)
    ensures Gain(l, a) + Gain(l, b) == Gain(l, a + b)
  {
  }

  lemma GainMonotone(l: Limits, a: real, b: real)
    requires a <= b
    ensures Gain(l, a) <= Gain(l, b) && Gain(l, 0.0) == 0.0
  {
    GainAdds(l, a, b - a);
    NoLoss(b - a, l.rate);
  }

  lemma NoLoss(a: real, b: real)
    requires a >= 0.0 && b >= 0.0
    ensures a * b >= 0.0
  {
  }

  lemma LevelGrows(l: Limits, x: Option<Bucket>, t: real, u: real)
    requires t <= u
    ensures Level(l, x, u) <= Level(l, x, t) + Gain(l, u - t)
  {
    GainMonotone(l, 0.0, u - t);
    if x.Some? {
      GainAdds(l, t - x.value.lastCheck, u - t);
    }
    hide Gain;
  }

  lemma BurstIsPositive(l: Limits)
    ensures Burst(l) >= 1.0
  {
  }

  lemma CreditGrows(l: Limits, b: Bucket, t: real)
    requires Sound(l, Some(b), t)
    ensures 0.0 <= Credit(l, b) <= Credit(l, b) + Gain(l, t - b.lastCheck)
  {
    GainMonotone(l, 0.0, t - b.lastCheck);
  }

  lemma LevelRange(l: Limits, x: Option<Bucket>, t: real)
    requires Sound(l, x, t)
    ensures 0.0 <= Level(l, x, t) <= Burst(l)
  {
    BurstIsPositive(l);
    if x.Some? {
      CreditGrows(l, x.value, t);
    }
  }

  /** At the instant of its last check a bucket's level is its credit. */
  lemma LevelAtCheck(l: Limits, b: Bucket)
    requires Credit(l, b) <= Burst(l)
    ensures Level(l, Some(b), b.lastCheck) == Credit(l, b)
  {
    GainMonotone(l, 0.0, 0.0);
  }

  lemma RefilledLevel(l: Limits, b: Bucket, t: real)
    requires Sound(l, Some(b), t)
    ensures l.capacity >= 1 ==> Refilled(l, b, t) == Level(l, Some(b), t)
    ensures l.capacity < 1 ==> Refilled(l, b, t) < 1.0
  {
  }

  lemma ChargedCredit(l: Limits, x: Option<Bucket>, t1: real, t2: real)
    requires 0.0 <= Level(l, x, t1) <= Burst(l)
    requires x.Some? ==>
               if l.capacity >= 1 then Refilled(l, x.value, t1) == Level(l, x, t1) else Refilled(l, x.value, t1) < 1.0
    ensures var b := Charged(l, x, t1, t2);
            && 0.0 <= Credit(l, b) <= Burst(l) && b.tokens <= l.capacity as real
            && Credit(l, b) <= Level(l, x, t1) - if Admits(l, x, t1) then 1.0 else 0.0
  {
  }

  /** A request spends one unit of the level at its first reading if it is admitted, and nothing otherwise. */
  lemma RequestSpends(l: Limits, x: Option<Bucket>, t1: real, t2: real)
    requires Sound(l, x, t1) && t1 <= t2
    ensures var x' := Some(Charged(l, x, t1, t2));
            && Sound(l, x', t2)
            && Level(l, x', t2) <= Level(l, x, t1) - if Admits(l, x, t1) then 1.0 else 0.0
  {
    var b := Charged(l, x, t1, t2);
    LevelRange(l, x, t1);
    BurstIsPositive(l);
    if x.Some? {
      RefilledLevel(l, x.value, t1);
    }
    ChargedCredit(l, x, t1, t2);
    LevelAtCheck(l, b);
  }

  /** An idle time of the whole TTL fills every bucket when the rate is high enough. */
  lemma StaleIsFull(l: Limits, b: Bucket, now: real)
    requires Sound(l, Some(b), now) && Stale(b, now) && Gain(l, BUCKET_TTL) >= Burst(l)
    ensures Level(l, Some(b), now) == Burst(l)
  {
    GainMonotone(l, BUCKET_TTL, now - b.lastCheck);
  }

  // ---- the bound ----

  predicate NoSweeps(run: seq<Event>) {
    forall e :: e in run ==> e.Request?
  }

  /** The sweeps of the run can be tolerated: there are none, or an idle bucket is full when it goes. */
  predicate Harmless(l: Limits, run: seq<Event>) {
    NoSweeps(run) || Gain(l, BUCKET_TTL) >= Burst(l)
  }

  predicate Bounded(l: Limits, ip: string, x: Option<Bucket>, s: real, run: seq<Event>) {
    var t := Clock(s, run);
    && Sound(l, After(l, ip, x, run), t)
    && Admitted(l, ip, x, run) as real + Level(l, After(l, ip, x, run), t) <= Burst(l) + Gain(l, t - s)
  }

  /** One event: what is admitted and what is left grow by no more than the rate gives. */
  lemma EventSpends(l: Limits, ip: string, x: Option<Bucket>, t: real, e: Event)
    requires Sound(l, x, t) && t <= Begin(e) <= End(e) && (e.Sweep? ==> Gain(l, BUCKET_TTL) >= Burst(l))
    ensures var x' := Step(l, ip, x, e);
            && Sound(l, x', End(e))
            && (if AdmittedBy(l, ip, x, e) then 1.0 else 0.0) + Level(l, x', End(e))
               <= Level(l, x, t) + Gain(l, End(e) - t)
  {
    LevelGrows(l, x, t, Begin(e));
    LevelGrows(l, x, t, End(e));
    GainMonotone(l, Begin(e) - t, End(e) - t);
    hide Gain;
    if e.Request? && e.ip == ip {
      RequestSpends(l, x, e.t1, e.t2);
    } else if e.Sweep? && x.Some? && Stale(x.value, e.now) {
      StaleIsFull(l, x.value, e.now);
    }
  }

  lemma {:induction false} RunIsBounded(l: Limits, ip: string, x: Option<Bucket>, s: real, run: seq<Event>)
    requires Sound(l, x, s) && Timely(s, run) && Harmless(l, run)
    ensures Bounded(l, ip, x, s, run)
    decreases |run|
  {
    hide Gain;
    hide Level;
    hide Charged;
    if run == [] {
      LevelRange(l, x, s);
      GainMonotone(l, 0.0, 0.0);
      assert Clock(s, run) - s == 0.0;
    } else {
      var init, e := run[..|run| - 1], run[|run| - 1];
      assert e in run && forall d :: d in init ==> d in run;
      RunIsBounded(l, ip, x, s, init);
      var t := Clock(s, init);
      EventSpends(l, ip, After(l, ip, x, init), t, e);
      GainAdds(l, t - s, End(e) - t);
    }
  }

  /** States a client's bucket can be in at instant `s`. */
  ghost predicate Reachable(l: Limits, ip: string, x: Option<Bucket>, s: real) {
    exists s0: real, run :: Timely(s0, run) && Clock(s0, run) <= s && After(l, ip, None, run) == x
  }

  lemma {:induction false} RunIsSound(l: Limits, ip: string, x: Option<Bucket>, s: real, run: seq<Event>)
    requires Sound(l, x, s) && Timely(s, run)
    ensures Sound(l, After(l, ip, x, run), Clock(s, run))
    decreases |run|
  {
    if run != [] {
      var init, e := run[..|run| - 1], run[|run| - 1];
      RunIsSound(l, ip, x, s, init);
      if e.Request? && e.ip == ip {
        RequestSpends(l, After(l, ip, x, init), e.t1, e.t2);
      }
    }
  }

  lemma ReachableIsSound(l: Limits, ip: string, x: Option<Bucket>, s: real)
    requires Reachable(l, ip, x, s)
    ensures Sound(l, x, s)
  {
    var s0: real, run :| Timely(s0, run) && Clock(s0, run) <= s && After(l, ip, None, run) == x;
    RunIsSound(l, ip, None, s0, run);
  }

  lemma AdmittedWithin(l: Limits, ip: string, x: Option<Bucket>, s: real, window: seq<Event>, seconds: real)
    requires Reachable(l, ip, x, s) && Timely(s, window) && Harmless(l, window) && seconds == Clock(s, window) - s
    ensures Admitted(l, ip, x, window) as real
         <= (if l.capacity < 1 then 1.0 else l.capacity as real) + l.rate * seconds
  {
    hide Gain, Level, Sound, Reachable, Clock;
    ReachableIsSound(l, ip, x, s);
    RateTimesSeconds(l, seconds);
    RunIsBounded(l, ip, x, s, window);
    LevelRange(l, After(l, ip, x, window), Clock(s, window));
  }

  /**
   * From any state the limiter can be in, a window without sweeps admits at most the burst and the rate
   * times the window's length, whoever else sends requests.
   */
  lemma WindowBound(l: Limits, ip: string, x: Option<Bucket>, s: real, window: seq<Event>)
    requires Reachable(l, ip, x, s) && Timely(s, window) && NoSweeps(window)
    ensures Admitted(l, ip, x, window) as real
         <= (if l.capacity < 1 then 1.0 else l.capacity as real) + l.rate * (Clock(s, window) - s)
  {
    hide Gain, Burst, Reachable, Clock, Timely, Admitted;
    AdmittedWithin(l, ip, x, s, window, Clock(s, window) - s);
  }

  // ---- eviction ----

  /** The bound, for every window of every run with sweeps. */
  ghost predicate AlwaysBounded(l: Limits, ip: string) {
    forall x, s, window :: Reachable(l, ip, x, s) && Timely(s, window) ==>
      Admitted(l, ip, x, window) as real
      <= (if l.capacity < 1 then 1.0 else l.capacity as real) + l.rate * (Clock(s, window) - s)
  }

  function Requests(ip: string, t: real, n: nat): seq<Event> {
    if n == 0 then [] else Requests(ip, t, n - 1) + [Request(ip, t, t)]
  }

  /** One event more. */
  lemma Extended(l: Limits, ip: string, x: Option<Bucket>, s: real, run: seq<Event>, e: Event)
    ensures Timely(s, run + [e]) <==> Timely(s, run) && Clock(s, run) <= Begin(e) <= End(e)
    ensures Clock(s, run + [e]) == End(e) && After(l, ip, x, run + [e]) == Step(l, ip, After(l, ip, x, run), e)
    ensures Admitted(l, ip, x, run + [e])
         == Admitted(l, ip, x, run) + if AdmittedBy(l, ip, After(l, ip, x, run), e) then 1 else 0
  {
    assert (run + [e])[..|run|] == run;
  }

  /** A whole burst at one instant, sent to an empty slot after `pre`. */
  lemma {:induction false} BurstIsAdmitted(
      l: Limits, ip: string, x: Option<Bucket>, s: real, pre: seq<Event>, t: real, n: nat)
    requires After(l, ip, x, pre).None? && Timely(s, pre) && Clock(s, pre) <= t && n as real <= Burst(l)
    ensures var run := pre + Requests(ip, t, n);
            && Timely(s, run) && Clock(s, run) <= t && Admitted(l, ip, x, run) == Admitted(l, ip, x, pre) + n
            && (n > 0 ==> After(l, ip, x, run) == Some(Bucket((l.capacity - n) as real, t)))
            && (n == 0 ==> run == pre)
    decreases n
  {
    hide Charged, Admits, After, Admitted, Timely, Clock;
    if n > 0 {
      var run := pre + Requests(ip, t, n - 1);
      BurstIsAdmitted(l, ip, x, s, pre, t, n - 1);
      assert pre + Requests(ip, t, n) == run + [Request(ip, t, t)];
      Extended(l, ip, x, s, run, Request(ip, t, t));
      BurstTurn(l, After(l, ip, x, run), t, n);
    } else {
      assert pre + Requests(ip, t, n) == pre;
    }
  }

  lemma BurstTurn(l: Limits, x: Option<Bucket>, t: real, n: nat)
    requires 0 < n && n as real <= Burst(l)
    requires x == if n == 1 then None else Some(Bucket((l.capacity - n + 1) as real, t))
    ensures Admits(l, x, t) && Charged(l, x, t, t) == Bucket((l.capacity - n) as real, t)
  {
    GainMonotone(l, 0.0, 0.0);
  }

  /** A burst, the sweep that forgets it, and a second burst at `t`. */
  function TwoBursts(ip: string, t: real, n: nat): seq<Event> {
    Requests(ip, 0.0, n) + [Sweep(t)] + Requests(ip, t, n)
  }

  lemma TwoBurstsAdmitted(l: Limits, ip: string, t: real, n: nat)
    requires t > BUCKET_TTL && n > 0 && n as real <= Burst(l)
    ensures var run := TwoBursts(ip, t, n);
            Timely(0.0, run) && Clock(0.0, run) <= t && Admitted(l, ip, None, run) == 2 * n
  {
    AtStart(l, ip);
    hide Charged, Admits, After, Admitted, Timely, Clock, Requests;
    var first := Requests(ip, 0.0, n);
    assert [] + first == first;
    BurstIsAdmitted(l, ip, None, 0.0, [], 0.0, n);
    Extended(l, ip, None, 0.0, first, Sweep(t));
    BurstIsAdmitted(l, ip, None, 0.0, first + [Sweep(t)], t, n);
  }

  lemma AtStart(l: Limits, ip: string)
    ensures Timely(0.0, []) && Clock(0.0, []) == 0.0 && After(l, ip, None, []) == None && Admitted(l, ip, None, []) == 0
    ensures Reachable(l, ip, None, 0.0)
  {
    assert Timely(0.0, []) && Clock(0.0, []) <= 0.0 && After(l, ip, None, []) == None;
  }

  /** When the rate cannot fill a bucket within the TTL, some longer wait does not either. */
  lemma ShortWait(l: Limits) returns (t: real)
    requires Gain(l, BUCKET_TTL) < Burst(l)
    ensures t > BUCKET_TTL && Gain(l, t) < Burst(l)
  {
    if l.rate == 0.0 {
      t := BUCKET_TTL + 1.0;
    } else {
      t := (BUCKET_TTL + Burst(l) / l.rate) / 2.0;
      assert Burst(l) / l.rate * l.rate == Burst(l);
      if Burst(l) / l.rate <= BUCKET_TTL {
        GainMonotone(l, Burst(l) / l.rate, BUCKET_TTL);
      }
      assert t * l.rate == (BUCKET_TTL * l.rate + Burst(l)) / 2.0;
    }
  }

  lemma BoundFails(l: Limits, ip: string)
    requires Gain(l, BUCKET_TTL) < Burst(l)
    ensures !AlwaysBounded(l, ip)
  {
    hide Gain, After, Admitted, Timely, Clock, TwoBursts, Answers, WithoutSweeps, Yeses;
    var t := ShortWait(l);
    var n := if l.capacity < 1 then 1 else l.capacity;
    var run := TwoBursts(ip, t, n);
    TwoBurstsAdmitted(l, ip, t, n);
    AtStart(l, ip);
    GainMonotone(l, Clock(0.0, run) - 0.0, t);
    RateTimesSeconds(l, Clock(0.0, run) - 0.0);
  }

  /** The bound survives the background cleanup exactly when the TTL is long enough to refill a burst. */
  lemma BoundSurvivesSweepsIff(l: Limits, ip: string)
    ensures AlwaysBounded(l, ip) <==> l.rate * 600.0 >= if l.capacity < 1 then 1.0 else l.capacity as real
  {
    hide Gain, Clock, Timely, Reachable;
    RateTimesSeconds(l, 600.0);
    if Gain(l, BUCKET_TTL) >= Burst(l) {
      forall x, s, window | Reachable(l, ip, x, s) && Timely(s, window)
        ensures Admitted(l, ip, x, window) as real
             <= (if l.capacity < 1 then 1.0 else l.capacity as real) + l.rate * (Clock(s, window) - s)
      {
        AdmittedWithin(l, ip, x, s, window, Clock(s, window) - s);
      }
    } else {
      BoundFails(l, ip);
    }
  }

  /** The run as it would be without the background goroutine. */
  function WithoutSweeps(run: seq<Event>): seq<Event> {
    if run == [] then []
    else
      var init, e := WithoutSweeps(run[..|run| - 1]), run[|run| - 1];
      if e.Sweep? then init else init + [e]
  }

  /** The answers the client gets, in order. */
  function Answers(l: Limits, ip: string, x: Option<Bucket>, run: seq<Event>): seq<bool> {
    if run == [] then []
    else
      var init, e := run[..|run| - 1], run[|run| - 1];
      Answers(l, ip, x, init) + if e.Request? && e.ip == ip then [Admits(l, After(l, ip, x, init), e.t1)] else []
  }

  /** Same bucket, or one was evicted while the other is full at `t`. */
  predicate Alike(l: Limits, x: Option<Bucket>, y: Option<Bucket>, t: real) {
    Sound(l, y, t) && (x == y || (x.None? && Level(l, y, t) == Burst(l)))
  }

  lemma FullStays(l: Limits, y: Option<Bucket>, t: real, u: real)
    requires t <= u && Sound(l, y, t) && Level(l, y, t) == Burst(l)
    ensures Level(l, y, u) == Burst(l)
  {
    if y.Some? {
      GainMonotone(l, t - y.value.lastCheck, u - y.value.lastCheck);
    }
  }

  lemma AlikeStep(l: Limits, ip: string, x: Option<Bucket>, y: Option<Bucket>, t: real, e: Event)
    requires l.capacity >= 1 && Gain(l, BUCKET_TTL) >= l.capacity as real
    requires Alike(l, x, y, t) && t <= Begin(e) <= End(e)
    ensures Alike(l, Step(l, ip, x, e), if e.Sweep? then y else Step(l, ip, y, e), End(e))
    ensures e.Request? ==> Admits(l, x, e.t1) == Admits(l, y, e.t1)
    ensures e.Request? && e.ip == ip ==> Step(l, ip, x, e) == Step(l, ip, y, e)
  {
    if x != y {
      FullStays(l, y, t, Begin(e));
      FullStays(l, y, t, End(e));
      RefilledLevel(l, y.value, Begin(e));
    }
    if e.Request? && e.ip == ip {
      RequestSpends(l, y, e.t1, e.t2);
    }
    if e.Sweep? && y.Some? && Stale(y.value, e.now) {
      StaleIsFull(l, y.value, e.now);
    }
  }

  lemma {:induction false} AlikeRun(l: Limits, ip: string, x: Option<Bucket>, s: real, run: seq<Event>)
    requires l.capacity >= 1 && l.rate * 600.0 >= l.capacity as real && Sound(l, x, s) && Timely(s, run)
    ensures Alike(l, After(l, ip, x, run), After(l, ip, x, WithoutSweeps(run)), Clock(s, run))
    ensures Answers(l, ip, x, run) == Answers(l, ip, x, WithoutSweeps(run))
    ensures run != [] && run[|run| - 1].Request? && run[|run| - 1].ip == ip ==>
              After(l, ip, x, run) == After(l, ip, x, WithoutSweeps(run))
    decreases |run|
  {
    if run != [] {
      var init, e := run[..|run| - 1], run[|run| - 1];
      AlikeRun(l, ip, x, s, init);
      var kept := WithoutSweeps(init);
      assert (kept + [e])[..|kept|] == kept;
      RateTimesSeconds(l, 600.0);
      AlikeStep(l, ip, After(l, ip, x, init), After(l, ip, x, kept), Clock(s, init), e);
    }
  }

  /** Sweeps change no answer a client gets, from any state, in any run. */
  ghost predicate SweepsInvisible(l: Limits, ip: string) {
    forall x, s, run :: Reachable(l, ip, x, s) && Timely(s, run) ==>
      Answers(l, ip, x, run) == Answers(l, ip, x, WithoutSweeps(run))
  }

  function Yeses(answers: seq<bool>): nat {
    if answers == [] then 0 else Yeses(answers[..|answers| - 1]) + if answers[|answers| - 1] then 1 else 0
  }

  lemma {:induction false} AdmittedIsYeses(l: Limits, ip: string, x: Option<Bucket>, run: seq<Event>)
    ensures Admitted(l, ip, x, run) == Yeses(Answers(l, ip, x, run))
    decreases |run|
  {
    if run != [] {
      var init, e := run[..|run| - 1], run[|run| - 1];
      AdmittedIsYeses(l, ip, x, init);
      var before := Answers(l, ip, x, init);
      if e.Request? && e.ip == ip {
        assert (before + [Admits(l, After(l, ip, x, init), e.t1)])[..|before|] == before;
      } else {
        assert before + [] == before;
      }
    }
  }

  lemma {:induction false} KeptIsTimely(s: real, run: seq<Event>)
    requires Timely(s, run)
    ensures Timely(s, WithoutSweeps(run)) && NoSweeps(WithoutSweeps(run))
    ensures Clock(s, WithoutSweeps(run)) <= Clock(s, run)
    decreases |run|
  {
    if run != [] {
      KeptIsTimely(s, run[..|run| - 1]);
      var kept, e := WithoutSweeps(run[..|run| - 1]), run[|run| - 1];
      assert (kept + [e])[..|kept|] == kept;
    }
  }

  /** Evicting an idle bucket is invisible exactly when that bucket would have been full. */
  lemma SweepsInvisibleIff(l: Limits, ip: string)
    ensures SweepsInvisible(l, ip) <==> l.capacity >= 1 && l.rate * 600.0 >= l.capacity as real
  {
    RateTimesSeconds(l, 600.0);
    if l.capacity >= 1 && Gain(l, BUCKET_TTL) >= l.capacity as real {
      forall x, s, run | Reachable(l, ip, x, s) && Timely(s, run)
        ensures Answers(l, ip, x, run) == Answers(l, ip, x, WithoutSweeps(run))
      {
        ReachableIsSound(l, ip, x, s);
        AlikeRun(l, ip, x, s, run);
      }
    } else if l.capacity >= 1 {
      SweepsShow(l, ip);
    } else {
      NoCapacityShows(l, ip);
    }
  }

  lemma SweepsShow(l: Limits, ip: string)
    requires Gain(l, BUCKET_TTL) < Burst(l)
    ensures !SweepsInvisible(l, ip)
  {
    hide Gain, After, Admitted, Timely, Clock, TwoBursts, Answers, WithoutSweeps, Yeses;
    var t := ShortWait(l);
    var n := if l.capacity < 1 then 1 else l.capacity;
    var run := TwoBursts(ip, t, n);
    TwoBurstsAdmitted(l, ip, t, n);
    AtStart(l, ip);
    var kept := WithoutSweeps(run);
    KeptIsTimely(0.0, run);
    WindowBound(l, ip, None, 0.0, kept);
    GainMonotone(l, Clock(0.0, kept) - 0.0, t);
    RateTimesSeconds(l, Clock(0.0, kept) - 0.0);
    AdmittedIsYeses(l, ip, None, run);
    AdmittedIsYeses(l, ip, None, kept);
  }

  /** Without capacity only the very first request passes, and an eviction makes the next one first again. */
  lemma NoCapacityShows(l: Limits, ip: string)
    requires l.capacity < 1
    ensures !SweepsInvisible(l, ip)
  {
    var a, b, c := Request(ip, 0.0, 0.0), Sweep(601.0), Request(ip, 601.0, 601.0);
    var run := [a, b, c];
    assert run[..2] == [a, b] && [a, b][..1] == [a] && [a][..0] == [] && [a, c][..1] == [a];
    assert Timely(0.0, []) && Timely(0.0, [a]) && Timely(0.0, [a, b]) && Timely(0.0, run);
    assert Clock(0.0, []) <= 0.0 && After(l, ip, None, []) == None && Reachable(l, ip, None, 0.0);
    assert WithoutSweeps([a]) == [a] && WithoutSweeps([a, b]) == [a] && WithoutSweeps(run) == [a, c];
    assert Answers(l, ip, None, [a]) == [true];
    assert After(l, ip, None, [a, b]) == None && Answers(l, ip, None, [a, b]) == [true];
    assert Answers(l, ip, None, run) == [true, true];
    var x := After(l, ip, None, [a]);
    assert Refilled(l, x.value, 601.0) <= l.capacity as real;
    assert Answers(l, ip, None, [a, c]) == [true, false];
  }
}
