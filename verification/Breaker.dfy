/** core/filesystem.go: the circuit breaker of one provider. */
module Breaker {
  datatype State = Closed | Open | HalfOpen

  /** Thresholds after defaulting; durations and instants are in nanoseconds. */
  datatype RawConfig = Config(enabled: bool, failureThreshold: int, resetTimeout: int, halfOpenMaxCalls: int)

  type Config = c: RawConfig | c.failureThreshold >= 1 && c.halfOpenMaxCalls >= 1
    witness RawConfig.Config(false, 1, 0, 1)

  datatype Fields = Fields(state: State, failures: int, successes: int, lastFailure: int)

  const Initial := Fields(Closed, 0, 0, 0)

  datatype Event = Admit(now: int) | Succeed(now: int) | Fail(now: int)

  function Step(c: Config, f: Fields, e: Event): Fields {
    if !c.enabled then f
    else
      match e
      case Admit(now) =>
        if f.state == Open && now - f.lastFailure > c.resetTimeout then
          f.(state := HalfOpen, failures := 0, successes := 0)
        else f
      case Succeed(_) =>
        if f.state == HalfOpen then
          if f.successes + 1 >= c.halfOpenMaxCalls then f.(state := Closed, failures := 0, successes := 0)
          else f.(successes := f.successes + 1)
        else f.(failures := 0)
      case Fail(now) =>
        f.(failures := f.failures + 1, lastFailure := now,
           state := if f.failures + 1 >= c.failureThreshold then Open else f.state)
  }

  class CircuitBreaker {
    const cfg: Config
    var state: State
    var failures: int
    var successes: int
    var lastFailure: int

    ghost function View(): Fields
      reads this
    {
      Fields(state, failures, successes, lastFailure)
    }

    constructor (cfg: Config)
      ensures this.cfg == cfg && View() == Initial
    {
      this.cfg := cfg;
      state, failures, successes, lastFailure := Closed, 0, 0, 0;
    }

    /** `breakerOpen`: whether the call is turned away. */
    method Refuses(now: int) returns (refused: bool)
      modifies this
      ensures View() == Step(cfg, old(View()), Admit(now))
      ensures refused <==> cfg.enabled && state == Open
    {
      if !cfg.enabled { return false; }
      if state == Open {
        if now - lastFailure > cfg.resetTimeout {
          state := HalfOpen;
          failures, successes := 0, 0;
          return false;
        }
        return true;
      }
      return false;
    }

    method Record(success: bool, now: int)
      modifies this
      ensures View() == Step(cfg, old(View()), if success then Succeed(now) else Fail(now))
    {
      if !cfg.enabled { return; }
      if success {
        if state == HalfOpen {
          successes := successes + 1;
          if successes >= cfg.halfOpenMaxCalls {
            state, failures, successes := Closed, 0, 0;
          }
        } else {
          failures := 0;
        }
      } else {
        failures := failures + 1;
        lastFailure := now;
        if failures >= cfg.failureThreshold {
          state := Open;
        }
      }
    }
  }
}

/** What the breaker's history says about its state, over every run. */
module BreakerRuns {
  import opened Breaker

  /** A run from `f`; the last event is the latest. */
  function After(c: Config, f: Fields, run: seq<Event>): Fields {
    if run == [] then f else Step(c, After(c, f, run[..|run| - 1]), run[|run| - 1])
  }

  function Now(c: Config, run: seq<Event>): Fields {
    After(c, Initial, run)
  }

  // ---- the same facts read off the history ----

  /** Failures recorded since the latest success; admissions do not interrupt a streak. */
  function Streak(run: seq<Event>): nat {
    if run == [] then 0
    else
      match run[|run| - 1]
      case Admit(_) => Streak(run[..|run| - 1])
      case Succeed(_) => 0
      case Fail(_) => Streak(run[..|run| - 1]) + 1
  }

  predicate HasFailed(run: seq<Event>) {
    exists i :: 0 <= i < |run| && run[i].Fail?
  }

  /** When the latest failure was recorded. */
  function LatestFailure(run: seq<Event>): int
    requires HasFailed(run)
  {
    if run[|run| - 1].Fail? then run[|run| - 1].now else LatestFailure(run[..|run| - 1])
  }

  function Failures(run: seq<Event>): nat {
    if run == [] then 0 else Failures(run[..|run| - 1]) + if run[|run| - 1].Fail? then 1 else 0
  }

  function Successes(run: seq<Event>): nat {
    if run == [] then 0 else Successes(run[..|run| - 1]) + if run[|run| - 1].Succeed? then 1 else 0
  }

  predicate Nondecreasing(run: seq<Event>) {
    forall i, j :: 0 <= i < j < |run| ==> run[i].now <= run[j].now
  }

  // ---- counters against history ----

  /** What the fields mean in each state. */
  predicate Explained(c: Config, run: seq<Event>) {
    var f := Now(c, run);
    && (f.state == Closed ==> f.failures == Streak(run) < c.failureThreshold && f.successes == 0)
    && (f.state == Open ==> HasFailed(run))
    && (HasFailed(run) ==> f.lastFailure == LatestFailure(run))
    && (f.state == HalfOpen ==> 0 <= f.failures < c.failureThreshold && 0 <= f.successes < c.halfOpenMaxCalls)
  }

  lemma {:induction false} RunExplained(c: Config, run: seq<Event>)
    requires c.enabled
    ensures Explained(c, run)
  {
    if run != [] {
      var init, e := run[..|run| - 1], run[|run| - 1];
      RunExplained(c, init);
      if HasFailed(init) {
        var i :| 0 <= i < |init| && init[i].Fail?;
        assert run[i].Fail?;
      }
      if HasFailed(run) && !e.Fail? {
        var i :| 0 <= i < |run| && run[i].Fail?;
        assert init[i].Fail?;
      }
    }
  }

  /** A closed breaker opens with exactly the failure that completes a streak of the threshold's length. */
  lemma {:induction false} ClosedOpensIff(c: Config, run: seq<Event>, e: Event)
    requires c.enabled && Now(c, run).state == Closed
    ensures Now(c, run + [e]).state != Closed <==> e.Fail? && Streak(run + [e]) == c.failureThreshold
    ensures Now(c, run + [e]).state != HalfOpen
  {
    RunExplained(c, run);
    assert (run + [e])[..|run|] == run;
  }

  /** An open breaker is left by exactly one kind of event, and only towards HalfOpen. */
  lemma {:induction false} OpenLeftIff(c: Config, run: seq<Event>, e: Event)
    requires c.enabled && Now(c, run).state == Open
    ensures HasFailed(run)
    ensures Now(c, run + [e]).state != Open <==> e.Admit? && e.now - LatestFailure(run) > c.resetTimeout
    ensures Now(c, run + [e]).state != Closed
  {
    RunExplained(c, run);
    assert (run + [e])[..|run|] == run;
  }

  /** On a nondecreasing clock, an open breaker turns every call away until its timeout has passed. */
  lemma {:induction false} OpenLasts(c: Config, run: seq<Event>, later: seq<Event>)
    requires c.enabled && Now(c, run).state == Open && Nondecreasing(run + later)
    requires HasFailed(run) && (forall e :: e in later ==> e.now <= LatestFailure(run) + c.resetTimeout)
    ensures Now(c, run + later).state == Open && LatestFailure(run) <= Now(c, run + later).lastFailure
    decreases |later|
  {
    RunExplained(c, run);
    if later == [] {
      assert run + later == run;
    } else {
      var init, e := later[..|later| - 1], later[|later| - 1];
      assert run + later == run + init + [e] && (run + later)[..|run + later| - 1] == run + init;
      assert forall i, j :: 0 <= i < j < |run + init| ==>
               (run + init)[i] == (run + later)[i] && (run + init)[j] == (run + later)[j];
      OpenLasts(c, run, init);
      assert e in later;
      LatestIsPast(run, later, e);
    }
  }

  /** The latest failure was recorded at some event of the run. */
  lemma {:induction false} LatestIsRecorded(run: seq<Event>)
    requires HasFailed(run)
    ensures exists i :: 0 <= i < |run| && run[i].now == LatestFailure(run)
  {
    if !run[|run| - 1].Fail? {
      var init := run[..|run| - 1];
      var i :| 0 <= i < |run| && run[i].Fail?;
      assert init[i].Fail?;
      LatestIsRecorded(init);
      var k :| 0 <= k < |init| && init[k].now == LatestFailure(init);
      assert run[k].now == LatestFailure(run);
    }
  }

  lemma LatestIsPast(run: seq<Event>, later: seq<Event>, e: Event)
    requires HasFailed(run) && Nondecreasing(run + later) && later != [] && e == later[|later| - 1]
    ensures LatestFailure(run) <= e.now
  {
    LatestIsRecorded(run);
    var i :| 0 <= i < |run| && run[i].now == LatestFailure(run);
    assert (run + later)[i] == run[i] && (run + later)[|run + later| - 1] == e;
  }

  // ---- the trial period ----

  /** The fields right after an admission has started a trial. */
  predicate TrialStart(f: Fields) {
    f.state == HalfOpen && f.failures == 0 && f.successes == 0
  }

  /** Every open breaker that lets a call in starts a trial with both counters at zero. */
  lemma {:induction false} AdmissionStartsTrial(c: Config, run: seq<Event>, e: Event)
    requires c.enabled && Now(c, run).state == Open && Now(c, run + [e]).state != Open
    ensures TrialStart(Now(c, run + [e]))
  {
    OpenLeftIff(c, run, e);
    assert (run + [e])[..|run|] == run;
  }

  predicate StaysHalfOpen(c: Config, f: Fields, run: seq<Event>) {
    forall k :: 0 <= k <= |run| ==> After(c, f, run[..k]).state == HalfOpen
  }

  /**
   * A trial is still going exactly while the failures recorded in it are below one threshold and the
   * successes below the other; failures need not be consecutive here.
   */
  lemma {:induction false} TrialGoesOnIff(c: Config, f: Fields, run: seq<Event>)
    requires c.enabled && TrialStart(f)
    ensures StaysHalfOpen(c, f, run) <==> Failures(run) < c.failureThreshold && Successes(run) < c.halfOpenMaxCalls
    ensures StaysHalfOpen(c, f, run) ==>
              var g := After(c, f, run); g.failures == Failures(run) && g.successes == Successes(run)
    decreases |run|
  {
    if run == [] {
      assert run[..0] == run;
    } else {
      var init := run[..|run| - 1];
      TrialGoesOnIff(c, f, init);
      assert forall k :: 0 <= k <= |init| ==> init[..k] == run[..k];
      assert run[..|run|] == run;
      assert StaysHalfOpen(c, f, run) <==> StaysHalfOpen(c, f, init) && After(c, f, run).state == HalfOpen by {
        if StaysHalfOpen(c, f, run) {
          forall k | 0 <= k <= |init|
            ensures After(c, f, init[..k]).state == HalfOpen
          {
            assert After(c, f, run[..k]).state == HalfOpen;
          }
        }
      }
      if StaysHalfOpen(c, f, init) {
        assert init[..|init|] == init && After(c, f, init).state == HalfOpen;
      }
    }
  }

  /** A trial ends within failureThreshold + halfOpenMaxCalls - 1 recorded results. */
  lemma TrialEnds(c: Config, f: Fields, run: seq<Event>)
    requires c.enabled && TrialStart(f) && Failures(run) + Successes(run) >= c.failureThreshold + c.halfOpenMaxCalls - 1
    ensures !StaysHalfOpen(c, f, run)
  {
    TrialGoesOnIff(c, f, run);
  }

  lemma {:induction false} CountsRepeat(n: nat, m: nat)
    ensures var run := seq(n, i => Fail(0)) + seq(m, i => Succeed(0)); Failures(run) == n && Successes(run) == m
    decreases n + m
  {
    var run := seq(n, i => Fail(0)) + seq(m, i => Succeed(0));
    if m > 0 {
      CountsRepeat(n, m - 1);
      assert run[..|run| - 1] == seq(n, i => Fail(0)) + seq(m - 1, i => Succeed(0));
    } else if n > 0 {
      CountsRepeat(n - 1, 0);
      assert run[..|run| - 1] == seq(n - 1, i => Fail(0)) + seq(0, i => Succeed(0));
    }
  }

  /** One result fewer is not always enough. */
  lemma TrialBoundIsTight(c: Config, f: Fields)
    requires c.enabled && TrialStart(f)
    ensures exists run ::
              Failures(run) + Successes(run) == c.failureThreshold + c.halfOpenMaxCalls - 2 && StaysHalfOpen(c, f, run)
  {
    var run := seq(c.failureThreshold - 1, i => Fail(0)) + seq(c.halfOpenMaxCalls - 1, i => Succeed(0));
    CountsRepeat(c.failureThreshold - 1, c.halfOpenMaxCalls - 1);
    TrialGoesOnIff(c, f, run);
  }

  /** The result that ends a trial decides where it goes. */
  lemma TrialVerdict(c: Config, f: Fields, run: seq<Event>, e: Event)
    requires c.enabled && TrialStart(f) && StaysHalfOpen(c, f, run)
    ensures After(c, f, run + [e]).state == Closed <==> e.Succeed? && Successes(run + [e]) == c.halfOpenMaxCalls
    ensures After(c, f, run + [e]).state == Open <==> e.Fail? && Failures(run + [e]) == c.failureThreshold
  {
    TrialGoesOnIff(c, f, run);
    assert run[..|run|] == run && (run + [e])[..|run|] == run;
  }

  // ---- recovery over a whole run ----

  /** The admission at `k` came strictly more than the timeout after the latest failure before it. */
  ghost predicate LateAdmission(c: Config, run: seq<Event>, k: nat) {
    && k < |run| && run[k].Admit? && HasFailed(run[..k])
    && run[k].now - LatestFailure(run[..k]) > c.resetTimeout
  }

  /** A trial started at or after `from`, is still going at the end, and has seen `successes` successes. */
  ghost predicate TrialSince(c: Config, run: seq<Event>, from: nat, k: nat, successes: int) {
    from <= k && LateAdmission(c, run, k) && Successes(run[k..]) == successes
  }

  lemma LateAdmissionStays(c: Config, run: seq<Event>, k: nat, e: Event)
    requires LateAdmission(c, run, k)
    ensures LateAdmission(c, run + [e], k)
    ensures Successes((run + [e])[k..]) == Successes(run[k..]) + if e.Succeed? then 1 else 0
  {
    assert (run + [e])[..k] == run[..k] && (run + [e])[k] == run[k];
    assert (run + [e])[k..] == run[k..] + [e];
    assert (run[k..] + [e])[..|run[k..]|] == run[k..];
  }

  /** Since the breaker was seen open: it is open, or in a trial it entered since, or has passed one. */
  ghost predicate Recovering(c: Config, run: seq<Event>, from: nat) {
    var f := Now(c, run);
    match f.state
    case Open => true
    case HalfOpen => exists k :: TrialSince(c, run, from, k, f.successes)
    case Closed => exists k :: from <= k && LateAdmission(c, run, k) && Successes(run[k..]) >= c.halfOpenMaxCalls
  }

  lemma RecoveringStep(c: Config, run: seq<Event>, from: nat, e: Event)
    requires c.enabled && from <= |run| && Recovering(c, run, from)
    ensures Recovering(c, run + [e], from)
  {
    var run' := run + [e];
    var f := Now(c, run);
    assert run'[..|run|] == run;
    RunExplained(c, run);
    match f.state
    case Open =>
      if e.Admit? && e.now - f.lastFailure > c.resetTimeout {
        var k := |run|;
        assert run'[k..] == [e] && [e][..0] == [];
        assert Successes([e]) == 0;
        assert TrialSince(c, run', from, k, 0);
      }
    case HalfOpen =>
      var k :| TrialSince(c, run, from, k, f.successes);
      LateAdmissionStays(c, run, k, e);
      assert Now(c, run').state == HalfOpen ==> TrialSince(c, run', from, k, Now(c, run').successes);
    case Closed =>
      var k :| from <= k && LateAdmission(c, run, k) && Successes(run[k..]) >= c.halfOpenMaxCalls;
      LateAdmissionStays(c, run, k, e);
      assert Now(c, run').state != HalfOpen;
  }

  lemma {:induction false} RecoveringRun(c: Config, run: seq<Event>, later: seq<Event>)
    requires c.enabled && Now(c, run).state == Open
    ensures Recovering(c, run + later, |run|)
    decreases |later|
  {
    if later == [] {
      assert run + later == run;
    } else {
      var init := later[..|later| - 1];
      RecoveringRun(c, run, init);
      RecoveringStep(c, run + init, |run|, later[|later| - 1]);
      assert run + later == run + init + [later[|later| - 1]];
    }
  }

  /**
   * From Open to Closed, in however many attempts: some admission in between came more than the timeout
   * after the latest failure then, and at least halfOpenMaxCalls successes were recorded after it.
   */
  lemma RecoveryIsEarned(c: Config, run: seq<Event>, later: seq<Event>)
    requires c.enabled && Now(c, run).state == Open && Now(c, run + later).state == Closed
    ensures exists k ::
              |run| <= k && LateAdmission(c, run + later, k) && Successes((run + later)[k..]) >= c.halfOpenMaxCalls
  {
    RecoveringRun(c, run, later);
  }

  /** Switched off, it never moves. */
  lemma {:induction false} DisabledNeverMoves(c: Config, run: seq<Event>)
    requires !c.enabled
    ensures Now(c, run) == Initial
    decreases |run|
  {
    if run != [] {
      DisabledNeverMoves(c, run[..|run| - 1]);
    }
  }
}
