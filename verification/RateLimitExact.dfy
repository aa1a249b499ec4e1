/** The limiter against a reference that knows no bucket: it looks at every window of the client's history. */
module RateLimitExact {
  import opened Bytes
  import opened RateLimit
  import opened RateLimitRuns

  /** Time between the two clock readings of the client's calls, during which nothing flows in. */
  function Lost(ip: string, run: seq<Event>): real {
    if run == [] then 0.0
    else
      var e := run[|run| - 1];
      Lost(ip, run[..|run| - 1]) + if e.Request? && e.ip == ip then e.t2 - e.t1 else 0.0
  }

  /** Requests admitted from event `k` on. */
  function Spent(l: Limits, ip: string, run: seq<Event>, k: nat): int
    requires k < |run|
  {
    Admitted(l, ip, None, run) - Admitted(l, ip, None, run[..k])
  }

  /** Seconds from event `k` to instant `t` that count. */
  function Span(ip: string, run: seq<Event>, k: nat, t: real): real
    requires k < |run|
  {
    t - Begin(run[k]) - (Lost(ip, run) - Lost(ip, run[..k]))
  }

  /** One more request at `t` keeps the window that starts with event `k` within capacity and rate. */
  predicate WindowHasRoom(l: Limits, ip: string, run: seq<Event>, k: nat, t: real)
    requires k < |run|
  {
    Spent(l, ip, run, k) as real + 1.0 <= l.capacity as real + l.rate * Span(ip, run, k, t)
  }

  /** What the client has spent since event `k` and what it could spend at `t` stay within the window's allowance. */
  predicate Within(l: Limits, ip: string, run: seq<Event>, k: nat, t: real)
    requires k < |run|
  {
    Spent(l, ip, run, k) as real + Level(l, After(l, ip, None, run), t)
    <= l.capacity as real + Gain(l, Span(ip, run, k, t))
  }

  /** The window from event `k` accounts for every token of the bucket. */
  predicate Accounts(l: Limits, ip: string, run: seq<Event>, k: nat, b: Bucket)
    requires k < |run|
  {
    b.tokens == l.capacity as real - Spent(l, ip, run, k) as real + Gain(l, Span(ip, run, k, b.lastCheck))
  }

  predicate Usual(l: Limits, s: real, run: seq<Event>) {
    l.capacity >= 1 && Timely(s, run) && NoSweeps(run)
  }

  // ---- one event more ----

  lemma SnocFacts(l: Limits, ip: string, s: real, run: seq<Event>, e: Event)
    requires Usual(l, s, run + [e])
    ensures Usual(l, s, run) && e.Request? && Clock(s, run) <= e.t1 <= e.t2
    ensures After(l, ip, None, run + [e]) == Step(l, ip, After(l, ip, None, run), e)
    ensures Sound(l, After(l, ip, None, run), Clock(s, run))
  {
    Extended(l, ip, None, s, run, e);
    assert e in run + [e] && forall d :: d in run ==> d in run + [e];
    RunIsSound(l, ip, None, s, run);
  }

  lemma SpentSnoc(l: Limits, ip: string, s: real, run: seq<Event>, e: Event, k: nat)
    requires k <= |run|
    ensures Spent(l, ip, run + [e], k)
         == (if k < |run| then Spent(l, ip, run, k) else 0)
            + if AdmittedBy(l, ip, After(l, ip, None, run), e) then 1 else 0
  {
    Extended(l, ip, None, s, run, e);
    assert (run + [e])[..k] == run[..k] && run[..|run|] == run;
  }

  lemma SpanSnoc(ip: string, run: seq<Event>, e: Event, k: nat, t: real)
    requires k <= |run|
    ensures Span(ip, run + [e], k, t)
         == (if k < |run| then Span(ip, run, k, t) else t - Begin(e))
            - if e.Request? && e.ip == ip then e.t2 - e.t1 else 0.0
  {
    assert (run + [e])[..k] == run[..k] && run[..|run|] == run;
    assert (run + [e])[..|run|] == run;
  }

  // ---- no window is overdrawn ----

  /** A charged bucket's level some time after the call. */
  lemma ChargedLevel(l: Limits, x: Option<Bucket>, t1: real, t2: real, t: real)
    requires l.capacity >= 1 && Sound(l, x, t1) && t1 <= t2 <= t
    ensures Level(l, Some(Charged(l, x, t1, t2)), t)
         <= Level(l, x, t1) - (if Admits(l, x, t1) then 1.0 else 0.0) + Gain(l, t - t2)
  {
    RequestSpends(l, x, t1, t2);
    LevelGrows(l, Some(Charged(l, x, t1, t2)), t2, t);
  }

  lemma WithinNew(l: Limits, ip: string, s: real, run: seq<Event>, e: Event, t: real)
    requires Usual(l, s, run + [e]) && e.Request? && e.t2 <= t
    ensures Within(l, ip, run + [e], |run|, t)
  {
    SnocFacts(l, ip, s, run, e);
    SpentSnoc(l, ip, s, run, e, |run|);
    SpanSnoc(ip, run, e, |run|, t);
    var x := After(l, ip, None, run);
    LevelRange(l, x, e.t1);
    LevelRange(l, x, t);
    GainMonotone(l, 0.0, t - e.t1);
    hide Gain, Level, Charged, Admits, After, Admitted, Timely, Spent, Span;
    if e.ip == ip {
      ChargedLevel(l, x, e.t1, e.t2, t);
      assert t - e.t1 - (e.t2 - e.t1) == t - e.t2;
    }
  }

  lemma WithinOld(l: Limits, ip: string, s: real, run: seq<Event>, e: Event, k: nat, t: real)
    requires Usual(l, s, run + [e]) && e.Request? && e.t2 <= t && k < |run|
    requires Within(l, ip, run, k, e.t1) && Within(l, ip, run, k, t)
    ensures Within(l, ip, run + [e], k, t)
  {
    SnocFacts(l, ip, s, run, e);
    SpentSnoc(l, ip, s, run, e, k);
    SpanSnoc(ip, run, e, k, t);
    var x := After(l, ip, None, run);
    if e.ip == ip {
      ChargedLevel(l, x, e.t1, e.t2, t);
      GainAdds(l, Span(ip, run, k, e.t1), t - e.t2);
      assert Span(ip, run, k, e.t1) + (t - e.t2) == Span(ip, run, k, t) - (e.t2 - e.t1);
    }
    hide Gain, Level, Charged, Admits, After, Admitted, Timely, Spent, Span;
  }

  lemma {:induction false} NoWindowOverdrawn(l: Limits, ip: string, s: real, run: seq<Event>, k: nat, t: real)
    requires Usual(l, s, run) && k < |run| && Clock(s, run) <= t
    ensures Within(l, ip, run, k, t)
    decreases |run|
  {
    var init, e := run[..|run| - 1], run[|run| - 1];
    assert run == init + [e];
    SnocFacts(l, ip, s, init, e);
    hide Within, Usual, After, Timely;
    if k == |init| {
      WithinNew(l, ip, s, init, e, t);
    } else {
      NoWindowOverdrawn(l, ip, s, init, k, e.t1);
      NoWindowOverdrawn(l, ip, s, init, k, t);
      WithinOld(l, ip, s, init, e, k, t);
    }
  }

  // ---- some window accounts for everything ----

  /** A bucket that is full when charged starts a new account. */
  lemma AccountOpens(l: Limits, ip: string, s: real, run: seq<Event>, e: Event)
    requires Usual(l, s, run + [e]) && e.Request? && e.ip == ip
    requires var x := After(l, ip, None, run); x.None? || Refilled(l, x.value, e.t1) == l.capacity as real
    ensures Accounts(l, ip, run + [e], |run|, Charged(l, After(l, ip, None, run), e.t1, e.t2))
  {
    SpentSnoc(l, ip, s, run, e, |run|);
    SpanSnoc(ip, run, e, |run|, e.t2);
    GainMonotone(l, 0.0, 0.0);
    assert e.t2 - e.t1 - (e.t2 - e.t1) == 0.0;
    hide Gain, After, Admitted, Timely, Spent, Span, Refilled;
  }

  lemma AccountGoesOn(l: Limits, ip: string, s: real, run: seq<Event>, e: Event, k: nat, b: Bucket)
    requires Usual(l, s, run + [e]) && e.Request? && e.ip == ip && k < |run|
    requires After(l, ip, None, run) == Some(b) && Accounts(l, ip, run, k, b)
    requires Refilled(l, b, e.t1) == b.tokens + Gain(l, e.t1 - b.lastCheck)
    ensures Accounts(l, ip, run + [e], k, Charged(l, Some(b), e.t1, e.t2))
  {
    SpentSnoc(l, ip, s, run, e, k);
    SpanSnoc(ip, run, e, k, e.t2);
    GainAdds(l, Span(ip, run, k, b.lastCheck), e.t1 - b.lastCheck);
    assert Span(ip, run, k, b.lastCheck) + (e.t1 - b.lastCheck) == Span(ip, run, k, e.t2) - (e.t2 - e.t1);
    hide Gain, After, Admitted, Timely, Spent, Span, Refilled;
  }

  lemma AccountStays(l: Limits, ip: string, s: real, run: seq<Event>, e: Event, k: nat, b: Bucket)
    requires e.Request? && e.ip != ip && k < |run| && Accounts(l, ip, run, k, b)
    ensures Accounts(l, ip, run + [e], k, b)
  {
    SpentSnoc(l, ip, s, run, e, k);
    SpanSnoc(ip, run, e, k, b.lastCheck);
    hide Gain, After, Admitted, Spent, Span;
  }

  lemma {:induction false} SomeWindowAccounts(l: Limits, ip: string, s: real, run: seq<Event>) returns (k: nat)
    requires Usual(l, s, run) && After(l, ip, None, run).Some?
    ensures k < |run| && Accounts(l, ip, run, k, After(l, ip, None, run).value)
    decreases |run|
  {
    var init, e := run[..|run| - 1], run[|run| - 1];
    assert run == init + [e];
    SnocFacts(l, ip, s, init, e);
    var x := After(l, ip, None, init);
    hide Accounts, Usual, After, Timely, Gain;
    if e.ip != ip {
      k := SomeWindowAccounts(l, ip, s, init);
      AccountStays(l, ip, s, init, e, k, x.value);
    } else if x.None? || Refilled(l, x.value, e.t1) == l.capacity as real {
      k := |init|;
      AccountOpens(l, ip, s, init, e);
    } else {
      k := SomeWindowAccounts(l, ip, s, init);
      AccountGoesOn(l, ip, s, init, e, k, x.value);
    }
  }

  // ---- the limiter is exact ----

  lemma RoomMeans(l: Limits, ip: string, run: seq<Event>, k: nat, t: real)
    requires k < |run|
    ensures WindowHasRoom(l, ip, run, k, t)
       <==> (Admitted(l, ip, None, run) - Admitted(l, ip, None, run[..k]) + 1) as real
            <= l.capacity as real + l.rate * Span(ip, run, k, t)
  {
    hide Span, Admitted;
  }

  lemma RoomWhenAdmitted(l: Limits, ip: string, s: real, run: seq<Event>, t: real, k: nat)
    requires Usual(l, s, run) && Clock(s, run) <= t && k < |run| && Admits(l, After(l, ip, None, run), t)
    ensures WindowHasRoom(l, ip, run, k, t)
  {
    hide Gain, After, Admitted, Timely, Spent, Span, Refilled;
    var x := After(l, ip, None, run);
    NoWindowOverdrawn(l, ip, s, run, k, t);
    RateTimesSeconds(l, Span(ip, run, k, t));
    RunIsSound(l, ip, None, s, run);
    BurstIsPositive(l);
    if x.Some? {
      RefilledLevel(l, x.value, t);
    }
  }

  lemma FullWhenRefused(l: Limits, ip: string, s: real, run: seq<Event>, t: real) returns (k: nat)
    requires Usual(l, s, run) && Clock(s, run) <= t && !Admits(l, After(l, ip, None, run), t)
    ensures k < |run| && !WindowHasRoom(l, ip, run, k, t)
  {
    var b := After(l, ip, None, run).value;
    k := SomeWindowAccounts(l, ip, s, run);
    GainAdds(l, Span(ip, run, k, b.lastCheck), t - b.lastCheck);
    assert Span(ip, run, k, b.lastCheck) + (t - b.lastCheck) == Span(ip, run, k, t);
    RateTimesSeconds(l, Span(ip, run, k, t));
    hide Gain, After, Admitted, Timely, Spent, Span;
  }

  /**
   * Without evictions, a request is admitted exactly when admitting it keeps every window that ends with it
   * within the capacity plus the rate times the window's length; neither more nor less is let in.
   */
  lemma AdmittedIffEveryWindowHasRoom(l: Limits, ip: string, s: real, run: seq<Event>, t: real)
    requires l.capacity >= 1 && Timely(s, run) && NoSweeps(run) && Clock(s, run) <= t
    ensures Admits(l, After(l, ip, None, run), t) <==>
            forall k: nat :: k < |run| ==>
              (Admitted(l, ip, None, run) - Admitted(l, ip, None, run[..k]) + 1) as real
              <= l.capacity as real + l.rate * Span(ip, run, k, t)
  {
    hide WindowHasRoom, After, Timely, Admits, Admitted, Span;
    if Admits(l, After(l, ip, None, run), t) {
      forall k: nat | k < |run|
        ensures (Admitted(l, ip, None, run) - Admitted(l, ip, None, run[..k]) + 1) as real
             <= l.capacity as real + l.rate * Span(ip, run, k, t)
      {
        RoomWhenAdmitted(l, ip, s, run, t, k);
        RoomMeans(l, ip, run, k, t);
      }
    } else {
      var k := FullWhenRefused(l, ip, s, run, t);
      RoomMeans(l, ip, run, k, t);
    }
  }

  // ---- without capacity, and with evictions ----

  /** Without capacity a request is admitted exactly when the limiter holds no bucket for the client. */
  lemma NoCapacityAdmitsIff(l: Limits, ip: string, run: seq<Event>, t: real)
    requires l.capacity < 1
    ensures Admits(l, After(l, ip, None, run), t) <==> After(l, ip, None, run) == None
  {
  }

  /** Event `k` is a request of the client, and each later sweep found it at most ten minutes old. */
  predicate StillKnown(ip: string, run: seq<Event>, k: nat)
    requires k < |run|
  {
    && run[k].Request? && run[k].ip == ip
    && forall j :: k < j < |run| && run[j].Sweep? ==> run[j].now - run[k].t2 <= 600.0
  }

  lemma StillKnownSnoc(ip: string, run: seq<Event>, e: Event, k: nat)
    requires k < |run|
    ensures StillKnown(ip, run + [e], k) <==> StillKnown(ip, run, k) && (e.Sweep? ==> e.now - run[k].t2 <= 600.0)
  {
    assert (run + [e])[|run|] == e && (run + [e])[k] == run[k];
    assert forall j :: k < j < |run| ==> (run + [e])[j] == run[j];
  }

  /** A bucket's last check is the second reading of a request that no sweep has outlived. */
  lemma {:induction false} KnownBy(l: Limits, ip: string, s: real, run: seq<Event>) returns (k: nat)
    requires Timely(s, run) && After(l, ip, None, run).Some?
    ensures k < |run| && StillKnown(ip, run, k) && After(l, ip, None, run).value.lastCheck == run[k].t2
    decreases |run|
  {
    var init, e := run[..|run| - 1], run[|run| - 1];
    assert run == init + [e];
    if e.Request? && e.ip == ip {
      k := |init|;
    } else {
      k := KnownBy(l, ip, s, init);
      StillKnownSnoc(ip, init, e, k);
    }
  }

  lemma {:induction false} KnownStays(l: Limits, ip: string, s: real, run: seq<Event>, k: nat)
    requires Timely(s, run) && k < |run| && StillKnown(ip, run, k)
    ensures run[k].t2 <= Clock(s, run)
    ensures After(l, ip, None, run).Some? && run[k].t2 <= After(l, ip, None, run).value.lastCheck
    decreases |run|
  {
    var init, e := run[..|run| - 1], run[|run| - 1];
    assert run == init + [e];
    if k < |init| {
      StillKnownSnoc(ip, init, e, k);
      KnownStays(l, ip, s, init, k);
    }
  }

  /**
   * A client has a bucket exactly when some request of its own was at most ten minutes old at every sweep
   * that came after it.
   */
  lemma RememberedIff(l: Limits, ip: string, s: real, run: seq<Event>)
    requires Timely(s, run)
    ensures After(l, ip, None, run).Some? <==>
            exists k: nat ::
              && k < |run| && run[k].Request? && run[k].ip == ip
              && forall j :: k < j < |run| && run[j].Sweep? ==> run[j].now - run[k].t2 <= 600.0
  {
    if After(l, ip, None, run).Some? {
      var k := KnownBy(l, ip, s, run);
      assert StillKnown(ip, run, k);
    }
    if k: nat :|
        && k < |run| && run[k].Request? && run[k].ip == ip
        && forall j :: k < j < |run| && run[j].Sweep? ==> run[j].now - run[k].t2 <= 600.0
    {
      assert StillKnown(ip, run, k);
      KnownStays(l, ip, s, run, k);
    }
  }
}
