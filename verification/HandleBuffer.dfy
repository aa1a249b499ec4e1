/** core/handles.go: the coalescing write buffer of a handle and its delay timer. */
module HandleBuffer {
  import opened Bytes

  const DEFAULT_MAX_SIZE := 64 * 1024

  /** A buffered write policy; the two durations and sizes are as configured, so possibly not positive. */
  datatype Policy = Policy(maxSize: int, maxDelay: int, flushOnNewline: bool)

  function MaxSize(p: Policy): (n: nat)
    ensures n > 0
  {
    if p.maxSize <= 0 then DEFAULT_MAX_SIZE else p.maxSize
  }

  /** A stop channel; numbers are handed out in order. */
  type Channel = nat

  /**
   * The handle's fields, the log of closed stop channels, and two histories: bytes the mount took, and
   * bytes appended to the buffer.
   */
  datatype State = State(buf: seq<byte>, timer: Option<Channel>, timerCh: Option<Channel>, next: Channel,
                         shut: seq<Channel>, delivered: seq<byte>, appended: seq<byte>)

  const Opened := State([], None, None, 0, [], [], [])

  /** The new state, and whether the call reported success. */
  datatype Outcome = Outcome(state: State, ok: bool)

  /** bytes.LastIndexByte for a newline, or -1. */
  function LastNewline(s: seq<byte>): (i: int)
    ensures -1 <= i < |s|
    ensures i >= 0 ==> s[i] == NEWLINE
    ensures forall k :: i < k < |s| ==> s[k] != NEWLINE
  {
    if s == [] then -1
    else if s[|s| - 1] == NEWLINE then |s| - 1
    else LastNewline(s[..|s| - 1])
  }

  function StopTimer(s: State): State {
    if s.timer.None? then s
    else
      s.(timer := None, timerCh := None,
         shut := if s.timerCh.Some? then s.shut + [s.timerCh.value] else s.shut)
  }

  function StartTimer(s: State): State {
    s.(timer := Some(s.next), timerCh := Some(s.next), next := s.next + 1)
  }

  /** `backend` is what the mount's own write returns. */
  function FlushPrefix(s: State, n: nat, backend: bool): Outcome
    requires n <= |s.buf|
  {
    if n == 0 then Outcome(s, true)
    else if !backend then Outcome(s, false)
    else
      var s' := s.(buf := s.buf[n..], delivered := s.delivered + s.buf[..n]);
      Outcome(if s'.buf == [] then StopTimer(s') else s', true)
  }

  function FlushAll(s: State, backend: bool): Outcome {
    if s.buf == [] then Outcome(StopTimer(s), true) else FlushPrefix(s, |s.buf|, backend)
  }

  function FlushLines(p: Policy, s: State, backend: bool): Outcome {
    if p.flushOnNewline && LastNewline(s.buf) >= 0 then FlushPrefix(s, LastNewline(s.buf) + 1, backend)
    else Outcome(s, true)
  }

  function FlushFull(p: Policy, s: State, backend: bool): Outcome {
    if |s.buf| >= MaxSize(p) then FlushAll(s, backend) else Outcome(s, true)
  }

  function ArmTimer(p: Policy, s: State): State {
    if s.buf != [] && p.maxDelay > 0 && s.timer.None? then StartTimer(s) else s
  }

  /** The locked part of `Write`; the two flags answer its two possible flushes. */
  function Write(p: Policy, s: State, payload: seq<byte>, backend1: bool, backend2: bool): Outcome {
    var lines := FlushLines(p, Append(s, payload), backend1);
    if !lines.ok then lines
    else
      var full := FlushFull(p, lines.state, backend2);
      if !full.ok then full else Outcome(ArmTimer(p, full.state), true)
  }

  /** The locked part of `Close`: flush, and stop the timer whether or not that worked. */
  function Close(s: State, backend: bool): Outcome {
    var o := FlushAll(s, backend);
    Outcome(StopTimer(o.state), o.ok)
  }

  // ---- what every operation keeps ----

  predicate Distinct(chs: seq<Channel>) {
    forall i, j :: 0 <= i < j < |chs| ==> chs[i] != chs[j]
  }

  /** Nothing is lost or reordered. */
  predicate Conserved(s: State) {
    s.delivered + s.buf == s.appended
  }

  /** Timer and channel are set together, to a channel never closed; each channel is closed at most once. */
  predicate TimerOk(s: State) {
    && s.timer == s.timerCh
    && (s.timer.Some? ==> s.timer.value < s.next && s.timer.value !in s.shut)
    && Distinct(s.shut) && (forall c :: c in s.shut ==> c < s.next)
  }

  /** An armed timer has something to flush. */
  predicate Inv(s: State) {
    Conserved(s) && TimerOk(s) && (s.timer.Some? ==> s.buf != [])
  }

  lemma StopKeeps(s: State)
    requires Conserved(s) && TimerOk(s)
    ensures Inv(StopTimer(s)) && StopTimer(s).timer.None? && StopTimer(s).buf == s.buf
    ensures StopTimer(s).delivered == s.delivered && StopTimer(s).appended == s.appended
  {
  }

  lemma FlushPrefixKeeps(s: State, n: nat, backend: bool)
    requires Inv(s) && n <= |s.buf|
    ensures var o := FlushPrefix(s, n, backend);
            && Inv(o.state) && o.state.appended == s.appended
            && (o.ok <==> n == 0 || backend)
            && (o.ok ==> o.state.buf == s.buf[n..]) && (!o.ok ==> o.state == s)
  {
    var s' := s.(buf := s.buf[n..], delivered := s.delivered + s.buf[..n]);
    assert s.buf == s.buf[..n] + s.buf[n..];
    assert s'.delivered + s'.buf == s.delivered + s.buf;
    StopKeeps(s');
  }

  lemma FlushAllKeeps(s: State, backend: bool)
    requires Inv(s)
    ensures var o := FlushAll(s, backend);
            && Inv(o.state) && o.state.appended == s.appended
            && (o.ok <==> s.buf == [] || backend)
            && (o.ok ==> o.state.buf == [] && o.state.timer.None? && o.state.delivered == o.state.appended)
            && (!o.ok ==> o.state == s)
  {
    if s.buf == [] {
      StopKeeps(s);
    } else {
      FlushPrefixKeeps(s, |s.buf|, backend);
    }
    assert FlushAll(s, backend).ok ==> FlushAll(s, backend).state.buf == [];
  }

  function Append(s: State, payload: seq<byte>): State {
    s.(buf := s.buf + payload, appended := s.appended + payload)
  }

  lemma AppendKeeps(s: State, payload: seq<byte>)
    requires Inv(s)
    ensures Inv(Append(s, payload))
  {
    assert s.delivered + (s.buf + payload) == (s.delivered + s.buf) + payload;
  }

  lemma LinesKeep(p: Policy, s: State, backend: bool)
    requires Inv(s)
    ensures var o := FlushLines(p, s, backend);
            && Inv(o.state) && o.state.appended == s.appended
            && (o.ok && p.flushOnNewline ==> NEWLINE !in o.state.buf)
  {
    var i := LastNewline(s.buf);
    if p.flushOnNewline && i >= 0 {
      FlushPrefixKeeps(s, i + 1, backend);
    }
  }

  lemma FullKeeps(p: Policy, s: State, backend: bool)
    requires Inv(s)
    ensures var o := FlushFull(p, s, backend);
            && Inv(o.state) && o.state.appended == s.appended
            && (o.ok ==> |o.state.buf| < MaxSize(p) && (NEWLINE !in s.buf ==> NEWLINE !in o.state.buf))
  {
    FlushAllKeeps(s, backend);
  }

  lemma ArmKeeps(p: Policy, s: State)
    requires Inv(s)
    ensures Inv(ArmTimer(p, s)) && ArmTimer(p, s).buf == s.buf && ArmTimer(p, s).appended == s.appended
    ensures p.maxDelay > 0 && s.buf != [] ==> ArmTimer(p, s).timer.Some?
  {
  }

  /** A write appends its payload whatever happens; on success the triggers are exhausted. */
  lemma WriteKeeps(p: Policy, s: State, payload: seq<byte>, backend1: bool, backend2: bool)
    requires Inv(s)
    ensures var o := Write(p, s, payload, backend1, backend2);
            && Inv(o.state) && o.state.appended == s.appended + payload
            && (o.ok ==>
                  && |o.state.buf| < (if p.maxSize > 0 then p.maxSize else 65536)
                  && (p.flushOnNewline ==> NEWLINE !in o.state.buf)
                  && (p.maxDelay > 0 && o.state.buf != [] ==> o.state.timer.Some?))
  {
    AppendKeeps(s, payload);
    var lines := FlushLines(p, Append(s, payload), backend1);
    LinesKeep(p, Append(s, payload), backend1);
    var full := FlushFull(p, lines.state, backend2);
    FullKeeps(p, lines.state, backend2);
    ArmKeeps(p, full.state);
  }

  predicate IsSuffix(t: seq<byte>, s: seq<byte>) {
    |t| <= |s| && t == s[|s| - |t|..]
  }

  /** What the newline trigger leaves of `s`: all of it, or the part behind its last newline. */
  predicate Unflushed(p: Policy, t: seq<byte>, s: seq<byte>) {
    && IsSuffix(t, s)
    && (p.flushOnNewline ==> NEWLINE !in t)
    && (|t| < |s| ==> p.flushOnNewline && s[|s| - |t| - 1] == NEWLINE)
  }

  lemma LinesLeave(p: Policy, s: State, backend: bool) returns (t: seq<byte>)
    ensures Unflushed(p, t, s.buf)
    ensures var o := FlushLines(p, s, backend);
            && (o.ok <==> t == s.buf || backend) && o.state.buf == (if o.ok then t else s.buf)
            && (o.state.buf != [] ==> o.state.timer == s.timer) && o.state.next == s.next
            && (o.state.buf == s.buf ==> o.state == s)
  {
    var i := LastNewline(s.buf);
    t := if p.flushOnNewline then s.buf[i + 1..] else s.buf;
  }

  lemma FullLeaves(p: Policy, s: State, backend: bool)
    requires Inv(s)
    ensures var o := FlushFull(p, s, backend);
            var full := |s.buf| >= if p.maxSize > 0 then p.maxSize else 65536;
            && (o.ok <==> !full || backend) && o.state.buf == (if full && backend then [] else s.buf)
            && (o.state.buf != [] ==> o.state.timer == s.timer) && o.state.next == s.next
  {
    FlushAllKeeps(s, backend);
  }

  /**
   * What a write leaves, whatever the mount answers. `t` is what is behind the last newline (all of it without
   * FlushOnNewline). With conservation this also fixes what is delivered. A set timer is left alone while bytes
   * remain; one is set only by a write that works and leaves bytes, and only if there is a delay.
   */
  lemma WriteLeaves(p: Policy, s: State, payload: seq<byte>, backend1: bool, backend2: bool) returns (t: seq<byte>)
    requires Inv(s)
    ensures Unflushed(p, t, s.buf + payload)
    ensures var o := Write(p, s, payload, backend1, backend2);
            var refused := t != s.buf + payload && !backend1;
            var full := |t| >= if p.maxSize > 0 then p.maxSize else 65536;
            && (o.ok <==> !refused && (!full || backend2))
            && o.state.buf == (if refused then s.buf + payload else if full && backend2 then [] else t)
            && Inv(o.state) && o.state.appended == s.appended + payload
            && o.state.timer == (if o.state.buf == [] then None
                                 else if s.timer.None? && o.ok && p.maxDelay > 0 then Some(s.next)
                                 else s.timer)
  {
    hide FlushLines, FlushFull, Unflushed;
    var a := Append(s, payload);
    AppendKeeps(s, payload);
    t := LinesLeave(p, a, backend1);
    LinesKeep(p, a, backend1);
    FullLeaves(p, FlushLines(p, a, backend1).state, backend2);
    WriteKeeps(p, s, payload, backend1, backend2);
  }

  /**
   * A write whose mount takes everything delivers nothing exactly when the buffer stays below the size limit
   * and holds no newline to flush.
   */
  lemma WriteWaitsIff(p: Policy, s: State, payload: seq<byte>)
    requires Inv(s)
    ensures var all := s.buf + payload;
            Write(p, s, payload, true, true).state.delivered == s.delivered <==>
            |all| < (if p.maxSize > 0 then p.maxSize else 65536) && !(p.flushOnNewline && NEWLINE in all)
  {
    hide Write;
    var t := WriteLeaves(p, s, payload, true, true);
    var o := Write(p, s, payload, true, true).state;
    assert o.delivered + o.buf == s.delivered + (s.buf + payload);
    assert o.delivered == (o.delivered + o.buf)[..|o.delivered|];
    assert s.delivered == (s.delivered + (s.buf + payload))[..|s.delivered|];
  }

  lemma CloseKeeps(s: State, backend: bool)
    requires Inv(s)
    ensures var o := Close(s, backend);
            && Inv(o.state) && o.state.timer.None? && o.state.appended == s.appended
            && (o.ok <==> s.buf == [] || backend)
            && (o.ok ==> o.state.buf == [] && o.state.delivered == o.state.appended)
            && (!o.ok ==> o.state.buf == s.buf && o.state.delivered == s.delivered)
  {
    FlushAllKeeps(s, backend);
    StopKeeps(FlushAll(s, backend).state);
  }

  /** The handle as the code changes it; every method runs under the handle's mutex. */
  class Handle {
    const policy: Policy
    var buf: seq<byte>
    var timer: Option<Channel>
    var timerCh: Option<Channel>
    var next: Channel
    ghost var shut: seq<Channel>
    ghost var delivered: seq<byte>
    ghost var appended: seq<byte>

    ghost function View(): State
      reads this
    {
      State(buf, timer, timerCh, next, shut, delivered, appended)
    }

    constructor (policy: Policy)
      ensures this.policy == policy && View() == Opened
    {
      this.policy := policy;
      buf, timer, timerCh, next := [], None, None, 0;
      shut, delivered, appended := [], [], [];
    }

    method StopTimerLocked()
      requires TimerOk(View())
      modifies this
      ensures View() == StopTimer(old(View()))
    {
      if timer.Some? {
        assert timerCh.Some? && timerCh.value !in shut;  // closing is safe
        shut := shut + [timerCh.value];
        timer, timerCh := None, None;
      }
    }

    method StartTimerLocked()
      modifies this
      ensures View() == StartTimer(old(View()))
    {
      timerCh := Some(next);
      timer := Some(next);
      next := next + 1;
    }

    method FlushPrefixLocked(n: nat, backend: bool) returns (ok: bool)
      requires n <= |buf| && TimerOk(View())
      modifies this
      ensures FlushPrefix(old(View()), n, backend) == Outcome(View(), ok)
    {
      if n == 0 { return true; }
      var payload := buf[..n];
      if !backend { return false; }
      delivered := delivered + payload;
      buf := buf[n..];
      if |buf| == 0 { StopTimerLocked(); }
      return true;
    }

    method FlushAllLocked(backend: bool) returns (ok: bool)
      requires TimerOk(View())
      modifies this
      ensures FlushAll(old(View()), backend) == Outcome(View(), ok)
    {
      if |buf| == 0 {
        StopTimerLocked();
        return true;
      }
      ok := FlushPrefixLocked(|buf|, backend);
    }

    /** The newline trigger of `Write`. */
    method FlushLinesLocked(backend: bool) returns (ok: bool)
      requires TimerOk(View())
      modifies this
      ensures FlushLines(policy, old(View()), backend) == Outcome(View(), ok)
    {
      ok := true;
      if policy.flushOnNewline {
        var idx := LastNewline(buf);
        if idx >= 0 {
          ok := FlushPrefixLocked(idx + 1, backend);
        }
      }
    }

    method WriteLocked(payload: seq<byte>, backend1: bool, backend2: bool) returns (ok: bool)
      requires Inv(View())
      modifies this
      ensures Inv(View()) && Write(policy, old(View()), payload, backend1, backend2) == Outcome(View(), ok)
    {
      WriteKeeps(policy, View(), payload, backend1, backend2);
      AppendKeeps(View(), payload);
      buf := buf + payload;
      appended := appended + payload;
      LinesKeep(policy, View(), backend1);
      ok := FlushLinesLocked(backend1);
      if !ok { return; }
      var maxSize := MaxSize(policy);
      if |buf| >= maxSize {
        ok := FlushAllLocked(backend2);
        if !ok { return; }
      }
      if |buf| > 0 && policy.maxDelay > 0 && timer.None? {
        StartTimerLocked();
      }
    }

    method CloseLocked(backend: bool) returns (ok: bool)
      requires Inv(View())
      modifies this
      ensures Inv(View()) && Close(old(View()), backend) == Outcome(View(), ok)
    {
      CloseKeeps(View(), backend);
      FlushAllKeeps(View(), backend);
      ok := FlushAllLocked(backend);
      StopTimerLocked();
    }
  }
}
