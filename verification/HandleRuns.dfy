/**
 * Interleavings of Write, Flush, Close and timer callbacks on one buffered handle. Every call tests
 * `closed` before it takes the mutex, so a Write or Flush may still be on its way in when Close is done.
 */
module HandleRuns {
  import opened Bytes
  import opened HandleBuffer

  type Thread = nat

  datatype Closing = NotYet | Underway | Done(ok: bool)

  /**
   * `writes` and `flushes` are calls past their `closed` test; `launched` are timers that have gone off,
   * and `callbacks` those of them that have not looked at their stop channel yet.
   */
  datatype World = World(st: State, closing: Closing, writes: map<Thread, seq<byte>>, flushes: nat,
                         launched: set<Channel>, callbacks: set<Channel>)

  const Fresh := World(Opened, NotYet, map[], 0, {}, {})

  datatype Event =
    | BeginWrite(t: Thread, payload: seq<byte>)
    | DoWrite(t: Thread, backend1: bool, backend2: bool)
    | BeginFlush
    | DoFlush(backend: bool)
    | BeginClose
    | DoClose(backend: bool)
    | Launch(c: Channel)  // the delay has passed and nobody stopped the timer
    | Check(c: Channel)   // the callback looks at its stop channel, then calls Flush

  predicate Enabled(w: World, e: Event) {
    match e
    case BeginWrite(t, _) => w.closing.NotYet? && t !in w.writes
    case DoWrite(t, _, _) => t in w.writes
    case BeginFlush => w.closing.NotYet?
    case DoFlush(_) => w.flushes > 0
    case BeginClose => w.closing.NotYet?
    case DoClose(_) => w.closing.Underway?
    case Launch(c) => w.st.timer == Some(c) && c !in w.launched
    case Check(c) => c in w.callbacks
  }

  function Step(p: Policy, w: World, e: Event): World
    requires Enabled(w, e)
  {
    match e
    case BeginWrite(t, payload) => w.(writes := w.writes[t := payload])
    case DoWrite(t, b1, b2) => w.(st := Write(p, w.st, w.writes[t], b1, b2).state, writes := w.writes - {t})
    case BeginFlush => w.(flushes := w.flushes + 1)
    case DoFlush(b) => w.(st := FlushAll(w.st, b).state, flushes := w.flushes - 1)
    case BeginClose => w.(closing := Underway)
    case DoClose(b) => var o := Close(w.st, b); w.(st := o.state, closing := Done(o.ok))
    case Launch(c) => w.(launched := w.launched + {c}, callbacks := w.callbacks + {c})
    case Check(c) =>
      w.(callbacks := w.callbacks - {c},
         flushes := if c in w.st.shut || !w.closing.NotYet? then w.flushes else w.flushes + 1)
  }

  predicate Possible(p: Policy, w: World, run: seq<Event>)
    decreases |run|
  {
    run == [] || (Enabled(w, run[0]) && Possible(p, Step(p, w, run[0]), run[1..]))
  }

  function After(p: Policy, w: World, run: seq<Event>): World
    requires Possible(p, w, run)
    decreases |run|
  {
    if run == [] then w else After(p, Step(p, w, run[0]), run[1..])
  }

  ghost predicate Reachable(p: Policy, w: World) {
    exists run :: Possible(p, Fresh, run) && After(p, Fresh, run) == w
  }

  // ---- conservation and timer discipline ----

  lemma StepKeeps(p: Policy, w: World, e: Event)
    requires Inv(w.st) && Enabled(w, e)
    ensures Inv(Step(p, w, e).st)
  {
    match e
    case DoWrite(t, b1, b2) => WriteKeeps(p, w.st, w.writes[t], b1, b2);
    case DoFlush(b) => FlushAllKeeps(w.st, b);
    case DoClose(b) => CloseKeeps(w.st, b);
    case _ =>
  }

  lemma {:induction false} RunKeeps(p: Policy, w: World, run: seq<Event>)
    requires Inv(w.st) && Possible(p, w, run)
    ensures Inv(After(p, w, run).st)
    decreases |run|
  {
    if run != [] {
      StepKeeps(p, w, run[0]);
      RunKeeps(p, Step(p, w, run[0]), run[1..]);
    }
  }

  /** Whatever fails: delivered bytes followed by the buffer are the appended bytes; the timer is in order. */
  lemma NothingLostOrReordered(p: Policy, w: World)
    requires Reachable(p, w)
    ensures w.st.delivered + w.st.buf == w.st.appended
    ensures w.st.timer == w.st.timerCh && (w.st.timer.Some? ==> w.st.buf != [])
    ensures Distinct(w.st.shut) && (w.st.timer.Some? ==> w.st.timer.value !in w.st.shut)
  {
    var run :| Possible(p, Fresh, run) && After(p, Fresh, run) == w;
    RunKeeps(p, Fresh, run);
  }

  /** A timer needs a delay; a channel handed out is the set timer's or closed. */
  ghost predicate ChannelsAccounted(p: Policy, s: State) {
    && (s.timer.Some? ==> p.maxDelay > 0)
    && forall c: Channel :: c < s.next <==> c in s.shut || s.timer == Some(c)
  }

  lemma StopAccounts(p: Policy, s: State)
    requires s.timer == s.timerCh && ChannelsAccounted(p, s)
    ensures ChannelsAccounted(p, StopTimer(s))
  {
    if s.timer.Some? {
      assert forall c :: c in s.shut + [s.timer.value] <==> c in s.shut || c == s.timer.value;
    }
  }

  lemma FlushAccounts(p: Policy, s: State, n: nat, b: bool)
    requires Inv(s) && ChannelsAccounted(p, s) && n <= |s.buf|
    ensures ChannelsAccounted(p, FlushPrefix(s, n, b).state) && ChannelsAccounted(p, FlushAll(s, b).state)
  {
    StopAccounts(p, s);
    StopAccounts(p, s.(buf := s.buf[n..], delivered := s.delivered + s.buf[..n]));
    StopAccounts(p, s.(buf := s.buf[|s.buf|..], delivered := s.delivered + s.buf[..|s.buf|]));
  }

  lemma TriggersAccount(p: Policy, s: State, b: bool)
    requires Inv(s) && ChannelsAccounted(p, s)
    ensures ChannelsAccounted(p, FlushLines(p, s, b).state) && ChannelsAccounted(p, FlushFull(p, s, b).state)
  {
    hide FlushPrefix, FlushAll, LastNewline, Inv, ChannelsAccounted;
    FlushAccounts(p, s, LastNewline(s.buf) + 1, b);
  }

  lemma ArmAccounts(p: Policy, s: State)
    requires ChannelsAccounted(p, s)
    ensures ChannelsAccounted(p, ArmTimer(p, s))
  {
  }

  lemma WriteAccounts(p: Policy, s: State, payload: seq<byte>, b1: bool, b2: bool)
    requires Inv(s) && ChannelsAccounted(p, s)
    ensures ChannelsAccounted(p, Write(p, s, payload, b1, b2).state)
  {
    hide FlushLines, FlushFull, ArmTimer, Inv;
    var a := Append(s, payload);
    AppendKeeps(s, payload);
    TriggersAccount(p, a, b1);
    var lines := FlushLines(p, a, b1).state;
    LinesKeep(p, a, b1);
    TriggersAccount(p, lines, b2);
    ArmAccounts(p, FlushFull(p, lines, b2).state);
  }

  lemma {:induction false} RunAccounts(p: Policy, w: World, run: seq<Event>)
    requires Inv(w.st) && ChannelsAccounted(p, w.st) && Possible(p, w, run)
    ensures ChannelsAccounted(p, After(p, w, run).st)
    decreases |run|
  {
    if run != [] {
      StepKeeps(p, w, run[0]);
      match run[0] {
        case DoWrite(t, b1, b2) => WriteAccounts(p, w.st, w.writes[t], b1, b2);
        case DoFlush(b) => FlushAccounts(p, w.st, 0, b);
        case DoClose(b) =>
          FlushAccounts(p, w.st, 0, b);
          FlushAllKeeps(w.st, b);
          StopAccounts(p, FlushAll(w.st, b).state);
        case _ =>
      }
      RunAccounts(p, Step(p, w, run[0]), run[1..]);
    }
  }

  /** In every reachable state a timer is set only if there is a delay, and every other channel ever made is closed. */
  lemma EveryChannelIsClosed(p: Policy, w: World)
    requires Reachable(p, w)
    ensures w.st.timer.Some? ==> p.maxDelay > 0
    ensures forall c: Channel :: c < w.st.next <==> c in w.st.shut || w.st.timer == Some(c)
  {
    var run :| Possible(p, Fresh, run) && After(p, Fresh, run) == w;
    RunAccounts(p, Fresh, run);
  }

  // ---- what a nil Close promises ----

  /** No write under way has anything to add. */
  predicate NoLateBytes(w: World) {
    forall t :: t in w.writes ==> w.writes[t] == []
  }

  /** After a successful Close everything was delivered; nothing can add to it unless a write is under way. */
  predicate Settled(w: World) {
    !w.closing.NotYet? && w.st.buf == [] && w.st.timer.None? && w.st.delivered == w.st.appended && NoLateBytes(w)
  }

  lemma SettledStep(p: Policy, w: World, e: Event)
    requires Settled(w) && Enabled(w, e)
    ensures Settled(Step(p, w, e)) && Step(p, w, e).st.appended == w.st.appended
  {
    match e
    case DoWrite(t, _, _) =>
      assert Append(w.st, w.writes[t]) == w.st;
    case _ =>
  }

  lemma {:induction false} SettledRun(p: Policy, w: World, run: seq<Event>)
    requires Settled(w) && Possible(p, w, run)
    ensures Settled(After(p, w, run)) && After(p, w, run).st.appended == w.st.appended
    decreases |run|
  {
    if run != [] {
      SettledStep(p, w, run[0]);
      SettledRun(p, Step(p, w, run[0]), run[1..]);
    }
  }

  /** Everything ever accepted has been delivered, now and in every later state. */
  ghost predicate DeliveredForGood(p: Policy, w: World) {
    forall run :: Possible(p, w, run) ==> After(p, w, run).st.delivered == After(p, w, run).st.appended
  }

  lemma DoCloseSettles(p: Policy, w: World, b: bool)
    requires Reachable(p, w) && Enabled(w, DoClose(b)) && Step(p, w, DoClose(b)).closing == Done(true)
    ensures var w' := Step(p, w, DoClose(b));
            w'.st.buf == [] && w'.st.timer.None? && w'.st.delivered == w'.st.appended
  {
    var run :| Possible(p, Fresh, run) && After(p, Fresh, run) == w;
    RunKeeps(p, Fresh, run);
    CloseKeeps(w.st, b);
  }

  /** A refused late write leaves its payload behind. */
  lemma LateWriteBreaks(p: Policy, w: World, t: Thread)
    requires Inv(w.st) && t in w.writes && w.writes[t] != [] && w.st.buf == []
    ensures !DeliveredForGood(p, w)
  {
    var e := DoWrite(t, false, false);
    var run := [e];
    WriteKeeps(p, w.st, w.writes[t], false, false);
    assert Possible(p, Step(p, w, e), run[1..]) && After(p, Step(p, w, e), run[1..]) == Step(p, w, e);
    assert Possible(p, w, run) && After(p, w, run) == Step(p, w, e);
    RefusedKeepsBytes(p, w.st, w.writes[t]);
  }

  lemma RefusedKeepsBytes(p: Policy, s: State, payload: seq<byte>)
    requires s.buf == [] && payload != []
    ensures Write(p, s, payload, false, false).state.buf == payload
    ensures Write(p, s, payload, false, false).state.delivered == s.delivered
  {
  }

  /**
   * A Close that returned nil has delivered everything appended so far. It stays so for good exactly
   * when no write that passed the `closed` test before Close still brings bytes.
   */
  lemma NilCloseIsFinalIff(p: Policy, w: World, b: bool)
    requires Reachable(p, w) && Enabled(w, DoClose(b)) && Step(p, w, DoClose(b)).closing == Done(true)
    ensures var w' := Step(p, w, DoClose(b)); w'.st.buf == [] && w'.st.delivered == w'.st.appended
    ensures DeliveredForGood(p, Step(p, w, DoClose(b))) <==> NoLateBytes(w)
  {
    var w' := Step(p, w, DoClose(b));
    DoCloseSettles(p, w, b);
    if NoLateBytes(w) {
      forall run | Possible(p, w', run)
        ensures After(p, w', run).st.delivered == After(p, w', run).st.appended
      {
        SettledRun(p, w', run);
      }
    } else {
      var t :| t in w.writes && w.writes[t] != [];
      NothingLostOrReordered(p, w);
      CloseInv(p, w, b);
      LateWriteBreaks(p, w', t);
    }
  }

  lemma CloseInv(p: Policy, w: World, b: bool)
    requires Reachable(p, w) && Enabled(w, DoClose(b))
    ensures Inv(Step(p, w, DoClose(b)).st)
  {
    var run :| Possible(p, Fresh, run) && After(p, Fresh, run) == w;
    RunKeeps(p, Fresh, run);
    CloseKeeps(w.st, b);
  }

  // ---- a write that reports success and is never delivered ----

  /** A closed handle on which no call that could flush is under way. */
  predicate Abandoned(w: World) {
    !w.closing.NotYet? && !w.closing.Underway? && w.flushes == 0 && w.writes == map[]
  }

  lemma {:induction false} AbandonedRun(p: Policy, w: World, run: seq<Event>)
    requires Abandoned(w) && Possible(p, w, run)
    ensures Abandoned(After(p, w, run)) && After(p, w, run).st == w.st
    decreases |run|
  {
    if run != [] {
      AbandonedRun(p, Step(p, w, run[0]), run[1..]);
    }
  }

  /** The payload alone sets off neither the newline nor the size trigger. */
  predicate Quiet(p: Policy, payload: seq<byte>) {
    |payload| < (if p.maxSize > 0 then p.maxSize else 65536) && (p.flushOnNewline ==> NEWLINE !in payload)
  }

  /** A write that trips no trigger reaches nothing but the buffer, and leaves a timer that is set alone. */
  lemma QuietWrite(p: Policy, s: State, payload: seq<byte>, b1: bool, b2: bool)
    requires Quiet(p, s.buf + payload)
    ensures var o := Write(p, s, payload, b1, b2);
            && o.ok && o.state.buf == s.buf + payload && o.state.delivered == s.delivered
            && o.state.appended == s.appended + payload && (s.timer.Some? ==> o.state.timer == s.timer)
  {
  }

  /**
   * The race between Write and Close: the last write under way when Close returned nil reports success, and
   * its bytes reach the mount in no later state, with or without a delay timer.
   */
  lemma LateWriteIsLost(p: Policy, w: World, t: Thread, b1: bool, b2: bool, later: seq<Event>)
    requires w.closing == Done(true) && w.st.buf == [] && w.flushes == 0
    requires w.writes.Keys == {t} && Quiet(p, w.writes[t]) && w.writes[t] != []
    requires Possible(p, Step(p, w, DoWrite(t, b1, b2)), later)
    ensures Write(p, w.st, w.writes[t], b1, b2).ok
    ensures After(p, Step(p, w, DoWrite(t, b1, b2)), later).st.delivered == w.st.delivered
    ensures After(p, Step(p, w, DoWrite(t, b1, b2)), later).st.appended == w.st.appended + w.writes[t]
  {
    assert [] + w.writes[t] == w.writes[t];
    QuietWrite(p, w.st, w.writes[t], b1, b2);
    AbandonedRun(p, Step(p, w, DoWrite(t, b1, b2)), later);
  }

  /** Such a write happens: it passed its `closed` test, then Close began, flushed nothing and returned nil. */
  lemma LateWriteHappens(p: Policy, payload: seq<byte>, b1: bool, b2: bool, later: seq<Event>)
    requires Quiet(p, payload) && payload != []
    requires var w := World(Opened, Done(true), map[0 := payload], 0, {}, {});
             Possible(p, Step(p, w, DoWrite(0, b1, b2)), later)
    ensures var run := [BeginWrite(0, payload)] + ([BeginClose] + ([DoClose(true)] + ([DoWrite(0, b1, b2)] + later)));
            && Possible(p, Fresh, run)
            && Write(p, Opened, payload, b1, b2).ok
            && After(p, Fresh, run).st.delivered == [] && After(p, Fresh, run).st.appended == payload
  {
    var w1 := World(Opened, NotYet, map[0 := payload], 0, {}, {});
    var w2 := World(Opened, Underway, map[0 := payload], 0, {}, {});
    var w3 := World(Opened, Done(true), map[0 := payload], 0, {}, {});
    assert Step(p, Fresh, BeginWrite(0, payload)) == w1 && Step(p, w1, BeginClose) == w2;
    assert Step(p, w2, DoClose(true)) == w3;
    assert [] + payload == payload;
    LateWriteIsLost(p, w3, 0, b1, b2, later);
    hide Step, Possible, After;
    FirstStep(p, w3, DoWrite(0, b1, b2), later);
    FirstStep(p, w2, DoClose(true), [DoWrite(0, b1, b2)] + later);
    FirstStep(p, w1, BeginClose, [DoClose(true)] + ([DoWrite(0, b1, b2)] + later));
    FirstStep(p, Fresh, BeginWrite(0, payload), [BeginClose] + ([DoClose(true)] + ([DoWrite(0, b1, b2)] + later)));
  }

  lemma FirstStep(p: Policy, w: World, e: Event, rest: seq<Event>)
    requires Enabled(w, e) && Possible(p, Step(p, w, e), rest)
    ensures Possible(p, w, [e] + rest) && After(p, w, [e] + rest) == After(p, Step(p, w, e), rest)
  {
    assert ([e] + rest)[1..] == rest;
  }

  // ---- when the delay timer covers every byte, and when it does not ----

  /** The timer can still go off, or has gone off and will still call Flush. */
  predicate Live(w: World) {
    w.st.timer.Some? && (w.st.timer.value !in w.launched || w.st.timer.value in w.callbacks)
  }

  /** Something will flush: a live timer or a flush on its way. */
  predicate Covered(w: World) {
    w.flushes > 0 || Live(w)
  }

  /** The bytes in an open handle with a delay are covered. */
  predicate BytesCovered(p: Policy, w: World) {
    p.maxDelay > 0 && w.closing.NotYet? && w.st.buf != [] ==> Covered(w)
  }

  predicate ChannelsOk(w: World) {
    Inv(w.st) && forall c :: c in w.launched ==> c < w.st.next
  }

  /** What the newline trigger leaves of `s`. */
  function Rest(p: Policy, s: seq<byte>): seq<byte> {
    if p.flushOnNewline && LastNewline(s) >= 0 then s[LastNewline(s) + 1..] else s
  }

  /** The newline trigger goes off and its flush is refused, or the rest reaches the size and that flush is. */
  predicate WriteRefused(p: Policy, s: seq<byte>, b1: bool, b2: bool) {
    || (p.flushOnNewline && NEWLINE in s && !b1)
    || (|Rest(p, s)| >= (if p.maxSize > 0 then p.maxSize else 65536) && !b2)
  }

  lemma NewlineIff(s: seq<byte>)
    ensures NEWLINE in s <==> LastNewline(s) >= 0
  {
    if LastNewline(s) >= 0 {
      assert s[LastNewline(s)] == NEWLINE;
    }
  }

  lemma LinesOkIff(p: Policy, s: State, b: bool)
    ensures var o := FlushLines(p, s, b);
            && (o.ok <==> !(p.flushOnNewline && NEWLINE in s.buf && !b))
            && (o.ok ==> o.state.buf == Rest(p, s.buf))
  {
    hide LastNewline;
    NewlineIff(s.buf);
  }

  lemma FullOkIff(p: Policy, s: State, b: bool)
    ensures FlushFull(p, s, b).ok <==> !(|s.buf| >= MaxSize(p) && !b)
  {
  }

  lemma WriteOkIff(p: Policy, s: State, payload: seq<byte>, b1: bool, b2: bool)
    ensures Write(p, s, payload, b1, b2).ok <==> !WriteRefused(p, s.buf + payload, b1, b2)
  {
    hide FlushLines, FlushFull, Rest, LastNewline;
    var a := Append(s, payload);
    LinesOkIff(p, a, b1);
    FullOkIff(p, FlushLines(p, a, b1).state, b2);
  }

  /**
   * The two steps that lose cover, on an open handle with a delay: a write that a refused flush cuts short before
   * it reaches its timer, when none is set and no flush is on its way; and the refusal of the last flush on its
   * way, a timer's or a caller's, when no live timer is set.
   */
  predicate LosesCover(p: Policy, w: World, e: Event)
    requires Enabled(w, e)
  {
    && p.maxDelay > 0 && w.closing.NotYet?
    && match e {
         case DoWrite(t, b1, b2) =>
           WriteRefused(p, w.st.buf + w.writes[t], b1, b2) && w.st.timer.None? && w.flushes == 0
         case DoFlush(b) => !b && w.st.buf != [] && w.flushes == 1 && !Live(w)
         case _ => false
       }
  }

  /** What a write does to the timer: nothing, or it stops it, or sets a new one; a refused one does nothing. */
  lemma WriteTimer(p: Policy, s: State, payload: seq<byte>, b1: bool, b2: bool)
    requires Inv(s)
    ensures var o := Write(p, s, payload, b1, b2);
            && o.state.next >= s.next
            && (o.state.timer == s.timer || o.state.timer == None || o.state.timer == Some(s.next))
            && (!o.ok ==> o.state.timer == s.timer && o.state.next == s.next && o.state.buf != [])
  {
    var a := Append(s, payload);
    var lines := FlushLines(p, a, b1);
    LinesTimer(p, a, b1);
    if lines.ok {
      FullTimer(p, lines.state, b2);
    }
    hide FlushLines, FlushFull, Inv;
  }

  lemma LinesTimer(p: Policy, s: State, b: bool)
    ensures var o := FlushLines(p, s, b);
            && o.state.next == s.next
            && (o.state.timer == s.timer || (o.ok && o.state.timer == None && o.state.buf == []))
            && (!o.ok ==> o.state.buf != [])
  {
  }

  lemma FullTimer(p: Policy, s: State, b: bool)
    ensures var o := FlushFull(p, s, b);
            && o.state.next == s.next && (o.state.timer == s.timer || (o.ok && o.state.timer == None))
            && (!o.ok ==> o.state == s && s.buf != [])
  {
  }

  lemma ChannelsStep(p: Policy, w: World, e: Event)
    requires ChannelsOk(w) && Enabled(w, e)
    ensures ChannelsOk(Step(p, w, e))
  {
    StepKeeps(p, w, e);
    match e
    case DoWrite(t, b1, b2) => WriteTimer(p, w.st, w.writes[t], b1, b2);
    case DoFlush(b) =>
    case DoClose(b) =>
    case Launch(c) =>
    case _ =>
  }

  lemma CoverWrite(p: Policy, w: World, t: Thread, b1: bool, b2: bool)
    requires ChannelsOk(w) && BytesCovered(p, w) && t in w.writes
    ensures BytesCovered(p, Step(p, w, DoWrite(t, b1, b2))) <==> !LosesCover(p, w, DoWrite(t, b1, b2))
  {
    WriteKeeps(p, w.st, w.writes[t], b1, b2);
    WriteTimer(p, w.st, w.writes[t], b1, b2);
    WriteOkIff(p, w.st, w.writes[t], b1, b2);
    assert w.st.timer.Some? ==> w.st.buf != [];
    hide Write, Inv, WriteRefused;
  }

  lemma CoverFlush(p: Policy, w: World, b: bool)
    requires ChannelsOk(w) && BytesCovered(p, w) && w.flushes > 0
    ensures BytesCovered(p, Step(p, w, DoFlush(b))) <==> !LosesCover(p, w, DoFlush(b))
  {
    FlushAllKeeps(w.st, b);
    FlushOk(w.st, b);
    hide FlushAll, Inv;
  }

  lemma FlushOk(s: State, b: bool)
    ensures FlushAll(s, b).ok <==> b || s.buf == []
  {
  }

  /** From a covered state the bytes stay covered exactly when the step is not one of those two. */
  lemma CoverStepIff(p: Policy, w: World, e: Event)
    requires ChannelsOk(w) && BytesCovered(p, w) && Enabled(w, e)
    ensures BytesCovered(p, Step(p, w, e)) <==> !LosesCover(p, w, e)
  {
    match e
    case DoWrite(t, b1, b2) => CoverWrite(p, w, t, b1, b2);
    case DoFlush(b) => CoverFlush(p, w, b);
    case _ =>
  }

  /** In every state of the run, the bytes are covered. */
  predicate AlwaysCovered(p: Policy, w: World, run: seq<Event>)
    requires Possible(p, w, run)
    decreases |run|
  {
    BytesCovered(p, w) && (run == [] || AlwaysCovered(p, Step(p, w, run[0]), run[1..]))
  }

  predicate NeverLosesCover(p: Policy, w: World, run: seq<Event>)
    requires Possible(p, w, run)
    decreases |run|
  {
    run == [] || (!LosesCover(p, w, run[0]) && NeverLosesCover(p, Step(p, w, run[0]), run[1..]))
  }

  lemma {:induction false} CoverRunIff(p: Policy, w: World, run: seq<Event>)
    requires ChannelsOk(w) && BytesCovered(p, w) && Possible(p, w, run)
    ensures AlwaysCovered(p, w, run) <==> NeverLosesCover(p, w, run)
    decreases |run|
  {
    if run != [] {
      CoverStepIff(p, w, run[0]);
      ChannelsStep(p, w, run[0]);
      hide Step, ChannelsOk, LosesCover, BytesCovered, Enabled;
      if BytesCovered(p, Step(p, w, run[0])) {
        CoverRunIff(p, Step(p, w, run[0]), run[1..]);
      } else {
        assert !AlwaysCovered(p, Step(p, w, run[0]), run[1..]);
      }
    }
  }

  /**
   * Bytes left in an open handle with a delay have, all through a run, a timer that will still flush them or a
   * flush on its way, exactly when the run takes no losing step.
   */
  lemma BytesAreCoveredIff(p: Policy, run: seq<Event>)
    requires Possible(p, Fresh, run)
    ensures AlwaysCovered(p, Fresh, run) <==> NeverLosesCover(p, Fresh, run)
  {
    CoverRunIff(p, Fresh, run);
  }

  predicate NoRefusal(run: seq<Event>) {
    forall e :: e in run ==> (e.DoWrite? ==> e.backend1 && e.backend2) && (e.DoFlush? ==> e.backend)
  }

  lemma {:induction false} NoRefusalKeepsCover(p: Policy, w: World, run: seq<Event>)
    requires Possible(p, w, run) && NoRefusal(run)
    ensures NeverLosesCover(p, w, run)
    decreases |run|
  {
    if run != [] {
      assert run[0] in run && forall e :: e in run[1..] ==> e in run;
      NoRefusalKeepsCover(p, Step(p, w, run[0]), run[1..]);
    }
  }

  /** In particular a run in which the mount refuses nothing forgets no bytes. */
  lemma NoForgottenBytes(p: Policy, run: seq<Event>)
    requires Possible(p, Fresh, run) && NoRefusal(run)
    ensures AlwaysCovered(p, Fresh, run)
  {
    NoRefusalKeepsCover(p, Fresh, run);
    BytesAreCoveredIff(p, run);
  }

  /**
   * Every losing step happens. First: any payload that trips a trigger, if its flush is refused, waits in the
   * buffer without a timer.
   */
  lemma RefusedWriteForgets(p: Policy, payload: seq<byte>)
    requires p.maxDelay > 0 && !Quiet(p, payload)
    ensures var run := [BeginWrite(0, payload)] + ([DoWrite(0, false, false)] + []);
            && Possible(p, Fresh, run)
            && var w := After(p, Fresh, run);
               w.closing.NotYet? && w.st.buf == payload != [] && w.st.timer.None? && !Covered(w)
  {
    var w1 := World(Opened, NotYet, map[0 := payload], 0, {}, {});
    var w2 := Step(p, w1, DoWrite(0, false, false));
    assert [] + payload == payload;
    RefusedWrite(p, payload);
    assert Step(p, Fresh, BeginWrite(0, payload)) == w1;
    assert Possible(p, w2, []) && After(p, w2, []) == w2;
    FirstStep(p, w1, DoWrite(0, false, false), []);
    FirstStep(p, Fresh, BeginWrite(0, payload), [DoWrite(0, false, false)] + []);
  }

  lemma RefusedWrite(p: Policy, payload: seq<byte>)
    requires !Quiet(p, payload)
    ensures var o := Write(p, Opened, payload, false, false);
            !o.ok && o.state.buf == payload != [] && o.state.timer.None?
  {
    assert [] + payload == payload;
    if p.flushOnNewline && NEWLINE in payload {
      assert LastNewline(payload) >= 0;
    }
  }

  /** The run of a caller's flush that overtakes a write. */
  function CallerRun(payload: seq<byte>): seq<Event> {
    [BeginWrite(0, payload)] + ([BeginFlush] + ([DoWrite(0, false, false)] + ([DoFlush(false)] + [])))
  }

  /**
   * Third: a caller's flush refused, without any timer ever set. The write before it was cut short too, but lost
   * nothing while that flush was on its way.
   */
  lemma CallerFlushForgets(p: Policy, payload: seq<byte>)
    requires p.maxDelay > 0 && !Quiet(p, payload)
    ensures Possible(p, Fresh, CallerRun(payload))
    ensures var w := After(p, Fresh, CallerRun(payload));
            && w.closing.NotYet? && w.st.buf == payload != [] && w.st.timer.None? && w.launched == {}
            && !BytesCovered(p, w)
    ensures var w := World(Opened, NotYet, map[0 := payload], 1, {}, {});
            !LosesCover(p, w, DoWrite(0, false, false)) && BytesCovered(p, Step(p, w, DoWrite(0, false, false)))
  {
    RefusedWrite(p, payload);
    var s := Write(p, Opened, payload, false, false).state;
    var w1 := World(Opened, NotYet, map[0 := payload], 0, {}, {});
    var w2 := World(Opened, NotYet, map[0 := payload], 1, {}, {});
    var w3 := World(s, NotYet, map[], 1, {}, {});
    var w4 := World(s, NotYet, map[], 0, {}, {});
    assert Step(p, Fresh, BeginWrite(0, payload)) == w1 && Step(p, w1, BeginFlush) == w2;
    assert Step(p, w2, DoWrite(0, false, false)) == w3 && Step(p, w3, DoFlush(false)) == w4;
    assert Possible(p, w4, []) && After(p, w4, []) == w4;
    FirstStep(p, w3, DoFlush(false), []);
    FirstStep(p, w2, DoWrite(0, false, false), [DoFlush(false)] + []);
    FirstStep(p, w1, BeginFlush, [DoWrite(0, false, false)] + ([DoFlush(false)] + []));
    FirstStep(p, Fresh, BeginWrite(0, payload), [BeginFlush] + ([DoWrite(0, false, false)] + ([DoFlush(false)] + [])));
  }

  /** The run of a timer flush. */
  function TimerRun(payload: seq<byte>): seq<Event> {
    [BeginWrite(0, payload)] + ([DoWrite(0, true, true)] + ([Launch(0)] + ([Check(0)] + ([DoFlush(false)] + []))))
  }

  /**
   * Second: a refused timer flush. The timer stays set though it has gone off, so later writes set no other and
   * it never calls again.
   */
  lemma FailedFlushForgets(p: Policy, payload: seq<byte>)
    requires p.maxDelay > 0 && Quiet(p, payload) && payload != []
    ensures Possible(p, Fresh, TimerRun(payload))
    ensures var w := After(p, Fresh, TimerRun(payload));
            w.closing.NotYet? && w.st.buf == payload && !Covered(w) && Forgotten(w)
  {
    var s := State(payload, Some(0), Some(0), 1, [], [], payload);
    var w1 := World(Opened, NotYet, map[0 := payload], 0, {}, {});
    var w2 := World(s, NotYet, map[], 0, {}, {});
    var w3 := World(s, NotYet, map[], 0, {0}, {0});
    var w4 := World(s, NotYet, map[], 1, {0}, {});
    var w5 := World(s, NotYet, map[], 0, {0}, {});
    QuietFirstWrite(p, payload);
    assert Step(p, Fresh, BeginWrite(0, payload)) == w1 && Step(p, w1, DoWrite(0, true, true)) == w2;
    assert Step(p, w2, Launch(0)) == w3 && Step(p, w3, Check(0)) == w4 && Step(p, w4, DoFlush(false)) == w5;
    assert Possible(p, w5, []) && After(p, w5, []) == w5;
    hide Step, Possible, After;
    FirstStep(p, w4, DoFlush(false), []);
    FirstStep(p, w3, Check(0), [DoFlush(false)] + []);
    FirstStep(p, w2, Launch(0), [Check(0)] + ([DoFlush(false)] + []));
    FirstStep(p, w1, DoWrite(0, true, true), [Launch(0)] + ([Check(0)] + ([DoFlush(false)] + [])));
    FirstStep(p, Fresh, BeginWrite(0, payload),
              [DoWrite(0, true, true)] + ([Launch(0)] + ([Check(0)] + ([DoFlush(false)] + []))));
  }

  lemma QuietFirstWrite(p: Policy, payload: seq<byte>)
    requires p.maxDelay > 0 && Quiet(p, payload) && payload != []
    ensures Write(p, Opened, payload, true, true).state == State(payload, Some(0), Some(0), 1, [], [], payload)
  {
    assert [] + payload == payload;
  }

  /** A timer that is set but spent, with no flush on its way. */
  predicate Forgotten(w: World) {
    && w.st.timer.Some? && w.st.timer.value in w.launched && w.callbacks == {} && w.flushes == 0
  }

  /** No call to Flush or Close, and no write that trips a trigger. */
  predicate QuietRun(p: Policy, w: World, run: seq<Event>)
    requires Possible(p, w, run)
    decreases |run|
  {
    run == [] ||
    (match run[0] {
       case BeginWrite(_, _) => true
       case DoWrite(t, _, _) => Quiet(p, w.st.buf + w.writes[t])
       case Launch(_) => true
       case Check(_) => true
       case _ => false
     } && QuietRun(p, Step(p, w, run[0]), run[1..]))
  }

  /** From then on the timer never delivers anything, however many writes follow below the triggers. */
  lemma {:induction false} StaysForgotten(p: Policy, w: World, run: seq<Event>)
    requires Forgotten(w) && Possible(p, w, run) && QuietRun(p, w, run)
    ensures Forgotten(After(p, w, run)) && After(p, w, run).st.delivered == w.st.delivered
    decreases |run|
  {
    if run != [] {
      if run[0].DoWrite? {
        QuietWrite(p, w.st, w.writes[run[0].t], run[0].backend1, run[0].backend2);
      }
      StaysForgotten(p, Step(p, w, run[0]), run[1..]);
    }
  }
}
