/** Interleavings of readers, writers and close on one stream; every step is one locked section. */
module StreamRuns {
  import opened Bytes
  import opened Stream

  type Thread = nat

  datatype Call = Reading(want: nat) | Writing(chunk: seq<byte>)

  /**
   * `parked` threads wait on the condition; `woken` ones were broadcast to and will test their guard
   * again. `taken` and `accepted` record all bytes handed to readers and taken from writers; `places` records
   * for each taken byte which accepted one it is, counted back from the newest one the queue holds.
   */
  datatype World = World(queue: Queue, parked: map<Thread, Call>, woken: map<Thread, Call>,
                         taken: seq<byte>, accepted: seq<byte>, places: seq<int>)

  datatype Event =
    | Start(thread: Thread, call: Call, nonblock: bool)
    | Resume(thread: Thread)
    | Shut

  const Fresh := World(Queue([], false), map[], map[], [], [], [])

  ghost predicate Pending(w: World, t: Thread) {
    t in w.parked || t in w.woken
  }

  ghost function CallOf(w: World, t: Thread): Call
    requires Pending(w, t)
  {
    if t in w.parked then w.parked[t] else w.woken[t]
  }

  ghost predicate Enabled(lim: Limits, w: World, e: Event) {
    match e
    case Start(t, call, _) => !Pending(w, t) && (call.Writing? ==> Chunk(lim, call.chunk) == call.chunk)
    case Resume(t) => t in w.woken
    case Shut => true
  }

  ghost function Broadcast(w: World): World {
    w.(parked := map[], woken := w.woken + w.parked)
  }

  /** Where the queue's `n` oldest bytes stand among the accepted ones. */
  ghost function Oldest(w: World, n: nat): (places: seq<int>)
    ensures |places| == n && forall i :: 0 <= i < n ==> places[i] == |w.accepted| - |w.queue.contents| + i
  {
    seq(n, i => |w.accepted| - |w.queue.contents| + i)
  }

  /** Runs thread `t`, which waits nowhere in `w`, through one section of its call. */
  ghost function Section(lim: Limits, w: World, t: Thread, call: Call, nonblock: bool): World {
    match call
    case Reading(want) =>
      var out := ReadOutcomeOf(w.queue, want, nonblock);
      if out.ReadParked? then w.(parked := w.parked[t := call])
      else if out.ReadDone? && w.queue.contents != [] then
        Broadcast(w.(queue := AfterRead(w.queue, out), taken := w.taken + w.queue.contents[..out.n],
                     places := w.places + Oldest(w, out.n)))
      else w
    case Writing(chunk) =>
      var out := WriteOutcomeOf(lim, w.queue, chunk, nonblock);
      if out.WriteParked? then w.(parked := w.parked[t := call])
      else if out.WriteDone? then
        Broadcast(w.(queue := AfterWrite(lim, w.queue, chunk, out), accepted := w.accepted + chunk))
      else w
  }

  ghost function Step(lim: Limits, w: World, e: Event): World
    requires Enabled(lim, w, e)
  {
    match e
    case Start(t, call, nonblock) => Section(lim, w, t, call, nonblock)
    case Resume(t) => Section(lim, w.(woken := w.woken - {t}), t, w.woken[t], false)
    case Shut => Broadcast(w.(queue := w.queue.(closed := true)))
  }

  ghost predicate Possible(lim: Limits, w: World, run: seq<Event>)
    decreases |run|
  {
    run == [] || (Enabled(lim, w, run[0]) && Possible(lim, Step(lim, w, run[0]), run[1..]))
  }

  ghost function After(lim: Limits, w: World, run: seq<Event>): World
    requires Possible(lim, w, run)
    decreases |run|
  {
    if run == [] then w else After(lim, Step(lim, w, run[0]), run[1..])
  }

  ghost predicate MustWait(lim: Limits, q: Queue, call: Call) {
    match call
    case Reading(_) => ReadMustWait(q)
    case Writing(chunk) => WriteMustWait(lim, q, chunk)
  }

  predicate IsSuffix(s: seq<byte>, t: seq<byte>) {
    |s| <= |t| && s == t[|t| - |s|..]
  }

  /** In Drop mode the contents are the tail of what was accepted; otherwise nothing is ever lost. */
  ghost predicate Conserved(lim: Limits, w: World) {
    && |w.queue.contents| <= lim.capacity
    && |w.taken| + |w.queue.contents| <= |w.accepted|
    && IsSuffix(w.queue.contents, w.accepted)
    && (lim.mode != Drop ==> w.taken + w.queue.contents == w.accepted)
    && (w.taken == [] ==> w.queue.contents == Last(w.accepted, lim.capacity))
  }

  ghost predicate Inv(lim: Limits, w: World) {
    Conserved(lim, w) && Parkable(lim, w)
  }

  /** Each parked thread is parked once and has a guard that still fails. */
  ghost predicate Parkable(lim: Limits, w: World) {
    && (forall t :: t in w.parked ==> t !in w.woken)
    && (forall t :: t in w.parked ==> MustWait(lim, w.queue, w.parked[t]))
  }

  /** Cutting the newest bytes off the front or growing them at the back keeps them a suffix. */
  lemma SuffixAfterRead(acc: seq<byte>, held: seq<byte>, n: nat)
    requires n <= |held| && IsSuffix(held, acc)
    ensures IsSuffix(held[n..], acc)
  {
    assert held[n..] == acc[|acc| - |held| + n..];
  }

  lemma SuffixAfterWrite(acc: seq<byte>, held: seq<byte>, chunk: seq<byte>, cap: nat)
    requires IsSuffix(held, acc)
    ensures IsSuffix(Last(held + chunk, cap), acc + chunk)
    ensures held == Last(acc, cap) ==> Last(held + chunk, cap) == Last(acc + chunk, cap)
  {
    assert held + chunk == (acc + chunk)[|acc| - |held|..];
    var k := |Last(held + chunk, cap)|;
    assert Last(held + chunk, cap) == (acc + chunk)[|acc + chunk| - k..];
    if held == Last(acc, cap) {
      LastAbsorbs(acc, chunk, cap);
    }
  }

  lemma ReadConserves(lim: Limits, w: World, want: nat)
    requires Conserved(lim, w)
    ensures var n := Min(want, |w.queue.contents|);
            Conserved(lim, w.(queue := w.queue.(contents := w.queue.contents[n..]),
                              taken := w.taken + w.queue.contents[..n]))
  {
    var held := w.queue.contents;
    var n := Min(want, |held|);
    SuffixAfterRead(w.accepted, held, n);
    assert (w.taken + held[..n]) + held[n..] == w.taken + held;
    if w.taken + held[..n] == [] {
      assert n == 0 && held[n..] == held;
    }
  }

  lemma WriteConserves(lim: Limits, w: World, chunk: seq<byte>)
    requires Conserved(lim, w) && (lim.mode != Drop ==> |w.queue.contents| + |chunk| <= lim.capacity)
    ensures Conserved(lim, w.(queue := w.queue.(contents := Last(w.queue.contents + chunk, lim.capacity)),
                              accepted := w.accepted + chunk))
  {
    var held := w.queue.contents;
    SuffixAfterWrite(w.accepted, held, chunk, lim.capacity);
    if lim.mode != Drop {
      assert Last(held + chunk, lim.capacity) == held + chunk;
      assert w.taken + (held + chunk) == (w.taken + held) + chunk;
    }
  }

  lemma SectionConserves(lim: Limits, w: World, t: Thread, call: Call, nonblock: bool)
    requires lim.Valid() && Conserved(lim, w)
    ensures Conserved(lim, Section(lim, w, t, call, nonblock))
  {
    match call {
      case Reading(want) =>
        ReadConserves(lim, w, want);
      case Writing(chunk) =>
        if WriteOutcomeOf(lim, w.queue, chunk, nonblock).WriteDone? {
          WriteConserves(lim, w, chunk);
        }
    }
  }

  /** What one section does to the waiting threads. */
  lemma SectionWaiters(lim: Limits, w: World, t: Thread, call: Call, nonblock: bool)
    requires Parkable(lim, w) && !Pending(w, t)
    ensures Parkable(lim, Section(lim, w, t, call, nonblock))
  {
  }

  lemma StepKeepsInv(lim: Limits, w: World, e: Event)
    requires lim.Valid() && Inv(lim, w) && Enabled(lim, w, e)
    ensures Inv(lim, Step(lim, w, e))
  {
    match e {
      case Start(t, call, nonblock) =>
        SectionConserves(lim, w, t, call, nonblock);
        SectionWaiters(lim, w, t, call, nonblock);
      case Resume(t) =>
        SectionConserves(lim, w.(woken := w.woken - {t}), t, w.woken[t], false);
        SectionWaiters(lim, w.(woken := w.woken - {t}), t, w.woken[t], false);
      case Shut =>
    }
  }

  lemma {:induction false} RunKeepsInv(lim: Limits, w: World, run: seq<Event>)
    requires lim.Valid() && Inv(lim, w) && Possible(lim, w, run)
    ensures Inv(lim, After(lim, w, run))
    decreases |run|
  {
    if run != [] {
      StepKeepsInv(lim, w, run[0]);
      RunKeepsInv(lim, Step(lim, w, run[0]), run[1..]);
    }
  }

  /** Some interleaving leads from a fresh stream to `w`. */
  ghost predicate Reachable(lim: Limits, w: World) {
    exists run :: Possible(lim, Fresh, run) && After(lim, Fresh, run) == w
  }

  lemma ReachableInv(lim: Limits, w: World)
    requires lim.Valid() && Reachable(lim, w)
    ensures Inv(lim, w)
  {
    var run :| Possible(lim, Fresh, run) && After(lim, Fresh, run) == w;
    RunKeepsInv(lim, Fresh, run);
  }

  /** In Block and Error mode, bytes read followed by bytes held are the accepted chunks in order. */
  lemma FirstInFirstOut(lim: Limits, w: World)
    requires lim.Valid() && lim.mode != Drop && Reachable(lim, w)
    ensures w.taken + w.queue.contents == w.accepted && |w.queue.contents| <= lim.capacity
  {
    ReachableInv(lim, w);
  }

  /** In every mode the ring holds the newest accepted bytes, as many as fit while nothing was read. */
  lemma HoldsNewest(lim: Limits, w: World)
    requires lim.Valid() && Reachable(lim, w)
    ensures |w.queue.contents| <= lim.capacity
    ensures |w.taken| + |w.queue.contents| <= |w.accepted|
    ensures w.queue.contents == Last(w.accepted, |w.queue.contents|)
    ensures w.taken == [] ==> w.queue.contents == Last(w.accepted, lim.capacity)
  {
    ReachableInv(lim, w);
  }

  // ---- in every mode readers see accepted bytes in order ----

  /** Every taken byte is an accepted one the queue no longer holds, each a later one than the one before. */
  ghost predicate InOrder(w: World) {
    && |w.places| == |w.taken| && |w.queue.contents| <= |w.accepted|
    && (forall i :: 0 <= i < |w.places| ==>
          0 <= w.places[i] < |w.accepted| - |w.queue.contents| && w.taken[i] == w.accepted[w.places[i]])
    && (forall i, j :: 0 <= i < j < |w.places| ==> w.places[i] < w.places[j])
  }

  lemma ReadInOrder(w: World, n: nat)
    requires n <= |w.queue.contents| && IsSuffix(w.queue.contents, w.accepted) && InOrder(w)
    ensures InOrder(w.(queue := w.queue.(contents := w.queue.contents[n..]),
                       taken := w.taken + w.queue.contents[..n], places := w.places + Oldest(w, n)))
  {
  }

  lemma WriteInOrder(w: World, chunk: seq<byte>, kept: seq<byte>)
    requires InOrder(w) && |kept| <= |w.queue.contents| + |chunk|
    ensures InOrder(w.(queue := w.queue.(contents := kept), accepted := w.accepted + chunk))
  {
  }

  lemma SectionInOrder(lim: Limits, w: World, t: Thread, call: Call, nonblock: bool)
    requires lim.Valid() && Conserved(lim, w) && InOrder(w)
    ensures InOrder(Section(lim, w, t, call, nonblock))
  {
    match call {
      case Reading(want) =>
        ReadInOrder(w, Min(want, |w.queue.contents|));
      case Writing(chunk) =>
        WriteInOrder(w, chunk, Last(w.queue.contents + chunk, lim.capacity));
    }
  }

  lemma {:induction false} RunInOrder(lim: Limits, w: World, run: seq<Event>)
    requires lim.Valid() && Inv(lim, w) && InOrder(w) && Possible(lim, w, run)
    ensures InOrder(After(lim, w, run))
    decreases |run|
  {
    if run != [] {
      var e := run[0];
      StepKeepsInv(lim, w, e);
      match e {
        case Start(t, call, nonblock) => SectionInOrder(lim, w, t, call, nonblock);
        case Resume(t) => SectionInOrder(lim, w.(woken := w.woken - {t}), t, w.woken[t], false);
        case Shut =>
      }
      hide Step, Inv, InOrder, Section;
      RunInOrder(lim, Step(lim, w, e), run[1..]);
    }
  }

  /**
   * In every mode readers get accepted bytes in order: the places of what they took strictly increase, so no
   * byte is handed out twice, and all lie before those of the bytes the queue still holds.
   */
  lemma ReadsAreInOrder(lim: Limits, w: World)
    requires lim.Valid() && Reachable(lim, w)
    ensures |w.places| == |w.taken|
    ensures forall i :: 0 <= i < |w.taken| ==>
              && 0 <= w.places[i] < |w.accepted| - |w.queue.contents|
              && w.taken[i] == w.accepted[w.places[i]]
    ensures forall i, j :: 0 <= i < j < |w.taken| ==> w.places[i] < w.places[j]
  {
    var run :| Possible(lim, Fresh, run) && After(lim, Fresh, run) == w;
    RunInOrder(lim, Fresh, run);
  }

  /** No wakeup is lost: whoever is still parked would have to park again. */
  lemma NoLostWakeup(lim: Limits, w: World, t: Thread)
    requires lim.Valid() && Reachable(lim, w) && t in w.parked
    ensures !w.queue.closed
    ensures match w.parked[t]
            case Reading(_) => w.queue.contents == []
            case Writing(chunk) => lim.mode == Block && |w.queue.contents| + |chunk| > lim.capacity
  {
    ReachableInv(lim, w);
  }

  // ---- who waits, and what goes through ----

  /**
   * A call that starts comes to wait exactly if it may block and finds the open queue empty, or too full for its
   * chunk in Block mode. A resumed one waits again on the same test.
   */
  lemma ParksIff(lim: Limits, w: World, e: Event, call: Call)
    requires Reachable(lim, w) && lim.Valid() && Enabled(lim, w, e) && !e.Shut?
    requires call == if e.Start? then e.call else w.woken[e.thread]
    ensures Pending(Step(lim, w, e), e.thread) <==>
            && !w.queue.closed && (e.Start? ==> !e.nonblock)
            && match call {
                 case Reading(_) => w.queue.contents == []
                 case Writing(chunk) => lim.mode == Block && |w.queue.contents| + |chunk| > lim.capacity
               }
  {
    ReachableInv(lim, w);
  }

  /**
   * What a started or resumed call moves: a read takes the oldest bytes, as many as it wants and there are; a
   * write to an open stream that has room, or drops, puts its chunk behind the others and keeps the newest. What
   * moved something leaves nobody parked.
   */
  lemma StepMoves(lim: Limits, w: World, e: Event, call: Call)
    requires lim.Valid() && Reachable(lim, w) && Enabled(lim, w, e) && !e.Shut?
    requires call == if e.Start? then e.call else w.woken[e.thread]
    ensures var held, w' := w.queue.contents, Step(lim, w, e);
            match call {
              case Reading(want) =>
                var n := if want < |held| then want else |held|;
                && w'.taken == w.taken + held[..n] && w'.queue == Queue(held[n..], w.queue.closed)
                && w'.accepted == w.accepted && (held != [] ==> w'.parked == map[])
              case Writing(chunk) =>
                var fits := lim.mode == Drop || |held| + |chunk| <= lim.capacity;
                var kept := if |held| + |chunk| <= lim.capacity then 0 else |held| + |chunk| - lim.capacity;
                && w'.taken == w.taken
                && (!w.queue.closed && fits ==>
                      && w'.queue == Queue((held + chunk)[kept..], false)
                      && w'.accepted == w.accepted + chunk && w'.parked == map[])
                && (w.queue.closed || !fits ==> w'.queue == w.queue && w'.accepted == w.accepted)
            }
  {
    ReachableInv(lim, w);
    var held := w.queue.contents;
    assert held[..0] == [] && held[0..] == held && w.taken + [] == w.taken;
    if call.Writing? {
      assert (held + call.chunk)[0..] == held + call.chunk;
    }
  }

  /** Nobody who waits is forgotten: each thread but the one that runs goes on waiting for its call. */
  lemma OthersGoOn(lim: Limits, w: World, e: Event, other: Thread)
    requires lim.Valid() && Reachable(lim, w) && Enabled(lim, w, e) && Pending(w, other)
    requires !e.Shut? ==> e.thread != other
    ensures Pending(Step(lim, w, e), other) && CallOf(Step(lim, w, e), other) == CallOf(w, other)
    ensures e.Shut? ==> other in Step(lim, w, e).woken
  {
    ReachableInv(lim, w);
  }

  /** A closed stream stays closed, keeps nobody waiting and takes in nothing more. */
  lemma {:induction false} ClosedForGood(lim: Limits, w: World, run: seq<Event>)
    requires lim.Valid() && w.queue.closed && w.parked == map[] && Possible(lim, w, run)
    ensures var w' := After(lim, w, run);
            w'.queue.closed && w'.parked == map[] && w'.accepted == w.accepted
    decreases |run|
  {
    if run != [] {
      ClosedForGood(lim, Step(lim, w, run[0]), run[1..]);
    }
  }

  // ---- when can a parked writer be released by draining? ----

  ghost predicate Draining(run: seq<Event>, writer: Thread) {
    forall i :: 0 <= i < |run| ==> (run[i].Start? && run[i].call.Reading?) || run[i] == Resume(writer)
  }

  /** Some run of reads, and of the writer itself, ends with the writer's whole chunk accepted. */
  ghost predicate CanBeDrained(lim: Limits, w: World, writer: Thread)
    requires Pending(w, writer) && CallOf(w, writer).Writing?
  {
    exists run :: Possible(lim, w, run) && Draining(run, writer) && Delivers(lim, w, writer, run)
  }

  ghost predicate Delivers(lim: Limits, w: World, writer: Thread, run: seq<Event>)
    requires Pending(w, writer) && CallOf(w, writer).Writing? && Possible(lim, w, run)
  {
    && !Pending(After(lim, w, run), writer)
    && After(lim, w, run).accepted == w.accepted + CallOf(w, writer).chunk
  }

  /** A section leaves every other waiting thread waiting with the same call. */
  lemma SectionKeepsOthers(lim: Limits, w: World, t: Thread, call: Call, nonblock: bool, other: Thread)
    requires !(other in w.parked && other in w.woken) && other != t && Pending(w, other)
    ensures var w' := Section(lim, w, t, call, nonblock);
            && Pending(w', other) && CallOf(w', other) == CallOf(w, other)
            && w'.queue.closed == w.queue.closed
  {
  }

  lemma OversizeStays(lim: Limits, w: World, writer: Thread, e: Event)
    requires lim.mode == Block && Inv(lim, w) && Enabled(lim, w, e) && !e.Shut?
    requires Pending(w, writer) && !w.queue.closed
    requires CallOf(w, writer).Writing? && |CallOf(w, writer).chunk| > lim.capacity
    ensures var w' := Step(lim, w, e);
            !w'.queue.closed && Pending(w', writer) && CallOf(w', writer) == CallOf(w, writer)
  {
    match e {
      case Start(t, call, nonblock) =>
        SectionKeepsOthers(lim, w, t, call, nonblock, writer);
      case Resume(t) =>
        var w0 := w.(woken := w.woken - {t});
        if t == writer {
          assert WriteMustWait(lim, w0.queue, CallOf(w, writer).chunk);
        } else {
          assert Pending(w0, writer) && CallOf(w0, writer) == CallOf(w, writer);
          SectionKeepsOthers(lim, w0, t, w.woken[t], false, writer);
        }
    }
  }

  /** A chunk larger than the ring waits until close, whatever the other threads do. */
  lemma {:induction false} OversizeNeverLeaves(lim: Limits, w: World, writer: Thread, run: seq<Event>)
    requires lim.Valid() && lim.mode == Block && Inv(lim, w) && Possible(lim, w, run) && Shut !in run
    requires Pending(w, writer) && !w.queue.closed
    requires CallOf(w, writer).Writing? && |CallOf(w, writer).chunk| > lim.capacity
    ensures Pending(After(lim, w, run), writer) && CallOf(After(lim, w, run), writer) == CallOf(w, writer)
    decreases |run|
  {
    if run != [] {
      var w' := Step(lim, w, run[0]);
      StepKeepsInv(lim, w, run[0]);
      OversizeStays(lim, w, writer, run[0]);
      OversizeNeverLeaves(lim, w', writer, run[1..]);
    }
  }

  /** One read of everything and one resumption release any chunk that fits the ring. */
  lemma FittingIsReleased(lim: Limits, w: World, writer: Thread, reader: Thread)
    requires lim.Valid() && lim.mode == Block && Inv(lim, w) && !w.queue.closed
    requires writer in w.parked && w.parked[writer].Writing? && !Pending(w, reader)
    requires |w.parked[writer].chunk| <= lim.capacity
    ensures CanBeDrained(lim, w, writer)
  {
    var chunk := w.parked[writer].chunk;
    var drain, resume := Start(reader, Reading(|w.queue.contents|), true), Resume(writer);
    assert MustWait(lim, w.queue, w.parked[writer]);
    var w1 := Step(lim, w, drain);
    assert w1.queue == Queue([], false) && writer in w1.woken && w1.woken[writer] == Writing(chunk);
    var w2 := Step(lim, w1, resume);
    assert !Pending(w2, writer) && w2.accepted == w.accepted + chunk;
    TwoSteps(lim, w, drain, resume);
    assert Delivers(lim, w, writer, [drain, resume]);
  }

  lemma TwoSteps(lim: Limits, w: World, e1: Event, e2: Event)
    requires Enabled(lim, w, e1) && Enabled(lim, Step(lim, w, e1), e2)
    ensures Possible(lim, w, [e1, e2]) && After(lim, w, [e1, e2]) == Step(lim, Step(lim, w, e1), e2)
  {
    var w1 := Step(lim, w, e1);
    assert [e1, e2][1..] == [e2] && [e2][1..] == [];
    hide Step, Enabled;
    var w2 := Step(lim, w1, e2);
    assert Possible(lim, w2, []) && After(lim, w2, []) == w2;
    assert Possible(lim, w1, [e2]) && After(lim, w1, [e2]) == w2;
  }

  lemma OversizeIsNotDrained(lim: Limits, w: World, writer: Thread)
    requires lim.Valid() && lim.mode == Block && Inv(lim, w) && !w.queue.closed && Pending(w, writer)
    requires CallOf(w, writer).Writing? && |CallOf(w, writer).chunk| > lim.capacity
    ensures !CanBeDrained(lim, w, writer)
  {
    forall run | Possible(lim, w, run) && Draining(run, writer)
      ensures !Delivers(lim, w, writer, run)
    {
      OversizeNeverLeaves(lim, w, writer, run);
    }
  }

  /** A parked writer can be released by draining exactly when its chunk fits the ring. */
  lemma DrainReleasesIff(lim: Limits, w: World, writer: Thread, reader: Thread)
    requires lim.Valid() && Reachable(lim, w)
    requires writer in w.parked && w.parked[writer].Writing? && !Pending(w, reader)
    ensures CanBeDrained(lim, w, writer) <==> |w.parked[writer].chunk| <= lim.capacity
  {
    ReachableInv(lim, w);
    assert MustWait(lim, w.queue, w.parked[writer]);
    if |w.parked[writer].chunk| <= lim.capacity {
      FittingIsReleased(lim, w, writer, reader);
    } else {
      OversizeIsNotDrained(lim, w, writer);
    }
  }
}
