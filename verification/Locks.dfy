/** core/flock.go: advisory shared and exclusive locks per path. */
module Locks {
  import opened Bytes

  datatype Kind = NoLock | Shared | Exclusive

  datatype Handle = Handle(id: nat, path: string)

  /** One path's lock state. */
  datatype PathLock = PathLock(shared: set<Handle>, excl: Option<Handle>)

  const Unlocked := PathLock({}, None)

  datatype Errno = EINVAL | EBUSY | ETIMEDOUT

  /** `states` holds a path once it has been locked; `kinds` is every handle's `lockKind` field. */
  datatype Manager = Manager(states: map<string, PathLock>, kinds: map<Handle, Kind>)

  const Idle := Manager(map[], map[])

  function KindOf(m: Manager, h: Handle): Kind {
    if h in m.kinds then m.kinds[h] else NoLock
  }

  function StateOf(m: Manager, path: string): PathLock {
    if path in m.states then m.states[path] else Unlocked
  }

  predicate CanTake(s: PathLock, h: Handle, kind: Kind) {
    && (s.excl.None? || s.excl.value == h)
    && (kind == Exclusive && |s.shared| > 0 ==> h in s.shared && |s.shared| <= 1)
  }

  /** Nobody else holds the path exclusively, nor at all if an exclusive lock is wanted. */
  lemma CanTakeIff(s: PathLock, h: Handle, kind: Kind)
    ensures CanTake(s, h, kind) <==>
            (forall g :: s.excl == Some(g) ==> g == h) && (kind == Exclusive ==> forall g :: g in s.shared ==> g == h)
  {
    if h in s.shared {
      assert |s.shared - {h}| == |s.shared| - 1;
      if |s.shared| <= 1 {
        assert s.shared - {h} == {};
      }
    } else if g :| g in s.shared {
      assert |s.shared| > 0;
    }
    if forall g :: g in s.shared ==> g == h {
      assert s.shared <= {h} && (s.shared == {} || s.shared == {h});
    }
  }

  function Take(s: PathLock, h: Handle, kind: Kind): PathLock {
    match kind
    case Shared => s.(shared := s.shared + {h})
    case Exclusive => s.(excl := Some(h))
    case NoLock => s
  }

  /** What `release` does to the state of the handle's path. */
  function Drop(s: PathLock, h: Handle, kind: Kind): PathLock {
    match kind
    case Shared => s.(shared := s.shared - {h})
    case Exclusive => if s.excl == Some(h) then s.(excl := None) else s
    case NoLock => s
  }

  function Released(m: Manager, h: Handle): Manager {
    var m' := m.(kinds := m.kinds[h := NoLock]);
    if h.path !in m.states then m' else m'.(states := m.states[h.path := Drop(m.states[h.path], h, KindOf(m, h))])
  }

  function Taken(m: Manager, h: Handle, kind: Kind): Manager {
    Manager(m.states[h.path := Take(StateOf(m, h.path), h, kind)], m.kinds[h := kind])
  }

  /** `stateFor` alone. */
  function Created(m: Manager, path: string): Manager {
    m.(states := m.states[path := StateOf(m, path)])
  }

  /** The fields as the code changes them; each method is one section under the locks. */
  class LockManager {
    var states: map<string, PathLock>
    var kinds: map<Handle, Kind>

    ghost function View(): Manager
      reads this
    {
      Manager(states, kinds)
    }

    constructor ()
      ensures View() == Idle
    {
      states, kinds := map[], map[];
    }

    method StateFor(path: string)
      modifies this`states
      ensures View() == Created(old(View()), path)
    {
      if path !in states {
        states := states[path := Unlocked];
      } else {
        assert states[path := states[path]] == states;
      }
    }

    /** The loop body of `acquire` up to its return or its `cond.Wait`. */
    method TryTake(h: Handle, kind: Kind) returns (ok: bool)
      requires h.path in states && kind != NoLock
      modifies this
      ensures ok == CanTake(old(states[h.path]), h, kind)
      ensures View() == if ok then Taken(old(View()), h, kind) else old(View())
    {
      var s := states[h.path];
      ok := CanTake(s, h, kind);
      if ok {
        match kind {
          case Shared => states := states[h.path := s.(shared := s.shared + {h})];
          case Exclusive => states := states[h.path := s.(excl := Some(h))];
        }
        kinds := kinds[h := kind];
      }
    }

    method Release(h: Handle)
      modifies this
      ensures View() == Released(old(View()), h)
    {
      var held := if h in kinds then kinds[h] else NoLock;
      kinds := kinds[h := NoLock];
      if h.path !in states { return; }
      var s := states[h.path];
      match held {
        case Shared => s := s.(shared := s.shared - {h});
        case Exclusive => if s.excl == Some(h) { s := s.(excl := None); }
        case NoLock =>
      }
      states := states[h.path := s];
    }
  }
}

/** Interleavings of lock calls; no purge, and each handle is used by one thread at a time. */
module LockRuns {
  import opened Bytes
  import opened Locks

  /**
   * Where a handle's current call is: `Ready` will run the loop body next, having just come from
   * `stateFor` or been woken; `Parked` waits on the path's condition.
   */
  datatype Call = Converting(kind: Kind, nonblock: bool) | Ready(kind: Kind, nonblock: bool) | Parked(kind: Kind)

  datatype World = World(locks: Manager, calls: map<Handle, Call>, closed: set<Handle>)

  const Fresh := World(Idle, map[], {})

  datatype Event =
    | Acquire(h: Handle, kind: Kind, nonblock: bool)  // the call starts; a held lock is released first
    | Enter(h: Handle)                                // stateFor
    | Attempt(h: Handle)                              // the loop body
    | Expire(h: Handle)                               // gives up: the deadline or the context has passed
    | Watchdog(path: string)                          // a timer broadcasts on the path
    | Unlock(h: Handle)
    | Close(h: Handle)

  ghost predicate Free(w: World, h: Handle) {
    h !in w.calls && h !in w.closed
  }

  ghost predicate Enabled(w: World, e: Event) {
    match e
    case Acquire(h, _, _) => Free(w, h)
    case Enter(h) => h in w.calls && w.calls[h].Converting?
    case Attempt(h) => h in w.calls && w.calls[h].Ready?
    case Expire(h) => h in w.calls && w.calls[h].Ready?
    case Watchdog(_) => true
    case Unlock(h) => Free(w, h)
    case Close(h) => Free(w, h)
  }

  /** Wakes every handle parked on the path. */
  ghost function Broadcast(calls: map<Handle, Call>, path: string): map<Handle, Call> {
    map h | h in calls ::
      if h.path == path && calls[h].Parked? then Ready(calls[h].kind, false) else calls[h]
  }

  /** `release` broadcasts when the path has a state. */
  ghost function ReleaseAll(w: World, h: Handle): World {
    w.(locks := Released(w.locks, h),
       calls := if h.path in w.locks.states then Broadcast(w.calls, h.path) else w.calls)
  }

  ghost function Step(w: World, e: Event): World
    requires Enabled(w, e)
  {
    match e
    case Acquire(h, kind, nonblock) =>
      if kind == NoLock || KindOf(w.locks, h) == kind then w
      else
        var w' := if KindOf(w.locks, h) != NoLock then ReleaseAll(w, h) else w;
        w'.(calls := w'.calls[h := Converting(kind, nonblock)])
    case Enter(h) =>
      w.(locks := Created(w.locks, h.path), calls := w.calls[h := Ready(w.calls[h].kind, w.calls[h].nonblock)])
    case Attempt(h) =>
      var kind := w.calls[h].kind;
      if CanTake(StateOf(w.locks, h.path), h, kind) then
        w.(locks := Taken(w.locks, h, kind), calls := w.calls - {h})
      else if w.calls[h].nonblock then w.(calls := w.calls - {h})
      else w.(calls := w.calls[h := Parked(kind)])
    case Expire(h) => w.(calls := w.calls - {h})
    case Watchdog(path) => w.(calls := Broadcast(w.calls, path))
    case Unlock(h) => if KindOf(w.locks, h) == NoLock then w else ReleaseAll(w, h)
    case Close(h) =>
      var w' := if KindOf(w.locks, h) == NoLock then w else ReleaseAll(w, h);
      w'.(closed := w'.closed + {h})
  }

  ghost predicate Possible(w: World, run: seq<Event>)
    decreases |run|
  {
    run == [] || (Enabled(w, run[0]) && Possible(Step(w, run[0]), run[1..]))
  }

  ghost function After(w: World, run: seq<Event>): World
    requires Possible(w, run)
    decreases |run|
  {
    if run == [] then w else After(Step(w, run[0]), run[1..])
  }

  ghost predicate Reachable(w: World) {
    exists run :: Possible(Fresh, run) && After(Fresh, run) == w
  }

  // ---- the invariant ----

  /** Holder sets of a path name handles of that path that say so themselves, and exclude each other. */
  ghost predicate PathOk(m: Manager, path: string)
    requires path in m.states
  {
    var s := m.states[path];
    && (forall h :: h in s.shared ==> h.path == path && KindOf(m, h) == Shared)
    && (s.excl.Some? ==> s.excl.value.path == path && KindOf(m, s.excl.value) == Exclusive && s.shared == {})
  }

  /** A handle that thinks it holds a lock is in the corresponding holder set. */
  ghost predicate HandleOk(m: Manager, h: Handle) {
    && (KindOf(m, h) != NoLock ==> h.path in m.states)
    && (KindOf(m, h) == Shared ==> h in StateOf(m, h.path).shared)
    && (KindOf(m, h) == Exclusive ==> StateOf(m, h.path).excl == Some(h))
  }

  /** A handle with a call under way holds nothing; a parked one could not be served. */
  ghost predicate CallOk(w: World, h: Handle)
    requires h in w.calls
  {
    && h !in w.closed && w.calls[h].kind != NoLock && KindOf(w.locks, h) == NoLock
    && (w.calls[h].Parked? ==>
          h.path in w.locks.states && !CanTake(w.locks.states[h.path], h, w.calls[h].kind))
    && (w.calls[h].Ready? ==> h.path in w.locks.states)
  }

  ghost predicate LocksOk(m: Manager) {
    && (forall p {:trigger PathOk(m, p)} :: p in m.states ==> PathOk(m, p))
    && (forall h {:trigger HandleOk(m, h)} :: HandleOk(m, h))
  }

  ghost predicate Inv(w: World) {
    && LocksOk(w.locks)
    && (forall h {:trigger CallOk(w, h)} :: h in w.calls ==> CallOk(w, h))
    && (forall h :: h in w.closed ==> KindOf(w.locks, h) == NoLock)
  }

  // ---- what each section keeps ----

  lemma ReleaseKeeps(m: Manager, h: Handle)
    requires LocksOk(m)
    ensures LocksOk(Released(m, h)) && KindOf(Released(m, h), h) == NoLock
    ensures forall g :: g != h ==> KindOf(Released(m, h), g) == KindOf(m, g)
    ensures h.path in m.states ==> h !in StateOf(Released(m, h), h.path).shared
    ensures StateOf(Released(m, h), h.path).excl != Some(h)
  {
    var m' := Released(m, h);
    assert HandleOk(m, h);
    assert h.path in m.states ==> PathOk(m, h.path);
    forall p | p in m'.states
      ensures PathOk(m', p)
    {
      assert PathOk(m, p);
    }
    forall g
      ensures HandleOk(m', g)
    {
      assert HandleOk(m, g);
    }
  }

  /** For a handle that holds nothing, `canTake` is a plain conflict test. */
  lemma NoConflict(m: Manager, h: Handle, kind: Kind)
    requires LocksOk(m) && KindOf(m, h) == NoLock && h.path in m.states
    ensures var s := m.states[h.path];
            CanTake(s, h, kind) <==> s.excl.None? && (kind == Exclusive ==> s.shared == {})
  {
    NotHolding(m, h);
  }

  ghost predicate MayTake(m: Manager, h: Handle, kind: Kind) {
    && LocksOk(m) && KindOf(m, h) == NoLock && kind != NoLock && h.path in m.states
    && CanTake(m.states[h.path], h, kind)
  }

  lemma TakePath(m: Manager, h: Handle, kind: Kind, p: string)
    requires MayTake(m, h, kind) && p in Taken(m, h, kind).states
    ensures PathOk(Taken(m, h, kind), p)
  {
    NoConflict(m, h, kind);
    assert PathOk(m, p);
    var s, s' := m.states[p], Taken(m, h, kind).states[p];
    if p != h.path {
      assert s' == s;
    }
  }

  lemma TakeHandle(m: Manager, h: Handle, kind: Kind, g: Handle)
    requires MayTake(m, h, kind)
    ensures HandleOk(Taken(m, h, kind), g)
  {
    NoConflict(m, h, kind);
    assert HandleOk(m, g);
    assert PathOk(m, h.path);
  }

  /** The only way to take a lock is on a path without a conflicting holder. */
  lemma TakeKeeps(m: Manager, h: Handle, kind: Kind)
    requires MayTake(m, h, kind)
    ensures LocksOk(Taken(m, h, kind))
    ensures forall g :: g != h ==> KindOf(Taken(m, h, kind), g) == KindOf(m, g)
  {
    var m' := Taken(m, h, kind);
    forall p | p in m'.states
      ensures PathOk(m', p)
    {
      TakePath(m, h, kind, p);
    }
    forall g
      ensures HandleOk(m', g)
    {
      TakeHandle(m, h, kind, g);
    }
  }

  lemma CreateKeeps(m: Manager, path: string)
    requires LocksOk(m)
    ensures LocksOk(Created(m, path)) && Created(m, path).kinds == m.kinds
  {
    var m' := Created(m, path);
    forall p | p in m'.states
      ensures PathOk(m', p)
    {
      assert p in m.states ==> PathOk(m, p);
    }
    forall g
      ensures HandleOk(m', g)
    {
      assert HandleOk(m, g);
    }
  }

  /** A handle without a lock is no holder. */
  lemma NotHolding(m: Manager, h: Handle)
    requires LocksOk(m) && KindOf(m, h) == NoLock
    ensures h !in StateOf(m, h.path).shared && StateOf(m, h.path).excl != Some(h)
  {
    assert h.path in m.states ==> PathOk(m, h.path);
  }

  /** Another handle's taking a lock does not help a blocked one. */
  lemma BlockedStays(s: PathLock, h: Handle, kind: Kind, g: Handle, want: Kind)
    requires g != h && g !in s.shared && !CanTake(s, g, want)
    ensures !CanTake(Take(s, h, kind), g, want)
  {
  }

  lemma ReleaseStep(w: World, h: Handle)
    requires Inv(w) && Free(w, h)
    ensures Inv(ReleaseAll(w, h)) && KindOf(ReleaseAll(w, h).locks, h) == NoLock && Free(ReleaseAll(w, h), h)
  {
    var w' := ReleaseAll(w, h);
    ReleaseKeeps(w.locks, h);
    forall g | g in w'.calls
      ensures CallOk(w', g)
    {
      assert CallOk(w, g);
    }
  }

  lemma AttemptStep(w: World, h: Handle)
    requires Inv(w) && Enabled(w, Attempt(h))
    ensures Inv(Step(w, Attempt(h)))
  {
    var w', kind := Step(w, Attempt(h)), w.calls[h].kind;
    assert CallOk(w, h);
    if CanTake(w.locks.states[h.path], h, kind) {
      TakeKeeps(w.locks, h, kind);
      forall g | g in w'.calls
        ensures CallOk(w', g)
      {
        assert CallOk(w, g);
        NotHolding(w.locks, g);
        if w.calls[g].Parked? && g.path == h.path {
          BlockedStays(w.locks.states[h.path], h, kind, g, w.calls[g].kind);
        }
      }
    } else {
      forall g | g in w'.calls
        ensures CallOk(w', g)
      {
        assert CallOk(w, g);
      }
    }
  }

  lemma QuietStep(w: World, e: Event)
    requires Inv(w) && Enabled(w, e) && (e.Enter? || e.Expire? || e.Watchdog?)
    ensures Inv(Step(w, e))
  {
    var w' := Step(w, e);
    if e.Enter? {
      CreateKeeps(w.locks, e.h.path);
    }
    forall g | g in w'.calls
      ensures CallOk(w', g)
    {
      assert CallOk(w, g);
    }
  }

  lemma AcquireStep(w: World, e: Event)
    requires Inv(w) && Enabled(w, e) && e.Acquire?
    ensures Inv(Step(w, e))
  {
    var h := e.h;
    var w1 := if KindOf(w.locks, h) != NoLock then ReleaseAll(w, h) else w;
    if KindOf(w.locks, h) != NoLock {
      ReleaseStep(w, h);
    }
    var w' := w1.(calls := w1.calls[h := Converting(e.kind, e.nonblock)]);
    if e.kind != NoLock {
      forall g | g in w'.calls
        ensures CallOk(w', g)
      {
        assert g != h ==> CallOk(w1, g);
      }
    }
  }

  lemma CloseStep(w: World, h: Handle)
    requires Inv(w) && Free(w, h)
    ensures Inv(Step(w, Close(h)))
  {
    var w1 := if KindOf(w.locks, h) == NoLock then w else ReleaseAll(w, h);
    if KindOf(w.locks, h) != NoLock {
      ReleaseStep(w, h);
    }
    var w' := Step(w, Close(h));
    forall g | g in w'.calls
      ensures CallOk(w', g)
    {
      assert CallOk(w1, g);
    }
  }

  lemma StepKeepsInv(w: World, e: Event)
    requires Inv(w) && Enabled(w, e)
    ensures Inv(Step(w, e))
  {
    match e {
      case Acquire(_, _, _) => AcquireStep(w, e);
      case Attempt(h) => AttemptStep(w, h);
      case Unlock(h) => ReleaseStep(w, h);
      case Close(h) => CloseStep(w, h);
      case Enter(_) => QuietStep(w, e);
      case Expire(_) => QuietStep(w, e);
      case Watchdog(_) => QuietStep(w, e);
    }
  }

  lemma {:induction false} RunKeepsInv(w: World, run: seq<Event>)
    requires Inv(w) && Possible(w, run)
    ensures Inv(After(w, run))
    decreases |run|
  {
    if run != [] {
      StepKeepsInv(w, run[0]);
      RunKeepsInv(Step(w, run[0]), run[1..]);
    }
  }

  lemma ReachableInv(w: World)
    requires Reachable(w)
    ensures Inv(w)
  {
    var run :| Possible(Fresh, run) && After(Fresh, run) == w;
    assert Inv(Fresh);
    RunKeepsInv(Fresh, run);
  }

  // ---- main results ----

  /** An exclusive holder excludes every other holder of the path. */
  lemma ExclusiveExcludes(w: World, h: Handle, g: Handle)
    requires Reachable(w) && h != g && h.path == g.path && KindOf(w.locks, h) == Exclusive
    ensures KindOf(w.locks, g) == NoLock
    ensures StateOf(w.locks, h.path) == PathLock({}, Some(h))
  {
    ReachableInv(w);
    assert HandleOk(w.locks, h) && HandleOk(w.locks, g);
    assert PathOk(w.locks, h.path);
  }

  /** A handle's lock kind and the holder sets say the same thing. */
  lemma KindAgreesWithHolders(w: World, h: Handle)
    requires Reachable(w)
    ensures KindOf(w.locks, h) == Shared <==> h in StateOf(w.locks, h.path).shared
    ensures KindOf(w.locks, h) == Exclusive <==> StateOf(w.locks, h.path).excl == Some(h)
    ensures forall p :: p != h.path ==> h !in StateOf(w.locks, p).shared && StateOf(w.locks, p).excl != Some(h)
  {
    ReachableInv(w);
    assert HandleOk(w.locks, h);
    forall p | p in w.locks.states
      ensures PathOk(w.locks, p)
    {
    }
  }

  /** A call that gives up, a call under way, and a closed handle all hold nothing. */
  lemma NothingLeftBehind(w: World, h: Handle)
    requires Reachable(w) && (h in w.calls || h in w.closed)
    ensures KindOf(w.locks, h) == NoLock
    ensures h !in StateOf(w.locks, h.path).shared && StateOf(w.locks, h.path).excl != Some(h)
    ensures Enabled(w, Expire(h)) ==> KindOf(Step(w, Expire(h)).locks, h) == NoLock
    ensures Enabled(w, Attempt(h)) && !CanTake(StateOf(w.locks, h.path), h, w.calls[h].kind) ==>
              KindOf(Step(w, Attempt(h)).locks, h) == NoLock
  {
    ReachableInv(w);
    assert h in w.calls ==> CallOk(w, h);
    NotHolding(w.locks, h);
  }

  /** So the sole-shared-holder case of `canTake` is never reached: it is a plain conflict test. */
  lemma ConflictTest(w: World, h: Handle)
    requires Reachable(w) && Enabled(w, Attempt(h))
    ensures var s := StateOf(w.locks, h.path);
            CanTake(s, h, w.calls[h].kind) <==> s.excl.None? && (w.calls[h].kind == Exclusive ==> s.shared == {})
  {
    ReachableInv(w);
    assert CallOk(w, h);
    NoConflict(w.locks, h, w.calls[h].kind);
  }

  /** No waiter is forgotten: a parked handle could still not take its lock. */
  lemma NoForgottenWaiter(w: World, h: Handle)
    requires Reachable(w) && h in w.calls && w.calls[h].Parked?
    ensures h.path in w.locks.states && !CanTake(w.locks.states[h.path], h, w.calls[h].kind)
  {
    ReachableInv(w);
    assert CallOk(w, h);
  }

  /** And when the last conflicting holder lets go, its release wakes every waiter of the path. */
  lemma ReleaseWakes(w: World, holder: Handle, h: Handle)
    requires Reachable(w) && h in w.calls && w.calls[h].Parked? && h.path == holder.path
    requires Free(w, holder) && KindOf(w.locks, holder) != NoLock
    ensures var w' := Step(w, Unlock(holder)); h in w'.calls && w'.calls[h] == Ready(w.calls[h].kind, false)
  {
    ReachableInv(w);
    assert CallOk(w, h);
  }

  // ---- how calls come out ----

  /** Another handle of the path holds an exclusive lock, or any lock when an exclusive one is wanted. */
  ghost predicate Conflicts(w: World, h: Handle, kind: Kind, g: Handle) {
    && g != h && g.path == h.path
    && (KindOf(w.locks, g) == Exclusive || (kind == Exclusive && KindOf(w.locks, g) == Shared))
  }

  lemma ConflictIff(w: World, h: Handle)
    requires Reachable(w) && Enabled(w, Attempt(h))
    ensures CanTake(StateOf(w.locks, h.path), h, w.calls[h].kind) <==>
            forall g :: !Conflicts(w, h, w.calls[h].kind, g)
  {
    var s, kind := StateOf(w.locks, h.path), w.calls[h].kind;
    ConflictTest(w, h);
    NothingLeftBehind(w, h);
    forall g: Handle | g.path == h.path
      ensures KindOf(w.locks, g) == Shared <==> g in s.shared
      ensures KindOf(w.locks, g) == Exclusive <==> s.excl == Some(g)
    {
      KindAgreesWithHolders(w, g);
    }
    ReachableInv(w);
    assert h.path in w.locks.states ==> PathOk(w.locks, h.path);
    if s.excl.Some? {
      assert Conflicts(w, h, kind, s.excl.value);
    } else if kind == Exclusive && s.shared != {} {
      var g :| g in s.shared;
      assert Conflicts(w, h, kind, g);
    }
  }

  /**
   * An attempt takes the lock and ends exactly when no other handle's lock conflicts; otherwise a nonblocking call
   * ends with nothing and a blocking one comes to wait. No other handle's lock or call changes.
   */
  lemma AttemptOutcome(w: World, h: Handle)
    requires Reachable(w) && Enabled(w, Attempt(h))
    ensures var w', kind := Step(w, Attempt(h)), w.calls[h].kind;
            && ((forall g :: !Conflicts(w, h, kind, g)) ==> KindOf(w'.locks, h) == kind && h !in w'.calls)
            && ((exists g :: Conflicts(w, h, kind, g)) ==>
                  && KindOf(w'.locks, h) == NoLock
                  && if w.calls[h].nonblock then h !in w'.calls else h in w'.calls && w'.calls[h] == Parked(kind))
            && forall g :: g != h ==>
                 && KindOf(w'.locks, g) == KindOf(w.locks, g)
                 && (g in w'.calls <==> g in w.calls) && (g in w.calls ==> w'.calls[g] == w.calls[g])
  {
    hide Conflicts, Reachable;
    ConflictIff(w, h);
    NothingLeftBehind(w, h);
  }

  /** What a release does to the calls: everyone who waits on the path gets ready, the others go on. */
  ghost predicate Wakes(w: World, w': World, path: string, but: set<Handle>) {
    forall g :: g in w.calls && g !in but ==>
      && g in w'.calls
      && w'.calls[g] == if g.path == path && w.calls[g].Parked? then Ready(w.calls[g].kind, false) else w.calls[g]
  }

  /**
   * A call for no lock, or for the one held, changes nothing. Any other gives up the held lock first, for good, and
   * wakes those who wait for it; then it is on its way.
   */
  lemma AcquireOutcome(w: World, h: Handle, kind: Kind, nonblock: bool)
    requires Reachable(w) && Enabled(w, Acquire(h, kind, nonblock))
    ensures var w' := Step(w, Acquire(h, kind, nonblock));
            if kind == NoLock || kind == KindOf(w.locks, h) then w' == w
            else
              && h in w'.calls && w'.calls[h] == Converting(kind, nonblock) && KindOf(w'.locks, h) == NoLock
              && (forall g :: g != h ==> KindOf(w'.locks, g) == KindOf(w.locks, g))
              && (KindOf(w.locks, h) != NoLock ==> Wakes(w, w', h.path, {h}))
              && (KindOf(w.locks, h) == NoLock ==> w'.locks == w.locks)
  {
    ReachableInv(w);
    ReleaseKeeps(w.locks, h);
    assert HandleOk(w.locks, h);
  }

  /** `Funlock` and `Close` leave the handle without a lock, and wake those who wait if there was one. */
  lemma ReleaseOutcome(w: World, h: Handle, e: Event)
    requires Reachable(w) && Enabled(w, e) && (e == Unlock(h) || e == Close(h))
    ensures var w' := Step(w, e);
            && KindOf(w'.locks, h) == NoLock && w'.closed == w.closed + (if e.Close? then {h} else {})
            && (forall g :: g != h ==> KindOf(w'.locks, g) == KindOf(w.locks, g))
            && (KindOf(w.locks, h) != NoLock ==> Wakes(w, w', h.path, {}))
            && (KindOf(w.locks, h) == NoLock ==> w'.locks == w.locks && w'.calls == w.calls)
  {
    ReachableInv(w);
    ReleaseKeeps(w.locks, h);
    assert HandleOk(w.locks, h);
    assert w.closed + {} == w.closed;
  }

  /** A watchdog wakes everyone on its path, changes no lock, and a call that gives up is over. */
  lemma TimersOutcome(w: World, path: string, h: Handle)
    ensures Wakes(w, Step(w, Watchdog(path)), path, {}) && Step(w, Watchdog(path)).locks == w.locks
    ensures Enabled(w, Expire(h)) ==>
              Step(w, Expire(h)).locks == w.locks && Step(w, Expire(h)).calls == w.calls - {h}
  {
  }

  /** From its release on, a call that is woken or starts gets the lock at its next attempt if nobody conflicts. */
  lemma WokenTakes(w: World, holder: Handle, h: Handle)
    requires Reachable(w) && h in w.calls && w.calls[h].Parked? && Free(w, holder)
    requires forall g :: Conflicts(w, h, w.calls[h].kind, g) ==> g == holder
    ensures var w1 := Step(w, Unlock(holder));
            Enabled(w1, Attempt(h)) && KindOf(Step(w1, Attempt(h)).locks, h) == w.calls[h].kind
  {
    hide Step, Reachable, KindOf, Wakes;
    var w1, kind := Step(w, Unlock(holder)), w.calls[h].kind;
    NoForgottenWaiter(w, h);
    WaiterConflict(w, h, holder);
    ReleaseOutcome(w, holder, Unlock(holder));
    ReleaseWakes(w, holder, h);
    ReachableStep(w, Unlock(holder));
    AttemptOutcome(w1, h);
    forall g
      ensures !Conflicts(w1, h, kind, g)
    {
      assert Conflicts(w, h, kind, g) ==> g == holder;
    }
  }

  /** Whoever waits has somebody to wait for. */
  lemma WaiterConflict(w: World, h: Handle, holder: Handle)
    requires Reachable(w) && h in w.calls && w.calls[h].Parked?
    requires forall g :: Conflicts(w, h, w.calls[h].kind, g) ==> g == holder
    ensures Conflicts(w, h, w.calls[h].kind, holder)
  {
    var s, kind := StateOf(w.locks, h.path), w.calls[h].kind;
    NoForgottenWaiter(w, h);
    ReachableInv(w);
    assert CallOk(w, h) && PathOk(w.locks, h.path);
    NoConflict(w.locks, h, kind);
    NotHolding(w.locks, h);
    if s.excl.Some? {
      assert Conflicts(w, h, kind, s.excl.value);
    } else {
      var g :| g in s.shared;
      assert Conflicts(w, h, kind, g);
    }
  }

  lemma {:induction false} RunThenStep(w: World, run: seq<Event>, e: Event)
    requires Possible(w, run) && Enabled(After(w, run), e)
    ensures Possible(w, run + [e]) && After(w, run + [e]) == Step(After(w, run), e)
    decreases |run|
  {
    if run == [] {
      assert [e][1..] == [] && [] + [e] == [e];
      assert Possible(Step(w, e), []) && After(Step(w, e), []) == Step(w, e);
    } else {
      assert (run + [e])[1..] == run[1..] + [e];
      RunThenStep(Step(w, run[0]), run[1..], e);
    }
  }

  lemma ReachableStep(w: World, e: Event)
    requires Reachable(w) && Enabled(w, e)
    ensures Reachable(Step(w, e))
  {
    var run :| Possible(Fresh, run) && After(Fresh, run) == w;
    RunThenStep(Fresh, run, e);
  }
}
