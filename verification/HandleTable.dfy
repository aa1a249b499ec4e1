/** core/handles.go: the sharded table of open handles and its budget. */
module HandleTable {
  import opened Bytes

  const SHARDS := 16

  datatype Handle = Handle(id: nat, path: string)

  /** What the shards and the two atomics stand for. A `max` that is not positive means no limit. */
  datatype Table = Table(stored: map<nat, Handle>, active: int, seqno: nat, max: int)

  function Empty(max: int): Table {
    Table(map[], 0, 0, max)
  }

  /** One `CompareAndSwap(seen, seen + 1)` on the budget. */
  function Swap(t: Table, seen: int): Table {
    if t.active == seen then t.(active := seen + 1) else t
  }

  function Issue(t: Table): Table {
    t.(seqno := t.seqno + 1)
  }

  function Put(t: Table, h: Handle): Table {
    t.(stored := t.stored[h.id := h])
  }

  /** The first half of `drop`. */
  function Delete(t: Table, id: nat): Table {
    t.(stored := t.stored - {id})
  }

  /** The second half of `drop`, for an entry that was there. */
  function GiveBack(t: Table): Table {
    t.(active := if t.max > 0 then t.active - 1 else t.active)
  }

  function Drop(t: Table, id: nat): Table {
    if id in t.stored then GiveBack(Delete(t, id)) else t
  }

  /**
   * The loop of `acquire` from its first load on. `env[i]` is the value other threads have given `active`
   * by the time of the loop's i-th swap; after those nobody interferes.
   */
  function Contend(t: Table, env: seq<int>): (Table, Option<nat>)
    decreases |env|
  {
    if t.max <= 0 then (Issue(t), Some(t.seqno + 1))
    else if t.active >= t.max then (t, None)
    else
      var t' := if env == [] then t else t.(active := env[0]);
      if t'.active == t.active then (Issue(Swap(t', t.active)), Some(t.seqno + 1))
      else Contend(t', env[1..])
  }

  /**
   * However often others interfere: the call is refused only on seeing the limit reached, it raises `active`
   * by exactly one and only from below the limit, and without interference it is refused only when full.
   */
  lemma {:induction false} ContendKeepsLimit(t: Table, env: seq<int>)
    requires t.max > 0
    ensures var (t', id) := Contend(t, env);
            && (id.None? ==>
                  && t'.active >= t.max && t' == t.(active := t'.active)
                  && (t'.active == t.active || t'.active in env))
            && (id.Some? ==>
                  && 0 < t.max && t'.active <= t.max && id.value == t.seqno + 1 && t'.seqno == t.seqno + 1
                  && t'.stored == t.stored && (t'.active - 1 == t.active || t'.active - 1 in env))
    ensures env == [] ==> (Contend(t, env).1.None? <==> t.active >= t.max)
    decreases |env|
  {
    if t.active < t.max && env != [] && env[0] != t.active {
      ContendKeepsLimit(t.(active := env[0]), env[1..]);
      assert forall x :: x in env[1..] ==> x in env;
    }
  }

  /** `vs` are the values `active` takes: the first one it has, and then those others give it. */
  predicate Takes(t: Table, env: seq<int>, vs: seq<int>) {
    |vs| == |env| + 1 && vs[0] == t.active && forall i :: 0 <= i < |env| ==> vs[i + 1] == env[i]
  }

  /**
   * The loop with a limit goes round while the value is below the limit and changes under it; then it refuses at
   * the limit, or counts one more and hands out the next id. Without a limit it only hands out the next id.
   */
  lemma {:induction false} ContendStops(t: Table, env: seq<int>, vs: seq<int>) returns (k: nat)
    requires Takes(t, env, vs)
    ensures k < |vs|
    ensures var (t', id) := Contend(t, env);
            if t.max <= 0 then
              t' == t.(seqno := t.seqno + 1) && id == Some(t.seqno + 1)
            else
              && (forall i :: 0 <= i < k ==> vs[i] < t.max && vs[i + 1] != vs[i])
              && if vs[k] >= t.max then
                   t' == t.(active := vs[k]) && id == None
                 else
                   && (k + 1 < |vs| ==> vs[k + 1] == vs[k])
                   && t' == t.(active := vs[k] + 1, seqno := t.seqno + 1) && id == Some(t.seqno + 1)
    decreases |env|
  {
    hide Contend;
    k := 0;
    if 0 < t.max && t.active < t.max && env != [] && env[0] != t.active {
      GoRound(t, env);
      var j := ContendStops(t.(active := env[0]), env[1..], vs[1..]);
      k := j + 1;
      assert forall i :: 0 <= i < j ==> vs[1..][i] == vs[i + 1];
    } else {
      StopNow(t, env);
    }
  }

  lemma GoRound(t: Table, env: seq<int>)
    requires t.active < t.max && env != [] && env[0] != t.active && 0 < t.max
    ensures Contend(t, env) == Contend(t.(active := env[0]), env[1..])
  {
  }

  lemma StopNow(t: Table, env: seq<int>)
    requires t.max <= 0 || t.active >= t.max || env == [] || env[0] == t.active
    ensures Contend(t, env) == if t.max <= 0 then (t.(seqno := t.seqno + 1), Some(t.seqno + 1))
                               else if t.active >= t.max then (t, None)
                               else (t.(active := t.active + 1, seqno := t.seqno + 1), Some(t.seqno + 1))
  {
  }

  type Shard = map<nat, Handle>

  /** Every id lives in the shard its remainder names, with a handle that carries that id. */
  predicate InPlace(shards: seq<Shard>) {
    && |shards| == SHARDS
    && forall i, id :: 0 <= i < SHARDS && id in shards[i] ==> id % SHARDS == i && shards[i][id].id == id
  }

  /** The shards together are this one map. */
  ghost predicate ActAs(shards: seq<Shard>, stored: Shard)
    requires |shards| == SHARDS
  {
    forall id: nat ::
      && (id in stored <==> id in shards[id % SHARDS])
      && (id in stored ==> stored[id] == shards[id % SHARDS][id])
  }

  /** Handles are stored under their own ids. */
  predicate Keyed(m: Shard) {
    forall id :: id in m ==> m[id].id == id
  }

  /** The handles of the first `n` shards. */
  function Upto(shards: seq<Shard>, n: nat): set<Handle>
    requires n <= |shards|
  {
    if n == 0 then {} else Upto(shards, n - 1) + shards[n - 1].Values
  }

  lemma {:induction false} UptoMember(shards: seq<Shard>, n: nat, h: Handle)
    requires InPlace(shards) && n <= SHARDS
    ensures h in Upto(shards, n)
       <==> h.id % SHARDS < n && h.id in shards[h.id % SHARDS] && shards[h.id % SHARDS][h.id] == h
  {
    if n > 0 {
      UptoMember(shards, n - 1, h);
      assert h in shards[n - 1].Values <==> h.id in shards[n - 1] && shards[n - 1][h.id] == h;
    }
  }

  lemma WithoutOne(m: Shard, id: nat)
    requires Keyed(m) && id in m
    ensures (m - {id}).Values == m.Values - {m[id]} && Keyed(m - {id})
  {
    var m' := m - {id};
    forall h
      ensures h in m'.Values <==> h in m.Values && h != m[id]
    {
      assert h in m.Values <==> h.id in m && m[h.id] == h;
      assert h in m'.Values <==> h.id in m' && m'[h.id] == h;
    }
  }

  lemma {:induction false} AsManyValues(m: Shard)
    requires Keyed(m)
    ensures |m.Values| == |m|
    decreases |m|
  {
    if m != map[] {
      var id :| id in m;
      WithoutOne(m, id);
      assert m.Keys == (m - {id}).Keys + {id};
      AsManyValues(m - {id});
    }
  }

  lemma AddOne(s: set<Handle>, h: Handle)
    requires h !in s
    ensures multiset(s + {h}) == multiset(s) + multiset{h}
  {
  }

  class HandleManager {
    var shards: seq<Shard>
    var seqno: nat
    var active: int
    const max: int
    ghost var stored: Shard

    ghost predicate Valid()
      reads this
    {
      InPlace(shards) && ActAs(shards, stored)
    }

    ghost function View(): Table
      reads this
    {
      Table(stored, active, seqno, max)
    }

    constructor (max: int)
      ensures Valid() && View() == Empty(max)
    {
      this.max := max;
      seqno, active, stored := 0, 0, map[];
      shards := seq(SHARDS, i => map[]);
    }

    /** The CAS loop; `env` is what others do to `active` between its loads and its swaps. */
    method Acquire(env: seq<int>) returns (id: Option<nat>)
      requires Valid()
      modifies this`active, this`seqno
      ensures Valid() && Contend(old(View()), env) == (View(), id)
    {
      if max <= 0 {
        seqno := seqno + 1;
        return Some(seqno);
      }
      var i := 0;
      while true
        invariant i <= |env| && Valid() && seqno == old(seqno)
        invariant Contend(old(View()), env) == Contend(View(), env[i..])
        decreases |env| - i
      {
        var seen := active;
        if seen >= max { return None; }
        if i < |env| {
          active := env[i];
          i := i + 1;
        }
        if active == seen {
          active := seen + 1;
          seqno := seqno + 1;
          return Some(seqno);
        }
      }
    }

    method Store(h: Handle)
      requires Valid()
      modifies this`shards, this`stored
      ensures Valid() && View() == Put(old(View()), h)
      ensures stored == old(stored)[h.id := h]
    {
      var i := h.id % SHARDS;
      var s: Shard := shards[i][h.id := h];
      shards := shards[i := s];
      stored := stored[h.id := h];
    }

    method Get(id: nat) returns (h: Option<Handle>)
      requires Valid()
      ensures h == if id in stored then Some(stored[id]) else None
    {
      var s := shards[id % SHARDS];
      if id in s { return Some(s[id]); }
      return None;
    }

    method Remove(id: nat)
      requires Valid()
      modifies this`shards, this`stored, this`active
      ensures Valid() && View() == Drop(old(View()), id)
      ensures stored == old(stored) - {id}
      ensures active == old(active) - if id in old(stored) && max > 0 then 1 else 0
    {
      var i := id % SHARDS;
      if id in shards[i] {
        shards := shards[i := shards[i] - {id}];
        stored := stored - {id};
        if max > 0 { active := active - 1; }
      }
    }

    /** One shard's entries, appended in whatever order the map gives them. */
    method AppendShard(shard: Shard, hs: seq<Handle>, ghost seen: set<Handle>) returns (out: seq<Handle>)
      requires Keyed(shard) && multiset(hs) == multiset(seen) && seen !! shard.Values
      ensures multiset(out) == multiset(seen + shard.Values)
    {
      out := hs;
      var todo := shard;
      ghost var done := seen;
      while todo != map[]
        invariant Keyed(todo) && done !! todo.Values && done + todo.Values == seen + shard.Values
        invariant multiset(out) == multiset(done)
        decreases |todo|
      {
        var id :| id in todo;
        AddOne(done, todo[id]);
        WithoutOne(todo, id);
        out := out + [todo[id]];
        done := done + {todo[id]};
        assert todo.Keys == (todo - {id}).Keys + {id};
        todo := todo - {id};
      }
      assert done == seen + shard.Values;
    }

    /** Every stored handle exactly once. */
    method Snapshot() returns (out: seq<Handle>)
      requires Valid()
      ensures multiset(out) == multiset(stored.Values) && |out| == |stored|
    {
      out := [];
      for i := 0 to SHARDS
        invariant multiset(out) == multiset(Upto(shards, i))
      {
        forall h | h in Upto(shards, i)
          ensures h !in shards[i].Values
        {
          UptoMember(shards, i, h);
        }
        out := AppendShard(shards[i], out, Upto(shards, i));
      }
      AllShards(shards, stored);
      assert |multiset(out)| == |out|;
    }
  }

  lemma AllShards(shards: seq<Shard>, stored: Shard)
    requires InPlace(shards) && ActAs(shards, stored)
    ensures Upto(shards, SHARDS) == stored.Values && |stored.Values| == |stored|
  {
    assert Keyed(stored);
    forall h
      ensures h in Upto(shards, SHARDS) <==> h in stored.Values
    {
      UptoMember(shards, SHARDS, h);
      assert h in stored.Values <==> h.id in stored && stored[h.id] == h;
    }
    AsManyValues(stored);
  }
}

/** Interleavings of `acquire`, `put` and `drop`: every atomic operation is a step of its own. */
module HandleTableRuns {
  import opened Bytes
  import opened HandleTable

  type Thread = nat

  /**
   * `loaded`: threads between Load and CompareAndSwap; `counted`: those past a successful swap without
   * an id; `named`: those with an id and nothing stored; `dropping`: ids deleted from their shard, whose
   * budget is still to be given back; `issued`: every id handed out, in order.
   */
  datatype World = World(table: Table, loaded: map<Thread, int>, counted: set<Thread>, named: map<Thread, nat>,
                         dropping: set<nat>, issued: seq<nat>)

  function Fresh(max: int): World {
    World(Empty(max), map[], {}, map[], {}, [])
  }

  datatype Event =
    | Load(t: Thread)  // reads `active`; at the limit the call ends in EBUSY
    | Cas(t: Thread)   // on failure the loop starts over
    | Name(t: Thread)  // the sequence number
    | Keep(t: Thread, path: string)
    | Forget(id: nat)  // `drop` deletes the entry, if there is one
    | Return(id: nat)  // and then, still under the shard's mutex, decrements `active`

  predicate Idle(w: World, t: Thread) {
    t !in w.loaded && t !in w.counted && t !in w.named
  }

  /** Nobody is inside `drop` on the id's shard. */
  predicate Unlocked(w: World, id: nat) {
    forall d :: d in w.dropping ==> d % SHARDS != id % SHARDS
  }

  predicate Enabled(w: World, e: Event) {
    match e
    case Load(t) => w.table.max > 0 && Idle(w, t)
    case Cas(t) => t in w.loaded
    case Name(t) => if w.table.max > 0 then t in w.counted else Idle(w, t)
    case Keep(t, _) => t in w.named && Unlocked(w, w.named[t])
    case Forget(id) => Unlocked(w, id)
    case Return(id) => id in w.dropping
  }

  function Step(w: World, e: Event): World
    requires Enabled(w, e)
  {
    match e
    case Load(t) => if w.table.active >= w.table.max then w else w.(loaded := w.loaded[t := w.table.active])
    case Cas(t) =>
      var seen := w.loaded[t];
      w.(table := Swap(w.table, seen), loaded := w.loaded - {t},
         counted := if w.table.active == seen then w.counted + {t} else w.counted)
    case Name(t) =>
      var table := Issue(w.table);
      w.(table := table, counted := w.counted - {t}, named := w.named[t := table.seqno],
         issued := w.issued + [table.seqno])
    case Keep(t, path) =>
      w.(table := Put(w.table, Handle(w.named[t], path)), named := w.named - {t})
    case Forget(id) =>
      w.(table := Delete(w.table, id),
         dropping := if id in w.table.stored && w.table.max > 0 then w.dropping + {id} else w.dropping)
    case Return(id) => w.(table := GiveBack(w.table), dropping := w.dropping - {id})
  }

  predicate Possible(w: World, run: seq<Event>)
    decreases |run|
  {
    run == [] || (Enabled(w, run[0]) && Possible(Step(w, run[0]), run[1..]))
  }

  function After(w: World, run: seq<Event>): World
    requires Possible(w, run)
    decreases |run|
  {
    if run == [] then w else After(Step(w, run[0]), run[1..])
  }

  ghost predicate Reachable(w: World) {
    exists run :: Possible(Fresh(w.table.max), run) && After(Fresh(w.table.max), run) == w
  }

  /** Ids in use come from the sequence, and no two uses share one. */
  predicate IdsOk(w: World) {
    && (forall i :: 0 <= i < |w.issued| ==> w.issued[i] == i + 1)
    && |w.issued| == w.table.seqno
    && (forall id :: id in w.table.stored ==> 0 < id <= w.table.seqno && w.table.stored[id].id == id)
    && (forall id :: id in w.dropping ==> 0 < id <= w.table.seqno && id !in w.table.stored)
    && (forall t :: t in w.named ==>
          0 < w.named[t] <= w.table.seqno && w.named[t] !in w.table.stored && w.named[t] !in w.dropping)
    && (forall t, u :: t in w.named && u in w.named && t != u ==> w.named[t] != w.named[u])
  }

  /** Handles in use: stored ones, and acquired ones on their way into the table. */
  function InUse(w: World): nat {
    |w.table.stored| + |w.counted| + |w.named|
  }

  /** The budget counts handles in use and drops under way; a loaded value was below the limit. */
  predicate BudgetOk(w: World) {
    if w.table.max > 0 then
      && w.table.active == InUse(w) + |w.dropping|
      && w.table.active <= w.table.max
      && (forall t :: t in w.loaded ==> w.loaded[t] < w.table.max)
      && (forall t :: t in w.counted ==> t !in w.named && t !in w.loaded)
      && (forall t :: t in w.named ==> t !in w.loaded)
    else w.table.active == 0 && w.loaded == map[] && w.counted == {} && w.dropping == {}
  }

  lemma IdsStep(w: World, e: Event)
    requires IdsOk(w) && Enabled(w, e)
    ensures IdsOk(Step(w, e))
  {
  }

  lemma Shrunk<K, V>(m: map<K, V>, k: K)
    requires k in m
    ensures |m - {k}| == |m| - 1
  {
    assert m.Keys == (m - {k}).Keys + {k};
  }

  lemma Grown<K, V>(m: map<K, V>, k: K, v: V)
    requires k !in m
    ensures |m[k := v]| == |m| + 1
  {
    assert m[k := v].Keys == m.Keys + {k};
  }

  /** The two halves of a drop, one right after the other, are the whole one; what was counted is given back once. */
  lemma HalvesMakeDrop(w: World, id: nat)
    requires Enabled(w, Forget(id))
    ensures var w1 := Step(w, Forget(id));
            var counted := id in w.table.stored && w.table.max > 0;
            && (id in w1.dropping <==> counted)
            && var w2 := if counted then Step(w1, Return(id)) else w1;
               && w2.table == Drop(w.table, id) && w2.dropping == w.dropping
               && w2.table.stored == w.table.stored - {id}
               && w2.table.active == w.table.active - if counted then 1 else 0
  {
    assert id !in w.dropping;
    assert (w.dropping + {id}) - {id} == w.dropping;
    if id !in w.table.stored {
      assert w.table.stored - {id} == w.table.stored;
    }
  }

  lemma TryStep(w: World, e: Event)
    requires BudgetOk(w) && Enabled(w, e) && (e.Load? || e.Cas?)
    ensures BudgetOk(Step(w, e))
  {
  }

  lemma NameStep(w: World, t: Thread)
    requires BudgetOk(w) && Enabled(w, Name(t))
    ensures BudgetOk(Step(w, Name(t)))
  {
    if w.table.max > 0 {
      Grown(w.named, t, w.table.seqno + 1);
      assert w.counted == (w.counted - {t}) + {t};
    }
  }

  lemma KeepStep(w: World, t: Thread, path: string)
    requires BudgetOk(w) && Enabled(w, Keep(t, path)) && w.named[t] !in w.table.stored
    ensures BudgetOk(Step(w, Keep(t, path)))
  {
    Shrunk(w.named, t);
    Grown(w.table.stored, w.named[t], Handle(w.named[t], path));
  }

  lemma ForgetStep(w: World, id: nat)
    requires IdsOk(w) && BudgetOk(w) && Enabled(w, Forget(id))
    ensures BudgetOk(Step(w, Forget(id)))
  {
    assert id in w.table.stored ==> id !in w.dropping;
    hide IdsOk, Unlocked;
    if id in w.table.stored {
      Shrunk(w.table.stored, id);
      if w.table.max > 0 {
        assert |w.dropping + {id}| == |w.dropping| + 1;
      }
    } else {
      assert Delete(w.table, id) == w.table;
    }
  }

  lemma ReturnStep(w: World, id: nat)
    requires BudgetOk(w) && id in w.dropping
    ensures BudgetOk(Step(w, Return(id))) && Step(w, Return(id)).table.active < w.table.max
  {
    assert w.dropping == (w.dropping - {id}) + {id};
  }

  lemma BudgetStep(w: World, e: Event)
    requires IdsOk(w) && BudgetOk(w) && Enabled(w, e)
    ensures BudgetOk(Step(w, e)) && Step(w, e).table.max == w.table.max
  {
    hide IdsOk, BudgetOk;
    match e
    case Name(t) => NameStep(w, t);
    case Keep(t, path) => KeepIsFresh(w, t); KeepStep(w, t, path);
    case Forget(id) => ForgetStep(w, id);
    case Return(id) => ReturnStep(w, id);
    case Load(t) => TryStep(w, e);
    case Cas(t) => TryStep(w, e);
  }

  lemma KeepIsFresh(w: World, t: Thread)
    requires IdsOk(w) && t in w.named
    ensures w.named[t] !in w.table.stored
  {
  }

  lemma {:induction false} RunKeeps(w: World, run: seq<Event>)
    requires IdsOk(w) && BudgetOk(w) && Possible(w, run)
    ensures IdsOk(After(w, run)) && BudgetOk(After(w, run)) && After(w, run).table.max == w.table.max
    decreases |run|
  {
    if run != [] {
      IdsStep(w, run[0]);
      BudgetStep(w, run[0]);
      hide IdsOk, BudgetOk, Step;
      RunKeeps(Step(w, run[0]), run[1..]);
    }
  }

  lemma ReachableOk(w: World)
    requires Reachable(w)
    ensures IdsOk(w) && BudgetOk(w)
  {
    var run :| Possible(Fresh(w.table.max), run) && After(Fresh(w.table.max), run) == w;
    RunKeeps(Fresh(w.table.max), run);
  }

  /** `active` counts handles in use and drops under way, and never exceeds the limit. */
  lemma BudgetHolds(w: World)
    requires Reachable(w) && w.table.max > 0
    ensures w.table.active == InUse(w) + |w.dropping| <= w.table.max
  {
    ReachableOk(w);
  }

  predicate Refused(w: World, t: Thread)
    requires Enabled(w, Load(t))
  {
    t !in Step(w, Load(t)).loaded
  }

  /** An open is refused exactly when handles in use and drops under way use up the limit. */
  lemma RefusedIffFull(w: World, t: Thread)
    requires Reachable(w) && Enabled(w, Load(t))
    ensures Refused(w, t) <==> InUse(w) + |w.dropping| == w.table.max
  {
    ReachableOk(w);
  }

  /**
   * The late decrement only errs on the safe side: handles in use never exceed the limit, a refusal with room
   * left happens exactly while drops under way take up that room, and the next decrement ends it.
   */
  lemma LateReturnIsConservative(w: World, t: Thread)
    requires Reachable(w) && Enabled(w, Load(t))
    ensures InUse(w) <= w.table.max
    ensures Refused(w, t) && InUse(w) < w.table.max <==> w.dropping != {} && InUse(w) + |w.dropping| == w.table.max
    ensures forall id :: id in w.dropping ==> !Refused(Step(w, Return(id)), t)
  {
    ReachableOk(w);
    forall id | id in w.dropping
      ensures !Refused(Step(w, Return(id)), t)
    {
      ReturnStep(w, id);
    }
  }

  lemma FirstStep(w: World, e: Event, rest: seq<Event>)
    requires Enabled(w, e) && Possible(Step(w, e), rest)
    ensures Possible(w, [e] + rest) && After(w, [e] + rest) == After(Step(w, e), rest)
  {
    assert ([e] + rest)[1..] == rest;
  }

  /** The run of the first open and close with a limit of one, up to the deletion. */
  function DropRun(path: string): seq<Event> {
    [Load(0)] + ([Cas(0)] + ([Name(0)] + ([Keep(0, path)] + ([Forget(1)] + []))))
  }

  lemma DropRunLeads(path: string)
    ensures Possible(Fresh(1), DropRun(path))
    ensures After(Fresh(1), DropRun(path)) == World(Table(map[], 1, 1, 1), map[], {}, map[], {1}, [1])
  {
    var w1 := World(Empty(1), map[0 := 0], {}, map[], {}, []);
    var w2 := World(Table(map[], 1, 0, 1), map[], {0}, map[], {}, []);
    var w3 := World(Table(map[], 1, 1, 1), map[], {}, map[0 := 1], {}, [1]);
    var w4 := World(Table(map[1 := Handle(1, path)], 1, 1, 1), map[], {}, map[], {}, [1]);
    var w5 := World(Table(map[], 1, 1, 1), map[], {}, map[], {1}, [1]);
    assert Enabled(Fresh(1), Load(0)) && Step(Fresh(1), Load(0)) == w1;
    assert Enabled(w1, Cas(0)) && Step(w1, Cas(0)) == w2;
    assert Enabled(w2, Name(0)) && Step(w2, Name(0)) == w3;
    assert Enabled(w3, Keep(0, path)) && Step(w3, Keep(0, path)) == w4;
    assert Enabled(w4, Forget(1)) && Step(w4, Forget(1)) == w5;
    assert Possible(w5, []) && After(w5, []) == w5;
    hide Enabled, Step, Possible, After;
    FirstStep(w4, Forget(1), []);
    FirstStep(w3, Keep(0, path), [Forget(1)] + []);
    FirstStep(w2, Name(0), [Keep(0, path)] + ([Forget(1)] + []));
    FirstStep(w1, Cas(0), [Name(0)] + ([Keep(0, path)] + ([Forget(1)] + [])));
    FirstStep(Fresh(1), Load(0), [Cas(0)] + ([Name(0)] + ([Keep(0, path)] + ([Forget(1)] + []))));
  }

  /** Such a refusal is real: with a limit of one, an open between the two halves of the only handle's drop. */
  lemma RefusedWhileDropping(path: string)
    ensures Possible(Fresh(1), DropRun(path))
    ensures var w := After(Fresh(1), DropRun(path)); InUse(w) == 0 && Enabled(w, Load(1)) && Refused(w, 1)
  {
    DropRunLeads(path);
  }

  /** Ids come out in strictly increasing order, so none is handed out twice; stored ones were handed out. */
  lemma IdsNeverReused(w: World)
    requires Reachable(w)
    ensures forall i, j :: 0 <= i < j < |w.issued| ==> w.issued[i] < w.issued[j]
    ensures forall id :: id in w.table.stored ==> id in w.issued && w.table.stored[id].id == id
    ensures forall t :: t in w.named ==> w.named[t] in w.issued && w.named[t] !in w.table.stored
  {
    ReachableOk(w);
    forall id: nat | 0 < id <= w.table.seqno
      ensures id in w.issued
    {
      assert w.issued[id - 1] == id;
    }
  }

  /** Without a limit nothing is counted and nothing is refused. */
  lemma UnlimitedNeverCounts(w: World, t: Thread)
    requires Reachable(w) && w.table.max <= 0 && Idle(w, t)
    ensures w.table.active == 0 && Enabled(w, Name(t)) && Step(w, Name(t)).named[t] !in w.issued
  {
    ReachableOk(w);
  }
}
