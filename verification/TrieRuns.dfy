/** What each router operation does to the map of mounts, and what every run of them keeps. */
module TrieRuns {
  import opened Bytes
  import opened Paths
  import opened Entries
  import opened Params
  import opened Trie

  ghost function Table(t: Trie): map<Pos, MountEntry> {
    Mounts(t.nodes)
  }

  lemma HasRoot(t: Trie)
    requires Inv(t)
    ensures Root in t.nodes
  {
  }

  lemma EmptyRouter()
    ensures Inv(Empty) && Table(Empty) == map[]
  {
  }

  /** Changing one mount leaves the skeleton as it was. */
  lemma SetMountFacts(ns: Nodes, p: Pos, m: Option<MountEntry>)
    requires Skeleton(ns) && p in ns
    ensures var ns' := ns[p := ns[p].(mount := m)];
            && Skeleton(ns') && Extends(ns, ns') && Extends(ns', ns)
            && Mounts(ns') == if m.Some? then Mounts(ns)[p := m.value] else Mounts(ns) - {p}
  {
    var ns' := ns[p := ns[p].(mount := m)];
    forall q | q in ns'
      ensures NodeOk(ns', q)
    {
      assert NodeOk(ns, q);
    }
  }

  lemma StoredStable(ns: Nodes, ns': Nodes)
    requires Skeleton(ns) && Stored(ns) && Extends(ns, ns') && Mounts(ns') == Mounts(ns)
    ensures Stored(ns')
  {
    forall p | p in ns' && ns'[p].mount.Some?
      ensures CleanParts(ns'[p].mount.value.path) == Some(Spell(ns', p))
    {
      assert p in Mounts(ns') && p in Mounts(ns);
      SpellStable(ns, ns', p);
    }
  }

  /** `add` inserts or leaves the map alone, and succeeds exactly on an accepted and free position. */
  lemma AddRefines(t: Trie, m: MountEntry)
    requires Inv(t)
    ensures var (t', r) := Add(t, m);
            && Inv(t') && Extends(t.nodes, t'.nodes)
            && (r.Added? <==>
                  && CleanParts(m.path).Some?
                  && Accepts(t.nodes, CleanParts(m.path).value)
                  && PosOf(CleanParts(m.path).value) !in Table(t))
            && (r.Added? ==>
                  && r.entry == m.(id := t.seqno + 1) && t'.seqno == t.seqno + 1
                  && Table(t') == Table(t)[PosOf(CleanParts(m.path).value) := r.entry])
            && (r.NotAdded? ==> Table(t') == Table(t) && t'.seqno == t.seqno)
  {
    hide Skeleton, Stored, Extends, Accepts, CleanParts, PosOf, Grow, Segments, Spell;
    if CleanParts(m.path).Some? {
      var parts := CleanParts(m.path).value;
      HasRoot(t);
      var g, pos := Grow(t.nodes, parts), PosOf(parts);
      GrowKeeps(t.nodes, parts);
      GrowIffAccepts(t.nodes, parts);
      StoredStable(t.nodes, g.nodes);
      if g.err.None? {
        assert g.nodes[pos].mount.Some? <==> pos in Mounts(g.nodes);
        if g.nodes[pos].mount.None? {
          AddedIsStored(t, g.nodes, m, parts);
        }
      }
    } else {
      ExtendsItself(t.nodes);
    }
  }

  lemma ExtendsItself(ns: Nodes)
    ensures Extends(ns, ns)
  {
  }

  lemma AddedIsStored(t: Trie, ns: Nodes, m: MountEntry, parts: seq<string>)
    requires Inv(t) && CleanParts(m.path) == Some(parts) && Grow(t.nodes, parts) == Grown(ns, None)
    requires Skeleton(ns) && Stored(ns) && Extends(t.nodes, ns)
    ensures var ns' := ns[PosOf(parts) := ns[PosOf(parts)].(mount := Some(m.(id := t.seqno + 1)))];
            && Skeleton(ns') && Stored(ns') && Extends(t.nodes, ns')
            && Mounts(ns') == Mounts(ns)[PosOf(parts) := m.(id := t.seqno + 1)]
  {
    var pos, e := PosOf(parts), m.(id := t.seqno + 1);
    var ns' := ns[pos := ns[pos].(mount := Some(e))];
    SetMountFacts(ns, pos, Some(e));
    GrowSpells(t.nodes, parts);
    ExtendsTransitive(t.nodes, ns, ns');
    forall p | p in ns' && ns'[p].mount.Some?
      ensures CleanParts(ns'[p].mount.value.path) == Some(Spell(ns', p))
    {
      SpellStable(ns, ns', p);
    }
  }

  /** `remove` deletes exactly what is mounted at the position, and never touches the skeleton. */
  lemma RemoveRefines(t: Trie, path: string)
    requires Inv(t)
    ensures var (t', r) := Remove(t, path);
            && Inv(t') && Extends(t.nodes, t'.nodes) && Extends(t'.nodes, t.nodes) && t'.seqno == t.seqno
            && (r.Removed? <==> CleanParts(path).Some? && PosOf(CleanParts(path).value) in Table(t))
            && (r.Removed? ==>
                  var pos := PosOf(CleanParts(path).value);
                  r.entry == Table(t)[pos] && Table(t') == Table(t) - {pos})
            && (r.NotRemoved? ==> t' == t)
  {
    var (t', r) := Remove(t, path);
    if r.Removed? {
      var pos := PosOf(CleanParts(path).value);
      SetMountFacts(t.nodes, pos, None);
      forall p | p in t'.nodes && t'.nodes[p].mount.Some?
        ensures CleanParts(t'.nodes[p].mount.value.path) == Some(Spell(t'.nodes, p))
      {
        SpellStable(t.nodes, t'.nodes, p);
      }
    }
  }

  lemma AddKeepsInv(t: Trie, m: MountEntry)
    requires Inv(t)
    ensures Inv(Add(t, m).0)
  {
    AddRefines(t, m);
  }

  lemma RemoveKeepsInv(t: Trie, path: string)
    requires Inv(t)
    ensures Inv(Remove(t, path).0)
  {
    RemoveRefines(t, path);
  }

  /** At an existing position, `add` accepts a path exactly when it spells the names in force. */
  lemma {:induction false} AcceptsIffSpelled(ns: Nodes, parts: seq<string>)
    requires Skeleton(ns) && Segments(parts) && PosOf(parts) in ns
    ensures Accepts(ns, parts) <==> Spell(ns, PosOf(parts)) == parts
    decreases |parts|
  {
    if parts != [] {
      var init, p, at := Init(parts), End(parts), PosOf(Init(parts));
      assert NodeOk(ns, PosOf(parts));
      assert NodeOk(ns, at);
      Unsnoc(parts);
      AcceptsIffSpelled(ns, init);
      var lbl := Label(ns, at, EdgeOf(p));
      assert IsParam(p) ==> p == ":" + p[1..];
      assert AcceptsStep(ns, at, p) <==> lbl == p;
      if Spell(ns, at) + [lbl] == parts {
        Snoc(Spell(ns, at), lbl);
      }
    }
  }

  /** An empty router accepts every path with at most eight segments that names its parameters. */
  lemma {:induction false} AcceptedOnEmpty(parts: seq<string>)
    requires |parts| <= INLINE_PARAMS && ":" !in parts
    ensures Accepts(Empty.nodes, parts) && ParamCount(PosOf(parts)) <= |parts|
    decreases |parts|
  {
    if parts != [] {
      AcceptedOnEmpty(Init(parts));
      assert End(parts) in parts;
    }
  }

  lemma OneSegment(a: string)
    requires GoodSegment(a) && '/' !in a
    ensures Normal("/" + a) && CleanParts("/" + a) == Some([a]) && PosOf([a]) == Child(Root, EdgeOf(a))
  {
    assert Init([a]) == [] && End([a]) == a;
    TextIsNormal([a]);
  }

  lemma OneAccepted(ns: Nodes, a: string)
    requires a != ":" && (IsParam(a) ==> Child(Root, Param) !in ns)
    ensures Accepts(ns, [a])
  {
    assert Init([a]) == [] && End([a]) == a;
    assert PosOf([]) == Root && ParamCount(Root) == 0 && Accepts(ns, []);
    assert AcceptsStep(ns, Root, a);
    hide AcceptsStep, PosOf, ParamCount;
  }

  /** The old path names its parameters as the router does. */
  ghost predicate WellSpelled(t: Trie, path: string) {
    && CleanParts(path).Some?
    && Spell(t.nodes, PosOf(CleanParts(path).value)) == CleanParts(path).value
  }

  lemma ReplaceInMap<K, V>(m: map<K, V>, k: K, v: V)
    ensures (m - {k})[k := v] == m[k := v]
    ensures k !in m ==> m[k := v] - {k} == m
  {
  }

  /** Putting an entry back under the path it was removed by works iff that path is well spelled. */
  lemma PutBack(t: Trie, t2: Trie, path: string, e: MountEntry)
    requires Inv(t) && Inv(t2) && Extends(t.nodes, t2.nodes)
    requires CleanParts(path).Some? && PosOf(CleanParts(path).value) in Table(t)
    requires Table(t2) == Table(t) - {PosOf(CleanParts(path).value)}
    ensures var pos := PosOf(CleanParts(path).value);
            var (t3, b) := Add(t2, e.(path := path));
            && Inv(t3) && Extends(t.nodes, t3.nodes)
            && Table(t3) == if WellSpelled(t, path) then Table(t)[pos := e.(path := path, id := t2.seqno + 1)]
                            else Table(t) - {pos}
  {
    var parts := CleanParts(path).value;
    var pos, back := PosOf(parts), e.(path := path);
    AddRefines(t2, back);
    ExtendsTransitive(t.nodes, t2.nodes, Add(t2, back).0.nodes);
    SpellStable(t.nodes, t2.nodes, pos);
    AcceptsIffSpelled(t2.nodes, parts);
    hide Extends, Accepts, Spell, Add, Table, CleanParts;
    ReplaceInMap(Table(t), pos, back.(id := t2.seqno + 1));
  }

  /** `rename` moves the entry, or fails; then the entry is back (with a new id) iff it was well spelled. */
  lemma RenameRefines(t: Trie, oldPath: string, newPath: string)
    requires Inv(t)
    ensures var (t', err) := Rename(t, oldPath, newPath);
            && Inv(t') && Extends(t.nodes, t'.nodes)
            && (Remove(t, oldPath).1.NotRemoved? ==> t' == t && err.Some?)
            && (Remove(t, oldPath).1.Removed? ==>
                  var pos := PosOf(CleanParts(oldPath).value);
                  var e := Table(t)[pos].(id := t.seqno + 1);
                  if err.None? then
                    && CleanParts(newPath).Some?
                    && Table(t') == (Table(t) - {pos})[PosOf(CleanParts(newPath).value) := e.(path := newPath)]
                  else if WellSpelled(t, oldPath) then Table(t') == Table(t)[pos := e.(path := oldPath)]
                  else Table(t') == Table(t) - {pos})
  {
    hide Extends, Add, Remove, Table, CleanParts, Accepts, WellSpelled;
    var (t1, r) := Remove(t, oldPath);
    RemoveRefines(t, oldPath);
    if r.Removed? {
      var moved := r.entry.(path := newPath);
      AddRefines(t1, moved);
      var (t2, a) := Add(t1, moved);
      ExtendsTransitive(t.nodes, t1.nodes, t2.nodes);
      if a.NotAdded? {
        PutBack(t, t2, oldPath, r.entry);
      }
    }
  }

  lemma {:induction false} AcceptsSame(ns: Nodes, ns': Nodes, parts: seq<string>)
    requires Extends(ns, ns') && Extends(ns', ns)
    ensures Accepts(ns', parts) <==> Accepts(ns, parts)
    decreases |parts|
  {
    if parts != [] {
      AcceptsSame(ns, ns', Init(parts));
    }
  }

  /** A rename of something mounted works exactly when the target is accepted and free, or the source itself. */
  lemma RenameSucceedsIff(t: Trie, oldPath: string, newPath: string)
    requires Inv(t) && Remove(t, oldPath).1.Removed?
    ensures Rename(t, oldPath, newPath).1.None? <==>
              && CleanParts(newPath).Some? && Accepts(t.nodes, CleanParts(newPath).value)
              && var target := PosOf(CleanParts(newPath).value);
                 target !in Table(t) || target == PosOf(CleanParts(oldPath).value)
  {
    hide Inv, Extends, Accepts, Add, Remove;
    var (t1, r) := Remove(t, oldPath);
    RemoveRefines(t, oldPath);
    AddRefines(t1, r.entry.(path := newPath));
    if CleanParts(newPath).Some? {
      AcceptsSame(t.nodes, t1.nodes, CleanParts(newPath).value);
    }
  }

  // ---- runs ----

  datatype Op = AddOp(entry: MountEntry) | RemoveOp(path: string) | RenameOp(oldPath: string, newPath: string)

  ghost function Exec(t: Trie, op: Op): Trie
    requires Root in t.nodes
  {
    match op
    case AddOp(e) => Add(t, e).0
    case RemoveOp(p) => Remove(t, p).0
    case RenameOp(o, n) => Rename(t, o, n).0
  }

  lemma ExecKeeps(t: Trie, op: Op)
    requires Inv(t)
    ensures Inv(Exec(t, op)) && Extends(t.nodes, Exec(t, op).nodes)
  {
    match op {
      case AddOp(e) => AddRefines(t, e);
      case RemoveOp(p) => RemoveRefines(t, p);
      case RenameOp(o, n) => RenameRefines(t, o, n);
    }
  }

  /** A trie that some run of operations leads to, from a given one. */
  ghost predicate Leads(t: Trie, ops: seq<Op>, t': Trie)
    requires Inv(t)
    decreases |ops|
  {
    if ops == [] then t' == t
    else
      ExecKeeps(t, ops[0]);
      Leads(Exec(t, ops[0]), ops[1..], t')
  }

  /** The run invariants: entries sit where their paths say, and the skeleton only grows. */
  lemma {:induction false} RunKeeps(t: Trie, ops: seq<Op>, t': Trie)
    requires Inv(t) && Leads(t, ops, t')
    ensures Inv(t') && Extends(t.nodes, t'.nodes)
    decreases |ops|
  {
    if ops != [] {
      ExecKeeps(t, ops[0]);
      RunKeeps(Exec(t, ops[0]), ops[1..], t');
      ExtendsTransitive(t.nodes, Exec(t, ops[0]).nodes, t'.nodes);
    }
  }

  // ---- the map the trie refines ----

  type Tab = map<Pos, MountEntry>

  ghost predicate MapInsert(m: Tab, m': Tab, e: MountEntry) {
    CleanParts(e.path).Some? &&
    var pos := PosOf(CleanParts(e.path).value);
    pos !in m && exists id :: m' == m[pos := e.(id := id)]
  }

  /** One operation on a plain map from positions to entries; an insertion may be refused. */
  ghost predicate MapStep(m: Tab, op: Op, m': Tab) {
    match op
    case AddOp(e) => m' == m || MapInsert(m, m', e)
    case RemoveOp(path) => m' == MapDelete(m, path)
    case RenameOp(o, n) =>
      if CleanParts(o).None? || PosOf(CleanParts(o).value) !in m then m' == m
      else
        var e := m[PosOf(CleanParts(o).value)];
        || MapInsert(MapDelete(m, o), m', e.(path := n))
        || MapInsert(MapDelete(m, o), m', e.(path := o))
        || m' == MapDelete(m, o)
  }

  ghost function MapDelete(m: Tab, path: string): Tab {
    if CleanParts(path).None? then m else m - {PosOf(CleanParts(path).value)}
  }

  ghost predicate MapLeads(m: Tab, ops: seq<Op>, m': Tab)
    decreases |ops|
  {
    if ops == [] then m' == m
    else exists mid :: MapStep(m, ops[0], mid) && MapLeads(mid, ops[1..], m')
  }

  lemma ExecRefines(t: Trie, op: Op)
    requires Inv(t)
    ensures MapStep(Table(t), op, Table(Exec(t, op)))
  {
    match op {
      case AddOp(e) =>
        AddRefines(t, e);
      case RemoveOp(p) =>
        RemoveRefines(t, p);
        if Remove(t, p).1.NotRemoved? {
          assert Table(t) == MapDelete(Table(t), p);
        }
      case RenameOp(o, n) =>
        RenameStepRefines(t, o, n);
    }
  }

  lemma RenameStepRefines(t: Trie, o: string, n: string)
    requires Inv(t)
    ensures MapStep(Table(t), RenameOp(o, n), Table(Rename(t, o, n).0))
  {
    RemoveRefines(t, o);
    var (t1, r) := Remove(t, o);
    if r.Removed? {
      var e := r.entry;
      AddRefines(t1, e.(path := n));
      var (t2, a) := Add(t1, e.(path := n));
      assert e.(path := n).(id := t.seqno + 1) == e.(id := t.seqno + 1).(path := n);
      if a.NotAdded? {
        AddRefines(t2, e.(path := o));
      }
    } else {
      RenameRefines(t, o, n);
    }
  }

  /** Every run of the router is a run of the map. */
  lemma {:induction false} RunRefinesMap(t: Trie, ops: seq<Op>, t': Trie)
    requires Inv(t) && Leads(t, ops, t')
    ensures MapLeads(Table(t), ops, Table(t'))
    decreases |ops|
  {
    if ops != [] {
      ExecKeeps(t, ops[0]);
      ExecRefines(t, ops[0]);
      RunRefinesMap(Exec(t, ops[0]), ops[1..], t');
    }
  }
}
