/** `match` in core/router.go: a greedy walk without backtracking, and what it means. */
module Matching {
  import opened Bytes
  import opened Paths
  import opened Entries
  import opened Params
  import opened Trie
  import opened TrieRuns

  datatype Walk = At(pos: Pos, params: seq<Pair>) | Lost(err: Errno)

  datatype MatchResult = Hit(mount: Option<MountEntry>, params: seq<Pair>) | Miss(err: Errno)

  /** `ParamSet.set`, which ignores what does not fit. */
  function Bind(params: seq<Pair>, key: string, value: string): seq<Pair> {
    if key == "" || |params| >= INLINE_PARAMS then params else params + [(key, value)]
  }

  /** One turn of the loop in `match`: `nextRoute` tries the static child, then the parameter. */
  function Turn(ns: Nodes, at: Pos, params: seq<Pair>, seg: string): Walk
    requires at in ns
  {
    if !GoodSegment(seg) then Lost(EINVAL)
    else if Child(at, Static(seg)) in ns then At(Child(at, Static(seg)), params)
    else if Child(at, Param) in ns then At(Child(at, Param), Bind(params, ns[at].paramKey, seg))
    else Lost(ENOENT)
  }

  function Descend(ns: Nodes, segs: seq<string>): (w: Walk)
    requires Root in ns
    ensures w.At? ==> w.pos in ns
  {
    if segs == [] then At(Root, [])
    else
      var w := Descend(ns, Init(segs));
      if w.Lost? then w else Turn(ns, w.pos, w.params, End(segs))
  }

  ghost predicate Leaf(ns: Nodes, p: Pos) {
    forall e :: Child(p, e) !in ns
  }

  ghost function Match(ns: Nodes, path: string): MatchResult
    requires Root in ns
  {
    if path == "" || path[0] != '/' || DoubleSlash(path) then Miss(EINVAL)
    else
      var w := Descend(ns, PartsOf(path));
      if w.Lost? then Miss(w.err)
      else if ns[w.pos].mount.None? && Leaf(ns, w.pos) then Miss(ENOENT)
      else Hit(ns[w.pos].mount, w.params)
  }

  // ---- what a match means, without the walk ----

  /** The pattern at `p` fits the segments one by one. */
  ghost predicate Fits(p: Pos, segs: seq<string>) {
    match p
    case Root => segs == []
    case Child(up, e) => segs != [] && Fits(up, Init(segs)) && (e == Param || e == Static(End(segs)))
  }

  /** No parameter edge of `p` has a static sibling, mounted or not, for the segment it takes. */
  ghost predicate Unshadowed(ns: Nodes, p: Pos, segs: seq<string>) {
    match p
    case Root => true
    case Child(up, e) =>
      segs != [] ==> Unshadowed(ns, up, Init(segs)) && (e == Param ==> Child(up, Static(End(segs))) !in ns)
  }

  /** The names of the parameter edges of `p`, each with the segment under it. */
  ghost function Bindings(ns: Nodes, p: Pos, segs: seq<string>): seq<Pair> {
    match p
    case Root => []
    case Child(up, e) =>
      if segs == [] then []
      else Bindings(ns, up, Init(segs)) + (if e == Param && up in ns then [(ns[up].paramKey, End(segs))] else [])
  }

  /** `p` is more specific than `q`: static where they first part, and `q` a parameter there. */
  ghost predicate Beats(p: Pos, q: Pos) {
    && p.Child? && q.Child?
    && if p.up == q.up then p.edge.Static? && q.edge == Param else Beats(p.up, q.up)
  }

  // ---- the walk finds exactly the unshadowed fitting node ----

  lemma {:induction false} WalkIsSound(ns: Nodes, segs: seq<string>)
    requires Skeleton(ns) && Descend(ns, segs).At?
    ensures var p := Descend(ns, segs).pos;
            && AllGood(segs) && Fits(p, segs) && Unshadowed(ns, p, segs)
            && Descend(ns, segs).params == Bindings(ns, p, segs)
            && |Bindings(ns, p, segs)| == ParamCount(p)
    decreases |segs|
  {
    if segs != [] {
      var w, w' := Descend(ns, Init(segs)), Descend(ns, segs);
      WalkIsSound(ns, Init(segs));
      assert NodeOk(ns, w'.pos);
      assert NodeOk(ns, w.pos);
      assert segs == Init(segs) + [End(segs)];
    }
  }

  lemma {:induction false} WalkIsComplete(ns: Nodes, segs: seq<string>, p: Pos)
    requires Skeleton(ns) && p in ns && AllGood(segs) && Fits(p, segs) && Unshadowed(ns, p, segs)
    ensures Descend(ns, segs).At? && Descend(ns, segs).pos == p
    decreases |segs|
  {
    if segs != [] {
      assert NodeOk(ns, p);
      assert AllGood(Init(segs));
      WalkIsComplete(ns, Init(segs), p.up);
      assert GoodSegment(End(segs));
    }
  }

  /** Any other node that fits is less specific than the one the walk ends at. */
  lemma {:induction false} WalkEndsAtBest(ns: Nodes, segs: seq<string>, p: Pos, q: Pos)
    requires Skeleton(ns) && Fits(p, segs) && Unshadowed(ns, p, segs)
    requires q in ns && Fits(q, segs) && q != p
    ensures Beats(p, q)
    decreases |segs|
  {
    if segs != [] {
      assert NodeOk(ns, q);
      if p.up != q.up {
        WalkEndsAtBest(ns, Init(segs), p.up, q.up);
      }
    }
  }

  /** A node that spells itself fits, unshadowed: no static edge starts with a colon. */
  lemma {:induction false} SpellingFits(ns: Nodes, p: Pos)
    requires Skeleton(ns) && p in ns
    ensures Fits(p, Spell(ns, p)) && Unshadowed(ns, p, Spell(ns, p))
    decreases p
  {
    if p.Child? {
      assert NodeOk(ns, p);
      assert NodeOk(ns, p.up);
      SpellingFits(ns, p.up);
      var s := Label(ns, p.up, p.edge);
      Snoc(Spell(ns, p.up), s);
      if p.edge == Param {
        assert IsParam(s);
        assert Child(p.up, Static(s)) in ns ==> NodeOk(ns, Child(p.up, Static(s)));
      }
    }
  }

  // ---- path syntax ----

  /** `match` answers only on paths `normalizePath` accepts. */
  lemma HitIsNormal(ns: Nodes, path: string)
    requires Skeleton(ns) && Match(ns, path).Hit?
    ensures Normal(path) && CleanParts(path) == Some(PartsOf(path)) && Text(PartsOf(path)) == path
  {
    WalkIsSound(ns, PartsOf(path));
    if path != "/" {
      assert GoodSegment(Split(path[1..], '/')[0]);
      assert path[1..] != "";
      if path[|path| - 1] == '/' {
        var k := EmptyPart(path[1..], |path| - 2, '/');
      }
    }
    NormalAgreesWithClean(path);
  }

  /** On well-formed paths the walk decides alone. */
  lemma MatchOnNormal(ns: Nodes, path: string)
    requires Root in ns && Normal(path)
    ensures AllGood(PartsOf(path))
    ensures var w := Descend(ns, PartsOf(path));
            Match(ns, path) == if w.Lost? then Miss(w.err)
                               else if ns[w.pos].mount.None? && Leaf(ns, w.pos) then Miss(ENOENT)
                               else Hit(ns[w.pos].mount, w.params)
  {
    NormalHasNoDoubleSlash(path);
  }

  // ---- main results ----

  /** A mount that is returned fits the path, with exactly its parameters, and is the most specific that does. */
  lemma MatchIsBest(t: Trie, path: string) returns (p: Pos)
    requires Inv(t) && Match(t.nodes, path).Hit? && Match(t.nodes, path).mount.Some?
    ensures Normal(path) && p in Table(t) && Match(t.nodes, path).mount == Some(Table(t)[p])
    ensures Fits(p, PartsOf(path))
    ensures Match(t.nodes, path).params == Bindings(t.nodes, p, PartsOf(path))
    ensures |Match(t.nodes, path).params| == ParamCount(p)
    ensures forall q :: q in Table(t) && q != p && Fits(q, PartsOf(path)) ==> Beats(p, q)
  {
    var segs := PartsOf(path);
    p := Descend(t.nodes, segs).pos;
    HitIsNormal(t.nodes, path);
    WalkIsSound(t.nodes, segs);
    forall q | q in Table(t) && q != p && Fits(q, segs)
      ensures Beats(p, q)
    {
      WalkEndsAtBest(t.nodes, segs, p, q);
    }
  }

  /** A mounted pattern is returned exactly for the paths that fit it and that no static node takes away. */
  lemma MatchIff(t: Trie, path: string, p: Pos)
    requires Inv(t) && p in Table(t) && Normal(path)
    ensures Match(t.nodes, path) == Hit(Some(Table(t)[p]), Bindings(t.nodes, p, PartsOf(path)))
       <==> Fits(p, PartsOf(path)) && Unshadowed(t.nodes, p, PartsOf(path))
  {
    var segs := PartsOf(path);
    MatchOnNormal(t.nodes, path);
    if Fits(p, segs) && Unshadowed(t.nodes, p, segs) {
      WalkIsComplete(t.nodes, segs, p);
      WalkIsSound(t.nodes, segs);
    } else if Match(t.nodes, path) == Hit(Some(Table(t)[p]), Bindings(t.nodes, p, segs)) {
      WalkIsSound(t.nodes, segs);
      var q := Descend(t.nodes, segs).pos;
      EntryPlace(t, p);
      EntryPlace(t, q);
    }
  }

  /** An entry's path names the position it is mounted at, so no entry is mounted twice. */
  lemma EntryPlace(t: Trie, p: Pos)
    requires Inv(t) && p in Table(t)
    ensures CleanParts(Table(t)[p].path).Some? && PosOf(CleanParts(Table(t)[p].path).value) == p
  {
    SpellLeadsBack(t.nodes, p);
  }

  /** Looking up a mounted pattern by its own text returns that very entry. */
  lemma OwnTextMatches(t: Trie, p: Pos)
    requires Inv(t) && p in Table(t)
    ensures var path := Text(Spell(t.nodes, p));
            && Normal(path)
            && Match(t.nodes, path) == Hit(Some(Table(t)[p]), Bindings(t.nodes, p, Spell(t.nodes, p)))
    ensures Normal(Table(t)[p].path) ==> Text(Spell(t.nodes, p)) == Table(t)[p].path
  {
    var parts := Spell(t.nodes, p);
    SpellLeadsBack(t.nodes, p);
    TextIsNormal(parts);
    SpellingFits(t.nodes, p);
    MatchIff(t, Text(parts), p);
    if Normal(Table(t)[p].path) {
      NormalAgreesWithClean(Table(t)[p].path);
    }
  }

  /** When the skeleton grows, a lookup keeps its answer exactly when no new static node shadows it. */
  lemma GrowthKeepsHitIff(t: Trie, t': Trie, path: string, p: Pos)
    requires Inv(t) && Inv(t') && Extends(t.nodes, t'.nodes) && Table(t') == Table(t)
    requires Normal(path) && p in Table(t) && Fits(p, PartsOf(path)) && Unshadowed(t.nodes, p, PartsOf(path))
    ensures Match(t'.nodes, path) == Match(t.nodes, path) <==> Unshadowed(t'.nodes, p, PartsOf(path))
  {
    var segs := PartsOf(path);
    MatchIff(t, path, p);
    MatchIff(t', path, p);
    BindingsStable(t.nodes, t'.nodes, p, segs);
  }

  lemma {:induction false} BindingsStable(ns: Nodes, ns': Nodes, p: Pos, segs: seq<string>)
    requires Skeleton(ns) && Extends(ns, ns') && p in ns
    ensures Bindings(ns', p, segs) == Bindings(ns, p, segs)
    decreases p
  {
    if p.Child? && segs != [] {
      assert NodeOk(ns, p);
      BindingsStable(ns, ns', p.up, Init(segs));
    }
  }

  /** `remove` undoes a successful `add` on the map of mounts; only the grown skeleton stays. */
  lemma RemoveUndoesAdd(t: Trie, m: MountEntry)
    requires Inv(t) && Add(t, m).1.Added?
    ensures var t1 := Add(t, m).0;
            var t2 := Remove(t1, m.path).0;
            && Remove(t1, m.path).1 == Removed(m.(id := t.seqno + 1))
            && Inv(t2) && Table(t2) == Table(t) && Extends(t.nodes, t2.nodes)
            && t2.nodes.Keys == Grow(t.nodes, CleanParts(m.path).value).nodes.Keys
  {
    var t1 := Add(t, m).0;
    AddRefines(t, m);
    RemoveRefines(t1, m.path);
    hide Inv, Extends, Table, CleanParts, Accepts, Grow;
    ExtendsTransitive(t.nodes, t1.nodes, Remove(t1, m.path).0.nodes);
    ReplaceInMap(Table(t), PosOf(CleanParts(m.path).value), m.(id := t.seqno + 1));
  }

  ghost predicate FreshStatic(t: Trie, at: Pos, name: string, path: string) {
    && at in t.nodes
    && GoodSegment(name) && '/' !in name && !IsParam(name) && Child(at, Static(name)) !in t.nodes
    && path == Text(Spell(t.nodes, at) + [name])
  }

  /** A parameter answers for a segment that has no static node yet. */
  lemma ParamAnswers(t: Trie, at: Pos, name: string, path: string)
    requires Inv(t) && FreshStatic(t, at, name, path) && Child(at, Param) in Table(t)
    ensures Match(t.nodes, path).Hit? && Match(t.nodes, path).mount == Some(Table(t)[Child(at, Param)])
  {
    var up := Spell(t.nodes, at);
    SpellLeadsBack(t.nodes, at);
    Snoc(up, name);
    TextIsNormal(up + [name]);
    SpellingFits(t.nodes, at);
    MatchIff(t, path, Child(at, Param));
  }

  lemma FreshStaticIsAdded(t: Trie, at: Pos, name: string, m: MountEntry)
    requires Inv(t) && FreshStatic(t, at, name, m.path)
    ensures Add(t, m).1.Added?
    ensures CleanParts(m.path) == Some(Spell(t.nodes, at) + [name]) && Normal(m.path)
    ensures PartsOf(m.path) == Spell(t.nodes, at) + [name]
    ensures PosOf(Spell(t.nodes, at) + [name]) == Child(at, Static(name))
  {
    var up := Spell(t.nodes, at);
    SpellLeadsBack(t.nodes, at);
    Snoc(up, name);
    TextIsNormal(up + [name]);
    AcceptsIffSpelled(t.nodes, up);
    AddRefines(t, m);
  }

  /**
   * `remove` does not undo `add` on lookups: mounting and unmounting a static sibling of a mounted
   * parameter leaves a dead node that hides the parameter for that segment.
   */
  lemma DeadNodeShadows(t: Trie, at: Pos, name: string, m: MountEntry)
    requires Inv(t) && FreshStatic(t, at, name, m.path) && Child(at, Param) in Table(t)
    ensures var t2 := Remove(Add(t, m).0, m.path).0;
            && Table(t2) == Table(t)
            && Match(t.nodes, m.path).Hit? && Match(t.nodes, m.path).mount == Some(Table(t)[Child(at, Param)])
            && Root in t2.nodes && Match(t2.nodes, m.path) == Miss(ENOENT)
  {
    var up, dead := Spell(t.nodes, at), Child(at, Static(name));
    ParamAnswers(t, at, name, m.path);
    FreshStaticIsAdded(t, at, name, m);
    RemoveUndoesAdd(t, m);
    var t2 := Remove(Add(t, m).0, m.path).0;
    DeadNodeIsLeaf(t, up + [name], dead);
    WalkReaches(t, t2, at, up);
    Snoc(up, name);
    assert Leaf(t2.nodes, dead);
    assert dead !in Table(t2);
    MatchOnNormal(t2.nodes, m.path);
  }

  lemma DeadNodeIsLeaf(t: Trie, parts: seq<string>, dead: Pos)
    requires Inv(t) && Segments(parts) && PosOf(parts) == dead && dead !in t.nodes
    ensures Leaf(Grow(t.nodes, parts).nodes, dead)
  {
    GrowKeeps(t.nodes, parts);
    DepthOf(parts);
    forall e
      ensures Child(dead, e) !in Grow(t.nodes, parts).nodes
    {
      assert Child(dead, e) in t.nodes ==> NodeOk(t.nodes, Child(dead, e));
    }
  }

  /** A node is still reached by its own spelling after the skeleton has grown. */
  lemma WalkReaches(t: Trie, t': Trie, at: Pos, parts: seq<string>)
    requires Inv(t) && Inv(t') && Extends(t.nodes, t'.nodes) && at in t.nodes && parts == Spell(t.nodes, at)
    ensures Descend(t'.nodes, parts).At? && Descend(t'.nodes, parts).pos == at
  {
    SpellStable(t.nodes, t'.nodes, at);
    SpellLeadsBack(t'.nodes, at);
    SpellingFits(t'.nodes, at);
    WalkIsComplete(t'.nodes, parts, at);
  }
}
