/** When a lookup keeps its answer although nodes were added (core/router.go): hits, inner nodes and misses. */
module Lookups {
  import opened Bytes
  import opened Paths
  import opened Entries
  import opened Params
  import opened Trie
  import opened TrieRuns
  import opened Matching

  /** The walk for these segments ends at `p`. */
  ghost predicate Ends(ns: Nodes, p: Pos, segs: seq<string>) {
    p in ns && Fits(p, segs) && Unshadowed(ns, p, segs)
  }

  /** A lookup that ends here is a hit: the node is mounted, or has children and counts as a directory. */
  ghost predicate Answers(ns: Nodes, p: Pos)
    requires p in ns
  {
    ns[p].mount.Some? || !Leaf(ns, p)
  }

  lemma EndsIffWalk(ns: Nodes, segs: seq<string>, p: Pos)
    requires Skeleton(ns) && AllGood(segs)
    ensures Ends(ns, p, segs) <==> Descend(ns, segs).At? && Descend(ns, segs).pos == p
  {
    if Ends(ns, p, segs) {
      WalkIsComplete(ns, segs, p);
    } else if Descend(ns, segs).At? {
      WalkIsSound(ns, segs);
    }
  }

  lemma {:induction false} LostIsAbsent(ns: Nodes, segs: seq<string>)
    requires Root in ns && AllGood(segs) && Descend(ns, segs).Lost?
    ensures Descend(ns, segs).err == ENOENT
    decreases |segs|
  {
    if segs != [] {
      assert AllGood(Init(segs));
      assert GoodSegment(End(segs));
      if Descend(ns, Init(segs)).Lost? {
        LostIsAbsent(ns, Init(segs));
      }
    }
  }

  /** A lookup where the walk ends. */
  lemma EndDecides(ns: Nodes, path: string, p: Pos)
    requires Skeleton(ns) && Normal(path) && Ends(ns, p, PartsOf(path))
    ensures Match(ns, path) == if Answers(ns, p) then Hit(ns[p].mount, Bindings(ns, p, PartsOf(path))) else Miss(ENOENT)
  {
    MatchOnNormal(ns, path);
    EndsIffWalk(ns, PartsOf(path), p);
    WalkIsSound(ns, PartsOf(path));
  }

  /** A hit has an end that answers; without one the lookup is ENOENT. */
  lemma HitHasEnd(ns: Nodes, path: string) returns (p: Pos)
    requires Skeleton(ns) && Normal(path)
    ensures Match(ns, path).Hit? ==> Ends(ns, p, PartsOf(path)) && Answers(ns, p)
    ensures Match(ns, path).Miss? ==>
              Match(ns, path) == Miss(ENOENT) && forall q :: Ends(ns, q, PartsOf(path)) ==> !Answers(ns, q)
  {
    var segs := PartsOf(path);
    MatchOnNormal(ns, path);
    var w := Descend(ns, segs);
    p := if w.At? then w.pos else Root;
    if w.At? {
      EndsIffWalk(ns, segs, p);
      EndDecides(ns, path, p);
    } else {
      LostIsAbsent(ns, segs);
    }
    forall q | Match(ns, path).Miss? && Ends(ns, q, segs)
      ensures !Answers(ns, q)
    {
      EndDecides(ns, path, q);
    }
  }

  /** Growth without a change of mounts: what every failed `add`, and every `add` undone by `remove`, amounts to. */
  ghost predicate Grew(t: Trie, t': Trie) {
    Inv(t) && Inv(t') && Extends(t.nodes, t'.nodes) && Table(t') == Table(t)
  }

  lemma SameMount(t: Trie, t': Trie, p: Pos)
    requires Grew(t, t') && p in t.nodes
    ensures p in t'.nodes && t'.nodes[p].mount == t.nodes[p].mount
  {
    assert p in Table(t) <==> t.nodes[p].mount.Some?;
    assert p in Table(t') <==> t'.nodes[p].mount.Some?;
  }

  lemma NewIsMountless(t: Trie, t': Trie, q: Pos)
    requires Grew(t, t') && q in t'.nodes && q !in t.nodes
    ensures t'.nodes[q].mount.None?
  {
    assert q !in Table(t');
  }

  /** What is shadowed stays shadowed. */
  lemma {:induction false} ShadowStays(ns: Nodes, ns': Nodes, p: Pos, segs: seq<string>)
    requires ns.Keys <= ns'.Keys && Unshadowed(ns', p, segs)
    ensures Unshadowed(ns, p, segs)
    decreases p
  {
    if p.Child? && segs != [] {
      ShadowStays(ns, ns', p.up, Init(segs));
    }
  }

  lemma EndsEarlier(t: Trie, t': Trie, q: Pos, segs: seq<string>)
    requires Grew(t, t') && Ends(t'.nodes, q, segs) && q in t.nodes
    ensures Ends(t.nodes, q, segs)
  {
    ShadowStays(t.nodes, t'.nodes, q, segs);
  }

  lemma OneEnd(ns: Nodes, p: Pos, q: Pos, segs: seq<string>)
    requires Skeleton(ns) && AllGood(segs) && Ends(ns, p, segs) && Ends(ns, q, segs)
    ensures p == q
  {
    EndsIffWalk(ns, segs, p);
    EndsIffWalk(ns, segs, q);
  }

  /**
   * A new inner node without a mount that happens to bind the same names to the same segments: as when
   * "/a/:x/k" grows beside "/:x/a/k" and "/a/a" is looked up.
   */
  ghost predicate Echo(t: Trie, t': Trie, p: Pos, segs: seq<string>) {
    exists q :: IsEcho(t, t', p, segs, q)
  }

  ghost predicate IsEcho(t: Trie, t': Trie, p: Pos, segs: seq<string>, q: Pos) {
    && q !in t.nodes && Ends(t'.nodes, q, segs) && !Leaf(t'.nodes, q)
    && Bindings(t'.nodes, q, segs) == Bindings(t.nodes, p, segs)
  }

  /** A hit keeps its answer exactly when the walk still ends there, or an inner node's answer is echoed. */
  lemma HitKeptIff(t: Trie, t': Trie, path: string, p: Pos)
    requires Grew(t, t') && Normal(path) && Ends(t.nodes, p, PartsOf(path)) && Answers(t.nodes, p)
    ensures Match(t'.nodes, path) == Match(t.nodes, path) <==>
              Ends(t'.nodes, p, PartsOf(path)) || (p !in Table(t) && Echo(t, t', p, PartsOf(path)))
  {
    var segs := PartsOf(path);
    MatchOnNormal(t.nodes, path);
    EndDecides(t.nodes, path, p);
    SameMount(t, t', p);
    BindingsStable(t.nodes, t'.nodes, p, segs);
    if Ends(t'.nodes, p, segs) {
      EndDecides(t'.nodes, path, p);
    } else {
      var q := HitHasEnd(t'.nodes, path);
      if Match(t'.nodes, path).Hit? {
        MovedEnd(t, t', path, p, q);
      } else {
        forall r | IsEcho(t, t', p, segs, r)
          ensures false
        {
          EndDecides(t'.nodes, path, r);
        }
      }
    }
  }

  /** The walk now ends elsewhere: at a new node, which has no mount. */
  lemma MovedEnd(t: Trie, t': Trie, path: string, p: Pos, q: Pos)
    requires Grew(t, t') && Normal(path) && Ends(t.nodes, p, PartsOf(path)) && Answers(t.nodes, p)
    requires Ends(t'.nodes, q, PartsOf(path)) && Answers(t'.nodes, q) && q != p
    ensures Match(t'.nodes, path) == Match(t.nodes, path) <==> p !in Table(t) && Echo(t, t', p, PartsOf(path))
  {
    var segs := PartsOf(path);
    MatchOnNormal(t.nodes, path);
    EndDecides(t.nodes, path, p);
    EndDecides(t'.nodes, path, q);
    if q in t.nodes {
      EndsEarlier(t, t', q, segs);
      OneEnd(t.nodes, p, q, segs);
    }
    NewIsMountless(t, t', q);
    assert IsEcho(t, t', p, segs, q) <==> Bindings(t'.nodes, q, segs) == Bindings(t.nodes, p, segs);
    forall r | IsEcho(t, t', p, segs, r)
      ensures r == q
    {
      OneEnd(t'.nodes, q, r, segs);
    }
  }

  /** A miss stays one exactly when the walk ends at no inner node now. */
  lemma MissKeptIff(t: Trie, t': Trie, path: string)
    requires Grew(t, t') && Normal(path) && Match(t.nodes, path).Miss?
    ensures Match(t'.nodes, path) == Match(t.nodes, path) <==>
              forall q :: Ends(t'.nodes, q, PartsOf(path)) ==> Leaf(t'.nodes, q)
  {
    var p := HitHasEnd(t.nodes, path);
    var q := HitHasEnd(t'.nodes, path);
    if Match(t'.nodes, path).Hit? {
      NotMounted(t, t', path, q);
    } else {
      forall r | Ends(t'.nodes, r, PartsOf(path))
        ensures Leaf(t'.nodes, r)
      {
        assert !Answers(t'.nodes, r);
      }
    }
  }

  /** Growth brings no mount to a path that was missed. */
  lemma NotMounted(t: Trie, t': Trie, path: string, q: Pos)
    requires Grew(t, t') && Normal(path) && Match(t.nodes, path).Miss? && Ends(t'.nodes, q, PartsOf(path))
    ensures t'.nodes[q].mount.None?
  {
    if q in t.nodes {
      EndsEarlier(t, t', q, PartsOf(path));
      EndDecides(t.nodes, path, q);
      SameMount(t, t', q);
    } else {
      NewIsMountless(t, t', q);
    }
  }

  /** The condition for all normal paths at once. */
  ghost predicate Kept(t: Trie, t': Trie, segs: seq<string>) {
    && (forall p :: Ends(t.nodes, p, segs) && Answers(t.nodes, p) ==>
          Ends(t'.nodes, p, segs) || (p !in Table(t) && Echo(t, t', p, segs)))
    && ((forall p :: Ends(t.nodes, p, segs) ==> !Answers(t.nodes, p)) ==>
          forall q :: Ends(t'.nodes, q, segs) ==> Leaf(t'.nodes, q))
  }

  /** Growth keeps the answer of a lookup, whatever it was, exactly under that condition. */
  lemma LookupKeptIff(t: Trie, t': Trie, path: string)
    requires Grew(t, t') && Normal(path)
    ensures Match(t'.nodes, path) == Match(t.nodes, path) <==> Kept(t, t', PartsOf(path))
  {
    var segs := PartsOf(path);
    MatchOnNormal(t.nodes, path);
    var p := HitHasEnd(t.nodes, path);
    if Match(t.nodes, path).Hit? {
      HitKeptIff(t, t', path, p);
      forall q | Ends(t.nodes, q, segs)
        ensures q == p
      {
        OneEnd(t.nodes, p, q, segs);
      }
    } else {
      MissKeptIff(t, t', path);
    }
  }

  // ---- add, then remove ----

  /** `q` is `p` or above it. */
  ghost predicate OnWay(q: Pos, p: Pos) {
    q == p || (p.Child? && OnWay(q, p.up))
  }

  lemma {:induction false} OnWayPrefix(q: Pos, parts: seq<string>)
    requires OnWay(q, PosOf(parts))
    ensures Depth(q) <= |parts| && q == PosOf(parts[..Depth(q)])
    decreases |parts|
  {
    DepthOf(parts);
    if q == PosOf(parts) {
      assert parts[..|parts|] == parts;
    } else {
      OnWayPrefix(q, Init(parts));
      assert Init(parts)[..Depth(q)] == parts[..Depth(q)];
    }
  }

  lemma {:induction false} PrefixOnWay(parts: seq<string>, k: nat)
    requires k <= |parts|
    ensures OnWay(PosOf(parts[..k]), PosOf(parts))
    decreases |parts|
  {
    if k == |parts| {
      assert parts[..k] == parts;
    } else {
      PrefixOnWay(Init(parts), k);
      assert Init(parts)[..k] == parts[..k];
    }
  }

  /** A completed walk of `add` creates exactly the missing nodes on the way to the path's position. */
  lemma {:induction false} GrowKeys(ns: Nodes, parts: seq<string>, q: Pos)
    requires Root in ns && Grow(ns, parts).err.None?
    ensures q in Grow(ns, parts).nodes <==> q in ns || OnWay(q, PosOf(parts))
    decreases |parts|
  {
    if parts != [] {
      GrowKeys(ns, Init(parts), q);
    }
  }

  /** Adding and removing leaves the router exactly as the walk of `add` grew it. */
  lemma AddThenRemove(t: Trie, m: MountEntry)
    requires Inv(t) && Add(t, m).1.Added?
    ensures var t2 := Remove(Add(t, m).0, m.path).0;
            t2.nodes == Grow(t.nodes, CleanParts(m.path).value).nodes && Grew(t, t2)
    ensures Grow(t.nodes, CleanParts(m.path).value).err.None?
  {
    RemoveUndoesAdd(t, m);
    var parts := CleanParts(m.path).value;
    var g, pos := Grow(t.nodes, parts).nodes, PosOf(parts);
    assert g[pos].mount.None?;
    assert g[pos := g[pos].(mount := Some(m.(id := t.seqno + 1)))][pos := g[pos]] == g;
  }

  /** What the router will be after adding and removing the path, computed from the router before. */
  ghost function Planned(t: Trie, path: string): Trie
    requires Root in t.nodes && CleanParts(path).Some?
  {
    t.(nodes := Grow(t.nodes, CleanParts(path).value).nodes)
  }

  lemma KeptNodes(t: Trie, t1: Trie, t2: Trie, segs: seq<string>)
    requires t1.nodes == t2.nodes && Inv(t)
    ensures Kept(t, t1, segs) <==> Kept(t, t2, segs)
  {
    forall p
      ensures Echo(t, t1, p, segs) <==> Echo(t, t2, p, segs)
    {
      if q :| IsEcho(t, t1, p, segs, q) {
        assert IsEcho(t, t2, p, segs, q);
      }
      if q :| IsEcho(t, t2, p, segs, q) {
        assert IsEcho(t, t1, p, segs, q);
      }
    }
  }

  /** `remove` undoes `add` on a lookup exactly when the nodes `add` will create leave its condition intact. */
  lemma AddThenRemoveKeptIff(t: Trie, m: MountEntry, path: string)
    requires Inv(t) && Add(t, m).1.Added? && Normal(path)
    ensures var t2 := Remove(Add(t, m).0, m.path).0;
            && Root in t2.nodes
            && (Match(t2.nodes, path) == Match(t.nodes, path) <==> Kept(t, Planned(t, m.path), PartsOf(path)))
  {
    AddThenRemove(t, m);
    var t2 := Remove(Add(t, m).0, m.path).0;
    LookupKeptIff(t, t2, path);
    KeptNodes(t, Planned(t, m.path), t2, PartsOf(path));
  }

  /** In particular a miss becomes a hit exactly when its walk now ends strictly above the removed mount. */
  lemma MissTurnsIff(t: Trie, m: MountEntry, path: string)
    requires Inv(t) && Add(t, m).1.Added? && Normal(path) && Match(t.nodes, path).Miss?
    ensures var t2, parts, segs := Remove(Add(t, m).0, m.path).0, CleanParts(m.path).value, PartsOf(path);
            && Root in t2.nodes
            && (Match(t2.nodes, path) != Match(t.nodes, path) <==>
                  |segs| < |parts| && Ends(Planned(t, m.path).nodes, PosOf(parts[..|segs|]), segs))
  {
    var t2, parts, segs := Remove(Add(t, m).0, m.path).0, CleanParts(m.path).value, PartsOf(path);
    AddThenRemove(t, m);
    MissKeptIff(t, t2, path);
    if |segs| < |parts| && Ends(t2.nodes, PosOf(parts[..|segs|]), segs) {
      InnerOnWay(t.nodes, parts, |segs|);
    }
    forall q | Ends(t2.nodes, q, segs) && !Leaf(t2.nodes, q)
      ensures |segs| < |parts| && q == PosOf(parts[..|segs|])
    {
      NewInner(t, t2, parts, path, q);
    }
  }

  lemma InnerOnWay(ns: Nodes, parts: seq<string>, k: nat)
    requires Root in ns && Grow(ns, parts).err.None? && k < |parts|
    ensures !Leaf(Grow(ns, parts).nodes, PosOf(parts[..k]))
  {
    var child := PosOf(parts[..k + 1]);
    assert Init(parts[..k + 1]) == parts[..k];
    PrefixOnWay(parts, k + 1);
    GrowKeys(ns, parts, child);
    assert child == Child(PosOf(parts[..k]), EdgeOf(parts[k]));
  }

  /** An inner node that a missed lookup now ends at has a new child, so it lies on the way to the new path. */
  lemma NewInner(t: Trie, t2: Trie, parts: seq<string>, path: string, q: Pos)
    requires Grew(t, t2) && Normal(path) && Match(t.nodes, path).Miss?
    requires Grow(t.nodes, parts).err.None? && t2.nodes == Grow(t.nodes, parts).nodes
    requires Ends(t2.nodes, q, PartsOf(path)) && !Leaf(t2.nodes, q)
    ensures |PartsOf(path)| < |parts| && q == PosOf(parts[..|PartsOf(path)|])
  {
    var e :| Child(q, e) in t2.nodes;
    NewChildBelow(t, t2, path, q, e);
    GrowKeys(t.nodes, parts, Child(q, e));
    FitsDepth(q, PartsOf(path));
    hide Fits, Unshadowed, Match, Grow, Inv, Leaf, Normal, PartsOf;
    UpOnWay(Child(q, e), PosOf(parts));
    OnWayPrefix(Child(q, e), parts);
    OnWayPrefix(q, parts);
  }

  lemma NewChildBelow(t: Trie, t2: Trie, path: string, q: Pos, e: Edge)
    requires Grew(t, t2) && Normal(path) && Match(t.nodes, path).Miss? && Ends(t2.nodes, q, PartsOf(path))
    ensures Child(q, e) !in t.nodes
  {
    if Child(q, e) in t.nodes {
      assert NodeOk(t.nodes, Child(q, e));
      EndsEarlier(t, t2, q, PartsOf(path));
      EndDecides(t.nodes, path, q);
    }
  }

  lemma {:induction false} UpOnWay(q: Pos, p: Pos)
    requires OnWay(q, p) && q.Child?
    ensures OnWay(q.up, p)
    decreases p
  {
    if q == p {
      assert OnWay(q.up, p.up);
    } else {
      UpOnWay(q, p.up);
    }
  }

  lemma {:induction false} FitsDepth(p: Pos, segs: seq<string>)
    requires Fits(p, segs)
    ensures Depth(p) == |segs|
    decreases p
  {
    if p.Child? {
      FitsDepth(p.up, Init(segs));
    }
  }

  lemma OnEmpty(a: string, b: string, m: MountEntry)
    requires Segments([a, b]) && !IsParam(a) && b != ":" && m.path == Text([a, b])
    ensures Inv(Empty) && Add(Empty, m).1.Added? && CleanParts(m.path) == Some([a, b])
    ensures Segments([a]) && Descend(Empty.nodes, [a]) == Lost(ENOENT)
  {
    hide Accepts, Add, Inv, Table, CleanParts, PosOf, Text, Descend, Normal, Skeleton;
    var parts, segs := [a, b], [a];
    FirstIsSegment(a, b);
    TextIsNormal(parts);
    NoBareColon(a, b);
    AcceptedOnEmpty(parts);
    EmptyRouter();
    AddRefines(Empty, m);
    LostOnEmpty(a);
  }

  lemma FirstIsSegment(a: string, b: string)
    requires Segments([a, b])
    ensures Segments([a]) && GoodSegment(a)
  {
    assert [a, b][0] == a;
  }

  lemma NoBareColon(a: string, b: string)
    requires !IsParam(a) && b != ":"
    ensures ":" !in [a, b]
  {
    assert IsParam(":");
  }

  lemma LostOnEmpty(a: string)
    requires GoodSegment(a)
    ensures Descend(Empty.nodes, [a]) == Lost(ENOENT)
  {
    assert Init([a]) == [] && End([a]) == a;
    assert Descend(Empty.nodes, []) == At(Root, []);
  }

  /** The node of the first segment is where its lookup ends. */
  lemma EndsAtFirst(ns: Nodes, a: string)
    requires Root in ns && !IsParam(a) && PosOf([a]) in ns
    ensures PosOf([a]) == Child(Root, Static(a)) && Ends(ns, PosOf([a]), [a]) && Bindings(ns, PosOf([a]), [a]) == []
  {
    assert Init([a]) == [] && End([a]) == a && PosOf([]) == Root;
    assert Fits(Root, []) && Unshadowed(ns, Root, []) && Bindings(ns, Root, []) == [];
  }

  /** So on an empty router, mounting and unmounting "/a/b" turns the miss on "/a" into a hit without a mount. */
  lemma DeadBranchAnswers(a: string, b: string, m: MountEntry)
    requires Segments([a, b]) && !IsParam(a) && b != ":" && m.path == Text([a, b])
    ensures Add(Empty, m).1.Added? && Normal(Text([a]))
    ensures var t2 := Remove(Add(Empty, m).0, m.path).0;
            && Root in t2.nodes
            && Match(Empty.nodes, Text([a])) == Miss(ENOENT) && Match(t2.nodes, Text([a])) == Hit(None, [])
  {
    var parts, segs := [a, b], [a];
    OnEmpty(a, b, m);
    TextIsNormal(segs);
    MatchOnNormal(Empty.nodes, Text(segs));
    AddThenRemove(Empty, m);
    var t2 := Remove(Add(Empty, m).0, m.path).0;
    assert parts[..1] == segs;
    PrefixOnWay(parts, 1);
    GrowKeys(Empty.nodes, parts, PosOf(segs));
    EndsAtFirst(t2.nodes, a);
    InnerOnWay(Empty.nodes, parts, 1);
    hide Inv, Add, Remove, Grow, PosOf, Fits, Unshadowed, Descend, Match, Text, Normal;
    NotMounted(Empty, t2, Text(segs), PosOf(segs));
    EndDecides(t2.nodes, Text(segs), PosOf(segs));
  }
}
