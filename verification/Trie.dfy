/**
 * core/router.go as a value: a trie is the map from node positions to nodes. A position is the list of
 * edges from the root; parameter names live on the parent node, so an edge does not carry one.
 * Walks go from the root down, so they are given by recursion on the path without its last segment.
 */
module Trie {
  import opened Bytes
  import opened Paths
  import opened Entries
  import opened Params

  datatype Edge = Static(name: string) | Param

  datatype Pos = Root | Child(up: Pos, edge: Edge)

  datatype Node = Node(paramKey: string, mount: Option<MountEntry>)

  type Nodes = map<Pos, Node>

  const Bare := Node("", None)

  /** `seqno` is the counter behind entry identifiers. */
  datatype Trie = Trie(nodes: Nodes, seqno: nat)

  const Empty := Trie(map[Root := Bare], 0)

  datatype AddResult = Added(entry: MountEntry) | NotAdded(err: Errno)
  datatype RemoveResult = Removed(entry: MountEntry) | NotRemoved(err: Errno)

  // ---- positions ----

  predicate IsParam(p: string) {
    p != "" && p[0] == ':'
  }

  function EdgeOf(p: string): Edge {
    if IsParam(p) then Param else Static(p)
  }

  function Init(parts: seq<string>): seq<string>
    requires parts != []
  {
    parts[..|parts| - 1]
  }

  function End(parts: seq<string>): string
    requires parts != []
  {
    parts[|parts| - 1]
  }

  function PosOf(parts: seq<string>): Pos {
    if parts == [] then Root else Child(PosOf(Init(parts)), EdgeOf(End(parts)))
  }

  function ParamCount(pos: Pos): nat {
    match pos
    case Root => 0
    case Child(up, e) => ParamCount(up) + if e == Param then 1 else 0
  }

  function Depth(pos: Pos): nat {
    match pos
    case Root => 0
    case Child(up, _) => Depth(up) + 1
  }

  // ---- add ----

  datatype Grown = Grown(nodes: Nodes, err: Option<Errno>)

  /** One turn of the loop in `add`, at node `at`: creates the missing child or objects. */
  function GrowStep(ns: Nodes, at: Pos, p: string): Grown
    requires at in ns
  {
    var child := Child(at, EdgeOf(p));
    if IsParam(p) then
      if ParamCount(at) + 1 > INLINE_PARAMS || p == ":" then Grown(ns, Some(EINVAL))
      else if child !in ns then Grown(ns[at := ns[at].(paramKey := p[1..])][child := Bare], None)
      else if ns[at].paramKey != p[1..] then Grown(ns, Some(EEXIST))
      else Grown(ns, None)
    else
      Grown(if child in ns then ns else ns[child := Bare], None)
  }

  /** The walk of `add`, up to the first objection. */
  function Grow(ns: Nodes, parts: seq<string>): (g: Grown)
    requires Root in ns
    ensures ns.Keys <= g.nodes.Keys
    ensures g.err.None? ==> PosOf(parts) in g.nodes
  {
    if parts == [] then Grown(ns, None)
    else
      var g := Grow(ns, Init(parts));
      if g.err.Some? then g else GrowStep(g.nodes, PosOf(Init(parts)), End(parts))
  }

  function Add(t: Trie, m: MountEntry): (r: (Trie, AddResult))
    requires Root in t.nodes
    ensures t.nodes.Keys <= r.0.nodes.Keys
  {
    match CleanParts(m.path)
    case None => (t, NotAdded(EINVAL))
    case Some(parts) =>
      var g, pos := Grow(t.nodes, parts), PosOf(parts);
      if g.err.Some? then (t.(nodes := g.nodes), NotAdded(g.err.value))
      else if g.nodes[pos].mount.Some? then (t.(nodes := g.nodes), NotAdded(EEXIST))
      else
        var e := m.(id := t.seqno + 1);
        (Trie(g.nodes[pos := g.nodes[pos].(mount := Some(e))], t.seqno + 1), Added(e))
  }

  // ---- remove and rename ----

  /** The walk of `remove` follows parameter edges whatever name the path spells. */
  function Remove(t: Trie, path: string): (r: (Trie, RemoveResult))
    ensures r.0.nodes.Keys == t.nodes.Keys
  {
    match CleanParts(path)
    case None => (t, NotRemoved(EINVAL))
    case Some(parts) =>
      var pos := PosOf(parts);
      if pos !in t.nodes || t.nodes[pos].mount.None? then (t, NotRemoved(ENOENT))
      else (t.(nodes := t.nodes[pos := t.nodes[pos].(mount := None)]), Removed(t.nodes[pos].mount.value))
  }

  /** `renameLocked`: remove, add under the new path, and on failure add again under the old one. */
  function Rename(t: Trie, oldPath: string, newPath: string): (Trie, Option<Errno>)
    requires Root in t.nodes
  {
    var (t1, r) := Remove(t, oldPath);
    if r.NotRemoved? then (t1, Some(r.err))
    else
      var (t2, a) := Add(t1, r.entry.(path := newPath));
      if a.Added? then (t2, None)
      else (Add(t2, r.entry.(path := oldPath)).0, Some(a.err))
  }

  // ---- the two abstractions: mounts and skeleton ----

  function Mounts(ns: Nodes): map<Pos, MountEntry> {
    map p | p in ns && ns[p].mount.Some? :: ns[p].mount.value
  }

  function Label(ns: Nodes, up: Pos, e: Edge): string {
    match e
    case Static(s) => s
    case Param => ":" + if up in ns then ns[up].paramKey else ""
  }

  /** The segments that spell a position. */
  function Spell(ns: Nodes, pos: Pos): seq<string> {
    match pos
    case Root => []
    case Child(up, e) => Spell(ns, up) + [Label(ns, up, e)]
  }

  ghost predicate NodeOk(ns: Nodes, p: Pos)
    requires p in ns
  {
    && ParamCount(p) <= INLINE_PARAMS
    && (Child(p, Param) in ns ==> ns[p].paramKey != "" && '/' !in ns[p].paramKey)
    && (p.Child? ==> p.up in ns)
    && (p.Child? && p.edge.Static? ==>
          GoodSegment(p.edge.name) && '/' !in p.edge.name && !IsParam(p.edge.name))
  }

  ghost predicate Skeleton(ns: Nodes) {
    Root in ns && forall p {:trigger NodeOk(ns, p)} :: p in ns ==> NodeOk(ns, p)
  }

  /** Every mounted entry's path cleans to the spelling of the position it is stored at. */
  ghost predicate Stored(ns: Nodes) {
    forall p :: p in ns && ns[p].mount.Some? ==> CleanParts(ns[p].mount.value.path) == Some(Spell(ns, p))
  }

  ghost predicate Inv(t: Trie) {
    Skeleton(t.nodes) && Stored(t.nodes)
  }

  /** `ns'` has all nodes of `ns`, and parameter edges keep the name they were created with. */
  ghost predicate Extends(ns: Nodes, ns': Nodes) {
    && ns.Keys <= ns'.Keys
    && forall p :: p in ns && Child(p, Param) in ns ==> ns'[p].paramKey == ns[p].paramKey
  }

  /** A segment `add` takes below `at`: within the parameter budget, named, and named as the skeleton does. */
  ghost predicate AcceptsStep(ns: Nodes, at: Pos, p: string) {
    IsParam(p) ==>
      && ParamCount(at) < INLINE_PARAMS && p != ":"
      && (at in ns && Child(at, Param) in ns ==> ns[at].paramKey == p[1..])
  }

  ghost predicate Accepts(ns: Nodes, parts: seq<string>) {
    parts == [] || (Accepts(ns, Init(parts)) && AcceptsStep(ns, PosOf(Init(parts)), End(parts)))
  }

  // ---- facts about positions ----

  lemma {:induction false} SpellStable(ns: Nodes, ns': Nodes, p: Pos)
    requires Skeleton(ns) && Extends(ns, ns') && p in ns
    ensures Spell(ns', p) == Spell(ns, p)
    decreases p
  {
    if p.Child? {
      assert NodeOk(ns, p);
      SpellStable(ns, ns', p.up);
    }
  }

  /** Parts put together one at a time. */
  lemma Snoc(init: seq<string>, p: string)
    ensures Init(init + [p]) == init && End(init + [p]) == p
    ensures PosOf(init + [p]) == Child(PosOf(init), EdgeOf(p))
    ensures Segments(init) && GoodSegment(p) && '/' !in p ==> Segments(init + [p])
  {
  }

  lemma Unsnoc(parts: seq<string>)
    requires parts != []
    ensures parts == Init(parts) + [End(parts)]
    ensures Segments(parts) ==> Segments(Init(parts)) && GoodSegment(End(parts)) && '/' !in End(parts)
  {
  }

  lemma LabelIsSegment(ns: Nodes, p: Pos)
    requires Skeleton(ns) && p in ns && p.Child?
    ensures var s := Label(ns, p.up, p.edge); GoodSegment(s) && '/' !in s && EdgeOf(s) == p.edge
  {
    assert NodeOk(ns, p);
    assert NodeOk(ns, p.up);
    if p.edge == Param {
      var s := Label(ns, p.up, p.edge);
      assert s[0] == ':' && s[1..] == ns[p.up].paramKey;
    }
  }

  /** Spelling a position gives well-formed segments that lead back to it. */
  lemma {:induction false} SpellLeadsBack(ns: Nodes, p: Pos)
    requires Skeleton(ns) && p in ns
    ensures Segments(Spell(ns, p)) && PosOf(Spell(ns, p)) == p
    decreases p
  {
    if p.Child? {
      assert NodeOk(ns, p);
      SpellLeadsBack(ns, p.up);
      LabelIsSegment(ns, p);
      Snoc(Spell(ns, p.up), Label(ns, p.up, p.edge));
    }
  }

  lemma PositionsAreDistinct(ns: Nodes, p: Pos, q: Pos)
    requires Skeleton(ns) && p in ns && q in ns && Spell(ns, p) == Spell(ns, q)
    ensures p == q
  {
    SpellLeadsBack(ns, p);
    SpellLeadsBack(ns, q);
  }

  // ---- growing the skeleton ----

  lemma ExtendsTransitive(a: Nodes, b: Nodes, c: Nodes)
    requires Extends(a, b) && Extends(b, c)
    ensures Extends(a, c)
  {
  }

  /** One new bare child keeps the skeleton when its edge is a fresh and proper one. */
  lemma NewChildKeeps(ns: Nodes, at: Pos, edge: Edge, key: string)
    requires Skeleton(ns) && at in ns && Child(at, edge) !in ns
    requires edge == Param ==> key != "" && '/' !in key && ParamCount(at) < INLINE_PARAMS
    requires edge.Static? ==>
               && GoodSegment(edge.name) && '/' !in edge.name && !IsParam(edge.name)
               && key == ns[at].paramKey
    ensures Skeleton(ns[at := ns[at].(paramKey := key)][Child(at, edge) := Bare])
  {
    var child := Child(at, edge);
    var ns' := ns[at := ns[at].(paramKey := key)][child := Bare];
    assert NodeOk(ns, at);
    assert Child(child, Param) in ns ==> NodeOk(ns, Child(child, Param));
    forall q | q in ns'
      ensures NodeOk(ns', q)
    {
      if q in ns {
        assert NodeOk(ns, q);
      }
    }
  }

  lemma GrowStepKeeps(ns: Nodes, at: Pos, p: string)
    requires Skeleton(ns) && at in ns && GoodSegment(p) && '/' !in p
    ensures var g := GrowStep(ns, at, p);
            Skeleton(g.nodes) && Extends(ns, g.nodes) && Mounts(g.nodes) == Mounts(ns)
  {
    var g, child := GrowStep(ns, at, p), Child(at, EdgeOf(p));
    if g.nodes != ns {
      var key := if IsParam(p) then p[1..] else ns[at].paramKey;
      NewChildKeeps(ns, at, EdgeOf(p), key);
      assert g.nodes == ns[at := ns[at].(paramKey := key)][child := Bare];
    }
  }

  /** Growing keeps the skeleton, all names and all mounts, and adds only nodes on the path. */
  lemma {:induction false} GrowKeeps(ns: Nodes, parts: seq<string>)
    requires Skeleton(ns) && Segments(parts)
    ensures var g := Grow(ns, parts);
            && Skeleton(g.nodes) && Extends(ns, g.nodes) && Mounts(g.nodes) == Mounts(ns)
            && (forall q :: q in g.nodes && q !in ns ==> Depth(q) <= |parts|)
    decreases |parts|
  {
    if parts != [] {
      var init, p := Init(parts), End(parts);
      GrowKeeps(ns, init);
      var g0 := Grow(ns, init);
      if g0.err.None? {
        GrowStepKeeps(g0.nodes, PosOf(init), p);
        DepthOf(init);
        ExtendsTransitive(ns, g0.nodes, Grow(ns, parts).nodes);
      }
    }
  }

  lemma GrowStepLabels(ns: Nodes, at: Pos, p: string)
    requires at in ns && GrowStep(ns, at, p).err.None?
    ensures Label(GrowStep(ns, at, p).nodes, at, EdgeOf(p)) == p
  {
    assert IsParam(p) ==> p == ":" + p[1..];
  }

  /** A completed walk ends at the path's position, spelled as the path spells it. */
  lemma {:induction false} GrowSpells(ns: Nodes, parts: seq<string>)
    requires Skeleton(ns) && Segments(parts) && Grow(ns, parts).err.None?
    ensures Spell(Grow(ns, parts).nodes, PosOf(parts)) == parts
    decreases |parts|
  {
    if parts != [] {
      var init, p := Init(parts), End(parts);
      GrowKeeps(ns, init);
      GrowSpells(ns, init);
      var g0, g := Grow(ns, init), Grow(ns, parts);
      GrowStepKeeps(g0.nodes, PosOf(init), p);
      SpellStable(g0.nodes, g.nodes, PosOf(init));
      GrowStepLabels(g0.nodes, PosOf(init), p);
      Unsnoc(parts);
      hide Skeleton, Extends, Segments, GrowStep, Label;
    }
  }

  /** The walk completes exactly on the paths the skeleton accepts. */
  lemma {:induction false} GrowIffAccepts(ns: Nodes, parts: seq<string>)
    requires Skeleton(ns) && Segments(parts)
    ensures Grow(ns, parts).err.None? <==> Accepts(ns, parts)
    decreases |parts|
  {
    if parts != [] {
      var init := Init(parts);
      GrowIffAccepts(ns, init);
      GrowKeeps(ns, init);
      var g0, child := Grow(ns, init), Child(PosOf(init), Param);
      DepthOf(init);
      assert child in g0.nodes ==> child in ns;
      assert child in ns ==> NodeOk(ns, child);
    }
  }

  lemma {:induction false} DepthOf(parts: seq<string>)
    ensures Depth(PosOf(parts)) == |parts|
    decreases |parts|
  {
    if parts != [] {
      DepthOf(Init(parts));
    }
  }
}
