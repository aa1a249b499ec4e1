/**
 * core/router.go as it runs: nodes linked to their children and changed in place, proved against the
 * trie of values. Nodes are cells of a growing arena and a pointer to a node is its index.
 */
module Router {
  import opened Bytes
  import opened Paths
  import opened Entries
  import opened Params
  import opened Trie
  import T = Trie
  import opened TrieRuns
  import opened Matching
  import opened Snapshots

  type Ptr = nat

  /** One route node; an empty `children` stands for the nil map. */
  datatype Cell = Cell(children: map<string, Ptr>, param: Option<Ptr>, paramKey: string, mount: Option<MountEntry>)

  const BareCell := Cell(map[], None, "", None)

  /** The cell of position `p` holds its name and mount and links exactly its children. */
  ghost predicate CellOk(cells: seq<Cell>, at: map<Pos, Ptr>, place: seq<Pos>, ns: Nodes, p: Pos)
    requires p in at && p in ns
  {
    && at[p] < |cells| && at[p] < |place| && place[at[p]] == p
    && ns[p] == Node(cells[at[p]].paramKey, cells[at[p]].mount)
    && (forall s :: s in cells[at[p]].children ==>
          Child(p, Static(s)) in at && at[Child(p, Static(s))] == cells[at[p]].children[s])
    && (cells[at[p]].param.Some? ==>
          Child(p, Param) in at && at[Child(p, Param)] == cells[at[p]].param.value)
  }

  ghost predicate UpOk(cells: seq<Cell>, at: map<Pos, Ptr>, p: Pos) {
    p.Child? ==>
      && p.up in at && at[p.up] < |cells|
      && (p.edge.Static? ==> p.edge.name in cells[at[p.up]].children)
      && (p.edge == Param ==> cells[at[p.up]].param.Some?)
  }

  /** The arena is the tree `ns`: `at` finds a position's cell and `place` a cell's position. */
  ghost predicate Arena(cells: seq<Cell>, at: map<Pos, Ptr>, place: seq<Pos>, ns: Nodes) {
    && |place| == |cells| && at.Keys == ns.Keys && Root in at && at[Root] == 0
    && (forall p {:trigger CellOk(cells, at, place, ns, p)} :: p in at ==> CellOk(cells, at, place, ns, p))
    && (forall p {:trigger UpOk(cells, at, p)} :: p in at ==> UpOk(cells, at, p))
  }

  function Attach(c: Cell, edge: Edge, ptr: Ptr, key: string): Cell {
    match edge
    case Static(s) => c.(children := c.children[s := ptr])
    case Param => c.(param := Some(ptr), paramKey := key)
  }

  /** A child exists exactly when its parent links it. */
  lemma LinkedIff(cells: seq<Cell>, at: map<Pos, Ptr>, place: seq<Pos>, ns: Nodes, p: Pos, edge: Edge)
    requires Arena(cells, at, place, ns) && p in at
    ensures at[p] < |cells| && ns[p] == Node(cells[at[p]].paramKey, cells[at[p]].mount)
    ensures edge.Static? ==> (Child(p, edge) in ns <==> edge.name in cells[at[p]].children)
    ensures edge.Static? && Child(p, edge) in ns ==> at[Child(p, edge)] == cells[at[p]].children[edge.name]
    ensures edge == Param ==> (Child(p, edge) in ns <==> cells[at[p]].param.Some?)
    ensures edge == Param && Child(p, edge) in ns ==> at[Child(p, edge)] == cells[at[p]].param.value
  {
    assert CellOk(cells, at, place, ns, p);
    assert Child(p, edge) in at ==> UpOk(cells, at, Child(p, edge));
  }

  /** Appending a bare cell and linking it under `p` adds one bare node. */
  lemma AttachKeepsArena(cells: seq<Cell>, at: map<Pos, Ptr>, place: seq<Pos>, ns: Nodes,
                         p: Pos, edge: Edge, key: string)
    requires Arena(cells, at, place, ns) && p in at && Child(p, edge) !in at
    requires edge.Static? ==> key == ns[p].paramKey
    ensures at[p] < |cells|
    ensures Arena(cells[at[p] := Attach(cells[at[p]], edge, |cells|, key)] + [BareCell],
                  at[Child(p, edge) := |cells|], place + [Child(p, edge)],
                  ns[p := ns[p].(paramKey := key)][Child(p, edge) := Bare])
  {
    assert CellOk(cells, at, place, ns, p);
    var child := Child(p, edge);
    var cells' := cells[at[p] := Attach(cells[at[p]], edge, |cells|, key)] + [BareCell];
    var at', place' := at[child := |cells|], place + [child];
    var ns' := ns[p := ns[p].(paramKey := key)][child := Bare];
    forall q | q in at'
      ensures CellOk(cells', at', place', ns', q)
    {
      assert q in at ==> CellOk(cells, at, place, ns, q);
    }
    forall q | q in at'
      ensures UpOk(cells', at', q)
    {
      if q in at {
        assert UpOk(cells, at, q);
        assert q.Child? ==> CellOk(cells, at, place, ns, q.up);
      }
    }
  }

  /** Changing a cell's mount keeps every cell's links; different positions have different cells. */
  lemma MountKeepsCell(cells: seq<Cell>, at: map<Pos, Ptr>, place: seq<Pos>, ns: Nodes,
                       p: Pos, m: Option<MountEntry>, q: Pos)
    requires Arena(cells, at, place, ns) && p in at && q in at && at[p] < |cells|
    ensures var cells', ns' := cells[at[p] := cells[at[p]].(mount := m)], ns[p := ns[p].(mount := m)];
            CellOk(cells', at, place, ns', q) && UpOk(cells', at, q)
  {
    assert CellOk(cells, at, place, ns, p);
    assert CellOk(cells, at, place, ns, q);
    assert UpOk(cells, at, q);
    var cells' := cells[at[p] := cells[at[p]].(mount := m)];
    assert q != p ==> at[q] != at[p];
    assert cells'[at[q]].children == cells[at[q]].children && cells'[at[q]].param == cells[at[q]].param;
  }

  lemma MountKeepsArena(cells: seq<Cell>, at: map<Pos, Ptr>, place: seq<Pos>, ns: Nodes, p: Pos, m: Option<MountEntry>)
    requires Arena(cells, at, place, ns) && p in at
    ensures at[p] < |cells|
    ensures Arena(cells[at[p] := cells[at[p]].(mount := m)], at, place, ns[p := ns[p].(mount := m)])
  {
    assert CellOk(cells, at, place, ns, p);
    var cells', ns' := cells[at[p] := cells[at[p]].(mount := m)], ns[p := ns[p].(mount := m)];
    forall q | q in at
      ensures CellOk(cells', at, place, ns', q)
    {
      MountKeepsCell(cells, at, place, ns, p, m, q);
    }
    forall q | q in at
      ensures UpOk(cells', at, q)
    {
      MountKeepsCell(cells, at, place, ns, p, m, q);
    }
  }

  datatype Lookup = Found(mount: Option<MountEntry>) | NotFound(err: Errno)

  class Router {
    var cells: seq<Cell>
    var seqno: nat
    ghost var at: map<Pos, Ptr>
    ghost var place: seq<Pos>
    ghost var nodes: Nodes

    ghost predicate Shaped()
      reads this
    {
      Arena(cells, at, place, nodes)
    }

    ghost predicate Points(n: Ptr, p: Pos)
      reads this
    {
      p in at && at[p] == n
    }

    ghost function Value(): Trie
      reads this
    {
      Trie(nodes, seqno)
    }

    ghost predicate Valid()
      reads this
    {
      Shaped() && Inv(Value())
    }

    constructor ()
      ensures Valid() && Value() == Empty
    {
      cells, seqno := [BareCell], 0;
      at, place, nodes := map[Root := 0], [Root], Empty.nodes;
      new;
      assert CellOk(cells, at, place, nodes, Root) && UpOk(cells, at, Root);
      assert NodeOk(Empty.nodes, Root);
    }

    /** Creates a node and links it under `n`; `add` does this where its walk finds none. */
    method NewChild(n: Ptr, edge: Edge, key: string, ghost p: Pos) returns (c: Ptr)
      requires Shaped() && Points(n, p) && Child(p, edge) !in nodes
      requires edge.Static? ==> key == nodes[p].paramKey
      modifies this`cells, this`at, this`place, this`nodes
      ensures Shaped() && Points(c, Child(p, edge))
      ensures nodes == old(nodes)[p := old(nodes[p]).(paramKey := key)][Child(p, edge) := Bare]
    {
      AttachKeepsArena(cells, at, place, nodes, p, edge, key);
      c := |cells|;
      cells := cells[n := Attach(cells[n], edge, c, key)] + [BareCell];
      at, place := at[Child(p, edge) := c], place + [Child(p, edge)];
      nodes := nodes[p := nodes[p].(paramKey := key)][Child(p, edge) := Bare];
    }

    /** One turn of the loop in `add`. */
    method AddTurn(n: Ptr, seg: string, paramCount: nat, ghost p: Pos) returns (next: Ptr, err: Option<Errno>)
      requires Shaped() && Points(n, p) && p in nodes && paramCount == ParamCount(p)
      modifies this`cells, this`at, this`place, this`nodes
      ensures Shaped() && GrowStep(old(nodes), p, seg) == Grown(nodes, err)
      ensures err.None? ==> Points(next, Child(p, EdgeOf(seg)))
    {
      next, err := n, None;
      LinkedIff(cells, at, place, nodes, p, EdgeOf(seg));
      if IsParam(seg) {
        if paramCount + 1 > INLINE_PARAMS { return n, Some(EINVAL); }
        var key := seg[1..];
        if key == "" { return n, Some(EINVAL); }
        if cells[n].param.None? {
          next := NewChild(n, Param, key, p);
        } else if cells[n].paramKey != key {
          return n, Some(EEXIST);
        } else {
          next := cells[n].param.value;
        }
      } else if seg !in cells[n].children {
        next := NewChild(n, Static(seg), cells[n].paramKey, p);
        assert old(nodes)[p := old(nodes[p])] == old(nodes);
      } else {
        next := cells[n].children[seg];
      }
    }

    /** The loop of `add`. */
    method GrowAll(parts: seq<string>) returns (n: Ptr, err: Option<Errno>)
      requires Shaped()
      modifies this`cells, this`at, this`place, this`nodes
      ensures Shaped() && Root in old(nodes) && Grow(old(nodes), parts) == Grown(nodes, err)
      ensures err.None? ==> Points(n, PosOf(parts))
    {
      n, err := 0, None;
      var paramCount := 0;
      for i := 0 to |parts|
        invariant Shaped() && Grow(old(nodes), parts[..i]) == Grown(nodes, None)
        invariant Points(n, PosOf(parts[..i]))
        invariant paramCount == ParamCount(PosOf(parts[..i])) && err == None
      {
        GrowTurn(old(nodes), parts, parts[..i], i);
        n, err := AddTurn(n, parts[i], paramCount, PosOf(parts[..i]));
        if err.Some? {
          GrowStops(old(nodes), parts, i + 1);
          return;
        }
        if IsParam(parts[i]) { paramCount := paramCount + 1; }
      }
      assert parts[..|parts|] == parts;
    }

    method SetMount(n: Ptr, m: Option<MountEntry>, ghost p: Pos)
      requires Shaped() && Points(n, p)
      modifies this`cells, this`nodes
      ensures Shaped() && p in old(nodes) && nodes == old(nodes)[p := old(nodes[p]).(mount := m)]
    {
      MountKeepsArena(cells, at, place, nodes, p, m);
      cells := cells[n := cells[n].(mount := m)];
      nodes := nodes[p := nodes[p].(mount := m)];
    }

    method Add(m: MountEntry) returns (r: AddResult)
      requires Valid()
      modifies this
      ensures Valid() && T.Add(old(Value()), m) == (Value(), r)
    {
      AddKeepsInv(Value(), m);
      hide Grow, Skeleton, Stored, CellOk, UpOk, PosOf, CleanParts;
      match CleanParts(m.path) {
        case None =>
          return NotAdded(EINVAL);
        case Some(parts) =>
          var n, err := GrowAll(parts);
          if err.Some? { return NotAdded(err.value); }
          LinkedIff(cells, at, place, nodes, PosOf(parts), Param);
          if cells[n].mount.Some? { return NotAdded(EEXIST); }
          seqno := seqno + 1;
          var e := m.(id := seqno);
          SetMount(n, Some(e), PosOf(parts));
          return Added(e);
      }
    }

    /** The loop of `remove`, which ignores the parameter names the path spells. */
    method Find(parts: seq<string>) returns (n: Option<Ptr>)
      requires Valid()
      ensures n.Some? <==> PosOf(parts) in nodes
      ensures n.Some? ==> Points(n.value, PosOf(parts)) && n.value < |cells|
      ensures n.Some? ==> cells[n.value].mount == nodes[PosOf(parts)].mount
    {
      var cur: Ptr := 0;
      for i := 0 to |parts|
        invariant Points(cur, PosOf(parts[..i]))
      {
        ghost var p := PosOf(parts[..i]);
        Snoc(parts[..i], parts[i]);
        assert parts[..i + 1] == parts[..i] + [parts[i]];
        LinkedIff(cells, at, place, nodes, p, EdgeOf(parts[i]));
        if IsParam(parts[i]) {
          if cells[cur].param.None? {
            MissingStays(nodes, parts, i + 1);
            return None;
          }
          cur := cells[cur].param.value;
        } else {
          if parts[i] !in cells[cur].children {
            MissingStays(nodes, parts, i + 1);
            return None;
          }
          cur := cells[cur].children[parts[i]];
        }
      }
      assert parts[..|parts|] == parts;
      LinkedIff(cells, at, place, nodes, PosOf(parts), Param);
      return Some(cur);
    }

    method Remove(path: string) returns (r: RemoveResult)
      requires Valid()
      modifies this
      ensures Valid() && T.Remove(old(Value()), path) == (Value(), r)
    {
      RemoveKeepsInv(Value(), path);
      match CleanParts(path) {
        case None =>
          return NotRemoved(EINVAL);
        case Some(parts) =>
          var n := Find(parts);
          if n.None? { return NotRemoved(ENOENT); }
          match cells[n.value].mount {
            case None =>
              return NotRemoved(ENOENT);
            case Some(e) =>
              SetMount(n.value, None, PosOf(parts));
              return Removed(e);
          }
      }
    }

    /** The recursive walk of `snapshot`; the order of a node's static children is left open. */
    method Collect(n: Ptr, ghost a: Pos) returns (out: seq<MountEntry>)
      requires Valid() && Points(n, a)
      ensures Lists(Table(Value()), out, MountedUnder(Table(Value()), a))
      decreases Subtree(nodes, a)
    {
      ghost var tab := Table(Value());
      LinkedIff(cells, at, place, nodes, a, Param);
      out := OwnMount(n, a);
      var names := cells[n].children.Keys;
      ghost var done: set<Edge> := {};
      while names != {}
        invariant names <= cells[n].children.Keys
        invariant forall s :: s in cells[n].children && s !in names <==> Static(s) in done
        invariant Param !in done
        invariant Lists(tab, out, Walked(tab, a, done))
        decreases names
      {
        var s :| s in names;
        LinkedIff(cells, at, place, nodes, a, Static(s));
        SubtreeShrinks(nodes, a, Static(s));
        var sub := Collect(cells[n].children[s], Child(a, Static(s)));
        WalkedOneMore(tab, a, done, Static(s));
        ListsConcat(tab, out, sub, Walked(tab, a, done), MountedUnder(tab, Child(a, Static(s))));
        out, names, done := out + sub, names - {s}, done + {Static(s)};
      }
      if cells[n].param.Some? {
        SubtreeShrinks(nodes, a, Param);
        var sub := Collect(cells[n].param.value, Child(a, Param));
        WalkedOneMore(tab, a, done, Param);
        ListsConcat(tab, out, sub, Walked(tab, a, done), MountedUnder(tab, Child(a, Param)));
        out, done := out + sub, done + {Param};
      }
      AllEdgesDone(cells, at, place, nodes, a, done);
      WalkedAll(nodes, a, done);
    }

    method OwnMount(n: Ptr, ghost a: Pos) returns (out: seq<MountEntry>)
      requires Valid() && Points(n, a)
      ensures Lists(Table(Value()), out, Walked(Table(Value()), a, {}))
    {
      LinkedIff(cells, at, place, nodes, a, Param);
      out := if cells[n].mount.Some? then [cells[n].mount.value] else [];
      if a in Table(Value()) {
        EntryPlace(Value(), a);
      }
    }

    /** `snapshot`: every mounted entry, once. */
    method Snapshot() returns (out: seq<MountEntry>)
      requires Valid()
      ensures Listing(Value(), out)
    {
      out := Collect(0, Root);
      ghost var tab := Table(Value());
      forall p | p in tab
        ensures p in MountedUnder(tab, Root)
      {
        AllUnderRoot(p);
      }
      assert MountedUnder(tab, Root) == tab.Keys;
    }

    /** The recursive walk of `count`. */
    method CountFrom(n: Ptr, ghost a: Pos) returns (c: nat)
      requires Valid() && Points(n, a)
      ensures c == |MountedUnder(Table(Value()), a)|
      decreases Subtree(nodes, a), 1
    {
      ghost var done: set<Edge>;
      c, done := CountStatics(n, a);
      LinkedIff(cells, at, place, nodes, a, Param);
      if cells[n].param.Some? {
        SubtreeShrinks(nodes, a, Param);
        var sub := CountFrom(cells[n].param.value, Child(a, Param));
        WalkedOneMore(Table(Value()), a, done, Param);
        c, done := c + sub, done + {Param};
      }
      AllEdgesDone(cells, at, place, nodes, a, done);
      WalkedAll(nodes, a, done);
    }

    /** The node itself and its static children. */
    method CountStatics(n: Ptr, ghost a: Pos) returns (c: nat, ghost done: set<Edge>)
      requires Valid() && Points(n, a)
      ensures n < |cells| && forall s :: s in cells[n].children <==> Static(s) in done
      ensures Param !in done && c == |Walked(Table(Value()), a, done)|
      decreases Subtree(nodes, a), 0
    {
      hide Walked, MountedUnder, Subtree, Skeleton, Stored, CellOk, UpOk;
      ghost var tab := Table(Value());
      LinkedIff(cells, at, place, nodes, a, Param);
      c := if cells[n].mount.Some? then 1 else 0;
      MountedIff(a);
      WalkedNothing(tab, a);
      var names := cells[n].children.Keys;
      done := {};
      while names != {}
        invariant names <= cells[n].children.Keys
        invariant forall s :: s in cells[n].children && s !in names <==> Static(s) in done
        invariant Param !in done && c == |Walked(tab, a, done)|
        decreases names
      {
        var s :| s in names;
        LinkedIff(cells, at, place, nodes, a, Static(s));
        SubtreeShrinks(nodes, a, Static(s));
        var sub := CountFrom(cells[n].children[s], Child(a, Static(s)));
        WalkedOneMore(tab, a, done, Static(s));
        c, names, done := c + sub, names - {s}, done + {Static(s)};
      }
    }

    lemma MountedIff(a: Pos)
      requires Valid() && a in nodes
      ensures a in Table(Value()) <==> nodes[a].mount.Some?
    {
    }

    /** `count` is the size of the map of mounts. */
    method Count() returns (c: nat)
      requires Valid()
      ensures c == |Table(Value())|
    {
      c := CountFrom(0, Root);
      ghost var tab := Table(Value());
      forall p | p in tab
        ensures p in MountedUnder(tab, Root)
      {
        AllUnderRoot(p);
      }
      assert MountedUnder(tab, Root) == tab.Keys;
    }

    /** `nextRoute`: the static child if there is one, else the parameter child. */
    method NextRoute(n: Ptr, seg: string, params: ParamSet, ghost p: Pos) returns (next: Option<Ptr>)
      requires Shaped() && Points(n, p) && p in nodes && params.Valid() && GoodSegment(seg)
      modifies params, params.slots
      ensures params.Valid()
      ensures var w := Turn(nodes, p, old(params.Pairs()), seg);
              if next.Some? then w.At? && Points(next.value, w.pos) && params.Pairs() == w.params
              else w == Lost(ENOENT)
    {
      LinkedIff(cells, at, place, nodes, p, Static(seg));
      LinkedIff(cells, at, place, nodes, p, Param);
      if seg in cells[n].children { return Some(cells[n].children[seg]); }
      if cells[n].param.None? { return None; }
      if cells[n].paramKey != "" { params.Set(cells[n].paramKey, seg); }
      return cells[n].param;
    }

    method Match(path: string) returns (out: Lookup, params: ParamSet)
      requires Valid()
      ensures fresh(params) && fresh(params.slots) && params.Valid()
      ensures Matching.Match(nodes, path)
           == if out.Found? then Hit(out.mount, params.Pairs()) else Miss(out.err)
    {
      params := new ParamSet();
      if path == "" || path[0] != '/' { return NotFound(EINVAL), params; }
      if DoubleSlash(path) { return NotFound(EINVAL), params; }
      var n: Option<Ptr>, err := Some(0), EINVAL;
      ghost var p := Root;
      if path != "/" {
        ghost var cuts := LayOut(path, 1);
        n, err, p := Scan(path, params, PartsOf(path), cuts);
      }
      if n.None? { return NotFound(err), params; }
      LeafIff(cells, at, place, nodes, p);
      LinkedIff(cells, at, place, nodes, p, Param);
      var c := cells[n.value];
      if c.mount.None? && c.children == map[] && c.param.None? { return NotFound(ENOENT), params; }
      return Found(c.mount), params;
    }

    /** The index scanner of `match`: cuts the path at each slash and descends segment by segment. */
    method Scan(path: string, params: ParamSet, ghost segs: seq<string>, ghost cuts: seq<nat>)
      returns (n: Option<Ptr>, err: Errno, ghost p: Pos)
      requires Valid() && params.Valid() && params.Pairs() == [] && segs != [] && Laid(path, 1, segs, cuts)
      modifies params, params.slots
      ensures params.Valid()
      ensures var w := Descend(nodes, segs);
              if n.Some? then w == At(p, params.Pairs()) && Points(n.value, p) else w == Lost(err)
    {
      hide Descend, Skeleton, Stored, CellOk, UpOk;
      assert segs[..0] == [] && Descend(nodes, []) == At(Root, []) by { DescendNothing(nodes); }
      var cur: Ptr, start := 0, 1;
      ghost var k := 0;
      p := Root;
      assert LaidAt(path, segs, cuts, 0);
      while start <= |path|
        invariant 0 <= k < |segs| && start == cuts[k] && start <= |path|
        invariant params.Valid() && Points(cur, p)
        invariant Descend(nodes, segs[..k]) == At(p, params.Pairs())
        decreases |path| - start
      {
        assert LaidAt(path, segs, cuts, k);
        var end := NextSlash(path, start);
        assert end == cuts[k + 1] - 1;
        var seg := path[start..end];
        DescendTurn(nodes, segs, segs[..k], k);
        if !GoodSegment(seg) {
          LostStays(nodes, segs, k + 1);
          return None, EINVAL, p;
        }
        ghost var w := Turn(nodes, p, params.Pairs(), seg);
        var next := NextRoute(cur, seg, params, p);
        if next.None? {
          LostStays(nodes, segs, k + 1);
          return None, ENOENT, p;
        }
        cur, p, k := next.value, w.pos, k + 1;
        if end == |path| { break; }
        start := end + 1;
        assert LaidAt(path, segs, cuts, k);
      }
      assert segs[..|segs|] == segs;
      return Some(cur), EINVAL, p;
    }
  }

  /** Segment `k` lies between two cuts, ends at a slash or at the end of the path, and has none inside. */
  ghost predicate LaidAt(path: string, segs: seq<string>, cuts: seq<nat>, k: nat)
    requires |cuts| == |segs| + 1 && k < |segs|
  {
    && cuts[k] < cuts[k + 1] <= |path| + 1
    && path[cuts[k]..cuts[k + 1] - 1] == segs[k]
    && (forall i :: cuts[k] <= i < cuts[k + 1] - 1 ==> path[i] != '/')
    && (cuts[k + 1] == |path| + 1 <==> k + 1 == |segs|)
    && (k + 1 < |segs| ==> path[cuts[k + 1] - 1] == '/')
  }

  /** Where the segments of the path from `start` on begin. */
  ghost predicate Laid(path: string, start: nat, segs: seq<string>, cuts: seq<nat>) {
    && |cuts| == |segs| + 1 && cuts[0] == start
    && forall k :: 0 <= k < |segs| ==> LaidAt(path, segs, cuts, k)
  }

  lemma LayOne(path: string, start: nat, end: nat, tail: seq<string>, rest: seq<nat>)
    requires start <= end < |path| && path[end] == '/' && forall i :: start <= i < end ==> path[i] != '/'
    requires tail != [] && Laid(path, end + 1, tail, rest)
    ensures Laid(path, start, [path[start..end]] + tail, [start] + rest)
  {
    var segs, cuts := [path[start..end]] + tail, [start] + rest;
    forall k | 0 <= k < |segs|
      ensures LaidAt(path, segs, cuts, k)
    {
      if k > 0 {
        assert LaidAt(path, tail, rest, k - 1);
        assert cuts[k] == rest[k - 1] && cuts[k + 1] == rest[k] && segs[k] == tail[k - 1];
      } else {
        assert LaidAt(path, tail, rest, 0);
      }
    }
  }

  ghost function SlashFrom(path: string, start: nat): (end: nat)
    requires start <= |path|
    ensures start <= end <= |path| && (end == |path| || path[end] == '/')
    ensures forall i :: start <= i < end ==> path[i] != '/'
    decreases |path| - start
  {
    if start == |path| || path[start] == '/' then start else SlashFrom(path, start + 1)
  }

  lemma {:induction false} LayOut(path: string, start: nat) returns (cuts: seq<nat>)
    requires start <= |path|
    ensures Laid(path, start, Split(path[start..], '/'), cuts)
    decreases |path| - start
  {
    var end := SlashFrom(path, start);
    CutSegment(path, start, end);
    if end == |path| {
      cuts := [start, end + 1];
      assert LaidAt(path, [path[start..end]], cuts, 0);
    } else {
      var rest := LayOut(path, end + 1);
      LayOne(path, start, end, Split(path[end + 1..], '/'), rest);
      cuts := [start] + rest;
    }
  }

  method NextSlash(path: string, start: nat) returns (end: nat)
    requires start <= |path|
    ensures start <= end <= |path| && (end == |path| || path[end] == '/')
    ensures forall i :: start <= i < end ==> path[i] != '/'
  {
    end := start;
    while end < |path| && path[end] != '/'
      invariant start <= end <= |path| && forall i :: start <= i < end ==> path[i] != '/'
    {
      end := end + 1;
    }
  }

  lemma CutSegment(path: string, start: nat, end: nat)
    requires start <= end <= |path| && (end == |path| || path[end] == '/')
    requires forall i :: start <= i < end ==> path[i] != '/'
    ensures Split(path[start..], '/')
         == [path[start..end]] + (if end == |path| then [] else Split(path[end + 1..], '/'))
  {
    var s, k := path[start..], end - start;
    assert s[..k] == path[start..end];
    SplitAt(s, k, '/');
    assert end < |path| ==> s[k + 1..] == path[end + 1..];
  }

  lemma GrowSnoc(ns: Nodes, init: seq<string>, seg: string)
    requires Root in ns && Grow(ns, init).err.None?
    ensures PosOf(init + [seg]) == Child(PosOf(init), EdgeOf(seg))
    ensures Grow(ns, init + [seg]) == GrowStep(Grow(ns, init).nodes, PosOf(init), seg)
  {
    Snoc(init, seg);
  }

  lemma TakeSnoc(parts: seq<string>, i: nat)
    requires i < |parts|
    ensures parts[..i + 1] == parts[..i] + [parts[i]]
  {
  }

  lemma GrowTurn(ns: Nodes, parts: seq<string>, init: seq<string>, i: nat)
    requires Root in ns && i < |parts| && init == parts[..i] && Grow(ns, init).err.None?
    ensures PosOf(parts[..i + 1]) == Child(PosOf(init), EdgeOf(parts[i]))
    ensures Grow(ns, parts[..i + 1]) == GrowStep(Grow(ns, init).nodes, PosOf(init), parts[i])
  {
    TakeSnoc(parts, i);
    GrowSnoc(ns, init, parts[i]);
  }

  lemma DescendNothing(ns: Nodes)
    requires Root in ns
    ensures Descend(ns, []) == At(Root, [])
  {
  }

  lemma DescendSnoc(ns: Nodes, init: seq<string>, seg: string)
    requires Root in ns && Descend(ns, init).At?
    ensures Descend(ns, init + [seg]) == Turn(ns, Descend(ns, init).pos, Descend(ns, init).params, seg)
  {
    Snoc(init, seg);
  }

  lemma DescendTurn(ns: Nodes, segs: seq<string>, init: seq<string>, i: nat)
    requires Root in ns && i < |segs| && init == segs[..i] && Descend(ns, init).At?
    ensures Descend(ns, segs[..i + 1]) == Turn(ns, Descend(ns, init).pos, Descend(ns, init).params, segs[i])
  {
    TakeSnoc(segs, i);
    DescendSnoc(ns, init, segs[i]);
  }

  lemma {:induction false} MissingStays(ns: Nodes, parts: seq<string>, k: nat)
    requires Skeleton(ns) && k <= |parts| && PosOf(parts[..k]) !in ns
    ensures PosOf(parts) !in ns
    decreases |parts|
  {
    if k < |parts| {
      assert Init(parts)[..k] == parts[..k];
      MissingStays(ns, Init(parts), k);
      assert PosOf(parts) in ns ==> NodeOk(ns, PosOf(parts));
    } else {
      assert parts[..k] == parts;
    }
  }

  lemma {:induction false} LostStays(ns: Nodes, segs: seq<string>, k: nat)
    requires Root in ns && k <= |segs| && Descend(ns, segs[..k]).Lost?
    ensures Descend(ns, segs) == Descend(ns, segs[..k])
    decreases |segs|
  {
    if k < |segs| {
      assert Init(segs)[..k] == segs[..k];
      LostStays(ns, Init(segs), k);
    } else {
      assert segs[..k] == segs;
    }
  }

  lemma AllEdgesDone(cells: seq<Cell>, at: map<Pos, Ptr>, place: seq<Pos>, ns: Nodes, a: Pos, done: set<Edge>)
    requires Arena(cells, at, place, ns) && a in at && at[a] < |cells|
    requires forall s :: s in cells[at[a]].children ==> Static(s) in done
    requires cells[at[a]].param.Some? ==> Param in done
    ensures forall e :: Child(a, e) in ns ==> e in done
  {
    forall e | Child(a, e) in ns
      ensures e in done
    {
      LinkedIff(cells, at, place, ns, a, e);
    }
  }

  /** A node without children in the tree is a cell without links. */
  lemma LeafIff(cells: seq<Cell>, at: map<Pos, Ptr>, place: seq<Pos>, ns: Nodes, p: Pos)
    requires Arena(cells, at, place, ns) && p in at
    ensures at[p] < |cells| && (Leaf(ns, p) <==> cells[at[p]].children == map[] && cells[at[p]].param.None?)
  {
    LinkedIff(cells, at, place, ns, p, Param);
    var c := cells[at[p]];
    if Leaf(ns, p) {
      forall s
        ensures s !in c.children
      {
        LinkedIff(cells, at, place, ns, p, Static(s));
      }
      assert c.children == map[];
    } else {
      var e :| Child(p, e) in ns;
      LinkedIff(cells, at, place, ns, p, e);
    }
  }

  /** Once the walk objects, later segments change nothing. */
  lemma {:induction false} GrowStops(ns: Nodes, parts: seq<string>, k: nat)
    requires Root in ns && k <= |parts| && Grow(ns, parts[..k]).err.Some?
    ensures Grow(ns, parts) == Grow(ns, parts[..k])
    decreases |parts|
  {
    if k < |parts| {
      assert Init(parts)[..k] == parts[..k];
      GrowStops(ns, Init(parts), k);
    } else {
      assert parts[..k] == parts;
    }
  }
}
