/** Snapshot, Restore and DiffSnapshots (core/router.go, core/filesystem.go) on values. */
module Snapshots {
  import opened Bytes
  import opened Paths
  import opened Entries
  import opened Params
  import opened Trie
  import opened TrieRuns
  import Matching

  /** The position an entry's own path names. */
  function Place(e: MountEntry): Pos {
    match CleanParts(e.path)
    case None => Root
    case Some(parts) => PosOf(parts)
  }

  /** `es` lists the entries of `tab` at exactly the positions in `dom`, each once, in some order. */
  ghost predicate Lists(tab: map<Pos, MountEntry>, es: seq<MountEntry>, dom: set<Pos>) {
    && (forall i :: 0 <= i < |es| ==> Place(es[i]) in dom && Place(es[i]) in tab && tab[Place(es[i])] == es[i])
    && (forall p :: p in dom ==> p in tab && Place(tab[p]) == p && tab[p] in es)
    && (forall i, j :: 0 <= i < j < |es| ==> Place(es[i]) != Place(es[j]))
  }

  /** A snapshot: every mounted entry, once, in the order the maps happened to be walked. */
  ghost predicate Listing(t: Trie, es: seq<MountEntry>) {
    Lists(Table(t), es, Table(t).Keys)
  }

  lemma ListsConcat(tab: map<Pos, MountEntry>, es: seq<MountEntry>, fs: seq<MountEntry>, a: set<Pos>, b: set<Pos>)
    requires Lists(tab, es, a) && Lists(tab, fs, b) && a !! b
    ensures Lists(tab, es + fs, a + b)
  {
    forall p | p in a + b
      ensures p in tab && Place(tab[p]) == p && tab[p] in es + fs
    {
    }
  }

  /** A snapshot has as many entries as there are mounts. */
  lemma {:induction false} ListsLength(tab: map<Pos, MountEntry>, es: seq<MountEntry>, dom: set<Pos>)
    requires Lists(tab, es, dom)
    ensures |es| == |dom|
    decreases |es|
  {
    if es == [] {
      if p :| p in dom {
        assert tab[p] in es;
      }
    } else {
      var last := es[|es| - 1];
      ListsDropLast(tab, es, dom);
      ListsLength(tab, es[..|es| - 1], dom - {Place(last)});
    }
  }

  lemma ListsDropLast(tab: map<Pos, MountEntry>, es: seq<MountEntry>, dom: set<Pos>)
    requires Lists(tab, es, dom) && es != []
    ensures Lists(tab, es[..|es| - 1], dom - {Place(es[|es| - 1])})
  {
    var init, last := es[..|es| - 1], es[|es| - 1];
    forall p | p in dom - {Place(last)}
      ensures p in tab && Place(tab[p]) == p && tab[p] in init
    {
      var i :| 0 <= i < |es| && es[i] == tab[p];
      assert init[i] == tab[p];
    }
  }

  // ---- walking a subtree ----

  ghost predicate Under(p: Pos, a: Pos) {
    p == a || (p.Child? && Under(p.up, a))
  }

  lemma {:induction false} UnderDepth(p: Pos, a: Pos)
    requires Under(p, a)
    ensures Depth(p) >= Depth(a)
    decreases p
  {
    if p != a {
      UnderDepth(p.up, a);
    }
  }

  lemma {:induction false} UnderUnique(p: Pos, a: Pos, b: Pos)
    requires Under(p, a) && Under(p, b) && Depth(a) == Depth(b)
    ensures a == b
    decreases p
  {
    if p == a {
      if p != b {
        UnderDepth(p.up, b);
      }
    } else if p == b {
      UnderDepth(p.up, a);
    } else {
      UnderUnique(p.up, a, b);
    }
  }

  lemma {:induction false} UnderSome(ns: Nodes, p: Pos, a: Pos) returns (e: Edge)
    requires Skeleton(ns) && p in ns && Under(p, a) && p != a
    ensures Under(p, Child(a, e)) && Child(a, e) in ns
    decreases p
  {
    assert NodeOk(ns, p);
    if p.up == a {
      e := p.edge;
    } else {
      e := UnderSome(ns, p.up, a);
    }
  }

  lemma {:induction false} UnderUp(p: Pos, a: Pos)
    requires a.Child? && Under(p, a)
    ensures Under(p, a.up)
    decreases p
  {
    if p != a {
      UnderUp(p.up, a);
    } else {
      assert Under(a.up, a.up);
    }
  }

  /** All positions of the subtree at `a`. */
  ghost function Subtree(ns: Nodes, a: Pos): set<Pos> {
    set p | p in ns && Under(p, a)
  }

  lemma SubtreeShrinks(ns: Nodes, a: Pos, e: Edge)
    requires a in ns
    ensures Subtree(ns, Child(a, e)) < Subtree(ns, a)
  {
    forall p | p in Subtree(ns, Child(a, e))
      ensures p in Subtree(ns, a)
    {
      UnderUp(p, Child(a, e));
    }
    if Under(a, Child(a, e)) {
      UnderDepth(a, Child(a, e));
    }
    assert a in Subtree(ns, a);
  }

  /** Mounted positions at `a` or below one of the edges in `done`. */
  ghost function Walked(tab: map<Pos, MountEntry>, a: Pos, done: set<Edge>): set<Pos> {
    set p | p in tab && (p == a || exists e :: e in done && Under(p, Child(a, e)))
  }

  ghost function MountedUnder(tab: map<Pos, MountEntry>, a: Pos): set<Pos> {
    set p | p in tab && Under(p, a)
  }

  lemma WalkedNothing(tab: map<Pos, MountEntry>, a: Pos)
    ensures |Walked(tab, a, {})| == if a in tab then 1 else 0
  {
    assert Walked(tab, a, {}) == if a in tab then {a} else {};
  }

  lemma WalkedOneMore(tab: map<Pos, MountEntry>, a: Pos, done: set<Edge>, e: Edge)
    requires e !in done
    ensures Walked(tab, a, done + {e}) == Walked(tab, a, done) + MountedUnder(tab, Child(a, e))
    ensures Walked(tab, a, done) !! MountedUnder(tab, Child(a, e))
  {
    forall p | p in MountedUnder(tab, Child(a, e))
      ensures p !in Walked(tab, a, done)
    {
      UnderDepth(p, Child(a, e));
      if p in Walked(tab, a, done) {
        var d :| d in done && Under(p, Child(a, d));
        UnderUnique(p, Child(a, d), Child(a, e));
      }
    }
  }

  lemma WalkedAll(ns: Nodes, a: Pos, done: set<Edge>)
    requires Skeleton(ns) && a in ns && forall e :: Child(a, e) in ns ==> e in done
    ensures Walked(Mounts(ns), a, done) == MountedUnder(Mounts(ns), a)
  {
    var tab := Mounts(ns);
    forall p | p in MountedUnder(tab, a)
      ensures p in Walked(tab, a, done)
    {
      if p != a {
        var e := UnderSome(ns, p, a);
        assert e in done;
      }
    }
    forall p | p in Walked(tab, a, done)
      ensures Under(p, a)
    {
      if p != a {
        var e :| e in done && Under(p, Child(a, e));
        UnderUp(p, Child(a, e));
      }
    }
  }

  lemma {:induction false} AllUnderRoot(p: Pos)
    ensures Under(p, Root)
    decreases p
  {
    if p.Child? {
      AllUnderRoot(p.up);
    }
  }

  // ---- Restore ----

  function Places(es: seq<MountEntry>): set<Pos> {
    set i | 0 <= i < |es| :: Place(es[i])
  }

  lemma PlacesSnoc(es: seq<MountEntry>)
    requires es != []
    ensures Places(es) == Places(es[..|es| - 1]) + {Place(es[|es| - 1])}
  {
    var init, last := es[..|es| - 1], es[|es| - 1];
    forall p | p in Places(es)
      ensures p in Places(init) + {Place(last)}
    {
      var i :| 0 <= i < |es| && Place(es[i]) == p;
      if i < |init| {
        assert Place(init[i]) == p;
      }
    }
    forall p | p in Places(init)
      ensures p in Places(es)
    {
      var i :| 0 <= i < |init| && Place(init[i]) == p;
      assert Place(es[i]) == p;
    }
    assert Place(es[|es| - 1]) in Places(es);
  }

  ghost function RemoveAll(t: Trie, es: seq<MountEntry>): (t': Trie)
    ensures t'.nodes.Keys == t.nodes.Keys
  {
    if es == [] then t else Remove(RemoveAll(t, es[..|es| - 1]), es[|es| - 1].path).0
  }

  /** Adds in order and stops at the first refusal, without rolling back. */
  ghost function AddAll(t: Trie, es: seq<MountEntry>): (r: (Trie, Option<Errno>))
    requires Root in t.nodes
    ensures Root in r.0.nodes
  {
    if es == [] then (t, None)
    else
      var (t1, err) := AddAll(t, es[..|es| - 1]);
      if err.Some? then (t1, err)
      else
        var (t2, a) := Add(t1, es[|es| - 1]);
        (t2, if a.Added? then None else Some(a.err))
  }

  /** `Restore`: removes what the router's own snapshot lists, then adds the given entries. */
  ghost function Restore(t: Trie, current: seq<MountEntry>, es: seq<MountEntry>): (Trie, Option<Errno>)
    requires Root in t.nodes
  {
    AddAll(RemoveAll(t, current), es)
  }

  lemma RemoveOne(t: Trie, e: MountEntry)
    requires Inv(t) && CleanParts(e.path).Some?
    ensures var t' := Remove(t, e.path).0;
            Cleared(t, t', {Place(e)})
  {
    RemoveRefines(t, e.path);
  }

  /** Same skeleton, with some of the mounts gone. */
  ghost predicate Cleared(t: Trie, t': Trie, gone: set<Pos>) {
    && Inv(t') && Table(t') == Table(t) - gone
    && Extends(t.nodes, t'.nodes) && Extends(t'.nodes, t.nodes)
  }

  lemma ClearedMore(t: Trie, t1: Trie, t2: Trie, a: set<Pos>, b: set<Pos>)
    requires Cleared(t, t1, a) && Cleared(t1, t2, b)
    ensures Cleared(t, t2, a + b)
  {
    ExtendsTransitive(t.nodes, t1.nodes, t2.nodes);
    ExtendsTransitive(t2.nodes, t1.nodes, t.nodes);
    assert (Table(t) - a) - b == Table(t) - (a + b);
  }

  lemma {:induction false} RemoveAllRefines(t: Trie, es: seq<MountEntry>)
    requires Inv(t) && forall i :: 0 <= i < |es| ==> CleanParts(es[i].path).Some?
    ensures Cleared(t, RemoveAll(t, es), Places(es))
    decreases |es|
  {
    if es != [] {
      var init, last := es[..|es| - 1], es[|es| - 1];
      var t1 := RemoveAll(t, init);
      RemoveAllRefines(t, init);
      RemoveOne(t1, last);
      ClearedMore(t, t1, Remove(t1, last.path).0, Places(init), {Place(last)});
      PlacesSnoc(es);
    }
  }

  /** Where both skeletons have a parameter edge they name it alike. */
  ghost predicate Compatible(ns: Nodes, ns0: Nodes) {
    forall p :: p in ns && p in ns0 && Child(p, Param) in ns && Child(p, Param) in ns0 ==>
      ns[p].paramKey == ns0[p].paramKey
  }

  lemma {:induction false} CompatibleAccepts(ns: Nodes, ns0: Nodes, p: Pos)
    requires Skeleton(ns) && Skeleton(ns0) && Compatible(ns, ns0) && p in ns0
    ensures Accepts(ns, Spell(ns0, p))
    decreases p
  {
    if p.Child? {
      assert NodeOk(ns0, p);
      assert NodeOk(ns0, p.up);
      CompatibleAccepts(ns, ns0, p.up);
      SpellLeadsBack(ns0, p.up);
      var s := Label(ns0, p.up, p.edge);
      Snoc(Spell(ns0, p.up), s);
      if p.edge == Param {
        assert s[1..] == ns0[p.up].paramKey && |s| > 1;
      }
    }
  }

  lemma CompatibleStep(ns: Nodes, ns0: Nodes, at: Pos, s: string)
    requires Skeleton(ns) && at in ns && Compatible(ns, ns0)
    requires IsParam(s) && at in ns0 && Child(at, Param) in ns0 ==> s[1..] == ns0[at].paramKey
    ensures Compatible(GrowStep(ns, at, s).nodes, ns0)
  {
    var g, child := GrowStep(ns, at, s), Child(at, EdgeOf(s));
    assert Child(child, Param) in ns ==> NodeOk(ns, Child(child, Param));
    forall p | p in g.nodes && p in ns0 && Child(p, Param) in g.nodes && Child(p, Param) in ns0
      ensures g.nodes[p].paramKey == ns0[p].paramKey
    {
    }
  }

  lemma {:induction false} CompatibleGrow(ns: Nodes, ns0: Nodes, p: Pos)
    requires Skeleton(ns) && Skeleton(ns0) && Compatible(ns, ns0) && p in ns0
    ensures Compatible(Grow(ns, Spell(ns0, p)).nodes, ns0)
    decreases p
  {
    if p.Child? {
      assert NodeOk(ns0, p);
      var up, s := Spell(ns0, p.up), Label(ns0, p.up, p.edge);
      CompatibleGrow(ns, ns0, p.up);
      SpellLeadsBack(ns0, p.up);
      Snoc(up, s);
      GrowKeeps(ns, up);
      LabelIsSegment(ns0, p);
      if Grow(ns, up).err.None? {
        assert IsParam(s) ==> s[1..] == ns0[p.up].paramKey;
        CompatibleStep(Grow(ns, up).nodes, ns0, p.up, s);
      }
    }
  }

  /** Adding at a free position spelled as a compatible skeleton spells it works, and stays compatible. */
  lemma AddSpelled(t: Trie, ns0: Nodes, e: MountEntry)
    requires Inv(t) && Skeleton(ns0) && Compatible(t.nodes, ns0)
    requires Place(e) in ns0 && CleanParts(e.path) == Some(Spell(ns0, Place(e))) && Place(e) !in Table(t)
    ensures var (t', r) := Add(t, e);
            && r.Added? && Inv(t') && Compatible(t'.nodes, ns0)
            && Table(t') == Table(t)[Place(e) := e.(id := t.seqno + 1)]
  {
    var p := Place(e);
    CompatibleAccepts(t.nodes, ns0, p);
    CompatibleGrow(t.nodes, ns0, p);
    AddRefines(t, e);
  }

  /** In particular, adding an entry that another router holds. */
  lemma AddFromOther(t: Trie, t0: Trie, e: MountEntry)
    requires Inv(t) && Inv(t0) && Compatible(t.nodes, t0.nodes)
    requires Place(e) in Table(t0) && Table(t0)[Place(e)] == e && Place(e) !in Table(t)
    ensures var (t', r) := Add(t, e);
            && r.Added? && Inv(t') && Compatible(t'.nodes, t0.nodes)
            && Table(t') == Table(t)[Place(e) := e.(id := t.seqno + 1)]
  {
    AddSpelled(t, t0.nodes, e);
  }

  /** The table holds exactly the listed entries, up to identifiers. */
  ghost predicate HoldsAll(tab: map<Pos, MountEntry>, es: seq<MountEntry>) {
    && tab.Keys == Places(es)
    && forall i :: 0 <= i < |es| ==> Place(es[i]) in tab && tab[Place(es[i])] == es[i].(id := tab[Place(es[i])].id)
  }

  lemma {:induction false} AddAllFromOther(t: Trie, t0: Trie, es: seq<MountEntry>, dom: set<Pos>)
    requires Inv(t) && Inv(t0) && Compatible(t.nodes, t0.nodes)
    requires Lists(Table(t0), es, dom) && Table(t) == map[]
    ensures var (t', err) := AddAll(t, es);
            err.None? && Inv(t') && Compatible(t'.nodes, t0.nodes) && HoldsAll(Table(t'), es)
    decreases |es|
  {
    if es != [] {
      var init, last := es[..|es| - 1], es[|es| - 1];
      ListsDropLast(Table(t0), es, dom);
      AddAllFromOther(t, t0, init, dom - {Place(last)});
      var t1 := AddAll(t, init).0;
      PlacesSnoc(es);
      assert Place(last) !in Places(init);
      AddFromOther(t1, t0, last);
      HoldsSnoc(Table(t1), es, last.(id := t1.seqno + 1));
    }
  }

  lemma HoldsSnoc(tab: map<Pos, MountEntry>, es: seq<MountEntry>, e: MountEntry)
    requires es != [] && HoldsAll(tab, es[..|es| - 1]) && e == es[|es| - 1].(id := e.id)
    requires Place(es[|es| - 1]) !in tab
    ensures HoldsAll(tab[Place(es[|es| - 1]) := e], es)
  {
    PlacesSnoc(es);
    var init, last, tab' := es[..|es| - 1], es[|es| - 1], tab[Place(es[|es| - 1]) := e];
    forall i | 0 <= i < |es|
      ensures Place(es[i]) in tab' && tab'[Place(es[i])] == es[i].(id := tab'[Place(es[i])].id)
    {
      if i < |init| {
        assert init[i] == es[i];
      }
    }
  }

  ghost predicate EqualUpToId(a: map<Pos, MountEntry>, b: map<Pos, MountEntry>) {
    a.Keys == b.Keys && forall p :: p in a ==> a[p] == b[p].(id := a[p].id)
  }

  lemma HoldsListing(t0: Trie, es: seq<MountEntry>, tab: map<Pos, MountEntry>)
    requires Listing(t0, es) && HoldsAll(tab, es)
    ensures EqualUpToId(tab, Table(t0))
  {
    forall p | p in Table(t0)
      ensures p in tab && tab[p] == Table(t0)[p].(id := tab[p].id)
    {
      var i :| 0 <= i < |es| && es[i] == Table(t0)[p];
      assert Place(es[i]) == p;
    }
    forall p | p in tab
      ensures p in Table(t0)
    {
      var i :| 0 <= i < |es| && Place(es[i]) == p;
    }
  }

  /** Removing what a snapshot lists unmounts everything. */
  lemma SnapshotClears(t: Trie, current: seq<MountEntry>)
    requires Inv(t) && Listing(t, current)
    ensures Cleared(t, RemoveAll(t, current), Places(current)) && Table(RemoveAll(t, current)) == map[]
  {
    forall i | 0 <= i < |current|
      ensures CleanParts(current[i].path).Some?
    {
      assert Table(t)[Place(current[i])] == current[i];
    }
    RemoveAllRefines(t, current);
    var t1 := RemoveAll(t, current);
    forall p | p in Table(t)
      ensures p in Places(current)
    {
      var i :| 0 <= i < |current| && current[i] == Table(t)[p];
      assert Place(current[i]) == p;
    }
    assert Table(t1) == map[];
  }

  /**
   * A snapshot of `t0`, in any order, restores into every router whose names are compatible, and
   * gives back the same mounts up to identifiers.
   */
  lemma RestoreGivesBack(t: Trie, t0: Trie, current: seq<MountEntry>, es: seq<MountEntry>)
    requires Inv(t) && Inv(t0) && Compatible(t.nodes, t0.nodes)
    requires Listing(t, current) && Listing(t0, es)
    ensures var (t', err) := Restore(t, current, es);
            err.None? && Inv(t') && EqualUpToId(Table(t'), Table(t0))
  {
    SnapshotClears(t, current);
    var t1 := RemoveAll(t, current);
    AddAllFromOther(t1, t0, es, Table(t0).Keys);
    HoldsListing(t0, es, Table(AddAll(t1, es).0));
  }

  /** So a snapshot of a router can be restored into that router after any later run. */
  lemma RestoreLater(t0: Trie, ops: seq<Op>, t: Trie, current: seq<MountEntry>, es: seq<MountEntry>)
    requires Inv(t0) && Leads(t0, ops, t) && Listing(t, current) && Listing(t0, es)
    ensures Root in t.nodes
    ensures var (t', err) := Restore(t, current, es);
            err.None? && EqualUpToId(Table(t'), Table(t0))
  {
    RunKeeps(t0, ops, t);
    RestoreGivesBack(t, t0, current, es);
  }

  /** And into a fresh one. */
  lemma RestoreFresh(t0: Trie, es: seq<MountEntry>)
    requires Inv(t0) && Listing(t0, es)
    ensures var (t', err) := Restore(Empty, [], es);
            err.None? && EqualUpToId(Table(t'), Table(t0))
  {
    assert Inv(Empty) by {
      assert NodeOk(Empty.nodes, Root);
    }
    assert Table(Empty) == map[];
    RestoreGivesBack(Empty, t0, [], es);
  }
}
