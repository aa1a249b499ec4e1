/** Which lists of entries a router takes in, told from the router and the list alone (core/router.go). */
module Consistency {
  import opened Bytes
  import opened Paths
  import opened Entries
  import opened Params
  import opened Trie
  import opened TrieRuns
  import opened Snapshots
  import opened Lookups

  /** Wherever both paths reach the same position and go on by a parameter, they name it alike. */
  predicate Agree(a: seq<string>, b: seq<string>) {
    forall i :: 0 <= i < |a| && i < |b| ==> AgreeAt(a, b, i)
  }

  predicate AgreeAt(a: seq<string>, b: seq<string>, i: nat)
    requires i < |a| && i < |b|
  {
    PosOf(a[..i]) == PosOf(b[..i]) && IsParam(a[i]) && IsParam(b[i]) ==> a[i] == b[i]
  }

  /** The segments of the entry's own path. */
  function PartsIn(e: MountEntry): seq<string> {
    match CleanParts(e.path)
    case None => []
    case Some(parts) => parts
  }

  /** The router would accept the entry's path as it is now. */
  ghost predicate Addable(ns: Nodes, e: MountEntry) {
    CleanParts(e.path).Some? && Accepts(ns, PartsIn(e))
  }

  /** Two entries have different places and name shared parameters alike. */
  ghost predicate Fit(a: MountEntry, b: MountEntry) {
    Place(a) != Place(b) && Agree(PartsIn(a), PartsIn(b))
  }

  /** The router accepts every path, and the entries do not get into each other's way. */
  ghost predicate Consistent(ns: Nodes, es: seq<MountEntry>) {
    && (forall i :: 0 <= i < |es| ==> Addable(ns, es[i]))
    && (forall i, j :: 0 <= i < j < |es| ==> Fit(es[i], es[j]))
  }

  // ---- what one more path changes for another ----

  /** An accepted path was accepted at each of its segments. */
  lemma {:induction false} AcceptsAt(ns: Nodes, a: seq<string>, i: nat)
    requires Accepts(ns, a) && i < |a|
    ensures AcceptsStep(ns, PosOf(a[..i]), a[i])
    decreases |a|
  {
    if i == |a| - 1 {
      assert Init(a) == a[..i];
    } else {
      AcceptsAt(ns, Init(a), i);
      assert Init(a)[..i] == a[..i];
    }
  }

  /** Where a path is spelled as it is, so is each of its segments. */
  lemma {:induction false} SpelledAt(ns: Nodes, a: seq<string>, i: nat)
    requires Spell(ns, PosOf(a)) == a && i < |a|
    ensures Label(ns, PosOf(a[..i]), EdgeOf(a[i])) == a[i] && Spell(ns, PosOf(a[..i])) == a[..i]
    decreases |a|
  {
    var up := Spell(ns, PosOf(Init(a)));
    assert up + [Label(ns, PosOf(Init(a)), EdgeOf(End(a)))] == a;
    assert up == Init(a);
    if i == |a| - 1 {
      assert Init(a) == a[..i];
    } else {
      SpelledAt(ns, Init(a), i);
      assert Init(a)[..i] == a[..i];
    }
  }

  lemma ParamText(p: string, q: string)
    requires IsParam(p) && IsParam(q)
    ensures p[1..] == q[1..] <==> p == q
  {
    assert p == [p[0]] + p[1..] && q == [q[0]] + q[1..];
  }

  /** The path goes on by a parameter where `init` ends. */
  predicate TakesParam(a: seq<string>, init: seq<string>) {
    |init| < |a| && PosOf(a[..|init|]) == PosOf(init) && IsParam(a[|init|])
  }

  lemma TakenIsOnWay(a: seq<string>, init: seq<string>)
    requires TakesParam(a, init)
    ensures OnWay(Child(PosOf(init), Param), PosOf(a))
  {
    PosSnoc(a, |init|);
    PrefixOnWay(a, |init| + 1);
  }

  lemma OnWayIsTaken(a: seq<string>, init: seq<string>)
    requires OnWay(Child(PosOf(init), Param), PosOf(a))
    ensures TakesParam(a, init)
  {
    hide OnWay, PosOf;
    DepthOf(init);
    OnWayPrefix(Child(PosOf(init), Param), a);
    PosSnoc(a, |init|);
  }

  /** The parameter edge at the end of `init` exists after growing `a` if it did before or `a` takes it. */
  lemma GrownEdge(ns: Nodes, a: seq<string>, init: seq<string>)
    requires Root in ns && Grow(ns, a).err.None?
    ensures var edge := Child(PosOf(init), Param);
            edge in Grow(ns, a).nodes <==> edge in ns || TakesParam(a, init)
  {
    var edge := Child(PosOf(init), Param);
    GrowKeys(ns, a, edge);
    if OnWay(edge, PosOf(a)) {
      OnWayIsTaken(a, init);
    }
    if TakesParam(a, init) {
      TakenIsOnWay(a, init);
    }
    hide Grow, PosOf, OnWay, TakesParam;
  }

  lemma PosSnoc(a: seq<string>, i: nat)
    requires i < |a|
    ensures PosOf(a[..i + 1]) == Child(PosOf(a[..i]), EdgeOf(a[i]))
  {
    assert Init(a[..i + 1]) == a[..i] && End(a[..i + 1]) == a[i];
  }

  /** And it carries the name `a` gives it. */
  lemma GrownName(ns: Nodes, a: seq<string>, i: nat)
    requires Skeleton(ns) && Segments(a) && Accepts(ns, a) && i < |a| && IsParam(a[i])
    ensures Grow(ns, a).err.None?
    ensures var g, at := Grow(ns, a).nodes, PosOf(a[..i]); at in g && g[at].paramKey == a[i][1..]
  {
    GrowIffAccepts(ns, a);
    GrowSpells(ns, a);
    var g, at := Grow(ns, a).nodes, PosOf(a[..i]);
    PrefixOnWay(a, i);
    GrowKeys(ns, a, at);
    SpelledAt(g, a, i);
    assert (":" + g[at].paramKey)[1..] == g[at].paramKey;
  }

  /** What a grown path asks of a later one at one segment. */
  predicate AsksFor(a: seq<string>, init: seq<string>, p: string) {
    TakesParam(a, init) && IsParam(p) ==> a[|init|] == p
  }

  lemma StepGrown(ns: Nodes, a: seq<string>, init: seq<string>, p: string)
    requires Skeleton(ns) && Segments(a) && Accepts(ns, a)
    ensures AcceptsStep(Grow(ns, a).nodes, PosOf(init), p)
       <==> AcceptsStep(ns, PosOf(init), p) && AsksFor(a, init, p)
  {
    if IsParam(p) {
      var g, at, i := Grow(ns, a).nodes, PosOf(init), |init|;
      var edge := Child(at, Param);
      GrowIffAccepts(ns, a);
      GrowKeeps(ns, a);
      GrownEdge(ns, a, init);
      assert edge in ns ==> NodeOk(ns, edge);
      assert edge in g ==> NodeOk(g, edge);
      if TakesParam(a, init) {
        AcceptsAt(ns, a, i);
        GrownName(ns, a, i);
        ParamText(a[i], p);
      }
      hide Accepts, Grow, Skeleton, Segments, PosOf, IsParam;
    }
  }

  lemma AgreeSnoc(a: seq<string>, b: seq<string>)
    requires b != []
    ensures Agree(a, b) <==> Agree(a, Init(b)) && AsksFor(a, Init(b), End(b))
  {
    var init, n := Init(b), |b| - 1;
    assert init == b[..n];
    forall i | 0 <= i < |a| && i < n
      ensures AgreeAt(a, b, i) <==> AgreeAt(a, init, i)
    {
      assert init[..i] == b[..i];
    }
    if n < |a| {
      assert AgreeAt(a, b, n) <==> AsksFor(a, init, End(b));
    }
    if Agree(a, b) {
      forall i | 0 <= i < |a| && i < n
        ensures AgreeAt(a, init, i)
      {
        assert AgreeAt(a, b, i);
      }
    }
    hide PosOf, AgreeAt;
  }

  /** Once `a` is in, another path is accepted exactly if it was before and agrees with `a`. */
  lemma {:induction false} AcceptsGrown(ns: Nodes, a: seq<string>, b: seq<string>)
    requires Skeleton(ns) && Segments(a) && Accepts(ns, a)
    ensures Accepts(Grow(ns, a).nodes, b) <==> Accepts(ns, b) && Agree(a, b)
    decreases |b|
  {
    if b != [] {
      AcceptsGrown(ns, a, Init(b));
      StepGrown(ns, a, Init(b), End(b));
      AgreeSnoc(a, b);
    }
  }

  // ---- a list of entries ----

  lemma ConsistentSnoc(ns: Nodes, es: seq<MountEntry>)
    requires es != []
    ensures var init, last := es[..|es| - 1], es[|es| - 1];
            Consistent(ns, es) <==>
              Consistent(ns, init) && Addable(ns, last) && forall i :: 0 <= i < |init| ==> Fit(init[i], last)
  {
    hide Addable, Fit;
    var init, last := es[..|es| - 1], es[|es| - 1];
    if Consistent(ns, es) {
      forall i | 0 <= i < |init|
        ensures Fit(init[i], last)
      {
        assert Fit(es[i], es[|es| - 1]);
      }
    }
    if Consistent(ns, init) && Addable(ns, last) && (forall i :: 0 <= i < |init| ==> Fit(init[i], last)) {
      forall i, j | 0 <= i < j < |es|
        ensures Fit(es[i], es[j])
      {
        assert es[i] == init[i];
        assert j < |init| ==> es[j] == init[j];
      }
    }
  }

  /** Of paths with these segments the router accepts now what it accepted before and what agrees with `es`. */
  ghost predicate GrownBy(ns: Nodes, ns': Nodes, es: seq<MountEntry>) {
    forall b {:trigger Accepts(ns', b)} :: Accepts(ns', b) <==> Accepts(ns, b) && AllAgree(es, b)
  }

  predicate AllAgree(es: seq<MountEntry>, b: seq<string>) {
    forall i :: 0 <= i < |es| ==> Agree(PartsIn(es[i]), b)
  }

  /** The router holds exactly the entries, and its skeleton has grown by their paths. */
  ghost predicate Took(t: Trie, t': Trie, es: seq<MountEntry>) {
    Inv(t') && HoldsAll(Table(t'), es) && GrownBy(t.nodes, t'.nodes, es) && Extends(t.nodes, t'.nodes)
  }

  /** What an `add` that succeeds does to later paths. */
  lemma AddTakes(t: Trie, e: MountEntry, b: seq<string>)
    requires Inv(t) && Add(t, e).1.Added?
    ensures Accepts(Add(t, e).0.nodes, b) <==> Accepts(t.nodes, b) && Agree(PartsIn(e), b)
  {
    AddRefines(t, e);
    AddExtends(t, e);
    AcceptsGrown(t.nodes, PartsIn(e), b);
    AcceptsSame(Grow(t.nodes, PartsIn(e)).nodes, Add(t, e).0.nodes, b);
  }

  lemma AddExtends(t: Trie, e: MountEntry)
    requires Inv(t) && Add(t, e).1.Added?
    ensures var g := Grow(t.nodes, PartsIn(e)).nodes;
            Extends(g, Add(t, e).0.nodes) && Extends(Add(t, e).0.nodes, g)
  {
  }

  lemma TakesOneMore(ns: Nodes, t1: Trie, es: seq<MountEntry>)
    requires es != [] && Inv(t1) && GrownBy(ns, t1.nodes, es[..|es| - 1]) && Add(t1, es[|es| - 1]).1.Added?
    ensures GrownBy(ns, Add(t1, es[|es| - 1]).0.nodes, es)
  {
    hide Inv, Accepts, Add, Agree, AllAgree, PartsIn;
    HasRoot(t1);
    var init, last := es[..|es| - 1], es[|es| - 1];
    var t2 := Add(t1, last).0;
    forall b
      ensures Accepts(t2.nodes, b) <==> Accepts(ns, b) && AllAgree(es, b)
    {
      AddTakes(t1, last, b);
      AllAgreeSnoc(es, b);
      assert Accepts(t1.nodes, b) <==> Accepts(ns, b) && AllAgree(init, b);
    }
  }

  lemma AllAgreeSnoc(es: seq<MountEntry>, b: seq<string>)
    requires es != []
    ensures AllAgree(es, b) <==> AllAgree(es[..|es| - 1], b) && Agree(PartsIn(es[|es| - 1]), b)
  {
    hide Agree, PartsIn;
    var init := es[..|es| - 1];
    assert forall i :: 0 <= i < |init| ==> es[i] == init[i];
  }

  lemma TookOneMore(t: Trie, t1: Trie, es: seq<MountEntry>)
    requires es != [] && Took(t, t1, es[..|es| - 1]) && Add(t1, es[|es| - 1]).1.Added?
    ensures Took(t, Add(t1, es[|es| - 1]).0, es)
  {
    hide Inv, Accepts, Add, Table, GrownBy, Extends;
    HasRoot(t1);
    var last := es[|es| - 1];
    AddRefines(t1, last);
    TakesOneMore(t.nodes, t1, es);
    HoldsSnoc(Table(t1), es, last.(id := t1.seqno + 1));
    ExtendsTransitive(t.nodes, t1.nodes, Add(t1, last).0.nodes);
  }

  /** The next entry is added exactly if it fits all before it. */
  lemma NextFits(t: Trie, t1: Trie, init: seq<MountEntry>, e: MountEntry)
    requires Took(t, t1, init)
    ensures Root in t1.nodes
    ensures Add(t1, e).1.Added? <==>
              Addable(t.nodes, e) && forall i :: 0 <= i < |init| ==> Fit(init[i], e)
  {
    hide Inv, Accepts, Add, Table, Extends, Agree;
    HasRoot(t1);
    AddRefines(t1, e);
    assert Accepts(t1.nodes, PartsIn(e)) <==> Accepts(t.nodes, PartsIn(e)) && AllAgree(init, PartsIn(e));
    assert Place(e) in Places(init) <==> exists i :: 0 <= i < |init| && Place(init[i]) == Place(e);
  }

  /** Adding a list to an empty table succeeds exactly on a consistent one. */
  lemma {:induction false} AddAllIff(t: Trie, es: seq<MountEntry>)
    requires Inv(t) && Table(t) == map[]
    ensures Root in t.nodes
    ensures AddAll(t, es).1.None? <==> Consistent(t.nodes, es)
    ensures AddAll(t, es).1.None? ==> Took(t, AddAll(t, es).0, es)
    decreases |es|
  {
    hide Inv, Table, Add, Took, Consistent, Addable, Fit;
    HasRoot(t);
    if es == [] {
      NothingTaken(t);
    } else {
      var init, last := es[..|es| - 1], es[|es| - 1];
      AddAllIff(t, init);
      ConsistentSnoc(t.nodes, es);
      if Consistent(t.nodes, init) {
        var t1 := AddAll(t, init).0;
        NextFits(t, t1, init, last);
        if Add(t1, last).1.Added? {
          TookOneMore(t, t1, es);
        }
      }
    }
  }

  lemma NothingTaken(t: Trie)
    requires Inv(t) && Table(t) == map[]
    ensures Consistent(t.nodes, []) && Took(t, t, [])
  {
  }

  // ---- a restore ----

  lemma ConsistentSame(ns: Nodes, ns': Nodes, es: seq<MountEntry>)
    requires Extends(ns, ns') && Extends(ns', ns)
    ensures Consistent(ns', es) <==> Consistent(ns, es)
  {
    forall i | 0 <= i < |es|
      ensures Addable(ns', es[i]) <==> Addable(ns, es[i])
    {
      AcceptsSame(ns, ns', PartsIn(es[i]));
    }
    hide Addable, Fit, Extends;
  }

  /** A restore succeeds exactly on a list that is consistent with the router as it is. */
  lemma RestoreSucceedsIff(t: Trie, current: seq<MountEntry>, es: seq<MountEntry>)
    requires Inv(t) && Listing(t, current)
    ensures Root in t.nodes
    ensures Restore(t, current, es).1.None? <==> Consistent(t.nodes, es)
  {
    hide Inv, Table, Consistent, Took, Extends, Listing;
    HasRoot(t);
    SnapshotClears(t, current);
    var t0 := RemoveAll(t, current);
    AddAllIff(t0, es);
    ConsistentSame(t.nodes, t0.nodes, es);
  }

  /** How many entries at the front of the list are consistent. */
  ghost function FrontCount(ns: Nodes, es: seq<MountEntry>): (k: nat)
    ensures k <= |es|
  {
    if Consistent(ns, es) || es == [] then |es| else FrontCount(ns, es[..|es| - 1])
  }

  /** The longest consistent front of the list. */
  ghost function Front(ns: Nodes, es: seq<MountEntry>): seq<MountEntry> {
    es[..FrontCount(ns, es)]
  }

  lemma {:induction false} FrontIsLongest(ns: Nodes, es: seq<MountEntry>, k: nat)
    requires k <= |es|
    ensures Consistent(ns, es[..k]) <==> k <= |Front(ns, es)|
    decreases |es|
  {
    hide Addable, Fit;
    assert es[..|es|] == es;
    if Consistent(ns, es) {
      FrontOfConsistent(ns, es, k);
    } else if es != [] {
      var init := es[..|es| - 1];
      assert Consistent(ns, []);
      if k < |es| {
        FrontIsLongest(ns, init, k);
        assert init[..k] == es[..k];
      }
    }
  }

  lemma FrontOfConsistent(ns: Nodes, es: seq<MountEntry>, k: nat)
    requires k <= |es| && Consistent(ns, es)
    ensures Consistent(ns, es[..k])
  {
    hide Addable, Fit;
    var front := es[..k];
    forall i, j | 0 <= i < j < k
      ensures Fit(front[i], front[j])
    {
      assert Fit(es[i], es[j]);
    }
  }

  // ---- snapshots are consistent ----

  /** Two paths spelled by one skeleton agree. */
  lemma SpelledAgree(ns: Nodes, a: seq<string>, b: seq<string>)
    requires Spell(ns, PosOf(a)) == a && Spell(ns, PosOf(b)) == b
    ensures Agree(a, b)
  {
    forall i | 0 <= i < |a| && i < |b|
      ensures AgreeAt(a, b, i)
    {
      SpelledAt(ns, a, i);
      SpelledAt(ns, b, i);
    }
  }

  /** A snapshot is consistent with every router whose names are compatible with those of its own. */
  lemma SnapshotIsConsistent(t: Trie, t0: Trie, es: seq<MountEntry>)
    requires Inv(t) && Inv(t0) && Compatible(t.nodes, t0.nodes) && Listing(t0, es)
    ensures Consistent(t.nodes, es)
  {
    forall i | 0 <= i < |es|
      ensures Addable(t.nodes, es[i]) && Spell(t0.nodes, Place(es[i])) == PartsIn(es[i])
      ensures PosOf(PartsIn(es[i])) == Place(es[i])
    {
      assert Place(es[i]) in Table(t0) && Table(t0)[Place(es[i])] == es[i];
      CompatibleAccepts(t.nodes, t0.nodes, Place(es[i]));
    }
    hide Inv, Addable, Compatible, Agree, Table;
    forall i, j | 0 <= i < j < |es|
      ensures Fit(es[i], es[j])
    {
      SpelledAgree(t0.nodes, PartsIn(es[i]), PartsIn(es[j]));
    }
  }
}
