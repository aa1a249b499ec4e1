/** `Reload` of a well-formed configuration never fails midway and ends with exactly its paths mounted. */
module Reloading {
  import opened Bytes
  import opened Paths
  import opened Entries
  import opened Trie
  import opened TrieRuns
  import opened Snapshots
  import opened Diff
  import opened Filesystem

  /**
   * Entries a configuration may hold: mountable, with distinct paths, within the mount limit, and spelling
   * parameter names as one skeleton `ns0` does that agrees with the router's.
   */
  ghost predicate Acceptable(cfg: FsConfig, ns0: Nodes, desired: seq<MountEntry>) {
    && DistinctPaths(desired) && (cfg.maxMounts > 0 ==> |desired| <= cfg.maxMounts) && Skeleton(ns0)
    && forall e :: e in desired ==> Spelled(ns0, e) && Mountable(cfg, e.path, e) && SkillFree(e)
  }

  ghost predicate Spelled(ns0: Nodes, e: MountEntry) {
    Place(e) in ns0 && CleanParts(e.path) == Some(Spell(ns0, Place(e)))
  }

  /** The entry is mounted as `Mount` stores it. */
  ghost predicate MountedAs(cfg: FsConfig, tab: map<Pos, MountEntry>, e: MountEntry, now: int) {
    Place(e) in tab && tab[Place(e)] == Prepared(cfg, e.path, e, now).(id := tab[Place(e)].id)
  }

  /** Every mounted skill has a name the generator takes, so `Unmount` can give it back. */
  ghost predicate SkillsNamed(t: Trie) {
    forall p :: p in Table(t) ==> SkillNamed(Table(t)[p])
  }

  ghost predicate AllNormal(t: Trie) {
    forall p :: p in Table(t) ==> Normal(Table(t)[p].path)
  }

  /** A router on the way: names agree with `ns0` and only desired positions are mounted. */
  ghost predicate OnTheWay(cfg: FsConfig, t: Trie, ns0: Nodes, desired: seq<MountEntry>) {
    Inv(t) && SkillsNamed(t) && Compatible(t.nodes, ns0) && Table(t).Keys <= Places(desired)
  }

  // ---- one mount ----

  lemma {:induction false} PlacesCard(es: seq<MountEntry>)
    ensures |Places(es)| <= |es|
    decreases |es|
  {
    if es != [] {
      PlacesSnoc(es);
      PlacesCard(es[..|es| - 1]);
    }
  }

  lemma SubsetCard<T>(a: set<T>, b: set<T>, x: T)
    requires a <= b && x in b && x !in a
    ensures |a| < |b|
  {
    assert a <= b - {x};
    SubsetLe(a, b - {x});
  }

  lemma {:induction false} SubsetLe<T>(a: set<T>, b: set<T>)
    requires a <= b
    ensures |a| <= |b|
    decreases |a|
  {
    if a != {} {
      var x :| x in a;
      SubsetLe(a - {x}, b - {x});
    }
  }

  lemma InPlaces(es: seq<MountEntry>, e: MountEntry)
    requires e in es
    ensures Place(e) in Places(es)
  {
    var i :| 0 <= i < |es| && es[i] == e;
    assert Place(es[i]) in Places(es);
  }

  /** From `tab` to `tab'` exactly the entries `es` were mounted or replaced. */
  ghost predicate Progress(cfg: FsConfig, now: int, tab: Tab, tab': Tab, es: seq<MountEntry>) {
    && tab'.Keys == tab.Keys + Places(es)
    && (forall i :: 0 <= i < |es| ==> MountedAs(cfg, tab', es[i], now))
    && (forall p :: p in tab && p !in Places(es) ==> tab'[p] == tab[p])
  }

  lemma ProgressNone(cfg: FsConfig, now: int, tab: Tab)
    ensures Progress(cfg, now, tab, tab, [])
  {
  }

  lemma ProgressOne(cfg: FsConfig, now: int, tab: Tab, e: MountEntry, x: MountEntry)
    requires x == Prepared(cfg, e.path, e, now).(id := x.id)
    ensures Progress(cfg, now, tab, tab[Place(e) := x], [e])
  {
    PlacesSnoc([e]);
    assert Places([e][..0]) == {};
    assert Places([e]) == {Place(e)};
  }

  lemma ProgressSnoc(cfg: FsConfig, now: int, tab: Tab, tab1: Tab, tab2: Tab, init: seq<MountEntry>, e: MountEntry)
    requires Progress(cfg, now, tab, tab1, init) && Progress(cfg, now, tab1, tab2, [e]) && Place(e) !in Places(init)
    ensures Progress(cfg, now, tab, tab2, init + [e])
  {
    var es := init + [e];
    PlacesSnoc(es);
    assert es[..|es| - 1] == init;
    PlacesSnoc([e]);
    assert Places([e][..0]) == {};
    assert Places(es) == Places(init) + {Place(e)} && Places([e]) == {Place(e)};
    forall i | 0 <= i < |es|
      ensures MountedAs(cfg, tab2, es[i], now)
    {
      if i < |init| {
        assert MountedAs(cfg, tab1, init[i], now);
        assert Place(init[i]) in Places(init);
      } else {
        assert MountedAs(cfg, tab2, [e][0], now);
      }
    }
  }

  /** Mounting a desired entry at its free position never hits the limit and succeeds. */
  lemma MountSucceeds(cfg: FsConfig, t: Trie, ns0: Nodes, desired: seq<MountEntry>, e: MountEntry, now: int)
    requires Acceptable(cfg, ns0, desired) && OnTheWay(cfg, t, ns0, desired) && e in desired && Place(e) !in Table(t)
    ensures var (t', err) := Mount(cfg, t, e.path, e, now);
            err.None? && OnTheWay(cfg, t', ns0, desired) && Progress(cfg, now, Table(t), Table(t'), [e])
  {
    InPlaces(desired, e);
    SubsetCard(Table(t).Keys, Places(desired), Place(e));
    PlacesCard(desired);
    var x := Prepared(cfg, e.path, e, now);
    AddSpelled(t, ns0, x);
    MountAdds(cfg, t, e, now);
    ProgressOne(cfg, now, Table(t), e, x.(id := t.seqno + 1));
    NamedWith(cfg, t, Add(t, x).0, Place(e), x.(id := t.seqno + 1));
    hide Mount, Add, Inv, Compatible, Skeleton, SkillsNamed, Progress, Prepared, Mountable, Table, CleanParts, PosOf;
  }

  lemma MountAdds(cfg: FsConfig, t: Trie, e: MountEntry, now: int)
    requires Mountable(cfg, e.path, e) && SkillFree(e) && (cfg.maxMounts > 0 ==> |Table(t)| < cfg.maxMounts)
    requires Root in t.nodes && Add(t, Prepared(cfg, e.path, e, now)).1.Added?
    ensures Mount(cfg, t, e.path, e, now) == (Add(t, Prepared(cfg, e.path, e, now)).0, None)
  {
    hide Add, Reserved, Normal, WellConfigured, OpsBound, Table;
  }

  lemma NamedWith(cfg: FsConfig, t: Trie, t': Trie, p: Pos, x: MountEntry)
    requires SkillsNamed(t) && Table(t') == Table(t)[p := x] && SkillNamed(x)
    ensures SkillsNamed(t')
  {
  }

  lemma UnmountSucceeds(t: Trie, path: string, p: Pos)
    requires Inv(t) && Normal(path) && CleanParts(path).Some? && PosOf(CleanParts(path).value) == p && p in Table(t)
    requires SkillNamed(Table(t)[p])
    ensures var (t', err) := Unmount(t, path); err.None? && Cleared(t, t', {p})
  {
    RemoveRefines(t, path);
  }

  lemma ClearedStaysCompatible(t: Trie, t': Trie, gone: set<Pos>, ns0: Nodes)
    requires Cleared(t, t', gone) && Compatible(t.nodes, ns0)
    ensures Compatible(t'.nodes, ns0)
  {
  }

  // ---- the three phases ----

  lemma {:induction false} UnmountAllSucceeds(t: Trie, es: seq<MountEntry>)
    requires Inv(t) && SkillsNamed(t)
    requires forall i :: 0 <= i < |es| ==> Normal(es[i].path) && Place(es[i]) in Table(t)
    requires forall i, j :: 0 <= i < j < |es| ==> Place(es[i]) != Place(es[j])
    ensures var (t', err) := UnmountAll(t, es); err.None? && Cleared(t, t', Places(es))
    decreases |es|
  {
    if es != [] {
      var init, last := es[..|es| - 1], es[|es| - 1];
      UnmountAllSucceeds(t, init);
      var t1 := UnmountAll(t, init).0;
      NormalAgreesWithClean(last.path);
      assert Place(last) in Table(t1);
      UnmountSucceeds(t1, last.path, Place(last));
      ClearedMore(t, t1, Unmount(t1, last.path).0, Places(init), {Place(last)});
      PlacesSnoc(es);
    }
  }

  lemma RemountSucceeds(cfg: FsConfig, t: Trie, ns0: Nodes, desired: seq<MountEntry>, c: Change, now: int)
    requires Acceptable(cfg, ns0, desired) && OnTheWay(cfg, t, ns0, desired)
    requires c.after in desired && c.path == c.after.path && Place(c.after) in Table(t)
    ensures var (t', err) := Remount(cfg, t, c, now);
            err.None? && OnTheWay(cfg, t', ns0, desired) && Progress(cfg, now, Table(t), Table(t'), [c.after])
  {
    hide Mount, Unmount, Table, Inv, Normal, Progress, OnTheWay, Acceptable, Cleared;
    var e := c.after;
    DesiredIsNormal(cfg, ns0, desired, e);
    FoundInOrder(cfg, t, ns0, desired, Place(e));
    UnmountSucceeds(t, c.path, Place(e));
    var t1 := Unmount(t, c.path).0;
    ClearedOnTheWay(cfg, t, t1, ns0, desired, Place(e));
    MountSucceeds(cfg, t1, ns0, desired, e, now);
    ProgressAfterClearing(cfg, now, Table(t), Table(Mount(cfg, t1, e.path, e, now).0), e);
  }

  lemma FoundInOrder(cfg: FsConfig, t: Trie, ns0: Nodes, desired: seq<MountEntry>, p: Pos)
    requires OnTheWay(cfg, t, ns0, desired) && p in Table(t)
    ensures Inv(t) && Root in t.nodes && SkillNamed(Table(t)[p])
  {
  }

  lemma ClearedOnTheWay(cfg: FsConfig, t: Trie, t1: Trie, ns0: Nodes, desired: seq<MountEntry>, p: Pos)
    requires OnTheWay(cfg, t, ns0, desired) && Cleared(t, t1, {p})
    ensures OnTheWay(cfg, t1, ns0, desired) && p !in Table(t1) && Root in t1.nodes && Table(t1) == Table(t) - {p}
  {
    ClearedStaysCompatible(t, t1, {p}, ns0);
  }

  lemma DesiredIsNormal(cfg: FsConfig, ns0: Nodes, desired: seq<MountEntry>, e: MountEntry)
    requires Acceptable(cfg, ns0, desired) && e in desired
    ensures Normal(e.path) && CleanParts(e.path).Some? && PosOf(CleanParts(e.path).value) == Place(e)
  {
    NormalAgreesWithClean(e.path);
  }

  lemma ProgressAfterClearing(cfg: FsConfig, now: int, tab: Tab, tab': Tab, e: MountEntry)
    requires Place(e) in tab && Progress(cfg, now, tab - {Place(e)}, tab', [e])
    ensures Progress(cfg, now, tab, tab', [e])
  {
    PlacesSnoc([e]);
    assert Places([e][..0]) == {};
  }

  ghost predicate DistinctPlaces(es: seq<MountEntry>) {
    forall i, j :: 0 <= i < j < |es| ==> Place(es[i]) != Place(es[j])
  }

  lemma DistinctSnoc(init: seq<MountEntry>, e: MountEntry)
    requires DistinctPlaces(init + [e])
    ensures DistinctPlaces(init) && Place(e) !in Places(init)
  {
    var es := init + [e];
    forall i, j | 0 <= i < j < |init|
      ensures Place(init[i]) != Place(init[j])
    {
      assert es[i] == init[i] && es[j] == init[j];
    }
    forall i | 0 <= i < |init|
      ensures Place(init[i]) != Place(e)
    {
      assert es[i] == init[i] && es[|init|] == e;
    }
  }

  lemma {:induction false} RemountAllSucceeds(
      cfg: FsConfig, t: Trie, ns0: Nodes, desired: seq<MountEntry>, cs: seq<Change>, now: int)
    requires Acceptable(cfg, ns0, desired) && OnTheWay(cfg, t, ns0, desired) && DistinctPlaces(Afters(cs))
    requires forall c :: c in cs ==> c.after in desired && c.path == c.after.path && Place(c.after) in Table(t)
    ensures var (t', err) := RemountAll(cfg, t, cs, now);
            err.None? && OnTheWay(cfg, t', ns0, desired) && Progress(cfg, now, Table(t), Table(t'), Afters(cs))
    decreases |cs|
  {
    if cs == [] {
      ProgressNone(cfg, now, Table(t));
    } else {
      var init, last := cs[..|cs| - 1], cs[|cs| - 1];
      assert last in cs && forall c :: c in init ==> c in cs;
      DistinctSnoc(Afters(init), last.after);
      RemountAllSucceeds(cfg, t, ns0, desired, init, now);
      var t1 := RemountAll(cfg, t, init, now).0;
      RemountSucceeds(cfg, t1, ns0, desired, last, now);
      ProgressSnoc(cfg, now, Table(t), Table(t1), Table(Remount(cfg, t1, last, now).0), Afters(init), last.after);
    }
  }

  lemma {:induction false} MountAllSucceeds(
      cfg: FsConfig, t: Trie, ns0: Nodes, desired: seq<MountEntry>, es: seq<MountEntry>, now: int)
    requires Acceptable(cfg, ns0, desired) && OnTheWay(cfg, t, ns0, desired) && DistinctPlaces(es)
    requires forall e :: e in es ==> e in desired && Place(e) !in Table(t)
    ensures var (t', err) := MountAll(cfg, t, es, now);
            err.None? && OnTheWay(cfg, t', ns0, desired) && Progress(cfg, now, Table(t), Table(t'), es)
    decreases |es|
  {
    if es == [] {
      ProgressNone(cfg, now, Table(t));
    } else {
      var init, last := es[..|es| - 1], es[|es| - 1];
      assert es == init + [last] && last in es && forall e :: e in init ==> e in es;
      DistinctSnoc(init, last);
      MountAllSucceeds(cfg, t, ns0, desired, init, now);
      var t1 := MountAll(cfg, t, init, now).0;
      MountSucceeds(cfg, t1, ns0, desired, last, now);
      ProgressSnoc(cfg, now, Table(t), Table(t1), Table(Mount(cfg, t1, last.path, last, now).0), init, last);
    }
  }

  // ---- the diff by path is a diff by position ----

  lemma {:induction false} SpellAgrees(ns: Nodes, ns0: Nodes, p: Pos)
    requires Skeleton(ns) && Skeleton(ns0) && Compatible(ns, ns0) && p in ns && p in ns0
    ensures Spell(ns, p) == Spell(ns0, p)
    decreases p
  {
    if p.Child? {
      assert NodeOk(ns, p);
      assert NodeOk(ns0, p);
      SpellAgrees(ns, ns0, p.up);
    }
  }

  lemma NormalPathsAgree(a: string, b: string)
    requires Normal(a) && Normal(b) && CleanParts(a) == CleanParts(b)
    ensures a == b
  {
    NormalAgreesWithClean(a);
    NormalAgreesWithClean(b);
  }

  /** What the router holds at a desired entry's position has that entry's path. */
  lemma HeldPath(t: Trie, ns0: Nodes, e: MountEntry)
    requires Inv(t) && AllNormal(t) && Skeleton(ns0) && Compatible(t.nodes, ns0)
    requires Spelled(ns0, e) && Normal(e.path) && Place(e) in Table(t)
    ensures Table(t)[Place(e)].path == e.path
  {
    SpellAgrees(t.nodes, ns0, Place(e));
    NormalPathsAgree(Table(t)[Place(e)].path, e.path);
  }

  lemma DesiredPathFromPlace(cfg: FsConfig, ns0: Nodes, desired: seq<MountEntry>, a: MountEntry, b: MountEntry)
    requires Acceptable(cfg, ns0, desired) && a in desired && b in desired && Place(a) == Place(b)
    ensures a.path == b.path
  {
    NormalPathsAgree(a.path, b.path);
  }

  /** The situation `Reload` starts from. */
  ghost predicate Start(cfg: FsConfig, t: Trie, ns0: Nodes, current: seq<MountEntry>, desired: seq<MountEntry>) {
    && Acceptable(cfg, ns0, desired) && Inv(t) && AllNormal(t) && SkillsNamed(t) && Compatible(t.nodes, ns0)
    && Listing(t, current)
  }

  lemma CurrentIndex(cfg: FsConfig, t: Trie, ns0: Nodes, current: seq<MountEntry>, desired: seq<MountEntry>,
                     e: MountEntry)
    requires Start(cfg, t, ns0, current, desired) && e in desired
    ensures e.path in Index(current) <==> Place(e) in Table(t)
    ensures Place(e) in Table(t) ==> Index(current)[e.path] == Table(t)[Place(e)]
  {
    IndexFacts(current);
    CurrentPathsDistinct(t, current);
    if Place(e) in Table(t) {
      HeldPath(t, ns0, e);
      assert Table(t)[Place(e)] in current;
    }
  }

  lemma CurrentPathsDistinct(t: Trie, current: seq<MountEntry>)
    requires Listing(t, current)
    ensures DistinctPaths(current)
  {
    forall i, j | 0 <= i < j < |current|
      ensures current[i].path != current[j].path
    {
      assert Place(current[i]) != Place(current[j]);
    }
  }

  lemma DesiredIndex(cfg: FsConfig, t: Trie, ns0: Nodes, current: seq<MountEntry>, desired: seq<MountEntry>,
                     x: MountEntry)
    requires Start(cfg, t, ns0, current, desired) && x in current
    ensures Place(x) in Table(t) && Table(t)[Place(x)] == x && Normal(x.path)
    ensures x.path in Index(desired) <==> Place(x) in Places(desired)
  {
    IndexFacts(desired);
    var i :| 0 <= i < |current| && current[i] == x;
    if x.path in Index(desired) {
      InPlaces(desired, Index(desired)[x.path]);
    }
    if Place(x) in Places(desired) {
      var j :| 0 <= j < |desired| && Place(desired[j]) == Place(x);
      HeldPath(t, ns0, desired[j]);
      assert desired[j].path in Index(desired);
    }
  }

  lemma RemovedByPlace(cfg: FsConfig, t: Trie, ns0: Nodes, current: seq<MountEntry>, desired: seq<MountEntry>)
    requires Start(cfg, t, ns0, current, desired)
    ensures var rs := DiffOf(current, desired).removed;
            && (forall r :: r in rs ==> Normal(r.path) && Place(r) in Table(t))
            && Places(rs) == Table(t).Keys - Places(desired)
            && DistinctPlaces(rs)
  {
    var rs := DiffOf(current, desired).removed;
    AddedFacts(Index(desired), current);
    CurrentPathsDistinct(t, current);
    forall r | r in rs
      ensures Normal(r.path) && Place(r) in Table(t) && Table(t)[Place(r)] == r && Place(r) !in Places(desired)
    {
      DesiredIndex(cfg, t, ns0, current, desired, r);
    }
    forall i, j | 0 <= i < j < |rs|
      ensures Place(rs[i]) != Place(rs[j])
    {
      assert rs[i] in rs && rs[j] in rs && rs[i].path != rs[j].path;
    }
    forall p | p in Places(rs)
      ensures p in Table(t).Keys - Places(desired)
    {
      var i :| 0 <= i < |rs| && Place(rs[i]) == p;
      assert rs[i] in rs;
    }
    forall p | p in Table(t).Keys - Places(desired)
      ensures p in Places(rs)
    {
      var x := Table(t)[p];
      assert x in current;
      DesiredIndex(cfg, t, ns0, current, desired, x);
      InPlaces(rs, x);
    }
  }

  lemma AddedByPlace(cfg: FsConfig, t: Trie, ns0: Nodes, current: seq<MountEntry>, desired: seq<MountEntry>)
    requires Start(cfg, t, ns0, current, desired)
    ensures var es := DiffOf(current, desired).added;
            && (forall e :: e in es <==> e in desired && Place(e) !in Table(t))
            && DistinctPlaces(es)
  {
    var es := DiffOf(current, desired).added;
    AddedFacts(Index(current), desired);
    forall e | e in desired
      ensures e in es <==> Place(e) !in Table(t)
    {
      CurrentIndex(cfg, t, ns0, current, desired, e);
    }
    forall i, j | 0 <= i < j < |es|
      ensures Place(es[i]) != Place(es[j])
    {
      assert es[i] in es && es[j] in es;
      if Place(es[i]) == Place(es[j]) {
        DesiredPathFromPlace(cfg, ns0, desired, es[i], es[j]);
      }
    }
  }

  lemma {:induction false} AftersAt(cs: seq<Change>)
    ensures |Afters(cs)| == |cs| && forall i :: 0 <= i < |cs| ==> Afters(cs)[i] == cs[i].after
    decreases |cs|
  {
    if cs != [] {
      AftersAt(cs[..|cs| - 1]);
    }
  }

  lemma ModifiedOne(cfg: FsConfig, t: Trie, ns0: Nodes, current: seq<MountEntry>, desired: seq<MountEntry>, c: Change)
    requires Start(cfg, t, ns0, current, desired) && c in DiffOf(current, desired).modified
    ensures c.after in desired && c.path == c.after.path && Place(c.after) in Table(t)
    ensures !Same(Table(t)[Place(c.after)], c.after)
  {
    ModifiedFacts(Index(current), desired);
    CurrentIndex(cfg, t, ns0, current, desired, c.after);
  }

  lemma ModifiedCovers(cfg: FsConfig, t: Trie, ns0: Nodes, current: seq<MountEntry>, desired: seq<MountEntry>,
                       e: MountEntry)
    requires Start(cfg, t, ns0, current, desired)
    requires e in desired && Place(e) in Table(t) && !Same(Table(t)[Place(e)], e)
    ensures Change(e.path, Table(t)[Place(e)], e) in DiffOf(current, desired).modified
  {
    ModifiedFacts(Index(current), desired);
    CurrentIndex(cfg, t, ns0, current, desired, e);
  }

  lemma ModifiedDistinct(cfg: FsConfig, t: Trie, ns0: Nodes, current: seq<MountEntry>, desired: seq<MountEntry>)
    requires Start(cfg, t, ns0, current, desired)
    ensures DistinctPlaces(Afters(DiffOf(current, desired).modified))
  {
    var cs := DiffOf(current, desired).modified;
    ModifiedFacts(Index(current), desired);
    AftersAt(cs);
    forall i, j | 0 <= i < j < |cs|
      ensures Place(Afters(cs)[i]) != Place(Afters(cs)[j])
    {
      assert cs[i] in cs && cs[j] in cs && cs[i].path != cs[j].path;
      if Place(cs[i].after) == Place(cs[j].after) {
        DesiredPathFromPlace(cfg, ns0, desired, cs[i].after, cs[j].after);
      }
    }
  }

  lemma InAfters(cs: seq<Change>, e: MountEntry)
    ensures e in Afters(cs) <==> exists c :: c in cs && c.after == e
  {
    AftersAt(cs);
    if e in Afters(cs) {
      var i :| 0 <= i < |Afters(cs)| && Afters(cs)[i] == e;
      assert cs[i] in cs;
    }
    if c :| c in cs && c.after == e {
      var i :| 0 <= i < |cs| && cs[i] == c;
      assert Afters(cs)[i] == e;
    }
  }

  lemma ModifiedByPlace(cfg: FsConfig, t: Trie, ns0: Nodes, current: seq<MountEntry>, desired: seq<MountEntry>)
    requires Start(cfg, t, ns0, current, desired)
    ensures var cs := DiffOf(current, desired).modified;
            && (forall c :: c in cs ==> c.after in desired && c.path == c.after.path && Place(c.after) in Table(t))
            && (forall e :: e in Afters(cs) <==>
                  e in desired && Place(e) in Table(t) && !Same(Table(t)[Place(e)], e))
  {
    var cs := DiffOf(current, desired).modified;
    forall c | c in cs
      ensures c.after in desired && c.path == c.after.path && Place(c.after) in Table(t)
      ensures !Same(Table(t)[Place(c.after)], c.after)
    {
      ModifiedOne(cfg, t, ns0, current, desired, c);
    }
    forall e
      ensures e in Afters(cs) <==> e in desired && Place(e) in Table(t) && !Same(Table(t)[Place(e)], e)
    {
      InAfters(cs, e);
      if e in desired && Place(e) in Table(t) && !Same(Table(t)[Place(e)], e) {
        ModifiedCovers(cfg, t, ns0, current, desired, e);
      }
    }
  }

  /** An entry that was there already and compares equal stays; any other ends up as `Mount` stores it. */
  ghost predicate Settled(cfg: FsConfig, tab: Tab, tab': Tab, e: MountEntry, now: int) {
    if Place(e) in tab && Same(tab[Place(e)], e) then Place(e) in tab' && tab'[Place(e)] == tab[Place(e)]
    else MountedAs(cfg, tab', e, now)
  }

  /** The last step, on the four tables between the phases. */
  lemma TablesSettle(cfg: FsConfig, now: int, desired: seq<MountEntry>, tab: Tab, tab1: Tab, tab2: Tab, tab3: Tab,
                     changed: seq<MountEntry>, added: seq<MountEntry>)
    requires tab1 == tab - (tab.Keys - Places(desired))
    requires Progress(cfg, now, tab1, tab2, changed) && Progress(cfg, now, tab2, tab3, added)
    requires tab3.Keys <= Places(desired)
    requires forall e :: e in added <==> e in desired && Place(e) !in tab
    requires forall e :: e in changed <==> e in desired && Place(e) in tab && !Same(tab[Place(e)], e)
    requires forall a, b :: a in desired && b in desired && Place(a) == Place(b) ==> a == b
    ensures tab3.Keys == Places(desired) && forall e :: e in desired ==> Settled(cfg, tab, tab3, e, now)
  {
    forall e | e in desired
      ensures Place(e) in tab3 && Settled(cfg, tab, tab3, e, now)
    {
      InPlaces(desired, e);
      if Place(e) !in tab {
        var i :| 0 <= i < |added| && added[i] == e;
        assert MountedAs(cfg, tab3, added[i], now);
      } else {
        NotPlaced(desired, added, e, tab);
        if Same(tab[Place(e)], e) {
          NotChanged(desired, changed, e, tab);
        } else {
          var i :| 0 <= i < |changed| && changed[i] == e;
          assert MountedAs(cfg, tab2, changed[i], now);
        }
      }
    }
    forall p | p in Places(desired)
      ensures p in tab3
    {
      var i :| 0 <= i < |desired| && Place(desired[i]) == p;
      assert desired[i] in desired;
    }
  }

  lemma NotPlaced(desired: seq<MountEntry>, added: seq<MountEntry>, e: MountEntry, tab: Tab)
    requires forall x :: x in added ==> Place(x) !in tab
    requires Place(e) in tab
    ensures Place(e) !in Places(added)
  {
  }

  lemma NotChanged(desired: seq<MountEntry>, changed: seq<MountEntry>, e: MountEntry, tab: Tab)
    requires forall x :: x in changed ==> x in desired && Place(x) in tab && !Same(tab[Place(x)], x)
    requires forall a, b :: a in desired && b in desired && Place(a) == Place(b) ==> a == b
    requires e in desired && Place(e) in tab && Same(tab[Place(e)], e)
    ensures Place(e) !in Places(changed)
  {
    forall i | 0 <= i < |changed|
      ensures Place(changed[i]) != Place(e)
    {
      assert changed[i] in changed;
    }
  }

  lemma DesiredOneByOne(cfg: FsConfig, ns0: Nodes, desired: seq<MountEntry>, a: MountEntry, b: MountEntry)
    requires Acceptable(cfg, ns0, desired) && a in desired && b in desired && Place(a) == Place(b)
    ensures a == b
  {
    DesiredPathFromPlace(cfg, ns0, desired, a, b);
    IndexFacts(desired);
  }

  /** After the first phase only desired positions are mounted. */
  lemma RemovalSucceeds(cfg: FsConfig, t: Trie, ns0: Nodes, current: seq<MountEntry>, desired: seq<MountEntry>)
    requires Start(cfg, t, ns0, current, desired)
    ensures var (t1, err) := UnmountAll(t, DiffOf(current, desired).removed);
            && err.None? && OnTheWay(cfg, t1, ns0, desired)
            && Table(t1) == Table(t) - (Table(t).Keys - Places(desired))
  {
    var rs := DiffOf(current, desired).removed;
    RemovedByPlace(cfg, t, ns0, current, desired);
    UnmountAllSucceeds(t, rs);
    ClearedStaysCompatible(t, UnmountAll(t, rs).0, Places(rs), ns0);
  }

  /** After the second phase the modified entries are replaced. */
  lemma ReplacementSucceeds(cfg: FsConfig, t: Trie, ns0: Nodes, current: seq<MountEntry>, desired: seq<MountEntry>,
                            now: int)
    requires Start(cfg, t, ns0, current, desired)
    ensures var cs := DiffOf(current, desired).modified;
            var t1 := UnmountAll(t, DiffOf(current, desired).removed).0;
            Root in t1.nodes &&
            var (t2, err) := RemountAll(cfg, t1, cs, now);
            && err.None? && OnTheWay(cfg, t2, ns0, desired) && Progress(cfg, now, Table(t1), Table(t2), Afters(cs))
  {
    var cs := DiffOf(current, desired).modified;
    RemovalSucceeds(cfg, t, ns0, current, desired);
    var t1 := UnmountAll(t, DiffOf(current, desired).removed).0;
    ModifiedByPlace(cfg, t, ns0, current, desired);
    ModifiedDistinct(cfg, t, ns0, current, desired);
    forall c | c in cs
      ensures Place(c.after) in Table(t1)
    {
      InPlaces(desired, c.after);
    }
    hide Progress, DistinctPlaces, DiffOf, UnmountAll, RemountAll, Table;
    RemountAllSucceeds(cfg, t1, ns0, desired, cs, now);
  }

  lemma AdditionsStayFree(cfg: FsConfig, t: Trie, ns0: Nodes, current: seq<MountEntry>, desired: seq<MountEntry>,
                          now: int, tab1: Tab, tab2: Tab)
    requires Start(cfg, t, ns0, current, desired) && tab1 == Table(t) - (Table(t).Keys - Places(desired))
    requires Progress(cfg, now, tab1, tab2, Afters(DiffOf(current, desired).modified))
    ensures DistinctPlaces(DiffOf(current, desired).added)
    ensures forall e :: e in DiffOf(current, desired).added ==> e in desired && Place(e) !in tab2
  {
    ModifiedByPlace(cfg, t, ns0, current, desired);
    AddedByPlace(cfg, t, ns0, current, desired);
    hide Progress, DiffOf, Table, Afters, Same;
    AddedStillFree(cfg, now, Table(t), tab1, tab2, DiffOf(current, desired).modified, DiffOf(current, desired).added);
  }

  /** All three phases succeed. */
  lemma PhasesSucceed(cfg: FsConfig, t: Trie, ns0: Nodes, current: seq<MountEntry>, desired: seq<MountEntry>, now: int)
    requires Start(cfg, t, ns0, current, desired)
    ensures var d := DiffOf(current, desired);
            var t1 := UnmountAll(t, d.removed).0;
            Root in t1.nodes &&
            var t2 := RemountAll(cfg, t1, d.modified, now).0;
            var (t3, err) := Reload(cfg, t, current, desired, now);
            && err.None? && OnTheWay(cfg, t3, ns0, desired)
            && Table(t1) == Table(t) - (Table(t).Keys - Places(desired))
            && Progress(cfg, now, Table(t1), Table(t2), Afters(d.modified))
            && Progress(cfg, now, Table(t2), Table(t3), d.added)
  {
    var d := DiffOf(current, desired);
    RemovalSucceeds(cfg, t, ns0, current, desired);
    var t1 := UnmountAll(t, d.removed).0;
    ReplacementSucceeds(cfg, t, ns0, current, desired, now);
    var t2 := RemountAll(cfg, t1, d.modified, now).0;
    AdditionsStayFree(cfg, t, ns0, current, desired, now, Table(t1), Table(t2));
    hide Progress, DistinctPlaces, DiffOf, UnmountAll, RemountAll, MountAll, OnTheWay, Table, Afters, Same;
    MountAllSucceeds(cfg, t2, ns0, desired, d.added, now);
  }

  /** `x` has the settings of the configured entry `e`, and where those are zero, perhaps the defaults. */
  predicate HoldsSettings(cfg: FsConfig, x: MountEntry, e: MountEntry, now: int) {
    && x.path == e.path && x.kind == e.kind && x.blob == e.blob && x.linkPath == e.linkPath
    && x.visibility == e.visibility
    && (x.mode == e.mode || (e.mode == 0 && x.mode == 292))
    && (x.uid == e.uid || (e.uid == 0 && x.uid == cfg.uid))
    && (x.gid == e.gid || (e.gid == 0 && x.gid == cfg.gid))
    && (x.modTime == e.modTime || (e.modTime == 0 && x.modTime == now))
    && match (x.stream, e.stream) {
         case (Some(a), Some(b)) => a.capacity == b.capacity && a.mode == b.mode
         case (a, b) => a == b
       }
    && match (x.skill, e.skill) {
         case (Some(a), Some(b)) => a.name == b.name && a.enabled == b.enabled
         case (a, b) => a == b
       }
  }

  /** What a settled entry looks like, field by field; unless it was there before, it is `e` with its defaults. */
  lemma SettledMeans(cfg: FsConfig, tab: Tab, tab': Tab, e: MountEntry, now: int)
    requires Settled(cfg, tab, tab', e, now) && Place(e) in tab' && tab'[Place(e)].path == e.path
    ensures HoldsSettings(cfg, tab'[Place(e)], e, now)
    ensures Place(e) !in tab || tab'[Place(e)] != tab[Place(e)] ==>
              var x := tab'[Place(e)];
              x == e.(id := x.id,
                      mode := if e.mode == 0 then 292 else e.mode,
                      uid := if e.uid == 0 then cfg.uid else e.uid,
                      gid := if e.gid == 0 then cfg.gid else e.gid,
                      modTime := if e.modTime == 0 then now else e.modTime)
  {
  }

  /**
   * `Reload` succeeds, mounts exactly the configured positions, and each holds its entry's settings; what it had to
   * mount is the configured entry with its defaults.
   */
  lemma ReloadSucceeds(cfg: FsConfig, t: Trie, ns0: Nodes, current: seq<MountEntry>, desired: seq<MountEntry>, now: int)
    requires Start(cfg, t, ns0, current, desired)
    ensures var (t', err) := Reload(cfg, t, current, desired, now);
            && err.None? && Inv(t') && Table(t').Keys == Places(desired)
            && forall e :: e in desired ==>
                 && Place(e) in Table(t')
                 && var x := Table(t')[Place(e)];
                    && HoldsSettings(cfg, x, e, now)
                    && (Place(e) !in Table(t) || x != Table(t)[Place(e)] ==>
                          x == e.(id := x.id,
                                  mode := if e.mode == 0 then 292 else e.mode,
                                  uid := if e.uid == 0 then cfg.uid else e.uid,
                                  gid := if e.gid == 0 then cfg.gid else e.gid,
                                  modTime := if e.modTime == 0 then now else e.modTime))
  {
    hide DiffOf, Reload, Start, Table, Inv, Settled, HoldsSettings, Place;
    StartHasRoot(cfg, t, ns0, current, desired);
    ReloadSettles(cfg, t, ns0, current, desired, now);
    var t' := Reload(cfg, t, current, desired, now).0;
    forall e | e in desired
      ensures HoldsSettings(cfg, Table(t')[Place(e)], e, now)
      ensures Place(e) !in Table(t) || Table(t')[Place(e)] != Table(t)[Place(e)] ==>
                var x := Table(t')[Place(e)];
                x == e.(id := x.id,
                        mode := if e.mode == 0 then 292 else e.mode,
                        uid := if e.uid == 0 then cfg.uid else e.uid,
                        gid := if e.gid == 0 then cfg.gid else e.gid,
                        modTime := if e.modTime == 0 then now else e.modTime)
    {
      SettledMeans(cfg, Table(t), Table(t'), e, now);
    }
  }

  lemma StartHasRoot(cfg: FsConfig, t: Trie, ns0: Nodes, current: seq<MountEntry>, desired: seq<MountEntry>)
    requires Start(cfg, t, ns0, current, desired)
    ensures Root in t.nodes
  {
  }

  /** `Reload` succeeds, mounts exactly the configured positions, and settles every configured entry. */
  lemma ReloadSettles(cfg: FsConfig, t: Trie, ns0: Nodes, current: seq<MountEntry>, desired: seq<MountEntry>, now: int)
    requires Start(cfg, t, ns0, current, desired)
    ensures var (t', err) := Reload(cfg, t, current, desired, now);
            && err.None? && Inv(t') && Table(t').Keys == Places(desired)
            && forall e :: e in desired ==>
                 && Place(e) in Table(t') && Table(t')[Place(e)].path == e.path
                 && Settled(cfg, Table(t), Table(t'), e, now)
  {
    PhasesSucceed(cfg, t, ns0, current, desired, now);
    var d := DiffOf(current, desired);
    var t1 := UnmountAll(t, d.removed).0;
    var t2 := RemountAll(cfg, t1, d.modified, now).0;
    var t3 := Reload(cfg, t, current, desired, now).0;
    ModifiedByPlace(cfg, t, ns0, current, desired);
    AddedByPlace(cfg, t, ns0, current, desired);
    hide Progress, DiffOf, UnmountAll, RemountAll, MountAll, Reload, Table, Afters, Same, Inv, Settled, SkillsNamed;
    forall a, b | a in desired && b in desired && Place(a) == Place(b)
      ensures a == b
    {
      DesiredOneByOne(cfg, ns0, desired, a, b);
    }
    TablesSettle(cfg, now, desired, Table(t), Table(t1), Table(t2), Table(t3), Afters(d.modified), d.added);
    forall e | e in desired
      ensures Place(e) in Table(t3) && Table(t3)[Place(e)].path == e.path
    {
      SettledPath(cfg, t, ns0, Table(t3), e, now);
    }
  }

  lemma SettledPath(cfg: FsConfig, t: Trie, ns0: Nodes, tab': Tab, e: MountEntry, now: int)
    requires Inv(t) && AllNormal(t) && Skeleton(ns0) && Compatible(t.nodes, ns0)
    requires Spelled(ns0, e) && Normal(e.path) && Settled(cfg, Table(t), tab', e, now)
    ensures Place(e) in tab' && tab'[Place(e)].path == e.path
  {
    if !MountedAs(cfg, tab', e, now) {
      HeldPath(t, ns0, e);
    }
  }

  lemma AddedStillFree(cfg: FsConfig, now: int, tab: Tab, tab1: Tab, tab2: Tab, cs: seq<Change>, added: seq<MountEntry>)
    requires tab1.Keys <= tab.Keys && Progress(cfg, now, tab1, tab2, Afters(cs))
    requires forall e :: e in Afters(cs) ==> Place(e) in tab
    requires forall e :: e in added ==> Place(e) !in tab
    ensures forall e :: e in added ==> Place(e) !in tab2
  {
    forall e | e in added
      ensures Place(e) !in tab2
    {
      forall i | 0 <= i < |Afters(cs)|
        ensures Place(Afters(cs)[i]) != Place(e)
      {
        assert Afters(cs)[i] in Afters(cs);
      }
    }
  }
}
