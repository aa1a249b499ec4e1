/** Exactly which configurations a reload takes in (cmd/skills-fs/config.go). */
module ReloadExact {
  import opened Bytes
  import opened Paths
  import opened Entries
  import opened Trie
  import opened TrieRuns
  import opened Snapshots
  import opened Diff
  import opened Filesystem
  import opened Lookups
  import opened Consistency
  import opened FsEffects
  import Reloading

  /**
   * What every reload starts from: a filesystem in order, its snapshot, and mountable entries with distinct paths
   * within the limit. Nothing is said about parameter names.
   */
  ghost predicate Ready(cfg: FsConfig, t: Trie, current: seq<MountEntry>, desired: seq<MountEntry>) {
    && Inv(t) && Reloading.AllNormal(t) && Reloading.SkillsNamed(t) && Listing(t, current)
    && DistinctPaths(desired) && (cfg.maxMounts > 0 ==> |desired| <= cfg.maxMounts)
    && forall e :: e in desired ==> Mountable(cfg, e.path, e) && SkillFree(e)
  }

  // ---- a consistent configuration is taken in ----

  /** The skeleton that a consistent list leads to spells every entry of it, as the router does what they share. */
  lemma ConsistentSkeleton(t: Trie, current: seq<MountEntry>, desired: seq<MountEntry>) returns (ns0: Nodes)
    requires Inv(t) && Listing(t, current) && Consistent(t.nodes, desired)
    ensures Skeleton(ns0) && Compatible(t.nodes, ns0)
    ensures forall e :: e in desired ==> Reloading.Spelled(ns0, e)
  {
    SnapshotClears(t, current);
    var t0 := RemoveAll(t, current);
    ConsistentSame(t.nodes, t0.nodes, desired);
    AddAllIff(t0, desired);
    var u := AddAll(t0, desired).0;
    ns0 := u.nodes;
    hide Consistent, Listing, GrownBy;
    ExtendsTransitive(t.nodes, t0.nodes, u.nodes);
    forall e | e in desired
      ensures Reloading.Spelled(ns0, e)
    {
      HeldIsSpelled(u, desired, e);
    }
  }

  lemma HeldIsSpelled(u: Trie, es: seq<MountEntry>, e: MountEntry)
    requires Inv(u) && HoldsAll(Table(u), es) && e in es
    ensures Reloading.Spelled(u.nodes, e)
  {
    var i :| 0 <= i < |es| && es[i] == e;
    var x := Table(u)[Place(es[i])];
    assert x.path == x.(id := 0).path && e.path == e.(id := 0).path;
  }

  lemma ConsistentSucceeds(cfg: FsConfig, t: Trie, current: seq<MountEntry>, desired: seq<MountEntry>, now: int)
    requires Ready(cfg, t, current, desired) && Consistent(t.nodes, desired)
    ensures Root in t.nodes
    ensures var (t', err) := Reload(cfg, t, current, desired, now);
            && err.None? && Table(t').Keys == Places(desired)
            && forall e :: e in desired ==> Reloading.HoldsSettings(cfg, Table(t')[Place(e)], e, now)
  {
    hide Consistent, Inv, Listing, Compatible, Skeleton, Reloading.Spelled, Mountable, SkillFree, Reload;
    hide Reloading.HoldsSettings;
    HasRoot(t);
    var ns0 := ConsistentSkeleton(t, current, desired);
    assert Reloading.Start(cfg, t, ns0, current, desired);
    Reloading.ReloadSucceeds(cfg, t, ns0, current, desired, now);
  }

  // ---- what a reload that succeeds leaves ----

  /** The entry is mounted at its place under its own path. */
  ghost predicate MountedAs(m: Tab, e: MountEntry) {
    Place(e) in m && m[Place(e)].path == e.path
  }

  /** A router on the way: grown from the first one, with all of `es` mounted. */
  ghost predicate OnTheWay(t: Trie, t1: Trie, es: set<MountEntry>) {
    Inv(t1) && Extends(t.nodes, t1.nodes) && forall e :: e in es ==> MountedAs(Table(t1), e)
  }

  /** Mounting a skill-free entry is one insertion at a free place, if it succeeds. */
  lemma MountInserts(cfg: FsConfig, t: Trie, e: MountEntry, now: int)
    requires Inv(t) && SkillFree(e) && Normal(e.path)
    ensures Root in t.nodes
    ensures var (t', err) := Mount(cfg, t, e.path, e, now);
            && Inv(t') && Extends(t.nodes, t'.nodes)
            && (err.None? ==>
                  && Place(e) !in Table(t) && MountedAs(Table(t'), e)
                  && forall p :: p in Table(t) ==> p in Table(t') && Table(t')[p] == Table(t)[p])
            && (err.Some? ==> Table(t') == Table(t))
  {
    hide Inv, Table, Mount, Add, CanMount, Extends, Normal, Accepts;
    HasRoot(t);
    NormalAgreesWithClean(e.path);
    MountStart(cfg, t, e.path, e, now);
    MountEffect(cfg, t, e.path, e, now);
    MountExtends(cfg, t, e, now);
    if Mount(cfg, t, e.path, e, now).1.None? {
      FreePlace(cfg, t, e);
    }
  }

  lemma FreePlace(cfg: FsConfig, t: Trie, e: MountEntry)
    requires CanMount(cfg, t, e.path, e)
    ensures Place(e) !in Table(t) && CleanParts(e.path).Some?
  {
  }

  lemma MountExtends(cfg: FsConfig, t: Trie, e: MountEntry, now: int)
    requires Inv(t) && SkillFree(e)
    ensures Root in t.nodes
    ensures Extends(t.nodes, Mount(cfg, t, e.path, e, now).0.nodes)
  {
    hide Inv, Add, Extends, Accepts, Table, Normal, Reserved, WellConfigured, OpsBound;
    HasRoot(t);
    AddRefines(t, Prepared(cfg, e.path, e, now));
    ExtendsItself(t.nodes);
  }

  // ---- first phase ----

  /** The configured entries whose paths are mounted already. */
  ghost function Kept(current: seq<MountEntry>, desired: seq<MountEntry>): set<MountEntry> {
    set e | e in desired && e.path in Index(current)
  }

  lemma KeptStays(cfg: FsConfig, t: Trie, current: seq<MountEntry>, desired: seq<MountEntry>, e: MountEntry)
    requires Ready(cfg, t, current, desired) && e in Kept(current, desired)
    ensures MountedAs(Table(t), e) && Place(e) !in Places(DiffOf(current, desired).removed)
  {
    hide Index, Table, Inv, Normal, Mountable, SkillFree;
    var rs := DiffOf(current, desired).removed;
    IndexFacts(desired);
    AddedFacts(Index(desired), current);
    KeptIsMounted(t, current, e);
    forall i | 0 <= i < |rs|
      ensures Place(rs[i]) != Place(e)
    {
      assert rs[i] in rs && rs[i].path != e.path;
      InListing(t, current, rs[i]);
    }
  }

  lemma ClearedOnTheWay(t: Trie, t1: Trie, gone: set<Pos>, kept: set<MountEntry>)
    requires Cleared(t, t1, gone) && forall e :: e in kept ==> MountedAs(Table(t), e) && Place(e) !in gone
    ensures OnTheWay(t, t1, kept)
  {
    hide Inv, Table, Extends;
  }

  /** Removing what the configuration does not name keeps what it does. */
  lemma RemovalKeeps(cfg: FsConfig, t: Trie, current: seq<MountEntry>, desired: seq<MountEntry>)
    requires Ready(cfg, t, current, desired)
    ensures OnTheWay(t, UnmountAll(t, DiffOf(current, desired).removed).0, Kept(current, desired))
  {
    hide OnTheWay, Inv, Table, Normal, UnmountAll, Kept, Cleared, Listing, MountedAs, Mountable, SkillFree;
    var rs := DiffOf(current, desired).removed;
    RemovedInOrder(cfg, t, current, desired, rs);
    Reloading.UnmountAllSucceeds(t, rs);
    forall e | e in Kept(current, desired)
      ensures MountedAs(Table(t), e) && Place(e) !in Places(rs)
    {
      KeptStays(cfg, t, current, desired, e);
    }
    ClearedOnTheWay(t, UnmountAll(t, rs).0, Places(rs), Kept(current, desired));
  }

  lemma InListing(t: Trie, current: seq<MountEntry>, r: MountEntry)
    requires Listing(t, current) && r in current
    ensures Place(r) in Table(t) && Table(t)[Place(r)] == r
  {
    var i :| 0 <= i < |current| && current[i] == r;
  }

  /** An entry whose path is mounted is mounted there. */
  lemma KeptIsMounted(t: Trie, current: seq<MountEntry>, e: MountEntry)
    requires Listing(t, current) && e.path in Index(current)
    ensures MountedAs(Table(t), e)
  {
    IndexFacts(current);
    InListing(t, current, Index(current)[e.path]);
  }

  lemma RemovedInOrder(cfg: FsConfig, t: Trie, current: seq<MountEntry>, desired: seq<MountEntry>, rs: seq<MountEntry>)
    requires Ready(cfg, t, current, desired) && rs == AddedTo(Index(desired), current)
    ensures forall i :: 0 <= i < |rs| ==> Normal(rs[i].path) && Place(rs[i]) in Table(t)
    ensures forall i, j :: 0 <= i < j < |rs| ==> Place(rs[i]) != Place(rs[j])
  {
    AddedFacts(Index(desired), current);
    Reloading.CurrentPathsDistinct(t, current);
    forall i | 0 <= i < |rs|
      ensures Normal(rs[i].path) && Place(rs[i]) in Table(t) && Table(t)[Place(rs[i])] == rs[i]
    {
      assert rs[i] in rs;
      InListing(t, current, rs[i]);
    }
  }

  // ---- second phase ----

  lemma RemountKeeps(cfg: FsConfig, t: Trie, t1: Trie, c: Change, kept: set<MountEntry>, now: int)
    requires OnTheWay(t, t1, kept) && c.after in kept && c.path == c.after.path
    requires Normal(c.path) && SkillFree(c.after)
    requires forall a, b :: a in kept && b in kept && a.path == b.path ==> a == b
    ensures Root in t1.nodes
    ensures Remount(cfg, t1, c, now).1.None? ==> OnTheWay(t, Remount(cfg, t1, c, now).0, kept)
  {
    hide Inv, Table, Mount, Extends, Normal, SkillFree, Remove;
    HasRoot(t1);
    NormalAgreesWithClean(c.path);
    RemoveRefines(t1, c.path);
    var e, t2 := c.after, Unmount(t1, c.path).0;
    ExtendsItself(t1.nodes);
    ExtendsTransitive(t.nodes, t1.nodes, t2.nodes);
    MountInserts(cfg, t2, e, now);
    var t3 := Mount(cfg, t2, e.path, e, now).0;
    ExtendsTransitive(t.nodes, t2.nodes, t3.nodes);
    if Remount(cfg, t1, c, now).1.None? {
      forall x | x in kept
        ensures MountedAs(Table(t3), x)
      {
        if x != e {
          assert Place(x) != Place(e);
          assert Place(x) in Table(t2);
        }
      }
    }
  }

  lemma {:induction false} RemountAllKeeps(cfg: FsConfig, t: Trie, t1: Trie, cs: seq<Change>, kept: set<MountEntry>,
                                           now: int)
    requires OnTheWay(t, t1, kept)
    requires forall c :: c in cs ==> c.after in kept && c.path == c.after.path && Normal(c.path) && SkillFree(c.after)
    requires forall a, b :: a in kept && b in kept && a.path == b.path ==> a == b
    ensures Root in t1.nodes
    ensures RemountAll(cfg, t1, cs, now).1.None? ==> OnTheWay(t, RemountAll(cfg, t1, cs, now).0, kept)
    decreases |cs|
  {
    hide OnTheWay, Normal, SkillFree, Remount;
    WayHasRoot(t, t1, kept);
    if cs != [] {
      var init, last := cs[..|cs| - 1], cs[|cs| - 1];
      assert last in cs && forall c :: c in init ==> c in cs;
      RemountAllKeeps(cfg, t, t1, init, kept, now);
      var (t2, err) := RemountAll(cfg, t1, init, now);
      if err.None? {
        RemountKeeps(cfg, t, t2, last, kept, now);
      }
    }
  }

  lemma WayHasRoot(t: Trie, t1: Trie, kept: set<MountEntry>)
    requires OnTheWay(t, t1, kept)
    ensures Root in t1.nodes
  {
  }

  // ---- third phase ----

  function AsSet(es: seq<MountEntry>): set<MountEntry> {
    set e | e in es
  }

  lemma MountKeepsAll(cfg: FsConfig, t: Trie, t1: Trie, e: MountEntry, kept: set<MountEntry>, now: int)
    requires OnTheWay(t, t1, kept) && Normal(e.path) && SkillFree(e)
    ensures Root in t1.nodes
    ensures Mount(cfg, t1, e.path, e, now).1.None? ==> OnTheWay(t, Mount(cfg, t1, e.path, e, now).0, kept + {e})
  {
    hide Inv, Table, Mount, Extends, Normal, SkillFree;
    HasRoot(t1);
    MountInserts(cfg, t1, e, now);
    ExtendsTransitive(t.nodes, t1.nodes, Mount(cfg, t1, e.path, e, now).0.nodes);
  }

  lemma {:induction false} MountAllKeeps(cfg: FsConfig, t: Trie, t1: Trie, es: seq<MountEntry>, kept: set<MountEntry>,
                                         now: int)
    requires OnTheWay(t, t1, kept) && forall e :: e in es ==> Normal(e.path) && SkillFree(e)
    ensures Root in t1.nodes
    ensures MountAll(cfg, t1, es, now).1.None? ==> OnTheWay(t, MountAll(cfg, t1, es, now).0, kept + AsSet(es))
    decreases |es|
  {
    hide OnTheWay, Normal, SkillFree, Mount;
    WayHasRoot(t, t1, kept);
    if es == [] {
      assert kept + AsSet(es) == kept;
    } else {
      var init, last := es[..|es| - 1], es[|es| - 1];
      assert last in es && forall e :: e in init ==> e in es;
      MountAllKeeps(cfg, t, t1, init, kept, now);
      var (t2, err) := MountAll(cfg, t1, init, now);
      if err.None? {
        MountKeepsAll(cfg, t, t2, last, kept + AsSet(init), now);
        assert kept + AsSet(init) + {last} == kept + AsSet(es) by {
          assert es == init + [last];
        }
      }
    }
  }

  // ---- together ----

  lemma ChangesAreKept(cfg: FsConfig, t: Trie, current: seq<MountEntry>, desired: seq<MountEntry>)
    requires Ready(cfg, t, current, desired)
    ensures forall c :: c in DiffOf(current, desired).modified ==>
              c.after in Kept(current, desired) && c.path == c.after.path && Normal(c.path) && SkillFree(c.after)
    ensures forall a, b :: a in Kept(current, desired) && b in Kept(current, desired) && a.path == b.path ==> a == b
  {
    hide Inv, Index, Normal, SkillFree, Listing;
    ModifiedFacts(Index(current), desired);
    OnePath(desired);
  }

  lemma RestIsAdded(cfg: FsConfig, t: Trie, current: seq<MountEntry>, desired: seq<MountEntry>)
    requires Ready(cfg, t, current, desired)
    ensures Kept(current, desired) + AsSet(DiffOf(current, desired).added) == AsSet(desired)
    ensures forall e :: e in DiffOf(current, desired).added ==> Normal(e.path) && SkillFree(e)
  {
    hide Inv, Index, Normal, SkillFree, Listing;
    AddedFacts(Index(current), desired);
  }

  /** A reload that succeeds leaves every configured entry mounted under its path. */
  lemma SuccessMountsAll(cfg: FsConfig, t: Trie, current: seq<MountEntry>, desired: seq<MountEntry>, now: int)
    requires Ready(cfg, t, current, desired)
    ensures Root in t.nodes
    ensures var (t', err) := Reload(cfg, t, current, desired, now);
            err.None? ==> OnTheWay(t, t', AsSet(desired))
  {
    hide OnTheWay, Normal, SkillFree, Inv, UnmountAll, RemountAll, MountAll, DiffOf, Listing, Kept, AsSet, Mountable;
    HasRoot(t);
    var d, kept := DiffOf(current, desired), Kept(current, desired);
    RemovalKeeps(cfg, t, current, desired);
    ChangesAreKept(cfg, t, current, desired);
    RestIsAdded(cfg, t, current, desired);
    var t1 := UnmountAll(t, d.removed).0;
    WayHasRoot(t, t1, kept);
    RemountAllKeeps(cfg, t, t1, d.modified, kept, now);
    var (t2, err) := RemountAll(cfg, t1, d.modified, now);
    if err.None? {
      MountAllKeeps(cfg, t, t2, d.added, kept, now);
    }
  }

  lemma OnePath(es: seq<MountEntry>)
    requires DistinctPaths(es)
    ensures forall a, b :: a in es && b in es && a.path == b.path ==> a == b
  {
    IndexFacts(es);
  }

  /** What a larger skeleton accepts, a smaller one does. */
  lemma {:induction false} AcceptsEarlier(ns: Nodes, ns': Nodes, b: seq<string>)
    requires Extends(ns, ns') && Accepts(ns', b)
    ensures Accepts(ns, b)
    decreases |b|
  {
    if b != [] {
      AcceptsEarlier(ns, ns', Init(b));
    }
  }

  lemma MountedIsSpelled(t: Trie, t': Trie, e: MountEntry)
    requires Inv(t') && Extends(t.nodes, t'.nodes) && MountedAs(Table(t'), e)
    ensures Addable(t.nodes, e) && PosOf(PartsIn(e)) == Place(e) && Spell(t'.nodes, Place(e)) == PartsIn(e)
  {
    SpellLeadsBack(t'.nodes, Place(e));
    AcceptsIffSpelled(t'.nodes, PartsIn(e));
    AcceptsEarlier(t.nodes, t'.nodes, PartsIn(e));
  }

  /** Entries mounted side by side were consistent with the router before. */
  lemma MountedIsConsistent(t: Trie, t': Trie, es: seq<MountEntry>)
    requires OnTheWay(t, t', AsSet(es)) && DistinctPaths(es)
    ensures Consistent(t.nodes, es)
  {
    forall i | 0 <= i < |es|
      ensures Addable(t.nodes, es[i]) && PosOf(PartsIn(es[i])) == Place(es[i])
      ensures Spell(t'.nodes, Place(es[i])) == PartsIn(es[i]) && MountedAs(Table(t'), es[i])
    {
      assert es[i] in AsSet(es);
      MountedIsSpelled(t, t', es[i]);
    }
    hide Inv, Addable, Agree, Table, Extends, PartsIn;
    forall i, j | 0 <= i < j < |es|
      ensures Fit(es[i], es[j])
    {
      SpelledAgree(t'.nodes, PartsIn(es[i]), PartsIn(es[j]));
    }
  }

  /**
   * A reload of mountable entries succeeds exactly when they are consistent with the router: each path accepted
   * as it is, no two at one place, and shared parameters named alike. It then ends with exactly their places mounted,
   * each under the configured path and with the configured settings.
   */
  lemma ReloadSucceedsIff(cfg: FsConfig, t: Trie, current: seq<MountEntry>, desired: seq<MountEntry>, now: int)
    requires Ready(cfg, t, current, desired)
    ensures Root in t.nodes
    ensures Reload(cfg, t, current, desired, now).1.None? <==> Consistent(t.nodes, desired)
    ensures var (t', err) := Reload(cfg, t, current, desired, now);
            err.None? ==>
              && Table(t').Keys == Places(desired)
              && forall e :: e in desired ==>
                   Place(e) in Table(t') && Reloading.HoldsSettings(cfg, Table(t')[Place(e)], e, now)
  {
    hide OnTheWay, Consistent, Inv, Listing, Reload, Mountable, SkillFree, Reloading.HoldsSettings;
    HasRoot(t);
    if Consistent(t.nodes, desired) {
      ConsistentSucceeds(cfg, t, current, desired, now);
    }
    SuccessMountsAll(cfg, t, current, desired, now);
    if Reload(cfg, t, current, desired, now).1.None? {
      MountedIsConsistent(t, Reload(cfg, t, current, desired, now).0, desired);
    }
  }

  // ---- a parameter cannot be given another name ----

  lemma OneParam(path: string, name: string)
    requires path == "/:" + name && name != "" && '/' !in name
    ensures Normal(path) && CleanParts(path) == Some([":" + name]) && PosOf([":" + name]) == Child(Root, Param)
  {
    var s := ":" + name;
    assert s[0] == ':' && |s| > 1 && '/' !in s && path == "/" + s;
    OneSegment(s);
  }

  /** A router that names its parameter otherwise does not accept the path. */
  lemma OtherNameRefused(t: Trie, name: string, other: string)
    requires Inv(t) && Child(Root, Param) in Table(t) && name != other
    requires CleanParts(Table(t)[Child(Root, Param)].path) == Some([":" + name])
    requires PosOf([":" + name]) == Child(Root, Param)
    ensures !Accepts(t.nodes, [":" + other])
  {
    var p, parts := Child(Root, Param), [":" + other];
    assert Spell(t.nodes, p) == [":" + name];
    assert Spell(t.nodes, Root) == [];
    assert Spell(t.nodes, p) == [] + [":" + t.nodes[Root].paramKey];
    assert (":" + name)[1..] == name && (":" + other)[1..] == other;
    assert (":" + t.nodes[Root].paramKey)[1..] == t.nodes[Root].paramKey;
    assert ([] + [":" + t.nodes[Root].paramKey])[0] == [":" + name][0];
    assert t.nodes[Root].paramKey == name;
    assert NodeOk(t.nodes, p);
    assert Init(parts) == [] && End(parts) == ":" + other && PosOf([]) == Root;
    assert IsParam(":" + other);
    assert !AcceptsStep(t.nodes, Root, ":" + other);
  }

  /**
   * With "/:id" mounted alone, a configuration with "/:uid" alone makes the reload fail after it has unmounted the
   * first: nothing is mounted any more.
   */
  lemma RenamedParameterFails(cfg: FsConfig, t: Trie, x: MountEntry, e: MountEntry, now: int)
    requires Ready(cfg, t, [x], [e]) && x.path == "/:id" && e.path == "/:uid"
    ensures Root in t.nodes
    ensures var (t', err) := Reload(cfg, t, [x], [e], now); err.Some? && Table(t') == map[]
  {
    hide Inv, CleanParts, PosOf, Normal, Consistent, Listing, Mountable, SkillFree, Reload, Table;
    IdPaths();
    HasRoot(t);
    NotTaken(cfg, t, x, e);
    ReloadSucceedsIff(cfg, t, [x], [e], now);
    OnlyRemoved(cfg, t, x, e, now);
  }

  lemma IdPaths()
    ensures CleanParts("/:id") == Some([":id"]) && CleanParts("/:uid") == Some([":uid"])
    ensures PosOf([":id"]) == Child(Root, Param) && "/:id" != "/:uid"
  {
    assert "/:id" == "/:" + "id" && "/:uid" == "/:" + "uid" && "id"[0] != "uid"[0];
    OneParam("/:id", "id");
    OneParam("/:uid", "uid");
    assert ":id" == ":" + "id" && ":uid" == ":" + "uid";
    hide CleanParts, Normal;
    assert "/:id"[2] != "/:uid"[2];
  }

  lemma NotTaken(cfg: FsConfig, t: Trie, x: MountEntry, e: MountEntry)
    requires Ready(cfg, t, [x], [e]) && CleanParts(x.path) == Some([":id"]) && CleanParts(e.path) == Some([":uid"])
    requires PosOf([":id"]) == Child(Root, Param)
    ensures !Consistent(t.nodes, [e])
  {
    hide Inv, CleanParts, PosOf, Normal, Mountable, SkillFree, Accepts, Table, Agree;
    InListing(t, [x], x);
    assert ":id" == ":" + "id" && ":uid" == ":" + "uid";
    OtherNameRefused(t, "id", "uid");
    assert !Addable(t.nodes, [e][0]);
  }

  lemma OnlyRemoved(cfg: FsConfig, t: Trie, x: MountEntry, e: MountEntry, now: int)
    requires Ready(cfg, t, [x], [e]) && x.path != e.path
    ensures Root in t.nodes
    ensures var (t', err) := Reload(cfg, t, [x], [e], now); err.Some? ==> Table(t') == map[]
  {
    DiffOfTwo(x, e);
    RemovedInOrder(cfg, t, [x], [e], [x]);
    hide Inv, CleanParts, PosOf, Normal, Listing, SkillFree, Mount, Unmount, DiffOf, Table, Extends;
    HasRoot(t);
    Reloading.UnmountAllSucceeds(t, [x]);
    var t1 := UnmountAll(t, [x]).0;
    AllRemoved(t, x);
    assert [e][..0] == [] && [e][|[e]| - 1] == e;
    HasRoot(t1);
    assert MountAll(cfg, t1, [], now) == (t1, None);
    assert MountAll(cfg, t1, [e], now) == Mount(cfg, t1, e.path, e, now);
    assert RemountAll(cfg, t1, [], now) == (t1, None);
    assert Mountable(cfg, e.path, e) && SkillFree(e) by { assert e in [e]; }
    MountInserts(cfg, t1, e, now);
  }

  lemma DiffOfTwo(x: MountEntry, e: MountEntry)
    requires x.path != e.path
    ensures DiffOf([x], [e]) == SnapshotDiff([e], [x], []) && [x] == AddedTo(Index([e]), [x])
  {
    assert [x][..0] == [] && [e][..0] == [];
    assert Index([]) == map[];
    assert Index([x]) == map[x.path := x] && Index([e]) == map[e.path := e];
    var before, after := Index([x]), Index([e]);
    assert AddedTo(before, []) == [] && AddedTo(after, []) == [] && ModifiedIn(before, []) == [];
    hide Index;
    assert AddedTo(before, [e]) == [] + [e] && AddedTo(after, [x]) == [] + [x] && ModifiedIn(before, [e]) == [] + [];
  }

  lemma AllRemoved(t: Trie, x: MountEntry)
    requires Listing(t, [x]) && [x][..0] == []
    ensures Table(t) - Places([x]) == map[]
  {
    PlacesSnoc([x]);
    forall p | p in Table(t)
      ensures p in Places([x])
    {
      assert Table(t)[p] in [x];
    }
  }
}
