/** What Mount, Rename and Restore do to the table of mounts (core/filesystem.go). */
module FsEffects {
  import opened Bytes
  import opened Paths
  import opened Entries
  import opened Trie
  import opened TrieRuns
  import opened Snapshots
  import opened Filesystem
  import opened Consistency

  lemma InsertSize(m: Tab, p: Pos, e: MountEntry)
    ensures |m[p := e]| == if p in m then |m| else |m| + 1
  {
    if p in m {
      assert m[p := e].Keys == m.Keys;
    } else {
      assert m[p := e].Keys == m.Keys + {p};
    }
  }

  lemma DeleteSize(m: Tab, p: Pos)
    ensures |m - {p}| == if p in m then |m| - 1 else |m|
  {
    if p in m {
      assert m.Keys == (m - {p}).Keys + {p};
    } else {
      assert m - {p} == m;
    }
  }

  // ---- a skill's files at the root ----

  function AtSkill(): Pos {
    Child(Root, Static("SKILL.md"))
  }

  function AtAgents(): Pos {
    Child(Root, Static("AGENTS.md"))
  }

  /** The path names one static segment of the root, at `p`. */
  ghost predicate NamesAtRoot(path: string, p: Pos) {
    && Normal(path) && p.Child? && p.up == Root && p.edge.Static? && !IsParam(p.edge.name)
    && CleanParts(path) == Some([p.edge.name]) && PosOf([p.edge.name]) == p
  }

  lemma SkillAtRoot()
    ensures NamesAtRoot(SkillPath(), AtSkill())
  {
    assert SkillPath() == "/" + "SKILL.md";
    OneSegment("SKILL.md");
  }

  lemma AgentsAtRoot()
    ensures NamesAtRoot(AgentsPath(), AtAgents())
  {
    assert AgentsPath() == "/" + "AGENTS.md";
    OneSegment("AGENTS.md");
  }

  lemma PlacesDiffer()
    ensures AtSkill() != AtAgents()
  {
    assert "SKILL.md"[0] != "AGENTS.md"[0];
  }

  /** A plain one-segment path is added exactly when its place is free. */
  lemma AddAtRoot(t: Trie, e: MountEntry, p: Pos)
    requires Inv(t) && NamesAtRoot(e.path, p)
    ensures var (t', a) := Add(t, e);
            && Inv(t') && (a.Added? <==> p !in Table(t))
            && Table(t') == if p in Table(t) then Table(t) else Table(t)[p := e.(id := t.seqno + 1)]
  {
    hide Inv, Accepts, Add, Table, CleanParts, PosOf, Normal;
    assert p.edge.name != ":";
    OneAccepted(t.nodes, p.edge.name);
    AddRefines(t, e);
  }

  /** Which files a skill wants at the root. */
  function RootFiles(s: SkillConfig): nat {
    if !s.exposeAtRoot then 0 else if !s.agents then 1 else 2
  }

  ghost predicate IsRootFile(e: MountEntry) {
    (e.path == SkillPath() || e.path == AgentsPath()) && e.skill.None?
  }

  /** Entries of `m` are kept, and every new one is a file at the root. */
  ghost predicate GainsFiles(m: Tab, m': Tab, n: nat) {
    && m.Keys <= m'.Keys && |m'| == |m| + n
    && forall p :: p in m' ==> if p in m then m'[p] == m[p] else IsRootFile(m'[p]) && p in {AtSkill(), AtAgents()}
  }

  lemma GainNothing(m: Tab)
    ensures GainsFiles(m, m, 0)
  {
  }

  lemma GainOne(m: Tab, m1: Tab, n: nat, p: Pos, e: MountEntry)
    requires GainsFiles(m, m1, n) && p !in m1 && IsRootFile(e) && p in {AtSkill(), AtAgents()}
    ensures GainsFiles(m, m1[p := e], n + 1)
  {
    InsertSize(m1, p, e);
  }

  /** The places the skill's files need are free. */
  predicate FilesFree(m: Tab, s: SkillConfig) {
    PlacesFree(m, s, AtSkill(), AtAgents())
  }

  /** A skill file and its place. */
  ghost predicate FileAt(e: MountEntry, p: Pos) {
    IsRootFile(e) && p in {AtSkill(), AtAgents()} && NamesAtRoot(e.path, p)
  }

  lemma FilesAt(cfg: FsConfig, files: Rendered)
    requires files.Rendered?
    ensures FileAt(RootFile(cfg, SkillPath(), files.skillFile), AtSkill())
    ensures FileAt(RootFile(cfg, AgentsPath(), files.agentsFile), AtAgents()) && AtSkill() != AtAgents()
  {
    hide NamesAtRoot, SkillPath, AgentsPath, AtSkill, AtAgents;
    SkillAtRoot();
    AgentsAtRoot();
    PlacesDiffer();
  }

  /** How many files an attempt to expose the skill puts at the root. */
  function GainedFiles(m: Tab, s: SkillConfig): nat {
    if FilesFree(m, s) then RootFiles(s) else if AtSkill() in m then 0 else 1
  }

  /** One file more, or no change when its place is taken. */
  lemma AddFile(m: Tab, t: Trie, n: nat, e: MountEntry, p: Pos, q: Pos)
    requires Inv(t) && GainsFiles(m, Table(t), n) && FileAt(e, p)
    ensures var (t', a) := Add(t, e);
            && Inv(t') && (a.Added? <==> p !in Table(t)) && (q in Table(t') <==> q in Table(t) || q == p)
            && GainsFiles(m, Table(t'), if a.Added? then n + 1 else n)
  {
    hide Inv, Add, Table, GainsFiles, NamesAtRoot, SkillPath, AgentsPath, AtSkill, AtAgents;
    AddAtRoot(t, e, p);
    if p !in Table(t) {
      GainOne(m, Table(t), n, p, e.(id := t.seqno + 1));
    }
  }

  /** The places `p` and `q` of the files are free where they are needed. */
  predicate PlacesFree(m: Tab, s: SkillConfig, p: Pos, q: Pos) {
    s.exposeAtRoot ==> p !in m && (s.agents ==> q !in m)
  }

  /** Both files, when the first one finds its place. */
  lemma AddTwo(t: Trie, e: MountEntry, f: MountEntry, p: Pos, q: Pos)
    requires Inv(t) && FileAt(e, p) && FileAt(f, q) && p != q && p !in Table(t)
    ensures Root in t.nodes
    ensures var (t1, a) := Add(t, e);
            var (t2, b) := Add(t1, f);
            && Inv(t2) && a.Added? && (b.Added? <==> q !in Table(t))
            && GainsFiles(Table(t), Table(t2), if b.Added? then 2 else 1)
  {
    hide Inv, Add, Table, GainsFiles, FileAt;
    HasRoot(t);
    GainNothing(Table(t));
    AddFile(Table(t), t, 0, e, p, q);
    AddFile(Table(t), Add(t, e).0, 1, f, q, q);
  }

  lemma AddFilesEffect(t: Trie, s: SkillConfig, e: MountEntry, f: MountEntry, p: Pos, q: Pos)
    requires Inv(t) && FileAt(e, p) && FileAt(f, q) && p != q
    ensures Root in t.nodes
    ensures var (t', err) := AddFiles(t, s, e, f);
            && Inv(t') && (err.None? <==> PlacesFree(Table(t), s, p, q))
            && GainsFiles(Table(t), Table(t'), if err.None? then RootFiles(s) else if p in Table(t) then 0 else 1)
  {
    hide Inv, Add, Table, GainsFiles, FileAt;
    HasRoot(t);
    GainNothing(Table(t));
    if s.exposeAtRoot {
      if s.agents && p !in Table(t) {
        AddTwo(t, e, f, p, q);
      } else {
        AddFile(Table(t), t, 0, e, p, p);
      }
    }
  }

  /** The files are mounted, all of them on success; a failure may leave the first one behind. */
  lemma ExposeEffect(cfg: FsConfig, t: Trie, s: SkillConfig, files: Rendered)
    requires Inv(t) && files.Rendered?
    ensures var (t', err) := ExposeSkill(cfg, t, s, files);
            && Inv(t') && (err.None? <==> FilesFree(Table(t), s))
            && GainsFiles(Table(t), Table(t'), GainedFiles(Table(t), s))
  {
    hide Inv, AddFiles, Table, GainsFiles, FileAt, RootFile, SkillPath, AgentsPath, RootFiles;
    HasRoot(t);
    FilesAt(cfg, files);
    var e, f := RootFile(cfg, SkillPath(), files.skillFile), RootFile(cfg, AgentsPath(), files.agentsFile);
    AddFilesEffect(t, s, e, f, AtSkill(), AtAgents());
  }

  // ---- Mount ----

  /** Files a mount of the entry puts at the root. */
  function FilesOf(e: MountEntry): nat {
    if SkillFree(e) then 0 else RootFiles(e.skill.value)
  }

  /** The entry as it is stored under the path. */
  ghost predicate StoredAs(path: string, e: MountEntry, y: MountEntry) {
    y.path == path && y.skill == e.skill
  }

  /** Old entries stay; new ones are the mounted entry, at its place, and files at the root. */
  ghost predicate GainsMount(m: Tab, m': Tab, path: string, e: MountEntry) {
    && m.Keys <= m'.Keys && |m'| == |m| + 1 + FilesOf(e)
    && forall p :: p in m' ==> if p in m then m'[p] == m[p] else StoredAs(path, e, m'[p]) || IsRootFile(m'[p])
  }

  lemma GainMount(m: Tab, m1: Tab, m': Tab, pos: Pos, path: string, e: MountEntry, x: MountEntry, n: nat)
    requires pos !in m && m1 == m[pos := x] && StoredAs(path, e, x) && GainsFiles(m1, m', n) && n == FilesOf(e)
    ensures GainsMount(m, m', path, e)
  {
    InsertSize(m, pos, x);
  }

  /** Taking the mount back leaves at most a file behind. */
  lemma GainUndone(m: Tab, m1: Tab, m': Tab, pos: Pos, x: MountEntry, n: nat)
    requires pos !in m && m1 == m[pos := x] && GainsFiles(m1, m', n)
    ensures GainsFiles(m, m' - {pos}, n)
  {
    InsertSize(m, pos, x);
    DeleteSize(m', pos);
  }

  /** The router accepts the path, and its position is free. */
  ghost predicate Takes(t: Trie, path: string) {
    CleanParts(path).Some? && Accepts(t.nodes, CleanParts(path).value) && PosOf(CleanParts(path).value) !in Table(t)
  }

  /** What a mount needs of entry, path and table. */
  ghost predicate CanMount(cfg: FsConfig, t: Trie, path: string, e: MountEntry) {
    Mountable(cfg, path, e) && (cfg.maxMounts > 0 ==> |Table(t)| < cfg.maxMounts) && Takes(t, path)
  }

  /** What its skill needs on top: files that can be rendered, and free places for them. */
  ghost predicate CanSetUp(cfg: FsConfig, t: Trie, path: string, e: MountEntry)
    requires CanMount(cfg, t, path, e)
  {
    SkillFree(e) ||
    var s := e.skill.value;
    && Generate(cfg, s).Rendered? && FilesFree(Table(t), s)
    && (s.exposeAtRoot ==>
          var pos := PosOf(CleanParts(path).value); pos != AtSkill() && (s.agents ==> pos != AtAgents()))
  }

  /** The entry is mounted in `t1`, and its skill is still to be set up. */
  ghost predicate Pending(cfg: FsConfig, t: Trie, t1: Trie, path: string, e: MountEntry, x: MountEntry) {
    && Inv(t) && CanMount(cfg, t, path, e) && !SkillFree(e)
    && Inv(t1) && Table(t1) == Table(t)[PosOf(CleanParts(path).value) := x] && StoredAs(path, e, x)
  }

  /** Unmounting the entry again. */
  lemma UndoEffect(t: Trie, t1: Trie, t2: Trie, path: string, x: MountEntry, n: nat)
    requires CleanParts(path).Some? && PosOf(CleanParts(path).value) !in Table(t)
    requires Table(t1) == Table(t)[PosOf(CleanParts(path).value) := x]
    requires Inv(t2) && GainsFiles(Table(t1), Table(t2), n)
    ensures Inv(Remove(t2, path).0) && GainsFiles(Table(t), Table(Remove(t2, path).0), n)
  {
    hide Inv, Remove, Table, CleanParts, PosOf, GainsFiles;
    var pos := PosOf(CleanParts(path).value);
    StillThere(Table(t1), Table(t2), n, pos);
    RemoveRefines(t2, path);
    GainUndone(Table(t), Table(t1), Table(t2), pos, x, n);
  }

  lemma FilesFreeBeside(m: Tab, pos: Pos, x: MountEntry, s: SkillConfig)
    requires pos !in m
    ensures FilesFree(m[pos := x], s) <==>
              FilesFree(m, s) && (s.exposeAtRoot ==> pos != AtSkill() && (s.agents ==> pos != AtAgents()))
  {
  }

  /** Files that a failed set-up leaves at the root: the first one, when only the second had no place. */
  ghost function LeftFiles(cfg: FsConfig, t: Trie, path: string, e: MountEntry): nat
    requires CanMount(cfg, t, path, e) && !CanSetUp(cfg, t, path, e)
  {
    if Generate(cfg, e.skill.value).Rendered? && AtSkill() !in Table(t) && PosOf(CleanParts(path).value) != AtSkill()
    then 1 else 0
  }

  lemma LeftCount(cfg: FsConfig, t: Trie, t1: Trie, path: string, e: MountEntry, x: MountEntry)
    requires Pending(cfg, t, t1, path, e, x) && !CanSetUp(cfg, t, path, e) && Generate(cfg, e.skill.value).Rendered?
    ensures LeftFiles(cfg, t, path, e) == if AtSkill() in Table(t1) then 0 else 1
  {
    hide Inv, Mountable, Takes, Table, PosOf, CleanParts, AtSkill, AtAgents;
  }

  /** A skill that cannot be rendered. */
  lemma RefusedEffect(cfg: FsConfig, t: Trie, t1: Trie, path: string, e: MountEntry, x: MountEntry)
    requires Pending(cfg, t, t1, path, e, x) && Generate(cfg, e.skill.value).NotRendered?
    ensures var (t', err) := SetUpSkill(cfg, t1, path, e.skill.value);
            && Inv(t') && err.Some? && !CanSetUp(cfg, t, path, e)
            && GainsFiles(Table(t), Table(t'), LeftFiles(cfg, t, path, e))
  {
    hide Inv, Table, CleanParts, PosOf, GainsFiles, Mountable, Accepts, Generate, ExposeSkill, StoredAs, FilesFree;
    GainNothing(Table(t1));
    UndoEffect(t, t1, t1, path, x, 0);
  }

  lemma SetUpEffect(cfg: FsConfig, t: Trie, t1: Trie, path: string, e: MountEntry, x: MountEntry)
    requires Pending(cfg, t, t1, path, e, x)
    ensures var (t', err) := SetUpSkill(cfg, t1, path, e.skill.value);
            && Inv(t') && (err.None? <==> CanSetUp(cfg, t, path, e))
            && (err.None? ==> GainsMount(Table(t), Table(t'), path, e))
            && (err.Some? ==> GainsFiles(Table(t), Table(t'), LeftFiles(cfg, t, path, e)))
  {
    var s, pos := e.skill.value, PosOf(CleanParts(path).value);
    var files := Generate(cfg, s);
    if files.NotRendered? {
      RefusedEffect(cfg, t, t1, path, e, x);
    } else {
      FilesFreeBeside(Table(t), pos, x, s);
      hide Inv, Table, CleanParts, PosOf, GainsFiles, GainsMount, Mountable, Accepts, Generate, ExposeSkill, StoredAs,
        FilesFree, RootFiles, LeftFiles, AtSkill, AtAgents, PlacesFree;
      ExposeEffect(cfg, t1, s, files);
      var (t2, err) := ExposeSkill(cfg, t1, s, files);
      if err.None? {
        GainMount(Table(t), Table(t1), Table(t2), pos, path, e, x, RootFiles(s));
      } else {
        LeftCount(cfg, t, t1, path, e, x);
        UndoEffect(t, t1, t2, path, x, if AtSkill() in Table(t1) then 0 else 1);
      }
    }
  }

  lemma StillThere(m: Tab, m': Tab, n: nat, p: Pos)
    requires GainsFiles(m, m', n) && p in m
    ensures p in m'
  {
  }

  /** The checks of a mount and the router's answer. */
  lemma MountStart(cfg: FsConfig, t: Trie, path: string, e: MountEntry, now: int)
    requires Inv(t)
    ensures var x := Prepared(cfg, path, e, now);
            var (t1, a) := Add(t, x);
            if CanMount(cfg, t, path, e) then
              && a.Added? && Inv(t1) && Table(t1) == Table(t)[PosOf(CleanParts(path).value) := a.entry]
              && StoredAs(path, e, a.entry)
              && Mount(cfg, t, path, e, now)
                 == if SkillFree(e) then (t1, None) else SetUpSkill(cfg, t1, path, e.skill.value)
            else
              var (t', err) := Mount(cfg, t, path, e, now);
              err.Some? && Inv(t') && Table(t') == Table(t)
  {
    RouterAnswers(cfg, t, path, e, now);
    hide Inv, Add, Table, CleanParts, PosOf, SetUpSkill, Normal, Reserved, WellConfigured, OpsBound, Prepared,
      SkillFree, Takes, StoredAs;
  }

  lemma RouterAnswers(cfg: FsConfig, t: Trie, path: string, e: MountEntry, now: int)
    requires Inv(t)
    ensures Root in t.nodes
    ensures var (t1, a) := Add(t, Prepared(cfg, path, e, now));
            && Inv(t1) && (a.Added? <==> Takes(t, path))
            && (a.Added? ==>
                  && StoredAs(path, e, a.entry)
                  && Table(t1) == Table(t)[PosOf(CleanParts(path).value) := a.entry])
            && (a.NotAdded? ==> Table(t1) == Table(t))
  {
    var x := Prepared(cfg, path, e, now);
    hide Inv, Add, Table, CleanParts, PosOf, Accepts;
    HasRoot(t);
    AddRefines(t, x);
  }

  /**
   * A mount succeeds exactly on what it can mount and set up. It then gains the entry and the skill's files;
   * otherwise the table is as before, but for a skill file that a failure may leave behind.
   */
  lemma MountEffect(cfg: FsConfig, t: Trie, path: string, e: MountEntry, now: int)
    requires Inv(t)
    ensures var (t', err) := Mount(cfg, t, path, e, now);
            && Inv(t') && (err.None? <==> CanMount(cfg, t, path, e) && CanSetUp(cfg, t, path, e))
            && (err.None? ==> GainsMount(Table(t), Table(t'), path, e))
            && (err.Some? ==>
                  if CanMount(cfg, t, path, e) then GainsFiles(Table(t), Table(t'), LeftFiles(cfg, t, path, e))
                  else Table(t') == Table(t))
  {
    MountStart(cfg, t, path, e, now);
    hide Inv, Add, Table, CleanParts, PosOf, GainsFiles, GainsMount, Accepts, SetUpSkill, Mount, Mountable, StoredAs;
    if CanMount(cfg, t, path, e) {
      var (t1, a) := Add(t, Prepared(cfg, path, e, now));
      if SkillFree(e) {
        GainNothing(Table(t1));
        GainMount(Table(t), Table(t1), Table(t1), PosOf(CleanParts(path).value), path, e, a.entry, 0);
      } else {
        SetUpEffect(cfg, t, t1, path, e, a.entry);
      }
    }
  }

  // ---- Restore ----

  /** The router holds exactly the entries that were added. */
  ghost predicate Holds(t: Trie, added: seq<MountEntry>) {
    Inv(t) && HoldsAll(Table(t), added) && |Table(t)| == |added|
  }

  lemma HoldsNothing(t: Trie)
    requires Inv(t) && Table(t) == map[]
    ensures Holds(t, [])
  {
  }

  lemma HoldsOneMore(t: Trie, es: seq<MountEntry>)
    requires es != [] && Holds(t, es[..|es| - 1]) && Add(t, es[|es| - 1]).1.Added?
    ensures Holds(Add(t, es[|es| - 1]).0, es)
  {
    var last := es[|es| - 1];
    AddRefines(t, last);
    hide Inv, Add, Table, Accepts;
    HoldsSnoc(Table(t), es, last.(id := t.seqno + 1));
    InsertSize(Table(t), Place(last), last.(id := t.seqno + 1));
  }

  lemma HoldsAsBefore(t: Trie, es: seq<MountEntry>, e: MountEntry)
    requires Holds(t, es) && Add(t, e).1.NotAdded?
    ensures Holds(Add(t, e).0, es)
  {
    AddRefines(t, e);
  }

  /** Adding a list to an empty table adds its longest consistent front. */
  lemma {:induction false} AddAllEffect(t: Trie, es: seq<MountEntry>)
    requires Inv(t) && Table(t) == map[]
    ensures Root in t.nodes && Holds(AddAll(t, es).0, Front(t.nodes, es))
    decreases |es|
  {
    hide Holds, Inv, Table, Add, Consistent, Took;
    HasRoot(t);
    AddAllIff(t, es);
    FrontStep(t.nodes, es);
    if es == [] {
      HoldsNothing(t);
    } else {
      var init, last := es[..|es| - 1], es[|es| - 1];
      AddAllEffect(t, init);
      AddAllIff(t, init);
      FrontStep(t.nodes, init);
      var (t1, err) := AddAll(t, init);
      if err.None? {
        if Add(t1, last).1.Added? {
          HoldsOneMore(t1, es);
        } else {
          HoldsAsBefore(t1, init, last);
        }
      }
    }
  }

  lemma FrontStep(ns: Nodes, es: seq<MountEntry>)
    ensures Front(ns, es) == if Consistent(ns, es) || es == [] then es else Front(ns, es[..|es| - 1])
  {
    hide Consistent;
    assert es[..|es|] == es;
    if es != [] {
      var init := es[..|es| - 1];
      assert init[..FrontCount(ns, init)] == es[..FrontCount(ns, init)];
    }
  }

  lemma FrontSame(ns: Nodes, ns': Nodes, es: seq<MountEntry>)
    requires Extends(ns, ns') && Extends(ns', ns)
    ensures Front(ns', es) == Front(ns, es)
    decreases |es|
  {
    hide Consistent, Extends;
    ConsistentSame(ns, ns', es);
    FrontStep(ns, es);
    FrontStep(ns', es);
    if es != [] {
      FrontSame(ns, ns', es[..|es| - 1]);
    }
  }

  /**
   * A restore ends with exactly the longest front of its list that is consistent with the router as it was, which
   * is all of the list exactly when it succeeds.
   */
  lemma RestoreEffect(t: Trie, current: seq<MountEntry>, es: seq<MountEntry>)
    requires Inv(t) && Listing(t, current)
    ensures Root in t.nodes
    ensures var (t', err) := Restore(t, current, es);
            Holds(t', Front(t.nodes, es)) && (err.None? <==> Consistent(t.nodes, es))
  {
    hide Inv, Table, Consistent, Holds, Extends, Listing;
    HasRoot(t);
    SnapshotClears(t, current);
    var t0 := RemoveAll(t, current);
    AddAllEffect(t0, es);
    FrontSame(t.nodes, t0.nodes, es);
    RestoreSucceedsIff(t, current, es);
  }
}
