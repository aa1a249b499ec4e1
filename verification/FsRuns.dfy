/** Runs of everything that changes the mounts of one filesystem (core/filesystem.go). */
module FsRuns {
  import opened Bytes
  import opened Paths
  import opened Entries
  import opened Trie
  import opened TrieRuns
  import opened Snapshots
  import opened Filesystem
  import opened Consistency
  import opened FsEffects
  import opened Reloading
  import Answers = RouterAnswers

  /**
   * `current` is the snapshot that a restore takes of the router itself; `files` is what the generator holds for
   * the skill when its files are exposed by a call of their own.
   */
  datatype FsOp =
    | DoMount(path: string, entry: MountEntry, now: int)
    | DoUnmount(path: string)
    | DoRename(oldPath: string, newPath: string)
    | DoRestore(current: seq<MountEntry>, entries: seq<MountEntry>)
    | DoExpose(skill: SkillConfig, files: Rendered)
    | DoHide

  ghost predicate Enabled(t: Trie, op: FsOp) {
    Root in t.nodes && (op.DoRestore? ==> Listing(t, op.current))
  }

  /** `Rename` normalizes both paths; unlike `Mount` it does not ask whether the target is reserved. */
  ghost function RenameChecked(t: Trie, o: string, n: string): (Trie, Option<Errno>)
    requires Root in t.nodes
  {
    if !Normal(o) || !Normal(n) then (t, Some(EINVAL)) else Rename(t, o, n)
  }

  ghost function Do(cfg: FsConfig, t: Trie, op: FsOp): Trie
    requires Enabled(t, op)
  {
    match op
    case DoMount(path, e, now) => Mount(cfg, t, path, e, now).0
    case DoUnmount(path) => Unmount(t, path).0
    case DoRename(o, n) => RenameChecked(t, o, n).0
    case DoRestore(current, es) => Restore(t, current, es).0
    case DoExpose(s, files) => if files.Rendered? then ExposeSkill(cfg, t, s, files).0 else t
    case DoHide => Hide(t)
  }

  /** `UnmountSkillAtRoot`. */
  ghost function Hide(t: Trie): Trie {
    Remove(Remove(t, AgentsPath()).0, SkillPath()).0
  }

  // ---- three properties of the table ----

  ghost predicate WithinLimit(cfg: FsConfig, m: Tab) {
    cfg.maxMounts > 0 ==> |m| <= cfg.maxMounts
  }

  /** What a reload and an unmount rely on: a normal path, and a skill the generator knows by name. */
  predicate Proper(e: MountEntry) {
    Normal(e.path) && SkillNamed(e)
  }

  ghost predicate AllProper(m: Tab) {
    forall p :: p in m ==> Proper(m[p])
  }

  /** The entry is mounted at a reserved place, however its path is written. */
  predicate AtReserved(e: MountEntry) {
    CleanParts(e.path).Some? && Reserved(Text(CleanParts(e.path).value))
  }

  ghost predicate NoneReserved(m: Tab) {
    forall p :: p in m ==> !AtReserved(m[p])
  }

  // ---- the steps that break them ----

  /** A skill's files are put at the root without asking for the limit, and a restore does not ask at all. */
  ghost predicate Overflows(cfg: FsConfig, t: Trie, op: FsOp)
    requires Enabled(t, op)
  {
    cfg.maxMounts > 0 &&
    match op
    case DoMount(path, e, _) =>
      CanMount(cfg, t, path, e) && CanSetUp(cfg, t, path, e) && |Table(t)| + 1 + FilesOf(e) > cfg.maxMounts
    case DoRestore(_, es) => |Front(t.nodes, es)| > cfg.maxMounts
    case DoExpose(s, files) => files.Rendered? && |Table(t)| + GainedFiles(Table(t), s) > cfg.maxMounts
    case _ => false
  }

  /** The consistent front of a restored list has an entry that no mount would have stored so. */
  ghost predicate BringsImproper(cfg: FsConfig, t: Trie, op: FsOp)
    requires Enabled(t, op)
  {
    op.DoRestore? && exists e :: e in Front(t.nodes, op.entries) && !Proper(e)
  }

  /** A rename that can go ahead has a reserved target, or the consistent front of a restored list a reserved place. */
  ghost predicate BringsReserved(t: Trie, op: FsOp)
    requires Enabled(t, op)
  {
    match op
    case DoRename(o, n) => Normal(o) && Normal(n) && Reserved(n) && CanRename(t, o, n)
    case DoRestore(_, es) => exists e :: e in Front(t.nodes, es) && AtReserved(e)
    case _ => false
  }

  /** Something is mounted at the old path, and the new one is accepted and free, or the same place. */
  ghost predicate CanRename(t: Trie, o: string, n: string) {
    && CleanParts(o).Some? && PosOf(CleanParts(o).value) in Table(t)
    && CleanParts(n).Some? && Accepts(t.nodes, CleanParts(n).value)
    && (PosOf(CleanParts(n).value) !in Table(t) || PosOf(CleanParts(n).value) == PosOf(CleanParts(o).value))
  }

  // ---- what each operation keeps ----

  /** The skill of a mount that succeeds has a name the generator takes. */
  lemma MountedIsProper(cfg: FsConfig, t: Trie, path: string, e: MountEntry, y: MountEntry)
    requires CanMount(cfg, t, path, e) && CanSetUp(cfg, t, path, e) && StoredAs(path, e, y)
    ensures Proper(y) && !AtReserved(y)
  {
    NormalAgreesWithClean(path);
  }

  lemma RootFileIsProper(y: MountEntry)
    requires IsRootFile(y)
    ensures Proper(y) && !AtReserved(y)
  {
    SkillAtRoot();
    AgentsAtRoot();
    NormalAgreesWithClean(y.path);
    NotReserved(SkillPath(), 'S');
    NotReserved(AgentsPath(), 'A');
    hide SkillPath, AgentsPath, CleanParts, Reserved, AtSkill, AtAgents, Normal;
  }

  lemma NotReserved(path: string, c: char)
    requires |path| > 1 && path[1] == c && c != 's' && c != 'h' && c != 'd'
    ensures !Reserved(path)
  {
    forall r | r in ["/sys", "/healthz", "/debug"]
      ensures path != r && !(r + "/" <= path)
    {
      assert r[1] == 's' || r[1] == 'h' || r[1] == 'd';
      assert (r + "/")[1] == r[1];
    }
  }

  /** Entries of `m'` are old ones, or proper and not reserved. */
  ghost predicate Fine(m: Tab, m': Tab) {
    forall p :: p in m' ==> (p in m && m'[p] == m[p]) || (Proper(m'[p]) && !AtReserved(m'[p]))
  }

  lemma FineKeeps(m: Tab, m': Tab)
    requires Fine(m, m')
    ensures AllProper(m) ==> AllProper(m')
    ensures NoneReserved(m) ==> NoneReserved(m')
  {
    hide Proper, AtReserved;
  }

  lemma FilesAreFine(m: Tab, m': Tab, n: nat)
    requires GainsFiles(m, m', n)
    ensures Fine(m, m')
  {
    hide Proper, AtReserved, IsRootFile;
    forall p | p in m' && p !in m
      ensures Proper(m'[p]) && !AtReserved(m'[p])
    {
      RootFileIsProper(m'[p]);
    }
  }

  lemma MountIsFine(cfg: FsConfig, t: Trie, m': Tab, path: string, e: MountEntry)
    requires CanMount(cfg, t, path, e) && CanSetUp(cfg, t, path, e) && GainsMount(Table(t), m', path, e)
    ensures Fine(Table(t), m')
  {
    hide Proper, AtReserved, IsRootFile, CanMount, CanSetUp, StoredAs, Table;
    forall p | p in m' && p !in Table(t)
      ensures Proper(m'[p]) && !AtReserved(m'[p])
    {
      if IsRootFile(m'[p]) {
        RootFileIsProper(m'[p]);
      } else {
        MountedIsProper(cfg, t, path, e, m'[p]);
      }
    }
  }

  lemma SameIsFine(m: Tab)
    ensures Fine(m, m)
  {
  }

  /** A mount keeps paths and places in order; it keeps the limit unless it succeeds with too many files. */
  lemma MountStep(cfg: FsConfig, t: Trie, path: string, e: MountEntry, now: int)
    requires Inv(t)
    ensures var t' := Mount(cfg, t, path, e, now).0;
            && Inv(t') && Fine(Table(t), Table(t'))
            && (WithinLimit(cfg, Table(t)) ==>
                  (WithinLimit(cfg, Table(t')) <==> !Overflows(cfg, t, DoMount(path, e, now))))
  {
    MountEffect(cfg, t, path, e, now);
    var (t', err) := Mount(cfg, t, path, e, now);
    SameIsFine(Table(t));
    if err.None? {
      MountIsFine(cfg, t, Table(t'), path, e);
      GainedSize(Table(t), Table(t'), path, e);
    } else if CanMount(cfg, t, path, e) {
      LeftSize(cfg, t, path, e, Table(t'), LeftFiles(cfg, t, path, e));
    }
    hide Inv, Table, Fine, GainsMount, GainsFiles, Mount, CanSetUp, Takes, Mountable, FilesOf;
  }

  lemma GainedSize(m: Tab, m': Tab, path: string, e: MountEntry)
    requires GainsMount(m, m', path, e)
    ensures |m'| == |m| + 1 + FilesOf(e)
  {
  }

  lemma LeftSize(cfg: FsConfig, t: Trie, path: string, e: MountEntry, m': Tab, n: nat)
    requires CanMount(cfg, t, path, e) && n <= 1 && GainsFiles(Table(t), m', n)
    ensures Fine(Table(t), m') && WithinLimit(cfg, m')
  {
    FilesAreFine(Table(t), m', n);
  }

  lemma UnmountStep(t: Trie, path: string)
    requires Inv(t)
    ensures var t' := Unmount(t, path).0;
            Inv(t') && Fine(Table(t), Table(t')) && |Table(t')| <= |Table(t)|
  {
    hide Proper, AtReserved, Inv, Remove, Table, CleanParts, PosOf, SkillNamed;
    RemoveRefines(t, path);
    if Remove(t, path).1.Removed? {
      DeleteSize(Table(t), PosOf(CleanParts(path).value));
    }
  }

  /** Where a rename moves its entry, or puts it back. */
  lemma MovedIsFine(m: Tab, pos: Pos, target: Pos, e: MountEntry)
    requires pos in m && (AllProper(m) ==> Proper(e))
    ensures var m' := (m - {pos})[target := e];
            && |m'| <= |m| && (AllProper(m) ==> AllProper(m'))
            && (NoneReserved(m) ==> (NoneReserved(m') <==> !AtReserved(e)))
  {
    hide Proper, AtReserved;
    DeleteSize(m, pos);
    InsertSize(m - {pos}, target, e);
    assert (m - {pos})[target := e][target] == e;
  }

  lemma DroppedIsFine(m: Tab, pos: Pos)
    requires pos in m
    ensures var m' := m - {pos};
            |m'| <= |m| && (AllProper(m) ==> AllProper(m')) && (NoneReserved(m) ==> NoneReserved(m'))
  {
    hide Proper, AtReserved;
    DeleteSize(m, pos);
  }

  /** Another path for the same skill; a place spelled alike is reserved alike. */
  lemma MovedEntry(m: Tab, pos: Pos, path: string, id: nat)
    requires pos in m && Normal(path)
    ensures var e := m[pos].(id := id).(path := path);
            (AllProper(m) ==> Proper(e)) && (AtReserved(e) <==> Reserved(path))
  {
    NormalAgreesWithClean(path);
    assert AllProper(m) ==> Proper(m[pos]);
  }

  /** A well-spelled path leads to a place under the very spelling of the entry there. */
  lemma PutBackUnreserved(t: Trie, o: string)
    requires Inv(t) && Normal(o) && WellSpelled(t, o) && PosOf(CleanParts(o).value) in Table(t)
    requires NoneReserved(Table(t))
    ensures !Reserved(o)
  {
    var pos := PosOf(CleanParts(o).value);
    assert !AtReserved(Table(t)[pos]);
    NormalAgreesWithClean(o);
  }

  lemma CanRenameIff(t: Trie, o: string, n: string)
    requires Inv(t)
    ensures Rename(t, o, n).1.None? <==> CanRename(t, o, n)
    ensures Remove(t, o).1.Removed? <==> CleanParts(o).Some? && PosOf(CleanParts(o).value) in Table(t)
  {
    hide Table, CleanParts, PosOf, Accepts, Rename, Remove, Extends, WellSpelled;
    assert Inv(t);
    RemoveRefines(t, o);
    if Remove(t, o).1.Removed? {
      RenameSucceedsIff(t, o, n);
    } else {
      RenameRefines(t, o, n);
    }
  }

  lemma RenameStep(cfg: FsConfig, t: Trie, o: string, n: string)
    requires Inv(t)
    ensures var t' := RenameChecked(t, o, n).0;
            && Inv(t') && |Table(t')| <= |Table(t)|
            && (AllProper(Table(t)) ==> AllProper(Table(t')))
            && (NoneReserved(Table(t)) ==> (NoneReserved(Table(t')) <==> !BringsReserved(t, DoRename(o, n))))
  {
    hide Inv, Table, Rename, Remove, AllProper, NoneReserved, CanRename, Normal, Reserved, Extends, CleanParts, PosOf;
    HasRoot(t);
    if Normal(o) && Normal(n) {
      RenameRefines(t, o, n);
      CanRenameIff(t, o, n);
      if Remove(t, o).1.Removed? {
        RenameMoves(cfg, t, o, n);
      }
    }
  }

  lemma RenameMoves(cfg: FsConfig, t: Trie, o: string, n: string)
    requires Inv(t) && Normal(o) && Normal(n) && Remove(t, o).1.Removed?
    ensures var (t', err) := Rename(t, o, n);
            && |Table(t')| <= |Table(t)|
            && (AllProper(Table(t)) ==> AllProper(Table(t')))
            && (NoneReserved(Table(t)) ==> (NoneReserved(Table(t')) <==> !(err.None? && Reserved(n))))
  {
    var pos := PosOf(CleanParts(o).value);
    if WellSpelled(t, o) && NoneReserved(Table(t)) {
      RemoveRefines(t, o);
      PutBackUnreserved(t, o);
    }
    hide Inv, Table, Rename, Remove, AllProper, NoneReserved, Normal, Reserved, CleanParts, PosOf, WellSpelled,
      AtReserved, Proper, Extends;
    RemoveRefines(t, o);
    RenameRefines(t, o, n);
    var e := Table(t)[pos].(id := t.seqno + 1);
    DroppedIsFine(Table(t), pos);
    MovedEntry(Table(t), pos, o, t.seqno + 1);
    MovedIsFine(Table(t), pos, pos, e.(path := o));
    ReplaceInMap(Table(t), pos, e.(path := o));
    MovedEntry(Table(t), pos, n, t.seqno + 1);
    if CleanParts(n).Some? {
      MovedIsFine(Table(t), pos, PosOf(CleanParts(n).value), e.(path := n));
    }
  }

  /** A table that holds exactly some entries is in order exactly when they are. */
  lemma HeldIff(m: Tab, es: seq<MountEntry>)
    requires HoldsAll(m, es)
    ensures AllProper(m) <==> forall e :: e in es ==> Proper(e)
    ensures NoneReserved(m) <==> forall e :: e in es ==> !AtReserved(e)
  {
    hide Proper, AtReserved;
    forall i | 0 <= i < |es|
      ensures Place(es[i]) in m && SameInOrder(m[Place(es[i])], es[i])
    {
      AlikeInOrder(m[Place(es[i])], es[i]);
    }
    forall p | p in m
      ensures exists i :: 0 <= i < |es| && p == Place(es[i])
    {
    }
  }

  predicate SameInOrder(a: MountEntry, b: MountEntry) {
    (Proper(a) <==> Proper(b)) && (AtReserved(a) <==> AtReserved(b))
  }

  lemma AlikeInOrder(a: MountEntry, b: MountEntry)
    requires a == b.(id := a.id)
    ensures SameInOrder(a, b)
  {
    assert a.path == b.path && a.skill == b.skill;
  }

  lemma RestoreStep(cfg: FsConfig, t: Trie, current: seq<MountEntry>, es: seq<MountEntry>)
    requires Inv(t) && Listing(t, current)
    ensures var op, t' := DoRestore(current, es), Restore(t, current, es).0;
            && Inv(t') && (WithinLimit(cfg, Table(t')) <==> !Overflows(cfg, t, op))
            && (AllProper(Table(t')) <==> !BringsImproper(cfg, t, op))
            && (NoneReserved(Table(t')) <==> !BringsReserved(t, op))
  {
    hide Proper, AtReserved, Table, Restore, AllProper, NoneReserved, Listing;
    RestoreEffect(t, current, es);
    HeldIff(Table(Restore(t, current, es).0), Front(t.nodes, es));
  }

  lemma ExposeStep(cfg: FsConfig, t: Trie, s: SkillConfig, files: Rendered)
    requires Inv(t) && files.Rendered?
    ensures Root in t.nodes
    ensures var t' := ExposeSkill(cfg, t, s, files).0;
            Inv(t') && Fine(Table(t), Table(t')) && |Table(t')| == |Table(t)| + GainedFiles(Table(t), s)
  {
    hide Inv, Table, ExposeSkill, GainsFiles, Fine, FilesFree, RootFiles, AtSkill;
    HasRoot(t);
    ExposeEffect(cfg, t, s, files);
    GainSize(Table(t), Table(ExposeSkill(cfg, t, s, files).0), GainedFiles(Table(t), s));
    FilesAreFine(Table(t), Table(ExposeSkill(cfg, t, s, files).0), GainedFiles(Table(t), s));
  }

  lemma GainSize(m: Tab, m': Tab, n: nat)
    requires GainsFiles(m, m', n)
    ensures |m'| == |m| + n
  {
  }

  lemma RemoveStep(t: Trie, path: string)
    requires Inv(t)
    ensures var t' := Remove(t, path).0;
            Inv(t') && Fine(Table(t), Table(t')) && |Table(t')| <= |Table(t)|
  {
    hide Proper, AtReserved, Inv, Remove, Table, CleanParts, PosOf;
    RemoveRefines(t, path);
    if Remove(t, path).1.Removed? {
      DeleteSize(Table(t), PosOf(CleanParts(path).value));
    }
  }

  lemma FineTwice(m: Tab, m1: Tab, m2: Tab)
    requires Fine(m, m1) && Fine(m1, m2)
    ensures Fine(m, m2)
  {
    hide Proper, AtReserved;
  }

  lemma HideStep(t: Trie)
    requires Inv(t)
    ensures Inv(Hide(t)) && Fine(Table(t), Table(Hide(t))) && |Table(Hide(t))| <= |Table(t)|
  {
    hide Inv, Table, Remove, Fine, AgentsPath, SkillPath;
    var t1 := Remove(t, AgentsPath()).0;
    RemoveStep(t, AgentsPath());
    RemoveStep(t1, SkillPath());
    FineTwice(Table(t), Table(t1), Table(Hide(t)));
  }

  // ---- the exact conditions, step by step ----

  /** Every step keeps the router's invariant. */
  lemma DoKeepsInv(cfg: FsConfig, t: Trie, op: FsOp)
    requires Inv(t) && Enabled(t, op)
    ensures Inv(Do(cfg, t, op))
  {
    hide Inv, Table, Mount, Unmount, RenameChecked, Restore, ExposeSkill, Hide, Fine, AllProper, NoneReserved,
      CanMount, CanSetUp, Listing;
    match op
    case DoMount(path, e, now) => MountStep(cfg, t, path, e, now);
    case DoUnmount(path) => UnmountStep(t, path);
    case DoRename(o, n) => RenameStep(cfg, t, o, n);
    case DoRestore(current, es) => RestoreStep(cfg, t, current, es);
    case DoExpose(s, files) =>
      if files.Rendered? {
        ExposeStep(cfg, t, s, files);
      }
    case DoHide => HideStep(t);
  }

  /**
   * A step keeps the mount limit exactly unless it puts skill files at the root that no longer fit, or is a restore
   * of too many entries.
   */
  lemma LimitKeptIff(cfg: FsConfig, t: Trie, op: FsOp)
    requires Inv(t) && Enabled(t, op) && WithinLimit(cfg, Table(t))
    ensures WithinLimit(cfg, Table(Do(cfg, t, op))) <==> !Overflows(cfg, t, op)
  {
    hide Inv, Table, Mount, Unmount, RenameChecked, Restore, ExposeSkill, Hide, Fine, AllProper, NoneReserved,
      CanMount, CanSetUp;
    match op
    case DoMount(path, e, now) => MountStep(cfg, t, path, e, now);
    case DoUnmount(path) => UnmountStep(t, path);
    case DoRename(o, n) => RenameStep(cfg, t, o, n);
    case DoRestore(current, es) => RestoreStep(cfg, t, current, es);
    case DoExpose(s, files) =>
      if files.Rendered? {
        ExposeStep(cfg, t, s, files);
      }
    case DoHide => HideStep(t);
  }

  /** A step keeps all entries proper exactly unless it is a restore that adds an improper one. */
  lemma ProperKeptIff(cfg: FsConfig, t: Trie, op: FsOp)
    requires Inv(t) && Enabled(t, op) && AllProper(Table(t))
    ensures AllProper(Table(Do(cfg, t, op))) <==> !BringsImproper(cfg, t, op)
  {
    hide Inv, Table, Mount, Unmount, RenameChecked, Restore, ExposeSkill, Hide, Fine, AllProper, NoneReserved;
    match op
    case DoMount(path, e, now) =>
      MountStep(cfg, t, path, e, now);
      FineKeeps(Table(t), Table(Mount(cfg, t, path, e, now).0));
    case DoUnmount(path) =>
      UnmountStep(t, path);
      FineKeeps(Table(t), Table(Unmount(t, path).0));
    case DoRename(o, n) => RenameStep(cfg, t, o, n);
    case DoRestore(current, es) => RestoreStep(cfg, t, current, es);
    case DoExpose(s, files) =>
      if files.Rendered? {
        ExposeStep(cfg, t, s, files);
        FineKeeps(Table(t), Table(ExposeSkill(cfg, t, s, files).0));
      }
    case DoHide =>
      HideStep(t);
      FineKeeps(Table(t), Table(Hide(t)));
  }

  /**
   * A reserved place gets mounted in exactly two ways: by a rename that goes ahead onto it, and by a restore
   * that adds an entry there. Mount refuses such a path; Rename and Restore do not look.
   */
  lemma ReservedEntersIff(cfg: FsConfig, t: Trie, op: FsOp)
    requires Inv(t) && Enabled(t, op) && NoneReserved(Table(t))
    ensures NoneReserved(Table(Do(cfg, t, op))) <==> !BringsReserved(t, op)
  {
    hide Inv, Table, Mount, Unmount, RenameChecked, Restore, ExposeSkill, Hide, Fine, AllProper, NoneReserved;
    match op
    case DoMount(path, e, now) =>
      MountStep(cfg, t, path, e, now);
      FineKeeps(Table(t), Table(Mount(cfg, t, path, e, now).0));
    case DoUnmount(path) =>
      UnmountStep(t, path);
      FineKeeps(Table(t), Table(Unmount(t, path).0));
    case DoRename(o, n) => RenameStep(cfg, t, o, n);
    case DoRestore(current, es) => RestoreStep(cfg, t, current, es);
    case DoExpose(s, files) =>
      if files.Rendered? {
        ExposeStep(cfg, t, s, files);
        FineKeeps(Table(t), Table(ExposeSkill(cfg, t, s, files).0));
      }
    case DoHide =>
      HideStep(t);
      FineKeeps(Table(t), Table(Hide(t)));
  }

  // ---- runs ----

  ghost predicate Possible(cfg: FsConfig, t: Trie, run: seq<FsOp>)
    decreases |run|
  {
    run == [] || (Enabled(t, run[0]) && Possible(cfg, Do(cfg, t, run[0]), run[1..]))
  }

  ghost function After(cfg: FsConfig, t: Trie, run: seq<FsOp>): Trie
    requires Possible(cfg, t, run)
    decreases |run|
  {
    if run == [] then t else After(cfg, Do(cfg, t, run[0]), run[1..])
  }

  /** Within the limit, and fit for a reload. */
  ghost predicate InOrder(cfg: FsConfig, t: Trie) {
    WithinLimit(cfg, Table(t)) && AllProper(Table(t))
  }

  ghost predicate Breaks(cfg: FsConfig, t: Trie, op: FsOp)
    requires Enabled(t, op)
  {
    Overflows(cfg, t, op) || BringsImproper(cfg, t, op)
  }

  ghost predicate AlwaysInOrder(cfg: FsConfig, t: Trie, run: seq<FsOp>)
    requires Possible(cfg, t, run)
    decreases |run|
  {
    InOrder(cfg, t) && (run == [] || AlwaysInOrder(cfg, Do(cfg, t, run[0]), run[1..]))
  }

  ghost predicate NeverBreaks(cfg: FsConfig, t: Trie, run: seq<FsOp>)
    requires Possible(cfg, t, run)
    decreases |run|
  {
    run == [] || (!Breaks(cfg, t, run[0]) && NeverBreaks(cfg, Do(cfg, t, run[0]), run[1..]))
  }

  lemma OrderKeptIff(cfg: FsConfig, t: Trie, op: FsOp)
    requires Inv(t) && Enabled(t, op) && InOrder(cfg, t)
    ensures Inv(Do(cfg, t, op)) && (InOrder(cfg, Do(cfg, t, op)) <==> !Breaks(cfg, t, op))
  {
    hide Inv, Table, Do, WithinLimit, AllProper, Overflows, BringsImproper;
    DoKeepsInv(cfg, t, op);
    LimitKeptIff(cfg, t, op);
    ProperKeptIff(cfg, t, op);
  }

  lemma {:induction false} OrderOverRunsIff(cfg: FsConfig, t: Trie, run: seq<FsOp>)
    requires Inv(t) && InOrder(cfg, t) && Possible(cfg, t, run)
    ensures AlwaysInOrder(cfg, t, run) <==> NeverBreaks(cfg, t, run)
    ensures NeverBreaks(cfg, t, run) ==> Inv(After(cfg, t, run)) && InOrder(cfg, After(cfg, t, run))
    decreases |run|
  {
    if run != [] {
      hide Inv, Do, InOrder, Breaks, Enabled;
      OrderKeptIff(cfg, t, run[0]);
      if InOrder(cfg, Do(cfg, t, run[0])) {
        OrderOverRunsIff(cfg, Do(cfg, t, run[0]), run[1..]);
      } else {
        assert !AlwaysInOrder(cfg, Do(cfg, t, run[0]), run[1..]);
      }
    }
  }

  lemma EmptyIsInOrder(cfg: FsConfig)
    ensures Inv(Empty) && Table(Empty) == map[] && InOrder(cfg, Empty)
  {
    assert Table(Empty) == map[];
  }

  /**
   * From an empty filesystem the limit holds and all entries are proper in every state of a run exactly when
   * no step of it breaks them; then a later Reload finds what it relies on.
   */
  lemma LimitHoldsOverRuns(cfg: FsConfig, run: seq<FsOp>)
    requires Possible(cfg, Empty, run)
    ensures AlwaysInOrder(cfg, Empty, run) <==> NeverBreaks(cfg, Empty, run)
    ensures NeverBreaks(cfg, Empty, run) ==>
              var t := After(cfg, Empty, run);
              Inv(t) && AllNormal(t) && SkillsNamed(t) && (cfg.maxMounts > 0 ==> |Table(t)| <= cfg.maxMounts)
  {
    EmptyIsInOrder(cfg);
    OrderOverRunsIff(cfg, Empty, run);
    if NeverBreaks(cfg, Empty, run) {
      ForReload(cfg, After(cfg, Empty, run));
    }
  }

  lemma ForReload(cfg: FsConfig, t: Trie)
    requires InOrder(cfg, t)
    ensures AllNormal(t) && SkillsNamed(t) && (cfg.maxMounts > 0 ==> |Table(t)| <= cfg.maxMounts)
  {
    hide Normal, SkillNamed;
    assert forall p :: p in Table(t) ==> Proper(Table(t)[p]);
  }

  /** Restoring a snapshot of a filesystem that was in order never breaks anything. */
  lemma OwnSnapshotIsSafe(cfg: FsConfig, t: Trie, current: seq<MountEntry>, t0: Trie, es: seq<MountEntry>)
    requires InOrder(cfg, t0) && Listing(t0, es) && Enabled(t, DoRestore(current, es))
    ensures !Breaks(cfg, t, DoRestore(current, es))
  {
    hide Proper, Table;
    ListsLength(Table(t0), es, Table(t0).Keys);
    assert |Table(t0).Keys| == |Table(t0)|;
    var added := Front(t.nodes, es);
    forall e | e in added
      ensures Proper(e)
    {
      assert e in es;
      var i :| 0 <= i < |es| && es[i] == e;
      assert Table(t0)[Place(es[i])] == es[i];
    }
  }

  /**
   * What a rename answers and leaves: it moves the entry to an accepted place that is free or its own; otherwise it
   * fails, and the entry is still there exactly if the old path spells parameter names as the router does.
   */
  lemma RenameOutcome(t: Trie, oldPath: string, newPath: string)
    requires Inv(t)
    ensures Root in t.nodes
    ensures var (t', err) := RenameChecked(t, oldPath, newPath);
            if !Normal(oldPath) || !Normal(newPath) then t' == t && err == Some(EINVAL)
            else
              var o, n := PartsOf(oldPath), PartsOf(newPath);
              var from, to := PosOf(o), PosOf(n);
              if from !in Table(t) then t' == t && err == Some(ENOENT)
              else
                var x := Table(t)[from].(id := t.seqno + 1);
                if Accepts(t.nodes, n) && (to !in Table(t) || to == from) then
                  err == None && Table(t') == (Table(t) - {from})[to := x.(path := newPath)]
                else
                  && err == Some(if exists k :: 0 <= k < |n| && Answers.Unfit(t.nodes, n, k) then EINVAL else EEXIST)
                  && Table(t') == if Spell(t.nodes, from) == o then Table(t)[from := x.(path := oldPath)]
                                  else Table(t) - {from}
  {
    hide Inv, Rename, CleanParts, PosOf, PartsOf, Table, Accepts, Answers.Unfit, Extends, Spell;
    HasRoot(t);
    if Normal(oldPath) && Normal(newPath) {
      NormalAgreesWithClean(oldPath);
      NormalAgreesWithClean(newPath);
      RemoveRefines(t, oldPath);
      RenameRefines(t, oldPath, newPath);
      if Remove(t, oldPath).1.Removed? {
        RenameSucceedsIff(t, oldPath, newPath);
      }
      if Rename(t, oldPath, newPath).1.Some? {
        Answers.RenameCode(t, oldPath, newPath);
      }
    }
  }
}
