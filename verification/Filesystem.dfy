/** Mount, Unmount, Rename, Restore (core/filesystem.go) and Reload (cmd/skills-fs/config.go). */
module Filesystem {
  import opened Bytes
  import opened Paths
  import opened Entries
  import opened Trie
  import opened TrieRuns
  import opened Snapshots
  import opened Diff
  import R = Router

  /** What the skill generator answers: an error, or the contents of the two files. */
  datatype Rendered = Rendered(skillFile: seq<byte>, agentsFile: seq<byte>) | NotRendered(err: Errno)

  /** `rendered` is what the generator's checks and templates make of a skill with a valid name. */
  datatype FsConfig = FsConfig(maxMounts: nat, maxBlobSize: nat, uid: nat, gid: nat, providers: set<string>,
                               rendered: SkillConfig -> Rendered)

  const DEFAULT_MODE := 292  // 0o444

  /** `isReservedPath`. */
  predicate Reserved(p: string) {
    exists r :: r in ["/sys", "/healthz", "/debug"] && (p == r || r + "/" <= p)
  }

  predicate SkillFree(e: MountEntry) {
    e.skill.Some? ==> !e.skill.value.enabled
  }

  predicate SkillLetter(c: char) {
    'a' <= c <= 'z' || '0' <= c <= '9'
  }

  /** `skillNameRE`: a lower-case letter or digit, then such characters and hyphens. */
  predicate SkillName(name: string) {
    name != "" && SkillLetter(name[0]) && forall i :: 0 <= i < |name| ==> SkillLetter(name[i]) || name[i] == '-'
  }

  /** The generator would take the entry's skill back. */
  predicate SkillNamed(e: MountEntry) {
    SkillFree(e) || SkillName(e.skill.value.name)
  }

  /** What a mount demands of the entry and its path, before the router is asked. */
  predicate Mountable(cfg: FsConfig, path: string, e: MountEntry) {
    && Normal(path) && !Reserved(path) && WellConfigured(e)
    && (e.kind == BlobKind ==> |e.blob| <= cfg.maxBlobSize)
    && OpsBound(cfg, e)
  }

  /** Every operation is bound to a registered provider. */
  predicate OpsBound(cfg: FsConfig, e: MountEntry) {
    forall op :: op in e.ops ==> e.ops[op].Some? && e.ops[op].value in cfg.providers
  }

  /** The entry as it is stored: path set, defaults filled in. */
  function Prepared(cfg: FsConfig, path: string, e: MountEntry, now: int): MountEntry {
    e.(path := path,
       mode := if e.mode == 0 then DEFAULT_MODE else e.mode,
       uid := if e.uid == 0 then cfg.uid else e.uid,
       gid := if e.gid == 0 then cfg.gid else e.gid,
       modTime := if e.modTime == 0 then now else e.modTime)
  }

  // ---- skills ----

  /** `SkillGenerator.Generate`. */
  function Generate(cfg: FsConfig, s: SkillConfig): Rendered {
    if !SkillName(s.name) then NotRendered(EINVAL) else cfg.rendered(s)
  }

  function SkillPath(): string {
    "/SKILL.md"
  }

  function AgentsPath(): string {
    "/AGENTS.md"
  }

  function RootFile(cfg: FsConfig, path: string, data: seq<byte>): MountEntry {
    MountEntry(0, path, BlobKind, DEFAULT_MODE, cfg.uid, cfg.gid, map[], None, None, "", "", data, "", 0)
  }

  /** Adds the skill file `e`, and the agents file `a` if there is one. */
  ghost function AddFiles(t: Trie, s: SkillConfig, e: MountEntry, a: MountEntry): (r: (Trie, Option<Errno>))
    requires Root in t.nodes
    ensures Root in r.0.nodes
  {
    if !s.exposeAtRoot then (t, None)
    else
      var (t1, x) := Add(t, e);
      if x.NotAdded? then (t1, Some(x.err))
      else if !s.agents then (t1, None)
      else
        var (t2, y) := Add(t1, a);
        (t2, if y.Added? then None else Some(y.err))
  }

  /** `MountSkillAtRoot`: it adds to the router directly, without asking for the mount limit. */
  ghost function ExposeSkill(cfg: FsConfig, t: Trie, s: SkillConfig, files: Rendered): (r: (Trie, Option<Errno>))
    requires Root in t.nodes && files.Rendered?
    ensures Root in r.0.nodes
  {
    AddFiles(t, s, RootFile(cfg, SkillPath(), files.skillFile), RootFile(cfg, AgentsPath(), files.agentsFile))
  }

  /** The end of `mountLocked`: a skill that cannot be set up takes the mount back. */
  ghost function SetUpSkill(cfg: FsConfig, t: Trie, path: string, s: SkillConfig): (r: (Trie, Option<Errno>))
    requires Root in t.nodes
    ensures Root in r.0.nodes
  {
    var files := Generate(cfg, s);
    if files.NotRendered? then (Remove(t, path).0, Some(files.err))
    else
      var (t1, err) := ExposeSkill(cfg, t, s, files);
      if err.Some? then (Remove(t1, path).0, err) else (t1, None)
  }

  // ---- mount and unmount ----

  ghost function Mount(cfg: FsConfig, t: Trie, path: string, e: MountEntry, now: int): (r: (Trie, Option<Errno>))
    requires Root in t.nodes
    ensures Root in r.0.nodes
  {
    if !Normal(path) || Reserved(path) || !WellConfigured(e) then (t, Some(EINVAL))
    else if cfg.maxMounts > 0 && |Table(t)| >= cfg.maxMounts then (t, Some(ENOSPC))
    else if e.kind == BlobKind && |e.blob| > cfg.maxBlobSize then (t, Some(ENOSPC))
    else if !OpsBound(cfg, e) then (t, Some(EINVAL))
    else
      var (t', a) := Add(t, Prepared(cfg, path, e, now));
      if a.NotAdded? then (t', Some(a.err))
      else if SkillFree(e) then (t', None)
      else SetUpSkill(cfg, t', path, e.skill.value)
  }

  /** A skill whose name the generator does not take leaves the entry unmounted and the call failed. */
  ghost function Unmount(t: Trie, path: string): (r: (Trie, Option<Errno>))
    ensures r.0.nodes.Keys == t.nodes.Keys
  {
    if !Normal(path) then (t, Some(EINVAL))
    else
      var (t', a) := Remove(t, path);
      (t', if a.NotRemoved? then Some(a.err) else if SkillNamed(a.entry) then None else Some(EINVAL))
  }

  // ---- the three loops of Reload, each stopping at the first error ----

  ghost function UnmountAll(t: Trie, es: seq<MountEntry>): (r: (Trie, Option<Errno>))
    ensures r.0.nodes.Keys == t.nodes.Keys
  {
    if es == [] then (t, None)
    else
      var (t1, err) := UnmountAll(t, es[..|es| - 1]);
      if err.Some? then (t1, err) else Unmount(t1, es[|es| - 1].path)
  }

  ghost function Remount(cfg: FsConfig, t: Trie, c: Change, now: int): (r: (Trie, Option<Errno>))
    requires Root in t.nodes
    ensures Root in r.0.nodes
  {
    var (t1, err) := Unmount(t, c.path);
    if err.Some? then (t1, err) else Mount(cfg, t1, c.after.path, c.after, now)
  }

  ghost function RemountAll(cfg: FsConfig, t: Trie, cs: seq<Change>, now: int): (r: (Trie, Option<Errno>))
    requires Root in t.nodes
    ensures Root in r.0.nodes
  {
    if cs == [] then (t, None)
    else
      var (t1, err) := RemountAll(cfg, t, cs[..|cs| - 1], now);
      if err.Some? then (t1, err) else Remount(cfg, t1, cs[|cs| - 1], now)
  }

  ghost function MountAll(cfg: FsConfig, t: Trie, es: seq<MountEntry>, now: int): (r: (Trie, Option<Errno>))
    requires Root in t.nodes
    ensures Root in r.0.nodes
  {
    if es == [] then (t, None)
    else
      var (t1, err) := MountAll(cfg, t, es[..|es| - 1], now);
      if err.Some? then (t1, err) else Mount(cfg, t1, es[|es| - 1].path, es[|es| - 1], now)
  }

  ghost function Reload(cfg: FsConfig, t: Trie, current: seq<MountEntry>, desired: seq<MountEntry>, now: int)
    : (r: (Trie, Option<Errno>))
    requires Root in t.nodes
  {
    var d := DiffOf(current, desired);
    var (t1, err1) := UnmountAll(t, d.removed);
    if err1.Some? then (t1, err1)
    else
      var (t2, err2) := RemountAll(cfg, t1, d.modified, now);
      if err2.Some? then (t2, err2) else MountAll(cfg, t2, d.added, now)
  }

  class FileSystem {
    const cfg: FsConfig
    const router: R.Router

    ghost predicate Valid()
      reads this, router
    {
      router.Valid()
    }

    constructor (cfg: FsConfig)
      ensures Valid() && this.cfg == cfg && fresh(router) && router.Value() == Empty
    {
      this.cfg := cfg;
      router := new R.Router();
    }

    method MountAt(path: string, e: MountEntry, now: int) returns (err: Option<Errno>)
      requires Valid()
      modifies router
      ensures Valid() && Root in old(router.nodes)
      ensures Mount(cfg, old(router.Value()), path, e, now) == (router.Value(), err)
    {
      if !Normal(path) || Reserved(path) || !WellConfigured(e) { return Some(EINVAL); }
      var count := router.Count();
      if cfg.maxMounts > 0 && count >= cfg.maxMounts { return Some(ENOSPC); }
      if e.kind == BlobKind && |e.blob| > cfg.maxBlobSize { return Some(ENOSPC); }
      if !OpsBound(cfg, e) { return Some(EINVAL); }
      var a := router.Add(Prepared(cfg, path, e, now));
      if a.NotAdded? { return Some(a.err); }
      if SkillFree(e) { return None; }
      err := SetUp(path, e.skill.value);
    }

    method SetUp(path: string, s: SkillConfig) returns (err: Option<Errno>)
      requires Valid()
      modifies router
      ensures Valid() && Root in old(router.nodes)
      ensures SetUpSkill(cfg, old(router.Value()), path, s) == (router.Value(), err)
    {
      var files := Generate(cfg, s);
      if files.NotRendered? {
        var r := router.Remove(path);
        return Some(files.err);
      }
      err := MountSkillAtRoot(s, files);
      if err.Some? {
        var r := router.Remove(path);
      }
    }

    method MountSkillAtRoot(s: SkillConfig, files: Rendered) returns (err: Option<Errno>)
      requires Valid() && files.Rendered?
      modifies router
      ensures Valid() && Root in old(router.nodes)
      ensures ExposeSkill(cfg, old(router.Value()), s, files) == (router.Value(), err)
    {
      if !s.exposeAtRoot { return None; }
      var a := router.Add(RootFile(cfg, SkillPath(), files.skillFile));
      if a.NotAdded? { return Some(a.err); }
      if !s.agents { return None; }
      var b := router.Add(RootFile(cfg, AgentsPath(), files.agentsFile));
      return if b.Added? then None else Some(b.err);
    }

    method UnmountAt(path: string) returns (err: Option<Errno>)
      requires Valid()
      modifies router
      ensures Valid() && Unmount(old(router.Value()), path) == (router.Value(), err)
    {
      if !Normal(path) { return Some(EINVAL); }
      var a := router.Remove(path);
      if a.NotRemoved? { return Some(a.err); }
      if !SkillFree(a.entry) && !SkillName(a.entry.skill.value.name) { return Some(EINVAL); }
      return None;
    }

    /** `renameLocked` on paths that `Rename` has normalized. */
    method RenameTo(oldPath: string, newPath: string) returns (err: Option<Errno>)
      requires Valid() && Normal(oldPath) && Normal(newPath)
      modifies router
      ensures Valid() && Root in old(router.nodes)
      ensures Rename(old(router.Value()), oldPath, newPath) == (router.Value(), err)
    {
      var r := router.Remove(oldPath);
      if r.NotRemoved? { return Some(r.err); }
      var a := router.Add(r.entry.(path := newPath));
      if a.Added? { return None; }
      var b := router.Add(r.entry.(path := oldPath));
      return Some(a.err);
    }

    method RestoreFrom(es: seq<MountEntry>) returns (err: Option<Errno>, ghost current: seq<MountEntry>)
      requires Valid()
      modifies router
      ensures Valid() && Listing(old(router.Value()), current) && Root in old(router.nodes)
      ensures Restore(old(router.Value()), current, es) == (router.Value(), err)
    {
      var snap := router.Snapshot();
      current := snap;
      RemoveEach(snap);
      err := AddEach(es);
    }

    method RemoveEach(es: seq<MountEntry>)
      requires Valid()
      modifies router
      ensures Valid() && router.Value() == RemoveAll(old(router.Value()), es)
    {
      for i := 0 to |es|
        invariant Valid() && router.Value() == RemoveAll(old(router.Value()), es[..i])
      {
        assert es[..i + 1][..i] == es[..i];
        var r := router.Remove(es[i].path);
      }
      assert es[..|es|] == es;
    }

    method AddEach(es: seq<MountEntry>) returns (err: Option<Errno>)
      requires Valid()
      modifies router
      ensures Valid() && Root in old(router.nodes)
      ensures AddAll(old(router.Value()), es) == (router.Value(), err)
    {
      for i := 0 to |es|
        invariant Valid() && AddAll(old(router.Value()), es[..i]) == (router.Value(), None)
      {
        assert es[..i + 1][..i] == es[..i];
        var a := router.Add(es[i]);
        if a.NotAdded? {
          AddAllStops(old(router.Value()), es, i + 1);
          return Some(a.err);
        }
      }
      assert es[..|es|] == es;
      return None;
    }

    method ReloadWith(desired: seq<MountEntry>, now: int) returns (err: Option<Errno>, ghost current: seq<MountEntry>)
      requires Valid()
      modifies router
      ensures Valid() && Listing(old(router.Value()), current) && Root in old(router.nodes)
      ensures Reload(cfg, old(router.Value()), current, desired, now) == (router.Value(), err)
    {
      var snap := router.Snapshot();
      current := snap;
      var d := DiffSnapshots(snap, desired);
      err := UnmountEach(d.removed);
      if err.Some? { return; }
      err := RemountEach(d.modified, now);
      if err.Some? { return; }
      err := MountEach(d.added, now);
    }

    method UnmountEach(es: seq<MountEntry>) returns (err: Option<Errno>)
      requires Valid()
      modifies router
      ensures Valid() && UnmountAll(old(router.Value()), es) == (router.Value(), err)
    {
      for i := 0 to |es|
        invariant Valid() && UnmountAll(old(router.Value()), es[..i]) == (router.Value(), None)
      {
        assert es[..i + 1][..i] == es[..i];
        err := UnmountAt(es[i].path);
        if err.Some? {
          UnmountAllStops(old(router.Value()), es, i + 1);
          return;
        }
      }
      assert es[..|es|] == es;
      return None;
    }

    method RemountAt(c: Change, now: int) returns (err: Option<Errno>)
      requires Valid()
      modifies router
      ensures Valid() && Root in old(router.nodes)
      ensures Remount(cfg, old(router.Value()), c, now) == (router.Value(), err)
    {
      err := UnmountAt(c.path);
      if err.None? {
        err := MountAt(c.after.path, c.after, now);
      }
    }

    method RemountEach(cs: seq<Change>, now: int) returns (err: Option<Errno>)
      requires Valid()
      modifies router
      ensures Valid() && Root in old(router.nodes)
      ensures RemountAll(cfg, old(router.Value()), cs, now) == (router.Value(), err)
    {
      for i := 0 to |cs|
        invariant Valid() && RemountAll(cfg, old(router.Value()), cs[..i], now) == (router.Value(), None)
      {
        assert cs[..i + 1][..i] == cs[..i];
        assert cs[i] in cs;
        err := RemountAt(cs[i], now);
        if err.Some? {
          RemountAllStops(cfg, old(router.Value()), cs, now, i + 1);
          return;
        }
      }
      assert cs[..|cs|] == cs;
      return None;
    }

    method MountEach(es: seq<MountEntry>, now: int) returns (err: Option<Errno>)
      requires Valid()
      modifies router
      ensures Valid() && Root in old(router.nodes)
      ensures MountAll(cfg, old(router.Value()), es, now) == (router.Value(), err)
    {
      for i := 0 to |es|
        invariant Valid() && MountAll(cfg, old(router.Value()), es[..i], now) == (router.Value(), None)
      {
        assert es[..i + 1][..i] == es[..i];
        assert es[i] in es;
        err := MountAt(es[i].path, es[i], now);
        if err.Some? {
          MountAllStops(cfg, old(router.Value()), es, now, i + 1);
          return;
        }
      }
      assert es[..|es|] == es;
      return None;
    }
  }

  // ---- a loop that stopped has its final result ----

  lemma {:induction false} AddAllStops(t: Trie, es: seq<MountEntry>, k: nat)
    requires Root in t.nodes && k <= |es| && AddAll(t, es[..k]).1.Some?
    ensures AddAll(t, es) == AddAll(t, es[..k])
    decreases |es|
  {
    if k < |es| {
      assert es[..|es| - 1][..k] == es[..k];
      AddAllStops(t, es[..|es| - 1], k);
    } else {
      assert es[..k] == es;
    }
  }

  lemma {:induction false} UnmountAllStops(t: Trie, es: seq<MountEntry>, k: nat)
    requires k <= |es| && UnmountAll(t, es[..k]).1.Some?
    ensures UnmountAll(t, es) == UnmountAll(t, es[..k])
    decreases |es|
  {
    if k < |es| {
      assert es[..|es| - 1][..k] == es[..k];
      UnmountAllStops(t, es[..|es| - 1], k);
    } else {
      assert es[..k] == es;
    }
  }

  lemma {:induction false} RemountAllStops(cfg: FsConfig, t: Trie, cs: seq<Change>, now: int, k: nat)
    requires Root in t.nodes && k <= |cs| && RemountAll(cfg, t, cs[..k], now).1.Some?
    ensures RemountAll(cfg, t, cs, now) == RemountAll(cfg, t, cs[..k], now)
    decreases |cs|
  {
    if k < |cs| {
      assert cs[..|cs| - 1][..k] == cs[..k];
      RemountAllStops(cfg, t, cs[..|cs| - 1], now, k);
    } else {
      assert cs[..k] == cs;
    }
  }

  lemma {:induction false} MountAllStops(cfg: FsConfig, t: Trie, es: seq<MountEntry>, now: int, k: nat)
    requires Root in t.nodes && k <= |es| && MountAll(cfg, t, es[..k], now).1.Some?
    ensures MountAll(cfg, t, es, now) == MountAll(cfg, t, es[..k], now)
    decreases |es|
  {
    if k < |es| {
      assert es[..|es| - 1][..k] == es[..k];
      MountAllStops(cfg, t, es[..|es| - 1], now, k);
    } else {
      assert es[..k] == es;
    }
  }
}
