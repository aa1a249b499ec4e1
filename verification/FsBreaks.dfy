/** Every kind of step that breaks the limit, the paths or the reserved places, at an input (core/filesystem.go). */
module FsBreaks {
  import opened Bytes
  import opened Paths
  import opened Entries
  import opened Trie
  import opened TrieRuns
  import opened Snapshots
  import opened Filesystem
  import opened Consistency
  import opened FsEffects
  import opened FsRuns

  /** Nothing is mounted yet, and every property holds. */
  lemma AtFirst(cfg: FsConfig)
    ensures Inv(Empty) && Root in Empty.nodes && Table(Empty) == map[]
    ensures InOrder(cfg, Empty) && NoneReserved(Table(Empty))
    ensures forall es :: Enabled(Empty, DoRestore([], es))
  {
    EmptyIsInOrder(cfg);
  }

  lemma ShortPath(path: string, name: string)
    requires path == "/" + name && name != "" && name != "." && name != ".." && '/' !in name && name[0] != ':'
    ensures Normal(path) && CleanParts(path) == Some([name]) && PosOf([name]) == Child(Root, Static(name))
  {
    OneSegment(name);
  }

  /** An entry with one static segment is consistent with an empty router. */
  lemma OneAddable(e: MountEntry, name: string)
    requires CleanParts(e.path) == Some([name]) && !IsParam(name)
    ensures Addable(Empty.nodes, e) && Front(Empty.nodes, [e]) == [e]
  {
    assert IsParam(":");
    OneAccepted(Empty.nodes, name);
    FrontStep(Empty.nodes, [e]);
  }

  // ---- a reserved place ----

  lemma SysIsReserved()
    ensures Reserved("/sys") && Normal("/sys") && CleanParts("/sys") == Some(["sys"]) && Text(["sys"]) == "/sys"
    ensures PosOf(["sys"]) == Child(Root, Static("sys"))
  {
    ShortPath("/sys", "sys");
    NormalAgreesWithClean("/sys");
    var rs := ["/sys", "/healthz", "/debug"];
    assert rs[0] in rs;
    hide CleanParts, Normal;
  }

  /** Restoring an entry at "/sys" mounts a reserved path, which Mount would have refused. */
  lemma RestoreMountsReserved(cfg: FsConfig, e: MountEntry)
    requires e.path == "/sys"
    ensures var op := DoRestore([], [e]);
            Enabled(Empty, op) && NoneReserved(Table(Empty)) && !NoneReserved(Table(Do(cfg, Empty, op)))
  {
    hide CleanParts, Reserved, Table, Inv, Do, Front, Normal, PosOf, NoneReserved, Enabled;
    AtFirst(cfg);
    SysIsReserved();
    OneAddable(e, "sys");
    assert e in [e] && AtReserved(e);
    ReservedEntersIff(cfg, Empty, DoRestore([], [e]));
  }

  /** So does renaming a mount at "/a" to "/sys". */
  lemma RenameMountsReserved(cfg: FsConfig, m: MountEntry)
    requires m.path == "/a"
    ensures var t, op := Add(Empty, m).0, DoRename("/a", "/sys");
            && Inv(t) && Enabled(t, op)
            && NoneReserved(Table(t)) && !NoneReserved(Table(Do(cfg, t, op)))
  {
    hide CleanParts, Reserved, Table, Inv, Do, Normal, PosOf, Enabled, Add, Accepts;
    AtFirst(cfg);
    SysIsReserved();
    ShortPath("/a", "a");
    var t, op := Add(Empty, m).0, DoRename("/a", "/sys");
    OneAccepted(Empty.nodes, "a");
    AddRefines(Empty, m);
    OneAccepted(t.nodes, "sys");
    AIsNotReserved(m.(id := 1));
    RenameEnabled(t, op);
    assert "a"[0] != "sys"[0];
    assert CanRename(t, "/a", "/sys");
    hide CanRename;
    ReservedEntersIff(cfg, t, op);
  }

  lemma RenameEnabled(t: Trie, op: FsOp)
    requires Inv(t) && op.DoRename?
    ensures Enabled(t, op)
  {
  }

  lemma AIsNotReserved(e: MountEntry)
    requires e.path == "/a"
    ensures !AtReserved(e)
  {
    ShortPath("/a", "a");
    NormalAgreesWithClean("/a");
    NotReserved("/a", 'a');
    hide CleanParts, Reserved;
  }

  // ---- an improper path ----

  lemma TrailingSlash()
    ensures CleanParts("/a/") == Some(["a"]) && !Normal("/a/")
  {
    var p := "/a/";
    assert p[1..] == "a/" && "a/"[..1] == "a";
    assert TrimLeft(p) == "a/";
    assert TrimRight("a/") == TrimRight("a") == "a";
    ShortPath("/a", "a");
    CleanIffTrimmedNormal(p);
    assert "/" + Trim(p) == "/a";
  }

  /** Restoring an entry at "/a/" mounts it, though no path with a slash at its end is normal. */
  lemma RestoreMountsImproper(cfg: FsConfig, e: MountEntry)
    requires e.path == "/a/"
    ensures var op := DoRestore([], [e]);
            Enabled(Empty, op) && AllProper(Table(Empty)) && !AllProper(Table(Do(cfg, Empty, op)))
  {
    hide CleanParts, Table, Inv, Do, Front, Normal, NoneReserved, AllProper, Enabled;
    AtFirst(cfg);
    TrailingSlash();
    OneAddable(e, "a");
    assert e in [e];
    ProperKeptIff(cfg, Empty, DoRestore([], [e]));
  }

  // ---- too many mounts ----

  lemma TwoAddable(e: MountEntry, f: MountEntry)
    requires e.path == "/a" && f.path == "/b"
    ensures Front(Empty.nodes, [e, f]) == [e, f]
  {
    hide CleanParts, Accepts, PosOf;
    ShortPath("/a", "a");
    ShortPath("/b", "b");
    OneAddable(e, "a");
    OneAddable(f, "b");
    assert "a"[0] != "b"[0];
    assert Fit(e, f);
    FrontStep(Empty.nodes, [e, f]);
  }

  /** With a limit of one, restoring two entries leaves two mounts. */
  lemma RestoreExceedsLimit(cfg: FsConfig, e: MountEntry, f: MountEntry)
    requires cfg.maxMounts == 1 && e.path == "/a" && f.path == "/b"
    ensures var op := DoRestore([], [e, f]);
            Enabled(Empty, op) && WithinLimit(cfg, Table(Empty)) && !WithinLimit(cfg, Table(Do(cfg, Empty, op)))
  {
    hide Table, Inv, Do, Front, NoneReserved, AllProper, Enabled, WithinLimit;
    AtFirst(cfg);
    TwoAddable(e, f);
    LimitKeptIff(cfg, Empty, DoRestore([], [e, f]));
  }

  lemma EmptyTakes()
    ensures Takes(Empty, "/a")
    ensures PosOf(CleanParts("/a").value) != AtSkill() && PosOf(CleanParts("/a").value) != AtAgents()
  {
    EmptyRouter();
    ShortPath("/a", "a");
    assert "a"[0] != "SKILL.md"[0] && "a"[0] != "AGENTS.md"[0];
    OneAccepted(Empty.nodes, "a");
    hide CleanParts, Accepts, PosOf;
  }

  /** With a limit of one, mounting a single entry whose skill is exposed leaves two or three mounts. */
  lemma SkillExceedsLimit(cfg: FsConfig, e: MountEntry, now: int)
    requires cfg.maxMounts == 1 && Mountable(cfg, "/a", e) && !SkillFree(e) && e.skill.value.exposeAtRoot
    requires Generate(cfg, e.skill.value).Rendered?
    ensures var t := Mount(cfg, Empty, "/a", e, now).0;
            Mount(cfg, Empty, "/a", e, now).1.None? && |Table(t)| == 1 + RootFiles(e.skill.value) > cfg.maxMounts
  {
    hide CleanParts, PosOf, Table, Inv, Mount, Mountable, Generate, Takes;
    EmptyRouter();
    EmptyTakes();
    MountEffect(cfg, Empty, "/a", e, now);
    GainedSize(Table(Empty), Table(Mount(cfg, Empty, "/a", e, now).0), "/a", e);
  }

  /** With a limit of one, exposing a skill with an agents file by a call of its own leaves two mounts. */
  lemma ExposeExceedsLimit(cfg: FsConfig, s: SkillConfig, files: Rendered)
    requires cfg.maxMounts == 1 && s.exposeAtRoot && s.agents && files.Rendered?
    ensures var op := DoExpose(s, files);
            Enabled(Empty, op) && WithinLimit(cfg, Table(Empty)) && !WithinLimit(cfg, Table(Do(cfg, Empty, op)))
  {
    hide Inv, Do, NoneReserved, AllProper, WithinLimit;
    AtFirst(cfg);
    LimitKeptIff(cfg, Empty, DoExpose(s, files));
  }
}
