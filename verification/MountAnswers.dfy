/** What `Mount` and `Unmount` (core/filesystem.go) check, answer and store, spelled out. */
module MountAnswers {
  import opened Bytes
  import opened Paths
  import opened Entries
  import opened Trie
  import opened TrieRuns
  import opened Snapshots
  import opened Filesystem
  import opened FsEffects
  import Answers = RouterAnswers

  // ---- the checks ----

  lemma BehindSlash(path: string, name: string)
    requires path == "/" + name || "/" + name + "/" <= path
    requires path != "/" && '/' !in name
    ensures PartsOf(path)[0] == name
  {
    var s := path[1..];
    if path == "/" + name {
      assert s == name && s[..|name|] == name;
    } else {
      assert path[..|name| + 2] == "/" + name + "/";
      assert s[..|name|] == path[..|name| + 2][1..|name| + 1] == name;
      assert s[|name|] == path[..|name| + 2][|name| + 1];
    }
    SplitAt(s, |name|, '/');
  }

  lemma FirstBehindSlash(path: string, name: string)
    requires path != "" && path != "/" && path[0] == '/' && PartsOf(path)[0] == name
    ensures path == "/" + name || "/" + name + "/" <= path
  {
    var s := path[1..];
    assert path == "/" + s;
    JoinOfSplit(s, '/');
    if |Split(s, '/')| > 1 {
      var tail := Join(Split(s, '/')[1..], '/');
      assert path == ("/" + name + "/") + tail;
      assert path[..|name| + 2] == "/" + name + "/";
    }
  }

  lemma ReservedNames()
    ensures "/" + "sys" == "/sys" && "/" + "healthz" == "/healthz" && "/" + "debug" == "/debug"
    ensures "/sys" + "/" == "/" + "sys" + "/" && "/healthz" + "/" == "/" + "healthz" + "/"
    ensures "/debug" + "/" == "/" + "debug" + "/"
  {
  }

  lemma ReservedStarts(path: string)
    requires Reserved(path) && path != "/"
    ensures path != "" && PartsOf(path)[0] in ["sys", "healthz", "debug"]
  {
    hide Split;
    ReservedNames();
    var r :| r in ["/sys", "/healthz", "/debug"] && (path == r || r + "/" <= path);
    BehindSlash(path, if r == "/sys" then "sys" else if r == "/healthz" then "healthz" else "debug");
  }

  lemma ReservedWhenStarts(path: string)
    requires path != "" && path != "/" && path[0] == '/' && PartsOf(path)[0] in ["sys", "healthz", "debug"]
    ensures Reserved(path)
  {
    hide Split;
    ReservedNames();
    FirstBehindSlash(path, PartsOf(path)[0]);
    assert "/sys" in ["/sys", "/healthz", "/debug"] && "/healthz" in ["/sys", "/healthz", "/debug"];
    assert "/debug" in ["/sys", "/healthz", "/debug"];
  }

  /** A reserved path is one whose first segment is one of three. */
  lemma ReservedIff(path: string)
    requires Normal(path)
    ensures Reserved(path) <==> path != "/" && PartsOf(path)[0] in ["sys", "healthz", "debug"]
  {
    hide Split;
    if path != "/" {
      if Reserved(path) {
        ReservedStarts(path);
      } else if PartsOf(path)[0] in ["sys", "healthz", "debug"] {
        ReservedWhenStarts(path);
      }
    } else if Reserved(path) {
      RootIsFree();
    }
  }

  lemma RootIsFree()
    ensures !Reserved("/")
  {
  }

  /** What each kind of entry may carry. */
  lemma ConfiguredIff(e: MountEntry)
    ensures WellConfigured(e) <==>
            && match e.kind {
                 case Unset => false
                 case BlobKind => e.linkPath == "" && e.stream.None?
                 case LinkKind => e.blob == [] && e.stream.None?
                 case StreamKind =>
                   && e.blob == [] && e.linkPath == ""
                   && (e.stream.Some? ==> e.stream.value.capacity > 0 && e.stream.value.maxChunkSize >= 0)
                 case _ => e.blob == [] && e.linkPath == "" && e.stream.None?
               }
            && !(e.skill.Some? && e.skill.value.enabled && e.skill.value.name == "")
            && (e.visibility == "" || e.visibility == "public" || e.visibility == "private")
            && Some("") !in e.ops.Values
  {
    if op :| op in e.ops && e.ops[op] == Some("") {
      assert e.ops[op] in e.ops.Values;
    }
  }

  /** The names the generator takes: made of lower-case letters, digits and hyphens, and not starting with a hyphen. */
  lemma SkillNameIff(name: string)
    ensures SkillName(name) <==>
            && name != "" && name[0] != '-'
            && forall c :: c in name ==> 'a' <= c <= 'z' || '0' <= c <= '9' || c == '-'
  {
    assert name != "" ==> name[0] in name;
    if forall c :: c in name ==> 'a' <= c <= 'z' || '0' <= c <= '9' || c == '-' {
      assert forall i :: 0 <= i < |name| ==> name[i] in name;
    }
  }

  // ---- what a mount stores ----

  /** Adding the files of a skill, when it succeeds. */
  lemma FilesTable(cfg: FsConfig, t: Trie, s: SkillConfig, files: Rendered)
    requires Inv(t) && files.Rendered?
    ensures Root in t.nodes
    ensures var (t', err) := ExposeSkill(cfg, t, s, files);
            err.None? ==>
              var at, to, n := Child(Root, Static("SKILL.md")), Child(Root, Static("AGENTS.md")), t.seqno;
              var f := MountEntry(n + 1, "/SKILL.md", BlobKind, 292, cfg.uid, cfg.gid, map[], None, None, "", "",
                                  files.skillFile, "", 0);
              var g := MountEntry(n + 2, "/AGENTS.md", BlobKind, 292, cfg.uid, cfg.gid, map[], None, None, "", "",
                                  files.agentsFile, "", 0);
              Table(t') == if !s.exposeAtRoot then Table(t)
                           else if !s.agents then Table(t)[at := f]
                           else Table(t)[at := f][to := g]
  {
    hide Inv, Add, Table, NamesAtRoot;
    HasRoot(t);
    SkillAtRoot();
    AgentsAtRoot();
    if s.exposeAtRoot {
      var f := RootFile(cfg, SkillPath(), files.skillFile);
      AddAtRoot(t, f, AtSkill());
      FileNumber(t, f);
      var t1 := Add(t, f).0;
      AddAtRoot(t1, RootFile(cfg, AgentsPath(), files.agentsFile), AtAgents());
    }
  }

  lemma FileNumber(t: Trie, e: MountEntry)
    requires Inv(t)
    ensures Root in t.nodes && Add(t, e).0.seqno == t.seqno + if Add(t, e).1.Added? then 1 else 0
  {
    AddRefines(t, e);
  }

  /** The table after setting a skill up, when that succeeds. */
  lemma SetUpTable(cfg: FsConfig, t: Trie, path: string, s: SkillConfig)
    requires Inv(t)
    ensures Root in t.nodes
    ensures SetUpSkill(cfg, t, path, s).1.None? ==>
              && SkillName(s.name) && cfg.rendered(s).Rendered?
              && SetUpSkill(cfg, t, path, s) == ExposeSkill(cfg, t, s, cfg.rendered(s))
  {
    HasRoot(t);
    hide Inv, ExposeSkill, Remove, SkillName;
  }

  /**
   * A mount that succeeds adds the entry with its defaults at the place its path names, and the rendered files of
   * an enabled skill that wants them, as read-only blobs of the default owner; it changes nothing else.
   */
  lemma MountStores(cfg: FsConfig, t: Trie, path: string, e: MountEntry, now: int)
    requires Inv(t)
    ensures Root in t.nodes
    ensures Mount(cfg, t, path, e, now).1.None? ==>
              CleanParts(path).Some? &&
              var n, m := t.seqno, Table(t)[PosOf(CleanParts(path).value) :=
                e.(id := t.seqno + 1, path := path,
                   mode := if e.mode == 0 then 292 else e.mode,
                   uid := if e.uid == 0 then cfg.uid else e.uid,
                   gid := if e.gid == 0 then cfg.gid else e.gid,
                   modTime := if e.modTime == 0 then now else e.modTime)];
              if e.skill.None? || !e.skill.value.enabled then Table(Mount(cfg, t, path, e, now).0) == m
              else
                var s := e.skill.value;
                cfg.rendered(s).Rendered? &&
                var at, to := Child(Root, Static("SKILL.md")), Child(Root, Static("AGENTS.md"));
                var f := MountEntry(n + 2, "/SKILL.md", BlobKind, 292, cfg.uid, cfg.gid, map[], None, None, "", "",
                                    cfg.rendered(s).skillFile, "", 0);
                var g := MountEntry(n + 3, "/AGENTS.md", BlobKind, 292, cfg.uid, cfg.gid, map[], None, None, "", "",
                                    cfg.rendered(s).agentsFile, "", 0);
                Table(Mount(cfg, t, path, e, now).0) == if !s.exposeAtRoot then m
                                                         else if !s.agents then m[at := f]
                                                         else m[at := f][to := g]
  {
    hide Inv, Add, Table, PosOf, SetUpSkill, ExposeSkill, StoredAs, Mount, CanMount, CleanParts;
    HasRoot(t);
    MountStart(cfg, t, path, e, now);
    if Mount(cfg, t, path, e, now).1.None? {
      var x := Prepared(cfg, path, e, now);
      AddedEntry(t, x);
      CanMountCleans(cfg, t, path, e);
      var t1 := Add(t, x).0;
      if !SkillFree(e) {
        SetUpTable(cfg, t1, path, e.skill.value);
        FilesTable(cfg, t1, e.skill.value, cfg.rendered(e.skill.value));
      }
    }
  }

  lemma CanMountCleans(cfg: FsConfig, t: Trie, path: string, e: MountEntry)
    requires CanMount(cfg, t, path, e)
    ensures CleanParts(path).Some?
  {
  }

  lemma AddedEntry(t: Trie, x: MountEntry)
    requires Inv(t)
    ensures Root in t.nodes
    ensures Add(t, x).1.Added? ==> Add(t, x).1.entry == x.(id := t.seqno + 1) && Add(t, x).0.seqno == t.seqno + 1
  {
    AddRefines(t, x);
  }

  // ---- which error ----

  lemma FileCode(t: Trie, e: MountEntry, p: Pos)
    requires Inv(t) && NamesAtRoot(e.path, p)
    ensures Root in t.nodes && (Add(t, e).1.NotAdded? ==> Add(t, e).1.err == EEXIST)
  {
    HasRoot(t);
    if Add(t, e).1.NotAdded? {
      Answers.AddCode(t, e);
    }
  }

  /** Exposing a skill fails exactly when a file it needs finds its place taken. */
  lemma ExposeCode(cfg: FsConfig, t: Trie, s: SkillConfig, files: Rendered)
    requires Inv(t) && files.Rendered?
    ensures Root in t.nodes
    ensures var at, to := Child(Root, Static("SKILL.md")), Child(Root, Static("AGENTS.md"));
            ExposeSkill(cfg, t, s, files).1
            == if s.exposeAtRoot && (at in Table(t) || (s.agents && to in Table(t))) then Some(EEXIST) else None
  {
    hide Inv, Add, Table, NamesAtRoot;
    HasRoot(t);
    SkillAtRoot();
    AgentsAtRoot();
    PlacesDiffer();
    if s.exposeAtRoot {
      var f, g := RootFile(cfg, SkillPath(), files.skillFile), RootFile(cfg, AgentsPath(), files.agentsFile);
      AddAtRoot(t, f, AtSkill());
      FileCode(t, f, AtSkill());
      var t1 := Add(t, f).0;
      AddAtRoot(t1, g, AtAgents());
      FileCode(t1, g, AtAgents());
    }
  }

  /** What setting a skill up in `t` answers. */
  lemma SetUpCode(cfg: FsConfig, t: Trie, path: string, s: SkillConfig)
    requires Inv(t)
    ensures Root in t.nodes
    ensures var at, to := Child(Root, Static("SKILL.md")), Child(Root, Static("AGENTS.md"));
            SetUpSkill(cfg, t, path, s).1
            == if !SkillName(s.name) then Some(EINVAL)
               else if cfg.rendered(s).NotRendered? then Some(cfg.rendered(s).err)
               else if s.exposeAtRoot && (at in Table(t) || (s.agents && to in Table(t))) then Some(EEXIST)
               else None
  {
    hide Inv, ExposeSkill, Table, Remove, SkillName;
    HasRoot(t);
    if cfg.rendered(s).Rendered? {
      ExposeCode(cfg, t, s, cfg.rendered(s));
    }
  }

  /** What the router answers to the entry of a mount. */
  lemma RouterCode(cfg: FsConfig, t: Trie, path: string, e: MountEntry, now: int)
    requires Inv(t) && Normal(path)
    ensures Root in t.nodes
    ensures var (parts, a) := (PartsOf(path), Add(t, Prepared(cfg, path, e, now)).1);
            if Accepts(t.nodes, parts) && PosOf(parts) !in Table(t) then
              && a.Added?
              && Inv(Add(t, Prepared(cfg, path, e, now)).0)
              && Table(Add(t, Prepared(cfg, path, e, now)).0) == Table(t)[PosOf(parts) := a.entry]
            else
              && a.NotAdded?
              && a.err == if exists k :: 0 <= k < |parts| && Answers.Unfit(t.nodes, parts, k) then EINVAL else EEXIST
  {
    hide Inv, Add, Accepts, Answers.Unfit, CleanParts, PartsOf, PosOf, Table;
    var x := Prepared(cfg, path, e, now);
    NormalAgreesWithClean(path);
    HasRoot(t);
    AddRefines(t, x);
    if Add(t, x).1.NotAdded? {
      Answers.AddCode(t, x);
    }
  }

  /** An operation that is bound to nothing, or to a provider that is not registered. */
  predicate Unbound(cfg: FsConfig, e: MountEntry, op: string) {
    op in e.ops && (e.ops[op].None? || e.ops[op].value !in cfg.providers)
  }

  /** The error a mount answers: the first of these that applies, in this order. */
  lemma MountCode(cfg: FsConfig, t: Trie, path: string, e: MountEntry, now: int)
    requires Inv(t)
    ensures Root in t.nodes
    ensures Mount(cfg, t, path, e, now).1
         == if !Normal(path) || (path != "/" && PartsOf(path)[0] in ["sys", "healthz", "debug"]) then Some(EINVAL)
            else if !WellConfigured(e) then Some(EINVAL)
            else if 0 < cfg.maxMounts <= |Table(t)| then Some(ENOSPC)
            else if e.kind == BlobKind && |e.blob| > cfg.maxBlobSize then Some(ENOSPC)
            else if exists op :: Unbound(cfg, e, op) then Some(EINVAL)
            else
              var parts := PartsOf(path);
              if exists k :: 0 <= k < |parts| && Answers.Unfit(t.nodes, parts, k) then Some(EINVAL)
              else if !Accepts(t.nodes, parts) || PosOf(parts) in Table(t) then Some(EEXIST)
              else if e.skill.None? || !e.skill.value.enabled then None
              else
                var s, places := e.skill.value, Table(t).Keys + {PosOf(parts)};
                if !SkillName(s.name) then Some(EINVAL)
                else if cfg.rendered(s).NotRendered? then Some(cfg.rendered(s).err)
                else if s.exposeAtRoot && (Child(Root, Static("SKILL.md")) in places
                                           || (s.agents && Child(Root, Static("AGENTS.md")) in places))
                then Some(EEXIST)
                else None
  {
    hide Inv, Add, Accepts, Answers.Unfit, Normal, Reserved, OpsBound, WellConfigured, PartsOf, PosOf, Table,
      SetUpSkill, SkillName;
    HasRoot(t);
    if Normal(path) {
      NotEmpty(path);
      ReservedIff(path);
      UnfitIsRefused(t.nodes, PartsOf(path));
      RouterCode(cfg, t, path, e, now);
      if e.skill.Some? {
        var (t1, a) := Add(t, Prepared(cfg, path, e, now));
        if a.Added? {
          SetUpCode(cfg, t1, path, e.skill.value);
        }
      }
      BoundIff(cfg, e);
    }
  }

  lemma BoundIff(cfg: FsConfig, e: MountEntry)
    ensures OpsBound(cfg, e) <==> forall op :: !Unbound(cfg, e, op)
  {
    if forall op :: !Unbound(cfg, e, op) {
      forall op | op in e.ops
        ensures e.ops[op].Some? && e.ops[op].value in cfg.providers
      {
        assert !Unbound(cfg, e, op);
      }
    }
  }

  lemma NotEmpty(path: string)
    requires Normal(path)
    ensures path != ""
  {
  }

  lemma UnfitIsRefused(ns: Nodes, parts: seq<string>)
    ensures (exists k :: 0 <= k < |parts| && Answers.Unfit(ns, parts, k)) ==> !Accepts(ns, parts)
  {
    if k :| 0 <= k < |parts| && Answers.Unfit(ns, parts, k) {
      NotPast(ns, parts, k);
    }
  }

  lemma {:induction false} NotPast(ns: Nodes, parts: seq<string>, k: nat)
    requires k < |parts| && Answers.Unfit(ns, parts, k)
    ensures !Accepts(ns, parts)
    decreases |parts|
  {
    var init := Init(parts);
    if k < |init| {
      assert init[..k] == parts[..k] && init[k] == parts[k];
      NotPast(ns, init, k);
    } else {
      assert parts[..k] == init;
      Answers.ColonsCount(init);
    }
  }

  /** `Unmount` takes away what is mounted at the path, even when it then fails on a name the generator refuses. */
  lemma UnmountOutcome(t: Trie, path: string)
    requires Inv(t)
    ensures var (t', err) := Unmount(t, path);
            if !Normal(path) then t' == t && err == Some(EINVAL)
            else
              var pos := PosOf(PartsOf(path));
              if pos !in Table(t) then t' == t && err == Some(ENOENT)
              else
                && Table(t') == Table(t) - {pos}
                && err == match Table(t)[pos].skill {
                            case Some(s) => if s.enabled && !SkillName(s.name) then Some(EINVAL) else None
                            case None => None
                          }
  {
    hide Inv, Remove, CleanParts, PosOf, PartsOf, Table, SkillName;
    if Normal(path) {
      NormalAgreesWithClean(path);
      RemoveRefines(t, path);
      if Remove(t, path).1.NotRemoved? {
        Answers.RemoveCode(t, path);
      }
    }
  }
}
