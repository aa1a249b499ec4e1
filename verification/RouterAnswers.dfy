/** Which error the router answers, and what its answers can hold, in terms of the path and the nodes there are. */
module RouterAnswers {
  import opened Bytes
  import opened Paths
  import opened PathText
  import opened Entries
  import opened Params
  import opened Trie
  import opened TrieRuns
  import opened Matching
  import opened Snapshots

  // ---- lookups ----

  lemma {:induction false} BoundAreSegments(ns: Nodes, p: Pos, segs: seq<string>)
    requires forall s :: s in segs ==> s != "" && s != "." && s != ".."
    ensures forall pr :: pr in Bindings(ns, p, segs) ==> pr.1 != "" && pr.1 != "." && pr.1 != ".."
    decreases p
  {
    if p.Child? && segs != [] {
      assert End(segs) in segs && forall s :: s in Init(segs) ==> s in segs;
      BoundAreSegments(ns, p.up, Init(segs));
    }
  }

  /** A lookup that is answered was of a path with no empty, "." or ".." segment, and binds no such value. */
  lemma HitHasNoDots(ns: Nodes, path: string)
    requires Skeleton(ns) && Match(ns, path).Hit?
    ensures path != "" && path[0] == '/'
    ensures path != "/" ==>
              !Contains(path + "/", "//") && !Contains(path + "/", "/./") && !Contains(path + "/", "/../")
    ensures forall pr :: pr in Match(ns, path).params ==> pr.1 != "" && pr.1 != "." && pr.1 != ".."
  {
    HitIsNormal(ns, path);
    WalkIsSound(ns, PartsOf(path));
    if path != "/" {
      NormalIffText(path);
    }
    hide Contains, Match;
    BoundAreSegments(ns, Descend(ns, PartsOf(path)).pos, PartsOf(path));
    MatchOnNormal(ns, path);
  }

  lemma {:induction false} LostCode(ns: Nodes, segs: seq<string>)
    requires Root in ns
    ensures Descend(ns, segs) == Lost(EINVAL) <==>
            exists k :: 0 <= k < |segs| && segs[k] in ["", ".", ".."] && Descend(ns, segs[..k]).At?
    ensures Descend(ns, segs).Lost? ==> Descend(ns, segs).err in {EINVAL, ENOENT}
    decreases |segs|
  {
    if segs != [] {
      var init := Init(segs);
      LostCode(ns, init);
      assert forall k :: 0 <= k < |init| ==> segs[k] == init[k] && segs[..k] == init[..k];
      if Descend(ns, init).At? {
        assert segs[|init|] == End(segs) && segs[..|init|] == init;
        LostStays(ns, segs);
      }
    }
  }

  /** A walk that gets through visits a node on the way for each prefix. */
  lemma {:induction false} LostStays(ns: Nodes, segs: seq<string>)
    requires Root in ns && segs != [] && Descend(ns, Init(segs)).At?
    ensures forall k :: 0 <= k < |segs| - 1 ==> segs[k] !in ["", ".", ".."]
    decreases |segs|
  {
    var init := Init(segs);
    if init != [] {
      LostStays(ns, init);
      assert forall k :: 0 <= k < |init| - 1 ==> segs[k] == init[k];
      assert segs[|init| - 1] == End(init);
    }
  }

  /** `segs[k]` is the first bad segment, and there is a node for what stands before it. */
  ghost predicate StopsAt(ns: Nodes, segs: seq<string>, k: nat)
    requires k < |segs|
  {
    && segs[k] in ["", ".", ".."] && (forall i :: 0 <= i < k ==> segs[i] !in ["", ".", ".."])
    && exists p :: p in ns && Fits(p, segs[..k]) && Unshadowed(ns, p, segs[..k])
  }

  lemma AtIffNode(ns: Nodes, segs: seq<string>)
    requires Skeleton(ns)
    ensures Descend(ns, segs).At? <==>
            && (forall i :: 0 <= i < |segs| ==> segs[i] !in ["", ".", ".."])
            && exists p :: p in ns && Fits(p, segs) && Unshadowed(ns, p, segs)
  {
    if Descend(ns, segs).At? {
      WalkIsSound(ns, segs);
    }
    if p :| p in ns && Fits(p, segs) && Unshadowed(ns, p, segs) {
      if forall i :: 0 <= i < |segs| ==> segs[i] !in ["", ".", ".."] {
        WalkIsComplete(ns, segs, p);
      }
    }
  }

  /**
   * A failed lookup answers EINVAL exactly when the path is not absolute, holds two slashes in a row, or has an
   * empty, "." or ".." segment up to which the nodes lead; otherwise it answers ENOENT, even for bad paths.
   */
  lemma MissCode(ns: Nodes, path: string)
    requires Skeleton(ns) && Match(ns, path).Miss?
    ensures Match(ns, path).err in {EINVAL, ENOENT}
    ensures Match(ns, path).err == EINVAL <==>
            || path == "" || path[0] != '/' || Contains(path, "//")
            || exists k :: 0 <= k < |PartsOf(path)| && StopsAt(ns, PartsOf(path), k)
  {
    DoubleSlashIff(path);
    if path != "" {
      var segs := PartsOf(path);
      LostCode(ns, segs);
      forall k | 0 <= k < |segs|
        ensures StopsAt(ns, segs, k) <==> segs[k] in ["", ".", ".."] && Descend(ns, segs[..k]).At?
      {
        AtIffNode(ns, segs[..k]);
        assert forall i :: 0 <= i < k ==> segs[..k][i] == segs[i];
      }
    }
    hide StopsAt, Descend, Contains, Skeleton, Leaf;
  }

  lemma DoubleSlashIff(p: string)
    ensures DoubleSlash(p) <==> Contains(p, "//")
  {
    if i :| 0 <= i < |p| - 1 && p[i] == '/' && p[i + 1] == '/' {
      assert OccursAt(p, "//", i);
    }
    if i: nat :| i <= |p| && OccursAt(p, "//", i) {
      assert p[i..i + 2][0] == '/' && p[i..i + 2][1] == '/';
      assert p[i] == '/' && p[i + 1] == '/';
    }
  }

  // ---- add and remove ----

  /** How many segments start with a colon. */
  function Colons(parts: seq<string>): nat {
    if parts == [] then 0
    else Colons(Init(parts)) + if End(parts) != "" && End(parts)[0] == ':' then 1 else 0
  }

  lemma {:induction false} ColonsCount(parts: seq<string>)
    ensures ParamCount(PosOf(parts)) == Colons(parts)
    decreases |parts|
  {
    if parts != [] {
      ColonsCount(Init(parts));
    }
  }

  /** Segment `k` is a parameter whose place has another name already. */
  ghost predicate Clashes(ns: Nodes, parts: seq<string>, k: nat)
    requires k < |parts|
  {
    && parts[k] != "" && parts[k][0] == ':'
    && var at := PosOf(parts[..k]); at in ns && Child(at, Param) in ns && parts[k] != ":" + ns[at].paramKey
  }

  /** The skeleton takes a path with at most eight parameters, none of them nameless or named otherwise there. */
  lemma {:induction false} AcceptsIff(ns: Nodes, parts: seq<string>)
    ensures Accepts(ns, parts) <==>
            && Colons(parts) <= 8 && ":" !in parts && forall k :: 0 <= k < |parts| ==> !Clashes(ns, parts, k)
    decreases |parts|
  {
    if parts != [] {
      var init, p := Init(parts), End(parts);
      AcceptsIff(ns, init);
      ColonsCount(init);
      assert parts == init + [p];
      forall k | 0 <= k < |init|
        ensures Clashes(ns, parts, k) <==> Clashes(ns, init, k)
      {
        assert parts[..k] == init[..k];
      }
      assert parts[..|init|] == init && parts[|init|] == p;
      assert Clashes(ns, parts, |init|) <==>
             IsParam(p) && PosOf(init) in ns && Child(PosOf(init), Param) in ns && p != ":" + ns[PosOf(init)].paramKey;
      assert IsParam(p) ==> p == ":" + p[1..];
      assert ":" in parts <==> ":" in init || p == ":";
    }
  }

  /** Up to segment `k` all is well, and `k` is nameless or one parameter too many. */
  ghost predicate Unfit(ns: Nodes, parts: seq<string>, k: nat)
    requires k < |parts|
  {
    && Accepts(ns, parts[..k]) && parts[k] != "" && parts[k][0] == ':'
    && (parts[k] == ":" || Colons(parts[..k]) >= 8)
  }

  lemma {:induction false} GrowCode(ns: Nodes, parts: seq<string>)
    requires Skeleton(ns) && Segments(parts)
    ensures Grow(ns, parts).err == Some(EINVAL) <==> exists k :: 0 <= k < |parts| && Unfit(ns, parts, k)
    ensures Grow(ns, parts).err.Some? ==> Grow(ns, parts).err.value in {EINVAL, EEXIST}
    decreases |parts|
  {
    if parts != [] {
      var init := Init(parts);
      Unsnoc(parts);
      GrowCode(ns, init);
      ColonsCount(init);
      GrowIffAccepts(ns, init);
      forall k | 0 <= k < |init|
        ensures Unfit(ns, parts, k) <==> Unfit(ns, init, k)
      {
        assert parts[..k] == init[..k];
      }
      assert parts[..|init|] == init && parts[|init|] == End(parts);
      assert Unfit(ns, parts, |init|) <==>
             Accepts(ns, init) && IsParam(End(parts)) && (End(parts) == ":" || Colons(init) >= 8);
      hide Skeleton, Segments, Accepts, Unfit, Colons;
    }
  }

  /**
   * `add` answers EINVAL exactly for a path `cleanParts` refuses, and for one whose first fault is a nameless or
   * a ninth parameter. Any other refusal, of another name or of a place taken, is EEXIST.
   */
  lemma AddCode(t: Trie, m: MountEntry)
    requires Inv(t) && Add(t, m).1.NotAdded?
    ensures Add(t, m).1.err in {EINVAL, EEXIST}
    ensures Add(t, m).1.err == EINVAL <==>
            || CleanParts(m.path).None?
            || exists k :: 0 <= k < |CleanParts(m.path).value| && Unfit(t.nodes, CleanParts(m.path).value, k)
  {
    HasRoot(t);
    if CleanParts(m.path).Some? {
      GrowCode(t.nodes, CleanParts(m.path).value);
    }
    hide Unfit, CleanParts;
  }

  /** `remove` answers EINVAL for a path `cleanParts` refuses, and ENOENT when nothing is mounted there. */
  lemma RemoveCode(t: Trie, path: string)
    requires Inv(t) && Remove(t, path).1.NotRemoved?
    ensures Remove(t, path).1.err == if CleanParts(path).None? then EINVAL else ENOENT
  {
  }

  lemma {:induction false} UnfitSame(ns: Nodes, ns': Nodes, parts: seq<string>, k: nat)
    requires Extends(ns, ns') && Extends(ns', ns) && k < |parts|
    ensures Unfit(ns, parts, k) <==> Unfit(ns', parts, k)
  {
    AcceptsSame(ns, ns', parts[..k]);
  }

  /**
   * The error of a rename: of an old path that is malformed or not mounted, else of a new path that cannot be added
   * to the nodes there are.
   */
  lemma RenameCode(t: Trie, oldPath: string, newPath: string)
    requires Inv(t) && Rename(t, oldPath, newPath).1.Some?
    ensures Rename(t, oldPath, newPath).1.value
         == if CleanParts(oldPath).None? then EINVAL
            else if PosOf(CleanParts(oldPath).value) !in Table(t) then ENOENT
            else if CleanParts(newPath).None? then EINVAL
            else if exists k :: 0 <= k < |CleanParts(newPath).value| && Unfit(t.nodes, CleanParts(newPath).value, k)
            then EINVAL
            else EEXIST
  {
    hide Unfit, Inv, Add, Remove, CleanParts, PosOf, Table, Extends;
    HasRoot(t);
    RemoveRefines(t, oldPath);
    var (t1, r) := Remove(t, oldPath);
    if r.NotRemoved? {
      RemoveCode(t, oldPath);
    } else {
      var moved := r.entry.(path := newPath);
      if Add(t1, moved).1.NotAdded? {
        AddCode(t1, moved);
        if CleanParts(newPath).Some? {
          forall k | 0 <= k < |CleanParts(newPath).value|
            ensures Unfit(t.nodes, CleanParts(newPath).value, k) <==> Unfit(t1.nodes, CleanParts(newPath).value, k)
          {
            UnfitSame(t.nodes, t1.nodes, CleanParts(newPath).value, k);
          }
        }
      }
    }
  }

  /** Adding a list stops at the first entry the router refuses, with the router's error and nothing undone. */
  lemma {:induction false} AddAllStopsAt(t: Trie, es: seq<MountEntry>) returns (k: nat)
    requires Root in t.nodes && AddAll(t, es).1.Some?
    ensures k < |es| && AddAll(t, es[..k]).1 == None
    ensures var (t', a) := Add(AddAll(t, es[..k]).0, es[k]);
            a.NotAdded? && AddAll(t, es) == (t', Some(a.err))
    decreases |es|
  {
    var init := es[..|es| - 1];
    hide Add;
    if AddAll(t, init).1.Some? {
      k := AddAllStopsAt(t, init);
      assert init[..k] == es[..k];
    } else {
      k := |init|;
    }
  }
}
