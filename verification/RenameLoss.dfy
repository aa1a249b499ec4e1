/** A rename that fails and does not put the mount back (core/filesystem.go). */
module RenameLoss {
  import opened Bytes
  import opened Paths
  import opened Entries
  import opened Trie
  import opened TrieRuns

  /** A badly spelled rename onto another mount fails and takes the entry with it. */
  lemma BadRenameLoses(t: Trie, oldPath: string, newPath: string)
    requires Inv(t) && Remove(t, oldPath).1.Removed? && !WellSpelled(t, oldPath)
    requires CleanParts(newPath).Some? && PosOf(CleanParts(newPath).value) in Table(t)
    requires PosOf(CleanParts(newPath).value) != PosOf(CleanParts(oldPath).value)
    ensures var (t', err) := Rename(t, oldPath, newPath);
            err.Some? && Table(t') == Table(t) - {PosOf(CleanParts(oldPath).value)}
  {
    RenameSucceedsIff(t, oldPath, newPath);
    RenameRefines(t, oldPath, newPath);
  }

  /** The router after mounting a parameter route and another one. */
  function TwoMounts(m: MountEntry, n: MountEntry): Trie {
    Add(Add(Empty, m).0, n).0
  }

  const AnyId := Child(Root, Param)
  const AtB := Child(Root, Static("b"))

  /** The first mount. */
  lemma FirstMounted(m: MountEntry, s: string, p: Pos)
    requires CleanParts(m.path) == Some([s]) && PosOf([s]) == p && s != ":"
    ensures var t1 := Add(Empty, m).0;
            Inv(t1) && Table(t1).Keys == {p} && Table(t1)[p].path == m.path
  {
    OneAccepted(Empty.nodes, s);
    assert Inv(Empty) && Table(Empty) == map[];
    hide Add, Accepts, Inv, CleanParts, PosOf, Table;
    AddRefines(Empty, m);
  }

  lemma BothMounted(m: MountEntry, n: MountEntry)
    requires CleanParts(m.path) == Some([":id"]) && CleanParts(n.path) == Some(["b"])
    requires PosOf([":id"]) == AnyId && PosOf(["b"]) == AtB
    ensures var t := TwoMounts(m, n);
            Inv(t) && AtB in Table(t) && AnyId in Table(t) && Spell(t.nodes, AnyId) == [":id"]
  {
    FirstMounted(m, ":id", AnyId);
    var t1 := Add(Empty, m).0;
    OneAccepted(t1.nodes, "b");
    hide Add, Accepts, Inv, CleanParts, PosOf, Table;
    AddRefines(t1, n);
    var t := TwoMounts(m, n);
    assert Table(t)[AnyId].path == m.path;
    StoredSpelling(t, AnyId, [":id"]);
  }

  lemma StoredSpelling(t: Trie, p: Pos, parts: seq<string>)
    requires Inv(t) && p in Table(t) && CleanParts(Table(t)[p].path) == Some(parts)
    ensures Spell(t.nodes, p) == parts
  {
  }

  /**
   * It happens on normal paths: with "/:id" and "/b" mounted, renaming "/:x" to "/b" fails and the mount at
   * "/:id" is gone.
   */
  lemma RenameLosesMount(m: MountEntry, n: MountEntry)
    requires m.path == "/:id" && n.path == "/b"
    ensures Normal("/:x") && Normal("/b") && AnyId in Table(TwoMounts(m, n))
    ensures var t := TwoMounts(m, n);
            var (t', err) := Rename(t, "/:x", "/b");
            err.Some? && Table(t') == Table(t) - {AnyId}
  {
    assert "/:id" == "/" + ":id" && "/:x" == "/" + ":x" && "/b" == "/" + "b";
    OneSegment(":id");
    OneSegment(":x");
    OneSegment("b");
    var t := TwoMounts(m, n);
    BothMounted(m, n);
    BadlySpelled(t);
    hide Add, Accepts, Inv, CleanParts, PosOf, Table, Remove, Rename, TwoMounts, WellSpelled, Normal, Spell;
    RemoveRefines(t, "/:x");
    BadRenameLoses(t, "/:x", "/b");
  }

  lemma BadlySpelled(t: Trie)
    requires CleanParts("/:x") == Some([":x"]) && PosOf([":x"]) == AnyId && Spell(t.nodes, AnyId) == [":id"]
    ensures !WellSpelled(t, "/:x")
  {
    assert [":id"][0] != [":x"][0];
  }
}
