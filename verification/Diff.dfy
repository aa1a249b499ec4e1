/** `DiffSnapshots` (core/filesystem.go): three lists computed by path, and what applying them does. */
module Diff {
  import opened Bytes
  import opened Entries

  datatype Change = Change(path: string, before: MountEntry, after: MountEntry)

  datatype SnapshotDiff = SnapshotDiff(added: seq<MountEntry>, removed: seq<MountEntry>, modified: seq<Change>)

  type ByPath = map<string, MountEntry>

  /** The map the code builds first; a later entry replaces an earlier one with its path. */
  function Index(es: seq<MountEntry>): ByPath {
    if es == [] then map[] else Index(es[..|es| - 1])[es[|es| - 1].path := es[|es| - 1]]
  }

  function AddedTo(before: ByPath, es: seq<MountEntry>): seq<MountEntry> {
    if es == [] then []
    else
      var e := es[|es| - 1];
      AddedTo(before, es[..|es| - 1]) + (if e.path in before then [] else [e])
  }

  function ModifiedIn(before: ByPath, es: seq<MountEntry>): seq<Change> {
    if es == [] then []
    else
      var e := es[|es| - 1];
      ModifiedIn(before, es[..|es| - 1])
      + (if e.path in before && !Same(before[e.path], e) then [Change(e.path, before[e.path], e)] else [])
  }

  function DiffOf(before: seq<MountEntry>, after: seq<MountEntry>): SnapshotDiff {
    SnapshotDiff(AddedTo(Index(before), after), AddedTo(Index(after), before), ModifiedIn(Index(before), after))
  }

  method BuildIndex(es: seq<MountEntry>) returns (m: ByPath)
    ensures m == Index(es)
  {
    m := map[];
    for i := 0 to |es|
      invariant m == Index(es[..i])
    {
      assert es[..i + 1][..i] == es[..i];
      m := m[es[i].path := es[i]];
    }
    assert es[..|es|] == es;
  }

  method DiffSnapshots(before: seq<MountEntry>, after: seq<MountEntry>) returns (d: SnapshotDiff)
    ensures d == DiffOf(before, after)
  {
    var oldMap := BuildIndex(before);
    var newMap := BuildIndex(after);
    var added, modified := [], [];
    for i := 0 to |after|
      invariant added == AddedTo(oldMap, after[..i]) && modified == ModifiedIn(oldMap, after[..i])
    {
      assert after[..i + 1][..i] == after[..i];
      var e := after[i];
      if e.path !in oldMap {
        added := added + [e];
      } else if !Same(oldMap[e.path], e) {
        modified := modified + [Change(e.path, oldMap[e.path], e)];
      }
    }
    assert after[..|after|] == after;
    var removed := [];
    for i := 0 to |before|
      invariant removed == AddedTo(newMap, before[..i])
    {
      assert before[..i + 1][..i] == before[..i];
      if before[i].path !in newMap {
        removed := removed + [before[i]];
      }
    }
    assert before[..|before|] == before;
    d := SnapshotDiff(added, removed, modified);
  }

  // ---- what the lists contain ----

  predicate DistinctPaths(es: seq<MountEntry>) {
    forall i, j :: 0 <= i < j < |es| ==> es[i].path != es[j].path
  }

  lemma Last(es: seq<MountEntry>)
    requires es != []
    ensures forall e :: e in es <==> e in es[..|es| - 1] || e == es[|es| - 1]
    ensures DistinctPaths(es) ==>
              DistinctPaths(es[..|es| - 1]) && forall e :: e in es[..|es| - 1] ==> e.path != es[|es| - 1].path
  {
    assert es == es[..|es| - 1] + [es[|es| - 1]];
  }

  lemma {:induction false} IndexFacts(es: seq<MountEntry>)
    ensures forall p :: p in Index(es) ==> Index(es)[p] in es && Index(es)[p].path == p
    ensures forall e :: e in es ==> e.path in Index(es)
    ensures DistinctPaths(es) ==> forall e :: e in es ==> Index(es)[e.path] == e
    decreases |es|
  {
    if es != [] {
      Last(es);
      IndexFacts(es[..|es| - 1]);
    }
  }

  lemma {:induction false} AddedFacts(before: ByPath, es: seq<MountEntry>)
    ensures forall e :: e in AddedTo(before, es) <==> e in es && e.path !in before
    ensures DistinctPaths(es) ==> DistinctPaths(AddedTo(before, es))
    decreases |es|
  {
    if es != [] {
      Last(es);
      AddedFacts(before, es[..|es| - 1]);
    }
  }

  lemma {:induction false} ModifiedFacts(before: ByPath, es: seq<MountEntry>)
    ensures forall c :: c in ModifiedIn(before, es) <==>
              && c.after in es && c.path == c.after.path
              && c.path in before && c.before == before[c.path] && !Same(c.before, c.after)
    ensures DistinctPaths(es) ==>
              forall i, j :: 0 <= i < j < |ModifiedIn(before, es)| ==>
                ModifiedIn(before, es)[i].path != ModifiedIn(before, es)[j].path
    decreases |es|
  {
    if es != [] {
      Last(es);
      ModifiedFacts(before, es[..|es| - 1]);
    }
  }

  /** No path is in two of the lists, whatever the inputs. */
  lemma DiffListsAreDisjoint(before: seq<MountEntry>, after: seq<MountEntry>)
    ensures var d := DiffOf(before, after);
            && (forall a, r :: a in d.added && r in d.removed ==> a.path != r.path)
            && (forall a, c :: a in d.added && c in d.modified ==> a.path != c.path)
            && (forall r, c :: r in d.removed && c in d.modified ==> r.path != c.path)
  {
    IndexFacts(before);
    IndexFacts(after);
    AddedFacts(Index(before), after);
    AddedFacts(Index(after), before);
    ModifiedFacts(Index(before), after);
  }

  // ---- applying a diff ----

  function Afters(cs: seq<Change>): seq<MountEntry> {
    if cs == [] then [] else Afters(cs[..|cs| - 1]) + [cs[|cs| - 1].after]
  }

  function Apply(m: ByPath, d: SnapshotDiff): ByPath {
    (m - Index(d.removed).Keys) + Index(Afters(d.modified)) + Index(d.added)
  }

  lemma IndexSnoc(es: seq<MountEntry>, e: MountEntry)
    ensures Index(es + [e]) == Index(es)[e.path := e]
  {
    assert (es + [e])[..|es|] == es;
  }

  lemma MinusSnoc(m: ByPath, e: MountEntry, keys: set<string>)
    ensures m[e.path := e] - keys == if e.path in keys then m - keys else (m - keys)[e.path := e]
  {
  }

  lemma {:induction false} IndexOfAdded(before: ByPath, es: seq<MountEntry>)
    ensures Index(AddedTo(before, es)) == Index(es) - before.Keys
    decreases |es|
  {
    if es != [] {
      AddedStep(before, es, es[..|es| - 1], es[|es| - 1]);
      IndexOfAdded(before, es[..|es| - 1]);
    }
  }

  lemma AddedStep(before: ByPath, es: seq<MountEntry>, init: seq<MountEntry>, e: MountEntry)
    requires es != [] && init == es[..|es| - 1] && e == es[|es| - 1]
    ensures Index(AddedTo(before, init)) == Index(init) - before.Keys ==>
              Index(AddedTo(before, es)) == Index(es) - before.Keys
  {
    var a := AddedTo(before, init);
    IndexSnoc(a, e);
    MinusSnoc(Index(init), e, before.Keys);
    assert a + [] == a;
  }

  ghost function Replacing(before: ByPath, m: ByPath): ByPath {
    map p | p in m && p in before && !Same(before[p], m[p]) :: m[p]
  }

  lemma ReplacingSnoc(before: ByPath, m: ByPath, e: MountEntry)
    requires e.path !in m
    ensures Replacing(before, m[e.path := e])
         == if e.path in before && !Same(before[e.path], e) then Replacing(before, m)[e.path := e]
            else Replacing(before, m)
  {
  }

  lemma AftersSnoc(cs: seq<Change>, c: Change)
    ensures Afters(cs + [c]) == Afters(cs) + [c.after]
  {
    assert (cs + [c])[..|cs|] == cs;
  }

  lemma {:induction false} IndexOfModified(before: ByPath, es: seq<MountEntry>)
    requires DistinctPaths(es)
    ensures Index(Afters(ModifiedIn(before, es))) == Replacing(before, Index(es))
    decreases |es|
  {
    if es != [] {
      Last(es);
      IndexOfModified(before, es[..|es| - 1]);
      ModifiedStep(before, es, es[..|es| - 1], es[|es| - 1]);
    }
  }

  lemma ModifiedStep(before: ByPath, es: seq<MountEntry>, init: seq<MountEntry>, e: MountEntry)
    requires es != [] && init == es[..|es| - 1] && e == es[|es| - 1]
    requires forall x :: x in init ==> x.path != e.path
    requires Index(Afters(ModifiedIn(before, init))) == Replacing(before, Index(init))
    ensures Index(Afters(ModifiedIn(before, es))) == Replacing(before, Index(es))
  {
    IndexFacts(init);
    assert e.path !in Index(init);
    var cs := ModifiedIn(before, init);
    assert Index(es) == Index(init)[e.path := e];
    ReplacingSnoc(before, Index(init), e);
    if e.path in before && !Same(before[e.path], e) {
      var c := Change(e.path, before[e.path], e);
      assert ModifiedIn(before, es) == cs + [c];
      hide Index, ModifiedIn, Same, Afters, Replacing;
      AftersSnoc(cs, c);
      IndexSnoc(Afters(cs), e);
    } else {
      assert ModifiedIn(before, es) == cs;
      hide Index, ModifiedIn, Same, Afters, Replacing;
    }
  }

  /** Applying the diff to the old snapshot gives the new one, up to the fields the comparison ignores. */
  lemma DiffApplies(before: seq<MountEntry>, after: seq<MountEntry>)
    requires DistinctPaths(after)
    ensures var m, n := Apply(Index(before), DiffOf(before, after)), Index(after);
            && m.Keys == n.Keys
            && forall p :: p in n ==>
                 && m[p].kind == n[p].kind && m[p].mode == n[p].mode && m[p].uid == n[p].uid && m[p].gid == n[p].gid
                 && m[p].linkPath == n[p].linkPath && m[p].visibility == n[p].visibility
                 && m[p].modTime == n[p].modTime && m[p].blob == n[p].blob
                 && (m[p].stream.Some? <==> n[p].stream.Some?)
                 && (n[p].stream.Some? ==> m[p].stream.value.capacity == n[p].stream.value.capacity)
                 && (n[p].stream.Some? ==> m[p].stream.value.mode == n[p].stream.value.mode)
                 && (m[p].skill.Some? <==> n[p].skill.Some?)
                 && (n[p].skill.Some? ==> m[p].skill.value.name == n[p].skill.value.name)
                 && (n[p].skill.Some? ==> m[p].skill.value.enabled == n[p].skill.value.enabled)
  {
    IndexOfAdded(Index(before), after);
    IndexOfAdded(Index(after), before);
    IndexOfModified(Index(before), after);
    ApplyPointwise(Index(before), Index(after));
  }

  lemma ApplyPointwise(m: ByPath, n: ByPath)
    ensures var r := (m - (m - n.Keys).Keys) + Replacing(m, n) + (n - m.Keys);
            r.Keys == n.Keys && forall p :: p in n ==> Same(r[p], n[p])
  {
  }

  /**
   * In the other direction: an entry of a path in both lists is not reported as modified exactly when these fields
   * are equal. Of several entries with the path the old snapshot's last one counts.
   */
  lemma ModifiedIff(before: seq<MountEntry>, after: seq<MountEntry>, i: nat, j: nat)
    requires i < |before| && j < |after| && before[i].path == after[j].path
    requires forall k :: i < k < |before| ==> before[k].path != before[i].path
    ensures var a, b := before[i], after[j];
            Change(b.path, a, b) !in DiffOf(before, after).modified <==>
            && a.kind == b.kind && a.mode == b.mode && a.uid == b.uid && a.gid == b.gid
            && a.linkPath == b.linkPath && a.visibility == b.visibility && a.modTime == b.modTime && a.blob == b.blob
            && match (a.stream, b.stream) {
                 case (Some(x), Some(y)) => x.capacity == y.capacity && x.mode == y.mode
                 case (x, y) => x == y
               }
            && match (a.skill, b.skill) {
                 case (Some(x), Some(y)) => x.name == y.name && x.enabled == y.enabled
                 case (x, y) => x == y
               }
    ensures forall c :: c in DiffOf(before, after).modified && c.path == before[i].path ==> c.before == before[i]
  {
    IndexLatest(before, i);
    ModifiedFacts(Index(before), after);
  }

  lemma {:induction false} IndexLatest(es: seq<MountEntry>, i: nat)
    requires i < |es| && forall k :: i < k < |es| ==> es[k].path != es[i].path
    ensures es[i].path in Index(es) && Index(es)[es[i].path] == es[i]
    decreases |es|
  {
    if i < |es| - 1 {
      IndexLatest(es[..|es| - 1], i);
    }
  }

  /** `part` is what `es` holds at the places `ks`, in `es`'s order. */
  predicate InTurn(part: seq<MountEntry>, es: seq<MountEntry>, ks: seq<nat>) {
    && |ks| == |part|
    && (forall i :: 0 <= i < |ks| ==> ks[i] < |es| && part[i] == es[ks[i]])
    && (forall i, j :: 0 <= i < j < |ks| ==> ks[i] < ks[j])
  }

  lemma InTurnSnoc(part: seq<MountEntry>, es: seq<MountEntry>, ks: seq<nat>, e: MountEntry)
    requires InTurn(part, es, ks)
    ensures InTurn(part, es + [e], ks) && InTurn(part + [e], es + [e], ks + [|es|])
  {
  }

  lemma {:induction false} AddedInOrder(before: ByPath, es: seq<MountEntry>) returns (ks: seq<nat>)
    ensures InTurn(AddedTo(before, es), es, ks)
    decreases |es|
  {
    ks := [];
    if es != [] {
      var init, e := es[..|es| - 1], es[|es| - 1];
      ks := AddedInOrder(before, init);
      InTurnSnoc(AddedTo(before, init), init, ks, e);
      assert es == init + [e] && AddedTo(before, init) + [] == AddedTo(before, init);
      hide InTurn;
      if e.path !in before {
        ks := ks + [|init|];
      }
    }
  }

  lemma {:induction false} ModifiedInOrder(before: ByPath, es: seq<MountEntry>) returns (ks: seq<nat>)
    ensures InTurn(Afters(ModifiedIn(before, es)), es, ks)
    decreases |es|
  {
    ks := [];
    if es != [] {
      var init, e := es[..|es| - 1], es[|es| - 1];
      ks := ModifiedInOrder(before, init);
      var cs := ModifiedIn(before, init);
      InTurnSnoc(Afters(cs), init, ks, e);
      assert es == init + [e] && cs + [] == cs;
      hide InTurn, Same;
      if e.path in before && !Same(before[e.path], e) {
        AftersSnoc(cs, Change(e.path, before[e.path], e));
        ks := ks + [|init|];
      }
    }
  }

  /** Each list of a diff is a part of its snapshot, in the snapshot's order; which part, the other lemmas say. */
  lemma DiffKeepsOrder(before: seq<MountEntry>, after: seq<MountEntry>)
      returns (added: seq<nat>, removed: seq<nat>, modified: seq<nat>)
    ensures var d := DiffOf(before, after);
            && InTurn(d.added, after, added) && InTurn(d.removed, before, removed)
            && InTurn(Afters(d.modified), after, modified)
    ensures forall e ::
              e in DiffOf(before, after).added <==> e in after && forall b :: b in before ==> b.path != e.path
    ensures forall e ::
              e in DiffOf(before, after).removed <==> e in before && forall a :: a in after ==> a.path != e.path
  {
    hide AddedTo, ModifiedIn, Index, Afters, InTurn;
    added := AddedInOrder(Index(before), after);
    removed := AddedInOrder(Index(after), before);
    modified := ModifiedInOrder(Index(before), after);
    IndexFacts(before);
    IndexFacts(after);
    AddedFacts(Index(before), after);
    AddedFacts(Index(after), before);
  }
}
