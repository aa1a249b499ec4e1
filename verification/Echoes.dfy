/** A lookup can keep its answer although it ends at another node (core/router.go). */
module Echoes {
  import opened Bytes
  import opened Paths
  import opened Entries
  import opened Params
  import opened Trie
  import opened TrieRuns
  import opened Matching
  import opened Lookups

  /** A position two edges down, and one below it. */
  function Two(e: Edge, f: Edge): Pos {
    Child(Child(Root, e), f)
  }

  function Three(e: Edge, f: Edge, g: Edge): Pos {
    Child(Two(e, f), g)
  }

  lemma ThreeParts(a: string, b: string, c: string)
    requires Segments([a, b, c])
    ensures PosOf([a, b, c]) == Three(EdgeOf(a), EdgeOf(b), EdgeOf(c)) && Segments([a, b])
  {
    var parts := [a, b, c];
    assert Init(parts) == [a, b] && Init([a, b]) == [a] && Init([a]) == [];
    assert End([a]) == a && End([a, b]) == b && PosOf([]) == Root;
    assert PosOf([a]) == Child(Root, EdgeOf(a)) && PosOf([a, b]) == Two(EdgeOf(a), EdgeOf(b));
    assert forall i :: 0 <= i < 2 ==> [a, b][i] == parts[i];
  }

  /** Everything above a position three edges down. */
  lemma AboveThree(e: Edge, f: Edge, g: Edge, q: Pos)
    ensures OnWay(q, Three(e, f, g)) <==> q in {Root, Child(Root, e), Two(e, f), Three(e, f, g)}
  {
    assert OnWay(q, Root) <==> q == Root;
    assert OnWay(q, Child(Root, e)) <==> q == Child(Root, e) || OnWay(q, Root);
    assert OnWay(q, Two(e, f)) <==> q == Two(e, f) || OnWay(q, Child(Root, e));
  }

  /** A lookup of two segments that ends two edges down, one of them a parameter. */
  lemma EndsAtTwo(ns: Nodes, e: Edge, f: Edge, a: string)
    requires Two(e, f) in ns && Child(Root, e) in ns && Root in ns
    requires (e == Static(a) && f == Param) || (e == Param && f == Static(a))
    requires e == Param ==> Child(Root, Static(a)) !in ns
    requires f == Param ==> Two(e, Static(a)) !in ns
    ensures Ends(ns, Two(e, f), [a, a])
    ensures Bindings(ns, Two(e, f), [a, a]) == [(ns[if e == Param then Root else Child(Root, e)].paramKey, a)]
  {
    assert Init([a, a]) == [a] && Init([a]) == [] && End([a, a]) == a && End([a]) == a;
    assert Fits(Root, []) && Fits(Child(Root, e), [a]);
    assert Unshadowed(ns, Root, []) && Unshadowed(ns, Child(Root, e), [a]);
    assert Bindings(ns, Root, []) == [];
    assert Bindings(ns, Child(Root, e), [a]) == if e == Param then [(ns[Root].paramKey, a)] else [];
  }

  /** The name of the one parameter that a spelling of three segments shows. */
  lemma NameSpelled(ns: Nodes, e: Edge, f: Edge, g: Edge, x: string, parts: seq<string>)
    requires Spell(ns, Three(e, f, g)) == parts && |parts| == 3 && Root in ns && Child(Root, e) in ns
    ensures e == Param && parts[0] == ":" + x ==> ns[Root].paramKey == x
    ensures f == Param && parts[1] == ":" + x ==> ns[Child(Root, e)].paramKey == x
  {
    assert Spell(ns, Root) == [];
    assert Spell(ns, Child(Root, e)) == [] + [Label(ns, Root, e)];
    assert Spell(ns, Two(e, f)) == [] + [Label(ns, Root, e)] + [Label(ns, Child(Root, e), f)];
    assert parts[0] == Label(ns, Root, e) && parts[1] == Label(ns, Child(Root, e), f);
    assert (":" + x)[1..] == x;
    assert forall k: string :: (":" + k)[1..] == k;
  }

  /** The segments of the two routes: a parameter and then `a`, and the other way round. */
  predicate Crossed(a: string, k: string, x: string) {
    && GoodSegment(a) && '/' !in a && !IsParam(a) && GoodSegment(k) && '/' !in k && !IsParam(k)
    && x != "" && '/' !in x
  }

  lemma CrossedSegments(a: string, k: string, x: string)
    requires Crossed(a, k, x)
    ensures Segments([":" + x, a, k]) && Segments([a, ":" + x, k])
    ensures ":" !in [":" + x, a, k] && EdgeOf(":" + x) == Param
    ensures EdgeOf(a) == Static(a) && EdgeOf(k) == Static(k) && (":" + x) != ":" && IsParam(":" + x)
  {
    var p := ":" + x;
    assert |p| > 1 && p[0] == ':' && IsParam(":");
    assert '/' !in p;
  }

  /** A router with "/:x/a/k" mounted, and nothing else in it. */
  ghost predicate HasFirst(t: Trie, a: string, k: string, x: string) {
    && Inv(t) && Table(t).Keys == {Three(Param, Static(a), Static(k))}
    && (forall q :: q in t.nodes <==> q == Root || OnWay(q, Three(Param, Static(a), Static(k))))
    && t.nodes[Root].paramKey == x
  }

  lemma FirstRoute(m: MountEntry, a: string, k: string, x: string)
    requires Crossed(a, k, x) && CleanParts(m.path) == Some([":" + x, a, k])
    ensures HasFirst(Add(Empty, m).0, a, k, x)
  {
    var parts := [":" + x, a, k];
    var dest := Three(Param, Static(a), Static(k));
    CrossedSegments(a, k, x);
    ThreeParts(":" + x, a, k);
    AcceptedOnEmpty(parts);
    EmptyRouter();
    AddRefines(Empty, m);
    var t := Add(Empty, m).0;
    GrowIffAccepts(Empty.nodes, parts);
    forall q
      ensures q in t.nodes <==> q == Root || OnWay(q, dest)
    {
      GrowKeys(Empty.nodes, parts, q);
    }
    AboveThree(Param, Static(a), Static(k), Root);
    AboveThree(Param, Static(a), Static(k), Child(Root, Param));
    hide Add, Accepts, CleanParts, Grow, PosOf, Segments;
    assert Table(t)[dest].path == m.path;
    NameSpelled(t.nodes, Param, Static(a), Static(k), x, parts);
  }

  lemma SecondRoute(t: Trie, n: MountEntry, a: string, k: string, x: string)
    requires Crossed(a, k, x) && HasFirst(t, a, k, x) && CleanParts(n.path) == Some([a, ":" + x, k])
    ensures Add(t, n).1.Added?
    ensures var t2 := Remove(Add(t, n).0, n.path).0;
            && Grew(t, t2)
            && (forall q :: q in t2.nodes <==> q in t.nodes || OnWay(q, Three(Static(a), Param, Static(k))))
            && Child(Root, Static(a)) in t2.nodes && t2.nodes[Child(Root, Static(a))].paramKey == x
  {
    var parts := [a, ":" + x, k];
    var dest := Three(Static(a), Param, Static(k));
    CrossedSegments(a, k, x);
    ThreeParts(a, ":" + x, k);
    AcceptedBeside(t, a, k, x);
    AddRefines(t, n);
    AddThenRemove(t, n);
    var t2 := Remove(Add(t, n).0, n.path).0;
    forall q
      ensures q in t2.nodes <==> q in t.nodes || OnWay(q, dest)
    {
      GrowKeys(t.nodes, parts, q);
    }
    AboveThree(Static(a), Param, Static(k), Child(Root, Static(a)));
    GrowSpells(t.nodes, parts);
    hide Add, Remove, Grow, CleanParts, PosOf, Segments, Accepts, Inv;
    HasRoot(t);
    NameSpelled(t2.nodes, Static(a), Param, Static(k), x, parts);
  }

  lemma AcceptedBeside(t: Trie, a: string, k: string, x: string)
    requires Crossed(a, k, x) && HasFirst(t, a, k, x)
    ensures Accepts(t.nodes, [a, ":" + x, k])
  {
    var parts, at := [a, ":" + x, k], Child(Root, Static(a));
    CrossedSegments(a, k, x);
    AboveThree(Param, Static(a), Static(k), Child(at, Param));
    assert Init(parts) == [a, ":" + x] && Init([a, ":" + x]) == [a] && Init([a]) == [];
    assert Accepts(t.nodes, []) && Accepts(t.nodes, [a]);
    assert PosOf([a]) == at && ParamCount(at) == 0;
    assert Accepts(t.nodes, [a, ":" + x]);
  }

  lemma SameAnswer(t: Trie, t2: Trie, a: string, k: string, x: string)
    requires Crossed(a, k, x) && HasFirst(t, a, k, x) && Grew(t, t2)
    requires forall q :: q in t2.nodes <==> q in t.nodes || OnWay(q, Three(Static(a), Param, Static(k)))
    requires Child(Root, Static(a)) in t2.nodes && t2.nodes[Child(Root, Static(a))].paramKey == x
    ensures var p := Two(Param, Static(a));
            && Ends(t.nodes, p, [a, a]) && !Ends(t2.nodes, p, [a, a]) && Echo(t, t2, p, [a, a])
            && Match(t2.nodes, Text([a, a])) == Match(t.nodes, Text([a, a]))
  {
    var p, q, segs := Two(Param, Static(a)), Two(Static(a), Param), [a, a];
    forall r
      ensures r in t.nodes <==> r in {Root, Child(Root, Param), p, Three(Param, Static(a), Static(k))}
      ensures r in t2.nodes
         <==> r in t.nodes || r in {Root, Child(Root, Static(a)), q, Three(Static(a), Param, Static(k))}
    {
      AboveThree(Param, Static(a), Static(k), r);
      AboveThree(Static(a), Param, Static(k), r);
    }
    EndsAtTwo(t.nodes, Param, Static(a), a);
    EndsAtTwo(t2.nodes, Static(a), Param, a);
    assert Child(q, Static(k)) in t2.nodes && Child(p, Static(k)) in t.nodes;
    assert p !in Table(t);
    assert IsEcho(t, t2, p, segs, q);
    TwoGood(a);
    OneEndOnly(t2, p, q, segs);
    HitKeptIff(t, t2, Text(segs), p);
  }

  lemma TwoGood(a: string)
    requires GoodSegment(a) && '/' !in a
    ensures Segments([a, a]) && Normal(Text([a, a])) && PartsOf(Text([a, a])) == [a, a]
  {
    TextIsNormal([a, a]);
  }

  lemma OneEndOnly(t2: Trie, p: Pos, q: Pos, segs: seq<string>)
    requires Inv(t2) && AllGood(segs) && Ends(t2.nodes, q, segs) && p != q
    ensures !Ends(t2.nodes, p, segs)
  {
    EndsIffWalk(t2.nodes, segs, p);
    EndsIffWalk(t2.nodes, segs, q);
  }

  /**
   * With "/:x/a/k" mounted, "/a/a" binds x to a at an inner node. Adding and removing "/a/:x/k" moves the end of
   * that lookup to the new node under "/a", which binds the same: another node, the same answer.
   */
  lemma EchoHappens(m: MountEntry, n: MountEntry, a: string, k: string, x: string)
    requires Crossed(a, k, x)
    requires CleanParts(m.path) == Some([":" + x, a, k]) && CleanParts(n.path) == Some([a, ":" + x, k])
    ensures var t, p := Add(Empty, m).0, Two(Param, Static(a));
            && Inv(t) && Add(t, n).1.Added?
            && var t2 := Remove(Add(t, n).0, n.path).0;
               && Grew(t, t2) && Ends(t.nodes, p, [a, a]) && !Ends(t2.nodes, p, [a, a]) && Echo(t, t2, p, [a, a])
               && Match(t2.nodes, Text([a, a])) == Match(t.nodes, Text([a, a]))
  {
    FirstRoute(m, a, k, x);
    SecondRoute(Add(Empty, m).0, n, a, k, x);
    SameAnswer(Add(Empty, m).0, Remove(Add(Add(Empty, m).0, n).0, n.path).0, a, k, x);
  }
}
