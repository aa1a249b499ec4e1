/** Parameter names of a route, and when `Get` and `ToMap` agree on what a lookup binds (core/params.go). */
module NameViews {
  import opened Bytes
  import opened Paths
  import opened Entries
  import opened Params
  import opened Trie
  import opened TrieRuns
  import opened Matching

  /** The parameter names on the way to `p`, from the root down. */
  function Names(ns: Nodes, p: Pos): seq<string> {
    match p
    case Root => []
    case Child(up, e) => Names(ns, up) + (if e == Param && up in ns then [ns[up].paramKey] else [])
  }

  /** A lookup that ends at `p` binds exactly those names. */
  lemma {:induction false} BindsNames(ns: Nodes, p: Pos, segs: seq<string>)
    requires Fits(p, segs)
    ensures |Bindings(ns, p, segs)| == |Names(ns, p)|
    ensures forall k :: 0 <= k < |Names(ns, p)| ==> Bindings(ns, p, segs)[k].0 == Names(ns, p)[k]
    decreases p
  {
    if p.Child? {
      BindsNames(ns, p.up, Init(segs));
    }
  }

  // ---- segments that are no static name anywhere ----

  predicate Unused(ns: Nodes, s: string) {
    GoodSegment(s) && '/' !in s && forall p: Pos :: p in ns && p.Child? && p.edge.Static? ==> p.edge.name != s
  }

  lemma {:induction false} NamesAreShort(ps: set<Pos>) returns (bound: nat)
    ensures forall p :: p in ps && p.Child? && p.edge.Static? ==> |p.edge.name| <= bound
    decreases |ps|
  {
    if ps == {} {
      bound := 0;
    } else {
      var p :| p in ps;
      bound := NamesAreShort(ps - {p});
      if p.Child? && p.edge.Static? && |p.edge.name| > bound {
        bound := |p.edge.name|;
      }
    }
  }

  lemma TwoUnused(ns: Nodes) returns (a: string, b: string)
    ensures a != b && Unused(ns, a) && Unused(ns, b)
  {
    var bound := NamesAreShort(ns.Keys);
    a, b := seq(bound + 3, i => 'x'), seq(bound + 4, i => 'x');
  }

  // ---- a path that a route answers, with chosen segments under its parameters ----

  /** Under the first `i + 1` parameters `a`, under the others `b`. */
  function Instance(ns: Nodes, p: Pos, i: int, a: string, b: string): seq<string> {
    match p
    case Root => []
    case Child(up, Static(s)) => Instance(ns, up, i, a, b) + [s]
    case Child(up, Param) => Instance(ns, up, i, a, b) + [if |Names(ns, up)| <= i then a else b]
  }

  /** The instance fits, nothing shadows it, and its parameters are bound as chosen. */
  ghost predicate Fitting(ns: Nodes, p: Pos, segs: seq<string>, i: int, a: string, b: string) {
    && Segments(segs) && Fits(p, segs) && Unshadowed(ns, p, segs)
    && forall k :: 0 <= k < |Bindings(ns, p, segs)| ==> Bindings(ns, p, segs)[k].1 == if k <= i then a else b
  }

  lemma StaticFits(ns: Nodes, up: Pos, s: string, segs: seq<string>, i: int, a: string, b: string)
    requires Fitting(ns, up, segs, i, a, b) && GoodSegment(s) && '/' !in s
    ensures Fitting(ns, Child(up, Static(s)), segs + [s], i, a, b)
  {
    Snoc(segs, s);
    assert Bindings(ns, up, segs) + [] == Bindings(ns, up, segs);
  }

  lemma ParamFits(ns: Nodes, up: Pos, s: string, segs: seq<string>, i: int, a: string, b: string)
    requires Fitting(ns, up, segs, i, a, b) && up in ns && Child(up, Static(s)) !in ns && GoodSegment(s) && '/' !in s
    requires s == if |Names(ns, up)| <= i then a else b
    ensures Fitting(ns, Child(up, Param), segs + [s], i, a, b)
  {
    Snoc(segs, s);
    BindsNames(ns, up, segs);
    assert Bindings(ns, Child(up, Param), segs + [s]) == Bindings(ns, up, segs) + [(ns[up].paramKey, s)];
  }

  lemma {:induction false} InstanceFits(ns: Nodes, p: Pos, i: int, a: string, b: string)
    requires Skeleton(ns) && p in ns && Unused(ns, a) && Unused(ns, b)
    ensures Fitting(ns, p, Instance(ns, p, i, a, b), i, a, b)
    decreases p
  {
    if p.Child? {
      assert NodeOk(ns, p);
      InstanceFits(ns, p.up, i, a, b);
      var up := Instance(ns, p.up, i, a, b);
      hide Fitting, Skeleton;
      match p.edge {
        case Static(s) => StaticFits(ns, p.up, s, up, i, a, b);
        case Param =>
          var s := if |Names(ns, p.up)| <= i then a else b;
          assert Child(p.up, Static(s)) !in ns;
          ParamFits(ns, p.up, s, up, i, a, b);
      }
    }
  }

  /** The lookup answers with the mount at `p`. */
  ghost predicate AnsweredBy(t: Trie, path: string, p: Pos)
    requires Root in t.nodes && p in Table(t)
  {
    Match(t.nodes, path).Hit? && Match(t.nodes, path).mount == Some(Table(t)[p])
  }

  lemma AnswerBinds(t: Trie, path: string, p: Pos)
    requires Inv(t) && p in Table(t) && AnsweredBy(t, path, p)
    ensures Fits(p, PartsOf(path)) && Match(t.nodes, path).params == Bindings(t.nodes, p, PartsOf(path))
  {
    var q := MatchIsBest(t, path);
    EntryPlace(t, p);
    EntryPlace(t, q);
  }

  /**
   * `Get` and `ToMap` agree on the parameters of every lookup that a mounted route answers exactly when the
   * route names no parameter twice.
   */
  lemma RouteViewsAgreeIff(t: Trie, p: Pos)
    requires Inv(t) && p in Table(t)
    ensures (forall path :: AnsweredBy(t, path, p) ==> ViewsMatch(Match(t.nodes, path).params))
       <==> NoRepeats(Names(t.nodes, p))
  {
    if NoRepeats(Names(t.nodes, p)) {
      forall path | AnsweredBy(t, path, p)
        ensures ViewsMatch(Match(t.nodes, path).params)
      {
        DistinctAgree(t, p, path);
      }
    } else {
      var path := RepeatedDiffer(t, p);
    }
  }

  lemma DistinctAgree(t: Trie, p: Pos, path: string)
    requires Inv(t) && p in Table(t) && AnsweredBy(t, path, p) && NoRepeats(Names(t.nodes, p))
    ensures ViewsMatch(Match(t.nodes, path).params)
  {
    AnswerBinds(t, path, p);
    BindsNames(t.nodes, p, PartsOf(path));
    var pairs := Match(t.nodes, path).params;
    hide Match, Bindings, Fits, Inv, Table;
    forall key
      ensures First(pairs, key) == InMap(pairs, key)
    {
      ViewsAgree(pairs, key);
    }
  }

  lemma RepeatedDiffer(t: Trie, p: Pos) returns (path: string)
    requires Inv(t) && p in Table(t) && !NoRepeats(Names(t.nodes, p))
    ensures AnsweredBy(t, path, p) && !ViewsMatch(Match(t.nodes, path).params)
  {
    var names := Names(t.nodes, p);
    var i, j :| 0 <= i < j < |names| && names[i] == names[j];
    var a, b := TwoUnused(t.nodes);
    var segs := Instance(t.nodes, p, i, a, b);
    path := Text(segs);
    InstanceFits(t.nodes, p, i, a, b);
    TextIsNormal(segs);
    MatchIff(t, path, p);
    BindsNames(t.nodes, p, segs);
    ViewsDiffer(Bindings(t.nodes, p, segs), i, j, a, b);
  }

  /** Such routes exist: `add` takes "/:id/:id", and a lookup under it binds the name twice. */
  lemma RepeatedNameIsMounted(m: MountEntry)
    requires m.path == "/:id/:id"
    ensures Add(Empty, m).1.Added?
    ensures var t, p := Add(Empty, m).0, Child(Child(Root, Param), Param);
            Inv(t) && p in Table(t) && Names(t.nodes, p) == ["id", "id"] && !NoRepeats(Names(t.nodes, p))
  {
    var parts := [":id", ":id"];
    TwoIds(m.path);
    AcceptedOnEmpty(parts);
    EmptyRouter();
    AddRefines(Empty, m);
    var t, p := Add(Empty, m).0, Child(Child(Root, Param), Param);
    assert p in Table(t) && Table(t)[p].path == m.path;
    hide Add, CleanParts, Accepts, PosOf;
    NamesAsSpelled(t, p, "id", "id");
    var names := Names(t.nodes, p);
    assert names[0] == names[1];
  }

  lemma TwoIds(path: string)
    requires path == "/:id/:id"
    ensures CleanParts(path) == Some([":id", ":id"]) && PosOf([":id", ":id"]) == Child(Child(Root, Param), Param)
  {
    var parts := [":id", ":id"];
    assert Init(parts) == [":id"] && Init([":id"]) == [];
    assert Segments(parts) by {
      assert forall i :: 0 <= i < |parts| ==> parts[i] == ":id";
    }
    assert parts[1..] == [":id"];
    assert Text(parts) == path;
    TextIsNormal(parts);
  }

  /** The names are what the mounted path spells, without the colons. */
  lemma NamesAsSpelled(t: Trie, p: Pos, j: string, k: string)
    requires Inv(t) && p in Table(t) && p == Child(Child(Root, Param), Param)
    requires CleanParts(Table(t)[p].path) == Some([":" + j, ":" + k])
    ensures Names(t.nodes, p) == [j, k]
  {
    var ns := t.nodes;
    assert NodeOk(ns, p) && NodeOk(ns, p.up);
    var x, y := ns[Root].paramKey, ns[p.up].paramKey;
    assert Spell(ns, p) == [":" + x] + [":" + y];
    var spelled := [":" + j, ":" + k];
    assert [":" + x] + [":" + y] == spelled;
    assert spelled[0] == ":" + x && spelled[1] == ":" + y;
    assert (":" + x)[1..] == x && (":" + y)[1..] == y && (":" + j)[1..] == j && (":" + k)[1..] == k;
    assert Names(ns, Root) == [];
    assert Names(ns, p.up) == [] + [x];
    assert Names(ns, p) == [] + [x] + [y];
  }
}
