/** core/filesystem.go: the textual key of the provider cache. */
module CacheKeys {
  import opened Paths

  /** Provider, action and parameters; values are as rendered by `%v`. */
  datatype Query = Query(provider: string, action: string, params: map<string, string>)

  // ---- string order, as sort.Strings uses it ----

  predicate UpTo(a: string, b: string) {
    a == "" || (b != "" && (a[0] < b[0] || (a[0] == b[0] && UpTo(a[1..], b[1..]))))
  }

  lemma {:induction false} UpToIsTotal(a: string, b: string)
    ensures UpTo(a, b) || UpTo(b, a)
    ensures UpTo(a, b) && UpTo(b, a) ==> a == b
    decreases |a|
  {
    if a != "" && b != "" {
      UpToIsTotal(a[1..], b[1..]);
      assert a == [a[0]] + a[1..] && b == [b[0]] + b[1..];
    }
  }

  lemma {:induction false} UpToIsTransitive(a: string, b: string, c: string)
    requires UpTo(a, b) && UpTo(b, c)
    ensures UpTo(a, c)
    decreases |a|
  {
    if a != "" && a[0] == b[0] == c[0] {
      UpToIsTransitive(a[1..], b[1..], c[1..]);
    }
  }

  predicate Sorted(ks: seq<string>) {
    forall i, j :: 0 <= i < j < |ks| ==> UpTo(ks[i], ks[j])
  }

  /** `k` goes before the first string that is not smaller. */
  function Insert(k: string, ks: seq<string>): seq<string> {
    if ks == [] || UpTo(k, ks[0]) then [k] + ks else [ks[0]] + Insert(k, ks[1..])
  }

  lemma {:induction false} InsertAdds(k: string, ks: seq<string>)
    ensures multiset(Insert(k, ks)) == multiset(ks) + multiset{k}
  {
    if ks != [] && !UpTo(k, ks[0]) {
      InsertAdds(k, ks[1..]);
      assert ks == [ks[0]] + ks[1..];
    }
  }

  lemma InsertMembers(k: string, ks: seq<string>, x: string)
    ensures x in Insert(k, ks) <==> x == k || x in ks
  {
    InsertAdds(k, ks);
    assert x in multiset(Insert(k, ks)) <==> x in Insert(k, ks);
    assert x in multiset(ks) <==> x in ks;
  }

  /** A string up to the head of a sorted sequence can be put in front of it. */
  lemma ConsSorted(k: string, ks: seq<string>)
    requires Sorted(ks) && forall x :: x in ks ==> UpTo(k, x)
    ensures Sorted([k] + ks)
  {
    var all := [k] + ks;
    forall i, j | 0 <= i < j < |all|
      ensures UpTo(all[i], all[j])
    {
      assert all[j] in ks;
    }
  }

  lemma {:induction false} InsertSorts(k: string, ks: seq<string>)
    requires Sorted(ks)
    ensures Sorted(Insert(k, ks))
  {
    if ks == [] || UpTo(k, ks[0]) {
      forall x | x in ks
        ensures UpTo(k, x)
      {
        if x != ks[0] {
          UpToIsTransitive(k, ks[0], x);
        }
      }
      ConsSorted(k, ks);
    } else {
      InsertSorts(k, ks[1..]);
      UpToIsTotal(k, ks[0]);
      forall x | x in Insert(k, ks[1..])
        ensures UpTo(ks[0], x)
      {
        InsertMembers(k, ks[1..], x);
      }
      ConsSorted(ks[0], Insert(k, ks[1..]));
    }
  }

  /** The head of a sorted sequence is up to every member. */
  lemma HeadIsLeast(a: seq<string>, x: string)
    requires Sorted(a) && x in a
    ensures UpTo(a[0], x)
  {
    UpToIsTotal(a[0], a[0]);
  }

  lemma SameHead(a: seq<string>, b: seq<string>)
    requires a != [] && b != [] && Sorted(a) && Sorted(b) && multiset(a) == multiset(b)
    ensures a[0] == b[0]
  {
    assert a[0] in multiset(b) && b[0] in multiset(a);
    HeadIsLeast(a, b[0]);
    HeadIsLeast(b, a[0]);
    UpToIsTotal(a[0], b[0]);
  }

  lemma TailCounts(a: seq<string>)
    requires a != []
    ensures multiset(a[1..]) == multiset(a) - multiset{a[0]}
  {
    assert a == [a[0]] + a[1..];
  }

  /** There is one way to sort a collection. */
  lemma {:induction false} SortedIsUnique(a: seq<string>, b: seq<string>)
    requires Sorted(a) && Sorted(b) && multiset(a) == multiset(b)
    ensures a == b
    decreases |a|
  {
    assert |multiset(a)| == |a| && |multiset(b)| == |b|;
    if a != [] {
      SameHead(a, b);
      TailCounts(a);
      TailCounts(b);
      hide UpTo;
      SortedIsUnique(a[1..], b[1..]);
      assert a == [a[0]] + a[1..] && b == [b[0]] + b[1..];
    }
  }

  ghost function SortedKeys(s: set<string>): (ks: seq<string>)
    ensures Sorted(ks) && multiset(ks) == multiset(s)
  {
    if s == {} then []
    else
      var k :| k in s;
      var rest := SortedKeys(s - {k});
      InsertSorts(k, rest);
      InsertAdds(k, rest);
      Insert(k, rest)
  }

  // ---- the key ----

  function Param(k: string, v: string): string {
    k + "=" + v
  }

  function Tail(ks: seq<string>, params: map<string, string>): string
    requires forall k :: k in ks ==> k in params
  {
    if ks == [] then "" else Tail(ks[..|ks| - 1], params) + "|" + Param(ks[|ks| - 1], params[ks[|ks| - 1]])
  }

  lemma SortedKeysAreKeys(q: Query)
    ensures forall k :: k in SortedKeys(q.params.Keys) <==> k in q.params
  {
    var ks := SortedKeys(q.params.Keys);
    forall k
      ensures k in ks <==> k in q.params
    {
      assert k in multiset(ks) <==> k in ks;
      assert k in multiset(q.params.Keys) <==> k in q.params;
    }
  }

  ghost function Key(q: Query): string {
    SortedKeysAreKeys(q);
    q.provider + "|" + q.action + Tail(SortedKeys(q.params.Keys), q.params)
  }

  /** sort.Strings, whichever algorithm it uses. */
  method SortStrings(keys: seq<string>) returns (sorted: seq<string>)
    ensures Sorted(sorted) && multiset(sorted) == multiset(keys)
  {
    sorted := [];
    for i := 0 to |keys|
      invariant Sorted(sorted) && multiset(sorted) == multiset(keys[..i])
    {
      InsertSorts(keys[i], sorted);
      InsertAdds(keys[i], sorted);
      assert keys[..i + 1] == keys[..i] + [keys[i]];
      sorted := Insert(keys[i], sorted);
    }
    assert keys[..|keys|] == keys;
  }

  /** `range params`, in whatever order the map gives. */
  method KeysOf(params: map<string, string>) returns (keys: seq<string>)
    ensures multiset(keys) == multiset(params.Keys)
  {
    keys := [];
    var todo := params.Keys;
    while todo != {}
      invariant multiset(keys) + multiset(todo) == multiset(params.Keys)
      decreases |todo|
    {
      var k :| k in todo;
      assert multiset(todo) == multiset(todo - {k}) + multiset{k};
      keys := keys + [k];
      todo := todo - {k};
    }
  }

  /** The loop over the sorted names. */
  method WriteParams(start: string, keys: seq<string>, params: map<string, string>) returns (b: string)
    requires forall k :: k in keys ==> k in params
    ensures b == start + Tail(keys, params)
  {
    b := start;
    for i := 0 to |keys|
      invariant b == start + Tail(keys[..i], params)
    {
      assert keys[i] in keys;
      ghost var was := b;
      assert keys[..i + 1][..i] == keys[..i];
      b := b + "|" + keys[i] + "=" + params[keys[i]];
      assert b == was + ("|" + Param(keys[i], params[keys[i]]));
    }
    assert keys[..|keys|] == keys;
  }

  /** The key is a function of the query: map iteration order does not show. */
  method DeterministicCacheKey(q: Query) returns (key: string)
    ensures key == Key(q)
  {
    hide SortedKeys, Sorted, Tail;
    key := q.provider + "|" + q.action;
    SortedKeysAreKeys(q);
    if |q.params| > 0 {
      var keys := KeysOf(q.params);
      keys := SortStrings(keys);
      SortedIsUnique(keys, SortedKeys(q.params.Keys));
      key := WriteParams(key, keys, q.params);
    } else {
      NoParams(q);
    }
  }

  lemma NoParams(q: Query)
    requires |q.params| == 0
    ensures Key(q) == q.provider + "|" + q.action
  {
    assert q.params.Keys == {};
    assert SortedKeys(q.params.Keys) == [];
    SortedKeysAreKeys(q);
    assert Tail([], q.params) == "";
  }

  // ---- injectivity ----

  /** No component contains '|' and no parameter name contains '='. */
  predicate Plain(q: Query) {
    && '|' !in q.provider && '|' !in q.action
    && forall k :: k in q.params ==> '|' !in k && '=' !in k && '|' !in q.params[k]
  }

  function Pieces(ks: seq<string>, params: map<string, string>): (ps: seq<string>)
    requires forall k :: k in ks ==> k in params
    ensures |ps| == |ks| && forall i :: 0 <= i < |ks| ==> ps[i] == Param(ks[i], params[ks[i]])
  {
    seq(|ks|, i requires 0 <= i < |ks| => Param(ks[i], params[ks[i]]))
  }

  lemma {:induction false} JoinSnoc(parts: seq<string>, last: string, sep: char)
    requires parts != []
    ensures Join(parts + [last], sep) == Join(parts, sep) + [sep] + last
    decreases |parts|
  {
    var all := parts + [last];
    if |parts| == 1 {
      assert all[1..] == [last];
    } else {
      JoinSnoc(parts[1..], last, sep);
      assert all[1..] == parts[1..] + [last];
    }
  }

  lemma PiecesSnoc(head: seq<string>, ks: seq<string>, params: map<string, string>)
    requires ks != [] && forall k :: k in ks ==> k in params
    ensures var init, k := ks[..|ks| - 1], ks[|ks| - 1];
            head + Pieces(ks, params) == head + Pieces(init, params) + [Param(k, params[k])]
  {
    hide Param;
  }

  lemma {:induction false} TailIsJoin(head: seq<string>, ks: seq<string>, params: map<string, string>)
    requires head != [] && forall k :: k in ks ==> k in params
    ensures Join(head + Pieces(ks, params), '|') == Join(head, '|') + Tail(ks, params)
    decreases |ks|
  {
    if ks == [] {
      assert head + Pieces(ks, params) == head;
    } else {
      var init, k := ks[..|ks| - 1], ks[|ks| - 1];
      TailIsJoin(head, init, params);
      PiecesSnoc(head, ks, params);
      JoinSnoc(head + Pieces(init, params), Param(k, params[k]), '|');
      hide Join, Param, Pieces;
      Regroup(Join(head, '|'), Tail(init, params), "|");
      Regroup(Join(head, '|'), Tail(init, params) + "|", Param(k, params[k]));
    }
  }

  /** The components of a query, in the order of its key. */
  ghost function Parts(q: Query): (parts: seq<string>)
    ensures |parts| >= 2 && parts[0] == q.provider && parts[1] == q.action
  {
    SortedKeysAreKeys(q);
    [q.provider, q.action] + Pieces(SortedKeys(q.params.Keys), q.params)
  }

  lemma KeyJoins(q: Query)
    ensures Key(q) == Join(Parts(q), '|')
  {
    hide SortedKeys;
    SortedKeysAreKeys(q);
    var head := [q.provider, q.action];
    TailIsJoin(head, SortedKeys(q.params.Keys), q.params);
    assert head[1..] == [q.action];
    assert Join(head, '|') == q.provider + "|" + q.action;
  }

  lemma PartsArePlain(q: Query, i: nat)
    requires Plain(q) && i < |Parts(q)|
    ensures '|' !in Parts(q)[i]
  {
    hide SortedKeys;
    SortedKeysAreKeys(q);
    var ks := SortedKeys(q.params.Keys);
    if i >= 2 {
      assert ks[i - 2] in ks;
      assert Parts(q)[i] == Param(ks[i - 2], q.params[ks[i - 2]]);
    }
  }

  /** A plain query's key, split at '|', gives its components back. */
  lemma KeySplits(q: Query)
    requires Plain(q)
    ensures Split(Key(q), '|') == Parts(q)
  {
    KeyJoins(q);
    hide Key, SortedKeys, Split, Join;
    forall p | p in Parts(q)
      ensures '|' !in p
    {
      var i :| 0 <= i < |Parts(q)| && Parts(q)[i] == p;
      PartsArePlain(q, i);
    }
    SplitOfJoin(Parts(q), '|');
  }

  /** A name without '=' can be told from its value. */
  lemma NameLeads(k: string, v: string)
    requires '=' !in k
    ensures var s := Param(k, v); Split(s, '=')[0] == k && s[|k| + 1..] == v
  {
    var s := Param(k, v);
    assert s[..|k|] == k && s[|k|] == '=';
    SplitAt(s, |k|, '=');
  }

  lemma PartAt(q: Query, i: nat)
    requires i + 2 < |Parts(q)|
    ensures i < |SortedKeys(q.params.Keys)|
    ensures var k := SortedKeys(q.params.Keys)[i]; k in q.params && Parts(q)[i + 2] == Param(k, q.params[k])
  {
    hide SortedKeys;
    SortedKeysAreKeys(q);
    var ks := SortedKeys(q.params.Keys);
    assert ks[i] in ks;
  }

  lemma SameParam(q: Query, q': Query, i: nat)
    requires Plain(q) && Plain(q') && Parts(q) == Parts(q') && i + 2 < |Parts(q)|
    ensures i < |SortedKeys(q.params.Keys)| && i < |SortedKeys(q'.params.Keys)|
    ensures var k := SortedKeys(q.params.Keys)[i];
            k == SortedKeys(q'.params.Keys)[i] && k in q.params && k in q'.params && q.params[k] == q'.params[k]
  {
    PartAt(q, i);
    PartAt(q', i);
    hide SortedKeys, Split, Parts;
    var k, k' := SortedKeys(q.params.Keys)[i], SortedKeys(q'.params.Keys)[i];
    NameLeads(k, q.params[k]);
    NameLeads(k', q'.params[k']);
  }

  lemma SameNames(q: Query, q': Query)
    requires Plain(q) && Plain(q') && Parts(q) == Parts(q')
    ensures SortedKeys(q.params.Keys) == SortedKeys(q'.params.Keys)
  {
    KeyCount(q);
    KeyCount(q');
    hide SortedKeys, Plain, Parts;
    forall i | 0 <= i < |q.params.Keys|
      ensures SortedKeys(q.params.Keys)[i] == SortedKeys(q'.params.Keys)[i]
    {
      SameParam(q, q', i);
    }
  }

  lemma SameValue(q: Query, q': Query, k: string)
    requires Plain(q) && Plain(q') && Parts(q) == Parts(q') && k in q.params && k in q'.params
    ensures q.params[k] == q'.params[k]
  {
    KeyCount(q);
    KeyCount(q');
    SortedKeysAreKeys(q);
    hide SortedKeys, Plain, Parts;
    var i :| 0 <= i < |q.params.Keys| && SortedKeys(q.params.Keys)[i] == k;
    SameParam(q, q', i);
  }

  /** Plain queries with the same key are the same query. */
  lemma KeyIsInjective(q: Query, q': Query)
    requires Plain(q) && Plain(q') && Key(q) == Key(q')
    ensures q == q'
  {
    KeySplits(q);
    KeySplits(q');
    SortedKeysAreKeys(q);
    SortedKeysAreKeys(q');
    SameNames(q, q');
    hide Key, SortedKeys, Plain, Parts;
    assert q.params.Keys == q'.params.Keys;
    forall k | k in q.params
      ensures q.params[k] == q'.params[k]
    {
      SameValue(q, q', k);
    }
    assert q.params == q'.params;
  }

  lemma KeyCount(q: Query)
    ensures |SortedKeys(q.params.Keys)| == |q.params.Keys| == |Parts(q)| - 2
  {
    hide SortedKeys;
    assert |multiset(SortedKeys(q.params.Keys))| == |multiset(q.params.Keys)|;
  }

  // ---- collisions ----

  lemma Regroup(a: string, b: string, c: string)
    ensures a + b + c == a + (b + c)
  {
  }

  /** The key, given the names in order. */
  lemma KeyFrom(q: Query, ks: seq<string>)
    requires Sorted(ks) && multiset(ks) == multiset(q.params.Keys)
    ensures (forall k :: k in ks ==> k in q.params) && Key(q) == q.provider + "|" + q.action + Tail(ks, q.params)
  {
    SortedKeysAreKeys(q);
    SortedIsUnique(ks, SortedKeys(q.params.Keys));
  }

  lemma OneParam(provider: string, action: string, k: string, v: string)
    ensures Key(Query(provider, action, map[k := v])) == provider + "|" + action + ("|" + Param(k, v))
  {
    var params := map[k := v];
    assert params.Keys == {k};
    assert multiset([k]) == multiset(params.Keys);
    KeyFrom(Query(provider, action, params), [k]);
    assert [k][..0] == [];
    assert Tail([k], params) == "|" + Param(k, v);
    hide Key, Tail, Param;
  }

  lemma TwoTail(params: map<string, string>, k: string, j: string)
    requires k in params && j in params
    ensures Tail([k, j], params) == "|" + Param(k, params[k]) + "|" + Param(j, params[j])
  {
    assert [k, j][..1] == [k] && [k][..0] == [];
    assert Tail([k], params) == "|" + Param(k, params[k]);
  }

  lemma TwoParams(provider: string, action: string, k: string, v: string, j: string, u: string)
    requires UpTo(k, j) && k != j
    ensures Key(Query(provider, action, map[k := v, j := u]))
         == provider + "|" + action + ("|" + Param(k, v) + "|" + Param(j, u))
  {
    var params := map[k := v, j := u];
    assert params.Keys == {k, j};
    assert multiset([k, j]) == multiset(params.Keys);
    hide Key, Tail, Param;
    KeyFrom(Query(provider, action, params), [k, j]);
    TwoTail(params, k, j);
  }

  /** A bar moves between provider and action. */
  lemma BarMovesOver(q: Query, x: string, y: string)
    ensures Key(Query(x + "|" + y, q.action, q.params)) == Key(Query(x, y + "|" + q.action, q.params))
  {
    assert x + "|" + y + "|" + q.action == x + "|" + (y + "|" + q.action);
  }

  /** All parameters can pass for a part of the action. */
  lemma ParamsInAction(q: Query)
    ensures forall k :: k in SortedKeys(q.params.Keys) ==> k in q.params
    ensures Key(Query(q.provider, q.action + Tail(SortedKeys(q.params.Keys), q.params), map[])) == Key(q)
  {
    SortedKeysAreKeys(q);
    var tail := Tail(SortedKeys(q.params.Keys), q.params);
    NoParams(Query(q.provider, q.action + tail, map[]));
    hide SortedKeys, Tail;
    Regroup(q.provider + "|", q.action, tail);
  }

  /** No parameters, and no bar in provider or action. */
  predicate Bare(q: Query) {
    q.params == map[] && '|' !in q.provider && '|' !in q.action
  }

  /** No other query has this one's key. */
  ghost predicate OwnsKey(q: Query) {
    forall q' {:trigger Key(q')} :: Key(q') == Key(q) ==> q' == q
  }

  lemma CutAtBar(s: string) returns (x: string, y: string)
    requires '|' in s
    ensures s == x + "|" + y && |x| < |s| && |y| < |s|
  {
    var i :| 0 <= i < |s| && s[i] == '|';
    x, y := s[..i], s[i + 1..];
  }

  /** A query that is not bare shares its key, whatever the rest of it is. */
  lemma SharesKey(q: Query) returns (q': Query)
    requires !Bare(q)
    ensures q' != q && Key(q') == Key(q)
  {
    if q.params != map[] {
      ParamsInAction(q);
      q' := Query(q.provider, q.action + Tail(SortedKeys(q.params.Keys), q.params), map[]);
    } else if '|' in q.provider {
      var x, y := CutAtBar(q.provider);
      BarMovesOver(q, x, y);
      q' := Query(x, y + "|" + q.action, q.params);
    } else {
      var x, y := CutAtBar(q.action);
      BarMovesOver(q.(action := y), q.provider, x);
      q' := Query(q.provider + "|" + x, y, q.params);
      assert |q'.action| < |q.action|;
    }
  }

  lemma TailIsBarred(ks: seq<string>, params: map<string, string>)
    requires forall k :: k in ks ==> k in params
    ensures ks != [] ==> '|' in Tail(ks, params)
  {
    if ks != [] {
      var init := Tail(ks[..|ks| - 1], params);
      assert Tail(ks, params)[|init|] == '|';
    }
  }

  lemma EmptyTail(params: map<string, string>)
    ensures Tail([], params) == ""
  {
  }

  lemma Unbarred(s: string, t: string)
    requires '|' !in s + t
    ensures '|' !in t
  {
    assert forall i :: 0 <= i < |t| ==> (s + t)[|s| + i] == t[i];
  }

  lemma BareOwns(q: Query, q': Query)
    requires Bare(q) && Key(q') == Key(q)
    ensures q' == q
  {
    NoParams(q);
    SortedKeysAreKeys(q');
    var ks := SortedKeys(q'.params.Keys);
    var tail := Tail(ks, q'.params);
    var s := Key(q);
    hide SortedKeys, Tail;
    assert s == q.provider + "|" + q.action && s == q'.provider + "|" + q'.action + tail;
    Regroup(q'.provider + "|", q'.action, tail);
    OneBar(q.provider, q.action, q'.provider, q'.action + tail);
    Unbarred(q'.action, tail);
    TailIsBarred(ks, q'.params);
    assert ks == [] && tail == "" by {
      EmptyTail(q'.params);
    }
    assert q'.params.Keys == {};
    assert q'.params == map[];
  }

  lemma OneBar(p: string, a: string, p': string, a': string)
    requires '|' !in p && '|' !in a && p + "|" + a == p' + "|" + a'
    ensures p == p' && a == a'
  {
    var s := p + "|" + a;
    assert s[..|p|] == p && s[|p| + 1..] == a && s[|p'|] == '|' && s[..|p'|] == p' && s[|p'| + 1..] == a';
    forall i | 0 <= i < |s| && i != |p|
      ensures s[i] != '|'
    {
      if i < |p| {
        assert s[i] == p[i];
      } else {
        assert s[i] == a[i - |p| - 1];
      }
    }
  }

  /** A query owns its key exactly when it has no parameters and no bar in its provider or action. */
  lemma OwnsKeyIff(q: Query)
    ensures OwnsKey(q) <==> Bare(q)
  {
    if Bare(q) {
      forall q' | Key(q') == Key(q)
        ensures q' == q
      {
        BareOwns(q, q');
      }
    } else {
      var q' := SharesKey(q);
    }
  }

  /** An equals sign in a name moves into the value. */
  lemma EqualsInName(provider: string, action: string, a: string, b: string, v: string)
    ensures var q, q' := Query(provider, action, map[Param(a, b) := v]), Query(provider, action, map[a := Param(b, v)]);
            q != q' && Key(q) == Key(q')
  {
    OneParam(provider, action, Param(a, b), v);
    OneParam(provider, action, a, Param(b, v));
    assert a in map[a := Param(b, v)] && |Param(a, b)| > |a|;
    hide Key;
    Regroup(a + "=", b, "=");
    Regroup(a + "=", b + "=", v);
  }

  lemma BarMoves(k: string, v: string, rest: string)
    ensures "|" + Param(k, v + "|" + rest) == "|" + Param(k, v) + "|" + rest
  {
    Regroup(k + "=", v + "|", rest);
    Regroup(k + "=", v, "|");
    Regroup("|", k + "=" + v + "|", rest);
    Regroup("|", k + "=" + v, "|");
  }

  /** A bar in a value makes a second parameter. */
  lemma BarInValue(provider: string, action: string, k: string, v: string, j: string, u: string)
    requires UpTo(k, j) && k != j
    ensures var q := Query(provider, action, map[k := v + "|" + Param(j, u)]);
            var q' := Query(provider, action, map[k := v, j := u]);
            q != q' && Key(q) == Key(q')
  {
    OneParam(provider, action, k, v + "|" + Param(j, u));
    TwoParams(provider, action, k, v, j, u);
    BarMoves(k, v, Param(j, u));
    assert j in map[k := v, j := u] && j !in map[k := v + "|" + Param(j, u)];
    hide Key, Param, UpTo;
  }
}

/** core/filesystem.go: lookups and stores of the provider cache, interleaved with provider calls. */
module ProviderCache {
  import opened Bytes
  import opened CacheKeys

  type Data = seq<byte>

  datatype Entry = Entry(data: Data, expires: int)

  type Cache = map<string, Entry>

  /** A fresh entry's data. */
  function Fresh(c: Cache, key: string, now: int): Option<Data> {
    if key in c && now < c[key].expires then Some(c[key].data) else None
  }

  class Cached {
    var entries: Cache

    constructor ()
      ensures entries == map[]
    {
      entries := map[];
    }

    method Find(q: Query, now: int) returns (hit: Option<Data>)
      ensures hit == Fresh(entries, Key(q), now)
    {
      var key := DeterministicCacheKey(q);
      if key in entries && now < entries[key].expires {
        return Some(entries[key].data);
      }
      return None;
    }

    method Keep(q: Query, data: Data, ttl: int, now: int)
      modifies this
      ensures entries == old(entries)[Key(q) := Entry(data, now + ttl)]
    {
      var key := DeterministicCacheKey(q);
      entries := entries[key := Entry(data, now + ttl)];
    }
  }

  type Thread = nat

  /** A provider call on its way, of a capability with this TTL; not positive means no caching. */
  datatype Call = Call(q: Query, ttl: int)

  /** What a provider call of `q` produced and when it was stored. */
  datatype Stored = Stored(q: Query, data: Data, at: int, ttl: int)

  datatype World = World(cache: Cache, calls: map<Thread, Call>, log: seq<Stored>)

  const Start := World(map[], map[], [])

  datatype Event =
    | Ask(t: Thread, q: Query, ttl: int, now: int)       // a hit answers at once, a miss calls the provider
    | Produce(t: Thread, result: Option<Data>, now: int) // nil or an error stores nothing

  predicate Enabled(w: World, e: Event) {
    match e
    case Ask(t, _, _, _) => t !in w.calls
    case Produce(t, _, _) => t in w.calls
  }

  /** The answer to a query that does not reach the provider. */
  ghost function Hit(w: World, q: Query, ttl: int, now: int): Option<Data> {
    if ttl > 0 then Fresh(w.cache, Key(q), now) else None
  }

  ghost function Step(w: World, e: Event): World
    requires Enabled(w, e)
  {
    match e
    case Ask(t, q, ttl, now) => if Hit(w, q, ttl, now).Some? then w else w.(calls := w.calls[t := Call(q, ttl)])
    case Produce(t, result, now) =>
      var c := w.calls[t];
      if result.Some? && c.ttl > 0 then
        World(w.cache[Key(c.q) := Entry(result.value, now + c.ttl)], w.calls - {t},
              w.log + [Stored(c.q, result.value, now, c.ttl)])
      else w.(calls := w.calls - {t})
  }

  ghost predicate Possible(w: World, run: seq<Event>)
    decreases |run|
  {
    run == [] || (Enabled(w, run[0]) && Possible(Step(w, run[0]), run[1..]))
  }

  ghost function After(w: World, run: seq<Event>): World
    requires Possible(w, run)
    decreases |run|
  {
    if run == [] then w else After(Step(w, run[0]), run[1..])
  }

  /** The run asks queries of `qs` only. */
  ghost predicate Asks(qs: iset<Query>, run: seq<Event>) {
    forall e :: e in run && e.Ask? ==> e.q in qs
  }

  ghost predicate Reachable(qs: iset<Query>, w: World) {
    exists run :: Possible(Start, run) && Asks(qs, run) && After(Start, run) == w
  }

  /** No two of these queries share a key. */
  ghost predicate KeysDiffer(qs: iset<Query>) {
    forall q, q' :: q in qs && q' in qs && Key(q) == Key(q') ==> q == q'
  }

  ghost const PlainOnes: iset<Query> := iset q: Query | Plain(q)

  lemma PlainKeysDiffer()
    ensures KeysDiffer(PlainOnes)
  {
    forall q, q' | q in PlainOnes && q' in PlainOnes && Key(q) == Key(q')
      ensures q == q'
    {
      KeyIsInjective(q, q');
    }
  }

  /** The latest result stored for exactly this query. */
  function Latest(log: seq<Stored>, q: Query): Option<Stored> {
    if log == [] then None
    else if log[|log| - 1].q == q then Some(log[|log| - 1])
    else Latest(log[..|log| - 1], q)
  }

  lemma {:induction false} LatestIsLogged(log: seq<Stored>, q: Query)
    ensures Latest(log, q).Some? ==> Latest(log, q).value in log && Latest(log, q).value.q == q
    ensures Latest(log, q).None? <==> forall s :: s in log ==> s.q != q
  {
    if log != [] && log[|log| - 1].q != q {
      LatestIsLogged(log[..|log| - 1], q);
      assert forall s :: s in log <==> s in log[..|log| - 1] || s == log[|log| - 1];
    }
  }

  ghost function AsEntry(s: Option<Stored>): Option<Entry> {
    if s.None? then None else Some(Entry(s.value.data, s.value.at + s.value.ttl))
  }

  /** Under its key a query finds the latest result stored for itself. */
  ghost predicate Faithful(w: World, q: Query) {
    (if Key(q) in w.cache then Some(w.cache[Key(q)]) else None) == AsEntry(Latest(w.log, q))
  }

  ghost predicate Inv(qs: iset<Query>, w: World) {
    && (forall t :: t in w.calls ==> w.calls[t].q in qs)
    && (forall q {:trigger Faithful(w, q)} :: q in qs ==> Faithful(w, q))
  }

  lemma LatestSnoc(log: seq<Stored>, s: Stored, q: Query)
    ensures Latest(log + [s], q) == if s.q == q then Some(s) else Latest(log, q)
  {
    assert (log + [s])[..|log|] == log;
  }

  lemma StepKeeps(qs: iset<Query>, w: World, e: Event)
    requires KeysDiffer(qs) && Inv(qs, w) && Enabled(w, e) && (e.Ask? ==> e.q in qs)
    ensures Inv(qs, Step(w, e))
  {
    hide Key, Latest;
    var w' := Step(w, e);
    forall q | q in qs
      ensures Faithful(w', q)
    {
      assert Faithful(w, q);
      if e.Produce? && e.result.Some? && w.calls[e.t].ttl > 0 {
        var c := w.calls[e.t];
        LatestSnoc(w.log, Stored(c.q, e.result.value, e.now, c.ttl), q);
      }
    }
  }

  lemma {:induction false} RunKeeps(qs: iset<Query>, w: World, run: seq<Event>)
    requires KeysDiffer(qs) && Inv(qs, w) && Possible(w, run) && Asks(qs, run)
    ensures Inv(qs, After(w, run))
    decreases |run|
  {
    if run != [] {
      assert run[0] in run && forall e :: e in run[1..] ==> e in run;
      StepKeeps(qs, w, run[0]);
      hide Inv, Step, KeysDiffer;
      RunKeeps(qs, Step(w, run[0]), run[1..]);
    }
  }

  lemma ReachableInv(qs: iset<Query>, w: World)
    requires KeysDiffer(qs) && Reachable(qs, w)
    ensures Inv(qs, w)
  {
    var run :| Possible(Start, run) && Asks(qs, run) && After(Start, run) == w;
    assert Inv(qs, Start);
    RunKeeps(qs, Start, run);
  }

  /**
   * Over queries whose keys differ the cache is a map from queries to their latest result: a query is answered
   * from it exactly when a call of that very query stored a result less than its TTL ago, and with that result.
   */
  lemma HitIff(qs: iset<Query>, w: World, q: Query, ttl: int, now: int)
    requires KeysDiffer(qs) && Reachable(qs, w) && q in qs && ttl > 0
    ensures var s := Latest(w.log, q);
            Hit(w, q, ttl, now) == if s.Some? && now < s.value.at + s.value.ttl then Some(s.value.data) else None
  {
    ReachableInv(qs, w);
    assert Faithful(w, q);
  }

  /** A call of this very query stored this data less than its TTL ago. */
  ghost predicate Genuine(w: World, q: Query, data: Data, now: int) {
    exists s :: s in w.log && s.q == q && s.data == data && now < s.at + s.ttl
  }

  lemma HitIsGenuine(qs: iset<Query>, w: World, q: Query, ttl: int, now: int)
    requires KeysDiffer(qs) && Reachable(qs, w) && q in qs && Hit(w, q, ttl, now).Some?
    ensures Genuine(w, q, Hit(w, q, ttl, now).value, now)
  {
    HitIff(qs, w, q, ttl, now);
    LatestIsLogged(w.log, q);
    var s := Latest(w.log, q).value;
    assert s in w.log && s.q == q;
  }

  /** In every run over these queries, every hit is genuine. */
  ghost predicate NeverLeaks(qs: iset<Query>) {
    forall w, q, ttl, now {:trigger Reachable(qs, w), Hit(w, q, ttl, now)} ::
      Reachable(qs, w) && q in qs && Hit(w, q, ttl, now).Some? ==> Genuine(w, q, Hit(w, q, ttl, now).value, now)
  }

  /** Every hit of every run over a set of queries is the query's own fresh data exactly when their keys differ. */
  lemma NeverLeaksIff(qs: iset<Query>)
    ensures NeverLeaks(qs) <==> KeysDiffer(qs)
  {
    if KeysDiffer(qs) {
      forall w, q, ttl, now | Reachable(qs, w) && q in qs && Hit(w, q, ttl, now).Some?
        ensures Genuine(w, q, Hit(w, q, ttl, now).value, now)
      {
        HitIsGenuine(qs, w, q, ttl, now);
      }
    } else {
      var q, q' :| q in qs && q' in qs && Key(q) == Key(q') && q != q';
      var run := LeakRun(q, [], 1, 0);
      CollisionLeaks(q, q', [], 1, 0);
      LeakAsks(qs, q, [], 1, 0);
      var w := After(Start, run);
      assert Reachable(qs, w);
      assert Hit(w, q', 1, 0).Some?;
      LatestIsLogged(w.log, q');
    }
  }

  /** Plain queries never leak. */
  lemma PlainNeverLeaks()
    ensures NeverLeaks(PlainOnes)
  {
    PlainKeysDiffer();
    NeverLeaksIff(PlainOnes);
  }

  function LeakRun(q: Query, data: Data, ttl: int, now: int): seq<Event> {
    [Ask(0, q, ttl, now), Produce(0, Some(data), now)]
  }

  lemma LeakAsks(qs: iset<Query>, q: Query, data: Data, ttl: int, now: int)
    requires q in qs
    ensures Asks(qs, LeakRun(q, data, ttl, now))
  {
  }

  /** Queries with colliding keys are given each other's data. */
  lemma CollisionLeaks(q: Query, other: Query, data: Data, ttl: int, now: int)
    requires Key(q) == Key(other) && ttl > 0
    ensures var run := LeakRun(q, data, ttl, now);
            && Possible(Start, run)
            && Hit(After(Start, run), other, ttl, now) == Some(data)
            && (q != other ==> Latest(After(Start, run).log, other) == None)
  {
    hide Key;
    var e, f := Ask(0, q, ttl, now), Produce(0, Some(data), now);
    var run := [e, f];
    assert run[1..] == [f] && [f][1..] == [];
    var w := Step(Start, e);
    assert Possible(w, [f]) && After(w, [f]) == Step(w, f);
  }

  // ---- the same from the events alone ----

  /** The thread's latest question. */
  function LastAsk(run: seq<Event>, t: Thread): Option<Call> {
    if run == [] then None
    else
      match run[|run| - 1]
      case Ask(u, q, ttl, _) => if u == t then Some(Call(q, ttl)) else LastAsk(run[..|run| - 1], t)
      case Produce(_, _, _) => LastAsk(run[..|run| - 1], t)
  }

  /** What the run's provider calls produced for capabilities that are cached at all; failed calls produced nothing. */
  function Results(run: seq<Event>): seq<Stored> {
    if run == [] then []
    else
      var init := run[..|run| - 1];
      match run[|run| - 1]
      case Ask(_, _, _, _) => Results(init)
      case Produce(t, result, now) =>
        var c := LastAsk(init, t);
        if c.Some? && c.value.ttl > 0 && result.Some?
        then Results(init) + [Stored(c.value.q, result.value, now, c.value.ttl)]
        else Results(init)
  }

  lemma {:induction false} RunThenStep(w: World, run: seq<Event>, e: Event)
    ensures Possible(w, run + [e]) <==> Possible(w, run) && Enabled(After(w, run), e)
    ensures Possible(w, run + [e]) ==> After(w, run + [e]) == Step(After(w, run), e)
    decreases |run|
  {
    if run == [] {
      assert [] + [e] == [e] && [e][1..] == [];
    } else {
      assert (run + [e])[1..] == run[1..] + [e] && (run + [e])[0] == run[0];
      if Enabled(w, run[0]) {
        RunThenStep(Step(w, run[0]), run[1..], e);
      }
    }
  }

  /** The log is what the run's calls produced, and a call on its way is for its thread's latest question. */
  lemma {:induction false} LogIsHistory(run: seq<Event>)
    requires Possible(Start, run)
    ensures var w := After(Start, run);
            w.log == Results(run) && forall t :: t in w.calls ==> LastAsk(run, t) == Some(w.calls[t])
    decreases |run|
  {
    if run != [] {
      var init, e := run[..|run| - 1], run[|run| - 1];
      assert run == init + [e];
      RunThenStep(Start, init, e);
      LogIsHistory(init);
      hide Key, Possible, After;
    }
  }

  /**
   * After any run over queries whose keys differ, a question is answered without the provider exactly when its
   * capability is cached and the latest result that the run's calls produced for this very query is younger than the
   * TTL it was stored with; the answer is that result. Any other question is a call on its way.
   */
  lemma AskIff(qs: iset<Query>, run: seq<Event>, t: Thread, q: Query, ttl: int, now: int)
    requires KeysDiffer(qs) && Possible(Start, run) && Asks(qs, run) && q in qs && t !in After(Start, run).calls
    ensures var w, s := After(Start, run), Latest(Results(run), q);
            var known := ttl > 0 && s.Some? && now < s.value.at + s.value.ttl;
            && Hit(w, q, ttl, now) == (if known then Some(s.value.data) else None)
            && Step(w, Ask(t, q, ttl, now)).calls == (if known then w.calls else w.calls[t := Call(q, ttl)])
  {
    LogIsHistory(run);
    assert Reachable(qs, After(Start, run));
    hide Key;
    if ttl > 0 {
      HitIff(qs, After(Start, run), q, ttl, now);
    }
  }

  /** A provider call that comes back is over; it leaves the cache alone when it failed or its capability has no TTL. */
  lemma ProduceOutcome(w: World, t: Thread, result: Option<Data>, now: int)
    requires t in w.calls
    ensures var w', c := Step(w, Produce(t, result, now)), w.calls[t];
            && w'.calls == w.calls - {t}
            && (result.None? || c.ttl <= 0 ==> w'.cache == w.cache)
            && forall key :: key != Key(c.q) ==>
                 (key in w'.cache <==> key in w.cache) && (key in w.cache ==> w'.cache[key] == w.cache[key])
  {
    hide Key;
  }
}
