/** core/params.go: the fixed-size parameter set filled by a route match. */
module Params {
  import opened Bytes

  const INLINE_PARAMS := 8

  type Pair = (string, string)

  /** The value Get finds: the first pair with the key. */
  function First(pairs: seq<Pair>, key: string): Option<string> {
    if pairs == [] then None
    else if pairs[0].0 == key then Some(pairs[0].1)
    else First(pairs[1..], key)
  }

  /** The map ToMap builds: later pairs overwrite earlier ones. */
  function MapOf(pairs: seq<Pair>): map<string, string> {
    if pairs == [] then map[]
    else MapOf(pairs[..|pairs| - 1])[pairs[|pairs| - 1].0 := pairs[|pairs| - 1].1]
  }

  predicate DistinctKeys(pairs: seq<Pair>) {
    forall i, j :: 0 <= i < j < |pairs| ==> pairs[i].0 != pairs[j].0
  }

  lemma {:induction false} FirstAppend(pairs: seq<Pair>, last: Pair, key: string)
    ensures First(pairs + [last], key)
         == if First(pairs, key).Some? then First(pairs, key)
            else if last.0 == key then Some(last.1) else None
    decreases |pairs|
  {
    if pairs == [] {
      assert pairs + [last] == [last];
    } else {
      assert (pairs + [last])[1..] == pairs[1..] + [last];
      FirstAppend(pairs[1..], last, key);
    }
  }

  lemma {:induction false} FirstFinds(pairs: seq<Pair>, key: string)
    ensures First(pairs, key).Some? <==> exists i :: 0 <= i < |pairs| && pairs[i].0 == key
    decreases |pairs|
  {
    if pairs != [] {
      FirstFinds(pairs[1..], key);
      if i :| 0 <= i < |pairs| && pairs[i].0 == key {
        if i > 0 {
          assert pairs[1..][i - 1].0 == key;
        }
      }
    }
  }

  /** What the map says about a key. */
  function InMap(pairs: seq<Pair>, key: string): Option<string> {
    if key in MapOf(pairs) then Some(MapOf(pairs)[key]) else None
  }

  /** `Get` and `ToMap` tell the same about every key. */
  ghost predicate ViewsMatch(pairs: seq<Pair>) {
    forall key {:trigger First(pairs, key)} :: First(pairs, key) == InMap(pairs, key)
  }

  /** With distinct names the two views agree on every key. */
  lemma {:induction false} ViewsAgree(pairs: seq<Pair>, key: string)
    requires DistinctKeys(pairs)
    ensures First(pairs, key) == InMap(pairs, key)
    decreases |pairs|
  {
    if pairs != [] {
      var init, last := pairs[..|pairs| - 1], pairs[|pairs| - 1];
      assert pairs == init + [last];
      ViewsAgree(init, key);
      FirstAppend(init, last, key);
      FirstFinds(init, key);
    }
  }

  /** `Get` finds the key no later than at `i`. */
  lemma {:induction false} FirstIsEarly(pairs: seq<Pair>, i: nat) returns (k: nat)
    requires i < |pairs|
    ensures k <= i && pairs[k].0 == pairs[i].0 && First(pairs, pairs[i].0) == Some(pairs[k].1)
    decreases |pairs|
  {
    if pairs[0].0 == pairs[i].0 {
      k := 0;
    } else {
      k := FirstIsEarly(pairs[1..], i - 1);
      k := k + 1;
    }
  }

  /** `ToMap` keeps the value at `j` or a later one. */
  lemma {:induction false} MapIsLate(pairs: seq<Pair>, j: nat) returns (k: nat)
    requires j < |pairs|
    ensures j <= k < |pairs| && pairs[k].0 == pairs[j].0 && InMap(pairs, pairs[j].0) == Some(pairs[k].1)
    decreases |pairs|
  {
    var n := |pairs| - 1;
    if pairs[n].0 == pairs[j].0 {
      k := n;
    } else {
      k := MapIsLate(pairs[..n], j);
    }
  }

  /** A repeated name whose earlier values are `a` and later ones `b` shows the difference. */
  lemma ViewsDiffer(pairs: seq<Pair>, i: nat, j: nat, a: string, b: string)
    requires i < j < |pairs| && pairs[i].0 == pairs[j].0 && a != b
    requires forall k :: 0 <= k < |pairs| ==> pairs[k].1 == if k <= i then a else b
    ensures First(pairs, pairs[i].0) == Some(a) && InMap(pairs, pairs[i].0) == Some(b)
    ensures !ViewsMatch(pairs)
  {
    var k := FirstIsEarly(pairs, i);
    var l := MapIsLate(pairs, j);
  }

  function Zip(names: seq<string>, values: seq<string>): (pairs: seq<Pair>)
    requires |names| == |values|
    ensures |pairs| == |names| && forall k :: 0 <= k < |names| ==> pairs[k] == (names[k], values[k])
  {
    seq(|names|, k requires 0 <= k < |names| => (names[k], values[k]))
  }

  predicate NoRepeats(names: seq<string>) {
    forall i, j :: 0 <= i < j < |names| ==> names[i] != names[j]
  }

  /** The two views agree whatever the values exactly when no name is repeated. */
  lemma ViewsAgreeIff(names: seq<string>)
    ensures (forall values | |values| == |names| :: ViewsMatch(Zip(names, values))) <==> NoRepeats(names)
  {
    if NoRepeats(names) {
      forall values | |values| == |names|
        ensures ViewsMatch(Zip(names, values))
      {
        forall key
          ensures First(Zip(names, values), key) == InMap(Zip(names, values), key)
        {
          ViewsAgree(Zip(names, values), key);
        }
      }
    } else {
      var i, j :| 0 <= i < j < |names| && names[i] == names[j];
      var values := seq(|names|, k => if k <= i then "a" else "b");
      ViewsDiffer(Zip(names, values), i, j, "a", "b");
    }
  }

  class ParamSet {
    const slots: array<Pair>
    var count: nat

    ghost predicate Valid()
      reads this
    {
      slots.Length == INLINE_PARAMS && count <= INLINE_PARAMS
    }

    ghost function Pairs(): (s: seq<Pair>)
      requires Valid()
      reads this, slots
      ensures |s| == count
    {
      slots[..count]
    }

    constructor ()
      ensures Valid() && fresh(slots) && Pairs() == []
    {
      slots := new Pair[INLINE_PARAMS](_ => ("", ""));
      count := 0;
    }

    /** Silently ignores a ninth parameter. */
    method Set(key: string, value: string)
      requires Valid()
      modifies this, slots
      ensures Valid()
      ensures Pairs() == if old(count) < 8 then old(Pairs()) + [(key, value)] else old(Pairs())
    {
      if count >= INLINE_PARAMS { return; }
      slots[count] := (key, value);
      count := count + 1;
    }

    method Reset()
      requires Valid()
      modifies this
      ensures Valid() && Pairs() == []
    {
      count := 0;
    }

    method Get(key: string) returns (r: Option<string>)
      requires Valid()
      ensures r == First(Pairs(), key)
    {
      for i := 0 to count
        invariant First(Pairs(), key) == First(Pairs()[i..], key)
      {
        if slots[i].0 == key { return Some(slots[i].1); }
        assert Pairs()[i..][1..] == Pairs()[i + 1..];
      }
      return None;
    }

    method ToMap() returns (m: map<string, string>)
      requires Valid()
      ensures m == MapOf(Pairs())
    {
      m := map[];
      for i := 0 to count
        invariant m == MapOf(Pairs()[..i])
      {
        m := m[slots[i].0 := slots[i].1];
        assert Pairs()[..i + 1][..i] == Pairs()[..i];
      }
      assert Pairs()[..count] == Pairs();
    }
  }
}
