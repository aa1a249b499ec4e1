/** Path syntax on the text of a path alone, and what router and lookup make of it. */
module PathText {
  import opened Bytes
  import opened Paths

  predicate OccursAt(s: string, pattern: string, i: nat) {
    i + |pattern| <= |s| && s[i..i + |pattern|] == pattern
  }

  predicate Contains(s: string, pattern: string) {
    exists i :: 0 <= i <= |s| && OccursAt(s, pattern, i)
  }

  lemma OccursIff(s: string, pattern: string, i: nat)
    ensures OccursAt(s, pattern, i) <==>
            i + |pattern| <= |s| && forall j :: 0 <= j < |pattern| ==> s[i + j] == pattern[j]
  {
    if i + |pattern| <= |s| && forall j :: 0 <= j < |pattern| ==> s[i + j] == pattern[j] {
      assert s[i..i + |pattern|] == pattern;
    }
  }

  /** What occurs in a tail of `s` occurs in `s`, and the other way from there on. */
  lemma OccursInTail(s: string, pattern: string, d: nat, i: nat)
    requires d <= |s|
    ensures OccursAt(s[d..], pattern, i) <==> OccursAt(s, pattern, d + i)
  {
    OccursIff(s[d..], pattern, i);
    OccursIff(s, pattern, d + i);
  }

  // ---- a part is what stands between two slashes ----

  function FirstSlash(s: string): (k: nat)
    ensures k <= |s| && '/' !in s[..k] && (k == |s| || s[k] == '/')
  {
    if s == "" || s[0] == '/' then 0
    else
      var k := FirstSlash(s[1..]);
      assert s[..k + 1] == [s[0]] + s[1..][..k];
      k + 1
  }

  lemma TailOfPadded(s: string, k: nat)
    requires k < |s| && s[k] == '/'
    ensures ("/" + s + "/")[k + 1..] == "/" + s[k + 1..] + "/"
  {
  }

  lemma Padded(s: string)
    ensures var t := "/" + s + "/";
            |t| == |s| + 2 && t[0] == '/' && t[|s| + 1] == '/' && forall j :: 0 <= j < |s| ==> t[1 + j] == s[j]
  {
  }

  /** The text between slashes; where it has slashes, and where it has not. */
  lemma Slashes(s: string, k: nat)
    requires k == FirstSlash(s)
    ensures var t := "/" + s + "/";
            && t[0] == '/' && t[k + 1] == '/' && (forall j :: 0 < j <= k ==> t[j] != '/')
            && (forall j :: 0 <= j < k ==> t[1 + j] == s[..k][j])
            && (k < |s| ==> t[k + 1..] == "/" + s[k + 1..] + "/")
  {
    Padded(s);
    var t, head := "/" + s + "/", s[..k];
    assert forall j :: 0 <= j < k ==> s[j] == head[j];
    forall j | 0 < j <= k
      ensures t[j] != '/'
    {
      assert t[1 + (j - 1)] == head[j - 1];
    }
    if k < |s| {
      TailOfPadded(s, k);
    }
  }

  /** "/b/" stands at the front of "/s/" exactly when `b` is the first part. */
  lemma FrontIff(s: string, b: string, k: nat)
    requires '/' !in b && k == FirstSlash(s)
    ensures OccursAt("/" + s + "/", "/" + b + "/", 0) <==> s[..k] == b
  {
    var t, pattern := "/" + s + "/", "/" + b + "/";
    Slashes(s, k);
    OccursIff(t, pattern, 0);
    assert pattern[0] == '/' && pattern[|b| + 1] == '/' && forall j :: 0 <= j < |b| ==> pattern[1 + j] == b[j];
    assert forall j :: 0 <= j < |b| ==> b[j] != '/';
    if OccursAt(t, pattern, 0) {
      assert forall j :: 0 <= j < |b| ==> t[1 + j] == b[j];
      assert t[|b| + 1] == '/';
      assert |b| == k;
      assert s[..k] == b;
    } else if s[..k] == b {
      forall j | 0 <= j < |pattern|
        ensures t[0 + j] == pattern[j]
      {
        assert j == 0 || j == |b| + 1 || pattern[1 + (j - 1)] == b[j - 1];
      }
    }
  }

  lemma NotWithinFirst(s: string, b: string, k: nat, i: nat)
    requires k == FirstSlash(s) && 0 < i && OccursAt("/" + s + "/", "/" + b + "/", i)
    ensures k < i && k < |s|
  {
    var t, pattern := "/" + s + "/", "/" + b + "/";
    Slashes(s, k);
    OccursIff(t, pattern, i);
    assert pattern[0] == '/' && t[i + 0] == '/';
    assert i + |b| + 2 <= |s| + 2;
  }

  /** `b` is a part of `s` exactly when "/b/" occurs in "/s/". */
  lemma {:induction false} PartIff(s: string, b: string)
    requires '/' !in b
    ensures b in Split(s, '/') <==> Contains("/" + s + "/", "/" + b + "/")
    decreases |s|
  {
    hide OccursAt, Split, FirstSlash;
    var k := FirstSlash(s);
    SplitAt(s, k, '/');
    if k < |s| {
      PartIff(s[k + 1..], b);
    }
    var t, pattern := "/" + s + "/", "/" + b + "/";
    FrontIff(s, b, k);
    Slashes(s, k);
    if b in Split(s, '/') {
      if b != s[..k] {
        var i: nat :| i <= |t[k + 1..]| && OccursAt(t[k + 1..], pattern, i);
        OccursInTail(t, pattern, k + 1, i);
      }
    } else if Contains(t, pattern) {
      var i: nat :| i <= |t| && OccursAt(t, pattern, i);
      NotWithinFirst(s, b, k, i);
      OccursInTail(t, pattern, k + 1, i - k - 1);
    }
  }

  lemma AllGoodIff(s: string)
    ensures AllGood(Split(s, '/')) <==>
            var t := "/" + s + "/";
            !Contains(t, "//") && !Contains(t, "/./") && !Contains(t, "/../")
  {
    hide Contains;
    PartIff(s, "");
    PartIff(s, ".");
    PartIff(s, "..");
    assert "/" + "" + "/" == "//" && "/" + "." + "/" == "/./" && "/" + ".." + "/" == "/../";
  }

  /** Besides the root, the normal paths are the absolute ones that, with a slash put behind, hold no bad segment. */
  lemma NormalIffText(p: string)
    requires p != "/"
    ensures Normal(p) <==>
            && p != "" && p[0] == '/'
            && !Contains(p + "/", "//") && !Contains(p + "/", "/./") && !Contains(p + "/", "/../")
  {
    if p != "" && p[0] == '/' {
      assert "/" + p[1..] + "/" == p + "/";
      AllGoodIff(p[1..]);
      if p[|p| - 1] == '/' {
        assert OccursAt(p + "/", "//", |p| - 1);
      }
    }
  }

  // ---- what cleanParts accepts ----

  lemma {:induction false} LeftTrimmed(s: string) returns (i: nat)
    ensures i <= |s| && TrimLeft(s) == s[i..] && forall k :: 0 <= k < i ==> s[k] == '/'
  {
    i := 0;
    if s != "" && s[0] == '/' {
      var j := LeftTrimmed(s[1..]);
      i := j + 1;
      assert forall k :: 0 < k < i ==> s[k] == s[1..][k - 1];
    }
  }

  lemma {:induction false} RightTrimmed(s: string) returns (j: nat)
    ensures j <= |s| && TrimRight(s) == s[..j] && forall k :: j <= k < |s| ==> s[k] == '/'
    decreases |s|
  {
    j := |s|;
    if s != "" && s[|s| - 1] == '/' {
      j := RightTrimmed(s[..|s| - 1]);
      assert forall k :: j <= k < |s| - 1 ==> s[k] == s[..|s| - 1][k];
    }
  }

  /** Trimming takes slashes off both ends, and all of them. */
  lemma Trimmed(s: string) returns (i: nat, j: nat)
    ensures i <= j <= |s| && Trim(s) == s[i..j]
    ensures forall k :: (0 <= k < i || j <= k < |s|) ==> s[k] == '/'
    ensures i < j ==> s[i] != '/' && s[j - 1] != '/'
  {
    i := LeftTrimmed(s);
    var m := RightTrimmed(s[i..]);
    j := i + m;
    assert forall k :: j <= k < |s| ==> s[k] == s[i..][k - i];
    assert s[i..][..m] == s[i..j];
  }

  lemma TrimIsUnique(s: string, i: nat, j: nat)
    requires i < j <= |s| && s[i] != '/' && s[j - 1] != '/'
    requires forall k :: (0 <= k < i || j <= k < |s|) ==> s[k] == '/'
    ensures Trim(s) == s[i..j]
  {
    var i', j' := Trimmed(s);
  }

  /**
   * Besides the root, `cleanParts` takes a path apart exactly if it starts with a slash, and what the slashes at
   * its two ends enclose is not empty and, between two slashes, holds no bad segment. The parts joined are that text.
   */
  lemma CleanOnText(p: string)
    requires p != "/"
    ensures CleanParts(p).Some? <==>
            && p != "" && p[0] == '/'
            && exists i, j ::
                 && 0 < i < j <= |p| && p[i] != '/' && p[j - 1] != '/'
                 && (forall k :: (0 <= k < i || j <= k < |p|) ==> p[k] == '/')
                 && var t := "/" + p[i..j] + "/";
                    !Contains(t, "//") && !Contains(t, "/./") && !Contains(t, "/../")
    ensures CleanParts(p).Some? ==>
              && CleanParts(p).value != []
              && (forall s :: s in CleanParts(p).value ==> s != "" && s != "." && s != ".." && '/' !in s)
              && exists i, j ::
                   && 0 < i < j <= |p| && p[i..j] == Join(CleanParts(p).value, '/')
                   && forall k :: (0 <= k < i || j <= k < |p|) ==> p[k] == '/'
  {
    if p != "" && p[0] == '/' {
      var i, j := Trimmed(p);
      AllGoodIff(Trim(p));
      JoinOfSplit(Trim(p), '/');
      forall i', j' | 0 < i' < j' <= |p| && p[i'] != '/' && p[j' - 1] != '/'
                      && forall k :: (0 <= k < i' || j' <= k < |p|) ==> p[k] == '/'
        ensures p[i'..j'] == Trim(p)
      {
        TrimIsUnique(p, i', j');
      }
    }
  }
}
