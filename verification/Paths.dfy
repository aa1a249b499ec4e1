/** Path syntax: `normalizePath` (core/filesystem.go) and `cleanParts` (core/router.go). */
module Paths {
  import opened Bytes

  datatype Errno = EINVAL | ENOENT | EEXIST | ENOSPC

  /** strings.Split for a one-character separator: always at least one part. */
  function Split(s: string, sep: char): (parts: seq<string>)
    ensures |parts| >= 1
  {
    if s == "" then [""]
    else if s[0] == sep then [""] + Split(s[1..], sep)
    else
      var rest := Split(s[1..], sep);
      [[s[0]] + rest[0]] + rest[1..]
  }

  function Join(parts: seq<string>, sep: char): string
    requires parts != []
  {
    if |parts| == 1 then parts[0] else parts[0] + [sep] + Join(parts[1..], sep)
  }

  lemma {:induction false} JoinOfSplit(s: string, sep: char)
    ensures Join(Split(s, sep), sep) == s
    decreases |s|
  {
    if s != "" {
      var rest := Split(s[1..], sep);
      JoinOfSplit(s[1..], sep);
      if s[0] == sep {
        assert ([""] + rest)[1..] == rest;
        assert s == [s[0]] + s[1..];
      } else {
        var all := [[s[0]] + rest[0]] + rest[1..];
        assert all[1..] == rest[1..];
        assert s == [s[0]] + s[1..];
      }
    }
  }

  /** A separator-free prefix up to a separator, or to the end, is the first part. */
  lemma {:induction false} SplitAt(s: string, k: nat, sep: char)
    requires k <= |s| && sep !in s[..k] && (k == |s| || s[k] == sep)
    ensures Split(s, sep) == [s[..k]] + (if k == |s| then [] else Split(s[k + 1..], sep))
    decreases k
  {
    if k > 0 {
      assert s[0] == s[..k][0];
      assert s[1..][..k - 1] == s[..k][1..];
      SplitAt(s[1..], k - 1, sep);
      assert s[1..][k - 1..] == s[k..];
      assert k < |s| ==> s[1..][k..] == s[k + 1..];
      assert [s[0]] + s[1..][..k - 1] == s[..k];
    }
  }

  lemma {:induction false} SplitOfJoin(parts: seq<string>, sep: char)
    requires parts != [] && forall p :: p in parts ==> sep !in p
    ensures Split(Join(parts, sep), sep) == parts
    decreases |parts|
  {
    var s, k := Join(parts, sep), |parts[0]|;
    assert parts[0] in parts;
    assert s[..k] == parts[0];
    if |parts| == 1 {
      SplitAt(s, k, sep);
      assert parts == [parts[0]];
    } else {
      assert forall p :: p in parts[1..] ==> p in parts;
      SplitOfJoin(parts[1..], sep);
      assert s[k + 1..] == Join(parts[1..], sep);
      SplitAt(s, k, sep);
      assert parts == [parts[0]] + parts[1..];
    }
  }

  lemma {:induction false} SplitPartsClean(s: string, sep: char)
    ensures forall i :: 0 <= i < |Split(s, sep)| ==> sep !in Split(s, sep)[i]
    decreases |s|
  {
    if s != "" {
      SplitPartsClean(s[1..], sep);
    }
  }

  /** A separator followed by another one, or by the end, makes an empty part. */
  lemma {:induction false} EmptyPart(s: string, j: nat, sep: char) returns (k: nat)
    requires j < |s| && s[j] == sep && (j + 1 == |s| || s[j + 1] == sep)
    ensures 1 <= k < |Split(s, sep)| && Split(s, sep)[k] == ""
    decreases j
  {
    if j == 0 {
      k := 1;
    } else {
      k := EmptyPart(s[1..], j - 1, sep);
      if s[0] == sep {
        k := k + 1;
      }
    }
  }

  // ---- segments ----

  predicate GoodSegment(p: string) {
    p != "" && p != "." && p != ".."
  }

  predicate AllGood(parts: seq<string>) {
    forall i :: 0 <= i < |parts| ==> GoodSegment(parts[i])
  }

  /** Parts a path can have: good segments without the separator. */
  predicate Segments(parts: seq<string>) {
    AllGood(parts) && forall i :: 0 <= i < |parts| ==> '/' !in parts[i]
  }

  function Text(parts: seq<string>): string {
    if parts == [] then "/" else "/" + Join(parts, '/')
  }

  // ---- normalizePath and cleanParts ----

  predicate Normal(p: string) {
    && p != "" && p[0] == '/'
    && (p == "/" || (p[|p| - 1] != '/' && AllGood(Split(p[1..], '/'))))
  }

  function TrimLeft(s: string): (t: string)
    ensures t == "" || t[0] != '/'
  {
    if s != "" && s[0] == '/' then TrimLeft(s[1..]) else s
  }

  function TrimRight(s: string): (t: string)
    ensures t == "" || t[|t| - 1] != '/'
  {
    if s != "" && s[|s| - 1] == '/' then TrimRight(s[..|s| - 1]) else s
  }

  function Trim(s: string): string {
    TrimRight(TrimLeft(s))
  }

  function CleanParts(p: string): (r: Option<seq<string>>)
    ensures r.Some? ==> Segments(r.value)
  {
    if p == "" || p[0] != '/' then None
    else if p == "/" then Some([])
    else
      var raw := Split(Trim(p), '/');
      SplitPartsClean(Trim(p), '/');
      if AllGood(raw) then Some(raw) else None
  }

  predicate DoubleSlash(p: string) {
    exists i :: 0 <= i < |p| - 1 && p[i] == '/' && p[i + 1] == '/'
  }

  /** The parts of a path, read off after the leading slash. */
  function PartsOf(p: string): seq<string>
    requires p != ""
  {
    if p == "/" then [] else Split(p[1..], '/')
  }

  lemma NormalHasNoDoubleSlash(p: string)
    requires Normal(p)
    ensures !DoubleSlash(p)
  {
    if p != "/" {
      assert GoodSegment(Split(p[1..], '/')[0]);
      assert p[1] != '/';
      forall i | 0 < i < |p| - 1 && p[i] == '/'
        ensures p[i + 1] != '/'
      {
        if p[i + 1] == '/' {
          var k := EmptyPart(p[1..], i - 1, '/');
        }
      }
    }
  }

  /** `normalizePath` and `cleanParts` agree, and the parts spell the path. */
  lemma NormalAgreesWithClean(p: string)
    requires Normal(p)
    ensures CleanParts(p) == Some(PartsOf(p)) && Text(PartsOf(p)) == p
  {
    if p != "/" {
      var s := p[1..];
      assert GoodSegment(Split(s, '/')[0]);
      assert s[0] != '/';
      assert TrimLeft(p) == s;
      assert s[|s| - 1] == p[|p| - 1];
      JoinOfSplit(s, '/');
      assert p == "/" + s;
    }
  }

  /** Well-formed parts spell a path that both checks accept and take apart again. */
  lemma TextIsNormal(parts: seq<string>)
    requires Segments(parts)
    ensures Normal(Text(parts)) && PartsOf(Text(parts)) == parts && CleanParts(Text(parts)) == Some(parts)
  {
    if parts != [] {
      var p := Text(parts);
      SplitOfJoin(parts, '/');
      assert p[1..] == Join(parts, '/');
      assert GoodSegment(Split(p[1..], '/')[0]);
      assert p[1..] != "";
      if p[|p| - 1] == '/' {
        var k := EmptyPart(p[1..], |p| - 2, '/');
      }
    }
    NormalAgreesWithClean(Text(parts));
  }

  /** `cleanParts` accepts exactly the paths that spell a normal path once outer slashes are trimmed. */
  lemma CleanIffTrimmedNormal(p: string)
    requires p != "" && p[0] == '/' && p != "/"
    ensures CleanParts(p).Some? <==> Trim(p) != "" && Normal("/" + Trim(p))
    ensures CleanParts(p).Some? ==> CleanParts("/" + Trim(p)) == CleanParts(p)
  {
    var t := Trim(p);
    assert ("/" + t)[1..] == t;
    if t == "" {
      assert Split(t, '/')[0] == "";
    } else if CleanParts(p).Some? {
      NormalAgreesWithClean("/" + t);
    }
  }
}
