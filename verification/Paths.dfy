/** Slash-separated paths as lists of names, and the byte order of names. */
module Paths {

  import opened Objects

  type Path = seq<string>

  // ----- splitting at slashes -----

  /** The length of the first name: the place of the first slash, or the whole length. */
  function NameLen(s: string): (n: nat)
    ensures n <= |s|
    ensures '/' !in s[..n]
    ensures n < |s| ==> s[n] == '/'
  {
    if s == "" || s[0] == '/' then 0 else 1 + NameLen(s[1..])
  }

  /** The names between the slashes; the empty string is one empty name. */
  function Split(s: string): (p: Path)
    ensures |p| > 0
  {
    var n := NameLen(s);
    if n == |s| then [s] else [s[..n]] + Split(s[n + 1..])
  }

  function JoinPath(p: Path): string
    requires |p| > 0
  {
    if |p| == 1 then p[0] else p[0] + "/" + JoinPath(p[1..])
  }

  lemma JoinCons(a: string, p: Path)
    requires |p| > 0
    ensures JoinPath([a] + p) == a + ("/" + JoinPath(p))
  {
    assert ([a] + p)[1..] == p;
  }

  lemma {:induction false} JoinSplit(s: string)
    ensures JoinPath(Split(s)) == s
    decreases |s|
  {
    var n := NameLen(s);
    if n < |s| {
      var rest := s[n + 1..];
      JoinSplit(rest);
      JoinCons(s[..n], Split(rest));
      assert Split(s) == [s[..n]] + Split(rest);
      CutAt(s, n, rest);
    }
  }

  lemma CutAt(s: string, n: nat, rest: string)
    requires n < |s| && s[n] == '/' && rest == s[n + 1..]
    ensures s == s[..n] + ("/" + rest)
  {
  }

  /** Different paths have different lists of names. */
  lemma SplitIsInjective(s: string, t: string)
    requires Split(s) == Split(t)
    ensures s == t
  {
    JoinSplit(s);
    JoinSplit(t);
  }

  lemma {:induction false} NameLenOf(a: string, b: string)
    requires '/' !in a
    ensures NameLen(a) == |a|
    ensures NameLen(a + "/" + b) == |a|
  {
    var s := a + "/" + b;
    if a != "" {
      NameLenOf(a[1..], b);
      assert s[1..] == a[1..] + "/" + b;
    }
  }

  lemma SplitName(a: string, b: string)
    requires '/' !in a
    ensures Split(a) == [a]
    ensures Split(a + "/" + b) == [a] + Split(b)
  {
    NameLenOf(a, b);
    var s := a + "/" + b;
    assert s[..|a|] == a && s[|a| + 1..] == b;
  }

  lemma {:induction false} SplitIsSlashFree(s: string)
    ensures forall k | k in Split(s) :: '/' !in k
    decreases |s|
  {
    var n := NameLen(s);
    if n < |s| {
      SplitIsSlashFree(s[n + 1..]);
    } else {
      assert s[..n] == s;
    }
  }

  // ----- the order of names -----

  predicate Less(a: string, b: string) {
    b != "" && (a == "" || a[0] < b[0] || (a[0] == b[0] && Less(a[1..], b[1..])))
  }

  lemma {:induction false} LessIsTotal(a: string, b: string)
    ensures a == b || Less(a, b) || Less(b, a)
  {
    if a != "" && b != "" && a[0] == b[0] {
      LessIsTotal(a[1..], b[1..]);
      assert a == [a[0]] + a[1..] && b == [b[0]] + b[1..];
    }
  }

  lemma {:induction false} LessIsTransitive(a: string, b: string, c: string)
    requires Less(a, b) && Less(b, c)
    ensures Less(a, c)
  {
    if a != "" && a[0] == b[0] == c[0] {
      LessIsTransitive(a[1..], b[1..], c[1..]);
    }
  }

  lemma {:induction false} LessIsStrict(a: string)
    ensures !Less(a, a)
  {
    if a != "" { LessIsStrict(a[1..]); }
  }

  ghost predicate Increasing(s: seq<string>) {
    forall i, j | 0 <= i < j < |s| :: Less(s[i], s[j])
  }

  /** A set of names has just one increasing listing, so the order they were met in leaves no trace. */
  lemma {:induction false} IncreasingIsUnique(s: seq<string>, t: seq<string>)
    requires Increasing(s) && Increasing(t) && Elems(s) == Elems(t)
    ensures s == t
  {
    assert s == [] <==> t == [] by {
      if s != [] { assert s[0] in Elems(s); }
      if t != [] { assert t[0] in Elems(t); }
    }
    if s != [] {
      FirstIsLeast(s, t[0]);
      FirstIsLeast(t, s[0]);
      if s[0] != t[0] {
        LessIsTransitive(s[0], t[0], s[0]);
        LessIsStrict(s[0]);
      }
      RestOf(s);
      RestOf(t);
      IncreasingIsUnique(s[1..], t[1..]);
      assert s == [s[0]] + s[1..] && t == [t[0]] + t[1..];
    }
  }

  lemma FirstIsLeast(s: seq<string>, k: string)
    requires Increasing(s) && s != [] && k in Elems(s)
    ensures s[0] == k || Less(s[0], k)
  {
  }

  lemma RestOf(s: seq<string>)
    requires Increasing(s) && s != []
    ensures Increasing(s[1..]) && Elems(s[1..]) == Elems(s) - {s[0]}
  {
    LessIsStrict(s[0]);
    forall k ensures k in s[1..] <==> k in Elems(s) - {s[0]} {
      if k in s[1..] {
        var i :| 0 <= i < |s[1..]| && s[1..][i] == k;
        assert Less(s[0], s[i + 1]);
      }
      if k in Elems(s) - {s[0]} {
        var i :| 0 <= i < |s| && s[i] == k;
        assert s[1..][i - 1] == k;
      }
    }
  }
}
