/** Line-level edit scripts, shared by both diff engines. */
module Edits {

  type Line = string

  /** One element of an edit script: a kept line carries both of its copies. */
  datatype Edit = Keep(src: Line, dst: Line) | Insert(dst: Line) | Delete(src: Line)

  /** The lines a script reads: kept and deleted ones. */
  function SrcLines(es: seq<Edit>): seq<Line> {
    if es == [] then []
    else (if es[0].Insert? then [] else [es[0].src]) + SrcLines(es[1..])
  }

  /** The lines a script writes: kept and inserted ones. */
  function DstLines(es: seq<Edit>): seq<Line> {
    if es == [] then []
    else (if es[0].Delete? then [] else [es[0].dst]) + DstLines(es[1..])
  }

  /** Number of insertions and deletions. */
  function Cost(es: seq<Edit>): nat {
    if es == [] then 0
    else (if es[0].Keep? then 0 else 1) + Cost(es[1..])
  }

  /** Number of kept lines. */
  function KeepCount(es: seq<Edit>): nat {
    if es == [] then 0
    else (if es[0].Keep? then 1 else 0) + KeepCount(es[1..])
  }

  /** A script turns src into dst when it reads src, writes dst and only keeps equal lines. */
  ghost predicate Transforms(es: seq<Edit>, src: seq<Line>, dst: seq<Line>) {
    && SrcLines(es) == src
    && DstLines(es) == dst
    && forall i | 0 <= i < |es| :: es[i].Keep? ==> es[i].src == es[i].dst
  }

  /** No script that turns src into dst makes fewer edits. */
  ghost predicate Shortest(es: seq<Edit>, src: seq<Line>, dst: seq<Line>) {
    && Transforms(es, src, dst)
    && forall other :: Transforms(other, src, dst) ==> Cost(es) <= Cost(other)
  }

  lemma {:induction false} SrcConcat(a: seq<Edit>, b: seq<Edit>)
    ensures SrcLines(a + b) == SrcLines(a) + SrcLines(b)
  {
    if a == [] {
      assert a + b == b;
    } else {
      assert (a + b)[1..] == a[1..] + b;
      SrcConcat(a[1..], b);
    }
  }

  lemma {:induction false} DstConcat(a: seq<Edit>, b: seq<Edit>)
    ensures DstLines(a + b) == DstLines(a) + DstLines(b)
  {
    if a == [] {
      assert a + b == b;
    } else {
      assert (a + b)[1..] == a[1..] + b;
      DstConcat(a[1..], b);
    }
  }

  lemma {:induction false} CountConcat(a: seq<Edit>, b: seq<Edit>)
    ensures Cost(a + b) == Cost(a) + Cost(b)
    ensures KeepCount(a + b) == KeepCount(a) + KeepCount(b)
  {
    if a == [] {
      assert a + b == b;
    } else {
      assert (a + b)[1..] == a[1..] + b;
      CountConcat(a[1..], b);
    }
  }

  lemma Concat(a: seq<Edit>, b: seq<Edit>)
    ensures SrcLines(a + b) == SrcLines(a) + SrcLines(b)
    ensures DstLines(a + b) == DstLines(a) + DstLines(b)
    ensures Cost(a + b) == Cost(a) + Cost(b)
    ensures KeepCount(a + b) == KeepCount(a) + KeepCount(b)
  {
    SrcConcat(a, b);
    DstConcat(a, b);
    CountConcat(a, b);
  }

  /** Every line is either kept on both sides or paid for on one. */
  lemma {:induction false} CostFromKeeps(es: seq<Edit>)
    ensures Cost(es) + 2 * KeepCount(es) == |SrcLines(es)| + |DstLines(es)|
  {
    if es != [] {
      CostFromKeeps(es[1..]);
    }
  }

  /** The script that inserts every line. */
  function Inserts(lines: seq<Line>): (es: seq<Edit>)
    ensures |es| == |lines| && forall i | 0 <= i < |es| :: es[i] == Insert(lines[i])
  {
    seq(|lines|, i requires 0 <= i < |lines| => Insert(lines[i]))
  }

  /** The script that deletes every line. */
  function Deletes(lines: seq<Line>): (es: seq<Edit>)
    ensures |es| == |lines| && forall i | 0 <= i < |es| :: es[i] == Delete(lines[i])
  {
    seq(|lines|, i requires 0 <= i < |lines| => Delete(lines[i]))
  }

  lemma {:induction false} InsertsSpell(lines: seq<Line>)
    ensures SrcLines(Inserts(lines)) == [] && DstLines(Inserts(lines)) == lines
    ensures Cost(Inserts(lines)) == |lines| && KeepCount(Inserts(lines)) == 0
  {
    if lines != [] {
      assert Inserts(lines)[1..] == Inserts(lines[1..]);
      InsertsSpell(lines[1..]);
    }
  }

  lemma {:induction false} DeletesSpell(lines: seq<Line>)
    ensures SrcLines(Deletes(lines)) == lines && DstLines(Deletes(lines)) == []
    ensures Cost(Deletes(lines)) == |lines| && KeepCount(Deletes(lines)) == 0
  {
    if lines != [] {
      assert Deletes(lines)[1..] == Deletes(lines[1..]);
      DeletesSpell(lines[1..]);
    }
  }

  // ----- reversal, used by both backtracks -----

  function Reversed<T>(s: seq<T>): seq<T> {
    if s == [] then [] else [s[|s| - 1]] + Reversed(s[..|s| - 1])
  }

  lemma {:induction false} ReversedAt<T>(s: seq<T>)
    ensures |Reversed(s)| == |s| && forall k | 0 <= k < |s| :: Reversed(s)[k] == s[|s| - 1 - k]
  {
    if s != [] {
      ReversedAt(s[..|s| - 1]);
    }
  }

  lemma ReversedSnoc<T>(s: seq<T>, x: T)
    ensures Reversed(s + [x]) == [x] + Reversed(s)
  {
    assert (s + [x])[..|s|] == s;
  }

  /** The swap loop both backtracks end with. */
  method ReverseInPlace<T>(s: seq<T>) returns (r: seq<T>)
    ensures r == Reversed(s)
  {
    r := s;
    var i, j := 0, |r| - 1;
    while i < j
      invariant 0 <= i <= j + 2 && i + j == |s| - 1 && |r| == |s|
      invariant forall k | 0 <= k < i :: r[k] == s[|s| - 1 - k] && r[|s| - 1 - k] == s[k]
      invariant forall k | i <= k <= j :: r[k] == s[k]
    {
      r := r[i := r[j]][j := r[i]];
      i, j := i + 1, j - 1;
    }
    ReversedAt(s);
    forall k | 0 <= k < |s| ensures r[k] == Reversed(s)[k] {
      if k >= i && k > j {
        assert r[|s| - 1 - (|s| - 1 - k)] == s[|s| - 1 - k];
      }
    }
  }
}
