/** The merge engine's Myers diff: greedy search with full snapshots, then the backtrack. */
module Myers {
  import opened Edits
  import opened EditGraph
  import opened Frontier

  /** Entry k + offset of the working array holds the furthest point of round d. */
  ghost predicate Holds(src: seq<Line>, dst: seq<Line>, v: seq<int>, offset: int, k: int, d: nat)
    requires OnRound(k, d)
  {
    0 <= k + offset < |v| && v[k + offset] == Far(src, dst, k, d)
  }

  /** The working array holds round d on the diagonals below bound. */
  ghost predicate RoundHeld(src: seq<Line>, dst: seq<Line>, v: seq<int>, offset: int, d: nat, bound: int) {
    forall k | OnRound(k, d) && k < bound :: Holds(src, dst, v, offset, k, d)
  }

  /** Snapshot e was taken after round e - 1. */
  ghost predicate TracesHeld(src: seq<Line>, dst: seq<Line>, traces: seq<seq<int>>, offset: int) {
    forall e | 1 <= e < |traces| :: RoundHeld(src, dst, traces[e], offset, e - 1, e)
  }

  /** What one step of the search writes is the furthest point of its diagonal. */
  lemma SearchStep(src: seq<Line>, dst: seq<Line>, v: seq<int>, offset: int, k: int, d: nat, down: bool, x: int)
    requires OnRound(k, d) && 0 <= k + offset < |v|
    requires d == 0 ==> x == 0
    requires d > 0 ==> RoundHeld(src, dst, v, offset, d - 1, d)
    requires d > 0 ==> 0 <= offset - d && offset + d < |v|
    requires d > 0 ==> down == (-k == d || (k != d && v[k - 1 + offset] < v[k + 1 + offset]))
    requires d > 0 ==> x == if down then v[k + 1 + offset] else v[k - 1 + offset] + 1
    ensures 0 <= x && k <= x && Snake(src, dst, x, x - k) == Far(src, dst, k, d)
    ensures d > 0 ==> down == GoesDown(src, dst, k, d) && x == Entry(src, dst, k, d)
  {
    if d == 0 {
      GreedyStart(src, dst);
      FarIsUnique(src, dst, Snake(src, dst, 0, 0), 0, 0);
    } else {
      assert -k != d ==> Holds(src, dst, v, offset, k - 1, d - 1);
      assert k != d ==> Holds(src, dst, v, offset, k + 1, d - 1);
      FarFromEntry(src, dst, k, d);
    }
  }

  /** Writing diagonal k keeps both rounds and extends the current one to k + 2. */
  lemma RoundGrows(src: seq<Line>, dst: seq<Line>, v: seq<int>, v': seq<int>, offset: int, d: nat, k: int)
    requires OnRound(k, d) && 0 <= k + offset < |v| && v' == v[k + offset := Far(src, dst, k, d)]
    requires RoundHeld(src, dst, v, offset, d, k)
    ensures RoundHeld(src, dst, v', offset, d, k + 2)
    ensures d > 0 && RoundHeld(src, dst, v, offset, d - 1, d) ==> RoundHeld(src, dst, v', offset, d - 1, d)
  {
    forall j | OnRound(j, d) && j < k + 2 ensures Holds(src, dst, v', offset, j, d) {
      assert j < k ==> Holds(src, dst, v, offset, j, d);
    }
    if d > 0 && RoundHeld(src, dst, v, offset, d - 1, d) {
      var e: nat := d - 1;
      forall j | OnRound(j, e) && j < d ensures Holds(src, dst, v', offset, j, e) {
        assert Holds(src, dst, v, offset, j, e);
      }
    }
  }

  /** The backtrack's reading of snapshot d. */
  lemma SnapshotStep(src: seq<Line>, dst: seq<Line>, v: seq<int>, offset: int, k: int, d: nat)
    requires OnRound(k, d) && d > 0 && RoundHeld(src, dst, v, offset, d - 1, d)
    ensures -k != d ==> 0 <= k - 1 + offset < |v|
    ensures k != d ==> 0 <= k + 1 + offset < |v|
    ensures GoesDown(src, dst, k, d) == (-k == d || (k != d && v[k - 1 + offset] < v[k + 1 + offset]))
    ensures var p := PrevK(src, dst, k, d); Holds(src, dst, v, offset, p, d - 1)
  {
    assert -k != d ==> Holds(src, dst, v, offset, k - 1, d - 1);
    assert k != d ==> Holds(src, dst, v, offset, k + 1, d - 1);
  }

  /** Emits, last line first, the kept lines between (stopX, stopY) and (x, y). */
  method EmitKeeps(src: seq<Line>, dst: seq<Line>, edits0: seq<Edit>, stopX: nat, stopY: nat, x0: nat, y0: nat)
    returns (edits: seq<Edit>)
    requires stopX <= x0 <= |src| && stopY <= y0 <= |dst| && x0 - stopX == y0 - stopY
    ensures Reversed(edits) == KeepRun(src, dst, stopX, stopY, x0 - stopX) + Reversed(edits0)
  {
    var x, y := x0, y0;
    edits := edits0;
    while x > stopX && y > stopY
      invariant stopX <= x <= x0 && x - stopX == y - stopY
      invariant KeepRun(src, dst, stopX, stopY, x0 - stopX) + Reversed(edits0)
             == KeepRun(src, dst, stopX, stopY, x - stopX) + Reversed(edits)
    {
      x := x - 1;
      y := y - 1;
      ReversedSnoc(edits, Keep(src[x], dst[y]));
      edits := edits + [Keep(src[x], dst[y])];
    }
  }

  /** Taking one round off the part still to be read back. */
  lemma BacktrackLink(src: seq<Line>, dst: seq<Line>, x: nat, y: nat, d: nat, done: seq<Edit>)
    requires OnFrontier(src, dst, x, y, d) && d > 0
    ensures var px, py := PrevX(src, dst, x - y, d), PrevY(src, dst, x - y, d);
            && OnFrontier(src, dst, px, py, d - 1)
            && Backtrack(src, dst, x, y, d) + done
            == Backtrack(src, dst, px, py, d - 1) + (StepScript(src, dst, x, y, d) + done)
  {
    StepBack(src, dst, x, y, d);
  }

  method BuildEdits(traces: seq<seq<int>>, src: seq<Line>, dst: seq<Line>, d0: nat, offset: int)
    returns (edits: seq<Edit>)
    requires OnFrontier(src, dst, |src|, |dst|, d0)
    requires d0 < |traces| && TracesHeld(src, dst, traces, offset)
    ensures edits == Backtrack(src, dst, |src|, |dst|, d0)
  {
    var x, y, d := |src|, |dst|, d0;
    edits := [];
    ghost var whole := Backtrack(src, dst, x, y, d);
    while d > 0
      invariant OnFrontier(src, dst, x, y, d) && d < |traces|
      invariant whole == Backtrack(src, dst, x, y, d) + Reversed(edits)
    {
      BacktrackLink(src, dst, x, y, d, Reversed(edits));
      x, y, edits := BackOneRound(traces[d], src, dst, edits, x, y, d, offset);
      d := d - 1;
    }
    FirstRun(src, dst, x, y);
    edits := EmitKeeps(src, dst, edits, 0, 0, x, y);
    edits := ReverseInPlace(edits);
  }

  /** The body of the backtrack loop. */
  method BackOneRound(v: seq<int>, src: seq<Line>, dst: seq<Line>, edits0: seq<Edit>,
                      x: nat, y: nat, d: nat, offset: int)
    returns (prevX: int, prevY: int, edits: seq<Edit>)
    requires OnFrontier(src, dst, x, y, d) && d > 0
    requires RoundHeld(src, dst, v, offset, d - 1, d)
    ensures prevX == PrevX(src, dst, x - y, d) && prevY == PrevY(src, dst, x - y, d)
    ensures Reversed(edits) == StepScript(src, dst, x, y, d) + Reversed(edits0)
  {
    var k := x - y;
    SnapshotStep(src, dst, v, offset, k, d);
    StepBack(src, dst, x, y, d);
    var down := -k == d || (k != d && v[k - 1 + offset] < v[k + 1 + offset]);
    var prevK;
    if down {
      prevK := k + 1;
    } else {
      prevK := k - 1;
    }
    prevX := v[prevK + offset];
    prevY := prevX - prevK;
    if down {
      edits := EmitKeeps(src, dst, edits0, prevX, prevY + 1, x, y);
      ReversedSnoc(edits, Insert(dst[prevY]));
      edits := edits + [Insert(dst[prevY])];
    } else {
      edits := EmitKeeps(src, dst, edits0, prevX + 1, prevY, x, y);
      ReversedSnoc(edits, Delete(src[prevX]));
      edits := edits + [Delete(src[prevX])];
    }
  }

  /** Follows equal lines from (x, y). */
  method FollowEqual(src: seq<Line>, dst: seq<Line>, x0: nat, y0: nat) returns (x: nat, y: nat)
    ensures x == Snake(src, dst, x0, y0) && y == x - x0 + y0
  {
    x, y := x0, y0;
    while x < |src| && y < |dst| && src[x] == dst[y]
      invariant x0 <= x && y == x - x0 + y0 && Snake(src, dst, x, y) == Snake(src, dst, x0, y0)
    {
      x := x + 1;
      y := y + 1;
    }
  }

  /** Round d is computed on the diagonals before k, and has not met the corner, which is met in round last. */
  ghost predicate Searching(src: seq<Line>, dst: seq<Line>, v: seq<int>, offset: int, d: nat, k: int, last: nat) {
    && 0 < offset && d <= offset && |v| == 2 * offset + 1
    && (d == 0 && k == 0 ==> v[1 + offset] == 0)
    && RoundHeld(src, dst, v, offset, d, k) && (d > 0 ==> RoundHeld(src, dst, v, offset, d - 1, d))
    && (d == last ==> k <= |src| - |dst|)
  }

  ghost predicate SearchingAs(src: seq<Line>, dst: seq<Line>, v: seq<int>, offset: int, d: nat, k: int, last: nat) {
    forall x | x == v :: Searching(src, dst, x, offset, d, k, last)
  }

  /** What one step of the search starts from. */
  lemma SearchReads(src: seq<Line>, dst: seq<Line>, v: seq<int>, offset: int, d: nat, k: int, last: nat, down: bool,
                    x: int)
    requires SearchingAs(src, dst, v, offset, d, k, last) && OnRound(k, d)
    requires d <= offset && |v| == 2 * offset + 1 && offset > 0
    requires down == (-k == d || (k != d && v[k - 1 + offset] < v[k + 1 + offset]))
    requires x == if down then v[k + 1 + offset] else v[k - 1 + offset] + 1
    ensures 0 <= x && k <= x && Snake(src, dst, x, x - k) == Far(src, dst, k, d)
  {
    assert Searching(src, dst, v, offset, d, k, last);
    SearchStep(src, dst, v, offset, k, d, down, x);
  }

  /** The corner is met in round last, on its own diagonal. */
  lemma CornerMet(src: seq<Line>, dst: seq<Line>, d: nat, k: int, x: nat, last: nat)
    requires OnRound(k, d) && x == Far(src, dst, k, d)
    requires last == Dist(src, dst, |src|, |dst|) && d <= last
    ensures x >= |src| && x - k >= |dst| ==> d == last
    ensures d == last && k == |src| - |dst| ==> x == |src|
    ensures d == last ==> OnRound(|src| - |dst|, d)
  {
    CornerIsFar(src, dst);
    FarIsFurthest(src, dst, k, d);
    if x >= |src| && x - k >= |dst| {
      PastCorner(src, dst, x, k, d);
    }
  }

  /** With x, the furthest point of diagonal k, written, the corner is met or the search goes on. */
  lemma SearchGoesOn(src: seq<Line>, dst: seq<Line>, v: seq<int>, v': seq<int>, offset: int, d: nat, k: int, x: nat,
                     last: nat)
    requires SearchingAs(src, dst, v, offset, d, k, last) && OnRound(k, d) && 0 <= k + offset < |v|
    requires d == last && k == |src| - |dst| ==> x == |src|
    requires d == last ==> OnRound(|src| - |dst|, d)
    requires x == Far(src, dst, k, d) && v' == v[k + offset := x]
    ensures (x >= |src| && x - k >= |dst|) || SearchingAs(src, dst, v', offset, d, k + 2, last)
  {
    assert Searching(src, dst, v, offset, d, k, last);
    RoundGrows(src, dst, v, v', offset, d, k);
  }

  /**
   One round of the search: computes the furthest point of every diagonal of round d, in
   place, and stops early exactly when it meets the corner.
   */
  method SearchRound(src: seq<Line>, dst: seq<Line>, v: array<int>, d: nat, offset: int) returns (found: bool)
    requires src != [] && dst != [] && offset == |src| + |dst| && v.Length == 2 * offset + 1
    requires d <= Dist(src, dst, |src|, |dst|)
    requires d == 0 ==> v[1 + offset] == 0
    requires d > 0 ==> RoundHeld(src, dst, v[..], offset, d - 1, d)
    modifies v
    ensures found <==> d == Dist(src, dst, |src|, |dst|)
    ensures !found ==> RoundHeld(src, dst, v[..], offset, d, d + 1)
  {
    CornerIsFar(src, dst);
    ghost var last := Dist(src, dst, |src|, |dst|);
    var k := 0 - d;
    while k <= d
      invariant -k <= d && k <= d + 2 && SameParity(k, d) && SearchingAs(src, dst, v[..], offset, d, k, last)
    {
      ghost var before := v[..];
      var down := -k == d || (k != d && v[k - 1 + offset] < v[k + 1 + offset]);
      var x;
      if down {
        x := v[k + 1 + offset];
      } else {
        x := v[k - 1 + offset] + 1;
      }
      SearchReads(src, dst, before, offset, d, k, last, down, x);
      var y := x - k;
      x, y := FollowEqual(src, dst, x, y);
      v[k + offset] := x;
      CornerMet(src, dst, d, k, x, last);
      SearchGoesOn(src, dst, before, v[..], offset, d, k, x, last);
      if x >= |src| && y >= |dst| {
        return true;
      }
      k := k + 2;
    }
    assert Searching(src, dst, v[..], offset, d, k, last);
    return false;
  }

  /** The search proper: rounds until one meets the corner, then the backtrack. */
  method Search(src: seq<Line>, dst: seq<Line>) returns (edits: seq<Edit>)
    requires src != [] && dst != []
    ensures edits == Script(src, dst)
  {
    var max := |src| + |dst|;
    var offset := max;
    var v := new int[2 * max + 1](_ => 0);
    var traces: seq<seq<int>> := [];
    CornerIsFar(src, dst);
    var d := 0;
    while d <= max
      invariant 0 <= d <= Dist(src, dst, |src|, |dst|) && |traces| == d
      invariant d == 0 ==> v[1 + offset] == 0
      invariant d > 0 ==> RoundHeld(src, dst, v[..], offset, d - 1, d)
      invariant TracesHeld(src, dst, traces, offset)
    {
      traces := traces + [v[..]];
      var found := SearchRound(src, dst, v, d, offset);
      if found {
        edits := BuildEdits(traces, src, dst, d, offset);
        return;
      }
      d := d + 1;
    }
    assert false;
  }

  /**
   The result is a shortest edit script for all inputs: its keeps and deletions spell src, its
   keeps and insertions spell dst, and no script has fewer insertions and deletions. That the
   search needs no fallback is the unreachable end of Search.
   */
  method MyersDiff(src: seq<Line>, dst: seq<Line>) returns (edits: seq<Edit>)
    ensures edits == Script(src, dst)
    ensures Shortest(edits, src, dst)
  {
    if |src| == 0 && |dst| == 0 {
      edits := [];
    } else if |src| == 0 {
      edits := Inserts(dst);
    } else if |dst| == 0 {
      edits := Deletes(src);
    } else {
      edits := Search(src, dst);
    }
    ScriptIsShortest(src, dst);
  }
}
