/**
 The viewer's copy of the Myers diff: the same search, but each snapshot keeps only the window
 of the working array a round can touch, and both the number of edits and the total size of the
 windows are capped. The search loop is the one of Myers.SearchRound.
 */
module MyersLines {
  import opened Edits
  import opened EditGraph
  import opened Frontier
  import Myers

  /** A snapshot of a stretch of the working array; index i of the array is found at v[i - lo]. */
  datatype Trace = Trace(lo: int, v: seq<int>) {
    predicate Covers(i: int) { lo <= i < lo + |v| }

    function At(i: int): int
      requires Covers(i)
    {
      v[i - lo]
    }
  }

  datatype LineOp = LineOp(kind: char, text: Line)

  function ToOp(e: Edit): LineOp {
    match e
    case Keep(s, _) => LineOp('=', s)
    case Insert(t) => LineOp('+', t)
    case Delete(s) => LineOp('-', s)
  }

  function Ops(es: seq<Edit>): seq<LineOp> {
    if es == [] then [] else [ToOp(es[0])] + Ops(es[1..])
  }

  /** What the old text reads in the operations, and what the new one does. */
  function OldText(ops: seq<LineOp>): seq<Line> {
    if ops == [] then [] else (if ops[0].kind == '+' then [] else [ops[0].text]) + OldText(ops[1..])
  }

  function NewText(ops: seq<LineOp>): seq<Line> {
    if ops == [] then [] else (if ops[0].kind == '-' then [] else [ops[0].text]) + NewText(ops[1..])
  }

  /** Operations that are no kept line. */
  function ChangeCount(ops: seq<LineOp>): nat {
    if ops == [] then 0 else (if ops[0].kind == '=' then 0 else 1) + ChangeCount(ops[1..])
  }

  predicate KindsOk(ops: seq<LineOp>) {
    forall i | 0 <= i < |ops| :: ops[i].kind in ['=', '+', '-']
  }

  /** The operations of a script tell both texts, with as many changes as the script has edits. */
  lemma {:induction false} OpsTell(es: seq<Edit>)
    requires forall i | 0 <= i < |es| :: es[i].Keep? ==> es[i].src == es[i].dst
    ensures var ops := Ops(es);
            && KindsOk(ops) && OldText(ops) == SrcLines(es) && NewText(ops) == DstLines(es)
            && ChangeCount(ops) == Cost(es)
    decreases |es|
  {
    if es != [] {
      OpsTell(es[1..]);
      assert Ops(es)[1..] == Ops(es[1..]);
      assert forall i | 0 < i < |Ops(es)| :: Ops(es)[i] == Ops(es[1..])[i - 1];
    }
  }

  lemma {:induction false} OpsConcat(a: seq<Edit>, b: seq<Edit>)
    ensures Ops(a + b) == Ops(a) + Ops(b)
  {
    if a == [] {
      assert a + b == b;
    } else {
      assert (a + b)[1..] == a[1..] + b;
      OpsConcat(a[1..], b);
    }
  }

  /** The window holds what round d left on diagonal k. */
  ghost predicate HoldsAt(src: seq<Line>, dst: seq<Line>, t: Trace, offset: int, k: int, d: nat) {
    t.Covers(k + offset) && t.At(k + offset) == Far(src, dst, k, d)
  }

  /** The window holds all of round d. */
  ghost predicate WindowHeld(src: seq<Line>, dst: seq<Line>, t: Trace, offset: int, d: nat) {
    forall k | OnRound(k, d) :: HoldsAt(src, dst, t, offset, k, d)
  }

  /** Window e was saved after round e - 1. */
  ghost predicate TracesHeld(src: seq<Line>, dst: seq<Line>, traces: seq<Trace>, offset: int) {
    forall e | 1 <= e < |traces| :: WindowHeld(src, dst, traces[e], offset, e - 1)
  }

  /** Cutting the window around round d loses nothing the backtrack reads. */
  lemma WindowSuffices(src: seq<Line>, dst: seq<Line>, v: seq<int>, offset: int, d: nat, lo: int, hi: int)
    requires Myers.RoundHeld(src, dst, v, offset, d, d + 1)
    requires 0 <= lo <= hi <= |v| && lo <= offset - d && offset + d < hi
    ensures WindowHeld(src, dst, Trace(lo, v[lo..hi]), offset, d)
  {
    forall k | OnRound(k, d) ensures HoldsAt(src, dst, Trace(lo, v[lo..hi]), offset, k, d) {
      assert Myers.Holds(src, dst, v, offset, k, d);
    }
  }

  /** Every read of the backtrack lies inside the saved window and sees the full array's value. */
  lemma WindowStep(src: seq<Line>, dst: seq<Line>, t: Trace, offset: int, k: int, d: nat)
    requires OnRound(k, d) && d > 0 && WindowHeld(src, dst, t, offset, d - 1)
    ensures -k != d ==> t.Covers(k - 1 + offset)
    ensures k != d ==> t.Covers(k + 1 + offset)
    ensures GoesDown(src, dst, k, d) == (-k == d || (k != d && t.At(k - 1 + offset) < t.At(k + 1 + offset)))
    ensures HoldsAt(src, dst, t, offset, PrevK(src, dst, k, d), d - 1)
  {
    assert -k != d ==> HoldsAt(src, dst, t, offset, k - 1, d - 1);
    assert k != d ==> HoldsAt(src, dst, t, offset, k + 1, d - 1);
  }

  lemma OneKept(run: seq<Edit>, e: Edit, ops: seq<LineOp>)
    requires e.Keep?
    ensures Ops(run + [e]) + Reversed(ops) == Ops(run) + Reversed(ops + [LineOp('=', e.src)])
  {
    var op := LineOp('=', e.src);
    OpsConcat(run, [e]);
    ReversedSnoc(ops, op);
    assert [e][1..] == [] && Ops([e]) == [op];
    assert Ops(run) + [op] + Reversed(ops) == Ops(run) + ([op] + Reversed(ops));
  }

  method EmitKeeps(src: seq<Line>, ghost dst: seq<Line>, ops0: seq<LineOp>, stopX: nat, stopY: nat, x0: nat, y0: nat)
    returns (ops: seq<LineOp>)
    requires stopX <= x0 <= |src| && stopY <= y0 <= |dst| && x0 - stopX == y0 - stopY
    ensures Reversed(ops) == Ops(KeepRun(src, dst, stopX, stopY, x0 - stopX)) + Reversed(ops0)
  {
    var x, y := x0, y0;
    ops := ops0;
    while x > stopX && y > stopY
      invariant stopX <= x <= x0 && x - stopX == y - stopY
      invariant Ops(KeepRun(src, dst, stopX, stopY, x0 - stopX)) + Reversed(ops0)
             == Ops(KeepRun(src, dst, stopX, stopY, x - stopX)) + Reversed(ops)
    {
      x := x - 1;
      y := y - 1;
      OneKept(KeepRun(src, dst, stopX, stopY, x - stopX), Keep(src[x], dst[y]), ops);
      ops := ops + [LineOp('=', src[x])];
    }
  }

  /** The lines one round of the backtrack emits: the edit, then the kept run after it. */
  lemma OpsOfStep(src: seq<Line>, dst: seq<Line>, x: nat, y: nat, d: nat, px: nat, py: nat, down: bool)
    requires OnFrontier(src, dst, x, y, d) && d > 0
    requires px == PrevX(src, dst, x - y, d) && py == PrevY(src, dst, x - y, d) && down == GoesDown(src, dst, x - y, d)
    ensures down ==> py < |dst| && px <= x && py + 1 <= y && x - px == y - (py + 1)
    ensures !down ==> px < |src| && px + 1 <= x && py <= y && x - (px + 1) == y - py
    ensures Ops(StepScript(src, dst, x, y, d)) ==
      if down then [LineOp('+', dst[py])] + Ops(KeepRun(src, dst, px, py + 1, x - px))
      else [LineOp('-', src[px])] + Ops(KeepRun(src, dst, px + 1, py, x - (px + 1)))
  {
    StepBack(src, dst, x, y, d);
    if down {
      OpsConcat([Insert(dst[py])], KeepRun(src, dst, px, py + 1, x - px));
      assert Ops([Insert(dst[py])]) == [LineOp('+', dst[py])];
    } else {
      OpsConcat([Delete(src[px])], KeepRun(src, dst, px + 1, py, x - (px + 1)));
      assert Ops([Delete(src[px])]) == [LineOp('-', src[px])];
    }
  }

  /** Reads the point before from the snapshot. */
  method ReadBack(t: Trace, ghost src: seq<Line>, ghost dst: seq<Line>, x: nat, y: nat, d: nat, offset: int)
    returns (down: bool, prevX: int, prevY: int)
    requires OnFrontier(src, dst, x, y, d) && d > 0
    requires WindowHeld(src, dst, t, offset, d - 1)
    ensures down == GoesDown(src, dst, x - y, d) && prevX == PrevX(src, dst, x - y, d)
      && prevY == PrevY(src, dst, x - y, d)
  {
    var k := x - y;
    WindowStep(src, dst, t, offset, k, d);
    down := -k == d || (k != d && t.At(k - 1 + offset) < t.At(k + 1 + offset));
    var prevK;
    if down {
      prevK := k + 1;
    } else {
      prevK := k - 1;
    }
    prevX := t.At(prevK + offset);
    prevY := prevX - prevK;
  }

  lemma EmitOne(ops: seq<LineOp>, op: LineOp, run: seq<LineOp>, rest: seq<LineOp>)
    requires Reversed(ops) == run + rest
    ensures Reversed(ops + [op]) == ([op] + run) + rest
  {
    ReversedSnoc(ops, op);
    assert [op] + (run + rest) == ([op] + run) + rest;
  }

  /** Emits one round, last line first: the kept run, then the edit before it. */
  method EmitStep(src: seq<Line>, dst: seq<Line>, ops0: seq<LineOp>, prevX: nat, prevY: nat, x: nat, y: nat,
                  down: bool, ghost step: seq<LineOp>)
    returns (ops: seq<LineOp>)
    requires x <= |src| && y <= |dst|
    requires if down then prevY < |dst| && prevX <= x && prevY + 1 <= y && x - prevX == y - (prevY + 1)
             else prevX < |src| && prevX + 1 <= x && prevY <= y && x - (prevX + 1) == y - prevY
    requires step == if down then [LineOp('+', dst[prevY])] + Ops(KeepRun(src, dst, prevX, prevY + 1, x - prevX))
                     else [LineOp('-', src[prevX])] + Ops(KeepRun(src, dst, prevX + 1, prevY, x - (prevX + 1)))
    ensures Reversed(ops) == step + Reversed(ops0)
  {
    if down {
      ops := EmitKeeps(src, dst, ops0, prevX, prevY + 1, x, y);
      EmitOne(ops, LineOp('+', dst[prevY]), Ops(KeepRun(src, dst, prevX, prevY + 1, x - prevX)), Reversed(ops0));
      ops := ops + [LineOp('+', dst[prevY])];
    } else {
      ops := EmitKeeps(src, dst, ops0, prevX + 1, prevY, x, y);
      EmitOne(ops, LineOp('-', src[prevX]), Ops(KeepRun(src, dst, prevX + 1, prevY, x - (prevX + 1))),
        Reversed(ops0));
      ops := ops + [LineOp('-', src[prevX])];
    }
  }

  /** The body of the backtrack loop. */
  method BackOneRound(t: Trace, src: seq<Line>, dst: seq<Line>, ops0: seq<LineOp>, x: nat, y: nat, d: nat, offset: int)
    returns (prevX: int, prevY: int, ops: seq<LineOp>)
    requires OnFrontier(src, dst, x, y, d) && d > 0
    requires WindowHeld(src, dst, t, offset, d - 1)
    ensures prevX == PrevX(src, dst, x - y, d) && prevY == PrevY(src, dst, x - y, d)
    ensures Reversed(ops) == Ops(StepScript(src, dst, x, y, d)) + Reversed(ops0)
  {
    StepBack(src, dst, x, y, d);
    var down;
    down, prevX, prevY := ReadBack(t, src, dst, x, y, d, offset);
    OpsOfStep(src, dst, x, y, d, prevX, prevY, down);
    ops := EmitStep(src, dst, ops0, prevX, prevY, x, y, down, Ops(StepScript(src, dst, x, y, d)));
  }

  lemma OpsLink(src: seq<Line>, dst: seq<Line>, x: nat, y: nat, d: nat, done: seq<LineOp>)
    requires OnFrontier(src, dst, x, y, d) && d > 0
    ensures var px, py := PrevX(src, dst, x - y, d), PrevY(src, dst, x - y, d);
            && OnFrontier(src, dst, px, py, d - 1)
            && Ops(Backtrack(src, dst, x, y, d)) + done
            == Ops(Backtrack(src, dst, px, py, d - 1)) + (Ops(StepScript(src, dst, x, y, d)) + done)
  {
    StepBack(src, dst, x, y, d);
    var px, py := PrevX(src, dst, x - y, d), PrevY(src, dst, x - y, d);
    OpsConcat(Backtrack(src, dst, px, py, d - 1), StepScript(src, dst, x, y, d));
  }

  method BuildLineOps(traces: seq<Trace>, src: seq<Line>, dst: seq<Line>, d0: nat, offset: int)
    returns (ops: seq<LineOp>)
    requires OnFrontier(src, dst, |src|, |dst|, d0)
    requires d0 < |traces| && TracesHeld(src, dst, traces, offset)
    ensures ops == Ops(Backtrack(src, dst, |src|, |dst|, d0))
  {
    var x, y, d := |src|, |dst|, d0;
    ops := [];
    ghost var whole := Ops(Backtrack(src, dst, x, y, d));
    while d > 0
      invariant OnFrontier(src, dst, x, y, d) && d < |traces|
      invariant whole == Ops(Backtrack(src, dst, x, y, d)) + Reversed(ops)
    {
      OpsLink(src, dst, x, y, d, Reversed(ops));
      x, y, ops := BackOneRound(traces[d], src, dst, ops, x, y, d, offset);
      d := d - 1;
    }
    FirstRun(src, dst, x, y);
    ops := EmitKeeps(src, dst, ops, 0, 0, x, y);
    ops := ReverseInPlace(ops);
  }

  /** Array entries saved by rounds 0 to d: a window of 2d + 3 each, cut by the array only in round total. */
  function TraceInts(total: nat, d: int): int {
    (d + 1) * (d + 3) - (if d == total then 2 else 0)
  }

  lemma TraceIntsGrow(total: nat, d: nat)
    requires d <= total
    ensures var lo, hi := total - d - 1, total + d + 2;
            var cut := (if hi > 2 * total + 1 then 2 * total + 1 else hi) - (if lo < 0 then 0 else lo);
            TraceInts(total, d) == TraceInts(total, d - 1) + cut
  {
    assert (d + 1) * (d + 3) == d * (d + 2) + 2 * d + 3;
  }

  lemma {:induction false} TraceIntsMonotone(total: nat, d: nat, d': nat)
    requires d <= d' <= total
    ensures TraceInts(total, d) <= TraceInts(total, d')
    decreases d'
  {
    if d < d' {
      TraceIntsMonotone(total, d, d' - 1);
      TraceIntsGrow(total, d');
    }
  }

  /** The caps leave room for a script of d edits; total is the number of lines on both sides. */
  predicate Fits(total: nat, d: nat, maxD: int, maxTraceInts: int) {
    (maxD <= 0 || d <= maxD) && TraceInts(total, d) <= maxTraceInts
  }

  /**
   When it answers, it answers with the script of the unbounded engine; it answers exactly when
   a side is empty or the edit distance and the windows up to it fit the two caps. The operations
   then tell both texts with the fewest changes.
   */
  method MyersLines(src: seq<Line>, dst: seq<Line>, maxD: int, maxTraceInts: int) returns (ops: seq<LineOp>, ok: bool)
    ensures ok ==> ops == Ops(Script(src, dst))
    ensures ok ==> KindsOk(ops) && OldText(ops) == src && NewText(ops) == dst
    ensures ok ==> ChangeCount(ops) == Dist(src, dst, |src|, |dst|)
    ensures !ok ==> ops == []
    ensures ok <==> src == [] || dst == [] ||
                    Fits(|src| + |dst|, Dist(src, dst, |src|, |dst|), maxD, maxTraceInts)
  {
    ScriptIsShortest(src, dst);
    OpsTell(Script(src, dst));
    var n, m := |src|, |dst|;
    if n == 0 && m == 0 {
      return [], true;
    }
    if n == 0 {
      InsertOps(dst);
      return seq(m, i requires 0 <= i < m => LineOp('+', dst[i])), true;
    }
    if m == 0 {
      DeleteOps(src);
      return seq(n, i requires 0 <= i < n => LineOp('-', src[i])), true;
    }
    ops, ok := BoundedSearch(src, dst, maxD, maxTraceInts);
  }

  lemma {:induction false} InsertOps(lines: seq<Line>)
    ensures Ops(Inserts(lines)) == seq(|lines|, i requires 0 <= i < |lines| => LineOp('+', lines[i]))
  {
    if lines != [] {
      assert Inserts(lines)[1..] == Inserts(lines[1..]);
      InsertOps(lines[1..]);
    }
  }

  lemma {:induction false} DeleteOps(lines: seq<Line>)
    ensures Ops(Deletes(lines)) == seq(|lines|, i requires 0 <= i < |lines| => LineOp('-', lines[i]))
  {
    if lines != [] {
      assert Deletes(lines)[1..] == Deletes(lines[1..]);
      DeleteOps(lines[1..]);
    }
  }

  /** The part of the working array round d reads: its diagonals and one on either side. */
  method WindowBounds(total: nat, d: nat) returns (lo: int, hi: int)
    requires d <= total
    ensures 0 <= lo <= hi <= 2 * total + 1
    ensures d > 0 ==> lo <= total - (d - 1) && total + (d - 1) < hi
    ensures TraceInts(total, d) == TraceInts(total, d - 1) + (hi - lo)
  {
    lo, hi := total - d - 1, total + d + 2;
    if lo < 0 {
      lo := 0;
    }
    if hi > 2 * total + 1 {
      hi := 2 * total + 1;
    }
    TraceIntsGrow(total, d);
  }

  /** The snapshot taken before round d, and what it costs. */
  method SaveWindow(ghost src: seq<Line>, ghost dst: seq<Line>, v: array<int>, total: nat, d: nat)
    returns (t: Trace, size: int)
    requires d <= total && v.Length == 2 * total + 1
    requires d > 0 ==> Myers.RoundHeld(src, dst, v[..], total, d - 1, d)
    ensures TraceInts(total, d) == TraceInts(total, d - 1) + size
    ensures d > 0 ==> WindowHeld(src, dst, t, total, d - 1)
  {
    var lo, hi := WindowBounds(total, d);
    t, size := Trace(lo, v[lo..hi]), hi - lo;
    assert v[lo..hi] == v[..][lo..hi];
    if d > 0 {
      WindowSuffices(src, dst, v[..], total, d - 1, lo, hi);
    }
  }

  method BoundedSearch(src: seq<Line>, dst: seq<Line>, maxD: int, maxTraceInts: int)
    returns (ops: seq<LineOp>, ok: bool)
    requires src != [] && dst != []
    ensures ok ==> ops == Ops(Script(src, dst))
    ensures !ok ==> ops == []
    ensures ok <==> Fits(|src| + |dst|, Dist(src, dst, |src|, |dst|), maxD, maxTraceInts)
  {
    var total := |src| + |dst|;
    var offset := total;
    var v := new int[2 * total + 1](_ => 0);
    var traces: seq<Trace> := [];
    var used := 0;
    ghost var goal := Dist(src, dst, |src|, |dst|);
    CornerIsFar(src, dst);
    var d := 0;
    while d <= total
      invariant 0 <= d <= goal && |traces| == d
      invariant used == TraceInts(total, d - 1)
      invariant d == 0 ==> v[1 + offset] == 0
      invariant d > 0 ==> Myers.RoundHeld(src, dst, v[..], offset, d - 1, d)
      invariant TracesHeld(src, dst, traces, offset)
      invariant d > 0 ==> Fits(total, d - 1, maxD, maxTraceInts)
    {
      TraceIntsMonotone(total, d, goal);
      if maxD > 0 && d > maxD {
        return [], false;
      }
      var snap, size := SaveWindow(src, dst, v, total, d);
      used := used + size;
      if used > maxTraceInts {
        return [], false;
      }
      traces := traces + [snap];
      var found := Myers.SearchRound(src, dst, v, d, offset);
      if found {
        ops := BuildLineOps(traces, src, dst, d, offset);
        return ops, true;
      }
      d := d + 1;
    }
    assert false;
  }
}
