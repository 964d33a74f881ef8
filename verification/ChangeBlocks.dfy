/** The conflict engine's line diff: a longest-common-subsequence table and its backtrack. */
module ChangeBlocks {
  import opened Edits
  import opened EditGraph
  import opened Blocks

  /** Length of a longest common subsequence of a[i..] and b[j..], as the table computes it. */
  ghost function Lcs(a: seq<Line>, b: seq<Line>, i: nat, j: nat): nat
    decreases |a| - i + |b| - j
  {
    if i >= |a| || j >= |b| then 0
    else if a[i] == b[j] then Lcs(a, b, i + 1, j + 1) + 1
    else if Lcs(a, b, i + 1, j) >= Lcs(a, b, i, j + 1) then Lcs(a, b, i + 1, j)
    else Lcs(a, b, i, j + 1)
  }

  /** Dropping a line loses at most one common line. */
  lemma {:induction false} LcsNeighbours(a: seq<Line>, b: seq<Line>, i: nat, j: nat)
    ensures Lcs(a, b, i + 1, j) <= Lcs(a, b, i, j) <= Lcs(a, b, i + 1, j) + 1
    ensures Lcs(a, b, i, j + 1) <= Lcs(a, b, i, j) <= Lcs(a, b, i, j + 1) + 1
    decreases |a| - i + |b| - j
  {
    if i < |a| && j < |b| {
      LcsNeighbours(a, b, i + 1, j);
      LcsNeighbours(a, b, i, j + 1);
    }
  }

  lemma LcsMatch(a: seq<Line>, b: seq<Line>, i: nat, j: nat)
    requires i < |a| && j < |b| && a[i] == b[j]
    ensures Lcs(a, b, i, j) == Lcs(a, b, i + 1, j + 1) + 1
  {
  }

  /** No script keeps more lines than the table says. */
  lemma {:induction false} KeepsAtMostLcs(a: seq<Line>, b: seq<Line>, es: seq<Edit>, i: nat, j: nat)
    requires i <= |a| && j <= |b| && Transforms(es, a[i..], b[j..])
    ensures KeepCount(es) <= Lcs(a, b, i, j)
    decreases |es|
  {
    if es == [] {
    } else {
      HeadEdit(a, b, es, i, j);
      LcsNeighbours(a, b, i, j);
      match es[0] {
        case Keep(_, _) =>
          LcsMatch(a, b, i, j);
          KeepsAtMostLcs(a, b, es[1..], i + 1, j + 1);
        case Insert(_) =>
          KeepsAtMostLcs(a, b, es[1..], i, j + 1);
        case Delete(_) =>
          KeepsAtMostLcs(a, b, es[1..], i + 1, j);
      }
    }
  }

  /** The script the backtrack follows from (i, j). */
  ghost function LcsScript(a: seq<Line>, b: seq<Line>, i: nat, j: nat): seq<Edit>
    requires i <= |a| && j <= |b|
    decreases |a| - i + |b| - j
  {
    if i == |a| then Inserts(b[j..])
    else if j == |b| then Deletes(a[i..])
    else if a[i] == b[j] then [Keep(a[i], b[j])] + LcsScript(a, b, i + 1, j + 1)
    else if Lcs(a, b, i + 1, j) >= Lcs(a, b, i, j + 1) then [Delete(a[i])] + LcsScript(a, b, i + 1, j)
    else [Insert(b[j])] + LcsScript(a, b, i, j + 1)
  }

  lemma HeadSpells(e: Edit, es: seq<Edit>, s: seq<Line>, t: seq<Line>)
    requires Transforms(es, s, t) && (e.Keep? ==> e.src == e.dst)
    ensures Transforms([e] + es, (if e.Insert? then [] else [e.src]) + s, (if e.Delete? then [] else [e.dst]) + t)
    ensures KeepCount([e] + es) == KeepCount(es) + (if e.Keep? then 1 else 0)
  {
    assert ([e] + es)[1..] == es;
  }

  lemma DropOne(s: seq<Line>, i: nat)
    requires i < |s|
    ensures s[i..] == [s[i]] + s[i + 1..]
  {
  }

  /** One step of the backtrack. */
  lemma LcsStep(a: seq<Line>, b: seq<Line>, i: nat, j: nat) returns (e: Edit, i': nat, j': nat)
    requires i < |a| && j < |b|
    ensures i <= i' <= |a| && j <= j' <= |b| && i' - i + j' - j > 0
    ensures LcsScript(a, b, i, j) == [e] + LcsScript(a, b, i', j')
    ensures Lcs(a, b, i, j) == Lcs(a, b, i', j') + (if e.Keep? then 1 else 0)
    ensures if a[i] == b[j] then e == Keep(a[i], b[j]) && i' == i + 1 && j' == j + 1
            else if Lcs(a, b, i + 1, j) >= Lcs(a, b, i, j + 1) then e == Delete(a[i]) && i' == i + 1 && j' == j
            else e == Insert(b[j]) && i' == i && j' == j + 1
  {
    if a[i] == b[j] {
      e, i', j' := Keep(a[i], b[j]), i + 1, j + 1;
    } else if Lcs(a, b, i + 1, j) >= Lcs(a, b, i, j + 1) {
      e, i', j' := Delete(a[i]), i + 1, j;
    } else {
      e, i', j' := Insert(b[j]), i, j + 1;
    }
  }

  lemma {:induction false} LcsScriptSpells(a: seq<Line>, b: seq<Line>, i: nat, j: nat)
    requires i <= |a| && j <= |b|
    ensures Transforms(LcsScript(a, b, i, j), a[i..], b[j..])
    ensures KeepCount(LcsScript(a, b, i, j)) == Lcs(a, b, i, j)
    decreases |a| - i + |b| - j
  {
    if i == |a| {
      InsertsSpell(b[j..]);
    } else if j == |b| {
      DeletesSpell(a[i..]);
    } else {
      var e, i', j' := LcsStep(a, b, i, j);
      LcsScriptSpells(a, b, i', j');
      HeadSpells(e, LcsScript(a, b, i', j'), a[i'..], b[j'..]);
      DropOne(a, i);
      DropOne(b, j);
    }
  }

  /** The change blocks of one side. */
  ghost function BlocksOf(a: seq<Line>, b: seq<Line>): seq<Block> {
    Extract(LcsScript(a, b, 0, 0))
  }

  /** The table's script keeps as many lines as any script can, so it is a shortest one too. */
  lemma LcsScriptIsShortest(a: seq<Line>, b: seq<Line>)
    ensures Shortest(LcsScript(a, b, 0, 0), a, b)
    ensures forall es :: Transforms(es, a, b) ==> KeepCount(es) <= Lcs(a, b, 0, 0)
    ensures KeepCount(LcsScript(a, b, 0, 0)) == Lcs(a, b, 0, 0)
  {
    assert a[0..] == a && b[0..] == b;
    LcsScriptSpells(a, b, 0, 0);
    var best := LcsScript(a, b, 0, 0);
    CostFromKeeps(best);
    forall es | Transforms(es, a, b) ensures KeepCount(es) <= Lcs(a, b, 0, 0) && Cost(best) <= Cost(es) {
      KeepsAtMostLcs(a, b, es, 0, 0);
      CostFromKeeps(es);
    }
  }

  /**
   The blocks are in order, at least one kept line apart, spell b when applied to a, and touch as
   few lines as any shortest script; so they agree in size with the blocks of the merge engine's
   Myers script.
   */
  lemma BlocksApply(a: seq<Line>, b: seq<Line>)
    ensures Good(BlocksOf(a, b), |a|) && View(a, BlocksOf(a, b), 0, |a|) == b
    ensures forall es :: Shortest(es, a, b) ==> BlockCost(BlocksOf(a, b)) == BlockCost(Extract(es)) == Cost(es)
    ensures BlockCost(BlocksOf(a, b)) + 2 * Lcs(a, b, 0, 0) == |a| + |b|
  {
    LcsScriptIsShortest(a, b);
    var best := LcsScript(a, b, 0, 0);
    ExtractApplies(best, a, b);
    CostFromKeeps(best);
    forall es | Shortest(es, a, b) ensures BlockCost(BlocksOf(a, b)) == BlockCost(Extract(es)) == Cost(es) {
      ExtractApplies(es, a, b);
    }
  }

  /** No block exactly when nothing changed. */
  lemma NoBlocksIffEqual(a: seq<Line>, b: seq<Line>)
    ensures BlocksOf(a, b) == [] <==> a == b
  {
    BlocksApply(a, b);
    if a == b {
      EqualKeepsAll(a, 0);
      KeepsHaveNoBlocks(LcsScript(a, a, 0, 0));
    }
  }

  ghost predicate AllKeeps(es: seq<Edit>) {
    forall i | 0 <= i < |es| :: es[i].Keep?
  }

  lemma {:induction false} EqualKeepsAll(a: seq<Line>, i: nat)
    requires i <= |a|
    ensures AllKeeps(LcsScript(a, a, i, i))
    decreases |a| - i
  {
    if i < |a| {
      EqualKeepsAll(a, i + 1);
    }
  }

  lemma {:induction false} KeepsHaveNoBlocks(es: seq<Edit>)
    requires AllKeeps(es)
    ensures Extract(es) == []
    decreases |es|
  {
    if es != [] {
      KeepsHaveNoBlocks(Front(es));
    }
  }

  // ----- the table and its backtrack -----

  /** The table holds the lengths for a[i..] and b[j..] in every row from the given one on. */
  ghost predicate Filled(a: seq<Line>, b: seq<Line>, lcs: array2<nat>, from: int)
    reads lcs
  {
    && lcs.Length0 == |a| + 1 && lcs.Length1 == |b| + 1
    && forall i, j | from <= i <= |a| && 0 <= i && 0 <= j <= |b| :: lcs[i, j] == Lcs(a, b, i, j)
  }

  /** Fills row i from its right end, given the row below. */
  method FillRow(base: seq<Line>, other: seq<Line>, lcs: array2<nat>, i: nat)
    requires i < |base| && Filled(base, other, lcs, i + 1) && lcs[i, |other|] == 0
    modifies lcs
    ensures Filled(base, other, lcs, i)
    ensures forall r, c | 0 <= r < i && 0 <= c <= |other| :: lcs[r, c] == old(lcs[r, c])
  {
    var j := |other| - 1;
    while j >= 0
      invariant -1 <= j < |other|
      invariant forall c | j < c <= |other| :: lcs[i, c] == Lcs(base, other, i, c)
      invariant forall r, c | 0 <= r <= |base| && r != i && 0 <= c <= |other| :: lcs[r, c] == old(lcs[r, c])
    {
      if base[i] == other[j] {
        lcs[i, j] := lcs[i + 1, j + 1] + 1;
      } else if lcs[i + 1, j] >= lcs[i, j + 1] {
        lcs[i, j] := lcs[i + 1, j];
      } else {
        lcs[i, j] := lcs[i, j + 1];
      }
      j := j - 1;
    }
  }

  method FillTable(base: seq<Line>, other: seq<Line>) returns (lcs: array2<nat>)
    ensures Filled(base, other, lcs, 0)
  {
    var n, m := |base|, |other|;
    lcs := new nat[n + 1, m + 1]((_, _) => 0);
    var i := n - 1;
    while i >= 0
      invariant -1 <= i < n
      invariant forall r, c | 0 <= r <= i && 0 <= c <= m :: lcs[r, c] == 0
      invariant Filled(base, other, lcs, i + 1)
    {
      FillRow(base, other, lcs, i);
      i := i - 1;
    }
  }

  ghost predicate Rest(whole: seq<Edit>, p: nat, rest: seq<Edit>) {
    p <= |whole| && whole[p..] == rest
  }

  /**
   The backtrack has followed the script whole up to edit p and stands at (i, j). Quantifying
   over the rest keeps the solver from unfolding LcsScript except where a proof names Rest.
   */
  ghost predicate At(a: seq<Line>, b: seq<Line>, whole: seq<Edit>, p: nat, i: nat, j: nat) {
    && i <= |a| && j <= |b| && p <= |whole| && Pos(whole[..p]) == i
    && forall rest | rest == LcsScript(a, b, i, j) :: Rest(whole, p, rest)
  }

  lemma AtStep(a: seq<Line>, b: seq<Line>, whole: seq<Edit>, p: nat, i: nat, j: nat) returns (i': nat, j': nat)
    requires At(a, b, whole, p, i, j) && i < |a| && j < |b|
    ensures p < |whole| && At(a, b, whole, p + 1, i', j')
    ensures var e := whole[p];
            if a[i] == b[j] then e == Keep(a[i], b[j]) && i' == i + 1 && j' == j + 1
            else if Lcs(a, b, i + 1, j) >= Lcs(a, b, i, j + 1) then e == Delete(a[i]) && i' == i + 1 && j' == j
            else e == Insert(b[j]) && i' == i && j' == j + 1
  {
    var e;
    e, i', j' := LcsStep(a, b, i, j);
    assert Rest(whole, p, LcsScript(a, b, i, j));
    assert whole[p] == whole[p..][0] && whole[p + 1..] == whole[p..][1..];
    PrefixStep(whole, p);
  }

  /** Edits from to p of the script are one run that ends at base line i and inserts repl. */
  ghost predicate RunSoFar(whole: seq<Edit>, from: nat, p: nat, del: nat, repl: seq<Line>) {
    && from <= p <= |whole|
    && (forall r | from <= r < p :: !whole[r].Keep?)
    && Pos(whole[from..p]) == del && DstLines(whole[from..p]) == repl
  }

  lemma RunGrows(whole: seq<Edit>, from: nat, p: nat, del: nat, repl: seq<Line>)
    requires RunSoFar(whole, from, p, del, repl) && p < |whole| && !whole[p].Keep?
    ensures RunSoFar(whole, from, p + 1, del + Deleted(whole[p]), repl + Inserted(whole[p]))
  {
    SliceStep(whole, from, p);
  }

  /** Collects one run of differing lines; p counts the edits of the script passed. */
  method CollectChange(base: seq<Line>, other: seq<Line>, lcs: array2<nat>, i0: nat, j0: nat,
                       ghost whole: seq<Edit>, ghost p0: nat)
    returns (i: nat, j: nat, repl: seq<Line>, ghost p: nat)
    requires Filled(base, other, lcs, 0)
    requires At(base, other, whole, p0, i0, j0) && i0 < |base| && j0 < |other| && base[i0] != other[j0]
    ensures At(base, other, whole, p, i, j) && i0 <= i && j0 <= j && p0 < p && i + j > i0 + j0
    ensures i < |base| && j < |other| ==> base[i] == other[j]
    ensures RunSoFar(whole, p0, p, i - i0, repl)
  {
    i, j, repl, p := i0, j0, [], p0;
    assert whole[p0..p0] == [];
    while i < |base| && j < |other| && base[i] != other[j]
      invariant At(base, other, whole, p, i, j) && i0 <= i && j0 <= j
      invariant p0 <= p && (p == p0 ==> i == i0 && j == j0) && (p > p0 ==> i + j > i0 + j0)
      invariant RunSoFar(whole, p0, p, i - i0, repl)
      decreases |base| - i + |other| - j
    {
      ghost var i', j' := AtStep(base, other, whole, p, i, j);
      RunGrows(whole, p0, p, i - i0, repl);
      if lcs[i + 1, j] >= lcs[i, j + 1] {
        i := i + 1;
      } else {
        repl := repl + [other[j]];
        j := j + 1;
      }
      p := p + 1;
    }
  }

  /** A pure insertion or deletion of what is left. */
  lemma TailSpells(a: seq<Line>, b: seq<Line>, i: nat, j: nat)
    requires i <= |a| && j <= |b| && (i == |a| || j == |b|)
    ensures var tail := LcsScript(a, b, i, j);
            && |tail| == |a| - i + |b| - j && (forall r | 0 <= r < |tail| :: !tail[r].Keep?)
            && Pos(tail) == |a| - i && DstLines(tail) == b[j..]
  {
    if i == |a| {
      InsertsSpell(b[j..]);
    } else {
      DeletesSpell(a[i..]);
    }
  }

  /** The lines left on one side after the other side is used up form one last change. */
  lemma TailIsOneChange(a: seq<Line>, b: seq<Line>, whole: seq<Edit>, p: nat, i: nat, j: nat)
    requires At(a, b, whole, p, i, j) && (i == |a| || j == |b|)
    ensures Extract(whole) ==
            if i == |a| && j == |b| then Extract(whole[..p])
            else AddChange(Extract(whole[..p]), i, |a| - i, b[j..])
  {
    var tail := whole[p..];
    TailSpells(a, b, i, j);
    assert Rest(whole, p, LcsScript(a, b, i, j));
    if i < |a| || j < |b| {
      assert whole[..|whole|] == whole && whole[p..|whole|] == tail;
      assert forall r | p <= r < |whole| :: whole[r] == tail[r - p];
      RunIsOneChange(whole, p, |whole|);
    } else {
      assert whole[..p] == whole;
    }
  }

  /** A collected run becomes one block of its own where no change may continue. */
  lemma RunIsOneBlock(whole: seq<Edit>, from: nat, p: nat, start: nat, i: nat, repl: seq<Line>, blocks: seq<Block>)
    requires from < p <= |whole| && start <= i && RunSoFar(whole, from, p, i - start, repl)
    requires blocks == Extract(whole[..from]) && start == Pos(whole[..from]) && !Touches(blocks, start)
    ensures Extract(whole[..p]) == blocks + [Block(start, i, repl)]
  {
    RunIsOneChange(whole, from, p);
  }

  /** Reads the blocks of the script whole off a filled table. */
  method ReadBlocks(base: seq<Line>, other: seq<Line>, lcs: array2<nat>, ghost whole: seq<Edit>)
    returns (blocks: seq<Block>)
    requires Filled(base, other, lcs, 0) && At(base, other, whole, 0, 0, 0)
    ensures blocks == Extract(whole)
  {
    ghost var p := 0;
    blocks := [];
    var i: nat, j: nat := 0, 0;
    while i < |base| && j < |other|
      invariant At(base, other, whole, p, i, j) && blocks == Extract(whole[..p])
      invariant i < |base| && j < |other| && base[i] != other[j] ==> !Touches(blocks, i)
      decreases |base| - i + |other| - j
    {
      if base[i] == other[j] {
        ghost var i', j' := AtStep(base, other, whole, p, i, j);
        KeepStep(whole, p);
        i := i + 1;
        j := j + 1;
        p := p + 1;
      } else {
        var start := i;
        var repl;
        ghost var from := p;
        i, j, repl, p := CollectChange(base, other, lcs, i, j, whole, p);
        RunIsOneBlock(whole, from, p, start, i, repl, blocks);
        blocks := blocks + [Block(start, i, repl)];
      }
    }
    TailIsOneChange(base, other, whole, p, i, j);
    if i < |base| || j < |other| {
      blocks := AppendTail(blocks, Block(i, |base|, other[j..]));
    }
  }

  /** A replacement that reaches the end of the file is one change with the block it abuts. */
  method AppendTail(blocks0: seq<Block>, tail: Block) returns (blocks: seq<Block>)
    requires tail.start <= tail.end
    ensures blocks == AddChange(blocks0, tail.start, tail.end - tail.start, tail.repl)
  {
    var k := |blocks0|;
    if k > 0 && blocks0[k - 1].end == tail.start {
      var last := blocks0[k - 1];
      blocks := blocks0[..k - 1] + [Block(last.start, tail.end, last.repl + tail.repl)];
    } else {
      blocks := blocks0 + [tail];
    }
  }

  method ChangeBlocks(base: seq<Line>, other: seq<Line>) returns (blocks: seq<Block>)
    ensures blocks == BlocksOf(base, other)
  {
    if |base| == 0 {
      TailIsOneChange(base, other, LcsScript(base, other, 0, 0), 0, 0, 0);
      return if |other| == 0 then [] else [Block(0, 0, other)];
    }
    var lcs := FillTable(base, other);
    blocks := ReadBlocks(base, other, lcs, LcsScript(base, other, 0, 0));
  }
}
