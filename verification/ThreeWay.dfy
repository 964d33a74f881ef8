/** Render: the base-aware three-way merge, and the laws it obeys. */
module ThreeWay {
  import opened Edits
  import opened Numbers
  import opened Text
  import opened Blocks
  import opened ChangeBlocks
  import opened Regions
  import opened Render

  /** What becomes of a piece: one side's version, or a conflict when both changed it differently. */
  ghost function ChunkOf(base: seq<Line>, p: Piece): Chunk
    requires p.lo <= p.hi <= |base| && (p.Region? ==> Ordered(p.ours, p.lo, p.hi) && Ordered(p.theirs, p.lo, p.hi))
  {
    var o, t := OurView(base, p), TheirView(base, p);
    if p.Context? || p.theirs == [] then Plain(o)
    else if p.ours == [] then Plain(t)
    else if o == t then Plain(o)
    else Conflict(o, base[p.lo..p.hi], t)
  }

  /** Both sides changed the piece. */
  predicate Contested(p: Piece) {
    p.Region? && p.ours != [] && p.theirs != []
  }

  ghost function ChunksOf(base: seq<Line>, pieces: seq<Piece>, lo: nat): seq<Chunk>
    requires Tiles(pieces, lo, |base|)
    decreases |pieces|
  {
    if pieces == [] then []
    else
      TilesBounded(pieces, lo, |base|);
      [ChunkOf(base, pieces[0])] + ChunksOf(base, pieces[1..], pieces[0].hi)
  }

  /** Adds what one piece contributes to the counts. */
  ghost function Tally(s: Stats, base: seq<Line>, p: Piece): Stats
    requires p.lo <= p.hi <= |base| && (p.Region? ==> Ordered(p.ours, p.lo, p.hi) && Ordered(p.theirs, p.lo, p.hi))
  {
    if !Contested(p) then s
    else if ChunkOf(base, p).Plain? then Stats(s.total + 1, s.resolved + 1, s.remaining)
    else Stats(s.total + 1, s.resolved, s.remaining + 1)
  }

  ghost function TallyAll(s: Stats, base: seq<Line>, pieces: seq<Piece>, lo: nat): Stats
    requires Tiles(pieces, lo, |base|)
    decreases |pieces|
  {
    if pieces == [] then s
    else
      TilesBounded(pieces, lo, |base|);
      TallyAll(Tally(s, base, pieces[0]), base, pieces[1..], pieces[0].hi)
  }

  /** The pieces of a merge over a base with at least one line. */
  ghost function PiecesOf(base: seq<Line>, ours: seq<Line>, theirs: seq<Line>): (ps: seq<Piece>)
    ensures Tiles(ps, 0, |base|)
  {
    BlocksReady(base, ours, theirs);
    WalkTiles(BlocksOf(base, ours), BlocksOf(base, theirs), |base|, 0, 0, 0);
    Walk(BlocksOf(base, ours), BlocksOf(base, theirs), |base|, 0, 0, 0)
  }

  lemma BlocksReady(base: seq<Line>, ours: seq<Line>, theirs: seq<Line>)
    ensures Ready(BlocksOf(base, ours), BlocksOf(base, theirs), |base|, 0, 0, 0)
  {
    BlocksApply(base, ours);
    BlocksApply(base, theirs);
    GoodIsSorted(BlocksOf(base, ours), |base|);
    GoodIsSorted(BlocksOf(base, theirs), |base|);
  }

  /** The result of a merge, as chunks; with no base, everything is one conflict unless the sides agree. */
  ghost function MergeChunks(base: seq<Line>, ours: seq<Line>, theirs: seq<Line>): seq<Chunk> {
    if base == [] then (if ours == theirs then [Plain(ours)] else [Conflict(ours, [], theirs)])
    else ChunksOf(base, PiecesOf(base, ours, theirs), 0)
  }

  ghost function MergeStats(base: seq<Line>, ours: seq<Line>, theirs: seq<Line>): Stats {
    if base == [] then (if ours == theirs then Stats(0, 0, 0) else Stats(1, 0, 1))
    else TallyAll(Stats(0, 0, 0), base, PiecesOf(base, ours, theirs), 0)
  }

  // ----- the implementation -----

  /** out is the view of the first k blocks, up to base line pos. */
  ghost predicate Flattened(base: seq<Line>, region: seq<Block>, rs: nat, k: nat, pos: nat, out: seq<Line>) {
    && rs <= pos <= |base| && k <= |region| && (k == 0 ==> pos == rs) && (k > 0 ==> pos == region[k - 1].end)
    && Ordered(region[..k], rs, pos) && out == View(base, region[..k], rs, pos)
  }

  lemma FlattenStep(base: seq<Line>, region: seq<Block>, rs: nat, k: nat, pos: nat, out: seq<Line>)
    requires Sorted(region, |base|) && k < |region| && rs <= region[0].start
    requires Flattened(base, region, rs, k, pos, out)
    ensures pos <= region[k].start <= region[k].end <= |base|
    ensures Flattened(base, region, rs, k + 1, region[k].end, out + base[pos..region[k].start] + region[k].repl)
  {
    var b := region[k];
    assert k > 0 ==> region[k - 1].end < region[k].start;
    ViewExtend(base, region[..k], rs, pos, b.start);
    assert region[..k + 1] == region[..k] + [b];
    ViewSnoc(base, region[..k], b, rs, b.end);
  }

  lemma FlattenEnd(base: seq<Line>, region: seq<Block>, rs: nat, re: nat, pos: nat, out: seq<Line>)
    requires Flattened(base, region, rs, |region|, pos, out) && pos <= re <= |base|
    ensures Ordered(region, rs, re) && out + base[pos..re] == View(base, region, rs, re)
  {
    assert region[..|region|] == region;
    ViewExtend(base, region, rs, pos, re);
  }

  /** One side's version of a region: its replacements and the base lines between them. */
  method FlattenRegion(base: seq<Line>, region: seq<Block>, rs: nat, re: nat) returns (out: seq<Line>)
    requires Sorted(region, |base|) && rs <= re <= |base|
    requires region != [] ==> rs <= region[0].start && region[|region| - 1].end <= re
    ensures Ordered(region, rs, re) && out == View(base, region, rs, re)
  {
    var pos: nat := rs;
    out := [];
    assert base[rs..rs] == [];
    var k := 0;
    while k < |region|
      invariant 0 <= k <= |region| && Flattened(base, region, rs, k, pos, out)
    {
      var b := region[k];
      FlattenStep(base, region, rs, k, pos, out);
      if b.start > pos {
        out := out + base[pos..b.start];
      }
      out := out + b.repl;
      pos := b.end;
      k := k + 1;
    }
    FlattenEnd(base, region, rs, re, pos, out);
    if re > pos {
      out := out + base[pos..re];
    }
  }

  method Emit(out0: string, lines: seq<Line>) returns (out: string)
    ensures out == out0 + Join(lines)
  {
    out := out0;
    var i := 0;
    while i < |lines|
      invariant 0 <= i <= |lines| && out + Join(lines[i..]) == out0 + Join(lines)
    {
      assert lines[i..][1..] == lines[i + 1..];
      out := out + lines[i];
      i := i + 1;
    }
  }

  /** Takes the blocks of one side that join the region; which of the two sides is up to the caller. */
  method TakeJoining(blocks: seq<Block>, i0: nat, rs: nat, re0: nat) returns (i: nat, re: nat)
    requires i0 <= |blocks|
    ensures i0 <= i <= |blocks| && re0 <= re && (i == i0 ==> re == re0)
    ensures i < |blocks| ==> !Joins(blocks[i], rs, re)
    ensures forall ob, oi :: Grow(ob, blocks, rs, Growth(oi, i, re)) == Grow(ob, blocks, rs, Growth(oi, i0, re0))
    ensures forall tb, ti :: Grow(blocks, tb, rs, Growth(i, ti, re)) == Grow(blocks, tb, rs, Growth(i0, ti, re0))
  {
    i, re := i0, re0;
    while i < |blocks| && (blocks[i].start < re || blocks[i].start == rs)
      invariant i0 <= i <= |blocks| && re0 <= re && (i == i0 ==> re == re0)
      invariant forall ob, oi :: Grow(ob, blocks, rs, Growth(oi, i, re)) == Grow(ob, blocks, rs, Growth(oi, i0, re0))
      invariant forall tb, ti :: Grow(blocks, tb, rs, Growth(i, ti, re)) == Grow(blocks, tb, rs, Growth(i0, ti, re0))
    {
      forall ob, oi
        ensures Grow(ob, blocks, rs, Growth(oi, i, re)) == Grow(ob, blocks, rs,
            Growth(oi, i + 1, Max(re, blocks[i].end)))
      {
        TheirsFirst(ob, blocks, rs, Growth(oi, i, re));
      }
      if blocks[i].end > re {
        re := blocks[i].end;
      }
      i := i + 1;
    }
  }

  /** Grows one region from next: our blocks, then theirs, over and over until neither side adds one. */
  method GrowRegion(ob: seq<Block>, tb: seq<Block>, oi0: nat, ti0: nat, next: nat) returns (oi: nat, ti: nat, re: nat)
    requires oi0 <= |ob| && ti0 <= |tb|
    ensures Growth(oi, ti, re) == Grow(ob, tb, next, Growth(oi0, ti0, next))
  {
    oi, ti, re := oi0, ti0, next;
    var grew := true;
    while grew
      invariant oi <= |ob| && ti <= |tb|
      invariant Grow(ob, tb, next, Growth(oi, ti, re)) == Grow(ob, tb, next, Growth(oi0, ti0, next))
      invariant !grew ==> (oi < |ob| ==> !Joins(ob[oi], next, re)) && (ti < |tb| ==> !Joins(tb[ti], next, re))
      decreases |ob| - oi + |tb| - ti, grew
    {
      var oi', re' := TakeJoining(ob, oi, next, re);
      var ti', re'' := TakeJoining(tb, ti, next, re');
      grew := oi' > oi || ti' > ti;
      oi, ti, re := oi', ti', re'';
    }
  }

  /** Writing the pieces after out, and counting them on top of stats, gives the final result. */
  ghost predicate Leads(out: string, stats: Stats, base: seq<Line>, ps: seq<Piece>, pos: nat, m: Marking,
                        finalOut: string, finalStats: Stats) {
    && Tiles(ps, pos, |base|)
    && WriteChunks(out, ChunksOf(base, ps, pos), m) == finalOut
    && TallyAll(stats, base, ps, pos) == finalStats
  }

  /** The same for what the walk has left; quantified so that the solver does not walk on its own. */
  ghost predicate LeadsFrom(out: string, stats: Stats, base: seq<Line>, ob: seq<Block>, tb: seq<Block>,
                            oi: nat, ti: nat, pos: nat, m: Marking, finalOut: string, finalStats: Stats) {
    && Ready(ob, tb, |base|, oi, ti, pos)
    && forall ps | ps == Walk(ob, tb, |base|, oi, ti, pos) :: Leads(out, stats, base, ps, pos, m, finalOut, finalStats)
  }

  lemma LeadsOne(out: string, stats: Stats, base: seq<Line>, p: Piece, rest: seq<Piece>, m: Marking,
                 finalOut: string, finalStats: Stats)
    requires Leads(out, stats, base, [p] + rest, p.lo, m, finalOut, finalStats) && p.hi <= |base|
    ensures p.lo <= p.hi && (p.Region? ==> Ordered(p.ours, p.lo, p.hi) && Ordered(p.theirs, p.lo, p.hi))
    ensures Leads(WriteChunk(out, ChunkOf(base, p), m), Tally(stats, base, p), base, rest, p.hi, m, finalOut,
        finalStats)
  {
    var ps := [p] + rest;
    assert ps[1..] == rest;
    var cs := ChunksOf(base, ps, p.lo);
    assert cs[1..] == ChunksOf(base, rest, p.hi);
  }

  lemma LeadsTwo(out: string, stats: Stats, base: seq<Line>, pos: nat, region: Piece, rest: seq<Piece>, m: Marking,
                 finalOut: string, finalStats: Stats)
    requires pos <= region.lo <= region.hi <= |base| && region.Region?
    requires Leads(out, stats, base, [Context(pos, region.lo), region] + rest, pos, m, finalOut, finalStats)
    ensures Ordered(region.ours, region.lo, region.hi) && Ordered(region.theirs, region.lo, region.hi)
    ensures Leads(WriteChunk(out + Join(base[pos..region.lo]), ChunkOf(base, region), m), Tally(stats, base, region),
                  base, rest, region.hi, m, finalOut, finalStats)
  {
    var context := Context(pos, region.lo);
    assert [context, region] + rest == [context] + ([region] + rest);
    LeadsOne(out, stats, base, context, [region] + rest, m, finalOut, finalStats);
    LeadsOne(out + Join(base[pos..region.lo]), stats, base, region, rest, m, finalOut, finalStats);
  }

  /** One round of the merge: a context slice and a region. */
  lemma LeadsRound(out: string, stats: Stats, base: seq<Line>, ob: seq<Block>, tb: seq<Block>,
                   oi: nat, ti: nat, pos: nat, m: Marking, finalOut: string, finalStats: Stats)
    requires LeadsFrom(out, stats, base, ob, tb, oi, ti, pos, m, finalOut, finalStats)
    requires oi < |ob| || ti < |tb|
    ensures var n := |base|;
            var next, r := Min(NextStart(ob, oi, n), NextStart(tb, ti, n)), RegionAt(ob, tb, n, oi, ti);
            && pos <= next <= r.re <= n && oi <= r.oi <= |ob| && ti <= r.ti <= |tb| && r.oi + r.ti > oi + ti
            && (var region := Region(next, r.re, ob[oi..r.oi], tb[ti..r.ti]);
                && Ordered(region.ours, next, r.re) && Ordered(region.theirs, next, r.re)
                && LeadsFrom(WriteChunk(out + Join(base[pos..next]), ChunkOf(base, region), m),
                             Tally(stats, base, region),
                             base, ob, tb, r.oi, r.ti, r.re, m, finalOut, finalStats))
  {
    var n := |base|;
    var next, r := Min(NextStart(ob, oi, n), NextStart(tb, ti, n)), RegionAt(ob, tb, n, oi, ti);
    RegionReady(ob, tb, n, oi, ti, pos);
    var region, rest := Region(next, r.re, ob[oi..r.oi], tb[ti..r.ti]), Walk(ob, tb, n, r.oi, r.ti, r.re);
    WalkRound(ob, tb, n, oi, ti, pos, next, r);
    assert Leads(out, stats, base, [Context(pos, next), region] + rest, pos, m, finalOut, finalStats);
    LeadsTwo(out, stats, base, pos, region, rest, m, finalOut, finalStats);
  }

  lemma LeadsEnd(out: string, stats: Stats, base: seq<Line>, ob: seq<Block>, tb: seq<Block>,
                 pos: nat, m: Marking, finalOut: string, finalStats: Stats)
    requires LeadsFrom(out, stats, base, ob, tb, |ob|, |tb|, pos, m, finalOut, finalStats)
    ensures out + Join(base[pos..]) == finalOut && stats == finalStats
  {
    assert Leads(out, stats, base, [Context(pos, |base|)], pos, m, finalOut, finalStats);
    assert [Context(pos, |base|)] == [Context(pos, |base|)] + [];
    LeadsOne(out, stats, base, Context(pos, |base|), [], m, finalOut, finalStats);
    assert base[pos..] == base[pos..|base|];
  }

  /** Writes one region: the side that changed, the common change, or a conflict. */
  method EmitRegion(out0: string, stats0: Stats, base: seq<Line>, ours: seq<Block>, theirs: seq<Block>,
                    rs: nat, re: nat, m: Marking)
    returns (out: string, stats: Stats)
    requires rs <= re <= |base| && Inside(ours, |base|, rs, re) && Inside(theirs, |base|, rs, re)
    ensures Ordered(ours, rs, re) && Ordered(theirs, rs, re)
    ensures out == WriteChunk(out0, ChunkOf(base, Region(rs, re, ours, theirs)), m)
    ensures ours != [] || theirs != [] ==> stats == Tally(stats0, base, Region(rs, re, ours, theirs))
  {
    var ourOut := FlattenRegion(base, ours, rs, re);
    var theirOut := FlattenRegion(base, theirs, rs, re);
    var ourChanged, theirChanged := |ours| > 0, |theirs| > 0;
    var same := EqualLines(ourOut, theirOut);
    stats := stats0;
    if ourChanged && !theirChanged {
      out := Emit(out0, ourOut);
    } else if theirChanged && !ourChanged {
      out := Emit(out0, theirOut);
    } else if same {
      stats := Stats(stats.total + 1, stats.resolved + 1, stats.remaining);
      out := Emit(out0, ourOut);
    } else {
      stats := Stats(stats.total + 1, stats.resolved, stats.remaining + 1);
      out := EmitConflict(out0, ourOut, base[rs..re], theirOut, m.ourTag, m.theirTag, m.style);
    }
  }

  /** Where the next region starts and how far it grows. */
  method NextRegion(ob: seq<Block>, tb: seq<Block>, n: nat, oi0: nat, ti0: nat, basePos: nat)
    returns (next: nat, oi: nat, ti: nat, re: nat)
    requires Ready(ob, tb, n, oi0, ti0, basePos) && (oi0 < |ob| || ti0 < |tb|)
    ensures next == Min(NextStart(ob, oi0, n), NextStart(tb, ti0, n))
      && RegionAt(ob, tb, n, oi0, ti0) == Growth(oi, ti, re)
    ensures basePos <= next <= re <= n && oi0 <= oi <= |ob| && ti0 <= ti <= |tb|
    ensures Inside(ob[oi0..oi], n, next, re) && Inside(tb[ti0..ti], n, next, re)
  {
    RegionReady(ob, tb, n, oi0, ti0, basePos);
    var ourStart := if oi0 < |ob| then ob[oi0].start else n;
    var theirStart := if ti0 < |tb| then tb[ti0].start else n;
    next := if theirStart < ourStart then theirStart else ourStart;
    oi, ti, re := GrowRegion(ob, tb, oi0, ti0, next);
    SliceEnds(ob, n, oi0, oi, next, re, ob[oi0..oi]);
    SliceEnds(tb, n, ti0, ti, next, re, tb[ti0..ti]);
  }

  /** One round of the walk: the lines up to the next change, then the region that starts there. */
  method MergeRound(out0: string, stats0: Stats, base: seq<Line>, ob: seq<Block>, tb: seq<Block>,
                    oi0: nat, ti0: nat, basePos: nat, m: Marking)
    returns (out: string, stats: Stats, oi: nat, ti: nat, re: nat)
    requires Ready(ob, tb, |base|, oi0, ti0, basePos) && (oi0 < |ob| || ti0 < |tb|)
    ensures var n := |base|;
            var next, r := Min(NextStart(ob, oi0, n), NextStart(tb, ti0, n)), RegionAt(ob, tb, n, oi0, ti0);
            && r == Growth(oi, ti, re) && basePos <= next <= re <= n && oi0 <= oi <= |ob| && ti0 <= ti <= |tb|
            && (var region := Region(next, re, ob[oi0..oi], tb[ti0..ti]);
                && Ordered(region.ours, next, re) && Ordered(region.theirs, next, re)
                && out == WriteChunk(out0 + Join(base[basePos..next]), ChunkOf(base, region), m)
                && stats == Tally(stats0, base, region))
  {
    var next;
    next, oi, ti, re := NextRegion(ob, tb, |base|, oi0, ti0, basePos);
    out := Emit(out0, base[basePos..next]);
    out, stats := EmitRegion(out, stats0, base, ob[oi0..oi], tb[ti0..ti], next, re, m);
    if oi == oi0 && ti == ti0 {
      RegionReady(ob, tb, |base|, oi0, ti0, basePos);
    }
  }

  /** The walk over a base with at least one line. */
  method MergeBlocks(base: seq<Line>, ob: seq<Block>, tb: seq<Block>, m: Marking,
                     ghost finalOut: string, ghost finalStats: Stats)
    returns (out: string, stats: Stats)
    requires LeadsFrom("", Stats(0, 0, 0), base, ob, tb, 0, 0, 0, m, finalOut, finalStats)
    ensures out == finalOut && stats == finalStats
  {
    out, stats := "", Stats(0, 0, 0);
    var basePos: nat, oi: nat, ti: nat := 0, 0, 0;
    while oi < |ob| || ti < |tb|
      invariant LeadsFrom(out, stats, base, ob, tb, oi, ti, basePos, m, finalOut, finalStats)
      decreases |ob| - oi + |tb| - ti
    {
      LeadsRound(out, stats, base, ob, tb, oi, ti, basePos, m, finalOut, finalStats);
      out, stats, oi, ti, basePos := MergeRound(out, stats, base, ob, tb, oi, ti, basePos, m);
    }
    LeadsEnd(out, stats, base, ob, tb, basePos, m, finalOut, finalStats);
    out := Emit(out, base[basePos..]);
  }

  method RenderMerge(base: string, ours: string, theirs: string, ourTag: string, theirTag: string, style: Style)
    returns (out: string, stats: Stats)
    ensures var m := Marking(ourTag, theirTag, style);
            out == WriteChunks("", MergeChunks(Lines(base), Lines(ours), Lines(theirs)), m)
    ensures stats == MergeStats(Lines(base), Lines(ours), Lines(theirs))
  {
    var m := Marking(ourTag, theirTag, style);
    var baseLines := SplitLines(base);
    var ourLines := SplitLines(ours);
    var theirLines := SplitLines(theirs);
    if |baseLines| == 0 {
      var same := EqualLines(ourLines, theirLines);
      if same {
        JoinLines(ours);
        return ours, Stats(0, 0, 0);
      }
      out := EmitConflict("", ourLines, [], theirLines, ourTag, theirTag, style);
      return out, Stats(1, 0, 1);
    }
    var ourBlocks := ChangeBlocks.ChangeBlocks(baseLines, ourLines);
    var theirBlocks := ChangeBlocks.ChangeBlocks(baseLines, theirLines);
    BlocksReady(baseLines, ourLines, theirLines);
    ghost var finalOut := WriteChunks("", MergeChunks(baseLines, ourLines, theirLines), m);
    ghost var finalStats := MergeStats(baseLines, ourLines, theirLines);
    assert Leads("", Stats(0, 0, 0), baseLines, PiecesOf(baseLines, ourLines, theirLines), 0, m, finalOut, finalStats);
    out, stats := MergeBlocks(baseLines, ourBlocks, theirBlocks, m, finalOut, finalStats);
  }
}
