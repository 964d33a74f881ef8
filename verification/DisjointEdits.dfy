/** Edits of the two sides that do not touch each other merge without a conflict. */
module DisjointEdits {
  import opened Edits
  import opened Numbers
  import opened Text
  import opened Blocks
  import opened ChangeBlocks
  import opened Regions
  import opened Render
  import opened ThreeWay
  import opened MergeLaws

  /** Two blocks that neither overlap nor start together; they may abut. */
  predicate Clear(b: Block, c: Block) {
    b.start != c.start && (b.end <= c.start || c.end <= b.start)
  }

  ghost predicate Apart(ob: seq<Block>, tb: seq<Block>) {
    forall b, c | b in ob && c in tb :: Clear(b, c)
  }

  /** The next block of the two lists is one of ours. */
  predicate OursNext(ob: seq<Block>, tb: seq<Block>, oi: nat, ti: nat) {
    oi < |ob| && (ti < |tb| ==> ob[oi].start < tb[ti].start)
  }

  /** The blocks of both sides in base order. */
  function Interleaved(ob: seq<Block>, tb: seq<Block>, oi: nat, ti: nat): seq<Block>
    requires oi <= |ob| && ti <= |tb|
    decreases |ob| - oi + |tb| - ti
  {
    if OursNext(ob, tb, oi, ti) then [ob[oi]] + Interleaved(ob, tb, oi + 1, ti)
    else if ti < |tb| then [tb[ti]] + Interleaved(ob, tb, oi, ti + 1)
    else []
  }

  /** A region takes in one block of one side. */
  lemma RegionOfOne(ob: seq<Block>, tb: seq<Block>, n: nat, oi: nat, ti: nat, pos: nat)
    requires Ready(ob, tb, n, oi, ti, pos) && Apart(ob, tb) && (oi < |ob| || ti < |tb|)
    ensures RegionAt(ob, tb, n, oi, ti)
      == if OursNext(ob, tb, oi, ti) then Growth(oi + 1, ti, ob[oi].end) else Growth(oi, ti + 1, tb[ti].end)
    ensures Min(NextStart(ob, oi, n), NextStart(tb, ti, n)) == if OursNext(ob, tb, oi,
        ti) then ob[oi].start else tb[ti].start
  {
    if oi < |ob| && ti < |tb| {
      assert ob[oi] in ob && tb[ti] in tb;
      assert Clear(ob[oi], tb[ti]);
    }
    if OursNext(ob, tb, oi, ti) {
      var g := Growth(oi + 1, ti, ob[oi].end);
      assert Grow(ob, tb, ob[oi].start, Growth(oi, ti, ob[oi].start)) == Grow(ob, tb, ob[oi].start, g);
      StopsAt(ob, tb, ob[oi].start, g);
    } else {
      var g := Growth(oi, ti + 1, tb[ti].end);
      assert Grow(ob, tb, tb[ti].start, Growth(oi, ti, tb[ti].start)) == Grow(ob, tb, tb[ti].start, g);
      StopsAt(ob, tb, tb[ti].start, g);
    }
  }

  lemma StopsAt(ob: seq<Block>, tb: seq<Block>, rs: nat, g: Growth)
    requires g.oi < |ob| ==> !Joins(ob[g.oi], rs, g.re)
    requires g.ti < |tb| ==> !Joins(tb[g.ti], rs, g.re)
    ensures Grow(ob, tb, rs, g) == g
  {
  }

  // ----- what such pieces read -----

  /** The pieces hold no conflict, count nothing and read the text. */
  ghost predicate Settles(base: seq<Line>, ps: seq<Piece>, lo: nat, text: seq<Line>) {
    && Tiles(ps, lo, |base|) && AllPlain(ChunksOf(base, ps, lo)) && ChooseOurs(ChunksOf(base, ps, lo)) == text
    && forall s :: TallyAll(s, base, ps, lo) == s
  }

  lemma SettlesFirst(base: seq<Line>, p: Piece, rest: seq<Piece>, mine: seq<Line>, tail: seq<Line>)
    requires p.lo <= p.hi <= |base| && Settles(base, rest, p.hi, tail)
    requires p.Region?
      ==> Ordered(p.ours, p.lo, p.hi) && Ordered(p.theirs, p.lo, p.hi) && (p.ours != [] || p.theirs != [])
    requires !Contested(p) && ChunkOf(base, p) == Plain(mine)
    ensures Settles(base, [p] + rest, p.lo, mine + tail)
  {
    var ps := [p] + rest;
    TilesCons(p, rest, |base|);
    assert ps[1..] == rest;
    var cs := ChunksOf(base, ps, p.lo);
    assert cs == [Plain(mine)] + ChunksOf(base, rest, p.hi);
    assert cs[1..] == ChunksOf(base, rest, p.hi);
    forall i | 0 <= i < |cs| ensures cs[i].Plain? {
      if i > 0 { assert cs[i] == ChunksOf(base, rest, p.hi)[i - 1]; }
    }
    forall s ensures TallyAll(s, base, ps, p.lo) == s {
      assert TallyAll(s, base, rest, p.hi) == s;
    }
  }

  lemma SettlesLast(base: seq<Line>, pos: nat)
    requires pos <= |base|
    ensures Settles(base, [Context(pos, |base|)], pos, base[pos..|base|])
  {
    var p := Context(pos, |base|);
    assert Settles(base, [], |base|, []);
    SettlesFirst(base, p, [], base[pos..|base|], []);
    assert [p] + [] == [p] && base[pos..|base|] + [] == base[pos..|base|];
  }

  lemma SettlesRound(base: seq<Line>, pos: nat, region: Piece, rest: seq<Piece>, b: Block, tail: seq<Line>)
    requires region.Region? && pos <= region.lo <= region.hi <= |base| && Settles(base, rest, region.hi, tail)
    requires region.lo == b.start <= b.end == region.hi
    requires (region.ours == [b] && region.theirs == []) || (region.ours == [] && region.theirs == [b])
    ensures Settles(base, [Context(pos, region.lo), region] + rest, pos, base[pos..region.lo] + (b.repl + tail))
  {
    OneBlock(base, b);
    SettlesFirst(base, region, rest, b.repl, tail);
    SettlesFirst(base, Context(pos, region.lo), [region] + rest, base[pos..region.lo], b.repl + tail);
    assert [Context(pos, region.lo), region] + rest == [Context(pos, region.lo)] + ([region] + rest);
  }

  lemma OneBlock(base: seq<Line>, b: Block)
    requires b.start <= b.end <= |base|
    ensures Ordered([b], b.start, b.end) && Ordered([], b.start, b.end) && View(base, [b], b.start, b.end) == b.repl
  {
    SnocParts([], b);
    assert [] + [b] == [b];
    assert View(base, [], b.start, b.start) == [];
    assert base[b.end..b.end] == [];
  }

  /** The walk over untouching edits reads what both sides' blocks together give. */
  lemma {:induction false} ApartWalk(base: seq<Line>, ob: seq<Block>, tb: seq<Block>, oi: nat, ti: nat, pos: nat,
                                     ps: seq<Piece>)
    returns (text: seq<Line>)
    requires Ready(ob, tb, |base|, oi, ti, pos) && Apart(ob, tb) && ps == Walk(ob, tb, |base|, oi, ti, pos)
    ensures Settles(base, ps, pos, text) && Reads(base, Interleaved(ob, tb, oi, ti), pos, text)
    decreases |ob| - oi + |tb| - ti
  {
    var n := |base|;
    if oi == |ob| && ti == |tb| {
      text := base[pos..n];
      assert ReadsAs(base, [], pos, text);
      SettlesLast(base, pos);
    } else {
      var next, r := Min(NextStart(ob, oi, n), NextStart(tb, ti, n)), RegionAt(ob, tb, n, oi, ti);
      RegionReady(ob, tb, n, oi, ti, pos);
      WalkRound(ob, tb, n, oi, ti, pos, next, r);
      RegionOfOne(ob, tb, n, oi, ti, pos);
      var b := if OursNext(ob, tb, oi, ti) then ob[oi] else tb[ti];
      var rest := Walk(ob, tb, n, r.oi, r.ti, r.re);
      var tail := ApartWalk(base, ob, tb, r.oi, r.ti, r.re, rest);
      OneSide(ob, tb, oi, ti, r.oi, r.ti);
      SettlesRound(base, pos, Region(next, r.re, ob[oi..r.oi], tb[ti..r.ti]), rest, b, tail);
      OneBlock(base, b);
      ReadsOn(base, [b], Interleaved(ob, tb, r.oi, r.ti), pos, next, r.re, tail);
      text := base[pos..next] + (b.repl + tail);
    }
  }

  lemma OneSide(ob: seq<Block>, tb: seq<Block>, oi: nat, ti: nat, oi': nat, ti': nat)
    requires oi <= oi' <= |ob| && ti <= ti' <= |tb|
    ensures oi' == oi + 1 ==> ob[oi..oi'] == [ob[oi]]
    ensures ti' == ti + 1 ==> tb[ti..ti'] == [tb[ti]]
    ensures (oi' == oi ==> ob[oi..oi'] == []) && (ti' == ti ==> tb[ti..ti'] == [])
  {
  }

  /**
   Edits that do not overlap and do not start together settle on their own sides, even where they
   abut: nothing is in conflict or counted, and the result is the base with both sides' edits applied.
   */
  lemma DisjointEditsMerge(base: string, ours: string, theirs: string, m: Marking)
    requires base != "" && Apart(BlocksOf(Lines(base), Lines(ours)), BlocksOf(Lines(base), Lines(theirs)))
    ensures var b := Lines(base);
            var ob, tb := BlocksOf(b, Lines(ours)), BlocksOf(b, Lines(theirs));
            var cs, both := MergeChunks(b, Lines(ours), Lines(theirs)), Interleaved(ob, tb, 0, 0);
            && AllPlain(cs) && MergeStats(b, Lines(ours), Lines(theirs)) == Stats(0, 0, 0)
            && Ordered(both, 0, |b|) && WriteChunks("", cs, m) == Join(View(b, both, 0, |b|))
  {
    var b, o, t := Lines(base), Lines(ours), Lines(theirs);
    JoinLines(base);
    BlocksReady(b, o, t);
    var ob, tb := BlocksOf(b, o), BlocksOf(b, t);
    var text := ApartWalk(b, ob, tb, 0, 0, 0, PiecesOf(b, o, t));
    assert ReadsAs(b, Interleaved(ob, tb, 0, 0), 0, text);
    PlainText("", MergeChunks(b, o, t), m, text);
    assert "" + Join(text) == Join(text);
  }
}
