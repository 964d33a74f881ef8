/** How two lists of change blocks over one base fall into regions of overlapping change. */
module Regions {
  import opened Edits
  import opened Blocks
  import opened Numbers

  /** A stretch of base lines nobody touched, or a region with the blocks of either side in it. */
  datatype Piece =
    | Context(lo: nat, hi: nat)
    | Region(lo: nat, hi: nat, ours: seq<Block>, theirs: seq<Block>)

  /** The block overlaps the region [rs, re), or starts where the region starts. */
  predicate Joins(b: Block, rs: nat, re: nat) {
    b.start < re || b.start == rs
  }

  /** Blocks not yet consumed. */
  function Left(blocks: seq<Block>, i: nat): nat { if i < |blocks| then |blocks| - i else 0 }

  datatype Growth = Growth(oi: nat, ti: nat, re: nat)

  /** Grows a region block by block, ours first, until no next block joins it. */
  ghost function Grow(ob: seq<Block>, tb: seq<Block>, rs: nat, g: Growth): Growth
    decreases Left(ob, g.oi) + Left(tb, g.ti)
  {
    if g.oi < |ob| && Joins(ob[g.oi], rs, g.re) then Grow(ob, tb, rs, TakeOurs(ob, g))
    else if g.ti < |tb| && Joins(tb[g.ti], rs, g.re) then Grow(ob, tb, rs, TakeTheirs(tb, g))
    else g
  }

  function TakeOurs(ob: seq<Block>, g: Growth): Growth
    requires g.oi < |ob|
  {
    Growth(g.oi + 1, g.ti, Max(g.re, ob[g.oi].end))
  }

  function TakeTheirs(tb: seq<Block>, g: Growth): Growth
    requires g.ti < |tb|
  {
    Growth(g.oi, g.ti + 1, Max(g.re, tb[g.ti].end))
  }

  /** Growth does not depend on the order in which the sides are tried. */
  lemma {:induction false} TheirsFirst(ob: seq<Block>, tb: seq<Block>, rs: nat, g: Growth)
    requires g.ti < |tb| && Joins(tb[g.ti], rs, g.re)
    ensures Grow(ob, tb, rs, g) == Grow(ob, tb, rs, TakeTheirs(tb, g))
    decreases |ob| - g.oi
  {
    if g.oi < |ob| && Joins(ob[g.oi], rs, g.re) {
      TheirsFirst(ob, tb, rs, TakeOurs(ob, g));
      assert TakeTheirs(tb, TakeOurs(ob, g)) == TakeOurs(ob, TakeTheirs(tb, g));
    }
  }

  function Swap(g: Growth): Growth { Growth(g.ti, g.oi, g.re) }

  lemma {:induction false} GrowSwap(ob: seq<Block>, tb: seq<Block>, rs: nat, g: Growth)
    ensures Grow(tb, ob, rs, Swap(g)) == Swap(Grow(ob, tb, rs, g))
    decreases Left(ob, g.oi) + Left(tb, g.ti)
  {
    if g.oi < |ob| && Joins(ob[g.oi], rs, g.re) {
      TheirsFirst(tb, ob, rs, Swap(g));
      GrowSwap(ob, tb, rs, TakeOurs(ob, g));
    } else if g.ti < |tb| && Joins(tb[g.ti], rs, g.re) {
      GrowSwap(ob, tb, rs, TakeTheirs(tb, g));
    }
  }

  /** Blocks in order, at least one line apart, inside the first n base lines. */
  ghost predicate Sorted(blocks: seq<Block>, n: nat) {
    && (forall i | 0 <= i < |blocks| :: blocks[i].start <= blocks[i].end <= n)
    && forall i, j | 0 <= i < j < |blocks| :: blocks[i].end < blocks[j].start
  }

  lemma {:induction false} GoodIsSorted(blocks: seq<Block>, n: nat)
    requires Good(blocks, n)
    ensures Sorted(blocks, n)
    decreases |blocks|
  {
    if blocks != [] {
      var front := Front(blocks);
      GoodIsSorted(front, Last(blocks).start);
      forall i, j | 0 <= i < j < |blocks| ensures blocks[i].end < blocks[j].start {
        if j == |blocks| - 1 {
          assert front[i].end <= Last(front).end;
        }
      }
    }
  }

  /** Blocks of one side inside a region. */
  ghost predicate Inside(blocks: seq<Block>, n: nat, lo: nat, hi: nat) {
    Sorted(blocks, n) && (blocks != [] ==> lo <= blocks[0].start && blocks[|blocks| - 1].end <= hi)
  }

  lemma SliceEnds(blocks: seq<Block>, n: nat, i: nat, j: nat, lo: nat, hi: nat, s: seq<Block>)
    requires Sorted(blocks, n) && i <= j <= |blocks| && s == blocks[i..j]
    requires j > i ==> lo <= blocks[i].start && blocks[j - 1].end <= hi
    ensures Inside(s, n, lo, hi)
  {
    forall k | 0 <= k < |s| ensures s[k].start <= s[k].end <= n {
      assert s[k] == blocks[i + k];
    }
    forall k, l | 0 <= k < l < |s| ensures s[k].end < s[l].start {
      assert s[k] == blocks[i + k] && s[l] == blocks[i + l];
    }
  }

  lemma {:induction false} InsideIsOrdered(s: seq<Block>, n: nat, lo: nat, hi: nat)
    requires Inside(s, n, lo, hi) && lo <= hi
    ensures Ordered(s, lo, hi)
    decreases |s|
  {
    if s != [] {
      var front, b := Front(s), Last(s);
      if front != [] {
        assert s[|s| - 2].end < s[|s| - 1].start && Last(front) == s[|s| - 2];
        assert s[0].end < b.start;
      }
      InsideIsOrdered(front, n, lo, b.start);
    }
  }

  /** A slice of sorted blocks is ordered in every range that contains it. */
  lemma SliceOrdered(blocks: seq<Block>, n: nat, from: nat, till: nat, lo: nat, hi: nat)
    requires Sorted(blocks, n) && from <= till <= |blocks| && lo <= hi
    requires from < till ==> lo <= blocks[from].start && blocks[till - 1].end <= hi
    ensures Ordered(blocks[from..till], lo, hi)
  {
    SliceEnds(blocks, n, from, till, lo, hi, blocks[from..till]);
    InsideIsOrdered(blocks[from..till], n, lo, hi);
  }

  /** What growth promises: it only consumes, the region ends where the last consumed block ends or later. */
  ghost predicate Grown(ob: seq<Block>, tb: seq<Block>, rs: nat, g: Growth, r: Growth, n: nat) {
    && g.oi <= r.oi <= |ob| && g.ti <= r.ti <= |tb| && g.re <= r.re <= n
    && (r.oi > g.oi ==> ob[r.oi - 1].end <= r.re)
    && (r.ti > g.ti ==> tb[r.ti - 1].end <= r.re)
    && (r.oi < |ob| ==> !Joins(ob[r.oi], rs, r.re))
    && (r.ti < |tb| ==> !Joins(tb[r.ti], rs, r.re))
  }

  lemma GrownFromOurs(ob: seq<Block>, tb: seq<Block>, rs: nat, g: Growth, r: Growth, n: nat)
    requires g.oi < |ob| && ob[g.oi].end <= n && Grown(ob, tb, rs, TakeOurs(ob, g), r, n) && Sorted(ob, n)
    ensures Grown(ob, tb, rs, g, r, n)
  {
    if r.oi - 1 > g.oi { assert ob[g.oi].end < ob[r.oi - 1].start; }
  }

  lemma GrownFromTheirs(ob: seq<Block>, tb: seq<Block>, rs: nat, g: Growth, r: Growth, n: nat)
    requires g.ti < |tb| && tb[g.ti].end <= n && Grown(ob, tb, rs, TakeTheirs(tb, g), r, n) && Sorted(tb, n)
    ensures Grown(ob, tb, rs, g, r, n)
  {
    if r.ti - 1 > g.ti { assert tb[g.ti].end < tb[r.ti - 1].start; }
  }

  lemma {:induction false} GrowGrows(ob: seq<Block>, tb: seq<Block>, rs: nat, g: Growth, n: nat)
    requires Sorted(ob, n) && Sorted(tb, n) && g.oi <= |ob| && g.ti <= |tb| && g.re <= n
    ensures Grown(ob, tb, rs, g, Grow(ob, tb, rs, g), n)
    decreases Left(ob, g.oi) + Left(tb, g.ti)
  {
    if g.oi < |ob| && Joins(ob[g.oi], rs, g.re) {
      GrowGrows(ob, tb, rs, TakeOurs(ob, g), n);
      GrownFromOurs(ob, tb, rs, g, Grow(ob, tb, rs, g), n);
    } else if g.ti < |tb| && Joins(tb[g.ti], rs, g.re) {
      GrowGrows(ob, tb, rs, TakeTheirs(tb, g), n);
      GrownFromTheirs(ob, tb, rs, g, Grow(ob, tb, rs, g), n);
    }
  }

  /** No block from index i on straddles the cut at r of a region that starts at rs. */
  ghost predicate CutIsSafe(blocks: seq<Block>, i: nat, rs: nat, r: nat) {
    forall k | i <= k < |blocks| :: Joins(blocks[k], rs, r) ==> blocks[k].end <= r
  }

  /** The region is the least one: every cut that splits no block lies at or after its end. */
  lemma {:induction false} GrowIsLeast(ob: seq<Block>, tb: seq<Block>, rs: nat, g: Growth, r: nat)
    requires g.re <= r && CutIsSafe(ob, g.oi, rs, r) && CutIsSafe(tb, g.ti, rs, r)
    ensures Grow(ob, tb, rs, g).re <= r
    decreases Left(ob, g.oi) + Left(tb, g.ti)
  {
    if g.oi < |ob| && Joins(ob[g.oi], rs, g.re) {
      GrowIsLeast(ob, tb, rs, TakeOurs(ob, g), r);
    } else if g.ti < |tb| && Joins(tb[g.ti], rs, g.re) {
      GrowIsLeast(ob, tb, rs, TakeTheirs(tb, g), r);
    }
  }

  /** The end of the region is itself such a cut: no block straddles it. */
  lemma GrowEndIsSafe(ob: seq<Block>, tb: seq<Block>, rs: nat, g: Growth, n: nat)
    requires Sorted(ob, n) && Sorted(tb, n) && g.oi <= |ob| && g.ti <= |tb| && g.re <= n && rs <= g.re
    ensures var r := Grow(ob, tb, rs, g);
            CutIsSafe(ob, g.oi, rs, r.re) && CutIsSafe(tb, g.ti, rs, r.re)
  {
    GrowGrows(ob, tb, rs, g, n);
  }

  // ----- the walk over the base -----

  /** Start of the next block of one side, or the end of the base. */
  function NextStart(blocks: seq<Block>, i: nat, n: nat): nat {
    if i < |blocks| then blocks[i].start else n
  }

  /** The walk stands at pos with oi and ti blocks consumed. */
  ghost predicate Ready(ob: seq<Block>, tb: seq<Block>, n: nat, oi: nat, ti: nat, pos: nat) {
    && Sorted(ob, n) && Sorted(tb, n) && oi <= |ob| && ti <= |tb| && pos <= n
    && pos <= NextStart(ob, oi, n) && pos <= NextStart(tb, ti, n)
  }

  ghost function RegionAt(ob: seq<Block>, tb: seq<Block>, n: nat, oi: nat, ti: nat): (r: Growth)
  {
    var next := Min(NextStart(ob, oi, n), NextStart(tb, ti, n));
    Grow(ob, tb, next, Growth(oi, ti, next))
  }

  lemma RegionReady(ob: seq<Block>, tb: seq<Block>, n: nat, oi: nat, ti: nat, pos: nat)
    requires Ready(ob, tb, n, oi, ti, pos) && (oi < |ob| || ti < |tb|)
    ensures var next, r := Min(NextStart(ob, oi, n), NextStart(tb, ti, n)), RegionAt(ob, tb, n, oi, ti);
            && pos <= next <= r.re && Ready(ob, tb, n, r.oi, r.ti, r.re)
            && oi <= r.oi && ti <= r.ti && r.oi + r.ti > oi + ti
            && (r.oi > oi ==> next <= ob[oi].start && ob[r.oi - 1].end <= r.re)
            && (r.ti > ti ==> next <= tb[ti].start && tb[r.ti - 1].end <= r.re)
  {
    var next := Min(NextStart(ob, oi, n), NextStart(tb, ti, n));
    GrowGrows(ob, tb, next, Growth(oi, ti, next), n);
  }

  /** The pieces the walk goes through from pos on. */
  ghost function Walk(ob: seq<Block>, tb: seq<Block>, n: nat, oi: nat, ti: nat, pos: nat): seq<Piece>
    requires Ready(ob, tb, n, oi, ti, pos)
    decreases |ob| - oi + |tb| - ti
  {
    if oi == |ob| && ti == |tb| then [Context(pos, n)]
    else
      var next, r := Min(NextStart(ob, oi, n), NextStart(tb, ti, n)), RegionAt(ob, tb, n, oi, ti);
      RegionReady(ob, tb, n, oi, ti, pos);
      [Context(pos, next), Region(next, r.re, ob[oi..r.oi], tb[ti..r.ti])] + Walk(ob, tb, n, r.oi, r.ti, r.re)
  }

  /** One round of the walk. */
  lemma WalkRound(ob: seq<Block>, tb: seq<Block>, n: nat, oi: nat, ti: nat, pos: nat, next: nat, r: Growth)
    requires Ready(ob, tb, n, oi, ti, pos) && (oi < |ob| || ti < |tb|)
    requires next == Min(NextStart(ob, oi, n), NextStart(tb, ti, n)) && r == RegionAt(ob, tb, n, oi, ti)
    ensures oi <= r.oi <= |ob| && ti <= r.ti <= |tb| && Ready(ob, tb, n, r.oi, r.ti, r.re)
    ensures Walk(ob, tb, n, oi, ti, pos)
         == [Context(pos, next), Region(next, r.re, ob[oi..r.oi], tb[ti..r.ti])] + Walk(ob, tb, n, r.oi, r.ti, r.re)
  {
    RegionReady(ob, tb, n, oi, ti, pos);
  }

  /** The pieces cover [lo, hi) exactly once and in order, and every region is changed by somebody. */
  ghost predicate Tiles(pieces: seq<Piece>, lo: nat, hi: nat) {
    if pieces == [] then lo == hi
    else
      var p := pieces[0];
      && p.lo == lo && lo <= p.hi
      && (p.Region? ==> Ordered(p.ours, lo, p.hi) && Ordered(p.theirs, lo, p.hi) && (p.ours != [] || p.theirs != []))
      && Tiles(pieces[1..], p.hi, hi)
  }

  lemma {:induction false} WalkTiles(ob: seq<Block>, tb: seq<Block>, n: nat, oi: nat, ti: nat, pos: nat)
    requires Ready(ob, tb, n, oi, ti, pos)
    ensures Tiles(Walk(ob, tb, n, oi, ti, pos), pos, n)
    decreases |ob| - oi + |tb| - ti
  {
    if oi < |ob| || ti < |tb| {
      var next, r := Min(NextStart(ob, oi, n), NextStart(tb, ti, n)), RegionAt(ob, tb, n, oi, ti);
      RegionReady(ob, tb, n, oi, ti, pos);
      WalkRound(ob, tb, n, oi, ti, pos, next, r);
      SliceOrdered(ob, n, oi, r.oi, next, r.re);
      SliceOrdered(tb, n, ti, r.ti, next, r.re);
      WalkTiles(ob, tb, n, r.oi, r.ti, r.re);
      TilesRound(pos, Region(next, r.re, ob[oi..r.oi], tb[ti..r.ti]), Walk(ob, tb, n, r.oi, r.ti, r.re), n);
    }
  }

  lemma TilesRound(pos: nat, region: Piece, rest: seq<Piece>, n: nat)
    requires pos <= region.lo <= region.hi && region.Region? && Tiles(rest, region.hi, n)
    requires Ordered(region.ours, region.lo, region.hi) && Ordered(region.theirs, region.lo, region.hi)
    requires region.ours != [] || region.theirs != []
    ensures Tiles([Context(pos, region.lo), region] + rest, pos, n)
  {
    TilesCons(region, rest, n);
    TilesCons(Context(pos, region.lo), [region] + rest, n);
    assert [Context(pos, region.lo), region] + rest == [Context(pos, region.lo)] + ([region] + rest);
  }

  lemma TilesCons(p: Piece, rest: seq<Piece>, hi: nat)
    requires p.lo <= p.hi && Tiles(rest, p.hi, hi)
    requires p.Region?
      ==> Ordered(p.ours, p.lo, p.hi) && Ordered(p.theirs, p.lo, p.hi) && (p.ours != [] || p.theirs != [])
    ensures Tiles([p] + rest, p.lo, hi)
  {
    assert ([p] + rest)[1..] == rest;
  }

  // ----- what either side reads -----

  /** What one side reads in a piece. */
  ghost function OurView(base: seq<Line>, p: Piece): seq<Line>
    requires p.lo <= p.hi <= |base| && (p.Region? ==> Ordered(p.ours, p.lo, p.hi))
  {
    if p.Context? then base[p.lo..p.hi] else View(base, p.ours, p.lo, p.hi)
  }

  ghost function TheirView(base: seq<Line>, p: Piece): seq<Line>
    requires p.lo <= p.hi <= |base| && (p.Region? ==> Ordered(p.theirs, p.lo, p.hi))
  {
    if p.Context? then base[p.lo..p.hi] else View(base, p.theirs, p.lo, p.hi)
  }

  lemma {:induction false} TilesBounded(pieces: seq<Piece>, lo: nat, hi: nat)
    requires Tiles(pieces, lo, hi)
    ensures lo <= hi
    ensures pieces != [] ==> pieces[0].hi <= hi
  {
    if pieces != [] {
      TilesBounded(pieces[1..], pieces[0].hi, hi);
    }
  }

  /** All pieces read by our side. */
  ghost function OursOf(base: seq<Line>, pieces: seq<Piece>, lo: nat): seq<Line>
    requires Tiles(pieces, lo, |base|)
    decreases |pieces|
  {
    if pieces == [] then []
    else
      TilesBounded(pieces, lo, |base|);
      OurView(base, pieces[0]) + OursOf(base, pieces[1..], pieces[0].hi)
  }

  ghost function TheirsOf(base: seq<Line>, pieces: seq<Piece>, lo: nat): seq<Line>
    requires Tiles(pieces, lo, |base|)
    decreases |pieces|
  {
    if pieces == [] then []
    else
      TilesBounded(pieces, lo, |base|);
      TheirView(base, pieces[0]) + TheirsOf(base, pieces[1..], pieces[0].hi)
  }

  function SwapPiece(p: Piece): Piece {
    match p
    case Context(lo, hi) => p
    case Region(lo, hi, o, t) => Region(lo, hi, t, o)
  }

  function SwapPieces(ps: seq<Piece>): seq<Piece> {
    if ps == [] then [] else [SwapPiece(ps[0])] + SwapPieces(ps[1..])
  }

  lemma SwapTwo(a: Piece, b: Piece, rest: seq<Piece>)
    ensures SwapPieces([a, b] + rest) == [SwapPiece(a), SwapPiece(b)] + SwapPieces(rest)
  {
    assert ([a, b] + rest)[1..] == [b] + rest && ([b] + rest)[1..] == rest;
  }

  /** Exchanging the sides exchanges them in every region and moves no boundary. */
  lemma {:induction false} WalkSwap(ob: seq<Block>, tb: seq<Block>, n: nat, oi: nat, ti: nat, pos: nat)
    requires Ready(ob, tb, n, oi, ti, pos)
    ensures Ready(tb, ob, n, ti, oi, pos)
    ensures Walk(tb, ob, n, ti, oi, pos) == SwapPieces(Walk(ob, tb, n, oi, ti, pos))
    decreases |ob| - oi + |tb| - ti
  {
    if oi < |ob| || ti < |tb| {
      var next, r := Min(NextStart(ob, oi, n), NextStart(tb, ti, n)), RegionAt(ob, tb, n, oi, ti);
      RegionReady(ob, tb, n, oi, ti, pos);
      GrowSwap(ob, tb, next, Growth(oi, ti, next));
      WalkSwap(ob, tb, n, r.oi, r.ti, r.re);
      SwapTwo(Context(pos, next), Region(next, r.re, ob[oi..r.oi], tb[ti..r.ti]), Walk(ob, tb, n, r.oi, r.ti, r.re));
    }
  }

  /** Applied from lo on, the blocks give the text. */
  ghost predicate Reads(base: seq<Line>, blocks: seq<Block>, lo: nat, text: seq<Line>) {
    forall b | b == blocks :: ReadsAs(base, b, lo, text)
  }

  ghost predicate ReadsAs(base: seq<Line>, blocks: seq<Block>, lo: nat, text: seq<Line>) {
    Ordered(blocks, lo, |base|) && View(base, blocks, lo, |base|) == text
  }

  lemma ReadsOn(base: seq<Line>, mid: seq<Block>, rest: seq<Block>, pos: nat, next: nat, re: nat, tail: seq<Line>)
    requires pos <= next <= re <= |base| && Ordered(mid, next, re) && Reads(base, rest, re, tail)
    ensures Reads(base, mid + rest, pos, base[pos..next] + (View(base, mid, next, re) + tail))
  {
    var n, all := |base|, mid + rest;
    assert ReadsAs(base, rest, re, tail);
    ViewSplit(base, mid, rest, next, re, n);
    ViewSplit(base, [], all, pos, next, n);
    assert [] + all == all;
    assert ReadsAs(base, all, pos, base[pos..next] + (View(base, mid, next, re) + tail));
  }

  /** One round of the walk, seen from one side: a context slice, a region, the rest. */
  lemma ViewRound(base: seq<Line>, blocks: seq<Block>, i: nat, j: nat, pos: nat, next: nat, re: nat, mid: seq<Block>,
                  tail: seq<Line>)
    requires Sorted(blocks, |base|) && i <= j <= |blocks| && pos <= next <= re <= |base| && mid == blocks[i..j]
    requires j > i ==> next <= blocks[i].start && blocks[j - 1].end <= re
    requires Reads(base, blocks[j..], re, tail)
    ensures Ordered(mid, next, re)
    ensures Reads(base, blocks[i..], pos, base[pos..next] + (View(base, mid, next, re) + tail))
  {
    SliceOrdered(blocks, |base|, i, j, next, re);
    ReadsOn(base, mid, blocks[j..], pos, next, re, tail);
    assert mid + blocks[j..] == blocks[i..];
  }

  lemma OursTwo(base: seq<Line>, a: Piece, b: Piece, rest: seq<Piece>)
    requires Tiles([a, b] + rest, a.lo, |base|) && Tiles(rest, b.hi, |base|)
    requires a.lo <= a.hi == b.lo <= b.hi <= |base| && a.Context? && b.Region? && Ordered(b.ours, b.lo, b.hi)
    ensures OursOf(base, [a, b] + rest, a.lo) == OurView(base, a) + (OurView(base, b) + OursOf(base, rest, b.hi))
  {
    assert ([a, b] + rest)[1..] == [b] + rest && ([b] + rest)[1..] == rest;
  }

  /** The pieces tile the base from lo on and spell the text when read by our side. */
  ghost predicate SpellsOurs(base: seq<Line>, ps: seq<Piece>, lo: nat, text: seq<Line>) {
    Tiles(ps, lo, |base|) && OursOf(base, ps, lo) == text
  }

  lemma SpellsLast(base: seq<Line>, pos: nat)
    requires pos <= |base|
    ensures SpellsOurs(base, [Context(pos, |base|)], pos, base[pos..|base|])
  {
    assert OurView(base, Context(pos, |base|)) + [] == base[pos..|base|];
  }

  lemma SpellsRound(base: seq<Line>, pos: nat, region: Piece, rest: seq<Piece>, tail: seq<Line>)
    requires region.Region? && pos <= region.lo <= region.hi <= |base| && SpellsOurs(base, rest, region.hi, tail)
    requires Ordered(region.ours, region.lo, region.hi) && Ordered(region.theirs, region.lo, region.hi)
    requires region.ours != [] || region.theirs != []
    ensures SpellsOurs(base, [Context(pos, region.lo), region] + rest, pos,
                       base[pos..region.lo] + (View(base, region.ours, region.lo, region.hi) + tail))
  {
    TilesRound(pos, region, rest, |base|);
    OursTwo(base, Context(pos, region.lo), region, rest);
  }

  lemma {:induction false} WalkSpells(base: seq<Line>, ob: seq<Block>, tb: seq<Block>, oi: nat, ti: nat, pos: nat,
                                      ps: seq<Piece>)
    returns (text: seq<Line>)
    requires Ready(ob, tb, |base|, oi, ti, pos) && ps == Walk(ob, tb, |base|, oi, ti, pos)
    ensures SpellsOurs(base, ps, pos, text) && Reads(base, ob[oi..], pos, text)
    decreases |ob| - oi + |tb| - ti
  {
    var n := |base|;
    if oi == |ob| && ti == |tb| {
      text := base[pos..n];
      assert ob[oi..] == [];
      assert ReadsAs(base, [], pos, text);
      SpellsLast(base, pos);
    } else {
      var next, r := Min(NextStart(ob, oi, n), NextStart(tb, ti, n)), RegionAt(ob, tb, n, oi, ti);
      RegionReady(ob, tb, n, oi, ti, pos);
      WalkRound(ob, tb, n, oi, ti, pos, next, r);
      SliceOrdered(tb, n, ti, r.ti, next, r.re);
      var region, rest := Region(next, r.re, ob[oi..r.oi], tb[ti..r.ti]), Walk(ob, tb, n, r.oi, r.ti, r.re);
      var tail := WalkSpells(base, ob, tb, r.oi, r.ti, r.re, rest);
      ViewRound(base, ob, oi, r.oi, pos, next, r.re, region.ours, tail);
      SpellsRound(base, pos, region, rest, tail);
      text := base[pos..next] + (View(base, region.ours, next, r.re) + tail);
    }
  }

  /** Read by our side, the pieces spell our version of the base from pos on. */
  lemma WalkSpellsOurs(base: seq<Line>, ob: seq<Block>, tb: seq<Block>, oi: nat, ti: nat, pos: nat)
    requires Ready(ob, tb, |base|, oi, ti, pos)
    ensures Tiles(Walk(ob, tb, |base|, oi, ti, pos), pos, |base|) && Ordered(ob[oi..], pos, |base|)
    ensures OursOf(base, Walk(ob, tb, |base|, oi, ti, pos), pos) == View(base, ob[oi..], pos, |base|)
  {
    var text := WalkSpells(base, ob, tb, oi, ti, pos, Walk(ob, tb, |base|, oi, ti, pos));
    assert ReadsAs(base, ob[oi..], pos, text);
  }

  lemma {:induction false} SwapTiles(base: seq<Line>, pieces: seq<Piece>, lo: nat)
    requires Tiles(pieces, lo, |base|)
    ensures Tiles(SwapPieces(pieces), lo, |base|)
    ensures TheirsOf(base, pieces, lo) == OursOf(base, SwapPieces(pieces), lo)
    decreases |pieces|
  {
    if pieces != [] {
      SwapTiles(base, pieces[1..], pieces[0].hi);
      TilesBounded(pieces, lo, |base|);
      TilesCons(SwapPiece(pieces[0]), SwapPieces(pieces[1..]), |base|);
    }
  }

  lemma WalkSpellsTheirs(base: seq<Line>, ob: seq<Block>, tb: seq<Block>, oi: nat, ti: nat, pos: nat)
    requires Ready(ob, tb, |base|, oi, ti, pos)
    ensures Tiles(Walk(ob, tb, |base|, oi, ti, pos), pos, |base|) && Ordered(tb[ti..], pos, |base|)
    ensures TheirsOf(base, Walk(ob, tb, |base|, oi, ti, pos), pos) == View(base, tb[ti..], pos, |base|)
  {
    WalkTiles(ob, tb, |base|, oi, ti, pos);
    SwapTiles(base, Walk(ob, tb, |base|, oi, ti, pos), pos);
    WalkSwap(ob, tb, |base|, oi, ti, pos);
    WalkSpellsOurs(base, tb, ob, ti, oi, pos);
  }
}
