/** What the chunks and counts of a merge say about the pieces it went through, and how small the pieces are. */
module MergeMeaning {
  import opened Edits
  import opened Numbers
  import opened Blocks
  import opened ChangeBlocks
  import opened Regions
  import opened Render
  import opened ThreeWay
  import opened MergeLaws

  function OurReading(c: Chunk): seq<Line> {
    if c.Plain? then c.lines else c.ours
  }

  function TheirReading(c: Chunk): seq<Line> {
    if c.Plain? then c.lines else c.theirs
  }

  ghost predicate InBase(base: seq<Line>, p: Piece) {
    p.lo <= p.hi <= |base| && (p.Region? ==> Ordered(p.ours, p.lo, p.hi) && Ordered(p.theirs, p.lo, p.hi))
  }

  /** Both sides changed the piece, and not to the same lines. */
  ghost predicate Diverges(base: seq<Line>, p: Piece)
    requires InBase(base, p)
  {
    Contested(p) && OurView(base, p) != TheirView(base, p)
  }

  /**
   The chunk says what the sides did to the piece: whoever changed it finds the change in it, a piece
   nobody changed is as it was, and it is a conflict, over the base lines, where the changes diverge.
   */
  ghost predicate Tells(base: seq<Line>, p: Piece, c: Chunk)
    requires InBase(base, p)
  {
    && (p.Region? && p.ours != [] ==> OurReading(c) == OurView(base, p))
    && (p.Region? && p.theirs != [] ==> TheirReading(c) == TheirView(base, p))
    && (p.Context? ==> c == Plain(base[p.lo..p.hi]))
    && (c.Conflict? <==> Diverges(base, p))
    && (c.Conflict? ==> c.base == base[p.lo..p.hi])
  }

  lemma {:induction false} ChunkTells(base: seq<Line>, ps: seq<Piece>, lo: nat, i: nat)
    requires Tiles(ps, lo, |base|) && i < |ps|
    ensures |ChunksOf(base, ps, lo)| == |ps|
    ensures InBase(base, ps[i]) && Tells(base, ps[i], ChunksOf(base, ps, lo)[i])
    decreases |ps|
  {
    TilesBounded(ps, lo, |base|);
    if i > 0 {
      ChunkTells(base, ps[1..], ps[0].hi, i - 1);
    } else if |ps| > 1 {
      ChunkTells(base, ps[1..], ps[0].hi, 0);
    }
  }

  /** Over a base with lines there is one chunk for each piece, and it tells what the sides did to that piece. */
  lemma ChunksTell(base: seq<Line>, ours: seq<Line>, theirs: seq<Line>)
    requires base != []
    ensures var ps, cs := PiecesOf(base, ours, theirs), MergeChunks(base, ours, theirs);
            |cs| == |ps| && forall i | 0 <= i < |ps| :: InBase(base, ps[i]) && Tells(base, ps[i], cs[i])
  {
    var ps := PiecesOf(base, ours, theirs);
    forall i | 0 <= i < |ps|
      ensures InBase(base, ps[i]) && |ChunksOf(base, ps, 0)| == |ps| && Tells(base, ps[i], ChunksOf(base, ps, 0)[i])
    {
      ChunkTells(base, ps, 0, i);
    }
  }

  /** With no base there is one chunk, which either side finds itself in, in conflict unless they agree. */
  lemma NoBaseTells(ours: seq<Line>, theirs: seq<Line>)
    ensures var cs, s := MergeChunks([], ours, theirs), MergeStats([], ours, theirs);
            && |cs| == 1 && OurReading(cs[0]) == ours && TheirReading(cs[0]) == theirs
            && (cs[0].Conflict? <==> ours != theirs) && (cs[0].Conflict? ==> cs[0].base == [])
            && (s.remaining == 0 <==> ours == theirs)
  {
  }

  // ----- counts -----

  function ContestedCount(ps: seq<Piece>): nat {
    if ps == [] then 0 else (if Contested(ps[0]) then 1 else 0) + ContestedCount(ps[1..])
  }

  lemma {:induction false} TotalCounts(base: seq<Line>, ps: seq<Piece>, lo: nat, s: Stats)
    requires Tiles(ps, lo, |base|)
    ensures TallyAll(s, base, ps, lo).total == s.total + ContestedCount(ps)
    decreases |ps|
  {
    if ps != [] {
      TilesBounded(ps, lo, |base|);
      TotalCounts(base, ps[1..], ps[0].hi, Tally(s, base, ps[0]));
    }
  }

  lemma {:induction false} NoConflictCounted(cs: seq<Chunk>)
    ensures ConflictCount(cs) == 0 <==> AllPlain(cs)
    decreases |cs|
  {
    if cs != [] {
      NoConflictCounted(cs[1..]);
      if AllPlain(cs) {
        assert forall i | 0 <= i < |cs[1..]| :: cs[1..][i] == cs[i + 1];
      }
      if AllPlain(cs[1..]) && cs[0].Plain? {
        assert forall i | 0 < i < |cs| :: cs[i] == cs[1..][i - 1];
      }
    }
  }

  /**
   The total is the number of pieces both sides changed, and nothing remains in conflict exactly
   when both sides made the same lines of each of them.
   */
  lemma StatsTell(base: seq<Line>, ours: seq<Line>, theirs: seq<Line>)
    requires base != []
    ensures var ps, s := PiecesOf(base, ours, theirs), MergeStats(base, ours, theirs);
            && (forall p | p in ps :: InBase(base, p)) && s.total == ContestedCount(ps)
            && (s.remaining == 0 <==> forall p | p in ps && Contested(p) :: OurView(base, p) == TheirView(base, p))
  {
    var ps, cs := PiecesOf(base, ours, theirs), MergeChunks(base, ours, theirs);
    ChunksTell(base, ours, theirs);
    TotalCounts(base, ps, 0, Stats(0, 0, 0));
    StatsAddUp(base, ours, theirs);
    NoConflictCounted(cs);
    forall p | p in ps ensures InBase(base, p) {
      var i :| 0 <= i < |ps| && ps[i] == p;
    }
    forall i | 0 <= i < |ps| ensures ps[i] in ps && (cs[i].Conflict? <==> Diverges(base, ps[i])) {
      assert Tells(base, ps[i], cs[i]);
    }
  }

  // ----- the pieces themselves -----

  ghost function OurBlocks(ps: seq<Piece>): seq<Block> {
    if ps == [] then [] else (if ps[0].Region? then ps[0].ours else []) + OurBlocks(ps[1..])
  }

  ghost function TheirBlocks(ps: seq<Piece>): seq<Block> {
    if ps == [] then [] else (if ps[0].Region? then ps[0].theirs else []) + TheirBlocks(ps[1..])
  }

  /** A region cannot end earlier without splitting one of its blocks, and starts where a block does. */
  ghost predicate Least(p: Piece) {
    p.Region? ==>
      && (forall r: nat | p.lo <= r && CutIsSafe(p.ours, 0, p.lo, r) && CutIsSafe(p.theirs, 0, p.lo, r) :: p.hi <= r)
      && ((p.ours != [] && p.ours[0].start == p.lo) || (p.theirs != [] && p.theirs[0].start == p.lo))
  }

  lemma CutOfSlice(bs: seq<Block>, n: nat, from: nat, till: nat, rs: nat, re: nat, r: nat)
    requires Sorted(bs, n) && from <= till <= |bs| && rs <= r < re && CutIsSafe(bs[from..till], 0, rs, r)
    requires till < |bs| ==> !Joins(bs[till], rs, re)
    ensures CutIsSafe(bs, from, rs, r)
  {
    forall k | from <= k < |bs| && Joins(bs[k], rs, r) ensures bs[k].end <= r {
      if k < till { assert bs[from..till][k - from] == bs[k]; }
    }
  }

  lemma RegionIsLeast(ob: seq<Block>, tb: seq<Block>, n: nat, oi: nat, ti: nat, pos: nat, next: nat, r: Growth)
    requires Ready(ob, tb, n, oi, ti, pos) && (oi < |ob| || ti < |tb|)
    requires next == Min(NextStart(ob, oi, n), NextStart(tb, ti, n)) && r == RegionAt(ob, tb, n, oi, ti)
    requires oi <= r.oi <= |ob| && ti <= r.ti <= |tb|
    ensures Least(Region(next, r.re, ob[oi..r.oi], tb[ti..r.ti]))
  {
    GrowGrows(ob, tb, next, Growth(oi, ti, next), n);
    forall c: nat | next <= c < r.re
      ensures !(CutIsSafe(ob[oi..r.oi], 0, next, c) && CutIsSafe(tb[ti..r.ti], 0, next, c))
    {
      if CutIsSafe(ob[oi..r.oi], 0, next, c) && CutIsSafe(tb[ti..r.ti], 0, next, c) {
        CutOfSlice(ob, n, oi, r.oi, next, r.re, c);
        CutOfSlice(tb, n, ti, r.ti, next, r.re, c);
        GrowIsLeast(ob, tb, next, Growth(oi, ti, next), c);
      }
    }
  }

  /** All regions are as small as can be, and share out these blocks. */
  ghost predicate SharesOut(ps: seq<Piece>, ours: seq<Block>, theirs: seq<Block>) {
    (forall p | p in ps :: Least(p)) && OurBlocks(ps) == ours && TheirBlocks(ps) == theirs
  }

  ghost predicate SharesOutAs(ps: seq<Piece>, ours: seq<Block>, theirs: seq<Block>) {
    forall x | x == ps :: SharesOut(x, ours, theirs)
  }

  lemma SharesRound(p: Piece, q: Piece, rest: seq<Piece>, ours: seq<Block>, theirs: seq<Block>)
    requires p.Context? && q.Region? && Least(q) && SharesOutAs(rest, ours, theirs)
    ensures SharesOutAs([p, q] + rest, q.ours + ours, q.theirs + theirs)
  {
    var ps := [p, q] + rest;
    assert SharesOut(rest, ours, theirs);
    assert ps[1..] == [q] + rest && ps[1..][1..] == rest;
    assert SharesOut(ps, q.ours + ours, q.theirs + theirs);
  }

  lemma RoundIsLeast(ob: seq<Block>, tb: seq<Block>, n: nat, oi: nat, ti: nat, pos: nat, r: Growth, rest: seq<Piece>)
    requires Ready(ob, tb, n, oi, ti, pos) && (oi < |ob| || ti < |tb|) && r == RegionAt(ob, tb, n, oi, ti)
    requires oi <= r.oi <= |ob| && ti <= r.ti <= |tb| && Ready(ob, tb, n, r.oi, r.ti, r.re)
    requires rest == Walk(ob, tb, n, r.oi, r.ti, r.re) && SharesOutAs(rest, ob[r.oi..], tb[r.ti..])
    ensures SharesOutAs(Walk(ob, tb, n, oi, ti, pos), ob[oi..], tb[ti..])
  {
    var next := Min(NextStart(ob, oi, n), NextStart(tb, ti, n));
    WalkRound(ob, tb, n, oi, ti, pos, next, r);
    RegionIsLeast(ob, tb, n, oi, ti, pos, next, r);
    SharesRound(Context(pos, next), Region(next, r.re, ob[oi..r.oi], tb[ti..r.ti]), rest, ob[r.oi..], tb[r.ti..]);
    assert ob[oi..r.oi] + ob[r.oi..] == ob[oi..] && tb[ti..r.ti] + tb[r.ti..] == tb[ti..];
  }

  lemma LastIsLeast(p: Piece)
    requires p.Context?
    ensures SharesOutAs([p], [], [])
  {
    assert [p][1..] == [];
    assert SharesOut([p], [], []);
  }

  lemma {:induction false} WalkIsLeast(ob: seq<Block>, tb: seq<Block>, n: nat, oi: nat, ti: nat, pos: nat)
    requires Ready(ob, tb, n, oi, ti, pos)
    ensures SharesOutAs(Walk(ob, tb, n, oi, ti, pos), ob[oi..], tb[ti..])
    decreases |ob| - oi + |tb| - ti
  {
    if oi < |ob| || ti < |tb| {
      var r := RegionAt(ob, tb, n, oi, ti);
      RegionReady(ob, tb, n, oi, ti, pos);
      WalkIsLeast(ob, tb, n, r.oi, r.ti, r.re);
      RoundIsLeast(ob, tb, n, oi, ti, pos, r, Walk(ob, tb, n, r.oi, r.ti, r.re));
    } else {
      assert ob[oi..] == [] && tb[ti..] == [];
      LastIsLeast(Context(pos, n));
    }
  }

  /** The regions share out all blocks of both sides in order, and each of them is as small as can be. */
  lemma PiecesAreLeast(base: seq<Line>, ours: seq<Line>, theirs: seq<Line>)
    ensures var ps := PiecesOf(base, ours, theirs);
            && (forall p | p in ps :: Least(p))
            && OurBlocks(ps) == BlocksOf(base, ours) && TheirBlocks(ps) == BlocksOf(base, theirs)
  {
    BlocksReady(base, ours, theirs);
    var ob, tb := BlocksOf(base, ours), BlocksOf(base, theirs);
    WalkIsLeast(ob, tb, |base|, 0, 0, 0);
    assert ob[0..] == ob && tb[0..] == tb;
    assert SharesOut(PiecesOf(base, ours, theirs), ob, tb);
  }
}
