/** What the three-way merge guarantees, for all inputs. */
module MergeLaws {
  import opened Edits
  import opened Numbers
  import opened Text
  import opened Blocks
  import opened ChangeBlocks
  import opened Regions
  import opened Render
  import opened ThreeWay

  /** All lines of a merge when every conflict is settled for our side. */
  function ChooseOurs(chunks: seq<Chunk>): seq<Line> {
    if chunks == [] then []
    else (if chunks[0].Plain? then chunks[0].lines else chunks[0].ours) + ChooseOurs(chunks[1..])
  }

  function ChooseTheirs(chunks: seq<Chunk>): seq<Line> {
    if chunks == [] then []
    else (if chunks[0].Plain? then chunks[0].lines else chunks[0].theirs) + ChooseTheirs(chunks[1..])
  }

  function ConflictCount(chunks: seq<Chunk>): nat {
    if chunks == [] then 0 else (if chunks[0].Conflict? then 1 else 0) + ConflictCount(chunks[1..])
  }

  predicate AllPlain(chunks: seq<Chunk>) {
    forall i | 0 <= i < |chunks| :: chunks[i].Plain?
  }

  // ----- alignment -----

  /** The pieces tile the base and spell ours and theirs when read by the two sides. */
  lemma PiecesAlign(base: seq<Line>, ours: seq<Line>, theirs: seq<Line>)
    ensures Tiles(PiecesOf(base, ours, theirs), 0, |base|)
    ensures OursOf(base, PiecesOf(base, ours, theirs), 0) == ours
    ensures TheirsOf(base, PiecesOf(base, ours, theirs), 0) == theirs
  {
    var ob, tb := BlocksOf(base, ours), BlocksOf(base, theirs);
    BlocksReady(base, ours, theirs);
    WalkSpellsOurs(base, ob, tb, 0, 0, 0);
    WalkSpellsTheirs(base, ob, tb, 0, 0, 0);
    BlocksApply(base, ours);
    BlocksApply(base, theirs);
    assert ob[0..] == ob && tb[0..] == tb;
  }

  /** No region holds a change of our side. */
  ghost predicate OursUntouched(ps: seq<Piece>) {
    forall i | 0 <= i < |ps| :: ps[i].Region? ==> ps[i].ours == []
  }

  lemma {:induction false} WalkWithoutOurs(tb: seq<Block>, n: nat, ti: nat, pos: nat)
    requires Ready([], tb, n, 0, ti, pos)
    ensures OursUntouched(Walk([], tb, n, 0, ti, pos))
    decreases |tb| - ti
  {
    if ti < |tb| {
      var next, r := Min(NextStart([], 0, n), NextStart(tb, ti, n)), RegionAt([], tb, n, 0, ti);
      RegionReady([], tb, n, 0, ti, pos);
      WalkWithoutOurs(tb, n, r.ti, r.re);
    }
  }

  /** Where our side is untouched the merge reads what their side reads, and nothing is counted. */
  lemma {:induction false} UntouchedGivesTheirs(base: seq<Line>, ps: seq<Piece>, lo: nat, s: Stats)
    requires Tiles(ps, lo, |base|) && OursUntouched(ps)
    ensures var cs := ChunksOf(base, ps, lo);
            AllPlain(cs) && ChooseOurs(cs) == TheirsOf(base, ps, lo) && TallyAll(s, base, ps, lo) == s
    decreases |ps|
  {
    if ps != [] {
      TilesBounded(ps, lo, |base|);
      assert forall i | 0 <= i < |ps[1..]| :: ps[1..][i] == ps[i + 1];
      UntouchedGivesTheirs(base, ps[1..], ps[0].hi, Tally(s, base, ps[0]));
      assert ChunkOf(base, ps[0]) == Plain(TheirView(base, ps[0]));
    }
  }

  lemma WriteFirst(out: string, cs: seq<Chunk>, m: Marking, next: string)
    requires cs != [] && WriteChunk(out, cs[0], m) == next
    ensures WriteChunks(out, cs, m) == WriteChunks(next, cs[1..], m)
  {
  }

  lemma JoinFirst(out: string, ls: seq<Line>, rest: seq<Line>)
    ensures out + Join(ls) + Join(rest) == out + Join(ls + rest)
  {
    JoinConcat(ls, rest);
    assert out + Join(ls) + Join(rest) == out + (Join(ls) + Join(rest));
  }

  lemma PlainTail(chunks: seq<Chunk>)
    requires AllPlain(chunks) && chunks != []
    ensures chunks[0].Plain? && AllPlain(chunks[1..]) && ChooseOurs(chunks) == chunks[0].lines + ChooseOurs(chunks[1..])
  {
    assert forall i | 0 <= i < |chunks[1..]| :: chunks[1..][i] == chunks[i + 1];
  }

  lemma {:induction false} PlainText(out: string, chunks: seq<Chunk>, m: Marking, lines: seq<Line>)
    requires AllPlain(chunks) && lines == ChooseOurs(chunks)
    ensures WriteChunks(out, chunks, m) == out + Join(lines)
    decreases |chunks|
  {
    if chunks == [] {
      assert out + Join([]) == out;
    } else {
      PlainTail(chunks);
      var first, rest := chunks[0].lines, ChooseOurs(chunks[1..]);
      var next := out + Join(first);
      PlainText(next, chunks[1..], m, rest);
      WriteFirst(out, chunks, m, next);
      JoinFirst(out, first, rest);
    }
  }

  /**
   When our side equals a non-empty base, the merge is their side, byte for byte, with nothing
   counted, in every style.
   */
  lemma UnchangedOursGivesTheirs(base: string, theirs: string, m: Marking)
    requires base != ""
    ensures WriteChunks("", MergeChunks(Lines(base), Lines(base), Lines(theirs)), m) == theirs
    ensures MergeStats(Lines(base), Lines(base), Lines(theirs)) == Stats(0, 0, 0)
  {
    var b, t := Lines(base), Lines(theirs);
    JoinLines(base);
    assert b != [];
    NoBlocksIffEqual(b, b);
    BlocksReady(b, b, t);
    WalkWithoutOurs(BlocksOf(b, t), |b|, 0, 0);
    var ps := PiecesOf(b, b, t);
    PiecesAlign(b, b, t);
    UntouchedGivesTheirs(b, ps, 0, Stats(0, 0, 0));
    PlainText("", ChunksOf(b, ps, 0), m, ChooseOurs(ChunksOf(b, ps, 0)));
    JoinLines(theirs);
  }

  /**
   The law needs a base: with our side equal to the base, the merge is free of conflicts exactly
   when the base is not empty or their side is empty too.
   */
  lemma UnchangedOursExactly(base: string, theirs: string)
    ensures var b, t := Lines(base), Lines(theirs);
            (MergeStats(b, b, t).remaining == 0 <==> base != "" || theirs == "")
            && (AllPlain(MergeChunks(b, b, t)) <==> base != "" || theirs == "")
  {
    var b, t := Lines(base), Lines(theirs);
    JoinLines(base);
    JoinLines(theirs);
    if base != "" {
      UnchangedOursGivesTheirs(base, theirs, Marking("", "", Merge));
      OursFirstIsPlain(base, theirs);
    } else if theirs != "" {
      assert MergeChunks(b, b, t)[0].Conflict?;
    }
  }

  // ----- exchanging the sides -----

  function SwapChunk(c: Chunk): Chunk {
    match c
    case Plain(_) => c
    case Conflict(o, b, t) => Conflict(t, b, o)
  }

  function SwapChunks(cs: seq<Chunk>): seq<Chunk> {
    if cs == [] then [] else [SwapChunk(cs[0])] + SwapChunks(cs[1..])
  }

  lemma SwapOneChunk(base: seq<Line>, p: Piece, s: Stats)
    requires p.lo <= p.hi <= |base| && (p.Region? ==> Ordered(p.ours, p.lo, p.hi) && Ordered(p.theirs, p.lo, p.hi))
    requires p.Region? ==> p.ours != [] || p.theirs != []
    ensures ChunkOf(base, SwapPiece(p)) == SwapChunk(ChunkOf(base, p))
    ensures Tally(s, base, SwapPiece(p)) == Tally(s, base, p)
  {
  }

  lemma {:induction false} SwapAllChunks(base: seq<Line>, ps: seq<Piece>, lo: nat, s: Stats)
    requires Tiles(ps, lo, |base|)
    ensures Tiles(SwapPieces(ps), lo, |base|)
    ensures ChunksOf(base, SwapPieces(ps), lo) == SwapChunks(ChunksOf(base, ps, lo))
    ensures TallyAll(s, base, SwapPieces(ps), lo) == TallyAll(s, base, ps, lo)
    decreases |ps|
  {
    SwapTiles(base, ps, lo);
    if ps != [] {
      TilesBounded(ps, lo, |base|);
      SwapOneChunk(base, ps[0], s);
      SwapAllChunks(base, ps[1..], ps[0].hi, Tally(s, base, ps[0]));
      var swapped := SwapPieces(ps);
      assert swapped[1..] == SwapPieces(ps[1..]) && swapped[0] == SwapPiece(ps[0]);
      assert ChunksOf(base, ps, lo)[1..] == ChunksOf(base, ps[1..], ps[0].hi);
    }
  }

  /**
   Side independence: merging with the sides exchanged gives the same chunks with the two sides
   of every conflict exchanged, and the same counts.
   */
  lemma SideIndependence(base: seq<Line>, ours: seq<Line>, theirs: seq<Line>)
    ensures MergeChunks(base, theirs, ours) == SwapChunks(MergeChunks(base, ours, theirs))
    ensures MergeStats(base, theirs, ours) == MergeStats(base, ours, theirs)
  {
    if base == [] {
      assert SwapChunks([Plain(ours)]) == [Plain(ours)] + SwapChunks([]);
      assert SwapChunks([Conflict(ours, [], theirs)]) == [Conflict(theirs, [], ours)] + SwapChunks([]);
    } else {
      BlocksReady(base, ours, theirs);
      WalkSwap(BlocksOf(base, ours), BlocksOf(base, theirs), |base|, 0, 0, 0);
      SwapAllChunks(base, PiecesOf(base, ours, theirs), 0, Stats(0, 0, 0));
    }
  }

  /** In the text, the two marked versions of a conflict trade places; what is hoisted stays. */
  lemma SwappedLayout(c: Chunk, style: Style)
    requires c.Conflict?
    ensures var l := LayoutOf(c, style);
            LayoutOf(SwapChunk(c), style) == Layout(l.above, l.theirs, l.base, l.ours, l.below)
  {
    HoistedSwap(c.ours, c.base, c.theirs);
  }

  /** A conflict as it is written, with the two marked versions and their labels in each other's place. */
  ghost function ExchangedSections(c: Chunk, m: Marking): seq<seq<Line>>
    requires c.Conflict?
  {
    var l := LayoutOf(c, m.style);
    (if m.style == Zdiff3 then [l.above] else [])
    + ([[BeginLine(m.theirTag)] + l.theirs]
       + (if m.style != Merge then [[BASE_LINE] + l.base] else [])
       + [[SEP_LINE] + l.ours])
    + [[EndLine(m.ourTag)] + l.below]
  }

  ghost function WriteExchanged(out: string, chunks: seq<Chunk>, m: Marking): string
    decreases |chunks|
  {
    if chunks == [] then out
    else
      var c := chunks[0];
      WriteExchanged(if c.Plain? then out + Join(c.lines) else Sections(out, ExchangedSections(c, m)), chunks[1..], m)
  }

  lemma ExchangedConflict(c: Chunk, m: Marking)
    requires c.Conflict?
    ensures ConflictSections(SwapChunk(c), Marking(m.theirTag, m.ourTag, m.style)) == ExchangedSections(c, m)
  {
    SwappedLayout(c, m.style);
  }

  lemma {:induction false} WriteSwapped(out: string, cs: seq<Chunk>, m: Marking)
    ensures WriteChunks(out, SwapChunks(cs), Marking(m.theirTag, m.ourTag, m.style)) == WriteExchanged(out, cs, m)
    decreases |cs|
  {
    if cs != [] {
      var c, swapped := cs[0], SwapChunks(cs);
      assert swapped[0] == SwapChunk(c) && swapped[1..] == SwapChunks(cs[1..]);
      if c.Conflict? { ExchangedConflict(c, m); }
      WriteSwapped(if c.Plain? then out + Join(c.lines) else Sections(out, ExchangedSections(c, m)), cs[1..], m);
    }
  }

  /**
   Side independence in the text: merging with sides and labels exchanged writes the same text, but
   for the two marked versions of every conflict, which stand in each other's place.
   */
  lemma ExchangedText(base: string, ours: string, theirs: string, m: Marking)
    ensures var b, o, t := Lines(base), Lines(ours), Lines(theirs);
            WriteChunks("", MergeChunks(b, t, o), Marking(m.theirTag, m.ourTag, m.style))
            == WriteExchanged("", MergeChunks(b, o, t), m)
  {
    SideIndependence(Lines(base), Lines(ours), Lines(theirs));
    WriteSwapped("", MergeChunks(Lines(base), Lines(ours), Lines(theirs)), m);
  }

  /** When their side equals a non-empty base, the merge is our side. */
  lemma UnchangedTheirsGivesOurs(base: string, ours: string, m: Marking)
    requires base != ""
    ensures WriteChunks("", MergeChunks(Lines(base), Lines(ours), Lines(base)), m) == ours
    ensures MergeStats(Lines(base), Lines(ours), Lines(base)) == Stats(0, 0, 0)
  {
    var b, o := Lines(base), Lines(ours);
    UnchangedOursGivesTheirs(base, ours, m);
    SideIndependence(b, b, o);
    var cs := MergeChunks(b, b, o);
    OursFirstIsPlain(base, ours);
    SwapPlain(cs);
  }

  lemma OursFirstIsPlain(base: string, theirs: string)
    requires base != ""
    ensures AllPlain(MergeChunks(Lines(base), Lines(base), Lines(theirs)))
  {
    var b, t := Lines(base), Lines(theirs);
    JoinLines(base);
    NoBlocksIffEqual(b, b);
    BlocksReady(b, b, t);
    WalkWithoutOurs(BlocksOf(b, t), |b|, 0, 0);
    UntouchedGivesTheirs(b, PiecesOf(b, b, t), 0, Stats(0, 0, 0));
  }

  lemma {:induction false} SwapPlain(cs: seq<Chunk>)
    requires AllPlain(cs)
    ensures SwapChunks(cs) == cs
    decreases |cs|
  {
    if cs != [] {
      assert forall i | 0 <= i < |cs[1..]| :: cs[1..][i] == cs[i + 1];
      SwapPlain(cs[1..]);
    }
  }

  // ----- equal sides -----

  ghost predicate SameChanges(ps: seq<Piece>) {
    forall i | 0 <= i < |ps| :: ps[i].Region? ==> ps[i].ours == ps[i].theirs
  }

  lemma {:induction false} GrowTogether(bs: seq<Block>, rs: nat, g: Growth)
    requires g.oi == g.ti
    ensures Grow(bs, bs, rs, g).oi == Grow(bs, bs, rs, g).ti
    decreases Left(bs, g.oi)
  {
    if g.oi < |bs| && Joins(bs[g.oi], rs, g.re) {
      var g' := TakeOurs(bs, g);
      assert Joins(bs[g'.ti], rs, g'.re);
      TheirsFirst(bs, bs, rs, g');
      GrowTogether(bs, rs, TakeTheirs(bs, g'));
    }
  }

  lemma {:induction false} WalkTogether(bs: seq<Block>, n: nat, i: nat, pos: nat)
    requires Ready(bs, bs, n, i, i, pos)
    ensures SameChanges(Walk(bs, bs, n, i, i, pos))
    decreases |bs| - i
  {
    if i < |bs| {
      var next, r := Min(NextStart(bs, i, n), NextStart(bs, i, n)), RegionAt(bs, bs, n, i, i);
      RegionReady(bs, bs, n, i, i, pos);
      GrowTogether(bs, next, Growth(i, i, next));
      WalkTogether(bs, n, r.oi, r.re);
    }
  }

  lemma {:induction false} SameChangesSettle(base: seq<Line>, ps: seq<Piece>, lo: nat)
    requires Tiles(ps, lo, |base|) && SameChanges(ps)
    ensures var cs := ChunksOf(base, ps, lo); AllPlain(cs) && ChooseOurs(cs) == OursOf(base, ps, lo)
    decreases |ps|
  {
    if ps != [] {
      TilesBounded(ps, lo, |base|);
      assert forall i | 0 <= i < |ps[1..]| :: ps[1..][i] == ps[i + 1];
      SameChangesSettle(base, ps[1..], ps[0].hi);
      assert ChunkOf(base, ps[0]) == Plain(OurView(base, ps[0]));
    }
  }

  /** Two equal sides merge to that side, byte for byte, over any base and in every style. */
  lemma EqualSidesGiveThatSide(base: string, side: string, m: Marking)
    ensures WriteChunks("", MergeChunks(Lines(base), Lines(side), Lines(side)), m) == side
  {
    var b, s := Lines(base), Lines(side);
    JoinLines(side);
    if b == [] {
      assert [Plain(s)][1..] == [];
    } else {
      var bs := BlocksOf(b, s);
      BlocksReady(b, s, s);
      WalkTogether(bs, |b|, 0, 0);
      PiecesAlign(b, s, s);
      SameChangesSettle(b, PiecesOf(b, s, s), 0);
      PlainText("", ChunksOf(b, PiecesOf(b, s, s), 0), m, s);
    }
  }

  // ----- counts -----

  lemma {:induction false} TallyCounts(base: seq<Line>, ps: seq<Piece>, lo: nat, s: Stats)
    requires Tiles(ps, lo, |base|)
    ensures var t := TallyAll(s, base, ps, lo);
            && t.remaining == s.remaining + ConflictCount(ChunksOf(base, ps, lo))
            && t.total - s.total == (t.resolved - s.resolved) + (t.remaining - s.remaining)
    decreases |ps|
  {
    if ps != [] {
      TilesBounded(ps, lo, |base|);
      TallyCounts(base, ps[1..], ps[0].hi, Tally(s, base, ps[0]));
      assert ChunksOf(base, ps, lo)[1..] == ChunksOf(base, ps[1..], ps[0].hi);
    }
  }

  /** Remaining counts the conflicts written, and every contested region is resolved or remains. */
  lemma StatsAddUp(base: seq<Line>, ours: seq<Line>, theirs: seq<Line>)
    ensures var s := MergeStats(base, ours, theirs);
            s.remaining == ConflictCount(MergeChunks(base, ours, theirs)) && s.total == s.resolved + s.remaining
  {
    if base != [] {
      TallyCounts(base, PiecesOf(base, ours, theirs), 0, Stats(0, 0, 0));
    }
  }
}
