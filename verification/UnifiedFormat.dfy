/** The loops that write a unified diff. */
module UnifiedFormat {

  import opened Edits
  import opened Blocks
  import opened ChangeBlocks
  import opened Unified
  import opened HunkShape
  import Text

  method GroupBlocks(blocks: seq<Block>) returns (hunks: seq<seq<Block>>)
    ensures hunks == GroupsOf(blocks)
  {
    hunks := [];
    var cur: seq<Block> := [];
    var k := 0;
    ghost var groups: seq<seq<Block>> := [];
    while k < |blocks|
      invariant 0 <= k <= |blocks| && groups == GroupsOf(blocks[..k])
      invariant k > 0 ==> cur != []
      invariant groups == if cur == [] then hunks else hunks + [cur]
      invariant cur == [] ==> hunks == []
    {
      var blk := blocks[k];
      GroupsSnoc(blocks, k);
      if cur != [] {
        SnocParts(hunks, cur);
        if blk.start - Last(cur).end > 2 * CONTEXT {
          hunks := hunks + [cur];
          cur := [];
        }
      }
      groups := Gather(groups, blk);
      assert [] + [blk] == [blk];
      cur := cur + [blk];
      k := k + 1;
    }
    assert blocks[..k] == blocks;
    if cur != [] {
      hunks := hunks + [cur];
    }
  }

  lemma GroupsSnoc(blocks: seq<Block>, k: nat)
    requires k < |blocks|
    ensures GroupsOf(blocks[..k + 1]) == Gather(GroupsOf(blocks[..k]), blocks[k])
  {
    PrefixSnoc(blocks, k);
  }

  lemma PrefixSnoc<T>(s: seq<T>, k: nat)
    requires k < |s|
    ensures s[..k + 1] != [] && Front(s[..k + 1]) == s[..k] && Last(s[..k + 1]) == s[k]
  {
  }

  /** The b-line a hunk starts at: the a-line moved by every block that starts before the hunk's first. */
  method StartInB(aStart: nat, blocks: seq<Block>, first: nat, ghost before: seq<Block>, ghost rest: seq<Block>)
    returns (bStart: int)
    requires blocks == before + rest
    requires forall b | b in before :: b.start < first
    requires forall b | b in rest :: b.start >= first
    ensures bStart == aStart + Delta(before)
  {
    bStart := aStart;
    var k := 0;
    while k < |blocks|
      invariant 0 <= k <= |blocks|
      invariant bStart == aStart + Delta(before[..if k < |before| then k else |before|])
    {
      var blk := blocks[k];
      if k < |before| {
        assert blk == before[k];
        PrefixSnoc(before, k);
      } else {
        assert blk == rest[k - |before|];
        assert before[..|before|] == before;
      }
      if blk.start < first {
        bStart := bStart + |blk.repl| - (blk.end - blk.start);
      }
      k := k + 1;
    }
    assert before[..|before|] == before;
  }

  method AppendMarked(body: seq<BodyLine>, kind: Kind, lines: seq<Line>) returns (longer: seq<BodyLine>)
    ensures longer == body + Marked(kind, lines)
  {
    longer := body;
    var k := 0;
    while k < |lines|
      invariant 0 <= k <= |lines|
      invariant longer == body + Marked(kind, lines[..k])
    {
      assert lines[..k + 1] == lines[..k] + [lines[k]];
      MarkedSnoc(kind, lines[..k], lines[k]);
      longer := longer + [BodyLine(kind, lines[k])];
      k := k + 1;
    }
    assert lines[..k] == lines;
  }

  lemma {:induction false} OrderedAt(blocks: seq<Block>, lo: int, hi: int, k: nat)
    requires Ordered(blocks, lo, hi) && k < |blocks|
    ensures lo <= blocks[k].start <= blocks[k].end <= hi && Ordered(blocks[..k], lo, blocks[k].start)
    ensures k + 1 < |blocks| ==> blocks[k].end <= blocks[k + 1].start
    decreases |blocks|
  {
    var front, n := Front(blocks), |blocks| - 1;
    if k == n {
      OrderedRange(front, lo, blocks[n].start);
    } else {
      OrderedAt(front, lo, blocks[n].start, k);
      assert front[..k] == blocks[..k];
    }
  }

  /** The body and counts so far, up to line pos of a. */
  ghost predicate Shows(a: seq<Line>, done: seq<Block>, lo: nat, pos: nat, body: seq<BodyLine>, aCount: nat,
                        bCount: nat) {
    forall x | x == done :: ShowsAs(a, x, lo, pos, body, aCount, bCount)
  }

  ghost predicate ShowsAs(a: seq<Line>, done: seq<Block>, lo: nat, pos: nat, body: seq<BodyLine>, aCount: nat,
                          bCount: nat) {
    && pos <= |a| && Ordered(done, lo, pos) && body == Body(a, done, lo, pos)
    && aCount == |Lines(body, Old)| && bCount == |Lines(body, New)|
  }

  lemma ShowNothing(a: seq<Line>, lo: nat)
    requires lo <= |a|
    ensures Shows(a, [], lo, lo, [], 0, 0)
  {
    assert ShowsAs(a, [], lo, lo, [], 0, 0);
  }

  lemma ShowChange(a: seq<Line>, done: seq<Block>, b: Block, lo: nat, body: seq<BodyLine>, aCount: nat, bCount: nat)
    requires Shows(a, done, lo, b.start, body, aCount, bCount) && b.start <= b.end <= |a|
    ensures Shows(a, done + [b], lo, b.end, body + Marked(Removed, a[b.start..b.end]) + Marked(Added, b.repl),
                  aCount + (b.end - b.start), bCount + |b.repl|)
  {
    assert ShowsAs(a, done, lo, b.start, body, aCount, bCount);
    SnocParts(done, b);
    OrderedRange(done, lo, b.start);
    var rs, ins := Marked(Removed, a[b.start..b.end]), Marked(Added, b.repl);
    assert Change(a, b, b.end) == rs + ins;
    assert body + (rs + ins) == body + rs + ins;
    ChangeLines(a, b, b.end);
    LinesConcat(body, rs + ins, Old);
    LinesConcat(body, rs + ins, New);
    assert ShowsAs(a, done + [b], lo, b.end, body + rs + ins, aCount + (b.end - b.start), bCount + |b.repl|);
  }

  lemma ShowContext(a: seq<Line>, done: seq<Block>, lo: nat, pos: nat, body: seq<BodyLine>, aCount: nat, bCount: nat)
    requires Shows(a, done, lo, pos, body, aCount, bCount) && lo <= pos < |a|
    ensures Shows(a, done, lo, pos + 1, body + [BodyLine(Context, a[pos])], aCount + 1, bCount + 1)
  {
    assert ShowsAs(a, done, lo, pos, body, aCount, bCount);
    var l := BodyLine(Context, a[pos]);
    OrderedWider(done, lo, pos, lo, pos + 1);
    BodyExtend(a, done, lo, pos);
    LinesSnoc(body, l, Old);
    LinesSnoc(body, l, New);
    assert ShowsAs(a, done, lo, pos + 1, body + [l], aCount + 1, bCount + 1);
  }

  lemma BodyExtend(a: seq<Line>, done: seq<Block>, lo: nat, pos: nat)
    requires lo <= pos < |a| && Ordered(done, lo, pos) && Ordered(done, lo, pos + 1)
    ensures Body(a, done, lo, pos + 1) == Body(a, done, lo, pos) + [BodyLine(Context, a[pos])]
  {
    if done == [] {
      assert a[lo..pos + 1] == a[lo..pos] + [a[pos]];
      MarkedSnoc(Context, a[lo..pos], a[pos]);
    } else {
      ChangeExtend(a, Last(done), pos);
    }
  }

  lemma ChangeExtend(a: seq<Line>, b: Block, pos: nat)
    requires b.start <= b.end <= pos < |a|
    ensures Change(a, b, pos + 1) == Change(a, b, pos) + [BodyLine(Context, a[pos])]
  {
    assert a[b.end..pos + 1] == a[b.end..pos] + [a[pos]];
    MarkedSnoc(Context, a[b.end..pos], a[pos]);
  }

  ghost predicate InRange(hb: seq<Block>, lo: nat, hi: nat) {
    forall x | x == hb :: Ordered(x, lo, hi)
  }

  lemma NextBlock(hb: seq<Block>, lo: nat, hi: nat, k: nat)
    requires InRange(hb, lo, hi)
    ensures lo <= hi
    ensures k < |hb| ==> lo <= hb[k].start <= hb[k].end <= hi
    ensures k + 1 < |hb| ==> hb[k].end <= hb[k + 1].start
  {
    assert Ordered(hb, lo, hi);
    OrderedRange(hb, lo, hi);
    if k < |hb| { OrderedAt(hb, lo, hi, k); }
  }

  lemma ShowsAll(a: seq<Line>, hb: seq<Block>, lo: nat, hi: nat, done: seq<Block>, body: seq<BodyLine>, aCount: nat,
                 bCount: nat)
    requires hi <= |a| && Shows(a, done, lo, hi, body, aCount, bCount) && done == hb && Ordered(hb, lo, hi)
    ensures body == Body(a, hb, lo, hi) && aCount == |Lines(body, Old)| && bCount == |Lines(body, New)|
  {
    assert ShowsAs(a, hb, lo, hi, body, aCount, bCount);
  }

  /** The body of a hunk, line by line, with the lines counted on either side. */
  method HunkBody(a: seq<Line>, hb: seq<Block>, aStart: nat, aEnd: nat)
    returns (body: seq<BodyLine>, aCount: nat, bCount: nat)
    requires aEnd <= |a| && InRange(hb, aStart, aEnd)
    ensures Shows(a, hb, aStart, aEnd, body, aCount, bCount)
  {
    body, aCount, bCount := [], 0, 0;
    var pos, hbi := aStart, 0;
    ghost var done: seq<Block> := [];
    NextBlock(hb, aStart, aEnd, 0);
    ShowNothing(a, aStart);
    while pos < aEnd || hbi < |hb|
      invariant aStart <= pos <= aEnd && 0 <= hbi <= |hb| && done == hb[..hbi]
      invariant Shows(a, done, aStart, pos, body, aCount, bCount)
      invariant hbi < |hb| ==> pos <= hb[hbi].start
      decreases aEnd - pos, |hb| - hbi
    {
      NextBlock(hb, aStart, aEnd, hbi);
      if hbi < |hb| && hb[hbi].start == pos {
        var blk := hb[hbi];
        ShowChange(a, done, blk, aStart, body, aCount, bCount);
        body := AppendMarked(body, Removed, a[blk.start..blk.end]);
        body := AppendMarked(body, Added, blk.repl);
        aCount := aCount + (blk.end - blk.start);
        bCount := bCount + |blk.repl|;
        pos := blk.end;
        hbi := hbi + 1;
        done := done + [blk];
      } else {
        if pos >= aEnd {
          break;
        }
        ShowContext(a, done, aStart, pos, body, aCount, bCount);
        body := body + [BodyLine(Context, a[pos])];
        aCount, bCount, pos := aCount + 1, bCount + 1, pos + 1;
      }
    }
    assert done == hb;
  }

  lemma {:induction false} StartsAscend(blocks: seq<Block>, lo: int, hi: int, i: nat, j: nat)
    requires Ordered(blocks, lo, hi) && Separated(blocks) && i < j < |blocks|
    ensures blocks[i].start < blocks[j].start
    decreases |blocks|
  {
    var front, n := Front(blocks), |blocks| - 1;
    if j < n {
      StartsAscend(front, lo, blocks[n].start, i, j);
    } else {
      OrderedAt(front, lo, blocks[n].start, n - 1);
      if i < n - 1 { StartsAscend(front, lo, blocks[n].start, i, n - 1); }
    }
  }

  ghost predicate Ascending(blocks: seq<Block>) {
    forall i, j | 0 <= i < j < |blocks| :: blocks[i].start < blocks[j].start
  }

  lemma GoodAscends(blocks: seq<Block>, hi: nat)
    requires Good(blocks, hi)
    ensures Ascending(blocks)
  {
    forall i, j | 0 <= i < j < |blocks| ensures blocks[i].start < blocks[j].start {
      StartsAscend(blocks, 0, hi, i, j);
    }
  }

  /** Only the blocks of earlier hunks start before a hunk's first block. */
  lemma StartsApart(before: seq<Block>, rest: seq<Block>)
    requires Ascending(before + rest) && rest != []
    ensures forall b | b in before :: b.start < rest[0].start
    ensures forall b | b in rest :: b.start >= rest[0].start
  {
    var all, n := before + rest, |before|;
    assert all[n] == rest[0];
    forall b | b in before ensures b.start < rest[0].start {
      var i :| 0 <= i < n && before[i] == b;
      assert all[i] == b;
    }
    forall b | b in rest ensures b.start >= rest[0].start {
      var i :| 0 <= i < |rest| && rest[i] == b;
      assert all[n + i] == b;
    }
  }

  /** Neighbouring blocks in order inside a. */
  ghost predicate Fits(a: seq<Line>, hb: seq<Block>) {
    forall x | x == hb :: FitsAs(a, x)
  }

  ghost predicate FitsAs(a: seq<Line>, hb: seq<Block>) {
    hb != [] && Ordered(hb, hb[0].start, |a|)
  }

  /** h is the hunk for hb after the blocks before. */
  ghost predicate IsHunk(a: seq<Line>, before: seq<Block>, hb: seq<Block>, h: Hunk) {
    forall x | x == h :: IsHunkAs(a, before, hb, x)
  }

  ghost predicate IsHunkAs(a: seq<Line>, before: seq<Block>, hb: seq<Block>, h: Hunk) {
    GroupOk(a, hb) && To(a, hb) <= |a| && h == HunkOf(a, before, hb)
  }

  lemma HunkIs(a: seq<Line>, before: seq<Block>, hb: seq<Block>, body: seq<BodyLine>, aCount: nat, bCount: nat,
               bStart: int)
    requires Fits(a, hb) && hb != [] && Shows(a, hb, From(hb), To(a, hb), body, aCount, bCount)
    requires bStart == From(hb) + Delta(before)
    ensures IsHunk(a, before, hb, Hunk(Header(From(hb), aCount), aCount, Header(bStart, bCount), bCount, body))
  {
    assert FitsAs(a, hb);
    GroupIsOk(a, hb);
    ShowsAll(a, hb, From(hb), To(a, hb), hb, body, aCount, bCount);
    assert IsHunkAs(a, before, hb, Hunk(Header(From(hb), aCount), aCount, Header(bStart, bCount), bCount, body));
  }

  lemma HunkRange(a: seq<Line>, hb: seq<Block>)
    requires Fits(a, hb) && hb != []
    ensures To(a, hb) <= |a| && InRange(hb, From(hb), To(a, hb))
  {
    assert FitsAs(a, hb);
    GroupIsOk(a, hb);
  }

  method FormatHunk(a: seq<Line>, blocks: seq<Block>, hb: seq<Block>, ghost before: seq<Block>, ghost after: seq<Block>)
    returns (h: Hunk)
    requires blocks == before + (hb + after) && Ascending(blocks) && Fits(a, hb) && hb != []
    ensures IsHunk(a, before, hb, h)
  {
    StartsApart(before, hb + after);
    HunkRange(a, hb);
    var aStart := if hb[0].start > CONTEXT then hb[0].start - CONTEXT else 0;
    var aEnd := if Last(hb).end + CONTEXT < |a| then Last(hb).end + CONTEXT else |a|;
    var bStart := StartInB(aStart, blocks, hb[0].start, before, hb + after);
    var body, aCount, bCount := HunkBody(a, hb, aStart, aEnd);
    HunkIs(a, before, hb, body, aCount, bCount, bStart);
    h := Hunk(if aCount == 0 then aStart else aStart + 1, aCount, if bCount == 0 then bStart else bStart + 1, bCount,
      body);
  }

  lemma {:induction false} SpacedPart(a: seq<Line>, groups: seq<seq<Block>>, k: nat)
    requires Spaced(a, groups) && k <= |groups|
    ensures Spaced(a, groups[..k])
    decreases |groups|
  {
    if k == |groups| {
      assert groups[..k] == groups;
    } else {
      SpacedPart(a, Front(groups), k);
      assert Front(groups)[..k] == groups[..k];
    }
  }

  lemma {:induction false} FlatConcat(x: seq<seq<Block>>, y: seq<seq<Block>>)
    ensures Flat(x + y) == Flat(x) + Flat(y)
    decreases |y|
  {
    if y == [] {
      assert x + y == x;
    } else {
      FlatConcat(x, Front(y));
      assert x + y == (x + Front(y)) + [Last(y)];
      FlatSnoc(x + Front(y), Last(y));
    }
  }

  /** The hunks written for the first groups. */
  ghost predicate Written(a: seq<Line>, groups: seq<seq<Block>>, hunks: seq<Hunk>) {
    forall g | g == groups :: Spaced(a, g) && hunks == HunksOf(a, g)
  }

  lemma WriteOne(a: seq<Line>, front: seq<seq<Block>>, hb: seq<Block>, hunks: seq<Hunk>, h: Hunk)
    requires Spaced(a, front + [hb]) && Written(a, front, hunks) && IsHunk(a, Flat(front), hb, h)
    ensures Written(a, front + [hb], hunks + [h])
  {
    SnocParts(front, hb);
    assert IsHunkAs(a, Flat(front), hb, h);
    assert hunks == HunksOf(a, front);
    assert HunksOf(a, front + [hb]) == hunks + [h];
  }

  /** The k-th group, and the blocks around it. */
  lemma GroupHere(a: seq<Line>, groups: seq<seq<Block>>, blocks: seq<Block>, k: nat)
    requires GroupsHold(a, groups, blocks) && k < |groups|
    ensures groups[k] != [] && Fits(a, groups[k]) && Spaced(a, groups[..k] + [groups[k]])
    ensures blocks == Flat(groups[..k]) + (groups[k] + Flat(groups[k + 1..]))
  {
    assert GroupsHoldAs(a, groups, blocks);
    SpacedPart(a, groups, k + 1);
    assert groups[..k + 1] == groups[..k] + [groups[k]];
    SnocParts(groups[..k], groups[k]);
    assert FitsAs(a, groups[k]);
    FlatAround(groups, k);
  }

  lemma FlatAround(groups: seq<seq<Block>>, k: nat)
    requires k < |groups|
    ensures Flat(groups) == Flat(groups[..k]) + (groups[k] + Flat(groups[k + 1..]))
  {
    var x, g, y := groups[..k], groups[k], groups[k + 1..];
    Around(groups, k, x, g, y);
    FlatParts(x, g, y);
  }

  lemma Around<T>(s: seq<T>, k: nat, x: seq<T>, g: T, y: seq<T>)
    requires k < |s| && x == s[..k] && g == s[k] && y == s[k + 1..]
    ensures s == (x + [g]) + y
  {
  }

  lemma FlatParts(x: seq<seq<Block>>, g: seq<Block>, y: seq<seq<Block>>)
    ensures Flat((x + [g]) + y) == Flat(x) + (g + Flat(y))
  {
    FlatSnoc(x, g);
    FlatConcat(x + [g], y);
    Regroup(Flat(x), g, Flat(y));
  }

  lemma Regroup(x: seq<Block>, y: seq<Block>, z: seq<Block>)
    ensures x + y + z == x + (y + z)
  {
  }

  lemma NothingWritten(a: seq<Line>)
    ensures Written(a, [], [])
  {
    assert Spaced(a, []) && HunksOf(a, []) == [];
  }

  /** Writes the hunks of the groups one after the other. */
  method FormatHunks(a: seq<Line>, blocks: seq<Block>, groups: seq<seq<Block>>) returns (hunks: seq<Hunk>)
    requires GroupsHold(a, groups, blocks) && Ascending(blocks)
    ensures Written(a, groups, hunks)
  {
    hunks := [];
    var k := 0;
    NothingWritten(a);
    ghost var front: seq<seq<Block>> := [];
    while k < |groups|
      invariant 0 <= k <= |groups| && front == groups[..k] && Written(a, front, hunks)
    {
      var h := FormatNext(a, blocks, groups, k, front, hunks);
      hunks := hunks + [h];
      front := front + [groups[k]];
      k := k + 1;
    }
    assert front == groups;
  }

  method FormatNext(a: seq<Line>, blocks: seq<Block>, groups: seq<seq<Block>>, k: nat, ghost front: seq<seq<Block>>,
                    ghost hunks: seq<Hunk>)
    returns (h: Hunk)
    requires GroupsHold(a, groups, blocks) && Ascending(blocks) && k < |groups|
    requires front == groups[..k] && Written(a, front, hunks)
    ensures Written(a, front + [groups[k]], hunks + [h])
  {
    GroupHere(a, groups, blocks, k);
    h := FormatHunk(a, blocks, groups[k], Flat(front), Flat(groups[k + 1..]));
    WriteOne(a, front, groups[k], hunks, h);
  }

  datatype Diff = Nil | Diff(hunks: seq<Hunk>)

  /**
   The unified diff of two texts: nothing for equal texts; otherwise hunks that patch a into b, and
   show a line of a exactly when it is changed or within three lines of a change. They mark as few
   lines as any script could, the removed ones of a change before the added ones.
   */
  method FormatUnified(a: string, b: string) returns (diff: Diff)
    ensures diff.Nil? <==> a == b
    ensures diff.Diff? ==> Apply(Text.Lines(a), diff.hunks, |Text.Lines(a)|) == Patch(Text.Lines(b))
    ensures diff.Diff? ==> forall i: nat | i < |Text.Lines(a)| ::
      Shown(diff.hunks, i) <==> Near(BlocksOf(Text.Lines(a), Text.Lines(b)), i)
    ensures diff.Diff? ==> AllTidy(diff.hunks)
    ensures diff.Diff? ==> forall es | Shortest(es, Text.Lines(a), Text.Lines(b)) ::
      MarkedInAll(diff.hunks) == Cost(es)
  {
    var aLines := Text.SplitLines(a);
    var bLines := Text.SplitLines(b);
    var blocks := ChangeBlocks.ChangeBlocks(aLines, bLines);
    BlocksApply(aLines, bLines);
    NoBlocksIffEqual(aLines, bLines);
    Text.JoinLines(a);
    Text.JoinLines(b);
    if |blocks| == 0 {
      return Nil;
    }
    var groups := GroupBlocks(blocks);
    GroupsAreSpaced(aLines, blocks, |aLines|);
    GoodAscends(blocks, |aLines|);
    var hunks := FormatHunks(aLines, blocks, groups);
    assert GroupsHoldAs(aLines, groups, blocks);
    assert hunks == HunksOf(aLines, groups);
    GroupEnds(aLines, groups);
    HunksApply(aLines, groups, |aLines|);
    forall i: nat | i < |aLines| ensures Shown(hunks, i) <==> Near(blocks, i) {
      ContextIsExact(aLines, groups, i);
    }
    HunksCount(aLines, groups);
    HunksAreTidy(aLines, groups);
    diff := Diff(hunks);
  }

  lemma GroupEnds(a: seq<Line>, groups: seq<seq<Block>>)
    requires Spaced(a, groups)
    ensures groups != [] ==> Last(groups) != [] && To(a, Last(groups)) <= |a|
  {
    if groups != [] { GroupIsOk(a, Last(groups)); }
  }
}
