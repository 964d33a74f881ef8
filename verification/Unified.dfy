/** Unified diffs: change blocks gathered into hunks with three lines of context. */
module Unified {

  import opened Edits
  import opened Blocks
  import opened ChangeBlocks

  const CONTEXT: nat := 3

  /** The mark in front of a body line: ' ', '-' or '+'. */
  datatype Kind = Context | Removed | Added

  datatype BodyLine = BodyLine(kind: Kind, line: Line)

  /** The numbers of an "@@ -aLine,aCount +bLine,bCount @@" header and the body below it. */
  datatype Hunk = Hunk(aLine: nat, aCount: nat, bLine: int, bCount: nat, body: seq<BodyLine>)

  // ----- reading a hunk -----

  datatype Side = Old | New

  predicate IsOn(kind: Kind, side: Side) {
    kind.Context? || (kind.Removed? && side.Old?) || (kind.Added? && side.New?)
  }

  function LineOn(l: BodyLine, side: Side): seq<Line> {
    if IsOn(l.kind, side) then [l.line] else []
  }

  /** One side's lines of a body. */
  ghost function Lines(body: seq<BodyLine>, side: Side): seq<Line>
    decreases |body|
  {
    if body == [] then [] else Lines(Front(body), side) + LineOn(Last(body), side)
  }

  lemma LinesSnoc(body: seq<BodyLine>, l: BodyLine, side: Side)
    ensures Lines(body + [l], side) == Lines(body, side) + LineOn(l, side)
  {
    SnocParts(body, l);
  }

  lemma {:induction false} LinesConcat(x: seq<BodyLine>, y: seq<BodyLine>, side: Side)
    ensures Lines(x + y, side) == Lines(x, side) + Lines(y, side)
    decreases |y|
  {
    if y == [] {
      assert x + y == x;
    } else {
      var front, l := Front(y), Last(y);
      LinesConcat(x, front, side);
      assert x + y == (x + front) + [l];
      LinesSnoc(x + front, l, side);
    }
  }

  /** The first line of a range, counted from zero; an empty range is numbered by the line before it. */
  function Start(line: int, count: nat): int {
    if count == 0 then line else line - 1
  }

  datatype Patched = Rejected | Patch(lines: seq<Line>)

  /**
   A patch program reading the hunks against the first hi lines of a: it rejects a hunk that overlaps
   the one before, whose counts do not match its body, whose old lines are not found where the
   header says, or whose new lines do not come out where the header says.
   */
  ghost function Apply(a: seq<Line>, hunks: seq<Hunk>, hi: nat): Patched
    requires hi <= |a|
    decreases |hunks|
  {
    if hunks == [] then Patch(a[..hi])
    else
      var h := Last(hunks);
      var s := Start(h.aLine, h.aCount);
      if !(0 <= s <= s + h.aCount <= hi && Lines(h.body, Old) == a[s..s + h.aCount]) then Rejected
      else if |Lines(h.body, New)| != h.bCount then Rejected
      else
        var before := Apply(a, Front(hunks), s);
        if before.Patch? && |before.lines| == Start(h.bLine, h.bCount)
        then Patch(before.lines + Lines(h.body, New) + a[s + h.aCount..hi])
        else Rejected
  }

  // ----- writing a hunk -----

  function Marked(kind: Kind, lines: seq<Line>): seq<BodyLine> {
    seq(|lines|, i requires 0 <= i < |lines| => BodyLine(kind, lines[i]))
  }

  lemma MarkedSnoc(kind: Kind, front: seq<Line>, l: Line)
    ensures Marked(kind, front + [l]) == Marked(kind, front) + [BodyLine(kind, l)]
  {
  }

  lemma {:induction false} MarkedLines(kind: Kind, lines: seq<Line>, side: Side)
    ensures Lines(Marked(kind, lines), side) == if IsOn(kind, side) then lines else []
    decreases |lines|
  {
    if lines != [] {
      var front, l := Front(lines), Last(lines);
      assert lines == front + [l];
      MarkedLines(kind, front, side);
      MarkedSnoc(kind, front, l);
      LinesSnoc(Marked(kind, front), BodyLine(kind, l), side);
    }
  }

  /** A change and the unchanged lines after it. */
  ghost function Change(a: seq<Line>, b: Block, hi: nat): seq<BodyLine>
    requires b.start <= b.end <= hi <= |a|
  {
    Marked(Removed, a[b.start..b.end]) + Marked(Added, b.repl) + Marked(Context, a[b.end..hi])
  }

  lemma ChangeLines(a: seq<Line>, b: Block, hi: nat)
    requires b.start <= b.end <= hi <= |a|
    ensures Lines(Change(a, b, hi), Old) == a[b.start..hi]
    ensures Lines(Change(a, b, hi), New) == b.repl + a[b.end..hi]
  {
    ThreeParts(a[b.start..b.end], b.repl, a[b.end..hi], Old);
    ThreeParts(a[b.start..b.end], b.repl, a[b.end..hi], New);
    assert a[b.start..hi] == a[b.start..b.end] + a[b.end..hi];
  }

  lemma ThreeParts(removed: seq<Line>, added: seq<Line>, after: seq<Line>, side: Side)
    ensures Lines(Marked(Removed, removed) + Marked(Added, added) + Marked(Context, after), side)
      == (if side.Old? then removed else added) + after
  {
    TwoParts(Marked(Removed, removed), Marked(Added, added), Marked(Context, after), side);
    MarkedLines(Removed, removed, side);
    MarkedLines(Added, added, side);
    MarkedLines(Context, after, side);
  }

  lemma TwoParts(x: seq<BodyLine>, y: seq<BodyLine>, z: seq<BodyLine>, side: Side)
    ensures Lines(x + y + z, side) == Lines(x, side) + Lines(y, side) + Lines(z, side)
  {
    LinesConcat(x + y, z, side);
    LinesConcat(x, y, side);
  }

  /** The body showing a[lo..hi] with the blocks applied. */
  ghost function Body(a: seq<Line>, blocks: seq<Block>, lo: nat, hi: nat): seq<BodyLine>
    requires hi <= |a| && Ordered(blocks, lo, hi)
    decreases |blocks|
  {
    if blocks == [] then Marked(Context, a[lo..hi])
    else Body(a, Front(blocks), lo, Last(blocks).start) + Change(a, Last(blocks), hi)
  }

  /** The body's old lines are the range itself, its new lines the range after the change. */
  lemma {:induction false} BodyLines(a: seq<Line>, blocks: seq<Block>, lo: nat, hi: nat)
    requires hi <= |a| && Ordered(blocks, lo, hi)
    ensures Lines(Body(a, blocks, lo, hi), Old) == a[lo..hi]
    ensures Lines(Body(a, blocks, lo, hi), New) == View(a, blocks, lo, hi)
    decreases |blocks|
  {
    if blocks == [] {
      MarkedLines(Context, a[lo..hi], Old);
      MarkedLines(Context, a[lo..hi], New);
    } else {
      var b := Last(blocks);
      OrderedRange(Front(blocks), lo, b.start);
      BodyLines(a, Front(blocks), lo, b.start);
      ChangeLines(a, b, hi);
      BodySnoc(a, Body(a, Front(blocks), lo, b.start), Change(a, b, hi), View(a, Front(blocks), lo, b.start), b, lo,
        hi);
    }
  }

  lemma BodySnoc(a: seq<Line>, pre: seq<BodyLine>, change: seq<BodyLine>, view: seq<Line>, b: Block, lo: nat, hi: nat)
    requires lo <= b.start <= b.end <= hi <= |a|
    requires Lines(pre, Old) == a[lo..b.start] && Lines(pre, New) == view
    requires Lines(change, Old) == a[b.start..hi] && Lines(change, New) == b.repl + a[b.end..hi]
    ensures Lines(pre + change, Old) == a[lo..hi]
    ensures Lines(pre + change, New) == view + b.repl + a[b.end..hi]
  {
    LinesConcat(pre, change, Old);
    LinesConcat(pre, change, New);
    SliceJoin(a, lo, b.start, hi);
    Associative(view, b.repl, a[b.end..hi]);
  }

  lemma SliceJoin(a: seq<Line>, lo: nat, mid: nat, hi: nat)
    requires lo <= mid <= hi <= |a|
    ensures a[lo..mid] + a[mid..hi] == a[lo..hi]
  {
  }

  lemma Associative(x: seq<Line>, y: seq<Line>, z: seq<Line>)
    ensures x + (y + z) == x + y + z
  {
  }

  /** Lines gained by the blocks. */
  function Delta(blocks: seq<Block>): int
    decreases |blocks|
  {
    if blocks == [] then 0 else Delta(Front(blocks)) + |Last(blocks).repl| - (Last(blocks).end - Last(blocks).start)
  }

  lemma {:induction false} ViewLength(a: seq<Line>, blocks: seq<Block>, lo: nat, hi: nat)
    requires hi <= |a| && Ordered(blocks, lo, hi)
    ensures |View(a, blocks, lo, hi)| == hi - lo + Delta(blocks)
    decreases |blocks|
  {
    if blocks != [] {
      OrderedRange(Front(blocks), lo, Last(blocks).start);
      ViewLength(a, Front(blocks), lo, Last(blocks).start);
    }
  }

  function From(hb: seq<Block>): nat
    requires hb != []
  {
    if hb[0].start > CONTEXT then hb[0].start - CONTEXT else 0
  }

  function To(a: seq<Line>, hb: seq<Block>): nat
    requires hb != []
  {
    if Last(hb).end + CONTEXT < |a| then Last(hb).end + CONTEXT else |a|
  }

  /** A header number: counted from one, but an empty range is numbered one lower. */
  function Header(start: int, count: nat): int {
    if count == 0 then start else start + 1
  }

  ghost predicate GroupOk(a: seq<Line>, hb: seq<Block>) {
    hb != [] && Ordered(hb, From(hb), To(a, hb))
  }

  /** The hunk for neighbouring blocks hb when those before have been shown already. */
  ghost function HunkOf(a: seq<Line>, before: seq<Block>, hb: seq<Block>): Hunk
    requires GroupOk(a, hb)
  {
    var body := Body(a, hb, From(hb), To(a, hb));
    var aCount, bCount := |Lines(body, Old)|, |Lines(body, New)|;
    Hunk(Header(From(hb), aCount), aCount, Header(From(hb) + Delta(before), bCount), bCount, body)
  }

  // ----- gathering blocks -----

  /** The gap to the open group is small enough for the contexts to touch. */
  predicate Joins(groups: seq<seq<Block>>, b: Block) {
    groups != [] && Last(groups) != [] && b.start - Last(Last(groups)).end <= 2 * CONTEXT
  }

  function Gather(groups: seq<seq<Block>>, b: Block): seq<seq<Block>> {
    if Joins(groups, b) then Front(groups) + [Last(groups) + [b]] else groups + [[b]]
  }

  function GroupsOf(blocks: seq<Block>): seq<seq<Block>>
    decreases |blocks|
  {
    if blocks == [] then [] else Gather(GroupsOf(Front(blocks)), Last(blocks))
  }

  function Flat(groups: seq<seq<Block>>): seq<Block>
    decreases |groups|
  {
    if groups == [] then [] else Flat(Front(groups)) + Last(groups)
  }

  lemma FlatSnoc(groups: seq<seq<Block>>, g: seq<Block>)
    ensures Flat(groups + [g]) == Flat(groups) + g
  {
    SnocParts(groups, g);
  }

  /** Gaps inside a group are small. */
  ghost predicate Close(hb: seq<Block>)
    decreases |hb|
  {
    hb == [] || ((Front(hb) != [] ==> Last(hb).start - Last(Front(hb)).end <= 2 * CONTEXT) && Close(Front(hb)))
  }

  /** Every group is in order with small gaps inside and a large gap before it. */
  ghost predicate Spaced(a: seq<Line>, groups: seq<seq<Block>>)
    decreases |groups|
  {
    groups == [] ||
    var front, hb := Front(groups), Last(groups);
    && hb != [] && Ordered(hb, hb[0].start, |a|) && Close(hb)
    && (front != [] ==> Last(front) != [] && hb[0].start - Last(Last(front)).end > 2 * CONTEXT)
    && Spaced(a, front)
  }

  lemma {:induction false} OrderedWider(blocks: seq<Block>, lo: int, hi: int, lo': int, hi': int)
    requires Ordered(blocks, lo, hi) && lo' <= lo && hi <= hi'
    ensures Ordered(blocks, lo', hi')
    decreases |blocks|
  {
    if blocks != [] { OrderedWider(Front(blocks), lo, Last(blocks).start, lo', Last(blocks).start); }
  }

  /** An ordered run lies between its first start and its last end. */
  lemma {:induction false} OrderedEnds(blocks: seq<Block>, lo: int, hi: int)
    requires Ordered(blocks, lo, hi) && blocks != []
    ensures lo <= blocks[0].start && Ordered(blocks, blocks[0].start, Last(blocks).end)
    decreases |blocks|
  {
    var front := Front(blocks);
    if front != [] {
      OrderedEnds(front, lo, Last(blocks).start);
      OrderedWider(front, front[0].start, Last(front).end, front[0].start, Last(blocks).start);
    }
  }

  lemma GroupIsOk(a: seq<Line>, hb: seq<Block>)
    requires hb != [] && Ordered(hb, hb[0].start, |a|)
    ensures GroupOk(a, hb) && To(a, hb) <= |a| && Last(hb).end <= |a|
  {
    OrderedEnds(hb, hb[0].start, |a|);
    OrderedWider(hb, hb[0].start, Last(hb).end, From(hb), To(a, hb));
  }

  /** The groups hold exactly the blocks, in order and well apart. */
  ghost predicate GroupsHold(a: seq<Line>, groups: seq<seq<Block>>, blocks: seq<Block>) {
    forall g | g == groups :: GroupsHoldAs(a, g, blocks)
  }

  ghost predicate GroupsHoldAs(a: seq<Line>, groups: seq<seq<Block>>, blocks: seq<Block>) {
    && Spaced(a, groups) && Flat(groups) == blocks
    && (blocks != [] ==> groups != [])
    && (groups != [] ==> blocks != [] && Last(groups) != [] && Last(Last(groups)) == Last(blocks))
  }

  /** Groups come from good blocks. */
  lemma {:induction false} GroupsAreSpaced(a: seq<Line>, blocks: seq<Block>, hi: nat)
    requires Ordered(blocks, 0, hi) && hi <= |a|
    ensures GroupsHold(a, GroupsOf(blocks), blocks)
    decreases |blocks|
  {
    if blocks == [] {
      assert GroupsHoldAs(a, [], []);
    } else {
      var front, b := Front(blocks), Last(blocks);
      GroupsAreSpaced(a, front, b.start);
      if front != [] { OrderedLast(front, 0, b.start); }
      GatherHolds(a, GroupsOf(front), front, b);
      assert blocks == front + [b];
    }
  }

  lemma OrderedLast(blocks: seq<Block>, lo: int, hi: int)
    requires Ordered(blocks, lo, hi) && blocks != []
    ensures Last(blocks).end <= hi
  {
  }

  lemma GatherHolds(a: seq<Line>, groups: seq<seq<Block>>, blocks: seq<Block>, b: Block)
    requires GroupsHold(a, groups, blocks) && b.start <= b.end <= |a|
    requires blocks != [] ==> Last(blocks).end <= b.start
    ensures GroupsHold(a, Gather(groups, b), blocks + [b])
  {
    assert GroupsHoldAs(a, groups, blocks);
    SnocParts(blocks, b);
    if Joins(groups, b) {
      JoinHolds(a, Front(groups), Last(groups), blocks, b);
      assert groups == Front(groups) + [Last(groups)];
    } else {
      OpenHolds(a, groups, blocks, b);
    }
  }

  lemma JoinHolds(a: seq<Line>, front: seq<seq<Block>>, hb: seq<Block>, blocks: seq<Block>, b: Block)
    requires GroupsHoldAs(a, front + [hb], blocks) && hb != [] && b.start <= b.end <= |a|
    requires Last(hb).end <= b.start && b.start - Last(hb).end <= 2 * CONTEXT
    ensures GroupsHold(a, front + [hb + [b]], blocks + [b])
  {
    SnocParts(front, hb);
    FlatSnoc(front, hb);
    GrowGroup(a, hb, b);
    FlatSnoc(front, hb + [b]);
    SnocParts(front, hb + [b]);
    SnocParts(hb, b);
    SnocParts(blocks, b);
    assert Flat(front) + (hb + [b]) == blocks + [b];
    assert GroupsHoldAs(a, front + [hb + [b]], blocks + [b]);
  }

  lemma OpenHolds(a: seq<Line>, groups: seq<seq<Block>>, blocks: seq<Block>, b: Block)
    requires GroupsHoldAs(a, groups, blocks) && b.start <= b.end <= |a|
    requires groups != [] ==> Last(groups) != [] && b.start - Last(Last(groups)).end > 2 * CONTEXT
    ensures GroupsHold(a, groups + [[b]], blocks + [b])
  {
    FlatSnoc(groups, [b]);
    SnocParts(groups, [b]);
    SnocParts(blocks, b);
    SnocParts([], b);
    assert [] + [b] == [b];
    assert Front([b]) == [] && Last([b]) == b && Ordered([b], b.start, |a|) && Close([b]);
    assert Spaced(a, groups + [[b]]);
    assert Flat(groups + [[b]]) == blocks + [b];
    assert GroupsHoldAs(a, groups + [[b]], blocks + [b]);
  }

  lemma GrowGroup(a: seq<Line>, hb: seq<Block>, b: Block)
    requires hb != [] && Ordered(hb, hb[0].start, |a|) && Close(hb)
    requires Last(hb).end <= b.start <= b.end <= |a| && b.start - Last(hb).end <= 2 * CONTEXT
    ensures (hb + [b])[0] == hb[0] && Ordered(hb + [b], hb[0].start, |a|) && Close(hb + [b])
  {
    SnocParts(hb, b);
    OrderedEnds(hb, hb[0].start, |a|);
    OrderedWider(hb, hb[0].start, Last(hb).end, hb[0].start, b.start);
  }

  // ----- the hunks are a patch -----

  ghost function HunksOf(a: seq<Line>, groups: seq<seq<Block>>): seq<Hunk>
    requires Spaced(a, groups)
    decreases |groups|
  {
    if groups == [] then []
    else
      GroupIsOk(a, Last(groups));
      HunksOf(a, Front(groups)) + [HunkOf(a, Flat(Front(groups)), Last(groups))]
  }

  /** Applied up to any line not before the end of the last hunk, the hunks give what the blocks give. */
  lemma {:induction false} HunksApply(a: seq<Line>, groups: seq<seq<Block>>, hi: nat)
    requires Spaced(a, groups) && hi <= |a|
    requires groups != [] ==> Last(groups) != [] && To(a, Last(groups)) <= hi
    ensures Ordered(Flat(groups), 0, hi)
    ensures Apply(a, HunksOf(a, groups), hi) == Patch(View(a, Flat(groups), 0, hi))
    decreases |groups|
  {
    if groups != [] {
      var front, hb := Front(groups), Last(groups);
      GroupIsOk(a, hb);
      var lo, to, before := From(hb), To(a, hb), Flat(front);
      OrderedRange(hb, lo, to);
      HunksApply(a, front, lo);
      ViewLength(a, before, 0, lo);
      BodyLines(a, hb, lo, to);
      ViewSplit(a, before, hb, 0, lo, to);
      ViewExtend(a, before + hb, 0, to, hi);
      LastHunkApplies(a, HunksOf(a, front), HunkOf(a, before, hb), lo, to, hi, View(a, before, 0, lo));
    }
  }

  /** One more hunk on top of those that apply before it. */
  lemma LastHunkApplies(a: seq<Line>, hunks: seq<Hunk>, h: Hunk, lo: nat, to: nat, hi: nat, text: seq<Line>)
    requires lo <= to <= hi <= |a| && Apply(a, hunks, lo) == Patch(text)
    requires Lines(h.body, Old) == a[lo..to] && h.aCount == to - lo && h.bCount == |Lines(h.body, New)|
    requires h.aLine == Header(lo, h.aCount) && h.bLine == Header(|text|, h.bCount)
    ensures Apply(a, hunks + [h], hi) == Patch(text + Lines(h.body, New) + a[to..hi])
  {
    SnocParts(hunks, h);
    StartOfHeader(lo, h.aCount);
    StartOfHeader(|text|, h.bCount);
  }

  lemma StartOfHeader(start: int, count: nat)
    ensures Start(Header(start, count), count) == start
  {
  }

  // ----- what the hunks show -----

  /** Line i is changed, or within three lines of a change. */
  ghost predicate Near(blocks: seq<Block>, i: nat) {
    exists b :: b in blocks && b.start - CONTEXT <= i < b.end + CONTEXT
  }

  ghost predicate InHunk(h: Hunk, i: nat) {
    var s := Start(h.aLine, h.aCount);
    s <= i < s + h.aCount
  }

  ghost predicate Shown(hunks: seq<Hunk>, i: nat) {
    exists h :: h in hunks && InHunk(h, i)
  }

  /** The range of a group is made up of the lines near its blocks. */
  lemma {:induction false} GroupRange(a: seq<Line>, hb: seq<Block>, i: nat)
    requires hb != [] && Ordered(hb, hb[0].start, |a|) && Close(hb) && i < |a|
    ensures From(hb) <= i < To(a, hb) <==> Near(hb, i)
    decreases |hb|
  {
    var front, b := Front(hb), Last(hb);
    assert hb == front + [b];
    GroupIsOk(a, hb);
    if front == [] {
      assert hb == [b];
    } else {
      OrderedEnds(front, hb[0].start, b.start);
      OrderedWider(front, hb[0].start, b.start, hb[0].start, |a|);
      GroupRange(a, front, i);
      NearSnoc(front, b, i);
    }
  }

  lemma NearSnoc(front: seq<Block>, b: Block, i: nat)
    ensures Near(front + [b], i) <==> Near(front, i) || b.start - CONTEXT <= i < b.end + CONTEXT
  {
    if Near(front, i) {
      var x :| x in front && x.start - CONTEXT <= i < x.end + CONTEXT;
      assert x in front + [b];
    }
    if b.start - CONTEXT <= i < b.end + CONTEXT {
      assert b in front + [b];
    }
  }

  lemma NearConcat(x: seq<Block>, y: seq<Block>, i: nat)
    ensures Near(x + y, i) <==> Near(x, i) || Near(y, i)
  {
    if Near(x, i) {
      var b :| b in x && b.start - CONTEXT <= i < b.end + CONTEXT;
      assert b in x + y;
    }
    if Near(y, i) {
      var b :| b in y && b.start - CONTEXT <= i < b.end + CONTEXT;
      assert b in x + y;
    }
  }

  lemma ShownSnoc(hunks: seq<Hunk>, h: Hunk, i: nat)
    ensures Shown(hunks + [h], i) <==> Shown(hunks, i) || InHunk(h, i)
  {
    if Shown(hunks, i) {
      var x :| x in hunks && InHunk(x, i);
      assert x in hunks + [h];
    }
    if InHunk(h, i) {
      assert h in hunks + [h];
    }
  }

  /** A hunk covers the range of its group. */
  lemma HunkRange(a: seq<Line>, before: seq<Block>, hb: seq<Block>, i: nat)
    requires GroupOk(a, hb) && To(a, hb) <= |a|
    ensures InHunk(HunkOf(a, before, hb), i) <==> From(hb) <= i < To(a, hb)
  {
    OrderedRange(hb, From(hb), To(a, hb));
    BodyLines(a, hb, From(hb), To(a, hb));
  }

  /** The hunks show a line of a exactly when it is changed or within three lines of a change. */
  lemma {:induction false} ContextIsExact(a: seq<Line>, groups: seq<seq<Block>>, i: nat)
    requires Spaced(a, groups) && i < |a|
    ensures Shown(HunksOf(a, groups), i) <==> Near(Flat(groups), i)
    decreases |groups|
  {
    if groups != [] {
      var front, hb := Front(groups), Last(groups);
      GroupIsOk(a, hb);
      ContextIsExact(a, front, i);
      GroupRange(a, hb, i);
      HunkRange(a, Flat(front), hb, i);
      ShownSnoc(HunksOf(a, front), HunkOf(a, Flat(front), hb), i);
      NearConcat(Flat(front), hb, i);
    }
  }
}
