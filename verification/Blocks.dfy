/** Change blocks: the edits of one side as replacements of ranges of base lines. */
module Blocks {
  import opened Edits

  /** base[start..end] becomes repl; an insertion has start == end. */
  datatype Block = Block(start: nat, end: nat, repl: seq<Line>)

  function Front<T>(s: seq<T>): seq<T>
    requires s != []
  {
    s[..|s| - 1]
  }

  function Last<T>(s: seq<T>): T
    requires s != []
  {
    s[|s| - 1]
  }

  /** Blocks lie in order, without overlap, inside the base range [lo, hi). */
  ghost predicate Ordered(blocks: seq<Block>, lo: int, hi: int)
    decreases |blocks|
  {
    if blocks == [] then lo <= hi
    else
      var b := Last(blocks);
      lo <= b.start <= b.end <= hi && Ordered(Front(blocks), lo, b.start)
  }

  /** At least one base line separates neighbouring blocks, and every block changes something. */
  ghost predicate Separated(blocks: seq<Block>)
    decreases |blocks|
  {
    blocks == [] ||
    var front, b := Front(blocks), Last(blocks);
    && (b.start < b.end || b.repl != [])
    && (front != [] ==> Last(front).end < b.start)
    && Separated(front)
  }

  /** What base[lo..hi] reads once the blocks have been applied. */
  ghost function View(base: seq<Line>, blocks: seq<Block>, lo: nat, hi: nat): seq<Line>
    requires hi <= |base| && Ordered(blocks, lo, hi)
    decreases |blocks|
  {
    if blocks == [] then base[lo..hi]
    else
      var b := Last(blocks);
      View(base, Front(blocks), lo, b.start) + b.repl + base[b.end..hi]
  }

  /** Deleted and inserted lines of all blocks together. */
  ghost function BlockCost(blocks: seq<Block>): int
    decreases |blocks|
  {
    if blocks == [] then 0
    else BlockCost(Front(blocks)) + (Last(blocks).end - Last(blocks).start) + |Last(blocks).repl|
  }

  lemma SnocParts<T>(front: seq<T>, b: T)
    ensures Front(front + [b]) == front && Last(front + [b]) == b
  {
  }

  /** A view in terms of the last block. */
  lemma ViewSnoc(base: seq<Line>, front: seq<Block>, b: Block, lo: nat, hi: nat)
    requires hi <= |base| && Ordered(front, lo, b.start) && b.start <= b.end <= hi
    ensures Ordered(front + [b], lo, hi)
    ensures View(base, front + [b], lo, hi) == View(base, front, lo, b.start) + b.repl + base[b.end..hi]
    ensures BlockCost(front + [b]) == BlockCost(front) + (b.end - b.start) + |b.repl|
  {
    SnocParts(front, b);
    OrderedRange(front, lo, b.start);
  }

  lemma {:induction false} OrderedRange(blocks: seq<Block>, lo: int, hi: int)
    requires Ordered(blocks, lo, hi)
    ensures lo <= hi
    decreases |blocks|
  {
    if blocks != [] {
      OrderedRange(Front(blocks), lo, Last(blocks).start);
    }
  }

  /** Extending the range to the right only adds base lines. */
  lemma ViewExtend(base: seq<Line>, blocks: seq<Block>, lo: nat, mid: nat, hi: nat)
    requires mid <= hi <= |base| && Ordered(blocks, lo, mid)
    ensures Ordered(blocks, lo, hi)
    ensures View(base, blocks, lo, hi) == View(base, blocks, lo, mid) + base[mid..hi]
  {
    if blocks == [] {
      assert base[lo..hi] == base[lo..mid] + base[mid..hi];
    } else {
      var b := Last(blocks);
      assert base[b.end..hi] == base[b.end..mid] + base[mid..hi];
    }
  }

  /** Views of adjacent ranges concatenate. */
  lemma {:induction false} ViewSplit(base: seq<Line>, a: seq<Block>, b: seq<Block>, lo: nat, mid: nat, hi: nat)
    requires hi <= |base| && Ordered(a, lo, mid) && Ordered(b, mid, hi)
    ensures Ordered(a + b, lo, hi)
    ensures View(base, a + b, lo, hi) == View(base, a, lo, mid) + View(base, b, mid, hi)
    decreases |b|
  {
    if b == [] {
      assert a + b == a;
      ViewExtend(base, a, lo, mid, hi);
    } else {
      var rest, last := Front(b), Last(b);
      assert a + b == (a + rest) + [last];
      ViewSplit(base, a, rest, lo, mid, last.start);
      ViewSnoc(base, a + rest, last, lo, hi);
      assert View(base, b, mid, hi) == View(base, rest, mid, last.start) + last.repl + base[last.end..hi];
    }
  }

  // ----- from an edit script to blocks -----

  /** The last block ends exactly at pos, so the next change belongs to it. */
  predicate Touches(blocks: seq<Block>, pos: nat) {
    blocks != [] && Last(blocks).end == pos
  }

  function Deleted(e: Edit): nat { if e.Delete? then 1 else 0 }

  function Inserted(e: Edit): seq<Line> { if e.Insert? then [e.dst] else [] }

  /** del deleted and ins inserted lines at base position pos: widens an open block or opens one. */
  function AddChange(blocks: seq<Block>, pos: nat, del: nat, ins: seq<Line>): seq<Block> {
    if Touches(blocks, pos) then
      Front(blocks) + [Block(Last(blocks).start, pos + del, Last(blocks).repl + ins)]
    else blocks + [Block(pos, pos + del, ins)]
  }

  function AddEdit(blocks: seq<Block>, pos: nat, e: Edit): seq<Block> {
    if e.Keep? then blocks else AddChange(blocks, pos, Deleted(e), Inserted(e))
  }

  /** Base lines a script has passed. */
  function Pos(es: seq<Edit>): nat { |SrcLines(es)| }

  /** The maximal runs of insertions and deletions of a script, as blocks. */
  function Extract(es: seq<Edit>): seq<Block> {
    if es == [] then []
    else AddEdit(Extract(Front(es)), Pos(Front(es)), Last(es))
  }

  lemma ExtractSnoc(es: seq<Edit>, e: Edit)
    ensures Extract(es + [e]) == AddEdit(Extract(es), Pos(es), e)
    ensures Pos(es + [e]) == Pos(es) + (if e.Insert? then 0 else 1)
  {
    SnocParts(es, e);
    SrcConcat(es, [e]);
  }

  ghost predicate Good(blocks: seq<Block>, pos: nat) {
    Ordered(blocks, 0, pos) && Separated(blocks)
  }

  lemma GoodSnoc(front: seq<Block>, b: Block)
    requires Good(front, b.start) && (front != [] ==> Last(front).end < b.start)
    requires b.start <= b.end && (b.start < b.end || b.repl != [])
    ensures Good(front + [b], b.end)
  {
    SnocParts(front, b);
  }

  lemma AddChangeGood(blocks: seq<Block>, pos: nat, del: nat, ins: seq<Line>)
    requires Good(blocks, pos) && (del > 0 || ins != [])
    ensures Good(AddChange(blocks, pos, del, ins), pos + del)
    ensures Touches(AddChange(blocks, pos, del, ins), pos + del)
  {
    if Touches(blocks, pos) {
      var front, last := Front(blocks), Last(blocks);
      var wider := Block(last.start, pos + del, last.repl + ins);
      GoodSnoc(front, wider);
      SnocParts(front, wider);
    } else {
      GoodSnoc(blocks, Block(pos, pos + del, ins));
      SnocParts(blocks, Block(pos, pos + del, ins));
    }
  }

  /** The blocks are in order and separated; the last one touches the end exactly after a change. */
  lemma {:induction false} ExtractGood(es: seq<Edit>)
    ensures Good(Extract(es), Pos(es))
    ensures Touches(Extract(es), Pos(es)) <==> es != [] && !Last(es).Keep?
    decreases |es|
  {
    if es != [] {
      var before, e := Front(es), Last(es);
      assert es == before + [e];
      ExtractSnoc(before, e);
      ExtractGood(before);
      if !e.Keep? {
        AddChangeGood(Extract(before), Pos(before), Deleted(e), Inserted(e));
      }
    }
  }

  /** A view only reads base lines inside its range. */
  lemma {:induction false} ViewPrefix(s: seq<Line>, src: seq<Line>, blocks: seq<Block>, lo: nat, hi: nat)
    requires hi <= |s| && s <= src && Ordered(blocks, lo, hi)
    ensures View(s, blocks, lo, hi) == View(src, blocks, lo, hi)
    decreases |blocks|
  {
    if blocks == [] {
      assert s[lo..hi] == src[lo..hi];
    } else {
      var b := Last(blocks);
      ViewPrefix(s, src, Front(blocks), lo, b.start);
      assert s[b.end..hi] == src[b.end..hi];
    }
  }

  lemma AddChangeView(src: seq<Line>, blocks: seq<Block>, pos: nat, del: nat, ins: seq<Line>)
    requires pos + del <= |src| && Good(blocks, pos) && (del > 0 || ins != [])
    ensures Good(AddChange(blocks, pos, del, ins), pos + del)
    ensures View(src, AddChange(blocks, pos, del, ins), 0, pos + del) == View(src, blocks, 0, pos) + ins
    ensures BlockCost(AddChange(blocks, pos, del, ins)) == BlockCost(blocks) + del + |ins|
  {
    AddChangeGood(blocks, pos, del, ins);
    assert src[pos + del..pos + del] == [];
    if Touches(blocks, pos) {
      var front, last := Front(blocks), Last(blocks);
      assert View(src, blocks, 0, pos) == View(src, front, 0, last.start) + last.repl by {
        assert src[pos..pos] == [];
      }
      ViewSnoc(src, front, Block(last.start, pos + del, last.repl + ins), 0, pos + del);
    } else {
      ViewSnoc(src, blocks, Block(pos, pos + del, ins), 0, pos + del);
    }
  }

  /** One more edit, at the end of the base lines passed so far. */
  lemma AddEditView(src: seq<Line>, blocks: seq<Block>, pos: nat, e: Edit)
    requires Good(blocks, pos) && |src| == pos + (if e.Insert? then 0 else 1)
    requires e.Keep? ==> src[pos] == e.dst
    ensures var bs := AddEdit(blocks, pos, e);
            && Good(bs, |src|)
            && View(src, bs, 0, |src|) == View(src, blocks, 0, pos) + (if e.Delete? then [] else [e.dst])
            && BlockCost(bs) == BlockCost(blocks) + (if e.Keep? then 0 else 1)
  {
    if e.Keep? {
      ViewExtend(src, blocks, 0, pos, |src|);
    } else {
      AddChangeView(src, blocks, pos, Deleted(e), Inserted(e));
    }
  }

  /** The parts of a non-empty script. */
  lemma LastEdit(es: seq<Edit>, src: seq<Line>, dst: seq<Line>)
    requires Transforms(es, src, dst) && es != []
    ensures var before, e := Front(es), Last(es);
            && Transforms(before, SrcLines(before), DstLines(before))
            && src == SrcLines(before) + (if e.Insert? then [] else [e.src])
            && dst == DstLines(before) + (if e.Delete? then [] else [e.dst])
            && Cost(es) == Cost(before) + (if e.Keep? then 0 else 1)
            && (e.Keep? ==> e.src == e.dst)
            && Extract(es) == AddEdit(Extract(before), Pos(before), e)
  {
    var before, e := Front(es), Last(es);
    assert es == before + [e];
    Concat(before, [e]);
  }

  /** Applying the blocks of a script that keeps equal lines spells what the script writes. */
  lemma {:induction false} ExtractApplies(es: seq<Edit>, src: seq<Line>, dst: seq<Line>)
    requires Transforms(es, src, dst)
    ensures Good(Extract(es), |src|) && View(src, Extract(es), 0, |src|) == dst
    ensures BlockCost(Extract(es)) == Cost(es)
    decreases |es|
  {
    if es != [] {
      var before := Front(es);
      LastEdit(es, src, dst);
      ExtractApplies(before, SrcLines(before), DstLines(before));
      ViewPrefix(SrcLines(before), src, Extract(before), 0, Pos(before));
      AddEditView(src, Extract(before), Pos(before), Last(es));
    }
  }

  /** A change and the edit right after it are one change. */
  lemma AddChangeTwice(blocks: seq<Block>, pos: nat, del: nat, ins: seq<Line>, e: Edit,
                       changed: seq<Block>, at: nat, next: seq<Block>, del': nat, ins': seq<Line>)
    requires !e.Keep? && changed == AddChange(blocks, pos, del, ins) && at == pos + del
    requires next == AddEdit(changed, at, e) && del' == del + Deleted(e) && ins' == ins + Inserted(e)
    ensures next == AddChange(blocks, pos, del', ins')
  {
    if Touches(blocks, pos) {
      var front, last := Front(blocks), Last(blocks);
      SnocParts(front, Block(last.start, pos + del, last.repl + ins));
      assert last.repl + ins + Inserted(e) == last.repl + (ins + Inserted(e));
    } else {
      SnocParts(blocks, Block(pos, pos + del, ins));
    }
  }

  /** One more edit of a script, seen from the start of the script. */
  lemma PrefixStep(es: seq<Edit>, till: nat)
    requires till < |es|
    ensures Extract(es[..till + 1]) == AddEdit(Extract(es[..till]), Pos(es[..till]), es[till])
    ensures Pos(es[..till + 1]) == Pos(es[..till]) + (if es[till].Insert? then 0 else 1)
  {
    assert es[..till + 1] == es[..till] + [es[till]];
    ExtractSnoc(es[..till], es[till]);
  }

  /** The same, seen from the start of a run. */
  lemma SliceStep(es: seq<Edit>, from: nat, till: nat)
    requires from <= till < |es| && !es[till].Keep?
    ensures Pos(es[from..till + 1]) == Pos(es[from..till]) + Deleted(es[till])
    ensures DstLines(es[from..till + 1]) == DstLines(es[from..till]) + Inserted(es[till])
  {
    assert es[from..till + 1] == es[from..till] + [es[till]];
    SrcConcat(es[from..till], [es[till]]);
    DstConcat(es[from..till], [es[till]]);
  }

  /** What a script appended to another does to its blocks, when it is one run of changes. */
  ghost predicate OneChange(before: seq<Edit>, run: seq<Edit>, after: seq<Edit>) {
    Extract(after) == AddChange(Extract(before), Pos(before), Pos(run), DstLines(run))
    && Pos(after) == Pos(before) + Pos(run)
  }

  ghost predicate NoKeeps(run: seq<Edit>) {
    forall r | 0 <= r < |run| :: !run[r].Keep?
  }

  lemma EditLines(e: Edit)
    requires !e.Keep?
    ensures Pos([e]) == Deleted(e) && DstLines([e]) == Inserted(e)
  {
    assert [e][1..] == [] && SrcLines([]) == [] && DstLines([]) == [];
    assert Inserted(e) + [] == Inserted(e);
  }

  lemma OneEdit(before: seq<Edit>, e: Edit)
    requires !e.Keep?
    ensures OneChange(before, [e], before + [e])
  {
    ExtractSnoc(before, e);
    EditLines(e);
  }

  lemma OneMoreEdit(before: seq<Edit>, run: seq<Edit>, mid: seq<Edit>, e: Edit)
    requires !e.Keep? && OneChange(before, run, mid)
    ensures OneChange(before, run + [e], mid + [e])
  {
    ExtractSnoc(mid, e);
    SrcConcat(run, [e]);
    DstConcat(run, [e]);
    EditLines(e);
    AddChangeTwice(Extract(before), Pos(before), Pos(run), DstLines(run), e,
      Extract(mid), Pos(mid), Extract(mid + [e]), Pos(run + [e]), DstLines(run + [e]));
  }

  lemma {:induction false} RunAppended(before: seq<Edit>, run: seq<Edit>)
    requires run != [] && NoKeeps(run)
    ensures OneChange(before, run, before + run)
    decreases |run|
  {
    var front, e := Front(run), Last(run);
    assert run == front + [e] && !e.Keep?;
    if front == [] {
      OneEdit(before, e);
      assert run == [e];
    } else {
      RunAppended(before, front);
      OneMoreEdit(before, front, before + front, e);
      assert before + run == before + front + [e];
    }
  }

  /** A whole run of changes acts as one change. */
  lemma RunIsOneChange(es: seq<Edit>, from: nat, till: nat)
    requires from < till <= |es| && forall r | from <= r < till :: !es[r].Keep?
    ensures Extract(es[..till])
         == AddChange(Extract(es[..from]), Pos(es[..from]), Pos(es[from..till]), DstLines(es[from..till]))
    ensures Pos(es[..till]) == Pos(es[..from]) + Pos(es[from..till])
  {
    RunAppended(es[..from], es[from..till]);
    assert es[..till] == es[..from] + es[from..till];
  }

  /** Collects the run of changes that starts at edits[from]. */
  method CollectRun(edits: seq<Edit>, from: nat, baseIdx0: nat) returns (i: nat, baseIdx: nat, newLines: seq<Line>)
    requires from < |edits| && !edits[from].Keep?
    ensures from < i <= |edits| && (i < |edits| ==> edits[i].Keep?)
    ensures forall r | from <= r < i :: !edits[r].Keep?
    ensures baseIdx == baseIdx0 + Pos(edits[from..i]) && newLines == DstLines(edits[from..i])
  {
    i, baseIdx, newLines := from, baseIdx0, [];
    while i < |edits| && !edits[i].Keep?
      invariant from <= i <= |edits| && forall r | from <= r < i :: !edits[r].Keep?
      invariant baseIdx == baseIdx0 + Pos(edits[from..i]) && newLines == DstLines(edits[from..i])
    {
      SliceStep(edits, from, i);
      if edits[i].Delete? {
        baseIdx := baseIdx + 1;
      } else {
        newLines := newLines + [edits[i].dst];
      }
      i := i + 1;
    }
  }

  lemma KeepStep(edits: seq<Edit>, i: nat)
    requires i < |edits| && edits[i].Keep?
    ensures Extract(edits[..i + 1]) == Extract(edits[..i]) && Pos(edits[..i + 1]) == Pos(edits[..i]) + 1
    ensures !Touches(Extract(edits[..i + 1]), Pos(edits[..i + 1]))
  {
    PrefixStep(edits, i);
    ExtractGood(edits[..i + 1]);
    assert Last(edits[..i + 1]) == edits[i];
  }

  /**
   Blocks of a script, computed in one pass: keeps move the base position, a run of changes is
   collected into one block.
   */
  method ExtractChangeBlocks(edits: seq<Edit>) returns (blocks: seq<Block>)
    ensures blocks == Extract(edits)
  {
    blocks := [];
    var baseIdx, i := 0, 0;
    while i < |edits|
      invariant 0 <= i <= |edits| && blocks == Extract(edits[..i]) && baseIdx == Pos(edits[..i])
      invariant i < |edits| && !edits[i].Keep? ==> !Touches(blocks, baseIdx)
    {
      if edits[i].Keep? {
        KeepStep(edits, i);
        baseIdx := baseIdx + 1;
        i := i + 1;
      } else {
        var regionStart := baseIdx;
        var newLines;
        ghost var from := i;
        i, baseIdx, newLines := CollectRun(edits, i, baseIdx);
        RunIsOneChange(edits, from, i);
        blocks := blocks + [Block(regionStart, baseIdx, newLines)];
      }
    }
    assert edits[..i] == edits;
  }
}
