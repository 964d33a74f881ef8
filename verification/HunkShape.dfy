/** Hunks mark no more lines than they must, and removed lines stand before the added ones. */
module HunkShape {
  import opened Edits
  import opened Blocks
  import opened Unified

  // ----- how many lines are marked -----

  /** Removed and added lines of a body. */
  ghost function MarkedCount(body: seq<BodyLine>): nat
    decreases |body|
  {
    if body == [] then 0 else MarkedCount(Front(body)) + (if Last(body).kind.Context? then 0 else 1)
  }

  ghost function MarkedInAll(hunks: seq<Hunk>): nat
    decreases |hunks|
  {
    if hunks == [] then 0 else MarkedInAll(Front(hunks)) + MarkedCount(Last(hunks).body)
  }

  lemma CountSnoc(body: seq<BodyLine>, l: BodyLine)
    ensures MarkedCount(body + [l]) == MarkedCount(body) + (if l.kind.Context? then 0 else 1)
  {
    SnocParts(body, l);
  }

  lemma {:induction false} CountConcat(x: seq<BodyLine>, y: seq<BodyLine>)
    ensures MarkedCount(x + y) == MarkedCount(x) + MarkedCount(y)
    decreases |y|
  {
    if y == [] {
      assert x + y == x;
    } else {
      var front, l := Front(y), Last(y);
      CountConcat(x, front);
      CountSnoc(front, l);
      CountSnoc(x + front, l);
      assert y == front + [l];
      assert x + y == (x + front) + [l];
    }
  }

  lemma {:induction false} CountMarked(kind: Kind, lines: seq<Line>)
    ensures MarkedCount(Marked(kind, lines)) == if kind.Context? then 0 else |lines|
    decreases |lines|
  {
    if lines != [] {
      var front, l := Front(lines), Last(lines);
      assert lines == front + [l];
      CountMarked(kind, front);
      MarkedSnoc(kind, front, l);
      CountSnoc(Marked(kind, front), BodyLine(kind, l));
    }
  }

  lemma CountChange(a: seq<Line>, b: Block, hi: nat)
    requires b.start <= b.end <= hi <= |a|
    ensures MarkedCount(Change(a, b, hi)) == b.end - b.start + |b.repl|
  {
    var removed, added, after := a[b.start..b.end], b.repl, a[b.end..hi];
    CountConcat(Marked(Removed, removed) + Marked(Added, added), Marked(Context, after));
    CountConcat(Marked(Removed, removed), Marked(Added, added));
    CountMarked(Removed, removed);
    CountMarked(Added, added);
    CountMarked(Context, after);
  }

  lemma {:induction false} CountBody(a: seq<Line>, blocks: seq<Block>, lo: nat, hi: nat)
    requires hi <= |a| && Ordered(blocks, lo, hi)
    ensures MarkedCount(Body(a, blocks, lo, hi)) == BlockCost(blocks)
    decreases |blocks|
  {
    if blocks == [] {
      CountMarked(Context, a[lo..hi]);
    } else {
      var b := Last(blocks);
      OrderedRange(Front(blocks), lo, b.start);
      CountBody(a, Front(blocks), lo, b.start);
      CountChange(a, b, hi);
      CountConcat(Body(a, Front(blocks), lo, b.start), Change(a, b, hi));
    }
  }

  lemma CostSnoc(blocks: seq<Block>, b: Block)
    ensures BlockCost(blocks + [b]) == BlockCost(blocks) + (b.end - b.start) + |b.repl|
  {
    SnocParts(blocks, b);
  }

  lemma {:induction false} CostConcat(x: seq<Block>, y: seq<Block>)
    ensures BlockCost(x + y) == BlockCost(x) + BlockCost(y)
    decreases |y|
  {
    if y == [] {
      assert x + y == x;
    } else {
      var front, b := Front(y), Last(y);
      CostConcat(x, front);
      CostSnoc(front, b);
      CostSnoc(x + front, b);
      assert y == front + [b];
      assert x + y == (x + front) + [b];
    }
  }

  /** The hunks mark as many lines as the blocks replace. */
  lemma {:induction false} HunksCount(a: seq<Line>, groups: seq<seq<Block>>)
    requires Spaced(a, groups)
    ensures MarkedInAll(HunksOf(a, groups)) == BlockCost(Flat(groups))
    decreases |groups|
  {
    if groups != [] {
      var front, hb := Front(groups), Last(groups);
      HunksCount(a, front);
      GroupIsOk(a, hb);
      CountBody(a, hb, From(hb), To(a, hb));
      SnocParts(HunksOf(a, front), HunkOf(a, Flat(front), hb));
      CostConcat(Flat(front), hb);
    }
  }

  // ----- in what order -----

  /** No added line is followed by a removed one. */
  ghost predicate RemovedFirst(body: seq<BodyLine>) {
    forall i | 0 <= i < |body| - 1 :: body[i].kind.Added? ==> !body[i + 1].kind.Removed?
  }

  predicate EndsInContext(body: seq<BodyLine>) {
    body != [] ==> body[|body| - 1].kind.Context?
  }

  lemma ChangeIsTidy(a: seq<Line>, b: Block, hi: nat)
    requires b.start <= b.end <= hi <= |a|
    ensures RemovedFirst(Change(a, b, hi)) && (b.end < hi ==> EndsInContext(Change(a, b, hi)))
  {
    var removed, added := Marked(Removed, a[b.start..b.end]), Marked(Added, b.repl);
    var body := removed + added + Marked(Context, a[b.end..hi]);
    forall i | 0 <= i < |body| - 1 ensures body[i].kind.Added? ==> !body[i + 1].kind.Removed? {
      if i + 1 < |removed| { assert body[i] == removed[i]; }
    }
  }

  lemma TidyConcat(x: seq<BodyLine>, y: seq<BodyLine>)
    requires RemovedFirst(x) && RemovedFirst(y) && EndsInContext(x)
    ensures RemovedFirst(x + y)
  {
    var body := x + y;
    forall i | 0 <= i < |body| - 1 ensures body[i].kind.Added? ==> !body[i + 1].kind.Removed? {
      if i + 1 < |x| {
        assert body[i] == x[i] && body[i + 1] == x[i + 1];
      } else if i >= |x| {
        assert body[i] == y[i - |x|] && body[i + 1] == y[i + 1 - |x|];
      }
    }
  }

  lemma {:induction false} BodyIsTidy(a: seq<Line>, blocks: seq<Block>, lo: nat, hi: nat)
    requires hi <= |a| && Ordered(blocks, lo, hi) && Separated(blocks)
    ensures RemovedFirst(Body(a, blocks, lo, hi))
    ensures blocks == [] || Last(blocks).end < hi ==> EndsInContext(Body(a, blocks, lo, hi))
    decreases |blocks|
  {
    if blocks != [] {
      var front, b := Front(blocks), Last(blocks);
      OrderedRange(front, lo, b.start);
      BodyIsTidy(a, front, lo, b.start);
      ChangeIsTidy(a, b, hi);
      TidyConcat(Body(a, front, lo, b.start), Change(a, b, hi));
    }
  }

  lemma {:induction false} SeparatedParts(x: seq<Block>, y: seq<Block>)
    requires Separated(x + y)
    ensures Separated(x) && Separated(y)
    decreases |y|
  {
    if y == [] {
      assert x + y == x;
    } else {
      var front, b := Front(y), Last(y);
      assert x + y == (x + front) + [b];
      SnocParts(x + front, b);
      SeparatedParts(x, front);
      if front != [] { assert Last(x + front) == Last(front); }
    }
  }

  ghost predicate AllTidy(hunks: seq<Hunk>) {
    forall h | h in hunks :: RemovedFirst(h.body)
  }

  /** In every hunk of good blocks the removed lines of a change stand before its added lines. */
  lemma {:induction false} HunksAreTidy(a: seq<Line>, groups: seq<seq<Block>>)
    requires Spaced(a, groups) && Separated(Flat(groups))
    ensures AllTidy(HunksOf(a, groups))
    decreases |groups|
  {
    if groups != [] {
      var front, hb := Front(groups), Last(groups);
      SeparatedParts(Flat(front), hb);
      HunksAreTidy(a, front);
      GroupIsOk(a, hb);
      BodyIsTidy(a, hb, From(hb), To(a, hb));
    }
  }
}
