/**
 The furthest-reaching points of the greedy O(ND) search, as a function of the two line
 lists, and the edit script read back from them. Both Myers engines are proved to compute
 exactly these values and this script.
 */
module Frontier {
  import opened Edits
  import opened EditGraph

  /** Diagonal k is visited in round d. */
  predicate OnRound(k: int, d: int) {
    -d <= k <= d && SameParity(k, d)
  }

  /** Where the run of equal lines from (x, y) ends. */
  ghost function Snake(src: seq<Line>, dst: seq<Line>, x: nat, y: nat): (r: nat)
    ensures x <= r && (r == x || (r <= |src| && r - x + y <= |dst|))
    decreases |src| - x
  {
    if Matches(src, dst, x, y) then Snake(src, dst, x + 1, y + 1) else x
  }

  /** The point x of diagonal k is within distance d. */
  ghost predicate Within(src: seq<Line>, dst: seq<Line>, x: nat, k: int, d: nat)
    requires k <= x
  {
    Dist(src, dst, x, x - k) <= d
  }

  /** The points of diagonal k within distance d are exactly those up to x. */
  ghost predicate Furthest(src: seq<Line>, dst: seq<Line>, x: int, k: int, d: nat) {
    0 <= x && k <= x && forall x': nat | k <= x' :: Within(src, dst, x', k, d) <==> x' <= x
  }

  lemma {:induction false} SnakeStops(src: seq<Line>, dst: seq<Line>, x: nat, y: nat)
    ensures var r := Snake(src, dst, x, y);
            !Matches(src, dst, r, r - x + y) && Dist(src, dst, r, r - x + y) <= Dist(src, dst, x, y)
    decreases |src| - x
  {
    if Matches(src, dst, x, y) {
      SnakeStops(src, dst, x + 1, y + 1);
      MatchIsFree(src, dst, x, y);
    }
  }

  /** A blocked point at distance at most d with costly neighbours is the last one within d. */
  lemma BlockedIsFurthest(src: seq<Line>, dst: seq<Line>, x: nat, k: int, d: nat)
    requires k <= x && !Matches(src, dst, x, x - k)
    requires Dist(src, dst, x, x - k) <= d
    requires Dist(src, dst, x, x - k + 1) >= d && Dist(src, dst, x + 1, x - k) >= d
    ensures Furthest(src, dst, x, k, d)
  {
    UnmatchedStep(src, dst, x, x - k);
    forall x': nat | k <= x' ensures Within(src, dst, x', k, d) <==> x' <= x {
      if x' <= x {
        DiagonalMonotone(src, dst, x', x' - k, x, x - k);
      } else {
        DiagonalMonotone(src, dst, x + 1, x + 1 - k, x', x' - k);
      }
    }
  }

  /** Going down from the furthest point of diagonal k + 1 costs one, as does going right from k - 1. */
  lemma EntryCost(src: seq<Line>, dst: seq<Line>, prev: nat, prevK: int, x: nat, k: int, d: nat)
    requires d > 0 && Furthest(src, dst, prev, prevK, d - 1)
    requires (prevK == k + 1 && x == prev) || (prevK == k - 1 && x == prev + 1)
    ensures k <= x && Dist(src, dst, x, x - k) <= d
  {
    assert Within(src, dst, prev, prevK, d - 1);
    Neighbours(src, dst, prev, prev - prevK);
  }

  /** Past its start, diagonal k has only neighbours that cost at least d. */
  lemma NeighboursBehind(src: seq<Line>, dst: seq<Line>, left: nat, right: nat, x: nat, k: int, d: nat)
    requires OnRound(k, d) && d > 0 && k <= x
    requires -k != d ==> Furthest(src, dst, left, k - 1, d - 1) && left < x
    requires k != d ==> Furthest(src, dst, right, k + 1, d - 1) && right <= x
    ensures Dist(src, dst, x, x - k + 1) >= d && Dist(src, dst, x + 1, x - k) >= d
  {
    if -k == d { DistBounds(src, dst, x, x - k + 1); } else { assert !Within(src, dst, x, k - 1, d - 1); }
    if k == d { DistBounds(src, dst, x + 1, x - k); } else { assert !Within(src, dst, x + 1, k + 1, d - 1); }
  }

  /** The start round d takes on diagonal k, from the values on the neighbouring diagonals. */
  function StartX(left: int, right: int, down: bool): int {
    if down then right else left + 1
  }

  /**
   The greedy step is right: from the furthest points of round d - 1 on the two neighbouring
   diagonals (only one of them at either end), the better start followed along equal lines is
   the furthest point of round d.
   */
  lemma GreedyStep(src: seq<Line>, dst: seq<Line>, left: nat, right: nat, down: bool, k: int, d: nat)
    requires OnRound(k, d) && d > 0
    requires -k != d ==> Furthest(src, dst, left, k - 1, d - 1)
    requires k != d ==> Furthest(src, dst, right, k + 1, d - 1)
    requires down == (-k == d || (k != d && left < right))
    ensures var x := StartX(left, right, down);
            k <= x && Furthest(src, dst, Snake(src, dst, x, x - k), k, d)
  {
    var x: nat := StartX(left, right, down);
    if down {
      EntryCost(src, dst, right, k + 1, x, k, d);
    } else {
      EntryCost(src, dst, left, k - 1, x, k, d);
    }
    var r := Snake(src, dst, x, x - k);
    SnakeStops(src, dst, x, x - k);
    NeighboursBehind(src, dst, left, right, r, k, d);
    BlockedIsFurthest(src, dst, r, k, d);
  }

  /** Round 0 follows the equal lines from the origin. */
  lemma GreedyStart(src: seq<Line>, dst: seq<Line>)
    ensures Furthest(src, dst, Snake(src, dst, 0, 0), 0, 0)
  {
    SnakeStops(src, dst, 0, 0);
    BlockedIsFurthest(src, dst, Snake(src, dst, 0, 0), 0, 0);
  }

  lemma {:induction false} FurthestExists(src: seq<Line>, dst: seq<Line>, k: int, d: nat) returns (x: nat)
    requires OnRound(k, d)
    ensures Furthest(src, dst, x, k, d)
    decreases d
  {
    if d == 0 {
      GreedyStart(src, dst);
      x := Snake(src, dst, 0, 0);
    } else {
      var left: nat, right: nat := 0, 0;
      if -k != d { left := FurthestExists(src, dst, k - 1, d - 1); }
      if k != d { right := FurthestExists(src, dst, k + 1, d - 1); }
      var down := -k == d || (k != d && left < right);
      GreedyStep(src, dst, left, right, down, k, d);
      var e: nat := StartX(left, right, down);
      x := Snake(src, dst, e, e - k);
    }
  }

  lemma HasFurthest(src: seq<Line>, dst: seq<Line>, k: int, d: nat)
    requires OnRound(k, d)
    ensures exists x: nat :: Furthest(src, dst, x, k, d)
  {
    var x := FurthestExists(src, dst, k, d);
  }

  /** The furthest x at distance d on diagonal k. */
  ghost function Far(src: seq<Line>, dst: seq<Line>, k: int, d: int): nat {
    if d >= 0 && exists x: nat :: Furthest(src, dst, x, k, d) then
      var x: nat :| Furthest(src, dst, x, k, d);
      x
    else 0
  }

  lemma FarIsFurthest(src: seq<Line>, dst: seq<Line>, k: int, d: nat)
    requires OnRound(k, d)
    ensures Furthest(src, dst, Far(src, dst, k, d), k, d)
  {
    HasFurthest(src, dst, k, d);
  }

  lemma FarIsUnique(src: seq<Line>, dst: seq<Line>, x: nat, k: int, d: nat)
    requires OnRound(k, d) && Furthest(src, dst, x, k, d)
    ensures x == Far(src, dst, k, d)
  {
    var f := Far(src, dst, k, d);
    FarIsFurthest(src, dst, k, d);
    assert Within(src, dst, f, k, d) && Within(src, dst, x, k, d);
  }

  /** Round d reaches diagonal k by an insertion. */
  ghost predicate GoesDown(src: seq<Line>, dst: seq<Line>, k: int, d: int) {
    -k == d || (k != d && Far(src, dst, k - 1, d - 1) < Far(src, dst, k + 1, d - 1))
  }

  /** The diagonal round d came from to reach diagonal k. */
  ghost function PrevK(src: seq<Line>, dst: seq<Line>, k: int, d: int): int {
    if GoesDown(src, dst, k, d) then k + 1 else k - 1
  }

  /** The point on diagonal k where round d starts to follow equal lines. */
  ghost function Entry(src: seq<Line>, dst: seq<Line>, k: int, d: int): nat {
    if GoesDown(src, dst, k, d) then Far(src, dst, k + 1, d - 1) else Far(src, dst, k - 1, d - 1) + 1
  }

  lemma FarFromEntry(src: seq<Line>, dst: seq<Line>, k: int, d: nat)
    requires OnRound(k, d) && d > 0
    ensures var e := Entry(src, dst, k, d);
            k <= e && Far(src, dst, k, d) == Snake(src, dst, e, e - k)
  {
    var left, right := Far(src, dst, k - 1, d - 1), Far(src, dst, k + 1, d - 1);
    if -k != d { FarIsFurthest(src, dst, k - 1, d - 1); }
    if k != d { FarIsFurthest(src, dst, k + 1, d - 1); }
    GreedyStep(src, dst, left, right, GoesDown(src, dst, k, d), k, d);
    var e := Entry(src, dst, k, d);
    FarIsUnique(src, dst, Snake(src, dst, e, e - k), k, d);
  }

  /** Points past the corner of the grid are dearer than the corner. */
  lemma PastCornerCosts(src: seq<Line>, dst: seq<Line>, x: nat, y: nat)
    requires x >= |src| && y >= |dst|
    ensures Dist(src, dst, x, y) >= Dist(src, dst, |src|, |dst|) + (x - |src|) + (y - |dst|)
  {
    OutsideCosts(src, dst, x, y);
  }

  lemma CornerRound(src: seq<Line>, dst: seq<Line>)
    ensures var d := Dist(src, dst, |src|, |dst|);
            d <= |src| + |dst| && OnRound(|src| - |dst|, d)
  {
    DistBounds(src, dst, |src|, |dst|);
    DistParity(src, dst, |src|, |dst|, Dist(src, dst, |src|, |dst|));
  }

  lemma CornerPoint(src: seq<Line>, dst: seq<Line>, k: int, d: nat)
    requires k == |src| - |dst| && d == Dist(src, dst, |src|, |dst|) && OnRound(k, d)
    ensures Far(src, dst, k, d) == |src|
  {
    var x := Far(src, dst, k, d);
    FarIsFurthest(src, dst, k, d);
    assert Within(src, dst, |src|, k, d) && Within(src, dst, x, k, d);
    PastCornerCosts(src, dst, x, x - k);
  }

  /** The search meets the corner of the grid in round Dist(n, m), on the corner exactly. */
  lemma CornerIsFar(src: seq<Line>, dst: seq<Line>)
    ensures var n, m := |src|, |dst|;
            var d := Dist(src, dst, n, m);
            d <= n + m && OnRound(n - m, d) && Far(src, dst, n - m, d) == n
  {
    CornerRound(src, dst);
    CornerPoint(src, dst, |src| - |dst|, Dist(src, dst, |src|, |dst|));
  }

  /** Whatever point past the corner round d reaches, the corner was no further away. */
  lemma PastCorner(src: seq<Line>, dst: seq<Line>, x: nat, k: int, d: nat)
    requires Furthest(src, dst, x, k, d) && x >= |src| && x - k >= |dst|
    ensures Dist(src, dst, |src|, |dst|) <= d
    ensures Dist(src, dst, |src|, |dst|) == d ==> k == |src| - |dst| && x == |src|
  {
    assert Within(src, dst, x, k, d);
    PastCornerCosts(src, dst, x, x - k);
  }

  // ----- reading the script back -----

  /** len kept lines from (x, y) on. */
  function KeepRun(src: seq<Line>, dst: seq<Line>, x: nat, y: nat, len: nat): seq<Edit>
    requires x + len <= |src| && y + len <= |dst|
  {
    if len == 0 then []
    else KeepRun(src, dst, x, y, len - 1) + [Keep(src[x + len - 1], dst[y + len - 1])]
  }

  ghost predicate OnFrontier(src: seq<Line>, dst: seq<Line>, x: int, y: int, d: int) {
    && 0 <= x <= |src| && 0 <= y <= |dst| && 0 <= d
    && OnRound(x - y, d) && Far(src, dst, x - y, d) == x
  }

  lemma {:induction false} SnakeIsEqualRun(src: seq<Line>, dst: seq<Line>, x: nat, y: nat)
    ensures var r := Snake(src, dst, x, y);
            r > x ==> r <= |src| && r - x + y <= |dst| && src[x..r] == dst[y..r - x + y]
    decreases |src| - x
  {
    if Matches(src, dst, x, y) {
      SnakeIsEqualRun(src, dst, x + 1, y + 1);
      var r := Snake(src, dst, x, y);
      assert src[x..r] == [src[x]] + src[x + 1..r];
      assert dst[y..r - x + y] == [dst[y]] + dst[y + 1..r - x + y];
    }
  }

  /** The point round d - 1 was at before it stepped to diagonal x - y. */
  ghost function PrevX(src: seq<Line>, dst: seq<Line>, k: int, d: int): nat {
    Far(src, dst, PrevK(src, dst, k, d), d - 1)
  }

  ghost function PrevY(src: seq<Line>, dst: seq<Line>, k: int, d: int): int {
    PrevX(src, dst, k, d) - PrevK(src, dst, k, d)
  }

  /** Stepping back from a frontier point stays inside the grid and lands on the frontier before. */
  lemma StepBack(src: seq<Line>, dst: seq<Line>, x: nat, y: nat, d: nat)
    requires OnFrontier(src, dst, x, y, d) && d > 0
    ensures var k := x - y;
            var px, py := PrevX(src, dst, k, d), PrevY(src, dst, k, d);
            var e := Entry(src, dst, k, d);
            && OnFrontier(src, dst, px, py, d - 1) && e <= x
            && (if GoesDown(src, dst, k, d) then e == px && e - k == py + 1 else e == px + 1 && e - k == py)
  {
    var k := x - y;
    FarFromEntry(src, dst, k, d);
    FarIsFurthest(src, dst, PrevK(src, dst, k, d), d - 1);
  }

  /** What round d adds to the script: one edit and the equal lines after it. */
  ghost function StepScript(src: seq<Line>, dst: seq<Line>, x: nat, y: nat, d: nat): seq<Edit>
    requires OnFrontier(src, dst, x, y, d) && d > 0
  {
    var k := x - y;
    StepBack(src, dst, x, y, d);
    var e := Entry(src, dst, k, d);
    var edit := if GoesDown(src, dst, k,
        d) then Insert(dst[PrevY(src, dst, k, d)]) else Delete(src[PrevX(src, dst, k, d)]);
    [edit] + KeepRun(src, dst, e, e - k, x - e)
  }

  lemma {:induction false} KeepRunSpells(src: seq<Line>, dst: seq<Line>, x: nat, y: nat, len: nat)
    requires x + len <= |src| && y + len <= |dst|
    requires src[x..x + len] == dst[y..y + len]
    ensures Transforms(KeepRun(src, dst, x, y, len), src[x..x + len], dst[y..y + len])
    ensures Cost(KeepRun(src, dst, x, y, len)) == 0
  {
    if len > 0 {
      var e := Keep(src[x + len - 1], dst[y + len - 1]);
      assert src[x..x + len] == src[x..x + len - 1] + [e.src];
      assert dst[y..y + len] == dst[y..y + len - 1] + [e.dst];
      assert src[x..x + len][..len - 1] == src[x..x + len - 1];
      assert dst[y..y + len][..len - 1] == dst[y..y + len - 1];
      KeepRunSpells(src, dst, x, y, len - 1);
      Concat(KeepRun(src, dst, x, y, len - 1), [e]);
    }
  }

  /** Scripts for adjacent slices compose. */
  lemma Compose(src: seq<Line>, dst: seq<Line>, a: seq<Edit>, b: seq<Edit>, x: nat, y: nat, x': nat, y': nat)
    requires x <= x' <= |src| && y <= y' <= |dst|
    requires Transforms(a, src[..x], dst[..y]) && Transforms(b, src[x..x'], dst[y..y'])
    ensures Transforms(a + b, src[..x'], dst[..y']) && Cost(a + b) == Cost(a) + Cost(b)
  {
    Concat(a, b);
    assert src[..x] + src[x..x'] == src[..x'] && dst[..y] + dst[y..y'] == dst[..y'];
  }

  /** (x, y) is one insertion or deletion away from (px, py), and edit is that step. */
  predicate IsStep(src: seq<Line>, dst: seq<Line>, edit: Edit, px: nat, py: nat, x: nat, y: nat) {
    match edit
    case Insert(l) => x == px <= |src| && y == py + 1 <= |dst| && l == dst[py]
    case Delete(l) => x == px + 1 <= |src| && y == py <= |dst| && l == src[px]
    case Keep(_, _) => false
  }

  lemma StepSpells(src: seq<Line>, dst: seq<Line>, edit: Edit, px: nat, py: nat, x: nat, y: nat)
    requires IsStep(src, dst, edit, px, py, x, y)
    ensures Transforms([edit], src[px..x], dst[py..y]) && Cost([edit]) == 1
  {
  }

  /** One step of a script: an edit up to (x, y), then equal lines up to (x', y'). */
  lemma ExtendScript(src: seq<Line>, dst: seq<Line>, head: seq<Edit>, edit: Edit,
                     px: nat, py: nat, x: nat, y: nat, x': nat, y': nat)
    requires IsStep(src, dst, edit, px, py, x, y)
    requires x <= x' <= |src| && y <= y' <= |dst| && x' - x == y' - y && src[x..x'] == dst[y..y']
    requires Transforms(head, src[..px], dst[..py])
    ensures var es := head + ([edit] + KeepRun(src, dst, x, y, x' - x));
            Transforms(es, src[..x'], dst[..y']) && Cost(es) == Cost(head) + 1
  {
    var run := KeepRun(src, dst, x, y, x' - x);
    StepSpells(src, dst, edit, px, py, x, y);
    Compose(src, dst, head, [edit], px, py, x, y);
    KeepRunSpells(src, dst, x, y, x' - x);
    Compose(src, dst, head + [edit], run, x, y, x', y');
    assert head + [edit] + run == head + ([edit] + run);
  }

  /** The equal lines between the entry point and the furthest point of a round. */
  lemma EntryRun(src: seq<Line>, dst: seq<Line>, x: nat, y: nat, d: nat)
    requires OnFrontier(src, dst, x, y, d) && d > 0
    ensures var e := Entry(src, dst, x - y, d);
            x - y <= e <= x && src[e..x] == dst[e - (x - y)..y]
  {
    FarFromEntry(src, dst, x - y, d);
    var e := Entry(src, dst, x - y, d);
    SnakeIsEqualRun(src, dst, e, e - (x - y));
  }

  lemma FirstRun(src: seq<Line>, dst: seq<Line>, x: nat, y: nat)
    requires OnFrontier(src, dst, x, y, 0)
    ensures x == y && src[..x] == dst[..y]
  {
    GreedyStart(src, dst);
    FarIsUnique(src, dst, Snake(src, dst, 0, 0), 0, 0);
    SnakeIsEqualRun(src, dst, 0, 0);
    assert src[..x] == src[0..x] && dst[..y] == dst[0..y];
  }

  /** What one round adds is an edit followed by equal lines. */
  lemma StepScriptParts(src: seq<Line>, dst: seq<Line>, x: nat, y: nat, d: nat) returns (e: nat, edit: Edit)
    requires OnFrontier(src, dst, x, y, d) && d > 0
    ensures var k, px, py := x - y, PrevX(src, dst, x - y, d), PrevY(src, dst, x - y, d);
            && OnFrontier(src, dst, px, py, d - 1) && k <= e <= x
            && IsStep(src, dst, edit, px, py, e, e - k) && src[e..x] == dst[e - k..y]
            && StepScript(src, dst, x, y, d) == [edit] + KeepRun(src, dst, e, e - k, x - e)
  {
    var k := x - y;
    StepBack(src, dst, x, y, d);
    EntryRun(src, dst, x, y, d);
    edit := if GoesDown(src, dst, k, d) then Insert(dst[PrevY(src, dst, k, d)]) else Delete(src[PrevX(src, dst, k, d)]);
    e := Entry(src, dst, k, d);
  }

  ghost predicate TransformsFor(es: seq<Edit>, s: seq<Line>, t: seq<Line>, d: nat) {
    Transforms(es, s, t) && Cost(es) == d
  }

  /**
   es turns the x-prefix of src into the y-prefix of dst in d edits. Quantifying over the two
   prefixes keeps the solver from unfolding this except where a proof names TransformsFor.
   */
  ghost predicate Spells(src: seq<Line>, dst: seq<Line>, es: seq<Edit>, x: nat, y: nat, d: nat)
    requires x <= |src| && y <= |dst|
  {
    forall s, t | s == src[..x] && t == dst[..y] :: TransformsFor(es, s, t, d)
  }

  lemma RunSpells(src: seq<Line>, dst: seq<Line>, x: nat)
    requires x <= |src| && x <= |dst| && src[..x] == dst[..x]
    ensures Spells(src, dst, KeepRun(src, dst, 0, 0, x), x, x, 0)
  {
    assert src[..x] == src[0..x] && dst[..x] == dst[0..x];
    KeepRunSpells(src, dst, 0, 0, x);
  }

  /** The script of one more round. */
  lemma RoundSpells(src: seq<Line>, dst: seq<Line>, x: nat, y: nat, d: nat, head: seq<Edit>)
    requires OnFrontier(src, dst, x, y, d) && d > 0
    requires 0 <= PrevX(src, dst, x - y, d) <= |src| && 0 <= PrevY(src, dst, x - y, d) <= |dst|
    requires Spells(src, dst, head, PrevX(src, dst, x - y, d), PrevY(src, dst, x - y, d), d - 1)
    ensures Spells(src, dst, head + StepScript(src, dst, x, y, d), x, y, d)
  {
    var px, py := PrevX(src, dst, x - y, d), PrevY(src, dst, x - y, d);
    var e, edit := StepScriptParts(src, dst, x, y, d);
    assert TransformsFor(head, src[..px], dst[..py], d - 1);
    ExtendScript(src, dst, head, edit, px, py, e, e - (x - y), x, y);
  }

  /** The backtracked script: it turns the x-prefix of src into the y-prefix of dst in d edits. */
  ghost function Backtrack(src: seq<Line>, dst: seq<Line>, x: nat, y: nat, d: nat): (es: seq<Edit>)
    requires OnFrontier(src, dst, x, y, d)
    ensures Spells(src, dst, es, x, y, d)
    decreases d
  {
    if d == 0 then
      FirstRun(src, dst, x, y);
      RunSpells(src, dst, x);
      KeepRun(src, dst, 0, 0, x)
    else
      StepBack(src, dst, x, y, d);
      var head := Backtrack(src, dst, PrevX(src, dst, x - y, d), PrevY(src, dst, x - y, d), d - 1);
      RoundSpells(src, dst, x, y, d, head);
      head + StepScript(src, dst, x, y, d)
  }

  /** The script both engines return. */
  ghost function Script(src: seq<Line>, dst: seq<Line>): seq<Edit> {
    if src == [] then Inserts(dst)
    else if dst == [] then Deletes(src)
    else
      CornerIsFar(src, dst);
      Backtrack(src, dst, |src|, |dst|, Dist(src, dst, |src|, |dst|))
  }

  /** The script is a shortest one for all line lists. */
  lemma ScriptIsShortest(src: seq<Line>, dst: seq<Line>)
    ensures Shortest(Script(src, dst), src, dst)
    ensures Cost(Script(src, dst)) == Dist(src, dst, |src|, |dst|)
  {
    if src == [] {
      InsertsSpell(dst);
    } else if dst == [] {
      DeletesSpell(src);
    } else {
      CornerIsFar(src, dst);
      assert TransformsFor(Script(src, dst), src[..|src|], dst[..|dst|], Dist(src, dst, |src|, |dst|));
      assert src[..|src|] == src && dst[..|dst|] == dst;
    }
    CheapIsShortest(src, dst, Script(src, dst));
  }
}
