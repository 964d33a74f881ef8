/**
 The edit graph of two line lists. A point (x, y) stands for the first x lines of src and
 the first y lines of dst. The grid is extended to all naturals: the greedy search steps
 right of and below the real grid, where only unmatched steps exist.
 */
module EditGraph {
  import opened Edits
  import opened Numbers

  /** There is a free diagonal step out of (x, y). */
  predicate Matches(src: seq<Line>, dst: seq<Line>, x: nat, y: nat) {
    x < |src| && y < |dst| && src[x] == dst[y]
  }

  /** Fewest right and down steps that lead from (0, 0) to (x, y). */
  ghost function Dist(src: seq<Line>, dst: seq<Line>, x: nat, y: nat): nat
    decreases x + y
  {
    if x == 0 then y
    else if y == 0 then x
    else
      var step := 1 + Min(Dist(src, dst, x - 1, y), Dist(src, dst, x, y - 1));
      if Matches(src, dst, x - 1, y - 1) then Min(step, Dist(src, dst, x - 1, y - 1)) else step
  }

  lemma {:induction false} DistBounds(src: seq<Line>, dst: seq<Line>, x: nat, y: nat)
    ensures x - y <= Dist(src, dst, x, y) && y - x <= Dist(src, dst, x, y) <= x + y
    decreases x + y
  {
    if x > 0 && y > 0 {
      DistBounds(src, dst, x - 1, y);
      DistBounds(src, dst, x, y - 1);
      DistBounds(src, dst, x - 1, y - 1);
    }
  }

  predicate SameParity(a: int, b: int) { (a - b) % 2 == 0 }

  /** Where the cheapest way to (x, y) comes from. */
  lemma LastStep(src: seq<Line>, dst: seq<Line>, x: nat, y: nat) returns (dx: nat, dy: nat, d: nat)
    requires x > 0 && y > 0
    ensures dx <= 1 && dy <= 1 && dx + dy > 0 && d == Dist(src, dst, x - dx, y - dy)
    ensures Dist(src, dst, x, y) == d + (if dx + dy == 1 then 1 else 0)
    ensures dx + dy == 2 ==> Matches(src, dst, x - 1, y - 1)
  {
    if Dist(src, dst, x, y) == 1 + Dist(src, dst, x - 1, y) {
      dx, dy := 1, 0;
    } else if Dist(src, dst, x, y) == 1 + Dist(src, dst, x, y - 1) {
      dx, dy := 0, 1;
    } else {
      dx, dy := 1, 1;
    }
    d := Dist(src, dst, x - dx, y - dy);
  }

  lemma ParityStep(k: int, d: int, dx: nat, dy: nat)
    requires dx <= 1 && dy <= 1 && dx + dy > 0 && SameParity(k - dx + dy, d)
    ensures SameParity(k, d + (if dx + dy == 1 then 1 else 0))
  {
  }

  lemma {:induction false} DistParity(src: seq<Line>, dst: seq<Line>, x: nat, y: nat, d: nat)
    requires d == Dist(src, dst, x, y)
    ensures SameParity(x - y, d)
    decreases x + y
  {
    if x == 0 || y == 0 {
    } else {
      var dx, dy, d' := LastStep(src, dst, x, y);
      DistParity(src, dst, x - dx, y - dy, d');
      ParityStep(x - y, d', dx, dy);
    }
  }

  /** Neighbouring points differ by at most one. */
  lemma {:induction false} Neighbours(src: seq<Line>, dst: seq<Line>, x: nat, y: nat)
    ensures Dist(src, dst, x + 1, y) <= Dist(src, dst, x, y) + 1
    ensures Dist(src, dst, x, y + 1) <= Dist(src, dst, x, y) + 1
    ensures Dist(src, dst, x, y) <= Dist(src, dst, x + 1, y) + 1
    ensures Dist(src, dst, x, y) <= Dist(src, dst, x, y + 1) + 1
    decreases x + y
  {
    if x > 0 { Neighbours(src, dst, x - 1, y); }
    if y > 0 { Neighbours(src, dst, x, y - 1); }
  }

  /** Moving down a diagonal never gets cheaper. */
  lemma {:induction false} DiagonalMonotone(src: seq<Line>, dst: seq<Line>, x: nat, y: nat, x': nat, y': nat)
    requires x <= x' && x' - x == y' - y
    ensures Dist(src, dst, x, y) <= Dist(src, dst, x', y')
    decreases x'
  {
    if x < x' {
      DiagonalMonotone(src, dst, x, y, x' - 1, y' - 1);
      Neighbours(src, dst, x' - 1, y' - 1);
    }
  }

  /** Outside the grid every step has to be paid for. */
  lemma {:induction false} OutsideCosts(src: seq<Line>, dst: seq<Line>, x: nat, y: nat)
    ensures var x', y' := Min(x, |src|), Min(y, |dst|);
            Dist(src, dst, x, y) >= Dist(src, dst, x', y') + (x - x') + (y - y')
    decreases x + y
  {
    if (x > |src| || y > |dst|) && x > 0 && y > 0 {
      var dx, dy, d := LastStep(src, dst, x, y);
      OutsideCosts(src, dst, x - dx, y - dy);
      var x', y' := Min(x, |src|), Min(y, |dst|);
      if dx == 1 && 0 < x <= |src| {
        Neighbours(src, dst, x' - 1, y');
      } else if dy == 1 && 0 < y <= |dst| {
        Neighbours(src, dst, x', y' - 1);
      }
    }
  }

  lemma MatchIsFree(src: seq<Line>, dst: seq<Line>, x: nat, y: nat)
    requires Matches(src, dst, x, y)
    ensures Dist(src, dst, x + 1, y + 1) <= Dist(src, dst, x, y)
  {
  }

  lemma UnmatchedStep(src: seq<Line>, dst: seq<Line>, x: nat, y: nat)
    requires !Matches(src, dst, x, y)
    ensures Dist(src, dst, x + 1, y + 1) == 1 + Min(Dist(src, dst, x, y + 1), Dist(src, dst, x + 1, y))
  {
  }

  /** What the first edit of a script says about the lists. */
  lemma HeadEdit(src: seq<Line>, dst: seq<Line>, es: seq<Edit>, x: nat, y: nat)
    requires x <= |src| && y <= |dst| && Transforms(es, src[x..], dst[y..]) && es != []
    ensures es[0].Keep? ==> Matches(src, dst, x, y) && Transforms(es[1..], src[x + 1..], dst[y + 1..])
    ensures es[0].Insert? ==> y < |dst| && Transforms(es[1..], src[x..], dst[y + 1..])
    ensures es[0].Delete? ==> x < |src| && Transforms(es[1..], src[x + 1..], dst[y..])
  {
    var rest := es[1..];
    assert forall i | 0 <= i < |rest| :: rest[i] == es[i + 1];
    if !es[0].Insert? {
      assert src[x..][0] == es[0].src && SrcLines(rest) == src[x..][1..] == src[x + 1..];
    }
    if !es[0].Delete? {
      assert dst[y..][0] == es[0].dst && DstLines(rest) == dst[y..][1..] == dst[y + 1..];
    }
  }

  /** Dist is a lower bound on every script: the rest of a script pays for the rest of the way. */
  lemma {:induction false} ScriptsPay(src: seq<Line>, dst: seq<Line>, es: seq<Edit>, x: nat, y: nat)
    requires x <= |src| && y <= |dst| && Transforms(es, src[x..], dst[y..])
    ensures Dist(src, dst, |src|, |dst|) <= Dist(src, dst, x, y) + Cost(es)
    decreases |es|
  {
    if es == [] {
    } else {
      HeadEdit(src, dst, es, x, y);
      Neighbours(src, dst, x, y);
      match es[0] {
        case Keep(_, _) =>
          MatchIsFree(src, dst, x, y);
          ScriptsPay(src, dst, es[1..], x + 1, y + 1);
        case Insert(_) =>
          ScriptsPay(src, dst, es[1..], x, y + 1);
        case Delete(_) =>
          ScriptsPay(src, dst, es[1..], x + 1, y);
      }
    }
  }

  /** A script as cheap as the distance is a shortest one. */
  lemma CheapIsShortest(src: seq<Line>, dst: seq<Line>, es: seq<Edit>)
    requires Transforms(es, src, dst) && Cost(es) <= Dist(src, dst, |src|, |dst|)
    ensures Shortest(es, src, dst) && Cost(es) == Dist(src, dst, |src|, |dst|)
  {
    assert src[0..] == src && dst[0..] == dst;
    forall other | Transforms(other, src, dst) ensures Dist(src, dst, |src|, |dst|) <= Cost(other) {
      ScriptsPay(src, dst, other, 0, 0);
    }
  }
}
