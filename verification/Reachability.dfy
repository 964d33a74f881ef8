/** Paths and distances in a graph given by its successor function. */
module Reachability {
  import opened Objects

  type Graph = Id -> set<Id>

  ghost predicate IsPath(g: Graph, p: seq<Id>) {
    p != [] && forall i | 0 <= i < |p| - 1 :: p[i + 1] in g(p[i])
  }

  ghost predicate PathFromTo(g: Graph, p: seq<Id>, a: Id, b: Id) {
    IsPath(g, p) && p[0] == a && p[|p| - 1] == b
  }

  /** b can be reached from a in any number of steps. */
  ghost predicate Reach(g: Graph, a: Id, b: Id) {
    exists p :: PathFromTo(g, p, a, b)
  }

  lemma ReachSelf(g: Graph, a: Id)
    ensures Reach(g, a, a)
  {
    assert PathFromTo(g, [a], a, a);
  }

  lemma ReachStep(g: Graph, a: Id, b: Id, c: Id)
    requires Reach(g, a, b) && c in g(b)
    ensures Reach(g, a, c)
  {
    var p :| PathFromTo(g, p, a, b);
    assert PathFromTo(g, p + [c], a, c);
  }

  lemma ReachTrans(g: Graph, a: Id, b: Id, c: Id)
    requires Reach(g, a, b) && Reach(g, b, c)
    ensures Reach(g, a, c)
  {
    var p :| PathFromTo(g, p, a, b);
    var q :| PathFromTo(g, q, b, c);
    var r := p + q[1..];
    forall i | 0 <= i < |r| - 1 ensures r[i + 1] in g(r[i]) {
      if i < |p| - 1 {
        assert r[i] == p[i] && r[i + 1] == p[i + 1];
      } else {
        assert r[i] == q[i - |p| + 1] && r[i + 1] == q[i - |p| + 2];
      }
    }
    assert PathFromTo(g, r, a, c);
  }

  /** Nothing leads out of the set. */
  ghost predicate Closed(g: Graph, s: set<Id>) {
    forall x | x in s :: g(x) <= s
  }

  lemma {:induction false} PathStaysInside(g: Graph, s: set<Id>, p: seq<Id>, i: nat)
    requires Closed(g, s) && IsPath(g, p) && p[0] in s && i < |p|
    ensures p[i] in s
    decreases i
  {
    if i > 0 {
      PathStaysInside(g, s, p, i - 1);
    }
  }

  lemma ClosedContainsReach(g: Graph, s: set<Id>, a: Id, b: Id)
    requires Closed(g, s) && a in s && Reach(g, a, b)
    ensures b in s
  {
    var p :| PathFromTo(g, p, a, b);
    PathStaysInside(g, s, p, |p| - 1);
  }

  /** Everything within n steps of a. */
  ghost function Level(g: Graph, a: Id, n: nat): set<Id> {
    if n == 0 then {a} else Level(g, a, n - 1) + Next(g, Level(g, a, n - 1))
  }

  ghost function Next(g: Graph, s: set<Id>): set<Id> {
    set x, y | x in s && y in g(x) :: y
  }

  lemma NextContains(g: Graph, s: set<Id>, x: Id)
    requires x in s
    ensures g(x) <= Next(g, s)
  {
  }

  lemma {:induction false} LevelGrows(g: Graph, a: Id, m: nat, n: nat)
    requires m <= n
    ensures Level(g, a, m) <= Level(g, a, n)
    decreases n
  {
    if m < n {
      LevelGrows(g, a, m, n - 1);
    }
  }
}
