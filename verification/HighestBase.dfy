/** When the merge base is the common ancestor of the highest generation. */
module HighestBase {
  import opened Objects
  import opened Reachability
  import opened Discovery
  import opened CommitGraph
  import opened Generations

  ghost predicate Common(store: Store, a: Id, b: Id, x: Id) {
    Ancestor(store, x, a) && Ancestor(store, x, b)
  }

  /** x is a common ancestor, and none has a higher generation. */
  ghost predicate HighestCommon(store: Store, rank: Id -> nat, a: Id, b: Id, x: Id)
    requires Falls(store, rank)
  {
    Common(store, a, b, x) && forall y | Common(store, a, b, y) :: Gen(store, rank, y) <= Gen(store, rank, x)
  }

  /** No common ancestor of a lower generation than y is discovered before y. */
  ghost predicate MetBeforeLower(store: Store, rank: Id -> nat, a: Id, b: Id, y: Id)
    requires Falls(store, rank)
  {
    forall z | Common(store, a, b, z) && Gen(store, rank, z) < Gen(store, rank, y) :: !Before(store, b, z, y)
  }

  /**
   The base has the highest generation exactly when some common ancestor of the highest
   generation is discovered before all common ancestors of lower ones.
   */
  lemma BaseIsHighestExactly(store: Store, rank: Id -> nat, a: Id, b: Id, x: Id)
    requires Falls(store, rank) && BaseIs(store, a, b, x)
    ensures HighestCommon(store, rank, a, b, x) <==>
      exists y :: HighestCommon(store, rank, a, b, y) && MetBeforeLower(store, rank, a, b, y)
  {
    BaseIsFirst(store, a, b, x);
    if HighestCommon(store, rank, a, b, x) {
      assert MetBeforeLower(store, rank, a, b, x);
    }
    if y :| HighestCommon(store, rank, a, b, y) && MetBeforeLower(store, rank, a, b, y) && x != y {
      BaseIsBefore(store, rank, a, b, x, y);
    }
  }

  lemma BaseIsFirst(store: Store, a: Id, b: Id, x: Id)
    requires BaseIs(store, a, b, x)
    ensures Common(store, a, b, x) && forall z | Common(store, a, b, z) :: !Before(store, b, z, x)
  {
    BaseIsNearest(store, a, b, x);
    if a == b { SelfIsFirst(store, a); } else { FoundIsFirst(store, a, b, x); }
  }

  /** Another common ancestor is discovered later, or lower where the base is the commit itself. */
  lemma BaseIsBefore(store: Store, rank: Id -> nat, a: Id, b: Id, x: Id, y: Id)
    requires Falls(store, rank) && BaseIs(store, a, b, x) && Common(store, a, b, y) && x != y
    ensures Before(store, b, x, y) || Gen(store, rank, y) < Gen(store, rank, x)
  {
    if a == b { AncestorIsLower(store, rank, y, a); } else { OtherIsBefore(store, a, b, x, y); }
  }

  // ----- history without merges -----

  /** No commit behind b has more than one parent. */
  ghost predicate Linear(store: Store, b: Id) {
    forall x | Ancestor(store, x, b) :: |Listed(store, x)| <= 1
  }

  /** Over a linear history of the second commit the base always has the highest generation. */
  lemma LinearBaseIsHighest(store: Store, rank: Id -> nat, a: Id, b: Id, x: Id)
    requires Falls(store, rank) && BaseIs(store, a, b, x) && Linear(store, b)
    ensures HighestCommon(store, rank, a, b, x)
  {
    BaseIsNearest(store, a, b, x);
    forall y | Common(store, a, b, y) ensures Gen(store, rank, y) <= Gen(store, rank, x) {
      if y != x {
        BehindBase(store, a, b, x, y);
        AncestorIsLower(store, rank, y, x);
      }
    }
  }

  /** Over linear history every other common ancestor lies behind the base. */
  lemma BehindBase(store: Store, a: Id, b: Id, x: Id, y: Id)
    requires BaseIs(store, a, b, x) && Linear(store, b) && Common(store, a, b, y)
    ensures Ancestor(store, y, x)
  {
    if a != b {
      var w :| MetBy(store, a, b, x, w);
      var v := WayTo(store, b, y);
      SoonerIsTotal(v, w);
      LinearWays(store, b, w, x, v, y);
    }
  }

  lemma WayTo(store: Store, b: Id, y: Id) returns (w: Way)
    requires Ancestor(store, y, b)
    ensures Leads(store, b, w, y)
  {
    var path :| PathFromTo(Ancestry(store), path, b, y);
    PathInLevels(Ancestry(store), path, |path| - 1);
    w := LevelHasWay(store, b, |path| - 1, y);
  }

  lemma {:induction false} PathInLevels(g: Graph, path: seq<Id>, i: nat)
    requires IsPath(g, path) && i < |path|
    ensures path[i] in Level(g, path[0], i)
    decreases i
  {
    if i > 0 {
      PathInLevels(g, path, i - 1);
      NextContains(g, Level(g, path[0], i - 1), path[i - 1]);
    }
  }

  /** A way not empty leads by a commit behind b to a parent of it, the only one where history is linear. */
  lemma LastStep(store: Store, b: Id, v: Way, y: Id) returns (front: Way, d: Id)
    requires Linear(store, b) && Leads(store, b, v, y) && v != []
    ensures |front| == |v| - 1 && Leads(store, b, front, d) && Listed(store, d) == [y]
  {
    front := v[..|v| - 1];
    d := End(store, b, front).id;
    WayReaches(store, b, front, d);
  }

  lemma {:induction false} SameLength(store: Store, b: Id, w: Way, x: Id, v: Way, y: Id)
    requires Linear(store, b) && Leads(store, b, w, x) && Leads(store, b, v, y) && |w| == |v|
    ensures x == y
    decreases |v|
  {
    if v != [] {
      var w', c := LastStep(store, b, w, x);
      var v', d := LastStep(store, b, v, y);
      SameLength(store, b, w', c, v', d);
    }
  }

  /** In linear history a way that is no shorter leads to where the shorter one led or behind it. */
  lemma {:induction false} LinearWays(store: Store, b: Id, w: Way, x: Id, v: Way, y: Id)
    requires Linear(store, b) && Leads(store, b, w, x) && Leads(store, b, v, y) && |w| <= |v|
    ensures Ancestor(store, y, x)
    decreases |v|
  {
    if |w| == |v| {
      SameLength(store, b, w, x, v, y);
      ReachSelf(Ancestry(store), x);
    } else {
      var front, d := LastStep(store, b, v, y);
      LinearWays(store, b, w, x, front, d);
      assert Listed(store, d)[0] == y;
      ReachStep(Ancestry(store), x, d, y);
    }
  }

  // ----- a base that is not the highest -----

  const BY_ID: Id -> nat := id => id

  /** The merge base of 2 and 5 is 1, of generation 0, though 2 is a common ancestor of generation 1. */
  lemma BaseIsNotHighest()
    ensures Falls(TIE, BY_ID) && BaseIs(TIE, 2, 5, 1) && Common(TIE, 2, 5, 2)
    ensures Gen(TIE, BY_ID, 1) == 0 && Gen(TIE, BY_ID, 2) == 1
  {
    FastForwardCanBeRefused(1);
    TieAncestors();
    assert Falls(TIE, BY_ID);
    TieGenerations();
  }

  lemma TieGenerations()
    requires Falls(TIE, BY_ID)
    ensures Gen(TIE, BY_ID, 1) == 0 && Gen(TIE, BY_ID, 2) == 1
  {
    assert TIE[2].parents == [1] && TIE[1].parents == [];
    HighestIsMax(TIE, BY_ID, [1], 2);
    assert [1][0] == 1;
  }
}
