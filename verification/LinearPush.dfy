/** Over a history without merges a fast-forward is never refused. */
module LinearPush {
  import opened Objects
  import opened Reachability
  import opened Discovery
  import opened CommitGraph
  import opened Generations
  import opened HighestBase
  import opened Transport

  /** Without merges there is only one way of each length. */
  lemma {:induction false} OnlyZeros(store: Store, b: Id, w: Way, x: Id)
    requires Linear(store, b) && Leads(store, b, w, x)
    ensures forall i | 0 <= i < |w| :: w[i] == 0
    decreases |w|
  {
    if w != [] {
      var front, d := LastStep(store, b, w, x);
      OnlyZeros(store, b, w[..|w| - 1], End(store, b, w[..|w| - 1]).id);
      WayReaches(store, b, w[..|w| - 1], End(store, b, w[..|w| - 1]).id);
    }
  }

  /** A longer way leads behind a parent of where the shorter one led. */
  lemma {:induction false} StrictlyBehind(store: Store, b: Id, w: Way, x: Id, v: Way, y: Id) returns (p: Id)
    requires Linear(store, b) && Leads(store, b, w, x) && Leads(store, b, v, y) && |w| < |v|
    ensures p in Parents(store, x) && Ancestor(store, y, p)
    decreases |v|
  {
    var front, d := LastStep(store, b, v, y);
    assert Listed(store, d)[0] == y && y in Parents(store, d);
    if |front| == |w| {
      SameLength(store, b, w, x, front, d);
      p := y;
      ReachSelf(Ancestry(store), p);
    } else {
      p := StrictlyBehind(store, b, w, x, front, d);
      ReachStep(Ancestry(store), p, d, y);
    }
  }

  /** Nothing that is discovered before the old commit lies behind it. */
  lemma NothingSooner(store: Store, rank: Id -> nat, prev: Id, next: Id, w: Way, u: Way, y: Id)
    requires Falls(store, rank) && Linear(store, next) && Leads(store, next, w, prev) && Leads(store, next, u, y)
    requires Sooner(u, w)
    ensures !Ancestor(store, y, prev)
  {
    if Ancestor(store, y, prev) {
      LinearWays(store, next, u, y, w, prev);
      if y != prev {
        AncestorIsLower(store, rank, y, prev);
        AncestorIsLower(store, rank, prev, y);
      }
      if |u| < |w| {
        var p := StrictlyBehind(store, next, u, y, w, prev);
        GenFalls(store, rank, y, p);
        if p != prev { AncestorIsLower(store, rank, prev, p); }
      } else {
        OnlyZeros(store, next, u, y);
        OnlyZeros(store, next, w, prev);
        assert u == w;
        SoonerIsStrict(u, w);
      }
    }
  }

  /** Without merges behind the new commit, each of its ancestors is the merge base of the two. */
  lemma LinearBaseIsOld(store: Store, rank: Id -> nat, prev: Id, next: Id)
    requires Falls(store, rank) && Readable(store, next) && Linear(store, next) && Ancestor(store, prev, next)
    ensures BaseIs(store, prev, next, prev)
  {
    if prev != next {
      var w := WayTo(store, next, prev);
      ReachSelf(Ancestry(store), prev);
      forall x | Ancestor(store, x, prev) ensures IsCommit(store, x) {
        ReachTrans(Ancestry(store), next, prev, x);
      }
      forall u, y | Leads(store, next, u, y) && Sooner(u, w) ensures !Ancestor(store, y, prev) && IsCommit(store, y) {
        NothingSooner(store, rank, prev, next, w, u, y);
        WayReaches(store, next, u, y);
      }
      assert MetBy(store, prev, next, prev, w);
    }
  }

  /** So a push that moves a ref on along such a history, from the value it has, is accepted. */
  lemma LinearPushIsAccepted(store: Store, rank: Id -> nat, refs: Refs, u: RefUpdate, refs': Refs, ok: bool)
    requires Applied(store, refs, u, refs', ok) && Resolve(refs, u.name) == u.prev != ZERO
    requires Falls(store, rank) && Readable(store, u.next) && Linear(store, u.next) && Ancestor(store, u.prev, u.next)
    ensures ok && refs' == refs[u.name := u.next]
  {
    ReachSelf(Ancestry(store), u.next);
    LinearBaseIsOld(store, rank, u.prev, u.next);
    assert IsCommit(store, u.next) && FastForwards(store, u.prev, u.next);
  }
}
