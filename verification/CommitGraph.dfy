/** Ancestry in the commit graph: breadth-first walks and the merge base. */
module CommitGraph {
  import opened Objects
  import opened Reachability
  import opened Walks
  import opened Discovery

  /** What a walk from a single commit reaches are its ancestors. */
  lemma FromOne(store: Store, b: Id)
    ensures forall x :: From(Ancestry(store), {b}, x) <==> Ancestor(store, x, b)
  {
    assert b in {b};
  }

  ghost predicate AllCommits(store: Store, s: set<Id>) {
    forall x | x in s :: IsCommit(store, x)
  }

  /** Every ancestor, or the failure to read one of them. */
  method CollectAncestors(store: Store, start: Id) returns (ok: bool, seen: set<Id>)
    ensures ok ==> forall x :: x in seen <==> Ancestor(store, x, start)
    ensures ok <==> forall x :: Ancestor(store, x, start) ==> IsCommit(store, x)
  {
    var queue := [start];
    seen := {start};
    ghost var g, done: set<Id> := Ancestry(store), {};
    FromOne(store, start);
    WalkStarts(g, [start]);
    assert Elems([start]) == {start} by { assert [start][0] == start; }
    while queue != []
      invariant Walking(g, {start}, done, queue, seen) && AllCommits(store, done)
      decreases store.Keys - done
    {
      var curr := queue[0];
      QueueHead(g, {start}, done, queue, seen);
      if curr !in store || !store[curr].Commit? {
        return false, seen;
      }
      ghost var queue0, seen0 := queue, seen;
      queue, seen := Enqueue(store[curr].parents, queue[1..], seen);
      WalkingStep(g, {start}, done, queue0, seen0, store[curr].parents);
      done := done + {curr};
    }
    WalkingDone(g, {start}, done, seen);
    return true, seen;
  }

  // ----- merge base -----

  datatype BaseResult = Found(id: Id) | NoCommonAncestor | Unreadable

  /** x is a common ancestor of a and b, and no common ancestor is fewer steps from b. */
  ghost predicate NearestCommon(store: Store, a: Id, b: Id, x: Id) {
    && Ancestor(store, x, a) && Ancestor(store, x, b)
    && forall n: nat, y | Ancestor(store, y, a) && y in Level(Ancestry(store), b, n) ::
      x in Level(Ancestry(store), b, n)
  }

  /** Nothing before this way is an ancestor of a, and everything before it can be read. */
  ghost predicate Clear(store: Store, a: Id, b: Id, w: Way) {
    forall v, y | Leads(store, b, v, y) && Sooner(v, w) :: !Ancestor(store, y, a) && IsCommit(store, y)
  }

  ghost predicate MetBy(store: Store, a: Id, b: Id, x: Id, w: Way) {
    Leads(store, b, w, x) && Ancestor(store, x, a) && Clear(store, a, b, w)
  }

  /** x is the first ancestor of a in the order of discovery from b. */
  ghost predicate FirstCommon(store: Store, a: Id, b: Id, x: Id) {
    exists w :: MetBy(store, a, b, x, w)
  }

  ghost predicate StuckAt(store: Store, a: Id, b: Id, y: Id, w: Way) {
    Leads(store, b, w, y) && !Ancestor(store, y, a) && !IsCommit(store, y) && Clear(store, a, b, w)
  }

  /** Something that cannot be read comes before every ancestor of a. */
  ghost predicate Stuck(store: Store, a: Id, b: Id) {
    exists w, y :: StuckAt(store, a, b, y, w)
  }

  /** Two ends of the search are the same one. */
  lemma OneEnd(store: Store, a: Id, b: Id, x: Id, v: Way, y: Id, w: Way)
    requires Leads(store, b, v, x) && Clear(store, a, b, v) && Leads(store, b, w, y) && Clear(store, a, b, w)
    requires Ancestor(store, x, a) || !IsCommit(store, x)
    requires Ancestor(store, y, a) || !IsCommit(store, y)
    ensures x == y
  {
    SoonerIsTotal(v, w);
  }

  lemma FirstIsOne(store: Store, a: Id, b: Id, x: Id, y: Id)
    requires FirstCommon(store, a, b, x)
    ensures FirstCommon(store, a, b, y) ==> x == y
    ensures !Stuck(store, a, b)
  {
    var v :| MetBy(store, a, b, x, v);
    if FirstCommon(store, a, b, y) {
      var w :| MetBy(store, a, b, y, w);
      OneEnd(store, a, b, x, v, y, w);
    }
    if Stuck(store, a, b) {
      var w, z :| StuckAt(store, a, b, z, w);
      OneEnd(store, a, b, x, v, z, w);
    }
  }

  /** The first common ancestor is also a nearest one. */
  lemma FirstIsNearest(store: Store, a: Id, b: Id, x: Id)
    requires FirstCommon(store, a, b, x)
    ensures NearestCommon(store, a, b, x)
  {
    var w :| MetBy(store, a, b, x, w);
    WayReaches(store, b, w, x);
    forall n: nat, y | Ancestor(store, y, a) && y in Level(Ancestry(store), b, n)
      ensures x in Level(Ancestry(store), b, n)
    {
      var v := LevelHasWay(store, b, n, y);
      SoonerIsTotal(v, w);
      LevelGrows(Ancestry(store), b, |w|, n);
    }
  }

  /** When the walk takes up the head of its queue, nothing before it was an ancestor of a. */
  lemma HeadIsClear(store: Store, a: Id, b: Id, anc: set<Id>, done: set<Id>, queue: seq<Id>, ways: Ways)
    requires Discovering(store, b, done, queue, ways) && queue != [] && AllCommits(store, done)
    requires done !! anc && forall x :: x in anc <==> Ancestor(store, x, a)
    ensures queue[0] in ways && Leads(store, b, ways[queue[0]], queue[0]) && Clear(store, a, b, ways[queue[0]])
  {
    HeadIsFirst(store, b, done, queue, ways);
    forall v, y | Leads(store, b, v, y) && Sooner(v, ways[queue[0]])
      ensures !Ancestor(store, y, a) && IsCommit(store, y)
    {
      if y !in done {
        HeadBefore(store, b, done, queue, ways, v, y);
        SoonerIsStrict(v, ways[queue[0]]);
      }
    }
  }

  /** The first ancestor of a met by a breadth-first walk from b. */
  method FirstMet(store: Store, ghost a: Id, b: Id, anc: set<Id>) returns (r: BaseResult)
    requires forall x :: x in anc <==> Ancestor(store, x, a)
    ensures r.Found? ==> FirstCommon(store, a, b, r.id)
    ensures r.NoCommonAncestor? ==> forall x :: !(Ancestor(store, x, a) && Ancestor(store, x, b))
    ensures r.Unreadable? ==> Stuck(store, a, b)
  {
    var queue, visited := [b], {b};
    ghost var g, done: set<Id>, ways: Ways := Ancestry(store), {}, map[b := []];
    FromOne(store, b);
    WalkStarts(g, [b]);
    DiscoveryStarts(store, b);
    assert Elems([b]) == {b} by { assert [b][0] == b; }
    while queue != []
      invariant Walking(g, {b}, done, queue, visited) && AllCommits(store, done)
      invariant Discovering(store, b, done, queue, ways) && ways.Keys == visited && done !! anc
      decreases store.Keys - done
    {
      var curr := queue[0];
      QueueHead(g, {b}, done, queue, visited);
      HeadIsClear(store, a, b, anc, done, queue, ways);
      if curr in anc {
        assert MetBy(store, a, b, curr, ways[curr]);
        return Found(curr);
      }
      if curr !in store || !store[curr].Commit? {
        assert StuckAt(store, a, b, curr, ways[curr]);
        return Unreadable;
      }
      ghost var queue0, visited0 := queue, visited;
      queue, visited := Enqueue(store[curr].parents, queue[1..], visited);
      WalkingStep(g, {b}, done, queue0, visited0, store[curr].parents);
      QueueIsDistinct(g, {b}, done, queue0, visited0);
      ways := DiscoveryStep(store, b, done, queue0, ways);
      done := done + {curr};
    }
    WalkingDone(g, {b}, done, visited);
    return NoCommonAncestor;
  }

  /** Every ancestor can be read as a commit. */
  ghost predicate Readable(store: Store, id: Id) {
    forall x | Ancestor(store, x, id) :: IsCommit(store, x)
  }

  /** What the merge base is: the first ancestor of a that a breadth-first walk from b discovers. */
  ghost predicate BaseIs(store: Store, a: Id, b: Id, x: Id) {
    if a == b then x == a else Readable(store, a) && FirstCommon(store, a, b, x)
  }

  /**
   The merge base exactly: it is the common ancestor discovered first; not found means there is
   none; an error means a commit on the way could not be read.
   */
  method MergeBase(store: Store, a: Id, b: Id) returns (r: BaseResult)
    ensures forall x :: r == Found(x) <==> BaseIs(store, a, b, x)
    ensures r.NoCommonAncestor? ==> forall x :: !(Ancestor(store, x, a) && Ancestor(store, x, b))
    ensures r.Unreadable? ==> exists x :: (Ancestor(store, x, a) || Ancestor(store, x, b)) && !IsCommit(store, x)
  {
    if a == b {
      return Found(a);
    }
    var ok, ancestorsA := CollectAncestors(store, a);
    if !ok {
      return Unreadable;
    }
    r := FirstMet(store, a, b, ancestorsA);
    BaseIsExact(store, a, b, r);
  }

  /** The three outcomes of the search exclude each other. */
  lemma BaseIsExact(store: Store, a: Id, b: Id, r: BaseResult)
    requires r.Found? ==> FirstCommon(store, a, b, r.id)
    requires r.NoCommonAncestor? ==> forall x :: !(Ancestor(store, x, a) && Ancestor(store, x, b))
    requires r.Unreadable? ==> Stuck(store, a, b)
    ensures forall x :: r == Found(x) <==> FirstCommon(store, a, b, x)
    ensures r.Unreadable? ==> exists x :: Ancestor(store, x, b) && !IsCommit(store, x)
  {
    forall x | FirstCommon(store, a, b, x) ensures r == Found(x) {
      FirstIsNearest(store, a, b, x);
      FirstIsOne(store, a, b, x, if r.Found? then r.id else x);
    }
    if r.Unreadable? {
      var w, y :| StuckAt(store, a, b, y, w);
      WayReaches(store, b, w, y);
    }
  }

  lemma BaseIsNearest(store: Store, a: Id, b: Id, x: Id)
    requires BaseIs(store, a, b, x)
    ensures NearestCommon(store, a, b, x)
  {
    if a == b { SelfIsNearest(store, a); } else { FirstIsNearest(store, a, b, x); }
  }

  lemma SelfIsNearest(store: Store, a: Id)
    ensures NearestCommon(store, a, a, a)
  {
    ReachSelf(Ancestry(store), a);
    forall n: nat ensures a in Level(Ancestry(store), a, n) {
      LevelGrows(Ancestry(store), a, 0, n);
    }
  }

  /** Over readable history there is a merge base exactly when there is a common ancestor. */
  lemma BaseExists(store: Store, a: Id, b: Id, r: BaseResult)
    requires Readable(store, a) && Readable(store, b)
    requires r.Found? ==> BaseIs(store, a, b, r.id)
    requires r.NoCommonAncestor? ==> forall x :: !(Ancestor(store, x, a) && Ancestor(store, x, b))
    requires r.Unreadable? ==> exists x :: (Ancestor(store, x, a) || Ancestor(store, x, b)) && !IsCommit(store, x)
    ensures !r.Unreadable? && (r.Found? <==> exists x :: Ancestor(store, x, a) && Ancestor(store, x, b))
  {
    if r.Found? {
      BaseIsNearest(store, a, b, r.id);
    }
  }

  // ----- what the merge base says about a fast-forward -----

  /** A base equal to the old commit means the old commit is an ancestor of the new one. */
  lemma BaseIsOldIsFastForward(store: Store, prev: Id, next: Id)
    requires BaseIs(store, prev, next, prev)
    ensures Ancestor(store, prev, next)
  {
    BaseIsNearest(store, prev, next, prev);
  }

  /** A walk from b discovers y before x. */
  ghost predicate Before(store: Store, b: Id, y: Id, x: Id) {
    exists v :: Leads(store, b, v, y) && forall w | Leads(store, b, w, x) :: Sooner(v, w)
  }

  /**
   Over readable history the old commit is the base, and the update is seen as a fast-forward,
   exactly when it is an ancestor of the new one and none of its own ancestors is discovered before it.
   */
  lemma FastForwardExactly(store: Store, prev: Id, next: Id, r: BaseResult)
    requires Readable(store, prev) && Readable(store, next)
    requires forall x :: r == Found(x) <==> BaseIs(store, prev, next, x)
    requires r.NoCommonAncestor? ==> forall x :: !(Ancestor(store, x, prev) && Ancestor(store, x, next))
    requires r.Unreadable? ==> exists x :: (Ancestor(store, x, prev) || Ancestor(store, x, next)) && !IsCommit(store, x)
    ensures r == Found(prev) <==>
      Ancestor(store, prev, next) && forall y | Ancestor(store, y, prev) && y != prev :: !Before(store, next, y, prev)
  {
    ReachSelf(Ancestry(store), prev);
    if prev == next {
      SelfIsFirst(store, prev);
    } else {
      if r == Found(prev) {
        BaseIsOldIsFastForward(store, prev, next);
        FoundIsFirst(store, prev, next, prev);
      }
      if Ancestor(store, prev, next) && r != Found(prev) {
        BaseExists(store, prev, next, r);
        OtherIsBefore(store, prev, next, r.id, prev);
        BaseIsNearest(store, prev, next, r.id);
      }
    }
  }

  lemma SelfIsFirst(store: Store, a: Id)
    ensures Ancestor(store, a, a) && forall y :: !Before(store, a, y, a)
  {
    ReachSelf(Ancestry(store), a);
    forall y, v | Leads(store, a, v, y) ensures exists w :: Leads(store, a, w, a) && !Sooner(v, w) {
      assert Leads(store, a, [], a) && !Sooner(v, []);
    }
  }

  /** No common ancestor is discovered before the first one. */
  lemma FoundIsFirst(store: Store, a: Id, b: Id, x: Id)
    requires FirstCommon(store, a, b, x)
    ensures forall y | Ancestor(store, y, a) :: !Before(store, b, y, x)
  {
    var w :| MetBy(store, a, b, x, w);
    forall y, v | Ancestor(store, y, a) && Leads(store, b, v, y)
      ensures exists u :: Leads(store, b, u, x) && !Sooner(v, u)
    {
      assert Leads(store, b, w, x) && !Sooner(v, w);
    }
  }

  /** The first common ancestor is discovered before every other ancestor of a. */
  lemma OtherIsBefore(store: Store, a: Id, b: Id, x: Id, y: Id)
    requires FirstCommon(store, a, b, x) && x != y && Ancestor(store, y, a)
    ensures Before(store, b, x, y)
  {
    var w :| MetBy(store, a, b, x, w);
    forall u | Leads(store, b, u, y) ensures Sooner(w, u) {
      SoonerIsTotal(w, u);
    }
  }

  /** 2 is on top of 1 and 3 on top of 2; 4 was made from 1 beside them, and 5 merges 3 into 4. */
  const TIE: Store :=
    map[1 := Commit(9, []), 2 := Commit(9, [1]), 3 := Commit(9, [2]), 4 := Commit(9, [1]), 5 := Commit(9, [4, 3])]

  /**
   The fast-forward test can refuse a true fast-forward: 2 is an ancestor of 5, but their merge
   base is 1, which is as near and is discovered first.
   */
  lemma FastForwardCanBeRefused(x: Id)
    ensures Ancestor(TIE, 2, 5) && (BaseIs(TIE, 2, 5, x) <==> x == 1)
  {
    TieParents();
    TieAncestors();
    TieWays();
    assert MetBy(TIE, 2, 5, 1, [0, 0]);
    FirstIsOne(TIE, 2, 5, 1, x);
  }

  lemma TieParents()
    ensures Parents(TIE, 1) == {} && Parents(TIE, 2) == {1} && Parents(TIE, 3) == {2} && Parents(TIE, 5) == {3, 4}
  {
    assert [1][0] == 1 && [2][0] == 2 && [4, 3][0] == 4 && [4, 3][1] == 3;
    assert TIE[1].parents == [] && TIE[2].parents == [1] && TIE[3].parents == [2] && TIE[5].parents == [4, 3];
  }

  lemma TieAncestors()
    ensures Ancestor(TIE, 2, 5) && Readable(TIE, 2)
    ensures forall y :: Ancestor(TIE, y, 2) <==> y in {1, 2}
  {
    var g := Ancestry(TIE);
    TieParents();
    ReachSelf(g, 5);
    ReachStep(g, 5, 5, 3);
    ReachStep(g, 5, 3, 2);
    ReachSelf(g, 2);
    ReachStep(g, 2, 2, 1);
    assert Closed(g, {1, 2});
    forall y | Ancestor(TIE, y, 2) ensures y in {1, 2} {
      ClosedContainsReach(g, {1, 2}, 2, y);
    }
  }

  /** The first way to 1 goes by 4, and nothing before it is 1 or 2. */
  lemma TieWays()
    ensures Leads(TIE, 5, [0, 0], 1)
    ensures forall v, y | Leads(TIE, 5, v, y) && Sooner(v, [0, 0]) :: y in {3, 4, 5}
  {
    assert Leads(TIE, 5, [0], 4) by { EndSnoc(TIE, 5, [], 0, 5); }
    EndSnoc(TIE, 5, [0], 0, 4);
    forall v, y | Leads(TIE, 5, v, y) && Sooner(v, [0, 0]) ensures y in {3, 4, 5} {
      NothingBeforeZeros(v);
      if |v| == 1 { OneStep(v, y); }
    }
  }

  lemma OneStep(v: Way, y: Id)
    requires Leads(TIE, 5, v, y) && |v| == 1
    ensures y in {3, 4}
  {
    assert v[..0] == [] && Leads(TIE, 5, [], 5);
  }

  lemma NothingBeforeZeros(v: Way)
    requires Sooner(v, [0, 0])
    ensures |v| < 2
  {
    if |v| == 2 {
      var zeros: Way := [0, 0];
      assert zeros[..1] == [0];
      assert !Earlier(v[..1], [0]);
    }
  }
}
