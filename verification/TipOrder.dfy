/** Discovery from several tips: as from one commit that has the tips as its parents. */
module TipOrder {
  import opened Objects
  import opened Reachability
  import opened Walks
  import opened Discovery

  /** A way from the tips: which tip to start from, and the way from there. */
  ghost predicate LeadsFrom(store: Store, tips: seq<Id>, w: Way, x: Id) {
    w != [] && w[0] < |tips| && Leads(store, tips[w[0]], w[1..], x)
  }

  /** A walk from the tips discovers y before x. */
  ghost predicate BeforeFrom(store: Store, tips: seq<Id>, y: Id, x: Id) {
    exists v :: LeadsFrom(store, tips, v, y) && forall w | LeadsFrom(store, tips, w, x) :: Sooner(v, w)
  }

  /** Nothing has this ID, and nothing names it. */
  ghost predicate Unused(store: Store, tips: seq<Id>, root: Id) {
    root !in store && root !in tips && forall c :: root !in Listed(store, c)
  }

  lemma {:induction false} AboveAll(s: set<Id>) returns (bound: Id)
    ensures forall x | x in s :: x < bound
    decreases |s|
  {
    bound := 0;
    if s != {} {
      var x :| x in s;
      var b := AboveAll(s - {x});
      bound := b + x + 1;
      assert forall y | y in s :: y == x || y in s - {x};
    }
  }

  lemma UnusedExists(store: Store, tips: seq<Id>) returns (root: Id)
    ensures Unused(store, tips, root)
  {
    var named := set c, p | c in store.Keys && p in Parents(store, c) :: p;
    var all := store.Keys + Elems(tips) + named;
    root := AboveAll(all);
    assert forall t | t in tips :: t in Elems(tips) && t in all;
    forall c, p | p in Listed(store, c) ensures p in all {
      assert p in Parents(store, c) && p in named;
    }
  }

  /** The store with a commit on top that has the tips as its parents. */
  function Rooted(store: Store, tips: seq<Id>, root: Id): Store {
    store[root := Commit(0, tips)]
  }

  lemma {:induction false} NeverAtRoot(store: Store, tips: seq<Id>, root: Id, t: Id, w: Way)
    requires Unused(store, tips, root) && t != root
    ensures End(store, t, w) != At(root)
    decreases |w|
  {
    if w != [] { NeverAtRoot(store, tips, root, t, w[..|w| - 1]); }
  }

  /** Ways from the root are ways from the tips. */
  lemma {:induction false} RootedEnd(store: Store, tips: seq<Id>, root: Id, w: Way)
    requires Unused(store, tips, root) && w != []
    ensures End(Rooted(store, tips, root), root, w)
         == if w[0] < |tips| then End(store, tips[w[0]], w[1..]) else Nowhere
    decreases |w|
  {
    var rooted, front, i := Rooted(store, tips, root), w[..|w| - 1], w[|w| - 1];
    if front == [] {
      assert End(rooted, root, front) == At(root) && Listed(rooted, root) == tips;
    } else {
      RootedEnd(store, tips, root, front);
      if w[0] < |tips| {
        assert front[1..] == w[1..][..|w[1..]| - 1];
        NeverAtRoot(store, tips, root, tips[w[0]], front[1..]);
      }
    }
  }

  lemma RootedLeads(store: Store, tips: seq<Id>, root: Id, w: Way, x: Id)
    requires Unused(store, tips, root) && x != root
    ensures Leads(Rooted(store, tips, root), root, w, x) <==> LeadsFrom(store, tips, w, x)
  {
    if w != [] { RootedEnd(store, tips, root, w); }
  }

  lemma {:induction false} FreshWithout(ps: seq<Id>, seen: set<Id>, root: Id)
    requires root !in ps
    ensures Fresh(ps, seen + {root}) == Fresh(ps, seen)
    decreases |ps|
  {
    if ps != [] { FreshWithout(ps[..|ps| - 1], seen, root); }
  }

  /** The walk from the tips, as the walk from the root with the root done. */
  ghost predicate DiscoveringFrom(store: Store, tips: seq<Id>, root: Id, done: set<Id>, queue: seq<Id>, ways: Ways) {
    Unused(store, tips, root) && Discovering(Rooted(store, tips, root), root, done + {root}, queue, ways)
  }

  lemma TipsStart(store: Store, tips: seq<Id>) returns (root: Id, ways: Ways)
    ensures DiscoveringFrom(store, tips, root, {}, Fresh(tips, {}), ways) && ways.Keys == Elems(tips) + {root}
  {
    root := UnusedExists(store, tips);
    var rooted := Rooted(store, tips, root);
    DiscoveryStarts(rooted, root);
    ways := DiscoveryStep(rooted, root, {}, [root], map[root := []]);
    assert Listed(rooted, root) == tips && [root][1..] == [];
    var start: Ways := map[root := []];
    assert start.Keys == {} + {root};
    FreshWithout(tips, {}, root);
    assert {} + {root} == {root} && [] + Fresh(tips, {}) == Fresh(tips, {});
  }

  lemma TipsStep(store: Store, tips: seq<Id>, root: Id, done: set<Id>, queue: seq<Id>, ways: Ways, seen: set<Id>)
    returns (ways': Ways)
    requires DiscoveringFrom(store, tips, root, done, queue, ways) && queue != [] && NoDuplicates(queue)
    requires ways.Keys == seen + {root} && queue[0] != root
    ensures DiscoveringFrom(store, tips, root, done + {queue[0]}, queue[1..] + Fresh(Listed(store, queue[0]), seen),
                            ways')
    ensures ways'.Keys == seen + Elems(Listed(store, queue[0])) + {root}
  {
    var h, rooted := queue[0], Rooted(store, tips, root);
    assert Listed(rooted, h) == Listed(store, h);
    ways' := DiscoveryStep(rooted, root, done + {root}, queue, ways);
    FreshWithout(Listed(store, h), seen, root);
    assert done + {root} + {h} == done + {h} + {root};
  }

  /** The head of the queue is discovered before everything else that is not done. */
  lemma HeadBeforeOthers(store: Store, tips: seq<Id>, root: Id, done: set<Id>, queue: seq<Id>, ways: Ways, x: Id)
    requires DiscoveringFrom(store, tips, root, done, queue, ways) && queue != [] && queue[0] != root
    requires x !in done && x != queue[0] && x != root
    ensures BeforeFrom(store, tips, queue[0], x)
  {
    var h, rooted := queue[0], Rooted(store, tips, root);
    HeadIsFirst(rooted, root, done + {root}, queue, ways);
    RootedLeads(store, tips, root, ways[h], h);
    forall w | LeadsFrom(store, tips, w, x) ensures Sooner(ways[h], w) {
      RootedLeads(store, tips, root, w, x);
      HeadBefore(rooted, root, done + {root}, queue, ways, w, x);
    }
  }
}
