/**
 The order in which a breadth-first walk discovers commits: shorter ways first, and among equally
 long ones the way that takes earlier parents.
 */
module Discovery {
  import opened Objects
  import opened Reachability
  import opened Walks

  ghost function Ancestry(store: Store): Graph {
    id => Parents(store, id)
  }

  /** a is d or an ancestor of d. */
  ghost predicate Ancestor(store: Store, a: Id, d: Id) {
    Reach(Ancestry(store), d, a)
  }

  /** A way back through history: which parent to take at each commit. */
  type Way = seq<nat>

  datatype Place = Nowhere | At(id: Id)

  function Listed(store: Store, x: Id): seq<Id> {
    if IsCommit(store, x) then store[x].parents else []
  }

  /** Where a way from b ends. */
  ghost function End(store: Store, b: Id, w: Way): Place
    decreases |w|
  {
    if w == [] then At(b)
    else
      match End(store, b, w[..|w| - 1])
      case Nowhere => Nowhere
      case At(d) => if w[|w| - 1] < |Listed(store, d)| then At(Listed(store, d)[w[|w| - 1]]) else Nowhere
  }

  ghost predicate Leads(store: Store, b: Id, w: Way, x: Id) {
    End(store, b, w) == At(x)
  }

  lemma EndSnoc(store: Store, b: Id, w: Way, i: nat, d: Id)
    requires Leads(store, b, w, d) && i < |Listed(store, d)|
    ensures Leads(store, b, w + [i], Listed(store, d)[i])
  {
    assert (w + [i])[..|w|] == w;
  }

  // ----- the order of ways -----

  ghost predicate Earlier(v: Way, w: Way)
    requires |v| == |w|
    decreases |v|
  {
    v != [] && (Earlier(v[..|v| - 1], w[..|w| - 1]) || (v[..|v| - 1] == w[..|w| - 1] && v[|v| - 1] < w[|w| - 1]))
  }

  /** Ways are compared by length, and equally long ones step by step from the start. */
  ghost predicate Sooner(v: Way, w: Way) {
    |v| < |w| || (|v| == |w| && Earlier(v, w))
  }

  ghost predicate NoLater(v: Way, w: Way) {
    v == w || Sooner(v, w)
  }

  lemma {:induction false} EarlierIsTotal(v: Way, w: Way)
    requires |v| == |w|
    ensures v == w || Earlier(v, w) || Earlier(w, v)
    decreases |v|
  {
    if v != [] {
      EarlierIsTotal(v[..|v| - 1], w[..|w| - 1]);
      assert v == v[..|v| - 1] + [v[|v| - 1]] && w == w[..|w| - 1] + [w[|w| - 1]];
    }
  }

  lemma {:induction false} NeverEarlierThanItself(v: Way)
    ensures !Earlier(v, v)
    decreases |v|
  {
    if v != [] { NeverEarlierThanItself(v[..|v| - 1]); }
  }

  lemma {:induction false} EarlierIsTransitive(u: Way, v: Way, w: Way)
    requires |u| == |v| == |w| && Earlier(u, v) && Earlier(v, w)
    ensures Earlier(u, w)
    decreases |u|
  {
    var u', v', w' := u[..|u| - 1], v[..|v| - 1], w[..|w| - 1];
    if Earlier(u', v') && Earlier(v', w') {
      EarlierIsTransitive(u', v', w');
    }
  }

  lemma SoonerIsTotal(v: Way, w: Way)
    ensures v == w || Sooner(v, w) || Sooner(w, v)
  {
    if |v| == |w| { EarlierIsTotal(v, w); }
  }

  lemma SoonerIsStrict(v: Way, w: Way)
    requires Sooner(v, w)
    ensures !NoLater(w, v)
  {
    NeverEarlierThanItself(v);
    if |v| == |w| && Earlier(w, v) { EarlierIsTransitive(v, w, v); }
  }

  lemma SoonerIsTransitive(u: Way, v: Way, w: Way)
    requires NoLater(u, v) && NoLater(v, w)
    ensures NoLater(u, w) && (Sooner(u, v) || Sooner(v, w) ==> Sooner(u, w))
  {
    if |u| == |v| == |w| && u != v && v != w { EarlierIsTransitive(u, v, w); }
  }

  /** Ways taken one step further keep their order. */
  lemma SoonerSnoc(v: Way, w: Way, i: nat, j: nat)
    ensures Sooner(v, w) ==> Sooner(v + [i], w + [j])
    ensures NoLater(v, w) && i <= j ==> NoLater(v + [i], w + [j])
    ensures i < j ==> Sooner(v + [i], v + [j])
    ensures Sooner(v, v + [i])
  {
    assert (v + [i])[..|v|] == v && (w + [j])[..|w|] == w && (v + [j])[..|v|] == v;
  }

  // ----- the first commit with a property -----

  /** w is the first way from b to x. */
  ghost predicate FirstWay(store: Store, b: Id, w: Way, x: Id) {
    Leads(store, b, w, x) && forall v | Leads(store, b, v, x) :: NoLater(w, v)
  }

  lemma {:induction false} WayReaches(store: Store, b: Id, w: Way, x: Id)
    requires Leads(store, b, w, x)
    ensures Ancestor(store, x, b) && x in Level(Ancestry(store), b, |w|)
    decreases |w|
  {
    var g := Ancestry(store);
    if w == [] {
      ReachSelf(g, b);
    } else {
      var front := w[..|w| - 1];
      var d := End(store, b, front).id;
      WayReaches(store, b, front, d);
      assert x in g(d);
      ReachStep(g, b, d, x);
      NextContains(g, Level(g, b, |front|), d);
    }
  }

  lemma {:induction false} LevelHasWay(store: Store, b: Id, n: nat, x: Id) returns (w: Way)
    requires x in Level(Ancestry(store), b, n)
    ensures |w| <= n && Leads(store, b, w, x)
    decreases n
  {
    if n == 0 {
      w := [];
    } else if x in Level(Ancestry(store), b, n - 1) {
      w := LevelHasWay(store, b, n - 1, x);
    } else {
      var d :| d in Level(Ancestry(store), b, n - 1) && x in Parents(store, d);
      var v := LevelHasWay(store, b, n - 1, d);
      var i: nat :| i < |Listed(store, d)| && Listed(store, d)[i] == x;
      EndSnoc(store, b, v, i, d);
      w := v + [i];
    }
  }

  // ----- the walk discovers commits in that order -----

  /** The way each commit was first seen by. */
  type Ways = map<Id, Way>

  ghost predicate WaysLead(store: Store, b: Id, ways: Ways) {
    forall x | x in ways :: Leads(store, b, ways[x], x)
  }

  /** A commit other than b was first seen from one that is done. */
  ghost predicate FromDone(b: Id, done: set<Id>, ways: Ways, x: Id)
    requires x in ways
  {
    x == b || (ways[x] != [] && exists p :: p in done && p in ways && ways[p] == ways[x][..|ways[x]| - 1])
  }

  /** Nothing done offers an earlier way to a commit that was seen. */
  ghost predicate NothingEarlier(store: Store, done: set<Id>, ways: Ways) {
    forall d, i: nat | d in done && d in ways && i < |Listed(store, d)| ::
      Listed(store, d)[i] in ways && NoLater(ways[Listed(store, d)[i]], ways[d] + [i])
  }

  ghost predicate QueueInOrder(queue: seq<Id>, ways: Ways) {
    && (forall x | x in queue :: x in ways)
    && forall i, j | 0 <= i < j < |queue| :: Sooner(ways[queue[i]], ways[queue[j]])
  }

  ghost predicate DoneBeforeQueue(done: set<Id>, queue: seq<Id>, ways: Ways) {
    forall d, q | d in done && q in queue && d in ways && q in ways :: Sooner(ways[d], ways[q])
  }

  ghost predicate DoneFirst(store: Store, b: Id, done: set<Id>, ways: Ways) {
    forall d | d in done && d in ways :: FirstWay(store, b, ways[d], d)
  }

  ghost predicate Discovering(store: Store, b: Id, done: set<Id>, queue: seq<Id>, ways: Ways) {
    forall w | w == ways :: DiscoveringBy(store, b, done, queue, w)
  }

  ghost predicate DiscoveringBy(store: Store, b: Id, done: set<Id>, queue: seq<Id>, ways: Ways) {
    && b in ways && ways[b] == [] && ways.Keys == done + Elems(queue) && done !! Elems(queue)
    && WaysLead(store, b, ways) && NothingEarlier(store, done, ways)
    && (forall x | x in ways :: FromDone(b, done, ways, x))
    && QueueInOrder(queue, ways) && DoneBeforeQueue(done, queue, ways) && DoneFirst(store, b, done, ways)
  }

  lemma DiscoveryStarts(store: Store, b: Id)
    ensures Discovering(store, b, {}, [b], map[b := []])
  {
    var ways: Ways := map[b := []];
    assert End(store, b, []) == At(b);
    assert Elems([b]) == {b} by { assert [b][0] == b; }
    assert DiscoveringBy(store, b, {}, [b], ways);
  }

  /** One step on from a commit that is done. */
  lemma StepFromDone(store: Store, b: Id, done: set<Id>, queue: seq<Id>, ways: Ways, front: Way, i: nat, d: Id)
    requires Discovering(store, b, done, queue, ways) && d in done && Leads(store, b, front, d)
      && i < |Listed(store, d)|
    ensures var x := Listed(store, d)[i];
            x in ways && NoLater(ways[x], front + [i]) && (x !in done ==> x in queue)
  {
    assert DiscoveringBy(store, b, done, queue, ways);
    var x := Listed(store, d)[i];
    assert NoLater(ways[d], front) && NoLater(ways[x], ways[d] + [i]);
    SoonerSnoc(ways[d], front, i, i);
    SoonerIsTransitive(ways[x], ways[d] + [i], front + [i]);
    assert x !in done ==> x in Elems(queue);
  }

  lemma StartIsSeen(store: Store, b: Id, done: set<Id>, queue: seq<Id>, ways: Ways)
    requires Discovering(store, b, done, queue, ways)
    ensures b in ways && ways[b] == [] && (b !in done ==> b in queue)
  {
    assert DiscoveringBy(store, b, done, queue, ways);
    assert b !in done ==> b in Elems(queue);
  }

  /** Every way to a commit that is not done passes one in the queue, no later than it was seen. */
  lemma {:induction false} QueueCovers(store: Store, b: Id, done: set<Id>, queue: seq<Id>, ways: Ways, w: Way, x: Id)
    returns (q: Id)
    requires Discovering(store, b, done, queue, ways) && Leads(store, b, w, x) && x !in done
    ensures q in queue && q in ways && NoLater(ways[q], w)
    decreases |w|
  {
    if w == [] {
      StartIsSeen(store, b, done, queue, ways);
      q := b;
    } else {
      var front, i := w[..|w| - 1], w[|w| - 1];
      var d := End(store, b, front).id;
      assert w == front + [i];
      if d in done {
        q := x;
        StepFromDone(store, b, done, queue, ways, front, i, d);
      } else {
        q := QueueCovers(store, b, done, queue, ways, front, d);
        SoonerSnoc(front, front, i, i);
        SoonerIsTransitive(ways[q], front, w);
      }
    }
  }

  /** So the head of the queue has been seen by the first way there is to it. */
  lemma HeadIsFirst(store: Store, b: Id, done: set<Id>, queue: seq<Id>, ways: Ways)
    requires Discovering(store, b, done, queue, ways) && queue != []
    ensures queue[0] in ways && FirstWay(store, b, ways[queue[0]], queue[0])
  {
    var h := queue[0];
    assert DiscoveringBy(store, b, done, queue, ways);
    assert h in Elems(queue);
    forall v | Leads(store, b, v, h) ensures NoLater(ways[h], v) {
      HeadBefore(store, b, done, queue, ways, v, h);
    }
  }

  /** Every way to a commit not done is no earlier than the head's. */
  lemma HeadBefore(store: Store, b: Id, done: set<Id>, queue: seq<Id>, ways: Ways, w: Way, x: Id)
    requires Discovering(store, b, done, queue, ways) && queue != [] && Leads(store, b, w, x) && x !in done
    ensures queue[0] in ways && NoLater(ways[queue[0]], w)
  {
    var q := QueueCovers(store, b, done, queue, ways, w, x);
    assert DiscoveringBy(store, b, done, queue, ways);
    var i :| 0 <= i < |queue| && queue[i] == q;
    assert NoLater(ways[queue[0]], ways[q]);
    SoonerIsTransitive(ways[queue[0]], ways[q], w);
  }

  // ----- one step of the walk -----

  /** Where a parent is listed first. */
  function FirstIndex(ps: seq<Id>, x: Id): (i: nat)
    requires x in ps
    ensures i < |ps| && ps[i] == x
  {
    if ps[0] == x then 0 else 1 + FirstIndex(ps[1..], x)
  }

  lemma {:induction false} FirstIndexIsFirst(ps: seq<Id>, x: Id, j: nat)
    requires j < |ps| && ps[j] == x
    ensures FirstIndex(ps, x) <= j
    decreases |ps|
  {
    if ps[0] != x { FirstIndexIsFirst(ps[1..], x, j - 1); }
  }

  lemma {:induction false} FirstIndexSnoc(front: seq<Id>, p: Id, x: Id)
    requires x in front
    ensures FirstIndex(front + [p], x) == FirstIndex(front, x)
    decreases |front|
  {
    if front[0] != x {
      assert (front + [p])[1..] == front[1..] + [p];
      FirstIndexSnoc(front[1..], p, x);
    }
  }

  lemma {:induction false} FirstIndexOfLast(front: seq<Id>, p: Id)
    requires p !in front
    ensures FirstIndex(front + [p], p) == |front|
    decreases |front|
  {
    if front != [] {
      assert (front + [p])[1..] == front[1..] + [p];
      FirstIndexOfLast(front[1..], p);
    }
  }

  /** New commits enter the queue in the order of their first listing. */
  lemma {:induction false} FreshAscends(ps: seq<Id>, seen: set<Id>, k: nat, l: nat)
    requires k < l < |Fresh(ps, seen)|
    ensures Fresh(ps, seen)[k] in ps && Fresh(ps, seen)[l] in ps
    ensures FirstIndex(ps, Fresh(ps, seen)[k]) < FirstIndex(ps, Fresh(ps, seen)[l])
    decreases |ps|
  {
    var front, p, f := ps[..|ps| - 1], ps[|ps| - 1], Fresh(ps, seen);
    var f0 := Fresh(front, seen);
    assert ps == front + [p];
    FreshIsNew(front, seen);
    assert f[k] == f0[k] && f0[k] in Elems(f0);
    FirstIndexSnoc(front, p, f[k]);
    if l < |f0| {
      FreshAscends(front, seen, k, l);
      FirstIndexSnoc(front, p, f[l]);
    } else {
      FirstIndexOfLast(front, p);
    }
  }

  lemma DiscoveryParts(store: Store, b: Id, done: set<Id>, queue: seq<Id>, ways: Ways, x: Id)
    requires Discovering(store, b, done, queue, ways) && x in ways
    ensures DoneBeforeQueue(done, queue, ways) && FromDone(b, done, ways, x)
  {
    assert DiscoveringBy(store, b, done, queue, ways);
  }

  /** A commit other than b was seen one step on from one that came before the head. */
  lemma SeenFromDone(b: Id, done: set<Id>, queue: seq<Id>, ways: Ways, h: Id, x: Id) returns (v: Way, k: nat)
    requires h in queue && h in ways && x in ways && x != b && DoneBeforeQueue(done, queue, ways)
      && FromDone(b, done, ways, x)
    ensures Sooner(v, ways[h]) && ways[x] == v + [k]
  {
    var p :| p in done && p in ways && ways[p] == ways[x][..|ways[x]| - 1];
    v, k := ways[p], ways[x][|ways[x]| - 1];
  }

  /** Whatever has been seen was seen by a way earlier than any through the head's parents. */
  lemma SeenIsSooner(store: Store, b: Id, done: set<Id>, queue: seq<Id>, ways: Ways, x: Id, i: nat)
    requires Discovering(store, b, done, queue, ways) && queue != [] && x in ways && queue[0] in ways
    ensures Sooner(ways[x], ways[queue[0]] + [i])
  {
    if x == b {
      StartIsSeen(store, b, done, queue, ways);
    } else {
      DiscoveryParts(store, b, done, queue, ways, x);
      var v, k := SeenFromDone(b, done, queue, ways, queue[0], x);
      SoonerSnoc(v, ways[queue[0]], k, i);
    }
  }

  /** The ways after the head has been expanded. */
  ghost function MoreWays(ways: Ways, h: Id, parents: seq<Id>): Ways
    requires h in ways
  {
    map x | x in ways.Keys + Elems(parents) :: if x in ways then ways[x] else ways[h] + [FirstIndex(parents, x)]
  }

  lemma MoreWaysLead(store: Store, b: Id, done: set<Id>, ways: Ways, h: Id)
    requires WaysLead(store, b, ways) && h in ways && forall x | x in ways :: FromDone(b, done, ways, x)
    requires done <= ways.Keys
    ensures var ways' := MoreWays(ways, h, Listed(store, h));
            WaysLead(store, b, ways') && forall x | x in ways' :: FromDone(b, done + {h}, ways', x)
  {
    var ps := Listed(store, h);
    var ways' := MoreWays(ways, h, ps);
    forall x | x in ways' ensures Leads(store, b, ways'[x], x) && FromDone(b, done + {h}, ways', x) {
      if x in ways {
        assert FromDone(b, done, ways, x);
      } else {
        EndSnoc(store, b, ways[h], FirstIndex(ps, x), h);
        assert ways'[x][..|ways'[x]| - 1] == ways'[h];
      }
    }
  }

  lemma StillNothingEarlier(store: Store, b: Id, done: set<Id>, queue: seq<Id>, ways: Ways)
    requires Discovering(store, b, done, queue, ways) && queue != [] && queue[0] in ways
    ensures NothingEarlier(store, done + {queue[0]}, MoreWays(ways, queue[0], Listed(store, queue[0])))
  {
    var h := queue[0];
    var ps := Listed(store, h);
    var ways' := MoreWays(ways, h, ps);
    assert DiscoveringBy(store, b, done, queue, ways);
    forall d, i: nat | d in done + {h} && d in ways' && i < |Listed(store, d)|
      ensures Listed(store, d)[i] in ways' && NoLater(ways'[Listed(store, d)[i]], ways'[d] + [i])
    {
      var z := Listed(store, d)[i];
      if d in done {
        assert d in ways && z in ways;
      } else {
        assert z in Elems(ps);
        if z in ways {
          SeenIsSooner(store, b, done, queue, ways, z, i);
        } else {
          FirstIndexIsFirst(ps, z, i);
          SoonerSnoc(ways[h], ways[h], FirstIndex(ps, z), i);
        }
      }
    }
  }

  /** A commit the head's parents bring in. */
  lemma AddedWay(ways: Ways, h: Id, ps: seq<Id>, x: Id)
    requires h in ways && x in Fresh(ps, ways.Keys)
    ensures x in ps && x !in ways && x in MoreWays(ways, h, ps)
      && MoreWays(ways, h, ps)[x] == ways[h] + [FirstIndex(ps, x)]
  {
    FreshIsNew(ps, ways.Keys);
    assert x in Elems(Fresh(ps, ways.Keys));
  }

  lemma QueueRest(queue: seq<Id>, ways: Ways, x: Id)
    requires queue != [] && QueueInOrder(queue, ways) && x in queue[1..]
    ensures x in ways && queue[0] in ways && Sooner(ways[queue[0]], ways[x])
  {
    var i :| 0 <= i < |queue[1..]| && queue[1..][i] == x;
    assert queue[i + 1] == x && queue[0] in queue;
  }

  /** A commit still waiting keeps its way, and comes before those the head brings in. */
  lemma RestInOrder(store: Store, b: Id, done: set<Id>, queue: seq<Id>, ways: Ways, ways': Ways, ps: seq<Id>, x: Id,
                    y: Id)
    requires Discovering(store, b, done, queue, ways) && queue != [] && QueueInOrder(queue, ways) && queue[0] in ways
    requires ways' == MoreWays(ways, queue[0], ps) && x in queue[1..] && y in Fresh(ps, ways.Keys)
    ensures x in ways' && y in ways' && Sooner(ways'[x], ways'[y])
  {
    QueueRest(queue, ways, x);
    AddedWay(ways, queue[0], ps, y);
    SeenIsSooner(store, b, done, queue, ways, x, FirstIndex(ps, y));
  }

  lemma AddedInOrder(ways: Ways, h: Id, ways': Ways, ps: seq<Id>, k: nat, l: nat)
    requires h in ways && ways' == MoreWays(ways, h, ps) && k < l < |Fresh(ps, ways.Keys)|
    ensures var f := Fresh(ps, ways.Keys); f[k] in ways' && f[l] in ways' && Sooner(ways'[f[k]], ways'[f[l]])
  {
    var f := Fresh(ps, ways.Keys);
    AddedWay(ways, h, ps, f[k]);
    AddedWay(ways, h, ps, f[l]);
    FreshAscends(ps, ways.Keys, k, l);
    SoonerSnoc(ways[h], ways[h], FirstIndex(ps, f[k]), FirstIndex(ps, f[l]));
  }

  lemma PairInOrder(store: Store, b: Id, done: set<Id>, queue: seq<Id>, ways: Ways, ways': Ways, ps: seq<Id>,
                    added: seq<Id>, i: nat, j: nat)
    requires Discovering(store, b, done, queue, ways) && queue != [] && QueueInOrder(queue, ways) && queue[0] in ways
    requires added == Fresh(ps, ways.Keys) && ways' == MoreWays(ways, queue[0], ps)
    requires i < j < |queue[1..] + added|
    ensures var q := queue[1..] + added; q[i] in ways' && q[j] in ways' && Sooner(ways'[q[i]], ways'[q[j]])
  {
    var n := |queue[1..]|;
    if j < n {
      QueueRest(queue, ways, queue[i + 1]);
      QueueRest(queue, ways, queue[j + 1]);
    } else if i < n {
      RestInOrder(store, b, done, queue, ways, ways', ps, queue[1..][i], added[j - n]);
    } else {
      AddedInOrder(ways, queue[0], ways', ps, i - n, j - n);
    }
  }

  lemma DoneSooner(store: Store, b: Id, done: set<Id>, queue: seq<Id>, ways: Ways, ways': Ways, ps: seq<Id>,
                   added: seq<Id>, d: Id, q: Id)
    requires Discovering(store, b, done, queue, ways) && queue != [] && QueueInOrder(queue, ways) && queue[0] in ways
    requires added == Fresh(ps, ways.Keys) && ways' == MoreWays(ways, queue[0], ps)
    requires d in ways && (d == queue[0] || Sooner(ways[d], ways[queue[0]])) && q in queue[1..] + added
    ensures d in ways' && q in ways' && Sooner(ways'[d], ways'[q])
  {
    var h := queue[0];
    if q in added {
      AddedWay(ways, h, ps, q);
      SeenIsSooner(store, b, done, queue, ways, d, FirstIndex(ps, q));
    } else {
      QueueRest(queue, ways, q);
      if d != h { SoonerIsTransitive(ways[d], ways[h], ways[q]); }
    }
  }

  lemma StillInOrder(store: Store, b: Id, done: set<Id>, queue: seq<Id>, ways: Ways, ways': Ways, ps: seq<Id>,
                     added: seq<Id>)
    requires Discovering(store, b, done, queue, ways) && queue != [] && QueueInOrder(queue, ways) && queue[0] in ways
    requires DoneBeforeQueue(done, queue, ways) && done <= ways.Keys
    requires added == Fresh(ps, ways.Keys) && ways' == MoreWays(ways, queue[0], ps)
    ensures QueueInOrder(queue[1..] + added, ways') && DoneBeforeQueue(done + {queue[0]}, queue[1..] + added, ways')
  {
    var queue' := queue[1..] + added;
    forall x | x in queue' ensures x in ways' {
      if x in added { AddedWay(ways, queue[0], ps, x); } else { QueueRest(queue, ways, x); }
    }
    forall i, j | 0 <= i < j < |queue'| ensures Sooner(ways'[queue'[i]], ways'[queue'[j]]) {
      PairInOrder(store, b, done, queue, ways, ways', ps, added, i, j);
    }
    forall d, q | d in done + {queue[0]} && q in queue' && d in ways' && q in ways' ensures Sooner(ways'[d], ways'[q]) {
      assert queue[0] in queue;
      DoneSooner(store, b, done, queue, ways, ways', ps, added, d, q);
    }
  }

  lemma StillFirst(store: Store, b: Id, done: set<Id>, queue: seq<Id>, ways: Ways)
    requires Discovering(store, b, done, queue, ways) && queue != [] && queue[0] in ways
    ensures DoneFirst(store, b, done + {queue[0]}, MoreWays(ways, queue[0], Listed(store, queue[0])))
  {
    HeadIsFirst(store, b, done, queue, ways);
    assert DiscoveringBy(store, b, done, queue, ways);
    assert forall d | d in done :: d in ways;
  }

  lemma QueueMoves(done: set<Id>, queue: seq<Id>, ways: Ways, ps: seq<Id>, added: seq<Id>)
    requires queue != [] && NoDuplicates(queue) && ways.Keys == done + Elems(queue) && done !! Elems(queue)
    requires added == Fresh(ps, ways.Keys)
    ensures ways.Keys + Elems(ps) == (done + {queue[0]}) + Elems(queue[1..] + added)
    ensures (done + {queue[0]}) !! Elems(queue[1..] + added)
  {
    var h, rest := queue[0], queue[1..];
    FreshIsNew(ps, ways.Keys);
    assert queue == [h] + rest;
    assert Elems(queue) == {h} + Elems(rest);
    assert Elems(rest + added) == Elems(rest) + Elems(added);
    forall x | x in rest ensures x != h {
      var i :| 0 <= i < |rest| && rest[i] == x;
      assert queue[i + 1] == x;
    }
  }

  /** Expanding the head of the queue. */
  lemma DiscoveryStep(store: Store, b: Id, done: set<Id>, queue: seq<Id>, ways: Ways) returns (ways': Ways)
    requires Discovering(store, b, done, queue, ways) && queue != [] && NoDuplicates(queue)
    ensures Discovering(store, b, done + {queue[0]}, queue[1..] + Fresh(Listed(store, queue[0]), ways.Keys), ways')
    ensures ways'.Keys == ways.Keys + Elems(Listed(store, queue[0]))
  {
    var h, ps := queue[0], Listed(store, queue[0]);
    var added := Fresh(ps, ways.Keys);
    assert h in queue;
    assert DiscoveringBy(store, b, done, queue, ways);
    ways' := MoreWays(ways, h, ps);
    QueueMoves(done, queue, ways, ps, added);
    MoreWaysLead(store, b, done, ways, h);
    StillNothingEarlier(store, b, done, queue, ways);
    StillInOrder(store, b, done, queue, ways, ways', ps, added);
    StillFirst(store, b, done, queue, ways);
    assert DiscoveringBy(store, b, done + {h}, queue[1..] + added, ways');
  }
}
