/** Breadth-first walks over a graph. */
module Walks {
  import opened Objects
  import opened Reachability

  predicate NoDuplicates(s: seq<Id>) {
    forall i, j | 0 <= i < j < |s| :: s[i] != s[j]
  }

  /** The parents not seen before, each once, in the order they are listed. */
  function Fresh(ps: seq<Id>, seen: set<Id>): seq<Id> {
    if ps == [] then []
    else
      var front, p := ps[..|ps| - 1], ps[|ps| - 1];
      if p in seen || p in front then Fresh(front, seen) else Fresh(front, seen) + [p]
  }

  lemma {:induction false} FreshIsNew(ps: seq<Id>, seen: set<Id>)
    ensures Elems(Fresh(ps, seen)) == Elems(ps) - seen && NoDuplicates(Fresh(ps, seen))
    decreases |ps|
  {
    if ps != [] {
      var front, p := ps[..|ps| - 1], ps[|ps| - 1];
      FreshIsNew(front, seen);
      var f := Fresh(front, seen);
      assert ps == front + [p];
      ElemsSnoc(front, p);
      ElemsSnoc(f, p);
      if p !in seen && p !in front {
        assert p !in Elems(f);
        DistinctSnoc(f, p);
      }
    }
  }

  lemma ElemsSnoc<T>(s: seq<T>, x: T)
    ensures Elems(s + [x]) == Elems(s) + {x}
  {
  }

  lemma DistinctSnoc(s: seq<Id>, x: Id)
    requires NoDuplicates(s) && x !in Elems(s)
    ensures NoDuplicates(s + [x])
  {
    forall i | 0 <= i < |s| ensures s[i] != x {
      assert s[i] in Elems(s);
    }
  }

  /** Puts every parent not seen before at the end of the queue. */
  method Enqueue(parents: seq<Id>, queue0: seq<Id>, seen0: set<Id>) returns (queue: seq<Id>, seen: set<Id>)
    ensures seen == seen0 + Elems(parents) && queue == queue0 + Fresh(parents, seen0)
  {
    queue, seen := queue0, seen0;
    var i := 0;
    assert parents[..0] == [];
    while i < |parents|
      invariant 0 <= i <= |parents|
      invariant seen == seen0 + Elems(parents[..i]) && queue == queue0 + Fresh(parents[..i], seen0)
    {
      var p := parents[i];
      assert parents[..i + 1] == parents[..i] + [p] && parents[..i + 1][..i] == parents[..i];
      ElemsSnoc(parents[..i], p);
      assert p in parents[..i] <==> p in Elems(parents[..i]);
      if p !in seen {
        assert queue0 + Fresh(parents[..i], seen0) + [p] == queue0 + (Fresh(parents[..i], seen0) + [p]);
        seen := seen + {p};
        queue := queue + [p];
      }
      i := i + 1;
    }
    assert parents[..i] == parents;
  }

  /** x can be reached from one of the tips. */
  ghost predicate From(g: Graph, tips: set<Id>, x: Id) {
    exists t :: t in tips && Reach(g, t, x)
  }

  /** The state of a walk from the tips: done has been expanded, queue waits, seen is both. */
  ghost predicate Walking(g: Graph, tips: set<Id>, done: set<Id>, queue: seq<Id>, seen: set<Id>) {
    forall q | q == queue :: WalkingAt(g, tips, done, q, seen)
  }

  ghost predicate WalkingAt(g: Graph, tips: set<Id>, done: set<Id>, queue: seq<Id>, seen: set<Id>) {
    && seen == done + Elems(queue) && done !! Elems(queue) && NoDuplicates(queue)
    && tips <= seen
    && (forall x | x in done :: g(x) <= seen)
    && forall x | x in seen :: From(g, tips, x)
  }

  /** The head of the queue is expanded. */
  lemma WalkingStep(g: Graph, tips: set<Id>, done: set<Id>, queue: seq<Id>, seen: set<Id>, parents: seq<Id>)
    requires Walking(g, tips, done, queue, seen) && queue != [] && g(queue[0]) == Elems(parents)
    ensures Walking(g, tips, done + {queue[0]}, queue[1..] + Fresh(parents, seen), seen + Elems(parents))
  {
    assert WalkingAt(g, tips, done, queue, seen);
    var cur, rest, added := queue[0], queue[1..], Fresh(parents, seen);
    FreshIsNew(parents, seen);
    var queue', seen' := rest + added, seen + Elems(parents);
    assert queue == [cur] + rest;
    assert Elems(queue) == {cur} + Elems(rest);
    assert Elems(queue') == Elems(rest) + Elems(added);
    StillDistinct(cur, rest, added);
    forall x | x in seen' && x !in seen ensures From(g, tips, x) {
      OneFurther(g, tips, cur, x);
    }
    assert WalkingAt(g, tips, done + {cur}, queue', seen');
  }

  lemma StillDistinct(cur: Id, rest: seq<Id>, added: seq<Id>)
    requires NoDuplicates([cur] + rest) && NoDuplicates(added) && Elems(added) !! Elems(rest)
    ensures NoDuplicates(rest + added) && cur !in Elems(rest)
  {
    var queue, queue' := [cur] + rest, rest + added;
    forall i | 0 <= i < |rest| ensures rest[i] != cur {
      assert queue[0] == cur && queue[i + 1] == rest[i];
    }
    forall i, j | 0 <= i < j < |queue'| ensures queue'[i] != queue'[j] {
      if j < |rest| {
        assert rest[i] == queue[i + 1] && rest[j] == queue[j + 1];
      } else if i < |rest| {
        assert queue'[i] in Elems(rest) && queue'[j] in Elems(added);
      } else {
        assert queue'[i] == added[i - |rest|] && queue'[j] == added[j - |rest|];
      }
    }
  }

  lemma OneFurther(g: Graph, tips: set<Id>, cur: Id, x: Id)
    requires From(g, tips, cur) && x in g(cur)
    ensures From(g, tips, x)
  {
    var t :| t in tips && Reach(g, t, cur);
    ReachStep(g, t, cur, x);
  }

  lemma WalkStarts(g: Graph, tips: seq<Id>)
    requires NoDuplicates(tips)
    ensures Walking(g, Elems(tips), {}, tips, Elems(tips))
  {
    forall x | x in Elems(tips) ensures From(g, Elems(tips), x) {
      ReachSelf(g, x);
    }
    assert WalkingAt(g, Elems(tips), {}, tips, Elems(tips));
  }

  lemma QueueHead(g: Graph, tips: set<Id>, done: set<Id>, queue: seq<Id>, seen: set<Id>)
    requires Walking(g, tips, done, queue, seen) && queue != []
    ensures queue[0] in seen && queue[0] !in done && From(g, tips, queue[0])
  {
    assert WalkingAt(g, tips, done, queue, seen);
    assert queue[0] in Elems(queue);
  }

  lemma QueueIsDistinct(g: Graph, tips: set<Id>, done: set<Id>, queue: seq<Id>, seen: set<Id>)
    requires Walking(g, tips, done, queue, seen)
    ensures NoDuplicates(queue)
  {
    assert WalkingAt(g, tips, done, queue, seen);
  }

  /** A walk with an empty queue has seen exactly what can be reached from the tips. */
  lemma WalkingDone(g: Graph, tips: set<Id>, done: set<Id>, seen: set<Id>)
    requires Walking(g, tips, done, [], seen)
    ensures seen == done && Closed(g, seen) && forall x :: x in seen <==> From(g, tips, x)
  {
    assert WalkingAt(g, tips, done, [], seen);
    assert seen == done;
    forall x | From(g, tips, x) ensures x in seen {
      var t :| t in tips && Reach(g, t, x);
      ClosedContainsReach(g, seen, t, x);
    }
  }

  lemma WalkingParts(g: Graph, tips: set<Id>, done: set<Id>, queue: seq<Id>, seen: set<Id>)
    requires Walking(g, tips, done, queue, seen)
    ensures seen == done + Elems(queue) && forall x | x in done :: g(x) <= seen
    ensures forall x | x in seen :: From(g, tips, x)
  {
    assert WalkingAt(g, tips, done, queue, seen);
  }
}
