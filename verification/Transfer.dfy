/** Which objects one repository sends another: wants minus haves. */
module Transfer {
  import opened Objects
  import opened Reachability
  import opened CommitGraph
  import opened Discovery
  import opened Walks

  ghost function Objs(store: Store): Graph {
    id => Refs(store, id)
  }

  /** x is reachable from one of the roots, over all kinds of references. */
  ghost predicate FromAny(store: Store, roots: seq<Id>, x: Id) {
    exists r :: r in roots && Reach(Objs(store), r, x)
  }

  lemma FromAnySelf(store: Store, roots: seq<Id>, r: Id)
    requires r in roots
    ensures FromAny(store, roots, r)
  {
    ReachSelf(Objs(store), r);
  }

  lemma FromAnyStep(store: Store, roots: seq<Id>, x: Id, y: Id)
    requires FromAny(store, roots, x) && y in Refs(store, x)
    ensures FromAny(store, roots, y)
  {
    var r :| r in roots && Reach(Objs(store), r, x);
    ReachStep(Objs(store), r, x, y);
  }

  /** Ancestry is reachability too. */
  lemma AncestryInObjects(store: Store, d: Id, x: Id)
    requires Ancestor(store, x, d)
    ensures Reach(Objs(store), d, x)
  {
    var p :| PathFromTo(Ancestry(store), p, d, x);
    forall i | 0 <= i < |p| - 1 ensures p[i + 1] in Objs(store)(p[i]) {
      assert p[i + 1] in Ancestry(store)(p[i]);
    }
    assert PathFromTo(Objs(store), p, d, x);
  }

  // ----- commits -----

  /** Parents not seen before and not behind the stop line go to the end of the queue. */
  method EnqueueOpen(parents: seq<Id>, stop: set<Id>, queue0: seq<Id>, seen0: set<Id>)
    returns (queue: seq<Id>, seen: set<Id>)
    ensures seen == seen0 + (Elems(parents) - stop)
    ensures queue0 <= queue && Elems(queue[|queue0|..]) == Elems(parents) - stop - seen0
    ensures NoDuplicates(queue[|queue0|..])
  {
    queue, seen := queue0, seen0;
    var i := 0;
    assert queue[|queue0|..] == [] && parents[..0] == [];
    while i < |parents|
      invariant 0 <= i <= |parents| && queue0 <= queue
      invariant seen == seen0 + (Elems(parents[..i]) - stop)
      invariant Elems(queue[|queue0|..]) == Elems(parents[..i]) - stop - seen0
      invariant NoDuplicates(queue[|queue0|..])
    {
      var p := parents[i];
      assert parents[..i + 1] == parents[..i] + [p];
      assert Elems(parents[..i + 1]) == Elems(parents[..i]) + {p};
      if p !in stop && p !in seen {
        ghost var added := queue[|queue0|..];
        assert p in added ==> p in Elems(added);
        assert (queue + [p])[|queue0|..] == added + [p];
        assert Elems(added + [p]) == Elems(added) + {p};
        seen := seen + {p};
        queue := queue + [p];
      }
      i := i + 1;
    }
    assert parents[..i] == parents;
  }

  /** The walk over commits: done has been expanded, the queue waits, nothing crosses the stop line. */
  ghost predicate Visiting(store: Store, start: Id, stop: set<Id>, seen0: set<Id>, done: set<Id>, queue: seq<Id>,
                           seen: set<Id>) {
    && seen == seen0 + done + Elems(queue) && done !! Elems(queue) && NoDuplicates(queue)
    && (done + Elems(queue)) !! seen0 && (done + Elems(queue)) !! stop
    && start in seen
    && (forall x | x in done :: IsCommit(store, x) && Parents(store, x) <= seen + stop)
    && forall x | x in done + Elems(queue) :: Ancestor(store, x, start)
  }

  lemma VisitingStep(store: Store, start: Id, stop: set<Id>, seen0: set<Id>, done: set<Id>, queue: seq<Id>,
                     seen: set<Id>,
                     queue': seq<Id>, seen': set<Id>)
    requires Visiting(store, start, stop, seen0, done, queue, seen) && queue != [] && IsCommit(store, queue[0])
    requires var cur, rest := queue[0], queue[1..];
             && seen' == seen + (Parents(store, cur) - stop) && rest <= queue'
             && Elems(queue'[|rest|..]) == Parents(store, cur) - stop - seen && NoDuplicates(queue'[|rest|..])
    ensures Visiting(store, start, stop, seen0, done + {queue[0]}, queue', seen')
  {
    var cur, rest := queue[0], queue[1..];
    var added := queue'[|rest|..];
    assert queue' == rest + added && queue == [cur] + rest;
    assert Elems(queue) == {cur} + Elems(rest);
    assert Elems(queue') == Elems(rest) + Elems(added);
    StillDistinct(cur, rest, added);
    forall x | x in Elems(added) ensures Ancestor(store, x, start) {
      assert cur in Elems(queue) && x in Ancestry(store)(cur);
      ReachStep(Ancestry(store), start, cur, x);
    }
  }

  /**
   Records every commit from start back to the stop line. What it adds are ancestors of start;
   when it succeeds, what it adds is readable and leads nowhere but to what was recorded or
   stopped at. A failure leaves what was recorded so far: start alone, where start is missing.
   */
  method WalkCommits(store: Store, start: Id, seen0: set<Id>, stop: set<Id>) returns (ok: bool, seen: set<Id>)
    ensures seen0 <= seen && seen - seen0 !! stop
    ensures forall x | x in seen - seen0 :: Ancestor(store, x, start)
    ensures start in seen0 + stop ==> ok && seen == seen0
    ensures start !in store && start !in seen0 + stop ==> seen == seen0 + {start}
    ensures ok ==> start in seen + stop
    ensures ok ==> forall x | x in seen - seen0 :: IsCommit(store, x) && Parents(store, x) <= seen + stop
    ensures !ok ==> exists x ::
      Ancestor(store, x, start) && !IsCommit(store, x)
      && (x == start || exists c :: IsCommit(store, c) && x in Parents(store, c))
  {
    if start in stop || start in seen0 {
      return true, seen0;
    }
    var queue := [start];
    seen := seen0 + {start};
    ghost var done: set<Id> := {};
    ReachSelf(Ancestry(store), start);
    assert Elems(queue) == {start} by { assert queue[0] == start; }
    while queue != []
      invariant Visiting(store, start, stop, seen0, done, queue, seen)
      invariant if done == {} then queue == [start] && seen == seen0 + {start} else start in store
      invariant forall x | x in queue :: x == start || exists c :: IsCommit(store, c) && x in Parents(store, c)
      decreases store.Keys - done
    {
      var cur := queue[0];
      assert cur in Elems(queue);
      if cur !in store || !store[cur].Commit? {
        return false, seen;
      }
      ghost var queue0, seen' := queue, seen;
      queue, seen := EnqueueOpen(store[cur].parents, stop, queue[1..], seen);
      VisitingStep(store, start, stop, seen0, done, queue0, seen', queue, seen);
      done := done + {cur};
      forall x | x in queue ensures x == start || exists c :: IsCommit(store, c) && x in Parents(store, c) {
        if x !in queue0 {
          QueueOrigin(queue, queue0[1..], x);
          assert x in Parents(store, cur);
        }
      }
    }
    return true, seen;
  }

  lemma QueueOrigin(queue: seq<Id>, rest: seq<Id>, x: Id)
    requires rest <= queue && x in queue && x !in rest
    ensures x in Elems(queue[|rest|..])
  {
    var i :| 0 <= i < |queue| && queue[i] == x;
    assert i >= |rest| && queue[|rest|..][i - |rest|] == x;
  }

  // ----- trees and blobs -----

  /** What the walk added leads nowhere but to what was recorded or excluded. */
  ghost predicate ClosedUpTo(store: Store, added: set<Id>, objs: set<Id>, exclude: set<Id>) {
    forall x | x in added :: Refs(store, x) <= objs + exclude
  }

  /**
   Adds a tree and everything below it, except what is excluded. What it adds is reachable from
   the tree. In a well-typed store nothing that was added has a reference left out when it
   succeeds, and it only fails over an object that is missing or was no tree to begin with.
   */
  method AddTreeClosureExcluding(store: Store, treeId: Id, objs0: set<Id>, exclude: set<Id>)
    returns (ok: bool, objs: set<Id>)
    ensures objs0 <= objs && objs - objs0 !! exclude
    ensures forall x | x in objs - objs0 :: Reach(Objs(store), treeId, x)
    ensures ok ==> treeId in objs + exclude
    ensures WellTyped(store) && TreeIfAny(store, treeId) ==> NoCommits(store, objs - objs0)
    ensures WellTyped(store) && TreeIfAny(store, treeId) && ok ==> ClosedUpTo(store, objs - objs0, objs, exclude)
    ensures WellTyped(store) && TreeIfAny(store, treeId) && !ok
      ==> exists x :: Reach(Objs(store), treeId, x) && x !in store
    decreases store.Keys - objs0
  {
    ReachSelf(Objs(store), treeId);
    if treeId in exclude || treeId in objs0 {
      return true, objs0;
    }
    objs := objs0 + {treeId};
    if treeId !in store || !store[treeId].Tree? {
      return false, objs;
    }
    var entries := store[treeId].entries;
    var i := 0;
    while i < |entries|
      invariant 0 <= i <= |entries| && objs0 + {treeId} <= objs && objs - objs0 !! exclude
      invariant forall x | x in objs - objs0 :: Reach(Objs(store), treeId, x)
      invariant WellTyped(store) ==> NoCommits(store, objs - objs0)
      invariant WellTyped(store) ==> ClosedUpTo(store, objs - objs0 - {treeId}, objs, exclude)
      invariant forall e | e in entries[..i] :: e.hash in objs + exclude
    {
      var e := entries[i];
      assert e in entries && e.hash in Refs(store, treeId);
      assert WellTyped(store) ==> WellTypedObject(store, store[treeId]);
      ReachStep(Objs(store), treeId, treeId, e.hash);
      if e.mode == MODE_SUBTREE {
        ok, objs := AddTreeClosureExcluding(store, e.hash, objs, exclude);
        BelowTree(store, treeId, e.hash);
        if !ok {
          return;
        }
      } else if e.hash !in exclude {
        objs := objs + {e.hash};
      }
      assert entries[..i + 1] == entries[..i] + [e];
      i := i + 1;
    }
    assert entries[..i] == entries;
    return true, objs;
  }

  ghost predicate TreeIfAny(store: Store, id: Id) {
    id in store ==> store[id].Tree?
  }

  ghost predicate NoCommits(store: Store, ids: set<Id>) {
    forall x | x in ids && x in store :: !store[x].Commit?
  }

  lemma BelowTree(store: Store, t: Id, s: Id)
    requires Reach(Objs(store), t, s)
    ensures forall x :: Reach(Objs(store), s, x) ==> Reach(Objs(store), t, x)
  {
    forall x | Reach(Objs(store), s, x) ensures Reach(Objs(store), t, x) {
      ReachTrans(Objs(store), t, s, x);
    }
  }

  // ----- enumeration -----

  ghost predicate BehindAny(store: Store, roots: seq<Id>, x: Id) {
    exists r :: r in roots && Ancestor(store, x, r)
  }

  /** x lies below the tree of one of the commits. */
  ghost predicate InTreeOf(store: Store, commits: set<Id>, x: Id) {
    exists c :: c in commits && IsCommit(store, c) && Reach(Objs(store), store[c].tree, x)
  }

  /** Each have is either unknown here or here with everything below it. */
  ghost predicate HavesHeld(store: Store, haves: seq<Id>) {
    forall h | h in haves && h in store :: Holds(store, h)
  }

  lemma BehindIsClosed(store: Store, roots: seq<Id>, x: Id, y: Id)
    requires BehindAny(store, roots, x) && y in Parents(store, x)
    ensures BehindAny(store, roots, y)
  {
    var r :| r in roots && Ancestor(store, x, r);
    ReachStep(Ancestry(store), r, x, y);
  }

  lemma BehindSnoc(store: Store, roots: seq<Id>, r: Id, x: Id)
    ensures BehindAny(store, roots + [r], x) <==> BehindAny(store, roots, x) || Ancestor(store, x, r)
  {
    assert (roots + [r])[|roots|] == r;
  }

  lemma NothingBehind(store: Store, h: Id, x: Id)
    requires h !in store && Ancestor(store, x, h)
    ensures x == h
  {
    ClosedContainsReach(Ancestry(store), {h}, h, x);
  }

  /** From a have that is held, no walk over its commits fails. */
  lemma HeldIsReadable(store: Store, h: Id, x: Id)
    requires WellTyped(store) && Holds(store, h) && Ancestor(store, x, h)
    requires x == h || exists c :: IsCommit(store, c) && x in Parents(store, c)
    ensures IsCommit(store, x)
  {
    AncestryInObjects(store, h, x);
    if x != h {
      var c :| IsCommit(store, c) && x in Parents(store, c);
      assert WellTypedObject(store, store[c]);
    }
  }

  /** Everything up to the haves before h, and then everything up to h. */
  lemma BoundaryGrows(store: Store, haves: seq<Id>, h: Id, before: set<Id>, after: set<Id>)
    requires forall x :: x in before <==> BehindAny(store, haves, x)
    requires before <= after && h in after && forall x | x in after - before :: Ancestor(store, x, h)
    requires h in store ==> forall x | x in after - before :: Parents(store, x) <= after
    ensures forall x :: x in after <==> BehindAny(store, haves + [h], x)
  {
    forall x ensures x in after <==> BehindAny(store, haves + [h], x) {
      BehindSnoc(store, haves, h, x);
      if Ancestor(store, x, h) {
        if h !in store {
          NothingBehind(store, h, x);
        } else {
          forall y | y in after ensures Ancestry(store)(y) <= after {
            if y in before {
              forall z | z in Parents(store, y) ensures z in after { BehindIsClosed(store, haves, y, z); }
            }
          }
          ClosedContainsReach(Ancestry(store), after, h, x);
        }
      }
    }
  }

  lemma InTreeClosed(store: Store, commits: set<Id>, x: Id, y: Id)
    requires InTreeOf(store, commits, x) && y in Refs(store, x)
    ensures InTreeOf(store, commits, y)
  {
    var c :| c in commits && IsCommit(store, c) && Reach(Objs(store), store[c].tree, x);
    ReachStep(Objs(store), store[c].tree, x, y);
  }

  lemma InTreeSnoc(store: Store, commits: seq<Id>, h: Id, x: Id)
    ensures InTreeOf(store, Elems(commits + [h]), x)
      <==> InTreeOf(store, Elems(commits), x) || (IsCommit(store, h) && Reach(Objs(store), store[h].tree, x))
  {
    ElemsSnoc(commits, h);
  }

  lemma TreesGrow(store: Store, haves: seq<Id>, h: Id, before: set<Id>, after: set<Id>)
    requires IsCommit(store, h) && forall x :: x in before <==> InTreeOf(store, Elems(haves), x)
    requires before <= after && store[h].tree in after
    requires forall x | x in after - before :: Reach(Objs(store), store[h].tree, x) && Refs(store, x) <= after
    ensures forall x :: x in after <==> InTreeOf(store, Elems(haves + [h]), x)
  {
    forall x ensures x in after <==> InTreeOf(store, Elems(haves + [h]), x) {
      InTreeSnoc(store, haves, h, x);
      if Reach(Objs(store), store[h].tree, x) {
        forall y | y in after ensures Objs(store)(y) <= after {
          if y in before {
            forall z | z in Refs(store, y) ensures z in after { InTreeClosed(store, Elems(haves), y, z); }
          }
        }
        ClosedContainsReach(Objs(store), after, store[h].tree, x);
      }
    }
  }

  /** A have that is held has its tree, and all below it. */
  lemma HeldTree(store: Store, h: Id)
    requires WellTyped(store) && Holds(store, h)
    ensures TreeIfAny(store, store[h].tree) && forall x | Reach(Objs(store), store[h].tree, x) :: x in store
  {
    assert WellTypedObject(store, store[h]);
    ReachSelf(Objs(store), h);
    ReachStep(Objs(store), h, h, store[h].tree);
    BelowTree(store, h, store[h].tree);
  }

  /** What is known of the receiver, exactly: its commits, and what lies below the trees of its tips. */
  ghost predicate KnownExactly(store: Store, haves: seq<Id>, boundary: set<Id>, haveObjs: set<Id>) {
    && (forall x :: x in boundary <==> BehindAny(store, haves, x))
    && forall x :: x in haveObjs <==> InTreeOf(store, Elems(haves), x)
  }

  ghost predicate KnownExactlyAs(store: Store, haves: seq<Id>, boundary: set<Id>, haveObjs: set<Id>) {
    forall x | x == haves :: KnownExactly(store, x, boundary, haveObjs)
  }

  lemma AddedBoundary(store: Store, haves: seq<Id>, h: Id, added: set<Id>)
    requires h in haves && forall x | x in added :: Ancestor(store, x, h)
    ensures forall x | x in added :: FromAny(store, haves, x)
  {
    forall x | x in added ensures FromAny(store, haves, x) { AncestryInObjects(store, h, x); }
  }

  lemma AddedObjects(store: Store, haves: seq<Id>, h: Id, added: set<Id>)
    requires h in haves && IsCommit(store, h) && forall x | x in added :: Reach(Objs(store), store[h].tree, x)
    ensures forall x | x in added :: FromAny(store, haves, x)
  {
    ReachSelf(Objs(store), h);
    ReachStep(Objs(store), h, h, store[h].tree);
    BelowTree(store, h, store[h].tree);
  }

  lemma HeldWalk(store: Store, h: Id)
    requires WellTyped(store) && Holds(store, h)
    ensures forall x | Ancestor(store, x, h) && (x == h || exists c :: IsCommit(store, c) && x in Parents(store, c)) ::
              IsCommit(store, x)
  {
    forall x | Ancestor(store, x, h) && (x == h || exists c :: IsCommit(store, c) && x in Parents(store, c))
      ensures IsCommit(store, x)
    {
      HeldIsReadable(store, h, x);
    }
  }

  lemma HeldStep(store: Store, haves: seq<Id>, h: Id, boundary: set<Id>, boundary': set<Id>, objs: set<Id>,
                 objs': set<Id>)
    requires KnownExactlyAs(store, haves, boundary, objs) && IsCommit(store, h)
    requires boundary <= boundary' && h in boundary'
    requires forall x | x in boundary' - boundary :: Ancestor(store, x, h) && Parents(store, x) <= boundary'
    requires objs <= objs' && store[h].tree in objs'
    requires forall x | x in objs' - objs :: Reach(Objs(store), store[h].tree, x) && Refs(store, x) <= objs'
    ensures KnownExactlyAs(store, haves + [h], boundary', objs')
  {
    assert KnownExactly(store, haves, boundary, objs);
    BoundaryGrows(store, haves, h, boundary, boundary');
    TreesGrow(store, haves, h, objs, objs');
  }

  lemma MissingStep(store: Store, haves: seq<Id>, h: Id, boundary: set<Id>, boundary': set<Id>, objs: set<Id>)
    requires KnownExactlyAs(store, haves, boundary, objs) && h !in store
    requires boundary' == boundary + {h}
    ensures KnownExactlyAs(store, haves + [h], boundary', objs)
  {
    assert KnownExactly(store, haves, boundary, objs);
    ReachSelf(Ancestry(store), h);
    BoundaryGrows(store, haves, h, boundary, boundary');
    forall x ensures x in objs <==> InTreeOf(store, Elems(haves + [h]), x) {
      InTreeSnoc(store, haves, h, x);
    }
  }

  /**
   The boundary commits and the objects of the have tips: all the receiver has, as far as could be
   read, and exactly that where no have is here in part.
   */
  method KnownToReceiver(store: Store, haves: seq<Id>) returns (boundary: set<Id>, haveObjs: set<Id>)
    ensures forall x | x in boundary + haveObjs :: FromAny(store, haves, x)
    ensures haves == [] ==> boundary == {} && haveObjs == {}
    ensures WellTyped(store) && HavesHeld(store, haves) ==> KnownExactly(store, haves, boundary, haveObjs)
  {
    boundary, haveObjs := {}, {};
    var i := 0;
    ghost var held := WellTyped(store) && HavesHeld(store, haves);
    assert haves[..0] == [];
    assert KnownExactly(store, [], {}, {});
    while i < |haves|
      invariant 0 <= i <= |haves|
      invariant forall x | x in boundary + haveObjs :: FromAny(store, haves, x)
      invariant i == 0 ==> boundary == {} && haveObjs == {}
      invariant held ==> KnownExactlyAs(store, haves[..i], boundary, haveObjs)
    {
      var h := haves[i];
      ghost var before, known := boundary, haveObjs;
      var ok;
      ok, boundary := WalkCommits(store, h, boundary, {});
      AddedBoundary(store, haves, h, boundary - before);
      if held && h in store { HeldWalk(store, h); }
      if ok && h in store && store[h].Commit? {
        var found, objs := AddTreeClosureExcluding(store, store[h].tree, haveObjs, {});
        haveObjs := objs;
        AddedObjects(store, haves, h, haveObjs - known);
        if held {
          HeldTree(store, h);
          assert found;
          HeldStep(store, haves[..i], h, before, boundary, known, haveObjs);
        }
      } else if held {
        MissingStep(store, haves[..i], h, before, boundary, known);
      }
      assert haves[..i + 1] == haves[..i] + [h];
      i := i + 1;
    }
    assert haves[..i] == haves;
    assert held ==> KnownExactly(store, haves, boundary, haveObjs);
  }

  /** The commits to send: every commit back from the wants to the boundary. */
  method CommitsToSend(store: Store, wants: seq<Id>, boundary: set<Id>) returns (ok: bool, send: set<Id>)
    ensures forall x | x in send :: BehindAny(store, wants, x)
    ensures send !! boundary
    ensures ok ==> Elems(wants) <= send + boundary
    ensures ok ==> forall x | x in send :: IsCommit(store, x) && Parents(store, x) <= send + boundary
    ensures !ok && WellTyped(store) ==> Broken(store, wants)
  {
    send := {};
    var i := 0;
    assert wants[..0] == [];
    while i < |wants|
      invariant 0 <= i <= |wants|
      invariant forall x | x in send :: BehindAny(store, wants, x)
      invariant send !! boundary && Elems(wants[..i]) <= send + boundary
      invariant forall x | x in send :: IsCommit(store, x) && Parents(store, x) <= send + boundary
    {
      var w := wants[i];
      assert wants[..i + 1] == wants[..i] + [w];
      assert Elems(wants[..i + 1]) == Elems(wants[..i]) + {w};
      if w !in boundary {
        ghost var before := send;
        ok, send := WalkCommits(store, w, send, boundary);
        assert forall x | x in send - before :: BehindAny(store, wants, x);
        if !ok {
          UnreadableIsBroken(store, wants, w);
          return;
        }
      }
      i := i + 1;
    }
    assert wants[..i] == wants;
    return true, send;
  }

  /** Some want is no commit, or something below the wants is missing. */
  ghost predicate Broken(store: Store, wants: seq<Id>) {
    (exists w :: w in wants && !IsCommit(store, w)) || exists x :: FromAny(store, wants, x) && x !in store
  }

  lemma UnreadableIsBroken(store: Store, wants: seq<Id>, w: Id)
    requires w in wants
    requires exists x ::
      Ancestor(store, x, w) && !IsCommit(store, x)
      && (x == w || exists c :: IsCommit(store, c) && x in Parents(store, c))
    ensures WellTyped(store) ==> Broken(store, wants)
  {
    var x :| Ancestor(store, x, w) && !IsCommit(store, x)
    && (x == w || exists c :: IsCommit(store, c) && x in Parents(store, c));
    AncestryInObjects(store, w, x);
    assert FromAny(store, wants, x);
    if WellTyped(store) && x != w {
      var c :| IsCommit(store, c) && x in Parents(store, c);
      assert WellTypedObject(store, store[c]);
      assert x !in store;
    }
  }

  datatype Enumeration = Enumerated(ids: set<Id>) | EnumerationFailed

  /**
   What a successful enumeration promises: it lies below the wants; every want is in it or known
   to the receiver; and nothing in it names an object that is neither in it nor known, where
   what is known lies below the haves.
   */
  ghost predicate Covers(store: Store, wants: seq<Id>, haves: seq<Id>, ids: set<Id>, known: set<Id>) {
    && (forall x | x in ids :: FromAny(store, wants, x))
    && (forall x | x in known :: FromAny(store, haves, x))
    && Elems(wants) <= ids + known
    && ClosedUpTo(store, ids, ids, known)
  }

  /** A commit to send: behind the wants and not behind the haves. */
  ghost predicate CommitToSend(store: Store, wants: seq<Id>, haves: seq<Id>, x: Id) {
    BehindAny(store, wants, x) && !BehindAny(store, haves, x)
  }

  /**
   An object to send: such a commit, or what lies below the tree of one and not below the tree of
   any have.
   */
  ghost predicate ToSend(store: Store, wants: seq<Id>, haves: seq<Id>, x: Id) {
    || CommitToSend(store, wants, haves, x)
    || (!InTreeOf(store, Elems(haves), x)
        && exists c ::
          CommitToSend(store, wants, haves, c) && IsCommit(store, c) && Reach(Objs(store), store[c].tree, x))
  }

  /** What has been listed once these commits are: they, and what lies below their trees without what is known. */
  ghost predicate Listing(store: Store, commits: set<Id>, haveObjs: set<Id>, objs: set<Id>) {
    && (forall x | x in objs :: x in commits || (x !in haveObjs && InTreeOf(store, commits, x)))
    && (forall c | c in commits :: IsCommit(store, c) && c in objs && store[c].tree in objs + haveObjs)
    && (forall x | x in objs && !IsCommit(store, x) :: Refs(store, x) <= objs + haveObjs)
  }

  ghost predicate ListingAs(store: Store, commits: set<Id>, haveObjs: set<Id>, objs: set<Id>) {
    forall x | x == objs :: Listing(store, commits, haveObjs, x)
  }

  lemma ListStep(store: Store, commits: set<Id>, haveObjs: set<Id>, objs: set<Id>, c: Id, objs': set<Id>)
    requires ListingAs(store, commits, haveObjs, objs) && IsCommit(store, c)
    requires objs + {c} <= objs' && store[c].tree in objs' + haveObjs && objs' - objs - {c} !! haveObjs
    requires forall x | x in objs' - objs - {c} :: Reach(Objs(store), store[c].tree, x)
    requires forall x | x in objs' - objs - {c} :: Refs(store, x) <= objs' + haveObjs
    ensures ListingAs(store, commits + {c}, haveObjs, objs')
  {
    assert Listing(store, commits, haveObjs, objs);
    forall x | x in objs' ensures x in commits + {c} || (x !in haveObjs && InTreeOf(store, commits + {c}, x)) {
      if x in objs && x !in commits {
        var d :| d in commits && IsCommit(store, d) && Reach(Objs(store), store[d].tree, x);
        assert d in commits + {c};
      } else if x !in objs && x != c {
        assert c in commits + {c};
      }
    }
    assert Listing(store, commits + {c}, haveObjs, objs');
  }

  /** The commits of the listing, exactly. */
  lemma CommitsExactly(store: Store, wants: seq<Id>, haves: seq<Id>, boundary: set<Id>, send: set<Id>, x: Id)
    requires (forall y | y in send :: BehindAny(store, wants, y)) && send !! boundary && Elems(wants) <= send + boundary
    requires forall y | y in send :: Parents(store, y) <= send + boundary
    requires forall y :: y in boundary <==> BehindAny(store, haves, y)
    ensures x in send <==> CommitToSend(store, wants, haves, x)
  {
    if CommitToSend(store, wants, haves, x) {
      var w :| w in wants && Ancestor(store, x, w);
      assert w in Elems(wants);
      forall y | y in send + boundary ensures Ancestry(store)(y) <= send + boundary {
        if y in boundary {
          forall z | z in Parents(store, y) ensures z in boundary { BehindIsClosed(store, haves, y, z); }
        }
      }
      ClosedContainsReach(Ancestry(store), send + boundary, w, x);
    }
  }

  /** What lies below the tree of a listed commit is listed, unless it is known. */
  lemma TreesListed(store: Store, haves: seq<Id>, commits: set<Id>, haveObjs: set<Id>, objs: set<Id>, c: Id, x: Id)
    requires WellTyped(store) && Listing(store, commits, haveObjs, objs) && c in commits
    requires forall y :: y in haveObjs <==> InTreeOf(store, Elems(haves), y)
    requires Reach(Objs(store), store[c].tree, x)
    ensures x in objs + haveObjs
  {
    var s := (set y | y in objs && !IsCommit(store, y)) + haveObjs;
    assert WellTypedObject(store, store[c]);
    forall y | y in s ensures Objs(store)(y) <= s {
      forall z | z in Refs(store, y) ensures z in s {
        if y in haveObjs {
          InTreeClosed(store, Elems(haves), y, z);
        } else {
          assert WellTypedObject(store, store[y]);
        }
      }
    }
    ClosedContainsReach(Objs(store), s, store[c].tree, x);
  }

  lemma ListedExactly(store: Store, wants: seq<Id>, haves: seq<Id>, boundary: set<Id>, haveObjs: set<Id>,
                      send: set<Id>, objs: set<Id>)
    requires WellTyped(store) && KnownExactly(store, haves, boundary, haveObjs)
    requires (forall y | y in send :: BehindAny(store, wants, y)) && send !! boundary && Elems(wants) <= send + boundary
    requires forall y | y in send :: Parents(store, y) <= send + boundary
    requires ListingAs(store, send, haveObjs, objs)
    ensures forall x :: x in objs <==> ToSend(store, wants, haves, x)
  {
    assert Listing(store, send, haveObjs, objs);
    forall x ensures x in send <==> CommitToSend(store, wants, haves, x) {
      CommitsExactly(store, wants, haves, boundary, send, x);
    }
    forall x ensures x in objs <==> ToSend(store, wants, haves, x) {
      if c :| CommitToSend(store, wants, haves, c) && IsCommit(store, c) && Reach(Objs(store), store[c].tree, x) {
        TreesListed(store, haves, send, haveObjs, objs, c, x);
      }
    }
  }

  /** The listing so far, with these commits done: what it holds, what it leads to, and what it is. */
  ghost predicate Enumerating(store: Store, wants: seq<Id>, send: set<Id>, known: set<Id>, haveObjs: set<Id>,
                              done: set<Id>, objs: set<Id>) {
    && (forall x | x in objs :: FromAny(store, wants, x)) && done <= objs
    && (WellTyped(store) ==>
          && (forall x | x in objs && IsCommit(store, x) :: x in done)
          && (forall x | x in objs :: Refs(store, x) <= objs + send + known)
          && ListingAs(store, done, haveObjs, objs))
  }

  ghost predicate EnumeratingAs(store: Store, wants: seq<Id>, send: set<Id>, known: set<Id>, haveObjs: set<Id>,
                                done: set<Id>, objs: set<Id>) {
    forall x | x == objs :: Enumerating(store, wants, send, known, haveObjs, done, x)
  }

  lemma EnumerationStarts(store: Store, wants: seq<Id>, send: set<Id>, known: set<Id>, haveObjs: set<Id>)
    ensures EnumeratingAs(store, wants, send, known, haveObjs, {}, {})
  {
    assert Listing(store, {}, haveObjs, {});
    assert Enumerating(store, wants, send, known, haveObjs, {}, {});
  }

  /** One more commit with its tree. */
  lemma EnumerationStep(store: Store, wants: seq<Id>, send: set<Id>, known: set<Id>, haveObjs: set<Id>,
                        done: set<Id>, objs: set<Id>, c: Id, objs': set<Id>)
    requires EnumeratingAs(store, wants, send, known, haveObjs, done, objs) && haveObjs <= known
    requires IsCommit(store, c) && FromAny(store, wants, c) && Parents(store, c) <= send + known
    requires objs + {c} <= objs' && store[c].tree in objs' + haveObjs
    requires var added := objs' - (objs + {c});
             && added !! haveObjs && (forall x | x in added :: Reach(Objs(store), store[c].tree, x))
             && (WellTyped(store) ==> NoCommits(store, added) && ClosedUpTo(store, added, objs', haveObjs))
    ensures EnumeratingAs(store, wants, send, known, haveObjs, done + {c}, objs')
  {
    assert Enumerating(store, wants, send, known, haveObjs, done, objs);
    FromAnyStep(store, wants, c, store[c].tree);
    BelowWants(store, wants, store[c].tree);
    assert Refs(store, c) == {store[c].tree} + Parents(store, c);
    if WellTyped(store) { ListStep(store, done, haveObjs, objs, c, objs'); }
    assert Enumerating(store, wants, send, known, haveObjs, done + {c}, objs');
  }

  /** A tree of a listed commit that cannot be read shows that the wants are broken. */
  lemma TreeIsBroken(store: Store, wants: seq<Id>, c: Id)
    requires IsCommit(store, c) && FromAny(store, wants, c)
    requires WellTyped(store) ==> exists x :: Reach(Objs(store), store[c].tree, x) && x !in store
    ensures WellTyped(store) ==> Broken(store, wants)
  {
    FromAnyStep(store, wants, c, store[c].tree);
    BelowWants(store, wants, store[c].tree);
  }

  /**
   The objects to send, trees and blobs included: exactly the commits behind the wants and not the
   haves, and what their trees have that no tip of the haves has, where no have is here in part.
   */
  method Enumerate(store: Store, wants: seq<Id>, haves: seq<Id>) returns (r: Enumeration, ghost known: set<Id>)
    ensures r.Enumerated? ==> forall x | x in r.ids :: FromAny(store, wants, x)
    ensures r.Enumerated? && WellTyped(store) ==> Covers(store, wants, haves, r.ids, known)
    ensures r.Enumerated? && WellTyped(store) && HavesHeld(store, haves)
      ==> forall x :: x in r.ids <==> ToSend(store, wants, haves, x)
    ensures r.EnumerationFailed? && WellTyped(store) ==> Broken(store, wants)
    ensures haves == [] ==> known == {}
  {
    var boundary, haveObjs := KnownToReceiver(store, haves);
    known := boundary + haveObjs;
    var ok, send := CommitsToSend(store, wants, boundary);
    BehindIsBelow(store, wants, send);
    if !ok {
      return EnumerationFailed, known;
    }
    var objs: set<Id> := {};
    var todo := send;
    ghost var done: set<Id> := {};
    EnumerationStarts(store, wants, send, known, haveObjs);
    while todo != {}
      invariant done == send - todo && todo <= send
      invariant EnumeratingAs(store, wants, send, known, haveObjs, done, objs)
      decreases todo
    {
      var c :| c in todo;
      todo := todo - {c};
      ghost var objs0 := objs;
      objs := objs + {c};
      assert WellTyped(store) ==> WellTypedObject(store, store[c]);
      var ok', objs' := AddTreeClosureExcluding(store, store[c].tree, objs, haveObjs);
      if !ok' {
        TreeIsBroken(store, wants, c);
        return EnumerationFailed, known;
      }
      EnumerationStep(store, wants, send, known, haveObjs, done, objs0, c, objs');
      objs := objs';
      done := done + {c};
    }
    assert done == send;
    assert Enumerating(store, wants, send, known, haveObjs, send, objs);
    if WellTyped(store) && HavesHeld(store, haves) {
      ListedExactly(store, wants, haves, boundary, haveObjs, send, objs);
    }
    return Enumerated(objs), known;
  }

  lemma BehindIsBelow(store: Store, wants: seq<Id>, commits: set<Id>)
    requires forall x | x in commits :: BehindAny(store, wants, x)
    ensures forall x | x in commits :: FromAny(store, wants, x)
  {
    forall x | x in commits ensures FromAny(store, wants, x) {
      var w :| w in wants && Ancestor(store, x, w);
      AncestryInObjects(store, w, x);
    }
  }

  lemma BelowWants(store: Store, wants: seq<Id>, t: Id)
    requires FromAny(store, wants, t)
    ensures forall x :: Reach(Objs(store), t, x) ==> FromAny(store, wants, x)
  {
    var w :| w in wants && Reach(Objs(store), w, t);
    forall x | Reach(Objs(store), t, x) ensures FromAny(store, wants, x) {
      ReachTrans(Objs(store), w, t, x);
    }
  }

  // ----- what the receiver ends up with -----

  /** The store has everything reachable from id. */
  ghost predicate Complete(store: Store, id: Id) {
    forall x :: Reach(Objs(store), id, x) ==> x in store
  }

  /** The store has a commit and everything below it. */
  ghost predicate Holds(store: Store, id: Id) {
    IsCommit(store, id) && Complete(store, id)
  }

  /** Everything below the haves, in the receiver. */
  ghost function Below(store: Store, roots: seq<Id>): set<Id> {
    set x | x in store.Keys && FromAny(store, roots, x)
  }

  /** What the sender sees below a have, the receiver has below that have. */
  lemma SenderSeesLess(sender: Store, receiver: Store, haves: seq<Id>, x: Id)
    requires Agree(sender, receiver) && (forall h | h in haves :: Complete(receiver, h)) && FromAny(sender, haves, x)
    ensures x in Below(receiver, haves)
  {
    var h :| h in haves && Reach(Objs(sender), h, x);
    var s := Below(receiver, haves);
    FromAnySelf(receiver, haves, h);
    ReachSelf(Objs(receiver), h);
    forall y | y in s ensures Objs(sender)(y) <= s {
      BelowIsClosed(receiver, haves, y);
    }
    ClosedContainsReach(Objs(sender), s, h, x);
  }

  lemma BelowIsClosed(receiver: Store, haves: seq<Id>, y: Id)
    requires (forall h | h in haves :: Complete(receiver, h)) && y in Below(receiver, haves)
    ensures Refs(receiver, y) <= Below(receiver, haves)
  {
    forall z | z in Refs(receiver, y) ensures z in Below(receiver, haves) {
      FromAnyStep(receiver, haves, y, z);
      var h :| h in haves && Reach(Objs(receiver), h, z);
    }
  }

  /** A closure that is complete stays complete, and stays the same, when the store grows. */
  lemma HoldsGrows(a: Store, b: Store, id: Id)
    requires PartOf(a, b) && Holds(a, id)
    ensures Holds(b, id)
  {
    var s := Below(a, [id]);
    assert [id][0] == id;
    FromAnySelf(a, [id], id);
    forall x | x in s ensures Objs(b)(x) <= s {
      BelowIsClosed(a, [id], x);
    }
    forall x | Reach(Objs(b), id, x) ensures x in b {
      ClosedContainsReach(Objs(b), s, id, x);
    }
  }

  function Pick(store: Store, ids: set<Id>): Store
    requires ids <= store.Keys
  {
    map x | x in ids :: store[x]
  }

  /** Taking in a pack: an object that is already there is not written again. */
  function Ingest(store: Store, pack: Store): Store {
    pack + store
  }

  /**
   The receiver that had the full closure of every have has the full closure of every want once
   the pack is in, however little of the haves the sender could read.
   */
  lemma ReceiverIsCompleted(sender: Store, receiver: Store, wants: seq<Id>, haves: seq<Id>, ids: set<Id>,
                            known: set<Id>)
    requires Agree(sender, receiver) && ids <= sender.Keys
    requires forall h | h in haves :: Complete(receiver, h)
    requires Covers(sender, wants, haves, ids, known)
    ensures forall w | w in wants :: Complete(Ingest(receiver, Pick(sender, ids)), w)
  {
    var after := Ingest(receiver, Pick(sender, ids));
    var s := ids + Below(receiver, haves);
    forall x | x in known ensures x in s {
      SenderSeesLess(sender, receiver, haves, x);
    }
    forall y | y in s ensures Objs(after)(y) <= s {
      if y in ids {
        assert y in sender && after[y] == sender[y];
      } else {
        BelowIsClosed(receiver, haves, y);
        assert after[y] == receiver[y];
      }
    }
    forall w, x | w in wants && Reach(Objs(after), w, x) ensures x in after {
      assert w in Elems(wants);
      ClosedContainsReach(Objs(after), s, w, x);
    }
  }

  /** With no haves the enumeration is exactly the closure of the wants. */
  lemma NoHavesIsClosure(store: Store, wants: seq<Id>, ids: set<Id>, x: Id)
    requires Covers(store, wants, [], ids, {})
    ensures x in ids <==> FromAny(store, wants, x)
  {
    if FromAny(store, wants, x) {
      var w :| w in wants && Reach(Objs(store), w, x);
      assert w in Elems(wants);
      ClosedContainsReach(Objs(store), ids, w, x);
    }
  }

  /** A sender with the full closure of commits it wants to send cannot fail, and can send what it lists. */
  lemma CompleteSenderSucceeds(store: Store, wants: seq<Id>, ids: set<Id>)
    requires forall w | w in wants :: IsCommit(store, w) && Complete(store, w)
    ensures !Broken(store, wants)
    ensures (forall x | x in ids :: FromAny(store, wants, x)) ==> ids <= store.Keys
  {
  }
}
