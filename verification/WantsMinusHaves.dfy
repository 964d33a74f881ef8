/** When the listing of a transfer is what the wants reach without what the haves reach. */
module WantsMinusHaves {
  import opened Objects
  import opened Reachability
  import opened CommitGraph
  import opened Discovery
  import opened Walks
  import opened Transfer

  ghost function Behind(store: Store, roots: seq<Id>): set<Id> {
    set x | x in store.Keys && BehindAny(store, roots, x)
  }

  /** Whatever is below a commit is an ancestor, or is below the tree of one. */
  lemma {:induction false} BelowSplits(store: Store, path: seq<Id>, i: nat)
    requires IsPath(Objs(store), path) && i < |path| && WellTyped(store) && IsCommit(store, path[0])
    ensures Ancestor(store, path[i], path[0])
      || exists c :: Ancestor(store, c, path[0]) && IsCommit(store, c) && Reach(Objs(store), store[c].tree, path[i])
    decreases i
  {
    if i == 0 {
      ReachSelf(Ancestry(store), path[0]);
    } else {
      var d, x := path[i - 1], path[i];
      BelowSplits(store, path, i - 1);
      assert x in Refs(store, d);
      if c :| Ancestor(store, c, path[0]) && IsCommit(store, c) && Reach(Objs(store), store[c].tree, d) {
        ReachStep(Objs(store), store[c].tree, d, x);
      } else {
        BelowOne(store, path[0], d, x);
      }
    }
  }

  lemma BelowOne(store: Store, root: Id, d: Id, x: Id)
    requires WellTyped(store) && IsCommit(store, root) && Ancestor(store, d, root) && x in Refs(store, d)
    ensures Ancestor(store, x, root)
      || exists c :: Ancestor(store, c, root) && IsCommit(store, c) && Reach(Objs(store), store[c].tree, x)
  {
    AncestorIsCommit(store, root, d);
    if x in Parents(store, d) {
      ReachStep(Ancestry(store), root, d, x);
    } else {
      assert x == store[d].tree;
      ReachSelf(Objs(store), x);
    }
  }

  lemma AncestorIsCommit(store: Store, root: Id, d: Id)
    requires WellTyped(store) && IsCommit(store, root) && Ancestor(store, d, root) && d in store
    ensures IsCommit(store, d)
  {
    var s := set x | x in store.Keys && IsCommit(store, x);
    var missing := Parented(store) - store.Keys;
    forall y | y in s + missing ensures Ancestry(store)(y) <= s + missing {
      forall z | z in Parents(store, y) ensures z in s + missing {
        assert WellTypedObject(store, store[y]);
      }
    }
    ClosedContainsReach(Ancestry(store), s + missing, root, d);
  }

  function Parented(store: Store): set<Id> {
    set c, p | c in store.Keys && p in Parents(store, c) :: p
  }

  /** Below the roots is behind them or in the tree of a commit behind them. */
  lemma BelowRoots(store: Store, roots: seq<Id>, x: Id)
    requires WellTyped(store) && forall r | r in roots :: r in store ==> IsCommit(store, r)
    ensures FromAny(store, roots, x) <==> BehindAny(store, roots, x) || InTreeOf(store, Behind(store, roots), x)
  {
    if FromAny(store, roots, x) {
      var r :| r in roots && Reach(Objs(store), r, x);
      if r in store {
        var path :| PathFromTo(Objs(store), path, r, x);
        BelowSplits(store, path, |path| - 1);
      } else {
        ClosedContainsReach(Objs(store), {r}, r, x);
        ReachSelf(Ancestry(store), r);
      }
    }
    if BehindAny(store, roots, x) {
      var r :| r in roots && Ancestor(store, x, r);
      AncestryInObjects(store, r, x);
    }
    if InTreeOf(store, Behind(store, roots), x) {
      TreeBelowRoots(store, roots, x);
    }
  }

  lemma TreeBelowRoots(store: Store, roots: seq<Id>, x: Id)
    requires InTreeOf(store, Behind(store, roots), x)
    ensures FromAny(store, roots, x)
  {
    var c :| c in Behind(store, roots) && IsCommit(store, c) && Reach(Objs(store), store[c].tree, x);
    var r :| r in roots && Ancestor(store, c, r);
    AncestryInObjects(store, r, c);
    ReachStep(Objs(store), r, c, store[c].tree);
    ReachTrans(Objs(store), r, store[c].tree, x);
  }

  /** Below a tree there are no commits. */
  lemma NoCommitBelowTree(store: Store, c: Id, x: Id)
    requires WellTyped(store) && IsCommit(store, c) && Reach(Objs(store), store[c].tree, x)
    ensures !IsCommit(store, x)
  {
    var t := store[c].tree;
    var s := set y | y in store.Keys && !IsCommit(store, y);
    var missing := ({t} + (set d, y | d in store.Keys && y in Refs(store, d) :: y)) - store.Keys;
    assert WellTypedObject(store, store[c]);
    forall y | y in s + missing ensures Objs(store)(y) <= s + missing {
      forall z | z in Refs(store, y) ensures z in s + missing {
        assert WellTypedObject(store, store[y]);
      }
    }
    ClosedContainsReach(Objs(store), s + missing, t, x);
  }

  /** Nothing below a tree to be sent was in an older tree of the receiver but is in none of its tips. */
  ghost predicate NothingComesBack(store: Store, wants: seq<Id>, haves: seq<Id>) {
    forall c, x | CommitToSend(store, wants, haves, c) && IsCommit(store, c) && Reach(Objs(store), store[c].tree, x) ::
      InTreeOf(store, Behind(store, haves), x) ==> InTreeOf(store, Elems(haves), x)
  }

  /**
   The listing is what the wants reach and the haves do not, exactly when no file comes back that
   the receiver had in its history but not in its tips; it is never less.
   */
  lemma DifferenceExactly(store: Store, wants: seq<Id>, haves: seq<Id>)
    requires WellTyped(store) && HavesHeld(store, haves) && forall w | w in wants :: Holds(store, w)
    ensures forall x | FromAny(store, wants, x) && !FromAny(store, haves, x) :: ToSend(store, wants, haves, x)
    ensures (forall x :: ToSend(store, wants, haves, x) <==> FromAny(store, wants, x) && !FromAny(store, haves, x))
      <==> NothingComesBack(store, wants, haves)
  {
    forall x | FromAny(store, wants, x) && !FromAny(store, haves, x) ensures ToSend(store, wants, haves, x) {
      NeverLess(store, wants, haves, x);
    }
    forall x | ToSend(store, wants, haves, x) && NothingComesBack(store, wants, haves)
      ensures FromAny(store, wants, x) && !FromAny(store, haves, x)
    {
      SentIsNew(store, wants, haves, x);
    }
    if forall x :: ToSend(store, wants, haves, x) <==> FromAny(store, wants, x) && !FromAny(store, haves, x) {
      forall c, x | CommitToSend(store, wants, haves, c) && IsCommit(store, c)
        && Reach(Objs(store), store[c].tree, x) && InTreeOf(store, Behind(store, haves), x)
        ensures InTreeOf(store, Elems(haves), x)
      {
        TreeBelowRoots(store, haves, x);
        assert !ToSend(store, wants, haves, x);
      }
    }
  }

  lemma NeverLess(store: Store, wants: seq<Id>, haves: seq<Id>, x: Id)
    requires WellTyped(store) && HavesHeld(store, haves) && forall w | w in wants :: Holds(store, w)
    requires FromAny(store, wants, x) && !FromAny(store, haves, x)
    ensures ToSend(store, wants, haves, x)
  {
    BelowRoots(store, wants, x);
    BelowRoots(store, haves, x);
    if InTreeOf(store, Elems(haves), x) {
      TipTreeIsBelow(store, haves, x);
    }
    if !BehindAny(store, wants, x) {
      var c :| c in Behind(store, wants) && IsCommit(store, c) && Reach(Objs(store), store[c].tree, x);
      assert c in Behind(store, haves) ==> InTreeOf(store, Behind(store, haves), x);
    }
  }

  lemma TipTreeIsBelow(store: Store, haves: seq<Id>, x: Id)
    requires InTreeOf(store, Elems(haves), x)
    ensures InTreeOf(store, Behind(store, haves), x)
  {
    var h :| h in Elems(haves) && IsCommit(store, h) && Reach(Objs(store), store[h].tree, x);
    ReachSelf(Ancestry(store), h);
    assert h in Behind(store, haves);
  }

  lemma SentIsNew(store: Store, wants: seq<Id>, haves: seq<Id>, x: Id)
    requires WellTyped(store) && HavesHeld(store, haves) && forall w | w in wants :: Holds(store, w)
    requires ToSend(store, wants, haves, x) && NothingComesBack(store, wants, haves)
    ensures FromAny(store, wants, x) && !FromAny(store, haves, x)
  {
    BelowRoots(store, wants, x);
    BelowRoots(store, haves, x);
    if CommitToSend(store, wants, haves, x) {
      SentIsCommit(store, wants, haves, x);
      if c :| c in Behind(store, haves) && IsCommit(store, c) && Reach(Objs(store), store[c].tree, x) {
        NoCommitBelowTree(store, c, x);
      }
    } else {
      var c :| CommitToSend(store, wants, haves, c) && IsCommit(store, c) && Reach(Objs(store), store[c].tree, x);
      assert c in Behind(store, wants);
      assert x in store by {
        var w :| w in wants && Reach(Objs(store), w, x);
      }
      if BehindAny(store, haves, x) {
        NotBehind(store, haves, c, x);
      }
    }
  }

  lemma SentIsCommit(store: Store, wants: seq<Id>, haves: seq<Id>, x: Id)
    requires WellTyped(store) && (forall w | w in wants :: Holds(store, w)) && CommitToSend(store, wants, haves, x)
    ensures IsCommit(store, x)
  {
    var w :| w in wants && Ancestor(store, x, w);
    AncestryInObjects(store, w, x);
    AncestorIsCommit(store, w, x);
  }

  /** What is below a tree is behind no have that is held: it would be a commit. */
  lemma NotBehind(store: Store, haves: seq<Id>, c: Id, x: Id)
    requires WellTyped(store) && HavesHeld(store, haves) && IsCommit(store, c)
    requires Reach(Objs(store), store[c].tree, x) && BehindAny(store, haves, x)
    ensures x in haves && x !in store
  {
    NoCommitBelowTree(store, c, x);
    var h :| h in haves && Ancestor(store, x, h);
    if h in store {
      AncestryInObjects(store, h, x);
      AncestorIsCommit(store, h, x);
    } else {
      NothingBehind(store, h, x);
    }
  }

  const FILE := TreeEntry(0, "f", 20)

  /** Commit 2 removed the file that commit 1 had, and commit 3 takes that back. */
  const REVERT: Store :=
    map[1 := Commit(11, []), 2 := Commit(12, [1]), 3 := Commit(11, [2]), 11 := Tree([FILE]), 12 := Tree([]),
        20 := Blob("text")]

  /** The file is sent to a receiver that has commit 2, and so commit 1 with the file. */
  lemma FileComesBack()
    ensures WellTyped(REVERT) && Holds(REVERT, 2) && Holds(REVERT, 3)
    ensures ToSend(REVERT, [3], [2], 20) && FromAny(REVERT, [2], 20)
  {
    RevertRefs();
    RevertReaches();
    RevertSends([3], [2]);
    assert REVERT[3].tree == 11 && IsCommit(REVERT, 3);
    assert 2 in [2];
  }

  lemma RevertSends(wants: seq<Id>, haves: seq<Id>)
    requires wants == [3] && haves == [2]
    ensures CommitToSend(REVERT, wants, haves, 3) && !InTreeOf(REVERT, Elems(haves), 20)
  {
    RevertRefs();
    ReachSelf(Ancestry(REVERT), 3);
    assert wants[0] == 3;
    assert 3 in wants && Ancestor(REVERT, 3, 3) && forall h | h in haves :: h == 2;
    assert BehindAny(REVERT, wants, 3);
    assert Closed(Ancestry(REVERT), {1, 2});
    if Ancestor(REVERT, 3, 2) { ClosedContainsReach(Ancestry(REVERT), {1, 2}, 2, 3); }
    if Reach(Objs(REVERT), 12, 20) { ClosedContainsReach(Objs(REVERT), {12}, 12, 20); }
    assert REVERT[2].tree == 12;
  }

  lemma RevertRefs()
    ensures Refs(REVERT, 1) == {11} && Refs(REVERT, 2) == {12, 1} && Refs(REVERT, 3) == {11, 2}
    ensures Refs(REVERT, 11) == {20} && Refs(REVERT, 12) == {} && Refs(REVERT, 20) == {}
    ensures Parents(REVERT, 1) == {} && Parents(REVERT, 2) == {1} && WellTyped(REVERT)
  {
    assert [1][0] == 1 && [2][0] == 2 && [FILE][0] == FILE;
    assert REVERT[1] == Commit(11, []) && REVERT[2] == Commit(12, [1]) && REVERT[3] == Commit(11, [2]);
    assert REVERT[11] == Tree([FILE]) && REVERT[12] == Tree([]);
  }

  lemma RevertReaches()
    ensures Holds(REVERT, 2) && Holds(REVERT, 3) && Reach(Objs(REVERT), 11, 20) && Reach(Objs(REVERT), 2, 20)
  {
    var g := Objs(REVERT);
    RevertRefs();
    forall r, x | r in {2, 3} && Reach(g, r, x) ensures x in REVERT {
      ClosedContainsReach(g, {1, 2, 3, 11, 12, 20}, r, x);
    }
    ReachSelf(g, 11);
    ReachStep(g, 11, 11, 20);
    ReachSelf(g, 2);
    ReachStep(g, 2, 2, 1);
    ReachStep(g, 2, 1, 11);
    ReachStep(g, 2, 11, 20);
  }
}
