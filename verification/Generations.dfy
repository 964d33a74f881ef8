/** Generation numbers: how long the longest chain of parents below a commit is. */
module Generations {

  import opened Objects
  import opened Reachability
  import opened CommitGraph
  import opened Numbers
  import opened Discovery

  /** History has no cycle: some rank falls from every commit to its parents. */
  ghost predicate Falls(store: Store, rank: Id -> nat) {
    forall id, p | IsCommit(store, id) && p in store[id].parents :: rank(p) < rank(id)
  }

  lemma ReadableParents(store: Store, id: Id)
    ensures Readable(store, id) <==> IsCommit(store, id) && forall p | p in Parents(store, id) :: Readable(store, p)
  {
    var g := Ancestry(store);
    ReachSelf(g, id);
    if Readable(store, id) {
      forall p, x | p in Parents(store, id) && Ancestor(store, x, p) ensures IsCommit(store, x) {
        ReachStep(g, id, id, p);
        ReachTrans(g, id, p, x);
      }
    }
    if IsCommit(store, id) && forall p | p in Parents(store, id) :: Readable(store, p) {
      forall x | Ancestor(store, x, id) ensures IsCommit(store, x) {
        if x != id { FirstStep(store, id, x); }
      }
    }
  }

  /** A proper ancestor is an ancestor of a parent. */
  lemma FirstStep(store: Store, id: Id, x: Id)
    requires Ancestor(store, x, id) && x != id
    ensures exists p :: p in Parents(store, id) && Ancestor(store, x, p)
  {
    var g := Ancestry(store);
    var path :| PathFromTo(g, path, id, x);
    var rest := path[1..];
    assert rest != [] && path[1] in g(path[0]);
    forall i | 0 <= i < |rest| - 1 ensures rest[i + 1] in g(rest[i]) {
      assert rest[i] == path[i + 1] && rest[i + 1] == path[i + 2];
    }
    assert PathFromTo(g, rest, path[1], x);
  }

  // ----- the number -----

  /** Root 0, otherwise one more than the highest parent. */
  ghost function Gen(store: Store, rank: Id -> nat, id: Id): nat
    requires Falls(store, rank)
    decreases rank(id), 1, 0
  {
    if !IsCommit(store, id) || store[id].parents == [] then 0
    else Highest(store, rank, store[id].parents, rank(id)) + 1
  }

  ghost function Highest(store: Store, rank: Id -> nat, ps: seq<Id>, bound: nat): nat
    requires Falls(store, rank) && forall p | p in ps :: rank(p) < bound
    decreases bound, 0, |ps|
  {
    if ps == [] then 0
    else Max(Highest(store, rank, ps[..|ps| - 1], bound), Gen(store, rank, ps[|ps| - 1]))
  }

  lemma {:induction false} HighestIsMax(store: Store, rank: Id -> nat, ps: seq<Id>, bound: nat)
    requires Falls(store, rank) && forall p | p in ps :: rank(p) < bound
    ensures forall p | p in ps :: Gen(store, rank, p) <= Highest(store, rank, ps, bound)
    ensures ps != [] ==> exists p :: p in ps && Gen(store, rank, p) == Highest(store, rank, ps, bound)
    decreases |ps|
  {
    if ps != [] {
      var front, p := ps[..|ps| - 1], ps[|ps| - 1];
      HighestIsMax(store, rank, front, bound);
      assert p in ps;
      if front != [] {
        var q :| q in front && Gen(store, rank, q) == Highest(store, rank, front, bound);
        assert q in ps;
      }
    }
  }

  /** Generations fall strictly along every parent link. */
  lemma GenFalls(store: Store, rank: Id -> nat, id: Id, p: Id)
    requires Falls(store, rank) && p in Parents(store, id)
    ensures Gen(store, rank, p) < Gen(store, rank, id)
  {
    HighestIsMax(store, rank, store[id].parents, rank(id));
  }

  lemma {:induction false} GenFallsAlong(store: Store, rank: Id -> nat, path: seq<Id>, i: nat)
    requires Falls(store, rank) && IsPath(Ancestry(store), path) && i < |path|
    ensures Gen(store, rank, path[i]) + i <= Gen(store, rank, path[0])
    decreases i
  {
    if i > 0 {
      GenFallsAlong(store, rank, path, i - 1);
      GenFalls(store, rank, path[i - 1], path[i]);
    }
  }

  /** A proper ancestor has a lower generation. */
  lemma AncestorIsLower(store: Store, rank: Id -> nat, x: Id, id: Id)
    requires Falls(store, rank) && Ancestor(store, x, id) && x != id
    ensures Gen(store, rank, x) < Gen(store, rank, id)
  {
    var path :| PathFromTo(Ancestry(store), path, id, x);
    GenFallsAlong(store, rank, path, |path| - 1);
  }

  /** The generation is the length of the longest chain of parents. */
  lemma {:induction false} GenIsLongestChain(store: Store, rank: Id -> nat, id: Id) returns (longest: seq<Id>)
    requires Falls(store, rank)
    ensures IsPath(Ancestry(store), longest) && longest[0] == id && |longest| == Gen(store, rank, id) + 1
    ensures forall path | IsPath(Ancestry(store), path) && path[0] == id :: |path| <= |longest|
    decreases rank(id)
  {
    forall path | IsPath(Ancestry(store), path) && path[0] == id ensures |path| <= Gen(store, rank, id) + 1 {
      GenFallsAlong(store, rank, path, |path| - 1);
    }
    longest := [id];
    if IsCommit(store, id) && store[id].parents != [] {
      var ps := store[id].parents;
      HighestIsMax(store, rank, ps, rank(id));
      var p :| p in ps && Gen(store, rank, p) == Highest(store, rank, ps, rank(id));
      var rest := GenIsLongestChain(store, rank, p);
      longest := [id] + rest;
      assert p in Ancestry(store)(id);
      assert forall i | 0 <= i < |longest| - 1 :: longest[i + 1] == rest[i];
      assert forall i | 0 < i < |longest| - 1 :: longest[i] == rest[i - 1];
    }
  }

  // ----- the memoised computation -----

  type Cache = map<Id, nat>

  ghost predicate Right(store: Store, rank: Id -> nat, cache: Cache)
    requires Falls(store, rank)
  {
    forall id | id in cache :: Readable(store, id) && cache[id] == Gen(store, rank, id)
  }

  /** The generation, remembered for every commit met on the way; false where an ancestor cannot be read. */
  method Generation(store: Store, ghost rank: Id -> nat, id: Id, cache0: Cache)
    returns (ok: bool, gen: nat, cache: Cache)
    requires Falls(store, rank) && Right(store, rank, cache0)
    ensures ok <==> Readable(store, id)
    ensures ok ==> gen == Gen(store, rank, id) && id in cache
    ensures Right(store, rank, cache) && forall x | x in cache0 :: x in cache && cache[x] == cache0[x]
    decreases rank(id), 1
  {
    cache := cache0;
    ReadableParents(store, id);
    if id in cache {
      return true, cache[id], cache;
    }
    if id !in store || !store[id].Commit? {
      return false, 0, cache;
    }
    var parents := store[id].parents;
    if |parents| == 0 {
      cache := cache[id := 0];
      return true, 0, cache;
    }
    var maxParent := 0;
    ok, maxParent, cache := HighestParent(store, rank, id, parents, cache);
    if !ok {
      return false, 0, cache;
    }
    gen := maxParent + 1;
    cache := cache[id := gen];
  }

  method HighestParent(store: Store, ghost rank: Id -> nat, id: Id, parents: seq<Id>, cache0: Cache)
    returns (ok: bool, top: nat, cache: Cache)
    requires Falls(store, rank) && Right(store, rank, cache0)
    requires IsCommit(store, id) && store[id].parents == parents
    ensures ok <==> forall p | p in parents :: Readable(store, p)
    ensures ok ==> top == Highest(store, rank, parents, rank(id))
    ensures Right(store, rank, cache) && forall x | x in cache0 :: x in cache && cache[x] == cache0[x]
    decreases rank(id), 0
  {
    ok, top, cache := true, 0, cache0;
    var k := 0;
    while k < |parents|
      invariant 0 <= k <= |parents| && ok
      invariant forall p | p in parents[..k] :: Readable(store, p)
      invariant top == Highest(store, rank, parents[..k], rank(id))
      invariant Right(store, rank, cache) && forall x | x in cache0 :: x in cache && cache[x] == cache0[x]
    {
      var p := parents[k];
      assert p in parents;
      assert parents[..k + 1][..k] == parents[..k];
      var g;
      ok, g, cache := Generation(store, rank, p, cache);
      if !ok {
        return;
      }
      if g > top {
        top := g;
      }
      k := k + 1;
    }
    assert parents[..k] == parents;
  }
}
