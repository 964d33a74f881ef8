/** The peer side of push and fetch: a repository that lists refs, sends packs and applies updates. */
module Transport {
  import opened Objects
  import opened Reachability
  import opened CommitGraph
  import opened Discovery
  import opened Transfer

  datatype RefName = Head(branch: string) | Remote(remote: string, branch: string)

  type Refs = map<RefName, Id>

  datatype RefUpdate = RefUpdate(name: RefName, prev: Id, next: Id, force: bool)

  /** The current value of a ref; ZERO when it does not exist. */
  function Resolve(refs: Refs, name: RefName): Id {
    if name in refs then refs[name] else ZERO
  }

  /** Whether the new commit is seen to be a fast-forward: the merge base is the current one. */
  ghost predicate FastForwards(store: Store, current: Id, next: Id) {
    BaseIs(store, current, next, current)
  }

  /**
   What one update does. It is accepted exactly if the ref still has the value the caller saw, the
   new commit is in the store, and the move is seen as a fast-forward, creates the ref or is forced;
   so one that is accepted unforced never leaves an ancestor behind.
   */
  ghost predicate Applied(store: Store, refs: Refs, u: RefUpdate, refs': Refs, ok: bool) {
    var current := Resolve(refs, u.name);
    && (ok <==> current == u.prev && u.next in store && (current == ZERO ==> u.name !in refs)
                && (u.force || current == ZERO || FastForwards(store, current, u.next)))
    && refs' == (if ok then refs[u.name := u.next] else refs)
    && (ok ==> u.force || current == ZERO || Ancestor(store, current, u.next))
  }

  class Local {
    var store: Store
    var refs: Refs

    constructor (store: Store, refs: Refs)
      ensures this.store == store && this.refs == refs
    {
      this.store := store;
      this.refs := refs;
    }

    /** Compare-and-swap with a fast-forward check; runs under the refs lock. */
    method ApplyUpdate(u: RefUpdate) returns (ok: bool)
      modifies this`refs
      ensures Applied(store, old(refs), u, refs, ok)
    {
      var current := Resolve(refs, u.name);
      if current != u.prev {
        return false;
      }
      if u.next !in store {
        return false;
      }
      if !u.force && current != ZERO {
        var base := MergeBase(store, current, u.next);
        if base != Found(current) {
          return false;
        }
        BaseIsOldIsFastForward(store, current, u.next);
      }
      if current == ZERO {
        if u.name in refs {
          return false;
        }
      }
      refs := refs[u.name := u.next];
      return true;
    }

    /** Takes in the pack, then applies the updates one after the other under the lock. */
    method ReceivePack(pack: Store, updates: seq<RefUpdate>) returns (results: seq<bool>)
      modifies this
      ensures store == Ingest(old(store), pack) && |results| == |updates|
      ensures exists steps: seq<Refs> ::
        |steps| == |updates| + 1 && steps[0] == old(refs) && steps[|updates|] == refs &&
                forall i | 0 <= i < |updates| :: Applied(store, steps[i], updates[i], steps[i + 1], results[i])
    {
      store := Ingest(store, pack);
      results := [];
      ghost var steps := [refs];
      var i := 0;
      while i < |updates|
        invariant 0 <= i <= |updates| && |results| == i && |steps| == i + 1
        invariant store == Ingest(old(store), pack) && steps[0] == old(refs) && steps[i] == refs
        invariant forall k | 0 <= k < i :: Applied(store, steps[k], updates[k], steps[k + 1], results[k])
      {
        var ok := ApplyUpdate(updates[i]);
        results := results + [ok];
        steps := steps + [refs];
        i := i + 1;
      }
    }

    /** The objects a fetch receives; nothing when they could not be listed or read. */
    method FetchPack(wants: seq<Id>, haves: seq<Id>) returns (ok: bool, pack: Store, ghost known: set<Id>)
      ensures ok ==> pack.Keys <= store.Keys && pack == Pick(store, pack.Keys)
      ensures ok && WellTyped(store) ==> Covers(store, wants, haves, pack.Keys, known)
      ensures ok && WellTyped(store) && HavesHeld(store, haves)
        ==> forall x :: x in pack <==> ToSend(store, wants, haves, x)
      ensures !ok && WellTyped(store) ==> Broken(store, wants)
    {
      var r;
      r, known := Enumerate(store, wants, haves);
      if r.EnumerationFailed? {
        return false, map[], known;
      }
      if !(r.ids <= store.Keys) {
        assert exists x :: x in r.ids && x !in store;
        return false, map[], known;
      }
      pack := Pick(store, r.ids);
      assert pack.Keys == r.ids;
      return true, pack, known;
    }
  }
}
