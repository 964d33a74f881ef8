/** Undo as a step of the repository, next to the steps that log moves, and garbage collection. */
module Undo {
  import opened Objects
  import opened Reachability
  import opened Transfer
  import opened UndoLog

  /** HEAD is on a branch; every branch has its own log, and HEAD has one of its own. */
  datatype State = State(store: Store, branch: string, refs: map<string, Id>, logs: map<string, seq<Entry>>,
      headLog: seq<Entry>)

  /** Where HEAD is; ZERO before the first commit. */
  function HeadOf(s: State): Id {
    if s.branch in s.refs then s.refs[s.branch] else ZERO
  }

  function LogOf(s: State, branch: string): seq<Entry> {
    if branch in s.logs then s.logs[branch] else []
  }

  /** A move of the current branch, recorded in its log and in HEAD's. */
  function Move(s: State, id: Id, message: string): State {
    var e := Entry(HeadOf(s), id, message);
    s.(refs := s.refs[s.branch := id], logs := s.logs[s.branch := LogOf(s, s.branch) + [e]], headLog := s.headLog + [e])
  }

  /** The commands that move a branch forward log under these names. */
  predicate MoveMessage(message: string) {
    "commit: " <= message || "merge " <= message
  }

  const SWITCH_PREFIX := "switch: moving from "

  function CommitOn(s: State, store: Store, id: Id, message: string): State {
    Move(s.(store := store), id, message)
  }

  const CREATED := "branch: Created from HEAD"

  function CreateBranch(s: State, name: string): State {
    s.(refs := s.refs[name := HeadOf(s)], logs := s.logs[name := LogOf(s, name) + [Entry(ZERO, HeadOf(s), CREATED)]])
  }

  function Switch(s: State, name: string): State
    requires name in s.refs
  {
    s.(branch := name,
        headLog := s.headLog + [Entry(HeadOf(s), s.refs[name], SWITCH_PREFIX + s.branch + " to " + name)])
  }

  datatype Outcome = Undone(s: State) | NothingEarlier | NothingRecorded | MovedUnseen | WasSwitch

  /** Reverses the move the log of the current branch says comes next. */
  function DoUndo(s: State): Outcome {
    match TargetOf(LogOf(s, s.branch))
    case NoHistory => NothingRecorded
    case FirstCommit => NothingEarlier
    case Reverses(e) =>
      if HeadOf(s) != e.next then MovedUnseen
      else if SWITCH_PREFIX <= e.message then WasSwitch
      else Undone(Move(s, e.prev, UNDO_PREFIX + e.message))
  }

  /** The IDs garbage collection starts from: refs, HEAD and HEAD's log, as far as they are readable commits. */
  function Roots(s: State): set<Id> {
    set id | id in s.refs.Values + {HeadOf(s)} + LogIds(s.headLog) && id != ZERO && IsCommit(s.store, id)
  }

  function LogIds(log: seq<Entry>): set<Id> {
    (set e | e in log :: e.prev) + (set e | e in log :: e.next)
  }

  class Repository {
    var store: Store
    var branch: string
    var refs: map<string, Id>
    var logs: map<string, seq<Entry>>
    var headLog: seq<Entry>

    ghost function View(): State
      reads this
    {
      State(store, branch, refs, logs, headLog)
    }

    constructor (s: State)
      ensures View() == s
    {
      store, branch, refs, logs, headLog := s.store, s.branch, s.refs, s.logs, s.headLog;
    }

    /** The reflog layer of undo: resets the branch to the commit before the last change and logs that. */
    method UndoReflog() returns (done: bool)
      modifies this
      ensures var o := DoUndo(old(View())); done == o.Undone? && View() == if done then o.s else old(View())
    {
      var log := if branch in logs then logs[branch] else [];
      var target := UndoTarget(log);
      if !target.Reverses? {
        return false;
      }
      var headId := if branch in refs then refs[branch] else ZERO;
      if headId != target.entry.next {
        return false;
      }
      if SWITCH_PREFIX <= target.entry.message {
        return false;
      }
      var prevId := target.entry.prev;
      refs := refs[branch := prevId];
      var e := Entry(headId, prevId, UNDO_PREFIX + target.entry.message);
      logs := logs[branch := log + [e]];
      headLog := headLog + [e];
      return true;
    }

    /**
     Removes every object no root leads to; apply = false only counts. Nothing happens when the
     roots cannot be walked.
     */
    method Collect(apply: bool) returns (ok: bool, removed: nat)
      modifies this`store
      ensures !ok || !apply ==> store == old(store)
      ensures ok && apply && WellTyped(old(store)) ==> CollectedAs(old(View()), View())
      ensures ok && WellTyped(old(store)) ==> IsUnreachedCount(old(View()), removed)
      ensures ok ==> removed <= |old(store)|
      ensures ok && apply ==> removed == |old(store)| - |store|
      ensures CollectableAs(old(View())) ==> ok
    {
      ghost var s := View();
      var walked, reachable := Reachable();
      if !walked {
        return false, 0;
      }
      var kept := map id | id in store && id in reachable :: store[id];
      KeptSize(store, kept);
      removed := |store| - |kept|;
      if WellTyped(store) { KeepsReached(s, reachable, kept); }
      if apply {
        store := kept;
        assert View() == s.(store := kept);
      }
      return true, removed;
    }

    /** All that some root leads to, or the failure to walk there. */
    method Reachable() returns (ok: bool, reachable: set<Id>)
      ensures ok && WellTyped(store) ==> FromRootsAs(View(), reachable)
      ensures CollectableAs(View()) ==> ok
    {
      var roots := GatherRoots();
      ok, reachable := ReachableFrom(store, roots);
      RootsAreWalkable(View(), roots, ok);
      if ok && WellTyped(store) { ReachedFromRoots(View(), roots, reachable); }
    }

    method GatherRoots() returns (roots: seq<Id>)
      ensures Elems(roots) == Roots(View())
      ensures forall id :: id in roots <==>
        && id != ZERO && id in store && store[id].Commit?
        && ((exists name :: name in refs && refs[name] == id) || exists e :: e in headLog && id in {e.prev, e.next})
    {
      var ids := Roots'();
      roots := [];
      var todo := ids;
      assert Elems(roots) == {};
      while todo != {}
        invariant todo <= ids && Elems(roots) == ids - todo
        decreases todo
      {
        var id :| id in todo;
        assert Elems(roots + [id]) == Elems(roots) + {id} by { assert (roots + [id])[|roots|] == id; }
        roots := roots + [id];
        todo := todo - {id};
      }
      assert forall id :: id in roots <==> id in Elems(roots);
    }

    function Roots'(): set<Id>
      reads this
    {
      Roots(State(store, branch, refs, logs, headLog))
    }
  }

  /** All that the roots lead to is there. */
  ghost predicate Collectable(s: State) {
    WellTyped(s.store) && forall r | r in Roots(s) :: Complete(s.store, r)
  }

  ghost predicate CollectableAs(s: State) {
    forall x | x == s :: Collectable(x)
  }

  lemma RootsAreWalkable(s: State, roots: seq<Id>, walked: bool)
    requires Elems(roots) == Roots(s) && (!walked && WellTyped(s.store) ==> Broken(s.store, roots))
    ensures CollectableAs(s) ==> walked
  {
    if CollectableAs(s) {
      assert Collectable(s);
      assert forall r | r in roots :: r in Elems(roots);
      CompleteSenderSucceeds(s.store, roots, {});
    }
  }

  lemma KeptSize(store: Store, kept: Store)
    requires kept.Keys <= store.Keys
    ensures |kept| <= |store| && |store.Keys - kept.Keys| == |store| - |kept|
  {
    assert store.Keys == kept.Keys + (store.Keys - kept.Keys);
    assert |store.Keys| == |kept.Keys| + |store.Keys - kept.Keys|;
    assert |store.Keys| == |store| && |kept.Keys| == |kept|;
  }

  ghost predicate AreReached(store: Store, roots: seq<Id>, ids: set<Id>) {
    forall rs | rs == roots :: AreBelow(store, rs, ids)
  }

  ghost predicate AreBelow(store: Store, roots: seq<Id>, ids: set<Id>) {
    forall x :: x in ids <==> FromAny(store, roots, x)
  }

  /** Everything the roots lead to, or the failure to walk there. */
  method ReachableFrom(store: Store, roots: seq<Id>) returns (ok: bool, reachable: set<Id>)
    ensures ok && WellTyped(store) ==> AreReached(store, roots, reachable)
    ensures !ok && WellTyped(store) ==> Broken(store, roots)
  {
    if roots == [] {
      assert AreBelow(store, [], {});
      return true, {};
    }
    var r, known := Enumerate(store, roots, []);
    if r.EnumerationFailed? {
      return false, {};
    }
    if WellTyped(store) {
      forall x ensures x in r.ids <==> FromAny(store, roots, x) {
        NoHavesIsClosure(store, roots, r.ids, x);
      }
      assert AreBelow(store, roots, r.ids);
    }
    return true, r.ids;
  }

  ghost predicate FromRoots(s: State, ids: set<Id>) {
    forall x :: x in ids <==> exists r :: r in Roots(s) && Reach(Objs(s.store), r, x)
  }

  ghost predicate FromRootsAs(s: State, ids: set<Id>) {
    forall x | x == s :: FromRoots(x, ids)
  }

  lemma ReachedFromRoots(s: State, roots: seq<Id>, reachable: set<Id>)
    requires Elems(roots) == Roots(s) && AreReached(s.store, roots, reachable)
    ensures FromRootsAs(s, reachable)
  {
    assert AreBelow(s.store, roots, reachable);
    forall x ensures x in reachable <==> exists r :: r in Roots(s) && Reach(Objs(s.store), r, x) {
      RootsAsListed(s, roots, x);
    }
    assert FromRoots(s, reachable);
  }

  /** What is kept is what some root leads to, and all else is counted. */
  lemma KeepsReached(s: State, reachable: set<Id>, kept: Store)
    requires FromRootsAs(s, reachable) && kept == map id | id in s.store && id in reachable :: s.store[id]
    ensures CollectedAs(s, s.(store := kept)) && |kept| <= |s.store| && IsUnreachedCount(s, |s.store| - |kept|)
  {
    assert FromRoots(s, reachable);
    assert Collected(s, s.(store := kept));
    KeptSize(s.store, kept);
    CountIsExact(s, kept, s.store.Keys - kept.Keys);
  }

  lemma RootsAsListed(s: State, roots: seq<Id>, x: Id)
    requires Elems(roots) == Roots(s)
    ensures FromAny(s.store, roots, x) <==> exists r :: r in Roots(s) && Reach(Objs(s.store), r, x)
  {
    assert forall r :: r in roots <==> r in Elems(roots);
  }

  lemma CountIsExact(s: State, kept: Store, rest: set<Id>)
    requires CollectedAs(s, s.(store := kept)) && rest == s.store.Keys - kept.Keys
    ensures IsUnreachedCount(s, |rest|)
  {
    assert Collected(s, s.(store := kept));
    assert Unreached(s) == rest;
  }

  /** The objects no root leads to. */
  ghost function Unreached(s: State): set<Id> {
    set id | id in s.store.Keys && !exists r :: r in Roots(s) && Reach(Objs(s.store), r, id)
  }

  ghost predicate IsUnreachedCount(s: State, n: nat) {
    forall u | u == Unreached(s) :: n == |u|
  }

  ghost predicate CollectedAs(s: State, s': State) {
    forall x | x == s' :: Collected(s, x)
  }

  /** After collection exactly the objects some root leads to are left, unchanged. */
  ghost predicate Collected(s: State, s': State) {
    && s' == s.(store := s'.store)
    && (forall id :: id in s'.store <==> id in s.store && exists r :: r in Roots(s) && Reach(Objs(s.store), r, id))
    && forall id | id in s'.store :: s'.store[id] == s.store[id]
  }
}
