/** What undo guarantees over runs of commit, merge, branch, switch, undo and garbage collection. */
module UndoRuns {
  import opened Objects
  import opened Reachability
  import opened Transfer
  import opened UndoLog
  import opened Undo

  /** Replayed from the origin, the log is a chain that leads to id. */
  ghost predicate Stands(log: seq<Entry>, origin: Id, id: Id) {
    Linked(Replay(log), origin) && id == Tip(Replay(log), origin)
  }

  /**
   The branch stands where its log leads; origins says where it stood before its first recorded
   move. The quantifier keeps the solver from replaying logs where a proof does not name Stands.
   */
  ghost predicate BranchOk(s: State, origins: map<string, Id>, b: string)
    requires b in s.refs && b in origins
  {
    forall log | log == LogOf(s, b) :: Stands(log, origins[b], s.refs[b])
  }

  lemma PushStands(log: seq<Entry>, e: Entry, origin: Id)
    requires Stands(log, origin, e.prev) && !IsUndo(e)
    ensures Stands(log + [e], origin, e.next)
  {
    assert (log + [e])[..|log|] == log;
    PushLinked(Replay(log), e, origin);
  }

  ghost predicate EndsWith(stack: seq<Entry>, top: Entry) {
    stack != [] && stack[|stack| - 1] == top
  }

  /** The replayed log has top on its stack last. */
  ghost predicate TopIs(log: seq<Entry>, top: Entry) {
    forall stack | stack == Replay(log) :: EndsWith(stack, top)
  }

  lemma PopStands(log: seq<Entry>, top: Entry, e: Entry, origin: Id)
    requires Stands(log, origin, e.prev) && IsUndo(e) && TopIs(log, top) && e.next == top.prev
    ensures Stands(log + [e], origin, e.next)
  {
    assert EndsWith(Replay(log), top);
    assert (log + [e])[..|log|] == log;
    PopLinked(Replay(log), origin);
  }

  /** A move in a branch log is in HEAD's log too, and is no switch; only the creation of a branch is not. */
  ghost predicate EntryOk(s: State, e: Entry) {
    && (e.prev != ZERO ==> e in s.headLog)
    && (IsUndo(e) || !(SWITCH_PREFIX <= e.message))
  }

  ghost predicate BranchesOk(s: State, origins: map<string, Id>) {
    origins.Keys == s.refs.Keys && forall b | b in s.refs :: BranchOk(s, origins, b)
  }

  ghost predicate LogsOk(s: State) {
    && s.logs.Keys <= s.refs.Keys
    && forall b, e | b in s.logs && e in s.logs[b] :: EntryOk(s, e)
  }

  /** Every branch and every ID in HEAD's log is a commit the store has complete. */
  ghost predicate StoreOk(s: State) {
    && WellTyped(s.store) && ZERO !in s.store
    && (forall b | b in s.refs :: Holds(s.store, s.refs[b]))
    && forall id | id in LogIds(s.headLog) && id != ZERO :: Holds(s.store, id)
  }

  ghost predicate Inv(s: State, origins: map<string, Id>) {
    BranchesOk(s, origins) && LogsOk(s) && StoreOk(s)
  }

  // ----- steps -----

  datatype Action =
    | DoCommit(store: Store, id: Id, message: string)
    | DoBranch(name: string)
    | DoSwitch(name: string)
    | DoUndoStep
    | DoCollect(store: Store)

  ghost predicate Step(s: State, a: Action, s': State) {
    match a
    case DoCommit(store, id, message) =>
      // objects are added, none is lost, and the new commit is complete
      && MoveMessage(message) && WellTyped(store) && ZERO !in store && Holds(store, id)
      && PartOf(s.store, store)
      && s' == CommitOn(s, store, id, message)
    case DoBranch(name) => s.branch in s.refs && name !in s.refs && s' == CreateBranch(s, name)
    case DoSwitch(name) => name in s.refs && name != s.branch && s.branch in s.refs && s' == Switch(s, name)
    case DoUndoStep => DoUndo(s).Undone? && s' == DoUndo(s).s
    case DoCollect(store) => Collected(s, s.(store := store)) && s' == s.(store := store)
  }

  /** A branch that appears starts where it first stands, or from nothing. */
  function Origins(s: State, a: Action, origins: map<string, Id>): map<string, Id> {
    match a
    case DoCommit(_, _, _) => if s.branch in s.refs then origins else origins[s.branch := ZERO]
    case DoBranch(name) => origins[name := ZERO]
    case _ => origins
  }

  /** What a root held before collection it holds afterwards. */
  lemma HoldsAfterCollect(s: State, s': State, id: Id)
    requires Collected(s, s') && Holds(s.store, id) && id in Roots(s)
    ensures Holds(s'.store, id)
  {
    ReachSelf(Objs(s.store), id);
    var keep := set x | x in s.store.Keys && Reach(Objs(s.store), id, x);
    forall x | x in keep ensures Objs(s'.store)(x) <= keep {
      forall y | y in Refs(s.store, x) ensures y in keep {
        ReachStep(Objs(s.store), id, x, y);
      }
    }
    forall x | Reach(Objs(s'.store), id, x) ensures x in s'.store {
      ClosedContainsReach(Objs(s'.store), keep, id, x);
    }
  }

  lemma CollectedIsTyped(s: State, s': State)
    requires Collected(s, s') && WellTyped(s.store)
    ensures WellTyped(s'.store)
  {
    forall id | id in s'.store ensures WellTypedObject(s'.store, s'.store[id]) {
      assert WellTypedObject(s.store, s.store[id]);
    }
  }

  lemma CollectKeepsStore(s: State, s': State)
    requires StoreOk(s) && Collected(s, s')
    ensures StoreOk(s')
  {
    CollectedIsTyped(s, s');
    forall b | b in s.refs ensures Holds(s'.store, s.refs[b]) {
      assert s.refs[b] in s.refs.Values;
      HoldsAfterCollect(s, s', s.refs[b]);
    }
    forall id | id in LogIds(s.headLog) && id != ZERO ensures Holds(s'.store, id) {
      HoldsAfterCollect(s, s', id);
    }
  }

  /** Two states that differ in their objects only. */
  ghost predicate SameButObjects(s: State, t: State) {
    t.refs == s.refs && t.logs == s.logs && t.headLog == s.headLog && t.branch == s.branch
  }

  lemma SameBranches(s: State, t: State, origins: map<string, Id>)
    requires SameButObjects(s, t) && BranchesOk(s, origins)
    ensures BranchesOk(t, origins)
  {
    forall b | b in t.refs ensures BranchOk(t, origins, b) {
      assert BranchOk(s, origins, b) && LogOf(t, b) == LogOf(s, b);
    }
  }

  lemma SameLogs(s: State, t: State)
    requires SameButObjects(s, t) && LogsOk(s)
    ensures LogsOk(t)
  {
    forall b, e | b in t.logs && e in t.logs[b] ensures EntryOk(t, e) {
      assert EntryOk(s, e);
    }
  }

  lemma CollectIsSame(s: State, s': State)
    requires Collected(s, s')
    ensures SameButObjects(s, s')
  {
  }

  lemma CollectKeeps(s: State, s': State, origins: map<string, Id>)
    requires Inv(s, origins) && Collected(s, s')
    ensures Inv(s', origins)
  {
    CollectKeepsStore(s, s');
    CollectIsSame(s, s');
    SameBranches(s, s', origins);
    SameLogs(s, s');
  }

  lemma LogIdsSnoc(log: seq<Entry>, e: Entry)
    ensures LogIds(log + [e]) == LogIds(log) + {e.prev, e.next}
  {
    var all := log + [e];
    assert all[|log|] == e;
    assert forall x :: x in all <==> x in log || x == e;
  }

  lemma MoveKeepsBranches(s: State, id: Id, message: string, origins: map<string, Id>)
    requires origins.Keys == s.refs.Keys + {s.branch}
    requires forall b | b in s.refs && b != s.branch :: BranchOk(s, origins, b)
    requires Stands(LogOf(s, s.branch) + [Entry(HeadOf(s), id, message)], origins[s.branch], id)
    ensures BranchesOk(Move(s, id, message), origins)
  {
    var s' := Move(s, id, message);
    forall b | b in s'.refs ensures BranchOk(s', origins, b) {
      if b != s.branch {
        assert BranchOk(s, origins, b) && LogOf(s', b) == LogOf(s, b);
      }
    }
  }

  lemma MoveKeepsLogs(s: State, id: Id, message: string)
    requires LogsOk(s) && (IsUndo(Entry(HeadOf(s), id, message)) || !(SWITCH_PREFIX <= message))
    ensures LogsOk(Move(s, id, message))
  {
    var e, s' := Entry(HeadOf(s), id, message), Move(s, id, message);
    assert s'.headLog[|s.headLog|] == e;
    forall b, x | b in s'.logs && x in s'.logs[b] ensures EntryOk(s', x) {
      if x != e {
        assert b in s.logs && x in s.logs[b];
        assert EntryOk(s, x);
      }
    }
  }

  lemma MoveKeepsStore(s: State, id: Id, message: string)
    requires StoreOk(s) && Holds(s.store, id)
    ensures StoreOk(Move(s, id, message))
  {
    LogIdsSnoc(s.headLog, Entry(HeadOf(s), id, message));
  }

  lemma NoMoveIsUndo(message: string)
    requires MoveMessage(message)
    ensures !(UNDO_PREFIX <= message) && !(SWITCH_PREFIX <= message)
  {
    assert message[0] == 'c' || message[0] == 'm';
  }

  /** More objects in the store change nothing else. */
  lemma MoreObjects(s: State, store: Store)
    requires StoreOk(s) && WellTyped(store) && ZERO !in store
    requires PartOf(s.store, store)
    ensures StoreOk(s.(store := store))
  {
    forall b | b in s.refs ensures Holds(store, s.refs[b]) {
      HoldsGrows(s.store, store, s.refs[b]);
    }
    forall x | x in LogIds(s.headLog) && x != ZERO ensures Holds(store, x) {
      HoldsGrows(s.store, store, x);
    }
  }

  /** A branch with no ref yet stands at no commit, with nothing recorded. */
  lemma HeadStands(s: State, origins: map<string, Id>, origin: Id)
    requires BranchesOk(s, origins) && LogsOk(s)
    requires origin == if s.branch in s.refs then origins[s.branch] else ZERO
    ensures Stands(LogOf(s, s.branch), origin, HeadOf(s))
  {
    if s.branch in s.refs {
      assert BranchOk(s, origins, s.branch);
    } else {
      assert LogOf(s, s.branch) == [];
    }
  }

  /** The branch committed to stands at the new commit, the others where they stood. */
  lemma CommitKeepsBranches(s: State, t: State, id: Id, message: string, origins: map<string, Id>,
                            origins': map<string, Id>)
    requires BranchesOk(s, origins) && LogsOk(s) && SameButObjects(s, t) && MoveMessage(message)
    requires origins' == if s.branch in s.refs then origins else origins[s.branch := ZERO]
    ensures BranchesOk(Move(t, id, message), origins')
  {
    var log, e := LogOf(s, s.branch), Entry(HeadOf(s), id, message);
    NoMoveIsUndo(message);
    HeadStands(s, origins, origins'[s.branch]);
    PushStands(log, e, origins'[s.branch]);
    forall b | b in t.refs && b != t.branch ensures BranchOk(t, origins', b) {
      assert BranchOk(s, origins, b) && LogOf(t, b) == LogOf(s, b);
    }
    assert LogOf(t, t.branch) == log && HeadOf(t) == HeadOf(s);
    MoveKeepsBranches(t, id, message, origins');
  }

  lemma CommitKeeps(s: State, a: Action, s': State, origins: map<string, Id>)
    requires Inv(s, origins) && a.DoCommit? && Step(s, a, s')
    ensures Inv(s', Origins(s, a, origins))
  {
    var t := s.(store := a.store);
    NoMoveIsUndo(a.message);
    CommitKeepsBranches(s, t, a.id, a.message, origins, Origins(s, a, origins));
    SameLogs(s, t);
    MoreObjects(s, a.store);
    MoveKeepsLogs(t, a.id, a.message);
    MoveKeepsStore(t, a.id, a.message);
  }

  lemma NewBranchStands(e: Entry)
    requires e.prev == ZERO && !IsUndo(e)
    ensures Stands([] + [e], ZERO, e.next)
  {
    PushStands([], e, ZERO);
  }

  lemma CreatedIsPlain(e: Entry)
    requires e.message == CREATED
    ensures !IsUndo(e) && !(SWITCH_PREFIX <= e.message)
  {
    assert e.message[0] == 'b';
  }

  lemma BranchKeepsBranches(s: State, name: string, e: Entry, s': State, origins: map<string, Id>)
    requires BranchesOk(s, origins) && name !in s.refs && Stands([] + [e], ZERO, e.next)
    requires s'.refs == s.refs[name := e.next] && s'.logs == s.logs[name := [] + [e]]
    ensures BranchesOk(s', origins[name := ZERO])
  {
    var origins' := origins[name := ZERO];
    forall b | b in s'.refs ensures BranchOk(s', origins', b) {
      if b != name {
        assert BranchOk(s, origins, b) && LogOf(s', b) == LogOf(s, b);
      }
    }
  }

  lemma BranchKeeps(s: State, name: string, s': State, origins: map<string, Id>)
    requires Inv(s, origins) && Step(s, DoBranch(name), s')
    ensures Inv(s', origins[name := ZERO])
  {
    var e := Entry(ZERO, HeadOf(s), CREATED);
    CreatedIsPlain(e);
    NewBranchStands(e);
    assert LogOf(s, name) == [];
    BranchKeepsBranches(s, name, e, s', origins);
    BranchKeepsLogs(s, name, e, s');
  }

  lemma BranchKeepsLogs(s: State, name: string, e: Entry, s': State)
    requires LogsOk(s) && name !in s.refs && e.prev == ZERO && !(SWITCH_PREFIX <= e.message)
    requires s'.logs == s.logs[name := [] + [e]] && s'.headLog == s.headLog && s'.refs.Keys == s.refs.Keys + {name}
    ensures LogsOk(s')
  {
    forall b, x | b in s'.logs && x in s'.logs[b] ensures EntryOk(s', x) {
      if b != name {
        assert EntryOk(s, x);
      }
    }
  }

  lemma SwitchKeeps(s: State, name: string, s': State, origins: map<string, Id>)
    requires Inv(s, origins) && Step(s, DoSwitch(name), s')
    ensures Inv(s', origins)
  {
    var e := Entry(HeadOf(s), s.refs[name], SWITCH_PREFIX + s.branch + " to " + name);
    LogIdsSnoc(s.headLog, e);
    forall b | b in s'.refs ensures BranchOk(s', origins, b) {
      assert BranchOk(s, origins, b) && LogOf(s', b) == LogOf(s, b);
    }
    forall b, x | b in s'.logs && x in s'.logs[b] ensures EntryOk(s', x) {
      assert EntryOk(s, x);
    }
  }

  /** The entry undo would reverse, and where it stands. */
  lemma TopOfLog(s: State, origins: map<string, Id>) returns (top: Entry)
    requires Inv(s, origins) && TargetOf(LogOf(s, s.branch)).Reverses?
    ensures TopIs(LogOf(s, s.branch), top)
    ensures TargetOf(LogOf(s, s.branch)) == Reverses(top)
    ensures s.branch in s.refs && s.branch in s.logs && HeadOf(s) == top.next && top.prev != ZERO
    ensures Stands(LogOf(s, s.branch), origins[s.branch], HeadOf(s))
    ensures Holds(s.store, top.prev) && !IsUndo(top) && !(SWITCH_PREFIX <= top.message)
  {
    var log := LogOf(s, s.branch);
    var stack := Replay(log);
    top := stack[|stack| - 1];
    HeadStands(s, origins, origins[s.branch]);
    ReplayIsLogged(log, |stack| - 1);
    TopIsNoUndo(log);
    assert EntryOk(s, top);
    assert top.prev in LogIds(s.headLog);
  }

  /** Undo reverses the top of the replayed stack: HEAD goes back to where that move started. */
  lemma UndoTakesTopOff(s: State, origins: map<string, Id>)
    requires Inv(s, origins) && DoUndo(s).Undone?
    ensures var stack := Replay(LogOf(s, s.branch));
            && stack != [] && s.branch in s.refs
            && HeadOf(s) == stack[|stack| - 1].next
            && HeadOf(DoUndo(s).s) == stack[|stack| - 1].prev
            && Replay(LogOf(DoUndo(s).s, s.branch)) == stack[..|stack| - 1]
  {
    var top := TopOfLog(s, origins);
    assert EndsWith(Replay(LogOf(s, s.branch)), top);
    UndoPops(LogOf(s, s.branch), Entry(HeadOf(s), top.prev, UNDO_PREFIX + top.message));
  }

  lemma UndoPops(log: seq<Entry>, e: Entry)
    requires IsUndo(e) && Replay(log) != []
    ensures Replay(log + [e]) == Replay(log)[..|Replay(log)| - 1]
  {
    assert (log + [e])[..|log|] == log;
  }

  lemma UndoKeeps(s: State, origins: map<string, Id>)
    requires Inv(s, origins) && DoUndo(s).Undone?
    ensures Inv(DoUndo(s).s, origins)
  {
    var top := TopOfLog(s, origins);
    UndoMoveKeeps(s, top, origins);
  }

  lemma UndoMoveKeeps(s: State, top: Entry, origins: map<string, Id>)
    requires Inv(s, origins) && s.branch in s.refs && TopIs(LogOf(s, s.branch), top) && Holds(s.store, top.prev)
    requires Stands(LogOf(s, s.branch), origins[s.branch], HeadOf(s))
    ensures Inv(Move(s, top.prev, UNDO_PREFIX + top.message), origins)
  {
    var message := UNDO_PREFIX + top.message;
    PopStands(LogOf(s, s.branch), top, Entry(HeadOf(s), top.prev, message), origins[s.branch]);
    MoveKeepsBranches(s, top.prev, message, origins);
    MoveKeepsLogs(s, top.prev, message);
    MoveKeepsStore(s, top.prev, message);
  }

  /** Every step keeps the invariant: each branch stands where its replayed log leads. */
  lemma StepKeepsInv(s: State, a: Action, s': State, origins: map<string, Id>)
    requires Inv(s, origins) && Step(s, a, s')
    ensures Inv(s', Origins(s, a, origins))
  {
    match a
    case DoCommit(_, _, _) => CommitKeeps(s, a, s', origins);
    case DoBranch(name) => BranchKeeps(s, name, s', origins);
    case DoSwitch(name) => SwitchKeeps(s, name, s', origins);
    case DoUndoStep => UndoKeeps(s, origins);
    case DoCollect(_) => CollectKeeps(s, s', origins);
  }

  ghost predicate Run(ss: seq<State>, acts: seq<Action>) {
    && |ss| == |acts| + 1
    && forall i | 0 <= i < |acts| :: Step(ss[i], acts[i], ss[i + 1])
  }

  /**
   Over every run in which each move is logged, the undo of the current branch is refused only
   for having nothing left: it never meets a HEAD it cannot account for, and when it is done HEAD
   is a complete commit again.
   */
  lemma {:induction false} UndoNeverLosesTrack(ss: seq<State>, acts: seq<Action>, origins: map<string, Id>, i: nat)
    returns (now: map<string, Id>)
    requires Run(ss, acts) && Inv(ss[0], origins) && i < |ss|
    ensures Inv(ss[i], now)
    ensures DoUndo(ss[i]) != MovedUnseen && DoUndo(ss[i]) != WasSwitch
    ensures DoUndo(ss[i]).Undone? ==> Holds(ss[i].store, HeadOf(DoUndo(ss[i]).s))
    decreases i
  {
    if i == 0 {
      now := origins;
    } else {
      var before := UndoNeverLosesTrack(ss, acts, origins, i - 1);
      assert Step(ss[i - 1], acts[i - 1], ss[i - 1 + 1]);
      StepKeepsInv(ss[i - 1], acts[i - 1], ss[i], before);
      now := Origins(ss[i - 1], acts[i - 1], before);
    }
    UndoAccountsForHead(ss[i], now);
  }

  lemma UndoAccountsForHead(s: State, origins: map<string, Id>)
    requires Inv(s, origins)
    ensures DoUndo(s) != MovedUnseen && DoUndo(s) != WasSwitch
    ensures DoUndo(s).Undone? ==> Holds(s.store, HeadOf(DoUndo(s).s))
  {
    if TargetOf(LogOf(s, s.branch)).Reverses? {
      var top := TopOfLog(s, origins);
    }
  }

  lemma {:induction false} TopIsNoUndo(log: seq<Entry>)
    ensures forall i | 0 <= i < |Replay(log)| :: !IsUndo(Replay(log)[i])
    decreases |log|
  {
    if log != [] {
      TopIsNoUndo(log[..|log| - 1]);
    }
  }

  // ----- going back several steps -----

  /** n moves forward on the current branch. */
  function Commits(s: State, ids: seq<Id>, messages: seq<string>): State
    requires |ids| == |messages|
  {
    if ids == [] then s
    else Move(Commits(s, ids[..|ids| - 1], messages[..|ids| - 1]), ids[|ids| - 1], messages[|ids| - 1])
  }

  function UndoMany(s: State, n: nat): Outcome
    decreases n
  {
    if n == 0 then Undone(s)
    else
      var o := DoUndo(s);
      if o.Undone? then UndoMany(o.s, n - 1) else o
  }

  /** Two states an undo cannot tell apart: same branch, same positions, same replayed log. */
  ghost predicate SameForUndo(s: State, t: State) {
    && s.branch == t.branch && s.refs == t.refs
    && Replay(LogOf(s, s.branch)) == Replay(LogOf(t, t.branch))
  }

  lemma UndoSame(s: State, t: State)
    requires SameForUndo(s, t) && DoUndo(s).Undone?
    ensures DoUndo(t).Undone? && SameForUndo(DoUndo(s).s, DoUndo(t).s)
  {
    var a, b := LogOf(s, s.branch), LogOf(t, t.branch);
    var stack := Replay(a);
    var e := Entry(HeadOf(s), stack[|stack| - 1].prev, UNDO_PREFIX + stack[|stack| - 1].message);
    assert (a + [e])[..|a|] == a && (b + [e])[..|b|] == b;
  }

  lemma {:induction false} UndoManySame(s: State, t: State, n: nat)
    requires SameForUndo(s, t) && UndoMany(s, n).Undone?
    ensures UndoMany(t, n).Undone? && SameForUndo(UndoMany(s, n).s, UndoMany(t, n).s)
    decreases n
  {
    if n > 0 {
      UndoSame(s, t);
      UndoManySame(DoUndo(s).s, DoUndo(t).s, n - 1);
    }
  }

  /** A move and the undo entry after it leave the replayed log as it was. */
  lemma PushPop(log: seq<Entry>, e: Entry, back: Entry)
    requires !IsUndo(e) && IsUndo(back)
    ensures Replay(log + [e]) == Replay(log) + [e] && Replay(log + [e] + [back]) == Replay(log)
  {
    assert (log + [e])[..|log|] == log;
    UndoPops(log + [e], back);
    assert (Replay(log) + [e])[..|Replay(log)|] == Replay(log);
  }

  /** After a move, the entry it logged is the one undo would reverse. */
  lemma MoveIsTarget(log: seq<Entry>, e: Entry)
    requires !IsUndo(e) && e.prev != ZERO
    ensures TargetOf(log + [e]) == Reverses(e)
  {
    assert (log + [e])[..|log|] == log;
    assert Replay(log + [e]) == Replay(log) + [e];
  }

  lemma UndoIsMove(t: State, e: Entry)
    requires TargetOf(LogOf(t, t.branch)) == Reverses(e) && HeadOf(t) == e.next && !(SWITCH_PREFIX <= e.message)
    ensures DoUndo(t) == Undone(Move(t, e.prev, UNDO_PREFIX + e.message))
  {
  }

  /** One undo takes back the move just made. */
  lemma MoveThenUndo(s: State, id: Id, message: string)
    requires MoveMessage(message) && s.branch in s.refs && HeadOf(s) != ZERO
    ensures var o := DoUndo(Move(s, id, message)); o.Undone? && SameForUndo(s, o.s)
  {
    NoMoveIsUndo(message);
    var log, e, t := LogOf(s, s.branch), Entry(HeadOf(s), id, message), Move(s, id, message);
    var back := Entry(id, HeadOf(s), UNDO_PREFIX + message);
    assert LogOf(t, t.branch) == log + [e] && HeadOf(t) == id;
    MoveIsTarget(log, e);
    UndoIsMove(t, e);
    PushPop(log, e, back);
    assert t.refs[t.branch := HeadOf(s)] == s.refs;
  }

  /** n undos take back n moves, whatever was undone before: consecutive undos step further back. */
  lemma {:induction false} UndosTakeBackCommits(s: State, ids: seq<Id>, messages: seq<string>)
    requires |ids| == |messages| && s.branch in s.refs && HeadOf(s) != ZERO
    requires forall i | 0 <= i < |ids| :: ids[i] != ZERO && MoveMessage(messages[i])
    ensures var o := UndoMany(Commits(s, ids, messages), |ids|);
            o.Undone? && SameForUndo(s, o.s) && HeadOf(o.s) == HeadOf(s)
    decreases |ids|
  {
    if ids != [] {
      var n := |ids| - 1;
      var before := Commits(s, ids[..n], messages[..n]);
      CommitsStay(s, ids[..n], messages[..n]);
      UndosTakeBackCommits(s, ids[..n], messages[..n]);
      MoveThenUndo(before, ids[n], messages[n]);
      var after := DoUndo(Commits(s, ids, messages)).s;
      UndoManySame(before, after, n);
    }
  }

  lemma {:induction false} CommitsStay(s: State, ids: seq<Id>, messages: seq<string>)
    requires |ids| == |messages| && s.branch in s.refs && HeadOf(s) != ZERO && forall i | 0 <= i < |ids| ::
      ids[i] != ZERO
    ensures var t := Commits(s, ids, messages); t.branch == s.branch && t.branch in t.refs && HeadOf(t) != ZERO
    decreases |ids|
  {
    if ids != [] {
      CommitsStay(s, ids[..|ids| - 1], messages[..|ids| - 1]);
    }
  }
}
