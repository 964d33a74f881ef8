/** The reflog as an undo log: the backward scan with a skip counter against a forward replay. */
module UndoLog {
  import opened Objects
  import opened Edits

  const UNDO_PREFIX := "undo: "

  /** One move of a ref. */
  datatype Entry = Entry(prev: Id, next: Id, message: string)

  predicate IsUndo(e: Entry) { UNDO_PREFIX <= e.message }

  datatype Target = Reverses(entry: Entry) | FirstCommit | NoHistory

  /** The log replayed forward: every move is pushed, every undo takes one off. */
  function Replay(log: seq<Entry>): seq<Entry> {
    if log == [] then []
    else
      var stack, e := Replay(log[..|log| - 1]), log[|log| - 1];
      if !IsUndo(e) then stack + [e]
      else if stack == [] then []
      else stack[..|stack| - 1]
  }

  datatype Option<T> = None | Some(value: T)

  /** The log scanned backward with skip moves still to be passed over. */
  function ScanBack(log: seq<Entry>, skip: nat): Option<Entry> {
    if log == [] then None
    else
      var front, e := log[..|log| - 1], log[|log| - 1];
      if IsUndo(e) then ScanBack(front, skip + 1)
      else if skip > 0 then ScanBack(front, skip - 1)
      else Some(e)
  }

  /** Skipping s moves backward finds the entry s below the top of the replayed stack. */
  lemma {:induction false} ScanIsReplay(log: seq<Entry>, s: nat)
    ensures var stack := Replay(log);
            ScanBack(log, s) == if s < |stack| then Some(stack[|stack| - 1 - s]) else None
    decreases |log|
  {
    if log != [] {
      var front, e := log[..|log| - 1], log[|log| - 1];
      if IsUndo(e) {
        ScanIsReplay(front, s + 1);
      } else if s > 0 {
        ScanIsReplay(front, s - 1);
      }
    }
  }

  /** What the next undo reverses, by the replayed stack. */
  function TargetOf(log: seq<Entry>): Target {
    var stack := Replay(log);
    if log == [] then NoHistory
    else if stack == [] || stack[|stack| - 1].prev == ZERO then FirstCommit
    else Reverses(stack[|stack| - 1])
  }

  /** The backward scan of the newest-first log gives the top of the forward replay. */
  method UndoTarget(log: seq<Entry>) returns (t: Target)
    ensures t == TargetOf(log)
  {
    ScanIsReplay(log, 0);
    var entries := ReverseInPlace(log);
    ReversedAt(log);
    var skip: nat := 0;
    var i := 0;
    assert log[..|log|] == log;
    while i < |entries|
      invariant 0 <= i <= |entries| == |log|
      invariant ScanBack(log, 0) == ScanBack(log[..|log| - i], skip)
    {
      var e := entries[i];
      ghost var rest := log[..|log| - i];
      assert rest[|rest| - 1] == e && rest[..|rest| - 1] == log[..|log| - (i + 1)];
      i := i + 1;
      if UNDO_PREFIX <= e.message {
        skip := skip + 1;
      } else if skip > 0 {
        skip := skip - 1;
      } else {
        return if e.prev == ZERO then FirstCommit else Reverses(e);
      }
    }
    return if |entries| > 0 then FirstCommit else NoHistory;
  }

  // ----- the stack and the position it leads to -----

  /** Each move on the stack starts where the one below it ended, the lowest at the origin. */
  ghost predicate Linked(stack: seq<Entry>, origin: Id) {
    forall i | 0 <= i < |stack| :: stack[i].prev == Tip(stack[..i], origin)
  }

  /** Where the moves on the stack lead from the origin. */
  function Tip(stack: seq<Entry>, origin: Id): Id {
    if stack == [] then origin else stack[|stack| - 1].next
  }

  lemma PushLinked(stack: seq<Entry>, e: Entry, origin: Id)
    requires Linked(stack, origin) && e.prev == Tip(stack, origin)
    ensures Linked(stack + [e], origin) && Tip(stack + [e], origin) == e.next
  {
    var all := stack + [e];
    forall i | 0 <= i < |all| ensures all[i].prev == Tip(all[..i], origin) {
      assert all[..i] == stack[..i];
      assert stack[..|stack|] == stack;
    }
  }

  lemma PopLinked(stack: seq<Entry>, origin: Id)
    requires Linked(stack, origin) && stack != []
    ensures var front := stack[..|stack| - 1];
            Linked(front, origin) && Tip(front, origin) == stack[|stack| - 1].prev
  {
    var front := stack[..|stack| - 1];
    forall i | 0 <= i < |front| ensures front[i].prev == Tip(front[..i], origin) {
      assert front[..i] == stack[..i];
    }
  }

  lemma {:induction false} ReplayIsLogged(log: seq<Entry>, i: nat)
    requires i < |Replay(log)|
    ensures Replay(log)[i] in log
    decreases |log|
  {
    var front := log[..|log| - 1];
    if i < |Replay(front)| {
      ReplayIsLogged(front, i);
    }
  }
}
