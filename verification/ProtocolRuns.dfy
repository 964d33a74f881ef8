/** What holds over whole runs of the protocol. */
module ProtocolRuns {
  import opened Objects
  import opened Reachability
  import opened CommitGraph
  import opened Discovery
  import opened Transfer
  import opened Transport
  import opened Protocol

  /** A run: any interleaving of steps from a sound world with an empty log. */
  ghost predicate Run(u: Store, ws: seq<World>, acts: seq<Action>) {
    && |ws| == |acts| + 1
    && Inv(u, ws[0]) && ws[0].log == []
    && forall i | 0 <= i < |acts| :: Step(u, ws[i], acts[i], ws[i + 1])
  }

  /** In every world of every run, every ref names a commit whose whole closure is in its store. */
  lemma {:induction false} RefsAlwaysComplete(u: Store, ws: seq<World>, acts: seq<Action>, i: nat)
    requires Run(u, ws, acts) && i < |ws|
    ensures Inv(u, ws[i]) && |ws[i].repos| == |ws[0].repos|
    ensures forall k, name | 0 <= k < |ws[i].repos| && name in ws[i].repos[k].refs ::
              Holds(ws[i].repos[k].store, ws[i].repos[k].refs[name])
    decreases i
  {
    if i > 0 {
      RefsAlwaysComplete(u, ws, acts, i - 1);
      assert Step(u, ws[i - 1], acts[i - 1], ws[i - 1 + 1]);
      StepKeepsInv(u, ws[i - 1], acts[i - 1], ws[i]);
    }
    forall k, name | 0 <= k < |ws[i].repos| && name in ws[i].repos[k].refs
      ensures Holds(ws[i].repos[k].store, ws[i].repos[k].refs[name])
    {
      assert RepoOk(u, ws[i].repos[k]);
    }
  }

  // ----- the log of one ref -----

  /** The writes of one ref, oldest first. */
  ghost function Writes(log: seq<Event>, k: nat, name: RefName): seq<Event> {
    if log == [] then []
    else
      var e := log[|log| - 1];
      Writes(log[..|log| - 1], k, name) + (if e.repo == k && e.name == name then [e] else [])
  }

  /** The value a ref has after its writes. */
  function EndOf(es: seq<Event>, start: Id): Id {
    if es == [] then start else es[|es| - 1].next
  }

  /** Each write starts from the value the write before it left. */
  ghost predicate Chained(es: seq<Event>, start: Id) {
    forall i | 0 <= i < |es| :: es[i].prev == EndOf(es[..i], start)
  }

  lemma ChainSnoc(es: seq<Event>, e: Event, start: Id)
    requires Chained(es, start) && e.prev == EndOf(es, start)
    ensures Chained(es + [e], start) && EndOf(es + [e], start) == e.next
  {
    var all := es + [e];
    forall i | 0 <= i < |all| ensures all[i].prev == EndOf(all[..i], start) {
      assert all[..i] == es[..i];
      if i == |es| {
        assert es[..i] == es;
      }
    }
  }

  /** The log agrees with the refs, and every unforced update from outside was a fast-forward. */
  ghost predicate LogOk(w: World, start: seq<Repo>) {
    && |w.repos| == |start|
    && (forall k, name | 0 <= k < |start| :: RefLogged(w, start, k, name))
    && forall i | 0 <= i < |w.log| :: EventOk(w, w.log[i])
  }

  ghost predicate RefLogged(w: World, start: seq<Repo>, k: nat, name: RefName)
    requires k < |start| == |w.repos|
  {
    var es, from := Writes(w.log, k, name), Resolve(start[k].refs, name);
    Chained(es, from) && EndOf(es, from) == Resolve(w.repos[k].refs, name)
  }

  ghost predicate EventOk(w: World, e: Event) {
    && e.repo < |w.repos| && Holds(w.repos[e.repo].store, e.next)
    && (e.pushed && !e.force && e.prev != ZERO ==> Ancestor(w.repos[e.repo].store, e.prev, e.next))
  }

  /** What a step does to the log: nothing, or one write that starts from the current value. */
  ghost predicate Logged(w: World, w': World) {
    || Quiet(w, w')
    || exists e :: Writes1(w, e, w')
  }

  ghost predicate Writes1(w: World, e: Event, w': World) {
    && e.repo < |w.repos| == |w'.repos| && w'.log == w.log + [e]
    && e.prev == Resolve(w.repos[e.repo].refs, e.name)
    && w'.repos[e.repo].refs == w.repos[e.repo].refs[e.name := e.next]
    && (forall k | 0 <= k < |w.repos| && k != e.repo :: w'.repos[k].refs == w.repos[k].refs)
    && EventOk(w', e)
  }

  /** The refs of every repository stand where they stood. */
  ghost predicate Quiet(w: World, w': World) {
    w'.log == w.log && |w.repos| == |w'.repos| && forall k | 0 <= k < |w.repos| :: w'.repos[k].refs == w.repos[k].refs
  }

  /** One repository's record of a write, in a world that is otherwise the same. */
  lemma RecordIsLogged(u: Store, w: World, k: nat, r: Repo, e: Event, w': World)
    requires k < |w.repos| && e.repo == k && w'.repos == w.repos[k := r] && w'.log == w.log + [e]
    requires e.prev == Resolve(w.repos[k].refs, e.name) && r.refs == w.repos[k].refs[e.name := e.next]
    requires RepoOk(u, r) && (e.pushed && !e.force && e.prev != ZERO ==> Ancestor(r.store, e.prev, e.next))
    ensures Logged(w, w')
  {
    assert r.refs[e.name] == e.next;
    assert w'.repos[k] == r;
    assert Writes1(w, e, w');
  }

  lemma StepIsLogged(u: Store, w: World, a: Action, w': World)
    requires Inv(u, w) && Step(u, w, a, w')
    ensures Logged(w, w') && |w.repos| == |w'.repos|
  {
    StepKeepsInv(u, w, a, w');
    if a.DoWrite? || a.DoPushTrack? || a.DoFetchTrack? || (a.DoPushUpdate? && a.ok) {
      var e := LastEvent(u, w, a, w');
      RecordIsLogged(u, w, e.repo, w'.repos[e.repo], e, w');
    } else {
      NoEvent(u, w, a, w');
    }
  }

  lemma NoEvent(u: Store, w: World, a: Action, w': World)
    requires Step(u, w, a, w') && !a.DoWrite? && !a.DoPushTrack? && !a.DoFetchTrack? && (a.DoPushUpdate? ==> !a.ok)
    ensures Quiet(w, w')
  {
  }

  /** The write a step records, and the repository after it. */
  lemma LastEvent(u: Store, w: World, a: Action, w': World) returns (e: Event)
    requires Step(u, w, a, w') && Inv(u, w')
    requires a.DoWrite? || a.DoPushTrack? || a.DoFetchTrack? || (a.DoPushUpdate? && a.ok)
    ensures e.repo < |w.repos| == |w'.repos| && w'.log == w.log + [e] && RepoOk(u, w'.repos[e.repo])
    ensures w'.repos == w.repos[e.repo := w'.repos[e.repo]]
    ensures e.prev == Resolve(w.repos[e.repo].refs, e.name)
    ensures w'.repos[e.repo].refs == w.repos[e.repo].refs[e.name := e.next]
    ensures e.pushed && !e.force && e.prev != ZERO ==> Ancestor(w'.repos[e.repo].store, e.prev, e.next)
  {
    e := w'.log[|w.log|];
  }

  lemma AncestorGrows(a: Store, b: Store, x: Id, y: Id)
    requires PartOf(a, b) && Ancestor(a, x, y)
    ensures Ancestor(b, x, y)
  {
    var p :| PathFromTo(Ancestry(a), p, y, x);
    forall i | 0 <= i < |p| - 1 ensures p[i + 1] in Ancestry(b)(p[i]) {
      assert p[i + 1] in Ancestry(a)(p[i]);
    }
    assert PathFromTo(Ancestry(b), p, y, x);
  }

  lemma EventGrows(w: World, w': World, e: Event)
    requires EventOk(w, e) && Grows(w.repos, w'.repos)
    ensures EventOk(w', e)
  {
    var a, b := w.repos[e.repo].store, w'.repos[e.repo].store;
    HoldsGrows(a, b, e.next);
    if e.pushed && !e.force && e.prev != ZERO {
      AncestorGrows(a, b, e.prev, e.next);
    }
  }

  lemma LogStep(u: Store, w: World, a: Action, w': World, start: seq<Repo>)
    requires Inv(u, w) && Step(u, w, a, w') && LogOk(w, start)
    ensures LogOk(w', start)
  {
    StepKeepsInv(u, w, a, w');
    StepIsLogged(u, w, a, w');
    EventsGrow(w, w');
    if Quiet(w, w') {
      QuietKeepsLog(w, w', start);
    } else {
      var e :| Writes1(w, e, w');
      WriteKeepsLogs(w, e, w', start);
    }
  }

  ghost predicate EventsOk(w: World, w': World) {
    forall i | 0 <= i < |w.log| :: EventOk(w', w.log[i])
  }

  lemma EventsGrow(w: World, w': World)
    requires Grows(w.repos, w'.repos) && EventsOk(w, w)
    ensures EventsOk(w, w')
  {
    forall i | 0 <= i < |w.log| ensures EventOk(w', w.log[i]) {
      EventGrows(w, w', w.log[i]);
    }
  }

  lemma QuietKeepsLog(w: World, w': World, start: seq<Repo>)
    requires LogOk(w, start) && Quiet(w, w') && EventsOk(w, w')
    ensures LogOk(w', start)
  {
    forall k, name | 0 <= k < |start| ensures RefLogged(w', start, k, name) {
      assert RefLogged(w, start, k, name);
    }
  }

  lemma WriteKeepsLogs(w: World, e: Event, w': World, start: seq<Repo>)
    requires LogOk(w, start) && Writes1(w, e, w') && EventsOk(w, w')
    ensures LogOk(w', start)
  {
    forall k, name | 0 <= k < |start| ensures RefLogged(w', start, k, name) {
      assert RefLogged(w, start, k, name);
      WriteKeepsLog(w, e, w', start, k, name);
    }
  }

  lemma WritesSnoc(log: seq<Event>, e: Event, k: nat, name: RefName)
    ensures Writes(log + [e], k, name) == Writes(log, k, name) + (if e.repo == k && e.name == name then [e] else [])
  {
    assert (log + [e])[..|log|] == log;
  }

  /** One write keeps the record of each ref in step with its value. */
  lemma WriteKeepsLog(w: World, e: Event, w': World, start: seq<Repo>, k: nat, name: RefName)
    requires Writes1(w, e, w') && k < |start| == |w.repos| && RefLogged(w, start, k, name)
    ensures RefLogged(w', start, k, name)
  {
    var es := Writes(w.log, k, name);
    WritesSnoc(w.log, e, k, name);
    if e.repo == k && e.name == name {
      ChainSnoc(es, e, Resolve(start[k].refs, name));
    } else {
      assert es + [] == es;
    }
  }

  /** In every run the writes of each ref form one chain from its first value to its present one. */
  lemma {:induction false} WritesFormAChain(u: Store, ws: seq<World>, acts: seq<Action>, i: nat)
    requires Run(u, ws, acts) && i < |ws|
    ensures LogOk(ws[i], ws[0].repos)
    decreases i
  {
    if i == 0 {
      forall k, name | 0 <= k < |ws[0].repos| ensures RefLogged(ws[0], ws[0].repos, k, name) {
        assert Writes([], k, name) == [];
      }
    } else {
      WritesFormAChain(u, ws, acts, i - 1);
      RefsAlwaysComplete(u, ws, acts, i - 1);
      assert Step(u, ws[i - 1], acts[i - 1], ws[i - 1 + 1]);
      LogStep(u, ws[i - 1], acts[i - 1], ws[i], ws[0].repos);
    }
  }

  lemma {:induction false} WritesAreLogged(log: seq<Event>, k: nat, name: RefName, j: nat)
    requires j < |Writes(log, k, name)|
    ensures Writes(log, k, name)[j] in log && Writes(log, k, name)[j].repo == k
    decreases |log|
  {
    var front := log[..|log| - 1];
    if j < |Writes(front, k, name)| {
      WritesAreLogged(front, k, name, j);
    }
  }

  /** Writes i + 1 to j of the ref were all unforced updates from outside. */
  ghost predicate UnforcedPushes(es: seq<Event>, i: nat, j: nat) {
    i <= j < |es| && forall m | i < m <= j :: es[m].pushed && !es[m].force
  }

  /** An unforced push after another write of the ref moved it on from a commit that write left. */
  lemma UnforcedStep(u: Store, w: World, start: seq<Repo>, k: nat, name: RefName, j: nat)
    requires Inv(u, w) && LogOk(w, start) && k < |start|
    requires 0 < j < |Writes(w.log, k, name)| && Writes(w.log, k, name)[j].pushed && !Writes(w.log, k, name)[j].force
    ensures var es := Writes(w.log, k, name); Ancestor(w.repos[k].store, es[j - 1].next, es[j].next)
  {
    var es := Writes(w.log, k, name);
    WritesAreLogged(w.log, k, name, j - 1);
    WritesAreLogged(w.log, k, name, j);
    assert RefLogged(w, start, k, name);
    assert es[j].prev == EndOf(es[..j], Resolve(start[k].refs, name)) == es[j - 1].next;
    assert EventOk(w, es[j - 1]) && EventOk(w, es[j]);
    assert RepoOk(u, w.repos[k]);
  }

  lemma {:induction false} UnforcedKeepsAncestors(u: Store, w: World, start: seq<Repo>, k: nat, name: RefName, i: nat,
                                                  j: nat)
    requires Inv(u, w) && LogOk(w, start) && k < |start|
    requires UnforcedPushes(Writes(w.log, k, name), i, j)
    ensures var es := Writes(w.log, k, name); Ancestor(w.repos[k].store, es[i].next, es[j].next)
    decreases j
  {
    var es, g := Writes(w.log, k, name), Ancestry(w.repos[k].store);
    if i == j {
      ReachSelf(g, es[i].next);
    } else {
      UnforcedKeepsAncestors(u, w, start, k, name, i, j - 1);
      UnforcedStep(u, w, start, k, name, j);
      ReachTrans(g, es[j].next, es[j - 1].next, es[i].next);
    }
  }

  /**
   Nothing is lost: in every run, while a ref only moves by accepted unforced updates, every
   commit it ever named, and every ancestor of it, stays an ancestor of what it names, with
   everything below it in the store.
   */
  lemma NothingIsLost(u: Store, ws: seq<World>, acts: seq<Action>, n: nat, k: nat, name: RefName, i: nat, j: nat, x: Id)
    requires Run(u, ws, acts) && n < |ws| && k < |ws[0].repos|
    requires UnforcedPushes(Writes(ws[n].log, k, name), i, j)
    ensures k < |ws[n].repos|
    ensures var es, store := Writes(ws[n].log, k, name), ws[n].repos[k].store;
            Ancestor(store, x, es[i].next) ==> Ancestor(store, x, es[j].next) && x in store
  {
    RefsAlwaysComplete(u, ws, acts, n);
    WritesFormAChain(u, ws, acts, n);
    UnforcedKeepsAncestors(u, ws[n], ws[0].repos, k, name, i, j);
    var es, store := Writes(ws[n].log, k, name), ws[n].repos[k].store;
    if Ancestor(store, x, es[i].next) {
      ReachTrans(Ancestry(store), es[j].next, es[i].next, x);
      WritesAreLogged(ws[n].log, k, name, j);
      assert EventOk(ws[n], es[j]);
      AncestryInObjects(store, es[j].next, x);
    }
  }
}
