/** Three-colour cycle detection over the parent graph of the repository check. */
module DagCheck {
  import opened Objects
  import opened Reachability

  type Dag = map<Id, seq<Id>>

  /** Parents of an id; ids missing from the map have none. */
  function Edges(dag: Dag, id: Id): seq<Id> {
    if id in dag then dag[id] else []
  }

  ghost function EdgeGraph(dag: Dag): Graph {
    id => Elems(Edges(dag, id))
  }

  ghost predicate IsCycle(dag: Dag, p: seq<Id>) {
    |p| >= 2 && IsPath(EdgeGraph(dag), p) && p[0] == p[|p| - 1]
  }

  ghost predicate HasCycle(dag: Dag) {
    exists p :: IsCycle(dag, p)
  }

  /** Every parent of an entry comes before it. */
  ghost predicate Topological(dag: Dag, order: seq<Id>) {
    forall i, e | 0 <= i < |order| && e in Edges(dag, order[i]) :: e in order[..i]
  }

  /** Along a path through a topological order one only goes back. */
  lemma {:induction false} PathGoesBack(dag: Dag, order: seq<Id>, p: seq<Id>, i: nat, k: nat)
    requires Topological(dag, order) && IsPath(EdgeGraph(dag), p)
    requires i < |order| && order[i] == p[0] && 0 < k < |p|
    ensures p[k] in order[..i]
    decreases k
  {
    if k == 1 {
      assert p[1] in EdgeGraph(dag)(p[0]);
    } else {
      PathGoesBack(dag, order, p, i, k - 1);
      var j :| 0 <= j < i && order[j] == p[k - 1];
      assert p[k - 1 + 1] in EdgeGraph(dag)(p[k - 1]);
      assert p[k] in order[..j];
    }
  }

  lemma {:induction false} NoCycleFrom(dag: Dag, order: seq<Id>, p: seq<Id>, i: nat)
    requires Topological(dag, order) && i < |order| && IsCycle(dag, p) && order[i] == p[0]
    ensures false
    decreases i
  {
    PathGoesBack(dag, order, p, i, |p| - 1);
    var j :| 0 <= j < i && order[j] == p[0];
    NoCycleFrom(dag, order, p, j);
  }

  /** A graph whose nodes all fit in a topological order has no cycle. */
  lemma OrderedIsAcyclic(dag: Dag, order: seq<Id>)
    requires Topological(dag, order) && dag.Keys <= Elems(order)
    ensures !HasCycle(dag)
  {
    forall p ensures !IsCycle(dag, p) {
      if IsCycle(dag, p) {
        assert p[0 + 1] in EdgeGraph(dag)(p[0]);
        assert p[0] in Elems(order);
        var i :| 0 <= i < |order| && order[i] == p[0];
        NoCycleFrom(dag, order, p, i);
      }
    }
  }

  const WHITE := 0
  const GREY := 1
  const BLACK := 2

  type Coloring = map<Id, int>

  function ColorOf(color: Coloring, id: Id): int {
    if id in color then color[id] else WHITE
  }

  /** All ids the check can meet. */
  function Universe(dag: Dag): set<Id> {
    dag.Keys + (set id, i | id in dag && 0 <= i < |dag[id]| :: dag[id][i])
  }

  /** The grey ids are those on the stack, a path; the black ones are ordered with their parents first. */
  ghost predicate Consistent(dag: Dag, color: Coloring, order: seq<Id>, stack: seq<Id>) {
    && color.Keys <= Universe(dag)
    && (forall id | id in color :: color[id] == if id in stack then GREY else BLACK)
    && (forall id | id in stack :: id in color)
    && (forall id | id in order :: id in color && id !in stack)
    && (forall id | id in color && id !in stack :: id in order)
    && Topological(dag, order)
    && (stack != [] ==> IsPath(EdgeGraph(dag), stack))
  }

  lemma EnterKeeps(dag: Dag, color: Coloring, order: seq<Id>, stack: seq<Id>, id: Id)
    requires Consistent(dag, color, order, stack) && id !in color && id in Universe(dag)
    requires IsPath(EdgeGraph(dag), stack + [id])
    ensures Consistent(dag, color[id := GREY], order, stack + [id])
  {
    var path := stack + [id];
    assert path[|stack|] == id;
    assert forall x :: x in path <==> x in stack || x == id;
  }

  lemma LeaveKeeps(dag: Dag, color: Coloring, order: seq<Id>, stack: seq<Id>, id: Id)
    requires Consistent(dag, color, order, stack + [id]) && id !in stack
    requires forall e | e in Edges(dag, id) :: e in order
    ensures Consistent(dag, color[id := BLACK], order + [id], stack)
  {
    var path, order' := stack + [id], order + [id];
    assert path[|stack|] == id && order'[|order|] == id;
    assert forall x :: x in path <==> x in stack || x == id;
    assert forall x :: x in order' <==> x in order || x == id;
    forall i, e | 0 <= i < |order'| && e in Edges(dag, order'[i]) ensures e in order'[..i] {
      if i < |order| {
        assert order'[..i] == order[..i];
      } else {
        assert order'[..i] == order;
      }
    }
    if stack != [] {
      forall i | 0 <= i < |stack| - 1 ensures stack[i + 1] in EdgeGraph(dag)(stack[i]) {
        assert path[i + 1] in EdgeGraph(dag)(path[i]);
      }
    }
  }

  class DagVerifier {
    const dag: Dag
    var color: Coloring
    var failures: seq<(Id, Id)>
    var verified: nat
    ghost var order: seq<Id>     // finished ids, in the order they were finished

    constructor (dag: Dag)
      ensures this.dag == dag && color == map[] && failures == [] && order == []
    {
      this.dag := dag;
      color := map[];
      failures := [];
      verified := 0;
      order := [];
    }

    /** Explores id, the new top of the stack; true means a cycle was found and recorded. */
    method Dfs(id: Id, ghost stack: seq<Id>) returns (cycle: bool)
      requires Consistent(dag, color, order, stack) && id !in color && id in Universe(dag)
      requires id !in stack && IsPath(EdgeGraph(dag), stack + [id])
      modifies this
      ensures cycle ==> HasCycle(dag) && failures != []
      ensures !cycle ==> Consistent(dag, color, order, stack) && id in order
      ensures !cycle ==> old(order) <= order && failures == old(failures) && old(color.Keys) <= color.Keys
      decreases Universe(dag) - color.Keys
    {
      EnterKeeps(dag, color, order, stack, id);
      color := color[id := GREY];
      ghost var path := stack + [id];
      var parents := Edges(dag, id);
      var i := 0;
      while i < |parents|
        invariant 0 <= i <= |parents|
        invariant Consistent(dag, color, order, path) && old(order) <= order && failures == old(failures)
        invariant old(color.Keys) + {id} <= color.Keys
        invariant forall e | e in parents[..i] :: e in order
      {
        var parent := parents[i];
        if ColorOf(color, parent) == GREY {
          failures := failures + [(id, parent)];
          GreyParentIsCycle(dag, path, parent);
          return true;
        }
        ghost var before := order;
        if ColorOf(color, parent) == WHITE {
          ExtendPath(dag, path, parent);
          var found := Dfs(parent, path);
          if found {
            return true;
          }
        }
        StillOrdered(before, order, parents, i);
        i := i + 1;
      }
      assert parents[..i] == parents;
      LeaveKeeps(dag, color, order, stack, id);
      color := color[id := BLACK];
      order := order + [id];
      assert order[|order| - 1] == id;
      return false;
    }

    /** Records a failure exactly when the parent graph has a cycle; otherwise counts every commit. */
    method VerifyDag()
      requires color == map[] && failures == [] && order == []
      modifies this
      ensures failures != [] <==> HasCycle(dag)
      ensures failures == [] ==> verified == |dag|
    {
      var ids := dag.Keys;
      while ids != {}
        invariant Consistent(dag, color, order, []) && failures == [] && ids <= dag.Keys
        invariant forall id | id in dag.Keys - ids :: id in order
        decreases ids
      {
        var id :| id in ids;
        ghost var before := order;
        if ColorOf(color, id) == WHITE {
          assert [] + [id] == [id];
          var found := Dfs(id, []);
          if found {
            return;
          }
        }
        assert forall x | x in before :: x in order;
        ids := ids - {id};
      }
      OrderedIsAcyclic(dag, order);
      verified := |dag|;
    }
  }

  lemma StillOrdered(before: seq<Id>, order: seq<Id>, parents: seq<Id>, i: nat)
    requires before <= order && i < |parents| && parents[i] in order
    requires forall e | e in parents[..i] :: e in before
    ensures forall e | e in parents[..i + 1] :: e in order
  {
    assert parents[..i + 1] == parents[..i] + [parents[i]];
  }

  lemma GreyParentIsCycle(dag: Dag, path: seq<Id>, parent: Id)
    requires path != [] && IsPath(EdgeGraph(dag), path) && parent in path && parent in Edges(dag, path[|path| - 1])
    ensures HasCycle(dag)
  {
    var k :| 0 <= k < |path| && path[k] == parent;
    var p := path[k..] + [parent];
    forall i | 0 <= i < |p| - 1 ensures p[i + 1] in EdgeGraph(dag)(p[i]) {
      if i + 1 < |path| - k {
        assert path[k + i + 1] in EdgeGraph(dag)(path[k + i]);
      }
    }
    assert IsCycle(dag, p);
  }

  lemma ExtendPath(dag: Dag, path: seq<Id>, parent: Id)
    requires path != [] && IsPath(EdgeGraph(dag), path) && parent in Edges(dag, path[|path| - 1])
    ensures IsPath(EdgeGraph(dag), path + [parent])
  {
  }
}
