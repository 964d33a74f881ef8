/** The commit graph index: a cached copy of the history that a walk can use in place of the store. */
module GraphIndex {

  import opened Objects
  import opened Reachability
  import opened Walks
  import opened CommitGraph
  import opened Discovery
  import opened Generations
  import opened TipOrder

  /** What a commit carries besides its tree and parents. */
  datatype Meta = Meta(timestamp: int, author: string, message: string)

  datatype Entry = Entry(id: Id, generation: nat, meta: Meta, parents: seq<Id>)

  /** The first queue of a walk holds each tip once. */
  lemma Started(tips: seq<Id>, queue: seq<Id>, seen: set<Id>)
    requires seen == {} + Elems(tips) && queue == [] + Fresh(tips, {})
    ensures seen == Elems(tips) == Elems(queue) && NoDuplicates(queue)
  {
    FreshIsNew(tips, {});
    assert queue == Fresh(tips, {});
  }

  // ----- the walker -----

  datatype Item = End | Broken | Visit(id: Id)

  /** An iterator over history in breadth-first order. */
  class Walker {
    const store: Store
    var queue: seq<Id>
    var visited: set<Id>
    ghost const tips: seq<Id>
    ghost const root: Id
    ghost var returned: set<Id>
    ghost var ways: Ways

    ghost predicate Valid()
      reads this
    {
      && Walking(Ancestry(store), Elems(tips), returned, queue, visited) && AllCommits(store, returned)
      && DiscoveringFrom(store, tips, root, returned, queue, ways)
      && ways.Keys == visited + {root} && root !in visited
    }

    constructor (store: Store, tips: seq<Id>)
      ensures Valid() && this.store == store && this.tips == tips && returned == {}
    {
      this.store, this.tips, returned := store, tips, {};
      var q, v := Enqueue(tips, [], {});
      queue, visited := q, v;
      ghost var top, ws := TipsStart(store, tips);
      root, ways := top, ws;
      new;
      Started(tips, q, v);
      assert {} + Elems(tips) == Elems(tips) && [] + Fresh(tips, {}) == Fresh(tips, {});
      assert root !in tips ==> root !in Elems(tips);
      WalkStarts(Ancestry(store), q);
    }

    /**
     The next commit in the order of discovery from the tips: each once, before all that are still
     to come; the end only when every ancestor of the tips has been returned.
     */
    method Next() returns (r: Item)
      requires Valid()
      modifies this
      ensures !r.Broken? ==> Valid()
      ensures r.Visit? ==> r.id !in old(returned) && returned == old(returned) + {r.id}
      ensures r.Visit? ==> IsCommit(store, r.id) && From(Ancestry(store), Elems(tips), r.id)
      ensures r.Visit? ==> forall x | From(Ancestry(store), Elems(tips), x) && x !in returned ::
        BeforeFrom(store, tips, r.id, x)
      ensures !r.Visit? ==> returned == old(returned)
      ensures r.End? ==> forall x :: x in returned <==> From(Ancestry(store), Elems(tips), x)
      ensures r.Broken? ==> exists x :: From(Ancestry(store), Elems(tips), x) && !IsCommit(store, x)
    {
      ghost var g := Ancestry(store);
      if |queue| == 0 {
        WalkingDone(g, Elems(tips), returned, visited);
        return End;
      }
      var currId := queue[0];
      QueueHead(g, Elems(tips), returned, queue, visited);
      if currId !in store || !store[currId].Commit? {
        queue := queue[1..];
        return Broken;
      }
      ghost var queue0, visited0 := queue, visited;
      QueueIsDistinct(g, Elems(tips), returned, queue, visited);
      NextIsFirst(store, tips, root, returned, queue, ways);
      ways := TipsStep(store, tips, root, returned, queue, ways, visited);
      queue, visited := Enqueue(store[currId].parents, queue[1..], visited);
      WalkingStep(g, Elems(tips), returned, queue0, visited0, store[currId].parents);
      returned := returned + {currId};
      assert root !in Listed(store, currId);
      r := Visit(currId);
    }
  }

  lemma NextIsFirst(store: Store, tips: seq<Id>, root: Id, returned: set<Id>, queue: seq<Id>, ways: Ways)
    requires DiscoveringFrom(store, tips, root, returned, queue, ways) && queue != [] && queue[0] != root
    ensures forall x | From(Ancestry(store), Elems(tips), x) && x !in returned + {queue[0]} ::
              BeforeFrom(store, tips, queue[0], x)
  {
    forall x | From(Ancestry(store), Elems(tips), x) && x !in returned + {queue[0]}
      ensures BeforeFrom(store, tips, queue[0], x)
    {
      NeverTheRoot(store, tips, root, x);
      HeadBeforeOthers(store, tips, root, returned, queue, ways, x);
    }
  }

  lemma NeverTheRoot(store: Store, tips: seq<Id>, root: Id, x: Id)
    requires Unused(store, tips, root) && From(Ancestry(store), Elems(tips), x)
    ensures x != root
  {
    var t :| t in Elems(tips) && Reach(Ancestry(store), t, x);
    var path :| PathFromTo(Ancestry(store), path, t, x);
    if |path| > 1 {
      assert x in Parents(store, path[|path| - 2]);
      assert x in Listed(store, path[|path| - 2]);
    }
  }

  // ----- building -----

  type Raw = map<Id, seq<Id>>

  /** The commits collected are those of the store, and their parents have been collected too. */
  ghost predicate Collected(store: Store, raw: Raw) {
    forall id | id in raw :: IsCommit(store, id) && raw[id] == store[id].parents && Elems(raw[id]) <= raw.Keys
  }

  ghost predicate GensRight(store: Store, rank: Id -> nat, raw: Raw, gens: map<Id, nat>)
    requires Falls(store, rank)
  {
    forall id | id in gens :: id in raw && gens[id] == Gen(store, rank, id)
  }

  /** First pass: every commit reachable from the tips, or the failure to read one. */
  method CollectRaw(store: Store, tips: seq<Id>) returns (ok: bool, raw: Raw)
    ensures ok <==> forall x | From(Ancestry(store), Elems(tips), x) :: IsCommit(store, x)
    ensures ok ==> Collected(store, raw) && forall x :: x in raw <==> From(Ancestry(store), Elems(tips), x)
  {
    ghost var g, roots := Ancestry(store), Elems(tips);
    var queue, visited := Enqueue(tips, [], {});
    Started(tips, queue, visited);
    WalkStarts(g, queue);
    raw := map[];
    assert raw.Keys == {};
    while queue != []
      invariant Walking(g, roots, raw.Keys, queue, visited)
      invariant forall id | id in raw :: IsCommit(store, id) && raw[id] == store[id].parents
      decreases store.Keys - raw.Keys
    {
      var id := queue[0];
      QueueHead(g, roots, raw.Keys, queue, visited);
      if id !in store || !store[id].Commit? {
        return false, raw;
      }
      ghost var queue0, visited0 := queue, visited;
      queue, visited := Enqueue(store[id].parents, queue[1..], visited);
      WalkingStep(g, roots, raw.Keys, queue0, visited0, store[id].parents);
      assert raw[id := store[id].parents].Keys == raw.Keys + {id};
      raw := raw[id := store[id].parents];
    }
    WalkingDone(g, roots, raw.Keys, visited);
    forall id | id in raw ensures Elems(raw[id]) <= raw.Keys {
      assert g(id) <= visited;
    }
    ok := true;
  }

  /** Second pass: the memoised generation of one collected commit. */
  method ComputeGen(ghost store: Store, ghost rank: Id -> nat, raw: Raw, id: Id, gens0: map<Id, nat>)
    returns (gen: nat, gens: map<Id, nat>)
    requires Falls(store, rank) && Collected(store, raw) && id in raw
    requires GensRight(store, rank, raw, gens0)
    ensures gen == Gen(store, rank, id) && id in gens
    ensures GensRight(store, rank, raw, gens) && gens0.Keys <= gens.Keys
    decreases rank(id), 1
  {
    gens := gens0;
    if id in gens {
      return gens[id], gens;
    }
    if |raw[id]| == 0 {
      gens := gens[id := 0];
      return 0, gens;
    }
    var max;
    max, gens := MaxParentGen(store, rank, raw, id, gens);
    gen := max + 1;
    gens := gens[id := gen];
  }

  method MaxParentGen(ghost store: Store, ghost rank: Id -> nat, raw: Raw, id: Id, gens0: map<Id, nat>)
    returns (max: nat, gens: map<Id, nat>)
    requires Falls(store, rank) && Collected(store, raw) && id in raw
    requires GensRight(store, rank, raw, gens0)
    ensures max == Highest(store, rank, store[id].parents, rank(id))
    ensures GensRight(store, rank, raw, gens) && gens0.Keys <= gens.Keys
    decreases rank(id), 0
  {
    var parents := raw[id];
    max, gens := 0, gens0;
    var k := 0;
    while k < |parents|
      invariant 0 <= k <= |parents|
      invariant max == Highest(store, rank, parents[..k], rank(id))
      invariant GensRight(store, rank, raw, gens) && gens0.Keys <= gens.Keys
    {
      var p := parents[k];
      assert p in Elems(parents) && p in store[id].parents;
      assert parents[..k + 1][..k] == parents[..k];
      var g;
      g, gens := ComputeGen(store, rank, raw, p, gens);
      if g > max {
        max := g;
      }
      k := k + 1;
    }
    assert parents[..k] == parents;
  }

  /** The entry says what the store says. */
  ghost predicate Faithful(store: Store, rank: Id -> nat, meta: Id -> Meta, e: Entry)
    requires Falls(store, rank)
  {
    IsCommit(store, e.id) && e.parents == store[e.id].parents && e.generation == Gen(store, rank, e.id)
    && e.meta == meta(e.id)
  }

  ghost predicate AllFaithful(store: Store, rank: Id -> nat, meta: Id -> Meta, es: seq<Entry>)
    requires Falls(store, rank)
  {
    forall e | e in es :: Faithful(store, rank, meta, e)
  }

  function Ids(es: seq<Entry>): seq<Id> {
    seq(|es|, i requires 0 <= i < |es| => es[i].id)
  }

  lemma IdsSnoc(es: seq<Entry>, e: Entry)
    ensures Ids(es + [e]) == Ids(es) + [e.id]
  {
  }

  /** Second pass: the generations of all collected commits. */
  method ComputeGens(ghost store: Store, ghost rank: Id -> nat, raw: Raw) returns (gens: map<Id, nat>)
    requires Falls(store, rank) && Collected(store, raw)
    ensures raw.Keys <= gens.Keys && GensRight(store, rank, raw, gens)
  {
    gens := map[];
    var rest := raw.Keys;
    while rest != {}
      invariant rest <= raw.Keys <= rest + gens.Keys
      invariant GensRight(store, rank, raw, gens)
      decreases |rest|
    {
      var id :| id in rest;
      var g;
      g, gens := ComputeGen(store, rank, raw, id, gens);
      rest := rest - {id};
    }
  }

  /** One right entry for each of the commits, and no other. */
  ghost predicate EntriesFor(store: Store, rank: Id -> nat, meta: Id -> Meta, entries: seq<Entry>, ids: set<Id>)
    requires Falls(store, rank)
  {
    AllFaithful(store, rank, meta, entries) && NoDuplicates(Ids(entries)) && Elems(Ids(entries)) == ids
  }

  ghost predicate EntriesForAs(store: Store, rank: Id -> nat, meta: Id -> Meta, entries: seq<Entry>, ids: set<Id>)
    requires Falls(store, rank)
  {
    forall x | x == entries :: EntriesFor(store, rank, meta, x, ids)
  }

  lemma AddEntry(store: Store, rank: Id -> nat, meta: Id -> Meta, entries: seq<Entry>, done: set<Id>, e: Entry)
    requires Falls(store, rank) && EntriesForAs(store, rank, meta, entries, done)
    requires Faithful(store, rank, meta, e) && e.id !in done
    ensures EntriesForAs(store, rank, meta, entries + [e], done + {e.id})
  {
    assert EntriesFor(store, rank, meta, entries, done);
    IdsSnoc(entries, e);
    ElemsSnoc(Ids(entries), e.id);
    DistinctSnoc(Ids(entries), e.id);
  }

  /** The entry of every collected commit is at hand. */
  ghost predicate Computed(store: Store, rank: Id -> nat, meta: Id -> Meta, raw: Raw, gens: map<Id, nat>)
    requires Falls(store, rank)
  {
    forall id | id in raw :: id in gens && Faithful(store, rank, meta, Entry(id, gens[id], meta(id), raw[id]))
  }

  lemma AddCollected(store: Store, rank: Id -> nat, meta: Id -> Meta, raw: Raw, gens: map<Id, nat>,
                     entries: seq<Entry>, done: set<Id>, id: Id)
    requires Falls(store, rank) && Computed(store, rank, meta, raw, gens)
    requires EntriesForAs(store, rank, meta, entries, done) && id in raw && id !in done
    ensures id in gens
    ensures EntriesForAs(store, rank, meta, entries + [Entry(id, gens[id], meta(id), raw[id])], done + {id})
  {
    AddEntry(store, rank, meta, entries, done, Entry(id, gens[id], meta(id), raw[id]));
  }

  /** One entry per collected commit, in whatever order the map gives them. */
  method MakeEntries(ghost store: Store, ghost rank: Id -> nat, meta: Id -> Meta, raw: Raw, gens: map<Id, nat>)
    returns (entries: seq<Entry>)
    requires Falls(store, rank) && raw.Keys <= gens.Keys && Computed(store, rank, meta, raw, gens)
    ensures EntriesForAs(store, rank, meta, entries, raw.Keys)
  {
    entries := [];
    var rest := raw.Keys;
    while rest != {}
      invariant rest <= raw.Keys && EntriesForAs(store, rank, meta, entries, raw.Keys - rest)
      decreases |rest|
    {
      var id :| id in rest;
      AddCollected(store, rank, meta, raw, gens, entries, raw.Keys - rest, id);
      assert raw.Keys - rest + {id} == raw.Keys - (rest - {id});
      entries := entries + [Entry(id, gens[id], meta(id), raw[id])];
      rest := rest - {id};
    }
    assert raw.Keys - rest == raw.Keys;
  }

  /** The index of all history behind the tips: one entry per commit, in no particular order. */
  method Build(store: Store, ghost rank: Id -> nat, meta: Id -> Meta, tips: seq<Id>)
    returns (ok: bool, entries: seq<Entry>)
    requires Falls(store, rank)
    ensures ok <==> forall x | From(Ancestry(store), Elems(tips), x) :: IsCommit(store, x)
    ensures ok ==> AllFaithful(store, rank, meta, entries) && NoDuplicates(Ids(entries))
    ensures ok ==> forall x :: x in Elems(Ids(entries)) <==> From(Ancestry(store), Elems(tips), x)
  {
    var raw;
    ok, raw := CollectRaw(store, tips);
    entries := [];
    if ok {
      var gens := ComputeGens(store, rank, raw);
      entries := MakeEntries(store, rank, meta, raw, gens);
      assert EntriesFor(store, rank, meta, entries, raw.Keys);
    }
  }

  // ----- reading history -----

  type Index = map<Id, Entry>

  /** The lookup table of a loaded index. */
  function ByID(entries: seq<Entry>): Index {
    if entries == [] then map[]
    else
      var e := entries[|entries| - 1];
      ByID(entries[..|entries| - 1])[e.id := e]
  }

  /** Every entry is filed under its own ID and says what the store says, and parents are indexed too. */
  ghost predicate Mirrors(store: Store, rank: Id -> nat, meta: Id -> Meta, idx: Index)
    requires Falls(store, rank)
  {
    forall id | id in idx ::
      idx[id].id == id && Faithful(store, rank, meta, idx[id]) && Elems(idx[id].parents) <= idx.Keys
  }

  lemma {:induction false} LookupFinds(entries: seq<Entry>, id: Id)
    ensures id in ByID(entries) <==> id in Elems(Ids(entries))
    ensures id in ByID(entries) ==> ByID(entries)[id].id == id && ByID(entries)[id] in entries
  {
    if entries != [] {
      var front, e := entries[..|entries| - 1], entries[|entries| - 1];
      LookupFinds(front, id);
      assert entries == front + [e];
      IdsSnoc(front, e);
      ElemsSnoc(Ids(front), e.id);
    }
  }

  /** What a build from any tips wrote mirrors the store: its commits are closed under parents. */
  lemma BuiltMirrors(store: Store, rank: Id -> nat, meta: Id -> Meta, tips: set<Id>, entries: seq<Entry>)
    requires Falls(store, rank) && AllFaithful(store, rank, meta, entries)
    requires forall x :: x in Elems(Ids(entries)) <==> From(Ancestry(store), tips, x)
    ensures Mirrors(store, rank, meta, ByID(entries))
  {
    var idx := ByID(entries);
    forall id | id in idx
      ensures idx[id].id == id && Faithful(store, rank, meta, idx[id]) && Elems(idx[id].parents) <= idx.Keys
    {
      LookupFinds(entries, id);
      forall p | p in Elems(idx[id].parents) ensures p in idx {
        OneFurther(Ancestry(store), tips, id, p);
        LookupFinds(entries, p);
      }
    }
  }

  /** An indexed commit keeps its generation when the store grows. */
  lemma {:induction false} GenStays(a: Store, b: Store, rank: Id -> nat, ids: set<Id>, id: Id)
    requires PartOf(a, b) && Falls(a, rank) && Falls(b, rank) && id in ids
    requires forall x | x in ids :: IsCommit(a, x) && Elems(a[x].parents) <= ids
    ensures Gen(b, rank, id) == Gen(a, rank, id)
    decreases rank(id), 1
  {
    assert a[id] == b[id];
    if a[id].parents != [] { HighestStays(a, b, rank, ids, id, a[id].parents); }
  }

  lemma {:induction false} HighestStays(a: Store, b: Store, rank: Id -> nat, ids: set<Id>, id: Id, ps: seq<Id>)
    requires PartOf(a, b) && Falls(a, rank) && Falls(b, rank) && id in ids
    requires forall x | x in ids :: IsCommit(a, x) && Elems(a[x].parents) <= ids
    requires IsCommit(a, id) && forall p | p in ps :: p in a[id].parents
    ensures (forall p | p in ps :: rank(p) < rank(id))
      && Highest(b, rank, ps, rank(id)) == Highest(a, rank, ps, rank(id))
    decreases rank(id), 0, |ps|
  {
    if ps != [] {
      var p := ps[|ps| - 1];
      HighestStays(a, b, rank, ids, id, ps[..|ps| - 1]);
      assert p in Elems(a[id].parents);
      GenStays(a, b, rank, ids, p);
    }
  }

  /** An index stays right for the commits it has when objects are added to the store. */
  lemma MirrorsGrows(a: Store, b: Store, rank: Id -> nat, meta: Id -> Meta, idx: Index)
    requires PartOf(a, b) && Falls(a, rank) && Falls(b, rank) && Mirrors(a, rank, meta, idx)
    ensures Mirrors(b, rank, meta, idx)
  {
    forall id | id in idx ensures Faithful(b, rank, meta, idx[id]) {
      assert Faithful(a, rank, meta, idx[id]);
      forall x | x in idx.Keys ensures IsCommit(a, x) && Elems(a[x].parents) <= idx.Keys {
        assert Faithful(a, rank, meta, idx[x]);
      }
      GenStays(a, b, rank, idx.Keys, id);
    }
  }

  /** The parents the index gives; nothing for a commit it does not have. */
  ghost function Indexed(idx: Index): Graph {
    id => if id in idx then Elems(idx[id].parents) else {}
  }

  lemma {:induction false} SamePaths(g: Graph, g': Graph, s: set<Id>, path: seq<Id>, i: nat)
    requires IsPath(g, path) && path[0] in s && i < |path|
    requires forall x | x in s :: g(x) == g'(x) <= s
    ensures path[i] in s && forall j | 0 <= j < i :: path[j + 1] in g'(path[j])
  {
    if i > 0 { SamePaths(g, g', s, path, i - 1); }
  }

  /** Two graphs that agree on a closed set reach the same from inside it. */
  lemma SameReach(g: Graph, g': Graph, s: set<Id>, a: Id, x: Id)
    requires a in s && Reach(g, a, x) && forall y | y in s :: g(y) == g'(y) <= s
    ensures x in s && Reach(g', a, x)
  {
    var path :| PathFromTo(g, path, a, x);
    SamePaths(g, g', s, path, |path| - 1);
    assert PathFromTo(g', path, a, x);
  }

  /** From an indexed commit, the index reaches exactly the ancestors the store has. */
  lemma IndexReachesAncestors(store: Store, rank: Id -> nat, meta: Id -> Meta, idx: Index, head: Id, x: Id)
    requires Falls(store, rank) && Mirrors(store, rank, meta, idx) && head in idx
    ensures Reach(Indexed(idx), head, x) <==> Ancestor(store, x, head)
    ensures Ancestor(store, x, head) ==> x in idx
  {
    var g, g' := Indexed(idx), Ancestry(store);
    forall y | y in idx.Keys ensures g(y) == g'(y) && g(y) <= idx.Keys {
      assert Faithful(store, rank, meta, idx[y]);
    }
    if Reach(g, head, x) { SameReach(g, g', idx.Keys, head, x); }
    if Reach(g', head, x) { SameReach(g', g, idx.Keys, head, x); }
  }

  // ----- newest first -----

  /** a may stand before b. */
  predicate NotAfter(a: Entry, b: Entry) {
    a.generation > b.generation || (a.generation == b.generation && a.meta.timestamp >= b.meta.timestamp)
  }

  /** Higher generation first, then newer timestamp. */
  ghost predicate NewestFirst(es: seq<Entry>) {
    forall i, j | 0 <= i < j < |es| ::
      && es[i].generation >= es[j].generation
      && (es[i].generation == es[j].generation ==> es[i].meta.timestamp >= es[j].meta.timestamp)
  }

  ghost predicate Sorted(es: seq<Entry>) {
    forall i, j | 0 <= i < j < |es| :: NotAfter(es[i], es[j])
  }

  function InsertEntry(e: Entry, es: seq<Entry>): seq<Entry> {
    if es == [] || NotAfter(e, es[0]) then [e] + es else [es[0]] + InsertEntry(e, es[1..])
  }

  lemma {:induction false} InsertedEntry(e: Entry, es: seq<Entry>)
    requires Sorted(es)
    ensures Sorted(InsertEntry(e, es)) && multiset(InsertEntry(e, es)) == multiset(es) + multiset{e}
  {
    if es != [] && !NotAfter(e, es[0]) {
      var rest := InsertEntry(e, es[1..]);
      InsertedEntry(e, es[1..]);
      assert es == [es[0]] + es[1..];
      forall x | x in rest ensures NotAfter(es[0], x) {
        assert x in multiset(rest);
        if x != e { assert x in es[1..]; }
      }
    }
  }

  method SortNewestFirst(es: seq<Entry>) returns (sorted: seq<Entry>)
    ensures NewestFirst(sorted) && multiset(sorted) == multiset(es)
  {
    sorted := [];
    var k := 0;
    while k < |es|
      invariant 0 <= k <= |es|
      invariant Sorted(sorted) && multiset(sorted) == multiset(es[..k])
    {
      InsertedEntry(es[k], sorted);
      assert es[..k + 1] == es[..k] + [es[k]];
      sorted := InsertEntry(es[k], sorted);
      k := k + 1;
    }
    assert es[..k] == es;
    SortedIsNewestFirst(sorted);
  }

  lemma SortedIsNewestFirst(es: seq<Entry>)
    requires Sorted(es)
    ensures NewestFirst(es)
  {
  }

  // ----- the two histories -----

  ghost predicate Filed(idx: Index) {
    forall id | id in idx :: idx[id].id == id
  }

  /** All that a walk over the index can come to. */
  ghost function Reachable(idx: Index, head: Id): set<Id> {
    {head} + idx.Keys + set id, p | id in idx && p in Elems(idx[id].parents) :: p
  }

  ghost predicate EntriesOf(idx: Index, es: seq<Entry>) {
    forall e | e in es :: e.id in idx && e == idx[e.id]
  }

  /** Each indexed commit that can be reached from the head, once, newest first. */
  ghost predicate Listing(idx: Index, head: Id, es: seq<Entry>) {
    && EntriesOf(idx, es) && NoDuplicates(Ids(es)) && NewestFirst(es)
    && forall x :: x in Elems(Ids(es)) <==> x in idx && From(Indexed(idx), {head}, x)
  }

  lemma Skips(queue: seq<Id>, seen: set<Id>)
    requires queue != []
    ensures seen + Elems<Id>([]) == seen && queue[1..] + Fresh([], seen) == queue[1..]
  {
  }

  /** The commits collected by the walk over the index, in breadth-first order. */
  method WalkIndex(idx: Index, head: Id) returns (ordered: seq<Entry>)
    requires Filed(idx)
    ensures EntriesOf(idx, ordered) && NoDuplicates(Ids(ordered))
    ensures forall x :: x in Elems(Ids(ordered)) <==> x in idx && From(Indexed(idx), {head}, x)
  {
    ghost var g, done, all := Indexed(idx), {}, Reachable(idx, head);
    var queue, visited := [head], {head};
    assert Elems([head]) == {head} by { assert [head][0] == head; }
    WalkStarts(g, [head]);
    ordered := [];
    while queue != []
      invariant Walking(g, {head}, done, queue, visited) && done <= visited <= all
      invariant EntriesOf(idx, ordered) && NoDuplicates(Ids(ordered)) && Elems(Ids(ordered)) == done * idx.Keys
      decreases all - done
    {
      var id := queue[0];
      QueueHead(g, {head}, done, queue, visited);
      ghost var queue0, visited0 := queue, visited;
      if id in idx {
        var e := idx[id];
        IdsSnoc(ordered, e);
        ElemsSnoc(Ids(ordered), id);
        DistinctSnoc(Ids(ordered), id);
        ordered := ordered + [e];
        queue, visited := Enqueue(e.parents, queue[1..], visited);
      } else {
        Skips(queue, visited);
        queue := queue[1..];
      }
      WalkingStep(g, {head}, done, queue0, visited0, if id in idx then idx[id].parents else []);
      done := done + {id};
      WalkingParts(g, {head}, done, queue, visited);
    }
    WalkingDone(g, {head}, done, visited);
  }

  lemma PermutedIds(a: seq<Entry>, b: seq<Entry>)
    requires multiset(a) == multiset(b) && NoDuplicates(Ids(a))
    ensures NoDuplicates(Ids(b)) && Elems(Ids(a)) == Elems(Ids(b))
    ensures forall e :: e in a <==> e in b
  {
    forall e ensures e in a <==> e in b {
      assert e in multiset(a) <==> e in multiset(b);
    }
    forall x ensures x in Elems(Ids(a)) <==> x in Elems(Ids(b)) {
      HasId(a, x);
      HasId(b, x);
    }
    forall i, j | 0 <= i < j < |b| ensures b[i].id != b[j].id {
      assert b[i] in a && b[j] in a;
      Twice(b, i, j);
      Once(a, b[i]);
      OnlyOne(a, b[i], b[j]);
    }
  }

  lemma HasId(es: seq<Entry>, x: Id)
    ensures x in Elems(Ids(es)) <==> exists e :: e in es && e.id == x
  {
    if x in Elems(Ids(es)) {
      var i :| 0 <= i < |es| && Ids(es)[i] == x;
      assert es[i] in es;
    }
    if e :| e in es && e.id == x {
      var i :| 0 <= i < |es| && es[i] == e;
      assert Ids(es)[i] == x;
    }
  }

  lemma OnlyOne(es: seq<Entry>, a: Entry, b: Entry)
    requires NoDuplicates(Ids(es)) && a in es && b in es
    ensures a.id == b.id ==> a == b
  {
    var i :| 0 <= i < |es| && es[i] == a;
    var j :| 0 <= j < |es| && es[j] == b;
    assert i != j ==> Ids(es)[i] != Ids(es)[j];
  }

  lemma Twice(es: seq<Entry>, i: nat, j: nat)
    requires i < j < |es|
    ensures es[i] == es[j] ==> multiset(es)[es[i]] >= 2
  {
    assert es == es[..j] + es[j..];
    assert es[..j][i] == es[i] && es[j..][0] == es[j];
    assert es[i] in multiset(es[..j]) && es[j] in multiset(es[j..]);
  }

  lemma {:induction false} Once(es: seq<Entry>, e: Entry)
    requires NoDuplicates(Ids(es))
    ensures multiset(es)[e] <= 1
    decreases |es|
  {
    if es != [] {
      var front, last := es[..|es| - 1], es[|es| - 1];
      assert es == front + [last];
      assert forall i | 0 <= i < |front| :: Ids(front)[i] == Ids(es)[i];
      Once(front, e);
      forall i | 0 <= i < |front| ensures front[i] != last {
        assert Ids(es)[i] != Ids(es)[|es| - 1];
      }
    }
  }

  /** The history printed from the index. */
  method HistoryFromIndex(idx: Index, head: Id) returns (listed: seq<Entry>)
    requires Filed(idx)
    ensures Listing(idx, head, listed)
  {
    var ordered := WalkIndex(idx, head);
    listed := SortNewestFirst(ordered);
    PermutedIds(ordered, listed);
  }

  /** Each commit is discovered before those listed after it. */
  ghost predicate InDiscoveryOrder(store: Store, head: Id, listed: seq<Id>) {
    forall i, j | 0 <= i < j < |listed| :: Before(store, head, listed[i], listed[j])
  }

  /** The head of the queue is discovered after everything that is done. */
  lemma HeadIsNext(store: Store, head: Id, done: set<Id>, queue: seq<Id>, ways: Ways, x: Id)
    requires Discovering(store, head, done, queue, ways) && queue != [] && x in done
    ensures Before(store, head, x, queue[0])
  {
    assert DiscoveringBy(store, head, done, queue, ways);
    HeadIsFirst(store, head, done, queue, ways);
    var h := queue[0];
    assert h in queue && Sooner(ways[x], ways[h]) && Leads(store, head, ways[x], x);
    forall w | Leads(store, head, w, h) ensures Sooner(ways[x], w) {
      SoonerIsTransitive(ways[x], ways[h], w);
    }
  }

  lemma ListedNext(store: Store, head: Id, listed: seq<Id>, queue: seq<Id>, ways: Ways)
    requires Discovering(store, head, Elems(listed), queue, ways) && queue != []
    requires InDiscoveryOrder(store, head, listed)
    ensures InDiscoveryOrder(store, head, listed + [queue[0]])
  {
    forall x | x in Elems(listed) ensures Before(store, head, x, queue[0]) {
      HeadIsNext(store, head, Elems(listed), queue, ways, x);
    }
    assert forall i | 0 <= i < |listed| :: listed[i] in Elems(listed);
  }

  /** In that order the head comes first, and no commit before one that is fewer parent links away. */
  lemma OrderedByDistance(store: Store, head: Id, x: Id, y: Id, n: nat)
    requires Before(store, head, x, y) && y in Level(Ancestry(store), head, n)
    ensures y != head && x in Level(Ancestry(store), head, n)
  {
    var v :| Leads(store, head, v, x) && forall w | Leads(store, head, w, y) :: Sooner(v, w);
    var w := LevelHasWay(store, head, n, y);
    WayReaches(store, head, v, x);
    LevelGrows(Ancestry(store), head, |v|, n);
    assert Leads(store, head, [], head) && !Sooner(v, []);
  }

  /** The history read commit by commit from the store: all ancestors in the order of their discovery. */
  method HistoryFromStore(store: Store, head: Id) returns (ok: bool, listed: seq<Id>)
    ensures ok <==> Readable(store, head)
    ensures ok ==> NoDuplicates(listed) && forall x :: x in Elems(listed) <==> Ancestor(store, x, head)
    ensures ok ==> InDiscoveryOrder(store, head, listed)
  {
    ghost var g := Ancestry(store);
    var queue, visited := [head], {head};
    assert Elems([head]) == {head} by { assert [head][0] == head; }
    WalkStarts(g, [head]);
    FromOne(store, head);
    DiscoveryStarts(store, head);
    listed := [];
    ghost var ways: Ways := map[head := []];
    assert Elems(listed) == {};
    while queue != []
      invariant Walking(g, {head}, Elems(listed), queue, visited) && AllCommits(store, Elems(listed))
        && NoDuplicates(listed)
      invariant Discovering(store, head, Elems(listed), queue, ways) && ways.Keys == visited
      invariant InDiscoveryOrder(store, head, listed)
      decreases store.Keys - Elems(listed)
    {
      var currId := queue[0];
      QueueHead(g, {head}, Elems(listed), queue, visited);
      if currId !in store || !store[currId].Commit? {
        return false, [];
      }
      ghost var queue0, visited0 := queue, visited;
      queue, visited := Enqueue(store[currId].parents, queue[1..], visited);
      WalkingStep(g, {head}, Elems(listed), queue0, visited0, store[currId].parents);
      QueueIsDistinct(g, {head}, Elems(listed), queue0, visited0);
      ListedNext(store, head, listed, queue0, ways);
      ways := DiscoveryStep(store, head, Elems(listed), queue0, ways);
      ElemsSnoc(listed, currId);
      DistinctSnoc(listed, currId);
      listed := listed + [currId];
    }
    WalkingDone(g, {head}, Elems(listed), visited);
    ok := true;
  }

  /**
   From any head in the index the two histories name the same commits, all ancestors of the head,
   and the one from the index puts every commit before all its proper ancestors.
   */
  lemma IndexHistoryIsStoreHistory(store: Store, rank: Id -> nat, meta: Id -> Meta, idx: Index, head: Id,
                                   listed: seq<Entry>)
    requires Falls(store, rank) && Mirrors(store, rank, meta, idx) && head in idx && Listing(idx, head, listed)
    ensures Readable(store, head)
    ensures forall x :: x in Elems(Ids(listed)) <==> Ancestor(store, x, head)
    ensures forall i, j | 0 <= i < j < |listed| ::
      listed[i].id != listed[j].id && !Ancestor(store, listed[i].id, listed[j].id)
  {
    forall x ensures x in Elems(Ids(listed)) <==> Ancestor(store, x, head) {
      IndexReachesAncestors(store, rank, meta, idx, head, x);
      assert head in {head};
    }
    forall x | Ancestor(store, x, head) ensures IsCommit(store, x) {
      IndexReachesAncestors(store, rank, meta, idx, head, x);
      assert Faithful(store, rank, meta, idx[x]);
    }
    forall i, j | 0 <= i < j < |listed|
      ensures listed[i].id != listed[j].id && !Ancestor(store, listed[i].id, listed[j].id)
    {
      var a, b := listed[i], listed[j];
      assert Ids(listed)[i] != Ids(listed)[j];
      assert a in listed && b in listed && NotAfter(a, b);
      assert Faithful(store, rank, meta, idx[a.id]) && Faithful(store, rank, meta, idx[b.id]);
      if Ancestor(store, a.id, b.id) { AncestorIsLower(store, rank, a.id, b.id); }
    }
  }

  /** An index built before the store grew still lists the history of the heads it has. */
  lemma OldIndexListsHistory(a: Store, b: Store, rank: Id -> nat, meta: Id -> Meta, idx: Index, head: Id,
                             listed: seq<Entry>)
    requires PartOf(a, b) && Falls(a, rank) && Falls(b, rank) && Mirrors(a, rank, meta, idx)
    requires head in idx && Listing(idx, head, listed)
    ensures forall x :: x in Elems(Ids(listed)) <==> Ancestor(b, x, head)
    ensures forall i, j | 0 <= i < j < |listed| :: !Ancestor(b, listed[i].id, listed[j].id)
  {
    MirrorsGrows(a, b, rank, meta, idx);
    IndexHistoryIsStoreHistory(b, rank, meta, idx, head, listed);
  }
}
