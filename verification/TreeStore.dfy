/** Writing a trie as tree objects, and reading stored trees back as a flat map of files. */
module TreeStore {

  import opened Objects
  import opened Paths
  import opened IndexTree

  type Files = map<Path, Id>

  // ----- the hash -----

  /** Different objects have different IDs. */
  ghost predicate Injective(h: Obj -> Id) {
    forall a, b | h(a) == h(b) :: a == b
  }

  ghost predicate Hashed(h: Obj -> Id, store: Store) {
    forall id | id in store :: h(store[id]) == id
  }

  method WriteObject(h: Obj -> Id, store: Store, o: Obj) returns (id: Id, after: Store)
    requires Injective(h) && Hashed(h, store)
    ensures id == h(o) && id in after && after[id] == o
    ensures Hashed(h, after) && PartOf(store, after) && after.Keys == store.Keys + {id}
  {
    id := h(o);
    after := store[id := o];
  }

  // ----- the files below a directory -----

  ghost function Tails(m: Files, p: Path): (t: set<Path>)
    ensures forall q | q in t :: p + q in m
  {
    assert forall r | r in m && p <= r :: p + r[|p|..] == r;
    set r | r in m && p <= r :: r[|p|..]
  }

  ghost function Below(m: Files, p: Path): Files {
    map q | q in Tails(m, p) :: m[p + q]
  }

  ghost function First(m: Files): set<string> {
    set q | q in m && q != [] :: q[0]
  }

  ghost predicate Within(m: Files, n: nat) {
    forall q | q in m :: |q| <= n
  }

  lemma BelowHas(m: Files, p: Path, q: Path)
    ensures q in Below(m, p) <==> p + q in m
    ensures q in Below(m, p) ==> Below(m, p)[q] == m[p + q]
  {
    if p + q in m {
      assert p <= p + q && (p + q)[|p|..] == q;
      assert q in Tails(m, p);
    }
  }

  lemma BelowTwice(m: Files, p: Path, k: string)
    ensures Below(Below(m, p), [k]) == Below(m, p + [k])
  {
    var a, b := Below(Below(m, p), [k]), Below(m, p + [k]);
    forall q ensures (q in a <==> q in b) && (q in a && q in b ==> a[q] == b[q]) {
      BelowTwiceHas(m, p, k, q);
    }
    assert a.Keys == b.Keys;
  }

  lemma BelowTwiceHas(m: Files, p: Path, k: string, q: Path)
    ensures q in Below(Below(m, p), [k]) <==> q in Below(m, p + [k])
    ensures q in Below(Below(m, p), [k]) ==> Below(Below(m, p), [k])[q] == Below(m, p + [k])[q]
  {
    var r, w := [k] + q, p + [k];
    Nested(p, [k], q, r, w);
    BelowHas(Below(m, p), [k], q);
    BelowHas(m, p, r);
    BelowHas(m, w, q);
  }

  lemma Nested(p: Path, k: Path, q: Path, r: Path, w: Path)
    requires r == k + q && w == p + k
    ensures p + r == w + q
  {
  }

  lemma FirstHas(m: Files, p: Path, k: string)
    ensures k in First(Below(m, p)) <==> exists q :: q in m && p + [k] <= q
  {
    var b := Below(m, p);
    if k in First(b) {
      var r :| r in b && r != [] && r[0] == k;
      BelowHas(m, p, r);
      assert p + [k] <= p + r;
    }
    if q :| q in m && p + [k] <= q {
      var r := q[|p|..];
      assert q == p + r && r[0] == k;
      BelowHas(m, p, r);
    }
  }

  /** A directory's children are the first names of the files below it. */
  lemma ChildrenAreNames(at: Places, kids: Kids, p: Path)
    requires Shaped(at, kids) && Full(at, []) && p in at
    ensures kids[p].Keys == First(Below(Leaves(at), p))
  {
    var m := Leaves(at);
    forall k ensures k in kids[p] <==> k in First(Below(m, p)) {
      ChildIsName(at, kids, p, k);
      FirstHas(m, p, k);
    }
  }

  lemma ChildIsName(at: Places, kids: Kids, p: Path, k: string)
    requires Shaped(at, kids) && Full(at, []) && p in at
    ensures k in kids[p] <==> exists q :: q in Leaves(at) && p + [k] <= q
  {
    if k in kids[p] {
      assert LeafBelow(at, p + [k]);
    }
    if q :| q in Leaves(at) && p + [k] <= q {
      AboveIsPlaced(at, kids, p + [k], q);
      PlacedInParent(at, kids, p, k);
    }
  }

  lemma FileBelow(at: Places, p: Path, k: string)
    requires p + [k] in at
    ensures [k] in Below(Leaves(at), p) <==> at[p + [k]].isBlob
    ensures at[p + [k]].isBlob ==> Below(Leaves(at), p)[[k]] == at[p + [k]].blob
  {
    BelowHas(Leaves(at), p, [k]);
  }

  // ----- the tree of a map of files -----

  ghost predicate Lists(s: seq<string>, names: set<string>) {
    Increasing(s) && Elems(s) == names
  }

  lemma {:induction false} LeastName(names: set<string>) returns (k: string)
    requires names != {}
    ensures k in names && forall j | j in names && j != k :: Less(k, j)
    decreases |names|
  {
    var a :| a in names;
    k := a;
    if names != {a} {
      var b := LeastName(names - {a});
      LessIsTotal(a, b);
      if Less(b, a) {
        k := b;
      } else {
        forall j | j in names && j != a ensures Less(a, j) {
          if j != b { LessIsTransitive(a, b, j); }
        }
      }
    }
  }

  lemma {:induction false} ListExists(names: set<string>)
    ensures exists s :: Lists(s, names)
    decreases |names|
  {
    if names == {} {
      assert Lists([], names);
    } else {
      var k := LeastName(names);
      ListExists(names - {k});
      var s :| Lists(s, names - {k});
      forall i | 0 <= i < |s| ensures Less(k, s[i]) {
        assert s[i] in Elems(s);
      }
      var t := [k] + s;
      assert forall i | 0 < i < |t| :: t[i] == s[i - 1];
      ElemsOf(k, s);
      assert {k} + (names - {k}) == names;
      assert Increasing(t);
      assert Lists(t, names);
    }
  }

  ghost function InOrder(names: set<string>): (s: seq<string>)
    ensures Lists(s, names)
  {
    ListExists(names);
    var s :| Lists(s, names);
    s
  }

  /** The entry of a tree for one of its names. */
  ghost function EntryFor(h: Obj -> Id, m: Files, k: string, n: nat): TreeEntry
    decreases n, 0
  {
    if [k] in m then TreeEntry(MODE_FILE, k, m[[k]])
    else if n == 0 then TreeEntry(MODE_SUBTREE, k, 0)
    else TreeEntry(MODE_SUBTREE, k, RootAt(h, Below(m, [k]), n - 1))
  }

  /** The ID of the tree holding these files, none deeper than n. */
  ghost function RootAt(h: Obj -> Id, m: Files, n: nat): Id
    decreases n, 1
  {
    var names := InOrder(First(m));
    h(Tree(seq(|names|, i requires 0 <= i < |names| => EntryFor(h, m, names[i], n))))
  }

  // ----- being stored -----

  ghost predicate ByName(es: seq<TreeEntry>) {
    forall i, j | 0 <= i < j < |es| :: Less(es[i].name, es[j].name)
  }

  ghost function NamesOf(es: seq<TreeEntry>): set<string> {
    set e | e in es :: e.name
  }

  ghost predicate StoredEntry(store: Store, e: TreeEntry, m: Files, n: nat)
    decreases n, 0
  {
    if [e.name] in m then e.mode == MODE_FILE && e.hash == m[[e.name]]
    else e.mode == MODE_SUBTREE && n > 0 && Stored(store, e.hash, Below(m, [e.name]), n - 1)
  }

  /** The files are stored under the ID, every directory as a tree object with its names in order. */
  ghost predicate Stored(store: Store, id: Id, m: Files, n: nat)
    decreases n, 1
  {
    && id in store && store[id].Tree?
    && ByName(store[id].entries) && NamesOf(store[id].entries) == First(m)
    && forall e | e in store[id].entries :: StoredEntry(store, e, m, n)
  }

  lemma {:induction false} StaysStored(before: Store, after: Store, id: Id, m: Files, n: nat)
    requires PartOf(before, after) && Stored(before, id, m, n)
    ensures Stored(after, id, m, n)
    decreases n, 1
  {
    forall e | e in before[id].entries ensures StoredEntry(after, e, m, n) {
      assert StoredEntry(before, e, m, n);
      EntryStaysStored(before, after, e, m, n);
    }
  }

  lemma {:induction false} EntryStaysStored(before: Store, after: Store, e: TreeEntry, m: Files, n: nat)
    requires PartOf(before, after) && StoredEntry(before, e, m, n)
    ensures StoredEntry(after, e, m, n)
    decreases n, 0
  {
    if [e.name] !in m {
      StaysStored(before, after, e.hash, Below(m, [e.name]), n - 1);
    }
  }

  // ----- sorting -----

  function InsertByName(e: TreeEntry, es: seq<TreeEntry>): seq<TreeEntry> {
    if es == [] || Less(e.name, es[0].name) then [e] + es else [es[0]] + InsertByName(e, es[1..])
  }

  function NewTree(entries: seq<TreeEntry>): seq<TreeEntry> {
    if entries == [] then [] else InsertByName(entries[|entries| - 1], NewTree(entries[..|entries| - 1]))
  }

  ghost predicate Distinct(es: seq<TreeEntry>) {
    forall i, j | 0 <= i < j < |es| :: es[i].name != es[j].name
  }

  lemma {:induction false} InsertedElems(e: TreeEntry, es: seq<TreeEntry>)
    ensures Elems(InsertByName(e, es)) == Elems(es) + {e}
  {
    if es != [] && !Less(e.name, es[0].name) {
      InsertedElems(e, es[1..]);
      ElemsOf(es[0], es[1..]);
      ElemsOf(es[0], InsertByName(e, es[1..]));
      assert es == [es[0]] + es[1..];
    } else {
      ElemsOf(e, es);
    }
  }

  lemma ElemsOf<T>(x: T, s: seq<T>)
    ensures Elems([x] + s) == {x} + Elems(s)
  {
  }

  lemma {:induction false} InsertedInOrder(e: TreeEntry, es: seq<TreeEntry>)
    requires ByName(es) && e.name !in NamesOf(es)
    ensures ByName(InsertByName(e, es))
  {
    var r := InsertByName(e, es);
    if es == [] {
    } else if Less(e.name, es[0].name) {
      forall j | 0 < j < |r| ensures Less(r[0].name, r[j].name) {
        if j > 1 { LessIsTransitive(e.name, es[0].name, es[j - 1].name); }
      }
    } else {
      var rest := InsertByName(e, es[1..]);
      InsertedInOrder(e, es[1..]);
      InsertedElems(e, es[1..]);
      assert es[0] in es;
      LessIsTotal(e.name, es[0].name);
      forall j | 0 <= j < |rest| ensures Less(es[0].name, rest[j].name) {
        assert rest[j] in Elems(rest);
        if rest[j] != e {
          var i :| 0 <= i < |es[1..]| && es[1..][i] == rest[j];
          assert es[i + 1] == rest[j];
        }
      }
    }
  }

  /** Sorting keeps the entries and puts their names in order. */
  lemma {:induction false} SortedByName(entries: seq<TreeEntry>)
    requires Distinct(entries)
    ensures ByName(NewTree(entries)) && Elems(NewTree(entries)) == Elems(entries)
  {
    if entries != [] {
      var n := |entries| - 1;
      var front, e := entries[..n], entries[n];
      SortedByName(front);
      InsertedElems(e, NewTree(front));
      forall f | f in NewTree(front) ensures f.name != e.name {
        assert f in Elems(NewTree(front)) && f in Elems(front);
        var i :| 0 <= i < n && front[i] == f;
        assert entries[i].name != entries[n].name;
      }
      InsertedInOrder(e, NewTree(front));
      assert entries == front + [e];
    }
  }

  // ----- writing -----

  /** The entries written for some of a directory's names, in whatever order the names came. */
  ghost predicate Entered(h: Obj -> Id, store: Store, es: seq<TreeEntry>, names: set<string>, m: Files, n: nat) {
    forall s | s == store :: EnteredIn(h, s, es, names, m, n)
  }

  ghost predicate EnteredIn(h: Obj -> Id, store: Store, es: seq<TreeEntry>, names: set<string>, m: Files, n: nat) {
    && Distinct(es) && NamesOf(es) == names
    && forall e | e in es :: e == EntryFor(h, m, e.name, n) && StoredEntry(store, e, m, n)
  }

  lemma EnterOne(h: Obj -> Id, before: Store, after: Store, es: seq<TreeEntry>, names: set<string>, m: Files, n: nat,
                 e: TreeEntry)
    requires Entered(h, before, es, names, m, n) && PartOf(before, after)
    requires e.name !in names && EntryDone(h, after, e, m, n)
    ensures Entered(h, after, es + [e], names + {e.name}, m, n)
  {
    assert EnteredIn(h, before, es, names, m, n) && EntryDoneAs(h, after, e, m, n);
    forall f | f in es ensures StoredEntry(after, f, m, n) {
      assert StoredEntry(before, f, m, n);
      EntryStaysStored(before, after, f, m, n);
    }
    forall i, j | 0 <= i < j < |es + [e]| ensures (es + [e])[i].name != (es + [e])[j].name {
      if j == |es| { assert es[i].name in NamesOf(es); }
    }
    forall k ensures k in NamesOf(es + [e]) <==> k in names + {e.name} {
      if k in NamesOf(es) {
        var f :| f in es && f.name == k;
        assert f in es + [e];
      }
      if k == e.name { assert e in es + [e]; }
    }
  }

  /** Sorted, the entries are the ones the ID of the directory is taken over, whatever order they came in. */
  lemma SortedEntries(h: Obj -> Id, store: Store, es: seq<TreeEntry>, m: Files, n: nat)
    requires Entered(h, store, es, First(m), m, n)
    ensures h(Tree(NewTree(es))) == RootAt(h, m, n)
    ensures ByName(NewTree(es)) && NamesOf(NewTree(es)) == First(m)
    ensures forall e | e in NewTree(es) :: StoredEntry(store, e, m, n)
  {
    var t, names := NewTree(es), InOrder(First(m));
    assert EnteredIn(h, store, es, First(m), m, n);
    SortedByName(es);
    forall e ensures e in t <==> e in es {
      assert e in Elems(t) <==> e in Elems(es);
    }
    assert NamesOf(t) == NamesOf(es);
    var ns := seq(|t|, i requires 0 <= i < |t| => t[i].name);
    assert Elems(ns) == First(m) by {
      forall k ensures k in Elems(ns) <==> k in NamesOf(t) {
        if k in NamesOf(t) {
          var e :| e in t && e.name == k;
          var i :| 0 <= i < |t| && t[i] == e;
          assert ns[i] == k;
        }
      }
    }
    IncreasingIsUnique(ns, names);
    SameEntries(h, t, m, n, names);
  }

  lemma SameEntries(h: Obj -> Id, t: seq<TreeEntry>, m: Files, n: nat, names: seq<string>)
    requires names == InOrder(First(m)) && |t| == |names|
    requires forall i | 0 <= i < |t| :: t[i].name == names[i]
    requires forall e | e in t :: e == EntryFor(h, m, e.name, n)
    ensures h(Tree(t)) == RootAt(h, m, n)
  {
    assert t == seq(|names|, i requires 0 <= i < |names| => EntryFor(h, m, names[i], n));
  }

  /** What is below a place has been written under the ID. */
  ghost predicate Done(h: Obj -> Id, store: Store, id: Id, m: Files, n: nat) {
    forall s | s == store :: DoneIn(h, s, id, m, n)
  }

  ghost predicate DoneIn(h: Obj -> Id, store: Store, id: Id, m: Files, n: nat) {
    id == RootAt(h, m, n) && Stored(store, id, m, n)
  }

  lemma EmptyEntered(h: Obj -> Id, store: Store, m: Files, n: nat)
    ensures Entered(h, store, [], {}, m, n)
  {
    assert EnteredIn(h, store, [], {}, m, n);
  }

  /** m holds the files below a place of a finished trie, none more than n names deeper. */
  ghost predicate FilesAt(at: Places, p: Path, m: Files, n: nat)
    reads at.Values
  {
    forall l | l == Leaves(at) :: FilesOf(at, l, p, m, n)
  }

  ghost predicate FilesOf(at: Places, l: Files, p: Path, m: Files, n: nat)
    reads at.Values
  {
    Trie(at, []) && p in at && m == Below(l, p) && Within(m, n)
  }

  /** Writes the subtree at a place; the files below it are no more than n names deeper. */
  method WriteNode(h: Obj -> Id, node: Node, store: Store, ghost at: Places, ghost p: Path, ghost m: Files,
                   ghost n: nat)
    returns (id: Id, after: Store)
    requires FilesAt(at, p, m, n) && p in at && at[p] == node
    requires Injective(h) && Hashed(h, store)
    ensures Hashed(h, after) && PartOf(store, after)
    ensures node.isBlob ==> id == node.blob
    ensures !node.isBlob ==> Done(h, after, id, m, n)
    decreases n, 1
  {
    if node.isBlob {
      return node.blob, store;
    }
    ghost var names := First(m);
    NamesToWrite(at, p, m, n);
    after := store;
    var entries: seq<TreeEntry> := [];
    var rest := node.children.Keys;
    EmptyEntered(h, after, m, n);
    assert names - rest == {};
    while rest != {}
      invariant rest <= names == node.children.Keys
      invariant Hashed(h, after) && PartOf(store, after)
      invariant Entered(h, after, entries, names - rest, m, n)
      decreases |rest|
    {
      var name :| name in rest;
      ghost var was := after;
      var e;
      e, after := WriteChild(h, name, node.children[name], after, at, p, m, n);
      EnterOne(h, was, after, entries, names - rest, m, n, e);
      entries := entries + [e];
      assert names - (rest - {name}) == names - rest + {name};
      rest := rest - {name};
    }
    assert names - rest == names;
    SortedEntries(h, after, entries, m, n);
    ghost var was := after;
    id, after := WriteObject(h, after, Tree(NewTree(entries)));
    StoredNow(h, was, after, id, entries, m, n);
  }

  lemma NamesToWrite(at: Places, p: Path, m: Files, n: nat)
    requires FilesAt(at, p, m, n) && p in at
    ensures at[p].children.Keys == First(m)
  {
    assert FilesOf(at, Leaves(at), p, m, n);
    assert Shaped(at, KidsOf(at)) && Full(at, []);
    ChildrenAreNames(at, KidsOf(at), p);
  }

  /** The entry is the one the directory needs, and what it names is stored. */
  ghost predicate EntryDone(h: Obj -> Id, store: Store, e: TreeEntry, m: Files, n: nat) {
    forall x | x == e :: EntryDoneAs(h, store, x, m, n)
  }

  ghost predicate EntryDoneAs(h: Obj -> Id, store: Store, e: TreeEntry, m: Files, n: nat) {
    e == EntryFor(h, m, e.name, n) && StoredEntry(store, e, m, n)
  }

  lemma FileEntry(h: Obj -> Id, store: Store, m: Files, n: nat, k: string)
    requires [k] in m
    ensures EntryDone(h, store, TreeEntry(MODE_FILE, k, m[[k]]), m, n)
  {
    assert EntryDoneAs(h, store, TreeEntry(MODE_FILE, k, m[[k]]), m, n);
  }

  lemma DirEntry(h: Obj -> Id, store: Store, m: Files, n: nat, k: string, id: Id)
    requires [k] !in m && n > 0 && Done(h, store, id, Below(m, [k]), n - 1)
    ensures EntryDone(h, store, TreeEntry(MODE_SUBTREE, k, id), m, n)
  {
    assert DoneIn(h, store, id, Below(m, [k]), n - 1);
    assert EntryDoneAs(h, store, TreeEntry(MODE_SUBTREE, k, id), m, n);
  }

  /** Writes one child and makes its entry. */
  method WriteChild(h: Obj -> Id, name: string, child: Node, store: Store, ghost at: Places, ghost p: Path,
                    ghost m: Files, ghost n: nat)
    returns (e: TreeEntry, after: Store)
    requires FilesAt(at, p, m, n) && p in at && name in at[p].children && at[p].children[name] == child
    requires Injective(h) && Hashed(h, store)
    ensures Hashed(h, after) && PartOf(store, after)
    ensures e.name == name && EntryDone(h, after, e, m, n)
    decreases n, 0
  {
    PrepareChild(at, p, m, name, n);
    var hash;
    hash, after := WriteNode(h, child, store, at, p + [name], Below(m, [name]), n - 1);
    if child.isBlob {
      FileEntry(h, after, m, n, name);
    } else {
      DirEntry(h, after, m, n, name, hash);
    }
    e := TreeEntry(if child.isBlob then child.mode else MODE_SUBTREE, name, hash);
  }

  lemma StoredNow(h: Obj -> Id, before: Store, after: Store, id: Id, es: seq<TreeEntry>, m: Files, n: nat)
    requires PartOf(before, after) && id in after && after[id] == Tree(NewTree(es))
    requires ByName(NewTree(es)) && NamesOf(NewTree(es)) == First(m)
    requires forall e | e in NewTree(es) :: StoredEntry(before, e, m, n)
    requires id == RootAt(h, m, n)
    ensures Done(h, after, id, m, n)
  {
    forall e | e in NewTree(es) ensures StoredEntry(after, e, m, n) {
      EntryStaysStored(before, after, e, m, n);
    }
    assert DoneIn(h, after, id, m, n);
  }

  /** What a child needs to be written in turn. */
  lemma PrepareChild(at: Places, p: Path, m: Files, k: string, n: nat)
    requires FilesAt(at, p, m, n) && p in at && k in at[p].children
    ensures n > 0 && p + [k] in at && at[p + [k]] == at[p].children[k]
    ensures FilesAt(at, p + [k], Below(m, [k]), n - 1)
    ensures at[p + [k]].isBlob ==> at[p + [k]].mode == MODE_FILE
    ensures [k] in m <==> at[p + [k]].isBlob
    ensures at[p + [k]].isBlob ==> m[[k]] == at[p + [k]].blob
  {
    var kids := KidsOf(at);
    assert FilesOf(at, Leaves(at), p, m, n);
    assert Shaped(at, kids) && Full(at, []);
    assert k in kids[p];
    FileBelow(at, p, k);
    BelowTwice(Leaves(at), p, k);
    assert LeafBelow(at, p + [k]);
    Shallower(Leaves(at), p, k, n);
    assert FilesOf(at, Leaves(at), p + [k], Below(m, [k]), n - 1);
  }

  lemma Shallower(m: Files, p: Path, k: string, n: nat)
    requires Within(Below(m, p), n) && exists f :: f in m && p + [k] <= f
    ensures n > 0 && Within(Below(m, p + [k]), n - 1)
  {
    var f :| f in m && p + [k] <= f;
    assert f == p + f[|p|..];
    BelowHas(m, p, f[|p|..]);
    forall q | q in Below(m, p + [k]) ensures |q| <= n - 1 {
      BelowHas(m, p + [k], q);
      assert p + [k] + q == p + ([k] + q);
      BelowHas(m, p, [k] + q);
    }
  }

  // ----- the whole build -----

  lemma {:induction false} BoundExists(m: Files)
    ensures exists n: nat :: Within(m, n)
    decreases |m|
  {
    if m == map[] {
      assert Within(m, 0);
    } else {
      var q :| q in m;
      var rest := m - {q};
      assert rest.Keys == m.Keys - {q};
      BoundExists(rest);
      var n: nat :| Within(rest, n);
      var b := if |q| > n then |q| else n;
      forall r | r in m ensures |r| <= b {
        if r != q { assert r in rest; }
      }
      assert Within(m, b);
    }
  }

  ghost function Bound(m: Files): (n: nat)
    ensures Within(m, n)
  {
    BoundExists(m);
    var n: nat :| Within(m, n);
    n
  }

  /** The root ID of a map of files: it depends on nothing else. */
  ghost function RootId(h: Obj -> Id, m: Files): Id {
    RootAt(h, m, Bound(m))
  }

  method BuildTree(h: Obj -> Id, entries: seq<Entry>, store: Store) returns (ok: bool, id: Id, after: Store)
    requires Injective(h) && Hashed(h, store)
    ensures ok <==> !Blocked(entries)
    ensures Hashed(h, after) && PartOf(store, after)
    ensures ok ==> id == RootId(h, Written(entries)) && Stored(after, id, Written(entries), Bound(Written(entries)))
  {
    var root;
    ghost var at;
    ok, root, at := BuildFromIndex(entries);
    id, after := 0, store;
    if ok {
      ghost var m := Written(entries);
      assert Below(m, []) == m by {
        forall q ensures q in Below(m, []) <==> q in m {
          BelowHas(m, [], q);
          assert [] + q == q;
        }
        forall q | q in m ensures Below(m, [])[q] == m[q] {
          BelowHas(m, [], q);
          assert [] + q == q;
        }
      }
      assert FilesOf(at, Leaves(at), [], m, Bound(m));
      id, after := WriteNode(h, root, store, at, [], m, Bound(m));
      assert DoneIn(h, after, id, m, Bound(m));
    }
  }
}
