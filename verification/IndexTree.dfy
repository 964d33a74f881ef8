/** From the flat index to a trie of directories and files. */
module IndexTree {

  import opened Objects
  import opened Paths

  datatype State = Unmodified | Added | Modified | Deleted

  datatype Entry = Entry(state: State, path: string, blob: Id)

  /** The mode given to every file (octal 100644). */
  const MODE_FILE := 0x81A4

  class Node {
    const isBlob: bool
    const blob: Id
    const mode: nat
    var children: map<string, Node>

    constructor File(id: Id)
      ensures isBlob && blob == id && mode == MODE_FILE && children == map[]
    {
      isBlob, blob, mode, children := true, id, MODE_FILE, map[];
    }

    constructor Dir()
      ensures !isBlob && children == map[]
    {
      isBlob, blob, mode, children := false, 0, 0, map[];
    }
  }

  // ----- where every node of a trie sits -----

  /** The nodes of a trie by the path that leads to them, and the children each has. */
  type Places = map<Path, Node>
  type Kids = map<Path, map<string, Node>>

  ghost function KidsOf(at: Places): Kids
    reads at.Values
  {
    map p | p in at :: at[p].children
  }

  /** Every place but the root hangs in the place above it. */
  ghost predicate Hangs(kids: Kids, p: Path) {
    p != [] ==> p[..|p| - 1] in kids && p[|p| - 1] in kids[p[..|p| - 1]]
  }

  /** The places are exactly what can be reached from the root, no node is in two places, files have nothing below. */
  ghost predicate Shaped(at: Places, kids: Kids) {
    && [] in at && kids.Keys == at.Keys
    && (forall p, q | p in at && q in at && at[p] == at[q] :: p == q)
    && (forall p, k | p in kids && k in kids[p] :: p + [k] in at && at[p + [k]] == kids[p][k])
    && (forall p {:trigger Hangs(kids, p)} | p in at :: Hangs(kids, p))
    && (forall p | p in at && at[p].isBlob :: kids[p] == map[] && at[p].mode == MODE_FILE)
  }

  ghost predicate Shape(at: Places)
    reads at.Values
  {
    forall kids | kids == KidsOf(at) :: Shaped(at, kids)
  }

  ghost function Leaves(at: Places): map<Path, Id> {
    map p | p in at && at[p].isBlob :: at[p].blob
  }

  /** No directory but the root, and those on the way to the given path, is without a file somewhere below. */
  ghost predicate Full(at: Places, way: Path) {
    forall p | p in at && p != [] && !(p < way) :: LeafBelow(at, p)
  }

  ghost predicate LeafBelow(at: Places, p: Path) {
    exists q :: q in Leaves(at) && p <= q
  }

  /** A file written at a path replaces whatever was at it or below it. */
  ghost function Put(m: map<Path, Id>, p: Path, id: Id): map<Path, Id> {
    (map q | q in m && !(p <= q) :: m[q])[p := id]
  }

  // ----- hanging one node -----

  ghost function PlaceAt(at: Places, way: Path, node: Node): Places {
    (map q | q in at && !(way <= q) :: at[q])[way := node]
  }

  ghost function KidsAt(kids: Kids, p: Path, k: string, node: Node): Kids
    requires p in kids
  {
    (map q | q in kids && !(p + [k] <= q) :: if q == p then kids[p][k := node] else kids[q])[p + [k] := map[]]
  }

  lemma Extends(p: Path, k: string, q: Path)
    ensures p + [k] <= q <==> p < q && q[|p|] == k
  {
  }

  lemma PlaceIsShaped(at: Places, kids: Kids, p: Path, k: string, node: Node)
    requires Shaped(at, kids) && p in at && !at[p].isBlob && node !in at.Values
    requires node.isBlob ==> node.mode == MODE_FILE
    ensures Shaped(PlaceAt(at, p + [k], node), KidsAt(kids, p, k, node))
  {
    var at', kids' := PlaceAt(at, p + [k], node), KidsAt(kids, p, k, node);
    forall q ensures q in at' ==> Hangs(kids', q) {
      if q in at' { PlaceHangs(at, kids, p, k, node, q); }
    }
    forall q, j | q in kids' && j in kids'[q] ensures q + [j] in at' && at'[q + [j]] == kids'[q][j] {
      PlaceLeads(at, kids, p, k, node, q, j);
    }
    PlaceIsDistinct(at, kids, p + [k], node);
    PlaceHasFiles(at, kids, p, k, node);
  }

  lemma PlaceIsDistinct(at: Places, kids: Kids, way: Path, node: Node)
    requires Shaped(at, kids) && node !in at.Values && way != []
    ensures var at' := PlaceAt(at, way, node);
            [] in at' && forall q, r | q in at' && r in at' && at'[q] == at'[r] :: q == r
  {
    assert forall q | q in at :: at[q] in at.Values;
  }

  lemma PlaceHasFiles(at: Places, kids: Kids, p: Path, k: string, node: Node)
    requires Shaped(at, kids) && p in at && !at[p].isBlob && (node.isBlob ==> node.mode == MODE_FILE)
    ensures var at', kids' := PlaceAt(at, p + [k], node), KidsAt(kids, p, k, node);
            && kids'.Keys == at'.Keys
            && forall q | q in at' && at'[q].isBlob :: kids'[q] == map[] && at'[q].mode == MODE_FILE
  {
  }

  lemma PlaceHangs(at: Places, kids: Kids, p: Path, k: string, node: Node, q: Path)
    requires Shaped(at, kids) && p in at && q in PlaceAt(at, p + [k], node)
    ensures Hangs(KidsAt(kids, p, k, node), q)
  {
    if q == p + [k] {
      assert q[..|q| - 1] == p;
    } else if q != [] {
      assert Hangs(kids, q);
      assert !(p + [k] <= q[..|q| - 1]);
    }
  }

  lemma PlaceLeads(at: Places, kids: Kids, p: Path, k: string, node: Node, q: Path, j: string)
    requires Shaped(at, kids) && p in at
    requires q in KidsAt(kids, p, k, node) && j in KidsAt(kids, p, k, node)[q]
    ensures q + [j] in PlaceAt(at, p + [k], node)
      && PlaceAt(at, p + [k], node)[q + [j]] == KidsAt(kids, p, k, node)[q][j]
  {
    Extends(p, k, q + [j]);
    assert (q + [j])[..|q|] == q && (q + [j])[|q|] == j;
    if q + [j] == p + [k] {
      assert q == p && j == k by { assert (p + [k])[..|p|] == p; }
    } else {
      assert q != p || j != k;
    }
  }

  /** Whatever has a place, the places above it have one too. */
  lemma {:induction false} AboveIsPlaced(at: Places, kids: Kids, p: Path, q: Path)
    requires Shaped(at, kids) && q in at && p <= q
    ensures p in at
    decreases |q|
  {
    if p != q {
      assert Hangs(kids, q);
      AboveIsPlaced(at, kids, p, q[..|q| - 1]);
    }
  }

  lemma PlaceFile(at: Places, way: Path, node: Node)
    requires node.isBlob && way != [] && Full(at, way)
    ensures Leaves(PlaceAt(at, way, node)) == Put(Leaves(at), way, node.blob)
    ensures Full(PlaceAt(at, way, node), [])
  {
    var at' := PlaceAt(at, way, node);
    assert Leaves(at') == Put(Leaves(at), way, node.blob);
    forall q | q in at' && q != [] ensures LeafBelow(at', q) {
      if q <= way {
        assert way in Leaves(at');
      } else {
        StillFull(at, way, node, q);
      }
    }
  }

  lemma StillFull(at: Places, way: Path, node: Node, q: Path)
    requires node.isBlob && q in at && LeafBelow(at, q) && !(q <= way) && !(way <= q)
    ensures LeafBelow(PlaceAt(at, way, node), q)
  {
    var f :| f in Leaves(at) && q <= f;
    Comparable(q, way, f);
    assert f in Leaves(PlaceAt(at, way, node));
  }

  lemma Comparable(p: Path, q: Path, f: Path)
    ensures p <= f && q <= f ==> p <= q || q <= p
  {
    if p <= f && q <= f {
      assert p == f[..|p|] && q == f[..|q|];
    }
  }

  lemma PlacedInParent(at: Places, kids: Kids, p: Path, k: string)
    requires Shaped(at, kids)
    ensures p + [k] in at ==> p in at && k in kids[p]
  {
    if p + [k] in at {
      assert Hangs(kids, p + [k]);
      assert (p + [k])[..|p|] == p;
    }
  }

  lemma NothingBelow(at: Places, kids: Kids, way: Path, q: Path)
    requires Shaped(at, kids) && way !in at && q in at
    ensures !(way <= q)
  {
    if way <= q { AboveIsPlaced(at, kids, way, q); }
  }

  lemma DirHasNoLeaves(at: Places, way: Path, node: Node)
    requires way !in at && !node.isBlob && forall q | q in at :: !(way <= q)
    ensures Leaves(PlaceAt(at, way, node)) == Leaves(at)
  {
  }

  lemma PlaceDir(at: Places, kids: Kids, way: Path, node: Node, full: Path)
    requires Shaped(at, kids) && way !in at && !node.isBlob && way < full && Full(at, full)
    ensures Leaves(PlaceAt(at, way, node)) == Leaves(at)
    ensures Full(PlaceAt(at, way, node), full)
  {
    forall q | q in at ensures !(way <= q) {
      NothingBelow(at, kids, way, q);
    }
    DirHasNoLeaves(at, way, node);
    FullStays(at, PlaceAt(at, way, node), full);
  }

  lemma FullStays(at: Places, at': Places, full: Path)
    requires Full(at, full) && Leaves(at') == Leaves(at) && forall q | q in at' :: q in at || q < full
    ensures Full(at', full)
  {
    forall q | q in at' && q != [] && !(q < full) ensures LeafBelow(at', q) {
      assert LeafBelow(at, q);
    }
  }

  lemma OnlyPlace(at: Places, kids: Kids, p: Path)
    requires Shaped(at, kids) && p in at
    ensures forall q | q in at && q != p :: at[q] != at[p]
  {
  }

  /** Once the new node is written into its directory, the trie's nodes have the children they should have. */
  lemma PlacedKids(at0: Places, kids0: Kids, p: Path, k: string, node: Node, at: Places)
    requires kids0.Keys == at0.Keys && p in at0 && at == PlaceAt(at0, p + [k], node)
    requires node.children == map[] && at0[p].children == kids0[p][k := node]
    requires forall q | q in at0 && q != p :: at0[q].children == kids0[q]
    ensures KidsOf(at) == KidsAt(kids0, p, k, node)
  {
    var kids := KidsAt(kids0, p, k, node);
    assert p + [k] != p;
    assert kids.Keys == at.Keys;
    forall q | q in at ensures at[q].children == kids[q] {
      if q == p + [k] { assert at[q] == node; } else { assert at[q] == at0[q]; }
    }
  }

  /** Hangs a new node under a directory. */
  method Hang(parent: Node, k: string, child: Node, ghost at0: Places, ghost p: Path) returns (ghost at: Places)
    requires Shape(at0) && p in at0 && at0[p] == parent && !parent.isBlob
    requires child !in at0.Values && child.children == map[] && (child.isBlob ==> child.mode == MODE_FILE)
    modifies parent
    ensures at == PlaceAt(at0, p + [k], child) && Shape(at)
    ensures parent.children == old(parent.children)[k := child]
  {
    ghost var kids0 := KidsOf(at0);
    OnlyPlace(at0, kids0, p);
    PlaceIsShaped(at0, kids0, p, k, child);
    parent.children := parent.children[k := child];
    at := PlaceAt(at0, p + [k], child);
    PlacedKids(at0, kids0, p, k, child, at);
  }

  /** A trie, but for directories on the way that may still be empty. */
  ghost predicate Trie(at: Places, way: Path)
    reads at.Values
  {
    forall kids | kids == KidsOf(at) :: Shaped(at, kids) && Full(at, way)
  }

  /** The directory of that name, made where there is none; false under a file. */
  method Enter(current: Node, part: string, ghost at0: Places, ghost p: Path, ghost way: Path)
    returns (ok: bool, child: Node, ghost at: Places)
    requires Trie(at0, way) && p in at0 && at0[p] == current && p + [part] < way
    modifies current
    ensures ok <==> !current.isBlob
    ensures ok ==> Trie(at, way) && p + [part] in at && at[p + [part]] == child
    ensures ok
      ==> Leaves(at) == Leaves(at0) && fresh(at.Values - at0.Values) && [] in at && [] in at0 && at[[]] == at0[[]]
    ensures !ok ==> at == at0
  {
    ok, child, at := true, current, at0;
    assert Shaped(at, KidsOf(at));
    if part !in current.children {
      if current.isBlob {
        return false, current, at;
      }
      child := new Node.Dir();
      PlacedInParent(at, KidsOf(at), p, part);
      PlaceDir(at, KidsOf(at), p + [part], child, way);
      ghost var was := at;
      at := Hang(current, part, child, at, p);
      RootStays(was, p + [part], child);
    } else {
      child := current.children[part];
      assert part in KidsOf(at)[p];
    }
  }

  lemma RootStays(at: Places, way: Path, node: Node)
    requires [] in at && way != []
    ensures [] in PlaceAt(at, way, node) && PlaceAt(at, way, node)[[]] == at[[]]
  {
  }

  /** No file stands on the way to p. */
  ghost predicate WayIsFree(m: map<Path, Id>, p: Path) {
    forall i | 0 <= i < |p| :: p[..i] !in m
  }

  lemma FreeOneMore(m: map<Path, Id>, p: Path, k: string)
    requires WayIsFree(m, p) && p !in m
    ensures WayIsFree(m, p + [k])
  {
    forall i | 0 <= i < |p + [k]| ensures (p + [k])[..i] !in m {
      assert (p + [k])[..i] == p[..i];
      if i == |p| { assert p[..i] == p; }
    }
  }

  /** The directory the last name of a path goes into, made where missing; false under a file. */
  method Descend(root: Node, parts: Path, ghost at0: Places) returns (ok: bool, current: Node, ghost at: Places)
    requires Trie(at0, parts) && [] in at0 && at0[[]] == root && parts != []
    modifies at0.Values
    ensures ok ==> WayIsFree(Leaves(at0), parts[..|parts| - 1])
    ensures !ok ==> !WayIsFree(Leaves(at0), parts)
    ensures ok ==> Trie(at, parts) && [] in at && at[[]] == root && fresh(at.Values - at0.Values)
    ensures ok ==> Leaves(at) == Leaves(at0) && parts[..|parts| - 1] in at && at[parts[..|parts| - 1]] == current
  {
    ok, current, at := true, root, at0;
    var i := 0;
    while i < |parts| - 1
      invariant 0 <= i < |parts|
      invariant ok && Trie(at, parts) && [] in at && at[[]] == root && fresh(at.Values - at0.Values)
      invariant Leaves(at) == Leaves(at0)
      invariant parts[..i] in at && at[parts[..i]] == current
      invariant WayIsFree(Leaves(at0), parts[..i])
    {
      assert parts[..i + 1] == parts[..i] + [parts[i]];
      assert current.isBlob <==> parts[..i] in Leaves(at0);
      if parts[..i] !in Leaves(at0) { FreeOneMore(Leaves(at0), parts[..i], parts[i]); }
      assert current in at.Values;
      ok, current, at := Enter(current, parts[i], at, parts[..i], parts);
      if !ok {
        return;
      }
      i := i + 1;
    }
  }

  /** The file written by one index entry, or false where a name on the way is a file already. */
  method Insert(root: Node, parts: Path, id: Id, ghost at0: Places) returns (ok: bool, ghost at: Places)
    requires Trie(at0, []) && [] in at0 && at0[[]] == root && parts != []
    modifies at0.Values
    ensures ok <==> WayIsFree(Leaves(at0), parts)
    ensures ok ==> Trie(at, []) && [] in at && at[[]] == root && fresh(at.Values - at0.Values)
    ensures ok ==> Leaves(at) == Put(Leaves(at0), parts, id)
  {
    assert Trie(at0, parts) by { assert Shaped(at0, KidsOf(at0)) && Full(at0, parts); }
    var current;
    ok, current, at := Descend(root, parts, at0);
    if !ok {
      return;
    }
    ghost var up := parts[..|parts| - 1];
    assert current.isBlob <==> up in Leaves(at0);
    if current.isBlob {
      return false, at;
    }
    assert parts == up + [parts[|parts| - 1]];
    FreeOneMore(Leaves(at0), up, parts[|parts| - 1]);
    assert current in at.Values && Shaped(at, KidsOf(at));
    var file := new Node.File(id);
    PlaceFile(at, parts, file);
    RootStays(at, parts, file);
    at := Hang(current, parts[|parts| - 1], file, at, up);
  }

  // ----- the whole index -----

  predicate IsLive(e: Entry) {
    !e.state.Deleted?
  }

  /** What the live entries say, the last one for a path winning. */
  ghost function Live(entries: seq<Entry>): map<string, Id> {
    if entries == [] then map[]
    else
      var m, e := Live(entries[..|entries| - 1]), entries[|entries| - 1];
      if IsLive(e) then m[e.path := e.blob] else m
  }

  /** Entry i is the last one not deleted with its path. */
  ghost predicate LastLive(entries: seq<Entry>, i: nat, s: string) {
    && i < |entries| && entries[i].path == s && !entries[i].state.Deleted?
    && forall j | i < j < |entries| :: entries[j].path == s ==> entries[j].state.Deleted?
  }

  /** A path is live with a blob exactly if the last entry for it that is not deleted has that blob. */
  lemma {:induction false} LiveExactly(entries: seq<Entry>, s: string, blob: Id)
    ensures s in Live(entries) && Live(entries)[s] == blob
      <==> exists i: nat :: LastLive(entries, i, s) && entries[i].blob == blob
    decreases |entries|
  {
    if entries != [] {
      var n := |entries| - 1;
      var front, e := entries[..n], entries[n];
      LiveExactly(front, s, blob);
      assert forall i | 0 <= i < n :: front[i] == entries[i];
      if e.path == s && !e.state.Deleted? {
        assert LastLive(entries, n, s);
      } else {
        forall i: nat | i < n ensures LastLive(front, i, s) <==> LastLive(entries, i, s) {
          assert forall j | i < j < n :: front[j] == entries[j];
        }
        assert !LastLive(entries, n, s);
      }
    }
  }

  /** The files in the trie after these entries. */
  ghost function Written(entries: seq<Entry>): map<Path, Id> {
    if entries == [] then map[]
    else
      var m, e := Written(entries[..|entries| - 1]), entries[|entries| - 1];
      if IsLive(e) then Put(m, Split(e.path), e.blob) else m
  }

  /** Two live entries, the first naming a file where the second needs a directory. */
  ghost predicate Clash(entries: seq<Entry>, i: int, j: int) {
    0 <= i < |entries| && 0 <= j < |entries| && IsLive(entries[i]) && IsLive(entries[j])
    && Split(entries[i].path) < Split(entries[j].path)
  }

  /** The clash is met in the order that cannot be built. */
  ghost predicate Blocked(entries: seq<Entry>) {
    exists i, j :: i < j && Clash(entries, i, j)
  }

  ghost predicate PrefixFree(entries: seq<Entry>) {
    forall i, j :: !Clash(entries, i, j)
  }

  ghost predicate Names(entries: seq<Entry>, q: Path) {
    exists i :: 0 <= i < |entries| && IsLive(entries[i]) && Split(entries[i].path) == q
  }

  ghost predicate Covered(m: map<Path, Id>, p: Path) {
    exists q :: q in m && q <= p
  }

  /** The trie holds paths of live entries only. */
  lemma {:induction false} WrittenNames(entries: seq<Entry>, q: Path)
    requires q in Written(entries)
    ensures Names(entries, q)
    decreases |entries|
  {
    var n := |entries| - 1;
    var front, e := entries[..n], entries[n];
    if q in Written(front) {
      WrittenNames(front, q);
      var i :| 0 <= i < n && IsLive(front[i]) && Split(front[i].path) == q;
      assert entries[i] == front[i];
    } else {
      assert IsLive(e) && Split(entries[n].path) == q;
    }
  }

  /** Of every live path the trie holds at least something on the way to it. */
  lemma {:induction false} NamesCovered(entries: seq<Entry>, q: Path)
    requires Names(entries, q)
    ensures Covered(Written(entries), q)
    decreases |entries|
  {
    var n := |entries| - 1;
    var front, e := entries[..n], entries[n];
    var i :| 0 <= i < |entries| && IsLive(entries[i]) && Split(entries[i].path) == q;
    if i == n {
      assert q in Written(entries);
    } else {
      assert front[i] == entries[i];
      NamesCovered(front, q);
      if IsLive(e) { StillCovered(Written(front), Split(e.path), e.blob, q); }
    }
  }

  lemma StillCovered(m: map<Path, Id>, p: Path, id: Id, q: Path)
    requires Covered(m, q)
    ensures Covered(Put(m, p, id), q)
  {
    var r :| r in m && r <= q;
    if p <= r {
      assert p <= q by { assert p == r[..|p|] && r == q[..|r|]; }
      assert p in Put(m, p, id);
    } else {
      assert r in Put(m, p, id);
    }
  }

  lemma ClashInPart(entries: seq<Entry>, n: nat, i: int, j: int)
    requires n <= |entries|
    ensures i < n && j < n ==> Clash(entries[..n], i, j) == Clash(entries, i, j)
  {
  }

  lemma NamedIsClash(entries: seq<Entry>, n: nat, q: Path)
    requires n < |entries| && IsLive(entries[n]) && Names(entries[..n], q) && q < Split(entries[n].path)
    ensures exists i :: i < n && Clash(entries, i, n)
  {
    var front := entries[..n];
    var j :| 0 <= j < n && IsLive(front[j]) && Split(front[j].path) == q;
    assert Clash(entries, j, n);
  }

  /** The next entry is refused only when it completes a clash, */
  lemma FreeUnlessClash(entries: seq<Entry>, n: nat)
    requires n < |entries| && IsLive(entries[n]) && forall i :: i < n ==> !Clash(entries, i, n)
    ensures WayIsFree(Written(entries[..n]), Split(entries[n].path))
  {
    var front, p := entries[..n], Split(entries[n].path);
    forall k | 0 <= k < |p| ensures p[..k] !in Written(front) {
      if p[..k] in Written(front) {
        WrittenNames(front, p[..k]);
        NamedIsClash(entries, n, p[..k]);
      }
    }
  }

  /** and every time it does. */
  lemma ClashIsRefused(entries: seq<Entry>, i: nat, n: nat)
    requires i < n < |entries| && Clash(entries, i, n)
    ensures !WayIsFree(Written(entries[..n]), Split(entries[n].path))
  {
    var front, p, q := entries[..n], Split(entries[n].path), Split(entries[i].path);
    assert IsLive(front[i]) && Split(front[i].path) == q;
    assert Names(front, q);
    NamesCovered(front, q);
    var r :| r in Written(front) && r <= q;
    ShorterIsOnTheWay(r, q, p);
  }

  lemma ShorterIsOnTheWay(r: Path, q: Path, p: Path)
    requires r <= q < p
    ensures |r| < |p| && p[..|r|] == r
  {
    assert r == q[..|r|] && q == p[..|q|];
  }

  /** The trie for the index; false where an entry would be written into a file's missing child map, which panics. */
  method BuildFromIndex(entries: seq<Entry>) returns (ok: bool, root: Node, ghost at: Places)
    ensures ok <==> !Blocked(entries)
    ensures !root.isBlob
    ensures ok ==> Trie(at, []) && [] in at && at[[]] == root && fresh(at.Values)
    ensures ok ==> Leaves(at) == Written(entries)
  {
    root := new Node.Dir();
    at := map[[] := root];
    ok := true;
    assert Trie(at, []) by { assert Hangs(KidsOf(at), []); assert Shaped(at, KidsOf(at)); }
    var n := 0;
    while n < |entries|
      invariant 0 <= n <= |entries| && ok
      invariant Trie(at, []) && [] in at && at[[]] == root && fresh(at.Values)
      invariant Leaves(at) == Written(entries[..n])
      invariant forall i, j :: i < j < n ==> !Clash(entries, i, j)
    {
      var e := entries[n];
      assert entries[..n + 1][..n] == entries[..n];
      if IsLive(e) {
        if i :| i < n && Clash(entries, i, n) {
          ClashIsRefused(entries, i, n);
        } else {
          FreeUnlessClash(entries, n);
        }
        ok, at := Insert(root, Split(e.path), e.blob, at);
        if !ok {
          return;
        }
      }
      n := n + 1;
    }
    assert entries[..n] == entries;
  }

  // ----- what the trie keeps of the index -----

  /** A path is live exactly when it is a file of the trie, and then with the blob of its last entry. */
  ghost predicate KeepsOne(entries: seq<Entry>, s: string) {
    var l, w := Live(entries), Written(entries);
    (s in l <==> Split(s) in w) && (s in l && Split(s) in w ==> l[s] == w[Split(s)])
  }

  ghost predicate KeepsAll(entries: seq<Entry>) {
    forall s :: KeepsOne(entries, s)
  }

  lemma {:induction false} PrefixFreeKeeps(entries: seq<Entry>)
    requires PrefixFree(entries)
    ensures KeepsAll(entries)
  {
    if entries != [] {
      var n := |entries| - 1;
      var front, e := entries[..n], entries[n];
      forall i, j ensures !Clash(front, i, j) {
        if i < n && j < n { ClashInPart(entries, n, i, j); }
      }
      PrefixFreeKeeps(front);
      forall s ensures KeepsOne(entries, s) {
        assert KeepsOne(front, s);
        if IsLive(e) { KeepsNext(entries, s); }
      }
    }
  }

  lemma NoneBelowLast(entries: seq<Entry>, q: Path)
    requires entries != [] && PrefixFree(entries) && IsLive(entries[|entries| - 1])
    requires Names(entries[..|entries| - 1], q)
    ensures !(Split(entries[|entries| - 1].path) < q)
  {
    var n := |entries| - 1;
    var front := entries[..n];
    var i :| 0 <= i < n && IsLive(front[i]) && Split(front[i].path) == q;
    assert entries[i] == front[i] && !Clash(entries, n, i);
  }

  lemma KeepsNext(entries: seq<Entry>, s: string)
    requires entries != [] && PrefixFree(entries)
    requires KeepsOne(entries[..|entries| - 1], s)
    requires IsLive(entries[|entries| - 1])
    ensures KeepsOne(entries, s)
  {
    var n := |entries| - 1;
    var front, e := entries[..n], entries[n];
    var q := Split(s);
    if Split(e.path) == q {
      SplitIsInjective(s, e.path);
    } else if q in Written(front) {
      WrittenNames(front, q);
      NoneBelowLast(entries, q);
    }
  }

  lemma {:induction false} LiveNames(entries: seq<Entry>, i: nat)
    requires i < |entries| && IsLive(entries[i])
    ensures entries[i].path in Live(entries)
  {
    var n := |entries| - 1;
    if i < n {
      assert entries[..n][i] == entries[i];
      LiveNames(entries[..n], i);
    }
  }

  /** A trie never holds a file below a file. */
  lemma {:induction false} FilesHaveNothingBelow(entries: seq<Entry>, p: Path, q: Path)
    requires !Blocked(entries) && p in Written(entries) && q in Written(entries)
    ensures !(p < q)
  {
    var n := |entries| - 1;
    var front, e := entries[..n], entries[n];
    forall i, j | i < j ensures !Clash(front, i, j) {
      if j < n { ClashInPart(entries, n, i, j); }
    }
    if p in Written(front) && q in Written(front) {
      FilesHaveNothingBelow(front, p, q);
    } else if p in Written(front) {
      WrittenNames(front, p);
      var i :| 0 <= i < n && IsLive(front[i]) && Split(front[i].path) == p;
      assert entries[i] == front[i];
      assert !Clash(entries, i, n);
    }
  }

  /** The index can be built without losing a live path exactly when no live path is a directory of another. */
  lemma KeepsAllIffPrefixFree(entries: seq<Entry>)
    ensures !Blocked(entries) && KeepsAll(entries) <==> PrefixFree(entries)
  {
    if PrefixFree(entries) {
      PrefixFreeKeeps(entries);
    } else if !Blocked(entries) && KeepsAll(entries) {
      var i, j :| Clash(entries, i, j);
      LiveNames(entries, i);
      LiveNames(entries, j);
      var p, q := entries[i].path, entries[j].path;
      assert KeepsOne(entries, p) && KeepsOne(entries, q);
      FilesHaveNothingBelow(entries, Split(p), Split(q));
    }
  }

  /** With "a" live before "a/b" the trie cannot be built; in the other order it is built without "a/b". */
  lemma ClashExamples(x: Id, y: Id)
    ensures Blocked([Entry(Unmodified, "a", x), Entry(Unmodified, "a/b", y)])
    ensures var es := [Entry(Unmodified, "a/b", y), Entry(Unmodified, "a", x)];
            !Blocked(es) && "a/b" in Live(es) && Split("a/b") !in Written(es) && !KeepsAll(es)
  {
    SplitExamples();
    var first, last := Entry(Unmodified, "a", x), Entry(Unmodified, "a/b", y);
    assert Clash([first, last], 0, 1);
    var es := [last, first];
    assert es[..1] == [last] && [last][..0] == [];
    assert Written([last]) == map[["a", "b"] := y];
    assert ["a"] <= ["a", "b"];
    assert Written(es) == map[["a"] := x];
    assert Live([last]) == map["a/b" := y];
    assert !KeepsOne(es, "a/b");
  }

  lemma SplitExamples()
    ensures Split("a") == ["a"] && Split("a/b") == ["a", "b"]
  {
    assert NameLen("a") == 1 && NameLen("b") == 1 && NameLen("a/b") == 1;
    assert "a/b"[2..] == "b" && "a/b"[..1] == "a";
  }
}
