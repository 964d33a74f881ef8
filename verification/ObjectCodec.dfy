/** The byte format of stored objects. */
module ObjectCodec {

  import opened Bytes

  datatype TreeEntry = TreeEntry(mode: Word, hash: Hash, name: Data)

  datatype Object =
    | Blob(data: Data)
    | Tree(entries: seq<TreeEntry>)
    | Commit(tree: Hash, parents: seq<Hash>, timestamp: Int64, author: Data, message: Data)

  function Ascii(s: string): Data
    requires forall c | c in s :: c < 256 as char
  {
    seq(|s|, i requires 0 <= i < |s| => assert s[i] in s; s[i] as Byte)
  }

  const TYPE_BLOB: Data := Ascii("vara-blob:v1")
  const TYPE_TREE: Data := Ascii("vara-tree:v1")
  const TYPE_COMMIT: Data := Ascii("vara-commit:v1")

  lemma TypesDiffer()
    ensures NulFree(TYPE_BLOB) && NulFree(TYPE_TREE) && NulFree(TYPE_COMMIT)
    ensures TYPE_BLOB != TYPE_TREE && TYPE_TREE != TYPE_COMMIT && TYPE_BLOB != TYPE_COMMIT
  {
    assert TYPE_BLOB[5] == 'b' as Byte && TYPE_TREE[5] == 't' as Byte;
    assert |TYPE_BLOB| == |TYPE_TREE| == 12 && |TYPE_COMMIT| == 14;
  }

  function TypeOf(o: Object): Data {
    match o
    case Blob(_) => TYPE_BLOB
    case Tree(_) => TYPE_TREE
    case Commit(_, _, _, _, _) => TYPE_COMMIT
  }

  function EntryBytes(e: TreeEntry): Data {
    WordBytes(e.mode) + (e.hash + (e.name + [NUL]))
  }

  function EntriesBytes(es: seq<TreeEntry>): Data {
    if es == [] then [] else EntryBytes(es[0]) + EntriesBytes(es[1..])
  }

  function HashBytes(hs: seq<Hash>): Data {
    if hs == [] then [] else hs[0] + HashBytes(hs[1..])
  }

  /** The number of parents as 32 bits hold it. */
  function Count(ps: seq<Hash>): (n: Word)
    ensures |ps| < WORD ==> n == |ps|
  {
    |ps| % WORD
  }

  function CommitBytes(tree: Hash, parents: seq<Hash>, timestamp: Int64, author: Data, message: Data): Data {
    tree + (WordBytes(Count(parents)) + (HashBytes(parents) + (TimeBytes(timestamp) + (author + [NUL] + message))))
  }

  /** What the format can hold without loss: no NUL in names and authors, no more parents than 32 bits count. */
  predicate Fits(o: Object) {
    match o
    case Blob(_) => true
    case Tree(es) => NamesFit(es)
    case Commit(_, ps, _, author, _) => |ps| < WORD && NulFree(author)
  }

  predicate NamesFit(es: seq<TreeEntry>) {
    forall e | e in es :: NulFree(e.name)
  }

  function Body(o: Object): Data {
    match o
    case Blob(data) => data
    case Tree(es) => EntriesBytes(es)
    case Commit(tree, ps, t, author, message) => CommitBytes(tree, ps, t, author, message)
  }

  function Serialize(o: Object): Data {
    TypeOf(o) + [NUL] + Body(o)
  }

  // ----- trees -----

  lemma {:induction false} EntriesConcat(a: seq<TreeEntry>, b: seq<TreeEntry>)
    ensures EntriesBytes(a + b) == EntriesBytes(a) + EntriesBytes(b)
  {
    if a == [] {
      assert a + b == b;
    } else {
      EntriesConcat(a[1..], b);
      assert (a + b)[1..] == a[1..] + b;
      Assoc(EntryBytes(a[0]), EntriesBytes(a[1..]), EntriesBytes(b));
    }
  }

  lemma Assoc(x: Data, y: Data, z: Data)
    ensures x + y + z == x + (y + z)
  {
  }

  /** If es extends what has been read and spells the whole, what remains is spelled by the rest of es. */
  lemma Remaining(es: seq<TreeEntry>, k: nat, rest: Data)
    requires k <= |es| && EntriesBytes(es) == EntriesBytes(es[..k]) + rest
    ensures rest == EntriesBytes(es[k..])
  {
    EntriesConcat(es[..k], es[k..]);
    assert es == es[..k] + es[k..];
    PrefixSplit(EntriesBytes(es[..k]), rest, EntriesBytes(es[..k]), EntriesBytes(es[k..]));
  }

  /** The bytes in front of the rest can be read as one entry only. */
  lemma OneEntry(e: TreeEntry, more: Data, mode: Data, hash: Data, name: Data, tail: Data)
    requires NulFree(e.name) && |mode| == 4 && |hash| == 32 && NulFree(name)
    requires EntryBytes(e) + more == mode + (hash + (name + [NUL] + tail))
    ensures e == TreeEntry(WordOf(mode), hash, name) && more == tail
  {
    WordTrip(e.mode, mode);
    Assoc(WordBytes(e.mode), e.hash + (e.name + [NUL]), more);
    Assoc(e.hash, e.name + [NUL], more);
    PrefixSplit(WordBytes(e.mode), e.hash + (e.name + [NUL] + more), mode, hash + (name + [NUL] + tail));
    PrefixSplit(e.hash, e.name + [NUL] + more, hash, name + [NUL] + tail);
    NulSplit(e.name, more, name, tail);
  }

  lemma EntrySize(e: TreeEntry, more: Data)
    ensures |EntryBytes(e) + more| >= 37
    ensures EntryBytes(e) + more == WordBytes(e.mode) + (e.hash + (e.name + [NUL] + more))
  {
    Assoc(WordBytes(e.mode), e.hash + (e.name + [NUL]), more);
    Assoc(e.hash, e.name + [NUL], more);
  }

  /** The listing, if any, that spells the bytes. */
  ghost predicate Spells(es: seq<TreeEntry>, data: Data) {
    NamesFit(es) && EntriesBytes(es) == data
  }

  method ReadEntry(r: Reader) returns (ok: bool, e: TreeEntry)
    modifies r
    ensures ok ==> NulFree(e.name) && old(r.rest) == EntryBytes(e) + r.rest
    ensures forall x: TreeEntry, more | NulFree(x.name) && old(r.rest) == EntryBytes(x) + more ::
      ok && x == e && more == r.rest
  {
    ghost var data := r.rest;
    e := TreeEntry(0, seq(32, _ => 0), []);
    forall x: TreeEntry, more | data == EntryBytes(x) + more
      ensures data == WordBytes(x.mode) + (x.hash + (x.name + [NUL] + more))
    {
      EntrySize(x, more);
    }
    var mode, hash, name;
    ok, mode := r.Read(4);
    if !ok { return; }
    ghost var data1 := r.rest;
    ok, hash := r.Read(32);
    if !ok { return; }
    ghost var data2 := r.rest;
    forall x: TreeEntry, more | data == EntryBytes(x) + more ensures data2 == x.name + [NUL] + more {
      PrefixSplit(WordBytes(x.mode), x.hash + (x.name + [NUL] + more), mode, data1);
      PrefixSplit(x.hash, x.name + [NUL] + more, hash, data2);
    }
    ok, name := r.ReadUntilNul();
    if !ok { return; }
    e := TreeEntry(WordOf(mode), hash, name);
    WordTrip(0, mode);
    EntrySize(e, r.rest);
    forall x: TreeEntry, more | NulFree(x.name) && data == EntryBytes(x) + more ensures x == e && more == r.rest {
      OneEntry(x, more, mode, hash, name, r.rest);
    }
  }

  lemma EntriesSnoc(es: seq<TreeEntry>, e: TreeEntry, rest: Data)
    ensures EntriesBytes(es + [e]) + rest == EntriesBytes(es) + (EntryBytes(e) + rest)
  {
    EntriesConcat(es, [e]);
    assert EntriesBytes([e]) == EntryBytes(e) + [] by { assert [e][1..] == []; }
    assert EntryBytes(e) + [] == EntryBytes(e);
    Assoc(EntriesBytes(es), EntryBytes(e), rest);
  }

  /** A listing of the whole goes on, after what has been read, with the next entry. */
  lemma NextEntry(es: seq<TreeEntry>, done: seq<TreeEntry>, data: Data, rest: Data)
    requires Spells(es, data) && done <= es && data == EntriesBytes(done) + rest
    ensures rest == [] ==> es == done
    ensures rest != []
      ==> |done| < |es| && NulFree(es[|done|].name) && rest == EntryBytes(es[|done|]) + EntriesBytes(es[|done| + 1..])
  {
    var k := |done|;
    assert es[..k] == done;
    Remaining(es, k, rest);
    if k < |es| {
      assert es[k..][0] == es[k] && es[k..][1..] == es[k + 1..];
      EntrySize(es[k], EntriesBytes(es[k + 1..]));
    } else {
      assert es == done;
    }
  }

  /** Reads entries to the end: the one listing that spells the bytes, or a failure if there is none. */
  method DeserializeTree(r: Reader) returns (ok: bool, entries: seq<TreeEntry>)
    modifies r
    ensures ok ==> Spells(entries, old(r.rest))
    ensures forall es | Spells(es, old(r.rest)) :: ok && es == entries
  {
    ghost var data := r.rest;
    entries := [];
    ok := true;
    assert data == EntriesBytes([]) + r.rest;
    while |r.rest| > 0
      invariant ok && NamesFit(entries) && data == EntriesBytes(entries) + r.rest
      invariant forall es | Spells(es, data) :: entries <= es
      decreases |r.rest|
    {
      ghost var rest := r.rest;
      var e;
      ok, e := ReadEntry(r);
      forall es | Spells(es, data) ensures ok && entries + [e] <= es {
        NextEntry(es, entries, data, rest);
        assert es[..|entries| + 1] == es[..|entries|] + [es[|entries|]];
      }
      if !ok {
        return;
      }
      EntrySize(e, r.rest);
      EntriesSnoc(entries, e, r.rest);
      entries := entries + [e];
    }
    forall es | Spells(es, data) ensures es == entries {
      NextEntry(es, entries, data, r.rest);
    }
    assert EntriesBytes(entries) + [] == EntriesBytes(entries);
  }

  // ----- commits -----

  lemma {:induction false} HashesSnoc(hs: seq<Hash>, h: Hash, rest: Data)
    ensures HashBytes(hs + [h]) + rest == HashBytes(hs) + (h + rest)
  {
    if hs == [] {
      assert [h][1..] == [] && h + [] == h;
      assert [] + [h] == [h];
      assert [] + (h + rest) == h + rest;
    } else {
      HashesSnoc(hs[1..], h, rest);
      assert (hs + [h])[1..] == hs[1..] + [h];
      Assoc(hs[0], HashBytes(hs[1..] + [h]), rest);
      Assoc(hs[0], HashBytes(hs[1..]), h + rest);
    }
  }

  lemma {:induction false} HashesSplit(a: seq<Hash>, r: Data, b: seq<Hash>, r': Data)
    requires |a| == |b| && HashBytes(a) + r == HashBytes(b) + r'
    ensures a == b && r == r'
  {
    if a == [] {
      assert [] + r == r && [] + r' == r';
    } else {
      Assoc(a[0], HashBytes(a[1..]), r);
      Assoc(b[0], HashBytes(b[1..]), r');
      PrefixSplit(a[0], HashBytes(a[1..]) + r, b[0], HashBytes(b[1..]) + r');
      HashesSplit(a[1..], r, b[1..], r');
      assert a == [a[0]] + a[1..] && b == [b[0]] + b[1..];
    }
  }

  lemma {:induction false} HashesSize(hs: seq<Hash>)
    ensures |HashBytes(hs)| == 32 * |hs|
  {
    if hs != [] { HashesSize(hs[1..]); }
  }

  method ReadHashes(r: Reader, count: nat) returns (ok: bool, hs: seq<Hash>)
    modifies r
    ensures ok <==> 32 * count <= |old(r.rest)|
    ensures ok ==> |hs| == count && old(r.rest) == HashBytes(hs) + r.rest
  {
    ghost var data := r.rest;
    hs := [];
    ok := true;
    assert data == HashBytes([]) + r.rest;
    while |hs| < count
      invariant ok && |hs| <= count && data == HashBytes(hs) + r.rest
    {
      HashesSize(hs);
      var h;
      ok, h := r.Read(32);
      if !ok {
        return;
      }
      HashesSnoc(hs, h, r.rest);
      hs := hs + [h];
    }
    HashesSize(hs);
  }

  /** The commit, if any, that spells the bytes. */
  ghost predicate IsBody(o: Object, data: Data) {
    o.Commit? && Fits(o) && Body(o) == data
  }

  /** A commit's bytes after the number of its parents. */
  function AfterCount(o: Object): Data
    requires o.Commit?
  {
    HashBytes(o.parents) + (TimeBytes(o.timestamp) + (o.author + [NUL] + o.message))
  }

  method DeserializeCommit(r: Reader) returns (ok: bool, c: Object)
    modifies r
    ensures ok ==> IsBody(c, old(r.rest))
    ensures forall o | IsBody(o, old(r.rest)) :: ok && o == c
  {
    ghost var data := r.rest;
    c := Blob([]);
    var tree, count, parents, time, author;
    ok, tree := r.Read(32);
    forall o | IsBody(o, data) ensures ok {
      assert |o.tree| == 32;
    }
    if !ok { return; }
    ghost var data1 := r.rest;
    forall o | IsBody(o, data)
      ensures o.tree == tree
        && data1 == WordBytes(Count(o.parents)) + AfterCount(o)
    {
      PrefixSplit(o.tree,
        WordBytes(Count(o.parents)) + AfterCount(o), tree, data1);
    }
    ok, count := r.Read(4);
    if !ok { return; }
    ghost var data2 := r.rest;
    forall o | IsBody(o, data)
      ensures |o.parents| == WordOf(count)
        && data2 == AfterCount(o)
    {
      PrefixSplit(WordBytes(Count(o.parents)),
        HashBytes(o.parents) + (TimeBytes(o.timestamp) + (o.author + [NUL] + o.message)), count, data2);
      WordTrip(Count(o.parents), count);
    }
    ok, parents := ReadHashes(r, WordOf(count));
    forall o | IsBody(o, data) ensures ok {
      HashesSize(o.parents);
    }
    if !ok { return; }
    ghost var data3 := r.rest;
    forall o | IsBody(o, data)
      ensures o.parents == parents && data3 == TimeBytes(o.timestamp) + (o.author + [NUL] + o.message)
    {
      HashesSplit(o.parents, TimeBytes(o.timestamp) + (o.author + [NUL] + o.message), parents, data3);
    }
    ok, time := r.Read(8);
    if !ok { return; }
    ghost var data4 := r.rest;
    forall o | IsBody(o, data) ensures o.timestamp == TimeOf(time) && data4 == o.author + [NUL] + o.message {
      PrefixSplit(TimeBytes(o.timestamp), o.author + [NUL] + o.message, time, data4);
      TimeTrip(o.timestamp, time);
    }
    ok, author := r.ReadUntilNul();
    if !ok { return; }
    ghost var data5 := r.rest;
    forall o | IsBody(o, data) ensures o.author == author && o.message == data5 {
      NulSplit(o.author, o.message, author, data5);
    }
    var message := r.ReadRest();
    c := Commit(tree, parents, TimeOf(time), author, message);
    WordTrip(0, count);
    TimeTrip(0, time);
  }

  // ----- any object -----

  datatype Parsed = Invalid | Parsed(obj: Object)

  ghost predicate Writes(o: Object, raw: Data) {
    Fits(o) && Serialize(o) == raw
  }

  /**
   Decoding is the exact inverse of encoding: it accepts nothing but the encoding of what it
   returns, and every object the format can hold comes back from its encoding.
   */
  method Deserialize(raw: Data) returns (p: Parsed)
    ensures p.Parsed? ==> Writes(p.obj, raw)
    ensures forall o | Writes(o, raw) :: p == Parsed(o)
  {
    TypesDiffer();
    var r := new Reader(raw);
    var ok, typ := r.ReadUntilNul();
    p := Invalid;
    if !ok {
      return;
    }
    ghost var body := r.rest;
    forall o | Writes(o, raw) ensures TypeOf(o) == typ && Body(o) == body {
      NulSplit(TypeOf(o), Body(o), typ, body);
    }
    if typ == TYPE_BLOB {
      var data := r.ReadRest();
      p := Parsed(Blob(data));
    } else if typ == TYPE_TREE {
      var entries;
      ok, entries := DeserializeTree(r);
      forall o | Writes(o, raw) ensures ok && o == Tree(entries) {
        assert Spells(o.entries, body);
      }
      if ok { p := Parsed(Tree(entries)); }
    } else if typ == TYPE_COMMIT {
      var c;
      ok, c := DeserializeCommit(r);
      forall o | Writes(o, raw) ensures ok && o == c {
        assert IsBody(o, body);
      }
      if ok { p := Parsed(c); }
    }
  }

  /** An object survives being written and read exactly when the format can hold it. */
  method WriteAndRead(o: Object) returns (p: Parsed)
    ensures p == Parsed(o) <==> Fits(o)
  {
    p := Deserialize(Serialize(o));
    assert Fits(o) ==> Writes(o, Serialize(o));
  }

  lemma NoEntriesNoBytes(es: seq<TreeEntry>)
    ensures EntriesBytes(es) == [] <==> es == []
  {
    if es != [] { EntrySize(es[0], EntriesBytes(es[1..])); }
  }

  lemma {:induction false} EntriesAreInjective(a: seq<TreeEntry>, b: seq<TreeEntry>)
    requires NamesFit(a) && NamesFit(b) && EntriesBytes(a) == EntriesBytes(b)
    ensures a == b
  {
    NoEntriesNoBytes(a);
    NoEntriesNoBytes(b);
    if a != [] {
      var e, more := b[0], EntriesBytes(b[1..]);
      EntrySize(e, more);
      OneEntry(a[0], EntriesBytes(a[1..]), WordBytes(e.mode), e.hash, e.name, more);
      WordTrip(e.mode, WordBytes(e.mode));
      EntriesAreInjective(a[1..], b[1..]);
      assert a == [a[0]] + a[1..] && b == [b[0]] + b[1..];
    }
  }

  /** No two objects the format can hold have the same encoding. */
  lemma EncodingIsInjective(a: Object, b: Object)
    requires Fits(a) && Fits(b) && Serialize(a) == Serialize(b)
    ensures a == b
  {
    TypesDiffer();
    NulSplit(TypeOf(a), Body(a), TypeOf(b), Body(b));
    match a
    case Blob(_) =>
    case Tree(es) => EntriesAreInjective(es, b.entries);
    case Commit(_, _, _, _, _) => CommitsAreInjective(a, b);
  }

  lemma CommitsAreInjective(a: Object, b: Object)
    requires a.Commit? && b.Commit? && Fits(a) && Fits(b) && Body(a) == Body(b)
    ensures a == b
  {
    var x4, y4 := a.author + [NUL] + a.message, b.author + [NUL] + b.message;
    var x3, y3 := TimeBytes(a.timestamp) + x4, TimeBytes(b.timestamp) + y4;
    var x2, y2 := HashBytes(a.parents) + x3, HashBytes(b.parents) + y3;
    var x1, y1 := WordBytes(Count(a.parents)) + x2, WordBytes(Count(b.parents)) + y2;
    PrefixSplit(a.tree, x1, b.tree, y1);
    WordTrip(Count(a.parents), WordBytes(Count(a.parents)));
    WordTrip(Count(b.parents), WordBytes(Count(b.parents)));
    PrefixSplit(WordBytes(Count(a.parents)), x2, WordBytes(Count(b.parents)), y2);
    HashesSplit(a.parents, x3, b.parents, y3);
    TimeTrip(a.timestamp, TimeBytes(a.timestamp));
    TimeTrip(b.timestamp, TimeBytes(b.timestamp));
    PrefixSplit(TimeBytes(a.timestamp), x4, TimeBytes(b.timestamp), y4);
    NulSplit(a.author, a.message, b.author, b.message);
  }
}
