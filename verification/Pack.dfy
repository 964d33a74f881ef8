/** The pack stream: objects on their way from one store to another. */
module Pack {

  import opened Bytes
  import opened ObjectCodec

  type Store = map<Hash, Object>

  datatype Inflated = Bad | Raw(data: Data)

  /** SHA-256 and zstd, as far as the format depends on them. */
  datatype Tools = Tools(sha: Data -> Hash, compress: Data -> Data, decompress: Data -> Inflated)

  /** What was compressed can be decompressed. */
  ghost predicate Usable(tools: Tools) {
    forall d :: tools.decompress(tools.compress(d)) == Raw(d)
  }

  function IdOf(tools: Tools, o: Object): Hash {
    tools.sha(Serialize(o))
  }

  /** Every object is filed under its hash and can be read back. */
  ghost predicate Sound(tools: Tools, store: Store) {
    forall id | id in store :: Fits(store[id]) && IdOf(tools, store[id]) == id
  }

  /** Writing an object that is already there changes nothing. */
  function Put(tools: Tools, store: Store, o: Object): Store {
    if IdOf(tools, o) in store then store else store[IdOf(tools, o) := o]
  }

  // ----- varints -----

  function Varint(v: nat): Data {
    if v < 128 then [v as Byte] else [(v % 128 + 128) as Byte] + Varint(v / 128)
  }

  function Pow128(n: nat): nat {
    if n == 0 then 1 else 128 * Pow128(n - 1)
  }

  lemma Pow128Of9()
    ensures 2 * Pow128(9) == WORD64
  {
    assert Pow128(1) == 128;
    assert Pow128(2) == 0x4000;
    assert Pow128(3) == 0x20_0000;
    assert Pow128(4) == 0x1000_0000;
    assert Pow128(5) == 0x8_0000_0000;
    assert Pow128(6) == 0x400_0000_0000;
    assert Pow128(7) == 0x2_0000_0000_0000;
    assert Pow128(8) == 0x100_0000_0000_0000;
  }

  lemma Digits(p: nat, q: nat)
    ensures p * q == p * (q % 128) + (128 * p) * (q / 128)
  {
    var a, b := q % 128, q / 128;
    assert q == a + 128 * b;
    assert p * (a + 128 * b) == p * a + p * (128 * b);
    assert p * (128 * b) == (128 * p) * b;
  }

  lemma TooBig(p: nat, q: nat)
    requires q >= 2
    ensures p * q >= 2 * p
  {
    assert p * q == p * 2 + p * (q - 2);
  }

  function Times(p: nat, q: nat): nat { p * q }

  /** The number some bytes of a varint stand for, seven bits a byte, the lowest first. */
  function VarintValue(bs: Data): nat {
    if bs == [] then 0
    else VarintValue(bs[..|bs| - 1]) + Times(Pow128(|bs| - 1), bs[|bs| - 1] as nat % 128)
  }

  predicate Continued(bs: Data) {
    forall i | 0 <= i < |bs| :: bs[i] >= 128
  }

  /** One varint of at most 64 bits: only its last byte is below 128. */
  predicate IsVarint(bs: Data, v: nat) {
    && 0 < |bs| <= 10 && Continued(bs[..|bs| - 1]) && bs[|bs| - 1] < 128 && (|bs| == 10 ==> bs[9] <= 1)
    && VarintValue(bs) == v
  }

  lemma VarintSnoc(bs: Data, b: Byte)
    ensures VarintValue(bs + [b]) == VarintValue(bs) + Times(Pow128(|bs|), b as nat % 128)
    ensures Continued(bs) && b >= 128 ==> Continued(bs + [b])
    ensures Continued(bs) && b < 128 && |bs| < 10 && (|bs| == 9 ==> b <= 1)
      ==> IsVarint(bs + [b], VarintValue(bs + [b]))
  {
    assert (bs + [b])[..|bs|] == bs;
  }

  /** The first byte of a written varint, and what it leaves. */
  lemma VarintHead(q: nat, more: Data, rest: Data)
    requires rest == Varint(q) + more
    ensures rest != [] && (rest[0] < 128 <==> q < 128) && rest[0] as nat % 128 == q % 128
    ensures q < 128 ==> rest[1..] == more && rest[0] as nat == q
    ensures q >= 128 ==> rest[1..] == Varint(q / 128) + more
  {
    if q >= 128 { assert rest[1..] == Varint(q)[1..] + more; }
  }

  /** A number of 64 bits has no eleventh byte, and no more than one bit in the tenth. */
  lemma TenthByte(i: nat, scale: nat, q: nat, v: nat, v0: nat)
    requires i < 10 && scale == Pow128(i) && v0 == v + scale * q && v0 < WORD64
    ensures i == 9 ==> q <= 1
    ensures v0 == v + Times(scale, q % 128) + (128 * scale) * (q / 128)
  {
    Pow128Of9();
    if i == 9 && q >= 2 { TooBig(scale, q); }
    Digits(scale, q);
  }

  /** Reads a varint, at most ten bytes and 64 bits; a written number comes back as it was. */
  method ReadVarint(r: Reader, ghost v0: nat, ghost more: Data) returns (ok: bool, v: nat, ghost bs: Data)
    modifies r
    ensures ok ==> IsVarint(bs, v) && old(r.rest) == bs + r.rest
    ensures v0 < WORD64 && old(r.rest) == Varint(v0) + more ==> ok && v == v0 && r.rest == more
  {
    v := 0;
    var scale := 1;
    var i := 0;
    bs := [];
    ghost var q, written := v0, v0 < WORD64 && r.rest == Varint(v0) + more;
    ghost var all := r.rest;
    while i < 10
      invariant 0 <= i <= 10 && scale == Pow128(i)
      invariant |bs| == i && all == bs + r.rest && Continued(bs) && v == VarintValue(bs)
      invariant written ==> i < 10 && v0 == v + scale * q && r.rest == Varint(q) + more
    {
      if written {
        VarintHead(q, more, r.rest);
        TenthByte(i, scale, q, v, v0);
      }
      ghost var rest := r.rest;
      var got, next := r.Read(1);
      if !got {
        return false, v, bs;
      }
      var b := next[0];
      VarintSnoc(bs, b);
      assert rest[0] == b && rest[1..] == r.rest;
      assert all == bs + [b] + r.rest;
      if b < 128 {
        if i == 9 && b > 1 {
          return false, v, bs;
        }
        return true, v + Times(scale, b as nat), bs + [b];
      }
      v := v + Times(scale, b as nat - 128);
      scale := 128 * scale;
      bs := bs + [b];
      q := q / 128;
      i := i + 1;
    }
    ok := false;
  }

  // ----- the stream -----

  const MAGIC: Data := Ascii("VPCK")
  const VERSION: Byte := 1

  function Record(tools: Tools, o: Object): Data {
    var c := tools.compress(Serialize(o));
    Varint(|c|) + c
  }

  function Records(tools: Tools, os: seq<Object>): Data {
    if os == [] then [] else Record(tools, os[0]) + Records(tools, os[1..])
  }

  function Header(count: Word): Data {
    MAGIC + [VERSION] + WordBytes(count)
  }

  /** The stream for a list of objects. */
  function Packed(tools: Tools, os: seq<Object>): Data
    requires |os| < WORD
  {
    var body := Header(|os|) + Records(tools, os);
    body + tools.sha(body)
  }

  lemma HeaderParts(count: Word)
    ensures |Header(count)| == 9 && Header(count)[..4] == MAGIC && Header(count)[4] == VERSION
      && Header(count)[5..] == WordBytes(count)
  {
  }

  lemma {:induction false} RecordsSnoc(tools: Tools, os: seq<Object>, o: Object)
    ensures Records(tools, os + [o]) == Records(tools, os) + Record(tools, o)
  {
    if os == [] {
      assert [] + [o] == [o] && [o][1..] == [];
      assert Record(tools, o) + [] == Record(tools, o);
    } else {
      RecordsSnoc(tools, os[1..], o);
      assert (os + [o])[1..] == os[1..] + [o];
      Assoc(Record(tools, os[0]), Records(tools, os[1..]), Record(tools, o));
    }
  }

  function ObjectsOf(store: Store, ids: seq<Hash>): seq<Object>
    requires forall id | id in ids :: id in store
  {
    seq(|ids|, i requires 0 <= i < |ids| => store[ids[i]])
  }

  /** The stream so far holds the first of the listed objects. */
  ghost predicate Writing(tools: Tools, store: Store, head: Data, ids: seq<Hash>, data: Data) {
    (forall id | id in ids :: id in store) && data == head + Records(tools, ObjectsOf(store, ids))
  }

  lemma WriteStep(tools: Tools, store: Store, head: Data, ids: seq<Hash>, id: Hash, data: Data)
    requires Writing(tools, store, head, ids, data) && id in store
    ensures Writing(tools, store, head, ids + [id], data + Record(tools, store[id]))
  {
    var os := ObjectsOf(store, ids);
    assert ObjectsOf(store, ids + [id]) == os + [store[id]];
    RecordsSnoc(tools, os, store[id]);
    Assoc(head, Records(tools, os), Record(tools, store[id]));
  }

  /** Writes the listed objects; fails where one is missing. The count is that of the list. */
  method WritePack(tools: Tools, store: Store, ids: seq<Hash>) returns (ok: bool, data: Data)
    requires |ids| < WORD
    ensures ok <==> forall id | id in ids :: id in store
    ensures ok ==> data == Packed(tools, ObjectsOf(store, ids))
  {
    data := Header(|ids|);
    var i := 0;
    ghost var head := data;
    assert ids[..0] == [] && data == head + [];
    while i < |ids|
      invariant 0 <= i <= |ids| && Writing(tools, store, head, ids[..i], data)
    {
      var id := ids[i];
      assert ids[..i + 1] == ids[..i] + [id];
      if id !in store {
        assert id in ids;
        return false, data;
      }
      var compressed := tools.compress(Serialize(store[id]));
      WriteStep(tools, store, head, ids[..i], id, data);
      data := data + (Varint(|compressed|) + compressed);
      i := i + 1;
    }
    assert ids[..i] == ids;
    data := data + tools.sha(data);
    ok := true;
  }

  // ----- ingesting -----

  ghost predicate Grown(before: Store, after: Store) {
    forall id | id in before :: id in after && after[id] == before[id]
  }

  ghost function PutAll(tools: Tools, store: Store, os: seq<Object>): Store
    decreases |os|
  {
    if os == [] then store else PutAll(tools, Put(tools, store, os[0]), os[1..])
  }

  function IdsOf(tools: Tools, os: seq<Object>): seq<Hash> {
    seq(|os|, i requires 0 <= i < |os| => IdOf(tools, os[i]))
  }

  /** None of the IDs is known yet, and none is listed twice. */
  ghost predicate AllNew(known: set<Hash>, ids: seq<Hash>) {
    (forall id | id in ids :: id !in known) && forall i, j | 0 <= i < j < |ids| :: ids[i] != ids[j]
  }

  lemma AllNewFirst(known: set<Hash>, id: Hash, rest: seq<Hash>)
    ensures AllNew(known, [id] + rest) <==> id !in known && AllNew(known + {id}, rest)
  {
    var ids := [id] + rest;
    if AllNew(known, ids) {
      assert ids[0] == id;
      forall x | x in rest ensures x !in known + {id} {
        var j :| 0 <= j < |rest| && rest[j] == x;
        assert ids[j + 1] == x;
      }
      forall i, j | 0 <= i < j < |rest| ensures rest[i] != rest[j] {
        assert rest[i] == ids[i + 1] && rest[j] == ids[j + 1];
      }
    }
    if id !in known && AllNew(known + {id}, rest) {
      assert forall j | 0 < j < |ids| :: ids[j] == rest[j - 1] && ids[j] in rest;
    }
  }

  lemma IdsOfFirst(tools: Tools, os: seq<Object>)
    requires os != []
    ensures IdsOf(tools, os) == [IdOf(tools, os[0])] + IdsOf(tools, os[1..])
  {
    var ids, rest := IdsOf(tools, os), IdsOf(tools, os[1..]);
    forall i | 0 < i < |ids| ensures ids[i] == rest[i - 1] {
      assert os[i] == os[1..][i - 1];
    }
    assert ids == [ids[0]] + rest;
  }

  /** As many objects are added as are put in exactly when all of them are new. */
  lemma {:induction false} AddedExactly(tools: Tools, store: Store, os: seq<Object>)
    ensures |store| <= |PutAll(tools, store, os)| <= |store| + |os|
    ensures |PutAll(tools, store, os)| == |store| + |os| <==> AllNew(store.Keys, IdsOf(tools, os))
    decreases |os|
  {
    if os != [] {
      var id := IdOf(tools, os[0]);
      IdsOfFirst(tools, os);
      AllNewFirst(store.Keys, id, IdsOf(tools, os[1..]));
      AddedExactly(tools, Put(tools, store, os[0]), os[1..]);
      assert Put(tools, store, os[0]).Keys == store.Keys + {id};
    }
  }

  /** An object sent to a store that has it is counted, though nothing is added. */
  lemma ResentIsCounted(tools: Tools, o: Object)
    ensures var store := map[IdOf(tools, o) := o];
            PutAll(tools, store, [o]) == store && |[o]| == 1 && !AllNew(store.Keys, IdsOf(tools, [o]))
  {
    assert [o][1..] == [] && IdsOf(tools, [o])[0] == IdOf(tools, o);
  }

  /** The objects can be encoded without loss, and their compressed lengths fit 64 bits. */
  ghost predicate AllFit(tools: Tools, os: seq<Object>) {
    forall o | o in os :: Fits(o) && |tools.compress(Serialize(o))| < WORD64
  }

  /** The next record of a stream of records. */
  lemma NextRecord(tools: Tools, os: seq<Object>)
    requires os != []
    ensures var c := tools.compress(Serialize(os[0]));
      Records(tools, os) == Varint(|c|) + (c + Records(tools, os[1..]))
  {
    var c := tools.compress(Serialize(os[0]));
    Assoc(Varint(|c|), c, Records(tools, os[1..]));
  }

  /** A record as it may stand in a stream: a length, that many bytes, and the object they unpack to. */
  datatype Rec = Rec(len: Data, body: Data, obj: Object)

  ghost predicate RecOk(tools: Tools, x: Rec) {
    var raw := tools.decompress(x.body);
    IsVarint(x.len, |x.body|) && raw.Raw? && Writes(x.obj, raw.data)
  }

  function SpelledRecs(xs: seq<Rec>): Data {
    if xs == [] then [] else SpelledRecs(xs[..|xs| - 1]) + xs[|xs| - 1].len + xs[|xs| - 1].body
  }

  function RecObjects(xs: seq<Rec>): seq<Object> {
    seq(|xs|, i requires 0 <= i < |xs| => xs[i].obj)
  }

  /** The bytes read so far are these records, and their objects have been put in. */
  ghost predicate Taken(tools: Tools, store: Store, xs: seq<Rec>, read: Data, after: Store) {
    && (forall x | x in xs :: RecOk(tools, x)) && read == SpelledRecs(xs)
    && after == PutAll(tools, store, RecObjects(xs))
  }

  ghost predicate TakenAs(tools: Tools, store: Store, xs: seq<Rec>, read: Data, after: Store) {
    forall ys | ys == xs :: Taken(tools, store, ys, read, after)
  }

  lemma NothingTaken(tools: Tools, store: Store)
    ensures TakenAs(tools, store, [], [], store)
  {
    assert RecObjects([]) == [];
    assert Taken(tools, store, [], [], store);
  }

  lemma OneMoreTaken(tools: Tools, store: Store, xs: seq<Rec>, read: Data, after: Store, x: Rec)
    requires TakenAs(tools, store, xs, read, after) && RecOk(tools, x)
    ensures TakenAs(tools, store, xs + [x], read + x.len + x.body, Put(tools, after, x.obj))
  {
    assert Taken(tools, store, xs, read, after);
    assert (xs + [x])[..|xs|] == xs && RecObjects(xs + [x]) == RecObjects(xs) + [x.obj];
    PutAllSnoc(tools, store, RecObjects(xs), x.obj);
    assert Taken(tools, store, xs + [x], read + x.len + x.body, Put(tools, after, x.obj));
  }

  lemma {:induction false} PutAllSnoc(tools: Tools, store: Store, os: seq<Object>, o: Object)
    ensures PutAll(tools, store, os + [o]) == Put(tools, PutAll(tools, store, os), o)
    decreases |os|
  {
    if os == [] {
      assert [] + [o] == [o] && [o][1..] == [];
    } else {
      assert (os + [o])[1..] == os[1..] + [o];
      PutAllSnoc(tools, Put(tools, store, os[0]), os[1..], o);
    }
  }

  method ReadRecord(tools: Tools, r: Reader, ghost os: seq<Object>) returns (ok: bool, o: Object, ghost x: Rec)
    requires Usable(tools)
    modifies r
    ensures ok ==> Fits(o) && RecOk(tools, x) && x.obj == o && old(r.rest) == x.len + x.body + r.rest
    ensures os != [] && AllFit(tools, os) && old(r.rest) == Records(tools, os)
      ==> ok && o == os[0] && r.rest == Records(tools, os[1..])
  {
    ghost var written := os != [] && AllFit(tools, os) && r.rest == Records(tools, os);
    ghost var c, more: Data := [], [];
    o := Blob([]);
    x := Rec([], [], o);
    ghost var all := r.rest;
    if written {
      NextRecord(tools, os);
      c, more := tools.compress(Serialize(os[0])), Records(tools, os[1..]);
    }
    var clen;
    ghost var len;
    ok, clen, len := ReadVarint(r, |c|, c + more);
    if !ok { return; }
    ghost var data := r.rest;
    var compressed;
    ok, compressed := r.Read(clen);
    if !ok { return; }
    if written { PrefixSplit(compressed, r.rest, c, more); }
    var raw := tools.decompress(compressed);
    if raw.Bad? { return false, o, x; }
    var p := Deserialize(raw.data);
    if written { assert Writes(os[0], raw.data); }
    if p.Invalid? { return false, o, x; }
    o := p.obj;
    x := Rec(len, compressed, o);
    Assoc(len, compressed, r.rest);
  }

  ghost predicate Written(tools: Tools, os: seq<Object>, all: Data) {
    |os| < WORD && AllFit(tools, os) && all == Packed(tools, os)
  }

  /** What is left of a stream of total records, put into the store as it stands, gives what the whole gives. */
  ghost predicate Ingesting(tools: Tools, whole: Store, after: Store, left: seq<Object>, rest: Data) {
    AllFit(tools, left) && rest == Records(tools, left) && PutAll(tools, after, left) == whole
  }

  ghost predicate IngestingAs(tools: Tools, whole: Store, after: Store, left: seq<Object>, rest: Data) {
    forall x | x == left :: Ingesting(tools, whole, after, x, rest)
  }

  lemma IngestStarts(tools: Tools, store: Store, os: seq<Object>, all: Data) returns (whole: Store)
    requires Written(tools, os, all)
    ensures whole == PutAll(tools, store, os)
    ensures |all| >= 41 && tools.sha(all[..|all| - 32]) == all[|all| - 32..]
    ensures all[..|all| - 32][..4] == MAGIC && all[..|all| - 32][4] == VERSION
    ensures WordOf(all[..|all| - 32][5..9]) == |os| && IngestingAs(tools, whole, store, os, all[..|all| - 32][9..])
    ensures |os| == |whole| - |store| <==> AllNew(store.Keys, IdsOf(tools, os))
  {
    PackedParts(tools, os, all);
    AddedExactly(tools, store, os);
    whole := PutAll(tools, store, os);
  }

  lemma IngestStep(tools: Tools, whole: Store, after: Store, left: seq<Object>, rest: Data)
    requires left != [] && IngestingAs(tools, whole, after, left, rest)
    ensures AllFit(tools, left) && rest == Records(tools, left)
    ensures IngestingAs(tools, whole, Put(tools, after, left[0]), left[1..], Records(tools, left[1..]))
  {
    assert Ingesting(tools, whole, after, left, rest);
    assert forall o | o in left[1..] :: o in left;
  }

  lemma IngestEnds(tools: Tools, whole: Store, after: Store, left: seq<Object>, rest: Data)
    requires left == [] && IngestingAs(tools, whole, after, left, rest)
    ensures after == whole && rest == []
  {
    assert Ingesting(tools, whole, after, left, rest);
  }

  lemma PutKeeps(tools: Tools, store: Store, after: Store, o: Object)
    requires Sound(tools, after) && Grown(store, after) && Fits(o)
    ensures Sound(tools, Put(tools, after, o)) && Grown(store, Put(tools, after, o))
  {
  }

  /** Ingests a pack: nothing is written unless the checksum is right, and nothing written before is changed. */
  method ReadPack(tools: Tools, store: Store, all: Data, ghost os: seq<Object>)
    returns (ok: bool, after: Store, count: nat, ghost xs: seq<Rec>)
    requires Usable(tools) && Sound(tools, store)
    ensures Sound(tools, after) && Grown(store, after)
    ensures ok || after != store ==> |all| >= 41 && tools.sha(all[..|all| - 32]) == all[|all| - 32..]
    ensures ok ==> |xs| == count < WORD && (forall x | x in xs :: RecOk(tools, x))
    ensures ok ==> all[..|all| - 32] == Header(count) + SpelledRecs(xs) && after == PutAll(tools, store, RecObjects(xs))
    ensures Written(tools, os, all) ==> ok && count == |os| && after == PutAll(tools, store, os)
    ensures Written(tools, os, all) ==> (count == |after| - |store| <==> AllNew(store.Keys, IdsOf(tools, os)))
  {
    ok, after, count, xs := false, store, 0, [];
    ghost var written, whole := Written(tools, os, all), store;
    if written { whole := IngestStarts(tools, store, os, all); }
    if |all| < 9 + 32 {
      return;
    }
    var body, trailer := all[..|all| - 32], all[|all| - 32..];
    if tools.sha(body) != trailer || body[..4] != MAGIC || body[4] != VERSION {
      return;
    }
    var total := WordOf(body[5..9]);
    var r := new Reader(body[9..]);
    ghost var left := os;
    ghost var read: Data := [];
    NothingTaken(tools, store);
    while count < total
      invariant |xs| == count && TakenAs(tools, store, xs, read, after) && body[9..] == read + r.rest
      invariant count <= total && Sound(tools, after) && Grown(store, after)
      invariant written ==> IngestingAs(tools, whole, after, left, r.rest) && count + |left| == total == |os|
    {
      if written { IngestStep(tools, whole, after, left, r.rest); }
      var o;
      ghost var x;
      ok, o, x := ReadRecord(tools, r, left);
      if !ok {
        return;
      }
      OneMoreTaken(tools, store, xs, read, after, x);
      ReadOn(read, x, r.rest);
      xs, read := xs + [x], read + x.len + x.body;
      PutKeeps(tools, store, after, o);
      after := Put(tools, after, o);
      if written { left := left[1..]; }
      count := count + 1;
    }
    ok := |r.rest| == 0;
    if ok { AllTaken(tools, store, xs, read, after, body, total); }
    if written { IngestEnds(tools, whole, after, left, r.rest); }
  }

  lemma ReadOn(read: Data, x: Rec, rest: Data)
    ensures read + (x.len + x.body + rest) == (read + x.len + x.body) + rest
  {
  }

  /** A stream that ends where its last record does is its header and its records. */
  lemma AllTaken(tools: Tools, store: Store, xs: seq<Rec>, read: Data, after: Store, body: Data, total: Word)
    requires TakenAs(tools, store, xs, read, after) && |xs| == total
    requires |body| >= 9 && body[..4] == MAGIC && body[4] == VERSION && total == WordOf(body[5..9])
    requires body[9..] == read
    ensures (forall x | x in xs :: RecOk(tools, x)) && body == Header(total) + SpelledRecs(xs)
    ensures after == PutAll(tools, store, RecObjects(xs))
  {
    assert Taken(tools, store, xs, read, after);
    BigEndianOfValue(body[5..9]);
    assert body == body[..4] + [body[4]] + body[5..9] + body[9..];
  }

  lemma PackedParts(tools: Tools, os: seq<Object>, all: Data)
    requires |os| < WORD && all == Packed(tools, os)
    ensures |all| >= 41 && tools.sha(all[..|all| - 32]) == all[|all| - 32..]
    ensures all[..|all| - 32][..4] == MAGIC && all[..|all| - 32][4] == VERSION
    ensures WordOf(all[..|all| - 32][5..9]) == |os| && all[..|all| - 32][9..] == Records(tools, os)
  {
    var header := Header(|os|);
    var body := header + Records(tools, os);
    HeaderParts(|os|);
    assert all[..|all| - 32] == body && all[|all| - 32..] == tools.sha(body);
    assert body[..4] == header[..4] && body[4] == header[4];
    assert body[5..9] == header[5..] && body[9..] == Records(tools, os);
    WordTrip(|os|, header[5..]);
  }

  // ----- from store to store -----

  lemma {:induction false} PutAllKeys(tools: Tools, store: Store, os: seq<Object>, id: Hash)
    ensures id in PutAll(tools, store, os) <==> id in store || id in IdsOf(tools, os)
    decreases |os|
  {
    if os != [] {
      PutAllKeys(tools, Put(tools, store, os[0]), os[1..], id);
      IdsOfFirst(tools, os);
    }
  }

  /** Where an ID stands after putting: as before, or for an object put in. */
  lemma {:induction false} PutAllValues(tools: Tools, store: Store, os: seq<Object>, id: Hash, after: Store)
    requires after == PutAll(tools, store, os)
    ensures id in store ==> id in after && after[id] == store[id]
    ensures id !in store && id in after ==> after[id] in os && IdOf(tools, after[id]) == id
    decreases |os|
  {
    if os != [] {
      PutAllValues(tools, Put(tools, store, os[0]), os[1..], id, after);
      assert forall o | o in os[1..] :: o in os;
    }
  }

  /**
   A pack written from one store and read into another that agrees with it adds exactly the listed
   objects, and succeeds whenever all of them are there. The count is that of the objects added
   exactly when the list repeats nothing and the receiver had nothing of it.
   */
  method SendPack(tools: Tools, src: Store, ids: seq<Hash>, dst: Store)
    returns (ok: bool, after: Store, count: nat)
    requires Usable(tools) && Sound(tools, src) && Sound(tools, dst) && |ids| < WORD
    requires forall id | id in src && id in dst :: src[id] == dst[id]
    requires forall id | id in src :: |tools.compress(Serialize(src[id]))| < WORD64
    ensures ok <==> forall id | id in ids :: id in src
    ensures ok ==> forall id :: id in after <==> id in dst || id in ids
    ensures ok ==> forall id | id in ids :: after[id] == src[id]
    ensures Grown(dst, after)
    ensures ok ==> count == |ids| && (count == |after| - |dst| <==> AllNew(dst.Keys, ids))
  {
    var data;
    after, count := dst, 0;
    ok, data := WritePack(tools, src, ids);
    if ok {
      ghost var os := ObjectsOf(src, ids);
      assert IdsOf(tools, os) == ids;
      ghost var xs;
      ok, after, count, xs := ReadPack(tools, dst, data, os);
      Sent(tools, src, ids, os, dst, after);
    }
  }

  lemma Sent(tools: Tools, src: Store, ids: seq<Hash>, os: seq<Object>, dst: Store, after: Store)
    requires Sound(tools, src) && (forall i | i in ids :: i in src) && os == ObjectsOf(src, ids)
    requires IdsOf(tools, os) == ids && after == PutAll(tools, dst, os)
    requires forall id | id in src && id in dst :: src[id] == dst[id]
    ensures forall id :: id in after <==> id in dst || id in ids
    ensures forall id | id in ids :: after[id] == src[id]
  {
    forall id ensures (id in after <==> id in dst || id in ids) && (id in ids ==> after[id] == src[id]) {
      PutAllKeys(tools, dst, os, id);
      PutAllValues(tools, dst, os, id, after);
      Listed(tools, src, ids, os, id);
    }
  }

  lemma Listed(tools: Tools, src: Store, ids: seq<Hash>, os: seq<Object>, id: Hash)
    requires Sound(tools, src) && (forall i | i in ids :: i in src) && os == ObjectsOf(src, ids)
    ensures forall o | o in os && IdOf(tools, o) == id :: id in src && o == src[id]
  {
    forall o | o in os ensures IdOf(tools, o) in src && src[IdOf(tools, o)] == o {
      var i :| 0 <= i < |os| && os[i] == o;
      assert ids[i] in ids;
    }
  }
}
