/** The file format of the commit graph index. */
module IndexCodec {

  import opened Bytes
  import opened ObjectCodec

  datatype Entry = Entry(id: Hash, generation: Word, timestamp: Int64, parents: seq<Hash>, author: Data, message: Data)

  /** A row of the commit table; offsets count parents and bytes of the blocks that follow. */
  datatype Row = Row(id: Hash, generation: Word, timestamp: Int64, parentOffset: Word, parentCount: Word,
      metaOffset: Word)

  const MAGIC: Data := Ascii("VAGI")
  const VERSION: Word := 1

  /** What 32 bits keep of a number. */
  function Cut(n: nat): (w: Word)
    ensures n < WORD ==> w == n
  {
    n % WORD
  }

  lemma CutAdd(a: nat, b: nat)
    ensures Cut(Cut(a) + b) == Cut(a + b)
  {
  }

  function RowBytes(w: Row): Data {
    w.id + (WordBytes(w.generation) + (TimeBytes(w.timestamp)
      + (WordBytes(w.parentOffset) + (WordBytes(w.parentCount) + WordBytes(w.metaOffset)))))
  }

  function TableBytes(rows: seq<Row>): Data {
    if rows == [] then [] else RowBytes(rows[0]) + TableBytes(rows[1..])
  }

  /** The parents of all entries, one after the other. */
  function AllParents(es: seq<Entry>): seq<Hash>
    decreases |es|
  {
    if es == [] then [] else AllParents(es[..|es| - 1]) + es[|es| - 1].parents
  }

  function MetaBytes(e: Entry): Data {
    e.author + [NUL] + (e.message + [NUL])
  }

  function AllMeta(es: seq<Entry>): Data
    decreases |es|
  {
    if es == [] then [] else AllMeta(es[..|es| - 1]) + MetaBytes(es[|es| - 1])
  }

  /** The row for entry i, with offsets cut to 32 bits. */
  function RowAt(es: seq<Entry>, i: nat): Row
    requires i < |es|
  {
    var e := es[i];
    Row(e.id, e.generation, e.timestamp, Cut(|AllParents(es[..i])|), Cut(|e.parents|), Cut(|AllMeta(es[..i])|))
  }

  function Rows(es: seq<Entry>): seq<Row> {
    seq(|es|, i requires 0 <= i < |es| => RowAt(es, i))
  }

  function Header(count: Word): Data {
    MAGIC + (WordBytes(VERSION) + (WordBytes(count) + WordBytes(0)))
  }

  function AfterHeader(es: seq<Entry>): Data {
    TableBytes(Rows(es)) + (HashBytes(AllParents(es)) + AllMeta(es))
  }

  function IndexBody(es: seq<Entry>): Data {
    Header(Cut(|es|)) + AfterHeader(es)
  }

  function IndexBytes(sha: Data -> Hash, es: seq<Entry>): Data {
    IndexBody(es) + sha(IndexBody(es))
  }

  /** Counts and offsets fit 32 bits. */
  predicate SizesFit(es: seq<Entry>) {
    |es| < WORD && |AllParents(es)| < WORD && |AllMeta(es)| < WORD
  }

  predicate TextFits(e: Entry) {
    NulFree(e.author) && NulFree(e.message)
  }

  // ----- writing -----

  lemma {:induction false} TableSnoc(rows: seq<Row>, w: Row)
    ensures TableBytes(rows + [w]) == TableBytes(rows) + RowBytes(w)
  {
    if rows == [] {
      assert [] + [w] == [w] && [w][1..] == [];
      assert RowBytes(w) + [] == RowBytes(w);
    } else {
      TableSnoc(rows[1..], w);
      assert (rows + [w])[1..] == rows[1..] + [w];
      Assoc(RowBytes(rows[0]), TableBytes(rows[1..]), RowBytes(w));
    }
  }

  lemma {:induction false} HashesConcat(a: seq<Hash>, b: seq<Hash>)
    ensures HashBytes(a + b) == HashBytes(a) + HashBytes(b)
  {
    if a == [] {
      assert a + b == b;
    } else {
      HashesConcat(a[1..], b);
      assert (a + b)[1..] == a[1..] + b;
      Assoc(a[0], HashBytes(a[1..]), HashBytes(b));
    }
  }

  lemma PrefixStep(es: seq<Entry>, i: nat)
    requires i < |es|
    ensures AllParents(es[..i + 1]) == AllParents(es[..i]) + es[i].parents
    ensures AllMeta(es[..i + 1]) == AllMeta(es[..i]) + MetaBytes(es[i])
  {
    assert es[..i + 1][..i] == es[..i];
  }

  /** Writes the parent of one entry after the other. */
  method WriteParents(buf: Data, parents: seq<Hash>) returns (longer: Data)
    ensures longer == buf + HashBytes(parents)
  {
    longer := buf;
    var k := 0;
    assert HashBytes(parents[..0]) == [];
    while k < |parents|
      invariant 0 <= k <= |parents| && longer == buf + HashBytes(parents[..k])
    {
      assert parents[..k + 1] == parents[..k] + [parents[k]];
      HashesSnoc(parents[..k], parents[k], []);
      assert parents[k] + [] == parents[k] && HashBytes(parents[..k + 1]) + [] == HashBytes(parents[..k + 1]);
      Assoc(buf, HashBytes(parents[..k]), parents[k]);
      longer := longer + parents[k];
      k := k + 1;
    }
    assert parents[..k] == parents;
  }

  method WriteIndex(sha: Data -> Hash, entries: seq<Entry>) returns (data: Data)
    ensures data == IndexBytes(sha, entries)
  {
    var rows: seq<Row> := [];
    var parentBuf: Data, metaBuf: Data := [], [];
    var parentOffset, metaOffset: Word := 0, 0;
    ghost var parentCount: nat := 0;
    var i := 0;
    while i < |entries|
      invariant 0 <= i <= |entries| && |rows| == i && forall j | 0 <= j < i :: rows[j] == RowAt(entries, j)
      invariant parentBuf == HashBytes(AllParents(entries[..i])) && metaBuf == AllMeta(entries[..i])
      invariant parentOffset == Cut(|AllParents(entries[..i])|) && metaOffset == Cut(|metaBuf|)
    {
      var e := entries[i];
      rows := rows + [Row(e.id, e.generation, e.timestamp, parentOffset, Cut(|e.parents|), metaOffset)];
      PrefixStep(entries, i);
      HashesConcat(AllParents(entries[..i]), e.parents);
      parentBuf := WriteParents(parentBuf, e.parents);
      CutAdd(|AllParents(entries[..i])|, |e.parents|);
      parentOffset := Cut(parentOffset + |e.parents|);
      metaBuf := metaBuf + (e.author + [NUL] + (e.message + [NUL]));
      metaOffset := Cut(|metaBuf|);
      i := i + 1;
    }
    assert entries[..i] == entries && rows == Rows(entries);
    var table := WriteTable(rows);
    data := Header(Cut(|entries|)) + (table + (parentBuf + metaBuf));
    data := data + sha(data);
  }

  method WriteTable(rows: seq<Row>) returns (table: Data)
    ensures table == TableBytes(rows)
  {
    table := [];
    var k := 0;
    assert TableBytes(rows[..0]) == [];
    while k < |rows|
      invariant 0 <= k <= |rows| && table == TableBytes(rows[..k])
    {
      assert rows[..k + 1] == rows[..k] + [rows[k]];
      TableSnoc(rows[..k], rows[k]);
      table := table + RowBytes(rows[k]);
      k := k + 1;
    }
    assert rows[..k] == rows;
  }

  // ----- reading -----

  datatype Load = Refused | Crashed | Loaded(entries: seq<Entry>)

  datatype Text = Text(author: Data, message: Data)

  /** Author and message stored from the offset on. */
  function ReadMeta(meta: Data, offset: Word): Text {
    if offset >= |meta| then Text([], [])
    else
      var rest := meta[offset..];
      var n := NulAt(rest);
      if n == |rest| then Text(rest, [])
      else
        var tail := rest[n + 1..];
        Text(rest[..n], tail[..NulAt(tail)])
  }

  /** Text comes back as written exactly when it holds no NUL. */
  lemma MetaReads(before: Data, e: Entry, after: Data, offset: Word)
    requires offset == |before|
    ensures ReadMeta(before + MetaBytes(e) + after, offset) == Text(e.author, e.message) <==> TextFits(e)
  {
    var rest := (before + MetaBytes(e) + after)[offset..];
    assert rest == e.author + [NUL] + (e.message + [NUL] + after);
    if NulFree(e.author) {
      NulAtIs(e.author, e.message + [NUL] + after);
      var tail := rest[|e.author| + 1..];
      assert tail == e.message + [NUL] + after;
      assert rest[..|e.author|] == e.author;
      if NulFree(e.message) {
        NulAtIs(e.message, after);
        assert tail[..|e.message|] == e.message;
      }
    }
  }

  /** Reads go on with zeros where the data has run out: the parser does not look at read errors. */
  method ReadHash(r: Reader) returns (h: Hash)
    modifies r
    ensures 32 <= |old(r.rest)| ==> old(r.rest) == h + r.rest
  {
    var ok, bs := r.Read(32);
    h := if ok then bs else bs + seq(32 - |bs|, _ => NUL);
  }

  method ReadWord(r: Reader) returns (n: Word)
    modifies r
    ensures forall w, more | old(r.rest) == WordBytes(w) + more :: n == w && r.rest == more
    ensures |old(r.rest)| >= 4 ==> n == WordOf(old(r.rest)[..4])
  {
    ghost var data := r.rest;
    var ok, bs := r.Read(4);
    assert ok ==> data[..4] == bs;
    n := if ok then WordOf(bs) else 0;
    forall w, more | data == WordBytes(w) + more ensures n == w && r.rest == more {
      assert |WordBytes(w)| == 4;
      PrefixSplit(bs, r.rest, WordBytes(w), more);
      WordTrip(w, bs);
    }
  }

  method ReadTime(r: Reader) returns (t: Int64)
    modifies r
    ensures forall w, more | old(r.rest) == TimeBytes(w) + more :: t == w && r.rest == more
  {
    ghost var data := r.rest;
    var ok, bs := r.Read(8);
    t := if ok then TimeOf(bs) else 0;
    forall w, more | data == TimeBytes(w) + more ensures t == w && r.rest == more {
      assert |TimeBytes(w)| == 8;
      PrefixSplit(bs, r.rest, TimeBytes(w), more);
      TimeTrip(w, bs);
    }
  }

  lemma RowParts(w: Row, more: Data)
    ensures RowBytes(w) + more == w.id + (WordBytes(w.generation) + (TimeBytes(w.timestamp)
      + (WordBytes(w.parentOffset) + (WordBytes(w.parentCount) + (WordBytes(w.metaOffset) + more)))))
  {
    var m, c, o := WordBytes(w.metaOffset), WordBytes(w.parentCount), WordBytes(w.parentOffset);
    var t, g := TimeBytes(w.timestamp), WordBytes(w.generation);
    Assoc(w.id, g + (t + (o + (c + m))), more);
    Assoc(g, t + (o + (c + m)), more);
    Assoc(t, o + (c + m), more);
    Assoc(o, c + m, more);
    Assoc(c, m, more);
  }

  method ReadRow(r: Reader, ghost w0: Row, ghost more: Data) returns (w: Row)
    modifies r
    ensures old(r.rest) == RowBytes(w0) + more ==> w == w0 && r.rest == more
  {
    ghost var written := r.rest == RowBytes(w0) + more;
    RowParts(w0, more);
    ghost var data := r.rest;
    var id := ReadHash(r);
    if written {
      PrefixSplit(id, r.rest, w0.id, WordBytes(w0.generation) + (TimeBytes(w0.timestamp)
        + (WordBytes(w0.parentOffset) + (WordBytes(w0.parentCount) + (WordBytes(w0.metaOffset) + more)))));
    }
    var generation := ReadWord(r);
    var timestamp := ReadTime(r);
    var parentOffset := ReadWord(r);
    var parentCount := ReadWord(r);
    var metaOffset := ReadWord(r);
    w := Row(id, generation, timestamp, parentOffset, parentCount, metaOffset);
  }

  lemma TableFirst(rows: seq<Row>, more: Data)
    requires rows != []
    ensures TableBytes(rows) + more == RowBytes(rows[0]) + (TableBytes(rows[1..]) + more)
  {
    Assoc(RowBytes(rows[0]), TableBytes(rows[1..]), more);
  }

  lemma AnnouncedSnoc(rows: seq<Row>, w: Row)
    ensures Cut(Announced(rows + [w])) == Cut(Cut(Announced(rows)) + w.parentCount)
  {
    assert (rows + [w])[..|rows|] == rows;
    CutAdd(Announced(rows), w.parentCount);
  }

  /** What is left of a written table, while rows have been read. */
  ghost predicate TableLeft(r: Data, rows0: seq<Row>, rows: seq<Row>, left: seq<Row>, more: Data) {
    rows0 == rows + left && r == TableBytes(left) + more
  }

  lemma TableStep(before: Data, after: Data, rows0: seq<Row>, rows: seq<Row>, left: seq<Row>, more: Data, w: Row)
    requires TableLeft(before, rows0, rows, left, more) && left != []
    requires before == RowBytes(left[0]) + (TableBytes(left[1..]) + more)
      ==> w == left[0] && after == TableBytes(left[1..]) + more
    ensures TableLeft(after, rows0, rows + [w], left[1..], more)
  {
    TableFirst(left, more);
    assert rows + left == rows + [left[0]] + left[1..];
  }

  /** The commit table, with the number of parents its rows announce. */
  method ReadTable(r: Reader, count: Word, ghost rows0: seq<Row>, ghost more: Data)
    returns (rows: seq<Row>, totalParents: Word)
    modifies r
    ensures |rows| == count && totalParents == Cut(Announced(rows))
    ensures |rows0| == count && old(r.rest) == TableBytes(rows0) + more ==> rows == rows0 && r.rest == more
  {
    ghost var written := |rows0| == count && r.rest == TableBytes(rows0) + more;
    ghost var left := rows0;
    rows, totalParents := [], 0;
    assert rows + left == rows0;
    while |rows| < count
      invariant |rows| <= count && totalParents == Cut(Announced(rows))
      invariant written ==> TableLeft(r.rest, rows0, rows, left, more)
    {
      ghost var before := r.rest;
      ghost var w0, tail: Data := Row(seq(32, _ => 0), 0, 0, 0, 0, 0), [];
      if written { w0, tail := left[0], TableBytes(left[1..]) + more; }
      var w := ReadRow(r, w0, tail);
      if written {
        TableStep(before, r.rest, rows0, rows, left, more, w);
        left := left[1..];
      }
      AnnouncedSnoc(rows, w);
      totalParents := Cut(totalParents + w.parentCount);
      rows := rows + [w];
    }
    if written {
      assert left == [] && rows + [] == rows;
      assert [] + more == more;
    }
  }

  function Announced(rows: seq<Row>): nat
    decreases |rows|
  {
    if rows == [] then 0 else Announced(rows[..|rows| - 1]) + rows[|rows| - 1].parentCount
  }

  lemma RowsSnoc(es: seq<Entry>)
    requires es != []
    ensures Rows(es) == Rows(es[..|es| - 1]) + [RowAt(es, |es| - 1)]
  {
    var n := |es| - 1;
    var front := es[..n];
    forall i | 0 <= i < n ensures RowAt(es, i) == RowAt(front, i) {
      assert es[..i] == front[..i];
    }
  }

  lemma {:induction false} AnnouncedParents(es: seq<Entry>)
    requires |AllParents(es)| < WORD
    ensures Announced(Rows(es)) == |AllParents(es)|
    decreases |es|
  {
    if es != [] {
      var n := |es| - 1;
      RowsSnoc(es);
      AnnouncedParents(es[..n]);
      assert Rows(es)[..n] == Rows(es[..n]);
    }
  }

  /** Where the parents and the text of entry i lie in the blocks. */
  lemma {:induction false} BlocksAround(es: seq<Entry>, i: nat) returns (parents: seq<Hash>, text: Data)
    requires i < |es|
    ensures AllParents(es) == AllParents(es[..i]) + es[i].parents + parents
    ensures AllMeta(es) == AllMeta(es[..i]) + MetaBytes(es[i]) + text
    decreases |es|
  {
    var n := |es| - 1;
    if i == n {
      parents, text := [], [];
    } else {
      var front := es[..n];
      var ps, t := BlocksAround(front, i);
      assert front[..i] == es[..i];
      parents, text := ps + es[n].parents, t + MetaBytes(es[n]);
      MoreAfter(AllParents(es[..i]) + es[i].parents, ps, es[n].parents);
      MoreAfter(AllMeta(es[..i]) + MetaBytes(es[i]), t, MetaBytes(es[n]));
    }
  }

  lemma MoreAfter<T>(x: seq<T>, y: seq<T>, z: seq<T>)
    ensures x + y + z == x + (y + z)
  {
  }

  /** The parents of one row; none where an offset leads out of the parent block. */
  method TakeParents(w: Row, parentData: seq<Hash>) returns (ok: bool, parents: seq<Hash>)
    ensures w.parentOffset + w.parentCount <= |parentData| < WORD
      ==> ok && parents == parentData[w.parentOffset..w.parentOffset + w.parentCount]
  {
    parents := [];
    while |parents| < w.parentCount
      invariant |parents| <= w.parentCount
      invariant w.parentOffset + w.parentCount <= |parentData| < WORD
        ==> parents == parentData[w.parentOffset..w.parentOffset + |parents|]
    {
      var j := Cut(w.parentOffset + |parents|);
      if j >= |parentData| {
        return false, parents;
      }
      parents := parents + [parentData[j]];
    }
    ok := true;
  }

  /** The loaded entry is the written one exactly when its text holds no NUL. */
  ghost predicate Recovers(e: Entry, loaded: Entry) {
    loaded.(author := e.author, message := e.message) == e && (loaded == e <==> TextFits(e))
  }

  method MakeEntry(w: Row, parentData: seq<Hash>, meta: Data, ghost es: seq<Entry>, ghost i: nat)
    returns (ok: bool, e: Entry)
    ensures i < |es| && SizesFit(es) && w == RowAt(es, i) && parentData == AllParents(es) && meta == AllMeta(es)
      ==> ok && Recovers(es[i], e)
  {
    ghost var written := i < |es| && SizesFit(es) && w == RowAt(es,
        i) && parentData == AllParents(es) && meta == AllMeta(es);
    ghost var more: seq<Hash>, tail: Data := [], [];
    if written {
      more, tail := BlocksAround(es, i);
      assert |AllParents(es[..i])| + |es[i].parents| <= |AllParents(es)|;
      assert |AllMeta(es[..i])| <= |AllMeta(es)|;
      assert parentData[w.parentOffset..w.parentOffset + w.parentCount] == es[i].parents;
      MetaReads(AllMeta(es[..i]), es[i], tail, w.metaOffset);
    }
    var parents;
    ok, parents := TakeParents(w, parentData);
    var text := ReadMeta(meta, w.metaOffset);
    e := Entry(w.id, w.generation, w.timestamp, parents, text.author, text.message);
  }

  /** Nothing is loaded unless the checksum is right; a written index whose sizes fit comes back entry by entry. */
  method ParseIndex(sha: Data -> Hash, data: Data, ghost es: seq<Entry>) returns (load: Load)
    ensures !load.Refused? ==> |data| >= 48 && sha(data[..|data| - 32]) == data[|data| - 32..]
    ensures !load.Refused? ==> data[..4] == MAGIC && WordOf(data[4..8]) == VERSION
    ensures data == IndexBytes(sha, es) && SizesFit(es) ==>
      load.Loaded? && |load.entries| == |es| && forall i | 0 <= i < |es| :: Recovers(es[i], load.entries[i])
  {
    ghost var written := data == IndexBytes(sha, es) && SizesFit(es);
    ghost var tail := TableBytes(Rows(es)) + (HashBytes(AllParents(es)) + AllMeta(es));
    if written { BodyParts(sha, data, es, tail); }
    if |data| < 48 {
      return Refused;
    }
    var body, storedSum := data[..|data| - 32], data[|data| - 32..];
    if sha(body) != storedSum {
      return Refused;
    }
    var r := new Reader(body);
    var ok, count := ReadHeader(r, |es| as int, tail, written);
    assert body[..4] == data[..4] && body[4..8] == data[4..8];
    if !ok {
      return Refused;
    }
    load := ReadEntries(r, count, es);
  }

  /** The header: magic, version, how many entries, and four bytes for later use. */
  method ReadHeader(r: Reader, ghost n: int, ghost tail: Data, ghost written: bool) returns (ok: bool, count: Word)
    requires |r.rest| >= 16
    requires written ==> 0 <= n < WORD
    requires written ==> r.rest == MAGIC + (WordBytes(VERSION) + (WordBytes(n) + (WordBytes(0) + tail)))
    modifies r
    ensures ok ==> old(r.rest)[..4] == MAGIC && WordOf(old(r.rest)[4..8]) == VERSION
    ensures written ==> ok && count == n && r.rest == tail
  {
    ghost var all := r.rest;
    var _, magic := r.Read(4);
    assert all == magic + r.rest && r.rest[..4] == all[4..8];
    if written { PrefixSplit(magic, r.rest, MAGIC, WordBytes(VERSION) + (WordBytes(n) + (WordBytes(0) + tail))); }
    if magic != MAGIC {
      return false, 0;
    }
    var version := ReadWord(r);
    count := ReadWord(r);
    var reserved := ReadWord(r);
    ok := version == VERSION;
  }

  lemma BodyParts(sha: Data -> Hash, data: Data, es: seq<Entry>, tail: Data)
    requires data == IndexBytes(sha, es) && SizesFit(es)
    requires tail == TableBytes(Rows(es)) + (HashBytes(AllParents(es)) + AllMeta(es))
    ensures |data| >= 48 && data[..|data| - 32] == IndexBody(es) && sha(IndexBody(es)) == data[|data| - 32..]
    ensures |MAGIC| == 4
    ensures IndexBody(es) == MAGIC + (WordBytes(VERSION) + (WordBytes(|es|) + (WordBytes(0) + tail)))
  {
    var v, c, z := WordBytes(VERSION), WordBytes(|es|), WordBytes(0);
    assert |v| == 4 && |c| == 4 && |z| == 4;
    assert data[..|data| - 32] == IndexBody(es);
    Assoc(MAGIC, v + (c + z), tail);
    Assoc(v, c + z, tail);
    Assoc(c, z, tail);
  }

  /** Everything after the header. */
  method ReadEntries(r: Reader, count: Word, ghost es: seq<Entry>) returns (load: Load)
    modifies r
    ensures !load.Refused?
    ensures count == |es| && SizesFit(es) && old(r.rest) == AfterHeader(es) ==>
      load.Loaded? && |load.entries| == |es| && forall i | 0 <= i < |es| :: Recovers(es[i], load.entries[i])
  {
    ghost var tail := HashBytes(AllParents(es)) + AllMeta(es);
    ghost var written := count == |es| && SizesFit(es) && r.rest == TableBytes(Rows(es)) + tail;
    var rows, totalParents := ReadTable(r, count, Rows(es), tail);
    if written { AnnouncedParents(es); }
    var parentData := ReadParents(r, totalParents, AllParents(es), AllMeta(es));
    var meta := r.ReadRest();
    var all: seq<Entry> := [];
    while |all| < |rows|
      invariant |all| <= |rows|
      invariant written ==> forall i | 0 <= i < |all| :: Recovers(es[i], all[i])
    {
      var ok, e := MakeEntry(rows[|all|], parentData, meta, es, |all|);
      if !ok {
        return Crashed;
      }
      all := all + [e];
    }
    load := Loaded(all);
  }

  method ReadParents(r: Reader, total: Word, ghost hs: seq<Hash>, ghost more: Data) returns (parentData: seq<Hash>)
    modifies r
    ensures total == |hs| && old(r.rest) == HashBytes(hs) + more ==> parentData == hs && r.rest == more
  {
    ghost var written := total == |hs| && r.rest == HashBytes(hs) + more;
    parentData := [];
    while |parentData| < total
      invariant |parentData| <= total
      invariant written ==> parentData == hs[..|parentData|] && r.rest == HashBytes(hs[|parentData|..]) + more
    {
      var i := |parentData|;
      ghost var h0, tail: Data := seq(32, _ => 0), [];
      if written {
        h0, tail := hs[i], HashBytes(hs[i + 1..]) + more;
        assert hs[i..][0] == h0 && hs[i..][1..] == hs[i + 1..];
        Assoc(h0, HashBytes(hs[i + 1..]), more);
      }
      var h := ReadHash(r);
      if written { PrefixSplit(h, r.rest, h0, tail); }
      parentData := parentData + [h];
    }
    if written {
      assert hs[..total] == hs && hs[total..] == [];
      assert [] + more == more;
    }
  }

  /** Writing and reading an index whose sizes fit gives back the entries exactly when no text holds a NUL. */
  method WriteAndParse(sha: Data -> Hash, es: seq<Entry>) returns (load: Load)
    requires SizesFit(es)
    ensures load == Loaded(es) <==> forall e | e in es :: TextFits(e)
  {
    var data := WriteIndex(sha, es);
    load := ParseIndex(sha, data, es);
    if forall e | e in es :: TextFits(e) {
      assert load.entries == es;
    } else {
      var e :| e in es && !TextFits(e);
      var i :| 0 <= i < |es| && es[i] == e;
      assert load.entries[i] != es[i];
    }
  }
}
