/** Printing conflicts and reading them back, for all inputs. */
module RoundTrip {
  import opened Edits
  import opened Text
  import opened Blocks
  import opened Regions
  import opened Render
  import opened ThreeWay
  import opened MergeLaws
  import opened Hunks

  // ----- any file that parses -----

  lemma {:induction false} RawConcat(a: seq<Segment>, b: seq<Segment>)
    ensures Raw(a + b) == Raw(a) + Raw(b)
  {
    if a == [] {
      assert a + b == b;
    } else {
      assert (a + b)[1..] == a[1..] + b;
      RawConcat(a[1..], b);
    }
  }

  lemma FlushRaw(text: seq<Line>)
    ensures Raw(Flush(text)) == text && HunkCount(Flush(text)) == 0
  {
    if text != [] {
      assert Flush(text)[1..] == [];
    }
  }

  /** A hunk put back in front of the rest. */
  lemma HunkKeepsLines(lines: seq<Line>, text: seq<Line>, h: Hunk, rest: seq<Line>, segs: seq<Segment>)
    requires |rest| < |lines| && rest == lines[|lines| - |rest|..] && Raw(segs) == rest
    ensures Raw(Flush(text) + [Conflicted(h, lines[..|lines| - |rest|])] + segs) == text + lines
  {
    var raw := lines[..|lines| - |rest|];
    var seg := Conflicted(h, raw);
    FlushRaw(text);
    RawConcat(Flush(text) + [seg], segs);
    RawConcat(Flush(text), [seg]);
    assert [seg][1..] == [];
    assert raw + rest == lines;
    assert text + (raw + []) + rest == text + (raw + rest);
  }

  lemma TailOfTail(lines: seq<Line>, n: nat)
    requires lines != [] && n < |lines|
    ensures lines[1..][|lines[1..]| - n..] == lines[|lines| - n..]
  {
  }

  /** What the parser does at a begin marker. */
  lemma BeginCase(lines: seq<Line>, at: nat, text: seq<Line>) returns (scan: HunkResult, at': nat)
    requires lines != [] && IsBegin(lines[0])
    ensures scan.Closed? ==> |scan.rest| < |lines| && scan.rest == lines[|lines| - |scan.rest|..]
    ensures scan.Bad? ==> ParseFrom(lines, at, text) == Failed(scan.error)
    ensures scan.Closed? ==> ParseFrom(lines, at, text) == Prepend(
      Flush(text) + [Conflicted(scan.hunk, lines[..|lines| - |scan.rest|])], ParseFrom(scan.rest, at', []))
  {
    scan := ScanHunk(lines[1..], at + 1, at, InOurs, NO_HUNK);
    ScanShortens(lines[1..], at + 1, at, InOurs, NO_HUNK);
    if scan.Closed? {
      at' := at + |lines| - |scan.rest|;
      TailOfTail(lines, |scan.rest|);
    } else {
      at' := at;
    }
  }

  lemma {:induction false} ParseKeepsLines(lines: seq<Line>, at: nat, text: seq<Line>, r: ParseResult)
    requires r == ParseFrom(lines, at, text)
    ensures r.Parsed? ==> Raw(r.segs) == text + lines
    decreases |lines|
  {
    if lines == [] {
      FlushRaw(text);
    } else if !IsBegin(lines[0]) {
      ParseKeepsLines(lines[1..], at + 1, text + [lines[0]], r);
      assert text + [lines[0]] + lines[1..] == text + lines by { assert lines == [lines[0]] + lines[1..]; }
    } else {
      var scan, at' := BeginCase(lines, at, text);
      if scan.Closed? {
        var r' := ParseFrom(scan.rest, at', []);
        ParseKeepsLines(scan.rest, at', [], r');
        HunkCaseKeeps(lines, text, scan, r', r);
      }
    }
  }

  lemma HunkCaseKeeps(lines: seq<Line>, text: seq<Line>, scan: HunkResult, rest: ParseResult, r: ParseResult)
    requires scan.Closed? && |scan.rest| < |lines| && scan.rest == lines[|lines| - |scan.rest|..]
    requires r == Prepend(Flush(text) + [Conflicted(scan.hunk, lines[..|lines| - |scan.rest|])], rest)
    requires rest.Parsed? ==> Raw(rest.segs) == [] + scan.rest
    ensures r.Parsed? ==> Raw(r.segs) == text + lines
  {
    if rest.Parsed? {
      assert [] + scan.rest == scan.rest;
      HunkKeepsLines(lines, text, scan.hunk, scan.rest, rest.segs);
    }
  }

  lemma {:induction false} NothingDecided(segs: seq<Segment>, k: nat)
    ensures Settled(segs, [], k) == Raw(segs) && Skipped(segs, [], k) == HunkCount(segs)
    decreases |segs|
  {
    if segs != [] {
      NothingDecided(segs[1..], if segs[0].Text? then k else k + 1);
    }
  }

  /** For every text that parses, assembling it with no decision gives back the text. */
  lemma UndecidedIsUnchanged(data: string)
    ensures var r := ParseFrom(Lines(data), 1, []);
            r.Parsed? ==> Join(Settled(r.segs, [], 0)) == data && Skipped(r.segs, [], 0) == HunkCount(r.segs)
  {
    var r := ParseFrom(Lines(data), 1, []);
    ParseKeepsLines(Lines(data), 1, [], r);
    if r.Parsed? {
      NothingDecided(r.segs, 0);
      JoinLines(data);
      assert [] + Lines(data) == Lines(data);
    }
  }

  // ----- what Render writes -----

  /** The lines are complete and none of them is a marker. */
  predicate Clean(lines: seq<Line>) {
    forall i | 0 <= i < |lines| :: IsFullLine(lines[i]) && !IsMarker(lines[i])
  }

  predicate CleanChunk(c: Chunk) {
    if c.Plain? then Clean(c.lines) else Clean(c.ours) && Clean(c.base) && Clean(c.theirs)
  }

  predicate CleanChunks(cs: seq<Chunk>) {
    forall i | 0 <= i < |cs| :: CleanChunk(cs[i])
  }

  predicate CleanLabels(m: Marking) {
    IsLabel(m.ourTag) && IsLabel(m.theirTag)
  }

  lemma CleanSplit(a: seq<Line>, b: seq<Line>)
    ensures Clean(a + b) <==> Clean(a) && Clean(b)
  {
    var c := a + b;
    if Clean(c) {
      assert forall i | 0 <= i < |a| :: a[i] == c[i];
      assert forall i | 0 <= i < |b| :: b[i] == c[|a| + i];
    }
  }

  /** The lines of one written chunk. */
  ghost function ChunkLines(c: Chunk, m: Marking): seq<Line> {
    match c
    case Plain(lines) => lines
    case Conflict(_, _, _) =>
      var l := LayoutOf(c, m.style);
      l.above + HunkLines(l, m) + l.below
  }

  /** The lines from the begin to the end marker. */
  function HunkLines(l: Layout, m: Marking): seq<Line> {
    ([BeginLine(m.ourTag)] + l.ours) + BaseLines(l, m) + ([SEP_LINE] + l.theirs) + [EndLine(m.theirTag)]
  }

  function BaseLines(l: Layout, m: Marking): seq<Line> {
    if m.style == Merge then [] else [BASE_LINE] + l.base
  }

  ghost function AllLines(cs: seq<Chunk>, m: Marking): seq<Line> {
    if cs == [] then [] else ChunkLines(cs[0], m) + AllLines(cs[1..], m)
  }

  lemma CleanLayout(c: Chunk, style: Style)
    requires c.Conflict? && CleanChunk(c)
    ensures var l := LayoutOf(c, style);
            Clean(l.above) && Clean(l.ours) && Clean(l.base) && Clean(l.theirs) && Clean(l.below)
  {
    HoistingKeepsBothSides(c, style);
    var l := LayoutOf(c, style);
    CleanSplit(l.above + l.ours, l.below);
    CleanSplit(l.above, l.ours);
    CleanSplit(l.above + l.theirs, l.below);
    CleanSplit(l.above, l.theirs);
    if style == Zdiff3 {
      CleanTrim(c.base, l.above, l.below);
    }
  }

  lemma CleanTrim(base: seq<Line>, pre: seq<Line>, suf: seq<Line>)
    requires Clean(base)
    ensures Clean(TrimmedBase(base, pre, suf))
  {
    var k := PrefixLen(base, pre);
    CleanSplit(base[..k], base[k..]);
    assert base[..k] + base[k..] == base;
    var rest := base[k..];
    var cut := |rest| - SuffixLen(rest, suf);
    CleanSplit(rest[..cut], rest[cut..]);
    assert rest[..cut] + rest[cut..] == rest;
  }

  /** Text written so far ends in a line end, so a section that starts here starts on its own line. */
  lemma {:induction false} FullEnds(out: string, lines: seq<Line>)
    requires Terminated(out) && FullLines(lines)
    ensures Terminated(out + Join(lines)) && EnsureNewline(out + Join(lines)) == out + Join(lines)
    decreases |lines|
  {
    if lines != [] {
      assert IsFullLine(lines[0]);
      assert out + lines[0] + Join(lines[1..]) == out + Join(lines);
      FullEnds(out + lines[0], lines[1..]);
    }
  }

  predicate FullSections(ss: seq<seq<Line>>) {
    forall i | 0 <= i < |ss| :: FullLines(ss[i])
  }

  function Flat(ss: seq<seq<Line>>): seq<Line> {
    if ss == [] then [] else ss[0] + Flat(ss[1..])
  }

  lemma SectionsFirst(out: string, ss: seq<seq<Line>>, next: string)
    requires ss != [] && EnsureNewline(out + Join(ss[0])) == next
    ensures Sections(out, ss) == Sections(next, ss[1..])
  {
  }

  lemma FlatFirst(ss: seq<seq<Line>>, rest: seq<Line>)
    requires ss != [] && FullSections(ss) && rest == Flat(ss[1..])
    ensures Flat(ss) == ss[0] + rest && FullLines(ss[0]) && FullSections(ss[1..])
  {
    assert forall i | 0 <= i < |ss[1..]| :: ss[1..][i] == ss[i + 1];
  }

  lemma {:induction false} FullSectionsText(out: string, ss: seq<seq<Line>>, lines: seq<Line>)
    requires Terminated(out) && FullSections(ss) && lines == Flat(ss)
    ensures Sections(out, ss) == out + Join(lines) && Terminated(out + Join(lines))
    decreases |ss|
  {
    if ss == [] {
      assert out + Join([]) == out;
    } else {
      var first, rest := ss[0], Flat(ss[1..]);
      FlatFirst(ss, rest);
      FullEnds(out, first);
      var next := out + Join(first);
      FullSectionsText(next, ss[1..], rest);
      SectionsFirst(out, ss, next);
      JoinFirst(out, first, rest);
    }
  }

  lemma {:induction false} FlatConcat(a: seq<seq<Line>>, b: seq<seq<Line>>)
    ensures Flat(a + b) == Flat(a) + Flat(b)
  {
    if a == [] {
      assert a + b == b;
    } else {
      assert (a + b)[1..] == a[1..] + b;
      FlatConcat(a[1..], b);
    }
  }

  lemma FlatOne(a: seq<Line>)
    ensures Flat([a]) == a
  {
    assert [a][1..] == [];
  }

  lemma MiddleLines(l: Layout, m: Marking)
    ensures Flat(MiddleSections(l, m.ourTag, m.style != Merge))
         == ([BeginLine(m.ourTag)] + l.ours) + BaseLines(l, m) + ([SEP_LINE] + l.theirs)
  {
    var begin, sep := [BeginLine(m.ourTag)] + l.ours, [SEP_LINE] + l.theirs;
    var base := if m.style != Merge then [[BASE_LINE] + l.base] else [];
    FlatOne(begin);
    FlatOne(sep);
    FlatOne([BASE_LINE] + l.base);
    FlatConcat([begin], base);
    FlatConcat([begin] + base, [sep]);
  }

  lemma ConflictLines(c: Chunk, m: Marking)
    requires c.Conflict?
    ensures Flat(ConflictSections(c, m)) == ChunkLines(c, m)
  {
    var l := LayoutOf(c, m.style);
    var middle, end := MiddleSections(l, m.ourTag, m.style != Merge), [EndLine(m.theirTag)] + l.below;
    var above := if m.style == Zdiff3 then [l.above] else [];
    MiddleLines(l, m);
    FlatOne(l.above);
    FlatOne(end);
    FlatConcat(above, middle);
    FlatConcat(above + middle, [end]);
    assert Flat(above) == l.above;
    assert l.above + Flat(middle) + ([EndLine(m.theirTag)] + l.below)
        == l.above + (Flat(middle) + [EndLine(m.theirTag)]) + l.below;
  }

  lemma FullMarked(marker: Line, lines: seq<Line>)
    requires IsFullLine(marker) && Clean(lines)
    ensures FullLines([marker] + lines)
  {
  }

  lemma FullConflict(c: Chunk, m: Marking)
    requires c.Conflict? && CleanChunk(c) && CleanLabels(m)
    ensures FullSections(ConflictSections(c, m))
  {
    var l := LayoutOf(c, m.style);
    CleanLayout(c, m.style);
    MarkerLinesAreFull(m.ourTag);
    MarkerLinesAreFull(m.theirTag);
    FullMarked(BeginLine(m.ourTag), l.ours);
    FullMarked(BASE_LINE, l.base);
    FullMarked(SEP_LINE, l.theirs);
    FullMarked(EndLine(m.theirTag), l.below);
  }

  lemma ChunkText(out: string, c: Chunk, m: Marking)
    requires Terminated(out) && CleanChunk(c) && CleanLabels(m)
    ensures WriteChunk(out, c, m) == out + Join(ChunkLines(c, m)) && Terminated(out + Join(ChunkLines(c, m)))
  {
    if c.Plain? {
      FullEnds(out, c.lines);
    } else {
      FullConflict(c, m);
      ConflictLines(c, m);
      FullSectionsText(out, ConflictSections(c, m), ChunkLines(c, m));
    }
  }

  lemma CleanTail(cs: seq<Chunk>)
    requires CleanChunks(cs) && cs != []
    ensures CleanChunk(cs[0]) && CleanChunks(cs[1..])
  {
    assert forall i | 0 <= i < |cs[1..]| :: cs[1..][i] == cs[i + 1];
  }

  /** For complete lines the rendered text is exactly the lines of its chunks. */
  lemma {:induction false} RenderedLines(out: string, cs: seq<Chunk>, m: Marking, lines: seq<Line>)
    requires Terminated(out) && CleanChunks(cs) && CleanLabels(m) && lines == AllLines(cs, m)
    ensures WriteChunks(out, cs, m) == out + Join(lines)
    decreases |cs|
  {
    if cs == [] {
      assert out + Join([]) == out;
    } else {
      CleanTail(cs);
      var ls, rest := ChunkLines(cs[0], m), AllLines(cs[1..], m);
      ChunkText(out, cs[0], m);
      RenderedLines(out + Join(ls), cs[1..], m, rest);
      WriteFirst(out, cs, m, out + Join(ls));
      JoinFirst(out, ls, rest);
    }
  }

  lemma {:induction false} FullFlat(ss: seq<seq<Line>>)
    requires FullSections(ss)
    ensures FullLines(Flat(ss))
    decreases |ss|
  {
    if ss != [] {
      assert forall i | 0 <= i < |ss[1..]| :: ss[1..][i] == ss[i + 1];
      FullFlat(ss[1..]);
    }
  }

  lemma {:induction false} AllLinesFull(cs: seq<Chunk>, m: Marking)
    requires CleanChunks(cs) && CleanLabels(m)
    ensures FullLines(AllLines(cs, m))
    decreases |cs|
  {
    if cs != [] {
      if cs[0].Conflict? {
        FullConflict(cs[0], m);
        FullFlat(ConflictSections(cs[0], m));
        ConflictLines(cs[0], m);
      }
      CleanTail(cs);
      AllLinesFull(cs[1..], m);
    }
  }

  // ----- parsing it back -----

  function AddLines(h: Hunk, sec: Section, ls: seq<Line>): Hunk {
    match sec
    case InOurs => h.(ours := h.ours + ls)
    case InBase => h.(base := h.base + ls)
    case InTheirs => h.(theirs := h.theirs + ls)
  }

  lemma AddLinesStep(h: Hunk, sec: Section, ls: seq<Line>)
    requires ls != []
    ensures AddLines(AddLine(h, sec, ls[0]), sec, ls[1..]) == AddLines(h, sec, ls)
  {
    assert ls == [ls[0]] + ls[1..];
    match sec
    case InOurs => assert h.ours + [ls[0]] + ls[1..] == h.ours + ls;
    case InBase => assert h.base + [ls[0]] + ls[1..] == h.base + ls;
    case InTheirs => assert h.theirs + [ls[0]] + ls[1..] == h.theirs + ls;
  }

  /** Lines without markers all go to the current section. */
  lemma {:induction false} ScanBody(body: seq<Line>, rest: seq<Line>, at: nat, begin: nat, sec: Section, h: Hunk)
    requires Clean(body)
    ensures ScanHunk(body + rest, at, begin, sec, h) == ScanHunk(rest, at + |body|, begin, sec, AddLines(h, sec, body))
    decreases |body|
  {
    if body == [] {
      assert body + rest == rest;
      assert AddLines(h, sec, []) == h;
    } else {
      assert (body + rest)[0] == body[0] && (body + rest)[1..] == body[1..] + rest;
      assert !IsMarker(body[0]);
      assert Clean(body[1..]) by { assert forall i | 0 <= i < |body[1..]| :: body[1..][i] == body[i + 1]; }
      ScanBody(body[1..], rest, at + 1, begin, sec, AddLine(h, sec, body[0]));
      AddLinesStep(h, sec, body);
    }
  }

  lemma ScanMarker(marker: Line, rest: seq<Line>, at: nat, begin: nat, sec: Section, h: Hunk)
    ensures ScanHunk([marker] + rest, at, begin, sec, h) ==
            match StepHunk(marker, at, sec, h)
            case Reject(e) => Bad(e)
            case Close => Closed(h, rest)
            case Continue(sec', h') => ScanHunk(rest, at + 1, begin, sec', h')
  {
    assert ([marker] + rest)[1..] == rest;
  }

  /** The hunk a layout is read back as. */
  function HunkOf(l: Layout, m: Marking): Hunk {
    Hunk(l.ours, if m.style == Merge then [] else l.base, l.theirs, m.style != Merge)
  }

  predicate CleanVersions(l: Layout) {
    Clean(l.ours) && Clean(l.base) && Clean(l.theirs)
  }

  /** From the separator on. */
  lemma ScanTheirs(l: Layout, m: Marking, tail: seq<Line>, at: nat, begin: nat, sec: Section, h: Hunk)
    requires CleanVersions(l) && sec != InTheirs && h.theirs == []
    ensures ScanHunk([SEP_LINE] + (l.theirs + ([EndLine(m.theirTag)] + tail)), at, begin, sec, h)
         == Closed(h.(theirs := l.theirs), tail)
  {
    MarkerLines(m.theirTag);
    ScanMarker(SEP_LINE, l.theirs + ([EndLine(m.theirTag)] + tail), at, begin, sec, h);
    ScanBody(l.theirs, [EndLine(m.theirTag)] + tail, at + 1, begin, InTheirs, h);
    ScanMarker(EndLine(m.theirTag), tail, at + 1 + |l.theirs|, begin, InTheirs, AddLines(h, InTheirs, l.theirs));
    assert [] + l.theirs == l.theirs;
  }

  lemma InnerLines(l: Layout, m: Marking, tail: seq<Line>, after: seq<Line>)
    requires after == [SEP_LINE] + (l.theirs + ([EndLine(m.theirTag)] + tail))
    ensures HunkLines(l, m) != [] && HunkLines(l, m)[0] == BeginLine(m.ourTag)
    ensures (HunkLines(l, m) + tail)[1..] == l.ours + (BaseLines(l, m) + after)
  {
  }

  lemma ScanTwoWay(l: Layout, m: Marking, tail: seq<Line>, at: nat, begin: nat, after: seq<Line>)
    requires CleanVersions(l) && after == [SEP_LINE] + (l.theirs + ([EndLine(m.theirTag)] + tail))
    ensures ScanHunk(l.ours + after, at, begin, InOurs, NO_HUNK) == Closed(Hunk(l.ours, [], l.theirs, false), tail)
  {
    ScanBody(l.ours, after, at, begin, InOurs, NO_HUNK);
    assert [] + l.ours == l.ours;
    ScanTheirs(l, m, tail, at + |l.ours|, begin, InOurs, Hunk(l.ours, [], [], false));
  }

  lemma ScanThreeWay(l: Layout, m: Marking, tail: seq<Line>, at: nat, begin: nat, after: seq<Line>)
    requires CleanVersions(l) && after == [SEP_LINE] + (l.theirs + ([EndLine(m.theirTag)] + tail))
    ensures ScanHunk(l.ours + ([BASE_LINE] + (l.base + after)), at, begin, InOurs, NO_HUNK)
         == Closed(Hunk(l.ours, l.base, l.theirs, true), tail)
  {
    MarkerLines(m.ourTag);
    ScanBody(l.ours, [BASE_LINE] + (l.base + after), at, begin, InOurs, NO_HUNK);
    assert [] + l.ours == l.ours && [] + l.base == l.base;
    ScanMarker(BASE_LINE, l.base + after, at + |l.ours|, begin, InOurs, Hunk(l.ours, [], [], false));
    ScanBody(l.base, after, at + |l.ours| + 1, begin, InBase, Hunk(l.ours, [], [], true));
    ScanTheirs(l, m, tail, at + |l.ours| + 1 + |l.base|, begin, InBase, Hunk(l.ours, l.base, [], true));
  }

  /** A written hunk is read back as what it was written from. */
  lemma ScanWritten(l: Layout, m: Marking, tail: seq<Line>, at: nat, begin: nat, inner: seq<Line>)
    requires CleanVersions(l) && inner == (HunkLines(l, m) + tail)[1..]
    ensures ScanHunk(inner, at, begin, InOurs, NO_HUNK) == Closed(HunkOf(l, m), tail)
  {
    var after := [SEP_LINE] + (l.theirs + ([EndLine(m.theirTag)] + tail));
    InnerLines(l, m, tail, after);
    if m.style == Merge {
      assert BaseLines(l, m) + after == after;
      ScanTwoWay(l, m, tail, at, begin, after);
    } else {
      assert BaseLines(l, m) + after == [BASE_LINE] + (l.base + after);
      ScanThreeWay(l, m, tail, at, begin, after);
    }
  }

  lemma {:induction false} ParseText(body: seq<Line>, rest: seq<Line>, at: nat, text: seq<Line>)
    requires Clean(body)
    ensures ParseFrom(body + rest, at, text) == ParseFrom(rest, at + |body|, text + body)
    decreases |body|
  {
    if body == [] {
      assert body + rest == rest && text + body == text;
    } else {
      assert (body + rest)[0] == body[0] && (body + rest)[1..] == body[1..] + rest;
      assert !IsMarker(body[0]);
      assert Clean(body[1..]) by { assert forall i | 0 <= i < |body[1..]| :: body[1..][i] == body[i + 1]; }
      ParseText(body[1..], rest, at + 1, text + [body[0]]);
      assert text + [body[0]] + body[1..] == text + body;
    }
  }

  ghost predicate ParsesTo(lines: seq<Line>, at: nat, text: seq<Line>, r: ParseResult) {
    ParseFrom(lines, at, text) == r
  }

  /**
   The parser answers r. The quantifier keeps the solver from running the parser except where a
   proof names ParsesTo.
   */
  ghost predicate Yields(lines: seq<Line>, at: nat, text: seq<Line>, r: ParseResult) {
    forall x | x == r :: ParsesTo(lines, at, text, x)
  }

  lemma YieldsText(body: seq<Line>, rest: seq<Line>, at: nat, text: seq<Line>, r: ParseResult)
    requires Clean(body) && Yields(rest, at + |body|, text + body, r)
    ensures Yields(body + rest, at, text, r)
  {
    assert ParsesTo(rest, at + |body|, text + body, r);
    ParseText(body, rest, at, text);
  }

  lemma YieldsHunk(l: Layout, m: Marking, tail: seq<Line>, at: nat, text: seq<Line>, r: ParseResult)
    requires CleanVersions(l) && Yields(tail, at + |HunkLines(l, m)|, [], r)
    ensures Yields(HunkLines(l, m) + tail, at, text,
        Prepend(Flush(text) + [Conflicted(HunkOf(l, m), HunkLines(l, m))], r))
  {
    var hunk := HunkLines(l, m);
    var lines := hunk + tail;
    assert ParsesTo(tail, at + |hunk|, [], r);
    InnerLines(l, m, tail, [SEP_LINE] + (l.theirs + ([EndLine(m.theirTag)] + tail)));
    ScanWritten(l, m, tail, at + 1, at, lines[1..]);
    OneHunk(lines, at, text, HunkOf(l, m), tail, hunk, m, r);
  }

  lemma OneHunk(lines: seq<Line>, at: nat, text: seq<Line>, h: Hunk, tail: seq<Line>, raw: seq<Line>, m: Marking,
                r: ParseResult)
    requires lines == raw + tail && raw != [] && raw[0] == BeginLine(m.ourTag)
    requires ScanHunk(lines[1..], at + 1, at, InOurs, NO_HUNK) == Closed(h, tail)
    requires ParseFrom(tail, at + |raw|, []) == r
    ensures ParseFrom(lines, at, text) == Prepend(Flush(text) + [Conflicted(h, raw)], r)
  {
    MarkerLines(m.ourTag);
    assert lines[..|lines| - |tail|] == raw;
  }

  /** All lines when every hunk is settled for our side. */
  function SegOurs(segs: seq<Segment>): seq<Line> {
    if segs == [] then []
    else (if segs[0].Text? then segs[0].lines else segs[0].hunk.ours) + SegOurs(segs[1..])
  }

  function SegTheirs(segs: seq<Segment>): seq<Line> {
    if segs == [] then []
    else (if segs[0].Text? then segs[0].lines else segs[0].hunk.theirs) + SegTheirs(segs[1..])
  }

  /** segs is what the chunks are read back as, after the plain text collected before them. */
  ghost predicate ReadsAs(r: ParseResult, cs: seq<Chunk>, text: seq<Line>) {
    && r.Parsed? && HunkCount(r.segs) == ConflictCount(cs)
    && SegOurs(r.segs) == text + ChooseOurs(cs)
    && SegTheirs(r.segs) == text + ChooseTheirs(cs)
  }

  /** The hunks among the segments. */
  function HunksIn(segs: seq<Segment>): seq<Hunk> {
    if segs == [] then []
    else (if segs[0].Conflicted? then [segs[0].hunk] else []) + HunksIn(segs[1..])
  }

  /** The hunks the conflicts should be read as: what they show between the markers. */
  ghost function ConflictHunks(cs: seq<Chunk>, m: Marking): seq<Hunk> {
    if cs == [] then []
    else (if cs[0].Conflict? then [HunkOf(LayoutOf(cs[0], m.style), m)] else []) + ConflictHunks(cs[1..], m)
  }

  ghost predicate HunksAs(r: ParseResult, cs: seq<Chunk>, m: Marking) {
    r.Parsed? && HunksIn(r.segs) == ConflictHunks(cs, m)
  }

  lemma HunksThen(text: seq<Line>, h: Hunk, raw: seq<Line>, segs: seq<Segment>)
    ensures HunksIn(Flush(text)) == []
    ensures HunksIn(Flush(text) + [Conflicted(h, raw)] + segs) == [h] + HunksIn(segs)
  {
    var tail := [Conflicted(h, raw)] + segs;
    assert tail[1..] == segs;
    if text == [] {
      assert Flush(text) + [Conflicted(h, raw)] + segs == tail;
    } else {
      assert Flush(text) + [Conflicted(h, raw)] + segs == [Text(text)] + tail && ([Text(text)] + tail)[1..] == tail;
      assert [Text(text)][1..] == [];
    }
  }

  lemma ConflictHunksFirst(c: Chunk, cs: seq<Chunk>, m: Marking)
    ensures ConflictHunks([c] + cs, m)
         == (if c.Conflict? then [HunkOf(LayoutOf(c, m.style), m)] else []) + ConflictHunks(cs, m)
  {
    assert ([c] + cs)[1..] == cs;
  }

  lemma TextThen(text: seq<Line>, segs: seq<Segment>)
    ensures HunkCount(Flush(text) + segs) == HunkCount(segs)
    ensures SegOurs(Flush(text) + segs) == text + SegOurs(segs)
    ensures SegTheirs(Flush(text) + segs) == text + SegTheirs(segs)
  {
    if text == [] {
      assert Flush(text) + segs == segs;
    } else {
      assert (Flush(text) + segs)[1..] == segs;
    }
  }

  lemma HunkThen(text: seq<Line>, h: Hunk, raw: seq<Line>, segs: seq<Segment>)
    ensures var all := Flush(text) + [Conflicted(h, raw)] + segs;
            && HunkCount(all) == HunkCount(segs) + 1
            && SegOurs(all) == text + (h.ours + SegOurs(segs))
            && SegTheirs(all) == text + (h.theirs + SegTheirs(segs))
  {
    var tail := [Conflicted(h, raw)] + segs;
    assert tail[1..] == segs;
    assert Flush(text) + [Conflicted(h, raw)] + segs == Flush(text) + tail;
    TextThen(text, tail);
  }

  lemma Regroup(text: seq<Line>, above: seq<Line>, mine: seq<Line>, below: seq<Line>, rest: seq<Line>)
    ensures text + above + (mine + (below + rest)) == text + ((above + mine + below) + rest)
  {
  }

  /** One conflict in front of chunks that are read back. */
  lemma ConflictReadsAs(c: Chunk, cs: seq<Chunk>, m: Marking, text: seq<Line>, raw: seq<Line>, r: ParseResult)
    requires c.Conflict? && ReadsAs(r, cs, LayoutOf(c, m.style).below)
    ensures var l := LayoutOf(c, m.style);
            ReadsAs(Prepend(Flush(text + l.above) + [Conflicted(HunkOf(l, m), raw)], r), [c] + cs, text)
  {
    var l := LayoutOf(c, m.style);
    HoistingKeepsBothSides(c, m.style);
    HunkThen(text + l.above, HunkOf(l, m), raw, r.segs);
    assert ([c] + cs)[1..] == cs;
    Regroup(text, l.above, l.ours, l.below, ChooseOurs(cs));
    Regroup(text, l.above, l.theirs, l.below, ChooseTheirs(cs));
  }

  lemma Regroup4(a: seq<Line>, b: seq<Line>, c: seq<Line>, d: seq<Line>)
    ensures a + b + c + d == a + (b + (c + d))
  {
  }

  /** The lines of a conflict with layout l and of what follows it, read by the parser. */
  lemma YieldsLayout(l: Layout, rest: seq<Line>, m: Marking, at: nat, text: seq<Line>, r: ParseResult, hunk: seq<Line>,
                     r': ParseResult)
    requires CleanVersions(l) && Clean(l.above) && Clean(l.below) && hunk == HunkLines(l, m)
    requires Yields(rest, at + |l.above| + |hunk| + |l.below|, l.below, r)
    requires r' == Prepend(Flush(text + l.above) + [Conflicted(HunkOf(l, m), hunk)], r)
    ensures Yields(l.above + hunk + l.below + rest, at, text, r')
  {
    var tail := l.below + rest;
    assert [] + l.below == l.below;
    YieldsText(l.below, rest, at + |l.above| + |hunk|, [], r);
    YieldsHunk(l, m, tail, at + |l.above|, text + l.above, r);
    YieldsText(l.above, hunk + tail, at, text, r');
    Regroup4(l.above, hunk, l.below, rest);
  }

  /** Plain lines in front of chunks that are read back. */
  lemma PlainReadsAs(lines: seq<Line>, cs: seq<Chunk>, text: seq<Line>, r: ParseResult)
    requires ReadsAs(r, cs, text + lines)
    ensures ReadsAs(r, [Plain(lines)] + cs, text)
  {
    assert ([Plain(lines)] + cs)[1..] == cs;
    assert text + lines + ChooseOurs(cs) == text + (lines + ChooseOurs(cs));
    assert text + lines + ChooseTheirs(cs) == text + (lines + ChooseTheirs(cs));
  }

  lemma AllLinesFirst(cs: seq<Chunk>, m: Marking, rest: seq<Line>)
    requires CleanChunks(cs) && cs != [] && rest == AllLines(cs[1..], m)
    ensures AllLines(cs, m) == ChunkLines(cs[0], m) + rest
    ensures CleanChunk(cs[0]) && CleanChunks(cs[1..]) && cs == [cs[0]] + cs[1..]
  {
    CleanTail(cs);
  }

  /** Plain lines in front of chunks that are read back. */
  lemma PlainFirst(lines: seq<Line>, cs: seq<Chunk>, at: nat, text: seq<Line>, rest: seq<Line>, r: ParseResult)
    requires Clean(lines) && Yields(rest, at + |lines|, text + lines, r) && ReadsAs(r, cs, text + lines)
    ensures Yields(lines + rest, at, text, r) && ReadsAs(r, [Plain(lines)] + cs, text)
  {
    YieldsText(lines, rest, at, text, r);
    PlainReadsAs(lines, cs, text, r);
  }

  /** One conflict in front of chunks that are read back. */
  lemma ConflictFirst(c: Chunk, cs: seq<Chunk>, m: Marking, at: nat, text: seq<Line>, l: Layout, rest: seq<Line>,
                      r: ParseResult)
    returns (r': ParseResult)
    requires c.Conflict? && CleanChunk(c) && l == LayoutOf(c, m.style)
    requires Yields(rest, at + |l.above| + |HunkLines(l, m)| + |l.below|, l.below, r) && ReadsAs(r, cs, l.below)
    ensures Yields(ChunkLines(c, m) + rest, at, text, r') && ReadsAs(r', [c] + cs, text)
    ensures HunksAs(r, cs, m) ==> HunksAs(r', [c] + cs, m)
  {
    var hunk := HunkLines(l, m);
    ConflictHunksFirst(c, cs, m);
    HunksThen(text + l.above, HunkOf(l, m), hunk, r.segs);
    r' := Prepend(Flush(text + l.above) + [Conflicted(HunkOf(l, m), hunk)], r);
    CleanLayout(c, m.style);
    YieldsLayout(l, rest, m, at, text, r, hunk, r');
    ConflictReadsAs(c, cs, m, text, hunk, r);
  }

  lemma NothingLeft(m: Marking, at: nat, text: seq<Line>, r: ParseResult)
    requires r == Parsed(Flush(text))
    ensures Yields(AllLines([], m), at, text, r) && ReadsAs(r, [], text) && HunksAs(r, [], m)
  {
    HunksThen(text, NO_HUNK, [], []);
    TextThen(text, []);
    assert Flush(text) + [] == Flush(text);
  }

  /** Where the parser stands after a written chunk, and the plain text it then holds. */
  ghost function AtAfter(c: Chunk, m: Marking, at: nat): nat {
    at + |ChunkLines(c, m)|
  }

  ghost function TextAfter(c: Chunk, m: Marking, text: seq<Line>): seq<Line> {
    if c.Plain? then text + c.lines else LayoutOf(c, m.style).below
  }

  lemma ParseOneMore(c: Chunk, cs: seq<Chunk>, m: Marking, at: nat, text: seq<Line>, rest: seq<Line>, r0: ParseResult)
    returns (r: ParseResult)
    requires CleanChunk(c)
    requires Yields(rest, AtAfter(c, m, at), TextAfter(c, m, text), r0) && ReadsAs(r0, cs, TextAfter(c, m, text))
    ensures Yields(ChunkLines(c, m) + rest, at, text, r) && ReadsAs(r, [c] + cs, text)
    ensures HunksAs(r0, cs, m) ==> HunksAs(r, [c] + cs, m)
  {
    if c.Plain? {
      ConflictHunksFirst(c, cs, m);
      r := r0;
      PlainFirst(c.lines, cs, at, text, rest, r);
    } else {
      r := ConflictFirst(c, cs, m, at, text, LayoutOf(c, m.style), rest, r0);
    }
  }

  /** Written chunks are read back: as many hunks as conflicts, and both sides intact. */
  lemma {:induction false} ParseChunks(cs: seq<Chunk>, m: Marking, at: nat, text: seq<Line>, lines: seq<Line>)
    returns (r: ParseResult)
    requires CleanChunks(cs) && lines == AllLines(cs, m)
    ensures Yields(lines, at, text, r) && ReadsAs(r, cs, text) && HunksAs(r, cs, m)
    decreases |cs|
  {
    if cs == [] {
      r := Parsed(Flush(text));
      NothingLeft(m, at, text, r);
    } else {
      var c, rest := cs[0], AllLines(cs[1..], m);
      AllLinesFirst(cs, m, rest);
      r := ParseChunks(cs[1..], m, AtAfter(c, m, at), TextAfter(c, m, text), rest);
      r := ParseOneMore(c, cs[1..], m, at, text, rest, r);
    }
  }

  // ----- decisions -----

  predicate AllPick(ds: seq<Decision>, k: nat, pick: Pick) {
    forall i | k <= i < |ds| :: ds[i].pick == pick
  }

  lemma {:induction false} AllSettled(segs: seq<Segment>, ds: seq<Decision>, k: nat)
    requires k + HunkCount(segs) <= |ds|
    ensures AllPick(ds, k, PickOurs) ==> Settled(segs, ds, k) == SegOurs(segs) && Skipped(segs, ds, k) == 0
    ensures AllPick(ds, k, PickTheirs) ==> Settled(segs, ds, k) == SegTheirs(segs) && Skipped(segs, ds, k) == 0
    decreases |segs|
  {
    if segs != [] {
      AllSettled(segs[1..], ds, if segs[0].Text? then k else k + 1);
    }
  }

  // ----- clean inputs give clean chunks -----

  lemma {:induction false} CleanPieces(base: seq<Line>, ps: seq<Piece>, lo: nat)
    requires Tiles(ps, lo, |base|) && Clean(base) && Clean(OursOf(base, ps, lo)) && Clean(TheirsOf(base, ps, lo))
    ensures CleanChunks(ChunksOf(base, ps, lo))
    decreases |ps|
  {
    if ps != [] {
      TilesBounded(ps, lo, |base|);
      var p := ps[0];
      CleanSplit(OurView(base, p), OursOf(base, ps[1..], p.hi));
      CleanSplit(TheirView(base, p), TheirsOf(base, ps[1..], p.hi));
      assert Clean(base[p.lo..p.hi]);
      CleanPieces(base, ps[1..], p.hi);
      var cs := ChunksOf(base, ps, lo);
      assert cs == [ChunkOf(base, p)] + ChunksOf(base, ps[1..], p.hi) && CleanChunk(ChunkOf(base, p));
    }
  }

  lemma CleanMerge(base: seq<Line>, ours: seq<Line>, theirs: seq<Line>)
    requires Clean(base) && Clean(ours) && Clean(theirs)
    ensures CleanChunks(MergeChunks(base, ours, theirs))
  {
    if base != [] {
      PiecesAlign(base, ours, theirs);
      CleanPieces(base, PiecesOf(base, ours, theirs), 0);
    }
  }

  /** A text that can be merged and read back: complete lines, none of them a marker. */
  ghost predicate CleanText(data: string) {
    Terminated(data) && MarkerFree(Lines(data))
  }

  lemma CleanTextLines(data: string)
    requires CleanText(data)
    ensures Clean(Lines(data))
  {
    TerminatedLines(data);
  }

  /** For clean inputs the lines of the merged text are those written. */
  lemma MergedLines(base: string, ours: string, theirs: string, m: Marking)
    requires CleanText(base) && CleanText(ours) && CleanText(theirs) && CleanLabels(m)
    ensures var cs := MergeChunks(Lines(base), Lines(ours), Lines(theirs));
            CleanChunks(cs) && Lines(WriteChunks("", cs, m)) == AllLines(cs, m)
  {
    var b, o, t := Lines(base), Lines(ours), Lines(theirs);
    var cs := MergeChunks(b, o, t);
    CleanTextLines(base);
    CleanTextLines(ours);
    CleanTextLines(theirs);
    CleanMerge(b, o, t);
    RenderedLines("", cs, m, AllLines(cs, m));
    assert "" + Join(AllLines(cs, m)) == Join(AllLines(cs, m));
    AllLinesFull(cs, m);
    LinesJoin(AllLines(cs, m));
  }

  /**
   The round trip. For clean inputs, what the merge writes parses in every style, with exactly as
   many hunks as conflicts remain, each with the versions its conflict shows; assembled undecided it
   is the same text; and settled for one side throughout it is that side's version of every
   conflict, whatever the style, so hoisting loses nothing.
   */
  lemma MergeParses(base: string, ours: string, theirs: string, m: Marking)
    requires CleanText(base) && CleanText(ours) && CleanText(theirs) && CleanLabels(m)
    ensures var cs := MergeChunks(Lines(base), Lines(ours), Lines(theirs));
            var out := WriteChunks("", cs, m);
            var r := ParseFrom(Lines(out), 1, []);
            && r.Parsed?
            && HunkCount(r.segs) == MergeStats(Lines(base), Lines(ours), Lines(theirs)).remaining
            && HunksIn(r.segs) == ConflictHunks(cs, m)
            && Join(Settled(r.segs, [], 0)) == out
            && (forall ds | |ds| >= HunkCount(r.segs) && AllPick(ds, 0, PickOurs) ::
                  Settled(r.segs, ds, 0) == ChooseOurs(cs) && Skipped(r.segs, ds, 0) == 0)
            && (forall ds | |ds| >= HunkCount(r.segs) && AllPick(ds, 0, PickTheirs) ::
                  Settled(r.segs, ds, 0) == ChooseTheirs(cs) && Skipped(r.segs, ds, 0) == 0)
  {
    var b, o, t := Lines(base), Lines(ours), Lines(theirs);
    var cs := MergeChunks(b, o, t);
    var out := WriteChunks("", cs, m);
    MergedLines(base, ours, theirs, m);
    StatsAddUp(b, o, t);
    UndecidedIsUnchanged(out);
    var r := ParseChunks(cs, m, 1, [], AllLines(cs, m));
    assert ParsesTo(Lines(out), 1, [], r);
    assert [] + ChooseOurs(cs) == ChooseOurs(cs) && [] + ChooseTheirs(cs) == ChooseTheirs(cs);
    forall ds | |ds| >= HunkCount(r.segs)
      ensures AllPick(ds, 0, PickOurs) ==> Settled(r.segs, ds, 0) == ChooseOurs(cs) && Skipped(r.segs, ds, 0) == 0
      ensures AllPick(ds, 0, PickTheirs) ==> Settled(r.segs, ds, 0) == ChooseTheirs(cs) && Skipped(r.segs, ds, 0) == 0
    {
      AllSettled(r.segs, ds, 0);
    }
  }
}
