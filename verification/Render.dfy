/** The three-way merge of lines and the rendering of its conflicts. */
module Render {
  import opened Edits
  import opened Text
  import opened Blocks
  import opened ChangeBlocks
  import opened Regions

  datatype Style = Merge | Diff3 | Zdiff3

  /** The labels and style conflicts are written with. */
  datatype Marking = Marking(ourTag: string, theirTag: string, style: Style)

  datatype Stats = Stats(total: nat, resolved: nat, remaining: nat)

  /** A part of the result: settled lines, or a conflict with its three versions. */
  datatype Chunk = Plain(lines: seq<Line>) | Conflict(ours: seq<Line>, base: seq<Line>, theirs: seq<Line>)

  // ----- hoisting of shared lines -----

  /** k is the number of leading lines the two lists share. */
  ghost predicate SharesPrefix(a: seq<Line>, b: seq<Line>, k: nat) {
    && k <= |a| && k <= |b| && (forall i | 0 <= i < k :: a[i] == b[i])
    && (k < |a| && k < |b| ==> a[k] != b[k])
  }

  /** The same from the end of the lists. */
  function FromEnd(a: seq<Line>, i: nat): Line
    requires i < |a|
  {
    a[|a| - 1 - i]
  }

  ghost predicate SharesSuffix(a: seq<Line>, b: seq<Line>, k: nat) {
    && k <= |a| && k <= |b| && (forall i | 0 <= i < k :: FromEnd(a, i) == FromEnd(b, i))
    && (k < |a| && k < |b| ==> FromEnd(a, k) != FromEnd(b, k))
  }

  lemma {:induction false} PrefixExists(a: seq<Line>, b: seq<Line>, from: nat)
    requires from <= |a| && from <= |b| && forall i | 0 <= i < from :: a[i] == b[i]
    ensures exists k: nat :: SharesPrefix(a, b, k)
    decreases |a| - from
  {
    if from < |a| && from < |b| && a[from] == b[from] {
      PrefixExists(a, b, from + 1);
    } else {
      assert SharesPrefix(a, b, from);
    }
  }

  lemma {:induction false} SuffixExists(a: seq<Line>, b: seq<Line>, from: nat)
    requires from <= |a| && from <= |b| && forall i | 0 <= i < from :: FromEnd(a, i) == FromEnd(b, i)
    ensures exists k: nat :: SharesSuffix(a, b, k)
    decreases |a| - from
  {
    if from < |a| && from < |b| && FromEnd(a, from) == FromEnd(b, from) {
      SuffixExists(a, b, from + 1);
    } else {
      assert SharesSuffix(a, b, from);
    }
  }

  ghost function PrefixLen(a: seq<Line>, b: seq<Line>): (k: nat)
    ensures SharesPrefix(a, b, k)
  {
    PrefixExists(a, b, 0);
    var k: nat :| SharesPrefix(a, b, k);
    k
  }

  ghost function SuffixLen(a: seq<Line>, b: seq<Line>): (k: nat)
    ensures SharesSuffix(a, b, k)
  {
    SuffixExists(a, b, 0);
    var k: nat :| SharesSuffix(a, b, k);
    k
  }

  method CommonPrefixLen(a: seq<Line>, b: seq<Line>) returns (i: nat)
    ensures i == PrefixLen(a, b)
  {
    i := 0;
    while i < |a| && i < |b| && a[i] == b[i]
      invariant i <= |a| && i <= |b| && forall k | 0 <= k < i :: a[k] == b[k]
    {
      i := i + 1;
    }
    assert SharesPrefix(a, b, i);
  }

  method CommonSuffixLen(a: seq<Line>, b: seq<Line>) returns (i: nat)
    ensures i == SuffixLen(a, b)
  {
    i := 0;
    while i < |a| && i < |b| && a[|a| - 1 - i] == b[|b| - 1 - i]
      invariant i <= |a| && i <= |b| && forall k | 0 <= k < i :: FromEnd(a, k) == FromEnd(b, k)
    {
      i := i + 1;
    }
    assert SharesSuffix(a, b, i);
  }

  /** The base section without the lines that match the hoisted ones. */
  ghost function TrimmedBase(base: seq<Line>, pre: seq<Line>, suf: seq<Line>): seq<Line> {
    var rest := base[PrefixLen(base, pre)..];
    rest[..|rest| - SuffixLen(rest, suf)]
  }

  method TrimBaseByHoist(base: seq<Line>, pre: seq<Line>, suf: seq<Line>) returns (trimmed: seq<Line>)
    ensures trimmed == TrimmedBase(base, pre, suf)
  {
    var i := 0;
    while i < |base| && i < |pre| && base[i] == pre[i]
      invariant 0 <= i <= |base| && i <= |pre| && forall k | 0 <= k < i :: base[k] == pre[k]
    {
      i := i + 1;
    }
    assert SharesPrefix(base, pre, i);
    ghost var rest := base[i..];
    var j, k := |base|, |suf|;
    while j > i && k > 0 && base[j - 1] == suf[k - 1]
      invariant i <= j <= |base| && 0 <= k <= |suf| && |base| - j == |suf| - k
      invariant forall e | 0 <= e < |base| - j :: FromEnd(rest, e) == FromEnd(suf, e)
    {
      assert FromEnd(rest, |base| - j) == base[j - 1] && FromEnd(suf, |base| - j) == suf[k - 1];
      j := j - 1;
      k := k - 1;
    }
    assert j > i && k > 0 ==> FromEnd(rest, |base| - j) == base[j - 1] && FromEnd(suf, |base| - j) == suf[k - 1];
    assert SharesSuffix(rest, suf, |base| - j);
    trimmed := base[i..j];
    assert trimmed == rest[..j - i];
  }

  // ----- rendering -----

  function EnsureNewline(out: string): string {
    if out != "" && out[|out| - 1] != '\n' then out + "\n" else out
  }

  /** Sections are written one after the other, each starting on a line of its own. */
  function Sections(out: string, sections: seq<seq<Line>>): string
    decreases |sections|
  {
    if sections == [] then out
    else Sections(EnsureNewline(out + Join(sections[0])), sections[1..])
  }

  /** What a conflict shows: shared lines above, the three versions, shared lines below. */
  datatype Layout = Layout(above: seq<Line>, ours: seq<Line>, base: seq<Line>, theirs: seq<Line>, below: seq<Line>)

  /** The layout with the first pre and the last suf lines of the sides hoisted. */
  ghost function HoistedBy(ours: seq<Line>, base: seq<Line>, theirs: seq<Line>, pre: nat, suf: nat): Layout
    requires pre + suf <= |ours| && pre + suf <= |theirs|
  {
    var above, below := ours[..pre], ours[|ours| - suf..];
    Layout(above, ours[pre..|ours| - suf], TrimmedBase(base, above, below), theirs[pre..|theirs| - suf], below)
  }

  /** The layout of the zdiff3 style. */
  ghost function Hoisted(ours: seq<Line>, base: seq<Line>, theirs: seq<Line>): Layout {
    var pre := PrefixLen(ours, theirs);
    HoistedBy(ours, base, theirs, pre, SuffixLen(ours[pre..], theirs[pre..]))
  }

  ghost function LayoutOf(c: Chunk, style: Style): Layout
    requires c.Conflict?
  {
    if style == Zdiff3 then Hoisted(c.ours, c.base, c.theirs) else Layout([], c.ours, c.base, c.theirs, [])
  }

  lemma SamePrefix(a: seq<Line>, b: seq<Line>)
    ensures var k := PrefixLen(a, b); PrefixLen(b, a) == k && a[..k] == b[..k]
  {
    var k := PrefixLen(a, b);
    assert SharesPrefix(b, a, k);
    PrefixIsOne(b, a, k, PrefixLen(b, a));
  }

  lemma PrefixIsOne(a: seq<Line>, b: seq<Line>, j: nat, k: nat)
    requires SharesPrefix(a, b, j) && SharesPrefix(a, b, k)
    ensures j == k
  {
  }

  lemma SuffixIsOne(a: seq<Line>, b: seq<Line>, j: nat, k: nat)
    requires SharesSuffix(a, b, j) && SharesSuffix(a, b, k)
    ensures j == k
  {
  }

  lemma SameSuffix(a: seq<Line>, b: seq<Line>)
    ensures var k := SuffixLen(a, b); SuffixLen(b, a) == k && a[|a| - k..] == b[|b| - k..]
  {
    var k := SuffixLen(a, b);
    assert SharesSuffix(b, a, k);
    SuffixIsOne(b, a, k, SuffixLen(b, a));
    SameEnd(a, b, k);
  }

  /** The hoisted lines are the same seen from the other side. */
  lemma HoistedSwap(ours: seq<Line>, base: seq<Line>, theirs: seq<Line>)
    ensures var l := Hoisted(ours, base, theirs);
            Hoisted(theirs, base, ours) == Layout(l.above, l.theirs, l.base, l.ours, l.below)
  {
    var pre := PrefixLen(ours, theirs);
    var suf := SuffixLen(ours[pre..], theirs[pre..]);
    SamePrefix(ours, theirs);
    SameSuffix(ours[pre..], theirs[pre..]);
    EndOfRest(ours, pre, suf);
    EndOfRest(theirs, pre, suf);
  }

  lemma EndOfRest(s: seq<Line>, pre: nat, suf: nat)
    requires pre + suf <= |s|
    ensures s[pre..][|s[pre..]| - suf..] == s[|s| - suf..]
    ensures s[..pre] + s[pre..|s| - suf] + s[|s| - suf..] == s
  {
  }

  /** Hoisting moves lines out of the markers; it loses none on either side. */
  lemma HoistingKeepsBothSides(c: Chunk, style: Style)
    requires c.Conflict?
    ensures var l := LayoutOf(c, style);
            l.above + l.ours + l.below == c.ours && l.above + l.theirs + l.below == c.theirs
  {
    if style == Zdiff3 {
      var pre := PrefixLen(c.ours, c.theirs);
      var suf := SuffixLen(c.ours[pre..], c.theirs[pre..]);
      SamePrefix(c.ours, c.theirs);
      SameSuffix(c.ours[pre..], c.theirs[pre..]);
      EndOfRest(c.ours, pre, suf);
      EndOfRest(c.theirs, pre, suf);
    } else {
      assert [] + c.ours + [] == c.ours && [] + c.theirs + [] == c.theirs;
    }
  }

  /** The lists share neither their first nor their last line. */
  predicate NothingShared(a: seq<Line>, b: seq<Line>) {
    a != [] && b != [] ==> a[0] != b[0] && a[|a| - 1] != b[|b| - 1]
  }

  /** The base without p lines it begins with as those above do, and q it ends with as those below; none too few. */
  ghost predicate TrimmedBy(base: seq<Line>, l: Layout, p: nat, q: nat) {
    && p + q <= |base| && l.base == base[p..|base| - q]
    && SharesPrefix(base, l.above, p) && SharesSuffix(base[p..], l.below, q)
  }

  /**
   What a conflict shows: only the zdiff3 style moves lines out of the markers, and it moves all
   lines the sides share at their ends, and out of the base what it shares with those.
   */
  lemma LayoutMeans(c: Chunk, style: Style) returns (p: nat, q: nat)
    requires c.Conflict?
    ensures var l := LayoutOf(c, style);
            && l.above + l.ours + l.below == c.ours && l.above + l.theirs + l.below == c.theirs
            && (style != Zdiff3 ==> l.above == [] && l.below == [] && l.base == c.base)
            && (style == Zdiff3 ==> NothingShared(l.ours, l.theirs) && TrimmedBy(c.base, l, p, q))
  {
    HoistingKeepsBothSides(c, style);
    p, q := 0, 0;
    if style == Zdiff3 {
      var pre := PrefixLen(c.ours, c.theirs);
      var suf := SuffixLen(c.ours[pre..], c.theirs[pre..]);
      HoistedShareNothing(c.ours, c.theirs, pre, suf);
      p, q := HoistedBase(c.ours, c.base, c.theirs, pre, suf);
    }
  }

  lemma HoistedBase(ours: seq<Line>, base: seq<Line>, theirs: seq<Line>, pre: nat, suf: nat) returns (p: nat, q: nat)
    requires pre + suf <= |ours| && pre + suf <= |theirs|
    ensures TrimmedBy(base, HoistedBy(ours, base, theirs, pre, suf), p, q)
  {
    var l := HoistedBy(ours, base, theirs, pre, suf);
    p := PrefixLen(base, l.above);
    q := SuffixLen(base[p..], l.below);
    assert base[p..][..|base[p..]| - q] == base[p..|base| - q];
  }

  lemma HoistedShareNothing(ours: seq<Line>, theirs: seq<Line>, pre: nat, suf: nat)
    requires SharesPrefix(ours, theirs, pre) && SharesSuffix(ours[pre..], theirs[pre..], suf)
    ensures NothingShared(ours[pre..|ours| - suf], theirs[pre..|theirs| - suf])
  {
    var o, t := ours[pre..], theirs[pre..];
    if suf < |o| && suf < |t| {
      assert FromEnd(o, suf) == ours[|ours| - suf - 1] && FromEnd(t, suf) == theirs[|theirs| - suf - 1];
    }
  }

  lemma SameEnd(a: seq<Line>, b: seq<Line>, k: nat)
    requires k <= |a| && k <= |b| && forall i | 0 <= i < k :: FromEnd(a, i) == FromEnd(b, i)
    ensures a[|a| - k..] == b[|b| - k..]
  {
    var x, y := a[|a| - k..], b[|b| - k..];
    forall i | 0 <= i < k ensures x[i] == y[i] {
      assert x[i] == FromEnd(a, k - 1 - i) && y[i] == FromEnd(b, k - 1 - i);
    }
  }

  /** The marked versions; the marker line before a section is part of that section. */
  function MiddleSections(l: Layout, ourTag: string, withBase: bool): seq<seq<Line>> {
    [[BeginLine(ourTag)] + l.ours] + (if withBase then [[BASE_LINE] + l.base] else []) + [[SEP_LINE] + l.theirs]
  }

  ghost function ConflictSections(c: Chunk, m: Marking): seq<seq<Line>>
    requires c.Conflict?
  {
    var l := LayoutOf(c, m.style);
    (if m.style == Zdiff3 then [l.above] else [])
    + MiddleSections(l, m.ourTag, m.style != Merge)
    + [[EndLine(m.theirTag)] + l.below]
  }

  ghost function WriteChunk(out: string, c: Chunk, m: Marking): string {
    match c
    case Plain(lines) => out + Join(lines)
    case Conflict(_, _, _) => Sections(out, ConflictSections(c, m))
  }

  ghost function WriteChunks(out: string, chunks: seq<Chunk>, m: Marking): string
    decreases |chunks|
  {
    if chunks == [] then out else WriteChunks(WriteChunk(out, chunks[0], m), chunks[1..], m)
  }

  /** Text for text: each section with the newline it may need at its end. */
  function WithEnds(sections: seq<seq<Line>>, ends: seq<string>): string
    requires |sections| == |ends|
  {
    if sections == [] then "" else Join(sections[0]) + ends[0] + WithEnds(sections[1..], ends[1..])
  }

  predicate EndsOk(ends: seq<string>) {
    forall i | 0 <= i < |ends| :: ends[i] in ["", "\n"]
  }

  lemma EndOf(text: string) returns (end: string)
    ensures end in ["", "\n"] && EnsureNewline(text) == text + end
    ensures EnsureNewline(text) == "" || EnsureNewline(text)[|EnsureNewline(text)| - 1] == '\n'
    ensures end == "" <==> text == "" || text[|text| - 1] == '\n'
  {
    end := if text == "" || text[|text| - 1] == '\n' then "" else "\n";
    assert text + "" == text;
  }

  lemma Regrouped(out: string, text: string, end: string, rest: string)
    ensures out + text + end + rest == out + (text + end + rest)
  {
  }

  lemma WithEndsCons(lines: seq<Line>, more: seq<seq<Line>>, end: string, ends: seq<string>)
    requires |more| == |ends| && EndsOk(ends) && end in ["", "\n"]
    ensures EndsOk([end] + ends) && WithEnds([lines] + more, [end] + ends) == Join(lines) + end + WithEnds(more, ends)
  {
    assert ([lines] + more)[1..] == more && ([end] + ends)[1..] == ends;
  }

  /** Writing sections loses nothing and adds nothing but newlines, so that the text ends in one. */
  lemma {:induction false} SectionsMean(out: string, sections: seq<seq<Line>>) returns (ends: seq<string>)
    ensures |ends| == |sections| && EndsOk(ends) && Sections(out, sections) == out + WithEnds(sections, ends)
    ensures sections != [] || Terminated(out) ==> Terminated(Sections(out, sections))
    decreases |sections|
  {
    if sections == [] {
      ends := [];
      assert out + "" == out;
    } else {
      var text := out + Join(sections[0]);
      var end := EndOf(text);
      var more := SectionsMean(text + end, sections[1..]);
      ends := [end] + more;
      assert sections == [sections[0]] + sections[1..];
      WithEndsCons(sections[0], sections[1..], end, more);
      Regrouped(out, Join(sections[0]), end, WithEnds(sections[1..], more));
    }
  }

  method AppendSection(out0: string, lines: seq<Line>) returns (out: string)
    ensures out == EnsureNewline(out0 + Join(lines))
  {
    out := out0;
    var i := 0;
    while i < |lines|
      invariant 0 <= i <= |lines| && out + Join(lines[i..]) == out0 + Join(lines)
    {
      assert lines[i..][1..] == lines[i + 1..];
      out := out + lines[i];
      i := i + 1;
    }
    if |out| > 0 && out[|out| - 1] != '\n' {
      out := out + "\n";
    }
  }

  lemma {:induction false} SectionsConcat(out: string, a: seq<seq<Line>>, b: seq<seq<Line>>)
    ensures Sections(out, a + b) == Sections(Sections(out, a), b)
    decreases |a|
  {
    if a == [] {
      assert a + b == b;
    } else {
      assert (a + b)[1..] == a[1..] + b;
      SectionsConcat(EnsureNewline(out + Join(a[0])), a[1..], b);
    }
  }

  /** A marker line and the version under it. */
  method EmitMarked(out0: string, marker: Line, lines: seq<Line>) returns (out: string)
    ensures out == Sections(out0, [[marker] + lines])
  {
    out := AppendSection(out0 + marker, lines);
    assert ([marker] + lines)[1..] == lines;
    assert out0 + marker + Join(lines) == out0 + Join([marker] + lines);
    assert [[marker] + lines][1..] == [];
  }

  method EmitMiddle(out0: string, l: Layout, ourTag: string, withBase: bool) returns (out: string)
    ensures out == Sections(out0, MiddleSections(l, ourTag, withBase))
  {
    out := EmitMarked(out0, BeginLine(ourTag), l.ours);
    ghost var done := [[BeginLine(ourTag)] + l.ours];
    if withBase {
      out := EmitMarked(out, BASE_LINE, l.base);
      SectionsConcat(out0, done, [[BASE_LINE] + l.base]);
      done := done + [[BASE_LINE] + l.base];
    }
    out := EmitMarked(out, SEP_LINE, l.theirs);
    SectionsConcat(out0, done, [[SEP_LINE] + l.theirs]);
    assert done + [[SEP_LINE] + l.theirs] == MiddleSections(l, ourTag, withBase);
  }

  /** The lines wrapped by the markers in the zdiff3 style, and those hoisted out. */
  method Hoist(ourMid: seq<Line>, baseRegion: seq<Line>, theirMid: seq<Line>) returns (l: Layout)
    ensures l == Hoisted(ourMid, baseRegion, theirMid)
  {
    var pre := CommonPrefixLen(ourMid, theirMid);
    var ourRest, theirRest := ourMid[pre..], theirMid[pre..];
    var suf := CommonSuffixLen(ourRest, theirRest);
    var hoistPre, hoistSuf := ourMid[..pre], ourMid[|ourMid| - suf..];
    var bMid := TrimBaseByHoist(baseRegion, hoistPre, hoistSuf);
    assert ourRest[..|ourRest| - suf] == ourMid[pre..|ourMid| - suf];
    assert theirRest[..|theirRest| - suf] == theirMid[pre..|theirMid| - suf];
    l := Layout(hoistPre, ourRest[..|ourRest| - suf], bMid, theirRest[..|theirRest| - suf], hoistSuf);
  }

  method EmitConflict(out0: string, ourMid: seq<Line>, baseRegion: seq<Line>, theirMid: seq<Line>,
                      ourTag: string, theirTag: string, style: Style)
    returns (out: string)
    ensures out == Sections(out0,
        ConflictSections(Conflict(ourMid, baseRegion, theirMid), Marking(ourTag, theirTag, style)))
  {
    out := out0;
    var l := Layout([], ourMid, baseRegion, theirMid, []);
    ghost var done: seq<seq<Line>> := [];
    if style == Zdiff3 {
      l := Hoist(ourMid, baseRegion, theirMid);
      out := AppendSection(out, l.above);
      done := [l.above];
      assert [l.above][1..] == [];
    }
    ghost var middle := MiddleSections(l, ourTag, style != Merge);
    SectionsConcat(out0, done, middle);
    out := EmitMiddle(out, l, ourTag, style != Merge);
    SectionsConcat(out0, done + middle, [[EndLine(theirTag)] + l.below]);
    out := EmitMarked(out, EndLine(theirTag), l.below);
  }
}
