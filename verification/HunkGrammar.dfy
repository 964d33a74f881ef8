/** The files Parse accepts, as a grammar: text without begin markers, and hunks with their markers in order. */
module HunkGrammar {
  import opened Edits
  import opened Text
  import opened Hunks

  // ----- the grammar -----

  /** Lines of our side or of the base: no marker of any kind. */
  predicate Unmarked(lines: seq<Line>) {
    forall i | 0 <= i < |lines| :: !IsBegin(lines[i]) && !IsBaseMarker(lines[i]) && !IsSep(lines[i]) && !IsEnd(lines[i])
  }

  /** Lines of their side, where a separator or a base marker is content. */
  predicate Unclosed(lines: seq<Line>) {
    forall i | 0 <= i < |lines| :: !IsBegin(lines[i]) && !IsEnd(lines[i])
  }

  predicate NoBegin(lines: seq<Line>) {
    forall i | 0 <= i < |lines| :: !IsBegin(lines[i])
  }

  /** The marker lines of a hunk; mark counts only where there is a base section. */
  datatype Frame = Frame(begin: Line, mark: Line, sep: Line, end: Line)

  function Framed(h: Hunk, f: Frame): seq<Line> {
    [f.begin] + h.ours + (if h.hasBase then [f.mark] + h.base else []) + [f.sep] + h.theirs + [f.end]
  }

  predicate FrameOk(h: Hunk, f: Frame) {
    && IsBegin(f.begin) && IsSep(f.sep) && IsEnd(f.end) && (if h.hasBase then IsBaseMarker(f.mark) else h.base == [])
    && Unmarked(h.ours) && Unmarked(h.base) && Unclosed(h.theirs)
  }

  ghost predicate SegmentOk(s: Segment) {
    match s
    case Text(lines) => lines != [] && NoBegin(lines)
    case Conflicted(h, raw) => exists f :: FrameOk(h, f) && raw == Framed(h, f)
  }

  /** Segments as a reader gives them: text in one piece between hunks. */
  ghost predicate Segmented(segs: seq<Segment>) {
    && (forall i | 0 <= i < |segs| :: SegmentOk(segs[i]))
    && forall i | 0 <= i < |segs| - 1 :: segs[i].Text? ==> segs[i + 1].Conflicted?
  }

  // ----- what is read is so formed -----

  lemma {:induction false} TheirsRead(lines: seq<Line>, at: nat, begin: nat, h: Hunk)
    returns (body: seq<Line>, end: Line)
    requires ScanHunk(lines, at, begin, InTheirs, h).Closed?
    ensures var r := ScanHunk(lines, at, begin, InTheirs, h);
            lines == body + [end] + r.rest && r.hunk == h.(theirs := h.theirs + body)
    ensures Unclosed(body) && IsEnd(end)
    decreases |lines|
  {
    if IsEnd(lines[0]) && !IsBegin(lines[0]) {
      body, end := [], lines[0];
    } else {
      var more;
      more, end := TheirsRead(lines[1..], at + 1, begin, AddLine(h, InTheirs, lines[0]));
      body := [lines[0]] + more;
      assert h.theirs + [lines[0]] + more == h.theirs + body;
    }
  }

  lemma {:induction false} BaseRead(lines: seq<Line>, at: nat, begin: nat, h: Hunk)
    returns (body: seq<Line>, sep: Line, theirs: seq<Line>, end: Line)
    requires h.hasBase && ScanHunk(lines, at, begin, InBase, h).Closed?
    ensures var r := ScanHunk(lines, at, begin, InBase, h);
            && lines == body + ([sep] + (theirs + [end] + r.rest))
            && r.hunk == h.(base := h.base + body, theirs := h.theirs + theirs)
    ensures Unmarked(body) && IsSep(sep) && Unclosed(theirs) && IsEnd(end)
    decreases |lines|
  {
    if IsSep(lines[0]) && !IsBegin(lines[0]) && !IsBaseMarker(lines[0]) {
      body, sep := [], lines[0];
      theirs, end := TheirsRead(lines[1..], at + 1, begin, h);
    } else {
      var more;
      more, sep, theirs, end := BaseRead(lines[1..], at + 1, begin, AddLine(h, InBase, lines[0]));
      body := [lines[0]] + more;
      assert h.base + [lines[0]] + more == h.base + body;
    }
  }

  lemma FrameWithBase(first: Line, ours: seq<Line>, mark: Line, base: seq<Line>, sep: Line, theirs: seq<Line>,
                      end: Line, rest: seq<Line>)
    requires IsBegin(first) && Unmarked(ours) && IsBaseMarker(mark) && Unmarked(base) && IsSep(sep)
    requires Unclosed(theirs) && IsEnd(end)
    ensures var h, f := Hunk(ours, base, theirs, true), Frame(first, mark, sep, end);
            && FrameOk(h, f)
            && [first] + ours + ([mark] + (base + ([sep] + (theirs + [end] + rest)))) == Framed(h, f) + rest
  {
  }

  lemma FrameWithoutBase(first: Line, ours: seq<Line>, sep: Line, theirs: seq<Line>, end: Line, rest: seq<Line>)
    requires IsBegin(first) && Unmarked(ours) && IsSep(sep) && Unclosed(theirs) && IsEnd(end)
    ensures var h, f := Hunk(ours, [], theirs, false), Frame(first, "", sep, end);
            FrameOk(h, f) && [first] + ours + ([sep] + (theirs + [end] + rest)) == Framed(h, f) + rest
  {
  }

  /** The frame of the hunk that begins with these lines. */
  ghost predicate FramedAs(h: Hunk, f: Frame, first: Line, lines: seq<Line>, rest: seq<Line>) {
    FrameOk(h, f) && f.begin == first && lines == Framed(h, f) + rest
  }

  /** The lines after a begin marker: ours, perhaps a base section, the separator, theirs, the end. */
  lemma {:induction false} OursRead(lines: seq<Line>, at: nat, begin: nat, ours: seq<Line>, first: Line)
    returns (f: Frame)
    requires Unmarked(ours) && IsBegin(first)
    requires ScanHunk(lines, at, begin, InOurs, Hunk(ours, [], [], false)).Closed?
    ensures var r := ScanHunk(lines, at, begin, InOurs, Hunk(ours, [], [], false));
            FramedAs(r.hunk, f, first, [first] + ours + lines, r.rest)
    decreases |lines|
  {
    var l, tail := lines[0], lines[1..];
    assert lines == [l] + tail;
    if !IsBegin(l) && IsBaseMarker(l) {
      var body, sep, theirs, end := BaseRead(tail, at + 1, begin, Hunk(ours, [], [], true));
      f := Frame(first, l, sep, end);
      assert [] + body == body && [] + theirs == theirs;
      FrameWithBase(first, ours, l, body, sep, theirs, end,
        ScanHunk(lines, at, begin, InOurs, Hunk(ours, [], [], false)).rest);
    } else if !IsBegin(l) && IsSep(l) {
      var theirs, end := TheirsRead(tail, at + 1, begin, Hunk(ours, [], [], false));
      f := Frame(first, "", l, end);
      assert [] + theirs == theirs;
      FrameWithoutBase(first, ours, l, theirs, end,
        ScanHunk(lines, at, begin, InOurs, Hunk(ours, [], [], false)).rest);
    } else {
      f := OursRead(tail, at + 1, begin, ours + [l], first);
      OneFurther(first, ours, l, tail);
    }
  }

  lemma OneFurther(first: Line, ours: seq<Line>, l: Line, tail: seq<Line>)
    ensures [first] + (ours + [l]) + tail == [first] + ours + ([l] + tail)
  {
  }

  lemma HunkRead(lines: seq<Line>, at: nat, begin: nat) returns (raw: seq<Line>)
    requires lines != [] && IsBegin(lines[0]) && ScanHunk(lines[1..], at, begin, InOurs, NO_HUNK).Closed?
    ensures var r := ScanHunk(lines[1..], at, begin, InOurs, NO_HUNK);
            |r.rest| < |lines| && raw == lines[..|lines| - |r.rest|] && lines == raw + r.rest
            && SegmentOk(Conflicted(r.hunk, raw))
  {
    var r := ScanHunk(lines[1..], at, begin, InOurs, NO_HUNK);
    var f := OursRead(lines[1..], at, begin, [], lines[0]);
    raw := Framed(r.hunk, f);
    assert lines == [lines[0]] + [] + lines[1..];
    FirstPart(lines, raw, r.rest);
    assert FrameOk(r.hunk, f);
  }

  lemma FirstPart(lines: seq<Line>, raw: seq<Line>, rest: seq<Line>)
    requires lines == raw + rest
    ensures raw == lines[..|lines| - |rest|]
  {
  }

  /** The segments are well formed and spell the lines. */
  ghost predicate Spells(segs: seq<Segment>, lines: seq<Line>) {
    forall x | x == segs :: Segmented(x) && Raw(x) == lines
  }

  lemma SpellsCons(s: Segment, more: seq<Segment>, lines: seq<Line>)
    requires SegmentOk(s) && Spells(more, lines) && (s.Text? ==> more == [] || more[0].Conflicted?)
    ensures Spells([s] + more, LinesOf(s) + lines)
  {
    assert Segmented(more) && Raw(more) == lines;
    var segs := [s] + more;
    assert segs[1..] == more;
    forall i | 0 <= i < |segs| ensures SegmentOk(segs[i]) {
      if i > 0 { assert segs[i] == more[i - 1]; }
    }
    forall i | 0 <= i < |segs| - 1 ensures segs[i].Text? ==> segs[i + 1].Conflicted? {
      assert segs[i + 1] == more[i];
      if i > 0 { assert segs[i] == more[i - 1]; }
    }
  }

  lemma SpellsNothing()
    ensures Spells([], [])
  {
    assert Segmented([]) && Raw([]) == [];
  }

  lemma SpellsAfter(text: seq<Line>, h: Hunk, raw: seq<Line>, more: seq<Segment>, lines: seq<Line>)
    requires NoBegin(text) && SegmentOk(Conflicted(h, raw)) && Spells(more, lines)
    ensures Spells(Flush(text) + [Conflicted(h, raw)] + more, text + (raw + lines))
  {
    var c := Conflicted(h, raw);
    SpellsCons(c, more, lines);
    if text == [] {
      assert Flush(text) + [c] + more == [c] + more && text + (raw + lines) == raw + lines;
    } else {
      SpellsCons(Text(text), [c] + more, raw + lines);
      assert Flush(text) + [c] + more == [Text(text)] + ([c] + more);
    }
  }

  /** What reading goes on to give, in terms of what it gives after one hunk. */
  lemma ParseAfterHunk(lines: seq<Line>, at: nat, text: seq<Line>, r: HunkResult, raw: seq<Line>, more: ParseResult)
    requires lines != [] && IsBegin(lines[0]) && r == ScanHunk(lines[1..], at + 1, at, InOurs, NO_HUNK) && r.Closed?
    requires |r.rest| <= |lines| && raw == lines[..|lines| - |r.rest|]
    requires more == ParseFrom(r.rest, at + |raw|, [])
    ensures ParseFrom(lines, at, text) == Prepend(Flush(text) + [Conflicted(r.hunk, raw)], more)
  {
  }

  lemma FlushSpells(text: seq<Line>)
    requires NoBegin(text)
    ensures Spells(Flush(text), text)
  {
    SpellsNothing();
    if text != [] {
      SpellsCons(Text(text), [], []);
      assert [Text(text)] + [] == [Text(text)] && text + [] == text;
    }
  }

  /** Whatever Parse gives is made of such segments, and they are the whole file. */
  lemma {:induction false} ParsedIsSegmented(lines: seq<Line>, at: nat, text: seq<Line>, segs: seq<Segment>)
    requires NoBegin(text) && ParseFrom(lines, at, text) == Parsed(segs)
    ensures Spells(segs, text + lines)
    decreases |lines|
  {
    if lines == [] {
      FlushSpells(text);
      assert text + [] == text;
    } else if !IsBegin(lines[0]) {
      ParsedIsSegmented(lines[1..], at + 1, text + [lines[0]], segs);
      assert text + [lines[0]] + lines[1..] == text + lines;
    } else {
      var r := ScanHunk(lines[1..], at + 1, at, InOurs, NO_HUNK);
      if r.Closed? {
        var raw := HunkRead(lines, at + 1, at);
        var more := ParseFrom(r.rest, at + |raw|, []);
        ParseAfterHunk(lines, at, text, r, raw, more);
        if more.Parsed? {
          ParsedIsSegmented(r.rest, at + |raw|, [], more.segs);
          assert [] + r.rest == r.rest;
          SpellsAfter(text, r.hunk, raw, more.segs, r.rest);
        }
      }
    }
  }

  // ----- what is so formed is read -----

  lemma {:induction false} ReadsTheirs(body: seq<Line>, end: Line, rest: seq<Line>, at: nat, begin: nat, h: Hunk)
    requires Unclosed(body) && IsEnd(end) && !IsBegin(end)
    ensures ScanHunk(body + ([end] + rest), at, begin, InTheirs, h) == Closed(h.(theirs := h.theirs + body), rest)
    decreases |body|
  {
    var lines := body + ([end] + rest);
    if body == [] {
      assert lines[0] == end && lines[1..] == rest && h.theirs + body == h.theirs;
      assert !IsSep(end) || IsEnd(end);
    } else {
      assert lines[0] == body[0] && lines[1..] == body[1..] + ([end] + rest);
      ReadsTheirs(body[1..], end, rest, at + 1, begin, AddLine(h, InTheirs, body[0]));
      assert h.theirs + [body[0]] + body[1..] == h.theirs + body;
    }
  }

  lemma {:induction false} ReadsUnmarked(body: seq<Line>, rest: seq<Line>, at: nat, begin: nat, sec: Section, h: Hunk)
    requires Unmarked(body) && sec != InTheirs
    ensures ScanHunk(body + rest, at, begin, sec, h)
         == ScanHunk(rest, at + |body|, begin, sec,
                     if sec.InOurs? then h.(ours := h.ours + body) else h.(base := h.base + body))
    decreases |body|
  {
    if body == [] {
      assert body + rest == rest && h.ours + body == h.ours && h.base + body == h.base;
    } else {
      assert (body + rest)[0] == body[0] && (body + rest)[1..] == body[1..] + rest;
      ReadsUnmarked(body[1..], rest, at + 1, begin, sec, AddLine(h, sec, body[0]));
      assert h.ours + [body[0]] + body[1..] == h.ours + body && h.base + [body[0]] + body[1..] == h.base + body;
    }
  }

  /** No line is a marker of two kinds. */
  lemma KindsDiffer(l: Line)
    ensures IsBegin(l) ==> !IsBaseMarker(l) && !IsSep(l) && !IsEnd(l)
    ensures IsBaseMarker(l) ==> !IsSep(l) && !IsEnd(l)
    ensures IsSep(l) ==> !IsEnd(l)
  {
    if IsBegin(l) { assert TrimEnd(l)[0] == MARKER_BEGIN[0]; }
    if IsBaseMarker(l) { assert TrimEnd(l)[0] == MARKER_BASE[0]; }
    if IsSep(l) { assert TrimEnd(l)[0] == MARKER_SEP[0]; }
  }

  lemma ReadsFromSep(h: Hunk, f: Frame, rest: seq<Line>, at: nat, begin: nat, sec: Section, sofar: Hunk)
    requires FrameOk(h, f) && sec != InTheirs && sofar == h.(theirs := [])
    ensures ScanHunk([f.sep] + (h.theirs + ([f.end] + rest)), at, begin, sec, sofar) == Closed(h, rest)
  {
    KindsDiffer(f.sep);
    KindsDiffer(f.end);
    var tail := h.theirs + ([f.end] + rest);
    assert ([f.sep] + tail)[1..] == tail;
    ReadsTheirs(h.theirs, f.end, rest, at + 1, begin, sofar);
    assert [] + h.theirs == h.theirs;
  }

  lemma ReadsHunk(h: Hunk, f: Frame, rest: seq<Line>, at: nat, begin: nat)
    requires FrameOk(h, f)
    ensures ScanHunk(Framed(h, f)[1..] + rest, at, begin, InOurs, NO_HUNK) == Closed(h, rest)
  {
    var last := [f.sep] + (h.theirs + ([f.end] + rest));
    var sofar := NO_HUNK.(ours := h.ours);
    assert [] + h.ours == h.ours;
    if h.hasBase {
      var middle := [f.mark] + (h.base + last);
      FramedRest(h, f, rest, last);
      ReadsUnmarked(h.ours, middle, at, begin, InOurs, NO_HUNK);
      ReadsBase(h, f, rest, last, at + |h.ours|, begin);
    } else {
      FramedRest(h, f, rest, last);
      ReadsUnmarked(h.ours, last, at, begin, InOurs, NO_HUNK);
      ReadsFromSep(h, f, rest, at + |h.ours|, begin, InOurs, sofar);
    }
  }

  lemma FramedRest(h: Hunk, f: Frame, rest: seq<Line>, last: seq<Line>)
    requires last == [f.sep] + (h.theirs + ([f.end] + rest))
    ensures Framed(h, f)[1..] + rest == h.ours + (if h.hasBase then [f.mark] + (h.base + last) else last)
  {
  }

  lemma ReadsBase(h: Hunk, f: Frame, rest: seq<Line>, last: seq<Line>, at: nat, begin: nat)
    requires FrameOk(h, f) && h.hasBase && last == [f.sep] + (h.theirs + ([f.end] + rest))
    ensures ScanHunk([f.mark] + (h.base + last), at, begin, InOurs, Hunk(h.ours, [], [], false)) == Closed(h, rest)
  {
    KindsDiffer(f.mark);
    assert ([f.mark] + (h.base + last))[1..] == h.base + last;
    ReadsUnmarked(h.base, last, at + 1, begin, InBase, Hunk(h.ours, [], [], true));
    assert [] + h.base == h.base;
    ReadsFromSep(h, f, rest, at + 1 + |h.base|, begin, InBase, Hunk(h.ours, h.base, [], true));
  }

  lemma {:induction false} ReadsText(body: seq<Line>, rest: seq<Line>, at: nat, text: seq<Line>)
    requires NoBegin(body)
    ensures ParseFrom(body + rest, at, text) == ParseFrom(rest, at + |body|, text + body)
    decreases |body|
  {
    if body == [] {
      assert body + rest == rest && text + body == text;
    } else {
      assert (body + rest)[0] == body[0] && (body + rest)[1..] == body[1..] + rest;
      ReadsText(body[1..], rest, at + 1, text + [body[0]]);
      assert text + [body[0]] + body[1..] == text + body;
    }
  }

  /** Reading these lines, with this text before them, gives these segments. */
  ghost predicate Gives(lines: seq<Line>, at: nat, text: seq<Line>, segs: seq<Segment>) {
    forall l | l == lines :: ParseFrom(l, at, text) == Parsed(segs)
  }

  lemma GivesText(t: seq<Line>, left: seq<Line>, at: nat, segs: seq<Segment>)
    requires NoBegin(t) && Gives(left, at + |t|, t, segs)
    ensures Gives(t + left, at, [], segs)
  {
    ReadsText(t, left, at, []);
    assert [] + t == t;
    assert ParseFrom(left, at + |t|, t) == Parsed(segs);
  }

  lemma FramedStart(h: Hunk, f: Frame, raw: seq<Line>, rest: seq<Line>)
    requires raw == Framed(h, f)
    ensures var lines := raw + rest;
            && lines != [] && lines[0] == f.begin && lines[1..] == raw[1..] + rest
            && |rest| <= |lines| && lines[..|lines| - |rest|] == raw
  {
  }

  lemma ReadsConflict(h: Hunk, raw: seq<Line>, rest: seq<Line>, at: nat, text: seq<Line>, more: ParseResult)
    requires SegmentOk(Conflicted(h, raw)) && more == ParseFrom(rest, at + |raw|, [])
    ensures ParseFrom(raw + rest, at, text) == Prepend(Flush(text) + [Conflicted(h, raw)], more)
  {
    var f :| FrameOk(h, f) && raw == Framed(h, f);
    FramedStart(h, f, raw, rest);
    ReadsHunk(h, f, rest, at + 1, at);
    ParseAfterHunk(raw + rest, at, text, Closed(h, rest), raw, more);
  }

  lemma GivesConflict(h: Hunk, raw: seq<Line>, left: seq<Line>, at: nat, text: seq<Line>, front: seq<Segment>,
                      more: seq<Segment>)
    requires SegmentOk(Conflicted(h, raw)) && Gives(left, at + |raw|, [], more) && front == Flush(text)
    ensures Gives(raw + left, at, text, front + ([Conflicted(h, raw)] + more))
  {
    ReadsConflict(h, raw, left, at, text, Parsed(more));
    assert front + [Conflicted(h, raw)] + more == front + ([Conflicted(h, raw)] + more);
  }

  lemma SpellsTail(segs: seq<Segment>, lines: seq<Line>) returns (left: seq<Line>)
    requires Spells(segs, lines) && segs != []
    ensures SegmentOk(segs[0]) && Spells(segs[1..], left) && lines == LinesOf(segs[0]) + left
    ensures segs[0].Text? ==> segs[1..] == [] || segs[1..][0].Conflicted?
  {
    assert Segmented(segs) && Raw(segs) == lines;
    left := Raw(segs[1..]);
    assert forall i | 0 <= i < |segs[1..]| :: segs[1..][i] == segs[i + 1];
    assert Segmented(segs[1..]);
  }

  lemma SpellsNone(lines: seq<Line>)
    requires Spells([], lines)
    ensures lines == []
  {
    assert Segmented([]) && Raw([]) == lines;
  }

  /** The text a segment leaves to be joined to what comes after it. */
  function Open(s: Segment): seq<Line> {
    if s.Text? then s.lines else []
  }

  /** One segment before those that are known to be read as they should. */
  lemma GivesOneMore(s: Segment, more: seq<Segment>, left: seq<Line>, at: nat, text: seq<Line>, front: seq<Segment>)
    requires SegmentOk(s) && (s.Text? ==> text == []) && front == Flush(text)
    requires Gives(left, at + |LinesOf(s)|, Open(s), Flush(Open(s)) + more)
    ensures Gives(LinesOf(s) + left, at, text, front + ([s] + more))
  {
    if s.Text? {
      GivesText(s.lines, left, at, [s] + more);
      NothingFirst([s] + more);
    } else {
      NothingFirst(more);
      GivesConflict(s.hunk, s.raw, left, at, text, front, more);
    }
  }

  lemma NothingFirst(segs: seq<Segment>)
    ensures [] + segs == segs
  {
  }

  /** Every file made of such segments is read as just these. */
  lemma {:induction false} SegmentedIsParsed(segs: seq<Segment>, lines: seq<Line>, at: nat, text: seq<Line>)
    requires Spells(segs, lines) && (text != [] ==> segs == [] || segs[0].Conflicted?)
    ensures Gives(lines, at, text, Flush(text) + segs)
    decreases |segs|
  {
    if segs == [] {
      SpellsNone(lines);
      assert Flush(text) + [] == Flush(text);
    } else {
      var s, more := segs[0], segs[1..];
      var left := SpellsTail(segs, lines);
      assert segs == [s] + more;
      SegmentedIsParsed(more, left, at + |LinesOf(s)|, Open(s));
      GivesOneMore(s, more, left, at, text, Flush(text));
    }
  }

  /** Parse gives these segments exactly when they are well formed and spell the file. */
  lemma ParsesExactly(lines: seq<Line>, segs: seq<Segment>)
    ensures ParseFrom(lines, 1, []) == Parsed(segs) <==> Segmented(segs) && Raw(segs) == lines
  {
    assert Segmented(segs) && Raw(segs) == lines ==> Spells(segs, lines);
    if ParseFrom(lines, 1, []) == Parsed(segs) {
      ParsedIsSegmented(lines, 1, [], segs);
      assert [] + lines == lines;
    }
    if Spells(segs, lines) {
      SegmentedIsParsed(segs, lines, 1, []);
      assert [] + segs == segs;
      assert ParseFrom(lines, 1, []) == Parsed(segs);
    }
  }

  // ----- where a file fails -----

  /** The line an error names is the one at fault: a marker out of place, or the start of what never ends. */
  ghost predicate Names(e: ParseError, lines: seq<Line>) {
    && 0 < e.line <= |lines|
    && match e
       case NestedBegin(n) => IsBegin(lines[n - 1])
       case SecondBase(n) => IsBaseMarker(lines[n - 1])
       case EndBeforeSeparator(n) => IsEnd(lines[n - 1])
       case Unterminated(n) => IsBegin(lines[n - 1]) && NoBegin(lines[n..])
  }

  lemma {:induction false} ScanFails(lines: seq<Line>, i: nat, begin: nat, sec: Section, h: Hunk)
    requires 0 < begin <= i <= |lines| && IsBegin(lines[begin - 1]) && NoBegin(lines[begin..i])
    requires ScanHunk(lines[i..], i + 1, begin, sec, h).Bad?
    ensures Names(ScanHunk(lines[i..], i + 1, begin, sec, h).error, lines)
    decreases |lines| - i
  {
    if i < |lines| {
      var l := lines[i];
      assert lines[i..][0] == l && lines[i..][1..] == lines[i + 1..];
      match StepHunk(l, i + 1, sec, h)
      case Continue(sec', h') =>
        assert lines[begin..i + 1] == lines[begin..i] + [l];
        ScanFails(lines, i + 1, begin, sec', h');
      case _ =>
    } else {
      assert lines[begin..i] == lines[begin..];
    }
  }

  lemma {:induction false} ParseFails(lines: seq<Line>, i: nat, text: seq<Line>)
    requires i <= |lines| && ParseFrom(lines[i..], i + 1, text).Failed?
    ensures Names(ParseFrom(lines[i..], i + 1, text).error, lines)
    decreases |lines| - i, 1
  {
    if i < |lines| {
      assert lines[i..][0] == lines[i] && lines[i..][1..] == lines[i + 1..];
      if !IsBegin(lines[i]) {
        ParseFails(lines, i + 1, text + [lines[i]]);
      } else {
        HunkFails(lines, i, text, ScanHunk(lines[i + 1..], i + 2, i + 1, InOurs, NO_HUNK));
      }
    }
  }

  lemma HunkFails(lines: seq<Line>, i: nat, text: seq<Line>, r: HunkResult)
    requires i < |lines| && IsBegin(lines[i]) && ParseFrom(lines[i..], i + 1, text).Failed?
    requires r == ScanHunk(lines[i + 1..], i + 2, i + 1, InOurs, NO_HUNK)
    ensures Names(ParseFrom(lines[i..], i + 1, text).error, lines)
    decreases |lines| - i, 0
  {
    var left := lines[i..];
    assert left[0] == lines[i] && left[1..] == lines[i + 1..];
    if r.Bad? {
      ScanFails(lines, i + 1, i + 1, InOurs, NO_HUNK);
    } else {
      var raw := HunkRead(left, i + 2, i + 1);
      var j := i + |raw|;
      assert r.rest == lines[j..];
      ParseAfterHunk(left, i + 1, text, r, raw, ParseFrom(r.rest, j + 1, []));
      ParseFails(lines, j, []);
    }
  }

  /** A file that cannot be read fails at a line of that kind. */
  lemma FailsWhere(lines: seq<Line>)
    ensures var r := ParseFrom(lines, 1, []); r.Failed? ==> Names(r.error, lines)
  {
    assert lines[0..] == lines;
    if ParseFrom(lines, 1, []).Failed? { ParseFails(lines, 0, []); }
  }
}
