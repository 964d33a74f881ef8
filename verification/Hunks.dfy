/** Reading conflict markers back: Parse and Assemble. */
module Hunks {
  import opened Edits
  import opened Text

  /** One conflict region, and the lines it was read from, markers included. */
  datatype Hunk = Hunk(ours: seq<Line>, base: seq<Line>, theirs: seq<Line>, hasBase: bool)

  datatype Segment = Text(lines: seq<Line>) | Conflicted(hunk: Hunk, raw: seq<Line>)

  function LinesOf(s: Segment): seq<Line> {
    if s.Text? then s.lines else s.raw
  }

  /** The lines the segments were read from. */
  function Raw(segs: seq<Segment>): seq<Line> {
    if segs == [] then [] else LinesOf(segs[0]) + Raw(segs[1..])
  }

  /** Line numbers count from one. */
  datatype ParseError =
    | NestedBegin(line: nat)
    | SecondBase(line: nat)
    | EndBeforeSeparator(line: nat)
    | Unterminated(line: nat)

  datatype ParseResult = Parsed(segs: seq<Segment>) | Failed(error: ParseError)

  datatype Section = InOurs | InBase | InTheirs

  /** The lines of one hunk read so far. */
  function AddLine(h: Hunk, sec: Section, l: Line): Hunk {
    match sec
    case InOurs => h.(ours := h.ours + [l])
    case InBase => h.(base := h.base + [l])
    case InTheirs => h.(theirs := h.theirs + [l])
  }

  datatype HunkResult = Closed(hunk: Hunk, rest: seq<Line>) | Bad(error: ParseError)

  /** What one line inside a hunk does. */
  datatype HunkStep = Continue(sec: Section, h: Hunk) | Close | Reject(error: ParseError)

  function StepHunk(l: Line, at: nat, sec: Section, h: Hunk): HunkStep {
    if IsBegin(l) then Reject(NestedBegin(at))
    else if IsBaseMarker(l) && !h.hasBase && sec == InOurs then Continue(InBase, h.(hasBase := true))
    else if IsBaseMarker(l) && h.hasBase && sec == InBase then Reject(SecondBase(at))
    else if IsSep(l) && sec != InTheirs then Continue(InTheirs, h)
    else if IsEnd(l) && sec == InTheirs then Close
    else if IsEnd(l) then Reject(EndBeforeSeparator(at))
    else Continue(sec, AddLine(h, sec, l))
  }

  /** Reads a hunk from the line after its begin marker; at numbers the first of lines. */
  ghost function ScanHunk(lines: seq<Line>, at: nat, begin: nat, sec: Section, h: Hunk): HunkResult
    decreases |lines|
  {
    if lines == [] then Bad(Unterminated(begin))
    else
      match StepHunk(lines[0], at, sec, h)
      case Reject(e) => Bad(e)
      case Close => Closed(h, lines[1..])
      case Continue(sec', h') => ScanHunk(lines[1..], at + 1, begin, sec', h')
  }

  const NO_HUNK := Hunk([], [], [], false)

  function Flush(text: seq<Line>): seq<Segment> {
    if text == [] then [] else [Text(text)]
  }

  function Prepend(segs: seq<Segment>, r: ParseResult): ParseResult {
    if r.Failed? then r else Parsed(segs + r.segs)
  }

  lemma {:induction false} ScanShortens(lines: seq<Line>, at: nat, begin: nat, sec: Section, h: Hunk)
    ensures var r := ScanHunk(lines, at, begin, sec, h);
            r.Closed? ==> |r.rest| < |lines| && r.rest == lines[|lines| - |r.rest|..]
    decreases |lines|
  {
    if lines != [] {
      match StepHunk(lines[0], at, sec, h)
      case Continue(sec', h') => ScanShortens(lines[1..], at + 1, begin, sec', h');
      case _ =>
    }
  }

  /** Parses the remaining lines, with the plain text collected before them. */
  ghost function ParseFrom(lines: seq<Line>, at: nat, text: seq<Line>): ParseResult
    decreases |lines|
  {
    if lines == [] then Parsed(Flush(text))
    else if !IsBegin(lines[0]) then ParseFrom(lines[1..], at + 1, text + [lines[0]])
    else
      ScanShortens(lines[1..], at + 1, at, InOurs, NO_HUNK);
      match ScanHunk(lines[1..], at + 1, at, InOurs, NO_HUNK)
      case Bad(e) => Failed(e)
      case Closed(h, rest) =>
        var raw := lines[..|lines| - |rest|];
        Prepend(Flush(text) + [Conflicted(h, raw)], ParseFrom(rest, at + |raw|, []))
  }

  // ----- the implementation -----

  method ReadHunk(lines: seq<Line>, i: nat) returns (r: HunkResult, j: nat)
    requires i < |lines|
    ensures r == ScanHunk(lines[i + 1..], i + 2, i + 1, InOurs, NO_HUNK)
    ensures r.Closed? ==> i < j <= |lines| && r.rest == lines[j..]
  {
    var h, sec := NO_HUNK, InOurs;
    j := i + 1;
    while j < |lines|
      invariant i < j <= |lines|
      invariant ScanHunk(lines[i + 1..], i + 2, i + 1, InOurs, NO_HUNK) == ScanHunk(lines[j..], j + 1, i + 1, sec, h)
    {
      assert lines[j..][0] == lines[j] && lines[j..][1..] == lines[j + 1..];
      var step := StepHunk(lines[j], j + 1, sec, h);
      match step {
        case Reject(e) => return Bad(e), j;
        case Close => return Closed(h, lines[j + 1..]), j + 1;
        case Continue(sec', h') => sec, h := sec', h';
      }
      j := j + 1;
    }
    return Bad(Unterminated(i + 1)), j;
  }

  lemma PrependTwice(a: seq<Segment>, b: seq<Segment>, r: ParseResult)
    ensures Prepend(a, Prepend(b, r)) == Prepend(a + b, r)
  {
    if r.Parsed? {
      assert a + (b + r.segs) == a + b + r.segs;
    }
  }

  lemma TextParsed(lines: seq<Line>, i: nat, text: seq<Line>)
    requires i < |lines| && !IsBegin(lines[i])
    ensures ParseFrom(lines[i..], i + 1, text) == ParseFrom(lines[i + 1..], i + 2, text + [lines[i]])
  {
    assert lines[i..][0] == lines[i] && lines[i..][1..] == lines[i + 1..];
  }

  lemma HunkParsed(lines: seq<Line>, i: nat, j: nat, text: seq<Line>, h: HunkResult)
    requires i < j <= |lines| && IsBegin(lines[i]) && h.Closed? && h.rest == lines[j..]
    requires h == ScanHunk(lines[i + 1..], i + 2, i + 1, InOurs, NO_HUNK)
    ensures ParseFrom(lines[i..], i + 1, text)
         == Prepend(Flush(text) + [Conflicted(h.hunk, lines[i..j])], ParseFrom(lines[j..], j + 1, []))
  {
    var s := lines[i..];
    assert s[0] == lines[i] && s[1..] == lines[i + 1..] && s[..|s| - |h.rest|] == lines[i..j];
  }

  /** The segments so far and what the lines from i on give, make up the whole result. */
  ghost predicate ParsedTo(whole: ParseResult, segs: seq<Segment>, lines: seq<Line>, i: nat, text: seq<Line>) {
    i <= |lines| && whole == Prepend(segs, ParseFrom(lines[i..], i + 1, text))
  }

  lemma TextRead(whole: ParseResult, segs: seq<Segment>, lines: seq<Line>, i: nat, text: seq<Line>)
    requires ParsedTo(whole, segs, lines, i, text) && i < |lines| && !IsBegin(lines[i])
    ensures ParsedTo(whole, segs, lines, i + 1, text + [lines[i]])
  {
    TextParsed(lines, i, text);
  }

  lemma HunkRead(whole: ParseResult, segs: seq<Segment>, lines: seq<Line>, i: nat, text: seq<Line>, j: nat,
                 h: HunkResult)
    requires ParsedTo(whole, segs, lines, i, text) && i < |lines| && IsBegin(lines[i])
    requires h == ScanHunk(lines[i + 1..], i + 2, i + 1, InOurs, NO_HUNK)
    requires h.Closed? ==> i < j <= |lines| && h.rest == lines[j..]
    ensures h.Closed? ==> ParsedTo(whole, segs + (Flush(text) + [Conflicted(h.hunk, lines[i..j])]), lines, j, [])
    ensures h.Bad? ==> whole == Failed(h.error)
  {
    if h.Closed? {
      HunkParsed(lines, i, j, text, h);
      PrependTwice(segs, Flush(text) + [Conflicted(h.hunk, lines[i..j])], ParseFrom(lines[j..], j + 1, []));
    } else {
      assert lines[i..][0] == lines[i] && lines[i..][1..] == lines[i + 1..];
    }
  }

  lemma AllRead(whole: ParseResult, segs: seq<Segment>, lines: seq<Line>, text: seq<Line>)
    requires ParsedTo(whole, segs, lines, |lines|, text)
    ensures whole == Parsed(segs + Flush(text))
  {
  }

  method Parse(data: string) returns (r: ParseResult)
    ensures r == ParseFrom(Lines(data), 1, [])
  {
    var lines := SplitLines(data);
    var segs: seq<Segment> := [];
    var text: seq<Line> := [];
    var i: nat := 0;
    ghost var whole := ParseFrom(lines, 1, []);
    assert lines[0..] == lines;
    while i < |lines|
      invariant ParsedTo(whole, segs, lines, i, text)
    {
      if !IsBegin(lines[i]) {
        TextRead(whole, segs, lines, i, text);
        text := text + [lines[i]];
        i := i + 1;
      } else {
        var h, j := ReadHunk(lines, i);
        HunkRead(whole, segs, lines, i, text, j, h);
        if h.Bad? {
          return Failed(h.error);
        }
        segs := segs + (Flush(text) + [Conflicted(h.hunk, lines[i..j])]);
        text := [];
        i := j;
      }
    }
    AllRead(whole, segs, lines, text);
    return Parsed(segs + Flush(text));
  }

  datatype Pick = Skip | PickOurs | PickTheirs | PickBoth | PickBothTheirsFirst | PickCustom

  datatype Decision = Decision(pick: Pick, custom: seq<Line>)

  function HunkCount(segs: seq<Segment>): nat {
    if segs == [] then 0 else (if segs[0].Conflicted? then 1 else 0) + HunkCount(segs[1..])
  }

  method CountHunks(segs: seq<Segment>) returns (n: nat)
    ensures n == HunkCount(segs)
  {
    n := 0;
    var i := 0;
    while i < |segs|
      invariant 0 <= i <= |segs| && n + HunkCount(segs[i..]) == HunkCount(segs)
    {
      assert segs[i..][0] == segs[i] && segs[i..][1..] == segs[i + 1..];
      if segs[i].Conflicted? {
        n := n + 1;
      }
      i := i + 1;
    }
  }

  /** Two runs of lines one after the other; a newline is added where they would fuse. */
  function JoinRuns(a: seq<Line>, b: seq<Line>): seq<Line> {
    if a != [] && b != [] && (a[|a| - 1] == "" || a[|a| - 1][|a[|a| - 1]| - 1] != '\n')
    then a[..|a| - 1] + [a[|a| - 1] + "\n"] + b
    else a + b
  }

  /** The two runs of lines would fuse where they meet. */
  predicate Fuses(a: seq<Line>, b: seq<Line>) {
    a != [] && b != [] && (a[|a| - 1] == "" || a[|a| - 1][|a[|a| - 1]| - 1] != '\n')
  }

  lemma JoinRunsText(a: seq<Line>, b: seq<Line>)
    ensures Join(JoinRuns(a, b)) == Join(a) + (if Fuses(a, b) then "\n" else "") + Join(b)
  {
    JoinConcat(a, b);
    if Fuses(a, b) {
      var front, l := a[..|a| - 1], a[|a| - 1];
      assert a == front + [l];
      JoinConcat(front, [l]);
      JoinConcat(front, [l + "\n"]);
      JoinConcat(front + [l + "\n"], b);
      assert Join([l]) == l && Join([l + "\n"]) == l + "\n";
      assert Join(front) + (l + "\n") == Join(front) + l + "\n";
    }
  }

  function Settle(s: Segment, d: Decision): seq<Line>
    requires s.Conflicted?
  {
    match d.pick
    case Skip => s.raw
    case PickOurs => s.hunk.ours
    case PickTheirs => s.hunk.theirs
    case PickBoth => JoinRuns(s.hunk.ours, s.hunk.theirs)
    case PickBothTheirsFirst => JoinRuns(s.hunk.theirs, s.hunk.ours)
    case PickCustom => d.custom
  }

  /**
   The text a decided hunk gives: one side, both in the chosen order with a newline between them
   where they would fuse, or the given lines; undecided it is the hunk's own text.
   */
  lemma SettleMeans(s: Segment, d: Decision)
    requires s.Conflicted?
    ensures var t, o, h := Join(Settle(s, d)), s.hunk.ours, s.hunk.theirs;
            && (d.pick == Skip ==> t == Join(s.raw)) && (d.pick == PickCustom ==> t == Join(d.custom))
            && (d.pick == PickOurs ==> t == Join(o)) && (d.pick == PickTheirs ==> t == Join(h))
            && (d.pick == PickBoth ==> t == Join(o) + (if Fuses(o, h) then "\n" else "") + Join(h))
            && (d.pick == PickBothTheirsFirst ==> t == Join(h) + (if Fuses(h, o) then "\n" else "") + Join(o))
  {
    JoinRunsText(s.hunk.ours, s.hunk.theirs);
    JoinRunsText(s.hunk.theirs, s.hunk.ours);
  }

  /** The k-th hunk gets the k-th decision; a missing one skips it. */
  function DecisionAt(ds: seq<Decision>, k: nat): Decision {
    if k < |ds| then ds[k] else Decision(Skip, [])
  }

  function Settled(segs: seq<Segment>, ds: seq<Decision>, k: nat): seq<Line> {
    if segs == [] then []
    else if segs[0].Text? then segs[0].lines + Settled(segs[1..], ds, k)
    else Settle(segs[0], DecisionAt(ds, k)) + Settled(segs[1..], ds, k + 1)
  }

  function Skipped(segs: seq<Segment>, ds: seq<Decision>, k: nat): nat {
    if segs == [] then 0
    else if segs[0].Text? then Skipped(segs[1..], ds, k)
    else (if DecisionAt(ds, k).pick == Skip then 1 else 0) + Skipped(segs[1..], ds, k + 1)
  }

  /** Settling the first of the remaining segments. */
  lemma SettledFirst(segs: seq<Segment>, ds: seq<Decision>, k: nat, s: Segment, rest: seq<Segment>)
    requires segs == [s] + rest
    ensures s.Text? ==>
      Settled(segs, ds, k) == s.lines + Settled(rest, ds, k) && Skipped(segs, ds, k) == Skipped(rest, ds, k)
    ensures s.Conflicted? ==>
      var d := DecisionAt(ds, k);
      && Settled(segs, ds, k) == Settle(s, d) + Settled(rest, ds, k + 1)
      && Skipped(segs, ds, k) == (if d.pick == Skip then 1 else 0) + Skipped(rest, ds, k + 1)
  {
    assert segs[1..] == rest;
  }

  /** What is written so far with what the remaining segments give. */
  ghost predicate Assembled(lines: seq<Line>, n: nat, left: seq<Segment>, ds: seq<Decision>, k: nat,
                            all: seq<Line>, total: nat)
  {
    lines + Settled(left, ds, k) == all && n + Skipped(left, ds, k) == total
  }

  lemma AssembleStep(lines: seq<Line>, n: nat, left: seq<Segment>, ds: seq<Decision>, k: nat,
                     all: seq<Line>, total: nat, s: Segment, rest: seq<Segment>)
    requires Assembled(lines, n, left, ds, k, all, total) && left == [s] + rest
    ensures s.Text? ==> Assembled(lines + s.lines, n, rest, ds, k, all, total)
    ensures s.Conflicted? ==>
      var d := DecisionAt(ds, k);
      Assembled(lines + Settle(s, d), n + (if d.pick == Skip then 1 else 0), rest, ds, k + 1, all, total)
  {
    SettledFirst(left, ds, k, s, rest);
    if s.Text? {
      assert lines + (s.lines + Settled(rest, ds, k)) == lines + s.lines + Settled(rest, ds, k);
    } else {
      var x := Settle(s, DecisionAt(ds, k));
      assert lines + (x + Settled(rest, ds, k + 1)) == lines + x + Settled(rest, ds, k + 1);
    }
  }

  // ----- which decision goes to which hunk -----

  /** What becomes of segment i: a hunk gets the decision numbered by the hunks before it. */
  function PieceAt(segs: seq<Segment>, ds: seq<Decision>, i: nat): seq<Line>
    requires i < |segs|
  {
    if segs[i].Text? then segs[i].lines else Settle(segs[i], DecisionAt(ds, HunkCount(segs[..i])))
  }

  /** Segment i is a hunk whose own decision is missing or is to skip it. */
  predicate SkippedAt(segs: seq<Segment>, ds: seq<Decision>, i: nat)
    requires i < |segs|
  {
    segs[i].Conflicted? && DecisionAt(ds, HunkCount(segs[..i])).pick == Skip
  }

  lemma {:induction false} HunkCountSnoc(front: seq<Segment>, s: Segment)
    ensures HunkCount(front + [s]) == HunkCount(front) + if s.Conflicted? then 1 else 0
    decreases |front|
  {
    if front == [] {
      assert [] + [s] == [s] && [s][1..] == [];
    } else {
      assert (front + [s])[1..] == front[1..] + [s];
      HunkCountSnoc(front[1..], s);
    }
  }

  /** The segments settled before segment i, segment i, and those after it, in that order. */
  lemma {:induction false} SettledInOrder(segs: seq<Segment>, ds: seq<Decision>, i: nat)
    returns (before: seq<Line>, after: seq<Line>, skippedBefore: nat, skippedAfter: nat)
    requires i < |segs|
    ensures before == Settled(segs[..i], ds, 0) && after == Settled(segs[i + 1..], ds, HunkCount(segs[..i + 1]))
    ensures Settled(segs, ds, 0) == before + PieceAt(segs, ds, i) + after
    ensures skippedBefore == Skipped(segs[..i], ds, 0)
    ensures skippedAfter == Skipped(segs[i + 1..], ds, HunkCount(segs[..i + 1]))
    ensures Skipped(segs, ds, 0) == skippedBefore + (if SkippedAt(segs, ds, i) then 1 else 0) + skippedAfter
  {
    var s, left := segs[i], segs[i..];
    var k := HunkCount(segs[..i]);
    assert segs == segs[..i] + left && left == [s] + segs[i + 1..] && segs[..i + 1] == segs[..i] + [s];
    HunkCountSnoc(segs[..i], s);
    SettledSplit(segs[..i], left, ds, 0);
    SettledFirst(left, ds, k, s, segs[i + 1..]);
    before, after := Settled(segs[..i], ds, 0), Settled(segs[i + 1..], ds, HunkCount(segs[..i + 1]));
    skippedBefore := Skipped(segs[..i], ds, 0);
    skippedAfter := Skipped(segs[i + 1..], ds, HunkCount(segs[..i + 1]));
    assert before + (PieceAt(segs, ds, i) + after) == before + PieceAt(segs, ds, i) + after;
  }

  lemma {:induction false} SettledSplit(x: seq<Segment>, y: seq<Segment>, ds: seq<Decision>, k: nat)
    ensures Settled(x + y, ds, k) == Settled(x, ds, k) + Settled(y, ds, k + HunkCount(x))
    ensures Skipped(x + y, ds, k) == Skipped(x, ds, k) + Skipped(y, ds, k + HunkCount(x))
    decreases |x|
  {
    if x == [] {
      assert x + y == y;
    } else {
      var k' := if x[0].Text? then k else k + 1;
      assert (x + y)[1..] == x[1..] + y;
      SettledSplit(x[1..], y, ds, k');
    }
  }

  method Assemble(segs: seq<Segment>, decisions: seq<Decision>) returns (out: string, remaining: nat)
    ensures out == Join(Settled(segs, decisions, 0)) && remaining == Skipped(segs, decisions, 0)
  {
    var lines: seq<Line> := [];
    var k: nat, i := 0, 0;
    remaining := 0;
    ghost var all, total := Settled(segs, decisions, 0), Skipped(segs, decisions, 0);
    assert segs[0..] == segs && lines + all == all;
    while i < |segs|
      invariant 0 <= i <= |segs| && Assembled(lines, remaining, segs[i..], decisions, k, all, total)
    {
      var s := segs[i];
      assert segs[i..] == [s] + segs[i + 1..];
      AssembleStep(lines, remaining, segs[i..], decisions, k, all, total, s, segs[i + 1..]);
      if s.Text? {
        lines := lines + s.lines;
      } else {
        var d := if k < |decisions| then decisions[k] else Decision(Skip, []);
        k := k + 1;
        lines := lines + Settle(s, d);
        if d.pick == Skip {
          remaining := remaining + 1;
        }
      }
      i := i + 1;
    }
    assert segs[i..] == [] && lines + [] == lines;
    assert Assembled(lines, remaining, [], decisions, k, all, total);
    out := Join(lines);
  }
}
