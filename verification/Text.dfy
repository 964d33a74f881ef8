/** Text as lines, and the conflict markers. Bytes are modelled as characters. */
module Text {
  import opened Edits

  function Join(lines: seq<Line>): string {
    if lines == [] then "" else lines[0] + Join(lines[1..])
  }

  lemma {:induction false} JoinConcat(a: seq<Line>, b: seq<Line>)
    ensures Join(a + b) == Join(a) + Join(b)
  {
    if a == [] {
      assert a + b == b;
    } else {
      assert (a + b)[1..] == a[1..] + b;
      JoinConcat(a[1..], b);
    }
  }

  /** k is the position of the first newline of s, or its length. */
  ghost predicate EndsFirstLine(s: string, k: nat) {
    k <= |s| && (k < |s| ==> s[k] == '\n') && forall i | 0 <= i < k :: s[i] != '\n'
  }

  lemma {:induction false} FirstLineEnds(s: string, from: nat)
    requires from <= |s| && forall i | 0 <= i < from :: s[i] != '\n'
    ensures exists k: nat :: EndsFirstLine(s, k)
    decreases |s| - from
  {
    if from == |s| || s[from] == '\n' {
      assert EndsFirstLine(s, from);
    } else {
      FirstLineEnds(s, from + 1);
    }
  }

  ghost function FirstNewline(s: string): (k: nat)
    ensures EndsFirstLine(s, k)
  {
    FirstLineEnds(s, 0);
    var k: nat :| EndsFirstLine(s, k);
    k
  }

  /** The lines of a text, each with its newline; a last line without one stays as it is. */
  ghost function Lines(data: string): seq<Line>
    decreases |data|
  {
    var k := FirstNewline(data);
    if data == "" then []
    else if k == |data| then [data]
    else [data[..k + 1]] + Lines(data[k + 1..])
  }

  lemma {:induction false} JoinLines(data: string)
    ensures Join(Lines(data)) == data
    decreases |data|
  {
    var k := FirstNewline(data);
    if data != "" && k < |data| {
      JoinLines(data[k + 1..]);
    }
  }

  /** A newline ends the line and occurs nowhere else in it. */
  predicate IsFullLine(l: Line) {
    l != "" && l[|l| - 1] == '\n' && forall i | 0 <= i < |l| - 1 :: l[i] != '\n'
  }

  predicate FullLines(lines: seq<Line>) {
    forall i | 0 <= i < |lines| :: IsFullLine(lines[i])
  }

  lemma FirstNewlineOf(l: Line, rest: string, data: string)
    requires IsFullLine(l) && data == l + rest
    ensures FirstNewline(data) == |l| - 1
  {
    assert data[|l| - 1] == l[|l| - 1] && forall i | 0 <= i < |l| - 1 :: data[i] == l[i];
    FirstIsOne(data, |l| - 1, FirstNewline(data));
  }

  lemma FirstIsOne(s: string, k: nat, k': nat)
    requires EndsFirstLine(s, k) && EndsFirstLine(s, k') && k < |s|
    ensures k == k'
  {
  }

  lemma FullLineFirst(l: Line, rest: string, data: string)
    requires IsFullLine(l) && data == l + rest
    ensures Lines(data) == [l] + Lines(rest)
  {
    FirstNewlineOf(l, rest, data);
    assert data[..|l|] == l && data[|l|..] == rest;
  }

  /** Splitting what was joined from full lines gives the lines back. */
  lemma {:induction false} LinesJoin(lines: seq<Line>)
    requires FullLines(lines)
    ensures Lines(Join(lines)) == lines
  {
    if lines != [] {
      LinesJoin(lines[1..]);
      FullLineFirst(lines[0], Join(lines[1..]), Join(lines));
      assert lines == [lines[0]] + lines[1..];
    }
  }

  /** A text whose every line is complete. */
  predicate Terminated(data: string) {
    data == "" || data[|data| - 1] == '\n'
  }

  lemma {:induction false} TerminatedLines(data: string)
    requires Terminated(data)
    ensures FullLines(Lines(data))
    decreases |data|
  {
    var k := FirstNewline(data);
    if data != "" && k < |data| {
      TerminatedLines(data[k + 1..]);
    }
  }

  /** The lines read so far, followed by the lines of the rest, are the lines of the text. */
  ghost predicate SplitUpTo(data: string, lines: seq<Line>, start: nat) {
    start <= |data| && forall rest | rest == data[start..] :: SplitAt(data, lines, rest)
  }

  ghost predicate SplitAt(data: string, lines: seq<Line>, rest: string) {
    Lines(data) == lines + Lines(rest)
  }

  lemma SplitMore(data: string, lines: seq<Line>, start: nat, i: nat)
    requires SplitUpTo(data, lines, start)
    requires start <= i < |data| && data[i] == '\n' && forall p | start <= p < i :: data[p] != '\n'
    ensures SplitUpTo(data, lines + [data[start..i + 1]], i + 1)
  {
    assert SplitAt(data, lines, data[start..]);
    LineStep(data, start, i);
  }

  lemma LineStep(data: string, start: nat, i: nat)
    requires start <= i < |data| && data[i] == '\n' && forall p | start <= p < i :: data[p] != '\n'
    ensures Lines(data[start..]) == [data[start..i + 1]] + Lines(data[i + 1..])
  {
    var s := data[start..];
    assert FirstNewline(s) == i - start;
    assert s[..i - start + 1] == data[start..i + 1] && s[i - start + 1..] == data[i + 1..];
  }

  lemma LastLine(data: string, start: nat)
    requires start <= |data| && forall p | start <= p < |data| :: data[p] != '\n'
    ensures Lines(data[start..]) == if start < |data| then [data[start..]] else []
  {
    assert FirstNewline(data[start..]) == |data| - start;
  }

  method SplitLines(data: string) returns (lines: seq<Line>)
    ensures lines == Lines(data)
  {
    if |data| == 0 {
      return [];
    }
    lines := [];
    var start, i := 0, 0;
    assert data[0..] == data;
    while i < |data|
      invariant 0 <= start <= i <= |data|
      invariant forall p | start <= p < i :: data[p] != '\n'
      invariant SplitUpTo(data, lines, start)
    {
      if data[i] == '\n' {
        SplitMore(data, lines, start, i);
        lines := lines + [data[start..i + 1]];
        start := i + 1;
      }
      i := i + 1;
    }
    assert SplitAt(data, lines, data[start..]);
    LastLine(data, start);
    if start < |data| {
      lines := lines + [data[start..]];
    }
  }

  method EqualLines(a: seq<Line>, b: seq<Line>) returns (equal: bool)
    ensures equal <==> a == b
  {
    if |a| != |b| {
      return false;
    }
    var i := 0;
    while i < |a|
      invariant 0 <= i <= |a| && a[..i] == b[..i]
    {
      if a[i] != b[i] {
        return false;
      }
      i := i + 1;
    }
    return true;
  }

  // ----- markers -----

  const MARKER_BEGIN := "<<<<<<<"
  const MARKER_SEP := "======="
  const MARKER_END := ">>>>>>>"
  const MARKER_BASE := "|||||||"

  function TrimEnd(line: Line): Line {
    if line != "" && (line[|line| - 1] == '\r' || line[|line| - 1] == '\n') then TrimEnd(line[..|line| - 1]) else line
  }

  predicate IsBegin(line: Line) { MARKER_BEGIN <= TrimEnd(line) }
  predicate IsEnd(line: Line) { MARKER_END <= TrimEnd(line) }
  predicate IsSep(line: Line) { TrimEnd(line) == MARKER_SEP }
  predicate IsBaseMarker(line: Line) { MARKER_BASE <= TrimEnd(line) }

  predicate IsMarker(line: Line) {
    IsBegin(line) || IsEnd(line) || IsSep(line) || IsBaseMarker(line)
  }

  predicate MarkerFree(lines: seq<Line>) {
    forall i | 0 <= i < |lines| :: !IsMarker(lines[i])
  }

  /** The marker lines a conflict is written with. */
  function BeginLine(tag: string): Line { MARKER_BEGIN + " " + tag + "\n" }
  function EndLine(tag: string): Line { MARKER_END + " " + tag + "\n" }
  const SEP_LINE: Line := MARKER_SEP + "\n"
  const BASE_LINE: Line := MARKER_BASE + " base\n"

  predicate IsLabel(tag: string) {
    forall i | 0 <= i < |tag| :: tag[i] != '\n'
  }

  /** Trimming never reaches a character that is not a line end. */
  lemma {:induction false} TrimKeeps(prefix: string, line: Line)
    requires prefix <= line && prefix != "" && prefix[|prefix| - 1] != '\r' && prefix[|prefix| - 1] != '\n'
    ensures prefix <= TrimEnd(line)
    decreases |line|
  {
    if |line| > |prefix| {
      TrimKeeps(prefix, line[..|line| - 1]);
    } else {
      assert line == prefix;
    }
  }

  /** Each marker line is recognised as what it is, and as nothing else. */
  lemma MarkerLines(tag: string)
    ensures IsBegin(BeginLine(tag)) && !IsEnd(BeginLine(tag)) && !IsSep(BeginLine(tag)) && !IsBaseMarker(BeginLine(tag))
    ensures IsEnd(EndLine(tag)) && !IsBegin(EndLine(tag)) && !IsSep(EndLine(tag)) && !IsBaseMarker(EndLine(tag))
    ensures IsSep(SEP_LINE) && !IsBegin(SEP_LINE) && !IsEnd(SEP_LINE) && !IsBaseMarker(SEP_LINE)
    ensures IsBaseMarker(BASE_LINE) && !IsBegin(BASE_LINE) && !IsEnd(BASE_LINE) && !IsSep(BASE_LINE)
  {
    StartsLike(MARKER_BEGIN, BeginLine(tag));
    StartsLike(MARKER_END, EndLine(tag));
    StartsLike(MARKER_BASE, BASE_LINE);
    StartsLike(MARKER_SEP, SEP_LINE);
    assert SEP_LINE[..7] == MARKER_SEP;
    assert TrimEnd(MARKER_SEP) == MARKER_SEP;
  }

  lemma StartsLike(marker: string, line: Line)
    requires marker <= line && |marker| == 7 && marker[6] != '\r' && marker[6] != '\n'
    ensures |TrimEnd(line)| >= 7 && marker <= TrimEnd(line) && TrimEnd(line)[0] == marker[0]
  {
    TrimKeeps(marker, line);
  }

  lemma MarkerLinesAreFull(tag: string)
    requires IsLabel(tag)
    ensures IsFullLine(BeginLine(tag)) && IsFullLine(EndLine(tag)) && IsFullLine(SEP_LINE) && IsFullLine(BASE_LINE)
  {
  }
}
