/** Settling conflict markers by a strategy, with a reader that knows two-way markers only. */
module Resolution {
  import opened Edits
  import opened Text
  import opened Render
  import opened ThreeWay
  import opened MergeLaws
  import opened RoundTrip

  datatype Strategy = Ours | Theirs | Union | Auto

  datatype Tally = Tally(total: nat, resolved: nat, remaining: nat)

  datatype Outcome = Malformed | Done(lines: seq<Line>, stats: Tally)

  datatype Sides = Broken | Sides(ours: seq<Line>, theirs: seq<Line>, rest: seq<Line>)

  /** Their lines, from after the separator to the end marker. */
  ghost function ScanSecond(lines: seq<Line>, ours: seq<Line>, theirs: seq<Line>): Sides
    decreases |lines|
  {
    if lines == [] then Broken
    else if IsEnd(lines[0]) then Sides(ours, theirs, lines[1..])
    else if IsBegin(lines[0]) || IsSep(lines[0]) then Broken
    else ScanSecond(lines[1..], ours, theirs + [lines[0]])
  }

  /** Our lines, from after the begin marker to the separator; a base section is taken for ours. */
  ghost function ScanFirst(lines: seq<Line>, ours: seq<Line>): Sides
    decreases |lines|
  {
    if lines == [] then Broken
    else if IsSep(lines[0]) then ScanSecond(lines[1..], ours, [])
    else if IsBegin(lines[0]) || IsEnd(lines[0]) then Broken
    else ScanFirst(lines[1..], ours + [lines[0]])
  }

  /** Auto settles what can be settled without guessing. */
  predicate Settles(ours: seq<Line>, theirs: seq<Line>, strat: Strategy) {
    strat == Auto ==> ours == theirs || ours == [] || theirs == []
  }

  function ResolvedHunk(ours: seq<Line>, theirs: seq<Line>, strat: Strategy, original: seq<Line>): seq<Line> {
    match strat
    case Ours => ours
    case Theirs => theirs
    case Union => ours + theirs
    case Auto => if !Settles(ours, theirs, Auto) then original else if ours == [] then theirs else ours
  }

  function Counted(t: Tally, ok: bool): Tally {
    Tally(t.total + 1, if ok then t.resolved + 1 else t.resolved, if ok then t.remaining else t.remaining + 1)
  }

  function Add(a: Tally, b: Tally): Tally {
    Tally(a.total + b.total, a.resolved + b.resolved, a.remaining + b.remaining)
  }

  function After(lines: seq<Line>, stats: Tally, r: Outcome): Outcome {
    if r.Malformed? then r else Done(lines + r.lines, Add(stats, r.stats))
  }

  const NOTHING := Tally(0, 0, 0)

  lemma {:induction false} SecondShortens(lines: seq<Line>, ours: seq<Line>, theirs: seq<Line>)
    ensures var s := ScanSecond(lines, ours, theirs);
            s.Sides? ==> |s.rest| < |lines| && s.rest == lines[|lines| - |s.rest|..]
    decreases |lines|
  {
    if lines != [] && !IsEnd(lines[0]) && !IsBegin(lines[0]) && !IsSep(lines[0]) {
      SecondShortens(lines[1..], ours, theirs + [lines[0]]);
    }
  }

  lemma {:induction false} FirstShortens(lines: seq<Line>, ours: seq<Line>)
    ensures var s := ScanFirst(lines, ours);
            s.Sides? ==> |s.rest| < |lines| && s.rest == lines[|lines| - |s.rest|..]
    decreases |lines|
  {
    if lines != [] {
      if IsSep(lines[0]) {
        SecondShortens(lines[1..], ours, []);
      } else if !IsBegin(lines[0]) && !IsEnd(lines[0]) {
        FirstShortens(lines[1..], ours + [lines[0]]);
      }
    }
  }

  ghost predicate Same(a: Sides, b: Sides) { a == b }

  ghost predicate IsScan(tail: seq<Line>, s: Sides) {
    forall x | x == ScanFirst(tail, []) :: Same(x, s)
  }

  /**
   The two sides of the hunk whose begin marker stands before these lines: ScanFirst from an empty
   section, as ScanIs states; named by its value so that the solver does not run the scan on its own.
   */
  ghost function Scan(tail: seq<Line>): (s: Sides)
    ensures s.Sides? ==> |s.rest| < |tail| && s.rest == tail[|tail| - |s.rest|..]
  {
    var f := ScanFirst(tail, []);
    FirstShortens(tail, []);
    assert Same(f, f);
    assert IsScan(tail, f);
    var s :| IsScan(tail, s);
    assert Same(f, s);
    s
  }

  lemma ScanIs(tail: seq<Line>)
    ensures Scan(tail) == ScanFirst(tail, [])
  {
    var f, s := ScanFirst(tail, []), Scan(tail);
    assert Same(f, f);
    assert IsScan(tail, f);
    assert IsScan(tail, s);
    assert Same(f, s);
  }

  ghost function ResolveBody(lines: seq<Line>, strat: Strategy): Outcome
    decreases |lines|
  {
    if lines == [] then Done([], NOTHING)
    else if !IsBegin(lines[0]) then After([lines[0]], NOTHING, ResolveBody(lines[1..], strat))
    else
      var s := Scan(lines[1..]);
      if s.Broken? then Malformed
      else
        After(ResolvedHunk(s.ours, s.theirs, strat, lines[..|lines| - |s.rest|]),
              Counted(NOTHING, Settles(s.ours, s.theirs, strat)), ResolveBody(s.rest, strat))
  }

  ghost predicate SameOutcome(a: Outcome, b: Outcome) { a == b }

  ghost predicate IsOutcome(lines: seq<Line>, strat: Strategy, r: Outcome) {
    forall x | x == ResolveBody(lines, strat) :: SameOutcome(x, r)
  }

  /**
   The outcome for the remaining lines: ResolveBody, as ResolveIs states; named by its value so that
   the solver unfolds it only where FirstNone, FirstLine or FirstHunk say what it is.
   */
  ghost function ResolveFrom(lines: seq<Line>, strat: Strategy): (r: Outcome) {
    var b := ResolveBody(lines, strat);
    assert SameOutcome(b, b);
    assert IsOutcome(lines, strat, b);
    var r :| IsOutcome(lines, strat, r);
    r
  }

  lemma ResolveIs(lines: seq<Line>, strat: Strategy)
    ensures ResolveFrom(lines, strat) == ResolveBody(lines, strat)
  {
    var b, r := ResolveBody(lines, strat), ResolveFrom(lines, strat);
    assert SameOutcome(b, b);
    assert IsOutcome(lines, strat, b);
    assert IsOutcome(lines, strat, r);
    assert SameOutcome(b, r);
  }

  lemma FirstNone(strat: Strategy)
    ensures ResolveFrom([], strat) == Done([], NOTHING)
  {
    ResolveIs([], strat);
  }

  lemma FirstLine(l: Line, tail: seq<Line>, strat: Strategy)
    requires !IsBegin(l)
    ensures ResolveFrom([l] + tail, strat) == After([l], NOTHING, ResolveFrom(tail, strat))
  {
    ResolveIs([l] + tail, strat);
    ResolveIs(tail, strat);
    assert ([l] + tail)[1..] == tail;
  }

  lemma FirstHunk(l: Line, tail: seq<Line>, strat: Strategy, s: Sides)
    requires IsBegin(l) && Scan(tail) == s
    ensures s.Broken? ==> ResolveFrom([l] + tail, strat) == Malformed
    ensures s.Sides? ==> |s.rest| < |tail| + 1
    ensures s.Sides? ==> ResolveFrom([l] + tail, strat) == After(
      ResolvedHunk(s.ours, s.theirs, strat, ([l] + tail)[..|tail| + 1 - |s.rest|]),
      Counted(NOTHING, Settles(s.ours, s.theirs, strat)), ResolveFrom(s.rest, strat))
  {
    ResolveIs([l] + tail, strat);
    if s.Sides? { ResolveIs(s.rest, strat); }
    assert ([l] + tail)[1..] == tail;
  }

  // ----- the loops -----

  function CountBegins(lines: seq<Line>): nat {
    if lines == [] then 0 else (if IsBegin(lines[0]) then 1 else 0) + CountBegins(lines[1..])
  }

  method Count(data: string) returns (n: nat)
    ensures n == CountBegins(Lines(data))
  {
    var lines := SplitLines(data);
    n := 0;
    var i := 0;
    assert lines[0..] == lines;
    while i < |lines|
      invariant 0 <= i <= |lines| && n + CountBegins(lines[i..]) == CountBegins(lines)
    {
      assert lines[i..][0] == lines[i] && lines[i..][1..] == lines[i + 1..];
      if IsBegin(lines[i]) {
        n := n + 1;
      }
      i := i + 1;
    }
  }

  method ReadSides(lines: seq<Line>, i: nat) returns (s: Sides, j: nat)
    requires i < |lines|
    ensures s == Scan(lines[i + 1..])
    ensures s.Sides? ==> i < j <= |lines| && s.rest == lines[j..]
  {
    var ours: seq<Line> := [];
    j := i + 1;
    ScanIs(lines[i + 1..]);
    while j < |lines| && !IsSep(lines[j])
      invariant i < j <= |lines|
      invariant ScanFirst(lines[i + 1..], []) == ScanFirst(lines[j..], ours)
    {
      assert lines[j..][0] == lines[j] && lines[j..][1..] == lines[j + 1..];
      if IsBegin(lines[j]) || IsEnd(lines[j]) {
        return Broken, j;
      }
      ours := ours + [lines[j]];
      j := j + 1;
    }
    if j >= |lines| {
      return Broken, j;
    }
    assert lines[j..][0] == lines[j] && lines[j..][1..] == lines[j + 1..];
    j := j + 1;
    s, j := ReadTheirs(lines, j, ours);
  }

  method ReadTheirs(lines: seq<Line>, start: nat, ours: seq<Line>) returns (s: Sides, j: nat)
    requires start <= |lines|
    ensures s == ScanSecond(lines[start..], ours, [])
    ensures s.Sides? ==> start < j <= |lines| && s.rest == lines[j..]
  {
    var theirs: seq<Line> := [];
    j := start;
    while j < |lines| && !IsEnd(lines[j])
      invariant start <= j <= |lines|
      invariant ScanSecond(lines[start..], ours, []) == ScanSecond(lines[j..], ours, theirs)
    {
      assert lines[j..][0] == lines[j] && lines[j..][1..] == lines[j + 1..];
      if IsBegin(lines[j]) || IsSep(lines[j]) {
        return Broken, j;
      }
      theirs := theirs + [lines[j]];
      j := j + 1;
    }
    if j >= |lines| {
      return Broken, j;
    }
    s := Sides(ours, theirs, lines[j + 1..]);
    j := j + 1;
  }

  method ResolveHunk(ours: seq<Line>, theirs: seq<Line>, strat: Strategy, original: seq<Line>)
    returns (lines: seq<Line>, ok: bool)
    ensures lines == ResolvedHunk(ours, theirs, strat, original) && ok == Settles(ours, theirs, strat)
  {
    match strat
    case Ours => return ours, true;
    case Theirs => return theirs, true;
    case Union => return ours + theirs, true;
    case Auto =>
      var same := EqualLines(ours, theirs);
      if same {
        return ours, true;
      } else if |ours| == 0 {
        return theirs, true;
      } else if |theirs| == 0 {
        return ours, true;
      } else {
        return original, false;
      }
  }

  lemma AfterTwice(a: seq<Line>, s: Tally, b: seq<Line>, t: Tally, r: Outcome)
    ensures After(a, s, After(b, t, r)) == After(a + b, Add(s, t), r)
  {
    if r.Done? { assert a + (b + r.lines) == a + b + r.lines; }
  }

  /** What has been written so far leads to the whole outcome. */
  ghost predicate Leads(tail: seq<Line>, strat: Strategy, out: seq<Line>, stats: Tally, whole: Outcome) {
    LeadsWith(ResolveFrom(tail, strat), out, stats, whole)
  }

  ghost predicate LeadsWith(r: Outcome, out: seq<Line>, stats: Tally, whole: Outcome) {
    whole == After(out, stats, r)
  }

  lemma AfterNothing(r: Outcome)
    ensures LeadsWith(r, [], NOTHING, r)
  {
    if r.Done? { assert [] + r.lines == r.lines; }
  }

  lemma LeadsEnd(strat: Strategy, out: seq<Line>, stats: Tally, whole: Outcome)
    requires Leads([], strat, out, stats, whole)
    ensures whole == Done(out, stats)
  {
    FirstNone(strat);
    assert out + [] == out;
  }

  lemma LeadsLine(l: Line, tail: seq<Line>, strat: Strategy, out: seq<Line>, stats: Tally, whole: Outcome)
    requires Leads([l] + tail, strat, out, stats, whole) && !IsBegin(l)
    ensures Leads(tail, strat, out + [l], stats, whole)
  {
    FirstLine(l, tail, strat);
    Further(ResolveFrom(tail, strat), out, stats, [l], NOTHING, whole);
  }

  lemma LeadsHunk(l: Line, tail: seq<Line>, strat: Strategy, s: Sides, original: seq<Line>, out: seq<Line>,
                  stats: Tally, whole: Outcome)
    requires Leads([l] + tail, strat, out, stats, whole) && IsBegin(l) && Scan(tail) == s
    requires s.Sides? ==> |s.rest| <= |tail| && original == ([l] + tail)[..|tail| + 1 - |s.rest|]
    ensures s.Broken? ==> whole == Malformed
    ensures s.Sides? ==> Leads(s.rest, strat, out + ResolvedHunk(s.ours, s.theirs, strat, original),
        Counted(stats, Settles(s.ours, s.theirs, strat)), whole)
  {
    FirstHunk(l, tail, strat, s);
    if s.Sides? {
      Further(ResolveFrom(s.rest, strat), out, stats, ResolvedHunk(s.ours, s.theirs, strat, original),
              Counted(NOTHING, Settles(s.ours, s.theirs, strat)), whole);
    }
  }

  lemma Further(r: Outcome, out: seq<Line>, stats: Tally, more: seq<Line>, t: Tally, whole: Outcome)
    requires LeadsWith(After(more, t, r), out, stats, whole)
    ensures LeadsWith(r, out + more, Add(stats, t), whole)
  {
    AfterTwice(out, stats, more, t, r);
  }

  lemma HeadAndTail(lines: seq<Line>, i: nat)
    requires i < |lines|
    ensures lines[i..] == [lines[i]] + lines[i + 1..]
  {
  }

  lemma OriginalLines(lines: seq<Line>, i: nat, j: nat)
    requires i < j <= |lines|
    ensures lines[i..j] == ([lines[i]] + lines[i + 1..])[..|lines[i + 1..]| + 1 - |lines[j..]|]
  {
  }

  method Resolve(data: string, strat: Strategy) returns (ok: bool, text: string, stats: Tally)
    ensures var r := ResolveFrom(Lines(data), strat);
            (ok <==> r.Done?) && (ok ==> text == Join(r.lines) && stats == r.stats)
  {
    var lines := SplitLines(data);
    var out: seq<Line> := [];
    ghost var whole := ResolveFrom(lines, strat);
    ok, out, stats := ResolveLines(lines, strat, whole);
    text := if ok then Join(out) else "";
  }

  method ResolveLines(lines: seq<Line>, strat: Strategy, ghost whole: Outcome)
    returns (ok: bool, out: seq<Line>, stats: Tally)
    requires whole == ResolveFrom(lines, strat)
    ensures if ok then whole == Done(out, stats) else whole == Malformed
  {
    out, stats := [], NOTHING;
    var i := 0;
    assert lines[0..] == lines;
    AfterNothing(whole);
    while i < |lines|
      invariant 0 <= i <= |lines| && Leads(lines[i..], strat, out, stats, whole)
    {
      HeadAndTail(lines, i);
      if !IsBegin(lines[i]) {
        LeadsLine(lines[i], lines[i + 1..], strat, out, stats, whole);
        out := out + [lines[i]];
        i := i + 1;
      } else {
        var s, j := ReadSides(lines, i);
        if s.Sides? { OriginalLines(lines, i, j); }
        ghost var original := if s.Sides? then lines[i..j] else [];
        LeadsHunk(lines[i], lines[i + 1..], strat, s, original, out, stats, whole);
        if s.Broken? {
          return false, out, stats;
        }
        var resolved, settled := ResolveHunk(s.ours, s.theirs, strat, lines[i..j]);
        out := out + resolved;
        stats := Counted(stats, settled);
        i := j;
      }
    }
    assert lines[i..] == [];
    LeadsEnd(strat, out, stats, whole);
    ok := true;
  }

  // ----- counts -----

  lemma {:induction false} SecondHasNoBegin(lines: seq<Line>, ours: seq<Line>, theirs: seq<Line>, s: Sides)
    requires s == ScanSecond(lines, ours, theirs) && s.Sides?
    ensures CountBegins(s.rest) == CountBegins(lines)
    decreases |lines|
  {
    MarkersDiffer(lines[0]);
    if !IsEnd(lines[0]) {
      SecondHasNoBegin(lines[1..], ours, theirs + [lines[0]], s);
    }
  }

  lemma {:induction false} FirstHasNoBegin(lines: seq<Line>, ours: seq<Line>, s: Sides)
    requires s == ScanFirst(lines, ours) && s.Sides?
    ensures CountBegins(s.rest) == CountBegins(lines)
    decreases |lines|
  {
    MarkersDiffer(lines[0]);
    if IsSep(lines[0]) {
      SecondHasNoBegin(lines[1..], ours, [], s);
    } else {
      FirstHasNoBegin(lines[1..], ours + [lines[0]], s);
    }
  }

  lemma MarkersDiffer(l: Line)
    ensures IsBegin(l) ==> !IsEnd(l) && !IsSep(l)
  {
    if IsBegin(l) {
      assert TrimEnd(l)[0] == MARKER_BEGIN[0];
    }
  }

  /** A resolution that succeeds met every begin marker, and each hunk was settled or remains. */
  lemma {:induction false} TotalIsCount(lines: seq<Line>, strat: Strategy)
    ensures var r := ResolveFrom(lines, strat);
            r.Done? ==> r.stats.total == CountBegins(lines) && r.stats.total == r.stats.resolved + r.stats.remaining
                        && (strat != Auto ==> r.stats.remaining == 0)
    decreases |lines|
  {
    if lines == [] {
      FirstNone(strat);
    } else {
      var l, tail := lines[0], lines[1..];
      assert lines == [l] + tail;
      if !IsBegin(l) {
        FirstLine(l, tail, strat);
        TotalIsCount(tail, strat);
      } else {
        var s := Scan(tail);
        FirstHunk(l, tail, strat, s);
        ScanIs(tail);
        if s.Sides? {
          FirstHasNoBegin(tail, [], s);
          TotalIsCount(s.rest, strat);
        }
      }
    }
  }

  // ----- what becomes of a hunk -----

  /**
   Taking a side gives that side, and taking both gives ours and then theirs. Auto settles a hunk
   exactly when one side has all there is, and then both sides begin what it gives; otherwise it
   leaves the hunk as it was.
   */
  lemma HunkMeans(ours: seq<Line>, theirs: seq<Line>, strat: Strategy, original: seq<Line>)
    ensures var r, settled := ResolvedHunk(ours, theirs, strat, original), Settles(ours, theirs, strat);
            && (strat == Ours ==> settled && r == ours) && (strat == Theirs ==> settled && r == theirs)
            && (strat == Union ==> settled && |r| == |ours| + |theirs| && r[..|ours|] == ours && r[|ours|..] == theirs)
            && (strat == Auto && settled ==> r in [ours, theirs] && ours <= r && theirs <= r)
            && (strat == Auto && !settled ==> r == original && ours != [] && theirs != [] && ours != theirs)
  {
  }

  /** A file as the reader should take it: bare lines, and hunks with their three markers. */
  datatype Part = Bare(line: Line) | Marked(begin: Line, ours: seq<Line>, sep: Line, theirs: seq<Line>, end: Line)

  predicate WellFormed(p: Part) {
    match p
    case Bare(l) => !IsBegin(l)
    case Marked(begin, ours, sep, theirs, end) =>
      IsBegin(begin) && Content(ours) && IsSep(sep) && Content(theirs) && IsEnd(end)
  }

  function Spelled(p: Part): seq<Line> {
    match p
    case Bare(l) => [l]
    case Marked(begin, ours, sep, theirs, end) => [begin] + ours + [sep] + theirs + [end]
  }

  function SpelledAll(ps: seq<Part>): seq<Line> {
    if ps == [] then [] else Spelled(ps[0]) + SpelledAll(ps[1..])
  }

  predicate AllWellFormed(ps: seq<Part>) {
    forall i | 0 <= i < |ps| :: WellFormed(ps[i])
  }

  /** Every part resolved by itself. */
  function ResolvedParts(ps: seq<Part>, strat: Strategy): Outcome {
    if ps == [] then Done([], NOTHING)
    else
      var r := ResolvedParts(ps[1..], strat);
      match ps[0]
      case Bare(l) => After([l], NOTHING, r)
      case Marked(_, ours, _, theirs, _) =>
        After(ResolvedHunk(ours, theirs, strat, Spelled(ps[0])), Counted(NOTHING, Settles(ours, theirs, strat)), r)
  }

  lemma ScanMarked(p: Part, tail: seq<Line>)
    requires p.Marked? && WellFormed(p)
    ensures Spelled(p)[0] == p.begin && Scan(Spelled(p)[1..] + tail) == Sides(p.ours, p.theirs, tail)
  {
    var last := [p.end] + tail;
    var second := [p.sep] + (p.theirs + last);
    var inner := Spelled(p)[1..] + tail;
    assert inner == p.ours + second;
    ScanIs(inner);
    FirstBody(p.ours, second, []);
    assert [] + p.ours == p.ours && second[1..] == p.theirs + last;
    SecondBody(p.theirs, last, p.ours, []);
    assert [] + p.theirs == p.theirs && last[1..] == tail;
  }

  lemma PartResolved(p: Part, tail: seq<Line>, strat: Strategy)
    requires WellFormed(p)
    ensures p.Bare? ==> ResolveFrom(Spelled(p) + tail, strat) == After([p.line], NOTHING, ResolveFrom(tail, strat))
    ensures p.Marked? ==>
      var mid, count := ResolvedHunk(p.ours, p.theirs, strat, Spelled(p)), Settles(p.ours, p.theirs, strat);
      ResolveFrom(Spelled(p) + tail, strat) == After(mid, Counted(NOTHING, count), ResolveFrom(tail, strat))
  {
    if p.Bare? {
      FirstLine(p.line, tail, strat);
    } else {
      var hunk := Spelled(p);
      var inner, all := hunk[1..] + tail, hunk + tail;
      ScanMarked(p, tail);
      assert all == [p.begin] + inner && all[..|hunk|] == hunk;
      FirstHunk(p.begin, inner, strat, Sides(p.ours, p.theirs, tail));
    }
  }

  /** A file made of such parts is resolved part by part. */
  lemma {:induction false} ResolvesParts(ps: seq<Part>, strat: Strategy)
    requires AllWellFormed(ps)
    ensures ResolveFrom(SpelledAll(ps), strat) == ResolvedParts(ps, strat)
    decreases |ps|
  {
    if ps == [] {
      FirstNone(strat);
    } else {
      assert AllWellFormed(ps[1..]) by { assert forall i | 0 <= i < |ps[1..]| :: ps[1..][i] == ps[i + 1]; }
      ResolvesParts(ps[1..], strat);
      PartResolved(ps[0], SpelledAll(ps[1..]), strat);
    }
  }

  lemma {:induction false} SecondParts(lines: seq<Line>, ours: seq<Line>, theirs: seq<Line>)
    returns (body: seq<Line>, end: Line)
    requires ScanSecond(lines, ours, theirs).Sides?
    ensures Content(body) && IsEnd(end)
    ensures var s := ScanSecond(lines, ours, theirs);
            lines == body + [end] + s.rest && s.ours == ours && s.theirs == theirs + body
    decreases |lines|
  {
    if IsEnd(lines[0]) {
      body, end := [], lines[0];
    } else {
      var more;
      more, end := SecondParts(lines[1..], ours, theirs + [lines[0]]);
      body := [lines[0]] + more;
    }
  }

  lemma {:induction false} FirstParts(lines: seq<Line>, ours: seq<Line>)
    returns (body: seq<Line>, sep: Line, theirs: seq<Line>, end: Line)
    requires ScanFirst(lines, ours).Sides?
    ensures Content(body) && IsSep(sep) && Content(theirs) && IsEnd(end)
    ensures var s := ScanFirst(lines, ours);
            lines == body + [sep] + theirs + [end] + s.rest && s.ours == ours + body && s.theirs == theirs
    decreases |lines|
  {
    if IsSep(lines[0]) {
      body, sep := [], lines[0];
      theirs, end := SecondParts(lines[1..], ours, []);
    } else {
      var more;
      more, sep, theirs, end := FirstParts(lines[1..], ours + [lines[0]]);
      body := [lines[0]] + more;
    }
  }

  /** A file that can be resolved is made of such parts. */
  lemma {:induction false} ResolvedHasParts(lines: seq<Line>, strat: Strategy) returns (ps: seq<Part>)
    requires ResolveFrom(lines, strat).Done?
    ensures AllWellFormed(ps) && SpelledAll(ps) == lines
    decreases |lines|
  {
    if lines == [] {
      ps := [];
    } else {
      var l, tail := lines[0], lines[1..];
      assert lines == [l] + tail;
      var p, rest;
      if !IsBegin(l) {
        FirstLine(l, tail, strat);
        p, rest := Bare(l), tail;
      } else {
        FirstHunk(l, tail, strat, Scan(tail));
        ScanIs(tail);
        var body, sep, theirs, end := FirstParts(tail, []);
        p, rest := Marked(l, body, sep, theirs, end), Scan(tail).rest;
      }
      var more := ResolvedHasParts(rest, strat);
      ps := [p] + more;
      assert Spelled(p) + rest == lines && ps[1..] == more;
    }
  }

  /** Files that cannot be resolved are exactly those not made of such parts, for every strategy. */
  lemma ResolvesExactly(lines: seq<Line>, strat: Strategy)
    ensures ResolveFrom(lines, strat).Done? <==> exists ps :: AllWellFormed(ps) && SpelledAll(ps) == lines
    ensures forall ps | AllWellFormed(ps) && SpelledAll(ps) == lines ::
              ResolveFrom(lines, strat) == ResolvedParts(ps, strat)
  {
    if ResolveFrom(lines, strat).Done? {
      var ps := ResolvedHasParts(lines, strat);
    }
    forall ps | AllWellFormed(ps) && SpelledAll(ps) == lines
      ensures ResolveFrom(lines, strat) == ResolvedParts(ps, strat) && ResolvedParts(ps, strat).Done?
    {
      ResolvesParts(ps, strat);
      PartsAreDone(ps, strat);
    }
  }

  lemma {:induction false} PartsAreDone(ps: seq<Part>, strat: Strategy)
    ensures ResolvedParts(ps, strat).Done?
    decreases |ps|
  {
    if ps != [] { PartsAreDone(ps[1..], strat); }
  }

  // ----- what a merge wrote -----

  /** Lines the two-way reader takes for content. */
  predicate Content(lines: seq<Line>) {
    forall i | 0 <= i < |lines| :: !IsBegin(lines[i]) && !IsEnd(lines[i]) && !IsSep(lines[i])
  }

  lemma ContentTail(lines: seq<Line>)
    requires Content(lines) && lines != []
    ensures Content(lines[1..]) && !IsBegin(lines[0]) && !IsEnd(lines[0]) && !IsSep(lines[0])
  {
    assert forall i | 0 <= i < |lines[1..]| :: lines[1..][i] == lines[i + 1];
  }

  lemma {:induction false} FirstBody(body: seq<Line>, rest: seq<Line>, ours: seq<Line>)
    requires Content(body)
    ensures ScanFirst(body + rest, ours) == ScanFirst(rest, ours + body)
    decreases |body|
  {
    if body == [] {
      assert body + rest == rest && ours + body == ours;
    } else {
      ContentTail(body);
      assert (body + rest)[0] == body[0] && (body + rest)[1..] == body[1..] + rest;
      FirstBody(body[1..], rest, ours + [body[0]]);
      assert ours + [body[0]] + body[1..] == ours + body;
    }
  }

  lemma {:induction false} SecondBody(body: seq<Line>, rest: seq<Line>, ours: seq<Line>, theirs: seq<Line>)
    requires Content(body)
    ensures ScanSecond(body + rest, ours, theirs) == ScanSecond(rest, ours, theirs + body)
    decreases |body|
  {
    if body == [] {
      assert body + rest == rest && theirs + body == theirs;
    } else {
      ContentTail(body);
      assert (body + rest)[0] == body[0] && (body + rest)[1..] == body[1..] + rest;
      SecondBody(body[1..], rest, ours, theirs + [body[0]]);
      assert theirs + [body[0]] + body[1..] == theirs + body;
    }
  }

  /** The lines are resolved to these, with these counts. */
  ghost predicate Resolves(lines: seq<Line>, strat: Strategy, out: seq<Line>, stats: Tally) {
    ResolveFrom(lines, strat) == Done(out, stats)
  }

  lemma LineThen(l: Line, tail: seq<Line>, strat: Strategy, out: seq<Line>, stats: Tally)
    requires Resolves(tail, strat, out, stats) && !IsBegin(l)
    ensures Resolves([l] + tail, strat, [l] + out, stats)
  {
    FirstLine(l, tail, strat);
  }

  lemma HunkThenRest(hunk: seq<Line>, tail: seq<Line>, strat: Strategy, s: Sides, out: seq<Line>, stats: Tally)
    requires hunk != [] && IsBegin(hunk[0]) && Scan(hunk[1..] + tail) == s && s.Sides? && s.rest == tail
    requires Resolves(tail, strat, out, stats)
    ensures Resolves(hunk + tail, strat, ResolvedHunk(s.ours, s.theirs, strat, hunk) + out,
        Counted(stats, Settles(s.ours, s.theirs, strat)))
  {
    var inner, all := hunk[1..] + tail, hunk + tail;
    assert all == [hunk[0]] + inner;
    FirstHunk(hunk[0], inner, strat, s);
    assert all[..|hunk|] == hunk;
  }

  lemma {:induction false} PlainResolved(body: seq<Line>, rest: seq<Line>, strat: Strategy, out: seq<Line>,
                                         stats: Tally)
    requires Content(body) && Resolves(rest, strat, out, stats)
    ensures Resolves(body + rest, strat, body + out, stats)
    decreases |body|
  {
    if body == [] {
      assert body + rest == rest && body + out == out;
    } else {
      ContentTail(body);
      PlainResolved(body[1..], rest, strat, out, stats);
      LineThen(body[0], body[1..] + rest, strat, body[1..] + out, stats);
      Regroup1(body, rest);
      Regroup1(body, out);
    }
  }

  lemma Regroup1(body: seq<Line>, rest: seq<Line>)
    requires body != []
    ensures [body[0]] + (body[1..] + rest) == body + rest
  {
  }

  /** What the reader takes for our side of a written conflict. */
  function TakenForOurs(l: Layout, m: Marking): seq<Line> {
    l.ours + BaseLines(l, m)
  }

  lemma CleanIsContent(lines: seq<Line>)
    requires Clean(lines)
    ensures Content(lines)
  {
  }

  lemma TakenIsContent(l: Layout, m: Marking)
    requires CleanVersions(l)
    ensures Content(TakenForOurs(l, m)) && Content(l.theirs)
  {
    MarkerLines(m.ourTag);
    CleanIsContent(l.ours);
    CleanIsContent(l.base);
  }

  lemma TakenLines(l: Layout, m: Marking, hunk: seq<Line>, tail: seq<Line>, after: seq<Line>)
    requires hunk == HunkLines(l, m) && after == [SEP_LINE] + (l.theirs + ([EndLine(m.theirTag)] + tail))
    ensures hunk[0] == BeginLine(m.ourTag) && hunk[1..] + tail == TakenForOurs(l, m) + after
  {
  }

  lemma ScanAfterOurs(l: Layout, m: Marking, taken: seq<Line>, tail: seq<Line>, after: seq<Line>)
    requires Content(taken) && Content(l.theirs) && after == [SEP_LINE] + (l.theirs + ([EndLine(m.theirTag)] + tail))
    ensures ScanFirst(after, taken) == Sides(taken, l.theirs, tail)
  {
    var end := [EndLine(m.theirTag)] + tail;
    MarkerLines(m.theirTag);
    assert after[1..] == l.theirs + end && end[1..] == tail;
    SecondBody(l.theirs, end, taken, []);
    assert [] + l.theirs == l.theirs;
  }

  /** A written conflict is read as its two sides, a base section counting as ours. */
  lemma ScanWrittenHunk(l: Layout, m: Marking, tail: seq<Line>, after: seq<Line>)
    requires CleanVersions(l) && after == [SEP_LINE] + (l.theirs + ([EndLine(m.theirTag)] + tail))
    ensures Scan(TakenForOurs(l, m) + after) == Sides(TakenForOurs(l, m), l.theirs, tail)
  {
    var taken := TakenForOurs(l, m);
    TakenIsContent(l, m);
    ScanIs(taken + after);
    FirstBody(taken, after, []);
    assert [] + taken == taken;
    ScanAfterOurs(l, m, taken, tail, after);
  }

  /** Our side of a conflict: as it is read, or as it was. */
  function Mine(l: Layout, m: Marking, asRead: bool): seq<Line> {
    if asRead then TakenForOurs(l, m) else l.ours
  }

  function Middle(l: Layout, m: Marking, strat: Strategy, asRead: bool): seq<Line> {
    ResolvedHunk(Mine(l, m, asRead), l.theirs, strat, HunkLines(l, m))
  }

  ghost function KeptOf(c: Chunk, m: Marking, strat: Strategy, asRead: bool): seq<Line> {
    match c
    case Plain(lines) => lines
    case Conflict(_, _, _) =>
      var l := LayoutOf(c, m.style);
      l.above + Middle(l, m, strat, asRead) + l.below
  }

  ghost function CountedOf(c: Chunk, m: Marking, strat: Strategy, asRead: bool, stats: Tally): Tally {
    if c.Plain? then stats
    else
      var l := LayoutOf(c, m.style);
      Counted(stats, Settles(Mine(l, m, asRead), l.theirs, strat))
  }

  /** All lines of a merge, every conflict resolved by the strategy. */
  ghost function Kept(cs: seq<Chunk>, m: Marking, strat: Strategy, asRead: bool): seq<Line>
    decreases |cs|
  {
    if cs == [] then [] else KeptOf(cs[0], m, strat, asRead) + Kept(cs[1..], m, strat, asRead)
  }

  ghost function KeptTally(cs: seq<Chunk>, m: Marking, strat: Strategy, asRead: bool): Tally
    decreases |cs|
  {
    if cs == [] then NOTHING else CountedOf(cs[0], m, strat, asRead, KeptTally(cs[1..], m, strat, asRead))
  }

  lemma ChunkResolved(c: Chunk, m: Marking, rest: seq<Line>, strat: Strategy, out: seq<Line>, stats: Tally)
    requires CleanChunk(c) && Resolves(rest, strat, out, stats)
    ensures Resolves(ChunkLines(c, m) + rest, strat, KeptOf(c, m, strat, true) + out,
        CountedOf(c, m, strat, true, stats))
  {
    if c.Plain? {
      CleanIsContent(c.lines);
      PlainResolved(c.lines, rest, strat, out, stats);
    } else {
      CleanLayout(c, m.style);
      var l := LayoutOf(c, m.style);
      LayoutResolved(l, m, rest, strat, out, stats, HunkLines(l, m), Middle(l, m, strat, true));
    }
  }

  lemma LayoutResolved(l: Layout, m: Marking, rest: seq<Line>, strat: Strategy, out: seq<Line>, stats: Tally,
                       hunk: seq<Line>, mid: seq<Line>)
    requires Clean(l.above) && CleanVersions(l) && Clean(l.below) && Resolves(rest, strat, out, stats)
    requires hunk == HunkLines(l, m) && mid == Middle(l, m, strat, true)
    ensures Resolves((l.above + hunk + l.below) + rest, strat, (l.above + mid + l.below) + out,
        Counted(stats, Settles(TakenForOurs(l, m), l.theirs, strat)))
  {
    var counted := Counted(stats, Settles(TakenForOurs(l, m), l.theirs, strat));
    CleanIsContent(l.above);
    CleanIsContent(l.below);
    PlainResolved(l.below, rest, strat, out, stats);
    WrittenHunkResolved(l, m, l.below + rest, strat, l.below + out, stats);
    PlainResolved(l.above, hunk + (l.below + rest), strat, mid + (l.below + out), counted);
    Regroup4(l.above, hunk, l.below, rest);
    Regroup4(l.above, mid, l.below, out);
  }

  lemma WrittenHunkResolved(l: Layout, m: Marking, tail: seq<Line>, strat: Strategy, out: seq<Line>, stats: Tally)
    requires CleanVersions(l) && Resolves(tail, strat, out, stats)
    ensures Resolves(HunkLines(l, m) + tail, strat, Middle(l, m, strat, true) + out,
        Counted(stats, Settles(TakenForOurs(l, m), l.theirs, strat)))
  {
    var hunk := HunkLines(l, m);
    var after := [SEP_LINE] + (l.theirs + ([EndLine(m.theirTag)] + tail));
    TakenLines(l, m, hunk, tail, after);
    ScanWrittenHunk(l, m, tail, after);
    MarkerLines(m.ourTag);
    HunkThenRest(hunk, tail, strat, Sides(TakenForOurs(l, m), l.theirs, tail), out, stats);
  }

  lemma {:induction false} ChunksResolved(cs: seq<Chunk>, m: Marking, strat: Strategy, lines: seq<Line>,
                                          kept: seq<Line>, stats: Tally)
    requires CleanChunks(cs) && lines == AllLines(cs, m)
    requires kept == Kept(cs, m, strat, true) && stats == KeptTally(cs, m, strat, true)
    ensures Resolves(lines, strat, kept, stats)
    decreases |cs|
  {
    if cs == [] {
      FirstNone(strat);
    } else {
      CleanTail(cs);
      var rest, out, t := AllLines(cs[1..], m), Kept(cs[1..], m, strat, true), KeptTally(cs[1..], m, strat, true);
      ChunksResolved(cs[1..], m, strat, rest, out, t);
      ChunkFirst(cs, m, strat, rest, out, t);
      ChunkResolved(cs[0], m, rest, strat, out, t);
    }
  }

  lemma ChunkFirst(cs: seq<Chunk>, m: Marking, strat: Strategy, rest: seq<Line>, out: seq<Line>, t: Tally)
    requires cs != [] && rest == AllLines(cs[1..], m)
    requires out == Kept(cs[1..], m, strat, true) && t == KeptTally(cs[1..], m, strat, true)
    ensures AllLines(cs, m) == ChunkLines(cs[0], m) + rest
    ensures Kept(cs, m, strat, true) == KeptOf(cs[0], m, strat, true) + out
    ensures KeptTally(cs, m, strat, true) == CountedOf(cs[0], m, strat, true, t)
  {
  }

  // ----- what the strategies are for -----

  /** The two sides of the conflict, as they were, leave nothing to decide: one is empty, or they are the same. */
  ghost predicate EasyToSettle(c: Chunk, style: Style)
    requires c.Conflict?
  {
    var l := LayoutOf(c, style);
    l.ours == [] || l.theirs == [] || l.ours == l.theirs
  }

  /** What should become of a conflict: a side, both, or the one there is if there is no more than one. */
  function Wanted(l: Layout, m: Marking, strat: Strategy): seq<Line> {
    match strat
    case Ours => l.ours
    case Theirs => l.theirs
    case Union => l.ours + l.theirs
    case Auto =>
      if l.ours == [] then l.theirs
      else if l.theirs == [] || l.theirs == l.ours then l.ours
      else HunkLines(l, m)
  }

  ghost function WantedLines(cs: seq<Chunk>, m: Marking, strat: Strategy): seq<Line>
    decreases |cs|
  {
    if cs == [] then []
    else if cs[0].Plain? then cs[0].lines + WantedLines(cs[1..], m, strat)
    else
      var l := LayoutOf(cs[0], m.style);
      l.above + Wanted(l, m, strat) + l.below + WantedLines(cs[1..], m, strat)
  }

  /** How many conflicts should be left standing. */
  ghost function HardCount(cs: seq<Chunk>, style: Style, strat: Strategy): nat
    decreases |cs|
  {
    if cs == [] then 0
    else (if cs[0].Conflict? && strat == Auto && !EasyToSettle(cs[0], style) then 1 else 0)
         + HardCount(cs[1..], style, strat)
  }

  lemma {:induction false} KeptIsWanted(cs: seq<Chunk>, m: Marking, strat: Strategy)
    ensures Kept(cs, m, strat, false) == WantedLines(cs, m, strat)
    ensures var n, hard := ConflictCount(cs), HardCount(cs, m.style, strat);
            hard <= n && KeptTally(cs, m, strat, false) == Tally(n, n - hard, hard)
    decreases |cs|
  {
    if cs != [] {
      KeptIsWanted(cs[1..], m, strat);
      if cs[0].Conflict? {
        var l := LayoutOf(cs[0], m.style);
        assert Middle(l, m, strat, false) == Wanted(l, m, strat);
      }
    }
  }

  // ----- where the reading does no harm -----

  /** The base section does not matter to the strategy. */
  ghost predicate Harmless(c: Chunk, m: Marking, strat: Strategy) {
    c.Plain? || m.style == Merge || strat == Theirs || (strat == Auto && !EasyToSettle(c, m.style))
  }

  ghost predicate AllHarmless(cs: seq<Chunk>, m: Marking, strat: Strategy) {
    forall c | c in cs :: Harmless(c, m, strat)
  }

  /** A base section holds a marker line, which their side does not. */
  lemma TakenIsNotTheirs(l: Layout, m: Marking)
    requires CleanVersions(l) && m.style != Merge
    ensures TakenForOurs(l, m) != l.theirs && |TakenForOurs(l, m)| > |l.ours|
  {
    MarkerLines(m.ourTag);
    assert TakenForOurs(l, m)[|l.ours|] == BASE_LINE && IsMarker(BASE_LINE);
  }

  lemma MiddleExactly(c: Chunk, m: Marking, strat: Strategy, l: Layout)
    requires c.Conflict? && l == LayoutOf(c, m.style) && CleanVersions(l)
    ensures Harmless(c, m, strat) ==> Middle(l, m, strat, true) == Middle(l, m, strat, false)
    ensures Harmless(c, m, strat) ==>
      Settles(Mine(l, m, true), l.theirs, strat) == Settles(Mine(l, m, false), l.theirs, strat)
    ensures !Harmless(c, m, strat) ==> |Middle(l, m, strat, true)| > |Middle(l, m, strat, false)|
  {
    if m.style == Merge {
      assert TakenForOurs(l, m) == l.ours;
    } else {
      TakenIsNotTheirs(l, m);
    }
  }

  lemma KeptOfExactly(c: Chunk, m: Marking, strat: Strategy)
    requires CleanChunk(c)
    ensures Harmless(c, m, strat) ==> KeptOf(c, m, strat, true) == KeptOf(c, m, strat, false)
    ensures Harmless(c, m, strat) ==>
      forall t :: CountedOf(c, m, strat, true, t) == CountedOf(c, m, strat, false, t)
    ensures !Harmless(c, m, strat) ==> |KeptOf(c, m, strat, true)| > |KeptOf(c, m, strat, false)|
  {
    if c.Conflict? {
      CleanLayout(c, m.style);
      MiddleExactly(c, m, strat, LayoutOf(c, m.style));
    }
  }

  lemma HarmlessFirst(cs: seq<Chunk>, m: Marking, strat: Strategy)
    requires cs != []
    ensures AllHarmless(cs, m, strat) <==> Harmless(cs[0], m, strat) && AllHarmless(cs[1..], m, strat)
  {
    forall c | c in cs ensures c == cs[0] || c in cs[1..] {
      var i :| 0 <= i < |cs| && cs[i] == c;
      assert i > 0 ==> cs[1..][i - 1] == c;
    }
  }

  /** Every conflict the base section matters to makes the result longer. */
  lemma {:induction false} KeptExactly(cs: seq<Chunk>, m: Marking, strat: Strategy)
    requires CleanChunks(cs)
    ensures AllHarmless(cs, m, strat) ==> Kept(cs, m, strat, true) == Kept(cs, m, strat, false)
    ensures AllHarmless(cs, m, strat) ==> KeptTally(cs, m, strat, true) == KeptTally(cs, m, strat, false)
    ensures |Kept(cs, m, strat, true)| >= |Kept(cs, m, strat, false)|
    ensures !AllHarmless(cs, m, strat) ==> |Kept(cs, m, strat, true)| > |Kept(cs, m, strat, false)|
    decreases |cs|
  {
    if cs != [] {
      CleanTail(cs);
      KeptOfExactly(cs[0], m, strat);
      KeptExactly(cs[1..], m, strat);
      HarmlessFirst(cs, m, strat);
    }
  }

  /** Resolved as they were, the sides give the reading of that side, and only auto leaves conflicts. */
  lemma {:induction false} KeptAsItWas(cs: seq<Chunk>, m: Marking)
    ensures Kept(cs, m, Ours, false) == ChooseOurs(cs) && Kept(cs, m, Theirs, false) == ChooseTheirs(cs)
    decreases |cs|
  {
    if cs != [] {
      if cs[0].Conflict? { HoistingKeepsBothSides(cs[0], m.style); }
      KeptAsItWas(cs[1..], m);
    }
  }

  lemma {:induction false} ResolvedCounts(cs: seq<Chunk>, m: Marking, strat: Strategy)
    ensures KeptTally(cs, m, strat, true).total == ConflictCount(cs)
    ensures strat != Auto ==> HardCount(cs, m.style, strat) == 0
    decreases |cs|
  {
    if cs != [] { ResolvedCounts(cs[1..], m, strat); }
  }

  /** The base section does not come in: it is not written, not taken, or no conflict is one to settle. */
  ghost predicate BaseStaysOut(cs: seq<Chunk>, m: Marking, strat: Strategy) {
    m.style == Merge || strat == Theirs
    || forall c | c in cs && c.Conflict? :: strat == Auto && !EasyToSettle(c, m.style)
  }

  /** What should become of the chunks. */
  ghost function Right(cs: seq<Chunk>, m: Marking, strat: Strategy): Outcome {
    var n, hard := ConflictCount(cs), HardCount(cs, m.style, strat);
    Done(WantedLines(cs, m, strat), Tally(n, if hard <= n then n - hard else 0, hard))
  }

  lemma RightForSides(cs: seq<Chunk>, m: Marking)
    ensures var n := ConflictCount(cs);
            && Right(cs, m, Ours) == Done(ChooseOurs(cs), Tally(n, n, 0))
            && Right(cs, m, Theirs) == Done(ChooseTheirs(cs), Tally(n, n, 0))
  {
    KeptAsItWas(cs, m);
    KeptIsWanted(cs, m, Ours);
    KeptIsWanted(cs, m, Theirs);
    ResolvedCounts(cs, m, Ours);
    ResolvedCounts(cs, m, Theirs);
  }

  lemma ResolvesChunks(cs: seq<Chunk>, m: Marking, strat: Strategy, lines: seq<Line>, right: Outcome)
    requires CleanChunks(cs) && lines == AllLines(cs, m) && right == Right(cs, m, strat)
    ensures CountBegins(lines) == ConflictCount(cs) && HardCount(cs, m.style, strat) <= ConflictCount(cs)
    ensures ResolveFrom(lines, strat).Done? && (ResolveFrom(lines, strat) == right <==> BaseStaysOut(cs, m, strat))
  {
    var kept, stats := Kept(cs, m, strat, true), KeptTally(cs, m, strat, true);
    ChunksResolved(cs, m, strat, lines, kept, stats);
    KeptExactly(cs, m, strat);
    KeptIsWanted(cs, m, strat);
    ResolvedCounts(cs, m, strat);
    TotalIsCount(lines, strat);
  }

  /**
   On what a merge of clean texts wrote, every strategy meets every conflict; and what it makes of
   them is what it should make of the two sides exactly when the style writes no base section, the
   strategy is theirs, nothing is in conflict, or the strategy is auto and no conflict is one it
   should settle.
   */
  lemma ResolvesWhatWasMerged(base: string, ours: string, theirs: string, m: Marking, strat: Strategy)
    requires CleanText(base) && CleanText(ours) && CleanText(theirs) && CleanLabels(m)
    ensures var cs := MergeChunks(Lines(base), Lines(ours), Lines(theirs));
            var lines, n := Lines(WriteChunks("", cs, m)), ConflictCount(cs);
            && CountBegins(lines) == n && HardCount(cs, m.style, strat) <= n && ResolveFrom(lines, strat).Done?
            && (ResolveFrom(lines, strat) == Right(cs, m, strat) <==> BaseStaysOut(cs, m, strat))
            && (strat == Ours ==> Right(cs, m, strat) == Done(ChooseOurs(cs), Tally(n, n, 0)))
            && (strat == Theirs ==> Right(cs, m, strat) == Done(ChooseTheirs(cs), Tally(n, n, 0)))
  {
    var cs := MergeChunks(Lines(base), Lines(ours), Lines(theirs));
    MergedLines(base, ours, theirs, m);
    ResolvesChunks(cs, m, strat, AllLines(cs, m), Right(cs, m, strat));
    RightForSides(cs, m);
  }
}
