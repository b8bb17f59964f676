/** The snippets of a file around its matches: windows, sorted and merged in place. */
module Snippets {
  import opened Numbers
  import opened Sequences
  import opened TextLines

  datatype Mode = Optimized | Full | Exhaustive

  datatype Range = Range(start: int, end: int)

  datatype Snippet = Snippet(startLine: int, endLine: int, text: string)

  function Radius(mode: Mode): nat {
    match mode
    case Exhaustive => 4
    case Full => 2
    case Optimized => 1
  }

  /** The lines around a match, cut to the file. */
  function Window(line: int, count: nat, mode: Mode): Range {
    Range(Max(1, line - Radius(mode)), Min(count, line + Radius(mode)))
  }

  /** One range per match; without matches, the beginning of the file. */
  function Windows(matches: seq<int>, count: nat, mode: Mode): (r: seq<Range>)
    ensures r != []
  {
    if matches == [] then [Range(1, Min(count, if mode.Exhaustive? then 40 else 12))]
    else seq(|matches|, i requires 0 <= i < |matches| => Window(matches[i], count, mode))
  }

  predicate Holds(r: Range, line: int) {
    r.start <= line <= r.end
  }

  ghost predicate Covers(ranges: seq<Range>, line: int) {
    exists i :: 0 <= i < |ranges| && Holds(ranges[i], line)
  }

  predicate StartsNoLater(a: Range, b: Range) {
    a.start <= b.start
  }

  function SortByStart(ranges: seq<Range>): (r: seq<Range>)
    ensures multiset(r) == multiset(ranges)
  {
    SortBy(StartsNoLater, ranges)
  }

  ghost predicate Sorted(ranges: seq<Range>) {
    forall i, j :: 0 <= i < j < |ranges| ==> ranges[i].start <= ranges[j].start
  }

  lemma SortSorts(ranges: seq<Range>)
    ensures Sorted(SortByStart(ranges))
  {
    SortBySorts(StartsNoLater, ranges);
  }

  lemma SortCovers(ranges: seq<Range>, line: int)
    ensures Covers(SortByStart(ranges), line) <==> Covers(ranges, line)
  {
    var sorted := SortByStart(ranges);
    if i :| 0 <= i < |sorted| && Holds(sorted[i], line) {
      assert sorted[i] in multiset(ranges);
      assert sorted[i] in ranges;
    }
    if i :| 0 <= i < |ranges| && Holds(ranges[i], line) {
      assert ranges[i] in multiset(sorted);
      assert ranges[i] in sorted;
    }
  }

  /** Ranges that follow each other with at least one line between them. */
  ghost predicate Apart(ranges: seq<Range>) {
    forall i, j :: 0 <= i < j < |ranges| ==> ranges[i].end + 1 < ranges[j].start
  }

  ghost predicate Within(ranges: seq<Range>, count: nat) {
    forall i :: 0 <= i < |ranges| ==> 1 <= ranges[i].start <= ranges[i].end <= count
  }

  lemma CoversAppend(ranges: seq<Range>, r: Range, line: int)
    ensures Covers(ranges + [r], line) <==> Covers(ranges, line) || Holds(r, line)
  {
    var longer := ranges + [r];
    assert longer[|ranges|] == r;
    if i :| 0 <= i < |ranges| && Holds(ranges[i], line) {
      assert Holds(longer[i], line);
    }
    if i :| 0 <= i < |longer| && Holds(longer[i], line) {
      assert i < |ranges| ==> longer[i] == ranges[i];
    }
  }

  /**
   The merge of sorted ranges covers the same lines, whatever the ranges; and ranges that lie in the file merge into
   ranges that lie in the file, in order, with at least one line left out between any two.
   */
  method Merge(ranges: seq<Range>) returns (merged: seq<Range>)
    requires Sorted(ranges)
    ensures forall line :: Covers(merged, line) <==> Covers(ranges, line)
    ensures forall count :: Within(ranges, count) ==> Within(merged, count) && Apart(merged)
  {
    merged := [];
    for i := 0 to |ranges|
      invariant forall line :: Covers(merged, line) <==> Covers(ranges[..i], line)
      invariant forall count :: Within(ranges, count) ==> Within(merged, count) && Apart(merged)
      invariant merged != [] ==> i > 0 && Last(merged).start <= ranges[i - 1].start
    {
      var range := ranges[i];
      ghost var before := merged;
      assert ranges[..i + 1] == ranges[..i] + [range];
      if |merged| > 0 && range.start <= merged[|merged| - 1].end + 1 {
        var previous := merged[|merged| - 1];
        var longer := Range(previous.start, Max(previous.end, range.end));
        merged := merged[|merged| - 1 := longer];
        MergeLast(before, range, longer);
        assert merged == Init(before) + [longer];
      } else {
        merged := merged + [range];
      }
      forall line
        ensures Covers(merged, line) <==> Covers(ranges[..i + 1], line)
      {
        CoversAppend(ranges[..i], range, line);
        if |before| == 0 || range.start > Last(before).end + 1 {
          CoversAppend(before, range, line);
        }
      }
    }
    assert ranges[..|ranges|] == ranges;
  }

  /** Extending the last range over one that starts no later than right after it. */
  lemma MergeLast(merged: seq<Range>, r: Range, longer: Range)
    requires merged != [] && Last(merged).start <= r.start <= Last(merged).end + 1
    requires longer == Range(Last(merged).start, Max(Last(merged).end, r.end))
    ensures forall line :: Covers(Init(merged) + [longer], line) <==> Covers(merged, line) || Holds(r, line)
  {
    forall line
      ensures Covers(Init(merged) + [longer], line) <==> Covers(merged, line) || Holds(r, line)
    {
      CoversAppend(Init(merged), longer, line);
      CoversAppend(Init(merged), Last(merged), line);
      assert merged == Init(merged) + [Last(merged)];
    }
  }

  /** The window of a match meets the file. */
  predicate Meets(line: int, count: nat, mode: Mode) {
    line - Radius(mode) <= count && line + Radius(mode) >= 1
  }

  lemma WindowsWithin(matches: seq<int>, count: nat, mode: Mode)
    requires count >= 1 && forall i :: 0 <= i < |matches| ==> Meets(matches[i], count, mode)
    ensures Within(Windows(matches, count, mode), count)
  {
  }

  /** One line around a match in every mode, two in full and exhaustive mode, four in exhaustive mode. */
  ghost predicate Near(m: int, line: int, mode: Mode) {
    || -1 <= line - m <= 1
    || (mode != Optimized && -2 <= line - m <= 2)
    || (mode == Exhaustive && -4 <= line - m <= 4)
  }

  /** The lines to show: those near a match, or the beginning of the file when there is none. */
  ghost predicate Wanted(matches: seq<int>, count: nat, mode: Mode, line: int) {
    1 <= line <= count &&
    if matches == [] then line <= (if mode.Exhaustive? then 40 else 12)
    else exists m :: m in matches && Near(m, line, mode)
  }

  lemma WindowsCover(matches: seq<int>, count: nat, mode: Mode, line: int)
    ensures Covers(Windows(matches, count, mode), line) <==> Wanted(matches, count, mode, line)
  {
    var windows := Windows(matches, count, mode);
    if matches == [] {
      assert Covers(windows, line) <==> Holds(windows[0], line);
    } else {
      if i :| 0 <= i < |windows| && Holds(windows[i], line) {
        assert matches[i] in matches && Near(matches[i], line, mode);
      }
      if Wanted(matches, count, mode, line) {
        var m :| m in matches && Near(m, line, mode);
        var i :| 0 <= i < |matches| && matches[i] == m;
        assert Holds(windows[i], line);
      }
    }
  }

  predicate AllMeet(matches: seq<int>, count: nat, mode: Mode) {
    forall i :: 0 <= i < |matches| ==> Meets(matches[i], count, mode)
  }

  lemma SortWithin(ranges: seq<Range>, count: nat)
    requires Within(ranges, count)
    ensures Within(SortByStart(ranges), count)
  {
    var sorted := SortByStart(ranges);
    forall i | 0 <= i < |sorted|
      ensures 1 <= sorted[i].start <= sorted[i].end <= count
    {
      assert sorted[i] in multiset(ranges);
      assert sorted[i] in ranges;
    }
  }

  /** The merged windows: exactly the lines to show; in order, without overlap, and never two where one would do. */
  method MergedWindows(matches: seq<int>, count: nat, mode: Mode) returns (merged: seq<Range>)
    requires count >= 1
    ensures forall line :: Covers(merged, line) <==> Wanted(matches, count, mode, line)
    ensures AllMeet(matches, count, mode) ==> Within(merged, count) && Apart(merged)
  {
    hide Covers, Wanted, Within, Apart, Sorted;
    var windows := Windows(matches, count, mode);
    var sorted := SortByStart(windows);
    SortSorts(windows);
    merged := Merge(sorted);
    forall line
      ensures Covers(merged, line) <==> Wanted(matches, count, mode, line)
    {
      SortCovers(windows, line);
      WindowsCover(matches, count, mode, line);
    }
    if AllMeet(matches, count, mode) {
      WindowsWithin(matches, count, mode);
      SortWithin(windows, count);
    }
  }

  function RangeOf(s: Snippet): Range {
    Range(s.startLine, s.endLine)
  }

  function RangesOf(snippets: seq<Snippet>): (r: seq<Range>)
    ensures |r| == |snippets|
    ensures forall i :: 0 <= i < |r| ==> r[i] == RangeOf(snippets[i])
  {
    seq(|snippets|, i requires 0 <= i < |snippets| => RangeOf(snippets[i]))
  }

  /** The lines of the file from start to end; an end before the first line counts back from the last. */
  function Slice(lines: seq<string>, start: int, end: int): seq<string> {
    var from := Max(0, Min(start - 1, |lines|));
    var to := if end < 0 then Max(0, |lines| + end) else Min(end, |lines|);
    if from < to then lines[from..to] else []
  }

  /**
   The snippets show exactly the lines of the file within the radius of a match, or the beginning of the file when
   there is none; for matches in the file they lie in it, in order, with at least one line left out between two.
   */
  method CreateSnippets(content: string, matches: seq<int>, mode: Mode) returns (snippets: seq<Snippet>)
    ensures forall line :: Covers(RangesOf(snippets), line) <==> Wanted(matches, |SplitLines(content)|, mode, line)
    ensures AllMeet(matches, |SplitLines(content)|, mode) ==>
              Within(RangesOf(snippets), |SplitLines(content)|) && Apart(RangesOf(snippets))
    ensures forall i :: 0 <= i < |snippets| ==> ShowsItsLines(snippets[i], SplitLines(content))
  {
    hide Covers, Wanted, Within, Apart, AllMeet, ShowsItsLines;
    var lines := SplitLines(content);
    var merged := MergedWindows(matches, |lines|, mode);
    snippets := [];
    for i := 0 to |merged|
      invariant RangesOf(snippets) == merged[..i]
      invariant forall k :: 0 <= k < |snippets| ==> ShowsItsLines(snippets[k], lines)
    {
      var r := merged[i];
      snippets := snippets + [Snippet(r.start, r.end, Join(Slice(lines, r.start, r.end)))];
      SliceShows(lines, r);
      assert merged[..i + 1] == merged[..i] + [r];
    }
    assert merged[..|merged|] == merged;
  }

  /** A snippet that lies in the file shows its lines, joined by line feeds. */
  predicate ShowsItsLines(s: Snippet, lines: seq<string>) {
    1 <= s.startLine <= s.endLine <= |lines| ==> s.text == Join(lines[s.startLine - 1..s.endLine])
  }

  lemma SliceShows(lines: seq<string>, r: Range)
    ensures ShowsItsLines(Snippet(r.start, r.end, Join(Slice(lines, r.start, r.end))), lines)
  {
    hide Join;
  }
}
