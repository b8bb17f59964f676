/** Paging a text file: every page is cut from what the reader returns, with one line more than asked for. */
module FilePages {
  import opened Numbers
  import opened Wrappers
  import opened TextLines
  import opened TextFileReader
  import opened Utf8

  const DEFAULT_PAGE_SIZE: nat := 200
  const MAX_PAGE_SIZE: nat := 5000
  const MAX_RESPONSE_TARGET_BYTES: nat := 8 * 1024 * 1024

  datatype PageBody = PageBody(startLine: int, endLine: int, content: string, hasMore: bool)

  function CountLines(content: string): nat {
    if content == "" then 0 else |SplitLines(content)|
  }

  function TakeLines(content: string, count: nat): string {
    var lines := SplitLines(content);
    Join(lines[..Min(count, |lines|)])
  }

  /** Gluing lines as the byte-targeted cut does: an empty start is not separated from what follows. */
  function Glue(lines: seq<string>): string {
    if lines == [] then ""
    else
      var selected := Glue(Init(lines));
      if selected == "" then Last(lines) else selected + "\n" + Last(lines)
  }

  predicate LinesFit(lines: seq<string>, k: nat, target: nat)
    requires k <= |lines|
  {
    Utf8Length(Glue(lines[..k])) <= target
  }

  /** The most lines, at least one, that glue to no more than the target. */
  function BestCount(lines: seq<string>, target: nat, k: nat): (r: nat)
    requires 1 <= k <= |lines|
    requires k == 1 || LinesFit(lines, k, target)
    ensures k <= r <= |lines|
    ensures r == 1 || LinesFit(lines, r, target)
    ensures r < |lines| ==> !LinesFit(lines, r + 1, target)
    decreases |lines| - k
  {
    if k == |lines| || !LinesFit(lines, k + 1, target) then k else BestCount(lines, target, k + 1)
  }

  lemma GlueOneMore(lines: seq<string>, k: nat)
    requires k < |lines|
    ensures Glue(lines[..k + 1]) ==
            if Glue(lines[..k]) == "" then lines[k] else Glue(lines[..k]) + "\n" + lines[k]
    ensures Glue(lines[..k]) != "" ==> Utf8Length(Glue(lines[..k + 1])) > Utf8Length(Glue(lines[..k]))
  {
    assert Init(lines[..k + 1]) == lines[..k];
    var selected := Glue(lines[..k]);
    if selected != "" {
      Utf8Concat(selected + "\n", lines[k]);
      Utf8Concat(selected, "\n");
    }
  }

  method TakeLinesToBytes(content: string, target: nat) returns (selected: string, lineCount: nat)
    requires target >= 1
    ensures var lines := SplitLines(content);
            lineCount == BestCount(lines, target, 1) && selected == Glue(lines[..lineCount])
  {
    var lines := SplitLines(content);
    selected, lineCount := "", 0;
    for i := 0 to |lines|
      invariant lineCount == i && selected == Glue(lines[..i])
      invariant i > 0 ==>
          (i == 1 || Utf8Length(selected) <= target) && BestCount(lines, target, i) == BestCount(lines, target, 1)
    {
      var next := if |selected| == 0 then lines[i] else selected + "\n" + lines[i];
      GlueOneMore(lines, i);
      if lineCount > 0 && Utf8Length(next) > target {
        break;
      }
      selected := next;
      lineCount := lineCount + 1;
      if Utf8Length(selected) >= target {
        if i + 1 < |lines| {
          GlueOneMore(lines, i + 1);
        }
        break;
      }
    }
    assert lines[..|lines|] == lines;
  }

  /** A page without a byte target. */
  function WholeLinesPage(served: FileText, start: int, size: nat): PageBody {
    var first := served.content;
    var content := if CountLines(first) > size then TakeLines(first, size) else first;
    var count := CountLines(content);
    var end := if count == 0 then start else start + count - 1;
    PageBody(start, end, content, served.endLine > end)
  }

  function PageOf(served: FileText, start: int, size: nat, target: Option<nat>): PageBody {
    var page := WholeLinesPage(served, start, size);
    if target.None? || Utf8Length(page.content) <= target.value then page
    else
      var lines := SplitLines(page.content);
      var count := BestCount(lines, target.value, 1);
      var end := start + count - 1;
      PageBody(start, end, Glue(lines[..count]), served.endLine > end)
  }

  /** A line the file has; an empty file has one. */
  predicate LineOf(file: File, start: int) {
    file.Stored? && 1 <= start && (start == 1 || start <= |RawLines(file.text)|)
  }

  function ReadFor(file: File, start: int, size: nat): (served: FileText)
    requires IsText(file) && LineOf(file, start) && size >= 1
    ensures Read(file, LineRange(Some(start), Some(start + size))) == Ok(served)
  {
    Read(file, LineRange(Some(start), Some(start + size))).value
  }

  /**
   The page of a text: its lines joined by line feeds or, when they reach the last line, the rest of the text
   untouched.
   */
  function LinesPage(text: string, start: int, size: nat): PageBody
    requires 1 <= start && size >= 1 && (start == 1 || start <= |RawLines(text)|)
  {
    var lines, raw := SplitLines(text), RawLines(text);
    if start + size <= |lines| then
      PageBody(start, start + size - 1, Join(lines[start - 1..start - 1 + size]), start + size <= |raw|)
    else
      PageBody(start, |lines|, Concat(raw[start - 1..]), false)
  }

  /** The page is a stretch of the file's lines, and says truly whether lines are left. */
  ghost predicate Tiles(text: string, start: int, page: PageBody) {
    var lines := SplitLines(text);
    && page.startLine == start
    && 1 <= start <= page.endLine <= |lines|
    && (page.hasMore ==> page.endLine < |RawLines(text)|)
    && (!page.hasMore ==> page.endLine == |lines| || (page.endLine + 1 == |lines| && Last(lines) == ""))
  }

  lemma TextIsRaw(text: string)
    ensures RawShape(RawLines(text))
    ensures SplitLines(text) == StripAll(RawLines(text)) + AfterLast(RawLines(text))
  {
    RawLinesShape(text);
    LinesOfPieces(RawLines(text));
    ConcatRaw(text);
  }

  lemma RawShapeSlice(raw: seq<string>, a: nat, b: nat)
    requires RawShape(raw) && a <= b <= |raw|
    ensures RawShape(raw[a..b])
  {
    hide EndsWithLF, Init;
    var slice := raw[a..b];
    assert forall i :: 0 <= i < |slice| ==> slice[i] == raw[a + i];
  }

  lemma StripAllSlice(raw: seq<string>, a: nat, b: nat)
    requires a <= b <= |raw|
    ensures StripAll(raw[a..b]) == StripAll(raw)[a..b]
  {
    hide Strip;
  }

  lemma LinesOfSlice(text: string, a: nat, b: nat)
    requires a <= b <= |RawLines(text)|
    ensures SplitLines(Concat(RawLines(text)[a..b])) == StripAll(RawLines(text))[a..b] + AfterLast(RawLines(text)[a..b])
  {
    var raw := RawLines(text);
    RawLinesShape(text);
    RawShapeSlice(raw, a, b);
    LinesOfPieces(raw[a..b]);
    StripAllSlice(raw, a, b);
  }

  /** The lines of a stretch of raw lines are that stretch of the lines. */
  lemma SliceLines(text: string, a: nat, b: nat)
    requires a <= b <= |RawLines(text)|
    ensures var own := SplitLines(Concat(RawLines(text)[a..b]));
            && |own| >= b - a
            && |RawLines(text)| <= |SplitLines(text)|
            && own[..b - a] == SplitLines(text)[a..b]
            && (b == |RawLines(text)| && (a < b || b == 0) ==> own == SplitLines(text)[a..])
  {
    hide *;
    var raw := RawLines(text);
    TextIsRaw(text);
    LinesOfSlice(text, a, b);
    SliceOfSum(StripAll(raw), AfterLast(raw), a, b);
    if b == |raw| && (a < b || b == 0) {
      AfterSameLast(raw, a);
    }
    TakeOfSum(StripAll(raw)[a..b], AfterLast(raw[a..b]));
  }

  lemma AfterSameLast(raw: seq<string>, a: nat)
    requires a < |raw| || (raw == [] && a == 0)
    ensures AfterLast(raw[a..|raw|]) == AfterLast(raw)
  {
    hide EndsWithLF;
    if raw != [] {
      assert Last(raw[a..|raw|]) == Last(raw);
    }
  }

  lemma SliceOfSum<T>(s: seq<T>, t: seq<T>, a: nat, b: nat)
    requires a <= b <= |s|
    ensures (s + t)[a..b] == s[a..b]
    ensures b == |s| ==> (s + t)[a..] == s[a..b] + t
  {
  }

  lemma TakeOfSum<T>(s: seq<T>, t: seq<T>)
    ensures (s + t)[..|s|] == s
  {
  }

  lemma {:induction false} JoinedLength(lines: seq<string>)
    requires lines != []
    ensures |Join(lines)| >= |lines| - 1
  {
    if |lines| > 1 {
      JoinedLength(lines[1..]);
    }
  }

  /** Lines glued by line feeds are counted right, unless they are one empty line. */
  lemma JoinCount(lines: seq<string>)
    requires lines != [] && Free('\n', lines)
    ensures |SplitLines(Join(lines))| == |lines|
    ensures CountLines(Join(lines)) == if lines == [""] then 0 else |lines|
  {
    JoinedLength(lines);
    SplitJoin('\n', lines);
    AsManyLines(Join(lines));
    assert |lines| == 1 ==> lines == [lines[0]];
  }

  lemma FreeSlice(lines: seq<string>, a: nat, b: nat)
    requires Free('\n', lines) && a <= b <= |lines|
    ensures Free('\n', lines[a..b])
  {
  }

  lemma NonEmptyConcat(pieces: seq<string>)
    requires pieces != [] && pieces[0] != ""
    ensures Concat(pieces) != ""
  {
  }

  lemma SliceOfSlice<T>(own: seq<T>, lines: seq<T>, from: nat, n: nat, m: nat)
    requires m <= n <= |own| && from + n <= |lines| && own[..n] == lines[from..from + n]
    ensures own[..m] == lines[from..from + m]
  {
    assert own[..m] == own[..n][..m];
    assert lines[from..from + m] == lines[from..from + n][..m];
  }

  /** More lines were read than the page holds: the first ones are shown, joined by line feeds. */
  lemma CutPage(served: FileText, start: int, size: nat)
    requires size >= 1 && CountLines(served.content) > size
    ensures var shown := SplitLines(served.content)[..size];
            && WholeLinesPage(served, start, size) ==
              PageBody(start, start + size - 1, Join(shown), served.endLine > start + size - 1)
            && |SplitLines(Join(shown))| == size
  {
    var own := SplitLines(served.content);
    SplitLinesHaveNoLF(served.content);
    FreeSlice(own, 0, size);
    JoinCount(own[..size]);
  }

  /** No more lines were read than the page holds: they are shown as they were read. */
  lemma UncutPage(served: FileText, start: int, size: nat)
    requires size >= 1 && CountLines(served.content) <= size
    ensures WholeLinesPage(served, start, size) ==
            var end := start + |SplitLines(served.content)| - 1;
            PageBody(start, end, served.content, served.endLine > end)
  {
  }

  lemma WhatIsRead(file: File, start: int, size: nat)
    requires IsText(file) && LineOf(file, start) && size >= 1
    ensures var raw := RawLines(file.text);
            var stop := Min(start + size, |raw|);
            && start - 1 <= stop
            && ReadFor(file, start, size) == FileText(Concat(raw[start - 1..stop]), start, stop)
            && (raw != [] ==> start - 1 < stop && Concat(raw[start - 1..stop]) != "")
  {
    var raw := RawLines(file.text);
    var stop := Min(start + size, |raw|);
    if raw != [] {
      NonEmptyConcat(raw[start - 1..stop]);
    }
  }

  lemma TakeOfDrop<T>(s: seq<T>, from: nat, n: nat)
    requires from + n <= |s|
    ensures s[from..][..n] == s[from..from + n]
  {
  }

  /** What the reader returns for a page: one raw line more than the page holds, if the file has it. */
  lemma ServedLines(file: File, start: int, size: nat)
    requires IsText(file) && LineOf(file, start) && size >= 1
    ensures var served := ReadFor(file, start, size);
            var lines := SplitLines(file.text);
            var n := |RawLines(file.text)|;
            && served.endLine == Min(start + size, n)
            && n <= |lines| <= n + 1
            && (n == 0 ==> |lines| == 1 && served.content == "")
            && (start + size <= n ==>
                  CountLines(served.content) > size
                    && SplitLines(served.content)[..size] == lines[start - 1..start - 1 + size])
            && (start + size > n ==>
                  served.content == Concat(RawLines(file.text)[start - 1..])
                    && SplitLines(served.content) == lines[start - 1..])
            && (served.content == "" <==> n == 0)
  {
    hide SplitLines, RawLines, Concat, AfterLast, StripAll, Read, ReadFor, IsText;
    var raw := RawLines(file.text);
    var lines := SplitLines(file.text);
    var stop := Min(start + size, |raw|);
    LastOfLines(file.text);
    WhatIsRead(file, start, size);
    SliceLines(file.text, start - 1, stop);
    var own := SplitLines(Concat(raw[start - 1..stop]));
    if start + size <= |raw| {
      SliceOfSlice(own, lines, start - 1, stop - start + 1, size);
    } else {
      assert raw[start - 1..stop] == raw[start - 1..];
      if raw == [] {
        NoText(file.text);
      }
    }
  }

  lemma NoText(text: string)
    requires RawLines(text) == []
    ensures SplitLines(text) == [""] && Concat(RawLines(text)) == ""
  {
  }

  /** Without a byte target: the page that is served is the page of the text. */
  lemma WholeLinesPageShows(file: File, start: int, size: nat)
    requires IsText(file) && LineOf(file, start) && size >= 1
    ensures var page := WholeLinesPage(ReadFor(file, start, size), start, size);
            && page == LinesPage(file.text, start, size)
            && Tiles(file.text, start, page)
            && page.endLine < start + size
            && |SplitLines(page.content)| == page.endLine - start + 1
  {
    hide *;
    LineOfText(file, start);
    LinesPageTiles(file.text, start, size);
    if CountLines(ReadFor(file, start, size).content) > size {
      CutPageIs(file, start, size);
    } else {
      UncutPageIs(file, start, size);
    }
  }

  lemma LineOfText(file: File, start: int)
    requires LineOf(file, start)
    ensures file.Stored? && 1 <= start && (start == 1 || start <= |RawLines(file.text)|)
  {
  }

  lemma LinesPageTiles(text: string, start: int, size: nat)
    requires 1 <= start && size >= 1 && (start == 1 || start <= |RawLines(text)|)
    ensures Tiles(text, start, LinesPage(text, start, size)) && LinesPage(text, start, size).endLine < start + size
  {
    hide SplitLines, RawLines, Concat, Join;
    LastOfLines(text);
  }

  lemma CutPageIs(file: File, start: int, size: nat)
    requires IsText(file) && LineOf(file, start) && size >= 1 && CountLines(ReadFor(file, start, size).content) > size
    ensures var page := WholeLinesPage(ReadFor(file, start, size), start, size);
            page == LinesPage(file.text, start, size) && |SplitLines(page.content)| == page.endLine - start + 1
  {
    hide SplitLines, RawLines, Concat, Join, Read, ReadFor, WholeLinesPage, IsText;
    var served := ReadFor(file, start, size);
    ServedLines(file, start, size);
    CutPage(served, start, size);
    CutPageShows(file, start, size, served);
    hide CountLines;
  }

  lemma UncutPageIs(file: File, start: int, size: nat)
    requires IsText(file) && LineOf(file, start) && size >= 1 && CountLines(ReadFor(file, start, size).content) <= size
    ensures var page := WholeLinesPage(ReadFor(file, start, size), start, size);
            page == LinesPage(file.text, start, size) && |SplitLines(page.content)| == page.endLine - start + 1
  {
    hide SplitLines, RawLines, Concat, Join, Read, ReadFor, WholeLinesPage, IsText;
    var served := ReadFor(file, start, size);
    UncutPage(served, start, size);
    ServedLines(file, start, size);
    LastOfLines(file.text);
  }

  lemma CutPageShows(file: File, start: int, size: nat, served: FileText)
    requires IsText(file) && LineOf(file, start) && size >= 1 && served == ReadFor(file, start, size)
    requires CountLines(served.content) > size
    ensures start + size - 1 <= |SplitLines(file.text)|
    ensures SplitLines(served.content)[..size] == SplitLines(file.text)[start - 1..start + size - 1]
    ensures start + size > |RawLines(file.text)| ==> start + size == |SplitLines(file.text)|
  {
    hide SplitLines, RawLines, Concat, AfterLast, StripAll, Read, ReadFor, IsText;
    ServedLines(file, start, size);
    LastOfLines(file.text);
    if start + size > |RawLines(file.text)| {
      TakeOfDrop(SplitLines(file.text), start - 1, size);
    }
  }

  lemma LastOfLines(text: string)
    ensures |RawLines(text)| <= |SplitLines(text)| <= |RawLines(text)| + 1
    ensures |SplitLines(text)| == |RawLines(text)| + 1 ==> Last(SplitLines(text)) == ""
  {
    TextIsRaw(text);
  }

  /** The byte-targeted cut keeps its lines exactly when it keeps one line, or its first line is not empty. */
  lemma {:induction false} GlueFaithfulIff(lines: seq<string>)
    requires lines != []
    ensures Glue(lines) == Join(lines) <==> |lines| == 1 || lines[0] != ""
    ensures Glue(lines) != Join(lines) ==> |Glue(lines)| < |Join(lines)|
  {
    if |lines| > 1 {
      var front := Init(lines);
      GlueFaithfulIff(front);
      JoinInit(lines);
      JoinedLength(front);
      hide Join;
      var selected, last := Glue(front), Last(lines);
      assert |selected + "\n" + last| == |selected| + 1 + |last|;
      assert |Join(front) + "\n" + last| == |Join(front)| + 1 + |last|;
    }
  }

  lemma JoinInit(lines: seq<string>)
    requires |lines| > 1
    ensures Join(lines) == Join(Init(lines)) + "\n" + Last(lines)
  {
    JoinConcat('\n', Init(lines), [Last(lines)]);
    assert lines == Init(lines) + [Last(lines)];
  }

  /**
   With or without a byte target, a page is a stretch of the file's lines; it fits the target, or is a single line.
   */
  lemma PageTiles(file: File, start: int, size: nat, target: Option<nat>)
    requires IsText(file) && LineOf(file, start) && size >= 1
    ensures var page := PageOf(ReadFor(file, start, size), start, size, target);
            && Tiles(file.text, start, page)
            && page.endLine < start + size
            && (target.Some? ==> Utf8Length(page.content) <= target.value || page.endLine == start)
  {
    var served := ReadFor(file, start, size);
    WholeLinesPageShows(file, start, size);
    ServedLines(file, start, size);
    LastOfLines(file.text);
    hide SplitLines, RawLines, Concat, Join, Read, ReadFor, WholeLinesPage, IsText, Glue;
  }

  /** One line alone fits exactly when the first two do not. */
  lemma OneLineIff(lines: seq<string>, target: nat)
    requires |lines| > 1
    ensures BestCount(lines, target, 1) == 1 <==> Utf8Length(Glue(lines[..2])) > target
  {
  }

  lemma GluedAfterNothing(lines: seq<string>)
    requires |lines| > 1 && lines[0] == ""
    ensures Glue(lines[..2]) == lines[1]
  {
    GlueOneMore(lines, 0);
    GlueOneMore(lines, 1);
  }

  /**
   A page over its byte target shows the lines of the whole page, up to its end, exactly when its first line is
   not empty, or its second line alone exceeds the target.
   */
  lemma TargetedPageShowsIff(served: FileText, start: int, size: nat, target: nat)
    requires Utf8Length(WholeLinesPage(served, start, size).content) > target
    ensures var lines := SplitLines(WholeLinesPage(served, start, size).content);
            var page := PageOf(served, start, size, Some(target));
            && (lines[0] == "" ==> |lines| > 1)
            && page.startLine == start
            && page.endLine == start - 1 + BestCount(lines, target, 1)
            && page.content == Glue(lines[..page.endLine - start + 1])
            && (page.content == Join(lines[..page.endLine - start + 1]) <==>
                lines[0] != "" || Utf8Length(lines[1]) > target)
            && (page.endLine < start + |lines| - 1 ==> Utf8Length(Glue(lines[..page.endLine - start + 2])) > target)
  {
    hide *;
    var content := WholeLinesPage(served, start, size).content;
    OneLine(content);
    PageOverTarget(served, start, size, target);
    KeptIff(SplitLines(content), target, content);
  }

  lemma PageOverTarget(served: FileText, start: int, size: nat, target: nat)
    requires Utf8Length(WholeLinesPage(served, start, size).content) > target
    ensures var lines := SplitLines(WholeLinesPage(served, start, size).content);
            var count := BestCount(lines, target, 1);
            PageOf(served, start, size, Some(target)) ==
            PageBody(start, start + count - 1, Glue(lines[..count]), served.endLine > start + count - 1)
  {
    hide WholeLinesPage, Utf8Length, SplitLines, Glue;
  }

  lemma KeptIff(lines: seq<string>, target: nat, content: string)
    requires lines != [] && Utf8Length(content) > target && (|lines| == 1 ==> lines == [content])
    ensures lines[0] == "" ==> |lines| > 1
    ensures var count := BestCount(lines, target, 1);
            && (Glue(lines[..count]) == Join(lines[..count]) <==> lines[0] != "" || Utf8Length(lines[1]) > target)
            && (count < |lines| ==> Utf8Length(Glue(lines[..count + 1])) > target)
  {
    var count := BestCount(lines, target, 1);
    var kept := lines[..count];
    assert kept[0] == lines[0];
    hide Glue, Join, BestCount;
    GlueFaithfulIff(kept);
    if |lines| > 1 {
      OneLineIff(lines, target);
      if lines[0] == "" {
        GluedAfterNothing(lines);
      }
    }
  }

  predicate Positive(sizes: seq<nat>) {
    forall i :: 0 <= i < |sizes| ==> sizes[i] >= 1
  }

  /**
   Following the continuations of one file, with one page size per request, as long as there is more and a size left.
   */
  function Pages(file: File, start: int, sizes: seq<nat>, target: Option<nat>): (pages: seq<PageBody>)
    requires IsText(file) && LineOf(file, start) && sizes != [] && Positive(sizes)
    ensures 1 <= |pages| <= |sizes|
    decreases |sizes|
  {
    var page := PageOf(ReadFor(file, start, sizes[0]), start, sizes[0], target);
    PageTiles(file, start, sizes[0], target);
    if page.hasMore && |sizes| > 1 then [page] + Pages(file, page.endLine + 1, sizes[1..], target) else [page]
  }

  lemma PageBefore(file: File, start: int, sizes: seq<nat>, target: Option<nat>, page: PageBody)
    requires IsText(file) && LineOf(file, start) && |sizes| > 1 && Positive(sizes)
    requires page == PageOf(ReadFor(file, start, sizes[0]), start, sizes[0], target) && page.hasMore
    ensures LineOf(file, page.endLine + 1) && Positive(sizes[1..])
    ensures Tiles(file.text, start, page) && page.startLine == start
    ensures Pages(file, start, sizes, target) == [page] + Pages(file, page.endLine + 1, sizes[1..], target)
  {
    hide PageOf, ReadFor, WholeLinesPage, SplitLines, RawLines, IsText, LineOf, Tiles, Pages;
    PositiveSizes(sizes);
    PageTiles(file, start, sizes[0], target);
    LineAfter(file, start, page);
    PagesInSteps(file, start, sizes, target, page);
  }

  lemma PositiveSizes(sizes: seq<nat>)
    requires Positive(sizes) && |sizes| > 1
    ensures sizes[0] >= 1 && Positive(sizes[1..])
  {
  }

  lemma LineAfter(file: File, start: int, page: PageBody)
    requires LineOf(file, start) && Tiles(file.text, start, page) && page.hasMore
    ensures LineOf(file, page.endLine + 1) && page.startLine == start
  {
    hide RawLines, SplitLines;
  }

  lemma PagesInSteps(file: File, start: int, sizes: seq<nat>, target: Option<nat>, page: PageBody)
    requires IsText(file) && LineOf(file, start) && |sizes| > 1 && Positive(sizes) && Positive(sizes[1..])
    requires page == PageOf(ReadFor(file, start, sizes[0]), start, sizes[0], target) && page.hasMore
    requires LineOf(file, page.endLine + 1)
    ensures Pages(file, start, sizes, target) == [page] + Pages(file, page.endLine + 1, sizes[1..], target)
  {
    hide PageOf, ReadFor, WholeLinesPage, SplitLines, RawLines, IsText, LineOf;
  }

  lemma OnlyPage(file: File, start: int, sizes: seq<nat>, target: Option<nat>, page: PageBody)
    requires IsText(file) && LineOf(file, start) && sizes != [] && Positive(sizes)
    requires page == PageOf(ReadFor(file, start, sizes[0]), start, sizes[0], target)
    requires !page.hasMore || |sizes| == 1
    ensures Tiles(file.text, start, page) && page.startLine == start && Pages(file, start, sizes, target) == [page]
  {
    hide PageOf, ReadFor, WholeLinesPage, SplitLines, RawLines, IsText;
    PageTiles(file, start, sizes[0], target);
  }

  ghost predicate Consecutive(pages: seq<PageBody>) {
    forall i :: 0 <= i < |pages| - 1 ==> pages[i].hasMore && pages[i + 1].startLine == pages[i].endLine + 1
  }

  /**
   What any number of requests gets: consecutive stretches of the lines, and more only if every request found more.
   */
  ghost predicate PagesFit(text: string, start: int, requests: nat, pages: seq<PageBody>) {
    && pages != []
    && pages[0].startLine == start
    && Consecutive(pages)
    && (forall i :: 0 <= i < |pages| ==> Tiles(text, pages[i].startLine, pages[i]))
    && (Last(pages).hasMore ==> |pages| == requests && start + requests - 1 <= Last(pages).endLine)
  }

  lemma {:induction false} PagesAreFit(file: File, start: int, sizes: seq<nat>, target: Option<nat>)
    requires IsText(file) && LineOf(file, start) && sizes != [] && Positive(sizes)
    ensures PagesFit(file.text, start, |sizes|, Pages(file, start, sizes, target))
    decreases |sizes|
  {
    hide PageOf, ReadFor, WholeLinesPage, Pages, IsText, LineOf, PagesFit, SplitLines, RawLines, Tiles;
    var page := PageOf(ReadFor(file, start, sizes[0]), start, sizes[0], target);
    if page.hasMore && |sizes| > 1 {
      PageBefore(file, start, sizes, target, page);
      PagesAreFit(file, page.endLine + 1, sizes[1..], target);
      OneMorePage(file.text, page, Pages(file, page.endLine + 1, sizes[1..], target), |sizes| - 1);
    } else {
      OnlyPage(file, start, sizes, target, page);
      FirstPage(file.text, page, |sizes|);
    }
  }

  /**
   Each page starts one line after the one before it, whatever the sizes and the byte target, and as many
   requests as the file has lines are enough to reach its end.
   */
  lemma PagesTile(file: File, start: int, sizes: seq<nat>, target: Option<nat>)
    requires IsText(file) && LineOf(file, start) && sizes != [] && Positive(sizes)
    ensures var pages := Pages(file, start, sizes, target);
            && PagesFit(file.text, start, |sizes|, pages)
            && (|sizes| > |RawLines(file.text)| - start ==> !Last(pages).hasMore)
  {
    PagesAreFit(file, start, sizes, target);
    hide Pages, PagesFit, RawLines, LineOf, IsText;
    if |sizes| > |RawLines(file.text)| - start {
      EndReached(file.text, start, |sizes|, Pages(file, start, sizes, target));
    }
  }

  lemma OneMorePage(text: string, page: PageBody, rest: seq<PageBody>, requests: nat)
    requires page.hasMore && Tiles(text, page.startLine, page) && PagesFit(text, page.endLine + 1, requests, rest)
    ensures PagesFit(text, page.startLine, requests + 1, [page] + rest)
  {
    hide SplitLines, RawLines;
    var pages := [page] + rest;
    assert Last(pages) == Last(rest);
    assert forall i :: 1 <= i < |pages| ==> pages[i] == rest[i - 1];
    assert page.startLine <= page.endLine;
    hide Tiles;
  }

  lemma FirstPage(text: string, page: PageBody, requests: nat)
    requires Tiles(text, page.startLine, page) && (!page.hasMore || requests == 1)
    ensures PagesFit(text, page.startLine, requests, [page])
  {
    hide SplitLines, RawLines;
  }

  lemma EndReached(text: string, start: int, requests: nat, pages: seq<PageBody>)
    requires PagesFit(text, start, requests, pages) && requests > |RawLines(text)| - start
    ensures !Last(pages).hasMore
  {
    assert Tiles(text, pages[|pages| - 1].startLine, pages[|pages| - 1]);
  }

  /** What a page request says: everything but the path may be left out. */
  datatype PageRequest = PageRequest(
    workspaceId: Option<string>,
    path: string,
    startLine: Option<int>,
    pageSize: Option<int>,
    responseTargetBytes: Option<int>)

  datatype Continuation = Continuation(
    workspaceId: Option<string>,
    path: string,
    nextStartLine: int,
    pageSize: int,
    responseTargetBytes: Option<nat>)

  datatype FilePage = TextPage(body: PageBody, token: Option<nat>) | Base64Page(startLine: int, endLine: int)

  predicate IsPageSize(n: int) {
    1 <= n <= MAX_PAGE_SIZE
  }

  predicate IsValidRequest(request: PageRequest) {
    && !Blank(request.path)
    && (request.startLine.Some? ==> request.startLine.value >= 1)
    && (request.pageSize.Some? ==> IsPageSize(request.pageSize.value))
    && (request.responseTargetBytes.Some? ==> 1 <= request.responseTargetBytes.value <= MAX_RESPONSE_TARGET_BYTES)
  }

  /** Where a valid request starts. */
  function FirstRead(request: PageRequest): Continuation
    requires IsValidRequest(request)
  {
    Continuation(
      request.workspaceId,
      request.path,
      if request.startLine.Some? then request.startLine.value else 1,
      if request.pageSize.Some? then request.pageSize.value else DEFAULT_PAGE_SIZE,
      if request.responseTargetBytes.Some? then Some(request.responseTargetBytes.value) else None)
  }

  predicate IsValidContinuation(c: Continuation) {
    c.nextStartLine >= 1 && IsPageSize(c.pageSize) && (c.responseTargetBytes.Some? ==> c.responseTargetBytes.value >= 1)
  }

  /** The file service, as the engine sees it: an answer for every workspace, path and range. */
  type FileService = (Option<string>, string, LineRange) -> Result<Served, ReadError>

  function Ask(service: FileService, c: Continuation): Result<Served, ReadError> {
    service(c.workspaceId, c.path, LineRange(Some(c.nextStartLine), Some(c.nextStartLine + c.pageSize)))
  }

  /** What one read at a continuation answers, the token aside. */
  predicate Answers(service: FileService, c: Continuation, r: Result<FilePage, ReadError>)
    requires IsValidContinuation(c)
  {
    match Ask(service, c)
    case Err(error) => r == Err(error)
    case Ok(Base64(startLine, endLine)) => r == Ok(Base64Page(startLine, endLine))
    case Ok(Text(served)) =>
      && r.Ok? && r.value.TextPage?
      && r.value.body == PageOf(served, c.nextStartLine, c.pageSize, c.responseTargetBytes)
      && (r.value.token.Some? <==> r.value.body.hasMore)
  }

  /** What a token stands for: the same request, one line after the page that carried it. */
  function NextRead(c: Continuation, page: PageBody): Continuation {
    c.(nextStartLine := page.endLine + 1)
  }

  predicate CarriesToken(r: Result<FilePage, ReadError>) {
    r.Ok? && r.value.TextPage? && r.value.token.Some?
  }

  class FilePageEngine {
    var continuations: map<nat, Continuation>
    /** How many tokens have been given out; the next one is this number. */
    var issued: nat

    ghost predicate Valid()
      reads this
    {
      forall token :: token in continuations ==> token < issued && IsValidContinuation(continuations[token])
    }

    constructor ()
      ensures Valid() && continuations == map[]
    {
      continuations := map[];
      issued := 0;
    }

    method ReadPage(request: PageRequest, service: FileService) returns (r: Result<FilePage, ReadError>)
      requires Valid()
      modifies this
      ensures Valid()
      ensures IsValidRequest(request) <==>
                && (exists i :: 0 <= i < |request.path| && !Space(request.path[i]))
                && (request.startLine.Some? ==> request.startLine.value >= 1)
                && (request.pageSize.Some? ==> 1 <= request.pageSize.value <= 5000)
                && (request.responseTargetBytes.Some? ==> 1 <= request.responseTargetBytes.value <= 8 * 1024 * 1024)
      ensures !IsValidRequest(request) ==>
                r == Err(InvalidInput) && continuations == old(continuations) && issued == old(issued)
      ensures IsValidRequest(request) ==>
                && Answers(service, FirstRead(request), r)
                && (CarriesToken(r) ==>
                      && r.value.token == Some(old(issued))
                      && continuations == old(continuations)[old(issued) := NextRead(FirstRead(request), r.value.body)])
                && (!CarriesToken(r) ==> continuations == old(continuations))
    {
      if !IsValidRequest(request) {
        return Err(InvalidInput);
      }
      r := ReadAt(FirstRead(request), service);
    }

    /** A token answers once: it is gone even when the page size is refused. */
    method Continue(token: nat, pageSize: Option<int>, service: FileService) returns (r: Result<FilePage, ReadError>)
      requires Valid()
      modifies this
      ensures Valid()
      ensures token in old(continuations) ==> token !in continuations && token < old(issued)
      ensures old(issued) <= issued
      ensures token !in old(continuations) ==>
                r == Err(InvalidInput) && continuations == old(continuations) && issued == old(issued)
      ensures token in old(continuations) && pageSize.Some? && !IsPageSize(pageSize.value) ==>
                r == Err(InvalidInput) && continuations == old(continuations) - {token}
      ensures token in old(continuations) && (pageSize.None? || IsPageSize(pageSize.value)) ==>
                var saved := old(continuations)[token];
                var c := if pageSize.Some? then saved.(pageSize := pageSize.value) else saved;
                && Answers(service, c, r)
                && (CarriesToken(r) ==>
                      && r.value.token == Some(old(issued))
                      && continuations == (old(continuations) - {token})[old(issued) := NextRead(c, r.value.body)])
                && (!CarriesToken(r) ==> continuations == old(continuations) - {token})
    {
      if token !in continuations {
        return Err(InvalidInput);
      }
      var continuation := continuations[token];
      continuations := continuations - {token};
      var next := if pageSize.None? then continuation.pageSize else pageSize.value;
      if !IsPageSize(next) {
        return Err(InvalidInput);
      }
      r := ReadAt(continuation.(pageSize := next), service);
    }

    method ReadAt(input: Continuation, service: FileService) returns (r: Result<FilePage, ReadError>)
      requires Valid() && IsValidContinuation(input)
      modifies this
      ensures Valid()
      ensures old(issued) <= issued
      ensures Answers(service, input, r)
      ensures CarriesToken(r) ==>
                && r.value.token == Some(old(issued))
                && continuations == old(continuations)[old(issued) := NextRead(input, r.value.body)]
      ensures !CarriesToken(r) ==> continuations == old(continuations)
    {
      var result := Ask(service, input);
      if result.Err? {
        return Err(result.error);
      }
      if result.value.Base64? {
        return Ok(Base64Page(result.value.startLine, result.value.endLine));
      }
      var served := result.value.text;
      var content := served.content;
      var returnedLineCount := CountLines(content);
      if returnedLineCount > input.pageSize {
        content := TakeLines(content, input.pageSize);
        returnedLineCount := CountLines(content);
      }
      if input.responseTargetBytes.Some? && Utf8Length(content) > input.responseTargetBytes.value {
        content, returnedLineCount := TakeLinesToBytes(content, input.responseTargetBytes.value);
      }
      var startLine := input.nextStartLine;
      var endLine := if returnedLineCount == 0 then startLine else startLine + returnedLineCount - 1;
      var hasMore := served.endLine > endLine;
      var body := PageBody(startLine, endLine, content, hasMore);
      if !hasMore {
        return Ok(TextPage(body, None));
      }
      var token := issued;
      issued := issued + 1;
      continuations := continuations[token := NextRead(input, body)];
      return Ok(TextPage(body, Some(token)));
    }
  }

  /** Over the text reader, the engine's answer at a line of the file is the page the paging lemmas speak of. */
  lemma ServiceAnswersWithPages(service: FileService, file: File, trusted: bool, c: Continuation, r: Result<FilePage,
                                ReadError>)
    requires IsText(file) && IsValidContinuation(c) && LineOf(file, c.nextStartLine)
    requires forall range :: service(c.workspaceId, c.path, range) == Serve(file, trusted, range)
    requires Answers(service, c, r)
    ensures r.Ok? && r.value.TextPage?
    ensures r.value.body == Pages(file, c.nextStartLine, [c.pageSize as nat], c.responseTargetBytes)[0]
    ensures CarriesToken(r) ==>
              var next := NextRead(c, r.value.body);
              IsValidContinuation(next) && LineOf(file, next.nextStartLine)
  {
    hide PageOf, ReadFor, WholeLinesPage, Read, Serve, Ask, Pages, SplitLines, RawLines, IsText, LineOf, Tiles;
    TextAsked(service, file, trusted, c);
    var page := PageOf(ReadFor(file, c.nextStartLine, c.pageSize), c.nextStartLine, c.pageSize, c.responseTargetBytes);
    OnlyPage(file, c.nextStartLine, [c.pageSize], c.responseTargetBytes, page);
    if page.hasMore {
      LineAfter(file, c.nextStartLine, page);
      LinesFromOne(file, page.endLine + 1);
    }
  }

  /** The page size of each request: the first one's, and then the one given with the token or else the last one. */
  ghost function SizesUsed(size: int, given: seq<Option<int>>): (sizes: seq<nat>)
    requires IsPageSize(size) && forall i :: 0 <= i < |given| && given[i].Some? ==> IsPageSize(given[i].value)
    ensures |sizes| == |given| + 1 && sizes[0] == size && Positive(sizes)
    decreases |given|
  {
    if given == [] then [size]
    else [size] + SizesUsed(if given[0].Some? then given[0].value else size, given[1..])
  }

  lemma SplitPages(file: File, start: int, sizes: seq<nat>, target: Option<nat>, body: PageBody)
    requires IsText(file) && LineOf(file, start) && sizes != [] && Positive(sizes)
    requires body == Pages(file, start, [sizes[0]], target)[0]
    ensures body.hasMore && |sizes| > 1 ==>
              && LineOf(file, body.endLine + 1) && Positive(sizes[1..])
              && Pages(file, start, sizes, target) == [body] + Pages(file, body.endLine + 1, sizes[1..], target)
    ensures !body.hasMore || |sizes| == 1 ==> Pages(file, start, sizes, target) == [body]
  {
    hide PageOf, ReadFor, WholeLinesPage, Pages, IsText, LineOf, SplitLines, RawLines, Tiles;
    var page := PageOf(ReadFor(file, start, sizes[0]), start, sizes[0], target);
    OnlyPage(file, start, [sizes[0]], target, page);
    if page.hasMore && |sizes| > 1 {
      PageBefore(file, start, sizes, target, page);
    } else {
      OnlyPage(file, start, sizes, target, page);
    }
  }

  /** A client that hands each token back until none comes, or until it has no page size left. */
  method ContinueAll(engine: FilePageEngine, token: nat, given: seq<Option<int>>, service: FileService,
                     ghost file: File, ghost trusted: bool)
    returns (bodies: seq<PageBody>)
    requires engine.Valid() && token in engine.continuations && given != []
    requires forall i :: 0 <= i < |given| && given[i].Some? ==> IsPageSize(given[i].value)
    requires var c := engine.continuations[token];
             && IsText(file) && LineOf(file, c.nextStartLine)
             && forall range :: service(c.workspaceId, c.path, range) == Serve(file, trusted, range)
    modifies engine
    ensures engine.Valid()
    ensures var c := old(engine.continuations[token]);
            var size := if given[0].Some? then given[0].value else c.pageSize;
            bodies == Pages(file, c.nextStartLine, SizesUsed(size, given[1..]), c.responseTargetBytes)
    decreases |given|
  {
    hide Answers, Serve, Pages, IsText, LineOf, SizesUsed, Positive;
    ghost var saved := engine.continuations[token];
    ghost var c := if given[0].Some? then saved.(pageSize := given[0].value) else saved;
    ghost var sizes := SizesUsed(c.pageSize, given[1..]);
    var r := engine.Continue(token, given[0], service);
    ServiceAnswersWithPages(service, file, trusted, c, r);
    SplitPages(file, c.nextStartLine, sizes, c.responseTargetBytes, r.value.body);
    bodies := [r.value.body];
    TokenIffMore(service, c, r);
    if r.value.token.Some? && |given| > 1 {
      SizesGoOn(c.pageSize, given[1..]);
      var more := ContinueAll(engine, r.value.token.value, given[1..], service, file, trusted);
      bodies := bodies + more;
    }
  }

  lemma SizesGoOn(size: int, given: seq<Option<int>>)
    requires IsPageSize(size) && forall i :: 0 <= i < |given| && given[i].Some? ==> IsPageSize(given[i].value)
    requires given != []
    ensures SizesUsed(size, given)[1..] == SizesUsed(if given[0].Some? then given[0].value else size, given[1..])
  {
  }

  lemma TokenIffMore(service: FileService, c: Continuation, r: Result<FilePage, ReadError>)
    requires IsValidContinuation(c) && Answers(service, c, r) && r.Ok? && r.value.TextPage?
    ensures r.value.token.Some? <==> r.value.body.hasMore
  {
  }

  /**
   The whole exchange over one file: a request and then its tokens, each with a page size or without one, give exactly
   the pages of the paging theorems, from the requested line on.
   */
  method ReadAll(engine: FilePageEngine, request: PageRequest, given: seq<Option<int>>, service: FileService,
                 ghost file: File, ghost trusted: bool)
    returns (bodies: seq<PageBody>)
    requires engine.Valid() && IsValidRequest(request) && IsText(file)
    requires forall i :: 0 <= i < |given| && given[i].Some? ==> IsPageSize(given[i].value)
    requires LineOf(file, if request.startLine.Some? then request.startLine.value else 1)
    requires forall range :: service(request.workspaceId, request.path, range) == Serve(file, trusted, range)
    modifies engine
    ensures engine.Valid()
    ensures var start := if request.startLine.Some? then request.startLine.value else 1;
            var size := if request.pageSize.Some? then request.pageSize.value else 200;
            var target := if request.responseTargetBytes.Some? then Some(request.responseTargetBytes.value as nat)
                          else None;
            bodies == Pages(file, start, SizesUsed(size, given), target)
  {
    hide Answers, Serve, Pages, IsText, LineOf, SizesUsed, Positive;
    ghost var c := FirstRead(request);
    ghost var sizes := SizesUsed(c.pageSize, given);
    var r := engine.ReadPage(request, service);
    ServiceAnswersWithPages(service, file, trusted, c, r);
    SplitPages(file, c.nextStartLine, sizes, c.responseTargetBytes, r.value.body);
    bodies := [r.value.body];
    TokenIffMore(service, c, r);
    if r.value.token.Some? && |given| > 0 {
      SizesGoOn(c.pageSize, given);
      var more := ContinueAll(engine, r.value.token.value, given, service, file, trusted);
      bodies := bodies + more;
    }
  }

  lemma LinesFromOne(file: File, line: int)
    requires LineOf(file, line)
    ensures line >= 1
  {
  }

  lemma TextAsked(service: FileService, file: File, trusted: bool, c: Continuation)
    requires IsText(file) && IsValidContinuation(c) && LineOf(file, c.nextStartLine)
    requires forall range :: service(c.workspaceId, c.path, range) == Serve(file, trusted, range)
    ensures Ask(service, c) == Ok(Text(ReadFor(file, c.nextStartLine, c.pageSize)))
  {
    hide Read, IsText, LineOf;
  }
}
