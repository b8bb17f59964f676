/** What pages of a text show, and when they give the text back: for every text, with the exact condition. */
module PagedText {
  import opened Numbers
  import Sequences
  import opened Wrappers
  import opened TextLines
  import opened TextFileReader
  import opened Utf8
  import opened FilePages

  function LinesOn(text: string, page: PageBody): seq<string>
    requires 1 <= page.startLine <= page.endLine <= |SplitLines(text)|
  {
    SplitLines(text)[page.startLine - 1..page.endLine]
  }

  /** The page shows exactly its lines. */
  ghost predicate Faithful(text: string, page: PageBody) {
    1 <= page.startLine <= page.endLine <= |SplitLines(text)| && page.content == Join(LinesOn(text, page))
  }

  lemma DropIsSlice<T>(s: seq<T>, n: nat)
    requires n <= |s|
    ensures s[n..] == s[n..|s|]
  {
  }

  /** The untouched rest of a text has the rest of its lines. */
  lemma RestIsSlice(text: string, a: nat)
    requires a <= |RawLines(text)| && (a < |RawLines(text)| || a == 0)
    ensures a <= |SplitLines(text)|
    ensures SplitLines(Concat(RawLines(text)[a..])) == SplitLines(text)[a..]
  {
    SliceLines(text, a, |RawLines(text)|);
    assert RawLines(text)[a..] == RawLines(text)[a..|RawLines(text)|];
  }

  /**
   A page without a byte target shows exactly its lines when lines are left after it, and otherwise exactly when
   the rest of the text has no carriage return before a line feed.
   */
  lemma WholeLinesPageFaithfulIff(file: File, start: int, size: nat)
    requires IsText(file) && LineOf(file, start) && size >= 1
    ensures var page := WholeLinesPage(ReadFor(file, start, size), start, size);
            && (Faithful(file.text, page) <==>
                start + size <= |SplitLines(file.text)| || NoCRLF(Concat(RawLines(file.text)[start - 1..])))
            && (start + size > |SplitLines(file.text)| ==>
                  start <= |SplitLines(file.text)| && SplitLines(page.content) == SplitLines(file.text)[start - 1..])
  {
    hide *;
    WholeLinesPageShows(file, start, size);
    FirstLine(file, start);
    if start + size > |SplitLines(file.text)| {
      RestFaithfulIff(file.text, start, size);
    } else {
      CutIsFaithful(file.text, start, size);
    }
  }

  lemma CutIsFaithful(text: string, start: int, size: nat)
    requires 1 <= start && size >= 1 && (start == 1 || start <= |RawLines(text)|) && start + size <= |SplitLines(text)|
    ensures Faithful(text, LinesPage(text, start, size))
  {
    hide SplitLines, RawLines, Concat, Join;
  }

  lemma RestFaithfulIff(text: string, start: int, size: nat)
    requires 1 <= start && size >= 1 && (start == 1 || start <= |RawLines(text)|) && start + size > |SplitLines(text)|
    ensures start <= |SplitLines(text)|
    ensures var page := LinesPage(text, start, size);
            && (Faithful(text, page) <==> NoCRLF(Concat(RawLines(text)[start - 1..])))
            && SplitLines(page.content) == SplitLines(text)[start - 1..]
  {
    hide *;
    LastOfLines(text);
    UncutContent(text, start, size);
    RestIsSlice(text, start - 1);
    JoinSplitIff(Concat(RawLines(text)[start - 1..]));
    RestIsJoined(text, start, size);
  }

  lemma RestIsJoined(text: string, start: int, size: nat)
    requires 1 <= start <= |SplitLines(text)| < start + size && size >= 1 && (start == 1 || start <= |RawLines(text)|)
    ensures var page := LinesPage(text, start, size);
            Faithful(text, page) <==> page.content == Join(SplitLines(text)[start - 1..])
  {
    hide SplitLines, RawLines, Concat, Join;
    DropIsSlice(SplitLines(text), start - 1);
  }

  lemma FirstLine(file: File, start: int)
    requires LineOf(file, start)
    ensures file.Stored? && start >= 1 && (start - 1 < |RawLines(file.text)| || start == 1)
  {
  }

  /** A page that lines follow is its raw lines, but for the last line feed, exactly when none of them ends in CRLF. */
  lemma CutPageIsRawIff(file: File, start: int, size: nat)
    requires IsText(file) && LineOf(file, start) && size >= 1 && start + size <= |SplitLines(file.text)|
    ensures start - 1 + size <= |RawLines(file.text)|
    ensures var raw := RawLines(file.text)[start - 1..start - 1 + size];
            WholeLinesPage(ReadFor(file, start, size), start, size).content + "\n" == Concat(raw) <==>
            NoneEndsWithCRLF(raw, 0, |raw|)
  {
    hide *;
    FirstLine(file, start);
    WholeLinesPageShows(file, start, size);
    CutContent(file.text, start, size);
    CutContentIsRawIff(file.text, start - 1, start - 1 + size);
    var raw := RawLines(file.text)[start - 1..start - 1 + size];
    var content := WholeLinesPage(ReadFor(file, start, size), start, size).content;
    assert content == Join(SplitLines(file.text)[start - 1..start - 1 + size]);
    assert content + "\n" == Concat(raw) <==> NoneEndsWithCRLF(raw, 0, |raw|);
  }

  predicate NoneEndsWithCRLF(raw: seq<string>, from: nat, to: nat)
    requires to <= |raw|
  {
    forall i :: from <= i < to ==> !EndsWithCRLF(raw[i])
  }

  lemma CutContent(text: string, start: int, size: nat)
    requires 1 <= start && size >= 1 && (start == 1 || start <= |RawLines(text)|) && start + size <= |SplitLines(text)|
    ensures LinesPage(text, start, size).content == Join(SplitLines(text)[start - 1..start - 1 + size])
  {
  }

  lemma CutContentIsRawIff(text: string, a: nat, b: nat)
    requires a < b < |SplitLines(text)|
    ensures b <= |RawLines(text)|
    ensures var raw := RawLines(text)[a..b];
            Join(SplitLines(text)[a..b]) + "\n" == Concat(raw) <==> NoneEndsWithCRLF(raw, 0, |raw|)
  {
    hide *;
    TerminatedSliceIff(text, a, b);
    CRLFInSlice(RawLines(text), a, b);
    TerminatedJoin(SplitLines(text)[a..b]);
  }

  lemma CRLFInSlice(raw: seq<string>, a: nat, b: nat)
    requires a <= b <= |raw|
    ensures NoneEndsWithCRLF(raw[a..b], 0, b - a) <==> NoneEndsWithCRLF(raw, a, b)
  {
    hide EndsWithCRLF;
    var slice := raw[a..b];
    assert forall i :: a <= i < b ==> slice[i - a] == raw[i];
    assert forall i :: 0 <= i < |slice| ==> slice[i] == raw[a + i];
  }

  lemma TerminatedSliceIff(text: string, a: nat, b: nat)
    requires a <= b < |SplitLines(text)|
    ensures b <= |RawLines(text)|
    ensures Terminated(SplitLines(text)[a..b]) == Concat(RawLines(text)[a..b]) <==>
            NoneEndsWithCRLF(RawLines(text), a, b)
  {
    hide *;
    LastOfLines(text);
    TextIsRaw(text);
    var raw := RawLines(text);
    var slice := raw[a..b];
    RawShapeSlice(raw, a, b);
    StripAllSlice(raw, a, b);
    SliceOfSum(StripAll(raw), AfterLast(raw), a, b);
    SliceEndsWithLF(text, a, b);
    TerminatedIff(slice);
    RawHasNoCRLF(slice);
    CRLFInSlice(raw, a, b);
  }

  lemma RawHasNoCRLF(pieces: seq<string>)
    requires RawShape(pieces)
    ensures NoCRLF(Concat(pieces)) <==> NoneEndsWithCRLF(pieces, 0, |pieces|)
  {
    hide RawShape, NoCRLF, Concat, EndsWithCRLF;
    NoCRLFIff(pieces);
  }

  lemma SliceEndsWithLF(text: string, a: nat, b: nat)
    requires a <= b < |SplitLines(text)| && b <= |RawLines(text)|
    ensures RawLines(text)[a..b] != [] ==> EndsWithLF(Last(RawLines(text)[a..b]))
  {
    hide SplitLines, RawLines, EndsWithLF;
    if a < b {
      EndsBeforeTheLast(text, b - 1);
      assert Last(RawLines(text)[a..b]) == RawLines(text)[b - 1];
    }
  }

  /** A raw line that another line follows ends in a line feed. */
  lemma EndsBeforeTheLast(text: string, i: nat)
    requires i + 1 < |SplitLines(text)|
    ensures i < |RawLines(text)| && EndsWithLF(RawLines(text)[i])
  {
    hide SplitLines, RawLines, EndsWithLF, Init, Strip;
    TextIsRaw(text);
  }

  function Contents(pages: seq<PageBody>): (r: seq<string>)
    ensures |r| == |pages|
  {
    if pages == [] then [] else [pages[0].content] + Contents(pages[1..])
  }

  /** What the last page leaves out: nothing, or one final line feed. */
  function LostEnd(text: string, last: PageBody): string {
    if last.endLine == |SplitLines(text)| then "" else "\n"
  }

  /** How many lines stand on pages that lines follow, for a text of so many lines, from a line on. */
  function CutLines(total: nat, from: nat, sizes: seq<nat>): (m: nat)
    requires from < total
    ensures from <= m < total
    decreases |sizes|
  {
    if sizes == [] || from + sizes[0] >= total then from else CutLines(total, from + sizes[0], sizes[1..])
  }

  lemma JoinedAlone(line: string)
    ensures Join([line]) == line
  {
  }

  /** Pages without a byte target, joined: every line of the cut pages with a line feed, and the rest untouched. */
  lemma {:induction false} JoinedPages(file: File, start: int, sizes: seq<nat>)
    requires IsText(file) && LineOf(file, start) && sizes != [] && Positive(sizes)
    requires !Last(Pages(file, start, sizes, None)).hasMore
    ensures var lines := SplitLines(file.text);
            && start <= |lines|
            && var m := CutLines(|lines|, start - 1, sizes);
               && m <= |RawLines(file.text)|
               && var pages := Pages(file, start, sizes, None);
                  Join(Contents(pages)) + LostEnd(file.text, Last(pages))
                  == Terminated(lines[start - 1..m]) + Concat(RawLines(file.text)[m..])
    decreases |sizes|
  {
    hide *;
    LineAndSizes(file, start, sizes);
    var page := PageOf(ReadFor(file, start, sizes[0]), start, sizes[0], None);
    NoTarget(ReadFor(file, start, sizes[0]), start, sizes[0]);
    WholeLinesPageShows(file, start, sizes[0]);
    LastOfLines(file.text);
    FirstLine(file, start);
    if page.hasMore && |sizes| > 1 {
      PageBefore(file, start, sizes, None, page);
      var rest := Pages(file, page.endLine + 1, sizes[1..], None);
      LastOfMore(page, rest);
      JoinedPages(file, page.endLine + 1, sizes[1..]);
      JoinedWithRest(file.text, start, sizes, page, rest);
    } else {
      OnlyPage(file, start, sizes, None, page);
      LastOfOne(page);
      JoinedLast(file.text, start, sizes, page);
    }
  }

  lemma LastOfMore<T>(x: T, rest: seq<T>)
    requires rest != []
    ensures Last([x] + rest) == Last(rest)
  {
  }

  lemma LastOfOne<T>(x: T)
    ensures Last([x]) == x
  {
  }

  lemma LineAndSizes(file: File, start: int, sizes: seq<nat>)
    requires IsText(file) && LineOf(file, start) && sizes != [] && Positive(sizes)
    ensures file.Stored? && 1 <= start && sizes[0] >= 1 && (|sizes| > 1 ==> sizes[1] >= 1)
    ensures start == 1 || start <= |RawLines(file.text)|
  {
  }

  lemma NoTarget(served: FileText, start: int, size: nat)
    ensures PageOf(served, start, size, None) == WholeLinesPage(served, start, size)
  {
  }

  lemma JoinedLast(text: string, start: int, sizes: seq<nat>, page: PageBody)
    requires sizes != [] && sizes[0] >= 1 && (|sizes| > 1 ==> sizes[1] >= 1)
    requires 1 <= start && (start == 1 || start <= |RawLines(text)|)
    requires page == LinesPage(text, start, sizes[0]) && !page.hasMore
    ensures var lines := SplitLines(text);
            && start <= |lines|
            && var m := CutLines(|lines|, start - 1, sizes);
               && m <= |RawLines(text)|
               && Join(Contents([page])) + LostEnd(text, page) ==
                 Terminated(lines[start - 1..m]) + Concat(RawLines(text)[m..])
  {
    hide RawLines, SplitLines, Join, Terminated, AfterLast;
    LastOfLines(text);
    assert Contents([page]) == [page.content];
    JoinedAlone(page.content);
    var lines, raw := SplitLines(text), RawLines(text);
    var m := CutLines(|lines|, start - 1, sizes);
    if start + sizes[0] <= |lines| {
      assert m == start - 1 + sizes[0] == |raw|;
      assert raw[m..] == [];
      TerminatedJoin(lines[start - 1..m]);
      Sequences.Neutral(Terminated(lines[start - 1..m]));
    } else {
      assert m == start - 1 && lines[start - 1..m] == [];
      NoneTerminated();
      Sequences.Neutral(page.content);
    }
  }

  lemma NoneTerminated()
    ensures Terminated([]) == ""
  {
  }

  lemma JoinedWithRest(text: string, start: int, sizes: seq<nat>, page: PageBody, rest: seq<PageBody>)
    requires |sizes| > 1 && sizes[0] >= 1 && 1 <= start && (start == 1 || start <= |RawLines(text)|)
    requires page == LinesPage(text, start, sizes[0]) && page.hasMore
    requires rest != [] && page.endLine < |SplitLines(text)|
    requires var m := CutLines(|SplitLines(text)|, page.endLine, sizes[1..]);
             && m <= |RawLines(text)|
             && Join(Contents(rest)) + LostEnd(text, Last(rest)) ==
                Terminated(SplitLines(text)[page.endLine..m]) + Concat(RawLines(text)[m..])
    ensures var m := CutLines(|SplitLines(text)|, start - 1, sizes);
            && m <= |RawLines(text)|
            && Join(Contents([page] + rest)) + LostEnd(text, Last(rest))
               == Terminated(SplitLines(text)[start - 1..m]) + Concat(RawLines(text)[m..])
  {
    hide RawLines, SplitLines, Join, Terminated, LostEnd, Last, Concat;
    var lines := SplitLines(text);
    var m := CutLines(|lines|, start - 1, sizes);
    var head, tail := lines[start - 1..page.endLine], lines[page.endLine..m];
    var more, end := Join(Contents(rest)), LostEnd(text, Last(rest));
    assert ([page] + rest)[1..] == rest;
    assert Contents([page] + rest) == [page.content] + Contents(rest);
    JoinInFront(page.content, Contents(rest));
    TerminatedJoin(head);
    assert head + tail == lines[start - 1..m];
    TerminatedAppend(head, tail);
    Sequences.Associative(Terminated(head), more, end);
    Sequences.Associative(Terminated(head), Terminated(tail), Concat(RawLines(text)[m..]));
  }

  lemma JoinInFront(line: string, lines: seq<string>)
    requires lines != []
    ensures Join([line] + lines) == (line + "\n") + Join(lines)
  {
    assert ([line] + lines)[1..] == lines;
  }

  /**
   Reading any text page by page from its first line, in pages of any sizes, comes to an end, and gives the text
   back, but for one final line feed, exactly when no line on a page that lines follow ends in CRLF.
   */
  lemma PagingRebuildsIff(file: File, sizes: seq<nat>)
    requires IsText(file) && Positive(sizes)
    requires |sizes| >= 1 && |sizes| >= |RawLines(file.text)|
    ensures var pages := Pages(file, 1, sizes, None);
            var m := CutLines(|SplitLines(file.text)|, 0, sizes);
            && !Last(pages).hasMore
            && m <= |RawLines(file.text)|
            && (Join(Contents(pages)) + LostEnd(file.text, Last(pages)) == file.text <==>
                NoneEndsWithCRLF(RawLines(file.text), 0, m))
  {
    hide *;
    LineOne(file);
    PagesTile(file, 1, sizes, None);
    JoinedPages(file, 1, sizes);
    var m := CutLines(|SplitLines(file.text)|, 0, sizes);
    var raw := RawLines(file.text);
    ConcatRaw(file.text);
    assert raw[0..m] + raw[m..] == raw;
    ConcatAppend(raw[0..m], raw[m..]);
    TerminatedSliceIff(file.text, 0, m);
    SameHead(Terminated(SplitLines(file.text)[0..m]), Concat(raw[0..m]), Concat(raw[m..]));
  }

  lemma LineOne(file: File)
    requires IsText(file)
    ensures file.Stored? && LineOf(file, 1)
  {
  }

  lemma SameHead<T>(a: seq<T>, b: seq<T>, c: seq<T>)
    ensures a + c == b + c <==> a == b
  {
    if a + c == b + c {
      assert |a + c| == |b + c|;
      assert (a + c)[..|a|] == a && (b + c)[..|b|] == b;
    }
  }

  /** Consecutive pages that show their lines, joined, show the lines from the first to the last. */
  lemma {:induction false} FaithfulPagesJoin(text: string, pages: seq<PageBody>)
    requires pages != [] && Consecutive(pages)
    requires forall page :: page in pages ==> Faithful(text, page)
    ensures 1 <= pages[0].startLine <= Last(pages).endLine <= |SplitLines(text)|
    ensures Join(Contents(pages)) == Join(SplitLines(text)[pages[0].startLine - 1..Last(pages).endLine])
  {
    hide SplitLines, Join, Faithful, Consecutive, Last;
    var page, rest := pages[0], pages[1..];
    FaithfulBounds(text, page);
    if |pages| > 1 {
      RestIsConsecutive(pages);
      FaithfulPagesJoin(text, rest);
      FaithfulInFront(text, page, rest);
    } else {
      FaithfulAlone(text, page);
      assert pages == [page];
      LastOfOne(page);
    }
  }

  lemma FaithfulBounds(text: string, page: PageBody)
    requires Faithful(text, page)
    ensures 1 <= page.startLine <= page.endLine <= |SplitLines(text)|
  {
  }

  lemma RestIsConsecutive(pages: seq<PageBody>)
    requires |pages| > 1 && Consecutive(pages)
    ensures Consecutive(pages[1..]) && pages[1].startLine == pages[0].endLine + 1
    ensures Last(pages[1..]) == Last(pages) && [pages[0]] + pages[1..] == pages
  {
    var rest := pages[1..];
    assert forall i :: 0 <= i < |rest| ==> rest[i] == pages[i + 1];
  }

  lemma FaithfulAlone(text: string, page: PageBody)
    requires Faithful(text, page)
    ensures Join(Contents([page])) == Join(SplitLines(text)[page.startLine - 1..page.endLine])
  {
    hide SplitLines;
    assert Contents([page]) == [page.content];
    JoinedAlone(page.content);
  }

  lemma FaithfulInFront(text: string, page: PageBody, rest: seq<PageBody>)
    requires rest != [] && rest[0].startLine == page.endLine + 1 && Faithful(text, page)
    requires page.endLine < Last(rest).endLine <= |SplitLines(text)|
    requires Join(Contents(rest)) == Join(SplitLines(text)[page.endLine..Last(rest).endLine])
    ensures Join(Contents([page] + rest)) == Join(SplitLines(text)[page.startLine - 1..Last(rest).endLine])
  {
    var lines := SplitLines(text);
    var tail := lines[page.endLine..Last(rest).endLine];
    assert ([page] + rest)[1..] == rest;
    assert Contents([page] + rest) == [page.content] + Contents(rest);
    hide SplitLines, Contents, JoinWith;
    JoinConcat('\n', [page.content], Contents(rest));
    JoinConcat('\n', LinesOn(text, page), tail);
    JoinedAlone(page.content);
    assert LinesOn(text, page) + tail == lines[page.startLine - 1..Last(rest).endLine];
  }

  /**
   Pages, with or without a byte target, that reach the end of the file and each show their lines give the text
   back, but for one final line feed, exactly when it has no carriage return before a line feed.
   */
  lemma FaithfulPagesRebuildIff(text: string, requests: nat, pages: seq<PageBody>)
    requires PagesFit(text, 1, requests, pages) && !Last(pages).hasMore
    requires forall page :: page in pages ==> Faithful(text, page)
    ensures Join(Contents(pages)) + LostEnd(text, Last(pages)) == text <==> NoCRLF(text)
  {
    var last := pages[|pages| - 1];
    assert Tiles(text, last.startLine, last);
    hide SplitLines, Join, NoCRLF, Faithful, Contents, Tiles;
    FaithfulPagesJoin(text, pages);
    EndOfText(text, last.endLine);
    JoinSplitIff(text);
  }

  lemma EndOfText(text: string, end: int)
    requires 1 <= end <= |SplitLines(text)|
    requires end == |SplitLines(text)| || (end + 1 == |SplitLines(text)| && Last(SplitLines(text)) == "")
    ensures Join(SplitLines(text)[0..end]) + (if end == |SplitLines(text)| then "" else "\n") == Join(SplitLines(text))
  {
    hide SplitLines, Join;
    var lines := SplitLines(text);
    if end == |lines| {
      assert lines[0..end] == lines && Join(lines) + "" == Join(lines);
    } else {
      JoinInit(lines);
      assert Init(lines) == lines[0..end];
      assert Join(Init(lines)) + "\n" + "" == Join(Init(lines)) + "\n";
    }
  }

  /** Without a byte target the final line feed is lost exactly when the last page is full and the text ends in one. */
  lemma FinalLineFeedLostIff(file: File, start: int, size: nat)
    requires IsText(file) && LineOf(file, start) && size >= 1
    requires !WholeLinesPage(ReadFor(file, start, size), start, size).hasMore
    ensures LostEnd(file.text, WholeLinesPage(ReadFor(file, start, size), start, size)) != "" <==>
            EndsWithLF(file.text) && start + size == |RawLines(file.text)| + 1
  {
    WholeLinesPageShows(file, start, size);
    hide SplitLines, RawLines, WholeLinesPage, ReadFor, Join, Concat, EndsWithLF, IsText, LineOf;
    LineAfterLastLF(file.text);
    LastOfLines(file.text);
    FirstLine(file, start);
  }

  lemma LineAfterLastLF(text: string)
    ensures EndsWithLF(text) <==> RawLines(text) != [] && |SplitLines(text)| == |RawLines(text)| + 1
  {
    TextIsRaw(text);
    ConcatRaw(text);
    if text != "" {
      LastOfConcat(RawLines(text));
    }
  }

  lemma {:induction false} LastOfConcat(pieces: seq<string>)
    requires pieces != [] && forall i :: 0 <= i < |pieces| ==> pieces[i] != ""
    ensures Concat(pieces) != "" && Last(Concat(pieces)) == Last(Last(pieces))
  {
    if |pieces| > 1 {
      LastOfConcat(pieces[1..]);
      assert Last(pieces[1..]) == Last(pieces);
    } else {
      assert pieces[1..] == [] && pieces[0] + "" == pieces[0];
    }
  }

  /** A text file of this text, small enough for the reader. */
  function Small(text: string): File {
    Stored(1, false, false, text)
  }

  /** One line and its line feed, read in a page of one line: nothing is left, and the line feed is lost. */
  lemma FinalLineFeedIsLost()
    ensures WholeLinesPage(ReadFor(Small("a\n"), 1, 1), 1, 1) == PageBody(1, 1, "a", false)
    ensures LostEnd("a\n", PageBody(1, 1, "a", false)) == "\n"
  {
    LinesOfA();
    WholeLinesPageShows(Small("a\n"), 1, 1);
    JoinedAlone("a");
  }

  lemma LinesOfA()
    ensures SplitLines("a\n") == ["a", ""] && RawLines("a\n") == ["a\n"]
  {
    assert "a\n"[1..] == "\n" && "\n"[1..] == "";
    assert SplitLines("\n") == ["", ""];
    assert RawLines("\n") == ["\n"];
    assert "a" + "\n" == "a\n" && "a" + "" == "a";
  }

  /** What is glued has as many lines as it was glued from only if no empty start was dropped. */
  lemma {:induction false} GluedLines(lines: seq<string>)
    requires lines != [] && Free('\n', lines)
    ensures |SplitOn('\n', Glue(lines))| <= |lines|
    ensures |SplitOn('\n', Glue(lines))| == |lines| <==> |lines| == 1 || lines[0] != ""
    ensures lines[0] != "" ==> Glue(lines) != ""
  {
    var front, last := Init(lines), Last(lines);
    NoSeparator('\n', last);
    hide SplitOn;
    if |lines| > 1 {
      GluedLines(front);
      assert front[0] == lines[0];
      SplitOnConcat('\n', Glue(front), last);
      assert Glue(front) + ['\n'] + last == Glue(front) + "\n" + last;
    }
  }

  lemma {:induction false} NoSeparator(sep: char, s: string)
    requires sep !in s
    ensures SplitOn(sep, s) == [s]
  {
    if s != "" {
      NoSeparator(sep, s[1..]);
      assert s == [s[0]] + s[1..];
    }
  }

  /** Glued lines are other lines joined only if they are those lines, and no empty start was dropped. */
  lemma GluedIsJoinedIff(own: seq<string>, shown: seq<string>)
    requires own != [] && |own| == |shown| && Free('\n', own) && Free('\n', shown)
    ensures Glue(own) == Join(shown) <==> (|own| == 1 || own[0] != "") && own == shown
  {
    hide Glue, SplitOn, Free;
    GluedLines(own);
    GlueFaithfulIff(own);
    SplitJoin('\n', shown);
    if Glue(own) == Join(own) == Join(shown) {
      JoinInjective('\n', own, shown);
    }
  }

  predicate NoCRAtEnds(lines: seq<string>, from: nat, to: nat)
    requires to <= |lines|
  {
    forall i :: from <= i < to ==> !EndsWithCR(lines[i])
  }

  /**
   Which lines stand on a page over its target is not changed by splitting its content again, unless one ends in a
   carriage return.
   */
  lemma ResplitIff(shown: seq<string>, k: nat)
    requires shown != [] && Free('\n', shown) && k <= |shown|
    ensures var own := SplitLines(Join(shown));
            && |own| == |shown|
            && (own[..k] == shown[..k] <==> NoCRAtEnds(shown, 0, Min(k, |shown| - 1)))
  {
    hide SplitLines, Join, Free, EndsWithCR, Strip;
    var own := SplitLines(Join(shown));
    RejoinedLine(shown, 0);
    forall i | 0 <= i < |shown|
      ensures own[i] == shown[i] <==> i == |shown| - 1 || !EndsWithCR(shown[i])
    {
      RejoinedLine(shown, i);
      StripOneCR(shown[i]);
    }
    var a, b := own[..k], shown[..k];
    assert forall i :: 0 <= i < k ==> a[i] == own[i] && b[i] == shown[i];
    if a == b {
      assert forall i :: 0 <= i < k ==> own[i] == shown[i];
    }
  }

  /**
   With a byte target that is kept, a page is the one without it. Over the target it shows exactly its lines when
   it drops no empty start, which takes a second line that fits, and, if lines follow the whole page, none of
   the lines shown but its last ends in a carriage return.
   */
  lemma TargetedFaithfulIff(file: File, start: int, size: nat, target: nat)
    requires IsText(file) && LineOf(file, start) && size >= 1
    ensures start <= |SplitLines(file.text)|
    ensures var lines := SplitLines(file.text);
            var whole := LinesPage(file.text, start, size).content;
            var own := SplitLines(whole);
            var page := PageOf(ReadFor(file, start, size), start, size, Some(target));
            && (Utf8Length(whole) > target && own[0] == "" ==> |own| > 1)
            && (Faithful(file.text, page) <==>
                if Utf8Length(whole) <= target then
                  start + size <= |lines| || NoCRLF(Concat(RawLines(file.text)[start - 1..]))
                else
                  && (own[0] != "" || Utf8Length(own[1]) > target)
                  && (start + size <= |lines| ==>
                        NoCRAtEnds(lines, start - 1, start - 1 + Min(BestCount(own, target, 1), size - 1))))
  {
    hide *;
    FirstLine(file, start);
    LastOfLines(file.text);
    WholeLinesPageShows(file, start, size);
    if Utf8Length(LinesPage(file.text, start, size).content) <= target {
      UntargetedPage(ReadFor(file, start, size), start, size, target);
      WholeLinesPageFaithfulIff(file, start, size);
    } else {
      OverTargetFaithfulIff(file, start, size, target);
    }
  }

  lemma OverTargetFaithfulIff(file: File, start: int, size: nat, target: nat)
    requires IsText(file) && LineOf(file, start) && size >= 1 && start <= |SplitLines(file.text)|
    requires start == 1 || start <= |RawLines(file.text)|
    requires Utf8Length(LinesPage(file.text, start, size).content) > target
    ensures var lines := SplitLines(file.text);
            var own := SplitLines(LinesPage(file.text, start, size).content);
            && (own[0] == "" ==> |own| > 1)
            && (Faithful(file.text, PageOf(ReadFor(file, start, size), start, size, Some(target))) <==>
                && (own[0] != "" || Utf8Length(own[1]) > target)
                && (start + size <= |lines| ==>
                      NoCRAtEnds(lines, start - 1, start - 1 + Min(BestCount(own, target, 1), size - 1))))
  {
    hide *;
    FirstLine(file, start);
    WholeLinesPageShows(file, start, size);
    var served := ReadFor(file, start, size);
    TargetedPageShowsIff(served, start, size, target);
    var own := SplitLines(LinesPage(file.text, start, size).content);
    var k := BestCount(own, target, 1);
    var front := own[..k];
    assert front[0] == own[0] && |front| == k;
    GlueFaithfulIff(front);
    OverTargetIff(file.text, start, size, own, k, PageOf(served, start, size, Some(target)));
  }

  lemma UntargetedPage(served: FileText, start: int, size: nat, target: nat)
    requires Utf8Length(WholeLinesPage(served, start, size).content) <= target
    ensures PageOf(served, start, size, Some(target)) == WholeLinesPage(served, start, size)
  {
  }

  lemma OverTargetIff(text: string, start: int, size: nat, own: seq<string>, k: nat, page: PageBody)
    requires size >= 1 && 1 <= start && (start == 1 || start <= |RawLines(text)|)
    requires own == SplitLines(LinesPage(text, start, size).content) && 1 <= k <= |own|
    requires page.startLine == start && page.endLine == start - 1 + k && page.content == Glue(own[..k])
    ensures start <= |SplitLines(text)|
    ensures Faithful(text, page) <==>
            && (k == 1 || own[0] != "")
            && (start + size <= |SplitLines(text)| ==>
                  NoCRAtEnds(SplitLines(text), start - 1, start - 1 + Min(k, size - 1)))
  {
    LastOfLines(text);
    hide SplitLines, Join, Concat, RawLines, Glue, EndsWithCR, LinesPage;
    var lines := SplitLines(text);
    var shown := lines[start - 1..Min(start - 1 + size, |lines|)];
    SplitLinesHaveNoLF(text);
    FreeSlice(lines, start - 1, Min(start - 1 + size, |lines|));
    SplitLinesHaveNoLF(LinesPage(text, start, size).content);
    OwnLines(text, start, size, own, shown, k);
    FreeSlice(own, 0, k);
    FreeSlice(shown, 0, k);
    hide Free;
    PrefixOfSlice(lines, start - 1, Min(start - 1 + size, |lines|), k);
    var front, back := own[..k], shown[..k];
    assert own[0..k] == front && shown[0..k] == back && front[0] == own[0];
    GluedIsJoinedIff(front, back);
  }

  lemma PrefixOfSlice<T>(s: seq<T>, a: nat, b: nat, k: nat)
    requires a + k <= b <= |s|
    ensures s[a..b][..k] == s[a..a + k]
  {
  }

  lemma OwnLines(text: string, start: int, size: nat, own: seq<string>, shown: seq<string>, k: nat)
    requires size >= 1 && 1 <= start <= |SplitLines(text)| && (start == 1 || start <= |RawLines(text)|)
    requires own == SplitLines(LinesPage(text, start, size).content) && 1 <= k <= |own|
    requires var lines := SplitLines(text); shown == lines[start - 1..Min(start - 1 + size, |lines|)]
    requires Free('\n', shown)
    ensures |own| == |shown|
    ensures own[..k] == shown[..k] <==>
            (start + size <= |SplitLines(text)| ==>
               NoCRAtEnds(SplitLines(text), start - 1, start - 1 + Min(k, size - 1)))
  {
    hide *;
    MinIs(start - 1 + size, |SplitLines(text)|);
    MinIs(k, size - 1);
    if start + size <= |SplitLines(text)| {
      CutOwnLines(text, start, size, own, shown, k);
    } else {
      UncutOwnLines(text, start, size, own, shown);
    }
  }

  lemma CutOwnLines(text: string, start: int, size: nat, own: seq<string>, shown: seq<string>, k: nat)
    requires size >= 1 && 1 <= start && start + size <= |SplitLines(text)| && (start == 1 || start <= |RawLines(text)|)
    requires own == SplitLines(LinesPage(text, start, size).content) && 1 <= k <= |own|
    requires shown == SplitLines(text)[start - 1..start - 1 + size] && Free('\n', shown)
    ensures |own| == |shown| && Min(k, size - 1) < size
    ensures own[..k] == shown[..k] <==> NoCRAtEnds(SplitLines(text), start - 1, start - 1 + Min(k, size - 1))
  {
    hide *;
    MinIs(k, size - 1);
    CutContent(text, start, size);
    RejoinedLine(shown, 0);
    ResplitIff(shown, k);
    NoCRInSlice(SplitLines(text), start - 1, start - 1 + size, Min(k, size - 1));
  }

  lemma UncutOwnLines(text: string, start: int, size: nat, own: seq<string>, shown: seq<string>)
    requires size >= 1 && 1 <= start <= |SplitLines(text)| < start + size && (start == 1 || start <= |RawLines(text)|)
    requires own == SplitLines(LinesPage(text, start, size).content)
    requires shown == SplitLines(text)[start - 1..|SplitLines(text)|]
    ensures own == shown
  {
    hide *;
    UncutContent(text, start, size);
    LastOfLines(text);
    RestIsSlice(text, start - 1);
    DropIsSlice(SplitLines(text), start - 1);
  }

  lemma MinIs(a: int, b: int)
    ensures Min(a, b) == if a <= b then a else b
  {
  }

  lemma UncutContent(text: string, start: int, size: nat)
    requires 1 <= start && size >= 1 && (start == 1 || start <= |RawLines(text)|) && start + size > |SplitLines(text)|
    ensures LinesPage(text, start, size).content == Concat(RawLines(text)[start - 1..])
  {
  }

  lemma NoCRInSlice(lines: seq<string>, a: nat, b: nat, n: nat)
    requires a + n <= b <= |lines|
    ensures NoCRAtEnds(lines[a..b], 0, n) <==> NoCRAtEnds(lines, a, a + n)
  {
    hide EndsWithCR;
    var slice := lines[a..b];
    assert forall i :: 0 <= i < n ==> slice[i] == lines[a + i];
    assert forall i :: a <= i < a + n ==> lines[i] == slice[i - a];
  }

  /** An empty first line is dropped: three lines, the first one empty, and a target of one byte. */
  lemma EmptyStartIsDropped()
    ensures !Faithful("\na\nb", PageOf(ReadFor(Small("\na\nb"), 1, 3), 1, 3, Some(1)))
  {
    hide *;
    var text := "\na\nb";
    SmallIsText(text);
    ThreeLines();
    UncutContent(text, 1, 3);
    WholeOfRaw(text);
    ShortLengths();
    TargetedFaithfulIff(Small(text), 1, 3, 1);
  }

  lemma SmallIsText(text: string)
    ensures IsText(Small(text)) && Small(text).text == text && LineOf(Small(text), 1)
  {
  }

  lemma WholeOfRaw(text: string)
    ensures Concat(RawLines(text)[0..]) == text
  {
    ConcatRaw(text);
    assert RawLines(text)[0..] == RawLines(text);
  }

  lemma ThreeLines()
    ensures SplitLines("\na\nb") == ["", "a", "b"]
  {
    LinesOfAB();
    assert "\na\nb"[1..] == "a\nb";
  }

  lemma ShortLengths()
    ensures Utf8Length("\na\nb") > 1 && Utf8Length("a") == 1
  {
    assert "\na\nb"[1..][1..] == "\nb";
  }

  /** A page labelled with the lines it holds: it shows them, or it is the whole text from the first line. */
  ghost predicate RightlyLabelled(text: string, page: PageBody) {
    && 1 <= page.startLine <= page.endLine <= |SplitLines(text)|
    && (page.content == Join(LinesOn(text, page)) || (page.startLine == 1 && page.content == text))
  }

  /**
   A range the reader refuses, in a trusted workspace: the fallback hands on the whole text, so the page repeats
   the first lines. It is right only where the text has its first lines again.
   */
  lemma FallbackPageIff(file: File, start: int, size: nat)
    requires file.Stored? && !file.binary && !file.image && start >= 1 && size >= 1
    requires Read(file, LineRange(Some(start), Some(start + size))).Err?
    ensures file.size > MAX_FILE_READ_BYTES || (start > |RawLines(file.text)| && start > 1)
    ensures var lines := SplitLines(file.text);
            var k := Min(size, |lines|);
            var served := Serve(file, true, LineRange(Some(start), Some(start + size)));
            && served.Ok? && served.value.Text?
            && var page := WholeLinesPage(served.value.text, start, size);
               && page == PageBody(start, start - 1 + k, LinesPage(file.text, 1, size).content, start - 1 + k < |lines|)
               && (RightlyLabelled(file.text, page) <==>
                   start - 1 + k <= |lines| && lines[start - 1..start - 1 + k] == lines[..k])
  {
    hide *;
    RefusedIff(file, start, start + size);
    FallbackServes(file, start, size);
    FallbackPage(file.text, start, size);
    FallbackRightIff(file.text, start, size);
  }

  /**
   The same with a byte target: under it the page is the one without, and over it the page holds as many of the
   first lines as fit, and is right exactly where the text has them again and none of them is dropped.
   */
  lemma FallbackTargetedIff(file: File, start: int, size: nat, target: nat)
    requires file.Stored? && !file.binary && !file.image && start >= 1 && size >= 1
    requires Read(file, LineRange(Some(start), Some(start + size))).Err?
    ensures var lines := SplitLines(file.text);
            var whole := LinesPage(file.text, 1, size).content;
            var own := SplitLines(whole);
            var served := Serve(file, true, LineRange(Some(start), Some(start + size)));
            && served.Ok? && served.value.Text?
            && var page := PageOf(served.value.text, start, size, Some(target));
               if Utf8Length(whole) <= target then page == WholeLinesPage(served.value.text, start, size)
               else
                 var k := BestCount(own, target, 1);
                 && page == PageBody(start, start - 1 + k, Glue(own[..k]), start - 1 + k < |lines|)
                 && (RightlyLabelled(file.text, page) <==>
                     && start - 1 + k <= |lines|
                     && (k == 1 || own[0] != "")
                     && own[..k] == lines[start - 1..start - 1 + k])
  {
    hide *;
    var served := WholeText(file.text);
    FallbackServes(file, start, size);
    FallbackPage(file.text, start, size);
    if Utf8Length(LinesPage(file.text, 1, size).content) <= target {
      UntargetedPage(served, start, size, target);
    } else {
      PageOverTarget(served, start, size, target);
      WholeTextEnds(file.text);
      FallbackCutIff(file.text, start, size, target);
    }
  }

  lemma WholeTextEnds(text: string)
    ensures WholeText(text).endLine == |SplitLines(text)|
  {
    EmptyLines();
    hide SplitLines;
  }

  lemma FallbackCutIff(text: string, start: int, size: nat, target: nat)
    requires start >= 1 && size >= 1 && Utf8Length(LinesPage(text, 1, size).content) > target
    ensures var lines := SplitLines(text);
            var own := SplitLines(LinesPage(text, 1, size).content);
            var k := BestCount(own, target, 1);
            RightlyLabelled(text, PageBody(start, start - 1 + k, Glue(own[..k]), start - 1 + k < |lines|)) <==>
            start - 1 + k <= |lines| && (k == 1 || own[0] != "") && own[..k] == lines[start - 1..start - 1 + k]
  {
    hide *;
    var lines := SplitLines(text);
    var content := LinesPage(text, 1, size).content;
    var own := SplitLines(content);
    var k := BestCount(own, target, 1);
    RightMeans(text, start, k, Glue(own[..k]));
    if start - 1 + k <= |lines| {
      GluedAgainIff(text, content, start, k);
      if start == 1 && Glue(own[..k]) == text {
        WholeTextFits(text, size, target);
        assert own[..k] == lines[start - 1..start - 1 + k];
      }
    }
  }

  lemma RightMeans(text: string, start: int, k: nat, content: string)
    requires start >= 1 && k >= 1
    ensures var lines := SplitLines(text);
            RightlyLabelled(text, PageBody(start, start - 1 + k, content, start - 1 + k < |lines|)) <==>
            && start - 1 + k <= |lines|
            && (content == Join(lines[start - 1..start - 1 + k]) || (start == 1 && content == text))
  {
    hide SplitLines, Join;
  }

  lemma GluedAgainIff(text: string, content: string, start: int, k: nat)
    requires 1 <= k <= |SplitLines(content)| && 1 <= start && start - 1 + k <= |SplitLines(text)|
    ensures var own, shown := SplitLines(content), SplitLines(text)[start - 1..start - 1 + k];
            Glue(own[..k]) == Join(shown) <==> (k == 1 || own[0] != "") && own[..k] == shown
  {
    hide *;
    var own, lines := SplitLines(content), SplitLines(text);
    SplitLinesHaveNoLF(text);
    SplitLinesHaveNoLF(content);
    FreeSlice(lines, start - 1, start - 1 + k);
    FreeSlice(own, 0, k);
    var front := own[..k];
    assert own[0..k] == front && front[0] == own[0];
    GluedIsJoinedIff(front, lines[start - 1..start - 1 + k]);
  }

  /** A page over its target is the whole text only if that is one line. */
  lemma WholeTextFits(text: string, size: nat, target: nat)
    requires size >= 1 && Utf8Length(LinesPage(text, 1, size).content) > target
    requires var own := SplitLines(LinesPage(text, 1, size).content); Glue(own[..BestCount(own, target, 1)]) == text
    ensures SplitLines(LinesPage(text, 1, size).content) == SplitLines(text)
    ensures BestCount(SplitLines(LinesPage(text, 1, size).content), target, 1) == 1
  {
    var lines, content := SplitLines(text), LinesPage(text, 1, size).content;
    var own := SplitLines(content);
    var front := own[..BestCount(own, target, 1)];
    if size < |lines| {
      CutContent(text, 1, size);
      AsManyLines(text);
      SplitLinesHaveNoLF(content);
      SplitLinesHaveNoLF(text);
      FreeSlice(own, 0, |front|);
      FreeSlice(lines, 0, size);
      RejoinedLine(lines[0..size], 0);
      assert own[0..|front|] == front;
      hide *;
      GluedLines(front);
      assert false;
    } else {
      UncutContent(text, 1, size);
      WholeOfRaw(text);
    }
  }

  /** What the fallback hands on. */
  function WholeText(text: string): FileText {
    FileText(text, 1, if text == "" then 1 else |SplitLines(text)|)
  }

  lemma FallbackServes(file: File, start: int, size: nat)
    requires file.Stored? && !file.binary && !file.image
    requires Read(file, LineRange(Some(start), Some(start + size))).Err?
    ensures Serve(file, true, LineRange(Some(start), Some(start + size))) == Ok(Text(WholeText(file.text)))
  {
    hide Read, SplitLines;
  }

  lemma FallbackPage(text: string, start: int, size: nat)
    requires start >= 1 && size >= 1
    ensures var k := Min(size, |SplitLines(text)|);
            WholeLinesPage(WholeText(text), start, size) ==
            PageBody(start, start - 1 + k, LinesPage(text, 1, size).content, start - 1 + k < |SplitLines(text)|)
  {
    hide SplitLines, RawLines, Join, Concat, WholeLinesPage;
    var lines := SplitLines(text);
    EmptyLines();
    if CountLines(text) > size {
      CutPage(WholeText(text), start, size);
      assert lines[..size] == lines[1 - 1..1 - 1 + size];
    } else {
      UncutPage(WholeText(text), start, size);
      ConcatRaw(text);
      assert RawLines(text)[0..] == RawLines(text);
    }
  }

  lemma EmptyLines()
    ensures SplitLines("") == [""]
  {
  }

  lemma FallbackRightIff(text: string, start: int, size: nat)
    requires start >= 1 && size >= 1
    ensures var lines := SplitLines(text);
            var k := Min(size, |lines|);
            var page := PageBody(start, start - 1 + k, LinesPage(text, 1, size).content, start - 1 + k < |lines|);
            RightlyLabelled(text, page) <==>
            start - 1 + k <= |lines| && lines[start - 1..start - 1 + k] == lines[..k]
  {
    hide SplitLines, RawLines, JoinWith, Concat;
    var lines := SplitLines(text);
    if size < |lines| {
      SplitLinesHaveNoLF(text);
      FreeSlice(lines, 0, size);
      assert lines[0..size] == lines[..size];
      if start - 1 + size <= |lines| {
        var there := lines[start - 1..start - 1 + size];
        FreeSlice(lines, start - 1, start - 1 + size);
        hide Free;
        if Join(there) == Join(lines[..size]) {
          JoinInjective('\n', there, lines[..size]);
        }
      }
    } else {
      ConcatRaw(text);
      assert RawLines(text)[0..] == RawLines(text);
    }
  }

  /** Past the end of a file of two lines: the page says lines five and six, and holds the whole text. */
  lemma PastTheEnd()
    ensures var served := Serve(Small("a\nb"), true, LineRange(Some(5), Some(5 + 3)));
            && served.Ok? && served.value.Text?
            && WholeLinesPage(served.value.text, 5, 3) == PageBody(5, 6, "a\nb", false)
            && !RightlyLabelled("a\nb", WholeLinesPage(served.value.text, 5, 3))
  {
    LinesOfAB();
    FallbackPageIff(Small("a\nb"), 5, 3);
    hide SplitLines, RawLines;
    ConcatRaw("a\nb");
  }

  lemma LinesOfAB()
    ensures SplitLines("a\nb") == ["a", "b"] && |RawLines("a\nb")| == 2
  {
    assert "a\nb"[1..] == "\nb" && "\nb"[1..] == "b" && "b"[1..] == "";
    NoLFOneLine("b");
    RawOfPiece("b", "");
    assert "b" + "" == "b";
    assert RawLines("b") == ["b"];
    assert SplitLines("\nb") == ["", "b"];
    assert RawLines("\nb") == ["\n", "b"];
    assert "a" + "" == "a" && "a" + "\n" == "a\n";
  }
}
