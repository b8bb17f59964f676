/** The one-hunk line diff: how it is computed, printed and, by a reader of the printed text, applied back. */
module LineDiff {
  import opened Numbers
  import opened Wrappers
  import opened TextLines

  /** Lines [start, start + |removed|) of the old text become added. */
  datatype Hunk<T> = Hunk(start: nat, removed: seq<T>, added: seq<T>)

  const DEFAULT_MAX_LINES: nat := 160

  function Digits(n: nat): (r: string)
    ensures r != ""
  {
    var d := [('0' as int + n % 10) as char];
    if n < 10 then d else Digits(n / 10) + d
  }

  predicate IsDigit(c: char) {
    '0' <= c <= '9'
  }

  /** The number written at the front of s, continuing from acc. */
  function LeadingNat(s: string, acc: nat): nat {
    if s != "" && IsDigit(s[0]) then LeadingNat(s[1..], acc * 10 + (s[0] as int - '0' as int)) else acc
  }

  lemma {:induction false} DigitsRead(n: nat, t: string)
    ensures LeadingNat(Digits(n) + t, 0) == LeadingNat(t, n)
    ensures IsDigit(Digits(n)[0])
  {
    var d := [('0' as int + n % 10) as char];
    if n < 10 {
      assert (d + t)[1..] == t;
    } else {
      DigitsRead(n / 10, d + t);
      assert Digits(n) + t == Digits(n / 10) + (d + t);
      assert (d + t)[1..] == t;
    }
  }

  lemma {:induction false} DigitsHaveNoLF(n: nat)
    ensures '\n' !in Digits(n)
  {
    if n >= 10 {
      DigitsHaveNoLF(n / 10);
    }
  }

  /** Length of the longest common prefix, given that the first k elements already agree. */
  function PrefixLength<T(==)>(a: seq<T>, b: seq<T>, k: nat): (n: nat)
    requires k <= |a| && k <= |b|
    ensures k <= n <= |a| && n <= |b|
    decreases |a| - k
  {
    if k < |a| && k < |b| && a[k] == b[k] then PrefixLength(a, b, k + 1) else k
  }

  lemma {:induction false} PrefixIsLongest<T>(a: seq<T>, b: seq<T>, k: nat)
    requires k <= |a| && k <= |b|
    ensures var n := PrefixLength(a, b, k);
            a[k..n] == b[k..n] && (n < |a| && n < |b| ==> a[n] != b[n])
    decreases |a| - k
  {
    if k < |a| && k < |b| && a[k] == b[k] {
      PrefixIsLongest(a, b, k + 1);
      var n := PrefixLength(a, b, k + 1);
      assert a[k..n] == [a[k]] + a[k + 1..n] && b[k..n] == [b[k]] + b[k + 1..n];
    }
  }

  /** Length of the longest common suffix beyond the first `prefix` elements, given that the last k agree. */
  function SuffixLength<T(==)>(a: seq<T>, b: seq<T>, prefix: nat, k: nat): (n: nat)
    requires prefix + k <= |a| && prefix + k <= |b|
    ensures k <= n <= |a| - prefix && n <= |b| - prefix
    decreases |a| - k
  {
    if k < |a| - prefix && k < |b| - prefix && a[|a| - 1 - k] == b[|b| - 1 - k]
    then SuffixLength(a, b, prefix, k + 1)
    else k
  }

  lemma {:induction false} SuffixIsLongest<T>(a: seq<T>, b: seq<T>, prefix: nat, k: nat)
    requires prefix + k <= |a| && prefix + k <= |b|
    ensures var n := SuffixLength(a, b, prefix, k);
            && (forall j :: |a| - n <= j < |a| - k ==> a[j] == b[j + |b| - |a|])
            && (n < |a| - prefix && n < |b| - prefix ==> a[|a| - 1 - n] != b[|b| - 1 - n])
    decreases |a| - k
  {
    if k < |a| - prefix && k < |b| - prefix && a[|a| - 1 - k] == b[|b| - 1 - k] {
      SuffixIsLongest(a, b, prefix, k + 1);
    }
  }

  function HunkOf<T(==)>(a: seq<T>, b: seq<T>): Hunk<T> {
    var prefix := PrefixLength(a, b, 0);
    var suffix := SuffixLength(a, b, prefix, 0);
    Hunk(prefix, a[prefix..|a| - suffix], b[prefix..|b| - suffix])
  }

  /** The two loops of the diff. */
  method FindHunk<T(==)>(a: seq<T>, b: seq<T>) returns (h: Hunk<T>)
    ensures h == HunkOf(a, b)
  {
    var prefix := 0;
    while prefix < |a| && prefix < |b| && a[prefix] == b[prefix]
      invariant prefix <= |a| && prefix <= |b|
      invariant PrefixLength(a, b, 0) == PrefixLength(a, b, prefix)
    {
      prefix := prefix + 1;
    }
    var suffix := 0;
    while suffix < |a| - prefix && suffix < |b| - prefix && a[|a| - 1 - suffix] == b[|b| - 1 - suffix]
      invariant suffix <= |a| - prefix && suffix <= |b| - prefix
      invariant SuffixLength(a, b, prefix, 0) == SuffixLength(a, b, prefix, suffix)
    {
      suffix := suffix + 1;
    }
    h := Hunk(prefix, a[prefix..|a| - suffix], b[prefix..|b| - suffix]);
  }

  function ApplyHunk<T(==)>(h: Hunk<T>, lines: seq<T>): Option<seq<T>> {
    var end := h.start + |h.removed|;
    if end <= |lines| && lines[h.start..end] == h.removed then Some(lines[..h.start] + h.added + lines[end..]) else None
  }

  /** h replaces a stretch of a by a stretch of b, and around it the two agree. */
  ghost predicate Bridges<T>(h: Hunk<T>, a: seq<T>, b: seq<T>) {
    && h.start + |h.removed| <= |a| && h.start + |h.added| <= |b|
    && h.removed == a[h.start..h.start + |h.removed|] && h.added == b[h.start..h.start + |h.added|]
    && a[..h.start] == b[..h.start]
    && a[h.start + |h.removed|..] == b[h.start + |h.added|..]
  }

  lemma CutBridges<T>(a: seq<T>, b: seq<T>, prefix: nat, suffix: nat)
    requires prefix + suffix <= |a| && prefix + suffix <= |b|
    requires a[0..prefix] == b[0..prefix]
    requires forall j :: |a| - suffix <= j < |a| ==> a[j] == b[j + |b| - |a|]
    ensures Bridges(Hunk(prefix, a[prefix..|a| - suffix], b[prefix..|b| - suffix]), a, b)
  {
    assert a[..prefix] == a[0..prefix] && b[..prefix] == b[0..prefix];
    assert a[|a| - suffix..] == b[|b| - suffix..];
  }

  /** Outside the hunk the two texts agree. */
  lemma HunkShape<T>(a: seq<T>, b: seq<T>)
    ensures Bridges(HunkOf(a, b), a, b)
  {
    hide PrefixLength, SuffixLength, Bridges;
    var prefix := PrefixLength(a, b, 0);
    var suffix := SuffixLength(a, b, prefix, 0);
    PrefixIsLongest(a, b, 0);
    SuffixIsLongest(a, b, prefix, 0);
    CutBridges(a, b, prefix, suffix);
  }

  /** The hunk turns the old lines into the new ones. */
  lemma HunkApplies<T>(a: seq<T>, b: seq<T>)
    ensures ApplyHunk(HunkOf(a, b), a) == Some(b)
  {
    HunkShape(a, b);
    var h := HunkOf(a, b);
    hide HunkOf;
    assert b == b[..h.start] + b[h.start..h.start + |h.added|] + b[h.start + |h.added|..];
  }

  /** The removed and the added block share neither their first nor their last line. */
  lemma HunkIsTight<T>(a: seq<T>, b: seq<T>)
    ensures var h := HunkOf(a, b);
            h.removed != [] && h.added != [] ==>
              h.removed[0] != h.added[0] && h.removed[|h.removed| - 1] != h.added[|h.added| - 1]
  {
    PrefixIsLongest(a, b, 0);
    SuffixIsLongest(a, b, PrefixLength(a, b, 0), 0);
  }

  /** A hunk that lost lines off its end never applies to the same result. */
  lemma CutHunkMisapplies<T>(a: seq<T>, b: seq<T>, r: nat, p: nat)
    requires var h := HunkOf(a, b);
             r <= |h.removed| && p <= |h.added| && (r < |h.removed| ==> p == 0) && (r < |h.removed| || p < |h.added|)
    ensures var h := HunkOf(a, b); ApplyHunk(Hunk(h.start, h.removed[..r], h.added[..p]), a) != Some(b)
  {
    var h := HunkOf(a, b);
    HunkShape(a, b);
    HunkIsTight(a, b);
    hide HunkOf;
    if r < |h.removed| {
      CutInRemoved(h, a, b, r);
      assert h.added[..0] == [];
    } else {
      CutInAdded(h, a, b, p);
      assert h.removed[..r] == h.removed;
    }
  }

  lemma CutInAdded<T>(h: Hunk<T>, a: seq<T>, b: seq<T>, p: nat)
    requires Bridges(h, a, b) && p < |h.added|
    ensures ApplyHunk(Hunk(h.start, h.removed, h.added[..p]), a) != Some(b)
  {
    var end := h.start + |h.removed|;
    assert |a[end..]| == |b[h.start + |h.added|..]|;
    assert |a[..h.start] + h.added[..p] + a[end..]| < |b|;
  }

  lemma CutInRemoved<T>(h: Hunk<T>, a: seq<T>, b: seq<T>, r: nat)
    requires Bridges(h, a, b) && r < |h.removed|
    requires h.added != [] ==> h.removed[|h.removed| - 1] != h.added[|h.added| - 1]
    ensures ApplyHunk(Hunk(h.start, h.removed[..r], []), a) != Some(b)
  {
    var end := h.start + |h.removed|;
    var result := a[..h.start] + [] + a[h.start + r..];
    assert |a[end..]| == |b[h.start + |h.added|..]|;
    if |h.added| == |h.removed| - r {
      // as many removed lines were kept as added ones were lost, so the two last lines would have to agree
      var k := h.start + |h.added| - 1;
      assert result[k] == a[end - 1] == h.removed[|h.removed| - 1];
      assert b[k] == h.added[|h.added| - 1];
    } else {
      assert |result| != |b|;
    }
  }

  function Signed(sign: char, lines: seq<string>): (r: seq<string>)
    ensures |r| == |lines|
    ensures forall i :: 0 <= i < |lines| ==> r[i] == [sign] + lines[i]
  {
    seq(|lines|, i requires 0 <= i < |lines| => [sign] + lines[i])
  }

  function Header(start: nat, end: nat): string {
    "@@ lines " + Digits(start + 1) + "-" + Digits(end) + " @@"
  }

  function PrintedLines(h: Hunk<string>): seq<string> {
    [Header(h.start, h.start + Max(|h.removed|, |h.added|))] + (Signed('-', h.removed) + Signed('+', h.added))
  }

  function Take(lines: seq<string>, n: nat): seq<string> {
    if n < |lines| then lines[..n] else lines
  }

  /** The printed diff of two texts, cut after maxLines lines; equal texts have none. */
  function PrintedDiff(previous: string, current: string, maxLines: nat): Option<string> {
    if previous == current then None
    else Some(Join(Take(PrintedLines(HunkOf(SplitLines(previous), SplitLines(current))), maxLines)))
  }

  /** The diff as computed: the loops find the prefix and the suffix, the rest is printed. */
  method CreateLineDiff(previous: string, current: string, maxLines: nat) returns (r: Option<string>)
    ensures r == PrintedDiff(previous, current, maxLines)
  {
    if previous == current {
      return None;
    }
    var h := FindHunk(SplitLines(previous), SplitLines(current));
    r := Some(Join(Take(PrintedLines(h), maxLines)));
  }

  /** Reading lines that start with the sign, up to the first that does not. */
  function TakeSigned(lines: seq<string>, sign: char): (r: (seq<string>, seq<string>)) {
    if lines != [] && lines[0] != "" && lines[0][0] == sign then
      var rest := TakeSigned(lines[1..], sign);
      ([lines[0][1..]] + rest.0, rest.1)
    else ([], lines)
  }

  /** What a reader makes of a printed diff: the start line from the header, then '-' lines, then '+' lines. */
  function ParseHunk(text: string): Option<Hunk<string>> {
    var lines := SplitOn('\n', text);
    var intro := "@@ lines ";
    if |lines[0]| < |intro| || lines[0][..|intro|] != intro then None
    else
      var number := LeadingNat(lines[0][|intro|..], 0);
      var minus := TakeSigned(lines[1..], '-');
      var plus := TakeSigned(minus.1, '+');
      if number == 0 || plus.1 != [] then None else Some(Hunk(number - 1, minus.0, plus.0))
  }

  function ApplyPrinted(text: string, lines: seq<string>): Option<seq<string>> {
    var h := ParseHunk(text);
    if h.Some? then ApplyHunk(h.value, lines) else None
  }

  lemma {:induction false} TakeSignedAll(sign: char, lines: seq<string>, rest: seq<string>)
    requires rest == [] || rest[0] == "" || rest[0][0] != sign
    ensures TakeSigned(Signed(sign, lines) + rest, sign) == (lines, rest)
  {
    var all := Signed(sign, lines) + rest;
    if lines != [] {
      TakeSignedAll(sign, lines[1..], rest);
      assert all[1..] == Signed(sign, lines[1..]) + rest;
      assert all[0][1..] == lines[0];
      assert [lines[0]] + lines[1..] == lines;
    } else {
      assert all == rest;
    }
  }

  /**
   Under any header that starts at start, the body reads back as it was printed, whatever its lines contain besides
   line feeds.
   */
  lemma PrintedBodyReads(start: nat, end: nat, removed: seq<string>, added: seq<string>)
    requires Free('\n', removed) && Free('\n', added)
    ensures ParseHunk(Join([Header(start, end)] + (Signed('-', removed) + Signed('+', added)))) ==
            Some(Hunk(start, removed, added))
  {
    var lines := [Header(start, end)] + (Signed('-', removed) + Signed('+', added));
    var intro, tail := "@@ lines ", "-" + Digits(end) + " @@";
    PrintedHasNoLF(start, end, removed, added);
    SplitJoin('\n', lines);
    HeaderReads(start, end);
    TakeSignedAll('-', removed, Signed('+', added));
    TakeSignedAll('+', added, []);
    assert Signed('+', added) + [] == Signed('+', added);
    assert lines[1..] == Signed('-', removed) + Signed('+', added);
  }

  /** text is the decimal numeral of n. */
  ghost predicate Writes(text: string, n: nat) {
    && text != "" && (forall i :: 0 <= i < |text| ==> IsDigit(text[i]))
    && (text[0] == '0' ==> text == "0")
    && LeadingNat(text, 0) == n
  }

  lemma {:induction false} DigitsWrite(n: nat)
    ensures Writes(Digits(n), n)
    ensures n > 0 ==> Digits(n)[0] != '0'
  {
    DigitsRead(n, "");
    assert Digits(n) + "" == Digits(n);
    if n >= 10 {
      DigitsWrite(n / 10);
    }
  }

  /**
   What a printed hunk looks like: a header with the numbers of its first line and of its last line on the longer side,
   counted from one, and then each line behind its sign.
   */
  lemma PrintedLinesAre(h: Hunk<string>) returns (first: string, last: string)
    ensures Writes(first, h.start + 1)
    ensures Writes(last, if |h.added| > |h.removed| then h.start + |h.added| else h.start + |h.removed|)
    ensures var lines := PrintedLines(h);
            && |lines| == 1 + |h.removed| + |h.added|
            && lines[0] == "@@ lines " + first + "-" + last + " @@"
            && (forall i :: 0 <= i < |h.removed| ==> lines[1 + i] == "-" + h.removed[i])
            && (forall i :: 0 <= i < |h.added| ==> lines[1 + |h.removed| + i] == "+" + h.added[i])
  {
    var end := h.start + Max(|h.removed|, |h.added|);
    first, last := Digits(h.start + 1), Digits(end);
    DigitsWrite(h.start + 1);
    DigitsWrite(end);
    hide Digits, Writes;
  }

  lemma PrintedHasNoLF(start: nat, end: nat, removed: seq<string>, added: seq<string>)
    requires Free('\n', removed) && Free('\n', added)
    ensures Free('\n', [Header(start, end)] + (Signed('-', removed) + Signed('+', added)))
  {
    DigitsHaveNoLF(start + 1);
    DigitsHaveNoLF(end);
  }

  lemma HeaderReads(start: nat, end: nat)
    ensures var intro := "@@ lines ";
            |Header(start, end)| >= |intro| && Header(start, end)[..|intro|] == intro
            && LeadingNat(Header(start, end)[|intro|..], 0) == start + 1
  {
    var intro, tail := "@@ lines ", "-" + Digits(end) + " @@";
    assert Header(start, end) == intro + (Digits(start + 1) + tail);
    assert Header(start, end)[|intro|..] == Digits(start + 1) + tail;
    DigitsRead(start + 1, tail);
  }

  /** What is left of the printed lines once they are cut after maxLines. */
  lemma CutPrintedLines(h: Hunk<string>, maxLines: nat) returns (r: nat, p: nat)
    requires 1 <= maxLines < |PrintedLines(h)|
    ensures r <= |h.removed| && p <= |h.added| && (r < |h.removed| ==> p == 0) && (r < |h.removed| || p < |h.added|)
    ensures Take(PrintedLines(h), maxLines) ==
            [PrintedLines(h)[0]] + (Signed('-', h.removed[..r]) + Signed('+', h.added[..p]))
  {
    var n := maxLines - 1;
    r, p := if n < |h.removed| then n else |h.removed|, if n < |h.removed| then 0 else n - |h.removed|;
  }

  lemma PrintedApplies(start: nat, end: nat, removed: seq<string>, added: seq<string>, lines: seq<string>)
    requires Free('\n', removed) && Free('\n', added)
    ensures ApplyPrinted(Join([Header(start, end)] + (Signed('-', removed) + Signed('+', added))), lines)
         == ApplyHunk(Hunk(start, removed, added), lines)
  {
    PrintedBodyReads(start, end, removed, added);
  }

  /** Cut or not, the printed hunk applies to the old lines as the new ones exactly when nothing was cut off. */
  lemma PrintedHunkDecodesIffUncut(a: seq<string>, b: seq<string>, maxLines: nat)
    requires Free('\n', a) && Free('\n', b)
    ensures ApplyPrinted(Join(Take(PrintedLines(HunkOf(a, b)), maxLines)), a) == Some(b) <==>
              |PrintedLines(HunkOf(a, b))| <= maxLines
  {
    var h := HunkOf(a, b);
    HunkShape(a, b);
    var end := h.start + Max(|h.removed|, |h.added|);
    hide HunkOf, Header, ApplyHunk, ApplyPrinted;
    if |PrintedLines(h)| <= maxLines {
      PrintedApplies(h.start, end, h.removed, h.added, a);
      HunkApplies(a, b);
    } else if maxLines == 0 {
      NothingPrinted(a);
    } else {
      var r, p := CutPrintedLines(h, maxLines);
      PrintedApplies(h.start, end, h.removed[..r], h.added[..p], a);
      CutHunkMisapplies(a, b, r, p);
    }
  }

  lemma NothingPrinted(lines: seq<string>)
    ensures forall h: Hunk<string> :: Take(PrintedLines(h), 0) == []
    ensures ApplyPrinted(Join([]), lines) == None
  {
  }

  /**
   Reading the printed diff of two different texts and applying it to the old lines gives the new
   lines exactly when the diff was short enough not to be cut.
   */
  lemma DiffDecodesIffUncut(previous: string, current: string, maxLines: nat)
    requires previous != current
    ensures var d := PrintedDiff(previous, current, maxLines);
            d.Some? && (ApplyPrinted(d.value, SplitLines(previous)) == Some(SplitLines(current)) <==>
                          |PrintedLines(HunkOf(SplitLines(previous), SplitLines(current)))| <= maxLines)
  {
    SplitLinesHaveNoLF(previous);
    SplitLinesHaveNoLF(current);
    PrintedHunkDecodesIffUncut(SplitLines(previous), SplitLines(current), maxLines);
  }

  /** A printed diff is never longer than its limit. */
  lemma DiffFitsLimit(previous: string, current: string, maxLines: nat)
    requires previous != current && maxLines >= 1
    ensures var d := PrintedDiff(previous, current, maxLines);
            d.Some? && |SplitOn('\n', d.value)| <= maxLines
  {
    SplitLinesHaveNoLF(previous);
    SplitLinesHaveNoLF(current);
    var h := HunkOf(SplitLines(previous), SplitLines(current));
    HunkShape(SplitLines(previous), SplitLines(current));
    HunkLinesFree(SplitLines(previous), SplitLines(current));
    PrintedHasNoLF(h.start, h.start + Max(|h.removed|, |h.added|), h.removed, h.added);
    hide HunkOf, SplitLines, Join, Header, Signed;
    SplitJoin('\n', Take(PrintedLines(h), maxLines));
  }

  lemma HunkLinesFree(a: seq<string>, b: seq<string>)
    requires Free('\n', a) && Free('\n', b)
    ensures Free('\n', HunkOf(a, b).removed) && Free('\n', HunkOf(a, b).added)
  {
  }

  function LineFeeds(k: nat): (r: string)
    ensures |r| == k
  {
    if k == 0 then "" else "\n" + LineFeeds(k - 1)
  }

  lemma {:induction false} LineFeedsSplit(k: nat)
    ensures |SplitLines(LineFeeds(k))| == k + 1 && forall i :: 0 <= i <= k ==> SplitLines(LineFeeds(k))[i] == ""
  {
    if k > 0 {
      LineFeedsSplit(k - 1);
      assert LineFeeds(k)[1..] == LineFeeds(k - 1);
    }
  }

  /** A text that gains as many empty lines as a diff may have lines: the printed diff is cut, and does not decode. */
  lemma LongAdditionIsCut(k: nat)
    requires k >= DEFAULT_MAX_LINES
    ensures var d := PrintedDiff("", LineFeeds(k), DEFAULT_MAX_LINES);
            d.Some? && ApplyPrinted(d.value, SplitLines("")) != Some(SplitLines(LineFeeds(k)))
  {
    LineFeedsSplit(k);
    var a, b := SplitLines(""), SplitLines(LineFeeds(k));
    var h := HunkOf(a, b);
    assert |a| == 1;
    HunkShape(a, b);
    hide HunkOf, SplitLines, PrintedDiff, ApplyPrinted;
    DiffDecodesIffUncut("", LineFeeds(k), DEFAULT_MAX_LINES);
    assert |b| - |a| == |h.added| - |h.removed|;
    assert |PrintedLines(h)| == 1 + |h.removed| + |h.added| > DEFAULT_MAX_LINES;
  }

  /** What a receiver makes of a diff and its own text: the lines it gets, joined by line feeds. */
  function AppliedText(printed: string, a: string): Option<string> {
    var lines := ApplyPrinted(printed, SplitLines(a));
    if lines.Some? then Some(Join(lines.value)) else None
  }

  /** An uncut diff gives the new text back exactly when that has no carriage return before a line feed. */
  lemma DiffGivesTextIff(a: string, b: string, maxLines: nat)
    requires a != b && |PrintedLines(HunkOf(SplitLines(a), SplitLines(b)))| <= maxLines
    ensures var d := PrintedDiff(a, b, maxLines); d.Some? && (AppliedText(d.value, a) == Some(b) <==> NoCRLF(b))
  {
    DiffDecodesIffUncut(a, b, maxLines);
    JoinSplitIff(b);
    hide SplitLines, PrintedDiff, ApplyPrinted, PrintedLines, HunkOf, NoCRLF, Join;
  }

  /** Two lines whose line end changes: the diff is an empty hunk, and the receiver keeps its own text. */
  lemma CarriageReturnIsLost()
    ensures PrintedDiff("a\nb", "a\r\nb", DEFAULT_MAX_LINES).Some?
    ensures AppliedText(PrintedDiff("a\nb", "a\r\nb", DEFAULT_MAX_LINES).value, "a\nb") == Some("a\nb")
  {
    SameTwoLines();
    var lines := SplitLines("a\nb");
    assert "a\nb" != "a\r\nb" by {
      assert |"a\nb"| != |"a\r\nb"|;
    }
    DiffOfEqualLines("a\nb", "a\r\nb");
    JoinSplitIff("a\nb");
    hide SplitLines, PrintedDiff, ApplyPrinted, Join;
  }

  lemma SameTwoLines()
    ensures SplitLines("a\r\nb") == SplitLines("a\nb") && NoCRLF("a\nb")
  {
    assert "a\r\nb"[1..] == "\r\nb" && "\r\nb"[2..] == "b" && "a\nb"[1..] == "\nb" && "\nb"[1..] == "b";
    assert SplitLines("\r\nb") == [""] + SplitLines("b");
    assert SplitLines("\nb") == [""] + SplitLines("b");
  }

  lemma {:induction false} AllEqual<T>(a: seq<T>, k: nat)
    requires k <= |a|
    ensures PrefixLength(a, a, k) == |a|
    decreases |a| - k
  {
    if k < |a| {
      AllEqual(a, k + 1);
    }
  }

  lemma EmptyHunk(lines: seq<string>)
    ensures |PrintedLines(HunkOf(lines, lines))| == 1
  {
    AllEqual(lines, 0);
    hide PrefixLength, SuffixLength, Header;
    var h := HunkOf(lines, lines);
    assert h.removed == [] && h.added == [];
  }

  /** Texts with the same lines differ in an empty hunk. */
  lemma DiffOfEqualLines(a: string, b: string)
    requires a != b && SplitLines(a) == SplitLines(b)
    ensures PrintedDiff(a, b, DEFAULT_MAX_LINES).Some?
    ensures ApplyPrinted(PrintedDiff(a, b, DEFAULT_MAX_LINES).value, SplitLines(a)) == Some(SplitLines(a))
  {
    EmptyHunk(SplitLines(a));
    hide SplitLines, PrintedDiff, ApplyPrinted, HunkOf;
    DiffDecodesIffUncut(a, b, DEFAULT_MAX_LINES);
  }
}
