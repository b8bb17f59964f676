/** Text as lines: the three ways the repository cuts and glues lines, and how they fit together. */
module TextLines {
  import opened Sequences

  /** Splitting at every line feed, with an optional carriage return before it swallowed. Never empty. */
  function SplitLines(s: string): (lines: seq<string>)
    ensures |lines| > 0
  {
    if s == "" then [""]
    else if s[0] == '\n' then [""] + SplitLines(s[1..])
    else if s[0] == '\r' && |s| > 1 && s[1] == '\n' then [""] + SplitLines(s[2..])
    else
      Prefixed(s[0], SplitLines(s[1..]))
  }

  /** The lines with one more character in front of the first. */
  function Prefixed(c: char, lines: seq<string>): (r: seq<string>)
    requires |lines| > 0
    ensures |r| == |lines|
  {
    [[c] + lines[0]] + lines[1..]
  }

  function Init<T>(s: seq<T>): seq<T>
    requires s != []
  {
    s[..|s| - 1]
  }

  function Last<T>(s: seq<T>): T
    requires s != []
  {
    s[|s| - 1]
  }

  /** Splitting at every occurrence of one separator. Never empty. */
  function SplitOn(sep: char, s: string): (pieces: seq<string>)
    ensures |pieces| > 0
  {
    if s == "" then [""]
    else if s[0] == sep then [""] + SplitOn(sep, s[1..])
    else
      Prefixed(s[0], SplitOn(sep, s[1..]))
  }

  /** Splitting after every line feed, keeping it: the pieces are never empty, and the empty text has none. */
  function RawLines(s: string): (pieces: seq<string>)
    ensures s == "" <==> pieces == []
    ensures forall i :: 0 <= i < |pieces| ==> pieces[i] != ""
  {
    if s == "" then []
    else if s[0] == '\n' then ["\n"] + RawLines(s[1..])
    else
      var rest := RawLines(s[1..]);
      if rest == [] then [[s[0]]] else Prefixed(s[0], rest)
  }

  function JoinWith(sep: char, pieces: seq<string>): string {
    if pieces == [] then "" else if |pieces| == 1 then pieces[0] else pieces[0] + [sep] + JoinWith(sep, pieces[1..])
  }

  function Join(lines: seq<string>): string {
    JoinWith('\n', lines)
  }

  function Concat(pieces: seq<string>): string {
    if pieces == [] then "" else pieces[0] + Concat(pieces[1..])
  }

  /** A raw line without its line terminator. */
  function Strip(p: string): string {
    if |p| >= 2 && p[|p| - 2] == '\r' && p[|p| - 1] == '\n' then p[..|p| - 2]
    else if |p| >= 1 && p[|p| - 1] == '\n' then p[..|p| - 1]
    else p
  }

  function StripAll(pieces: seq<string>): (r: seq<string>)
    ensures |r| == |pieces|
    ensures forall i :: 0 <= i < |pieces| ==> r[i] == Strip(pieces[i])
  {
    seq(|pieces|, i requires 0 <= i < |pieces| => Strip(pieces[i]))
  }

  predicate EndsWithLF(s: string) {
    s != "" && s[|s| - 1] == '\n'
  }

  predicate Free(sep: char, pieces: seq<string>) {
    forall p :: p in pieces ==> sep !in p
  }

  lemma {:induction false} SplitLinesHaveNoLF(s: string)
    ensures Free('\n', SplitLines(s))
  {
    if s == "" {
    } else if s[0] == '\n' {
      SplitLinesHaveNoLF(s[1..]);
    } else if s[0] == '\r' && |s| > 1 && s[1] == '\n' {
      SplitLinesHaveNoLF(s[2..]);
    } else {
      SplitLinesHaveNoLF(s[1..]);
    }
  }

  lemma {:induction false} OneLine(s: string)
    ensures |SplitLines(s)| == 1 ==> SplitLines(s) == [s]
  {
    if s != "" && s[0] != '\n' && !(s[0] == '\r' && |s| > 1 && s[1] == '\n') {
      OneLine(s[1..]);
      assert s == [s[0]] + s[1..];
    }
  }

  /**
   Splitting in two steps: all lines of a but its last are final, and the last one, an open carriage
   return included, is only settled by what follows.
   */
  lemma {:induction false} SplitLinesConcat(a: string, b: string)
    ensures SplitLines(a + b) == Init(SplitLines(a)) + SplitLines(Last(SplitLines(a)) + b)
  {
    if |SplitLines(a)| == 1 {
      OneLine(a);
      assert Init(SplitLines(a)) == [];
    } else {
      hide *;
      var k := TerminatorLength(a);
      var rest := SplitLines(a[k..]);
      SplitLinesConcat(a[k..], b);
      assert (a + b)[k..] == a[k..] + b;
      SplitLinesStep(a);
      SplitLinesStep(a + b);
      FirstTerminator(a, b);
      var tail := SplitLines(Last(rest) + b);
      if a[k - 1] == '\n' {
        InitOfCons("", rest, tail);
      } else {
        InitOfPrefixed(a[0], rest, tail);
      }
    }
  }

  /** How many characters the first step of splitting consumes. */
  function TerminatorLength(s: string): (k: nat)
    requires s != ""
    ensures 1 <= k <= |s|
  {
    if s[0] == '\r' && |s| > 1 && s[1] == '\n' then 2 else 1
  }

  lemma SplitLinesStep(s: string)
    requires s != ""
    ensures var k := TerminatorLength(s);
            SplitLines(s) == if s[k - 1] == '\n' then [""] + SplitLines(s[k..]) else Prefixed(s[0], SplitLines(s[k..]))
  {
  }

  lemma FirstTerminator(a: string, b: string)
    requires |SplitLines(a)| > 1
    ensures a != "" && TerminatorLength(a + b) == TerminatorLength(a)
    ensures (a + b)[0] == a[0] && (a + b)[TerminatorLength(a) - 1] == a[TerminatorLength(a) - 1]
    ensures a[TerminatorLength(a) - 1] != '\n' ==> |SplitLines(a[TerminatorLength(a)..])| > 1
  {
  }

  lemma InitOfCons<T>(l: T, rest: seq<T>, tail: seq<T>)
    requires rest != []
    ensures [l] + (Init(rest) + tail) == Init([l] + rest) + tail
    ensures Last([l] + rest) == Last(rest)
  {
  }

  lemma InitOfPrefixed(c: char, rest: seq<string>, tail: seq<string>)
    requires |rest| > 1
    ensures Prefixed(c, Init(rest) + tail) == Init(Prefixed(c, rest)) + tail
    ensures Last(Prefixed(c, rest)) == Last(rest)
  {
  }

  lemma JoinPrefixed(sep: char, c: char, lines: seq<string>)
    requires lines != []
    ensures JoinWith(sep, Prefixed(c, lines)) == [c] + JoinWith(sep, lines)
  {
    if |lines| > 1 {
      assert Prefixed(c, lines)[1..] == lines[1..];
      Associative([c], lines[0], [sep] + JoinWith(sep, lines[1..]));
    }
  }

  predicate NoCRLF(s: string) {
    forall i :: 0 <= i < |s| - 1 ==> !(s[i] == '\r' && s[i + 1] == '\n')
  }

  /** Splitting and joining gives the text back exactly when no carriage return stands before a line feed. */
  lemma {:induction false} JoinSplitIff(s: string)
    ensures Join(SplitLines(s)) == s <==> NoCRLF(s)
  {
    if s != "" {
      if s[0] == '\r' && |s| > 1 && s[1] == '\n' {
        assert Join(SplitLines(s))[0] == '\n';
      } else {
        JoinSplitIff(s[1..]);
        FirstCRLF(s);
        assert s == [s[0]] + s[1..];
        if s[0] == '\n' {
          assert SplitLines(s)[1..] == SplitLines(s[1..]);
          SameTail("\n", Join(SplitLines(s[1..])), s[1..]);
        } else {
          JoinPrefixed('\n', s[0], SplitLines(s[1..]));
          SameTail([s[0]], Join(SplitLines(s[1..])), s[1..]);
        }
      }
    }
  }

  lemma SameTail<T>(a: seq<T>, b: seq<T>, c: seq<T>)
    ensures a + b == a + c <==> b == c
  {
    assert (a + b)[|a|..] == b && (a + c)[|a|..] == c;
  }

  lemma FirstCRLF(s: string)
    requires s != ""
    ensures NoCRLF(s) <==> NoCRLF(s[1..]) && !(s[0] == '\r' && |s| > 1 && s[1] == '\n')
  {
    var rest := s[1..];
    if NoCRLF(rest) && !(s[0] == '\r' && |s| > 1 && s[1] == '\n') {
      forall i | 0 <= i < |s| - 1
        ensures !(s[i] == '\r' && s[i + 1] == '\n')
      {
        if i > 0 {
          assert rest[i - 1] == s[i] && rest[i] == s[i + 1];
        }
      }
    }
    if NoCRLF(s) {
      forall i | 0 <= i < |rest| - 1
        ensures !(rest[i] == '\r' && rest[i + 1] == '\n')
      {
        assert rest[i] == s[i + 1] && rest[i + 1] == s[i + 2];
      }
    }
  }

  lemma {:induction false} SplitOnPrefix(sep: char, l: string, t: string)
    requires sep !in l
    ensures SplitOn(sep, l + t) == [l + SplitOn(sep, t)[0]] + SplitOn(sep, t)[1..]
  {
    if l == "" {
      assert l + t == t && l + SplitOn(sep, t)[0] == SplitOn(sep, t)[0];
    } else {
      SplitOnPrefix(sep, l[1..], t);
      assert (l + t)[1..] == l[1..] + t;
      PrefixedPrefix(l, SplitOn(sep, t));
    }
  }

  lemma PrefixedPrefix(l: string, lines: seq<string>)
    requires l != "" && lines != []
    ensures Prefixed(l[0], [l[1..] + lines[0]] + lines[1..]) == [l + lines[0]] + lines[1..]
  {
    assert [l[0]] + (l[1..] + lines[0]) == l + lines[0];
  }

  /** Pieces without the separator survive joining and splitting. */
  lemma {:induction false} SplitJoin(sep: char, pieces: seq<string>)
    requires pieces != [] && Free(sep, pieces)
    ensures SplitOn(sep, JoinWith(sep, pieces)) == pieces
  {
    var l := pieces[0];
    if |pieces| == 1 {
      SplitOnPrefix(sep, l, "");
      assert l + "" == l;
    } else {
      var t := [sep] + JoinWith(sep, pieces[1..]);
      SplitJoin(sep, pieces[1..]);
      assert t[1..] == JoinWith(sep, pieces[1..]);
      SplitOnPrefix(sep, l, t);
      assert l + [sep] + JoinWith(sep, pieces[1..]) == l + t;
      assert SplitOn(sep, t) == [""] + pieces[1..];
      assert l + "" == l;
      assert [l] + pieces[1..] == pieces;
    }
  }

  /** A separator splits cleanly. */
  lemma {:induction false} SplitOnConcat(sep: char, a: string, b: string)
    ensures SplitOn(sep, a + [sep] + b) == SplitOn(sep, a) + SplitOn(sep, b)
  {
    hide Prefixed;
    var whole := a + [sep] + b;
    if a == "" {
      assert whole[1..] == b;
    } else {
      SplitOnConcat(sep, a[1..], b);
      assert whole[1..] == a[1..] + [sep] + b && whole[0] == a[0];
      if a[0] != sep {
        PrefixedConcat(a[0], SplitOn(sep, a[1..]), SplitOn(sep, b));
      } else {
        assert [""] + (SplitOn(sep, a[1..]) + SplitOn(sep, b)) == ([""] + SplitOn(sep, a[1..])) + SplitOn(sep, b);
      }
    }
  }

  lemma PrefixedConcat(c: char, lines: seq<string>, more: seq<string>)
    requires lines != []
    ensures Prefixed(c, lines + more) == Prefixed(c, lines) + more
  {
  }

  lemma {:induction false} JoinConcat(sep: char, a: seq<string>, b: seq<string>)
    requires a != [] && b != []
    ensures JoinWith(sep, a + b) == JoinWith(sep, a) + [sep] + JoinWith(sep, b)
  {
    if |a| == 1 {
      assert (a + b)[1..] == b;
    } else {
      JoinConcat(sep, a[1..], b);
      assert (a + b)[1..] == a[1..] + b;
    }
  }

  /** The characters the platform trims and counts as blank. */
  predicate Space(c: char) {
    var n := c as int;
    || 0x09 <= n <= 0x0D || n == 0x20 || n == 0xA0 || n == 0x1680 || 0x2000 <= n <= 0x200A
    || n == 0x2028 || n == 0x2029 || n == 0x202F || n == 0x205F || n == 0x3000 || n == 0xFEFF
  }

  predicate Blank(s: string) {
    forall c :: c in s ==> Space(c)
  }

  predicate StartsWith(s: string, t: string) {
    |t| <= |s| && s[..|t|] == t
  }

  lemma {:induction false} ConcatRaw(s: string)
    ensures Concat(RawLines(s)) == s
  {
    if s == "" {
    } else if s[0] == '\n' {
      ConcatRaw(s[1..]);
      assert s == "\n" + s[1..];
    } else {
      ConcatRaw(s[1..]);
      var rest := RawLines(s[1..]);
      assert s == [s[0]] + s[1..];
    }
  }

  lemma {:induction false} ConcatAppend(a: seq<string>, b: seq<string>)
    ensures Concat(a + b) == Concat(a) + Concat(b)
  {
    if a == [] {
      assert a + b == b;
    } else {
      ConcatAppend(a[1..], b);
      assert (a + b)[1..] == a[1..] + b;
      Associative(a[0], Concat(a[1..]), Concat(b));
    }
  }

  /** A raw line ends in a line feed, or it is the last one. */
  predicate RawShape(pieces: seq<string>) {
    && (forall i :: 0 <= i < |pieces| ==> pieces[i] != "" && '\n' !in Init(pieces[i]))
    && (forall i :: 0 <= i < |pieces| - 1 ==> EndsWithLF(pieces[i]))
  }

  lemma {:induction false} RawLinesShape(s: string)
    ensures RawShape(RawLines(s))
  {
    if s == "" {
    } else if s[0] == '\n' {
      RawLinesShape(s[1..]);
    } else {
      RawLinesShape(s[1..]);
    }
  }

  /** Pieces of that shape are the raw lines of their concatenation. */
  lemma {:induction false} RawOfConcat(pieces: seq<string>)
    requires RawShape(pieces)
    ensures RawLines(Concat(pieces)) == pieces
  {
    if pieces != [] {
      assert forall i :: 0 <= i < |pieces[1..]| ==> pieces[1..][i] == pieces[i + 1];
      RawOfConcat(pieces[1..]);
      if |pieces| == 1 {
        assert pieces[1..] == [];
        assert pieces[0] + "" == pieces[0];
      }
      RawOfPiece(pieces[0], Concat(pieces[1..]));
    }
  }

  lemma {:induction false} RawOfPiece(p: string, rest: string)
    requires p != "" && '\n' !in Init(p) && (EndsWithLF(p) || rest == "")
    ensures RawLines(p + rest) == [p] + RawLines(rest)
  {
    assert (p + rest)[1..] == p[1..] + rest && (p + rest)[0] == p[0];
    if |p| == 1 {
      assert p == [p[0]] && p[1..] + rest == rest;
    } else {
      assert Init(p)[0] == p[0] && Init(p)[1..] == Init(p[1..]);
      RawOfPiece(p[1..], rest);
      assert p == [p[0]] + p[1..];
    }
  }

  lemma StripCons(c: char, p: string)
    requires p != "" && !(c == '\r' && p == "\n")
    ensures Strip([c] + p) == [c] + Strip(p)
  {
    var whole := [c] + p;
    assert whole[..|p|] == [c] + p[..|p| - 1];
    if |p| >= 2 {
      assert whole[..|p| - 1] == [c] + p[..|p| - 2];
    }
  }

  lemma StripLF()
    ensures Strip("\n") == "" && Strip("\r\n") == ""
  {
  }

  lemma {:induction false} LinesOfPiece(p: string, rest: string)
    requires EndsWithLF(p) && '\n' !in Init(p)
    ensures SplitLines(p + rest) == [Strip(p)] + SplitLines(rest)
  {
    hide Strip;
    StripLF();
    var whole := p + rest;
    if |p| == 1 {
      assert whole[1..] == rest && p == "\n";
    } else if |p| == 2 && p[0] == '\r' {
      assert whole[2..] == rest && p == "\r\n";
    } else {
      assert forall i :: 0 <= i < |p| - 1 ==> Init(p)[i] == p[i];
      assert Init(p)[1..] == Init(p[1..]);
      LinesOfPiece(p[1..], rest);
      assert whole[1..] == p[1..] + rest;
      assert p == [p[0]] + p[1..];
      StripCons(p[0], p[1..]);
      assert Prefixed(p[0], [Strip(p[1..])] + SplitLines(rest)) == [Strip(p)] + SplitLines(rest);
    }
  }

  lemma {:induction false} NoLFOneLine(s: string)
    requires '\n' !in s
    ensures SplitLines(s) == [s]
  {
    if s != "" {
      NoLFOneLine(s[1..]);
      assert s == [s[0]] + s[1..];
    }
  }

  function AfterLast(pieces: seq<string>): seq<string> {
    if pieces == [] || EndsWithLF(Last(pieces)) then [""] else []
  }

  lemma RawShapeTail(pieces: seq<string>)
    requires RawShape(pieces) && pieces != []
    ensures RawShape(pieces[1..]) && '\n' !in Init(pieces[0])
    ensures |pieces| > 1 ==> EndsWithLF(pieces[0]) && Last(pieces[1..]) == Last(pieces)
  {
    hide Init, EndsWithLF;
    var rest := pieces[1..];
    assert forall i :: 0 <= i < |rest| ==> rest[i] == pieces[i + 1];
  }

  lemma StripAllTail(pieces: seq<string>)
    requires pieces != []
    ensures StripAll(pieces) == [Strip(pieces[0])] + StripAll(pieces[1..])
  {
    hide Strip;
  }

  lemma LastPiece(p: string)
    requires p != "" && '\n' !in Init(p) && !EndsWithLF(p)
    ensures SplitLines(p) == [Strip(p)] && Strip(p) == p
  {
    assert p == Init(p) + [Last(p)];
    NoLFOneLine(p);
  }

  lemma AfterTail(pieces: seq<string>)
    requires pieces != [] && (|pieces| > 1 || EndsWithLF(pieces[0]))
    ensures AfterLast(pieces[1..]) == AfterLast(pieces)
  {
    hide EndsWithLF;
    if |pieces| > 1 {
      assert Last(pieces[1..]) == Last(pieces);
    }
  }

  lemma LinesOfLast(p: string)
    requires RawShape([p]) && !EndsWithLF(p)
    ensures SplitLines(Concat([p])) == StripAll([p]) + AfterLast([p])
  {
    assert [p][0] == p && p + "" == p;
    assert Concat([p]) == p;
    LastPiece(p);
  }

  /** The lines are the raw lines without their terminators, and an empty line after a final line feed. */
  lemma {:induction false} LinesOfPieces(pieces: seq<string>)
    requires RawShape(pieces)
    ensures SplitLines(Concat(pieces)) == StripAll(pieces) + AfterLast(pieces)
  {
    hide RawShape, StripAll, Strip, EndsWithLF, Last, Init, AfterLast;
    if pieces == [] {
      LinesOfNothing();
    } else {
      hide SplitLines;
      var p, rest := pieces[0], pieces[1..];
      if |pieces| == 1 && !EndsWithLF(p) {
        assert pieces == [p];
        LinesOfLast(p);
      } else {
        RawShapeTail(pieces);
        StripAllTail(pieces);
        LinesOfPieces(rest);
        LinesOfPiece(p, Concat(rest));
        AfterTail(pieces);
        Associative([Strip(p)], StripAll(rest), AfterLast(rest));
      }
    }
  }

  lemma LinesOfNothing()
    ensures SplitLines(Concat([])) == StripAll([]) + AfterLast([])
  {
  }

  /** Cutting at line feeds and cutting at line ends give equally many lines. */
  lemma {:induction false} AsManyLines(s: string)
    ensures |SplitLines(s)| == |SplitOn('\n', s)|
  {
    if s == "" {
    } else if s[0] == '\r' && |s| > 1 && s[1] == '\n' {
      AsManyLines(s[2..]);
      assert s[1..][0] == '\n' && s[1..][1..] == s[2..];
    } else {
      AsManyLines(s[1..]);
    }
  }

  /** Joining is injective on lines without the separator. */
  lemma JoinInjective(sep: char, a: seq<string>, b: seq<string>)
    requires a != [] && b != [] && Free(sep, a) && Free(sep, b) && JoinWith(sep, a) == JoinWith(sep, b)
    ensures a == b
  {
    SplitJoin(sep, a);
    SplitJoin(sep, b);
  }

  predicate EndsWithCR(s: string) {
    s != "" && Last(s) == '\r'
  }

  /**
   Lines joined by line feeds are split again into the same lines, unless one before the last ends in a carriage
   return.
   */
  lemma {:induction false} RejoinIff(lines: seq<string>)
    requires lines != [] && Free('\n', lines)
    ensures SplitLines(Join(lines)) == lines <==> NoInnerCR(lines)
  {
    hide EndsWithCR, Strip;
    if |lines| == 1 {
      NoLFOneLine(lines[0]);
      assert lines == [lines[0]];
    } else {
      var p, rest := lines[0] + "\n", lines[1..];
      RejoinIff(rest);
      assert Init(p) == lines[0];
      LinesOfPiece(p, Join(rest));
      var again := SplitLines(Join(rest));
      StripOneCR(lines[0]);
      assert lines == [lines[0]] + rest;
      assert ([Strip(p)] + again)[1..] == again;
      FirstOrLater(lines);
    }
  }

  /** What joining and splitting makes of each line. */
  lemma {:induction false} RejoinedLine(lines: seq<string>, i: nat)
    requires lines != [] && Free('\n', lines) && i < |lines|
    ensures |SplitLines(Join(lines))| == |lines|
    ensures SplitLines(Join(lines))[i] == if i == |lines| - 1 then lines[i] else Strip(lines[i] + "\n")
  {
    hide Strip;
    if |lines| == 1 {
      NoLFOneLine(lines[0]);
      assert lines == [lines[0]];
    } else {
      var p, rest := lines[0] + "\n", lines[1..];
      RejoinedLine(rest, if i == 0 then 0 else i - 1);
      assert Init(p) == lines[0];
      LinesOfPiece(p, Join(rest));
    }
  }

  predicate NoInnerCR(lines: seq<string>) {
    forall i :: 0 <= i < |lines| - 1 ==> !EndsWithCR(lines[i])
  }

  lemma FirstOrLater(lines: seq<string>)
    requires |lines| > 1
    ensures NoInnerCR(lines) <==> !EndsWithCR(lines[0]) && NoInnerCR(lines[1..])
  {
    hide EndsWithCR;
    assert forall i :: 1 <= i < |lines| ==> lines[i] == lines[1..][i - 1];
  }

  lemma StripOneCR(line: string)
    ensures Strip(line + "\n") == line <==> !EndsWithCR(line)
  {
  }

  predicate EndsWithCRLF(s: string) {
    |s| >= 2 && s[|s| - 2] == '\r' && s[|s| - 1] == '\n'
  }

  /** Raw lines hold a carriage return before a line feed exactly when one of them ends so. */
  lemma {:induction false} NoCRLFIff(pieces: seq<string>)
    requires RawShape(pieces)
    ensures NoCRLF(Concat(pieces)) <==> forall i :: 0 <= i < |pieces| ==> !EndsWithCRLF(pieces[i])
  {
    hide EndsWithCRLF, Init, EndsWithLF, NoCRLF, RawShape;
    if pieces == [] {
      NoCRLFInNothing();
    } else {
      var p, rest := pieces[0], pieces[1..];
      RawShapeTail(pieces);
      RawShapeHead(pieces);
      NoCRLFIff(rest);
      CRLFOfPiece(p, Concat(rest));
      assert forall i :: 0 <= i < |rest| ==> rest[i] == pieces[i + 1];
    }
  }

  lemma NoCRLFInNothing()
    ensures NoCRLF("")
  {
  }

  lemma RawShapeHead(pieces: seq<string>)
    requires RawShape(pieces) && pieces != []
    ensures pieces[0] != "" && '\n' !in Init(pieces[0])
    ensures EndsWithLF(pieces[0]) || Concat(pieces[1..]) == ""
  {
  }

  lemma CRLFOfPiece(p: string, rest: string)
    requires p != "" && '\n' !in Init(p) && (EndsWithLF(p) || rest == "")
    ensures NoCRLF(p + rest) <==> !EndsWithCRLF(p) && NoCRLF(rest)
  {
    var whole := p + rest;
    assert forall i :: 0 <= i < |p| - 1 ==> Init(p)[i] == p[i];
    assert forall i :: 0 <= i < |rest| ==> rest[i] == whole[|p| + i];
    if NoCRLF(whole) {
      assert |p| >= 2 ==> whole[|p| - 2] == p[|p| - 2] && whole[|p| - 1] == p[|p| - 1];
      forall i | 0 <= i < |rest| - 1
        ensures !(rest[i] == '\r' && rest[i + 1] == '\n')
      {
        assert rest[i] == whole[|p| + i] && rest[i + 1] == whole[|p| + i + 1];
      }
    }
    if !EndsWithCRLF(p) && NoCRLF(rest) {
      forall i | 0 <= i < |whole| - 1
        ensures !(whole[i] == '\r' && whole[i + 1] == '\n')
      {
        if i >= |p| {
          assert rest[i - |p|] == whole[i] && rest[i - |p| + 1] == whole[i + 1];
        }
      }
    }
  }

  /** Every line with a line feed after it. */
  function Terminated(lines: seq<string>): string {
    if lines == [] then "" else lines[0] + "\n" + Terminated(lines[1..])
  }

  lemma {:induction false} TerminatedJoin(lines: seq<string>)
    requires lines != []
    ensures Terminated(lines) == Join(lines) + "\n"
  {
    if |lines| == 1 {
      assert lines[1..] == [] && lines[0] + "\n" + "" == lines[0] + "\n";
    } else {
      TerminatedJoin(lines[1..]);
      Associative(lines[0] + "\n", Join(lines[1..]), "\n");
    }
  }

  lemma {:induction false} TerminatedAppend(a: seq<string>, b: seq<string>)
    ensures Terminated(a + b) == Terminated(a) + Terminated(b)
  {
    if a == [] {
      assert a + b == b;
    } else {
      TerminatedAppend(a[1..], b);
      assert (a + b)[1..] == a[1..] + b;
      Associative(a[0] + "\n", Terminated(a[1..]), Terminated(b));
    }
  }

  /**
   Lines cut free of their terminators and given line feeds are the raw lines again unless one of those ends in CRLF.
   */
  lemma TerminatedIff(pieces: seq<string>)
    requires RawShape(pieces) && (pieces != [] ==> EndsWithLF(Last(pieces)))
    ensures Terminated(StripAll(pieces)) == Concat(pieces) <==> NoCRLF(Concat(pieces))
  {
    hide Strip, EndsWithLF, NoCRLF, Terminated;
    if pieces == [] {
      NothingTerminated();
    } else {
      LinesOfPieces(pieces);
      JoinSplitIff(Concat(pieces));
      JoinConcat('\n', StripAll(pieces), [""]);
      JoinWithNothingAfter(StripAll(pieces));
    }
  }

  lemma NothingTerminated()
    ensures Terminated(StripAll([])) == Concat([]) && NoCRLF(Concat([]))
  {
  }

  lemma JoinWithNothingAfter(lines: seq<string>)
    requires lines != []
    ensures Terminated(lines) == JoinWith('\n', lines) + ['\n'] + JoinWith('\n', [""])
  {
    TerminatedJoin(lines);
    assert Join(lines) + ['\n'] + "" == Join(lines) + "\n";
  }
}
