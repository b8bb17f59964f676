/** Tailing a log file in bounded reads: what comes out does not depend on where the reads were cut. */
module LogTail {
  import opened Sequences
  import opened TextLines
  import opened Utf8

  const MAX_FIRST_BYTES: nat := 256 * 1024
  const MAX_CHUNK_BYTES: nat := 64 * 1024

  function TrimStart(s: string): string {
    if s != "" && Space(s[0]) then TrimStart(s[1..]) else s
  }

  function TrimEnd(s: string): string {
    if s != "" && Space(Last(s)) then TrimEnd(Init(s)) else s
  }

  function Trim(s: string): string {
    TrimEnd(TrimStart(s))
  }

  /** Trimming takes blanks off both ends and nothing else. */
  lemma {:induction false} TrimStartTakesBlanks(s: string) returns (blanks: string)
    ensures s == blanks + TrimStart(s) && Blank(blanks)
    ensures TrimStart(s) != "" ==> !Space(TrimStart(s)[0])
  {
    if s != "" && Space(s[0]) {
      var rest := TrimStartTakesBlanks(s[1..]);
      blanks := [s[0]] + rest;
    } else {
      blanks := "";
    }
  }

  lemma {:induction false} TrimEndTakesBlanks(s: string) returns (blanks: string)
    ensures s == TrimEnd(s) + blanks && Blank(blanks)
    ensures TrimEnd(s) != "" ==> !Space(Last(TrimEnd(s)))
  {
    if s != "" && Space(Last(s)) {
      var rest := TrimEndTakesBlanks(Init(s));
      blanks := rest + [Last(s)];
    } else {
      blanks := "";
    }
  }

  lemma TrimTakesBlanks(s: string) returns (before: string, after: string)
    ensures s == before + Trim(s) + after && Blank(before) && Blank(after)
    ensures Trim(s) != "" ==> !Space(Trim(s)[0]) && !Space(Last(Trim(s)))
    ensures Trim(s) == "" <==> Blank(s)
  {
    before := TrimStartTakesBlanks(s);
    after := TrimEndTakesBlanks(TrimStart(s));
    if Trim(s) != "" {
      assert Trim(s)[0] == TrimStart(s)[0];
      assert s[|before|] == Trim(s)[0];
    }
  }

  /** The records in these lines: trimmed, and none for a blank line. */
  function Records(lines: seq<string>): seq<string> {
    if lines == [] then []
    else if Trim(lines[0]) == "" then Records(lines[1..])
    else [Trim(lines[0])] + Records(lines[1..])
  }

  lemma {:induction false} RecordsConcat(a: seq<string>, b: seq<string>)
    ensures Records(a + b) == Records(a) + Records(b)
  {
    if a == [] {
      Neutral(b);
      Neutral(Records(b));
    } else {
      RecordsConcat(a[1..], b);
      DropOfSum(a, b, 1);
      assert (a + b)[0] == a[0];
    }
  }

  /** r is the line without the blanks at both its ends. */
  ghost predicate Stripped(line: string, r: string) {
    && r != "" && !Space(r[0]) && !Space(Last(r))
    && exists before, after :: Blank(before) && Blank(after) && line == before + r + after
  }

  /**
   The records of these lines, said without trimming: the positions are those of the lines that are not blank, in
   order, and the record at each is that line without the blanks at its ends.
   */
  ghost predicate AreRecords(positions: seq<nat>, lines: seq<string>, records: seq<string>) {
    && |records| == |positions|
    && (forall i, j :: 0 <= i < j < |positions| ==> positions[i] < positions[j])
    && (forall i :: 0 <= i < |lines| ==> (i in positions <==> !Blank(lines[i])))
    && (forall k :: 0 <= k < |positions| ==> positions[k] < |lines| && Stripped(lines[positions[k]], records[k]))
  }

  ghost predicate ExactRecords(lines: seq<string>, records: seq<string>) {
    exists positions :: AreRecords(positions, lines, records)
  }

  lemma TrimStrips(line: string)
    ensures Trim(line) == "" <==> Blank(line)
    ensures Trim(line) != "" ==> Stripped(line, Trim(line))
  {
    var before, after := TrimTakesBlanks(line);
    hide Trim, Blank, Space;
  }

  lemma OneMoreLine(lines: seq<string>, line: string)
    ensures Records(lines + [line]) == Records(lines) + if Trim(line) == "" then [] else [Trim(line)]
  {
    hide Trim;
    RecordsConcat(lines, [line]);
    assert [line][0] == line && [line][1..] == [];
    assert Records([]) == [];
  }

  /** There is a record for each line that is not blank, and no other. */
  lemma {:induction false} RecordsAre(lines: seq<string>) returns (positions: seq<nat>)
    ensures AreRecords(positions, lines, Records(lines))
  {
    if lines == [] {
      positions := [];
    } else {
      hide Trim, Blank, Stripped;
      var front, line := Init(lines), Last(lines);
      positions := RecordsAre(front);
      assert lines == front + [line];
      OneMoreLine(front, line);
      TrimStrips(line);
      hide Records, AreRecords;
      Neutral(Records(front));
      if Trim(line) == "" {
        BlankLast(positions, front, line, Records(front));
      } else {
        RecordLast(positions, front, line, Records(front), Trim(line));
        positions := positions + [|front|];
      }
    }
  }

  lemma BlankLast(positions: seq<nat>, lines: seq<string>, line: string, records: seq<string>)
    requires AreRecords(positions, lines, records) && Blank(line)
    ensures AreRecords(positions, lines + [line], records)
  {
    hide Blank, Stripped;
  }

  lemma RecordLast(positions: seq<nat>, lines: seq<string>, line: string, records: seq<string>, record: string)
    requires AreRecords(positions, lines, records) && !Blank(line) && Stripped(line, record)
    ensures AreRecords(positions + [|lines|], lines + [line], records + [record])
  {
    hide Blank, Stripped;
  }

  /** The complete lines of a text: all but what follows the last line end. */
  function CompleteLines(text: string): seq<string> {
    Init(SplitLines(text))
  }

  /** The state of one tailed file. */
  datatype Tail = Tail(open: bool, offset: nat, pending: string, held: seq<Byte>)

  const CLOSED := Tail(false, 0, "", [])

  function FirstOffset(size: nat): nat {
    if size > MAX_FIRST_BYTES then size - MAX_FIRST_BYTES else 0
  }

  /** Opening a file that was not open, and starting over on one that has shrunk. */
  function Ready(t: Tail, size: nat): (r: Tail)
    ensures r.open && r.offset <= size
  {
    var current := if t.open then t else Tail(true, FirstOffset(size), "", []);
    if size < current.offset then Tail(true, 0, "", []) else current
  }

  /** Reading goes on where it was: the file is open and has not shrunk. */
  predicate Continues(t: Tail, size: nat) {
    t.open && t.offset <= size
  }

  /** The bytes are decoded after those held back, the text is cut after what was pending. */
  function Feed(t: Tail, chunk: seq<Byte>): (Tail, seq<string>) {
    var (decoded, rest) := DecodeComplete(t.held + chunk);
    var lines := SplitLines(t.pending + decoded);
    (t.(offset := t.offset + |chunk|, pending := Last(lines), held := rest), Records(Init(lines)))
  }

  /** As many bytes as one read may return. */
  predicate CanRead(t: Tail, size: nat, got: nat) {
    got <= size - Ready(t, size).offset && got <= MAX_CHUNK_BYTES
  }

  function Poll(t: Tail, contents: seq<Byte>, got: nat): (Tail, seq<string>)
    requires CanRead(t, |contents|, got)
  {
    var ready := Ready(t, |contents|);
    if got == 0 then (ready, []) else Feed(ready, contents[ready.offset..ready.offset + got])
  }

  /**
   The records so far are those of the complete lines of the bytes consumed so far; the last line is pending, and
   the bytes of a cut character are held back.
   */
  ghost predicate Follows(t: Tail, consumed: seq<Byte>, emitted: seq<string>) {
    var (text, rest) := DecodeComplete(consumed);
    && t.held == rest
    && t.pending == Last(SplitLines(text))
    && emitted == Records(CompleteLines(text))
  }

  lemma FreshFollows(t: Tail)
    requires t.pending == "" && t.held == []
    ensures Follows(t, [], [])
  {
    DecodeNothing();
  }

  /** Cutting the text in two does not change its complete lines. */
  lemma CompleteLinesInSteps(a: string, b: string)
    ensures var lines := SplitLines(Last(SplitLines(a)) + b);
            && CompleteLines(a + b) == CompleteLines(a) + Init(lines)
            && Last(SplitLines(a + b)) == Last(lines)
  {
    SplitLinesConcat(a, b);
    InitOfSum(Init(SplitLines(a)), SplitLines(Last(SplitLines(a)) + b));
  }

  lemma InitOfSum<T>(a: seq<T>, b: seq<T>)
    requires b != []
    ensures Init(a + b) == a + Init(b) && Last(a + b) == Last(b)
  {
  }

  lemma FeedMoves(t: Tail, chunk: seq<Byte>)
    ensures Feed(t, chunk).0.offset == t.offset + |chunk| && Feed(t, chunk).0.open == t.open
  {
  }

  lemma FeedFollows(t: Tail, consumed: seq<Byte>, emitted: seq<string>, chunk: seq<Byte>)
    requires Follows(t, consumed, emitted)
    ensures Follows(Feed(t, chunk).0, consumed + chunk, emitted + Feed(t, chunk).1)
  {
    var (text, rest) := DecodeComplete(consumed);
    var (more, held) := DecodeComplete(rest + chunk);
    DecodeInSteps(consumed, chunk);
    CompleteLinesInSteps(text, more);
    RecordsConcat(CompleteLines(text), Init(SplitLines(t.pending + more)));
    hide DecodeComplete, SplitLines, Records, Init, CompleteLines;
  }

  lemma FollowsExactly(t: Tail, consumed: seq<Byte>, emitted: seq<string>)
    requires Follows(t, consumed, emitted)
    ensures ExactRecords(CompleteLines(DecodeComplete(consumed).0), emitted)
  {
    var positions := RecordsAre(CompleteLines(DecodeComplete(consumed).0));
  }

  class TailedFile {
    var open: bool
    var offset: nat
    var pending: string
    var held: seq<Byte>
    /** What has been read, and put out, since the file was last opened or started over. */
    ghost var consumed: seq<Byte>
    ghost var emitted: seq<string>

    ghost function Now(): Tail
      reads this
    {
      Tail(open, offset, pending, held)
    }

    ghost predicate Valid()
      reads this
    {
      Follows(Now(), consumed, emitted)
    }

    constructor ()
      ensures Valid() && Now() == CLOSED && consumed == [] && emitted == []
    {
      open, offset, pending, held := false, 0, "", [];
      consumed, emitted := [], [];
      new;
      FreshFollows(Now());
    }

    /** The file is missing, or reading it failed: what was pending is dropped, and the next turn opens it afresh. */
    method Close()
      requires Valid()
      modifies this
      ensures Valid() && Now() == CLOSED && consumed == [] && emitted == []
    {
      open, offset, pending, held := false, 0, "", [];
      consumed, emitted := [], [];
      FreshFollows(Now());
    }

    /** One turn of the tail timer: what the file holds now, and how many bytes the read returns. */
    method Sync(contents: seq<Byte>, got: nat) returns (records: seq<string>)
      requires Valid()
      requires CanRead(Now(), |contents|, got)
      modifies this
      ensures Valid()
      ensures (Now(), records) == Poll(old(Now()), contents, got)
      ensures Ready(old(Now()), |contents|).offset <= offset <= |contents|
      ensures consumed == (if Continues(old(Now()), |contents|) then old(consumed) else [])
                          + contents[Ready(old(Now()), |contents|).offset..offset]
      ensures emitted == (if Continues(old(Now()), |contents|) then old(emitted) else []) + records
      ensures ExactRecords(CompleteLines(DecodeComplete(consumed).0), emitted)
    {
      hide Feed, Follows, Ready, ExactRecords, DecodeComplete, CompleteLines;
      MakeReady(|contents|);
      if |contents| == offset || got == 0 {
        Neutral(consumed);
        Neutral(emitted);
        FollowsExactly(Now(), consumed, emitted);
        return [];
      }
      FeedMoves(Now(), contents[offset..offset + got]);
      records := Consume(contents[offset..offset + got]);
      FollowsExactly(Now(), consumed, emitted);
    }

    method MakeReady(size: nat)
      requires Valid()
      modifies this
      ensures Valid() && Now() == Ready(old(Now()), size)
      ensures consumed == if Continues(old(Now()), size) then old(consumed) else []
      ensures emitted == if Continues(old(Now()), size) then old(emitted) else []
      // a file first seen is read from its last 256 KiB, one that shrank from its start
      ensures open
      ensures !old(open) ==> offset == (if size > 262144 then size - 262144 else 0) && pending == "" && held == []
      ensures old(open) && old(offset) <= size ==>
                offset == old(offset) && pending == old(pending) && held == old(held)
      ensures old(open) && size < old(offset) ==> offset == 0 && pending == "" && held == []
    {
      hide Follows;
      if !open {
        StartAt(if size > MAX_FIRST_BYTES then size - MAX_FIRST_BYTES else 0);
      }
      if size < offset {
        StartAt(0);
      }
    }

    method StartAt(at: nat)
      modifies this
      ensures Valid() && Now() == Tail(true, at, "", [])
      ensures consumed == [] && emitted == []
    {
      open := true;
      offset := at;
      pending := "";
      held := [];
      consumed, emitted := [], [];
      FreshFollows(Now());
    }

    method Consume(chunk: seq<Byte>) returns (records: seq<string>)
      requires Valid()
      modifies this
      ensures Valid()
      ensures (Now(), records) == Feed(old(Now()), chunk)
      ensures consumed == old(consumed) + chunk && emitted == old(emitted) + records
    {
      hide Follows, Records, SplitLines, DecodeComplete, ExactRecords;
      FeedFollows(Now(), consumed, emitted, chunk);
      offset := offset + |chunk|;
      var (decoded, rest) := DecodeComplete(held + chunk);
      held := rest;
      var lines := SplitLines(pending + decoded);
      pending := Last(lines);
      records := RecordsOf(Init(lines));
      consumed, emitted := consumed + chunk, emitted + records;
    }

    static method RecordsOf(lines: seq<string>) returns (records: seq<string>)
      ensures records == Records(lines)
      ensures ExactRecords(lines, records)
    {
      ghost var positions := RecordsAre(lines);
      records := [];
      for i := 0 to |lines|
        invariant records == Records(lines[..i])
      {
        RecordsConcat(lines[..i], [lines[i]]);
        assert lines[..i + 1] == lines[..i] + [lines[i]] && [lines[i]][1..] == [];
        var trimmed := Trim(lines[i]);
        if |trimmed| == 0 {
          continue;
        }
        records := records + [trimmed];
      }
      assert lines[..|lines|] == lines;
    }
  }

  /** One turn of the tail timer: what the file holds then, and how many bytes the read returns. */
  datatype Turn = Turn(contents: seq<Byte>, got: nat)

  /** The file only grows from turn to turn, and no read returns more than it may. */
  ghost predicate Growing(t: Tail, turns: seq<Turn>)
    decreases |turns|
  {
    turns != [] ==>
      && CanRead(t, |turns[0].contents|, turns[0].got)
      && (|turns| > 1 ==> turns[0].contents <= turns[1].contents)
      && Growing(Poll(t, turns[0].contents, turns[0].got).0, turns[1..])
  }

  function Run(t: Tail, turns: seq<Turn>): (Tail, seq<string>)
    requires Growing(t, turns)
    decreases |turns|
  {
    if turns == [] then (t, [])
    else
      var (next, records) := Poll(t, turns[0].contents, turns[0].got);
      var (end, more) := Run(next, turns[1..]);
      (end, records + more)
  }

  /** Turns on a file that is open and grows: what has been consumed is the file from where reading began. */
  lemma {:induction false} RunFollows(t: Tail, base: nat, before: seq<Byte>, emitted: seq<string>, turns: seq<Turn>)
    requires turns != [] && Growing(t, turns) && t.open
    requires base <= t.offset <= |before| && before <= turns[0].contents
    requires Follows(t, before[base..t.offset], emitted)
    ensures var (end, records) := Run(t, turns);
            var contents := Last(turns).contents;
            && base <= end.offset <= |contents|
            && Follows(end, contents[base..end.offset], emitted + records)
    decreases |turns|
  {
    var contents, got := turns[0].contents, turns[0].got;
    var (next, records) := Poll(t, contents, got);
    assert contents[base..t.offset] == before[base..t.offset];
    PollFollows(t, base, contents, emitted, got);
    hide Follows, Poll, CanRead;
    if |turns| == 1 {
      assert Run(next, turns[1..]) == (next, []);
      Neutral(records);
    } else {
      assert Last(turns[1..]) == Last(turns);
      RunFollows(next, base, contents, emitted + records, turns[1..]);
      Associative(emitted, records, Run(next, turns[1..]).1);
    }
  }

  lemma PollFollows(t: Tail, base: nat, contents: seq<Byte>, emitted: seq<string>, got: nat)
    requires t.open && base <= t.offset <= |contents| && CanRead(t, |contents|, got)
    requires Follows(t, contents[base..t.offset], emitted)
    ensures var (next, records) := Poll(t, contents, got);
            && next.open && t.offset <= next.offset <= |contents|
            && Follows(next, contents[base..next.offset], emitted + records)
  {
    hide Feed, Follows;
    if got == 0 {
      Neutral(emitted);
    } else {
      var chunk := contents[t.offset..t.offset + got];
      FeedFollows(t, contents[base..t.offset], emitted, chunk);
      FeedMoves(t, chunk);
      JoinSlices(contents, base, t.offset, t.offset + got);
    }
  }

  lemma JoinSlices<T>(s: seq<T>, a: nat, b: nat, c: nat)
    requires a <= b <= c <= |s|
    ensures s[a..b] + s[b..c] == s[a..c]
  {
  }

  /**
   However an append-only file is read, the records put out are those of the complete lines of what has been
   consumed, decoded from where the file was first opened; nothing else about the reads matters.
   */
  lemma ReadsDoNotMatter(turns: seq<Turn>)
    requires turns != [] && Growing(CLOSED, turns)
    ensures var (end, records) := Run(CLOSED, turns);
            var base := FirstOffset(|turns[0].contents|);
            var contents := Last(turns).contents;
            && base <= end.offset <= |contents|
            && records == Records(CompleteLines(DecodeComplete(contents[base..end.offset]).0))
            && ExactRecords(CompleteLines(DecodeComplete(contents[base..end.offset]).0), records)
  {
    var contents := turns[0].contents;
    var base := FirstOffset(|contents|);
    var start := Tail(true, base, "", []);
    FreshFollows(start);
    assert contents[base..base] == [];
    SameFirstTurn(turns, start);
    RunFollows(start, base, contents, [], turns);
    Neutral(Run(start, turns).1);
    var read := Last(turns).contents[base..Run(start, turns).0.offset];
    hide Records, CompleteLines, Run;
    var positions := RecordsAre(CompleteLines(DecodeComplete(read).0));
  }

  lemma SameFirstTurn(turns: seq<Turn>, start: Tail)
    requires turns != [] && Growing(CLOSED, turns)
    requires start == Tail(true, FirstOffset(|turns[0].contents|), "", [])
    ensures Growing(start, turns) && Run(start, turns) == Run(CLOSED, turns)
  {
    assert Ready(start, |turns[0].contents|) == Ready(CLOSED, |turns[0].contents|);
    hide Feed;
    assert Poll(start, turns[0].contents, turns[0].got) == Poll(CLOSED, turns[0].contents, turns[0].got);
  }

  /**
   The log of a text that fits the first read window: there is a record for each complete line, among the characters
   consumed so far, that is not blank, which is that line without the blanks at its ends; all complete lines of the
   text are among them once everything is consumed, even when a character or a line end was cut.
   */
  lemma TextLog(s: string, turns: seq<Turn>) returns (k: nat, positions: seq<nat>)
    requires turns != [] && Growing(CLOSED, turns)
    requires Last(turns).contents == Encode(s) && |turns[0].contents| <= MAX_FIRST_BYTES
    ensures var (end, records) := Run(CLOSED, turns);
            && k <= |s|
            && Utf8Length(s[..k]) <= end.offset
            && (k < |s| ==> end.offset < Utf8Length(s[..k]) + CharSize(s[k]))
            && AreRecords(positions, CompleteLines(s[..k]), records)
            && (end.offset == |Encode(s)| ==> s[..k] == s)
  {
    ReadsDoNotMatter(turns);
    var (end, records) := Run(CLOSED, turns);
    var offset := end.offset;
    assert Encode(s)[0..offset] == Encode(s)[..offset];
    k := DecodePrefix(s, offset);
    EncodeLength(s);
    if offset == |Encode(s)| {
      AllConsumed(s, k, offset);
      assert s[..k] == s;
    }
    hide Records;
    positions := RecordsAre(CompleteLines(s[..k]));
  }

  lemma AllConsumed(s: string, k: nat, offset: nat)
    requires k <= |s| && offset == Utf8Length(s)
    requires k < |s| ==> offset < Utf8Length(s[..k]) + CharSize(s[k])
    ensures k == |s|
  {
    Utf8Concat(s[..k], s[k..]);
    assert s[..k] + s[k..] == s;
  }
}
