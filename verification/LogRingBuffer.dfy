/**
 The bounded log of one process: whole chunks, consecutive numbers, and a byte counter that decides what is dropped.
 */
module LogRingBuffer {
  import opened Wrappers
  import opened Sequences
  import opened TextLines
  import opened Utf8

  const MAX_PROCESS_LOG_BYTES: nat := 10 * 1024 * 1024

  datatype Stream = Stdout | Stderr

  datatype Entry = Entry(sequence: nat, stream: Stream, text: string)

  datatype Chunk = Chunk(stream: Stream, text: string)

  /** The fields of the buffer. */
  datatype Ring = Ring(entries: seq<Entry>, sequence: nat, bytes: int, evicted: bool)

  const EMPTY := Ring([], 0, 0, false)

  datatype LogQuery = LogQuery(sinceSequence: Option<int>, tailLines: Option<int>)

  datatype LogResult = LogResult(entries: seq<Entry>, truncated: bool, nextSequence: nat)

  function TotalBytes(entries: seq<Entry>): nat {
    if entries == [] then 0 else Utf8Length(entries[0].text) + TotalBytes(entries[1..])
  }

  /** The last bytes of a buffer; minus zero is zero, so a bound of zero keeps everything. */
  function LastBytes(bytes: seq<Byte>, n: nat): seq<Byte>
    requires n <= |bytes|
  {
    if n == 0 then bytes else bytes[|bytes| - n..]
  }

  /** What is stored of a chunk: all of it, or, when it is over the bound by itself, its decoded last bytes. */
  function Stored(text: string, maxBytes: nat): string {
    if Utf8Length(text) > maxBytes then EncodeLength(text); Decode(LastBytes(Encode(text), maxBytes)) else text
  }

  /** Dropping from the front until the new size fits. */
  function Evicted(entries: seq<Entry>, bytes: int, size: nat, maxBytes: nat): seq<Entry> {
    if entries != [] && bytes + size > maxBytes
    then Evicted(entries[1..], bytes - Utf8Length(entries[0].text), size, maxBytes)
    else entries
  }

  function WithChunk(ring: Ring, chunk: Chunk, maxBytes: nat): Ring {
    var text := Stored(chunk.text, maxBytes);
    var kept := Evicted(ring.entries, ring.bytes, Utf8Length(text), maxBytes);
    Ring(
      kept + [Entry(ring.sequence + 1, chunk.stream, text)],
      ring.sequence + 1,
      ring.bytes - (TotalBytes(ring.entries) - TotalBytes(kept)) + Utf8Length(text),
      ring.evicted || Utf8Length(chunk.text) > maxBytes || |kept| < |ring.entries|)
  }

  function WithChunks(ring: Ring, chunks: seq<Chunk>, maxBytes: nat): Ring {
    if chunks == [] then ring else WithChunk(WithChunks(ring, Init(chunks), maxBytes), Last(chunks), maxBytes)
  }

  /** The buffer after these chunks, from empty. */
  lemma NoChunksYet(ring: Ring, chunks: seq<Chunk>, maxBytes: nat)
    ensures WithChunks(ring, chunks[..0], maxBytes) == ring
  {
  }

  lemma OneMoreChunk(ring: Ring, chunks: seq<Chunk>, i: nat, maxBytes: nat)
    requires i < |chunks|
    ensures WithChunks(ring, chunks[..i + 1], maxBytes) ==
            WithChunk(WithChunks(ring, chunks[..i], maxBytes), chunks[i], maxBytes)
  {
    hide WithChunk;
    assert Init(chunks[..i + 1]) == chunks[..i] && Last(chunks[..i + 1]) == chunks[i];
  }

  function AfterChunks(chunks: seq<Chunk>, maxBytes: nat): Ring {
    WithChunks(EMPTY, chunks, maxBytes)
  }

  /** Every entry there ever was, numbered from one. */
  function History(chunks: seq<Chunk>, maxBytes: nat): (r: seq<Entry>)
    ensures |r| == |chunks|
  {
    seq(|chunks|, i requires 0 <= i < |chunks| => Entry(i + 1, chunks[i].stream, Stored(chunks[i].text, maxBytes)))
  }

  /** What a read returns: the entries after the cursor, then the last so many of them. */
  function TailOf<T>(entries: seq<T>, tail: int): seq<T> {
    if tail == 0 then entries
    else if tail > 0 then if tail >= |entries| then entries else entries[|entries| - tail..]
    else if -tail >= |entries| then [] else entries[-tail..]
  }

  function Answer(ring: Ring, query: LogQuery): LogResult {
    var since := if query.sinceSequence.Some? then query.sinceSequence.value else 0;
    var newer := Filter((e: Entry) => e.sequence > since, ring.entries);
    LogResult(
      if query.tailLines.Some? then TailOf(newer, query.tailLines.value) else newer,
      ring.evicted || (ring.entries != [] && query.sinceSequence.Some? && ring.entries[0].sequence > since + 1),
      ring.sequence)
  }

  class LogRingBuffer {
    const maxBytes: nat
    var entries: seq<Entry>
    var sequence: nat
    var bytes: int
    var evicted: bool

    ghost function Now(): Ring
      reads this
    {
      Ring(entries, sequence, bytes, evicted)
    }

    constructor (maxBytes: nat)
      ensures Now() == EMPTY && this.maxBytes == maxBytes
    {
      this.maxBytes := maxBytes;
      entries, sequence, bytes, evicted := [], 0, 0, false;
    }

    method Append(stream: Stream, text: string)
      modifies this
      ensures Now() == WithChunks(old(Now()), ChunksOf(stream, text), maxBytes)
    {
      var pieces := RawLines(text);
      ghost var chunks := ChunksOf(stream, text);
      hide WithChunk, WithChunks;
      NoChunksYet(old(Now()), chunks, maxBytes);
      for i := 0 to |pieces|
        invariant Now() == WithChunks(old(Now()), chunks[..i], maxBytes)
      {
        OneMoreChunk(old(Now()), chunks, i, maxBytes);
        AppendChunk(stream, pieces[i]);
      }
      assert chunks[..|pieces|] == chunks;
    }

    method AppendChunk(stream: Stream, input: string)
      modifies this
      ensures Now() == WithChunk(old(Now()), Chunk(stream, input), maxBytes)
    {
      hide Decode, Encode, LastBytes, Utf8Length;
      var text := input;
      var size := Utf8Length(text);
      if size > maxBytes {
        EncodeLength(text);
        text := Decode(LastBytes(Encode(text), maxBytes));
        size := Utf8Length(text);
        evicted := true;
      }
      ghost var before := Now();
      assert text == Stored(input, maxBytes);
      while |entries| > 0 && bytes + size > maxBytes
        invariant Evicted(entries, bytes, size, maxBytes) == Evicted(before.entries, before.bytes, size, maxBytes)
        invariant |entries| <= |before.entries|
        invariant bytes - TotalBytes(entries) == before.bytes - TotalBytes(before.entries)
        invariant evicted <==> before.evicted || |entries| < |before.entries|
        invariant sequence == before.sequence
        decreases |entries|
      {
        var removed := entries[0];
        entries := entries[1..];
        bytes := bytes - Utf8Length(removed.text);
        evicted := true;
      }
      sequence := sequence + 1;
      entries := entries + [Entry(sequence, stream, text)];
      bytes := bytes + size;
    }

    method Read(query: LogQuery) returns (r: LogResult)
      ensures r == Answer(Now(), query)
    {
      var since := if query.sinceSequence.Some? then query.sinceSequence.value else 0;
      var newer := Filter((e: Entry) => e.sequence > since, entries);
      if query.tailLines.Some? {
        newer := TailOf(newer, query.tailLines.value);
      }
      var cursorMissedEvicted := |entries| > 0 && query.sinceSequence.Some? && entries[0].sequence > since + 1;
      return LogResult(newer, evicted || cursorMissedEvicted, sequence);
    }
  }

  /** A text arrives as its lines, each with its line feed. */
  function ChunksOf(stream: Stream, text: string): (r: seq<Chunk>)
    ensures |r| == |RawLines(text)|
    ensures forall i :: 0 <= i < |r| ==> r[i] == Chunk(stream, RawLines(text)[i])
  {
    seq(|RawLines(text)|, i requires 0 <= i < |RawLines(text)| => Chunk(stream, RawLines(text)[i]))
  }

  /** Appending in two goes is appending all at once. */
  lemma {:induction false} WithMoreChunks(ring: Ring, a: seq<Chunk>, b: seq<Chunk>, maxBytes: nat)
    ensures WithChunks(ring, a + b, maxBytes) == WithChunks(WithChunks(ring, a, maxBytes), b, maxBytes)
    decreases |b|
  {
    if b == [] {
      Neutral(a);
    } else {
      WithMoreChunks(ring, a, Init(b), maxBytes);
      assert Init(a + b) == a + Init(b) && Last(a + b) == Last(b);
    }
  }

  predicate IsSuffix<T(==)>(s: seq<T>, t: seq<T>) {
    |s| <= |t| && s == t[|t| - |s|..]
  }

  /** One entry more than is kept would not fit together with so many new bytes. */
  ghost predicate KeepsAllThatFits(kept: seq<Entry>, entries: seq<Entry>, size: nat, maxBytes: nat) {
    |kept| < |entries| ==> TotalBytes(entries[|entries| - |kept| - 1..]) + size > maxBytes
  }

  /** Dropping from the front stops at the first suffix that fits. */
  lemma {:induction false} EvictedIsFirstFit(entries: seq<Entry>, bytes: int, size: nat, maxBytes: nat)
    requires bytes == TotalBytes(entries)
    ensures var kept := Evicted(entries, bytes, size, maxBytes);
            && IsSuffix(kept, entries)
            && (kept == [] || TotalBytes(kept) + size <= maxBytes)
            && KeepsAllThatFits(kept, entries, size, maxBytes)
    decreases |entries|
  {
    if entries != [] && bytes + size > maxBytes {
      var rest := entries[1..];
      EvictedIsFirstFit(rest, bytes - Utf8Length(entries[0].text), size, maxBytes);
      var kept := Evicted(entries, bytes, size, maxBytes);
      assert rest[|rest| - |kept|..] == entries[|entries| - |kept|..];
      if |kept| < |rest| {
        assert rest[|rest| - |kept| - 1..] == entries[|entries| - |kept| - 1..];
      } else {
        assert entries[0..] == entries;
      }
    }
  }

  lemma {:induction false} TotalAppend(a: seq<Entry>, b: seq<Entry>)
    ensures TotalBytes(a + b) == TotalBytes(a) + TotalBytes(b)
  {
    if a == [] {
      Neutral(b);
    } else {
      TotalAppend(a[1..], b);
      DropOfSum(a, b, 1);
    }
  }

  /** The last bytes of a text decode to what is left of the cut character, and the whole characters after it. */
  lemma {:induction false} DecodedTail(s: string, p: nat) returns (k: nat, i: nat)
    requires p <= Utf8Length(s)
    ensures |Encode(s)| == Utf8Length(s)
    ensures k <= 3 && i <= |s|
    ensures Utf8Length(s) - p == k + Utf8Length(s[i..])
    ensures k > 0 ==> i > 0 && k < CharSize(s[i - 1])
    ensures Decode(Encode(s)[p..]) == Replacements(k) + s[i..]
  {
    EncodeLength(s);
    if p == 0 {
      k, i := 0, 0;
      WholeDecoded(s);
    } else if p < CharSize(s[0]) {
      k, i := CharSize(s[0]) - p, 1;
      CutDecoded(s, p);
    } else {
      hide Decode, Encode, EncodeChar, Replacements, CharSize;
      k, i := DecodedTail(s[1..], p - CharSize(s[0]));
      LaterTail(s, p, i);
      i := i + 1;
    }
  }

  /** A tail that starts after the first character is a tail of the rest. */
  lemma LaterTail(s: string, p: nat, i: nat)
    requires s != "" && CharSize(s[0]) <= p <= Utf8Length(s) && i < |s|
    ensures |Encode(s)| == Utf8Length(s) && |Encode(s[1..])| == Utf8Length(s[1..]) == Utf8Length(s) - CharSize(s[0])
    ensures Encode(s)[p..] == Encode(s[1..])[p - CharSize(s[0])..]
    ensures s[1..][i..] == s[i + 1..]
    ensures i > 0 ==> s[1..][i - 1] == s[i]
  {
    EncodeLength(s);
    EncodeLength(s[1..]);
  }

  function Replacements(k: nat): (r: string)
    ensures |r| == k
  {
    if k == 0 then "" else [REPLACEMENT] + Replacements(k - 1)
  }

  lemma WholeDecoded(s: string)
    ensures Decode(Encode(s)[0..]) == Replacements(0) + s[0..]
  {
    DecodeEncoded(s, []);
    Neutral(Encode(s));
    Neutral(s);
    DecodeNothing();
    assert Encode(s)[0..] == Encode(s) && s[0..] == s;
  }

  /** Following bytes alone are ill-formed, one by one. */
  lemma {:induction false} StrayTails(tails: seq<Byte>, rest: seq<Byte>)
    requires forall i :: 0 <= i < |tails| ==> IsTail(tails[i])
    ensures DecodeComplete(tails + rest) == (Replacements(|tails|) + DecodeComplete(rest).0, DecodeComplete(rest).1)
  {
    if tails == [] {
      Neutral(rest);
      Neutral(DecodeComplete(rest).0);
    } else {
      StrayTails(tails[1..], rest);
      DropOfSum(tails, rest, 1);
      DecodeHead(tails + rest);
      Associative([REPLACEMENT], Replacements(|tails| - 1), DecodeComplete(rest).0);
    }
  }

  lemma CutDecoded(s: string, p: nat)
    requires s != "" && 0 < p < CharSize(s[0])
    ensures |Encode(s)| == Utf8Length(s)
    ensures Decode(Encode(s)[p..]) == Replacements(CharSize(s[0]) - p) + s[1..]
  {
    EncodeLength(s);
    CutChar(s[0], p);
    var first, rest := EncodeChar(s[0]), Encode(s[1..]);
    EncodeStep(s);
    CharTails(s[0], p);
    hide Encode, EncodeChar, DecodeComplete, Utf8Length, CharSize;
    DropOfSum(first, rest, p);
    StrayTails(first[p..], rest);
    DecodeEncoded(s[1..], []);
    Neutral(rest);
    Neutral(s[1..]);
    DecodeNothing();
  }

  /** All bytes of a character but the first go on with it. */
  lemma CharTails(c: char, p: nat)
    requires 0 < p < CharSize(c)
    ensures |EncodeChar(c)| == CharSize(c)
    ensures forall i :: 0 <= i < |EncodeChar(c)[p..]| ==> IsTail(EncodeChar(c)[p..][i])
  {
  }

  lemma {:induction false} ReplacementsLength(k: nat, s: string)
    ensures Utf8Length(Replacements(k) + s) == 3 * k + Utf8Length(s)
  {
    if k == 0 {
      Neutral(s);
    } else {
      ReplacementsLength(k - 1, s);
      Associative([REPLACEMENT], Replacements(k - 1), s);
      var longer := Replacements(k) + s;
      assert longer[0] == REPLACEMENT && longer[1..] == Replacements(k - 1) + s;
    }
  }

  /**
   A chunk over the bound is stored as its last bytes, decoded: what is left of a cut character becomes up to three
   replacement characters, so that what is stored may be up to six bytes over the bound.
   */
  lemma OversizeStored(text: string, maxBytes: nat) returns (k: nat, i: nat)
    requires Utf8Length(text) > maxBytes > 0
    ensures k <= 3 && i <= |text|
    ensures Stored(text, maxBytes) == Replacements(k) + text[i..]
    ensures maxBytes == k + Utf8Length(text[i..])
    ensures Utf8Length(Stored(text, maxBytes)) == maxBytes + 2 * k
  {
    EncodeLength(text);
    k, i := DecodedTail(text, Utf8Length(text) - maxBytes);
    ReplacementsLength(k, text[i..]);
  }

  predicate Oversize(c: Chunk, maxBytes: nat) {
    Utf8Length(c.text) > maxBytes
  }

  predicate AnyOversize(chunks: seq<Chunk>, maxBytes: nat) {
    exists i :: 0 <= i < |chunks| && Oversize(chunks[i], maxBytes)
  }

  /**
   The numbers run on, the kept entries are an end of the history, and the flag is up exactly when something was
   dropped or cut.
   */
  ghost predicate Ends(ring: Ring, chunks: seq<Chunk>, maxBytes: nat) {
    && ring.sequence == |chunks|
    && IsSuffix(ring.entries, History(chunks, maxBytes))
    && (chunks != [] ==> ring.entries != [])
    && Flagged(ring, chunks, maxBytes)
  }

  ghost predicate Flagged(ring: Ring, chunks: seq<Chunk>, maxBytes: nat) {
    ring.evicted <==> |ring.entries| < |chunks| || AnyOversize(chunks, maxBytes)
  }

  /** The counter is the size of the kept entries, and these are the most that fit, or the last one alone. */
  ghost predicate Sized(entries: seq<Entry>, bytes: int, history: seq<Entry>, maxBytes: nat) {
    && bytes == TotalBytes(entries)
    && (bytes <= maxBytes || |entries| == 1)
    && KeepsAllThatFits(entries, history, 0, maxBytes)
  }

  lemma SuffixOfSuffix<T>(a: seq<T>, b: seq<T>, c: seq<T>, x: T)
    requires IsSuffix(a, b) && IsSuffix(b, c)
    ensures IsSuffix(a + [x], c + [x])
  {
    assert c[|c| - |a|..] == b[|b| - |a|..];
    assert (c + [x])[|c| - |a|..] == c[|c| - |a|..] + [x];
  }

  lemma HistoryOneMore(chunks: seq<Chunk>, c: Chunk, maxBytes: nat)
    ensures History(chunks + [c], maxBytes) ==
            History(chunks, maxBytes) + [Entry(|chunks| + 1, c.stream, Stored(c.text, maxBytes))]
    ensures AnyOversize(chunks + [c], maxBytes) <==> AnyOversize(chunks, maxBytes) || Oversize(c, maxBytes)
  {
    hide Stored, Oversize;
    var longer := chunks + [c];
    assert forall i :: 0 <= i < |chunks| ==> longer[i] == chunks[i];
    if AnyOversize(chunks, maxBytes) {
      var i :| 0 <= i < |chunks| && Oversize(chunks[i], maxBytes);
      assert Oversize(longer[i], maxBytes);
    }
    if Oversize(c, maxBytes) {
      assert Oversize(longer[|chunks|], maxBytes);
    }
  }

  /** What has been dropped would still not fit. */
  lemma StillTooMuch(history: seq<Entry>, entries: seq<Entry>, kept: seq<Entry>, e: Entry, maxBytes: nat)
    requires IsSuffix(entries, history) && IsSuffix(kept, entries)
    requires KeepsAllThatFits(entries, history, 0, maxBytes)
    requires KeepsAllThatFits(kept, entries, Utf8Length(e.text), maxBytes)
    ensures KeepsAllThatFits(kept + [e], history + [e], 0, maxBytes)
  {
    if |kept| < |history| {
      var n := |kept| + 1;
      DropOfSum(history, [e], |history| - n);
      TotalAppend(history[|history| - n..], [e]);
      hide TotalBytes, Utf8Length;
      if |kept| < |entries| {
        SameEnd(entries, history, n);
      }
    }
  }

  lemma SameEnd<T>(s: seq<T>, t: seq<T>, n: nat)
    requires IsSuffix(s, t) && n <= |s|
    ensures s[|s| - n..] == t[|t| - n..]
  {
  }

  lemma TotalOfOne(e: Entry)
    ensures TotalBytes([e]) == Utf8Length(e.text)
  {
    assert [e][1..] == [];
  }

  lemma WithChunkKeeps(ring: Ring, c: Chunk, maxBytes: nat, text: string, kept: seq<Entry>)
    requires ring.bytes == TotalBytes(ring.entries) && text == Stored(c.text, maxBytes)
    requires kept == Evicted(ring.entries, ring.bytes, Utf8Length(text), maxBytes)
    ensures var e := Entry(ring.sequence + 1, c.stream, text);
            WithChunk(ring, c, maxBytes) ==
            Ring(kept + [e], ring.sequence + 1, TotalBytes(kept + [e]),
                 ring.evicted || Oversize(c, maxBytes) || |kept| < |ring.entries|)
  {
    hide Stored, Evicted, Utf8Length, TotalBytes;
    var e := Entry(ring.sequence + 1, c.stream, text);
    TotalAppend(kept, [e]);
    TotalOfOne(e);
  }

  lemma SuffixLength<T>(a: seq<T>, b: seq<T>)
    requires IsSuffix(a, b)
    ensures |a| <= |b|
  {
  }

  lemma {:induction false} EvictedIsSuffix(entries: seq<Entry>, bytes: int, size: nat, maxBytes: nat)
    ensures IsSuffix(Evicted(entries, bytes, size, maxBytes), entries)
    decreases |entries|
  {
    if entries != [] && bytes + size > maxBytes {
      EvictedIsSuffix(entries[1..], bytes - Utf8Length(entries[0].text), size, maxBytes);
      hide Utf8Length;
      LongerSuffix(Evicted(entries, bytes, size, maxBytes), entries);
    }
  }

  lemma LongerSuffix<T>(s: seq<T>, t: seq<T>)
    requires t != [] && IsSuffix(s, t[1..])
    ensures IsSuffix(s, t)
  {
  }

  lemma OneChunkEnds(ring: Ring, chunks: seq<Chunk>, c: Chunk, maxBytes: nat)
    requires Ends(ring, chunks, maxBytes)
    ensures Ends(WithChunk(ring, c, maxBytes), chunks + [c], maxBytes)
  {
    hide Stored, Evicted, Utf8Length, TotalBytes, History, IsSuffix, Oversize, AnyOversize;
    var text := Stored(c.text, maxBytes);
    var kept := Evicted(ring.entries, ring.bytes, Utf8Length(text), maxBytes);
    EvictedIsSuffix(ring.entries, ring.bytes, Utf8Length(text), maxBytes);
    SuffixLength(kept, ring.entries);
    SuffixLength(ring.entries, History(chunks, maxBytes));
    HistoryOneMore(chunks, c, maxBytes);
    SuffixOfSuffix(kept, ring.entries, History(chunks, maxBytes), Entry(ring.sequence + 1, c.stream, text));
    OversizeMeans(c, maxBytes);
  }

  lemma OversizeMeans(c: Chunk, maxBytes: nat)
    ensures Oversize(c, maxBytes) <==> Utf8Length(c.text) > maxBytes
  {
  }

  lemma EmptyEnds(maxBytes: nat)
    ensures Ends(AfterChunks([], maxBytes), [], maxBytes)
  {
    hide Stored, Utf8Length;
  }

  lemma {:induction false} AlwaysEnds(chunks: seq<Chunk>, maxBytes: nat)
    ensures Ends(AfterChunks(chunks, maxBytes), chunks, maxBytes)
    decreases |chunks|
  {
    hide Ends, WithChunk, History;
    if chunks == [] {
      EmptyEnds(maxBytes);
    } else {
      AlwaysEnds(Init(chunks), maxBytes);
      OneChunkEnds(AfterChunks(Init(chunks), maxBytes), Init(chunks), Last(chunks), maxBytes);
      assert chunks == Init(chunks) + [Last(chunks)];
    }
  }

  lemma SizedStep(entries: seq<Entry>, bytes: int, history: seq<Entry>, kept: seq<Entry>, e: Entry, maxBytes: nat)
    requires Sized(entries, bytes, history, maxBytes) && IsSuffix(entries, history)
    requires kept == Evicted(entries, bytes, Utf8Length(e.text), maxBytes)
    ensures Sized(kept + [e], TotalBytes(kept + [e]), history + [e], maxBytes)
  {
    hide TotalBytes, Utf8Length, KeepsAllThatFits, Evicted, IsSuffix;
    EvictedIsFirstFit(entries, bytes, Utf8Length(e.text), maxBytes);
    StillTooMuch(history, entries, kept, e, maxBytes);
    TotalAppend(kept, [e]);
    TotalOfOne(e);
  }

  lemma OneChunkSized(ring: Ring, chunks: seq<Chunk>, c: Chunk, maxBytes: nat)
    requires Ends(ring, chunks, maxBytes) && Sized(ring.entries, ring.bytes, History(chunks, maxBytes), maxBytes)
    ensures var next := WithChunk(ring, c, maxBytes);
            Sized(next.entries, next.bytes, History(chunks + [c], maxBytes), maxBytes)
  {
    SizedCounter(ring.entries, ring.bytes, History(chunks, maxBytes), maxBytes);
    hide Stored, Evicted, Oversize, AnyOversize, WithChunk, History, IsSuffix, Sized, TotalBytes, Utf8Length;
    hide KeepsAllThatFits, Flagged;
    var text := Stored(c.text, maxBytes);
    var kept := Evicted(ring.entries, ring.bytes, Utf8Length(text), maxBytes);
    WithChunkKeeps(ring, c, maxBytes, text, kept);
    HistoryOneMore(chunks, c, maxBytes);
    SizedStep(ring.entries, ring.bytes, History(chunks, maxBytes), kept, Entry(ring.sequence + 1, c.stream, text),
              maxBytes);
  }

  lemma SizedCounter(entries: seq<Entry>, bytes: int, history: seq<Entry>, maxBytes: nat)
    requires Sized(entries, bytes, history, maxBytes)
    ensures bytes == TotalBytes(entries)
  {
  }

  lemma EmptySized(maxBytes: nat)
    ensures Sized([], 0, History([], maxBytes), maxBytes)
  {
  }

  /**
   After any chunks the counter is exact, the numbers run on, and what is kept is the longest end of the history that
   fits.
   */
  lemma {:induction false} AlwaysAccounts(chunks: seq<Chunk>, maxBytes: nat)
    ensures var ring := AfterChunks(chunks, maxBytes);
            Ends(ring, chunks, maxBytes) && Sized(ring.entries, ring.bytes, History(chunks, maxBytes), maxBytes)
    decreases |chunks|
  {
    hide Ends, Sized, WithChunk, History;
    AlwaysEnds(chunks, maxBytes);
    if chunks == [] {
      EmptySized(maxBytes);
    } else {
      AlwaysAccounts(Init(chunks), maxBytes);
      OneChunkSized(AfterChunks(Init(chunks), maxBytes), Init(chunks), Last(chunks), maxBytes);
      assert chunks == Init(chunks) + [Last(chunks)];
    }
  }

  /** With a bound, the buffer is over it only by a single entry, and then by no more than six bytes. */
  lemma BoundHolds(chunks: seq<Chunk>, maxBytes: nat)
    requires maxBytes > 0
    ensures var ring := AfterChunks(chunks, maxBytes);
            ring.bytes <= maxBytes || (|ring.entries| == 1 && ring.bytes <= maxBytes + 6)
  {
    var ring := AfterChunks(chunks, maxBytes);
    AlwaysAccounts(chunks, maxBytes);
    if ring.bytes > maxBytes {
      var c := chunks[|chunks| - 1];
      hide AfterChunks, Stored, Utf8Length, AnyOversize, KeepsAllThatFits, TotalBytes;
      assert ring.entries[0] == History(chunks, maxBytes)[|chunks| - 1];
      assert ring.entries == [ring.entries[0]];
      StoredBound(c.text, maxBytes);
      TotalOfOne(ring.entries[0]);
    }
  }

  lemma StoredBound(text: string, maxBytes: nat)
    requires maxBytes > 0
    ensures Utf8Length(Stored(text, maxBytes)) <= maxBytes + 6
  {
    if Utf8Length(text) > maxBytes {
      var k, i := OversizeStored(text, maxBytes);
    }
  }

  function Clamp(n: int, low: nat, high: nat): (r: nat)
    requires low <= high
    ensures low <= r <= high
  {
    if n < low then low else if n > high then high else n
  }

  lemma ClampShift(n: int, low: nat, high: nat)
    requires low <= high
    ensures Clamp(n, low, high) == low + Clamp(n - low, 0, high - low)
  {
  }

  /** The entries numbered after a cursor are the rest of the history from there, or from the first one kept. */
  lemma {:induction false} NewerEntries(entries: seq<Entry>, first: nat, since: int)
    requires forall i :: 0 <= i < |entries| ==> entries[i].sequence == first + i
    ensures Filter((e: Entry) => e.sequence > since, entries) == entries[Clamp(since - first + 1, 0, |entries|)..]
  {
    var newer := (e: Entry) => e.sequence > since;
    if entries != [] {
      var rest := entries[1..];
      assert forall i :: 0 <= i < |rest| ==> rest[i] == entries[i + 1];
      NewerEntries(rest, first + 1, since);
      NewerStep(entries, newer, since - first);
    }
  }

  lemma NewerStep(entries: seq<Entry>, newer: Entry -> bool, d: int)
    requires entries != [] && (newer(entries[0]) <==> d < 0)
    requires Filter(newer, entries[1..]) == entries[1..][Clamp(d, 0, |entries| - 1)..]
    ensures Filter(newer, entries) == entries[Clamp(d + 1, 0, |entries|)..]
  {
    var rest := entries[1..];
    FilterStep(newer, entries);
    hide Filter;
    if d < 0 {
      DropNone(rest);
      DropNone(entries);
    } else {
      DropTwice(entries, 1, Clamp(d, 0, |rest|));
    }
  }

  lemma FilterStep<T(!new)>(p: T -> bool, s: seq<T>)
    requires s != []
    ensures Filter(p, s) == if p(s[0]) then [s[0]] + Filter(p, s[1..]) else Filter(p, s[1..])
  {
  }

  lemma DropNone<T>(s: seq<T>)
    ensures s[0..] == s && (s != [] ==> [s[0]] + s[1..] == s)
  {
  }

  function Since(query: LogQuery): int {
    if query.sinceSequence.Some? then query.sinceSequence.value else 0
  }

  /** What was appended after a cursor and is still kept. */
  function KeptAfter(kept: nat, history: seq<Entry>, since: int): seq<Entry>
    requires kept <= |history|
  {
    history[Clamp(since, |history| - kept, |history|)..]
  }

  ghost predicate Numbered(history: seq<Entry>) {
    forall i :: 0 <= i < |history| ==> history[i].sequence == i + 1
  }

  lemma NewerOfKept(entries: seq<Entry>, history: seq<Entry>, since: int)
    requires IsSuffix(entries, history) && Numbered(history)
    ensures Filter((e: Entry) => e.sequence > since, entries) == KeptAfter(|entries|, history, since)
  {
    hide Clamp, IsSuffix, Numbered, Filter;
    SuffixLength(entries, history);
    var dropped := |history| - |entries|;
    KeptAreNumbered(entries, history, dropped);
    NewerEntries(entries, dropped + 1, since);
    ClampShift(since, dropped, |history|);
    DropTwice(history, dropped, Clamp(since - dropped, 0, |entries|));
  }

  /** A positive tail asks for the last so many entries, none or zero for all, a negative one for all but the first. */
  ghost predicate TailAsked<T(!new)>(newer: seq<T>, tailLines: Option<int>, shown: seq<T>) {
    && |shown| <= |newer| && shown == newer[|newer| - |shown|..]
    && (tailLines == None || tailLines == Some(0) ==> |shown| == |newer|)
    && (tailLines.Some? && tailLines.value > 0 ==>
          |shown| == if tailLines.value <= |newer| then tailLines.value else |newer|)
    && (tailLines.Some? && tailLines.value < 0 ==>
          |shown| == if -tailLines.value <= |newer| then |newer| + tailLines.value else 0)
  }

  lemma TailOfTailAsked<T(!new)>(newer: seq<T>, tail: int)
    ensures TailAsked(newer, Some(tail), TailOf(newer, tail))
  {
    assert newer[0..] == newer;
    assert newer[|newer|..] == [];
  }

  lemma WholeTail<T(!new)>(newer: seq<T>)
    ensures TailAsked(newer, None, newer)
  {
  }

  lemma WholeIfNoneAsked<T(!new)>(newer: seq<T>, shown: seq<T>)
    requires TailAsked(newer, None, shown)
    ensures shown == newer
  {
    assert newer[0..] == newer;
  }

  /** A read returns what was appended after the cursor and is still kept, or the end of it that was asked for. */
  lemma ReadReturns(chunks: seq<Chunk>, maxBytes: nat, query: LogQuery)
    ensures |AfterChunks(chunks, maxBytes).entries| <= |chunks|
    ensures var ring := AfterChunks(chunks, maxBytes);
            var newer := KeptAfter(|ring.entries|, History(chunks, maxBytes), Since(query));
            TailAsked(newer, query.tailLines, Answer(ring, query).entries)
  {
    hide Filter, AfterChunks, AnyOversize, IsSuffix, Numbered, TailOf, KeptAfter, History;
    AlwaysEnds(chunks, maxBytes);
    SuffixLength(AfterChunks(chunks, maxBytes).entries, History(chunks, maxBytes));
    HistoryIsNumbered(chunks, maxBytes);
    NewerOfKept(AfterChunks(chunks, maxBytes).entries, History(chunks, maxBytes), Since(query));
    var ring := AfterChunks(chunks, maxBytes);
    var newer := KeptAfter(|ring.entries|, History(chunks, maxBytes), Since(query));
    WholeTail(newer);
    if query.tailLines.Some? {
      TailOfTailAsked(newer, query.tailLines.value);
    }
  }

  /**
   A read says it is truncated exactly when something has been evicted, or its cursor is negative and anything was
   ever appended; it hands out the last number issued as the next cursor.
   */
  lemma TruncatedIff(chunks: seq<Chunk>, maxBytes: nat, query: LogQuery)
    ensures var ring := AfterChunks(chunks, maxBytes);
            var r := Answer(ring, query);
            && (r.truncated <==>
                ring.evicted || (query.sinceSequence.Some? && query.sinceSequence.value < 0 && chunks != []))
            && r.nextSequence == |chunks|
  {
    var ring := AfterChunks(chunks, maxBytes);
    FirstKept(chunks, maxBytes);
    hide Filter, AfterChunks, AnyOversize, TailOf;
  }

  lemma FirstOfSuffix(entries: seq<Entry>, history: seq<Entry>)
    requires IsSuffix(entries, history) && Numbered(history) && entries != []
    ensures entries[0].sequence == |history| - |entries| + 1
  {
  }

  /** The oldest entry kept is the first one while nothing has been evicted. */
  lemma FirstKept(chunks: seq<Chunk>, maxBytes: nat)
    ensures var ring := AfterChunks(chunks, maxBytes);
            && ring.sequence == |chunks|
            && (ring.entries != [] <==> chunks != [])
            && (ring.entries != [] ==> ring.entries[0].sequence >= 1)
            && (ring.entries != [] && !ring.evicted ==> ring.entries[0].sequence == 1)
  {
    hide AfterChunks, AnyOversize, History, IsSuffix, Numbered;
    var ring := AfterChunks(chunks, maxBytes);
    AlwaysEnds(chunks, maxBytes);
    SuffixLength(ring.entries, History(chunks, maxBytes));
    HistoryIsNumbered(chunks, maxBytes);
    if ring.entries != [] {
      FirstOfSuffix(ring.entries, History(chunks, maxBytes));
    }
  }

  lemma HistoryIsNumbered(chunks: seq<Chunk>, maxBytes: nat)
    ensures Numbered(History(chunks, maxBytes))
  {
  }

  lemma DropTwice<T>(s: seq<T>, a: nat, b: nat)
    requires a + b <= |s|
    ensures s[a..][b..] == s[a + b..]
  {
  }

  lemma KeptAreNumbered(entries: seq<Entry>, history: seq<Entry>, dropped: nat)
    requires IsSuffix(entries, history) && dropped == |history| - |entries| && Numbered(history)
    ensures entries == history[dropped..]
    ensures forall i :: 0 <= i < |entries| ==> entries[i].sequence == dropped + 1 + i
  {
  }

  /** A process writes and a reader polls, in any order; each poll asks for what came after the last one. */
  datatype Event = Wrote(stream: Stream, text: string) | Polled

  datatype Reader = Reader(chunks: seq<Chunk>, cursor: nat, received: seq<Entry>, missed: bool)

  function Follow(events: seq<Event>, maxBytes: nat): Reader {
    if events == [] then Reader([], 0, [], false)
    else
      var before := Follow(events[..|events| - 1], maxBytes);
      match events[|events| - 1]
      case Wrote(stream, text) => before.(chunks := before.chunks + ChunksOf(stream, text))
      case Polled =>
        var r := Answer(AfterChunks(before.chunks, maxBytes), LogQuery(Some(before.cursor), None));
        before.(cursor := r.nextSequence, received := before.received + r.entries,
                missed := before.missed || r.truncated)
  }

  ghost predicate Increasing(entries: seq<Entry>, after: nat, upTo: nat) {
    && (forall i :: 0 <= i < |entries| ==> after < entries[i].sequence <= upTo)
    && (forall i, j :: 0 <= i < j < |entries| ==> entries[i].sequence < entries[j].sequence)
  }

  lemma IncreasingAppend(a: seq<Entry>, b: seq<Entry>, middle: nat, upTo: nat)
    requires Increasing(a, 0, middle) && Increasing(b, middle, upTo) && middle <= upTo
    ensures Increasing(a + b, 0, upTo)
  {
  }

  lemma KeptIncreasing(kept: nat, history: seq<Entry>, cursor: nat)
    requires kept <= |history| && Numbered(history) && cursor <= |history|
    ensures Increasing(KeptAfter(kept, history, cursor), cursor, |history|)
  {
  }

  lemma HistoryGrows(a: seq<Chunk>, b: seq<Chunk>, maxBytes: nat)
    ensures |History(a, maxBytes)| <= |History(a + b, maxBytes)|
    ensures History(a + b, maxBytes)[..|a|] == History(a, maxBytes)
  {
    hide Stored;
    var longer := History(a + b, maxBytes);
    assert forall i :: 0 <= i < |a| ==> (a + b)[i] == a[i];
  }

  ghost predicate WholeTexts(chunks: seq<Chunk>, maxBytes: nat) {
    forall c :: c in chunks ==> Utf8Length(c.text) <= maxBytes
  }

  /** What one poll adds, while nothing has ever been evicted. */
  lemma PollGetsTheRest(chunks: seq<Chunk>, maxBytes: nat, cursor: nat)
    requires cursor <= |chunks|
    ensures var history := History(chunks, maxBytes);
            var r := Answer(AfterChunks(chunks, maxBytes), LogQuery(Some(cursor), None));
            && r.nextSequence == |chunks|
            && Increasing(r.entries, cursor, |chunks|)
            && (!r.truncated ==> history[..cursor] + r.entries == history && WholeTexts(chunks, maxBytes))
  {
    hide Answer, AfterChunks, History, Increasing, Numbered, WholeTexts, AnyOversize, KeptAfter, IsSuffix;
    hide TailAsked;
    var query := LogQuery(Some(cursor), None);
    var ring := AfterChunks(chunks, maxBytes);
    var history := History(chunks, maxBytes);
    AlwaysEnds(chunks, maxBytes);
    ReadReturns(chunks, maxBytes, query);
    TruncatedIff(chunks, maxBytes, query);
    HistoryIsNumbered(chunks, maxBytes);
    WholeIfNoneAsked(KeptAfter(|ring.entries|, history, cursor), Answer(ring, query).entries);
    KeptIncreasing(|ring.entries|, history, cursor);
    if !Answer(ring, query).truncated {
      AllKept(history, cursor);
      NoneOversize(chunks, maxBytes);
    }
  }

  lemma AllKept(history: seq<Entry>, cursor: nat)
    requires cursor <= |history|
    ensures history[..cursor] + KeptAfter(|history|, history, cursor) == history
  {
  }

  lemma NoneOversize(chunks: seq<Chunk>, maxBytes: nat)
    requires !AnyOversize(chunks, maxBytes)
    ensures WholeTexts(chunks, maxBytes)
  {
    hide Utf8Length;
    forall c | c in chunks
      ensures Utf8Length(c.text) <= maxBytes
    {
      var i :| 0 <= i < |chunks| && chunks[i] == c;
      assert !Oversize(chunks[i], maxBytes);
    }
  }

  /** What the reader has is right. */
  ghost predicate HasEverything(reader: Reader, maxBytes: nat) {
    && reader.cursor <= |reader.chunks|
    && Increasing(reader.received, 0, reader.cursor)
    && (!reader.missed ==> reader.received == History(reader.chunks, maxBytes)[..reader.cursor])
    && (!reader.missed ==> WholeTexts(reader.chunks[..reader.cursor], maxBytes))
  }

  lemma WritingKeeps(reader: Reader, more: seq<Chunk>, maxBytes: nat)
    requires HasEverything(reader, maxBytes)
    ensures HasEverything(reader.(chunks := reader.chunks + more), maxBytes)
  {
    HistoryGrows(reader.chunks, more, maxBytes);
    hide Increasing, WholeTexts, History;
    var chunks, longer := reader.chunks, reader.chunks + more;
    assert longer[..reader.cursor] == chunks[..reader.cursor];
    assert History(longer, maxBytes)[..|chunks|][..reader.cursor] == History(longer, maxBytes)[..reader.cursor];
  }

  lemma PollingKeeps(reader: Reader, maxBytes: nat)
    requires HasEverything(reader, maxBytes)
    ensures var r := Answer(AfterChunks(reader.chunks, maxBytes), LogQuery(Some(reader.cursor), None));
            && r.nextSequence == |reader.chunks|
            && HasEverything(reader.(cursor := r.nextSequence, received := reader.received + r.entries,
                                     missed := reader.missed || r.truncated), maxBytes)
  {
    hide Increasing, WholeTexts, History, Answer, AfterChunks;
    PollGetsTheRest(reader.chunks, maxBytes, reader.cursor);
    var r := Answer(AfterChunks(reader.chunks, maxBytes), LogQuery(Some(reader.cursor), None));
    IncreasingAppend(reader.received, r.entries, reader.cursor, |reader.chunks|);
    var history := History(reader.chunks, maxBytes);
    assert history[..|reader.chunks|] == history && reader.chunks[..|reader.chunks|] == reader.chunks;
  }

  lemma {:induction false} FollowHasEverything(events: seq<Event>, maxBytes: nat)
    ensures HasEverything(Follow(events, maxBytes), maxBytes)
    ensures events != [] && Last(events) == Polled ==>
              Follow(events, maxBytes).cursor == |Follow(events, maxBytes).chunks|
    decreases |events|
  {
    if events == [] {
      assert HasEverything(Reader([], 0, [], false), maxBytes);
    } else {
      hide HasEverything, Answer, AfterChunks;
      var before := Follow(events[..|events| - 1], maxBytes);
      FollowHasEverything(events[..|events| - 1], maxBytes);
      match events[|events| - 1] {
        case Wrote(stream, text) => WritingKeeps(before, ChunksOf(stream, text), maxBytes);
        case Polled => PollingKeeps(before, maxBytes);
      }
    }
  }

  lemma WholeTextsStored(chunks: seq<Chunk>, cursor: nat, maxBytes: nat)
    requires cursor <= |chunks| && WholeTexts(chunks[..cursor], maxBytes)
    ensures forall i :: 0 <= i < cursor ==>
              History(chunks, maxBytes)[i] == Entry(i + 1, chunks[i].stream, chunks[i].text)
  {
    hide Utf8Length;
    forall i | 0 <= i < cursor
      ensures History(chunks, maxBytes)[i] == Entry(i + 1, chunks[i].stream, chunks[i].text)
    {
      assert chunks[..cursor][i] == chunks[i];
    }
  }

  /**
   A polling reader never gets an entry twice, nor out of order; and as long as no poll said truncated it has got
   every chunk written up to its last poll, in order and unchanged.
   */
  lemma PollingGetsEverything(events: seq<Event>, maxBytes: nat)
    ensures var reader := Follow(events, maxBytes);
            && Increasing(reader.received, 0, reader.cursor)
            && reader.cursor <= |reader.chunks|
            && (events != [] && Last(events) == Polled ==> reader.cursor == |reader.chunks|)
            && (!reader.missed ==>
                  && |reader.received| == reader.cursor
                  && (forall i :: 0 <= i < reader.cursor ==>
                        reader.received[i] == Entry(i + 1, reader.chunks[i].stream, reader.chunks[i].text)))
  {
    FollowHasEverything(events, maxBytes);
    var reader := Follow(events, maxBytes);
    hide Follow, History, WholeTexts, Increasing;
    if !reader.missed {
      WholeTextsStored(reader.chunks, reader.cursor, maxBytes);
    }
  }
}
