/** The desktop log: the last lines of each source under one numbering, and keys that are shown only once in a while. */
module LogHub {
  import opened Sequences
  import opened TextLines

  const MAX_LINES_PER_SOURCE: nat := 2000
  const MAX_SEEN_KEYS_PER_SOURCE: nat := 4000

  datatype Source = Tunnel | Mcp | Process

  datatype Level = Info | Warn | Error

  datatype LogLine = LogLine(id: nat, source: Source, level: Level, text: string)

  /** The last n elements, or all of them when there are fewer. */
  function LastOf<T>(s: seq<T>, n: nat): (r: seq<T>)
    ensures |r| <= n && |r| <= |s|
  {
    if |s| <= n then s else s[|s| - n..]
  }

  /** Appending and dropping from the front is keeping the end. */
  lemma LastOfAppend<T>(s: seq<T>, x: T, n: nat)
    requires n >= 1
    ensures LastOf(s + [x], n) == if |LastOf(s, n)| < n then LastOf(s, n) + [x] else (LastOf(s, n) + [x])[1..]
  {
  }

  /** Ids rise from line to line, and stay below the next one to be given. */
  ghost predicate Rising(lines: seq<LogLine>, next: nat) {
    && (forall i :: 0 <= i < |lines| ==> lines[i].id < next)
    && (forall i, j :: 0 <= i < j < |lines| ==> lines[i].id < lines[j].id)
  }

  ghost predicate OfSource(lines: seq<LogLine>, source: Source) {
    forall i :: 0 <= i < |lines| ==> lines[i].source == source
  }

  /** The same key comes twice only with more than so many others between. */
  ghost predicate Spaced(keys: seq<string>, n: nat) {
    forall i, j :: 0 <= i < j < |keys| && keys[i] == keys[j] ==> j - i > n
  }

  /** A key that is not among the last ones may be taken again. */
  lemma SpacedAppend(keys: seq<string>, key: string, n: nat)
    requires Spaced(keys, n) && key !in LastOf(keys, n)
    ensures Spaced(keys + [key], n)
  {
    forall i | 0 <= i < |keys| && |keys| - i <= n
      ensures keys[i] in LastOf(keys, n)
    {
      assert keys[i] == LastOf(keys, n)[i - (|keys| - |LastOf(keys, n)|)];
    }
  }

  /** What is kept of a source's lines: the last ones shown. */
  ghost predicate KeepsLines(kept: seq<LogLine>, shown: seq<LogLine>, next: nat, source: Source) {
    kept == LastOf(shown, MAX_LINES_PER_SOURCE) && Rising(shown, next) && OfSource(shown, source)
  }

  /** What is remembered of a source's keys: the last ones taken. */
  ghost predicate KeepsKeys(seen: seq<string>, taken: seq<string>) {
    seen == LastOf(taken, MAX_SEEN_KEYS_PER_SOURCE) && Spaced(taken, MAX_SEEN_KEYS_PER_SOURCE)
  }

  /** Bounding the end of a list with one more element. */
  function Bounded<T>(s: seq<T>, n: nat): seq<T> {
    if |s| > n then s[|s| - n..] else s
  }

  lemma OneMoreLine(kept: seq<LogLine>, shown: seq<LogLine>, next: nat, source: Source, line: LogLine)
    requires KeepsLines(kept, shown, next, source) && line.id == next && line.source == source
    ensures KeepsLines(Bounded(kept + [line], MAX_LINES_PER_SOURCE), shown + [line], next + 1, source)
  {
    LastOfAppend(shown, line, MAX_LINES_PER_SOURCE);
    hide LastOf, Bounded;
    assert forall i :: 0 <= i < |shown| ==> (shown + [line])[i] == shown[i];
  }

  lemma OneMoreKey(seen: seq<string>, taken: seq<string>, key: string)
    requires KeepsKeys(seen, taken) && key !in seen
    ensures KeepsKeys(Bounded(seen + [key], MAX_SEEN_KEYS_PER_SOURCE), taken + [key])
  {
    LastOfAppend(taken, key, MAX_SEEN_KEYS_PER_SOURCE);
    SpacedAppend(taken, key, MAX_SEEN_KEYS_PER_SOURCE);
  }

  ghost predicate AllLines(lines: map<Source, seq<LogLine>>, shown: map<Source, seq<LogLine>>, next: nat) {
    forall s: Source :: s in lines && s in shown && KeepsLines(lines[s], shown[s], next, s)
  }

  ghost predicate AllKeys(seen: map<Source, seq<string>>, taken: map<Source, seq<string>>) {
    forall s: Source :: s in seen && s in taken && KeepsKeys(seen[s], taken[s])
  }

  lemma OneSourceLonger(lines: map<Source, seq<LogLine>>, shown: map<Source, seq<LogLine>>, next: nat, line: LogLine)
    requires AllLines(lines, shown, next) && line.id == next
    ensures var source := line.source;
            AllLines(lines[source := Bounded(lines[source] + [line], MAX_LINES_PER_SOURCE)],
                     shown[source := shown[source] + [line]], next + 1)
  {
    OneMoreLine(lines[line.source], shown[line.source], next, line.source, line);
    hide Bounded, OfSource, LastOf;
  }

  lemma OneSourceCleared(lines: map<Source, seq<LogLine>>, shown: map<Source, seq<LogLine>>, next: nat, source: Source)
    requires AllLines(lines, shown, next)
    ensures AllLines(lines[source := []], shown[source := []], next)
  {
    assert KeepsLines([], [], next, source);
    hide KeepsLines;
  }

  lemma OneSourceForgets(seen: map<Source, seq<string>>, taken: map<Source, seq<string>>, source: Source)
    requires AllKeys(seen, taken)
    ensures AllKeys(seen[source := []], taken[source := []])
  {
    assert KeepsKeys([], []);
    hide KeepsKeys;
  }

  lemma OneSourceTakes(seen: map<Source, seq<string>>, taken: map<Source, seq<string>>, source: Source, key: string)
    requires AllKeys(seen, taken) && key !in seen[source]
    ensures AllKeys(seen[source := Bounded(seen[source] + [key], MAX_SEEN_KEYS_PER_SOURCE)],
                    taken[source := taken[source] + [key]])
  {
    OneMoreKey(seen[source], taken[source], key);
    hide Bounded, KeepsKeys;
  }

  lemma KeptAre(lines: map<Source, seq<LogLine>>, shown: map<Source, seq<LogLine>>, next: nat, source: Source)
    requires AllLines(lines, shown, next)
    ensures var all := shown[source]; lines[source] == if |all| <= 2000 then all else all[|all| - 2000..]
  {
  }

  lemma RememberedAre(seen: map<Source, seq<string>>, taken: map<Source, seq<string>>, source: Source)
    requires AllKeys(seen, taken)
    ensures var all := taken[source]; seen[source] == if |all| <= 4000 then all else all[|all| - 4000..]
  {
  }

  /** The text of a fed line: one line end is cut off. */
  function WithoutLineEnd(text: string): (r: string)
    ensures text == r + "\r\n" || (text == r + "\n" && (r == "" || r[|r| - 1] != '\r'))
            || (text == r && (r == "" || r[|r| - 1] != '\n'))
  {
    Strip(text)
  }

  predicate ShownNoLater(a: LogLine, b: LogLine) {
    a.id <= b.id
  }

  ghost predicate ById(lines: seq<LogLine>) {
    forall i, j :: 0 <= i < j < |lines| ==> lines[i].id <= lines[j].id
  }

  class LogHub {
    var lines: map<Source, seq<LogLine>>
    /** The remembered keys of each source, oldest first. */
    var seenKeys: map<Source, seq<string>>
    var nextId: nat
    /** Everything shown and every key taken, of each source, since it was last cleared. */
    ghost var shown: map<Source, seq<LogLine>>
    ghost var taken: map<Source, seq<string>>

    ghost predicate Valid()
      reads this
    {
      AllLines(lines, shown, nextId) && AllKeys(seenKeys, taken)
    }

    constructor ()
      ensures Valid() && nextId == 1
      ensures lines == shown == map[Tunnel := [], Mcp := [], Process := []]
      ensures seenKeys == taken == map[Tunnel := [], Mcp := [], Process := []]
    {
      lines := map[Tunnel := [], Mcp := [], Process := []];
      seenKeys := map[Tunnel := [], Mcp := [], Process := []];
      shown := map[Tunnel := [], Mcp := [], Process := []];
      taken := map[Tunnel := [], Mcp := [], Process := []];
      nextId := 1;
      new;
      forall s: Source
        ensures s in lines && s in seenKeys && lines[s] == [] && seenKeys[s] == []
      {
        match s
        case Tunnel =>
        case Mcp =>
        case Process =>
      }
    }

    /** One more line of a source; the oldest goes when there are too many. Other sources stay as they are. */
    method Append(source: Source, level: Level, text: string)
      requires Valid()
      modifies this
      ensures Valid() && nextId == old(nextId) + 1
      ensures shown == old(shown)[source := old(shown)[source] + [LogLine(old(nextId), source, level, text)]]
      ensures seenKeys == old(seenKeys) && taken == old(taken)
      ensures forall s :: s != source ==> lines[s] == old(lines)[s]
      ensures var all := shown[source]; lines[source] == if |all| <= 2000 then all else all[|all| - 2000..]
    {
      hide KeepsLines, Bounded, AllKeys;
      var line := LogLine(nextId, source, level, text);
      OneSourceLonger(lines, shown, nextId, line);
      nextId := nextId + 1;
      var buffer := lines[source] + [line];
      buffer := Shifted(buffer, MAX_LINES_PER_SOURCE);
      lines := lines[source := buffer];
      shown := shown[source := shown[source] + [line]];
      KeptAre(lines, shown, nextId, source);
    }

    static method Shifted<T>(s: seq<T>, n: nat) returns (r: seq<T>)
      ensures r == Bounded(s, n)
    {
      r := s;
      while |r| > n
        invariant |r| <= |s| && r == s[|s| - |r|..]
        invariant |r| >= n || r == s
      {
        r := r[1..];
      }
    }

    method Feed(source: Source, level: Level, text: string)
      requires Valid()
      modifies this
      ensures Valid() && seenKeys == old(seenKeys) && taken == old(taken)
      ensures WithoutLineEnd(text) == "" ==> shown == old(shown) && lines == old(lines) && nextId == old(nextId)
      ensures WithoutLineEnd(text) != "" ==>
                var line := LogLine(old(nextId), source, level, WithoutLineEnd(text));
                shown == old(shown)[source := old(shown)[source] + [line]]
    {
      var trimmed := WithoutLineEnd(text);
      if |trimmed| == 0 {
        return;
      }
      Append(source, level, trimmed);
    }

    /**
     A key already remembered is passed over; any other is taken, and its line fed. The empty key is never
     remembered.
     */
    method FeedIfNew(source: Source, key: string, level: Level, text: string)
      requires Valid()
      modifies this
      ensures Valid()
      ensures key == "" ==> taken == old(taken) && seenKeys == old(seenKeys)
      ensures key != "" && key in old(seenKeys)[source] ==>
                shown == old(shown) && lines == old(lines) && taken == old(taken) && seenKeys == old(seenKeys)
      ensures key != "" && key !in old(seenKeys)[source] ==> taken == old(taken)[source := old(taken)[source] + [key]]
      ensures var all := taken[source]; seenKeys[source] == if |all| <= 4000 then all else all[|all| - 4000..]
      ensures (key == "" || key !in old(seenKeys)[source]) && WithoutLineEnd(text) != "" ==>
                var line := LogLine(old(nextId), source, level, WithoutLineEnd(text));
                shown == old(shown)[source := old(shown)[source] + [line]]
      ensures WithoutLineEnd(text) == "" ==> shown == old(shown)
    {
      hide AllLines, KeepsKeys, Bounded, LastOf;
      RememberedAre(seenKeys, taken, source);
      if |key| == 0 {
        Feed(source, level, text);
        return;
      }
      var seen := seenKeys[source];
      if key in seen {
        return;
      }
      OneSourceTakes(seenKeys, taken, source, key);
      seen := seen + [key];
      seen := Shifted(seen, MAX_SEEN_KEYS_PER_SOURCE);
      seenKeys := seenKeys[source := seen];
      taken := taken[source := taken[source] + [key]];
      RememberedAre(seenKeys, taken, source);
      Feed(source, level, text);
    }

    method Clear(source: Source)
      requires Valid()
      modifies this
      ensures Valid() && nextId == old(nextId)
      ensures shown == old(shown)[source := []] && taken == old(taken)[source := []]
    {
      OneSourceCleared(lines, shown, nextId, source);
      OneSourceForgets(seenKeys, taken, source);
      hide AllLines, AllKeys;
      lines := lines[source := []];
      seenKeys := seenKeys[source := []];
      shown := shown[source := []];
      taken := taken[source := []];
    }

    /** All kept lines of all sources, in the order in which they were shown. */
    method Snapshot() returns (all: seq<LogLine>)
      requires Valid()
      ensures multiset(all) == multiset(lines[Tunnel]) + multiset(lines[Mcp]) + multiset(lines[Process])
      ensures ById(all)
    {
      all := SortBy(ShownNoLater, lines[Tunnel] + lines[Mcp] + lines[Process]);
      SortBySorts(ShownNoLater, lines[Tunnel] + lines[Mcp] + lines[Process]);
    }
  }
}
