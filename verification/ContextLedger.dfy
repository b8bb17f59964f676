/** The context ledger: what was prepared before, and how a file is delivered again in fewer bytes. */
module ContextLedger {
  import opened Numbers
  import opened Wrappers
  import opened Sequences
  import opened TextLines
  import opened LineDiff
  import opened ContextPaths
  import opened Utf8

  datatype Entry =
    Entry(workspaceId: string, path: string, fingerprint: string, byteLength: nat, contextId: string,
          content: Option<string>)

  /** The two indexes and the byte counter. byPath is in insertion order; its key is a function of the entry. */
  datatype Ledger = Ledger(byPath: seq<Entry>, byFingerprint: map<string, Entry>, storedBytes: int)

  datatype Limits = Limits(entries: nat, bytes: nat)

  datatype Delivery =
    | Content
    | Diff(diff: Option<string>)
    | Reference(path: string)
    | Unchanged(since: string)
    | MetadataOnly

  datatype Request = Request(workspaceId: string, path: string, content: string, contextId: string, mode: Mode)

  datatype Prepared =
    Prepared(workspaceId: string, path: string, fingerprint: string, byteLength: nat, kind: Kind, discoverable: bool,
             delivery: Delivery)

  const NUL: char := '\0'
  const LARGE_METADATA_BYTES: nat := 128 * 1024
  const EMPTY := Ledger([], map[], 0)

  function Key(workspaceId: string, path: string): string {
    workspaceId + [NUL] + LowerCase(Slashes(path))
  }

  function KeyOf(e: Entry): string {
    Key(e.workspaceId, e.path)
  }

  function Lookup(byPath: seq<Entry>, key: string): (r: Option<Entry>)
    ensures r.Some? ==> r.value in byPath && KeyOf(r.value) == key
    ensures r.None? ==> forall e :: e in byPath ==> KeyOf(e) != key
  {
    if byPath == [] then None
    else if KeyOf(byPath[0]) == key then Some(byPath[0])
    else Lookup(byPath[1..], key)
  }

  function Held(e: Entry): nat {
    if e.content.None? then 0 else e.byteLength
  }

  function Total(byPath: seq<Entry>): nat {
    if byPath == [] then 0 else Held(byPath[0]) + Total(byPath[1..])
  }

  ghost predicate DistinctKeys(byPath: seq<Entry>) {
    forall i, j :: 0 <= i < j < |byPath| ==> KeyOf(byPath[i]) != KeyOf(byPath[j])
  }

  /** Every value of the fingerprint index is a live entry that holds content with that fingerprint. */
  ghost predicate IndexLive(l: Ledger) {
    forall f :: f in l.byFingerprint ==>
      l.byFingerprint[f] in l.byPath && l.byFingerprint[f].content.Some? && l.byFingerprint[f].fingerprint == f
  }

  predicate Fits(byPath: seq<Entry>, limits: Limits) {
    |byPath| <= limits.entries && Total(byPath) <= limits.bytes
  }

  ghost predicate Consistent(l: Ledger, limits: Limits) {
    && DistinctKeys(l.byPath)
    && l.storedBytes == Total(l.byPath)
    && IndexLive(l)
    && Fits(l.byPath, limits)
  }

  /** origin gives the content each live entry was prepared from, kept or not. */
  ghost predicate Honest(byPath: seq<Entry>, origin: map<string, string>, fp: string -> string) {
    forall e :: e in byPath ==> Truthful(e, origin, fp)
  }

  ghost predicate Truthful(e: Entry, origin: map<string, string>, fp: string -> string) {
    && KeyOf(e) in origin
    && e.fingerprint == fp(origin[KeyOf(e)])
    && e.byteLength == Utf8Length(origin[KeyOf(e)])
    && (e.content.Some? ==> e.content.value == origin[KeyOf(e)])
  }

  ghost predicate Injective(fp: string -> string) {
    forall x, y :: fp(x) == fp(y) ==> x == y
  }

  /** The path entries just after the entry was recorded and before anything was evicted. */
  function Base(byPath: seq<Entry>, entry: Entry): (r: seq<Entry>)
    ensures r != [] && r[|r| - 1] == entry
  {
    OtherKeys(byPath, KeyOf(entry)) + [entry]
  }

  function OtherKeys(byPath: seq<Entry>, key: string): (r: seq<Entry>)
    ensures forall e :: e in r <==> e in byPath && KeyOf(e) != key
  {
    Filter(e => KeyOf(e) != key, byPath)
  }

  /** The fingerprint index at that moment: the replaced entry is out, the first holder of a content stays in. */
  function BaseIndex(l: Ledger, entry: Entry): map<string, Entry> {
    var previous := Lookup(l.byPath, KeyOf(entry));
    var m := if previous.Some? then Unindex(l.byFingerprint, previous.value) else l.byFingerprint;
    if entry.content.Some? && entry.fingerprint !in m then m[entry.fingerprint := entry] else m
  }

  function Unindex(m: map<string, Entry>, e: Entry): map<string, Entry> {
    if e.fingerprint in m && m[e.fingerprint] == e then m - {e.fingerprint} else m
  }

  /**
   What recording an entry does, said without the eviction loop: keep the longest run of newest
   entries that fits both limits, and of the fingerprint index what still points at a kept entry.
   */
  ghost predicate Remembers(l: Ledger, entry: Entry, l': Ledger, limits: Limits) {
    && (exists k :: 0 <= k <= |Base(l.byPath, entry)| && KeptFrom(Base(l.byPath, entry), k, l'.byPath, limits))
    && l'.storedBytes == Total(l'.byPath)
    && (forall f :: f in l'.byFingerprint <==> f in BaseIndex(l, entry) && BaseIndex(l, entry)[f] in l'.byPath)
    && (forall f :: f in l'.byFingerprint ==> l'.byFingerprint[f] == BaseIndex(l, entry)[f])
  }

  ghost predicate KeptFrom(base: seq<Entry>, k: nat, kept: seq<Entry>, limits: Limits)
    requires k <= |base|
  {
    kept == base[k..] && Fits(kept, limits) && forall j :: 0 <= j < k ==> !Fits(base[j..], limits)
  }

  /** The classification of a file once its content is known: generated and binary content override the path. */
  function KindOfFile(req: Request, looksGenerated: bool): Kind {
    var byPath := Classify(req.path, req.mode).kind;
    var withText := if looksGenerated && byPath != Ignored && byPath != Binary then Generated else byPath;
    if NUL in req.content && withText != Ignored then Binary else withText
  }

  predicate IsLargeMetadata(path: string) {
    exists x :: x in {".json", ".jsonl", ".ndjson", ".log", ".csv"} && EndsWith(LowerCase(path), x)
  }

  predicate SentAsMetadata(req: Request, kind: Kind) {
    || kind == Binary
    || (req.mode == Automatic && (kind == Generated || kind == Metadata))
    || (req.mode == Automatic && Utf8Length(req.content) > LARGE_METADATA_BYTES
        && IsLargeMetadata(Classify(req.path, req.mode).path))
  }

  function RawKey(e: Entry): string {
    e.workspaceId + [NUL] + e.path
  }

  /** How a request is delivered, given the ledger before it. */
  function Decide(l: Ledger, req: Request, kind: Kind, fp: string): Delivery {
    var key := Key(req.workspaceId, req.path);
    var previous := Lookup(l.byPath, key);
    if SentAsMetadata(req, kind) then MetadataOnly
    else if previous.Some? && previous.value.fingerprint == fp then Unchanged(previous.value.contextId)
    else if fp in l.byFingerprint && RawKey(l.byFingerprint[fp]) != key then Reference(l.byFingerprint[fp].path)
    else if previous.Some? && previous.value.content.Some? then
      Diff(PrintedDiff(previous.value.content.value, req.content, DEFAULT_MAX_LINES))
    else Content
  }

  /** The entry a request leaves behind; content too large for the ledger is not kept. */
  function EntryFor(req: Request, fp: string, limits: Limits): Entry {
    var bytes := Utf8Length(req.content);
    Entry(req.workspaceId, req.path, fp, bytes, req.contextId,
      if bytes <= limits.bytes then Some(req.content) else None)
  }

  /** Supporting lemmas. */

  lemma LookupUnique(byPath: seq<Entry>, e: Entry)
    requires DistinctKeys(byPath) && e in byPath
    ensures Lookup(byPath, KeyOf(e)) == Some(e)
  {
    hide KeyOf, Lookup;
    var r := Lookup(byPath, KeyOf(e));
    var i :| 0 <= i < |byPath| && byPath[i] == e;
    var j :| 0 <= j < |byPath| && byPath[j] == r.value;
  }

  lemma {:induction false} OtherKeysDistinct(byPath: seq<Entry>, key: string)
    requires DistinctKeys(byPath)
    ensures DistinctKeys(OtherKeys(byPath, key))
  {
    hide KeyOf;
    if byPath != [] {
      var rest := OtherKeys(byPath[1..], key);
      OtherKeysDistinct(byPath[1..], key);
      forall e | e in rest
        ensures KeyOf(e) != KeyOf(byPath[0])
      {
        var i :| 0 <= i < |byPath[1..]| && byPath[1..][i] == e;
        assert byPath[i + 1] == e;
      }
    }
  }

  lemma BaseDistinct(byPath: seq<Entry>, entry: Entry)
    requires DistinctKeys(byPath)
    ensures DistinctKeys(Base(byPath, entry))
  {
    hide KeyOf;
    hide OtherKeys;
    OtherKeysDistinct(byPath, KeyOf(entry));
  }

  /** Before eviction, the index points at entries that hold the content they stand for. */
  lemma BaseIndexLive(l: Ledger, entry: Entry)
    requires DistinctKeys(l.byPath) && IndexLive(l)
    ensures forall f :: f in BaseIndex(l, entry) ==>
              BaseIndex(l, entry)[f] in Base(l.byPath, entry) && BaseIndex(l, entry)[f].content.Some?
                && BaseIndex(l, entry)[f].fingerprint == f
  {
    hide KeyOf, Lookup;
    var m := BaseIndex(l, entry);
    forall f | f in m
      ensures m[f] in Base(l.byPath, entry) && m[f].content.Some? && m[f].fingerprint == f
    {
      if f in l.byFingerprint && m[f] == l.byFingerprint[f] {
        LookupUnique(l.byPath, m[f]);
      } else {
        assert m[f] == entry;
      }
    }
  }

  /** Recording an entry keeps both indexes, the counter and the limits right, and the new entry is never evicted. */
  lemma RemembersKeepsConsistent(l: Ledger, entry: Entry, l': Ledger, limits: Limits)
    requires Consistent(l, limits) && Remembers(l, entry, l', limits)
    requires limits.entries >= 1 && (entry.content.Some? ==> entry.byteLength <= limits.bytes)
    ensures Consistent(l', limits)
    ensures l'.byPath != [] && l'.byPath[|l'.byPath| - 1] == entry
  {
    KeptIndexLive(l, entry, l', limits);
    BaseDistinct(l.byPath, entry);
    hide KeyOf, BaseIndex, Lookup, Base, Total, IndexLive, DistinctKeys, Held;
    var base := Base(l.byPath, entry);
    var k :| 0 <= k <= |base| && KeptFrom(base, k, l'.byPath, limits);
    HeldIsBounded(entry, limits);
    NewestKept(base, k, l'.byPath, limits);
    SuffixDistinct(base, k);
  }

  lemma HeldIsBounded(entry: Entry, limits: Limits)
    requires entry.content.Some? ==> entry.byteLength <= limits.bytes
    ensures Held(entry) <= limits.bytes
  {
  }

  lemma KeptIndexLive(l: Ledger, entry: Entry, l': Ledger, limits: Limits)
    requires DistinctKeys(l.byPath) && IndexLive(l) && Remembers(l, entry, l', limits)
    ensures IndexLive(l')
  {
    BaseIndexLive(l, entry);
    hide KeyOf, BaseIndex, Base, Total, KeptFrom, DistinctKeys;
  }

  lemma NewestKept(base: seq<Entry>, k: nat, kept: seq<Entry>, limits: Limits)
    requires base != [] && k <= |base| && KeptFrom(base, k, kept, limits)
    requires limits.entries >= 1 && Held(base[|base| - 1]) <= limits.bytes
    ensures kept == base[k..] && kept != [] && kept[|kept| - 1] == base[|base| - 1]
  {
    var newest := base[|base| - 1..];
    assert newest == [base[|base| - 1]] && newest[1..] == [];
    assert Total(newest) == Held(base[|base| - 1]);
    assert Fits(newest, limits);
  }

  lemma SuffixDistinct(base: seq<Entry>, k: nat)
    requires k <= |base| && DistinctKeys(base)
    ensures DistinctKeys(base[k..])
  {
    hide KeyOf;
    forall i, j | 0 <= i < j < |base[k..]|
      ensures KeyOf(base[k..][i]) != KeyOf(base[k..][j])
    {
      assert base[k..][i] == base[k + i] && base[k..][j] == base[k + j];
    }
  }

  lemma {:induction false} TotalConcat(a: seq<Entry>, b: seq<Entry>)
    ensures Total(a + b) == Total(a) + Total(b)
  {
    if a == [] {
      assert a + b == b;
    } else {
      TotalConcat(a[1..], b);
      assert (a + b)[1..] == a[1..] + b;
    }
  }

  /** Replacing the entry of a key takes exactly its stored bytes off the total. */
  lemma {:induction false} TotalOthers(byPath: seq<Entry>, key: string)
    requires DistinctKeys(byPath)
    ensures var e := Lookup(byPath, key);
            Total(byPath) == Total(OtherKeys(byPath, key)) + if e.Some? then Held(e.value) else 0
  {
    hide KeyOf, Held;
    if byPath != [] {
      TotalOthers(byPath[1..], key);
      if KeyOf(byPath[0]) == key {
        NoOtherKeys(byPath[1..], key);
      } else {
        assert OtherKeys(byPath, key) == [byPath[0]] + OtherKeys(byPath[1..], key);
      }
    }
  }

  lemma {:induction false} NoOtherKeys(byPath: seq<Entry>, key: string)
    requires forall i :: 0 <= i < |byPath| ==> KeyOf(byPath[i]) != key
    ensures OtherKeys(byPath, key) == byPath
    ensures Lookup(byPath, key) == None
  {
    hide KeyOf;
    if byPath != [] {
      NoOtherKeys(byPath[1..], key);
    }
  }

  /** What a delivery stands for, given the ledger before it and the content each live entry came from. */
  ghost predicate Decodes(l: Ledger, origin: map<string, string>, req: Request, d: Delivery) {
    var key := Key(req.workspaceId, req.path);
    match d
    case Unchanged(since) =>
      // the entry of this very file was prepared from the same content
      exists e ::
        && e in l.byPath && KeyOf(e) == key && e.contextId == since
        && key in origin && origin[key] == req.content
    case Reference(path) =>
      // a live entry of another file, with that path, holds the same content
      exists e :: e in l.byPath && KeyOf(e) != key && e.path == path && e.content == Some(req.content)
    case Diff(diff) =>
      // there is a diff, against the kept content of this file
      diff.Some? && IsDiffToKept(l.byPath, key, req.content, diff.value)
    case _ => true
  }

  ghost predicate IsDiffToKept(byPath: seq<Entry>, key: string, content: string, diff: string) {
    exists e :: e in byPath && KeyOf(e) == key && e.content.Some? && IsDiff(e.content.value, content, diff)
  }

  predicate IsUncut(kept: string, content: string) {
    |PrintedLines(HunkOf(SplitLines(kept), SplitLines(content)))| <= DEFAULT_MAX_LINES
  }

  lemma IsItsDiff(kept: string, content: string)
    requires kept != content
    ensures PrintedDiff(kept, content, DEFAULT_MAX_LINES).Some?
    ensures IsDiff(kept, content, PrintedDiff(kept, content, DEFAULT_MAX_LINES).value)
  {
    hide SplitLines, PrintedDiff, ApplyPrinted, PrintedLines, HunkOf, AppliedText, NoCRLF;
    DiffDecodesIffUncut(kept, content, DEFAULT_MAX_LINES);
    if IsUncut(kept, content) {
      DiffGivesTextIff(kept, content, DEFAULT_MAX_LINES);
    }
  }

  /** Uncut, the diff gives the lines of the content, and the content itself exactly when it has no CRLF. */
  ghost predicate IsDiff(kept: string, content: string, diff: string) {
    && kept != content
    && Some(diff) == PrintedDiff(kept, content, DEFAULT_MAX_LINES)
    && (IsUncut(kept, content) <==> ApplyPrinted(diff, SplitLines(kept)) == Some(SplitLines(content)))
    && (IsUncut(kept, content) ==> (AppliedText(diff, kept) == Some(content) <==> NoCRLF(content)))
  }

  /**
   Every delivery decodes against the ledger just before it: to the requested content or, for a diff, to its lines.
   */
  lemma DeliveryDecodes(l: Ledger, limits: Limits, origin: map<string, string>, fp: string -> string, req: Request,
                        kind: Kind)
    requires Consistent(l, limits) && Honest(l.byPath, origin, fp) && Injective(fp)
    ensures Decodes(l, origin, req, Decide(l, req, kind, fp(req.content)))
  {
    hide Key, Lookup, SentAsMetadata, Fits, PrintedDiff, ApplyPrinted, PrintedLines, HunkOf;
    var key, f := Key(req.workspaceId, req.path), fp(req.content);
    var previous := Lookup(l.byPath, key);
    var d := Decide(l, req, kind, f);
    match d {
      case Unchanged(since) =>
        assert Truthful(previous.value, origin, fp);
      case Reference(path) =>
        var e := l.byFingerprint[f];
        assert Truthful(e, origin, fp);
        LookupUnique(l.byPath, e);
        assert KeyOf(e) != key && e.content == Some(req.content);
      case Diff(diff) =>
        var e := previous.value;
        assert Truthful(e, origin, fp);
        assert e.content.value != req.content;
        IsItsDiff(e.content.value, req.content);
        hide IsDiff;
        assert IsDiff(e.content.value, req.content, diff.value);
      case _ =>
    }
  }

  /**
   When content is withheld: always for a binary file, never for anything else that is asked for explicitly, and for
   automatic discovery exactly for binary, generated and metadata files and for large data files.
   */
  lemma WithheldIff(l: Ledger, req: Request, kind: Kind, f: string)
    ensures var d := Decide(l, req, kind, f);
            && (kind == Binary ==> d == MetadataOnly)
            && (req.mode == Explicit && kind != Binary ==> d != MetadataOnly)
            && (req.mode == Automatic ==>
                  (d == MetadataOnly <==>
                   kind == Binary || kind == Generated || kind == Metadata
                   || (Utf8Length(req.content) > 131072 && IsDataFile(Normalize(req.path)))))
  {
    hide Key, Lookup, RawKey, PrintedDiff, KindOf, Normalize, EndsWith, LowerCase, Utf8Length;
  }

  /** One of the five extensions of data files, in any case. */
  ghost predicate IsDataFile(path: string) {
    var name := LowerCase(path);
    || EndsWith(name, ".json") || EndsWith(name, ".jsonl") || EndsWith(name, ".ndjson")
    || EndsWith(name, ".log") || EndsWith(name, ".csv")
  }

  /**
   The order of preference when content is not withheld: unchanged, then a reference to an equal file elsewhere, then
   a diff against the content kept for the path, then the content itself.
   */
  lemma CheapestFirst(l: Ledger, req: Request, kind: Kind, f: string)
    requires DistinctKeys(l.byPath) && Decide(l, req, kind, f) != MetadataOnly
    ensures var d, key := Decide(l, req, kind, f), Key(req.workspaceId, req.path);
            && (d.Unchanged? <==> exists e :: e in l.byPath && KeyOf(e) == key && e.fingerprint == f)
            && (forall e :: e in l.byPath && KeyOf(e) == key && d.Unchanged? ==> d.since == e.contextId)
            && (d.Reference? <==> !d.Unchanged? && f in l.byFingerprint && RawKey(l.byFingerprint[f]) != key)
            && (d.Reference? ==> d.path == l.byFingerprint[f].path)
            && (d.Diff? <==>
                !d.Unchanged? && !d.Reference?
                && exists e :: e in l.byPath && KeyOf(e) == key && e.content.Some?)
  {
    hide Key, SentAsMetadata, RawKey, PrintedDiff, Lookup, DistinctKeys;
    var key := Key(req.workspaceId, req.path);
    forall e | e in l.byPath && KeyOf(e) == key
      ensures Lookup(l.byPath, key) == Some(e)
    {
      LookupUnique(l.byPath, e);
    }
  }

  /** What the content of a file makes of the kind its path has. */
  lemma KindByContent(req: Request, looksGenerated: bool)
    ensures var byPath, kind := Classify(req.path, req.mode).kind, KindOfFile(req, looksGenerated);
            && (kind == Ignored <==> byPath == Ignored)
            && (kind == Binary <==> byPath != Ignored && (byPath == Binary || NUL in req.content))
            && (kind == Generated <==>
                byPath != Ignored && byPath != Binary && NUL !in req.content
                && (byPath == Generated || looksGenerated))
            && (kind == Metadata || kind == Source ==> kind == byPath)
  {
    hide Classify;
  }

  /** A file is shown to automatic discovery exactly when it is a source or a metadata file. */
  lemma DiscoverableIff(req: Request, looksGenerated: bool)
    ensures var kind := KindOfFile(req, looksGenerated);
            Discoverable(req, kind) <==> req.mode == Explicit || kind == Metadata || kind == Source
  {
    KindByContent(req, looksGenerated);
    hide KindOfFile, KindOf, Normalize;
  }

  /** A character that normalising a path leaves alone. */
  predicate IsNormal(c: char) {
    c != '\\' && Lower(c) == c
  }

  predicate Normal(s: string) {
    forall i :: 0 <= i < |s| ==> IsNormal(s[i])
  }

  /** Letters that differ in case only, or a slash and a backslash. */
  ghost predicate SameOnDisk(c: char, d: char) {
    c == d || {c, d} == {'/', '\\'} || ('A' <= c <= 'Z' && d == c + ' ') || ('A' <= d <= 'Z' && c == d + ' ')
  }

  /** Paths that differ only in the case of letters and the kind of slashes share one entry. */
  lemma OneEntryPerFile(workspaceId: string, p: string, q: string)
    requires |p| == |q| && forall i :: 0 <= i < |p| ==> SameOnDisk(p[i], q[i])
    ensures Key(workspaceId, p) == Key(workspaceId, q)
  {
    var a, b := LowerCase(Slashes(p)), LowerCase(Slashes(q));
    forall i | 0 <= i < |p|
      ensures a[i] == b[i]
    {
      assert SameOnDisk(p[i], q[i]);
    }
    assert a == b;
  }

  lemma NormalizedIsNormal(path: string)
    ensures Normal(LowerCase(Slashes(path)))
  {
  }

  lemma NormalUnchanged(path: string)
    requires Normal(path)
    ensures LowerCase(Slashes(path)) == path
  {
    assert Slashes(path) == path;
  }

  /** Nothing after a NUL in the workspace id would change if it were part of a path. */
  predicate NulSafe(workspaceId: string) {
    forall i, j :: 0 <= i < j < |workspaceId| && workspaceId[i] == NUL ==> IsNormal(workspaceId[j])
  }

  /** A raw key that looks like some file's key is that file's key. */
  lemma RawKeyIsKey(e: Entry, workspaceId: string, path: string)
    requires NulSafe(workspaceId) && RawKey(e) == Key(workspaceId, path)
    ensures KeyOf(e) == Key(workspaceId, path)
  {
    var n := |e.workspaceId|;
    KeyAfter(workspaceId, path, n);
    assert RawKey(e)[n] == NUL && RawKey(e)[n + 1..] == e.path;
    NormalUnchanged(e.path);
  }

  lemma KeyAfter(workspaceId: string, path: string, n: nat)
    requires NulSafe(workspaceId) && n < |Key(workspaceId, path)| && Key(workspaceId, path)[n] == NUL
    ensures Normal(Key(workspaceId, path)[n + 1..])
  {
    var key, low := Key(workspaceId, path), LowerCase(Slashes(path));
    NormalizedIsNormal(path);
    hide LowerCase, Slashes;
    var rest := key[n + 1..];
    forall t | 0 <= t < |rest|
      ensures IsNormal(rest[t])
    {
      var i := n + 1 + t;
      assert rest[t] == key[i];
      if i < |workspaceId| {
        assert key[i] == workspaceId[i] && workspaceId[n] == NUL;
      } else if i > |workspaceId| {
        assert key[i] == low[i - |workspaceId| - 1];
      }
    }
  }

  /**
   The reference branch is reached: an equal file is indexed, and the file itself was not last seen with this
   content.
   */
  ghost predicate ReferenceReached(l: Ledger, limits: Limits, workspaceId: string, path: string, f: string) {
    && Consistent(l, limits)
    && f in l.byFingerprint
    && (var previous := Lookup(l.byPath, Key(workspaceId, path)); previous.None? || previous.value.fingerprint != f)
  }

  /** The guard of the reference branch is true where it is reached. */
  lemma ReferenceGuardAlwaysHolds(l: Ledger, limits: Limits, workspaceId: string, path: string, f: string)
    requires ReferenceReached(l, limits, workspaceId, path, f) && NulSafe(workspaceId)
    ensures RawKey(l.byFingerprint[f]) != Key(workspaceId, path)
  {
    hide Key, RawKey, Lookup;
    var e := l.byFingerprint[f];
    LookupUnique(l.byPath, e);
    if RawKey(e) == Key(workspaceId, path) {
      RawKeyIsKey(e, workspaceId, path);
    }
  }

  ghost predicate GuardHolds(workspaceId: string) {
    forall l, limits, path, f :: ReferenceReached(l, limits, workspaceId, path, f) ==>
      RawKey(l.byFingerprint[f]) != Key(workspaceId, path)
  }

  /**
   The guard is true wherever it is reached exactly for the workspace ids in which nothing after a NUL looks
   unnormalised.
   */
  lemma ReferenceGuardHoldsIff(workspaceId: string)
    ensures GuardHolds(workspaceId) <==> NulSafe(workspaceId)
  {
    if NulSafe(workspaceId) {
      hide ReferenceReached;
      forall l, limits, path, f | ReferenceReached(l, limits, workspaceId, path, f)
        ensures RawKey(l.byFingerprint[f]) != Key(workspaceId, path)
      {
        ReferenceGuardAlwaysHolds(l, limits, workspaceId, path, f);
      }
    } else {
      var l, limits := ReferenceGuardFails(workspaceId);
    }
  }

  /** Otherwise a ledger with one entry is enough to reach a false guard. */
  lemma ReferenceGuardFails(workspaceId: string) returns (l: Ledger, limits: Limits)
    requires !NulSafe(workspaceId)
    ensures ReferenceReached(l, limits, workspaceId, "", "f")
    ensures RawKey(l.byFingerprint["f"]) == Key(workspaceId, "")
  {
    var i, j :| 0 <= i < j < |workspaceId| && workspaceId[i] == NUL && !IsNormal(workspaceId[j]);
    var e := Entry(workspaceId[..i], workspaceId[i + 1..] + [NUL], "f", 0, "", Some(""));
    l, limits := Ledger([e], map["f" := e], 0), Limits(1, 0);
    SplitKey(e, workspaceId, i, j);
    assert [e][1..] == [] && Total([e]) == 0;
    hide Key, RawKey;
    assert Lookup([e], Key(workspaceId, "")) == None;
  }

  lemma SplitKey(e: Entry, workspaceId: string, i: nat, j: nat)
    requires i < j < |workspaceId| && workspaceId[i] == NUL && !IsNormal(workspaceId[j])
    requires e.workspaceId == workspaceId[..i] && e.path == workspaceId[i + 1..] + [NUL]
    ensures RawKey(e) == Key(workspaceId, "") && KeyOf(e) != Key(workspaceId, "")
  {
    assert Slashes("") == "" && LowerCase("") == "";
    assert workspaceId == workspaceId[..i] + [NUL] + workspaceId[i + 1..];
    assert RawKey(e) == Key(workspaceId, "");
    NormalizedIsNormal(e.path);
    var low := LowerCase(Slashes(e.path));
    assert KeyOf(e)[j] == low[j - i - 1] && IsNormal(low[j - i - 1]);
    assert Key(workspaceId, "")[j] == workspaceId[j];
  }

  /** Every live entry that holds content has a slot for it in the fingerprint index, its own or another holder's. */
  ghost predicate Complete(l: Ledger) {
    forall e :: e in l.byPath && e.content.Some? ==> e.fingerprint in l.byFingerprint
  }

  /**
   Full content is sent only when no earlier version is stored and no equal file is indexed; while the index is
   complete, when no live entry holds the content at all.
   */
  lemma ContentOnlyWhenNothingHelps(l: Ledger, limits: Limits, req: Request, kind: Kind, f: string)
    requires Consistent(l, limits) && NulSafe(req.workspaceId)
    requires Decide(l, req, kind, f) == Content
    ensures f !in l.byFingerprint
    ensures Complete(l) ==> forall e :: e in l.byPath && e.content.Some? ==> e.fingerprint != f
    ensures forall e :: e in l.byPath && KeyOf(e) == Key(req.workspaceId, req.path) ==>
              e.fingerprint != f && e.content.None?
  {
    hide Key, RawKey, Lookup, SentAsMetadata;
    if f in l.byFingerprint {
      ReferenceGuardAlwaysHolds(l, limits, req.workspaceId, req.path, f);
    }
    forall e | e in l.byPath && KeyOf(e) == Key(req.workspaceId, req.path)
      ensures e.fingerprint != f && e.content.None?
    {
      LookupUnique(l.byPath, e);
    }
  }

  /** What recording an entry keeps: the longest run of newest entries that fits both limits. */
  function Survivors(base: seq<Entry>, limits: Limits): seq<Entry> {
    if base == [] || Fits(base, limits) then base else Survivors(base[1..], limits)
  }

  lemma {:induction false} SurvivorsAre(base: seq<Entry>, k: nat, kept: seq<Entry>, limits: Limits)
    requires k <= |base| && KeptFrom(base, k, kept, limits)
    ensures kept == Survivors(base, limits)
    decreases |base|
  {
    assert base[0..] == base;
    if k > 0 {
      assert base[1..][k - 1..] == base[k..];
      forall j | 0 <= j < k - 1
        ensures !Fits(base[1..][j..], limits)
      {
        assert base[1..][j..] == base[j + 1..];
      }
      SurvivorsAre(base[1..], k - 1, kept, limits);
    }
  }

  /** The holder of a slot is not kept: it is replaced, or evicted. */
  ghost predicate LosesHolder(l: Ledger, entry: Entry, limits: Limits, f: string) {
    f in l.byFingerprint && l.byFingerprint[f] !in Survivors(Base(l.byPath, entry), limits)
  }

  /** The new entry takes over a slot: its holder is the entry it replaces. */
  ghost predicate TakesOver(l: Ledger, entry: Entry, f: string) {
    entry.content.Some? && entry.fingerprint == f && f in l.byFingerprint && KeyOf(l.byFingerprint[f]) == KeyOf(entry)
  }

  /** No content that is still held loses its slot, said about the ledger before the entry is recorded. */
  ghost predicate KeepsSlots(l: Ledger, entry: Entry, limits: Limits) {
    forall e :: e in Survivors(Base(l.byPath, entry), limits) && e.content.Some? ==>
      (LosesHolder(l, entry, limits, e.fingerprint) ==> TakesOver(l, entry, e.fingerprint))
  }

  /** Which slots there are after an entry was recorded. */
  lemma SlotAfter(l: Ledger, entry: Entry, l': Ledger, limits: Limits, f: string)
    requires Consistent(l, limits) && Remembers(l, entry, l', limits) && entry in l'.byPath
    ensures f in l'.byFingerprint <==>
            || (f in l.byFingerprint && KeyOf(l.byFingerprint[f]) != KeyOf(entry) && l.byFingerprint[f] in l'.byPath)
            || (entry.content.Some? && entry.fingerprint == f
                && (f in l.byFingerprint ==> KeyOf(l.byFingerprint[f]) == KeyOf(entry)))
  {
    hide KeyOf, Lookup, KeptFrom, Total, Fits, Base;
    var previous := Lookup(l.byPath, KeyOf(entry));
    if f in l.byFingerprint {
      LookupUnique(l.byPath, l.byFingerprint[f]);
      if KeyOf(l.byFingerprint[f]) == KeyOf(entry) {
        assert previous == Some(l.byFingerprint[f]);
      } else {
        assert previous.Some? ==> previous.value != l.byFingerprint[f];
      }
    }
  }

  /** Recording an entry keeps a complete index complete exactly when no content that is still held loses its slot. */
  lemma IndexStaysCompleteIff(l: Ledger, entry: Entry, l': Ledger, limits: Limits)
    requires Consistent(l, limits) && Complete(l) && Remembers(l, entry, l', limits)
    requires limits.entries >= 1 && (entry.content.Some? ==> entry.byteLength <= limits.bytes)
    ensures Complete(l') <==> KeepsSlots(l, entry, limits)
  {
    RemembersKeepsConsistent(l, entry, l', limits);
    KeptAre(l, entry, l', limits);
    hide Remembers, Consistent, KeyOf, Base, Survivors;
    forall e | e in l'.byPath && e.content.Some?
      ensures e.fingerprint in l'.byFingerprint <==>
              (LosesHolder(l, entry, limits, e.fingerprint) ==> TakesOver(l, entry, e.fingerprint))
    {
      SlotAfter(l, entry, l', limits, e.fingerprint);
      HolderOfTheKey(l, entry, l', limits, e.fingerprint);
    }
  }

  lemma KeptAre(l: Ledger, entry: Entry, l': Ledger, limits: Limits)
    requires Remembers(l, entry, l', limits)
    ensures l'.byPath == Survivors(Base(l.byPath, entry), limits)
    ensures forall e :: e in l'.byPath ==> e == entry || (e in l.byPath && KeyOf(e) != KeyOf(entry))
  {
    hide KeyOf, BaseIndex, Total, Fits, Survivors;
    var k :| 0 <= k <= |Base(l.byPath, entry)| && KeptFrom(Base(l.byPath, entry), k, l'.byPath, limits);
    SurvivorsAre(Base(l.byPath, entry), k, l'.byPath, limits);
  }

  /** The holder of a slot with the new entry's key is kept only if it is the new entry. */
  lemma HolderOfTheKey(l: Ledger, entry: Entry, l': Ledger, limits: Limits, f: string)
    requires Consistent(l, limits)
    requires forall e :: e in l'.byPath ==> e == entry || (e in l.byPath && KeyOf(e) != KeyOf(entry))
    ensures f in l.byFingerprint && KeyOf(l.byFingerprint[f]) == KeyOf(entry) && l.byFingerprint[f] in l'.byPath ==>
              l.byFingerprint[f] == entry && entry.content.Some? && entry.fingerprint == f
  {
    hide KeyOf, Fits, Total;
  }

  /** While everything fits, nothing is evicted. */
  lemma NothingEvicted(l: Ledger, entry: Entry, l': Ledger, limits: Limits)
    requires Fits(Base(l.byPath, entry), limits) && l'.byPath == Base(l.byPath, entry)
    requires l'.byFingerprint == BaseIndex(l, entry) && l'.storedBytes == Total(l'.byPath)
    requires DistinctKeys(l.byPath) && IndexLive(l)
    ensures Remembers(l, entry, l', limits)
  {
    hide Fits, Total, KeyOf;
    BaseIndexLive(l, entry);
    hide BaseIndex;
    var base := Base(l.byPath, entry);
    hide Base;
    assert base[0..] == base;
    assert KeptFrom(base, 0, l'.byPath, limits);
  }

  /**
   Two files with the same content, and then the first one changes: its slot goes with it, and a third file with
   that content is sent in full, although the second one still holds it.
   */
  lemma EqualFileIsForgotten(limits: Limits, first: Entry, second: Entry, changed: Entry, req: Request, kind: Kind)
    returns (l1: Ledger, l2: Ledger, l3: Ledger)
    requires first.content.Some? && second.content == first.content && second.fingerprint == first.fingerprint
    requires changed.content.Some? && changed.fingerprint != first.fingerprint && KeyOf(changed) == KeyOf(first)
    requires KeyOf(second) != KeyOf(first)
    requires Key(req.workspaceId, req.path) != KeyOf(first) && Key(req.workspaceId, req.path) != KeyOf(second)
    requires limits.entries >= 2 && first.byteLength + second.byteLength + changed.byteLength <= limits.bytes
    requires !SentAsMetadata(req, kind)
    ensures Remembers(EMPTY, first, l1, limits) && Remembers(l1, second, l2, limits)
    ensures Remembers(l2, changed, l3, limits)
    ensures Complete(l2) && !Complete(l3)
    ensures second in l3.byPath && Decide(l3, req, kind, first.fingerprint) == Content
  {
    var f := first.fingerprint;
    l1 := Ledger([first], map[f := first], Total([first]));
    l2 := Ledger([first, second], map[f := first], Total([first, second]));
    l3 := Ledger([second, changed], map[changed.fingerprint := changed], Total([second, changed]));
    hide *;
    TwoEntries(first, second);
    TwoEntries(second, changed);
    FirstRecorded(first);
    SecondRecorded(first, second);
    ChangeRecorded(first, second, changed);
    GoodLedgers(first, second);
    StillFits([first], limits);
    StillFits([first, second], limits);
    StillFits([second, changed], limits);
    NothingEvicted(EMPTY, first, l1, limits);
    NothingEvicted(l1, second, l2, limits);
    NothingEvicted(l2, changed, l3, limits);
    SlotIsGone(second, changed, l3);
    NotAmong(second, changed, Key(req.workspaceId, req.path));
    SentInFull(l3, req, kind, f);
  }

  lemma GoodLedgers(first: Entry, second: Entry)
    requires first.content.Some? && second.fingerprint == first.fingerprint && KeyOf(second) != KeyOf(first)
    ensures EMPTY.byPath == [] && DistinctKeys([]) && DistinctKeys([first]) && DistinctKeys([first, second])
    ensures IndexLive(EMPTY)
    ensures var m := map[first.fingerprint := first];
            && IndexLive(Ledger([first], m, Total([first])))
            && IndexLive(Ledger([first, second], m, Total([first, second])))
            && Complete(Ledger([first, second], m, Total([first, second])))
  {
    hide KeyOf, Total;
  }

  lemma StillFits(byPath: seq<Entry>, limits: Limits)
    requires |byPath| <= limits.entries && Total(byPath) <= limits.bytes
    ensures Fits(byPath, limits)
  {
  }

  lemma SlotIsGone(second: Entry, changed: Entry, l: Ledger)
    requires second.content.Some? && changed.fingerprint != second.fingerprint
    requires l.byPath == [second, changed] && l.byFingerprint == map[changed.fingerprint := changed]
    ensures !Complete(l) && second in l.byPath && second.fingerprint !in l.byFingerprint
  {
  }

  lemma SentInFull(l: Ledger, req: Request, kind: Kind, f: string)
    requires !SentAsMetadata(req, kind) && f !in l.byFingerprint
    requires Lookup(l.byPath, Key(req.workspaceId, req.path)) == None
    ensures Decide(l, req, kind, f) == Content
  {
  }

  lemma TwoEntries(a: Entry, b: Entry)
    requires a.content.Some? && b.content.Some?
    ensures Total([a]) == a.byteLength && Total([a, b]) == a.byteLength + b.byteLength
  {
    assert [a][1..] == [] && [b][1..] == [] && [a, b][1..] == [b];
    assert Total([b]) == b.byteLength;
  }

  lemma NotAmong(a: Entry, b: Entry, key: string)
    requires KeyOf(a) != key && KeyOf(b) != key
    ensures Lookup([a, b], key) == None
  {
    hide KeyOf;
  }

  lemma FirstRecorded(first: Entry)
    requires first.content.Some?
    ensures Base([], first) == [first] && BaseIndex(EMPTY, first) == map[first.fingerprint := first]
  {
    hide KeyOf;
    assert OtherKeys([], KeyOf(first)) == [] && Lookup([], KeyOf(first)) == None;
  }

  lemma SecondRecorded(first: Entry, second: Entry)
    requires second.content.Some? && KeyOf(second) != KeyOf(first) && second.fingerprint == first.fingerprint
    ensures var m := map[first.fingerprint := first];
            && Base([first], second) == [first, second]
            && BaseIndex(Ledger([first], m, Total([first])), second) == m
  {
    hide KeyOf, Total;
    NoOtherKeys([first], KeyOf(second));
  }

  lemma ChangeRecorded(first: Entry, second: Entry, changed: Entry)
    requires KeyOf(second) != KeyOf(first) && KeyOf(changed) == KeyOf(first)
    requires changed.content.Some? && changed.fingerprint != first.fingerprint
    ensures Base([first, second], changed) == [second, changed]
    ensures BaseIndex(Ledger([first, second], map[first.fingerprint := first], Total([first, second])), changed)
            == map[changed.fingerprint := changed]
  {
    hide KeyOf, Total;
    var key := KeyOf(changed);
    assert [first, second][1..] == [second];
    NoOtherKeys([second], key);
    assert OtherKeys([first, second], key) == OtherKeys([second], key);
    assert Lookup([first, second], key) == Some(first);
  }

  /** Preparing the same file again right away costs nothing: it is reported unchanged since the first time. */
  lemma PreparedAgainIsUnchanged(l: Ledger, l': Ledger, limits: Limits, req: Request, again: Request, kind: Kind,
                                 f: string)
    requires Consistent(l, limits) && limits.entries >= 1
    requires Remembers(l, EntryFor(req, f, limits), l', limits)
    requires again.workspaceId == req.workspaceId && again.path == req.path && !SentAsMetadata(again, kind)
    ensures Decide(l', again, kind, f) == Unchanged(req.contextId)
  {
    hide Remembers, Key, Lookup, SentAsMetadata;
    var entry := EntryFor(req, f, limits);
    RemembersKeepsConsistent(l, entry, l', limits);
    LookupUnique(l'.byPath, entry);
  }

  /** The runtime object. fingerprint is SHA-256 and looksGenerated a text pattern; both are left uninterpreted. */
  class ContextEconomyRuntime {
    var byPath: seq<Entry>
    var byFingerprint: map<string, Entry>
    var storedBytes: int
    /** The content each key was last prepared from. */
    ghost var origin: map<string, string>
    const limits: Limits
    const fingerprint: string -> string
    const looksGenerated: string -> bool

    ghost function View(): Ledger
      reads this
    {
      Ledger(byPath, byFingerprint, storedBytes)
    }

    ghost predicate Valid()
      reads this
    {
      limits.entries >= 1 && Consistent(View(), limits) && Honest(byPath, origin, fingerprint)
    }

    constructor (maxEntries: int, maxStoredBytes: int, fingerprint: string -> string, looksGenerated: string -> bool)
      ensures Valid() && View() == EMPTY
      ensures limits == Limits(Max(1, maxEntries), Max(0, maxStoredBytes))
      ensures this.fingerprint == fingerprint && this.looksGenerated == looksGenerated
    {
      byPath, byFingerprint, storedBytes, origin := [], map[], 0, map[];
      limits := Limits(Max(1, maxEntries), Max(0, maxStoredBytes));
      this.fingerprint, this.looksGenerated := fingerprint, looksGenerated;
    }

    method Reset()
      modifies this
      requires Valid()
      ensures Valid() && View() == EMPTY
    {
      byPath, byFingerprint, storedBytes := [], map[], 0;
    }

    /** Records an entry under its key, then evicts the oldest entries while a limit is exceeded. */
    method Remember(entry: Entry)
      requires Consistent(View(), limits) && limits.entries >= 1
      requires entry.content.Some? ==> entry.byteLength <= limits.bytes
      modifies this`byPath, this`byFingerprint, this`storedBytes
      ensures Remembers(old(View()), entry, View(), limits)
    {
      ghost var l0 := View();
      ghost var base, index := Base(byPath, entry), BaseIndex(l0, entry);
      BaseDistinct(byPath, entry);
      NothingEvictedYet(l0, entry);
      hide KeyOf, Base, BaseIndex, Lookup, Remembers, IndexFor, DistinctKeys, Unindex, IndexLive, Consistent, Held;
      hide Total, Fits;
      Admit(entry);
      ghost var k := EvictUntilFits(index);
      KeptRemembers(l0, entry, View(), limits, k);
    }

    /** The eviction loop. */
    method EvictUntilFits(ghost index: map<string, Entry>) returns (ghost k: nat)
      requires DistinctKeys(byPath) && storedBytes == Total(byPath) && IndexFor(index, byPath, byFingerprint)
      modifies this`byPath, this`byFingerprint, this`storedBytes
      ensures k <= |old(byPath)| && byPath == old(byPath)[k..] && storedBytes == Total(byPath)
      ensures IndexFor(index, byPath, byFingerprint)
      ensures Fits(byPath, limits) && forall j :: 0 <= j < k ==> !Fits(old(byPath)[j..], limits)
    {
      hide Total, IndexFor, Unindex, Held, DistinctKeys;
      ghost var base := byPath;
      k := 0;
      assert base[0..] == base;
      while |byPath| > limits.entries || storedBytes > limits.bytes
        invariant 0 <= k <= |base| && byPath == base[k..]
        invariant storedBytes == Total(byPath)
        invariant IndexFor(index, byPath, byFingerprint)
        invariant forall j :: 0 <= j < k ==> !Fits(base[j..], limits)
        decreases |byPath|
      {
        NonEmptyWhileTooMuch(byPath, limits);
        SuffixDistinct(base, k);
        EvictFromIndex(index, byPath, byFingerprint);
        EvictOldest();
        assert base[k..][1..] == base[k + 1..];
        k := k + 1;
      }
    }

    method EvictOldest()
      requires byPath != [] && storedBytes == Total(byPath)
      modifies this`byPath, this`byFingerprint, this`storedBytes
      ensures byPath == old(byPath)[1..] && byFingerprint == Unindex(old(byFingerprint), old(byPath)[0])
      ensures storedBytes == Total(byPath)
    {
      hide Unindex, Held;
      var oldest := byPath[0];
      byPath := byPath[1..];
      storedBytes := storedBytes - Held(oldest);
      byFingerprint := Unindex(byFingerprint, oldest);
    }

    /** The first half of recording: the old entry of the key goes, the new one comes last. */
    method Admit(entry: Entry)
      requires Consistent(View(), limits)
      modifies this`byPath, this`byFingerprint, this`storedBytes
      ensures byPath == Base(old(byPath), entry) && byFingerprint == BaseIndex(old(View()), entry)
      ensures storedBytes == Total(byPath)
    {
      hide KeyOf, Lookup, IndexLive, DistinctKeys;
      var key := KeyOf(entry);
      var previous := Lookup(byPath, key);
      TotalOthers(byPath, key);
      if previous.Some? {
        storedBytes := storedBytes - Held(previous.value);
        byFingerprint := Unindex(byFingerprint, previous.value);
        byPath := OtherKeys(byPath, key);
      } else {
        NoOtherKeys(byPath, key);
      }
      TotalConcat(byPath, [entry]);
      byPath := byPath + [entry];
      if entry.content.Some? {
        storedBytes := storedBytes + entry.byteLength;
        if entry.fingerprint !in byFingerprint {
          byFingerprint := byFingerprint[entry.fingerprint := entry];
        }
      }
      assert [entry][1..] == [];
      assert Total([entry]) == Held(entry);
    }

    /** Chooses the cheapest delivery the ledger allows. */
    method ChooseDelivery(req: Request, kind: Kind) returns (delivery: Delivery)
      ensures delivery == Decide(View(), req, kind, fingerprint(req.content))
    {
      hide KindOfFile, SentAsMetadata, Key, Lookup, RawKey, PrintedDiff;
      var f := fingerprint(req.content);
      var key := Key(req.workspaceId, req.path);
      var previous := Lookup(byPath, key);
      delivery := Content;
      if SentAsMetadata(req, kind) {
        delivery := MetadataOnly;
      } else if previous.Some? && previous.value.fingerprint == f {
        delivery := Unchanged(previous.value.contextId);
      } else if f in byFingerprint && RawKey(byFingerprint[f]) != key {
        delivery := Reference(byFingerprint[f].path);
      } else if previous.Some? && previous.value.content.Some? {
        var diff := CreateLineDiff(previous.value.content.value, req.content, DEFAULT_MAX_LINES);
        delivery := Diff(diff);
      }
    }

    /** Prepares a file for delivery and records it, whatever the delivery is. */
    method Prepare(req: Request) returns (r: Prepared)
      requires Valid()
      modifies this
      ensures Valid()
      ensures r.kind == KindOfFile(req, looksGenerated(req.content))
      ensures r.delivery == Decide(old(View()), req, r.kind, fingerprint(req.content))
      ensures Remembers(old(View()), EntryFor(req, fingerprint(req.content), limits), View(), limits)
      ensures origin == old(origin)[Key(req.workspaceId, req.path) := req.content]
      ensures r.workspaceId == req.workspaceId && r.path == req.path
      ensures r.fingerprint == fingerprint(req.content) && r.byteLength == Utf8Length(req.content)
      ensures Injective(fingerprint) ==> Decodes(old(View()), old(origin), req, r.delivery)
      // when content is withheld
      ensures r.kind == Binary ==> r.delivery == MetadataOnly
      ensures req.mode == Explicit && r.kind != Binary ==> r.delivery != MetadataOnly
      ensures req.mode == Automatic ==>
                (r.delivery == MetadataOnly <==>
                 r.kind == Binary || r.kind == Generated || r.kind == Metadata
                 || (r.byteLength > 131072 && IsDataFile(Normalize(req.path))))
      ensures r.discoverable <==> req.mode == Explicit || r.kind == Metadata || r.kind == Source
      // the request itself is the newest entry, with its content unless that is too large to keep
      ensures byPath != []
      ensures var newest := byPath[|byPath| - 1];
              && newest.workspaceId == req.workspaceId && newest.path == req.path
              && newest.contextId == req.contextId
              && newest.fingerprint == r.fingerprint && newest.byteLength == r.byteLength
              && newest.content == if r.byteLength <= limits.bytes then Some(req.content) else None
    {
      hide KindOfFile, Key, Decide, Decodes, Remembers, Discoverable, Injective, Consistent, Honest;
      hide IsDataFile, Normalize, Utf8Length;
      ghost var l0 := View();
      var f := fingerprint(req.content);
      var kind := KindOfFile(req, looksGenerated(req.content));
      var delivery := ChooseDelivery(req, kind);
      if Injective(fingerprint) {
        DeliveryDecodes(l0, limits, origin, fingerprint, req, kind);
      }
      WithheldIff(l0, req, kind, f);
      DiscoverableIff(req, looksGenerated(req.content));
      r := Prepared(req.workspaceId, req.path, f, Utf8Length(req.content), kind, Discoverable(req, kind), delivery);
      var entry := EntryFor(req, f, limits);
      Remember(entry);
      RemembersKeepsConsistent(l0, entry, View(), limits);
      RemembersKeepsHonest(l0, entry, View(), limits, origin, fingerprint, req.content);
      origin := origin[Key(req.workspaceId, req.path) := req.content];
    }
  }

  /** The file may be shown to automatic discovery: by its path, unless its content overrides that. */
  function Discoverable(req: Request, kind: Kind): bool {
    var c := Classify(req.path, req.mode);
    if kind == c.kind then c.discoverable else req.mode == Explicit
  }

  /** The part of the full index that points at live entries. */
  ghost predicate IndexFor(index: map<string, Entry>, live: seq<Entry>, m: map<string, Entry>) {
    && (forall f :: f in m <==> f in index && index[f] in live)
    && (forall f :: f in m ==> m[f] == index[f])
    && (forall f :: f in index ==> index[f].fingerprint == f)
  }

  lemma NothingEvictedYet(l: Ledger, entry: Entry)
    requires DistinctKeys(l.byPath) && IndexLive(l)
    ensures IndexFor(BaseIndex(l, entry), Base(l.byPath, entry), BaseIndex(l, entry))
  {
    hide BaseIndex, Base, KeyOf, DistinctKeys, IndexLive;
    BaseIndexLive(l, entry);
  }

  lemma NonEmptyWhileTooMuch(byPath: seq<Entry>, limits: Limits)
    requires |byPath| > limits.entries || Total(byPath) > limits.bytes
    ensures byPath != []
  {
  }

  lemma KeptRemembers(l: Ledger, entry: Entry, l': Ledger, limits: Limits, k: nat)
    requires k <= |Base(l.byPath, entry)| && l'.byPath == Base(l.byPath, entry)[k..]
    requires Fits(l'.byPath, limits) && forall j :: 0 <= j < k ==> !Fits(Base(l.byPath, entry)[j..], limits)
    requires l'.storedBytes == Total(l'.byPath) && IndexFor(BaseIndex(l, entry), l'.byPath, l'.byFingerprint)
    ensures Remembers(l, entry, l', limits)
  {
    hide Base, BaseIndex, Fits;
    assert KeptFrom(Base(l.byPath, entry), k, l'.byPath, limits);
  }

  /** Evicting the oldest entry together with its index slot leaves the index for the rest. */
  lemma EvictFromIndex(index: map<string, Entry>, live: seq<Entry>, m: map<string, Entry>)
    requires live != [] && DistinctKeys(live) && IndexFor(index, live, m)
    ensures IndexFor(index, live[1..], Unindex(m, live[0]))
  {
    hide KeyOf;
    assert live[0] !in live[1..];
  }

  lemma RemembersKeepsHonest(l: Ledger, entry: Entry, l': Ledger, limits: Limits, origin: map<string, string>,
                             fp: string -> string, content: string)
    requires Remembers(l, entry, l', limits) && Honest(l.byPath, origin, fp)
    requires Truthful(entry, origin[KeyOf(entry) := content], fp)
    ensures Honest(l'.byPath, origin[KeyOf(entry) := content], fp)
  {
    hide KeyOf;
    forall e | e in l'.byPath
      ensures Truthful(e, origin[KeyOf(entry) := content], fp)
    {
      assert e in Base(l.byPath, entry);
      assert e != entry ==> Truthful(e, origin, fp);
    }
  }
}
