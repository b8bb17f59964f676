/** The stored workspace index: the full scan that builds it and the patches that keep it up to date. */
module WorkspaceIndex {
  import opened Wrappers
  import opened Sequences
  import opened TextLines
  import opened WorkspaceTree

  /** A total order on stored path texts. */
  type Order = (string, string) -> bool

  ghost predicate TotalOrder(leq: Order) {
    && (forall x :: leq(x, x))
    && (forall x, y :: leq(x, y) || leq(y, x))
    && (forall x, y :: leq(x, y) && leq(y, x) ==> x == y)
    && (forall x, y, z :: leq(x, y) && leq(y, z) ==> leq(x, z))
  }

  ghost predicate Sorted(leq: Order, s: seq<IndexEntry>) {
    forall i, j :: 0 <= i < j < |s| ==> leq(Render(s[i].path), Render(s[j].path))
  }

  function ByPath(leq: Order): (IndexEntry, IndexEntry) -> bool {
    (a: IndexEntry, b: IndexEntry) => leq(Render(a.path), Render(b.path))
  }

  /** A snapshot's entries: sorted by path text. */
  function Snapshot(leq: Order, entries: seq<IndexEntry>): (r: seq<IndexEntry>)
    ensures multiset(r) == multiset(entries)
  {
    SortBy(ByPath(leq), entries)
  }

  lemma SnapshotSorted(leq: Order, entries: seq<IndexEntry>)
    requires TotalOrder(leq)
    ensures Sorted(leq, Snapshot(leq, entries))
  {
    var byPath := ByPath(leq);
    assert forall a, b :: byPath(a, b) <==> leq(Render(a.path), Render(b.path));
    hide Render;
    SortBySorts(byPath, entries);
  }

  lemma SnapshotMember(leq: Order, entries: seq<IndexEntry>, e: IndexEntry)
    ensures e in Snapshot(leq, entries) <==> e in entries
  {
    assert e in Snapshot(leq, entries) <==> e in multiset(Snapshot(leq, entries));
    assert e in entries <==> e in multiset(entries);
  }

  lemma {:induction false} InsertMember(leq: Order, e: IndexEntry, s: seq<IndexEntry>, x: IndexEntry)
    ensures x in InsertBy(ByPath(leq), e, s) <==> x == e || x in s
  {
    assert x in InsertBy(ByPath(leq), e, s) <==> x in multiset(InsertBy(ByPath(leq), e, s));
    assert x in s <==> x in multiset(s);
  }

  lemma {:induction false} InsertDistinct(leq: Order, e: IndexEntry, s: seq<IndexEntry>)
    requires DistinctPaths(s) && forall x :: x in s ==> x.path != e.path
    ensures DistinctPaths(InsertBy(ByPath(leq), e, s))
  {
    if s == [] {
    } else if leq(Render(e.path), Render(s[0].path)) {
      DistinctConcat([e], s);
    } else {
      InsertDistinct(leq, e, s[1..]);
      forall x | x in InsertBy(ByPath(leq), e, s[1..])
        ensures x.path != s[0].path
      {
        InsertMember(leq, e, s[1..], x);
      }
      DistinctConcat([s[0]], InsertBy(ByPath(leq), e, s[1..]));
    }
  }

  lemma {:induction false} SnapshotDistinct(leq: Order, entries: seq<IndexEntry>)
    requires DistinctPaths(entries)
    ensures DistinctPaths(Snapshot(leq, entries))
  {
    if entries != [] {
      SnapshotDistinct(leq, entries[1..]);
      forall x | x in Snapshot(leq, entries[1..])
        ensures x.path != entries[0].path
      {
        SnapshotMember(leq, entries[1..], x);
      }
      InsertDistinct(leq, entries[0], Snapshot(leq, entries[1..]));
    }
  }

  /** What every stored index satisfies: real paths, each once, in order. */
  ghost predicate GoodIndex(leq: Order, s: seq<IndexEntry>) {
    && Sorted(leq, s) && DistinctPaths(s)
    && (forall e :: e in s ==> e.path != [] && ValidPath(e.path))
  }

  /** Two good indexes with the same entries are the same list. */
  lemma {:induction false} GoodIndexUnique(leq: Order, s: seq<IndexEntry>, t: seq<IndexEntry>)
    requires TotalOrder(leq) && GoodIndex(leq, s) && GoodIndex(leq, t)
    requires forall e :: e in s <==> e in t
    ensures s == t
  {
    EmptyTogether(s, t);
    if s != [] {
      assert s[0] in t;
      SameHead(leq, s, t);
      forall e
        ensures e in s[1..] <==> e in t[1..]
      {
        TailMember(s, e);
        TailMember(t, e);
      }
      GoodIndexUnique(leq, s[1..], t[1..]);
      assert s == [s[0]] + s[1..] && t == [t[0]] + t[1..];
    }
  }

  lemma EmptyTogether(s: seq<IndexEntry>, t: seq<IndexEntry>)
    requires forall e :: e in s <==> e in t
    ensures s == [] <==> t == []
  {
    if s != [] {
      assert s[0] in t;
    }
    if t != [] {
      assert t[0] in s;
    }
  }

  lemma TailMember(s: seq<IndexEntry>, e: IndexEntry)
    requires s != [] && DistinctPaths(s)
    ensures e in s[1..] <==> e in s && e != s[0]
  {
  }

  lemma SameHead(leq: Order, s: seq<IndexEntry>, t: seq<IndexEntry>)
    requires TotalOrder(leq) && GoodIndex(leq, s) && GoodIndex(leq, t)
    requires s != [] && t != [] && s[0] in t && t[0] in s
    ensures s[0] == t[0]
  {
    RenderedPrefix(s[0].path, t[0].path);
    hide Render;
    assert leq(Render(s[0].path), Render(t[0].path)) && leq(Render(t[0].path), Render(s[0].path));
  }

  /** The full scan of a workspace. */
  function FullScan(leq: Order, disc: Path -> bool, root: Node): seq<IndexEntry>
    requires root.Dir?
  {
    Snapshot(leq, ScanEntries(disc, [], root))
  }

  /** The full scan lists exactly what stands in the tree along discoverable paths. */
  lemma FullScanMember(leq: Order, disc: Path -> bool, root: Node, e: IndexEntry)
    requires root.Dir? && WellFormed(root)
    ensures e in FullScan(leq, disc, root) <==> e.path != [] && Chain(disc, 0, e.path) && Stands(root, e.path, e)
  {
    SnapshotMember(leq, ScanEntries(disc, [], root), e);
    ScanMember(disc, [], root, e);
    assert e.path[0..] == e.path;
  }

  /**
   What the entries of a full scan say: a file its size and text, a link its own size and no text, a directory neither;
   each path that can be reached along discoverable paths has one.
   */
  lemma EntriesSay(leq: Order, disc: Path -> bool, root: Node, p: Path, kind: EntryKind, size: nat,
                   text: Option<string>)
    requires root.Dir? && WellFormed(root) && p != []
    ensures IndexEntry(p, kind, size, text) in FullScan(leq, disc, root) <==>
            && (forall k :: 0 < k <= |p| ==> disc(p[..k]))
            && Lookup(root, p).Some?
            && match Lookup(root, p).value
               case File(length, content) => kind == FileEntry && size == length && text == Some(content)
               case Symlink(length) => kind == SymlinkEntry && size == length && text == None
               case Dir(_) => kind == DirectoryEntry && size == 0 && text == None
  {
    FullScanMember(leq, disc, root, IndexEntry(p, kind, size, text));
    hide FullScan;
  }

  lemma FullScanGood(leq: Order, disc: Path -> bool, root: Node)
    requires TotalOrder(leq) && root.Dir? && WellFormed(root)
    ensures GoodIndex(leq, FullScan(leq, disc, root))
  {
    SnapshotSorted(leq, ScanEntries(disc, [], root));
    ScanDistinct(disc, [], root);
    SnapshotDistinct(leq, ScanEntries(disc, [], root));
    forall e | e in FullScan(leq, disc, root)
      ensures e.path != [] && ValidPath(e.path)
    {
      FullScanMember(leq, disc, root, e);
      LookupWellFormed(root, e.path);
    }
  }

  /** A directory tree together with what stat finds behind each symbolic link, by the path of the link. */
  datatype World = World(root: Node, follow: map<Path, Node>)

  ghost predicate GoodWorld(w: World) {
    && w.root.Dir? && WellFormed(w.root)
    && (forall p :: p in w.follow ==> !w.follow[p].Symlink? && WellFormed(w.follow[p]))
  }

  /** Found, ENOENT, or ENOTDIR because something on the way is a file. */
  datatype StatResult = Found(node: Node) | Missing | Blocked

  /** stat of at + rest, standing on `node` at `at`: symbolic links are followed, also the last one. */
  function Stat(w: World, node: Node, at: Path, rest: Path): StatResult
    decreases |rest|
  {
    var here := if node.Symlink? then (if at in w.follow then Found(w.follow[at]) else Missing) else Found(node);
    if !here.Found? || rest == [] then here
    else if !here.node.Dir? then Blocked
    else
      var child := FindChild(here.node.children, rest[0]);
      if child.None? then Missing else Stat(w, child.value, at + [rest[0]], rest[1..])
  }

  /** The stored text is the path's own, or lies below it. */
  predicate TextAtOrBelow(text: string, path: string) {
    text == path || StartsWith(text, path + "/")
  }

  function Remaining(current: seq<IndexEntry>, p: Path): (r: seq<IndexEntry>)
    ensures forall e :: e in r <==> e in current && !TextAtOrBelow(Render(e.path), Render(p))
  {
    Filter((e: IndexEntry) => !TextAtOrBelow(Render(e.path), Render(p)), current)
  }

  /** What a path contributes: a directory its subtree, anything else itself. */
  function Additions(disc: Path -> bool, p: Path, node: Node): seq<IndexEntry> {
    if node.Dir? then ScanEntries(disc, p, node) else [Describe(p, node)]
  }

  datatype IndexError = WorkspaceNotFound | UpdateFailed

  /** The index after patching one path, and whether the update failed. */
  function PatchedIndex(leq: Order, disc: Path -> bool, current: seq<IndexEntry>, w: World,
                        p: Path): Result<seq<IndexEntry>, IndexError> {
    if !disc(p) then Ok(current)
    else
      match Stat(w, w.root, [], p)
      case Blocked => Err(UpdateFailed)
      case Missing => Ok(Snapshot(leq, Remaining(current, p)))
      case Found(node) => Ok(Snapshot(leq, Remaining(current, p) + Additions(disc, p, node)))
  }

  /** Below real directories, stat differs from looking up only at a link. */
  lemma {:induction false} StatUnderDirectories(w: World, node: Node, at: Path, rest: Path)
    requires rest != []
    requires forall k :: 0 <= k < |rest| ==> Lookup(node, rest[..k]).Some? && Lookup(node, rest[..k]).value.Dir?
    ensures Stat(w, node, at, rest) ==
            match Lookup(node, rest)
            case None => Missing
            case Some(n) =>
              if !n.Symlink? then Found(n)
              else if at + rest in w.follow then Found(w.follow[at + rest]) else Missing
    decreases |rest|
  {
    assert rest[..0] == [] && Lookup(node, []) == Some(node);
    var child := FindChild(node.children, rest[0]);
    if child.Some? {
      if |rest| == 1 {
        assert rest[1..] == [] && at + [rest[0]] == at + rest;
      } else {
        forall k | 0 <= k < |rest[1..]|
          ensures Lookup(child.value, rest[1..][..k]).Some? && Lookup(child.value, rest[1..][..k]).value.Dir?
        {
          assert rest[..k + 1][1..] == rest[1..][..k];
          assert Lookup(node, rest[..k + 1]).Some?;
        }
        StatUnderDirectories(w, child.value, at + [rest[0]], rest[1..]);
        assert at + [rest[0]] + rest[1..] == at + rest;
      }
    }
  }

  /** The two trees show the same thing at every path that is not at or below p. */
  ghost predicate SameOutside(r0: Node, r1: Node, p: Path) {
    forall e: IndexEntry :: !(p <= e.path) ==> (Stands(r0, e.path, e) <==> Stands(r1, e.path, e))
  }

  ghost predicate DirectoriesAbove(root: Node, p: Path) {
    forall k :: 0 <= k < |p| ==> Lookup(root, p[..k]).Some? && Lookup(root, p[..k]).value.Dir?
  }

  /** All proper ancestors of p are discoverable. */
  ghost predicate DiscoverableAbove(disc: Path -> bool, p: Path) {
    forall k :: 0 < k < |p| ==> disc(p[..k])
  }

  ghost predicate IsLink(root: Node, p: Path) {
    Lookup(root, p).Some? && Lookup(root, p).value.Symlink?
  }

  /** Stored entries outside p survive a patch, and those at or below p are exactly the additions. */
  lemma RemainingMember(leq: Order, current: seq<IndexEntry>, p: Path, e: IndexEntry)
    requires GoodIndex(leq, current) && ValidPath(p) && p != []
    ensures e in Remaining(current, p) <==> e in current && !(p <= e.path)
  {
    if e in current {
      RenderedPrefix(p, e.path);
    }
  }

  lemma AdditionsMember(disc: Path -> bool, p: Path, node: Node, e: IndexEntry)
    requires WellFormed(node) && p != [] && disc(p)
    ensures e in Additions(disc, p, node) <==> p <= e.path && Chain(disc, |p|, e.path) && Stands(node, e.path[|p|..], e)
  {
    if node.Dir? {
      ScanMember(disc, p, node, e);
    } else if p <= e.path {
      assert e.path[..|p|] == p;
      assert Lookup(node, e.path[|p|..]).Some? ==> e.path[|p|..] == [];
      assert |e.path| == |p| ==> e.path == p && e.path[|p|..] == [];
    }
  }

  /** What is in a patched index. */
  lemma PatchedMember(leq: Order, disc: Path -> bool, current: seq<IndexEntry>, w: World, p: Path, e: IndexEntry)
    requires GoodIndex(leq, current) && GoodWorld(w) && ValidPath(p) && p != [] && disc(p)
    requires PatchedIndex(leq, disc, current, w, p).Ok?
    requires Stat(w, w.root, [], p).Found? ==> WellFormed(Stat(w, w.root, [], p).node)
    ensures var s := Stat(w, w.root, [], p);
            e in PatchedIndex(leq, disc, current, w, p).value <==>
              (e in current && !(p <= e.path))
              || (s.Found? && p <= e.path && Chain(disc, |p|, e.path) && Stands(s.node, e.path[|p|..], e))
  {
    RemainingMember(leq, current, p, e);
    var s := Stat(w, w.root, [], p);
    if s.Found? {
      SnapshotMember(leq, Remaining(current, p) + Additions(disc, p, s.node), e);
      AdditionsMember(disc, p, s.node, e);
    } else {
      SnapshotMember(leq, Remaining(current, p), e);
    }
  }

  lemma {:induction false} StatWellFormed(w: World, node: Node, at: Path, rest: Path)
    requires GoodWorld(w) && WellFormed(node)
    ensures Stat(w, node, at, rest).Found? ==> WellFormed(Stat(w, node, at, rest).node)
    decreases |rest|
  {
    var here := if node.Symlink? && at in w.follow then w.follow[at] else node;
    if rest != [] && here.Dir? && FindChild(here.children, rest[0]).Some? {
      var i := FindChildSome(here.children, rest[0]);
      StatWellFormed(w, here.children[i].node, at + [rest[0]], rest[1..]);
    }
  }

  lemma PatchedGood(leq: Order, disc: Path -> bool, current: seq<IndexEntry>, w: World, p: Path)
    requires TotalOrder(leq) && GoodIndex(leq, current) && GoodWorld(w) && ValidPath(p) && p != []
    requires PatchedIndex(leq, disc, current, w, p).Ok?
    ensures GoodIndex(leq, PatchedIndex(leq, disc, current, w, p).value)
  {
    if disc(p) {
      var s := Stat(w, w.root, [], p);
      StatWellFormed(w, w.root, [], p);
      var remaining := Remaining(current, p);
      var additions := if s.Found? then Additions(disc, p, s.node) else [];
      RemainingDistinct(current, p);
      if s.Found? {
        AdditionsGood(disc, p, s.node);
      }
      forall x, y | x in remaining && y in additions
        ensures x.path != y.path
      {
        RemainingMember(leq, current, p, x);
        AdditionsMember(disc, p, s.node, y);
      }
      DistinctConcat(remaining, additions);
      assert remaining + [] == remaining;
      SnapshotGood(leq, remaining + additions);
    }
  }

  lemma SnapshotGood(leq: Order, entries: seq<IndexEntry>)
    requires TotalOrder(leq) && DistinctPaths(entries)
    requires forall e :: e in entries ==> e.path != [] && ValidPath(e.path)
    ensures GoodIndex(leq, Snapshot(leq, entries))
  {
    SnapshotSorted(leq, entries);
    SnapshotDistinct(leq, entries);
    forall e | e in Snapshot(leq, entries)
      ensures e.path != [] && ValidPath(e.path)
    {
      SnapshotMember(leq, entries, e);
    }
  }

  lemma AdditionsGood(disc: Path -> bool, p: Path, node: Node)
    requires WellFormed(node) && p != [] && ValidPath(p) && disc(p)
    ensures DistinctPaths(Additions(disc, p, node))
    ensures forall e :: e in Additions(disc, p, node) ==> e.path != [] && ValidPath(e.path)
  {
    if node.Dir? {
      ScanDistinct(disc, p, node);
    }
    forall e | e in Additions(disc, p, node)
      ensures e.path != [] && ValidPath(e.path)
    {
      AdditionsMember(disc, p, node, e);
      LookupWellFormed(node, e.path[|p|..]);
      assert e.path == p + e.path[|p|..];
    }
  }

  lemma {:induction false} RemainingDistinct(current: seq<IndexEntry>, p: Path)
    requires DistinctPaths(current)
    ensures DistinctPaths(Remaining(current, p))
  {
    hide TextAtOrBelow, Render;
    if current != [] {
      RemainingDistinct(current[1..], p);
      forall x | x in Remaining(current[1..], p)
        ensures x.path != current[0].path
      {
      }
      DistinctConcat([current[0]], Remaining(current[1..], p));
    }
  }

  /** A full scan gets to p: all its proper ancestors are discoverable, and real directories. */
  ghost predicate ScanReaches(disc: Path -> bool, root: Node, p: Path) {
    DirectoriesAbove(root, p) && DiscoverableAbove(disc, p)
  }

  /** The condition under which patching a path gives what a full scan would give. */
  ghost predicate PatchSuffices(disc: Path -> bool, w: World, p: Path) {
    disc(p) ==> if ScanReaches(disc, w.root, p) then !IsLink(w.root, p) else Stat(w, w.root, [], p) == Missing
  }

  /** Nothing stands below what is no directory. */
  lemma NothingBelow(root: Node, p: Path, e: IndexEntry)
    requires !DirectoriesAbove(root, p) && p <= e.path
    ensures !Stands(root, e.path, e)
  {
    var k :| 0 <= k < |p| && !(Lookup(root, p[..k]).Some? && Lookup(root, p[..k]).value.Dir?);
    LookupConcat(root, e.path[..k], e.path[k..]);
    assert e.path == e.path[..k] + e.path[k..] && e.path[..k] == p[..k] && e.path[k..] != [];
  }

  /** What stat says about p, and what a patch at p therefore is. */
  lemma StatSummary(leq: Order, disc: Path -> bool, current: seq<IndexEntry>, w: World, p: Path)
    requires GoodWorld(w) && p != [] && DirectoriesAbove(w.root, p)
    ensures var s, n := Stat(w, w.root, [], p), Lookup(w.root, p);
            && (n.None? ==> s == Missing)
            && (n.Some? && !n.value.Symlink? ==> s == Found(n.value))
            && (n.Some? && n.value.Symlink? ==> s == Missing || (s.Found? && !s.node.Symlink?))
            && (s.Found? ==> WellFormed(s.node))
    ensures PatchedIndex(leq, disc, current, w, p).Ok?
    ensures !disc(p) ==> PatchedIndex(leq, disc, current, w, p) == Ok(current)
  {
    StatUnderDirectories(w, w.root, [], p);
    StatWellFormed(w, w.root, [], p);
  }

  lemma StandsSplit(root: Node, p: Path, e: IndexEntry)
    requires p <= e.path
    ensures Stands(root, e.path, e) <==> Lookup(root, p).Some? && Stands(Lookup(root, p).value, e.path[|p|..], e)
  {
    assert e.path == p + e.path[|p|..];
    LookupConcat(root, p, e.path[|p|..]);
  }

  /** Entry by entry, a sufficient patch of the old full scan shows the new full scan. */
  lemma PatchedEntryAgrees(leq: Order, disc: Path -> bool, r0: Node, w: World, p: Path, e: IndexEntry)
    requires TotalOrder(leq) && r0.Dir? && WellFormed(r0) && GoodWorld(w) && ValidPath(p) && p != []
    requires SameOutside(r0, w.root, p) && PatchSuffices(disc, w, p)
    ensures var r := PatchedIndex(leq, disc, FullScan(leq, disc, r0), w, p);
            r.Ok? && (e in r.value <==> e in FullScan(leq, disc, w.root))
  {
    var current := FullScan(leq, disc, r0);
    assert !(p <= e.path) ==> (Stands(r0, e.path, e) <==> Stands(w.root, e.path, e));
    WhatPatchDoes(leq, disc, current, w, p);
    StatWellFormed(w, w.root, [], p);
    if p <= e.path {
      ChainSplit(disc, p, e.path);
      if DirectoriesAbove(w.root, p) {
        StandsSplit(w.root, p, e);
        StatSummary(leq, disc, current, w, p);
      } else {
        NothingBelow(w.root, p, e);
      }
    }
    hide FullScan, PatchedIndex, Stat, Stands, Lookup, Chain, DiscoverableAbove, SameOutside, DirectoriesAbove;
    hide GoodIndex, WellFormed, TotalOrder;
    FullScanGood(leq, disc, r0);
    FullScanMember(leq, disc, r0, e);
    FullScanMember(leq, disc, w.root, e);
    if disc(p) {
      PatchedMember(leq, disc, current, w, p, e);
    }
  }

  lemma WhatPatchDoes(leq: Order, disc: Path -> bool, current: seq<IndexEntry>, w: World, p: Path)
    requires GoodWorld(w) && p != [] && PatchSuffices(disc, w, p)
    ensures PatchedIndex(leq, disc, current, w, p).Ok?
    ensures !disc(p) ==> PatchedIndex(leq, disc, current, w, p) == Ok(current)
  {
    if DirectoriesAbove(w.root, p) {
      StatSummary(leq, disc, current, w, p);
    }
  }

  lemma ChainSplit(disc: Path -> bool, p: Path, q: Path)
    requires p <= q && p != []
    ensures Chain(disc, 0, q) <==> DiscoverableAbove(disc, p) && Chain(disc, |p|, q)
    ensures Chain(disc, |p|, q) ==> disc(p)
    ensures disc(p) ==> Chain(disc, |p|, p)
  {
    assert forall k :: 0 <= k <= |p| ==> q[..k] == p[..k];
    assert q[..|p|] == p && p[..|p|] == p;
  }

  /** The full scan shows a link itself, the patch what is behind it, or nothing. */
  lemma LinkDiffers(leq: Order, disc: Path -> bool, current: seq<IndexEntry>, w: World, p: Path)
    requires GoodIndex(leq, current) && GoodWorld(w) && ValidPath(p) && p != []
    requires DirectoriesAbove(w.root, p) && disc(p) && DiscoverableAbove(disc, p) && IsLink(w.root, p)
    ensures PatchedIndex(leq, disc, current, w, p) != Ok(FullScan(leq, disc, w.root))
  {
    var e := Describe(p, Lookup(w.root, p).value);
    StatSummary(leq, disc, current, w, p);
    ChainSplit(disc, p, p);
    assert p[|p|..] == [];
    hide FullScan, PatchedIndex, Stat, Chain, DiscoverableAbove, DirectoriesAbove, GoodIndex, WellFormed, GoodWorld;
    FullScanMember(leq, disc, w.root, e);
    PatchedMember(leq, disc, current, w, p, e);
  }

  /**
   The full scan never gets to a path below an undiscoverable directory, a link or a file; a patch that finds
   something there does.
   */
  lemma UnreachableDiffers(leq: Order, disc: Path -> bool, current: seq<IndexEntry>, w: World, p: Path)
    requires GoodIndex(leq, current) && GoodWorld(w) && ValidPath(p) && p != []
    requires disc(p) && !ScanReaches(disc, w.root, p) && Stat(w, w.root, [], p).Found?
    ensures PatchedIndex(leq, disc, current, w, p) != Ok(FullScan(leq, disc, w.root))
  {
    var s := Stat(w, w.root, [], p);
    var e := Describe(p, s.node);
    StatWellFormed(w, w.root, [], p);
    ChainSplit(disc, p, p);
    assert p[|p|..] == [];
    if !DirectoriesAbove(w.root, p) {
      NothingBelow(w.root, p, e);
    }
    assert PatchedIndex(leq, disc, current, w, p).Ok?;
    hide FullScan, PatchedIndex, Stat, Chain, DiscoverableAbove, DirectoriesAbove, GoodIndex, WellFormed, GoodWorld;
    assert Stands(s.node, [], e);
    FullScanMember(leq, disc, w.root, e);
    PatchedMember(leq, disc, current, w, p, e);
  }

  lemma BlockedIsAnError(leq: Order, disc: Path -> bool, current: seq<IndexEntry>, w: World, p: Path)
    requires disc(p) && Stat(w, w.root, [], p).Blocked?
    ensures PatchedIndex(leq, disc, current, w, p) == Err(UpdateFailed)
  {
  }

  /**
   The old full scan patched at p is the new full scan, list for list, exactly when p is not
   discoverable, or it is reached along real discoverable directories and is no link, or it is not and
   stat finds nothing there. It covers p removed, a file turned directory and a directory turned file.
   */
  lemma IndexPathAgreesIff(leq: Order, disc: Path -> bool, r0: Node, w: World, p: Path)
    requires TotalOrder(leq) && r0.Dir? && WellFormed(r0) && GoodWorld(w) && ValidPath(p) && p != []
    requires SameOutside(r0, w.root, p)
    ensures PatchedIndex(leq, disc, FullScan(leq, disc, r0), w, p) == Ok(FullScan(leq, disc, w.root)) <==>
              PatchSuffices(disc, w, p)
  {
    var current := FullScan(leq, disc, r0);
    FullScanGood(leq, disc, r0);
    hide PatchedIndex, FullScan, SameOutside, DirectoriesAbove, DiscoverableAbove, IsLink, Stat, GoodIndex;
    if PatchSuffices(disc, w, p) {
      FullScanGood(leq, disc, w.root);
      forall e: IndexEntry
        ensures var r := PatchedIndex(leq, disc, current, w, p);
                r.Ok? && (e in r.value <==> e in FullScan(leq, disc, w.root))
      {
        PatchedEntryAgrees(leq, disc, r0, w, p, e);
      }
      WhatPatchDoes(leq, disc, current, w, p);
      PatchedGood(leq, disc, current, w, p);
      GoodIndexUnique(leq, PatchedIndex(leq, disc, current, w, p).value, FullScan(leq, disc, w.root));
    } else if ScanReaches(disc, w.root, p) {
      LinkDiffers(leq, disc, current, w, p);
    } else if Stat(w, w.root, [], p).Found? {
      UnreachableDiffers(leq, disc, current, w, p);
    } else {
      BlockedIsAnError(leq, disc, current, w, p);
    }
  }

  /** What a patch leaves in the store: nothing is saved for an undiscoverable path or after a failed update. */
  function StoredAfter(leq: Order, disc: Path -> bool, current: seq<IndexEntry>, w: World, p: Path): seq<IndexEntry> {
    var r := PatchedIndex(leq, disc, current, w, p);
    if disc(p) && r.Ok? then r.value else current
  }

  /** A path that is blocked is below a link or a file: nothing stands there, and nothing did before. */
  lemma BlockedChangesNothing(leq: Order, disc: Path -> bool, r0: Node, w: World, p: Path)
    requires TotalOrder(leq) && r0.Dir? && WellFormed(r0) && GoodWorld(w) && p != []
    requires SameOutside(r0, w.root, p) && Stat(w, w.root, [], p).Blocked?
    ensures FullScan(leq, disc, r0) == FullScan(leq, disc, w.root)
  {
    if DirectoriesAbove(w.root, p) {
      StatUnderDirectories(w, w.root, [], p);
      assert false;
    }
    NorBefore(r0, w.root, p);
    FullScanGood(leq, disc, r0);
    FullScanGood(leq, disc, w.root);
    hide FullScan, Stat, Stands, DirectoriesAbove, WellFormed, GoodIndex, TotalOrder;
    forall e: IndexEntry
      ensures e in FullScan(leq, disc, r0) <==> e in FullScan(leq, disc, w.root)
    {
      FullScanMember(leq, disc, r0, e);
      FullScanMember(leq, disc, w.root, e);
      if p <= e.path {
        NothingBelow(r0, p, e);
        NothingBelow(w.root, p, e);
      }
    }
    GoodIndexUnique(leq, FullScan(leq, disc, r0), FullScan(leq, disc, w.root));
  }

  /** The directories above a path do not change with what is at or below it. */
  lemma NorBefore(r0: Node, r1: Node, p: Path)
    requires SameOutside(r0, r1, p) && !DirectoriesAbove(r1, p)
    ensures !DirectoriesAbove(r0, p)
  {
    var k :| 0 <= k < |p| && !(Lookup(r1, p[..k]).Some? && Lookup(r1, p[..k]).value.Dir?);
    var e := IndexEntry(p[..k], DirectoryEntry, 0, None);
    assert !(p <= e.path);
    assert Stands(r0, e.path, e) <==> Stands(r1, e.path, e);
  }

  /**
   The stored index, a full scan of the old tree, is the full scan of the new one after the patch, list for list,
   exactly when the patch suffices, or stat is blocked: then the answer is an error, and what is stored is right.
   */
  lemma StoredIndexAgreesIff(leq: Order, disc: Path -> bool, r0: Node, w: World, p: Path)
    requires TotalOrder(leq) && r0.Dir? && WellFormed(r0) && GoodWorld(w) && ValidPath(p) && p != []
    requires SameOutside(r0, w.root, p)
    ensures StoredAfter(leq, disc, FullScan(leq, disc, r0), w, p) == FullScan(leq, disc, w.root) <==>
            PatchSuffices(disc, w, p) || Stat(w, w.root, [], p).Blocked?
  {
    hide FullScan, Stat, SameOutside, WellFormed, GoodWorld, TotalOrder, PatchSuffices, ValidPath;
    IndexPathAgreesIff(leq, disc, r0, w, p);
    if Stat(w, w.root, [], p).Blocked? {
      BlockedChangesNothing(leq, disc, r0, w, p);
    }
    if !disc(p) {
      UndiscoverableSuffices(disc, w, p);
    }
    hide Snapshot, Remaining, Additions;
  }

  lemma UndiscoverableSuffices(disc: Path -> bool, w: World, p: Path)
    requires !disc(p)
    ensures PatchSuffices(disc, w, p)
  {
  }

  const LINKED := Dir([Child("l", Symlink(1))])
  const BEHIND := Dir([Child("x", File(0, ""))])
  const AT_LINK: Path := ["l"]
  const BELOW_LINK: Path := ["l", "x"]

  /** One link to a directory with one file: patching at the link, or at the file behind it, gives no full scan. */
  lemma LinkedDirectoryDiffers(leq: Order, disc: Path -> bool, w: World)
    requires TotalOrder(leq) && (forall p :: disc(p)) && w == World(LINKED, map[AT_LINK := BEHIND])
    ensures PatchedIndex(leq, disc, FullScan(leq, disc, LINKED), w, AT_LINK) != Ok(FullScan(leq, disc, LINKED))
    ensures PatchedIndex(leq, disc, FullScan(leq, disc, LINKED), w, BELOW_LINK) != Ok(FullScan(leq, disc, LINKED))
  {
    LinkedStat(w);
    hide FullScan, PatchedIndex, Stat, Lookup, WellFormed, ValidPath, DirectoriesAbove;
    IndexPathAgreesIff(leq, disc, LINKED, w, AT_LINK);
    IndexPathAgreesIff(leq, disc, LINKED, w, BELOW_LINK);
  }

  lemma LinkedStat(w: World)
    requires w == World(LINKED, map[AT_LINK := BEHIND])
    ensures GoodWorld(w) && ValidPath(AT_LINK) && ValidPath(BELOW_LINK)
    ensures DirectoriesAbove(LINKED, AT_LINK) && IsLink(LINKED, AT_LINK)
    ensures !DirectoriesAbove(LINKED, BELOW_LINK) && Stat(w, LINKED, [], BELOW_LINK).Found?
  {
    var link, file := Symlink(1), File(0, "");
    assert "l"[0] == 'l' && "x"[0] == 'x';
    assert AT_LINK[1..] == [] && BELOW_LINK[..1] == AT_LINK && BELOW_LINK[1..] == ["x"] && ["x"][1..] == [];
    assert [] + ["l"] == AT_LINK;
    assert FindChild(LINKED.children, "l") == Some(link) && FindChild(BEHIND.children, "x") == Some(file);
    assert Lookup(LINKED, AT_LINK) == Some(link) by { assert Lookup(link, []) == Some(link); }
    assert Stat(w, file, ["l", "x"], []) == Found(file);
    assert Stat(w, link, AT_LINK, ["x"]) == Found(file);
  }

  /** The service, for workspaces known by id, with the stored snapshots. */
  class WorkspaceIndexService {
    const workspaces: set<string>
    const leq: Order
    var store: map<string, seq<IndexEntry>>

    constructor (workspaces: set<string>, leq: Order)
      ensures this.workspaces == workspaces && this.leq == leq && store == map[]
    {
      this.workspaces, this.leq, store := workspaces, leq, map[];
    }

    function Current(id: string): seq<IndexEntry>
      reads this
    {
      if id in store then store[id] else []
    }

    method IndexWorkspace(id: string, disc: Path -> bool, w: World) returns (r: Result<seq<IndexEntry>, IndexError>)
      requires w.root.Dir?
      modifies this
      ensures id !in workspaces ==> r == Err(WorkspaceNotFound) && store == old(store)
      ensures id in workspaces ==>
                r == Ok(FullScan(leq, disc, w.root)) && store == old(store)[id := FullScan(leq, disc, w.root)]
    {
      if id !in workspaces {
        return Err(WorkspaceNotFound);
      }
      var entries := ScanDirectory(disc, [], w.root, []);
      assert [] + ScanEntries(disc, [], w.root) == ScanEntries(disc, [], w.root);
      store := store[id := Snapshot(leq, entries)];
      return Ok(store[id]);
    }

    method IndexPath(id: string, disc: Path -> bool, w: World, p: Path) returns (r: Result<seq<IndexEntry>, IndexError>)
      requires w.root.Dir?
      modifies this
      ensures id !in workspaces ==> r == Err(WorkspaceNotFound) && store == old(store)
      ensures id in workspaces && p == [] ==>
                r == Ok(FullScan(leq, disc, w.root)) && store == old(store)[id := FullScan(leq, disc, w.root)]
      ensures id in workspaces && p != [] ==> r == PatchedIndex(leq, disc, old(Current(id)), w, p)
      ensures id in workspaces && p != [] ==> Current(id) == StoredAfter(leq, disc, old(Current(id)), w, p)
      ensures id in workspaces && p != [] ==>
                store == if disc(p) && r.Ok? then old(store)[id := r.value] else old(store)
    {
      hide FullScan, Snapshot, Remaining, ScanEntries, Stat, Describe;
      if id !in workspaces {
        return Err(WorkspaceNotFound);
      }
      if p == [] {
        r := IndexWorkspace(id, disc, w);
        return;
      }
      var current := Current(id);
      if !disc(p) {
        return Ok(current);
      }
      var remaining := Remaining(current, p);
      match Stat(w, w.root, [], p) {
        case Found(node) =>
          var additions: seq<IndexEntry> := [];
          if node.Dir? {
            additions := ScanDirectory(disc, p, node, additions);
            assert [] + ScanEntries(disc, p, node) == ScanEntries(disc, p, node);
          } else {
            additions := additions + [Describe(p, node)];
          }
          assert additions == Additions(disc, p, node);
          store := store[id := Snapshot(leq, remaining + additions)];
          return Ok(store[id]);
        case Missing =>
          store := store[id := Snapshot(leq, remaining)];
          return Ok(store[id]);
        case Blocked =>
          return Err(UpdateFailed);
      }
    }

    method RemovePath(id: string, p: Path) returns (r: Result<seq<IndexEntry>, IndexError>)
      modifies this
      ensures id !in workspaces ==> r == Err(WorkspaceNotFound) && store == old(store)
      ensures id in workspaces ==>
                r == Ok(Snapshot(leq, Remaining(old(Current(id)), p))) && store == old(store)[id := r.value]
    {
      if id !in workspaces {
        return Err(WorkspaceNotFound);
      }
      store := store[id := Snapshot(leq, Remaining(Current(id), p))];
      return Ok(store[id]);
    }
  }
}
