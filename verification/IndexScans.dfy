/** One update of the index in steps: a scan reads the tree again for every stat, readdir and file read. */
module IndexScans {
  import opened Wrappers
  import opened Sequences
  import opened WorkspaceTree
  import opened WorkspaceIndex

  datatype Setting = Setting(leq: Order, disc: Path -> bool, concurrency: nat)

  ghost predicate NoLinks(node: Node) {
    !node.Symlink? && (node.Dir? ==> forall i :: 0 <= i < |node.children| ==> NoLinks(node.children[i].node))
  }

  ghost predicate GoodDisk(root: Node) {
    root.Dir? && WellFormed(root) && NoLinks(root)
  }

  function PlainWorld(disk: Node): World {
    World(disk, map[])
  }

  ghost predicate IsDirAt(root: Node, a: Path) {
    Lookup(root, a).Some? && Lookup(root, a).value.Dir?
  }

  /**
   What a scan has still to read: the first stat of the path, a directory to describe and to list, one to list, a
   path that was listed as no directory, or a file whose size has been read and whose bytes have not.
   */
  datatype Item =
    | Probe(path: Path)
    | Visit(path: Path)
    | List(path: Path)
    | Leaf(path: Path)
    | ReadFile(path: Path, size: nat)

  /** What one read gives: entries and further reads, or an exception, which is ENOENT or another. */
  datatype Reading = Got(entries: seq<IndexEntry>, items: seq<Item>) | Throws(missing: bool)

  /** The reads that a listing asks for: those of its discoverable children. */
  function ItemsFor(disc: Path -> bool, path: Path, children: seq<Child>): seq<Item> {
    if children == [] then []
    else
      var childPath := path + [children[0].name];
      var rest := ItemsFor(disc, path, children[1..]);
      if !disc(childPath) then rest
      else [if children[0].node.Dir? then Visit(childPath) else Leaf(childPath)] + rest
  }

  /** One await of the scan, on the tree as it is at that moment. */
  function ReadItem(disc: Path -> bool, disk: Node, item: Item): Reading {
    match Stat(PlainWorld(disk), disk, [], item.path)
    case Missing => Throws(true)
    case Blocked => Throws(false)
    case Found(node) =>
      match item
      case Probe(q) => Got([], [if node.Dir? then Visit(q) else ReadFile(q, node.size)])
      case Visit(q) =>
        if node.Dir? then Got([Describe(q, node)], [List(q)]) else Got([], [ReadFile(q, node.size), List(q)])
      case List(q) => if node.Dir? then Got([], ItemsFor(disc, q, node.children)) else Throws(false)
      case Leaf(q) => if node.Dir? then Got([Describe(q, node)], []) else Got([], [ReadFile(q, node.size)])
      case ReadFile(q, size) =>
        if node.File? then Got([IndexEntry(q, FileEntry, size, Some(node.text))], []) else Throws(false)
  }

  /** Where a worker is in updating its path. */
  datatype Job =
    | Picked(path: Path)
    | Scanning(path: Path, current: seq<IndexEntry>, entries: seq<IndexEntry>, agenda: seq<Item>)
    | Scanned(path: Path, result: Option<seq<IndexEntry>>)

  /** The stored index has been read: an undiscoverable path needs no scan, and nothing will be saved. */
  function Begin(setting: Setting, index: seq<IndexEntry>, p: Path): Job {
    if setting.disc(p) then Scanning(p, index, [], [Probe(p)]) else Scanned(p, None)
  }

  /** The entries that a scan of p leaves. */
  function Patched(leq: Order, current: seq<IndexEntry>, p: Path, entries: seq<IndexEntry>): seq<IndexEntry> {
    Snapshot(leq, Remaining(current, p) + entries)
  }

  /**
   One read further: an exception ends the scan, ENOENT as if the path itself were gone, and the last read ends
   it, too.
   */
  function Advance(setting: Setting, disk: Node, job: Job): Job
    requires job.Scanning? && job.agenda != []
  {
    match ReadItem(setting.disc, disk, job.agenda[0])
    case Throws(missing) =>
      Scanned(job.path, if missing then Some(Patched(setting.leq, job.current, job.path, [])) else None)
    case Got(found, items) =>
      var entries, agenda := job.entries + found, items + job.agenda[1..];
      if agenda == [] then Scanned(job.path, Some(Patched(setting.leq, job.current, job.path, entries)))
      else Scanning(job.path, job.current, entries, agenda)
  }

  /** What an undisturbed update ends up with: nothing to save for an undiscoverable path or a failed update. */
  function Outcome(setting: Setting, current: seq<IndexEntry>, disk: Node, p: Path): Option<seq<IndexEntry>> {
    var r := PatchedIndex(setting.leq, setting.disc, current, PlainWorld(disk), p);
    if setting.disc(p) && r.Ok? then Some(r.value) else None
  }

  /** Without links, stat finds what stands there, and is blocked only by a file further up. */
  lemma {:induction false} StatPlain(root: Node, node: Node, at: Path, rest: Path)
    requires NoLinks(node)
    ensures var s := Stat(PlainWorld(root), node, at, rest);
            && (s.Found? <==> Lookup(node, rest).Some?)
            && (s.Found? ==> s.node == Lookup(node, rest).value && NoLinks(s.node))
            && (s.Blocked? ==> exists k :: 0 <= k < |rest| && !IsDirAt(node, rest[..k]))
    decreases |rest|
  {
    if rest != [] {
      assert rest[..0] == [];
      assert IsDirAt(node, rest[..0]) <==> node.Dir?;
      if node.Dir? && FindChild(node.children, rest[0]).Some? {
        var i := FindChildSome(node.children, rest[0]);
        var child := node.children[i].node;
        StatPlain(root, child, at + [rest[0]], rest[1..]);
        if k :| 0 <= k < |rest[1..]| && !IsDirAt(child, rest[1..][..k]) {
          assert rest[..k + 1][1..] == rest[1..][..k];
          assert !IsDirAt(node, rest[..k + 1]);
        }
      }
    }
  }

  /** What stands in the tree has directories all the way up. */
  lemma StandingHasDirectories(root: Node, q: Path, k: nat)
    requires Lookup(root, q).Some? && k < |q|
    ensures IsDirAt(root, q[..k])
  {
    LookupConcat(root, q[..k], q[k..]);
    assert q[..k] + q[k..] == q;
  }

  lemma StandsHasDirectories(disk: Node, e: IndexEntry, k: nat)
    requires Stands(disk, e.path, e) && k < |e.path|
    ensures IsDirAt(disk, e.path[..k])
  {
    StandingHasDirectories(disk, e.path, k);
  }

  /** n reads, none of which throws, lead from one stage of a scan to another while the tree stands still. */
  ghost predicate Goes(disc: Path -> bool, disk: Node, entries: seq<IndexEntry>, agenda: seq<Item>, n: nat,
                       entries': seq<IndexEntry>, agenda': seq<Item>)
    decreases n
  {
    if n == 0 then entries == entries' && agenda == agenda'
    else
      && agenda != []
      && var r := ReadItem(disc, disk, agenda[0]);
         r.Got? && Goes(disc, disk, entries + r.entries, r.items + agenda[1..], n - 1, entries', agenda')
  }

  lemma {:induction false} GoesOn(disc: Path -> bool, disk: Node, entries: seq<IndexEntry>, agenda: seq<Item>, n: nat,
                                  entries1: seq<IndexEntry>, agenda1: seq<Item>, m: nat,
                                  entries2: seq<IndexEntry>, agenda2: seq<Item>)
    requires Goes(disc, disk, entries, agenda, n, entries1, agenda1)
    requires Goes(disc, disk, entries1, agenda1, m, entries2, agenda2)
    ensures Goes(disc, disk, entries, agenda, n + m, entries2, agenda2)
    decreases n
  {
    if n > 0 {
      hide ReadItem;
      var r := ReadItem(disc, disk, agenda[0]);
      GoesOn(disc, disk, entries + r.entries, r.items + agenda[1..], n - 1, entries1, agenda1, m, entries2, agenda2);
    }
  }

  /** One read of the first item. */
  lemma GoesOnce(disc: Path -> bool, disk: Node, entries: seq<IndexEntry>, item: Item, rest: seq<Item>,
                 found: seq<IndexEntry>, items: seq<Item>)
    requires ReadItem(disc, disk, item) == Got(found, items)
    ensures Goes(disc, disk, entries, [item] + rest, 1, entries + found, items + rest)
  {
    hide ReadItem;
    assert ([item] + rest)[1..] == rest;
    assert Goes(disc, disk, entries + found, items + rest, 0, entries + found, items + rest);
  }

  /** Whatever is found in a tree without links is found by stat, too. */
  lemma StatFinds(disk: Node, q: Path)
    requires NoLinks(disk) && Lookup(disk, q).Some?
    ensures Stat(PlainWorld(disk), disk, [], q) == Found(Lookup(disk, q).value)
  {
    StatPlain(disk, disk, [], q);
  }

  /** A directory that stands still is scanned as the recursive listing says. */
  lemma {:induction false} VisitGoes(disc: Path -> bool, disk: Node, q: Path, dir: Node, entries: seq<IndexEntry>,
                                     rest: seq<Item>)
    returns (n: nat)
    requires NoLinks(disk) && WellFormed(dir) && dir.Dir? && Lookup(disk, q) == Some(dir) && q != [] && disc(q)
    ensures Goes(disc, disk, entries, [Visit(q)] + rest, n, entries + ScanEntries(disc, q, dir), rest)
    decreases dir, 1
  {
    StatFinds(disk, q);
    var own := [Describe(q, dir)];
    GoesOnce(disc, disk, entries, Visit(q), rest, own, [List(q)]);
    GoesOnce(disc, disk, entries + own, List(q), rest, [], ItemsFor(disc, q, dir.children));
    forall i | 0 <= i < |dir.children|
      ensures Lookup(disk, q + [dir.children[i].name]) == Some(dir.children[i].node)
    {
      ChildStands(disk, q, dir, i);
    }
    Neutral(entries + own);
    var m := ItemsGo(disc, disk, q, dir.children, entries + own, rest);
    hide Goes, ReadItem, ItemsFor, ScanChildren;
    var listed, items := entries + own, ItemsFor(disc, q, dir.children);
    GoesOn(disc, disk, listed, [List(q)] + rest, 1, listed, items + rest, m,
      listed + ScanChildren(disc, q, dir.children), rest);
    Associative(entries, own, ScanChildren(disc, q, dir.children));
    GoesOn(disc, disk, entries, [Visit(q)] + rest, 1, listed, [List(q)] + rest, 1 + m,
      entries + ScanEntries(disc, q, dir), rest);
    n := 2 + m;
  }

  lemma ChildStands(disk: Node, q: Path, dir: Node, i: nat)
    requires dir.Dir? && UniqueNames(dir.children) && Lookup(disk, q) == Some(dir) && i < |dir.children|
    ensures Lookup(disk, q + [dir.children[i].name]) == Some(dir.children[i].node)
  {
    var name := dir.children[i].name;
    LookupConcat(disk, q, [name]);
    FindChildAt(dir.children, i);
    assert [name][1..] == [];
    assert Lookup(dir.children[i].node, []) == Some(dir.children[i].node);
  }

  /** The reads that a listing asks for, on a tree that stands still. */
  lemma {:induction false} ItemsGo(disc: Path -> bool, disk: Node, q: Path, children: seq<Child>,
                                   entries: seq<IndexEntry>, rest: seq<Item>)
    returns (n: nat)
    requires NoLinks(disk)
    requires forall i :: 0 <= i < |children| ==>
               WellFormed(children[i].node) && Lookup(disk, q + [children[i].name]) == Some(children[i].node)
    ensures Goes(disc, disk, entries, ItemsFor(disc, q, children) + rest, n,
                 entries + ScanChildren(disc, q, children), rest)
    decreases children, 0
  {
    if children == [] {
      Neutral(entries);
      Neutral(rest);
      n := 0;
    } else {
      var first, more, childPath := children[0], ItemsFor(disc, q, children[1..]), q + [children[0].name];
      var own := ScanChild(disc, childPath, first.node);
      assert forall i :: 0 <= i < |children[1..]| ==> children[1..][i] == children[i + 1];
      var m := ItemsGo(disc, disk, q, children[1..], entries + own, rest);
      Associative(entries, own, ScanChildren(disc, q, children[1..]));
      if !disc(childPath) {
        Neutral(entries);
        n := m;
      } else {
        var k := ChildGoes(disc, disk, childPath, first.node, entries, more + rest);
        hide Goes, ReadItem, ItemsFor, ScanChildren, ScanChild;
        var item := if first.node.Dir? then Visit(childPath) else Leaf(childPath);
        Associative([item], more, rest);
        GoesOn(disc, disk, entries, [item] + (more + rest), k, entries + own, more + rest,
               m, (entries + own) + ScanChildren(disc, q, children[1..]), rest);
        n := k + m;
        FirstItem(disc, q, children);
      }
    }
  }

  lemma FirstItem(disc: Path -> bool, q: Path, children: seq<Child>)
    requires children != [] && disc(q + [children[0].name])
    ensures var childPath := q + [children[0].name];
            ItemsFor(disc, q, children) ==
            [if children[0].node.Dir? then Visit(childPath) else Leaf(childPath)] + ItemsFor(disc, q, children[1..])
    ensures ScanChildren(disc, q, children) ==
            ScanChild(disc, q + [children[0].name], children[0].node) + ScanChildren(disc, q, children[1..])
  {
  }

  lemma {:induction false} ChildGoes(disc: Path -> bool, disk: Node, q: Path, node: Node, entries: seq<IndexEntry>,
                                     rest: seq<Item>)
    returns (n: nat)
    requires NoLinks(disk) && WellFormed(node) && Lookup(disk, q) == Some(node) && q != [] && disc(q)
    ensures Goes(disc, disk, entries, [if node.Dir? then Visit(q) else Leaf(q)] + rest, n,
                 entries + ScanChild(disc, q, node), rest)
    decreases node, 2
  {
    if node.Dir? {
      n := VisitGoes(disc, disk, q, node, entries, rest);
    } else {
      StatPlain(disk, disk, [], q);
      var read := ReadFile(q, node.size);
      GoesOnce(disc, disk, entries, Leaf(q), rest, [], [read]);
      FileGoes(disc, disk, q, node, entries, rest);
      Neutral(entries);
      hide Goes, ReadItem;
      GoesOn(disc, disk, entries, [Leaf(q)] + rest, 1, entries, [read] + rest, 1, entries + [Describe(q, node)], rest);
      n := 2;
    }
  }

  lemma FileGoes(disc: Path -> bool, disk: Node, q: Path, node: Node, entries: seq<IndexEntry>, rest: seq<Item>)
    requires NoLinks(disk) && Lookup(disk, q) == Some(node) && !node.Dir?
    ensures Goes(disc, disk, entries, [ReadFile(q, node.size)] + rest, 1, entries + [Describe(q, node)], rest)
  {
    StatPlain(disk, disk, [], q);
    Neutral(rest);
    GoesOnce(disc, disk, entries, ReadFile(q, node.size), rest, [Describe(q, node)], []);
  }

  /** n steps of a job on a tree that stands still. */
  function AdvanceBy(setting: Setting, disk: Node, job: Job, n: nat): Job
    decreases n
  {
    if n == 0 || !job.Scanning? || job.agenda == [] then job
    else AdvanceBy(setting, disk, Advance(setting, disk, job), n - 1)
  }

  lemma {:induction false} GoesToTheEnd(setting: Setting, disk: Node, job: Job, n: nat, entries: seq<IndexEntry>)
    requires job.Scanning? && job.agenda != []
    requires Goes(setting.disc, disk, job.entries, job.agenda, n, entries, [])
    ensures AdvanceBy(setting, disk, job, n) ==
            Scanned(job.path, Some(Patched(setting.leq, job.current, job.path, entries)))
    decreases n
  {
    hide ReadItem, Patched;
    var r := ReadItem(setting.disc, disk, job.agenda[0]);
    var next := Advance(setting, disk, job);
    if next.Scanning? {
      GoesToTheEnd(setting, disk, next, n - 1, entries);
    } else {
      GoesNowhere(setting.disc, disk, job.entries + r.entries, n - 1, entries);
      assert AdvanceBy(setting, disk, next, n - 1) == next;
    }
  }

  lemma GoesNowhere(disc: Path -> bool, disk: Node, entries: seq<IndexEntry>, n: nat, entries': seq<IndexEntry>)
    requires Goes(disc, disk, entries, [], n, entries', [])
    ensures entries == entries'
  {
  }

  /** Read by read, on a tree that stands still, an update ends up with the patched index. */
  lemma StillScanIsPatch(setting: Setting, disk: Node, current: seq<IndexEntry>, p: Path) returns (n: nat)
    requires GoodDisk(disk) && p != []
    ensures AdvanceBy(setting, disk, Begin(setting, current, p), n) == Scanned(p, Outcome(setting, current, disk, p))
  {
    if !setting.disc(p) {
      n := 0;
    } else {
      var job := Begin(setting, current, p);
      StatPlain(disk, disk, [], p);
      if Stat(PlainWorld(disk), disk, [], p).Found? {
        var node := Lookup(disk, p).value;
        LookupWellFormed(disk, p);
        n := ProbeGoes(setting.disc, disk, p, node);
        GoesToTheEnd(setting, disk, job, n, Additions(setting.disc, p, node));
      } else {
        Neutral(Remaining(current, p));
        assert AdvanceBy(setting, disk, Advance(setting, disk, job), 0) == Advance(setting, disk, job);
        n := 1;
      }
    }
  }

  lemma ProbeGoes(disc: Path -> bool, disk: Node, p: Path, node: Node) returns (n: nat)
    requires NoLinks(disk) && WellFormed(node) && Lookup(disk, p) == Some(node) && p != [] && disc(p)
    ensures n > 0 && Goes(disc, disk, [], [Probe(p)], n, Additions(disc, p, node), [])
  {
    StatPlain(disk, disk, [], p);
    var item := if node.Dir? then Visit(p) else ReadFile(p, node.size);
    GoesOnce(disc, disk, [], Probe(p), [], [], [item]);
    Neutral([Probe(p)]);
    Neutral([item]);
    var m;
    if node.Dir? {
      m := VisitGoes(disc, disk, p, node, [], []);
      Neutral(ScanEntries(disc, p, node));
    } else {
      FileGoes(disc, disk, p, node, [], []);
      Neutral([Describe(p, node)]);
      m := 1;
    }
    var none: seq<IndexEntry> := [];
    Neutral(none);
    hide Goes, ReadItem;
    GoesOn(disc, disk, [], [Probe(p)], 1, [], [item], m, Additions(disc, p, node), []);
    n := 1 + m;
  }

  /** The paths a read, and what follows from it, can give an entry for. */
  predicate Region(item: Item, q: Path) {
    match item
    case Probe(p) => p <= q
    case Visit(p) => p <= q
    case List(p) => p < q
    case Leaf(p) => p == q
    case ReadFile(p, _) => p == q
  }

  ghost predicate Due(agenda: seq<Item>, q: Path) {
    exists item :: item in agenda && Region(item, q)
  }

  /** A path that a scan of p can get to. */
  ghost predicate Within(disc: Path -> bool, p: Path, q: Path) {
    p <= q && ValidPath(q) && Chain(disc, |p|, q)
  }

  /** No two reads are for the same path. */
  ghost predicate Apart(agenda: seq<Item>) {
    forall i, j, q :: 0 <= i < j < |agenda| && Region(agenda[i], q) ==> !Region(agenda[j], q)
  }

  /** What holds of a scan of p however the tree changes under it: no path is listed twice, or will be. */
  ghost predicate Fits(disc: Path -> bool, p: Path, entries: seq<IndexEntry>, agenda: seq<Item>) {
    && (forall item :: item in agenda ==> Within(disc, p, item.path))
    && (forall e :: e in entries ==> Within(disc, p, e.path))
    && DistinctPaths(entries)
    && Apart(agenda)
    && (forall e :: e in entries ==> !Due(agenda, e.path))
  }

  /** The reads that a listing asks for: one for each discoverable child. */
  lemma {:induction false} ItemsForMember(disc: Path -> bool, q: Path, children: seq<Child>, item: Item)
    requires item in ItemsFor(disc, q, children)
    ensures disc(item.path) && exists i :: 0 <= i < |children| && item.path == q + [children[i].name]
    ensures item.Visit? || item.Leaf?
  {
    var rest := ItemsFor(disc, q, children[1..]);
    if item in rest {
      ItemsForMember(disc, q, children[1..], item);
      var i :| 0 <= i < |children[1..]| && item.path == q + [children[1..][i].name];
      assert children[i + 1] == children[1..][i];
    } else {
      assert item.path == q + [children[0].name];
    }
  }

  /** A read is for its own path or for paths below it. */
  lemma RegionBelow(item: Item, q: Path)
    requires Region(item, q)
    ensures item.path <= q
  {
  }

  lemma {:induction false} ItemsForApart(disc: Path -> bool, q: Path, children: seq<Child>)
    requires UniqueNames(children)
    ensures Apart(ItemsFor(disc, q, children))
  {
    if children != [] {
      var rest := ItemsFor(disc, q, children[1..]);
      var childPath := q + [children[0].name];
      assert forall i :: 0 <= i < |children[1..]| ==> children[1..][i] == children[i + 1];
      ItemsForApart(disc, q, children[1..]);
      if disc(childPath) {
        var item := if children[0].node.Dir? then Visit(childPath) else Leaf(childPath);
        forall other, x | other in rest && Region(item, x)
          ensures !Region(other, x)
        {
          ItemsForMember(disc, q, children[1..], other);
          var i :| 0 <= i < |children[1..]| && other.path == q + [children[1..][i].name];
          OtherChild(q, children[0].name, children[1..][i].name, x);
        }
        ApartCons(item, rest);
      }
    }
  }

  lemma OtherChild(q: Path, name: string, other: string, x: Path)
    requires name != other && q + [name] <= x
    ensures !(q + [other] <= x)
  {
    assert (q + [name])[|q|] == name && (q + [other])[|q|] == other;
  }

  lemma ApartCons(item: Item, rest: seq<Item>)
    requires Apart(rest) && forall other, x :: other in rest && Region(item, x) ==> !Region(other, x)
    ensures Apart([item] + rest)
  {
    hide Region;
    var all := [item] + rest;
    assert forall i :: 1 <= i < |all| ==> all[i] == rest[i - 1] && all[i] in rest;
  }

  /** What one read gives fits into the place of what was read. */
  ghost predicate Splits(disc: Path -> bool, p: Path, item: Item, r: Reading)
    requires r.Got?
  {
    && Apart(r.items)
    && (forall x :: x in r.items ==> Within(disc, p, x.path) && !x.Probe?)
    && (forall x, q :: x in r.items && Region(x, q) ==> Region(item, q))
    && |r.entries| <= 1
    && (forall e :: e in r.entries ==> Within(disc, p, e.path) && Region(item, e.path) && !Due(r.items, e.path))
  }

  lemma ReadSplits(disc: Path -> bool, disk: Node, p: Path, item: Item)
    requires GoodDisk(disk) && Within(disc, p, item.path) && ReadItem(disc, disk, item).Got?
    ensures Splits(disc, p, item, ReadItem(disc, disk, item))
  {
    StatPlain(disk, disk, [], item.path);
    if item.List? {
      var dir := Lookup(disk, item.path).value;
      LookupWellFormed(disk, item.path);
      ItemsForApart(disc, item.path, dir.children);
      forall x | x in ItemsFor(disc, item.path, dir.children)
        ensures Within(disc, p, x.path) && item.path < x.path && (x.Visit? || x.Leaf?)
      {
        ItemsForMember(disc, item.path, dir.children, x);
        var i :| 0 <= i < |dir.children| && x.path == item.path + [dir.children[i].name];
        OneFurther(disc, p, item.path, dir.children[i].name);
      }
    }
  }

  lemma OneFurther(disc: Path -> bool, p: Path, q: Path, name: string)
    requires Within(disc, p, q) && ValidName(name) && disc(q + [name])
    ensures Within(disc, p, q + [name])
  {
    var x := q + [name];
    assert forall k :: 0 <= k <= |q| ==> x[..k] == q[..k];
    assert x[..|x|] == x;
  }

  /** A read keeps a scan in order. */
  lemma ReadFits(disc: Path -> bool, p: Path, entries: seq<IndexEntry>, agenda: seq<Item>, r: Reading)
    requires Fits(disc, p, entries, agenda) && agenda != [] && r.Got? && Splits(disc, p, agenda[0], r)
    ensures Fits(disc, p, entries + r.entries, r.items + agenda[1..])
  {
    hide Within, Region;
    var rest := agenda[1..];
    assert forall i :: 0 <= i < |rest| ==> rest[i] == agenda[i + 1];
    forall x, y, q | x in r.items && y in rest && Region(x, q)
      ensures !Region(y, q)
    {
      assert Region(agenda[0], q);
    }
    ApartConcat(r.items, rest);
    forall e | e in entries
      ensures !Due(r.items + rest, e.path)
    {
      assert !Due(agenda, e.path);
      assert !Region(agenda[0], e.path);
    }
    forall e | e in r.entries
      ensures !Due(r.items + rest, e.path) && forall x :: x in entries ==> x.path != e.path
    {
      assert Region(agenda[0], e.path) && !Due(r.items, e.path);
    }
    DistinctConcat(entries, r.entries);
  }

  lemma ApartConcat(a: seq<Item>, b: seq<Item>)
    requires Apart(a) && Apart(b) && forall x, y, q :: x in a && y in b && Region(x, q) ==> !Region(y, q)
    ensures Apart(a + b)
  {
    hide Region;
  }

  /** A file whose size has been read and that has not changed since. */
  ghost predicate SizeRight(disk: Node, item: Item) {
    item.ReadFile? ==> Lookup(disk, item.path).Some? && Lookup(disk, item.path).value.File?
                       && Lookup(disk, item.path).value.size == item.size
  }

  /** What a read says, stands in the tree at that moment; below it there are directories all the way up. */
  lemma ReadIsRight(disc: Path -> bool, disk: Node, item: Item)
    requires GoodDisk(disk) && ReadItem(disc, disk, item).Got?
    ensures var r := ReadItem(disc, disk, item);
            && (SizeRight(disk, item) ==> forall e :: e in r.entries ==> Stands(disk, e.path, e))
            && (forall e, k :: e in r.entries && 0 <= k < |e.path| ==> IsDirAt(disk, e.path[..k]))
            && (forall x :: x in r.items ==> SizeRight(disk, x))
            && Lookup(disk, item.path).Some?
  {
    StatPlain(disk, disk, [], item.path);
    var r := ReadItem(disc, disk, item);
    forall e, k | e in r.entries && 0 <= k < |e.path|
      ensures IsDirAt(disk, e.path[..k])
    {
      assert e.path == item.path;
      StandingHasDirectories(disk, item.path, k);
    }
    if item.List? {
      forall x | x in r.items
        ensures SizeRight(disk, x)
      {
        ItemsForMember(disc, item.path, Lookup(disk, item.path).value.children, x);
      }
    }
  }

  /** What stands at or below what is read, along discoverable paths, is listed by the read or due after it. */
  lemma ReadIsComplete(disc: Path -> bool, disk: Node, item: Item, e: IndexEntry)
    requires GoodDisk(disk) && ReadItem(disc, disk, item).Got? && SizeRight(disk, item)
    requires Region(item, e.path) && Stands(disk, e.path, e) && Chain(disc, 0, e.path)
    ensures var r := ReadItem(disc, disk, item); e in r.entries || Due(r.items, e.path)
  {
    var q, r := item.path, ReadItem(disc, disk, item);
    StatPlain(disk, disk, [], q);
    RegionBelow(item, e.path);
    StandsSplit(disk, q, e);
    var node := Lookup(disk, q).value;
    if item.List? {
      StandsBelow(disc, disk, q, node, e);
    } else if node.Dir? {
      if e.path == q {
        assert e.path[|q|..] == [] && e == Describe(q, node);
      }
      if item.Probe? {
        assert Region(r.items[0], e.path);
      } else if item.Visit? && e.path != q {
        assert Region(r.items[0], e.path);
      }
    } else {
      assert e.path[|q|..] == [];
      assert e.path == q && e == Describe(q, node);
      if !item.ReadFile? {
        assert Region(r.items[0], e.path);
      }
    }
  }

  lemma StandsBelow(disc: Path -> bool, disk: Node, q: Path, dir: Node, e: IndexEntry)
    requires q < e.path && dir.Dir? && Stands(dir, e.path[|q|..], e) && Chain(disc, 0, e.path)
    ensures Due(ItemsFor(disc, q, dir.children), e.path)
  {
    hide Stands, Chain, ItemsFor, WellFormed;
    var name := e.path[|q|];
    var childPath := q + [name];
    ChildBelow(q, dir, e);
    assert e.path[..|q| + 1] == childPath;
    ChainAt(disc, e.path, |q| + 1);
    FirstOfName(disc, q, dir.children, name);
    var item := if FindChild(dir.children, name).value.Dir? then Visit(childPath) else Leaf(childPath);
    assert Region(item, e.path);
  }

  lemma ChainAt(disc: Path -> bool, q: Path, k: nat)
    requires Chain(disc, 0, q) && 0 < k <= |q|
    ensures disc(q[..k])
  {
  }

  lemma ChildBelow(q: Path, dir: Node, e: IndexEntry)
    requires q < e.path && dir.Dir? && Stands(dir, e.path[|q|..], e)
    ensures var child := FindChild(dir.children, e.path[|q|]);
            child.Some? && (!child.value.Dir? ==> e.path == q + [e.path[|q|]])
  {
    var below := e.path[|q|..];
    assert below[0] == e.path[|q|];
    assert Lookup(dir, below).Some?;
    assert below[1..] == [] ==> e.path == q + below;
  }

  lemma {:induction false} FirstOfName(disc: Path -> bool, q: Path, children: seq<Child>, name: string)
    requires FindChild(children, name).Some? && disc(q + [name])
    ensures var item := if FindChild(children, name).value.Dir? then Visit(q + [name]) else Leaf(q + [name]);
            item in ItemsFor(disc, q, children)
  {
    if children[0].name != name {
      FirstOfName(disc, q, children[1..], name);
    }
  }
}
