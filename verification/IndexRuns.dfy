/**
 The index over whole runs: the directory tree changes, the watcher reports, the queue starts workers, and the
 workers read the tree step by step and store what they found, in any interleaving.
 */
module IndexRuns {
  import opened Wrappers
  import opened Sequences
  import opened WorkspaceTree
  import opened WorkspaceIndex
  import opened WorkspaceIndexQueue
  import opened IndexScans

  datatype State =
    State(disk: Node, index: seq<IndexEntry>, undelivered: set<Path>, pending: seq<Event>, jobs: seq<Job>)

  datatype Action =
    | ChangeDisk(path: Path, disk: Node)
    | Notify(path: Path)
    | StartJob
    | LoadIndex(job: nat)
    | ReadDisk(job: nat)
    | SaveIndex(job: nat)

  ghost predicate CanHappen(setting: Setting, s: State, a: Action) {
    match a
    case ChangeDisk(p, disk) => p != [] && ValidPath(p) && GoodDisk(disk) && SameOutside(s.disk, disk, p)
    case Notify(p) => p != [] && ValidPath(p)
    case StartJob => |s.jobs| < setting.concurrency && s.pending != []
    case LoadIndex(i) => i < |s.jobs| && s.jobs[i].Picked?
    case ReadDisk(i) => i < |s.jobs| && s.jobs[i].Scanning? && s.jobs[i].agenda != []
    case SaveIndex(i) => i < |s.jobs| && s.jobs[i].Scanned?
  }

  ghost function Do(setting: Setting, s: State, a: Action): State
    requires CanHappen(setting, s, a)
  {
    match a
    case ChangeDisk(p, disk) => s.(disk := disk, undelivered := s.undelivered + {p})
    case Notify(p) =>
      s.(undelivered := s.undelivered - {p},
        pending := if setting.disc(p) then Put(s.pending, Event(p, Change)) else s.pending)
    case StartJob => s.(pending := s.pending[1..], jobs := s.jobs + [Picked(s.pending[0].path)])
    case LoadIndex(i) => s.(jobs := s.jobs[i := Begin(setting, s.index, s.jobs[i].path)])
    case ReadDisk(i) => s.(jobs := s.jobs[i := Advance(setting, s.disk, s.jobs[i])])
    case SaveIndex(i) =>
      s.(index := if s.jobs[i].result.Some? then s.jobs[i].result.value else s.index,
        jobs := s.jobs[..i] + s.jobs[i + 1..])
  }

  /** Freshly scanned, with nothing on the way. */
  ghost predicate Initial(setting: Setting, s: State) {
    GoodDisk(s.disk) && s == State(s.disk, FullScan(setting.leq, setting.disc, s.disk), {}, [], [])
  }

  /** s is reached from s0 by these actions, each possible when it happens. */
  ghost predicate Reaches(setting: Setting, s0: State, actions: seq<Action>, s: State)
    decreases |actions|
  {
    if actions == [] then s == s0
    else CanHappen(setting, s0, actions[0]) && Reaches(setting, Do(setting, s0, actions[0]), actions[1..], s)
  }

  /** Nothing is on its way: no unreported change, no pending event, no worker. */
  ghost predicate Quiet(s: State) {
    s.undelivered == {} && s.pending == [] && s.jobs == []
  }

  function PendingPaths(pending: seq<Event>): set<Path> {
    set e | e in pending :: e.path
  }

  /** Changes and events that no worker has taken up yet. */
  function Waiting(s: State): set<Path> {
    s.undelivered + PendingPaths(s.pending)
  }

  ghost predicate Covered(q: Path, S: set<Path>) {
    exists p :: p in S && p <= q
  }

  /**
   The step is no read that throws, or it is the first stat of an update, or the path of the update is to be
   updated again because something at or above it is on its way.
   */
  ghost predicate Calm(setting: Setting, s: State, a: Action)
    requires CanHappen(setting, s, a)
  {
    a.ReadDisk? ==>
      var job := s.jobs[a.job];
      || ReadItem(setting.disc, s.disk, job.agenda[0]).Got?
      || job.agenda[0].Probe?
      || Covered(job.path, Waiting(s))
  }

  ghost predicate CalmRun(setting: Setting, s0: State, actions: seq<Action>)
    decreases |actions|
  {
    actions == [] ||
    (CanHappen(setting, s0, actions[0]) && Calm(setting, s0, actions[0])
      && CalmRun(setting, Do(setting, s0, actions[0]), actions[1..]))
  }

  /** Along discoverable directories, and with nothing on its way at the path or above it. */
  ghost predicate Clear(setting: Setting, S: set<Path>, q: Path) {
    Chain(setting.disc, 0, q) && !Covered(q, S)
  }

  /**
   Off the outstanding paths, an entry along discoverable directories is listed exactly when it stands in the tree.
   */
  ghost predicate EntryRight(setting: Setting, ix: seq<IndexEntry>, disk: Node, S: set<Path>, e: IndexEntry) {
    e.path != [] && Clear(setting, S, e.path) ==> (e in ix <==> Stands(disk, e.path, e))
  }

  /** Above a listed entry there is a directory, unless an event at or above that place is outstanding. */
  ghost predicate AncestorRight(setting: Setting, ix: seq<IndexEntry>, disk: Node, S: set<Path>, e: IndexEntry,
                                k: nat) {
    e in ix && Chain(setting.disc, 0, e.path) && 0 < k < |e.path| && Clear(setting, S, e.path[..k]) ==>
        IsDirAt(disk, e.path[..k])
  }

  /** Discoverability that a path passes on to its ancestors. */
  ghost predicate ClosedAbove(disc: Path -> bool) {
    forall p, k :: 0 < k < |p| && disc(p) ==> disc(p[..k])
  }

  /** The index ix keeps up with the tree, apart from the paths in S. */
  ghost predicate Tracks(setting: Setting, ix: seq<IndexEntry>, disk: Node, S: set<Path>) {
    && GoodIndex(setting.leq, ix)
    && (forall e :: EntryRight(setting, ix, disk, S, e))
    && (forall e, k :: AncestorRight(setting, ix, disk, S, e, k))
    && (ClosedAbove(setting.disc) ==> forall e :: e in ix ==> Chain(setting.disc, 0, e.path))
  }

  /** What a scan has found stands in the tree, and what stands there has been found or is still to be read. */
  ghost predicate FoundRight(setting: Setting, disk: Node, S: set<Path>, p: Path, entries: seq<IndexEntry>,
                             agenda: seq<Item>, e: IndexEntry) {
    p <= e.path && Clear(setting, S, e.path) ==>
      && (e in entries ==> Stands(disk, e.path, e))
      && (Stands(disk, e.path, e) ==> e in entries || Due(agenda, e.path))
  }

  /** The first stat is over, and has found something there. */
  ghost predicate PastProbe(setting: Setting, disk: Node, S: set<Path>, p: Path, agenda: seq<Item>) {
    (forall item :: item in agenda ==> !item.Probe?) && (Clear(setting, S, p) ==> Lookup(disk, p).Some?)
  }

  /** A scan of p under way keeps up with the tree, apart from the paths in S. */
  ghost predicate ScanRight(setting: Setting, disk: Node, S: set<Path>, p: Path, entries: seq<IndexEntry>,
                            agenda: seq<Item>) {
    && Fits(setting.disc, p, entries, agenda)
    && (forall e :: FoundRight(setting, disk, S, p, entries, agenda, e))
    && (forall e, k :: AncestorRight(setting, entries, disk, S, e, k))
    && (forall item :: item in agenda && Clear(setting, S, item.path) ==> SizeRight(disk, item))
    && (agenda == [Probe(p)] || PastProbe(setting, disk, S, p, agenda))
  }

  /** The index a worker is about to leave behind. */
  function Upcoming(s: State, job: Job): seq<IndexEntry> {
    if job.Scanned? && job.result.Some? then job.result.value else s.index
  }

  ghost predicate JobRight(setting: Setting, s: State, job: Job) {
    && job.path != [] && ValidPath(job.path)
    && Tracks(setting, s.index, s.disk, Waiting(s) + {job.path})
    && (job.Scanning? ==>
          && job.current == s.index && setting.disc(job.path) && job.agenda != []
          && ScanRight(setting, s.disk, Waiting(s), job.path, job.entries, job.agenda))
    && (job.Scanned? ==> Tracks(setting, Upcoming(s, job), s.disk, Waiting(s)))
  }

  /** What holds at every moment of every calm run with one worker. */
  ghost predicate Invariant(setting: Setting, s: State) {
    && GoodDisk(s.disk)
    && |s.jobs| <= 1
    && (forall p :: p in Waiting(s) ==> p != [] && ValidPath(p))
    && (s.jobs == [] ==> Tracks(setting, s.index, s.disk, Waiting(s)))
    && (s.jobs != [] ==> JobRight(setting, s, s.jobs[0]))
  }

  lemma CoveredByMore(q: Path, S: set<Path>, p: Path)
    ensures Covered(q, S + {p}) <==> Covered(q, S) || p <= q
  {
    if p <= q {
      assert p in S + {p};
    }
    if r :| r in S && r <= q {
      assert r in S + {p};
    }
  }

  lemma CoveredBelow(a: Path, q: Path, S: set<Path>)
    requires a <= q && Covered(a, S)
    ensures Covered(q, S)
  {
    var p :| p in S && p <= a;
    assert p <= q;
  }

  /** What is clear afterwards was clear before, and shows the same: whatever changed is excused. */
  ghost predicate Stable(setting: Setting, disk: Node, S: set<Path>, disk': Node, S': set<Path>) {
    forall e: IndexEntry :: Clear(setting, S', e.path) ==>
                              Clear(setting, S, e.path) && (Stands(disk, e.path, e) <==> Stands(disk', e.path, e))
  }

  /** A tree change is excused by its own path. */
  lemma ChangeStable(setting: Setting, disk: Node, disk': Node, S: set<Path>, p: Path)
    requires SameOutside(disk, disk', p)
    ensures Stable(setting, disk, S, disk', S + {p})
  {
    hide Chain, Stands, Covered;
    forall e: IndexEntry | Clear(setting, S + {p}, e.path)
      ensures Clear(setting, S, e.path) && (Stands(disk, e.path, e) <==> Stands(disk', e.path, e))
    {
      CoveredByMore(e.path, S, p);
    }
  }

  /** More outstanding paths excuse more. */
  lemma MoreStable(setting: Setting, disk: Node, S: set<Path>, S': set<Path>)
    requires S <= S'
    ensures Stable(setting, disk, S, disk, S')
  {
    hide Chain, Stands;
  }

  lemma PrefixIs(p: Path, q: Path)
    ensures p <= q <==> |p| <= |q| && q[..|p|] == p
  {
  }

  /** An undiscoverable path needs no event: no path at or below it is reached along discoverable directories. */
  lemma UndiscoverableStable(setting: Setting, disk: Node, S: set<Path>, p: Path)
    requires !setting.disc(p) && p != []
    ensures Stable(setting, disk, S + {p}, disk, S)
  {
    hide Stands, Covered;
    forall e: IndexEntry | Clear(setting, S, e.path)
      ensures Clear(setting, S + {p}, e.path)
    {
      CoveredByMore(e.path, S, p);
      PrefixIs(p, e.path);
    }
  }

  /** A path that something else already covers need not be outstanding itself. */
  lemma CoveredStable(setting: Setting, disk: Node, S: set<Path>, p: Path)
    requires Covered(p, S)
    ensures Stable(setting, disk, S + {p}, disk, S)
  {
    hide Stands, Chain;
    forall e: IndexEntry | Clear(setting, S, e.path)
      ensures Clear(setting, S + {p}, e.path)
    {
      CoveredByMore(e.path, S, p);
      if p <= e.path {
        CoveredBelow(p, e.path, S);
        assert false;
      }
    }
  }

  lemma SameAt(setting: Setting, disk: Node, S: set<Path>, disk': Node, S': set<Path>, q: Path)
    requires Stable(setting, disk, S, disk', S') && Clear(setting, S', q)
    ensures Clear(setting, S, q) && (IsDirAt(disk, q) <==> IsDirAt(disk', q))
    ensures Lookup(disk, q).Some? <==> Lookup(disk', q).Some?
    ensures Lookup(disk, q).Some? && Lookup(disk, q).value.File? ==>
              Lookup(disk', q).value.File? && Lookup(disk', q).value.size == Lookup(disk, q).value.size
  {
    hide Clear, Lookup;
    var dir := IndexEntry(q, DirectoryEntry, 0, None);
    assert Stands(disk, dir.path, dir) <==> Stands(disk', dir.path, dir);
    if Lookup(disk, q).Some? {
      var e := Describe(q, Lookup(disk, q).value);
      assert Stands(disk, e.path, e);
    }
    if Lookup(disk', q).Some? {
      var e := Describe(q, Lookup(disk', q).value);
      assert Stands(disk', e.path, e);
    }
  }

  lemma AncestorsStay(setting: Setting, ix: seq<IndexEntry>, disk: Node, S: set<Path>, disk': Node, S': set<Path>)
    requires Stable(setting, disk, S, disk', S') && forall e, k :: AncestorRight(setting, ix, disk, S, e, k)
    ensures forall e, k :: AncestorRight(setting, ix, disk', S', e, k)
  {
    hide Chain, Clear, Stable, IsDirAt;
    forall e: IndexEntry, k: nat
      ensures AncestorRight(setting, ix, disk', S', e, k)
    {
      assert AncestorRight(setting, ix, disk, S, e, k);
      if 0 < k < |e.path| && Clear(setting, S', e.path[..k]) {
        SameAt(setting, disk, S, disk', S', e.path[..k]);
      }
    }
  }

  lemma TracksStays(setting: Setting, ix: seq<IndexEntry>, disk: Node, S: set<Path>, disk': Node, S': set<Path>)
    requires Tracks(setting, ix, disk, S) && Stable(setting, disk, S, disk', S')
    ensures Tracks(setting, ix, disk', S')
  {
    AncestorsStay(setting, ix, disk, S, disk', S');
    hide Chain, Clear, Stands, GoodIndex, ClosedAbove, AncestorRight;
    forall e: IndexEntry
      ensures EntryRight(setting, ix, disk', S', e)
    {
      assert EntryRight(setting, ix, disk, S, e);
    }
  }

  lemma ScanStays(setting: Setting, disk: Node, S: set<Path>, disk': Node, S': set<Path>, p: Path,
                  entries: seq<IndexEntry>, agenda: seq<Item>)
    requires ScanRight(setting, disk, S, p, entries, agenda) && Stable(setting, disk, S, disk', S')
    ensures ScanRight(setting, disk', S', p, entries, agenda)
  {
    AncestorsStay(setting, entries, disk, S, disk', S');
    if Clear(setting, S', p) {
      SameAt(setting, disk, S, disk', S', p);
    }
    hide Chain, Clear, Stands, Fits, Due, AncestorRight, Lookup, IsDirAt;
    forall e: IndexEntry
      ensures FoundRight(setting, disk', S', p, entries, agenda, e)
    {
      assert FoundRight(setting, disk, S, p, entries, agenda, e);
    }
    forall item | item in agenda && Clear(setting, S', item.path)
      ensures SizeRight(disk', item)
    {
      SameAt(setting, disk, S, disk', S', item.path);
      assert SizeRight(disk, item);
    }
  }

  /** The update failed because of a file above the path: what is stale below it awaits that file's own event. */
  lemma BlockedTracks(setting: Setting, ix: seq<IndexEntry>, disk: Node, S: set<Path>, p: Path, b: nat)
    requires Tracks(setting, ix, disk, S + {p}) && 0 < b < |p| && !IsDirAt(disk, p[..b])
    ensures Tracks(setting, ix, disk, S)
  {
    hide Chain, GoodIndex, ClosedAbove, Covered, Stands, IsDirAt;
    forall e: IndexEntry
      ensures EntryRight(setting, ix, disk, S, e)
    {
      assert EntryRight(setting, ix, disk, S + {p}, e);
      CoveredByMore(e.path, S, p);
      if p <= e.path {
        NothingListedBelow(setting, ix, disk, S, p, b, e);
      }
    }
    forall e: IndexEntry, k: nat
      ensures AncestorRight(setting, ix, disk, S, e, k)
    {
      assert AncestorRight(setting, ix, disk, S + {p}, e, k);
      if e in ix && 0 < k < |e.path| && Clear(setting, S, e.path[..k]) {
        CoveredByMore(e.path[..k], S, p);
        if p <= e.path[..k] {
          assert p <= e.path;
          AboveIsClear(setting, S, e.path[..k]);
          NothingListedBelow(setting, ix, disk, S, p, b, e);
        }
      }
    }
  }

  lemma AboveIsClear(setting: Setting, S: set<Path>, q: Path)
    requires Clear(setting, S, q)
    ensures forall a: Path :: a <= q ==> Clear(setting, S, a)
  {
    forall a: Path | a <= q
      ensures Clear(setting, S, a)
    {
      assert forall k :: 0 <= k <= |a| ==> a[..k] == q[..k];
      if Covered(a, S) {
        CoveredBelow(a, q, S);
        assert false;
      }
    }
  }

  lemma NothingListedBelow(setting: Setting, ix: seq<IndexEntry>, disk: Node, S: set<Path>, p: Path, b: nat,
                           e: IndexEntry)
    requires Tracks(setting, ix, disk, S + {p}) && 0 < b < |p| && !IsDirAt(disk, p[..b]) && p <= e.path
    ensures !Stands(disk, e.path, e)
    ensures Chain(setting.disc, 0, e.path) && Clear(setting, S, p[..b]) ==> e !in ix
    ensures Clear(setting, S, e.path) ==> Clear(setting, S, p[..b])
  {
    hide Chain, GoodIndex, ClosedAbove, Covered, IsDirAt;
    assert e.path[..b] == p[..b];
    if Lookup(disk, e.path).Some? {
      StandingHasDirectories(disk, e.path, b);
    }
    assert AncestorRight(setting, ix, disk, S + {p}, e, b);
    CoveredByMore(p[..b], S, p);
    assert p[..b] <= e.path;
    if Clear(setting, S, e.path) {
      AboveIsClear(setting, S, e.path);
    }
  }

  /** A scan that has read everything, or a path with nothing to find: the patched index settles the path. */
  lemma ResultTracks(setting: Setting, ix: seq<IndexEntry>, disk: Node, S: set<Path>, p: Path, entries: seq<IndexEntry>)
    requires TotalOrder(setting.leq) && Tracks(setting, ix, disk, S + {p})
    requires p != [] && ValidPath(p) && setting.disc(p) && Fits(setting.disc, p, entries, [])
    requires forall e :: FoundRight(setting, disk, S, p, entries, [], e)
    requires forall e, k :: AncestorRight(setting, entries, disk, S, e, k)
    ensures Tracks(setting, Patched(setting.leq, ix, p, entries), disk, S)
  {
    var r := Patched(setting.leq, ix, p, entries);
    PatchedIsGood(setting.leq, setting.disc, ix, p, entries);
    PatchedHolds(setting, ix, p, entries);
    hide Patched, Fits, GoodIndex, Stands, Chain, Clear, IsDirAt, TotalOrder, ValidPath, Due, FoundRight, EntryRight;
    hide AncestorRight;
    forall e: IndexEntry
      ensures EntryRight(setting, r, disk, S, e)
    {
      assert FoundRight(setting, disk, S, p, entries, [], e);
      assert EntryRight(setting, ix, disk, S + {p}, e);
      ResultEntry(setting, ix, disk, S, p, entries, r, e);
    }
    forall e: IndexEntry, k: nat
      ensures AncestorRight(setting, r, disk, S, e, k)
    {
      assert AncestorRight(setting, ix, disk, S + {p}, e, k);
      assert AncestorRight(setting, entries, disk, S, e, k);
      ResultAncestor(setting, ix, disk, S, p, entries, r, e, k);
    }
  }

  lemma ResultEntry(setting: Setting, ix: seq<IndexEntry>, disk: Node, S: set<Path>, p: Path,
                    entries: seq<IndexEntry>, r: seq<IndexEntry>, e: IndexEntry)
    requires FoundRight(setting, disk, S, p, entries, [], e) && EntryRight(setting, ix, disk, S + {p}, e)
    requires e in r <==> (e in ix && !(p <= e.path)) || e in entries
    requires e in entries ==> p <= e.path
    ensures EntryRight(setting, r, disk, S, e)
  {
    hide Stands, Chain, Covered;
    CoveredByMore(e.path, S, p);
  }

  lemma ResultAncestor(setting: Setting, ix: seq<IndexEntry>, disk: Node, S: set<Path>, p: Path,
                       entries: seq<IndexEntry>, r: seq<IndexEntry>, e: IndexEntry, k: nat)
    requires AncestorRight(setting, entries, disk, S, e, k) && AncestorRight(setting, ix, disk, S + {p}, e, k)
    requires e in r <==> (e in ix && !(p <= e.path)) || e in entries
    ensures AncestorRight(setting, r, disk, S, e, k)
  {
    hide IsDirAt, Chain, Covered;
    if 0 < k < |e.path| {
      CoveredByMore(e.path[..k], S, p);
      assert p <= e.path[..k] ==> p <= e.path;
    }
  }

  /** What a patched index holds: what was listed elsewhere, and what was found. */
  lemma PatchedHolds(setting: Setting, ix: seq<IndexEntry>, p: Path, entries: seq<IndexEntry>)
    requires GoodIndex(setting.leq, ix) && p != [] && ValidPath(p) && setting.disc(p)
    requires Fits(setting.disc, p, entries, [])
    ensures forall e :: e in Patched(setting.leq, ix, p, entries) <==> (e in ix && !(p <= e.path)) || e in entries
    ensures forall e :: e in entries ==> p <= e.path
    ensures ClosedAbove(setting.disc) && (forall e :: e in ix ==> Chain(setting.disc, 0, e.path)) ==>
              forall e :: e in Patched(setting.leq, ix, p, entries) ==> Chain(setting.disc, 0, e.path)
  {
    hide Snapshot, Remaining;
    forall e
      ensures e in Patched(setting.leq, ix, p, entries) <==> (e in ix && !(p <= e.path)) || e in entries
    {
      SnapshotMember(setting.leq, Remaining(ix, p) + entries, e);
      RemainingMember(setting.leq, ix, p, e);
    }
    hide Patched, GoodIndex, ValidPath;
    if ClosedAbove(setting.disc) {
      forall e | e in entries
        ensures Chain(setting.disc, 0, e.path)
      {
        ChainSplit(setting.disc, p, e.path);
      }
    }
  }

  lemma PatchedIsGood(leq: Order, disc: Path -> bool, ix: seq<IndexEntry>, p: Path, entries: seq<IndexEntry>)
    requires TotalOrder(leq) && GoodIndex(leq, ix) && p != [] && ValidPath(p) && Fits(disc, p, entries, [])
    ensures GoodIndex(leq, Patched(leq, ix, p, entries))
  {
    hide Snapshot, TotalOrder, Chain;
    RemainingDistinct(ix, p);
    forall x, y | x in Remaining(ix, p) && y in entries
      ensures x.path != y.path
    {
      RemainingMember(leq, ix, p, x);
    }
    DistinctConcat(Remaining(ix, p), entries);
    SnapshotGood(leq, Remaining(ix, p) + entries);
  }

  /** Nothing is found, and nothing clear stands at the path or below it. */
  lemma NothingTracks(setting: Setting, ix: seq<IndexEntry>, disk: Node, S: set<Path>, p: Path)
    requires TotalOrder(setting.leq) && Tracks(setting, ix, disk, S + {p})
    requires p != [] && ValidPath(p) && setting.disc(p)
    requires Covered(p, S) || Lookup(disk, p).None?
    ensures Tracks(setting, Patched(setting.leq, ix, p, []), disk, S)
  {
    hide Tracks, TotalOrder, ValidPath, Chain;
    forall e: IndexEntry
      ensures FoundRight(setting, disk, S, p, [], [], e)
    {
      if p <= e.path {
        if Covered(p, S) {
          CoveredBelow(p, e.path, S);
        } else {
          StandsSplit(disk, p, e);
        }
      }
    }
    ResultTracks(setting, ix, disk, S, p, []);
  }

  /** A read finds what is there: the scan goes on keeping up with the tree. */
  lemma ReadKeepsScan(setting: Setting, disk: Node, S: set<Path>, p: Path, entries: seq<IndexEntry>, agenda: seq<Item>)
    requires GoodDisk(disk) && agenda != [] && ScanRight(setting, disk, S, p, entries, agenda)
    requires ReadItem(setting.disc, disk, agenda[0]).Got?
    ensures var r := ReadItem(setting.disc, disk, agenda[0]);
            ScanRight(setting, disk, S, p, entries + r.entries, r.items + agenda[1..])
  {
    var item, rest := agenda[0], agenda[1..];
    var r := ReadItem(setting.disc, disk, item);
    ReadSplits(setting.disc, disk, p, item);
    ReadFits(setting.disc, p, entries, agenda, r);
    ReadIsRight(setting.disc, disk, item);
    assert forall x :: x in rest ==> x in agenda;
    FoundAfterRead(setting, disk, S, p, entries, agenda);
    hide ReadItem, Fits, Splits, GoodDisk, FoundRight, Clear, Chain, SizeRight;
    forall e: IndexEntry, k: nat
      ensures AncestorRight(setting, entries + r.entries, disk, S, e, k)
    {
      assert AncestorRight(setting, entries, disk, S, e, k);
    }
    PastFirst(setting, disk, S, p, entries, agenda, r);
  }

  lemma PastFirst(setting: Setting, disk: Node, S: set<Path>, p: Path, entries: seq<IndexEntry>, agenda: seq<Item>,
                  r: Reading)
    requires agenda != [] && ScanRight(setting, disk, S, p, entries, agenda)
    requires r.Got? && Splits(setting.disc, p, agenda[0], r) && Lookup(disk, agenda[0].path).Some?
    ensures PastProbe(setting, disk, S, p, r.items + agenda[1..])
  {
    hide Fits, FoundRight, AncestorRight, Clear;
  }

  lemma FoundAfterRead(setting: Setting, disk: Node, S: set<Path>, p: Path, entries: seq<IndexEntry>, agenda: seq<Item>)
    requires GoodDisk(disk) && agenda != [] && ScanRight(setting, disk, S, p, entries, agenda)
    requires ReadItem(setting.disc, disk, agenda[0]).Got?
    requires Splits(setting.disc, p, agenda[0], ReadItem(setting.disc, disk, agenda[0]))
    ensures var r := ReadItem(setting.disc, disk, agenda[0]);
            forall e :: FoundRight(setting, disk, S, p, entries + r.entries, r.items + agenda[1..], e)
  {
    var item := agenda[0];
    var r := ReadItem(setting.disc, disk, item);
    hide Fits, GoodDisk, ReadItem, AncestorRight;
    forall e: IndexEntry
      ensures FoundRight(setting, disk, S, p, entries + r.entries, r.items + agenda[1..], e)
    {
      assert FoundRight(setting, disk, S, p, entries, agenda, e);
      if p <= e.path && Clear(setting, S, e.path) {
        EntryAfterRead(setting, disk, S, p, entries, agenda, e);
      }
    }
  }

  lemma EntryAfterRead(setting: Setting, disk: Node, S: set<Path>, p: Path, entries: seq<IndexEntry>,
                       agenda: seq<Item>, e: IndexEntry)
    requires GoodDisk(disk) && agenda != [] && ReadItem(setting.disc, disk, agenda[0]).Got?
    requires Splits(setting.disc, p, agenda[0], ReadItem(setting.disc, disk, agenda[0]))
    requires p <= e.path && Clear(setting, S, e.path) && FoundRight(setting, disk, S, p, entries, agenda, e)
    requires Clear(setting, S, agenda[0].path) ==> SizeRight(disk, agenda[0])
    ensures var r := ReadItem(setting.disc, disk, agenda[0]);
            && (e in r.entries ==> Stands(disk, e.path, e))
            && (Stands(disk, e.path, e) ==> e in entries + r.entries || Due(r.items + agenda[1..], e.path))
  {
    var item, rest := agenda[0], agenda[1..];
    var r := ReadItem(setting.disc, disk, item);
    hide GoodDisk, ReadItem, Stands, SizeRight;
    ReadIsRight(setting.disc, disk, item);
    if Region(item, e.path) {
      RegionBelow(item, e.path);
      AboveIsClear(setting, S, e.path);
      if Stands(disk, e.path, e) {
        ReadIsComplete(setting.disc, disk, item, e);
        DueInBoth(r.items, rest, e.path);
      }
    } else {
      DueInBoth(r.items, rest, e.path);
      DueLater(agenda, e.path);
    }
  }

  lemma DueInBoth(a: seq<Item>, b: seq<Item>, q: Path)
    ensures Due(a + b, q) <==> Due(a, q) || Due(b, q)
  {
    hide Region;
    if item :| item in a && Region(item, q) {
      assert item in a + b;
    }
    if item :| item in b && Region(item, q) {
      assert item in a + b;
    }
  }

  lemma DueLater(agenda: seq<Item>, q: Path)
    requires agenda != [] && !Region(agenda[0], q)
    ensures Due(agenda, q) ==> Due(agenda[1..], q)
  {
    hide Region;
    assert agenda == [agenda[0]] + agenda[1..];
  }

  lemma PutPaths(pending: seq<Event>, e: Event)
    ensures PendingPaths(Put(pending, e)) == PendingPaths(pending) + {e.path}
  {
    forall q | q in PendingPaths(pending) + {e.path}
      ensures q in PendingPaths(Put(pending, e))
    {
      if q != e.path {
        var x :| x in pending && x.path == q;
        assert x in Put(pending, e);
      }
    }
  }

  /** While nothing becomes clear and what is clear stays as it is, jobs and index stay right. */
  lemma StableKeeps(setting: Setting, s: State, s': State)
    requires Invariant(setting, s) && GoodDisk(s'.disk) && s'.index == s.index && s'.jobs == s.jobs
    requires forall p :: p in Waiting(s') ==> p != [] && ValidPath(p)
    requires Stable(setting, s.disk, Waiting(s), s'.disk, Waiting(s'))
    requires forall p :: Stable(setting, s.disk, Waiting(s) + {p}, s'.disk, Waiting(s') + {p})
    ensures Invariant(setting, s')
  {
    hide Tracks, ScanRight, GoodDisk, ValidPath, Waiting, Stable;
    if s.jobs == [] {
      TracksStays(setting, s.index, s.disk, Waiting(s), s'.disk, Waiting(s'));
    } else {
      var job := s.jobs[0];
      TracksStays(setting, s.index, s.disk, Waiting(s) + {job.path}, s'.disk, Waiting(s') + {job.path});
      if job.Scanning? {
        ScanStays(setting, s.disk, Waiting(s), s'.disk, Waiting(s'), job.path, job.entries, job.agenda);
      }
      if job.Scanned? {
        TracksStays(setting, Upcoming(s, job), s.disk, Waiting(s), s'.disk, Waiting(s'));
      }
    }
  }

  /** A tree change, at any moment of a scan, is tracked. */
  lemma ChangeKeeps(setting: Setting, s: State, p: Path, disk: Node)
    requires Invariant(setting, s) && CanHappen(setting, s, ChangeDisk(p, disk))
    ensures Invariant(setting, Do(setting, s, ChangeDisk(p, disk)))
  {
    var s' := Do(setting, s, ChangeDisk(p, disk));
    var W := Waiting(s);
    assert Waiting(s') == W + {p};
    hide Invariant, SameOutside, GoodDisk, ValidPath, Waiting, Stable;
    ChangeStable(setting, s.disk, disk, W, p);
    forall q
      ensures Stable(setting, s.disk, W + {q}, disk, W + {p} + {q})
    {
      ChangeStable(setting, s.disk, disk, W + {q}, p);
      assert W + {q} + {p} == W + {p} + {q};
    }
    InvariantParts(setting, s);
    StableKeeps(setting, s, s');
  }

  lemma InvariantParts(setting: Setting, s: State)
    requires Invariant(setting, s)
    ensures GoodDisk(s.disk) && forall p :: p in Waiting(s) ==> p != [] && ValidPath(p)
  {
  }

  /** Delivering a notification moves a path to the queue, or drops one that needs no event. */
  lemma NotifyStable(setting: Setting, s: State, p: Path, extra: set<Path>)
    requires p != [] && ValidPath(p)
    ensures Stable(setting, s.disk, Waiting(s) + extra, s.disk, Waiting(Do(setting, s, Notify(p))) + extra)
  {
    var s' := Do(setting, s, Notify(p));
    PutPaths(s.pending, Event(p, Change));
    var S, S' := Waiting(s) + extra, Waiting(s') + extra;
    assert S <= S' + {p};
    if setting.disc(p) {
      assert S <= S';
      hide Clear, Stands, Waiting;
      MoreStable(setting, s.disk, S, S');
    } else {
      hide Clear, Stands, Waiting;
      MoreStable(setting, s.disk, S, S' + {p});
      UndiscoverableStable(setting, s.disk, S', p);
      StableOn(setting, s.disk, S, S' + {p}, S');
    }
  }

  lemma StableOn(setting: Setting, disk: Node, S: set<Path>, T: set<Path>, U: set<Path>)
    requires Stable(setting, disk, S, disk, T) && Stable(setting, disk, T, disk, U)
    ensures Stable(setting, disk, S, disk, U)
  {
    hide Clear, Stands;
  }

  lemma NotifyKeeps(setting: Setting, s: State, p: Path)
    requires Invariant(setting, s) && CanHappen(setting, s, Notify(p))
    ensures Invariant(setting, Do(setting, s, Notify(p)))
  {
    var s' := Do(setting, s, Notify(p));
    PutPaths(s.pending, Event(p, Change));
    assert Waiting(s') <= Waiting(s) + {p};
    assert Waiting(s) + {} == Waiting(s) && Waiting(s') + {} == Waiting(s');
    hide Invariant, GoodDisk, ValidPath, Waiting, Stable, Put, PendingPaths;
    InvariantParts(setting, s);
    NotifyStable(setting, s, p, {});
    forall q
      ensures Stable(setting, s.disk, Waiting(s) + {q}, s'.disk, Waiting(s') + {q})
    {
      NotifyStable(setting, s, p, {q});
    }
    StableKeeps(setting, s, s');
  }

  lemma StartKeeps(setting: Setting, s: State)
    requires Invariant(setting, s) && setting.concurrency == 1 && CanHappen(setting, s, StartJob)
    ensures Invariant(setting, Do(setting, s, StartJob))
  {
    var s' := Do(setting, s, StartJob);
    hide Tracks, GoodDisk, ValidPath;
    var first := s.pending[0];
    assert first.path in Waiting(s);
    assert Waiting(s) <= Waiting(s') + {first.path};
    assert Waiting(s') <= Waiting(s);
    MoreStable(setting, s.disk, Waiting(s), Waiting(s') + {first.path});
    TracksStays(setting, s.index, s.disk, Waiting(s), s.disk, Waiting(s') + {first.path});
  }

  /** Reading the stored index begins a scan with the first stat to do, or ends the job for an undiscoverable path. */
  lemma LoadKeeps(setting: Setting, s: State, i: nat)
    requires Invariant(setting, s) && CanHappen(setting, s, LoadIndex(i))
    ensures Invariant(setting, Do(setting, s, LoadIndex(i)))
  {
    hide Tracks, GoodDisk;
    var p := s.jobs[0].path;
    if setting.disc(p) {
      BeginRight(setting, s.disk, Waiting(s), p);
    } else {
      UndiscoverableStable(setting, s.disk, Waiting(s), p);
      TracksStays(setting, s.index, s.disk, Waiting(s) + {p}, s.disk, Waiting(s));
    }
  }

  lemma BeginRight(setting: Setting, disk: Node, S: set<Path>, p: Path)
    requires p != [] && ValidPath(p) && setting.disc(p)
    ensures ScanRight(setting, disk, S, p, [], [Probe(p)])
  {
    hide Clear, Stands, IsDirAt;
    assert p[..|p|] == p;
    assert Probe(p) in [Probe(p)];
    forall e: IndexEntry
      ensures FoundRight(setting, disk, S, p, [], [Probe(p)], e)
    {
      assert p <= e.path ==> Region(Probe(p), e.path);
    }
  }

  /** Whatever the next read gives, a calm one keeps the job right. */
  lemma ReadKeeps(setting: Setting, s: State, i: nat)
    requires TotalOrder(setting.leq) && Invariant(setting, s) && CanHappen(setting, s, ReadDisk(i))
    requires Calm(setting, s, ReadDisk(i))
    ensures Invariant(setting, Do(setting, s, ReadDisk(i)))
  {
    ReadStep(setting, s, i);
    InvariantParts(setting, s);
    var job := s.jobs[0];
    var s' := s.(jobs := [Advance(setting, s.disk, job)]);
    hide JobRight, GoodDisk, ValidPath, TotalOrder, ReadItem, Waiting, Covered, Advance, Do, Tracks;
    if ReadItem(setting.disc, s.disk, job.agenda[0]).Got? {
      GotKeeps(setting, s, job);
    } else {
      ThrowTracks(setting, s, job);
      ThrowKeeps(setting, s, job);
    }
    OnlyTheJob(setting, s, s');
  }

  lemma ReadStep(setting: Setting, s: State, i: nat)
    requires |s.jobs| <= 1 && CanHappen(setting, s, ReadDisk(i))
    ensures Do(setting, s, ReadDisk(i)) == s.(jobs := [Advance(setting, s.disk, s.jobs[0])])
    ensures Waiting(Do(setting, s, ReadDisk(i))) == Waiting(s)
  {
    hide Advance;
    assert s.jobs[i := Advance(setting, s.disk, s.jobs[0])] == [Advance(setting, s.disk, s.jobs[0])];
  }

  lemma OnlyTheJob(setting: Setting, s: State, s': State)
    requires Invariant(setting, s) && s' == s.(jobs := s'.jobs) && Waiting(s') == Waiting(s)
    requires |s'.jobs| == 1 && JobRight(setting, s', s'.jobs[0])
    ensures Invariant(setting, s')
  {
    hide JobRight, Tracks, Waiting, GoodDisk, ValidPath;
  }

  lemma ThrowKeeps(setting: Setting, s: State, job: Job)
    requires JobRight(setting, s, job) && job.Scanning?
    requires var next := Advance(setting, s.disk, job);
             next.Scanned? && next.path == job.path && Tracks(setting, Upcoming(s, next), s.disk, Waiting(s))
    ensures JobRight(setting, s.(jobs := [Advance(setting, s.disk, job)]), Advance(setting, s.disk, job))
  {
    var next := Advance(setting, s.disk, job);
    hide Advance, Tracks, ScanRight, ValidPath;
    assert Waiting(s.(jobs := [next])) == Waiting(s);
  }

  lemma GotKeeps(setting: Setting, s: State, job: Job)
    requires TotalOrder(setting.leq) && GoodDisk(s.disk) && JobRight(setting, s, job) && job.Scanning?
    requires ReadItem(setting.disc, s.disk, job.agenda[0]).Got?
    ensures JobRight(setting, s.(jobs := [Advance(setting, s.disk, job)]), Advance(setting, s.disk, job))
    ensures Advance(setting, s.disk, job).path == job.path
  {
    hide Tracks, ScanRight, GoodDisk, ValidPath, TotalOrder, ReadItem, Patched;
    var r, W := ReadItem(setting.disc, s.disk, job.agenda[0]), Waiting(s);
    var entries := job.entries + r.entries;
    assert Waiting(s.(jobs := [Advance(setting, s.disk, job)])) == W;
    hide Waiting;
    ReadKeepsScan(setting, s.disk, W, job.path, job.entries, job.agenda);
    if r.items + job.agenda[1..] == [] {
      ScanOver(setting, s.disk, W, job.path, entries);
      ResultTracks(setting, s.index, s.disk, W, job.path, entries);
    }
  }

  lemma ScanOver(setting: Setting, disk: Node, S: set<Path>, p: Path, entries: seq<IndexEntry>)
    requires ScanRight(setting, disk, S, p, entries, [])
    ensures Fits(setting.disc, p, entries, [])
    ensures forall e :: FoundRight(setting, disk, S, p, entries, [], e)
    ensures forall e, k :: AncestorRight(setting, entries, disk, S, e, k)
  {
    hide Fits, FoundRight, AncestorRight;
  }

  /** A read that throws: nothing is there, a file is in the way, or the path is to be updated again anyway. */
  lemma ThrowTracks(setting: Setting, s: State, job: Job)
    requires TotalOrder(setting.leq) && GoodDisk(s.disk) && JobRight(setting, s, job) && job.Scanning?
    requires ReadItem(setting.disc, s.disk, job.agenda[0]).Throws?
    requires job.agenda[0].Probe? || Covered(job.path, Waiting(s))
    ensures var next := Advance(setting, s.disk, job);
            next.Scanned? && next.path == job.path && Tracks(setting, Upcoming(s, next), s.disk, Waiting(s))
  {
    var p, W := job.path, Waiting(s);
    ProbeIsFirst(setting, s.disk, W, p, job.entries, job.agenda);
    hide Tracks, ScanRight, Covered, Waiting, Patched;
    StatPlain(s.disk, s.disk, [], p);
    if ReadItem(setting.disc, s.disk, job.agenda[0]).missing {
      NothingTracks(setting, s.index, s.disk, W, p);
    } else if Covered(p, W) {
      CoveredStable(setting, s.disk, W, p);
      TracksStays(setting, s.index, s.disk, W + {p}, s.disk, W);
    } else {
      var b :| 0 <= b < |p| && !IsDirAt(s.disk, p[..b]);
      assert p[..0] == [];
      BlockedTracks(setting, s.index, s.disk, W, p, b);
    }
  }

  /** The first stat is that of the path itself. */
  lemma ProbeIsFirst(setting: Setting, disk: Node, S: set<Path>, p: Path, entries: seq<IndexEntry>, agenda: seq<Item>)
    requires ScanRight(setting, disk, S, p, entries, agenda) && agenda != []
    ensures agenda[0].Probe? ==> agenda[0].path == p
  {
  }

  lemma SaveKeeps(setting: Setting, s: State, i: nat)
    requires Invariant(setting, s) && CanHappen(setting, s, SaveIndex(i))
    ensures Invariant(setting, Do(setting, s, SaveIndex(i)))
  {
    hide Tracks, GoodDisk, ValidPath;
  }

  /** With one worker every calm step keeps the invariant, also a tree change between two reads of a scan. */
  lemma StepKeeps(setting: Setting, s: State, a: Action)
    requires TotalOrder(setting.leq) && setting.concurrency == 1
    requires Invariant(setting, s) && CanHappen(setting, s, a) && Calm(setting, s, a)
    ensures Invariant(setting, Do(setting, s, a))
  {
    hide Invariant, Do, TotalOrder, Calm;
    match a {
      case ChangeDisk(p, disk) => ChangeKeeps(setting, s, p, disk);
      case Notify(p) => NotifyKeeps(setting, s, p);
      case StartJob => StartKeeps(setting, s);
      case LoadIndex(i) => LoadKeeps(setting, s, i);
      case ReadDisk(i) => ReadKeeps(setting, s, i);
      case SaveIndex(i) => SaveKeeps(setting, s, i);
    }
  }

  lemma InitialKeeps(setting: Setting, s: State)
    requires TotalOrder(setting.leq) && Initial(setting, s)
    ensures Invariant(setting, s)
  {
    FullScanGood(setting.leq, setting.disc, s.disk);
    assert Waiting(s) == {};
    forall e: IndexEntry
      ensures EntryRight(setting, s.index, s.disk, {}, e)
      ensures e in s.index ==> Chain(setting.disc, 0, e.path)
    {
      FullScanMember(setting.leq, setting.disc, s.disk, e);
    }
    forall e: IndexEntry, k: nat
      ensures AncestorRight(setting, s.index, s.disk, {}, e, k)
    {
      FullScanMember(setting.leq, setting.disc, s.disk, e);
      if e in s.index && k < |e.path| {
        StandsHasDirectories(s.disk, e, k);
      }
    }
  }

  lemma {:induction false} RunKeeps(setting: Setting, s0: State, actions: seq<Action>, s: State)
    requires TotalOrder(setting.leq) && setting.concurrency == 1
    requires Invariant(setting, s0) && Reaches(setting, s0, actions, s) && CalmRun(setting, s0, actions)
    ensures Invariant(setting, s)
    decreases |actions|
  {
    hide Invariant, CanHappen, Do, Calm, TotalOrder;
    if actions != [] {
      StepKeeps(setting, s0, actions[0]);
      RunKeeps(setting, Do(setting, s0, actions[0]), actions[1..], s);
    }
  }

  /** All paths something is still to happen for. */
  function Outstanding(s: State): set<Path> {
    Waiting(s) + set j | j in s.jobs :: j.path
  }

  /**
   With one worker, at every moment of every calm run, with the tree changing between any two reads: off the paths
   at or below something outstanding, the index and the tree agree on every entry along discoverable directories.
   */
  lemma IndexTracksTree(setting: Setting, s0: State, actions: seq<Action>, s: State, e: IndexEntry)
    requires TotalOrder(setting.leq) && setting.concurrency == 1
    requires Initial(setting, s0) && Reaches(setting, s0, actions, s) && CalmRun(setting, s0, actions)
    requires Chain(setting.disc, 0, e.path) && !Covered(e.path, Outstanding(s))
    ensures e in s.index <==> s.disk.Dir? && e in FullScan(setting.leq, setting.disc, s.disk)
  {
    InitialKeeps(setting, s0);
    RunKeeps(setting, s0, actions, s);
    InvariantParts(setting, s);
    hide Reaches, CalmRun, FullScan, Initial, TotalOrder, Invariant, Stands, Covered, Outstanding;
    FullScanMember(setting.leq, setting.disc, s.disk, e);
    InvariantShows(setting, s, e);
  }

  lemma InvariantShows(setting: Setting, s: State, e: IndexEntry)
    requires Invariant(setting, s) && Chain(setting.disc, 0, e.path) && !Covered(e.path, Outstanding(s))
    ensures e in s.index <==> e.path != [] && Stands(s.disk, e.path, e)
  {
    hide ScanRight, Stands, GoodDisk, Covered, Waiting;
    if s.jobs == [] {
      assert Outstanding(s) == Waiting(s);
      assert EntryRight(setting, s.index, s.disk, Waiting(s), e);
    } else {
      assert s.jobs[0] in s.jobs;
      assert Outstanding(s) == Waiting(s) + {s.jobs[0].path};
      assert EntryRight(setting, s.index, s.disk, Waiting(s) + {s.jobs[0].path}, e);
    }
    if e.path == [] {
      assert e !in s.index;
    }
  }

  /**
   So once nothing is outstanding, and if discoverable paths have discoverable ancestors, the index is the full scan.
   */
  lemma QuietIndexIsFullScan(setting: Setting, s0: State, actions: seq<Action>, s: State)
    requires TotalOrder(setting.leq) && setting.concurrency == 1 && ClosedAbove(setting.disc)
    requires Initial(setting, s0) && Reaches(setting, s0, actions, s) && CalmRun(setting, s0, actions) && Quiet(s)
    ensures s.disk.Dir? && s.index == FullScan(setting.leq, setting.disc, s.disk)
  {
    InitialKeeps(setting, s0);
    RunKeeps(setting, s0, actions, s);
    FullScanGood(setting.leq, setting.disc, s.disk);
    assert Outstanding(s) == {};
    hide Reaches, CalmRun, FullScan, Initial, TotalOrder, ScanRight;
    forall e: IndexEntry
      ensures e in s.index <==> e in FullScan(setting.leq, setting.disc, s.disk)
    {
      FullScanMember(setting.leq, setting.disc, s.disk, e);
      if Chain(setting.disc, 0, e.path) {
        IndexTracksTree(setting, s0, actions, s, e);
      }
    }
    GoodIndexUnique(setting.leq, s.index, FullScan(setting.leq, setting.disc, s.disk));
  }

  /**
   When something vanishes under a scan, after its first stat, so that a read throws ENOENT: what is stored then
   keeps up with the tree exactly when the path, or one above it, is to be updated again.
   */
  lemma VanishedTracksIff(setting: Setting, s: State, job: Job)
    requires TotalOrder(setting.leq) && Invariant(setting, s) && s.jobs == [job] && job.Scanning?
    requires ReadItem(setting.disc, s.disk, job.agenda[0]) == Throws(true) && !job.agenda[0].Probe?
    requires Chain(setting.disc, 0, job.path)
    ensures Tracks(setting, Upcoming(s, Advance(setting, s.disk, job)), s.disk, Waiting(s)) <==>
              Covered(job.path, Waiting(s))
  {
    var p, W := job.path, Waiting(s);
    if Covered(p, W) {
      hide Tracks, ScanRight, Waiting;
      ThrowTracks(setting, s, job);
    } else {
      assert job.agenda[0] in job.agenda;
      assert Lookup(s.disk, p).Some?;
      PathIsForgotten(setting, s.index, s.disk, W, p);
    }
  }

  lemma PathIsForgotten(setting: Setting, ix: seq<IndexEntry>, disk: Node, S: set<Path>, p: Path)
    requires GoodIndex(setting.leq, ix) && p != [] && ValidPath(p) && setting.disc(p)
    requires Clear(setting, S, p) && Lookup(disk, p).Some?
    ensures !Tracks(setting, Patched(setting.leq, ix, p, []), disk, S)
  {
    hide GoodIndex, ValidPath, Clear, Patched, Lookup, ClosedAbove;
    var e := Describe(p, Lookup(disk, p).value);
    NothingFits(setting.disc, p);
    PatchedHolds(setting, ix, p, []);
    assert !EntryRight(setting, Patched(setting.leq, ix, p, []), disk, S, e);
  }

  lemma NothingFits(disc: Path -> bool, p: Path)
    ensures Fits(disc, p, [], [])
  {
  }
}
