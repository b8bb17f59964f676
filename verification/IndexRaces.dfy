/** Why one worker and undisturbed reads are needed: three runs that end quietly with a wrong index. */
module IndexRaces {
  import opened Wrappers
  import opened Sequences
  import opened WorkspaceTree
  import opened WorkspaceIndex
  import opened WorkspaceIndexQueue
  import opened IndexScans
  import opened IndexRuns

  /** The setting in which every path is discoverable. */
  function Everything(leq: Order, concurrency: nat): Setting {
    Setting(leq, (_: Path) => true, concurrency)
  }

  /** Every calm run that ends quietly ends with the full scan. */
  ghost predicate AlwaysAgrees(setting: Setting) {
    forall s0, actions, s ::
      Initial(setting, s0) && Reaches(setting, s0, actions, s) && CalmRun(setting, s0, actions) && Quiet(s) ==>
        Agrees(setting, s)
  }

  ghost predicate Agrees(setting: Setting, s: State) {
    s.disk.Dir? && s.index == FullScan(setting.leq, setting.disc, s.disk)
  }

  lemma {:induction false} ReachesSnoc(setting: Setting, s0: State, actions: seq<Action>, s: State, a: Action)
    requires Reaches(setting, s0, actions, s) && CanHappen(setting, s, a)
    ensures Reaches(setting, s0, actions + [a], Do(setting, s, a))
    ensures CalmRun(setting, s0, actions) && Calm(setting, s, a) ==> CalmRun(setting, s0, actions + [a])
    decreases |actions|
  {
    hide CanHappen, Do, Calm;
    if actions == [] {
      assert ([] + [a])[1..] == [];
      assert Reaches(setting, Do(setting, s, a), [], Do(setting, s, a));
    } else {
      ReachesSnoc(setting, Do(setting, s0, actions[0]), actions[1..], s, a);
      assert (actions + [a])[1..] == actions[1..] + [a];
    }
  }

  /** One more step of a run. */
  lemma Go(setting: Setting, s0: State, actions: seq<Action>, s: State, a: Action)
    returns (actions': seq<Action>, s': State)
    requires Reaches(setting, s0, actions, s) && CanHappen(setting, s, a)
    ensures s' == Do(setting, s, a) && Reaches(setting, s0, actions', s')
    ensures CalmRun(setting, s0, actions) && Calm(setting, s, a) ==> CalmRun(setting, s0, actions')
  {
    ReachesSnoc(setting, s0, actions, s, a);
    actions', s' := actions + [a], Do(setting, s, a);
  }

  const FILE := File(0, "")
  const NONE := Dir([])
  const ONE := Dir([Child("a", FILE)])
  const TWO := Dir([Child("a", FILE), Child("b", FILE)])
  const PATH_A: Path := ["a"]
  const PATH_B: Path := ["b"]

  lemma FindInTwo(name: string)
    ensures FindChild(NONE.children, name) == None
    ensures FindChild(ONE.children, name) == if name == "a" then Some(FILE) else None
    ensures FindChild(TWO.children, name) == if name == "a" || name == "b" then Some(FILE) else None
  {
    assert ONE.children[1..] == [];
    assert TWO.children[1..] == [Child("b", FILE)] && TWO.children[1..][1..] == [];
  }

  lemma TwoFiles()
    ensures GoodDisk(NONE) && GoodDisk(ONE) && GoodDisk(TWO)
    ensures ValidPath(PATH_A) && ValidPath(PATH_B)
    ensures Lookup(TWO, PATH_A) == Some(FILE) && Lookup(TWO, PATH_B) == Some(FILE)
  {
    assert "a"[0] == 'a' && "b"[0] == 'b';
    FindInTwo("a");
    FindInTwo("b");
    assert PATH_A[1..] == [] && PATH_B[1..] == [];
  }

  lemma FirstFileAppears()
    ensures SameOutside(NONE, ONE, PATH_A)
  {
    forall e: IndexEntry | !(PATH_A <= e.path)
      ensures Stands(NONE, e.path, e) <==> Stands(ONE, e.path, e)
    {
      if e.path != [] {
        FindInTwo(e.path[0]);
        assert e.path[0] == "a" ==> PATH_A <= e.path;
      }
    }
  }

  lemma SecondFileAppears()
    ensures SameOutside(ONE, TWO, PATH_B)
  {
    forall e: IndexEntry | !(PATH_B <= e.path)
      ensures Stands(ONE, e.path, e) <==> Stands(TWO, e.path, e)
    {
      if e.path != [] {
        FindInTwo(e.path[0]);
        assert e.path[0] == "b" ==> PATH_B <= e.path;
      }
    }
  }

  lemma PutTwo(p: Path, q: Path)
    requires p != q
    ensures Put(Put([], Event(p, Change)), Event(q, Change)) == [Event(p, Change), Event(q, Change)]
  {
    assert [Event(p, Change)][1..] == [];
  }

  lemma DifferentPaths()
    ensures PATH_A != PATH_B && PATH_A != [] && PATH_B != []
  {
    assert PATH_A[0][0] != PATH_B[0][0];
  }

  /** Two files appear and are reported. */
  lemma BothReported(setting: Setting) returns (actions: seq<Action>)
    requires setting.disc == ((_: Path) => true)
    ensures var s0 := State(NONE, [], {}, [], []);
            && Reaches(setting, s0, actions, State(TWO, [], {}, [Event(PATH_A, Change), Event(PATH_B, Change)], []))
            && CalmRun(setting, s0, actions)
  {
    TwoFiles();
    FirstFileAppears();
    SecondFileAppears();
    DifferentPaths();
    PutTwo(PATH_A, PATH_B);
    var s0 := State(NONE, [], {}, [], []);
    actions := [];
    assert Reaches(setting, s0, actions, s0) && CalmRun(setting, s0, actions);
    hide Reaches, CalmRun, SameOutside, GoodDisk, ValidPath, PATH_A, PATH_B, NONE, ONE, TWO, Put;
    actions := ReportBoth(setting, s0, actions, s0, PATH_A, PATH_B, ONE, TWO);
  }

  lemma ReportBoth(setting: Setting, s0: State, actions0: seq<Action>, s: State, p: Path, q: Path, d1: Node, d2: Node)
    returns (actions: seq<Action>)
    requires setting.disc == ((_: Path) => true) && Reaches(setting, s0, actions0, s) && CalmRun(setting, s0, actions0)
    requires s == State(s.disk, [], {}, [], []) && p != [] && q != [] && p != q && ValidPath(p) && ValidPath(q)
    requires GoodDisk(d1) && GoodDisk(d2) && SameOutside(s.disk, d1, p) && SameOutside(d1, d2, q)
    requires Put(Put([], Event(p, Change)), Event(q, Change)) == [Event(p, Change), Event(q, Change)]
    ensures Reaches(setting, s0, actions, State(d2, [], {}, [Event(p, Change), Event(q, Change)], []))
    ensures CalmRun(setting, s0, actions)
  {
    hide Reaches, CalmRun, SameOutside, GoodDisk, ValidPath, Put;
    var t := s;
    actions := actions0;
    actions, t := Go(setting, s0, actions, t, ChangeDisk(p, d1));
    actions, t := Go(setting, s0, actions, t, ChangeDisk(q, d2));
    assert t.undelivered == {p, q};
    actions, t := Go(setting, s0, actions, t, Notify(p));
    assert t.undelivered == {q};
    actions, t := Go(setting, s0, actions, t, Notify(q));
    assert t.undelivered == {};
  }

  /** Two workers start and both read the stored index. */
  lemma BothLoaded(setting: Setting, s0: State, actions0: seq<Action>, disk: Node, p: Path, q: Path)
    returns (actions: seq<Action>)
    requires setting.concurrency >= 2 && setting.disc == ((_: Path) => true) && CalmRun(setting, s0, actions0)
    requires Reaches(setting, s0, actions0, State(disk, [], {}, [Event(p, Change), Event(q, Change)], []))
    ensures Reaches(setting, s0, actions,
                    State(disk, [], {}, [], [Scanning(p, [], [], [Probe(p)]), Scanning(q, [], [], [Probe(q)])]))
    ensures CalmRun(setting, s0, actions)
  {
    hide Reaches, CalmRun;
    var s := State(disk, [], {}, [Event(p, Change), Event(q, Change)], []);
    actions := actions0;
    actions, s := Go(setting, s0, actions, s, StartJob);
    actions, s := Go(setting, s0, actions, s, StartJob);
    assert s == State(disk, [], {}, [], [Picked(p), Picked(q)]);
    actions, s := Go(setting, s0, actions, s, LoadIndex(0));
    assert s.jobs == [Scanning(p, [], [], [Probe(p)]), Picked(q)];
    actions, s := Go(setting, s0, actions, s, LoadIndex(1));
    assert s.jobs == [Scanning(p, [], [], [Probe(p)]), Scanning(q, [], [], [Probe(q)])];
  }

  /** What the two reads of an update at a file lead to. */
  function FileJob(setting: Setting, current: seq<IndexEntry>, p: Path, file: Node): Job {
    Scanned(p, Some(Patched(setting.leq, current, p, [Describe(p, file)])))
  }

  lemma FileReads(setting: Setting, disk: Node, p: Path, file: Node)
    requires NoLinks(disk) && Lookup(disk, p) == Some(file) && file.File?
    ensures ReadItem(setting.disc, disk, Probe(p)) == Got([], [ReadFile(p, file.size)])
    ensures ReadItem(setting.disc, disk, ReadFile(p, file.size)) == Got([Describe(p, file)], [])
  {
    StatPlain(disk, disk, [], p);
  }

  /** An update at a file, in its two reads, by any one of the workers. */
  lemma ReadAFile(setting: Setting, s0: State, actions0: seq<Action>, s: State, i: nat, file: Node)
    returns (actions: seq<Action>)
    requires Reaches(setting, s0, actions0, s) && i < |s.jobs| && NoLinks(s.disk)
    requires s.jobs[i].Scanning?
    requires s.jobs[i] == Scanning(s.jobs[i].path, s.jobs[i].current, [], [Probe(s.jobs[i].path)])
    requires Lookup(s.disk, s.jobs[i].path) == Some(file) && file.File?
    ensures Reaches(setting, s0, actions,
                    s.(jobs := s.jobs[i := FileJob(setting, s.jobs[i].current, s.jobs[i].path, file)]))
    ensures CalmRun(setting, s0, actions0) ==> CalmRun(setting, s0, actions)
  {
    var p, current := s.jobs[i].path, s.jobs[i].current;
    var sized := Scanning(p, current, [], [ReadFile(p, file.size)]);
    FileAdvances(setting, s.disk, p, current, file);
    var half := s.(jobs := s.jobs[i := sized]);
    FileReads(setting, s.disk, p, file);
    hide Reaches, CalmRun, ReadItem, Advance, FileJob, NoLinks, Lookup;
    actions := ReadOnce(setting, s0, actions0, s, i);
    actions := ReadOnce(setting, s0, actions, half, i);
    assert half.jobs[i := FileJob(setting, current, p, file)] == s.jobs[i := FileJob(setting, current, p, file)];
  }

  /** One read of a worker that throws nothing. */
  lemma ReadOnce(setting: Setting, s0: State, actions0: seq<Action>, s: State, i: nat) returns (actions: seq<Action>)
    requires Reaches(setting, s0, actions0, s) && i < |s.jobs| && s.jobs[i].Scanning? && s.jobs[i].agenda != []
    requires ReadItem(setting.disc, s.disk, s.jobs[i].agenda[0]).Got?
    ensures Reaches(setting, s0, actions, s.(jobs := s.jobs[i := Advance(setting, s.disk, s.jobs[i])]))
    ensures CalmRun(setting, s0, actions0) ==> CalmRun(setting, s0, actions)
  {
    hide *;
    OneRead(setting, s, i);
    var t;
    actions, t := Go(setting, s0, actions0, s, ReadDisk(i));
  }

  /** A read that throws nothing is a calm step of its worker. */
  lemma OneRead(setting: Setting, s: State, i: nat)
    requires i < |s.jobs| && s.jobs[i].Scanning? && s.jobs[i].agenda != []
    requires ReadItem(setting.disc, s.disk, s.jobs[i].agenda[0]).Got?
    ensures CanHappen(setting, s, ReadDisk(i)) && Calm(setting, s, ReadDisk(i))
    ensures Do(setting, s, ReadDisk(i)) == s.(jobs := s.jobs[i := Advance(setting, s.disk, s.jobs[i])])
  {
  }

  lemma FileAdvances(setting: Setting, disk: Node, p: Path, current: seq<IndexEntry>, file: Node)
    requires NoLinks(disk) && Lookup(disk, p) == Some(file) && file.File?
    ensures var sized := Scanning(p, current, [], [ReadFile(p, file.size)]);
            && Advance(setting, disk, Scanning(p, current, [], [Probe(p)])) == sized
            && Advance(setting, disk, sized) == FileJob(setting, current, p, file)
    ensures ReadItem(setting.disc, disk, ReadFile(p, file.size)).Got?
  {
    FileReads(setting, disk, p, file);
    hide ReadItem, Patched, NoLinks, Lookup;
    assert [ReadFile(p, file.size)] + [Probe(p)][1..] == [ReadFile(p, file.size)];
    assert [Describe(p, file)] == [] + [Describe(p, file)];
  }

  /** Each saves its own file on top of what it read; the second save wins. */
  lemma BothSaved(setting: Setting, s0: State, actions0: seq<Action>, disk: Node, p: Path, q: Path, file: Node)
    returns (actions: seq<Action>)
    requires NoLinks(disk) && Lookup(disk, p) == Some(file) && Lookup(disk, q) == Some(file) && file.File?
    requires Reaches(setting, s0, actions0,
                     State(disk, [], {}, [], [Scanning(p, [], [], [Probe(p)]), Scanning(q, [], [], [Probe(q)])]))
    requires CalmRun(setting, s0, actions0)
    ensures Reaches(setting, s0, actions, State(disk, Patched(setting.leq, [], q, [Describe(q, file)]), {}, [], []))
    ensures CalmRun(setting, s0, actions)
  {
    hide Reaches, CalmRun, Patched, NoLinks, Lookup;
    var s := State(disk, [], {}, [], [Scanning(p, [], [], [Probe(p)]), Scanning(q, [], [], [Probe(q)])]);
    actions := ReadAFile(setting, s0, actions0, s, 0, file);
    s := s.(jobs := s.jobs[0 := FileJob(setting, [], p, file)]);
    actions := ReadAFile(setting, s0, actions, s, 1, file);
    s := s.(jobs := s.jobs[1 := FileJob(setting, [], q, file)]);
    actions, s := Go(setting, s0, actions, s, SaveIndex(0));
    assert s.jobs == [FileJob(setting, [], q, file)];
    actions, s := Go(setting, s0, actions, s, SaveIndex(0));
    assert s.jobs == [];
  }

  /** Two workers read the same index, and the second save forgets the first one's file; no read ever throws. */
  lemma TwoWorkersLoseAnEntry(setting: Setting) returns (s0: State, actions: seq<Action>, s: State)
    requires TotalOrder(setting.leq) && setting.concurrency >= 2 && setting.disc == ((_: Path) => true)
    ensures Initial(setting, s0) && Reaches(setting, s0, actions, s) && CalmRun(setting, s0, actions)
    ensures Quiet(s) && !Agrees(setting, s)
  {
    TwoFiles();
    EmptyStart(setting);
    OnlyTheSecondFile(setting);
    hide Reaches, CalmRun, FullScan, Patched, WellFormed, Lookup, Initial, TotalOrder;
    s0 := State(NONE, [], {}, [], []);
    actions := BothReported(setting);
    actions := BothLoaded(setting, s0, actions, TWO, PATH_A, PATH_B);
    actions := BothSaved(setting, s0, actions, TWO, PATH_A, PATH_B, FILE);
    s := State(TWO, Patched(setting.leq, [], PATH_B, [Describe(PATH_B, FILE)]), {}, [], []);
  }

  lemma EmptyStart(setting: Setting)
    ensures Initial(setting, State(NONE, [], {}, [], []))
  {
    NothingScanned(setting);
    TwoFiles();
    hide ScanEntries, Snapshot, GoodDisk, Lookup, ValidPath;
  }

  lemma NothingScanned(setting: Setting)
    ensures Snapshot(setting.leq, ScanEntries(setting.disc, [], NONE)) == []
  {
    assert ScanChildren(setting.disc, [], NONE.children) == [];
    hide Render;
  }

  /** An index that was patched at one path only holds what was listed elsewhere, and what was found. */
  lemma OnlyPatched(setting: Setting, current: seq<IndexEntry>, p: Path, found: seq<IndexEntry>, e: IndexEntry)
    requires e !in current && e !in found
    ensures e !in Patched(setting.leq, current, p, found)
  {
    hide Snapshot, Remaining;
    SnapshotMember(setting.leq, Remaining(current, p) + found, e);
  }

  lemma OnlyTheSecondFile(setting: Setting)
    requires setting.disc == ((_: Path) => true)
    ensures Patched(setting.leq, [], PATH_B, [Describe(PATH_B, FILE)]) != FullScan(setting.leq, setting.disc, TWO)
  {
    TwoFiles();
    DifferentPaths();
    var e := Describe(PATH_A, FILE);
    hide FullScan, Patched;
    OnlyPatched(setting, [], PATH_B, [Describe(PATH_B, FILE)], e);
    FullScanMember(setting.leq, setting.disc, TWO, e);
  }

  const FULL_DIR := Dir([Child("x", FILE), Child("y", FILE)])
  const LESS_DIR := Dir([Child("y", FILE)])
  const FULL := Dir([Child("d", FULL_DIR)])
  const LESS := Dir([Child("d", LESS_DIR)])
  const PATH_D: Path := ["d"]
  const PATH_X: Path := ["d", "x"]
  const PATH_Y: Path := ["d", "y"]

  lemma FindInDirectory(name: string)
    ensures FindChild(FULL.children, name) == if name == "d" then Some(FULL_DIR) else None
    ensures FindChild(LESS.children, name) == if name == "d" then Some(LESS_DIR) else None
    ensures FindChild(FULL_DIR.children, name) == if name == "x" || name == "y" then Some(FILE) else None
    ensures FindChild(LESS_DIR.children, name) == if name == "y" then Some(FILE) else None
  {
    assert FULL.children[1..] == [] && LESS.children[1..] == [] && LESS_DIR.children[1..] == [];
    assert FULL_DIR.children[1..] == LESS_DIR.children;
    assert FindChild(LESS_DIR.children, name) == if name == "y" then Some(FILE) else None;
  }

  lemma DirectoryDisksGood()
    ensures GoodDisk(FULL) && GoodDisk(LESS)
    ensures ValidPath(PATH_D) && ValidPath(PATH_X) && ValidPath(PATH_Y)
  {
    assert "x"[0] == 'x' && "y"[0] == 'y' && "d"[0] == 'd';
    assert WellFormed(FULL_DIR) && WellFormed(LESS_DIR) && NoLinks(FULL_DIR) && NoLinks(LESS_DIR);
  }

  lemma DirectoryPaths()
    ensures PATH_D < PATH_X && PATH_D < PATH_Y && !(PATH_X <= PATH_Y) && PATH_X != []
    ensures Lookup(LESS, PATH_Y) == Some(FILE) && Lookup(LESS, PATH_X) == None
  {
    assert PATH_X[1][0] != PATH_Y[1][0];
    FindInDirectory("d");
    FindInDirectory("x");
    FindInDirectory("y");
    assert PATH_Y[2..] == [];
    LookupTwo(LESS, PATH_X);
    LookupTwo(LESS, PATH_Y);
  }

  lemma FileVanishes()
    ensures SameOutside(FULL, LESS, PATH_X)
  {
    forall e: IndexEntry | !(PATH_X <= e.path)
      ensures Stands(FULL, e.path, e) <==> Stands(LESS, e.path, e)
    {
      if |e.path| == 1 {
        assert e.path == [e.path[0]];
        LookupOne(FULL, e.path[0]);
        LookupOne(LESS, e.path[0]);
        FindInDirectory(e.path[0]);
      } else if |e.path| > 1 {
        NotTheVanishedFile(e.path);
        LookupTwo(FULL, e.path);
        LookupTwo(LESS, e.path);
        FindInDirectory(e.path[0]);
        FindInDirectory(e.path[1]);
      }
    }
  }

  lemma NotTheVanishedFile(path: Path)
    requires |path| > 1
    ensures path[0] == "d" && path[1] == "x" ==> PATH_X <= path
  {
    assert path[..2] == [path[0], path[1]];
    assert path[..2] <= path;
  }

  lemma LookupOne(root: Node, name: string)
    requires root.Dir?
    ensures Lookup(root, [name]) == FindChild(root.children, name)
  {
    assert [name][1..] == [];
    var child := FindChild(root.children, name);
    if child.Some? {
      assert Lookup(child.value, []) == child;
    }
  }

  /** Looking up a path of at least two names, two directories at a time. */
  lemma LookupTwo(root: Node, path: Path)
    requires |path| > 1 && root.Dir?
    ensures Lookup(root, path) ==
            var d := FindChild(root.children, path[0]);
            if d.None? || !d.value.Dir? then None
            else
              var f := FindChild(d.value.children, path[1]);
              if f.None? then None else Lookup(f.value, path[2..])
  {
    assert path[1..][0] == path[1] && path[1..][1..] == path[2..];
  }

  const NEST_DIR := Dir([Child("y", NONE)])
  const NEST := Dir([Child("d", NEST_DIR)])

  /** The directory d appears, or changes as a whole. */
  lemma DirectoryAppears()
    ensures SameOutside(LESS, FULL, PATH_D) && SameOutside(NONE, NEST, PATH_D)
  {
    forall e: IndexEntry | !(PATH_D <= e.path)
      ensures Stands(LESS, e.path, e) <==> Stands(FULL, e.path, e)
      ensures Stands(NONE, e.path, e) <==> Stands(NEST, e.path, e)
    {
      if e.path != [] {
        FindInDirectory(e.path[0]);
        FindInNest(e.path[0]);
        assert e.path[0] == "d" ==> PATH_D <= e.path;
      }
    }
  }

  lemma FindInNest(name: string)
    ensures FindChild(NEST.children, name) == if name == "d" then Some(NEST_DIR) else None
    ensures FindChild(NEST_DIR.children, name) == if name == "y" then Some(NONE) else None
    ensures FindChild(NONE.children, name) == None
  {
    assert NEST.children[1..] == [] && NEST_DIR.children[1..] == [];
  }

  lemma DirectoryTurnsFile()
    ensures SameOutside(NEST, LESS, PATH_Y)
  {
    forall e: IndexEntry | !(PATH_Y <= e.path)
      ensures Stands(NEST, e.path, e) <==> Stands(LESS, e.path, e)
    {
      if |e.path| == 1 {
        assert e.path == [e.path[0]];
        LookupOne(NEST, e.path[0]);
        LookupOne(LESS, e.path[0]);
        FindInDirectory(e.path[0]);
        FindInNest(e.path[0]);
      } else if |e.path| > 1 {
        NotTheTurnedDirectory(e.path);
        LookupTwo(NEST, e.path);
        LookupTwo(LESS, e.path);
        FindInDirectory(e.path[0]);
        FindInDirectory(e.path[1]);
        FindInNest(e.path[0]);
        FindInNest(e.path[1]);
      }
    }
  }

  lemma NotTheTurnedDirectory(path: Path)
    requires |path| > 1
    ensures path[0] == "d" && path[1] == "y" ==> PATH_Y <= path
  {
    assert path[..2] == [path[0], path[1]];
    assert path[..2] <= path;
  }

  /** The report of p arrives at an idle queue, a worker takes it and reads the stored index. */
  lemma TakeUp(setting: Setting, s0: State, actions0: seq<Action>, s: State, p: Path) returns (actions: seq<Action>)
    requires setting.concurrency >= 1 && setting.disc(p) && p != [] && ValidPath(p)
    requires Reaches(setting, s0, actions0, s) && s.undelivered == {p} && s.pending == [] && s.jobs == []
    ensures Reaches(setting, s0, actions, State(s.disk, s.index, {}, [], [Scanning(p, s.index, [], [Probe(p)])]))
  {
    assert Put([], Event(p, Change)) == [Event(p, Change)];
    assert {p} - {p} == {};
    hide Reaches, CalmRun, Calm, ValidPath, Put;
    var t;
    actions, t := Go(setting, s0, actions0, s, Notify(p));
    assert t == State(s.disk, s.index, {}, [Event(p, Change)], []);
    actions, t := Go(setting, s0, actions, t, StartJob);
    assert [Event(p, Change)][1..] == [] && [] + [Picked(p)] == [Picked(p)];
    assert t == State(s.disk, s.index, {}, [], [Picked(p)]);
    hide Begin;
    actions, t := Go(setting, s0, actions, t, LoadIndex(0));
    assert [Picked(p)][0 := Begin(setting, s.index, p)] == [Begin(setting, s.index, p)];
    BeginIs(setting, s.index, p);
  }

  lemma BeginIs(setting: Setting, index: seq<IndexEntry>, p: Path)
    requires setting.disc(p)
    ensures Begin(setting, index, p) == Scanning(p, index, [], [Probe(p)])
  {
  }

  /** The tree changes at p while nothing else is on its way, and a worker takes it up. */
  lemma ChangeAndTakeUp(setting: Setting, s: State, disk: Node, p: Path) returns (actions: seq<Action>)
    requires setting.concurrency >= 1 && setting.disc(p) && p != [] && ValidPath(p)
    requires s == State(s.disk, s.index, {}, [], []) && GoodDisk(disk) && SameOutside(s.disk, disk, p)
    ensures Reaches(setting, s, actions, State(disk, s.index, {}, [], [Scanning(p, s.index, [], [Probe(p)])]))
  {
    assert Reaches(setting, s, [], s);
    hide Reaches, ValidPath, GoodDisk, SameOutside;
    var t;
    actions, t := Go(setting, s, [], s, ChangeDisk(p, disk));
    assert {} + {p} == {p};
    actions := TakeUp(setting, s, actions, t, p);
  }

  /** One read of the only worker, that does not end its scan. */
  lemma ReadOn(setting: Setting, s0: State, actions0: seq<Action>, s: State, item: Item, rest: seq<Item>,
               found: seq<IndexEntry>, items: seq<Item>)
    returns (actions: seq<Action>)
    requires Reaches(setting, s0, actions0, s) && |s.jobs| == 1 && s.jobs[0].Scanning?
    requires s.jobs[0].agenda == [item] + rest
    requires ReadItem(setting.disc, s.disk, item) == Got(found, items) && items + rest != []
    ensures Reaches(setting, s0, actions,
                    s.(jobs := [Scanning(s.jobs[0].path, s.jobs[0].current, s.jobs[0].entries + found, items + rest)]))
  {
    hide Reaches, CalmRun, Calm, ReadItem;
    var t;
    assert ([item] + rest)[1..] == rest;
    actions, t := Go(setting, s0, actions0, s, ReadDisk(0));
    assert t.jobs == [Scanning(s.jobs[0].path, s.jobs[0].current, s.jobs[0].entries + found, items + rest)];
  }

  /** The only worker reads up to its listing of the directory p. */
  lemma ReadDirectory(setting: Setting, s0: State, actions0: seq<Action>, s: State, p: Path, dir: Node,
                      items: seq<Item>)
    returns (actions: seq<Action>)
    requires Reaches(setting, s0, actions0, s) && s.jobs == [Scanning(p, s.index, [], [Probe(p)])]
    requires NoLinks(s.disk) && Lookup(s.disk, p) == Some(dir) && dir.Dir?
    requires items == ItemsFor(setting.disc, p, dir.children) && items != []
    ensures Reaches(setting, s0, actions, s.(jobs := [Scanning(p, s.index, [Describe(p, dir)], items)]))
  {
    StatPlain(s.disk, s.disk, [], p);
    assert ReadItem(setting.disc, s.disk, Probe(p)) == Got([], [Visit(p)]);
    assert ReadItem(setting.disc, s.disk, Visit(p)) == Got([Describe(p, dir)], [List(p)]);
    assert ReadItem(setting.disc, s.disk, List(p)) == Got([], items);
    hide Reaches, CalmRun, Calm, ReadItem, Stat, ItemsFor, NoLinks, Lookup;
    var none: seq<Item> := [];
    Neutral(none);
    Neutral([Probe(p)]);
    Neutral([Visit(p)]);
    Neutral([List(p)]);
    Neutral(items);
    Neutral([Describe(p, dir)]);
    actions := ReadOn(setting, s0, actions0, s, Probe(p), [], [], [Visit(p)]);
    var visit := s.(jobs := [Scanning(p, s.index, [], [Visit(p)])]);
    var nothing: seq<IndexEntry> := [];
    Neutral(nothing);
    actions := ReadOn(setting, s0, actions, visit, Visit(p), [], [Describe(p, dir)], [List(p)]);
    var list := s.(jobs := [Scanning(p, s.index, [Describe(p, dir)], [List(p)])]);
    actions := ReadOn(setting, s0, actions, list, List(p), [], [], items);
  }

  /** The next read of the only worker throws, and it saves what that leaves. */
  lemma ThrowAndSave(setting: Setting, s0: State, actions0: seq<Action>, s: State, missing: bool)
    returns (actions: seq<Action>)
    requires Reaches(setting, s0, actions0, s) && |s.jobs| == 1 && s.jobs[0].Scanning? && s.jobs[0].agenda != []
    requires ReadItem(setting.disc, s.disk, s.jobs[0].agenda[0]) == Throws(missing)
    ensures Reaches(setting, s0, actions,
                    s.(index := if missing then Patched(setting.leq, s.jobs[0].current, s.jobs[0].path, [])
                                else s.index,
                       jobs := []))
  {
    hide Reaches, CalmRun, Calm, ReadItem, Patched;
    var t;
    actions, t := Go(setting, s0, actions0, s, ReadDisk(0));
    assert |t.jobs| == 1 && t.jobs[0].Scanned?;
    actions, t := Go(setting, s0, actions, t, SaveIndex(0));
    assert t.jobs == [];
  }

  /** The update of a path where nothing stands any more, or of a file, as the last one. */
  lemma LastUpdate(setting: Setting, s0: State, actions0: seq<Action>, s: State, p: Path)
    returns (actions: seq<Action>, index: seq<IndexEntry>)
    requires setting.concurrency >= 1 && setting.disc(p) && p != [] && ValidPath(p)
    requires Reaches(setting, s0, actions0, s) && s.undelivered == {p} && s.pending == [] && s.jobs == []
    requires NoLinks(s.disk)
    requires Stat(PlainWorld(s.disk), s.disk, [], p) == Missing
             || (Lookup(s.disk, p).Some? && Lookup(s.disk, p).value.File?)
    ensures Reaches(setting, s0, actions, State(s.disk, index, {}, [], []))
    ensures forall e :: e !in s.index && e.path != p ==> e !in index
  {
    StatPlain(s.disk, s.disk, [], p);
    hide Reaches, CalmRun, Calm, Patched, NoLinks, Stat, Lookup, ValidPath;
    actions := TakeUp(setting, s0, actions0, s, p);
    var t := State(s.disk, s.index, {}, [], [Scanning(p, s.index, [], [Probe(p)])]);
    var found := [];
    if Stat(PlainWorld(s.disk), s.disk, [], p) == Missing {
      ProbeMisses(setting, s.disk, p);
      hide ReadItem;
      actions := ThrowAndSave(setting, s0, actions, t, true);
    } else {
      var file := Lookup(s.disk, p).value;
      found := [Describe(p, file)];
      hide ReadItem;
      actions := ReadAFile(setting, s0, actions, t, 0, file);
      t := t.(jobs := t.jobs[0 := FileJob(setting, s.index, p, file)]);
      actions := SaveOnly(setting, s0, actions, t);
    }
    index := Patched(setting.leq, s.index, p, found);
    forall e | e !in s.index && e.path != p
      ensures e !in index
    {
      OnlyPatched(setting, s.index, p, found, e);
    }
  }

  lemma ProbeMisses(setting: Setting, disk: Node, p: Path)
    requires Stat(PlainWorld(disk), disk, [], p) == Missing
    ensures ReadItem(setting.disc, disk, Probe(p)) == Throws(true)
  {
  }

  /** The only worker saves what it has. */
  lemma SaveOnly(setting: Setting, s0: State, actions0: seq<Action>, s: State) returns (actions: seq<Action>)
    requires Reaches(setting, s0, actions0, s) && |s.jobs| == 1 && s.jobs[0].Scanned?
    ensures Reaches(setting, s0, actions, s.(index := Upcoming(s, s.jobs[0]), jobs := []))
  {
    hide Reaches, CalmRun, Calm;
    var t;
    actions, t := Go(setting, s0, actions0, s, SaveIndex(0));
    assert t.jobs == [];
  }

  lemma Listings(setting: Setting)
    requires setting.disc == ((_: Path) => true)
    ensures ItemsFor(setting.disc, PATH_D, FULL_DIR.children) == [Leaf(PATH_X), Leaf(PATH_Y)]
    ensures ItemsFor(setting.disc, PATH_D, NEST_DIR.children) == [Visit(PATH_Y)]
  {
    assert PATH_D + ["x"] == PATH_X && PATH_D + ["y"] == PATH_Y;
    assert FULL_DIR.children[1..] == LESS_DIR.children && LESS_DIR.children[1..] == [] && NEST_DIR.children[1..] == [];
    assert ItemsFor(setting.disc, PATH_D, LESS_DIR.children) == [Leaf(PATH_Y)];
  }

  lemma DirectoryStands()
    ensures Lookup(FULL, PATH_D) == Some(FULL_DIR) && Lookup(NEST, PATH_D) == Some(NEST_DIR)
    ensures Lookup(LESS, PATH_D) == Some(LESS_DIR)
    ensures GoodDisk(NEST) && GoodDisk(NONE)
    ensures Stat(PlainWorld(LESS), LESS, [], PATH_X) == Missing
  {
    FindInDirectory("d");
    FindInNest("d");
    LookupOne(FULL, "d");
    LookupOne(NEST, "d");
    LookupOne(LESS, "d");
    DirectoryDisksGood();
    DirectoryPaths();
    assert WellFormed(NONE) && NoLinks(NONE);
    assert WellFormed(NEST_DIR) && NoLinks(NEST_DIR);
    forall k | 0 <= k < |PATH_X|
      ensures Lookup(LESS, PATH_X[..k]).Some? && Lookup(LESS, PATH_X[..k]).value.Dir?
    {
      assert k == 0 ==> PATH_X[..k] == [];
      assert k == 1 ==> PATH_X[..k] == PATH_D;
    }
    StatUnderDirectories(PlainWorld(LESS), LESS, [], PATH_X);
  }

  /**
   A file vanishes between the listing of its directory and its own stat: the whole directory is forgotten, and no
   event is left to bring it back.
   */
  lemma VanishedFileLosesItsDirectory(setting: Setting) returns (s0: State, actions: seq<Action>, s: State)
    requires TotalOrder(setting.leq) && setting.concurrency >= 1 && setting.disc == ((_: Path) => true)
    ensures Initial(setting, s0) && Reaches(setting, s0, actions, s) && Quiet(s) && !Agrees(setting, s)
  {
    DirectoryDisksGood();
    DirectoryPaths();
    DirectoryStands();
    DirectoryAppears();
    FileVanishes();
    Listings(setting);
    var full := FullScan(setting.leq, setting.disc, LESS);
    var y := Describe(PATH_Y, FILE);
    FullScanMember(setting.leq, setting.disc, LESS, y);
    FullScanGood(setting.leq, setting.disc, LESS);
    Forgotten(setting, full, PATH_D, y);
    s0 := State(LESS, full, {}, [], []);
    hide Reaches, CalmRun, Calm, SameOutside, GoodDisk, ValidPath, FullScan, Patched, Lookup, ItemsFor, Stat, Stands;
    hide Chain;
    var index;
    actions, index := LoseDirectory(setting, s0, FULL, PATH_D, FULL_DIR, PATH_X, [Leaf(PATH_Y)], LESS);
    s := State(LESS, index, {}, [], []);
  }

  lemma Forgotten(setting: Setting, current: seq<IndexEntry>, p: Path, e: IndexEntry)
    requires GoodIndex(setting.leq, current) && p != [] && ValidPath(p) && p <= e.path
    ensures e !in Patched(setting.leq, current, p, [])
  {
    hide Snapshot, Remaining;
    SnapshotMember(setting.leq, Remaining(current, p) + [], e);
    RemainingMember(setting.leq, current, p, e);
  }

  /** The directory p changes and is listed; q in it vanishes before its stat; its report is worked off last. */
  lemma LoseDirectory(setting: Setting, s0: State, disk: Node, p: Path, dir: Node, q: Path, rest: seq<Item>, less: Node)
    returns (actions: seq<Action>, index: seq<IndexEntry>)
    requires setting.concurrency >= 1 && setting.disc == ((_: Path) => true)
    requires s0 == State(s0.disk, s0.index, {}, [], [])
    requires p != [] && ValidPath(p) && q != [] && ValidPath(q) && GoodDisk(disk) && GoodDisk(less)
    requires SameOutside(s0.disk, disk, p) && SameOutside(disk, less, q)
    requires Lookup(disk, p) == Some(dir) && dir.Dir? && ItemsFor(setting.disc, p, dir.children) == [Leaf(q)] + rest
    requires Stat(PlainWorld(less), less, [], q) == Missing
    ensures Reaches(setting, s0, actions, State(less, index, {}, [], []))
    ensures forall e :: e !in Patched(setting.leq, s0.index, p, []) && e.path != q ==> e !in index
  {
    assert ReadItem(setting.disc, less, Leaf(q)) == Throws(true);
    hide Reaches, CalmRun, Calm, SameOutside, ValidPath, Patched, Lookup, ItemsFor, Stat, ReadItem, NoLinks, WellFormed;
    actions := ChangeAndTakeUp(setting, s0, disk, p);
    var s := State(disk, s0.index, {}, [], [Scanning(p, s0.index, [], [Probe(p)])]);
    actions := ReadDirectory(setting, s0, actions, s, p, dir, [Leaf(q)] + rest);
    s := s.(jobs := [Scanning(p, s0.index, [Describe(p, dir)], [Leaf(q)] + rest)]);
    actions, s := Go(setting, s0, actions, s, ChangeDisk(q, less));
    assert {} + {q} == {q};
    actions := ThrowAndSave(setting, s0, actions, s, true);
    s := State(less, Patched(setting.leq, s0.index, p, []), {q}, [], []);
    actions, index := LastUpdate(setting, s0, actions, s, q);
  }

  /**
   A directory turns into a file between the listing above it and its own: the scan fails with ENOTDIR, nothing is
   saved, and the directory above, with all it holds, never gets into the index.
   */
  lemma TurnedDirectoryLosesItsParent(setting: Setting) returns (s0: State, actions: seq<Action>, s: State)
    requires TotalOrder(setting.leq) && setting.concurrency >= 1 && setting.disc == ((_: Path) => true)
    ensures Initial(setting, s0) && Reaches(setting, s0, actions, s) && Quiet(s) && !Agrees(setting, s)
  {
    DirectoryDisksGood();
    DirectoryPaths();
    DirectoryStands();
    DirectoryAppears();
    DirectoryTurnsFile();
    Listings(setting);
    EmptyStart(setting);
    var d := Describe(PATH_D, LESS_DIR);
    FullScanMember(setting.leq, setting.disc, LESS, d);
    s0 := State(NONE, [], {}, [], []);
    hide Reaches, CalmRun, Calm, SameOutside, GoodDisk, ValidPath, FullScan, Patched, Lookup, ItemsFor, Stat, Stands;
    hide Chain;
    var index;
    actions, index := LoseParent(setting, s0, NEST, PATH_D, NEST_DIR, PATH_Y, LESS, FILE);
    s := State(LESS, index, {}, [], []);
  }

  /** The directory p appears and is listed; q in it turns from a directory into a file before it is visited. */
  lemma LoseParent(setting: Setting, s0: State, disk: Node, p: Path, dir: Node, q: Path, less: Node, file: Node)
    returns (actions: seq<Action>, index: seq<IndexEntry>)
    requires setting.concurrency >= 1 && setting.disc == ((_: Path) => true)
    requires s0 == State(s0.disk, s0.index, {}, [], [])
    requires p != [] && ValidPath(p) && q != [] && ValidPath(q) && GoodDisk(disk) && GoodDisk(less)
    requires SameOutside(s0.disk, disk, p) && SameOutside(disk, less, q)
    requires Lookup(disk, p) == Some(dir) && dir.Dir? && ItemsFor(setting.disc, p, dir.children) == [Visit(q)]
    requires Lookup(less, q) == Some(file) && file.File?
    ensures Reaches(setting, s0, actions, State(less, index, {}, [], []))
    ensures forall e :: e !in s0.index && e.path != q ==> e !in index
  {
    StatPlain(less, less, [], q);
    var read, list := ReadFile(q, file.size), List(q);
    assert ReadItem(setting.disc, less, Visit(q)) == Got([], [read, list]);
    assert ReadItem(setting.disc, less, read) == Got([Describe(q, file)], []);
    assert ReadItem(setting.disc, less, list) == Throws(false);
    hide Reaches, CalmRun, Calm, SameOutside, ValidPath, Lookup, ItemsFor, Stat, ReadItem, NoLinks, WellFormed;
    actions := ChangeAndTakeUp(setting, s0, disk, p);
    var s := State(disk, s0.index, {}, [], [Scanning(p, s0.index, [], [Probe(p)])]);
    actions := ReadDirectory(setting, s0, actions, s, p, dir, [Visit(q)]);
    s := s.(jobs := [Scanning(p, s0.index, [Describe(p, dir)], [Visit(q)])]);
    actions, s := Go(setting, s0, actions, s, ChangeDisk(q, less));
    assert {} + {q} == {q};
    actions := VisitTheFile(setting, s0, actions, s, read, list, q, Describe(q, file));
    s := s.(jobs := []);
    actions, index := LastUpdate(setting, s0, actions, s, q);
  }

  /** The visit of what is a file by now: its bytes are read, and its listing throws. */
  lemma VisitTheFile(setting: Setting, s0: State, actions0: seq<Action>, s: State, read: Item, list: Item, q: Path,
                     e: IndexEntry)
    returns (actions: seq<Action>)
    requires Reaches(setting, s0, actions0, s) && |s.jobs| == 1 && s.jobs[0].Scanning? && s.jobs[0].agenda == [Visit(q)]
    requires ReadItem(setting.disc, s.disk, Visit(q)) == Got([], [read, list])
    requires ReadItem(setting.disc, s.disk, read) == Got([e], [])
    requires ReadItem(setting.disc, s.disk, list) == Throws(false)
    ensures Reaches(setting, s0, actions, s.(jobs := []))
  {
    hide Reaches, CalmRun, Calm, ReadItem;
    var job := s.jobs[0];
    Neutral([Visit(q)]);
    Neutral([read, list]);
    Neutral(job.entries);
    Neutral([list]);
    actions := ReadOn(setting, s0, actions0, s, Visit(q), [], [], [read, list]);
    var t := s.(jobs := [Scanning(job.path, job.current, job.entries, [read, list])]);
    assert [read, list] == [read] + [list];
    actions := ReadOn(setting, s0, actions, t, read, [list], [e], []);
    t := s.(jobs := [Scanning(job.path, job.current, job.entries + [e], [list])]);
    actions := ThrowAndSave(setting, s0, actions, t, false);
  }

  /**
   With everything discoverable, calm quiet runs always end with the full scan exactly when there is one worker.
   The other two runs show that calmness is needed whatever the number of workers.
   */
  lemma QuietAgreementIff(leq: Order, concurrency: nat)
    requires TotalOrder(leq) && concurrency >= 1
    ensures AlwaysAgrees(Everything(leq, concurrency)) <==> concurrency == 1
  {
    var setting := Everything(leq, concurrency);
    hide Initial, Reaches, CalmRun, Quiet, Agrees, TotalOrder;
    if concurrency >= 2 {
      var s0, actions, s := TwoWorkersLoseAnEntry(setting);
    } else {
      forall s0, actions, s | Initial(setting, s0) && Reaches(setting, s0, actions, s)
        && CalmRun(setting, s0, actions) && Quiet(s)
        ensures Agrees(setting, s)
      {
        AgreesWhenQuiet(setting, s0, actions, s);
      }
    }
  }

  lemma AgreesWhenQuiet(setting: Setting, s0: State, actions: seq<Action>, s: State)
    requires TotalOrder(setting.leq) && setting.concurrency == 1 && setting.disc == ((_: Path) => true)
    requires Initial(setting, s0) && Reaches(setting, s0, actions, s) && CalmRun(setting, s0, actions) && Quiet(s)
    ensures Agrees(setting, s)
  {
    QuietIndexIsFullScan(setting, s0, actions, s);
  }
}
