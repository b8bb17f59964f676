/** Directory trees, relative paths, and the full scan that lists a tree's discoverable entries. */
module WorkspaceTree {
  import opened Wrappers
  import opened Sequences
  import opened TextLines

  /** A relative path as its segments; the root is the empty path. */
  type Path = seq<string>

  datatype Node = File(size: nat, text: string) | Symlink(size: nat) | Dir(children: seq<Child>)

  datatype Child = Child(name: string, node: Node)

  datatype EntryKind = FileEntry | DirectoryEntry | SymlinkEntry

  /** text stands for everything the index derives from a file's bytes: hashes, symbols, imports and the like. */
  datatype IndexEntry = IndexEntry(path: Path, kind: EntryKind, size: nat, text: Option<string>)

  predicate ValidName(name: string) {
    name != "" && '/' !in name && '\\' !in name
  }

  predicate ValidPath(path: Path) {
    forall i :: 0 <= i < |path| ==> ValidName(path[i])
  }

  /** The path as the text the index stores. */
  function Render(path: Path): string {
    JoinWith('/', path)
  }

  ghost predicate UniqueNames(children: seq<Child>) {
    forall i, j :: 0 <= i < j < |children| ==> children[i].name != children[j].name
  }

  ghost predicate WellFormed(node: Node) {
    node.Dir? ==>
      UniqueNames(node.children)
      && forall i :: 0 <= i < |node.children| ==> ValidName(node.children[i].name) && WellFormed(node.children[i].node)
  }

  function FindChild(children: seq<Child>, name: string): Option<Node> {
    if children == [] then None
    else if children[0].name == name then Some(children[0].node)
    else FindChild(children[1..], name)
  }

  /** What is at a path, following no symbolic link. */
  function Lookup(node: Node, path: Path): Option<Node>
    decreases |path|
  {
    if path == [] then Some(node)
    else if !node.Dir? then None
    else
      var child := FindChild(node.children, path[0]);
      if child.None? then None else Lookup(child.value, path[1..])
  }

  function Describe(path: Path, node: Node): IndexEntry {
    match node
    case File(size, text) => IndexEntry(path, FileEntry, size, Some(text))
    case Symlink(size) => IndexEntry(path, SymlinkEntry, size, None)
    case Dir(_) => IndexEntry(path, DirectoryEntry, 0, None)
  }

  /** The entries of a directory and everything discoverable below it, in preorder. The root has no entry of its own. */
  function ScanEntries(disc: Path -> bool, path: Path, dir: Node): seq<IndexEntry>
    requires dir.Dir?
    decreases dir, 1
  {
    if path != [] && !disc(path) then []
    else (if path == [] then [] else [Describe(path, dir)]) + ScanChildren(disc, path, dir.children)
  }

  function ScanChildren(disc: Path -> bool, path: Path, children: seq<Child>): seq<IndexEntry>
    decreases children, 0
  {
    if children == [] then []
    else ScanChild(disc, path + [children[0].name], children[0].node) + ScanChildren(disc, path, children[1..])
  }

  function ScanChild(disc: Path -> bool, path: Path, node: Node): seq<IndexEntry>
    decreases node, 2
  {
    if !disc(path) then []
    else if node.Dir? then ScanEntries(disc, path, node)
    else [Describe(path, node)]
  }

  /** The recursive scan, pushing onto one list of entries. */
  method ScanDirectory(disc: Path -> bool, path: Path, dir: Node, entries: seq<IndexEntry>) returns (r: seq<IndexEntry>)
    requires dir.Dir?
    ensures r == entries + ScanEntries(disc, path, dir)
    decreases dir
  {
    r := entries;
    if path != [] && !disc(path) {
      return;
    }
    if path != [] {
      r := r + [Describe(path, dir)];
    }
    var children := dir.children;
    assert children[0..] == children;
    hide Describe;
    for i := 0 to |children|
      invariant r + ScanChildren(disc, path, children[i..]) == entries + ScanEntries(disc, path, dir)
    {
      var child, childPath := children[i], path + [children[i].name];
      NextChild(disc, path, children, i);
      hide ScanChildren, ScanEntries;
      Associative(r, ScanChild(disc, childPath, child.node), ScanChildren(disc, path, children[i + 1..]));
      if disc(childPath) {
        if child.node.Dir? {
          r := ScanDirectory(disc, childPath, child.node, r);
        } else {
          r := r + [Describe(childPath, child.node)];
        }
      } else {
        Neutral(r);
      }
    }
  }

  lemma NextChild(disc: Path -> bool, path: Path, children: seq<Child>, i: nat)
    requires i < |children|
    ensures ScanChildren(disc, path, children[i..]) ==
            ScanChild(disc, path + [children[i].name], children[i].node) + ScanChildren(disc, path, children[i + 1..])
  {
    assert children[i..][1..] == children[i + 1..];
  }

  /** Every nonempty prefix of q that is longer than or as long as `from` is discoverable. */
  ghost predicate Chain(disc: Path -> bool, from: nat, q: Path) {
    forall k :: from <= k <= |q| && k > 0 ==> disc(q[..k])
  }

  /** e describes what stands at its own path, `rest` below node. */
  ghost predicate Stands(node: Node, rest: Path, e: IndexEntry) {
    Lookup(node, rest).Some? && e == Describe(e.path, Lookup(node, rest).value)
  }

  lemma {:induction false} FindChildAt(children: seq<Child>, i: nat)
    requires UniqueNames(children) && i < |children|
    ensures FindChild(children, children[i].name) == Some(children[i].node)
  {
    if i > 0 {
      FindChildAt(children[1..], i - 1);
    }
  }

  lemma {:induction false} FindChildSome(children: seq<Child>, name: string) returns (i: nat)
    requires FindChild(children, name).Some?
    ensures i < |children| && children[i].name == name && children[i].node == FindChild(children, name).value
  {
    if children[0].name == name {
      i := 0;
    } else {
      i := FindChildSome(children[1..], name);
      i := i + 1;
    }
  }

  /** The recursive scan lists exactly the things that stand below the directory along discoverable paths. */
  lemma {:induction false} ScanMember(disc: Path -> bool, path: Path, dir: Node, e: IndexEntry)
    requires dir.Dir? && WellFormed(dir)
    ensures e in ScanEntries(disc, path, dir) <==>
              e.path != [] && path <= e.path && Chain(disc, |path|, e.path) && Stands(dir, e.path[|path|..], e)
    decreases dir, 1
  {
    var q := e.path;
    ScanChildrenMember(disc, path, dir.children, e);
    if path <= q {
      assert q[..|path|] == path;
      if |q| == |path| {
        assert q == path && q[..|q|] == q && q[|path|..] == [];
      } else {
        assert q[|path|..][0] == q[|path|] && q[|path|..][1..] == q[|path| + 1..];
        assert Chain(disc, |path|, q) <==> (path == [] || disc(path)) && Chain(disc, |path| + 1, q);
      }
    }
  }

  ghost predicate BelowChild(disc: Path -> bool, path: Path, children: seq<Child>, e: IndexEntry) {
    && |path| < |e.path| && path <= e.path && Chain(disc, |path| + 1, e.path)
    && FindChild(children, e.path[|path|]).Some?
    && Stands(FindChild(children, e.path[|path|]).value, e.path[|path| + 1..], e)
  }

  lemma {:induction false} ScanChildrenMember(disc: Path -> bool, path: Path, children: seq<Child>, e: IndexEntry)
    requires UniqueNames(children) && forall i :: 0 <= i < |children| ==> WellFormed(children[i].node)
    ensures e in ScanChildren(disc, path, children) <==> BelowChild(disc, path, children, e)
    decreases children, 0
  {
    if children != [] {
      var first, childPath := children[0], path + [children[0].name];
      ScanChildMember(disc, childPath, first.node, e);
      ScanChildrenMember(disc, path, children[1..], e);
      if path < e.path {
        assert e.path[..|path| + 1] == e.path[..|path|] + [e.path[|path|]] == path + [e.path[|path|]];
        if e.path[|path|] == first.name {
          FirstNameOnly(children[1..], first.name);
        }
      }
    }
  }

  lemma {:induction false} FirstNameOnly(children: seq<Child>, name: string)
    requires forall i :: 0 <= i < |children| ==> children[i].name != name
    ensures FindChild(children, name).None?
  {
    if children != [] {
      FirstNameOnly(children[1..], name);
    }
  }

  lemma {:induction false} ScanChildMember(disc: Path -> bool, path: Path, node: Node, e: IndexEntry)
    requires WellFormed(node) && path != []
    ensures e in ScanChild(disc, path, node) <==>
              path <= e.path && Chain(disc, |path|, e.path) && Stands(node, e.path[|path|..], e)
    decreases node, 2
  {
    if path <= e.path {
      assert e.path[..|path|] == path;
    }
    if node.Dir? {
      ScanMember(disc, path, node, e);
    } else if path <= e.path && |e.path| == |path| {
      assert e.path == path && e.path[|path|..] == [];
    }
  }

  /** Stored texts tell paths apart, and "starts with the text and a slash" means "lies below the path". */
  lemma RenderedPrefix(p: Path, q: Path)
    requires ValidPath(p) && ValidPath(q) && p != [] && q != []
    ensures Render(q) == Render(p) <==> q == p
    ensures StartsWith(Render(q), Render(p) + "/") <==> p < q
  {
    SplitJoin('/', p);
    SplitJoin('/', q);
    var front := Render(p) + "/";
    if StartsWith(Render(q), front) {
      var rest := Render(q)[|front|..];
      assert Render(q) == Render(p) + ['/'] + rest;
      SplitOnConcat('/', Render(p), rest);
    }
    if p < q {
      JoinConcat('/', p, q[|p|..]);
      assert q == p + q[|p|..];
    }
  }

  ghost predicate DistinctPaths(s: seq<IndexEntry>) {
    forall i, j :: 0 <= i < j < |s| ==> s[i].path != s[j].path
  }

  lemma DistinctConcat(a: seq<IndexEntry>, b: seq<IndexEntry>)
    requires DistinctPaths(a) && DistinctPaths(b)
    requires forall x, y :: x in a && y in b ==> x.path != y.path
    ensures DistinctPaths(a + b)
  {
  }

  /** No path is listed twice. */
  lemma {:induction false} ScanDistinct(disc: Path -> bool, path: Path, dir: Node)
    requires dir.Dir? && WellFormed(dir)
    ensures DistinctPaths(ScanEntries(disc, path, dir))
    decreases dir, 1
  {
    var own := if path == [] then [] else [Describe(path, dir)];
    var below := ScanChildren(disc, path, dir.children);
    ScanChildrenDistinct(disc, path, dir.children);
    forall x, y | x in own && y in below
      ensures x.path != y.path
    {
      ScanChildrenMember(disc, path, dir.children, y);
    }
    DistinctConcat(own, below);
  }

  lemma {:induction false} ScanChildrenDistinct(disc: Path -> bool, path: Path, children: seq<Child>)
    requires UniqueNames(children) && forall i :: 0 <= i < |children| ==> WellFormed(children[i].node)
    ensures DistinctPaths(ScanChildren(disc, path, children))
    decreases children, 0
  {
    if children != [] {
      var childPath := path + [children[0].name];
      var first, rest := ScanChild(disc, childPath, children[0].node), ScanChildren(disc, path, children[1..]);
      if children[0].node.Dir? {
        ScanDistinct(disc, childPath, children[0].node);
      }
      ScanChildrenDistinct(disc, path, children[1..]);
      forall x, y | x in first && y in rest
        ensures x.path != y.path
      {
        ScanChildMember(disc, childPath, children[0].node, x);
        ScanChildrenMember(disc, path, children[1..], y);
        FirstNameOnly(children[1..], children[0].name);
        assert x.path[|path|] == childPath[|path|];
      }
      DistinctConcat(first, rest);
    }
  }

  lemma {:induction false} LookupConcat(node: Node, p: Path, q: Path)
    ensures Lookup(node, p + q) == if Lookup(node, p).Some? then Lookup(Lookup(node, p).value, q) else None
    decreases |p|
  {
    if p == [] {
      assert p + q == q;
    } else if node.Dir? && FindChild(node.children, p[0]).Some? {
      LookupConcat(FindChild(node.children, p[0]).value, p[1..], q);
      assert (p + q)[1..] == p[1..] + q;
    }
  }

  /** Whatever is found in a well-formed tree is well formed and reached along valid names. */
  lemma {:induction false} LookupWellFormed(node: Node, path: Path)
    requires WellFormed(node) && Lookup(node, path).Some?
    ensures WellFormed(Lookup(node, path).value) && ValidPath(path)
    decreases |path|
  {
    if path != [] {
      var i := FindChildSome(node.children, path[0]);
      LookupWellFormed(node.children[i].node, path[1..]);
      forall k | 0 <= k < |path|
        ensures ValidName(path[k])
      {
        if k > 0 {
          assert path[k] == path[1..][k - 1];
        }
      }
    }
  }
}
