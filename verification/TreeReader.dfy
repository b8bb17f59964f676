/** The bounded tree listing: a recursive walk that shares one list of entries and one flag. */
module TreeReader {
  import opened Wrappers
  import opened Sequences
  import opened TextLines

  const DEFAULT_TREE_DEPTH: nat := 4
  const MAX_TREE_DEPTH: nat := 8
  const DEFAULT_TREE_ENTRIES: nat := 2000
  const MAX_TREE_ENTRIES: nat := 5000

  datatype EntryType = FileType | DirectoryType

  datatype TreeEntry = TreeEntry(path: seq<string>, entryType: EntryType)

  /** One name in a directory: whether its real path exists and lies within the root, and what it is. */
  datatype Item = Item(name: string, within: bool, kind: ItemKind)

  datatype ItemKind = PlainFile | Folder(listing: Listing) | Other

  datatype Listing = Unreadable | Items(items: seq<Item>)

  /** How names are compared; names that differ only in case or accents compare equal. */
  type Order = (string, string) -> bool

  /** The items of a directory in order of their names. */
  function SortByName(leq: Order, items: seq<Item>): (r: seq<Item>)
    ensures multiset(r) == multiset(items)
  {
    SortBy(ByName(leq), items)
  }

  function ByName(leq: Order): (Item, Item) -> bool {
    (a: Item, b: Item) => leq(a.name, b.name)
  }

  ghost predicate InOrder(leq: Order, items: seq<Item>) {
    forall i, j :: 0 <= i < j < |items| ==> leq(items[i].name, items[j].name)
  }

  /** The names of a directory come in order, each as often as it is there. */
  lemma SortByNameSorts(leq: Order, items: seq<Item>)
    requires TotalPreorder(leq)
    ensures InOrder(leq, SortByName(leq, items)) && multiset(SortByName(leq, items)) == multiset(items)
  {
    var byName := ByName(leq);
    assert forall a, b :: byName(a, b) <==> leq(a.name, b.name);
    forall a, b, c | byName(a, b) && byName(b, c)
      ensures byName(a, c)
    {
      assert leq(a.name, b.name) && leq(b.name, c.name);
    }
    forall a, b
      ensures byName(a, b) || byName(b, a)
    {
      assert leq(a.name, b.name) || leq(b.name, a.name);
    }
    SortBySorts(byName, items);
  }

  /** An item is listed when it lies within the root and is a file or a directory; anything else is passed over. */
  predicate Listed(item: Item) {
    item.within && !item.kind.Other?
  }

  function EntryOf(dir: seq<string>, item: Item): Option<TreeEntry> {
    if Listed(item)
    then Some(TreeEntry(dir + [item.name], if item.kind.Folder? then DirectoryType else FileType))
    else None
  }

  /** Every item of the depth-limited walk in order, without any bound: an entry, or nothing for an item passed over. */
  function Visits(leq: Order, listing: Listing, dir: seq<string>, levels: nat): seq<Option<TreeEntry>>
    decreases levels, 1, 0
  {
    if levels == 0 || listing.Unreadable? then []
    else VisitItems(leq, SortByName(leq, listing.items), dir, levels)
  }

  function VisitItems(leq: Order, items: seq<Item>, dir: seq<string>, levels: nat): seq<Option<TreeEntry>>
    requires levels > 0
    decreases levels, 0, |items|
  {
    if items == [] then [] else VisitItem(leq, items[0], dir, levels) + VisitItems(leq, items[1..], dir, levels)
  }

  function VisitItem(leq: Order, item: Item, dir: seq<string>, levels: nat): seq<Option<TreeEntry>>
    requires levels > 0
    decreases levels, 0, 0
  {
    [EntryOf(dir, item)]
    + if Listed(item) && item.kind.Folder? then Visits(leq, item.kind.listing, dir + [item.name], levels - 1) else []
  }

  /** The full listing: the entries of all visits. */
  function EntriesOf(visits: seq<Option<TreeEntry>>): seq<TreeEntry> {
    if visits == [] then []
    else (if visits[0].Some? then [visits[0].value] else []) + EntriesOf(visits[1..])
  }

  /** What the walk leaves behind after these visits: each one first asks whether there is room. */
  datatype Progress = Progress(entries: seq<TreeEntry>, truncated: bool)

  function Visit(p: Progress, visit: Option<TreeEntry>, maxEntries: nat): Progress {
    if p.truncated then p
    else if |p.entries| >= maxEntries then p.(truncated := true)
    else if visit.Some? then p.(entries := p.entries + [visit.value])
    else p
  }

  function After(p: Progress, visits: seq<Option<TreeEntry>>, maxEntries: nat): Progress
    decreases |visits|
  {
    if visits == [] then p else After(Visit(p, visits[0], maxEntries), visits[1..], maxEntries)
  }

  lemma {:induction false} AfterBoth(p: Progress, a: seq<Option<TreeEntry>>, b: seq<Option<TreeEntry>>, maxEntries: nat)
    ensures After(p, a + b, maxEntries) == After(After(p, a, maxEntries), b, maxEntries)
    decreases |a|
  {
    if a == [] {
      Neutral(b);
    } else {
      AfterBoth(Visit(p, a[0], maxEntries), a[1..], b, maxEntries);
      DropOfSum(a, b, 1);
    }
  }

  lemma {:induction false} TruncatedStays(p: Progress, visits: seq<Option<TreeEntry>>, maxEntries: nat)
    requires p.truncated
    ensures After(p, visits, maxEntries) == p
  {
    if visits != [] {
      TruncatedStays(p, visits[1..], maxEntries);
    }
  }

  class Walk {
    const leq: Order
    const maxDepth: nat
    const maxEntries: nat
    var entries: seq<TreeEntry>
    var truncated: bool

    ghost function Now(): Progress
      reads this
    {
      Progress(entries, truncated)
    }

    constructor (leq: Order, maxDepth: nat, maxEntries: nat)
      ensures Now() == Progress([], false)
      ensures this.leq == leq && this.maxDepth == maxDepth && this.maxEntries == maxEntries
    {
      this.leq, this.maxDepth, this.maxEntries := leq, maxDepth, maxEntries;
      entries, truncated := [], false;
    }

    ghost predicate Valid()
      reads this
    {
      truncated ==> |entries| >= maxEntries
    }

    function Levels(depth: nat): nat {
      if depth > maxDepth then 0 else maxDepth - depth + 1
    }

    /** The walk of one directory. */
    method Into(listing: Listing, dir: seq<string>, depth: nat)
      requires Valid() && depth >= 1
      modifies this
      ensures Valid() && Now() == After(old(Now()), Visits(leq, listing, dir, Levels(depth)), maxEntries)
      decreases Levels(depth), 1
    {
      if truncated || depth > maxDepth {
        if truncated {
          TruncatedStays(Now(), Visits(leq, listing, dir, Levels(depth)), maxEntries);
        }
        return;
      }
      if listing.Unreadable? {
        return;
      }
      var items := SortByName(leq, listing.items);
      ghost var end := After(Now(), VisitItems(leq, items, dir, Levels(depth)), maxEntries);
      assert items[0..] == items;
      for i := 0 to |items|
        invariant Valid()
        invariant After(Now(), VisitItems(leq, items[i..], dir, Levels(depth)), maxEntries) == end
      {
        assert items[i..][1..] == items[i + 1..];
        if |entries| >= maxEntries {
          NoRoom(Now(), VisitItems(leq, items[i..], dir, Levels(depth)), maxEntries);
          truncated := true;
          return;
        }
        AfterBoth(Now(), VisitItem(leq, items[i], dir, Levels(depth)),
          VisitItems(leq, items[i + 1..], dir, Levels(depth)), maxEntries);
        One(items[i], dir, depth);
      }
    }

    /** The loop body for one item: pass it over, or list it and, if it is a directory, walk it. */
    method One(item: Item, dir: seq<string>, depth: nat)
      requires Valid() && 1 <= depth <= maxDepth && |entries| < maxEntries
      modifies this
      ensures Valid() && Now() == After(old(Now()), VisitItem(leq, item, dir, Levels(depth)), maxEntries)
      decreases Levels(depth), 0
    {
      AfterBoth(Now(), [EntryOf(dir, item)], VisitItem(leq, item, dir, Levels(depth))[1..], maxEntries);
      AfterOne(Now(), EntryOf(dir, item), maxEntries);
      if !item.within {
        return;
      }
      if item.kind.Other? {
        return;
      }
      entries := entries + [TreeEntry(dir + [item.name], if item.kind.Folder? then DirectoryType else FileType)];
      if item.kind.Folder? && depth < maxDepth {
        Into(item.kind.listing, dir + [item.name], depth + 1);
      }
    }
  }

  lemma AfterOne(p: Progress, visit: Option<TreeEntry>, maxEntries: nat)
    ensures After(p, [visit], maxEntries) == Visit(p, visit, maxEntries)
  {
  }

  lemma NoRoom(p: Progress, visits: seq<Option<TreeEntry>>, maxEntries: nat)
    requires |p.entries| >= maxEntries && visits != []
    ensures After(p, visits, maxEntries) == p.(truncated := true)
  {
    TruncatedStays(Visit(p, visits[0], maxEntries), visits[1..], maxEntries);
  }

  function FirstEntries(entries: seq<TreeEntry>, n: nat): seq<TreeEntry> {
    if |entries| <= n then entries else entries[..n]
  }

  function EntryIn(visit: Option<TreeEntry>): seq<TreeEntry> {
    if visit.Some? then [visit.value] else []
  }

  lemma EntriesOfStep(visits: seq<Option<TreeEntry>>)
    requires visits != []
    ensures EntriesOf(visits) == EntryIn(visits[0]) + EntriesOf(visits[1..])
  {
  }

  lemma {:induction false} EntriesOfBoth(a: seq<Option<TreeEntry>>, b: seq<Option<TreeEntry>>)
    ensures EntriesOf(a + b) == EntriesOf(a) + EntriesOf(b)
  {
    if a == [] {
      Neutral(b);
      Neutral(EntriesOf(b));
    } else {
      EntriesOfBoth(a[1..], b);
      DropOfSum(a, b, 1);
      assert (a + b)[0] == a[0];
      EntriesOfStep(a);
      EntriesOfStep(a + b);
      hide EntriesOf;
      Associative(EntryIn(a[0]), EntriesOf(a[1..]), EntriesOf(b));
    }
  }

  /** A visit comes when there is no room any more. */
  predicate Overflows(visits: seq<Option<TreeEntry>>, maxEntries: nat) {
    visits != [] && |EntriesOf(Init(visits))| >= maxEntries
  }

  /** Visit by visit: the first entries, and the flag as soon as a visit finds no room. */
  lemma {:induction false} VisitsBounded(visits: seq<Option<TreeEntry>>, maxEntries: nat)
    ensures After(Progress([], false), visits, maxEntries) ==
            Progress(FirstEntries(EntriesOf(visits), maxEntries), Overflows(visits, maxEntries))
    decreases |visits|
  {
    if visits != [] {
      var front, last := Init(visits), Last(visits);
      VisitsBounded(front, maxEntries);
      AfterBoth(Progress([], false), front, [last], maxEntries);
      AfterOne(After(Progress([], false), front, maxEntries), last, maxEntries);
      EntriesOfBoth(front, [last]);
      assert visits == front + [last];
      assert [last][1..] == [];
      OneMoreVisit(front, last, maxEntries);
    }
  }

  lemma OneMoreVisit(front: seq<Option<TreeEntry>>, last: Option<TreeEntry>, maxEntries: nat)
    requires EntriesOf(front + [last]) == EntriesOf(front) + EntriesOf([last])
    ensures Visit(Progress(FirstEntries(EntriesOf(front), maxEntries), Overflows(front, maxEntries)), last,
                  maxEntries) ==
            Progress(FirstEntries(EntriesOf(front + [last]), maxEntries), Overflows(front + [last], maxEntries))
  {
    if Overflows(front, maxEntries) {
      OverflowIsFull(front, maxEntries);
    }
    assert Init(front + [last]) == front;
    assert [last][1..] == [] && [last][0] == last;
    var all := EntriesOf(front);
    assert |EntriesOf([last])| <= 1;
    assert |all| >= maxEntries ==> FirstEntries(all + EntriesOf([last]), maxEntries) == FirstEntries(all, maxEntries);
  }

  lemma OverflowIsFull(visits: seq<Option<TreeEntry>>, maxEntries: nat)
    requires Overflows(visits, maxEntries)
    ensures |EntriesOf(visits)| >= maxEntries
  {
    EntriesOfBoth(Init(visits), [Last(visits)]);
    assert visits == Init(visits) + [Last(visits)];
  }

  /**
   There is a listed entry at these names below a directory, reached through listed directories, at most so many
   levels down.
   */
  ghost predicate Holds(listing: Listing, names: seq<string>, t: EntryType, levels: nat)
    decreases levels, 1
  {
    levels > 0 && listing.Items? && exists item :: item in listing.items && ItemHolds(item, names, t, levels)
  }

  ghost predicate ItemHolds(item: Item, names: seq<string>, t: EntryType, levels: nat)
    requires levels > 0
    decreases levels, 0
  {
    && item.within && (item.kind.PlainFile? || item.kind.Folder?)
    && names != []
    && names[0] == item.name
    && if |names| == 1 then t == (if item.kind.Folder? then DirectoryType else FileType)
       else item.kind.Folder? && Holds(item.kind.listing, names[1..], t, levels - 1)
  }

  predicate Below(dir: seq<string>, path: seq<string>) {
    |dir| <= |path| && path[..|dir|] == dir
  }

  lemma {:induction false} EntriesOfMember(visits: seq<Option<TreeEntry>>, e: TreeEntry)
    ensures e in EntriesOf(visits) <==> Some(e) in visits
  {
    if visits != [] {
      EntriesOfMember(visits[1..], e);
      assert visits == [visits[0]] + visits[1..];
    }
  }

  /** The full listing holds exactly what can be reached: nothing missing, nothing made up. */
  lemma {:induction false} VisitsMember(leq: Order, listing: Listing, dir: seq<string>, levels: nat, e: TreeEntry)
    ensures Some(e) in Visits(leq, listing, dir, levels) <==>
            Below(dir, e.path) && Holds(listing, e.path[|dir|..], e.entryType, levels)
    decreases levels, 1, 0
  {
    if levels > 0 && listing.Items? {
      var items := SortByName(leq, listing.items);
      VisitItemsMember(leq, items, dir, levels, e);
      hide VisitItems, ItemHolds, Below;
      forall item
        ensures item in items <==> item in listing.items
      {
        assert item in items <==> item in multiset(items);
      }
    }
  }

  ghost predicate AnyHolds(items: seq<Item>, dir: seq<string>, levels: nat, e: TreeEntry)
    requires levels > 0
  {
    Below(dir, e.path) && exists item :: item in items && ItemHolds(item, e.path[|dir|..], e.entryType, levels)
  }

  lemma {:induction false} VisitItemsMember(leq: Order, items: seq<Item>, dir: seq<string>, levels: nat, e: TreeEntry)
    requires levels > 0
    ensures Some(e) in VisitItems(leq, items, dir, levels) <==> AnyHolds(items, dir, levels, e)
    decreases levels, 0, |items|
  {
    if items != [] {
      VisitItemMember(leq, items[0], dir, levels, e);
      VisitItemsMember(leq, items[1..], dir, levels, e);
      hide VisitItem, ItemHolds, Below;
      assert items == [items[0]] + items[1..];
    }
  }

  lemma {:induction false} VisitItemMember(leq: Order, item: Item, dir: seq<string>, levels: nat, e: TreeEntry)
    requires levels > 0
    ensures Some(e) in VisitItem(leq, item, dir, levels) <==>
            Below(dir, e.path) && ItemHolds(item, e.path[|dir|..], e.entryType, levels)
    decreases levels, 0, 0
  {
    var here := dir + [item.name];
    if Listed(item) && item.kind.Folder? {
      VisitsMember(leq, item.kind.listing, here, levels - 1, e);
    }
    hide Visits, Holds;
    BelowOne(dir, item.name, e.path);
    assert Some(e) == EntryOf(dir, item) <==>
           Listed(item) && e.path == here && e.entryType == (if item.kind.Folder? then DirectoryType else FileType);
  }

  lemma BelowOne(dir: seq<string>, name: string, path: seq<string>)
    ensures Below(dir + [name], path) <==> Below(dir, path) && |path| > |dir| && path[|dir|] == name
    ensures Below(dir + [name], path) ==> path[|dir| + 1..] == path[|dir|..][1..]
    ensures path == dir + [name] <==> Below(dir, path) && path[|dir|..] == [name]
  {
    if |path| > |dir| {
      assert path[..|dir| + 1] == path[..|dir|] + [path[|dir|]];
    }
    if Below(dir, path) {
      assert path == dir + path[|dir|..];
    }
  }

  /** Nothing is listed deeper than the limit. */
  lemma {:induction false} HoldsWithin(listing: Listing, names: seq<string>, t: EntryType, levels: nat)
    requires Holds(listing, names, t, levels)
    ensures 1 <= |names| <= levels
    decreases levels
  {
    var item :| item in listing.items && ItemHolds(item, names, t, levels);
    if |names| > 1 {
      HoldsWithin(item.kind.listing, names[1..], t, levels - 1);
    }
  }

  /** No directory holds two items of one name. */
  ghost predicate DistinctNames(listing: Listing) {
    listing.Items? ==>
      && DifferentNames(listing.items)
      && forall i :: 0 <= i < |listing.items| && listing.items[i].kind.Folder? ==>
           DistinctNames(listing.items[i].kind.listing)
  }

  ghost predicate DifferentNames(items: seq<Item>) {
    forall i, j :: 0 <= i < j < |items| ==> items[i].name != items[j].name
  }

  /** One path comes before another: it is above it, or its name is not greater where the two first differ. */
  ghost predicate Precedes(leq: Order, p: seq<string>, q: seq<string>) {
    || p <= q
    || exists k :: 0 <= k < |p| && k < |q| && p[..k] == q[..k] && p[k] != q[k] && leq(p[k], q[k])
  }

  /** A directory comes before what is in it, and names come in order within it. */
  ghost predicate InTreeOrder(leq: Order, entries: seq<TreeEntry>) {
    forall i, j :: 0 <= i < j < |entries| ==> Precedes(leq, entries[i].path, entries[j].path)
  }

  /** What is below a directory follows it without interruption. */
  ghost predicate Unbroken(entries: seq<TreeEntry>) {
    forall i, j, k :: 0 <= i < j < k < |entries| && entries[i].path <= entries[k].path ==>
      entries[i].path <= entries[j].path
  }

  ghost predicate Arranged(leq: Order, entries: seq<TreeEntry>) {
    InTreeOrder(leq, entries) && Unbroken(entries)
  }

  lemma BothArranged(leq: Order, a: seq<TreeEntry>, b: seq<TreeEntry>)
    requires Arranged(leq, a) && Arranged(leq, b)
    requires forall i, j :: 0 <= i < |a| && 0 <= j < |b| ==>
               Precedes(leq, a[i].path, b[j].path) && !(a[i].path <= b[j].path)
    ensures Arranged(leq, a + b)
  {
    hide Precedes;
    forall i, j, k | 0 <= i < j < k < |a + b| && (a + b)[i].path <= (a + b)[k].path
      ensures (a + b)[i].path <= (a + b)[j].path
    {
      if |a| <= i {
        assert b[i - |a|].path <= b[k - |a|].path;
      } else if k < |a| {
        assert a[i].path <= a[k].path;
      } else {
        assert false;
      }
    }
  }

  lemma BelowArranged(leq: Order, e: TreeEntry, rest: seq<TreeEntry>)
    requires Arranged(leq, rest) && forall j :: 0 <= j < |rest| ==> e.path <= rest[j].path
    ensures Arranged(leq, [e] + rest)
  {
    forall i, j, k | 0 <= i < j < k < |[e] + rest| && ([e] + rest)[i].path <= ([e] + rest)[k].path
      ensures ([e] + rest)[i].path <= ([e] + rest)[j].path
    {
      if i > 0 {
        assert rest[i - 1].path <= rest[k - 1].path;
      }
    }
  }

  lemma {:induction false} InsertKeepsDifferent(leq: Order, x: Item, s: seq<Item>)
    requires DifferentNames(s) && forall y :: y in s ==> y.name != x.name
    ensures DifferentNames(InsertBy(ByName(leq), x, s))
  {
    var byName := ByName(leq);
    if s != [] && !byName(x, s[0]) {
      var rest := InsertBy(byName, x, s[1..]);
      InsertKeepsDifferent(leq, x, s[1..]);
      forall y | y in rest
        ensures y.name != s[0].name
      {
        assert y in multiset(rest);
        assert y == x || y in multiset(s[1..]);
      }
      assert InsertBy(byName, x, s) == [s[0]] + rest;
    }
  }

  lemma {:induction false} SortKeepsDifferent(leq: Order, s: seq<Item>)
    requires DifferentNames(s)
    ensures DifferentNames(SortByName(leq, s))
  {
    if s != [] {
      var rest := SortByName(leq, s[1..]);
      SortKeepsDifferent(leq, s[1..]);
      forall y | y in rest
        ensures y.name != s[0].name
      {
        assert y in multiset(rest);
      }
      InsertKeepsDifferent(leq, s[0], rest);
    }
  }

  /** Below an item every path goes on with its name. */
  lemma EntriesBelowItem(leq: Order, item: Item, dir: seq<string>, levels: nat, e: TreeEntry)
    requires levels > 0 && e in EntriesOf(VisitItem(leq, item, dir, levels))
    ensures |e.path| > |dir| && e.path[..|dir|] == dir && e.path[|dir|] == item.name
  {
    EntriesOfMember(VisitItem(leq, item, dir, levels), e);
    VisitItemMember(leq, item, dir, levels, e);
    hide VisitItem, EntriesOf;
    assert e.path[|dir|..][0] == item.name;
  }

  lemma EntriesBelowItems(leq: Order, items: seq<Item>, dir: seq<string>, levels: nat, e: TreeEntry)
    requires levels > 0 && e in EntriesOf(VisitItems(leq, items, dir, levels))
    ensures |e.path| > |dir| && e.path[..|dir|] == dir && exists i :: 0 <= i < |items| && e.path[|dir|] == items[i].name
  {
    EntriesOfMember(VisitItems(leq, items, dir, levels), e);
    VisitItemsMember(leq, items, dir, levels, e);
    hide VisitItems, EntriesOf;
    var item :| item in items && ItemHolds(item, e.path[|dir|..], e.entryType, levels);
    assert e.path[|dir|..][0] == item.name;
  }

  lemma DifferAt(leq: Order, dir: seq<string>, p: seq<string>, q: seq<string>)
    requires |p| > |dir| && |q| > |dir| && p[..|dir|] == dir && q[..|dir|] == dir
    requires p[|dir|] != q[|dir|] && leq(p[|dir|], q[|dir|])
    ensures Precedes(leq, p, q) && !(p <= q)
  {
  }

  lemma PathsBelow(leq: Order, listing: Listing, dir: seq<string>, levels: nat, e: TreeEntry)
    requires e in EntriesOf(Visits(leq, listing, dir, levels))
    ensures dir <= e.path
  {
    EntriesOfMember(Visits(leq, listing, dir, levels), e);
    VisitsMember(leq, listing, dir, levels, e);
  }

  lemma {:induction false} ItemArranged(leq: Order, item: Item, dir: seq<string>, levels: nat)
    requires levels > 0 && TotalPreorder(leq) && (item.kind.Folder? ==> DistinctNames(item.kind.listing))
    ensures Arranged(leq, EntriesOf(VisitItem(leq, item, dir, levels)))
    decreases levels, 0, 0
  {
    var here, visit := dir + [item.name], EntryOf(dir, item);
    var none: seq<Option<TreeEntry>> := [];
    if Listed(item) && item.kind.Folder? {
      var below := Visits(leq, item.kind.listing, here, levels - 1);
      VisitsArranged(leq, item.kind.listing, here, levels - 1);
      HeadAndRest(visit, below);
      hide EntriesOf, Visits, Arranged, DistinctNames, TotalPreorder;
      forall e | e in EntriesOf(below)
        ensures here <= e.path
      {
        PathsBelow(leq, item.kind.listing, here, levels - 1, e);
      }
      BelowArranged(leq, visit.value, EntriesOf(below));
    } else {
      HeadAndRest(visit, none);
    }
  }

  lemma HeadAndRest(visit: Option<TreeEntry>, rest: seq<Option<TreeEntry>>)
    ensures EntriesOf([visit] + rest) == EntryIn(visit) + EntriesOf(rest)
    ensures |EntryIn(visit)| <= 1
  {
    assert ([visit] + rest)[1..] == rest;
  }

  lemma {:induction false} VisitsArranged(leq: Order, listing: Listing, dir: seq<string>, levels: nat)
    requires TotalPreorder(leq) && DistinctNames(listing)
    ensures Arranged(leq, EntriesOf(Visits(leq, listing, dir, levels)))
    decreases levels, 1, 0
  {
    if levels > 0 && listing.Items? {
      var items := SortByName(leq, listing.items);
      SortByNameSorts(leq, listing.items);
      SortKeepsDifferent(leq, listing.items);
      forall i | 0 <= i < |items| && items[i].kind.Folder?
        ensures DistinctNames(items[i].kind.listing)
      {
        assert items[i] in multiset(items);
      }
      ItemsArranged(leq, items, dir, levels);
    }
  }

  lemma {:induction false} ItemsArranged(leq: Order, items: seq<Item>, dir: seq<string>, levels: nat)
    requires levels > 0 && TotalPreorder(leq) && InOrder(leq, items) && DifferentNames(items)
    requires forall i :: 0 <= i < |items| && items[i].kind.Folder? ==> DistinctNames(items[i].kind.listing)
    ensures Arranged(leq, EntriesOf(VisitItems(leq, items, dir, levels)))
    decreases levels, 0, |items|
  {
    if items != [] {
      var first := VisitItem(leq, items[0], dir, levels);
      var rest := VisitItems(leq, items[1..], dir, levels);
      ItemArranged(leq, items[0], dir, levels);
      ItemsArranged(leq, items[1..], dir, levels);
      EntriesOfBoth(first, rest);
      hide EntriesOf, Arranged, TotalPreorder, DistinctNames, VisitItem, Precedes;
      var a, b := EntriesOf(first), EntriesOf(rest);
      forall i, j | 0 <= i < |a| && 0 <= j < |b|
        ensures Precedes(leq, a[i].path, b[j].path) && !(a[i].path <= b[j].path)
      {
        EntriesBelowItem(leq, items[0], dir, levels, a[i]);
        EntriesBelowItems(leq, items[1..], dir, levels, b[j]);
        DifferAt(leq, dir, a[i].path, b[j].path);
      }
      BothArranged(leq, a, b);
    }
  }

  /** The full listing, and so its first entries, is in tree order, each directory together with what is below it. */
  lemma FirstEntriesArranged(leq: Order, listing: Listing, maxDepth: nat, n: nat)
    requires TotalPreorder(leq) && DistinctNames(listing)
    ensures var entries := FirstEntries(FullListing(leq, listing, maxDepth), n);
            InTreeOrder(leq, entries) && Unbroken(entries)
  {
    var all := FullListing(leq, listing, maxDepth);
    VisitsArranged(leq, listing, [], maxDepth);
    assert Arranged(leq, all);
    hide FullListing, EntriesOf, Visits, TotalPreorder, DistinctNames;
    PrefixArranged(leq, all, n);
  }

  lemma PrefixArranged(leq: Order, entries: seq<TreeEntry>, n: nat)
    requires Arranged(leq, entries)
    ensures Arranged(leq, FirstEntries(entries, n))
  {
    hide Precedes;
  }

  lemma FullListingIff(leq: Order, listing: Listing, maxDepth: nat, e: TreeEntry)
    ensures e in FullListing(leq, listing, maxDepth) <==> Holds(listing, e.path, e.entryType, maxDepth)
  {
    EntriesOfMember(Visits(leq, listing, [], maxDepth), e);
    VisitsMember(leq, listing, [], maxDepth, e);
    assert e.path[0..] == e.path;
  }

  lemma FirstEntriesWithin(leq: Order, listing: Listing, maxDepth: nat, n: nat)
    ensures var entries := FirstEntries(FullListing(leq, listing, maxDepth), n);
            |entries| <= n && forall e :: e in entries ==> 1 <= |e.path| <= maxDepth
  {
    hide Holds;
    var all := FullListing(leq, listing, maxDepth);
    hide FullListing;
    forall e | e in FirstEntries(all, n)
      ensures 1 <= |e.path| <= maxDepth
    {
      FullListingIff(leq, listing, maxDepth, e);
      HoldsWithin(listing, e.path, e.entryType, maxDepth);
    }
  }

  datatype TreeOptions = TreeOptions(maxDepth: Option<int>, maxEntries: Option<int>)

  datatype TreeError = InvalidInput | FileNotFound

  /** What stands at the root path: nothing real, something that is not a directory, or a directory. */
  datatype Root = NoRealPath | NotDirectory | Gone | Directory(listing: Listing)

  function DepthOf(options: TreeOptions): int {
    if options.maxDepth.Some? then options.maxDepth.value else DEFAULT_TREE_DEPTH
  }

  function EntriesLimit(options: TreeOptions): int {
    if options.maxEntries.Some? then options.maxEntries.value else DEFAULT_TREE_ENTRIES
  }

  predicate IsValidOptions(options: TreeOptions) {
    1 <= DepthOf(options) <= MAX_TREE_DEPTH && 1 <= EntriesLimit(options) <= MAX_TREE_ENTRIES
  }

  /** The full depth-limited listing of a tree, in order. */
  function FullListing(leq: Order, listing: Listing, maxDepth: nat): seq<TreeEntry> {
    EntriesOf(Visits(leq, listing, [], maxDepth))
  }

  /**
   The tree reader returns the first entries of the full listing. A listing that is not marked truncated is
   complete, one that is marked has exactly as many entries as were allowed, and the mark is set exactly when an item
   is visited after the last allowed entry, even an item that would not be listed.
   */
  method Read(leq: Order, root: Root, options: TreeOptions) returns (r: Result<Progress, TreeError>)
    ensures r.Err? <==> !IsValidOptions(options) || !root.Directory?
    ensures r == Err(InvalidInput) <==> !IsValidOptions(options) || root.NotDirectory?
    ensures r.Ok? ==>
              var all := FullListing(leq, root.listing, DepthOf(options));
              && r.value.entries == FirstEntries(all, EntriesLimit(options))
              && (r.value.truncated <==>
                  Overflows(Visits(leq, root.listing, [], DepthOf(options)), EntriesLimit(options)))
              && (!r.value.truncated ==> r.value.entries == all)
              && (r.value.truncated ==> |r.value.entries| == EntriesLimit(options))
    ensures r.Ok? && TotalPreorder(leq) && DistinctNames(root.listing) ==>
              InTreeOrder(leq, r.value.entries) && Unbroken(r.value.entries)
    ensures r.Ok? ==>
              && (options.maxDepth.Some? ==> 1 <= options.maxDepth.value <= 8)
              && (options.maxEntries.Some? ==> 1 <= options.maxEntries.value <= 5000)
              && |r.value.entries| <= (if options.maxEntries.Some? then options.maxEntries.value else 2000)
              && forall e :: e in r.value.entries ==>
                   1 <= |e.path| <= if options.maxDepth.Some? then options.maxDepth.value else 4
  {
    if !IsValidOptions(options) {
      return Err(InvalidInput);
    }
    if root.NoRealPath? || root.Gone? {
      return Err(FileNotFound);
    }
    if root.NotDirectory? {
      return Err(InvalidInput);
    }
    var walk := new Walk(leq, DepthOf(options), EntriesLimit(options));
    walk.Into(root.listing, [], 1);
    ghost var visits := Visits(leq, root.listing, [], DepthOf(options));
    VisitsBounded(visits, EntriesLimit(options));
    NotFullIsComplete(visits, EntriesLimit(options));
    FirstEntriesWithin(leq, root.listing, DepthOf(options), EntriesLimit(options));
    if TotalPreorder(leq) && DistinctNames(root.listing) {
      FirstEntriesArranged(leq, root.listing, DepthOf(options), EntriesLimit(options));
    }
    hide Visits, EntriesOf, InTreeOrder, Unbroken, TotalPreorder, DistinctNames, Overflows;
    return Ok(Progress(walk.entries, walk.truncated));
  }

  lemma NotFullIsComplete(visits: seq<Option<TreeEntry>>, maxEntries: nat)
    requires maxEntries >= 1
    ensures !Overflows(visits, maxEntries) ==> |EntriesOf(visits)| <= maxEntries
    ensures Overflows(visits, maxEntries) ==> |EntriesOf(visits)| >= maxEntries
  {
    if visits != [] {
      EntriesOfBoth(Init(visits), [Last(visits)]);
      assert visits == Init(visits) + [Last(visits)];
      assert [Last(visits)][1..] == [];
    }
  }

  /** A complete listing is marked truncated exactly when it is full and the last item visited was passed over. */
  lemma CompleteYetMarkedIff(visits: seq<Option<TreeEntry>>, maxEntries: nat)
    requires maxEntries >= 1
    ensures Overflows(visits, maxEntries) && |EntriesOf(visits)| <= maxEntries <==>
            visits != [] && Last(visits).None? && |EntriesOf(visits)| == maxEntries
  {
    if visits != [] {
      EntriesOfBoth(Init(visits), [Last(visits)]);
      assert visits == Init(visits) + [Last(visits)];
      assert [Last(visits)][1..] == [];
    }
  }

  const FILE_AND_LINK := Items([Item("a", true, PlainFile), Item("b", true, Other)])

  lemma TwoItems(leq: Order, a: Item, b: Item)
    requires leq(a.name, b.name)
    ensures SortByName(leq, [a, b]) == [a, b]
  {
    assert [b][1..] == [] && [a, b][1..] == [b];
    assert InsertBy(ByName(leq), b, []) == [b];
    assert SortBy(ByName(leq), [b]) == [b];
  }

  /**
   One file and one link, room for one entry: the file is listed, nothing is missing, and the listing is marked
   truncated.
   */
  lemma CompleteYetMarked(leq: Order)
    requires TotalPreorder(leq) && leq("a", "b")
    ensures var visits := Visits(leq, FILE_AND_LINK, [], DEFAULT_TREE_DEPTH);
            EntriesOf(visits) == [TreeEntry(["a"], FileType)] && Overflows(visits, 1)
  {
    var a, b := Item("a", true, PlainFile), Item("b", true, Other);
    TwoItems(leq, a, b);
    hide SortByName;
    assert [b][1..] == [] && [a, b][1..] == [b];
    var entry := TreeEntry(["a"], FileType);
    assert [] + ["a"] == ["a"];
    assert VisitItem(leq, a, [], DEFAULT_TREE_DEPTH) == [Some(entry)]
      && VisitItem(leq, b, [], DEFAULT_TREE_DEPTH) == [None];
    assert VisitItems(leq, [b], [], DEFAULT_TREE_DEPTH) == [None];
    var visits := Visits(leq, FILE_AND_LINK, [], DEFAULT_TREE_DEPTH);
    assert visits == [Some(entry), None];
    assert visits[1..] == [None];
    var none: seq<Option<TreeEntry>> := [None];
    assert none[1..] == [] && EntriesOf(none) == [];
    CompleteYetMarkedIff(visits, 1);
  }
}
