/** Order-preserving selection on sequences, and the few sequence equations the proofs name. */
module Sequences {
  function Filter<T(!new)>(p: T -> bool, s: seq<T>): (r: seq<T>)
    ensures forall x :: x in r <==> x in s && p(x)
    ensures |r| <= |s|
  {
    if s == [] then []
    else if p(s[0]) then [s[0]] + Filter(p, s[1..])
    else Filter(p, s[1..])
  }

  /** Losing even one element makes the selection strictly shorter. */
  lemma {:induction false} FilterShrinks<T(!new)>(p: T -> bool, s: seq<T>, x: T)
    requires x in s && !p(x)
    ensures |Filter(p, s)| < |s|
  {
    if s[0] != x {
      FilterShrinks(p, s[1..], x);
    }
  }

  /** The first sequence is the second with elements left out. */
  predicate Sublist<T(==)>(s: seq<T>, t: seq<T>)
    decreases |t|
  {
    || s == []
    || (t != [] && ((s[0] == t[0] && Sublist(s[1..], t[1..])) || Sublist(s, t[1..])))
  }

  lemma {:induction false} FilterKeepsOrder<T(!new)>(p: T -> bool, s: seq<T>)
    ensures Sublist(Filter(p, s), s)
  {
    if s != [] {
      FilterKeepsOrder(p, s[1..]);
      if p(s[0]) {
        assert Filter(p, s)[1..] == Filter(p, s[1..]);
      }
    }
  }

  /** The positions of the elements that are selected. */
  ghost function Where<T(!new)>(p: T -> bool, s: seq<T>): set<int> {
    set i | 0 <= i < |s| && p(s[i])
  }

  lemma WhereSnoc<T(!new)>(p: T -> bool, s: seq<T>, x: T)
    ensures |Where(p, s + [x])| == |Where(p, s)| + if p(x) then 1 else 0
  {
    WhereSplits(p, s, x);
    var before := Where(p, s);
    hide Where;
    assert |s| !in before;
  }

  lemma WhereSplits<T(!new)>(p: T -> bool, s: seq<T>, x: T)
    ensures Where(p, s + [x]) == Where(p, s) + (if p(x) then {|s|} else {})
    ensures |s| !in Where(p, s)
  {
    forall i
      ensures i in Where(p, s + [x]) <==> i in Where(p, s) || (i == |s| && p(x))
    {
      if 0 <= i < |s| {
        assert (s + [x])[i] == s[i];
      }
    }
  }

  lemma Neutral<T>(s: seq<T>)
    ensures [] + s == s && s + [] == s
  {
  }

  lemma DropOfSum<T>(a: seq<T>, b: seq<T>, n: nat)
    requires n <= |a|
    ensures (a + b)[n..] == a[n..] + b && a + b == a[..n] + (a[n..] + b)
  {
  }

  lemma DropAll<T>(a: seq<T>, b: seq<T>)
    ensures (a + b)[|a|..] == b
  {
  }

  lemma Associative<T>(a: seq<T>, b: seq<T>, c: seq<T>)
    ensures a + (b + c) == (a + b) + c
  {
  }

  /** Inserting before the first element that is not smaller. */
  function InsertBy<T>(leq: (T, T) -> bool, x: T, s: seq<T>): (r: seq<T>)
    ensures multiset(r) == multiset{x} + multiset(s)
  {
    if s == [] then [x]
    else
      assert s == [s[0]] + s[1..];
      if leq(x, s[0]) then [x] + s else [s[0]] + InsertBy(leq, x, s[1..])
  }

  /** A stable sort. */
  function SortBy<T>(leq: (T, T) -> bool, s: seq<T>): (r: seq<T>)
    ensures multiset(r) == multiset(s)
  {
    if s == [] then []
    else
      assert s == [s[0]] + s[1..];
      InsertBy(leq, s[0], SortBy(leq, s[1..]))
  }

  ghost predicate SortedBy<T>(leq: (T, T) -> bool, s: seq<T>) {
    forall i, j :: 0 <= i < j < |s| ==> leq(s[i], s[j])
  }

  ghost predicate TotalPreorder<T(!new)>(leq: (T, T) -> bool) {
    && (forall x, y :: leq(x, y) || leq(y, x))
    && (forall x, y, z :: leq(x, y) && leq(y, z) ==> leq(x, z))
  }

  lemma {:induction false} InsertBySorts<T(!new)>(leq: (T, T) -> bool, x: T, s: seq<T>)
    requires TotalPreorder(leq) && SortedBy(leq, s)
    ensures SortedBy(leq, InsertBy(leq, x, s))
  {
    if s != [] && !leq(x, s[0]) {
      var rest := InsertBy(leq, x, s[1..]);
      InsertBySorts(leq, x, s[1..]);
      forall y | y in rest
        ensures leq(s[0], y)
      {
        assert y in multiset(rest);
        assert y == x || y in multiset(s[1..]);
      }
    }
  }

  lemma {:induction false} SortBySorts<T(!new)>(leq: (T, T) -> bool, s: seq<T>)
    requires TotalPreorder(leq)
    ensures SortedBy(leq, SortBy(leq, s))
  {
    if s != [] {
      SortBySorts(leq, s[1..]);
      InsertBySorts(leq, s[0], SortBy(leq, s[1..]));
    }
  }
}
