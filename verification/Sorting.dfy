/** The contract of sort.Slice and sort.Sort: a sorted permutation, in place. */
module Sorting {

  /** A strict weak order, what the sort package asks of its less function. */
  ghost predicate StrictWeak<T(!new)>(less: (T, T) -> bool) {
    && (forall x, y :: less(x, y) ==> !less(y, x))
    && (forall x, y, z :: !less(y, x) && !less(z, y) ==> !less(z, x))
  }

  ghost predicate Sorted<T>(less: (T, T) -> bool, s: seq<T>) {
    forall i, j | 0 <= i < j < |s| :: !less(s[j], s[i])
  }

  function Insert<T(!new)>(less: (T, T) -> bool, s: seq<T>, x: T): (r: seq<T>)
    ensures multiset(r) == multiset(s) + multiset{x}
  {
    if s == [] || less(x, s[0]) then
      [x] + s
    else
      assert s == [s[0]] + s[1..];
      [s[0]] + Insert(less, s[1..], x)
  }

  lemma {:induction false} InsertSorted<T(!new)>(less: (T, T) -> bool, s: seq<T>, x: T)
    requires StrictWeak(less) && Sorted(less, s)
    ensures Sorted(less, Insert(less, s, x))
  {
    if s != [] && !less(x, s[0]) {
      var rest := Insert(less, s[1..], x);
      InsertSorted(less, s[1..], x);
      forall j | 0 <= j < |rest| ensures !less(rest[j], s[0]) {
        assert rest[j] in multiset(rest);
        assert rest[j] in s[1..] || rest[j] == x;
      }
    }
  }

  function Sort<T(!new)>(less: (T, T) -> bool, s: seq<T>): (r: seq<T>)
    ensures multiset(r) == multiset(s)
  {
    if s == [] then
      []
    else
      assert s == s[..|s| - 1] + [s[|s| - 1]];
      Insert(less, Sort(less, s[..|s| - 1]), s[|s| - 1])
  }

  lemma {:induction false} SortSorts<T(!new)>(less: (T, T) -> bool, s: seq<T>)
    requires StrictWeak(less)
    ensures Sorted(less, Sort(less, s))
  {
    if s != [] {
      SortSorts(less, s[..|s| - 1]);
      InsertSorted(less, Sort(less, s[..|s| - 1]), s[|s| - 1]);
    }
  }

  method SortInPlace<T(!new)>(less: (T, T) -> bool, a: array<T>)
    requires StrictWeak(less)
    modifies a
    ensures multiset(a[..]) == multiset(old(a[..]))
    ensures Sorted(less, a[..])
  {
    var r := Sort(less, a[..]);
    SortSorts(less, a[..]);
    assert |r| == |multiset(r)| == |multiset(a[..])| == a.Length;
    forall i | 0 <= i < a.Length {
      a[i] := r[i];
    }
    assert a[..] == r;
  }

  /** Unordered elements are equal, so that less decides every comparison. */
  ghost predicate Ties<T(!new)>(less: (T, T) -> bool, a: seq<T>) {
    forall x, y | x in a && y in a :: less(x, y) || less(y, x) || x == y
  }

  lemma SameMembers<T>(a: seq<T>, b: seq<T>, x: T)
    requires multiset(a) == multiset(b) && x in a
    ensures x in b
  {
    assert x in multiset(b);
  }

  lemma SortedUniqueHead<T(!new)>(less: (T, T) -> bool, a: seq<T>, b: seq<T>)
    requires Sorted(less, a) && Sorted(less, b) && Ties(less, a)
    requires multiset(a) == multiset(b) && a != [] && b != []
    ensures a[0] == b[0]
  {
    SameMembers(a, b, a[0]);
    SameMembers(b, a, b[0]);
  }

  lemma TailMultiset<T>(a: seq<T>)
    requires a != []
    ensures multiset(a) == multiset{a[0]} + multiset(a[1..])
  {
    assert a == [a[0]] + a[1..];
  }

  /** A sorted arrangement is unique when unordered elements are equal: the result
      depends neither on the order of the input nor on the algorithm. */
  lemma {:induction false} SortedUnique<T(!new)>(less: (T, T) -> bool, a: seq<T>, b: seq<T>)
    requires Sorted(less, a) && Sorted(less, b) && Ties(less, a)
    requires multiset(a) == multiset(b)
    ensures a == b
  {
    assert |a| == |multiset(a)| == |multiset(b)| == |b|;
    if a != [] {
      SortedUniqueHead(less, a, b);
      TailMultiset(a);
      TailMultiset(b);
      assert multiset(a[1..]) == multiset(a) - multiset{a[0]} == multiset(b[1..]);
      SortedUnique(less, a[1..], b[1..]);
    }
  }

  ghost predicate Strict<T(!new)>(before: (T, T) -> bool, s: seq<T>) {
    && (forall x, y :: before(x, y) ==> !before(y, x))
    && forall i, j | 0 <= i < j < |s| :: before(s[i], s[j])
  }

  lemma FirstMember<T>(a: seq<T>)
    ensures a != [] ==> a[0] in a
  {
  }

  lemma NotBack<T(!new)>(before: (T, T) -> bool, x: T, y: T)
    requires forall u, v :: before(u, v) ==> !before(v, u)
    ensures before(x, y) ==> !before(y, x)
  {
  }

  lemma StrictHead<T(!new)>(before: (T, T) -> bool, a: seq<T>, b: seq<T>)
    requires Strict(before, a) && Strict(before, b) && a != [] && forall x :: x in a <==> x in b
    ensures b != [] && a[0] == b[0]
  {
    assert a[0] in b && b[0] in a;
    var i :| 0 <= i < |a| && a[i] == b[0];
    var j :| 0 <= j < |b| && b[j] == a[0];
    NotBack(before, a[0], b[0]);
  }

  lemma StrictApart<T(!new)>(before: (T, T) -> bool, a: seq<T>, i: nat)
    requires Strict(before, a) && 0 < i < |a|
    ensures a[i] != a[0]
  {
    assert before(a[0], a[i]);
  }

  lemma StrictTail<T(!new)>(before: (T, T) -> bool, a: seq<T>, x: T)
    requires Strict(before, a) && a != []
    ensures x in a[1..] <==> x in a && x != a[0]
  {
    if x in a[1..] {
      var i :| 0 <= i < |a[1..]| && a[1..][i] == x;
      StrictApart(before, a, i + 1);
      assert a[i + 1] == x;
    }
  }

  /** A strictly sorted list is decided by its members. */
  lemma {:induction false} StrictUnique<T(!new)>(before: (T, T) -> bool, a: seq<T>, b: seq<T>)
    requires Strict(before, a) && Strict(before, b) && forall x :: x in a <==> x in b
    ensures a == b
  {
    if a == [] {
      FirstMember(b);
    } else {
      StrictHead(before, a, b);
      forall x ensures x in a[1..] <==> x in b[1..] {
        StrictTail(before, a, x);
        StrictTail(before, b, x);
      }
      StrictUnique(before, a[1..], b[1..]);
    }
  }
}
