/** What the search of typeFields guarantees about the fields it records. */
module FieldPaths {
  import opened Results
  import opened TypeGraph

  /** f is field i of the struct scanned by visit v. */
  ghost predicate Candidate(g: Graph, order: seq<Visit>, f: Field, v: Visit, i: nat)
    requires Scannable(g, order)
  {
    v in order && i < |g[v.typ]| && Recorded(g, g[v.typ][i]) && f == MakeField(g[v.typ][i], v.path + [i])
  }

  /** The part of OrderOk that every prefix of an order keeps. */
  ghost predicate Located(g: Graph, root: TypeId, order: seq<Visit>) {
    && Scannable(g, order)
    && (forall v | v in order :: Follow(g, root, v.path) == Some(v.typ))
    && (forall a, b | 0 <= a < b < |order| :: order[a].typ != order[b].typ)
  }

  lemma {:induction false} RecordsMembers(g: Graph, v: Visit, n: nat, f: Field)
    requires v.typ in g && n <= |g[v.typ]|
    ensures f in RecordsOf(g, v, n)
       <==> exists i :: 0 <= i < n && Recorded(g, g[v.typ][i]) && f == MakeField(g[v.typ][i], v.path + [i])
  {
    if n > 0 {
      RecordsMembers(g, v, n - 1, f);
    }
  }

  ghost predicate IsCandidate(g: Graph, order: seq<Visit>, f: Field)
    requires Scannable(g, order)
  {
    exists v, i :: Candidate(g, order, f, v, i)
  }

  lemma CandidateSnoc(g: Graph, front: seq<Visit>, last: Visit, f: Field)
    requires Scannable(g, front) && last.typ in g
    ensures IsCandidate(g, front + [last], f)
       <==> IsCandidate(g, front, f) || f in RecordsOf(g, last, |g[last.typ]|)
  {
    RecordsMembers(g, last, |g[last.typ]|, f);
    if IsCandidate(g, front + [last], f) {
      var v, i :| Candidate(g, front + [last], f, v, i);
      assert v in front ==> Candidate(g, front, f, v, i);
    }
    if IsCandidate(g, front, f) {
      var v, i :| Candidate(g, front, f, v, i);
      assert Candidate(g, front + [last], f, v, i);
    }
    if f in RecordsOf(g, last, |g[last.typ]|) {
      var i :| 0 <= i < |g[last.typ]| && Recorded(g, g[last.typ][i]) && f == MakeField(g[last.typ][i], last.path + [i]);
      assert Candidate(g, front + [last], f, last, i);
    }
  }

  /** The recorded fields are exactly the fields of the scanned structs that count. */
  lemma {:induction false} RecordsAreCandidates(g: Graph, order: seq<Visit>, f: Field)
    requires Scannable(g, order)
    ensures f in AllRecords(g, order) <==> IsCandidate(g, order, f)
  {
    if order != [] {
      var n := |order| - 1;
      assert order == order[..n] + [order[n]];
      CandidateSnoc(g, order[..n], order[n], f);
      RecordsAreCandidates(g, order[..n], f);
    }
  }

  lemma SamePath(g: Graph, root: TypeId, order: seq<Visit>, v: Visit, w: Visit)
    requires Located(g, root, order) && v in order && w in order
    requires v.path == w.path || v.typ == w.typ
    ensures v == w
  {
    var a :| 0 <= a < |order| && order[a] == v;
    var b :| 0 <= b < |order| && order[b] == w;
    assert v.typ == w.typ;
  }

  lemma {:induction false} FollowPrefix(g: Graph, root: TypeId, p: seq<nat>, n: nat)
    requires Follow(g, root, p).Some? && n <= |p|
    ensures Follow(g, root, p[..n]).Some?
  {
    if n < |p| {
      var front := p[..|p| - 1];
      FollowPrefix(g, root, front, n);
      assert front[..n] == p[..n];
    } else {
      assert p[..n] == p;
    }
  }

  /** Index paths are distinct, and none runs through another: writing a field never
      touches another field. */
  lemma PrefixFree(g: Graph, root: TypeId, order: seq<Visit>, f: Field, h: Field)
    requires Located(g, root, order) && f in AllRecords(g, order) && h in AllRecords(g, order)
    ensures f.index <= h.index ==> f == h
  {
    hide Located, AllRecords;
    LocatedScannable(g, root, order);
    RecordsAreCandidates(g, order, f);
    RecordsAreCandidates(g, order, h);
    var v, i: nat :| Candidate(g, order, f, v, i);
    var w, j: nat :| Candidate(g, order, h, w, j);
    if f.index <= h.index {
      CandidatesApart(g, root, order, f, v, i, h, w, j);
    }
  }

  lemma LocatedScannable(g: Graph, root: TypeId, order: seq<Visit>)
    requires Located(g, root, order)
    ensures Scannable(g, order)
    ensures forall v | v in order :: Follow(g, root, v.path) == Some(v.typ)
  {
  }

  lemma CandidatesApart(g: Graph, root: TypeId, order: seq<Visit>, f: Field, v: Visit, i: nat, h: Field, w: Visit, j: nat)
    requires Located(g, root, order) && Candidate(g, order, f, v, i) && Candidate(g, order, h, w, j)
    requires f.index <= h.index
    ensures f == h
  {
    hide Located;
    LocatedScannable(g, root, order);
    var n := |v.path|;
    if |f.index| == |h.index| {
      SameFront(v.path, i, w.path, j);
      SamePath(g, root, order, v, w);
    } else {
      PrefixThrough(v.path, i, w.path, j);
      FollowPrefix(g, root, w.path, n + 1);
      NotThrough(g, root, order, v, i, w.path[..n + 1]);
    }
  }

  lemma PrefixThrough(p: seq<nat>, i: nat, q: seq<nat>, j: nat)
    requires p + [i] <= q + [j] && |p| < |q|
    ensures q[..|p| + 1] == p + [i]
  {
    assert (q + [j])[..|p| + 1] == q[..|p| + 1];
  }

  /** No path goes on through a recorded field. */
  lemma NotThrough(g: Graph, root: TypeId, order: seq<Visit>, v: Visit, i: nat, p: seq<nat>)
    requires Scannable(g, order) && v in order && Follow(g, root, v.path) == Some(v.typ)
    requires i < |g[v.typ]| && Recorded(g, g[v.typ][i]) && p == v.path + [i]
    ensures Follow(g, root, p).None?
  {
    assert p[..|p| - 1] == v.path && p[|p| - 1] == i;
  }

  lemma {:induction false} RecordsCount(g: Graph, v: Visit, n: nat, f: Field, i: nat)
    requires v.typ in g && n <= |g[v.typ]| && i < |g[v.typ]|
    requires Recorded(g, g[v.typ][i]) && f == MakeField(g[v.typ][i], v.path + [i])
    ensures multiset(RecordsOf(g, v, n))[f] == if i >= n then 0 else if v.twice then 2 else 1
  {
    hide RecordsOf, RecordOf, Recorded, MakeField;
    RecordsSplit(g, v, n);
    if n > 0 {
      RecordsCount(g, v, n - 1, f, i);
      RecordCount(g, v, n - 1, f, i);
      CountBoth(RecordsOf(g, v, n - 1), RecordOf(g, v, n - 1), f);
    }
  }

  lemma RecordsSplit(g: Graph, v: Visit, n: nat)
    requires v.typ in g && n <= |g[v.typ]|
    ensures RecordsOf(g, v, n) == if n == 0 then [] else RecordsOf(g, v, n - 1) + RecordOf(g, v, n - 1)
  {
  }

  lemma CountBoth(a: seq<Field>, b: seq<Field>, f: Field)
    ensures multiset(a + b)[f] == multiset(a)[f] + multiset(b)[f]
  {
  }

  lemma RecordCount(g: Graph, v: Visit, k: nat, f: Field, i: nat)
    requires v.typ in g && k < |g[v.typ]| && i < |g[v.typ]|
    requires Recorded(g, g[v.typ][i]) && f == MakeField(g[v.typ][i], v.path + [i])
    ensures multiset(RecordOf(g, v, k))[f] == if k != i then 0 else if v.twice then 2 else 1
  {
    hide Recorded;
    if k != i {
      assert (v.path + [i])[|v.path|] != (v.path + [k])[|v.path|];
    }
  }

  lemma SameFront(p: seq<nat>, i: nat, q: seq<nat>, j: nat)
    requires p + [i] == q + [j]
    ensures p == q && i == j
  {
    assert (p + [i])[..|p|] == p && (q + [j])[..|q|] == q;
    assert |p + [i]| == |q + [j]| && (p + [i])[|p|] == (q + [j])[|q|];
  }

  lemma AppendedApart(g: Graph, root: TypeId, front: seq<Visit>, last: Visit)
    requires Located(g, root, front + [last])
    ensures last !in front
  {
    var order := front + [last];
    forall a | 0 <= a < |front| ensures front[a] != last {
      assert order[a] == front[a] && order[|front|] == last;
    }
  }

  lemma NotInFront(g: Graph, root: TypeId, front: seq<Visit>, last: Visit, f: Field, i: nat)
    requires Located(g, root, front + [last]) && Candidate(g, front + [last], f, last, i)
    requires Scannable(g, front)
    ensures f !in AllRecords(g, front)
  {
    RecordsAreCandidates(g, front, f);
    if IsCandidate(g, front, f) {
      var w, j :| Candidate(g, front, f, w, j);
      SameFront(last.path, i, w.path, j);
      SamePath(g, root, front + [last], last, w);
      AppendedApart(g, root, front, last);
    }
  }

  lemma NotInLast(g: Graph, root: TypeId, order: seq<Visit>, last: Visit, f: Field, v: Visit, i: nat)
    requires Located(g, root, order) && Candidate(g, order, f, v, i) && last in order && last != v
    ensures f !in RecordsOf(g, last, |g[last.typ]|)
  {
    RecordsMembers(g, last, |g[last.typ]|, f);
    if f in RecordsOf(g, last, |g[last.typ]|) {
      var j :| 0 <= j < |g[last.typ]| && Recorded(g, g[last.typ][j]) && f == MakeField(g[last.typ][j], last.path + [j]);
      SameFront(v.path, i, last.path, j);
      SamePath(g, root, order, v, last);
    }
  }

  lemma LocatedFront(g: Graph, root: TypeId, front: seq<Visit>, last: Visit)
    requires Located(g, root, front + [last])
    ensures Located(g, root, front)
  {
    var order := front + [last];
    forall a, b | 0 <= a < b < |front| ensures front[a].typ != front[b].typ {
      assert order[a].typ != order[b].typ;
    }
    assert forall v | v in front :: v in order;
  }

  /** A field is recorded once, or twice when its struct had been queued more than once. */
  lemma {:induction false} CandidateCount(g: Graph, root: TypeId, order: seq<Visit>, f: Field, v: Visit, i: nat)
    requires Located(g, root, order) && Candidate(g, order, f, v, i)
    ensures multiset(AllRecords(g, order))[f] == if v.twice then 2 else 1
  {
    var n := |order| - 1;
    var last, front := order[n], order[..n];
    assert order == front + [last];
    assert AllRecords(g, order) == AllRecords(g, front) + RecordsOf(g, last, |g[last.typ]|);
    LocatedFront(g, root, front, last);
    if v == last {
      RecordsCount(g, v, |g[v.typ]|, f, i);
      NotInFront(g, root, front, last, f, i);
    } else {
      assert Candidate(g, front, f, v, i);
      CandidateCount(g, root, front, f, v, i);
      NotInLast(g, root, order, last, f, v, i);
    }
  }

  // ---- When the duplicate flag is Go's ambiguity

  /** Two different embedding paths of length d lead to t: by the rules of the Go
      language, at least depth, every field of t is ambiguous. */
  ghost predicate Ambiguous(g: Graph, root: TypeId, t: TypeId, d: nat) {
    exists p, q :: p != q && |p| == d && |q| == d && Follow(g, root, p) == Some(t) == Follow(g, root, q)
  }

  /** An ambiguous struct passes its ambiguity on to what it embeds one level down. */
  ghost predicate PassedOn(g: Graph, order: seq<Visit>)
    requires Scannable(g, order)
  {
    forall v, w, i | v in order && w in order && i in Indices(g, v, w.typ) && |w.path| == |v.path| + 1 ::
      v.twice ==> w.twice
  }

  ghost predicate FlagsAmbiguity(g: Graph, root: TypeId, order: seq<Visit>) {
    forall v | v in order :: v.twice <==> Ambiguous(g, root, v.typ, |v.path|)
  }

  lemma TwoElements<T>(s: set<T>)
    requires |s| > 1
    ensures exists a, b :: a in s && b in s && a != b
  {
    var a :| a in s;
    assert |s - {a}| > 0;
    var b :| b in s - {a};
  }

  lemma EdgePath(g: Graph, root: TypeId, order: seq<Visit>, e: (Visit, nat), d: int, t: TypeId)
    requires Located(g, root, order) && e in Parents(g, order, d, t)
    ensures |e.0.path + [e.1]| == d + 1 && Follow(g, root, e.0.path + [e.1]) == Some(t)
  {
    assert (e.0.path + [e.1])[..d] == e.0.path;
  }

  lemma TwiceIsAmbiguous(g: Graph, root: TypeId, order: seq<Visit>, v: Visit)
    requires Located(g, root, order) && v in order
    requires |Parents(g, order, |v.path| - 1, v.typ)| > 1
    ensures Ambiguous(g, root, v.typ, |v.path|)
  {
    var d := |v.path| - 1;
    var ps := Parents(g, order, d, v.typ);
    TwoElements(ps);
    var a, b :| a in ps && b in ps && a != b;
    EdgePath(g, root, order, a, d, v.typ);
    EdgePath(g, root, order, b, d, v.typ);
    if a.0.path + [a.1] == b.0.path + [b.1] {
      SameFront(a.0.path, a.1, b.0.path, b.1);
      SamePath(g, root, order, a.0, b.0);
    }
  }

  /** The visit one step before the end of a least path. */
  lemma ParentOf(g: Graph, root: TypeId, order: seq<Visit>, v: Visit, p: seq<nat>) returns (w: Visit)
    requires ValidOrder(g, root, order) && v in order
    requires p != [] && |p| == |v.path| && Follow(g, root, p) == Some(v.typ)
    ensures (w, p[|p| - 1]) in Parents(g, order, |v.path| - 1, v.typ)
    ensures Follow(g, root, p[..|p| - 1]) == Some(w.typ)
  {
    hide ValidOrder;
    var front, i := p[..|p| - 1], p[|p| - 1];
    LeastDepth(g, root, order, front);
    w :| w in order && w.typ == Follow(g, root, front).value && |w.path| <= |front|;
    TwiceCounts(g, root, order, v);
    assert Embedded(g, g[w.typ][i]) && g[w.typ][i].typ == v.typ;
    var u := EmbeddedDepth(g, root, order, w, i);
    SamePath(g, root, order, u, v);
    assert i in Indices(g, w, v.typ);
  }

  lemma Pair<T>(s: set<T>, a: T, b: T)
    requires a in s && b in s && a != b
    ensures |s| > 1
  {
    assert s == {a, b} + (s - {a, b});
  }

  /** Two least paths to a type end in different fields, or their fronts are two least
      paths to the struct the common field is in. */
  lemma SplitAmbiguity(g: Graph, root: TypeId, order: seq<Visit>, v: Visit)
    returns (a: Visit, i: nat, b: Visit, j: nat)
    requires ValidOrder(g, root, order) && v in order && Ambiguous(g, root, v.typ, |v.path|)
    ensures (a, i) in Parents(g, order, |v.path| - 1, v.typ) && (b, j) in Parents(g, order, |v.path| - 1, v.typ)
    ensures (a, i) != (b, j) || Ambiguous(g, root, a.typ, |v.path| - 1)
  {
    hide *;
    var p, q := AmbiguousPaths(g, root, v.typ, |v.path|);
    var n := |p| - 1;
    a := ParentOf(g, root, order, v, p);
    b := ParentOf(g, root, order, v, q);
    i, j := p[n], q[n];
    if a == b && i == j {
      assert p == p[..n] + [i] && q == q[..n] + [j];
      PathsAmbiguous(g, root, a.typ, n, p[..n], q[..n]);
    }
  }

  lemma AmbiguousPaths(g: Graph, root: TypeId, t: TypeId, d: nat) returns (p: seq<nat>, q: seq<nat>)
    requires Ambiguous(g, root, t, d)
    ensures p != q && |p| == d == |q| && Follow(g, root, p) == Some(t) == Follow(g, root, q) && d > 0
  {
    p, q :| p != q && |p| == d == |q| && Follow(g, root, p) == Some(t) == Follow(g, root, q);
  }

  lemma PathsAmbiguous(g: Graph, root: TypeId, t: TypeId, d: nat, p: seq<nat>, q: seq<nat>)
    requires p != q && |p| == d == |q| && Follow(g, root, p) == Some(t) == Follow(g, root, q)
    ensures Ambiguous(g, root, t, d)
  {
  }

  lemma {:induction false} AmbiguousIsTwice(g: Graph, root: TypeId, order: seq<Visit>, v: Visit)
    requires ValidOrder(g, root, order) && PassedOn(g, order)
    requires v in order && Ambiguous(g, root, v.typ, |v.path|)
    ensures v.twice
    decreases |v.path|
  {
    var a, i, b, j := SplitAmbiguity(g, root, order, v);
    EdgeOf(g, order, a, i, |v.path| - 1, v.typ);
    if (a, i) == (b, j) {
      AmbiguousIsTwice(g, root, order, a);
    } else {
      hide Parents, ValidOrder;
      Pair(Parents(g, order, |v.path| - 1, v.typ), (a, i), (b, j));
      TwiceCounts(g, root, order, v);
    }
  }

  lemma EdgeOf(g: Graph, order: seq<Visit>, v: Visit, i: nat, d: int, t: TypeId)
    requires Scannable(g, order) && (v, i) in Parents(g, order, d, t)
    ensures v in order && |v.path| == d && i in Indices(g, v, t)
  {
  }

  lemma TwiceCounts(g: Graph, root: TypeId, order: seq<Visit>, v: Visit)
    requires ValidOrder(g, root, order) && v in order
    ensures Located(g, root, order)
    ensures v.twice <==> |Parents(g, order, |v.path| - 1, v.typ)| > 1
  {
  }

  lemma AmbiguityGoesDown(g: Graph, root: TypeId, v: Visit, w: Visit, i: nat)
    requires v.typ in g && i in Indices(g, v, w.typ) && |w.path| == |v.path| + 1
    requires Ambiguous(g, root, v.typ, |v.path|)
    ensures Ambiguous(g, root, w.typ, |w.path|)
  {
    var p, q :| p != q && |p| == |v.path| == |q| && Follow(g, root, p) == Some(v.typ) == Follow(g, root, q);
    var p', q' := p + [i], q + [i];
    assert p'[..|p|] == p && q'[..|q|] == q;
    assert Follow(g, root, p') == Some(w.typ) == Follow(g, root, q');
  }

  /** The flag agrees with the ambiguity of the Go language exactly on the programs where
      an ambiguous struct embeds nothing, at its least depth, that is flagged otherwise. */
  lemma FlagsExactly(g: Graph, root: TypeId, order: seq<Visit>)
    requires ValidOrder(g, root, order)
    ensures FlagsAmbiguity(g, root, order) <==> PassedOn(g, order)
  {
    forall v | v in order && v.twice ensures Ambiguous(g, root, v.typ, |v.path|) {
      TwiceCounts(g, root, order, v);
      TwiceIsAmbiguous(g, root, order, v);
    }
    hide Parents, OrderOk, Follow, Ambiguous;
    if PassedOn(g, order) {
      forall v | v in order && Ambiguous(g, root, v.typ, |v.path|) ensures v.twice {
        AmbiguousIsTwice(g, root, order, v);
      }
    }
    if FlagsAmbiguity(g, root, order) {
      forall v, w, i | v in order && w in order && i in Indices(g, v, w.typ) && |w.path| == |v.path| + 1 && v.twice
        ensures w.twice
      {
        AmbiguityGoesDown(g, root, v, w, i);
      }
    }
  }

  function Embed(t: TypeId): FieldDecl {
    FieldDecl([], true, true, false, [], false, t)
  }

  /** A field named X of a type that is no struct. */
  const PLAIN := FieldDecl([0x58], true, false, false, [], false, 5)

  /** Struct 0 embeds 1 and 2, both embed 3, which embeds 4, which has the field X. */
  function Diamond(): Graph {
    map[0 := [Embed(1), Embed(2)], 1 := [Embed(3)], 2 := [Embed(3)], 3 := [Embed(4)], 4 := [PLAIN]]
  }

  lemma {:induction false} DiamondDepth(p: seq<nat>)
    requires Follow(Diamond(), 0, p).Some?
    ensures var t := Follow(Diamond(), 0, p).value;
            t <= 4 && |p| == if t == 0 then 0 else if t <= 2 then 1 else t - 1
  {
    if p != [] {
      DiamondDepth(p[..|p| - 1]);
    }
  }

  lemma FollowStep(g: Graph, root: TypeId, p: seq<nat>, i: nat, t: TypeId)
    requires Follow(g, root, p) == Some(t) && t in g && i < |g[t]| && Embedded(g, g[t][i])
    ensures Follow(g, root, p + [i]) == Some(g[t][i].typ)
  {
    assert (p + [i])[..|p|] == p;
  }

  lemma DiamondPaths()
    ensures Follow(Diamond(), 0, [0, 0, 0]) == Some(4) == Follow(Diamond(), 0, [1, 0, 0])
  {
    var g := Diamond();
    assert g.Keys == {0, 1, 2, 3, 4} && g[0] == [Embed(1), Embed(2)];
    assert g[1] == g[2] == [Embed(3)] && g[3] == [Embed(4)];
    hide Diamond;
    assert Follow(g, 0, []) == Some(0);
    assert [] + [0] == [0] && [0] + [0] == [0, 0] && [0, 0] + [0] == [0, 0, 0];
    assert [] + [1] == [1] && [1] + [0] == [1, 0] && [1, 0] + [0] == [1, 0, 0];
    hide Follow;
    FollowStep(g, 0, [], 0, 0);
    FollowStep(g, 0, [], 1, 0);
    FollowStep(g, 0, [0], 0, 1);
    FollowStep(g, 0, [1], 0, 2);
    FollowStep(g, 0, [0, 0], 0, 3);
    FollowStep(g, 0, [1, 0], 0, 3);
  }
}
