/** amf/encode.go: the sort of the recorded fields and the choice of one per name. */
module Dominance {
  import opened ByteCodec
  import opened Results
  import opened Sorting
  import opened TypeGraph

  /** The rule for embedded fields, on the recorded fields as a bag: every other field of
      the same name is deeper, or f is tagged and the other, at its depth, is not. */
  ghost predicate Wins(all: multiset<Field>, f: Field) {
    && all[f] == 1
    && forall h | h in all && h != f && h.name == f.name ::
         |h.index| > |f.index| || (|h.index| == |f.index| && f.tagged && !h.tagged)
  }

  // ---- Orders

  /** byIndex.Less, the loop: decided at the first position where the sequences differ. */
  method ByIndexLess(x: Field, y: Field) returns (less: bool)
    ensures less == Less(x.index, y.index)
  {
    for k := 0 to |x.index|
      invariant k <= |y.index|
      invariant Less(x.index, y.index) == Less(x.index[k..], y.index[k..])
    {
      if k >= |y.index| {
        return false;
      }
      assert x.index[k..][1..] == x.index[k + 1..] && y.index[k..][1..] == y.index[k + 1..];
      if x.index[k] != y.index[k] {
        return x.index[k] < y.index[k];
      }
    }
    return |x.index| < |y.index|;
  }

  predicate IndexLess(x: Field, y: Field) {
    Less(x.index, y.index)
  }

  /** By name, then depth, then tagged first, then index sequence. */
  predicate FieldLess(x: Field, y: Field) {
    if x.name != y.name then Less(x.name, y.name)
    else if |x.index| != |y.index| then |x.index| < |y.index|
    else if x.tagged != y.tagged then x.tagged
    else Less(x.index, y.index)
  }

  lemma LessIsOrder(a: seq<int>, b: seq<int>, c: seq<int>)
    ensures Less(a, b) ==> !Less(b, a)
    ensures !Less(b, a) && !Less(c, b) ==> !Less(c, a)
    ensures Less(a, b) || Less(b, a) || a == b
  {
    if Less(a, b) {
      LessAsymmetric(a, b);
    }
    if !Less(a, b) && !Less(b, a) {
      LessConnected(a, b);
    }
    if !Less(b, a) && !Less(c, b) && Less(c, a) {
      if Less(a, b) {
        LessTransitive(c, a, b);
      }
    }
  }

  lemma IndexLessIsOrder()
    ensures StrictWeak(IndexLess)
  {
    forall x: Field, y: Field ensures IndexLess(x, y) ==> !IndexLess(y, x) {
      LessIsOrder(x.index, y.index, x.index);
    }
    forall x: Field, y: Field, z: Field | !IndexLess(y, x) && !IndexLess(z, y) ensures !IndexLess(z, x) {
      LessIsOrder(x.index, y.index, z.index);
    }
  }

  /** Each key decides where those before it do not. */
  lemma FieldLessByKeys(x: Field, y: Field)
    ensures Less(x.name, y.name) ==> FieldLess(x, y)
    ensures x.name == y.name && |x.index| < |y.index| ==> FieldLess(x, y)
    ensures x.name == y.name && |x.index| == |y.index| && x.tagged && !y.tagged ==> FieldLess(x, y)
    ensures x.name == y.name && |x.index| == |y.index| && x.tagged == y.tagged && Less(x.index, y.index) ==> FieldLess(x, y)
  {
    LessIsOrder(x.name, y.name, x.name);
  }

  lemma FieldLessIsOrder()
    ensures StrictWeak(FieldLess)
  {
    forall x: Field, y: Field ensures FieldLess(x, y) ==> !FieldLess(y, x) {
      LessIsOrder(x.name, y.name, x.name);
      LessIsOrder(x.index, y.index, x.index);
    }
    forall x: Field, y: Field, z: Field | !FieldLess(y, x) && !FieldLess(z, y) ensures !FieldLess(z, x) {
      LessIsOrder(x.name, y.name, z.name);
      LessIsOrder(y.name, z.name, x.name);
      LessIsOrder(x.index, y.index, z.index);
    }
  }

  // ---- One group

  /** Fields of one name, in order of depth. */
  ghost predicate Group(s: seq<Field>) {
    && s != []
    && (forall j | 0 <= j < |s| :: s[j].name == s[0].name)
    && (forall i, j | 0 <= i < j < |s| :: |s[i].index| <= |s[j].index|)
  }

  lemma CountOne(s: seq<Field>, p: nat)
    requires p < |s| && forall q | 0 <= q < |s| && q != p :: s[q] != s[p]
    ensures multiset(s)[s[p]] == 1
  {
    var a, b := s[..p], s[p + 1..];
    assert s == a + [s[p]] + b;
    assert s[p] !in a && s[p] !in b;
  }

  lemma CountTwo(s: seq<Field>, p: nat, q: nat)
    requires p < q < |s| && s[p] == s[q]
    ensures multiset(s)[s[p]] > 1
  {
    var a, b := s[..q], s[q..];
    assert s == a + b;
    assert a[p] == s[p] && s[p] in a && b[0] == s[p] && s[p] in b;
  }

  /** The position p beats every other position of the group. */
  ghost predicate Beats(s: seq<Field>, p: nat)
    requires p < |s|
  {
    forall q | 0 <= q < |s| && q != p ::
      |s[q].index| > |s[p].index| || (|s[q].index| == |s[p].index| && s[p].tagged && !s[q].tagged)
  }

  lemma BeatsWins(s: seq<Field>, p: nat)
    requires Group(s) && p < |s|
    ensures Beats(s, p) <==> Wins(multiset(s), s[p])
  {
    if Beats(s, p) {
      CountOne(s, p);
      forall h | h in multiset(s) && h != s[p]
        ensures |h.index| > |s[p].index| || (|h.index| == |s[p].index| && s[p].tagged && !h.tagged)
      {
        assert h in s;
        var q :| 0 <= q < |s| && s[q] == h;
      }
    }
    if Wins(multiset(s), s[p]) {
      forall q | 0 <= q < |s| && q != p
        ensures |s[q].index| > |s[p].index| || (|s[q].index| == |s[p].index| && s[p].tagged && !s[q].tagged)
      {
        if s[q] == s[p] {
          CountTwo(s, if p < q then p else q, if p < q then q else p);
        }
        assert s[q] in multiset(s);
      }
    }
  }

  /** The first n positions are those at the least depth. */
  ghost predicate Top(s: seq<Field>, n: nat) {
    && Group(s) && 0 < n <= |s|
    && (forall j | 0 <= j < n :: |s[j].index| == |s[0].index|)
    && (forall j | n <= j < |s| :: |s[j].index| > |s[0].index|)
  }

  lemma TwoTagged(s: seq<Field>, p: nat, q: nat)
    requires Group(s) && p < q < |s| && |s[p].index| == |s[q].index| == |s[0].index|
    requires s[p].tagged && s[q].tagged
    ensures forall k | 0 <= k < |s| :: !Beats(s, k)
  {
    forall k | 0 <= k < |s| ensures !Beats(s, k) {
      var o := if k == p then q else p;
      assert o != k && |s[o].index| == |s[0].index| && |s[0].index| <= |s[k].index|;
    }
  }

  lemma OneTagged(s: seq<Field>, n: nat, t: nat)
    requires Top(s, n) && t < n && s[t].tagged
    requires forall j | 0 <= j < n && j != t :: !s[j].tagged
    ensures forall k | 0 <= k < |s| :: Beats(s, k) <==> k == t
  {
    forall k | 0 <= k < |s| ensures Beats(s, k) <==> k == t {
      assert |s[0].index| <= |s[k].index|;
    }
  }

  lemma NoneTagged(s: seq<Field>, n: nat)
    requires Top(s, n) && forall j | 0 <= j < n :: !s[j].tagged
    ensures forall k | 0 <= k < |s| :: Beats(s, k) <==> k == 0 && n == 1
  {
    forall k | 0 <= k < |s| ensures Beats(s, k) <==> k == 0 && n == 1 {
      var o := if k == 0 then 1 else 0;
      assert |s[0].index| <= |s[k].index|;
      assert if k < n then !s[k].tagged else |s[k].index| > |s[0].index|;
      assert o < |s| && o < n ==> |s[o].index| == |s[0].index|;
      assert o < n ==> !Beats(s, k);
    }
  }

  /** r is the winner of the group, if it has one. */
  ghost predicate Decides(s: seq<Field>, r: Option<Field>) {
    && (r.Some? ==> r.value in s && Wins(multiset(s), r.value))
    && (forall f | f in s && Wins(multiset(s), f) :: r == Some(f))
  }

  lemma DecidesSome(s: seq<Field>, t: nat)
    requires Group(s) && t < |s| && forall k | 0 <= k < |s| :: Beats(s, k) <==> k == t
    ensures Decides(s, Some(s[t]))
  {
    forall p | 0 <= p < |s| ensures Beats(s, p) <==> Wins(multiset(s), s[p]) {
      BeatsWins(s, p);
    }
  }

  lemma DecidesNone(s: seq<Field>)
    requires Group(s) && forall k | 0 <= k < |s| :: !Beats(s, k)
    ensures Decides(s, None)
  {
    forall p | 0 <= p < |s| ensures Beats(s, p) <==> Wins(multiset(s), s[p]) {
      BeatsWins(s, p);
    }
  }

  /** dominantField on one group. */
  method DominantField(fields: seq<Field>) returns (r: Option<Field>)
    requires Group(fields)
    ensures Decides(fields, r)
  {
    hide Beats, Wins, Decides;
    var length := |fields[0].index|;
    var tagged := -1;
    var n := |fields|;
    for i := 0 to |fields|
      invariant n == |fields|
      invariant forall j | 0 <= j < i :: |fields[j].index| == length
      invariant -1 <= tagged < i
      invariant if tagged < 0 then forall j | 0 <= j < i :: !fields[j].tagged
                else fields[tagged].tagged && forall j | 0 <= j < i && j != tagged :: !fields[j].tagged
    {
      if |fields[i].index| > length {
        n := i;
        break;
      }
      assert |fields[0].index| <= |fields[i].index|;
      if fields[i].tagged {
        if tagged >= 0 {
          TwoTagged(fields, tagged, i);
          DecidesNone(fields);
          return None;
        }
        tagged := i;
      }
    }
    assert Top(fields, n);
    if tagged >= 0 {
      OneTagged(fields, n, tagged);
      DecidesSome(fields, tagged);
      return Some(fields[tagged]);
    }
    NoneTagged(fields, n);
    if n > 1 {
      DecidesNone(fields);
      return None;
    }
    DecidesSome(fields, 0);
    return Some(fields[0]);
  }

  // ---- The compaction in place

  /** Sorted by FieldLess: same names adjacent, in order of depth. */
  lemma SortedNames(s: seq<Field>, i: nat, j: nat)
    requires Sorted(FieldLess, s) && i < j < |s|
    ensures Less(s[i].name, s[j].name) || (s[i].name == s[j].name && |s[i].index| <= |s[j].index|)
  {
    LessIsOrder(s[j].name, s[i].name, s[i].name);
  }

  /** All the fields of one name are in s[i..m]. */
  ghost predicate WholeGroup(s: seq<Field>, i: nat, m: nat) {
    && i < m <= |s|
    && (forall j | i <= j < m :: s[j].name == s[i].name)
    && (forall j | 0 <= j < i || m <= j < |s| :: s[j].name != s[i].name)
  }

  lemma GroupWins(s: seq<Field>, i: nat, m: nat, f: Field)
    requires WholeGroup(s, i, m) && f.name == s[i].name
    ensures Wins(multiset(s), f) <==> Wins(multiset(s[i..m]), f)
  {
    var a, g, b := s[..i], s[i..m], s[m..];
    assert s == a + g + b;
    forall h: Field | h.name == f.name ensures multiset(s)[h] == multiset(g)[h] {
      assert h !in a && h !in b;
    }
  }

  /** The winners among the first i positions of s, in order of name. */
  ghost predicate Kept(s: seq<Field>, i: nat, kept: seq<Field>)
    requires i <= |s|
  {
    && (forall f :: f in kept <==> f in s[..i] && Wins(multiset(s), f))
    && (forall x, y | 0 <= x < y < |kept| :: Less(kept[x].name, kept[y].name))
  }

  function Chosen(r: Option<Field>): seq<Field> {
    if r.Some? then [r.value] else []
  }

  lemma KeepGroup(s: seq<Field>, i: nat, m: nat, kept: seq<Field>, r: Option<Field>)
    requires Sorted(FieldLess, s) && WholeGroup(s, i, m) && Kept(s, i, kept)
    requires Decides(s[i..m], r)
    ensures Kept(s, m, kept + Chosen(r))
  {
    assert s[..m] == s[..i] + s[i..m];
    forall f: Field
      ensures f in s[i..m] ==> f.name == s[i].name && (Wins(multiset(s), f) <==> Wins(multiset(s[i..m]), f))
    {
      if f in s[i..m] {
        GroupWins(s, i, m, f);
      }
    }
    hide Wins, FieldLess;
    forall x | 0 <= x < |kept| ensures Less(kept[x].name, s[i].name) {
      assert kept[x] in s[..i];
      var j :| 0 <= j < i && s[j] == kept[x];
      SortedNames(s, j, i);
    }
  }

  lemma SingleWins(f: Field)
    ensures Wins(multiset([f]), f)
  {
  }

  /** Half way through the compaction of s: the survivors of s[..i] are at the front of
      the array, and nothing from position i on has been overwritten. */
  ghost predicate Compacting(a: array<Field>, s: seq<Field>, i: nat, out: nat)
    reads a
  {
    && out <= i <= a.Length == |s|
    && a[i..] == s[i..]
    && Kept(s, i, a[..out])
    && (i < |s| ==> forall j | 0 <= j < i :: s[j].name != s[i].name)
  }

  /** The loop over names, writing the survivors to the front of the array it reads. */
  method Compact(a: array<Field>) returns (out: nat)
    requires Sorted(FieldLess, a[..])
    modifies a
    ensures out <= a.Length && Kept(old(a[..]), a.Length, a[..out])
  {
    ghost var s := a[..];
    out := 0;
    var i := 0;
    assert a[..0] == [];
    hide Kept, Sorted;
    assert Kept(s, 0, []) by {
      KeptNone(s);
    }
    while i < a.Length
      invariant Compacting(a, s, i, out)
    {
      i, out := CompactName(a, i, out, s);
    }
  }

  lemma KeptNone(s: seq<Field>)
    ensures Kept(s, 0, [])
  {
  }

  /** One iteration: one name. */
  method CompactName(a: array<Field>, i: nat, out: nat, ghost s: seq<Field>) returns (i': nat, out': nat)
    requires i < a.Length && Compacting(a, s, i, out) && Sorted(FieldLess, s)
    modifies a
    ensures i < i' && Compacting(a, s, i', out')
  {
    hide Kept, Sorted, Group, WholeGroup, Decides;
    var advance := GroupLength(a, i, s);
    var dominant := Select(a[i..i + advance]);
    i' := i + advance;
    KeepGroup(s, i, i', a[..out], dominant);
    out' := Append(a, out, dominant, i');
  }

  /** A single field survives without a comparison. */
  method Select(fields: seq<Field>) returns (r: Option<Field>)
    requires Group(fields)
    ensures Decides(fields, r)
  {
    if |fields| == 1 {
      assert fields == [fields[0]];
      SingleWins(fields[0]);
      return Some(fields[0]);
    }
    r := DominantField(fields);
  }

  /** append to out, which shares the array; the positions from m on stay. */
  method Append(a: array<Field>, out: nat, r: Option<Field>, ghost m: nat) returns (out': nat)
    requires out < m <= a.Length
    modifies a
    ensures out' <= m && a[..out'] == old(a[..out]) + Chosen(r)
    ensures a[m..] == old(a[m..])
  {
    out' := out;
    if r.Some? {
      a[out] := r.value;
      out' := out + 1;
    }
  }

  /** How many fields from position i on have the name of the first. */
  method GroupLength(a: array<Field>, i: nat, ghost s: seq<Field>) returns (advance: nat)
    requires i < a.Length == |s| && a[i..] == s[i..] && Sorted(FieldLess, s)
    requires forall j | 0 <= j < i :: s[j].name != s[i].name
    ensures 1 <= advance && i + advance <= a.Length
    ensures a[i..i + advance] == s[i..i + advance] && a[i + advance..] == s[i + advance..]
    ensures WholeGroup(s, i, i + advance) && Group(s[i..i + advance])
    ensures i + advance < |s| ==> forall j | 0 <= j < i + advance :: s[j].name != s[i + advance].name
  {
    Unread(a[..], s, i);
    hide Sorted;
    advance := 1;
    while i + advance < a.Length
      invariant 1 <= advance && i + advance <= a.Length
      invariant forall j | i <= j < i + advance :: s[j].name == s[i].name
    {
      if a[i + advance].name != a[i].name {
        break;
      }
      advance := advance + 1;
    }
    GroupBounds(s, i, i + advance);
  }

  lemma Unread(a: seq<Field>, s: seq<Field>, i: nat)
    requires i <= |a| == |s| && a[i..] == s[i..]
    ensures forall j | i <= j < |s| :: a[j] == s[j]
    ensures forall m | i <= m <= |s| :: a[i..m] == s[i..m] && a[m..] == s[m..]
  {
    forall j | i <= j < |s| ensures a[j] == s[j] {
      assert a[i..][j - i] == s[i..][j - i];
    }
  }

  lemma GroupBounds(s: seq<Field>, i: nat, m: nat)
    requires Sorted(FieldLess, s) && i < m <= |s|
    requires forall j | 0 <= j < i :: s[j].name != s[i].name
    requires forall j | i <= j < m :: s[j].name == s[i].name
    requires m < |s| ==> s[m].name != s[i].name
    ensures WholeGroup(s, i, m) && Group(s[i..m])
    ensures m < |s| ==> forall j | 0 <= j < m :: s[j].name != s[m].name
  {
    forall p, q | 0 <= p < q < m - i ensures |s[i..m][p].index| <= |s[i..m][q].index| {
      SortedNames(s, i + p, i + q);
      LessIsOrder(s[i].name, s[i].name, s[i].name);
    }
    if m < |s| {
      SortedNames(s, i, m);
      forall j | m <= j < |s| ensures s[j].name != s[i].name {
        if j > m {
          SortedNames(s, m, j);
          LessIsOrder(s[i].name, s[m].name, s[j].name);
          LessIsOrder(s[j].name, s[m].name, s[i].name);
        }
      }
      forall j | 0 <= j < i ensures s[j].name != s[m].name {
        SortedNames(s, j, i);
        LessIsOrder(s[j].name, s[i].name, s[m].name);
        LessIsOrder(s[m].name, s[i].name, s[j].name);
      }
    }
  }
}
