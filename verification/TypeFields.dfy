/** amf/encode.go, typeFields as a whole: the members of a struct type and their indexes. */
module TypeFields {
  import opened ByteCodec
  import opened Results
  import opened Sorting
  import opened TypeGraph
  import opened FieldPaths
  import opened Dominance
  import opened Fold

  /** The members in index order; the maps hold positions in the list. */
  datatype StructFields = StructFields(
    list: seq<Field>, byExactName: map<Bytes, nat>, byFoldedName: map<Bytes, nat>)

  ghost predicate StrictByIndex(list: seq<Field>) {
    forall i, j | 0 <= i < j < |list| :: Less(list[i].index, list[j].index)
  }

  ghost predicate DistinctNames(list: seq<Field>) {
    forall i, j | 0 <= i < j < |list| :: list[i].name != list[j].name
  }

  /** The members are the winners among all recorded fields, in strict index order. */
  ghost predicate Members(all: seq<Field>, list: seq<Field>) {
    && (forall f :: f in list <==> Wins(multiset(all), f))
    && StrictByIndex(list) && DistinctNames(list)
  }

  // ---- The name indexes

  ghost predicate ExactOk(list: seq<Field>, n: nat, exact: map<Bytes, nat>)
    requires n <= |list|
  {
    && (forall k | k in exact :: exact[k] < n && list[exact[k]].name == k)
    && (forall p | 0 <= p < n :: list[p].name in exact)
  }

  ghost predicate FoldedOk(least: Orbits, list: seq<Field>, n: nat, folded: map<Bytes, nat>)
    requires n <= |list|
  {
    && (forall k | k in folded ::
          && folded[k] < n && FoldedName(least, list[folded[k]].name) == k
          && forall p | 0 <= p < folded[k] :: FoldedName(least, list[p].name) != k)
    && (forall p | 0 <= p < n :: FoldedName(least, list[p].name) in folded)
  }

  lemma ExactStep(list: seq<Field>, i: nat, exact: map<Bytes, nat>)
    requires i < |list| && DistinctNames(list) && ExactOk(list, i, exact)
    ensures ExactOk(list, i + 1, exact[list[i].name := i])
  {
  }

  lemma FoldedStep(least: Orbits, list: seq<Field>, i: nat, folded: map<Bytes, nat>)
    requires i < |list| && FoldedOk(least, list, i, folded)
    ensures var key := FoldedName(least, list[i].name);
            FoldedOk(least, list, i + 1, if key in folded then folded else folded[key := i])
  {
    hide FoldedName;
  }

  method BuildIndexes(least: Orbits, list: seq<Field>) returns (sf: StructFields)
    requires OrbitsOk(least) && DistinctNames(list)
    ensures sf.list == list
    ensures ExactOk(list, |list|, sf.byExactName) && FoldedOk(least, list, |list|, sf.byFoldedName)
  {
    var exact: map<Bytes, nat>, folded: map<Bytes, nat> := map[], map[];
    for i := 0 to |list|
      invariant ExactOk(list, i, exact) && FoldedOk(least, list, i, folded)
    {
      ExactStep(list, i, exact);
      FoldedStep(least, list, i, folded);
      hide ExactOk, FoldedOk, DistinctNames;
      exact := exact[list[i].name := i];
      var key := FoldName(least, list[i].name);
      if key !in folded {
        folded := folded[key := i];
      }
    }
    sf := StructFields(list, exact, folded);
  }

  /** The member an object name is decoded into: exact match first, then folded. */
  function Lookup(least: Orbits, sf: StructFields, on: Bytes): Option<nat> {
    if on in sf.byExactName then Some(sf.byExactName[on])
    else if FoldedName(least, on) in sf.byFoldedName then Some(sf.byFoldedName[FoldedName(least, on)])
    else None
  }

  /** The first member from position i on with the given name. */
  function FirstExact(list: seq<Field>, on: Bytes, i: nat): (r: Option<nat>)
    requires i <= |list|
    ensures r.Some? ==> r.value < |list| && list[r.value].name == on
    ensures forall p | i <= p < if r.Some? then r.value else |list| :: list[p].name != on
    decreases |list| - i
  {
    if i == |list| then None else if list[i].name == on then Some(i) else FirstExact(list, on, i + 1)
  }

  /** The first member from position i on with a name equal under folding. */
  function FirstFolded(least: Orbits, list: seq<Field>, on: Bytes, i: nat): (r: Option<nat>)
    requires OrbitsOk(least) && i <= |list|
    ensures r.Some? ==> r.value < |list| && EqualFold(least, list[r.value].name, on)
    ensures forall p | i <= p < if r.Some? then r.value else |list| :: !EqualFold(least, list[p].name, on)
    decreases |list| - i
  {
    if i == |list| then None
    else if EqualFold(least, list[i].name, on) then Some(i)
    else FirstFolded(least, list, on, i + 1)
  }

  /** Looking a member up by scanning the list. */
  function Scan(least: Orbits, list: seq<Field>, on: Bytes): Option<nat>
    requires OrbitsOk(least)
  {
    var exact := FirstExact(list, on, 0);
    if exact.Some? then exact else FirstFolded(least, list, on, 0)
  }

  lemma ExactScan(list: seq<Field>, exact: map<Bytes, nat>, on: Bytes)
    requires DistinctNames(list) && ExactOk(list, |list|, exact)
    ensures FirstExact(list, on, 0) == if on in exact then Some(exact[on]) else None
  {
  }

  lemma FoldScan(least: Orbits, list: seq<Field>, folded: map<Bytes, nat>, on: Bytes)
    requires OrbitsOk(least) && FoldedOk(least, list, |list|, folded)
    ensures FirstFolded(least, list, on, 0)
         == if FoldedName(least, on) in folded then Some(folded[FoldedName(least, on)]) else None
  {
    hide EqualFold, FoldedName, OrbitsOk;
    var key, r := FoldedName(least, on), FirstFolded(least, list, on, 0);
    if r.Some? {
      FoldDecides(least, list[r.value].name, on);
    }
    if key in folded {
      FoldDecides(least, list[folded[key]].name, on);
    }
  }

  /** The two maps find what the scan finds: an exact match, or else the first member in
      index order whose name is equal under folding. */
  lemma LookupIsScan(least: Orbits, sf: StructFields, on: Bytes)
    requires OrbitsOk(least) && DistinctNames(sf.list)
    requires ExactOk(sf.list, |sf.list|, sf.byExactName)
    requires FoldedOk(least, sf.list, |sf.list|, sf.byFoldedName)
    ensures Lookup(least, sf, on) == Scan(least, sf.list, on)
  {
    ExactScan(sf.list, sf.byExactName, on);
    FoldScan(least, sf.list, sf.byFoldedName, on);
  }

  // ---- typeFields

  lemma SortedMembers(g: Graph, root: TypeId, order: seq<Visit>, all: seq<Field>, s: seq<Field>,
                      kept: seq<Field>, list: seq<Field>)
    requires ValidOrder(g, root, order) && all == AllRecords(g, order)
    requires multiset(s) == multiset(all) && Kept(s, |s|, kept)
    requires multiset(list) == multiset(kept) && Sorted(IndexLess, list)
    ensures Members(all, list)
  {
    assert s[..|s|] == s;
    forall f: Field ensures f in list <==> Wins(multiset(all), f) {
      assert f in list <==> f in multiset(list);
      assert f in s <==> f in multiset(s);
    }
    KeptOnce(s, kept);
    forall i, j | 0 <= i < j < |list|
      ensures Less(list[i].index, list[j].index) && list[i].name != list[j].name
    {
      if list[i] == list[j] {
        CountTwo(list, i, j);
      }
      assert list[i] in list && list[j] in list;
      WinsApart(multiset(all), list[i], list[j]);
      RecordedApart(g, root, order, list[i], list[j]);
      LessIsOrder(list[i].index, list[j].index, list[i].index);
    }
  }

  lemma WinsApart(all: multiset<Field>, f: Field, h: Field)
    requires Wins(all, f) && Wins(all, h) && f != h
    ensures f.name != h.name
  {
  }

  lemma RecordedApart(g: Graph, root: TypeId, order: seq<Visit>, f: Field, h: Field)
    requires ValidOrder(g, root, order)
    requires Wins(multiset(AllRecords(g, order)), f) && Wins(multiset(AllRecords(g, order)), h) && f != h
    ensures f.index != h.index
  {
    assert f in AllRecords(g, order) && h in AllRecords(g, order);
    PrefixFree(g, root, order, f, h);
  }

  lemma KeptOnce(s: seq<Field>, kept: seq<Field>)
    requires Kept(s, |s|, kept)
    ensures forall f | f in kept :: multiset(kept)[f] == 1
  {
    forall f | f in kept ensures multiset(kept)[f] == 1 {
      var p :| 0 <= p < |kept| && kept[p] == f;
      forall q | 0 <= q < |kept| && q != p ensures kept[q] != kept[p] {
        LessIsOrder(kept[p].name, kept[q].name, kept[p].name);
      }
      CountOne(kept, p);
    }
  }

  /** list is what typeFields selects of the type. */
  ghost predicate MembersOf(g: Graph, root: TypeId, list: seq<Field>) {
    exists fields :: Found(g, root, fields) && Members(fields, list)
  }

  lemma MembersBy(g: Graph, root: TypeId, fields: seq<Field>, list: seq<Field>)
    requires Found(g, root, fields) && Members(fields, list)
    ensures MembersOf(g, root, list)
  {
    hide Found, Members;
  }

  /** The type graph alone decides the members and their order: neither the order of maps
      nor the way of sorting shows. */
  lemma MembersUnique(g: Graph, root: TypeId, a: seq<Field>, b: seq<Field>)
    requires MembersOf(g, root, a) && MembersOf(g, root, b)
    ensures a == b
  {
    hide Found, Wins;
    var x :| Found(g, root, x) && Members(x, a);
    var y :| Found(g, root, y) && Members(y, b);
    FoundUnique(g, root, x, y);
    forall v, w ensures IndexLess(v, w) ==> !IndexLess(w, v) {
      LessIsOrder(v.index, w.index, v.index);
    }
    assert Strict(IndexLess, a) && Strict(IndexLess, b);
    forall f ensures f in a <==> f in b {
      assert f in a <==> Wins(multiset(x), f);
      assert f in b <==> Wins(multiset(x), f);
    }
    StrictUnique(IndexLess, a, b);
  }

  /** Search, sort, delete hidden fields, sort again. */
  method SelectFields(g: Graph, root: TypeId) returns (list: seq<Field>, ghost order: seq<Visit>)
    requires root in g
    ensures ValidOrder(g, root, order) && Members(AllRecords(g, order), list)
    ensures MembersOf(g, root, list)
  {
    hide *;
    var fields;
    fields, order := Search(g, root);
    var a := new Field[|fields|](i requires 0 <= i < |fields| => fields[i]);
    assert a[..] == fields;
    FieldLessIsOrder();
    SortInPlace(FieldLess, a);
    ghost var s := a[..];
    var n := Compact(a);
    var b := new Field[n](i requires 0 <= i < n reads a => a[i]);
    ghost var kept := a[..n];
    assert b[..] == kept;
    IndexLessIsOrder();
    SortInPlace(IndexLess, b);
    list := b[..];
    SortedMembers(g, root, order, fields, s, kept, list);
    MembersBy(g, root, fields, list);
  }

  method TypeFields(least: Orbits, g: Graph, root: TypeId) returns (sf: StructFields, ghost order: seq<Visit>)
    requires root in g && OrbitsOk(least)
    ensures ValidOrder(g, root, order) && Members(AllRecords(g, order), sf.list)
    ensures MembersOf(g, root, sf.list)
    ensures ExactOk(sf.list, |sf.list|, sf.byExactName) && FoldedOk(least, sf.list, |sf.list|, sf.byFoldedName)
    ensures forall on :: Lookup(least, sf, on) == Scan(least, sf.list, on)
  {
    var list;
    list, order := SelectFields(g, root);
    sf := BuildIndexes(least, list);
    forall on ensures Lookup(least, sf, on) == Scan(least, sf.list, on) {
      LookupIsScan(least, sf, on);
    }
  }

  // ---- The members in terms of the type graph

  /** The rule on fields as Go describes it: nothing of the same name is as shallow,
      other than, for a tagged field, untagged ones. */
  ghost predicate Outranks(f: Field, h: Field) {
    |h.index| > |f.index| || (|h.index| == |f.index| && f.tagged && !h.tagged)
  }

  /** A field is a member exactly if a scanned, not twice queued, struct has it and it
      outranks every other field of its name in the scanned structs. */
  lemma MemberExactly(g: Graph, root: TypeId, order: seq<Visit>, list: seq<Field>, f: Field)
    requires ValidOrder(g, root, order) && Members(AllRecords(g, order), list)
    ensures f in list
       <==> && (exists v, i :: Candidate(g, order, f, v, i) && !v.twice)
            && (forall h | IsCandidate(g, order, h) && h != f && h.name == f.name :: Outranks(f, h))
  {
    var all := AllRecords(g, order);
    forall h: Field ensures h in multiset(all) <==> IsCandidate(g, order, h) {
      RecordsAreCandidates(g, order, h);
    }
    forall v, i | Candidate(g, order, f, v, i)
      ensures multiset(all)[f] == if v.twice then 2 else 1
    {
      CandidateCount(g, root, order, f, v, i);
    }
    hide AllRecords, ValidOrder, Candidate, StrictByIndex, DistinctNames;
    if f in list {
      assert f in multiset(all) && IsCandidate(g, order, f);
    }
  }
}
