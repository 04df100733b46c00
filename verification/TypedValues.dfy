/** Values of Go types: what structs, slices and maps of the encoder hold. */
module TypedValues {
  import opened ByteCodec
  import opened Results
  import opened AmfValue
  import opened TypeGraph
  import opened FieldPaths
  import opened Dominance
  import opened TypeFields
  import opened Fold

  datatype Width = Int | Int8 | Int16 | Int32 | Int64 | Uint | Uint8 | Uint16 | Uint32 | Uint64 | Uintptr

  /** What kind of type a type is; slices and maps are of elements of a type. One of the
      string types is the decoder's own Number. */
  datatype Kind =
    | AnyKind
    | StringKind(number: bool)
    | BoolKind
    | FloatKind(single: bool)
    | WholeKind(width: Width)
    | SliceKind(elem: TypeId)
    | MapKind(elem: TypeId)
    | StructKind

  datatype Node =
    | Any(v: Value)
    | Text(s: Bytes)
    | Flag(b: bool)
    | Real(bits: uint64)
    | Whole(n: int)
    | NilList
    | List(elems: seq<Node>)
    | NilDict
    | Dict(members: map<Bytes, Node>)
    | Struct(fields: seq<Node>)

  /** Conversions between integers, floating point and text, and from base 64. */
  datatype Numbers = Numbers(
    ofInt: int -> uint64, toInt: (Width, uint64) -> int, narrow: uint64 -> uint64,
    parse: (Width, Bytes) -> Option<int>, format: uint64 -> Bytes, base64: Bytes -> Option<Bytes>)

  /** The types of a program: the structs with their members and zero values, and the kinds
      of all others. */
  datatype Types = Types(
    graph: Graph, kinds: TypeId -> Kind, members: map<TypeId, StructFields>, zeros: map<TypeId, Node>,
    least: Orbits, numbers: Numbers)

  function KindOf(ts: Types, t: TypeId): Kind {
    if t in ts.graph then StructKind else ts.kinds(t)
  }

  function ZeroOf(ts: Types, t: TypeId): Node {
    match KindOf(ts, t)
    case AnyKind => Any(Nil)
    case StringKind(_) => Text([])
    case BoolKind => Flag(false)
    case FloatKind(_) => Real(0)
    case WholeKind(_) => Whole(0)
    case SliceKind(_) => NilList
    case MapKind(_) => NilDict
    case StructKind => if t in ts.zeros then ts.zeros[t] else Struct([])
  }

  /** n is a value of type t, structs held by value. */
  predicate Shaped(ts: Types, t: TypeId, n: Node)
    decreases n
  {
    match KindOf(ts, t)
    case AnyKind => n.Any?
    case StringKind(_) => n.Text?
    case BoolKind => n.Flag?
    case FloatKind(_) => n.Real?
    case WholeKind(_) => n.Whole?
    case SliceKind(e) => n.NilList? || (n.List? && forall i | 0 <= i < |n.elems| :: Shaped(ts, e, n.elems[i]))
    case MapKind(e) => n.NilDict? || (n.Dict? && forall k | k in n.members :: Shaped(ts, e, n.members[k]))
    case StructKind =>
      && t in ts.graph && n.Struct? && |n.fields| == |ts.graph[t]|
      && forall i | 0 <= i < |ts.graph[t]| && Visible(ts.graph, ts.graph[t][i]) ::
           Shaped(ts, ts.graph[t][i].typ, n.fields[i])
  }

  ghost predicate IndexesOk(least: Orbits, sf: StructFields) {
    ExactOk(sf.list, |sf.list|, sf.byExactName) && FoldedOk(least, sf.list, |sf.list|, sf.byFoldedName)
  }

  /** The zero value of a struct has zero values in it. */
  ghost predicate ZeroStruct(ts: Types, t: TypeId) {
    && t in ts.graph && t in ts.zeros && Shaped(ts, t, ts.zeros[t])
    && forall i | 0 <= i < |ts.graph[t]| && Visible(ts.graph, ts.graph[t][i]) ::
         ts.zeros[t].fields[i] == ZeroOf(ts, ts.graph[t][i].typ)
  }

  /** The members of struct type t, in order. */
  function ListOf(ts: Types, t: TypeId): seq<Field> {
    if t in ts.members then ts.members[t].list else []
  }

  /** Member i is found by its name, and its path leads to a value of its type. */
  ghost predicate MemberOk(ts: Types, t: TypeId, i: nat)
    requires i < |ListOf(ts, t)|
  {
    var f := ListOf(ts, t)[i];
    Lookup(ts.least, ts.members[t], f.name) == Some(i) && TypeAt(ts, t, f.index) == Some(f.typ) && f.index != []
  }

  /** The paths of members do not run through one another. */
  ghost predicate Apart(list: seq<Field>) {
    forall i, j | 0 <= i < |list| && 0 <= j < |list| && i != j :: !(list[i].index <= list[j].index)
  }

  ghost predicate InList(ts: Types, t: TypeId, name: Bytes)
    requires t in ts.members
  {
    var i := Lookup(ts.least, ts.members[t], name);
    i.Some? ==> i.value < |ListOf(ts, t)|
  }

  /** What encoding and decoding need of the members of struct type t. */
  ghost predicate MembersKnown(ts: Types, t: TypeId) {
    && t in ts.members
    && (forall i | 0 <= i < |ListOf(ts, t)| :: MemberOk(ts, t, i))
    && (forall name :: InList(ts, t, name))
    && Apart(ListOf(ts, t))
  }

  ghost predicate TypesOk(ts: Types) {
    && OrbitsOk(ts.least)
    && (forall t | t in ts.graph :: MembersKnown(ts, t) && ZeroStruct(ts, t))
    && (forall t | t !in ts.graph :: ts.kinds(t) != StructKind)
  }

  /** The members of every struct type are those that typeFields finds, with its indexes. */
  ghost predicate GoTypes(ts: Types) {
    && OrbitsOk(ts.least)
    && (forall t | t in ts.graph :: GoMembers(ts, t) && ZeroStruct(ts, t))
    && (forall t | t !in ts.graph :: ts.kinds(t) != StructKind)
  }

  ghost predicate GoMembers(ts: Types, t: TypeId) {
    t in ts.members && MembersOf(ts.graph, t, ListOf(ts, t)) && IndexesOk(ts.least, ts.members[t])
  }

  lemma ZeroShaped(ts: Types, t: TypeId)
    requires TypesOk(ts)
    ensures Shaped(ts, t, ZeroOf(ts, t))
  {
    hide MembersKnown;
  }

  lemma StructIn(ts: Types, t: TypeId)
    requires TypesOk(ts) && KindOf(ts, t).StructKind?
    ensures t in ts.graph && MembersKnown(ts, t) && ZeroStruct(ts, t)
  {
    hide MembersKnown, ZeroStruct, OrbitsOk;
  }

  // ---- Paths in values

  predicate PathIn(n: Node, p: seq<nat>) {
    p == [] || (n.Struct? && p[0] < |n.fields| && PathIn(n.fields[p[0]], p[1..]))
  }

  /** reflect.Value.Field along an index path. */
  function Get(n: Node, p: seq<nat>): Node
    requires PathIn(n, p)
  {
    if p == [] then n else Get(n.fields[p[0]], p[1..])
  }

  function Set(n: Node, p: seq<nat>, x: Node): Node
    requires PathIn(n, p)
  {
    if p == [] then x else Struct(n.fields[p[0] := Set(n.fields[p[0]], p[1..], x)])
  }

  lemma {:induction false} GetSmaller(n: Node, p: seq<nat>)
    requires PathIn(n, p)
    ensures p != [] ==> (n decreases to Get(n, p))
  {
    if p != [] {
      GetSmaller(n.fields[p[0]], p[1..]);
    }
  }

  lemma {:induction false} SetGet(n: Node, p: seq<nat>, x: Node)
    requires PathIn(n, p)
    ensures PathIn(Set(n, p, x), p) && Get(Set(n, p, x), p) == x
  {
    if p != [] {
      SetGet(n.fields[p[0]], p[1..], x);
    }
  }

  /** Writing along one path leaves what is along any other that neither runs through. */
  lemma {:induction false} SetApart(n: Node, p: seq<nat>, x: Node, q: seq<nat>)
    requires PathIn(n, p) && PathIn(n, q) && !(p <= q) && !(q <= p)
    ensures PathIn(Set(n, p, x), q) && Get(Set(n, p, x), q) == Get(n, q)
  {
    if p[0] == q[0] {
      SetApart(n.fields[p[0]], p[1..], x, q[1..]);
    }
  }

  // ---- Paths in types

  /** The type at the end of an index path. */
  function TypeAt(ts: Types, t: TypeId, p: seq<nat>): Option<TypeId>
    decreases |p|
  {
    if p == [] then Some(t)
    else if t in ts.graph && p[0] < |ts.graph[t]| && Visible(ts.graph, ts.graph[t][p[0]]) then
      TypeAt(ts, ts.graph[t][p[0]].typ, p[1..])
    else None
  }

  lemma {:induction false} TypeAtSnoc(ts: Types, t: TypeId, p: seq<nat>, u: TypeId, i: nat)
    requires TypeAt(ts, t, p) == Some(u) && u in ts.graph && i < |ts.graph[u]| && Visible(ts.graph, ts.graph[u][i])
    ensures TypeAt(ts, t, p + [i]) == Some(ts.graph[u][i].typ)
    decreases |p|
  {
    if p != [] {
      assert (p + [i])[1..] == p[1..] + [i];
      TypeAtSnoc(ts, ts.graph[t][p[0]].typ, p[1..], u, i);
    } else {
      assert p + [i] == [i] && [i][1..] == [];
    }
  }

  lemma {:induction false} FollowTypeAt(ts: Types, root: TypeId, p: seq<nat>)
    requires Follow(ts.graph, root, p).Some?
    ensures TypeAt(ts, root, p) == Follow(ts.graph, root, p)
  {
    if p != [] {
      var front, i := p[..|p| - 1], p[|p| - 1];
      FollowTypeAt(ts, root, front);
      TypeAtSnoc(ts, root, front, Follow(ts.graph, root, front).value, i);
      assert front + [i] == p;
    }
  }

  lemma {:induction false} GetShaped(ts: Types, t: TypeId, n: Node, p: seq<nat>)
    requires Shaped(ts, t, n) && TypeAt(ts, t, p).Some?
    ensures PathIn(n, p) && Shaped(ts, TypeAt(ts, t, p).value, Get(n, p))
    decreases |p|
  {
    if p != [] {
      GetShaped(ts, ts.graph[t][p[0]].typ, n.fields[p[0]], p[1..]);
    }
  }

  lemma {:induction false} SetShaped(ts: Types, t: TypeId, n: Node, p: seq<nat>, x: Node)
    requires Shaped(ts, t, n) && TypeAt(ts, t, p).Some? && Shaped(ts, TypeAt(ts, t, p).value, x)
    ensures PathIn(n, p) && Shaped(ts, t, Set(n, p, x))
    decreases |p|
  {
    GetShaped(ts, t, n, p);
    if p != [] {
      SetShaped(ts, ts.graph[t][p[0]].typ, n.fields[p[0]], p[1..], x);
    }
  }

  lemma ZeroField(ts: Types, t: TypeId, i: nat)
    requires TypesOk(ts) && t in ts.graph && i < |ts.graph[t]| && Visible(ts.graph, ts.graph[t][i])
    ensures ZeroOf(ts, t).Struct? && i < |ZeroOf(ts, t).fields|
    ensures ZeroOf(ts, t).fields[i] == ZeroOf(ts, ts.graph[t][i].typ)
  {
    hide MembersKnown, OrbitsOk, Visible;
    assert ZeroStruct(ts, t);
  }

  lemma {:induction false} GetZero(ts: Types, t: TypeId, p: seq<nat>)
    requires TypesOk(ts) && TypeAt(ts, t, p).Some?
    ensures PathIn(ZeroOf(ts, t), p) && Get(ZeroOf(ts, t), p) == ZeroOf(ts, TypeAt(ts, t, p).value)
    decreases |p|
  {
    hide TypesOk, Visible, ZeroOf;
    if p != [] {
      ZeroField(ts, t, p[0]);
      GetZero(ts, ts.graph[t][p[0]].typ, p[1..]);
    }
  }

  // ---- Members

  lemma ListOrder(g: Graph, root: TypeId, list: seq<Field>) returns (order: seq<Visit>)
    requires MembersOf(g, root, list)
    ensures ValidOrder(g, root, order) && Members(AllRecords(g, order), list)
    ensures forall f | f in list :: f in AllRecords(g, order)
  {
    var fields :| Found(g, root, fields) && Members(fields, list);
    order :| ValidOrder(g, root, order) && fields == AllRecords(g, order);
    forall f | f in list ensures f in fields {
      assert f in multiset(fields);
    }
  }

  lemma RecordedTyped(ts: Types, t: TypeId, order: seq<Visit>, f: Field)
    requires ValidOrder(ts.graph, t, order) && f in AllRecords(ts.graph, order)
    ensures TypeAt(ts, t, f.index) == Some(f.typ) && f.index != []
  {
    RecordsAreCandidates(ts.graph, order, f);
    var v, i: nat :| Candidate(ts.graph, order, f, v, i);
    FollowTypeAt(ts, t, v.path);
    TypeAtSnoc(ts, t, v.path, v.typ, i);
  }

  lemma FindsItself(least: Orbits, sf: StructFields, i: nat)
    requires IndexesOk(least, sf) && DistinctNames(sf.list) && i < |sf.list|
    ensures Lookup(least, sf, sf.list[i].name) == Some(i)
  {
  }

  lemma FindsInList(least: Orbits, sf: StructFields, name: Bytes)
    requires IndexesOk(least, sf)
    ensures Lookup(least, sf, name).Some? ==> Lookup(least, sf, name).value < |sf.list|
  {
  }

  lemma ListApart(g: Graph, t: TypeId, order: seq<Visit>, list: seq<Field>)
    requires ValidOrder(g, t, order) && (forall f | f in list :: f in AllRecords(g, order)) && DistinctNames(list)
    ensures Apart(list)
  {
    hide ValidOrder, AllRecords;
    forall i, j | 0 <= i < |list| && 0 <= j < |list| && i != j ensures !(list[i].index <= list[j].index) {
      assert list[i] in list && list[j] in list && list[i].name != list[j].name;
      PrefixFreeIn(g, t, order, list[i], list[j]);
    }
  }

  lemma PrefixFreeIn(g: Graph, t: TypeId, order: seq<Visit>, f: Field, h: Field)
    requires ValidOrder(g, t, order) && f in AllRecords(g, order) && h in AllRecords(g, order)
    ensures f.index <= h.index ==> f == h
  {
    PrefixFree(g, t, order, f, h);
  }

  lemma GoMembersKnown(ts: Types, t: TypeId)
    requires GoMembers(ts, t)
    ensures MembersKnown(ts, t)
  {
    hide ValidOrder, AllRecords, IndexesOk, Lookup, TypeAt, StrictByIndex, DistinctNames, Wins;
    var list := ListOf(ts, t);
    var order := ListOrder(ts.graph, t, list);
    ListApart(ts.graph, t, order, list);
    forall i | 0 <= i < |list| ensures MemberOk(ts, t, i) {
      assert list[i] in list;
      RecordedTyped(ts, t, order, list[i]);
      FindsItself(ts.least, ts.members[t], i);
    }
    forall name ensures InList(ts, t, name) {
      FindsInList(ts.least, ts.members[t], name);
    }
  }

  /** What typeFields finds is all that encoding and decoding need. */
  lemma GoTypesOk(ts: Types)
    requires GoTypes(ts)
    ensures TypesOk(ts)
  {
    hide GoMembers, MembersKnown, ZeroStruct, OrbitsOk;
    forall t | t in ts.graph ensures MembersKnown(ts, t) {
      GoMembersKnown(ts, t);
    }
  }

  lemma MemberTyped(ts: Types, t: TypeId, f: Field)
    requires MembersKnown(ts, t) && f in ListOf(ts, t)
    ensures TypeAt(ts, t, f.index) == Some(f.typ) && f.index != []
  {
    var i :| 0 <= i < |ListOf(ts, t)| && ListOf(ts, t)[i] == f;
    assert MemberOk(ts, t, i);
    hide TypeAt, Lookup;
  }

  lemma MemberIn(ts: Types, t: TypeId, n: Node, f: Field)
    requires MembersKnown(ts, t) && f in ListOf(ts, t) && Shaped(ts, t, n)
    ensures PathIn(n, f.index) && Shaped(ts, f.typ, Get(n, f.index)) && (n decreases to Get(n, f.index))
  {
    hide *;
    MemberTyped(ts, t, f);
    GetShaped(ts, t, n, f.index);
    GetSmaller(n, f.index);
  }

  lemma SetMember(ts: Types, t: TypeId, n: Node, f: Field, x: Node)
    requires MembersKnown(ts, t) && f in ListOf(ts, t) && Shaped(ts, t, n) && Shaped(ts, f.typ, x)
    ensures PathIn(n, f.index) && Shaped(ts, t, Set(n, f.index, x))
  {
    hide *;
    MemberTyped(ts, t, f);
    SetShaped(ts, t, n, f.index, x);
  }

  lemma ZeroMember(ts: Types, t: TypeId, f: Field)
    requires TypesOk(ts) && KindOf(ts, t).StructKind? && MembersKnown(ts, t) && f in ListOf(ts, t)
    ensures PathIn(ZeroOf(ts, t), f.index) && Get(ZeroOf(ts, t), f.index) == ZeroOf(ts, f.typ)
  {
    hide *;
    MemberTyped(ts, t, f);
    GetZero(ts, t, f.index);
  }
}
