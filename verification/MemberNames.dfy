/** What the members of a struct type are called, and where they are, in terms of its
    declaration alone. */
module MemberNames {
  import opened ByteCodec
  import opened Results
  import opened TypeGraph
  import opened TypeFields
  import opened GoFields
  import opened TypedValues
  import opened TypedEncode

  /** f is what field declaration d becomes at the end of index path p: it has the name in
      the tag, or its own where the tag has none. */
  ghost predicate Declared(f: Field, d: FieldDecl, p: seq<nat>) {
    && (d.tagName == [] ==> f.name == d.name && !f.tagged)
    && (d.tagName != [] ==> f.name == d.tagName && f.tagged)
    && f.index == p && f.typ == d.typ && f.omitEmpty == d.omitEmpty
  }

  /** A field that encoding looks at: its tag is not "-", and it is exported, or an
      unexported struct without a name of its own. */
  ghost predicate Seen(g: Graph, d: FieldDecl) {
    && !d.skipped
    && (!d.exported ==> d.anonymous && d.typ in g)
  }

  /** Every member is declared where its index path says, and every step of the path before
      that is an embedded struct without a tag. */
  lemma MemberDeclared(g: Graph, root: TypeId, list: seq<Field>, f: Field) returns (u: TypeId, i: nat)
    requires MembersOf(g, root, list) && f in list
    ensures f.index != [] && i == f.index[|f.index| - 1]
    ensures Follow(g, root, f.index[..|f.index| - 1]) == Some(u) && u in g && i < |g[u]|
    ensures Declared(f, g[u][i], f.index) && Seen(g, g[u][i])
    ensures g[u][i].tagName == [] ==> !g[u][i].anonymous || g[u][i].typ !in g
  {
    hide ValidOrder, Members, AllRecords, Follow;
    var order := OrderOf(g, root, list);
    OrderFacts(g, root, order);
    var v;
    v, i := MemberVisit(g, root, order, list, f);
    u := v.typ;
    VisitFollowed(g, root, order, v);
    assert f.index[..|f.index| - 1] == v.path;
  }

  lemma VisitFollowed(g: Graph, root: TypeId, order: seq<Visit>, v: Visit)
    requires ValidOrder(g, root, order) && v in order
    ensures Follow(g, root, v.path) == Some(v.typ)
  {
  }

  lemma {:induction false} StepEmbedded(g: Graph, root: TypeId, p: seq<nat>, k: nat) returns (t: TypeId)
    requires Follow(g, root, p).Some? && k < |p|
    ensures Follow(g, root, p[..k]) == Some(t) && t in g && p[k] < |g[t]|
    ensures var d := g[t][p[k]];
            Seen(g, d) && d.anonymous && d.tagName == [] && d.typ in g && Follow(g, root, p[..k + 1]) == Some(d.typ)
  {
    var front := p[..|p| - 1];
    if k == |p| - 1 {
      assert p[..k] == front && p[..k + 1] == p;
      t := Follow(g, root, front).value;
    } else {
      t := StepEmbedded(g, root, front, k);
      assert front[..k] == p[..k] && front[..k + 1] == p[..k + 1];
    }
  }

  /** The field's own name, or the one in its tag. */
  function Called(d: FieldDecl): Bytes {
    if |d.tagName| > 0 then d.tagName else d.name
  }

  /** A field of the struct itself is a member, whatever is embedded, if no other field of
      the struct that counts has its name. */
  lemma OwnFieldIsMember(g: Graph, root: TypeId, list: seq<Field>, i: nat, f: Field)
    requires MembersOf(g, root, list) && root in g && i < |g[root]|
    requires var d := g[root][i];
             Seen(g, d) && (d.tagName == [] ==> !d.anonymous || d.typ !in g) && Declared(f, d, [i])
    requires forall j | 0 <= j < |g[root]| && j != i && Seen(g, g[root][j]) :: Called(g[root][j]) != f.name
    ensures f in list
  {
    hide ValidOrder, Members, AllRecords;
    var order := OrderOf(g, root, list);
    assert [] + [i] == [i];
    assert OccursAt(g, root, f, [], i);
    forall h | Occurs(g, root, h) && h != f && h.name == f.name ensures Outranks(f, h) {
      var p, j: nat :| OccursAt(g, root, h, p, j);
      assert p == [] ==> p + [j] == [j];
    }
    SelectedIsMember(g, root, order, list, f);
  }

  // ---- The object in the answer to connect

  /** The bytes of an ASCII string. */
  function Ascii(s: string): Bytes {
    seq(|s|, i requires 0 <= i < |s| => s[i] as int % 256)
  }

  const FMS_VER := FieldDecl(Ascii("FMSVer"), true, false, false, Ascii("fmsVer"), false, 1)
  const CAPABILITIES := FieldDecl(Ascii("Capabilities"), true, false, false, Ascii("capabilities"), false, 2)

  function ConnectObject(): Graph {
    map[0 := [FMS_VER, CAPABILITIES]]
  }

  const FMS_VER_MEMBER := Field(Ascii("fmsVer"), true, [0], 1, false)
  const CAPABILITIES_MEMBER := Field(Ascii("capabilities"), true, [1], 2, false)

  /** Its members, by their tags. */
  lemma ConnectMembers(list: seq<Field>)
    requires MembersOf(ConnectObject(), 0, list)
    ensures list == [FMS_VER_MEMBER, CAPABILITIES_MEMBER]
  {
    NamesDiffer();
    forall f | f in list ensures f == FMS_VER_MEMBER || f == CAPABILITIES_MEMBER {
      OnlyTwo(list, f);
    }
    OwnFieldIsMember(ConnectObject(), 0, list, 0, FMS_VER_MEMBER);
    OwnFieldIsMember(ConnectObject(), 0, list, 1, CAPABILITIES_MEMBER);
    hide MembersOf, ConnectObject, Ascii, FMS_VER, CAPABILITIES;
    InIndexOrder(ConnectObject(), 0, list);
    TwoInOrder(list, FMS_VER_MEMBER, CAPABILITIES_MEMBER);
  }

  lemma OnlyTwo(list: seq<Field>, f: Field)
    requires MembersOf(ConnectObject(), 0, list) && f in list
    ensures f == FMS_VER_MEMBER || f == CAPABILITIES_MEMBER
  {
    hide MembersOf, Ascii;
    NamesDiffer();
    var u, i := MemberDeclared(ConnectObject(), 0, list, f);
    NothingEmbedded(f.index[..|f.index| - 1]);
    assert f.index == f.index[..|f.index| - 1] + [i] == [i];
  }

  lemma NamesDiffer()
    ensures Ascii("fmsVer") != [] && Ascii("capabilities") != [] && Ascii("fmsVer") != Ascii("capabilities")
  {
    assert |Ascii("fmsVer")| == 6 && |Ascii("capabilities")| == 12;
  }

  lemma NothingEmbedded(p: seq<nat>)
    requires Follow(ConnectObject(), 0, p).Some?
    ensures p == []
  {
    if p != [] {
      var t := StepEmbedded(ConnectObject(), 0, p, 0);
    }
  }

  lemma InIndexOrder(g: Graph, root: TypeId, list: seq<Field>)
    requires MembersOf(g, root, list)
    ensures Ordered(list)
  {
    hide ValidOrder, AllRecords;
    var order := OrderOf(g, root, list);
  }

  ghost predicate Ordered(list: seq<Field>) {
    forall i, j | 0 <= i < j < |list| :: Less(list[i].index, list[j].index)
  }

  lemma TwoInOrder(list: seq<Field>, a: Field, b: Field)
    requires a in list && b in list && (forall f | f in list :: f == a || f == b) && Less(a.index, b.index) && Ordered(list)
    ensures list == [a, b]
  {
    LessAsymmetric(a.index, b.index);
    assert |list| >= 2 && list[0] in list && list[1] in list;
    PairAt(list, a, b, 0, 1);
    if |list| > 2 {
      PairAt(list, a, b, 1, 2);
    }
  }

  lemma PairAt(list: seq<Field>, a: Field, b: Field, i: nat, j: nat)
    requires (forall f | f in list :: f == a || f == b) && Less(a.index, b.index) && Ordered(list) && i < j < |list|
    ensures list[i] == a && list[j] == b
  {
    LessAsymmetric(a.index, b.index);
    assert list[i] in list && list[j] in list && Less(list[i].index, list[j].index);
    if list[i] == list[j] {
      LessAsymmetric(list[i].index, list[j].index);
    }
  }

  /** A program whose type 0 is the object, type 1 a string and type 2 a uint32. */
  ghost predicate ConnectTypes(ts: Types) {
    && TypesOk(ts) && ts.graph == ConnectObject() && MembersOf(ts.graph, 0, ListOf(ts, 0))
    && ts.kinds(1) == StringKind(false) && ts.kinds(2) == WholeKind(Uint32)
  }

  lemma ConnectShaped(ts: Types, version: Bytes, capabilities: int)
    requires ConnectTypes(ts)
    ensures Shaped(ts, 0, Struct([Text(version), Whole(capabilities)]))
    ensures KindOf(ts, 1) == StringKind(false) && KindOf(ts, 2) == WholeKind(Uint32)
  {
    hide TypesOk, MembersOf;
  }

  /** A member that is not omitempty: length of the name, name, value. */
  lemma FieldWritten(ts: Types, t: TypeId, n: Node, i: nat, x: Node)
    requires TypesOk(ts) && Shaped(ts, t, n) && n.Struct? && i < |ListOf(ts, t)|
    requires var f := ListOf(ts, t)[i];
             !f.omitEmpty && f.index == [i] && i < |n.fields| && x == n.fields[i] && Shaped(ts, f.typ, x)
    ensures EncFields(ts, t, n, i)
         == Be(2, |ListOf(ts, t)[i].name|) + ListOf(ts, t)[i].name + EncNode(ts, ListOf(ts, t)[i].typ, x) + EncFields(ts, t, n, i + 1)
  {
    hide TypesOk, Shaped, Be, EncNode;
    FieldIn(ts, t, n, i);
    assert [i][1..] == [];
    assert Get(n, [i]) == x;
  }

  lemma ConnectFields(ts: Types, n: Node)
    requires TypesOk(ts) && Shaped(ts, 0, n) && n.Struct? && |n.fields| == 2
    requires ListOf(ts, 0) == [FMS_VER_MEMBER, CAPABILITIES_MEMBER] && Shaped(ts, 1, n.fields[0]) && Shaped(ts, 2, n.fields[1])
    ensures EncFields(ts, 0, n, 0)
         == [0, 6] + Ascii("fmsVer") + EncNode(ts, 1, n.fields[0])
            + ([0, 12] + Ascii("capabilities") + EncNode(ts, 2, n.fields[1]))
  {
    hide TypesOk, Shaped, Be, EncNode, EncFields, Ascii;
    FieldWritten(ts, 0, n, 0, n.fields[0]);
    FieldWritten(ts, 0, n, 1, n.fields[1]);
    NoFieldsLeft(ts, 0, n);
    NamesLong();
    var second := [0, 12] + Ascii("capabilities") + EncNode(ts, 2, n.fields[1]);
    assert second + [] == second;
  }

  /** What is on the wire: the names in the tags, in the order of the fields. */
  lemma ConnectEncoded(ts: Types, version: Bytes, capabilities: int)
    requires ConnectTypes(ts) && |version| < 0x1_0000
    ensures var n := Struct([Text(version), Whole(capabilities)]);
            && Shaped(ts, 0, n)
            && EncNode(ts, 0, n)
               == [3] + ([0, 6] + Ascii("fmsVer") + ([2, |version| / 256, |version| % 256] + version)
                         + ([0, 12] + Ascii("capabilities") + ([0] + Be(8, ts.numbers.ofInt(capabilities)))))
                  + [0, 0, 9]
  {
    var n := Struct([Text(version), Whole(capabilities)]);
    ConnectShaped(ts, version, capabilities);
    ConnectMembers(ListOf(ts, 0));
    ScalarsWritten(ts, version, capabilities);
    hide TypesOk, ConnectTypes, MembersOf, Be, EncNode, EncFields, Ascii;
    ConnectFields(ts, n);
    EncStruct(ts, 0, n);
  }

  lemma NamesLong()
    ensures Be(2, |Ascii("fmsVer")|) == [0, 6] && Be(2, |Ascii("capabilities")|) == [0, 12]
  {
    Be2(6);
    Be2(12);
    assert |Ascii("fmsVer")| == 6 && |Ascii("capabilities")| == 12;
  }

  lemma ScalarsWritten(ts: Types, version: Bytes, capabilities: int)
    requires TypesOk(ts) && KindOf(ts, 1) == StringKind(false) && KindOf(ts, 2) == WholeKind(Uint32) && |version| < 0x1_0000
    ensures EncNode(ts, 1, Text(version)) == [2, |version| / 256, |version| % 256] + version
    ensures EncNode(ts, 2, Whole(capabilities)) == [0] + Be(8, ts.numbers.ofInt(capabilities))
  {
    hide TypesOk, Be;
    Be2(|version|);
  }
}
