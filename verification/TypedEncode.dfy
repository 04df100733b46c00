/** amf/encode.go: the encoders of typed values, of structs, slices and maps of anything. */
module TypedEncode {
  import opened ByteCodec
  import opened AmfValue
  import opened AmfEncode
  import opened TypeGraph
  import opened TypedValues

  /** isEmptyValue. */
  predicate Empty(n: Node) {
    match n
    case Any(v) => v.Nil?
    case Text(s) => s == []
    case Flag(b) => !b
    case Real(bits) => bits == 0 || bits == 0x8000_0000_0000_0000
    case Whole(k) => k == 0
    case NilList => true
    case List(es) => es == []
    case NilDict => true
    case Dict(m) => m == map[]
    case Struct(_) => false
  }

  predicate Omitted(f: Field, n: Node) {
    f.omitEmpty && Empty(n)
  }

  ghost function EncNode(ts: Types, t: TypeId, n: Node): Bytes
    requires TypesOk(ts) && Shaped(ts, t, n)
    decreases n, 1
  {
    hide TypesOk, Shaped, Be, EncString;
    PartsShaped(ts, t, n);
    match n
    case Any(v) => Enc(v)
    case Text(s) => EncString(s)
    case Flag(b) => [BOOLEAN_MARKER, if b then 1 else 0]
    case Real(bits) => [NUMBER_MARKER] + Be(8, bits)
    case Whole(k) => [NUMBER_MARKER] + Be(8, ts.numbers.ofInt(k))
    case NilList => [NULL_MARKER]
    case List(es) =>
      if es == [] then [UNDEFINED_MARKER]
      else [STRICT_ARRAY_MARKER] + Be(4, |es|) + EncItems(ts, ElemOf(ts, t), n, 0)
    case NilDict => [NULL_MARKER]
    case Dict(m) =>
      SortedKeysMembers(m.Keys);
      [OBJECT_MARKER] + EncEntries(ts, ElemOf(ts, t), n, SortedKeys(m.Keys)) + OBJECT_END
    case Struct(_) =>
      StructKnown(ts, t, n);
      [OBJECT_MARKER] + EncFields(ts, t, n, 0) + OBJECT_END
  }

  lemma StructKnown(ts: Types, t: TypeId, n: Node)
    requires TypesOk(ts) && Shaped(ts, t, n) && n.Struct?
    ensures KindOf(ts, t).StructKind? && t in ts.members
  {
    StructIn(ts, t);
    hide TypesOk, MembersKnown;
  }

  lemma EncStruct(ts: Types, t: TypeId, n: Node)
    requires TypesOk(ts) && Shaped(ts, t, n) && n.Struct?
    ensures t in ts.members && EncNode(ts, t, n) == [OBJECT_MARKER] + EncFields(ts, t, n, 0) + OBJECT_END
  {
    hide TypesOk, Shaped;
    StructKnown(ts, t, n);
  }

  lemma PartsShaped(ts: Types, t: TypeId, n: Node)
    requires Shaped(ts, t, n)
    ensures n.List? ==> forall j | 0 <= j < |n.elems| :: Shaped(ts, ElemOf(ts, t), n.elems[j])
    ensures n.Dict? ==> forall k | k in n.members :: Shaped(ts, ElemOf(ts, t), n.members[k])
  {
  }

  /** The element type of a slice or map type. */
  function ElemOf(ts: Types, t: TypeId): TypeId {
    match KindOf(ts, t)
    case SliceKind(e) => e
    case MapKind(e) => e
    case _ => t
  }

  /** The elements from position i on. */
  ghost function EncItems(ts: Types, e: TypeId, n: Node, i: nat): Bytes
    requires TypesOk(ts) && n.List? && i <= |n.elems|
    requires forall j | 0 <= j < |n.elems| :: Shaped(ts, e, n.elems[j])
    decreases n, 0, |n.elems| - i
  {
    if i == |n.elems| then [] else EncNode(ts, e, n.elems[i]) + EncItems(ts, e, n, i + 1)
  }

  ghost function EncEntries(ts: Types, e: TypeId, n: Node, names: seq<Bytes>): Bytes
    requires TypesOk(ts) && n.Dict? && (forall k | k in names :: k in n.members)
    requires forall k | k in n.members :: Shaped(ts, e, n.members[k])
    decreases n, 0, |names|
  {
    if names == [] then []
    else Be(2, |names[0]|) + names[0] + EncNode(ts, e, n.members[names[0]]) + EncEntries(ts, e, n, names[1..])
  }

  /** The members from position i on, empty ones left out where the field says so. */
  ghost function EncFields(ts: Types, t: TypeId, n: Node, i: nat): Bytes
    requires TypesOk(ts) && Shaped(ts, t, n) && n.Struct? && i <= |ListOf(ts, t)|
    decreases n, 0, |ListOf(ts, t)| - i
  {
    hide TypesOk, Shaped;
    if i == |ListOf(ts, t)| then []
    else
      var f := ListOf(ts, t)[i];
      FieldIn(ts, t, n, i);
      var x := Get(n, f.index);
      (if Omitted(f, x) then [] else Be(2, |f.name|) + f.name + EncNode(ts, f.typ, x)) + EncFields(ts, t, n, i + 1)
  }

  lemma FieldIn(ts: Types, t: TypeId, n: Node, i: nat)
    requires TypesOk(ts) && Shaped(ts, t, n) && n.Struct? && i < |ListOf(ts, t)|
    ensures KindOf(ts, t).StructKind? && MembersKnown(ts, t) && ListOf(ts, t)[i] in ListOf(ts, t)
    ensures var f := ListOf(ts, t)[i];
            PathIn(n, f.index) && Shaped(ts, f.typ, Get(n, f.index)) && (n decreases to Get(n, f.index))
  {
    assert KindOf(ts, t).StructKind?;
    hide Shaped;
    StructIn(ts, t);
    hide TypesOk, MembersKnown;
    MemberIn(ts, t, n, ListOf(ts, t)[i]);
  }

  // ---- Into the buffer

  /** The dispatch of newTypeEncoder. */
  method EncodeNode(e: EncodeState, ts: Types, t: TypeId, n: Node)
    requires TypesOk(ts) && Shaped(ts, t, n)
    modifies e
    ensures e.buf == old(e.buf) + EncNode(ts, t, n)
    decreases n, 3
  {
    match n {
      case Any(v) => e.ReflectValue(v);
      case Text(s) => e.EncodeString(s);
      case Flag(b) => e.EncodeBool(b);
      case Real(bits) => e.EncodeFloat64(bits);
      case Whole(k) => e.EncodeFloat64(ts.numbers.ofInt(k));
      case NilList => e.EncodeNull();
      case List(_) => EncodeList(e, ts, t, n);
      case NilDict => e.EncodeNull();
      case Dict(_) => EncodeDict(e, ts, t, n);
      case Struct(_) => EncodeStruct(e, ts, t, n);
    }
  }

  method EncodeList(e: EncodeState, ts: Types, t: TypeId, n: Node)
    requires TypesOk(ts) && Shaped(ts, t, n) && n.List?
    modifies e
    ensures e.buf == old(e.buf) + EncNode(ts, t, n)
    decreases n, 2
  {
    hide TypesOk, Shaped, Be;
    PartsShaped(ts, t, n);
    if |n.elems| == 0 {
      e.EncodeMarker(UNDEFINED_MARKER);
      return;
    }
    ghost var start := e.buf;
    e.EncodeMarker(STRICT_ARRAY_MARKER);
    e.EncodeUint(4, |n.elems|);
    Concat4(start, [STRICT_ARRAY_MARKER], Be(4, |n.elems|), EncItems(ts, ElemOf(ts, t), n, 0));
    for i := 0 to |n.elems|
      invariant e.buf + EncItems(ts, ElemOf(ts, t), n, i) == start + EncNode(ts, t, n)
    {
      Concat3(e.buf, EncNode(ts, ElemOf(ts, t), n.elems[i]), EncItems(ts, ElemOf(ts, t), n, i + 1));
      EncodeNode(e, ts, ElemOf(ts, t), n.elems[i]);
    }
  }

  method EncodeDict(e: EncodeState, ts: Types, t: TypeId, n: Node)
    requires TypesOk(ts) && Shaped(ts, t, n) && n.Dict?
    modifies e
    ensures e.buf == old(e.buf) + EncNode(ts, t, n)
    decreases n, 2
  {
    hide TypesOk;
    ghost var start := e.buf;
    var sv := SortedNames(n.members.Keys);
    ghost var names := sv[..];
    SortedKeysMembers(n.members.Keys);
    e.EncodeMarker(OBJECT_MARKER);
    EncodeEntries(e, ts, ElemOf(ts, t), n, sv);
    e.EncodeEnd();
    Concat4(start, [OBJECT_MARKER], EncEntries(ts, ElemOf(ts, t), n, names), OBJECT_END);
  }

  method EncodeEntries(e: EncodeState, ts: Types, u: TypeId, n: Node, sv: array<Bytes>)
    requires TypesOk(ts) && n.Dict? && (forall k | k in sv[..] :: k in n.members)
    requires forall k | k in n.members :: Shaped(ts, u, n.members[k])
    modifies e
    ensures e.buf == old(e.buf) + EncEntries(ts, u, n, sv[..])
    decreases n, 1
  {
    ghost var start, names := e.buf, sv[..];
    for i := 0 to sv.Length
      invariant sv[..] == names
      invariant e.buf + EncEntries(ts, u, n, names[i..]) == start + EncEntries(ts, u, n, names)
    {
      hide TypesOk, Shaped, Be;
      EntriesStep(ts, u, n, names, i, e.buf);
      EncodeEntry(e, ts, u, n, sv[i]);
    }
    assert names[sv.Length..] == [];
  }

  method EncodeEntry(e: EncodeState, ts: Types, u: TypeId, n: Node, name: Bytes)
    requires TypesOk(ts) && n.Dict? && name in n.members && Shaped(ts, u, n.members[name])
    modifies e
    ensures e.buf == old(e.buf) + (Be(2, |name|) + name + EncNode(ts, u, n.members[name]))
    decreases n, 0
  {
    hide TypesOk, Shaped, EncNode;
    ghost var start := e.buf;
    e.EncodeObjectName(name);
    EncodeNode(e, ts, u, n.members[name]);
    Concat4(start, Be(2, |name|), name, EncNode(ts, u, n.members[name]));
  }

  lemma EntriesStep(ts: Types, u: TypeId, n: Node, names: seq<Bytes>, i: nat, before: Bytes)
    requires TypesOk(ts) && n.Dict? && (forall k | k in names :: k in n.members) && i < |names|
    requires forall k | k in n.members :: Shaped(ts, u, n.members[k])
    ensures before + EncEntries(ts, u, n, names[i..])
         == (before + (Be(2, |names[i]|) + names[i] + EncNode(ts, u, n.members[names[i]]))) + EncEntries(ts, u, n, names[i + 1..])
  {
    hide TypesOk, Shaped, EncNode, Be;
    assert names[i..][1..] == names[i + 1..];
    Concat3(before, Be(2, |names[i]|) + names[i] + EncNode(ts, u, n.members[names[i]]), EncEntries(ts, u, n, names[i + 1..]));
  }

  /** structEncoder.encode: each member at the end of its index path. */
  method EncodeStruct(e: EncodeState, ts: Types, t: TypeId, n: Node)
    requires TypesOk(ts) && Shaped(ts, t, n) && n.Struct?
    modifies e
    ensures e.buf == old(e.buf) + EncNode(ts, t, n)
    decreases n, 2
  {
    hide TypesOk, Shaped, EncNode, EncFields;
    EncStruct(ts, t, n);
    ghost var start := e.buf;
    e.EncodeMarker(OBJECT_MARKER);
    for i := 0 to |ListOf(ts, t)|
      invariant e.buf + EncFields(ts, t, n, i) == (start + [OBJECT_MARKER]) + EncFields(ts, t, n, 0)
    {
      EncodeField(e, ts, t, n, i);
    }
    NoFieldsLeft(ts, t, n);
    assert e.buf + [] == e.buf;
    e.EncodeEnd();
    assert e.buf == (start + [OBJECT_MARKER] + EncFields(ts, t, n, 0)) + OBJECT_END;
    Concat4(start, [OBJECT_MARKER], EncFields(ts, t, n, 0), OBJECT_END);
  }

  lemma NoFieldsLeft(ts: Types, t: TypeId, n: Node)
    requires TypesOk(ts) && Shaped(ts, t, n) && n.Struct?
    ensures EncFields(ts, t, n, |ListOf(ts, t)|) == []
  {
  }

  method EncodeField(e: EncodeState, ts: Types, t: TypeId, n: Node, i: nat)
    requires TypesOk(ts) && Shaped(ts, t, n) && n.Struct? && i < |ListOf(ts, t)|
    modifies e
    ensures e.buf + EncFields(ts, t, n, i + 1) == old(e.buf) + EncFields(ts, t, n, i)
    decreases n, 1
  {
    hide TypesOk, Shaped, MembersKnown, EncNode, Be;
    ghost var start, tail := e.buf, EncFields(ts, t, n, i + 1);
    FieldIn(ts, t, n, i);
    var f := ListOf(ts, t)[i];
    var fv := Get(n, f.index);
    if Omitted(f, fv) {
      assert [] + tail == tail;
      return;
    }
    e.EncodeObjectName(f.name);
    EncodeNode(e, ts, f.typ, fv);
    Concat4(start, Be(2, |f.name|), f.name, EncNode(ts, f.typ, fv));
    Concat3(start, Be(2, |f.name|) + f.name + EncNode(ts, f.typ, fv), tail);
  }
}
