/** amf/encode.go: a recursive printer that appends to the buffer of an encodeState. */
module AmfEncode {
  import opened ByteCodec
  import opened Sorting
  import opened AmfValue

  const OBJECT_END: Bytes := [0, 0, OBJECT_END_MARKER]

  /** The bytes of a value (AMF 0 File Format Specification, sections 2.2 to 2.14). */
  ghost function Enc(v: Value): Bytes
    decreases v, 1
  {
    match v
    case Nil => [NULL_MARKER]
    case NilSlice => [NULL_MARKER]
    case NilMap => [NULL_MARKER]
    case Bool(b) => [BOOLEAN_MARKER, if b then 1 else 0]
    case Number(bits) => [NUMBER_MARKER] + Be(8, bits)
    case Str(s) => EncString(s)
    case Slice(es) =>
      if es == [] then [UNDEFINED_MARKER]
      else [STRICT_ARRAY_MARKER] + Be(4, |es|) + EncElems(v, 0)
    case Object(m) =>
      SortedKeysMembers(m.Keys);
      [OBJECT_MARKER] + EncMembers(v, SortedKeys(m.Keys)) + OBJECT_END
  }

  function EncString(s: Bytes): Bytes {
    if |s| > LONG_STRING_SIZE then [LONG_STRING_MARKER] + Be(4, |s|) + s
    else [STRING_MARKER] + Be(2, |s|) + s
  }

  /** The elements from position i on. */
  ghost function EncElems(v: Value, i: nat): Bytes
    requires v.Slice? && i <= |v.elems|
    decreases v, 0, |v.elems| - i
  {
    if i == |v.elems| then [] else Enc(v.elems[i]) + EncElems(v, i + 1)
  }

  /** The members with the given names: name, then value. */
  ghost function EncMembers(v: Value, names: seq<Bytes>): Bytes
    requires v.Object? && forall k | k in names :: k in v.fields
    decreases v, 0, |names| + 1
  {
    if names == [] then []
    else EncMember(v, names[0]) + EncMembers(v, names[1..])
  }

  ghost function EncMember(v: Value, name: Bytes): Bytes
    requires v.Object? && name in v.fields
    decreases v, 0, 0
  {
    Be(2, |name|) + name + Enc(v.fields[name])
  }

  lemma EncMembersStep(v: Value, names: seq<Bytes>, i: nat, before: Bytes)
    requires v.Object? && (forall k | k in names :: k in v.fields) && i < |names|
    ensures before + EncMembers(v, names[i..])
         == (before + EncMember(v, names[i])) + EncMembers(v, names[i + 1..])
  {
    assert names[i..][1..] == names[i + 1..];
    Concat3(before, EncMember(v, names[i]), EncMembers(v, names[i + 1..]));
  }

  class EncodeState {
    var buf: Bytes

    constructor ()
      ensures buf == []
    {
      buf := [];
    }

    method Write(p: Bytes)
      modifies this
      ensures buf == old(buf) + p
    {
      buf := buf + p;
    }

    method EncodeMarker(m: byte)
      modifies this
      ensures buf == old(buf) + [m]
    {
      buf := buf + [m];
    }

    method EncodeUint(width: nat, n: nat)
      modifies this
      ensures buf == old(buf) + Be(width, n)
    {
      buf := buf + Be(width, n);
    }

    method EncodeObjectName(s: Bytes)
      modifies this
      ensures buf == old(buf) + Be(2, |s|) + s
    {
      EncodeUint(2, |s|);
      Write(s);
    }

    method EncodeString(s: Bytes)
      modifies this
      ensures buf == old(buf) + EncString(s)
    {
      ghost var start := buf;
      if |s| > LONG_STRING_SIZE {
        EncodeMarker(LONG_STRING_MARKER);
        EncodeUint(4, |s|);
        Concat4(start, [LONG_STRING_MARKER], Be(4, |s|), s);
      } else {
        EncodeMarker(STRING_MARKER);
        EncodeUint(2, |s|);
        Concat4(start, [STRING_MARKER], Be(2, |s|), s);
      }
      Write(s);
    }

    method EncodeBool(b: bool)
      modifies this
      ensures buf == old(buf) + Enc(Bool(b))
    {
      EncodeMarker(BOOLEAN_MARKER);
      if b {
        EncodeMarker(1);
      } else {
        EncodeMarker(0);
      }
    }

    method EncodeFloat64(bits: uint64)
      modifies this
      ensures buf == old(buf) + Enc(Number(bits))
    {
      EncodeMarker(NUMBER_MARKER);
      EncodeUint(8, bits);
    }

    method EncodeNull()
      modifies this
      ensures buf == old(buf) + [NULL_MARKER]
    {
      EncodeMarker(NULL_MARKER);
    }

    /** The dispatch of reflectValue on what the interface holds. */
    method ReflectValue(v: Value)
      modifies this
      ensures buf == old(buf) + Enc(v)
      decreases v, 2
    {
      match v {
        case Nil => EncodeNull();
        case Bool(b) => EncodeBool(b);
        case Number(bits) => EncodeFloat64(bits);
        case Str(s) => EncodeString(s);
        case NilSlice => EncodeSlice(v);
        case Slice(_) => EncodeSlice(v);
        case NilMap => EncodeMap(v);
        case Object(_) => EncodeMap(v);
      }
    }

    method EncodeMap(v: Value)
      requires v.NilMap? || v.Object?
      modifies this
      ensures buf == old(buf) + Enc(v)
      decreases v, 1
    {
      if v.NilMap? {
        EncodeNull();
        return;
      }
      ghost var start := buf;
      var sv := SortedNames(v.fields.Keys);
      ghost var names := sv[..];
      SortedKeysMembers(v.fields.Keys);
      EncodeMarker(OBJECT_MARKER);
      EncodeMembers(v, sv);
      EncodeEnd();
      Concat4(start, [OBJECT_MARKER], EncMembers(v, names), OBJECT_END);
    }

    /** The member loop. */
    method EncodeMembers(v: Value, sv: array<Bytes>)
      requires v.Object? && forall k | k in sv[..] :: k in v.fields
      modifies this
      ensures buf == old(buf) + EncMembers(v, sv[..])
      decreases v, 0, 1
    {
      ghost var start := buf;
      ghost var names := sv[..];
      for i := 0 to sv.Length
        invariant sv[..] == names
        invariant buf + EncMembers(v, names[i..]) == start + EncMembers(v, names)
      {
        EncMembersStep(v, names, i, buf);
        EncodeMember(v, sv[i]);
      }
      assert names[sv.Length..] == [];
    }

    method EncodeMember(v: Value, name: Bytes)
      requires v.Object? && name in v.fields
      modifies this
      ensures buf == old(buf) + EncMember(v, name)
      decreases v, 0, 0
    {
      ghost var start := buf;
      EncodeObjectName(name);
      ReflectValue(v.fields[name]);
      Concat4(start, Be(2, |name|), name, Enc(v.fields[name]));
    }

    method EncodeEnd()
      modifies this
      ensures buf == old(buf) + OBJECT_END
    {
      EncodeObjectName([]);
      EncodeMarker(OBJECT_END_MARKER);
      assert Be(2, 0) == [0, 0];
    }

    method EncodeSlice(v: Value)
      requires v.NilSlice? || v.Slice?
      modifies this
      ensures buf == old(buf) + Enc(v)
      decreases v, 1
    {
      if v.NilSlice? {
        EncodeNull();
        return;
      }
      EncodeArray(v);
    }

    method EncodeArray(v: Value)
      requires v.Slice?
      modifies this
      ensures buf == old(buf) + Enc(v)
      decreases v, 0
    {
      if |v.elems| == 0 {
        EncodeMarker(UNDEFINED_MARKER);
        return;
      }
      ghost var start := buf;
      EncodeMarker(STRICT_ARRAY_MARKER);
      EncodeUint(4, |v.elems|);
      Concat4(start, [STRICT_ARRAY_MARKER], Be(4, |v.elems|), EncElems(v, 0));
      for i := 0 to |v.elems|
        invariant buf + EncElems(v, i) == start + Enc(v)
      {
        Concat3(buf, Enc(v.elems[i]), EncElems(v, i + 1));
        ReflectValue(v.elems[i]);
      }
    }
  }

  /** reflect.Value.MapKeys: the keys, in no particular order. */
  method MapKeys(ks: set<Bytes>) returns (r: seq<Bytes>)
    ensures multiset(r) == multiset(ks)
  {
    r := [];
    var left := ks;
    while left != {}
      invariant multiset(r) + multiset(left) == multiset(ks)
      decreases left
    {
      var k :| k in left;
      assert left == (left - {k}) + {k};
      left, r := left - {k}, r + [k];
    }
  }

  /** The sorted key list sv of mapEncoder.encode. */
  method SortedNames(ks: set<Bytes>) returns (sv: array<Bytes>)
    ensures fresh(sv) && sv[..] == SortedKeys(ks) && multiset(sv[..]) == multiset(ks)
    ensures forall i, j | 0 <= i < j < sv.Length :: Less(sv[i], sv[j])
  {
    var keys := MapKeys(ks);
    sv := new Bytes[|keys|](i requires 0 <= i < |keys| => keys[i]);
    assert sv[..] == keys;
    KeyLessIsOrder();
    SortInPlace(KeyLess, sv);
    SortedKeysUnique(ks, sv[..]);
    SortedKeysAscend(ks);
  }

  method Marshal(v: Value) returns (b: Bytes)
    ensures b == Enc(v)
  {
    var e := new EncodeState();
    e.ReflectValue(v);
    b := e.buf;
  }
}
