/** The round trip of typed values: structs of anything, in anything. */
module StructCodec {
  import opened ByteCodec
  import opened Results
  import opened AmfValue
  import opened AmfEncode
  import opened AmfDecode
  import opened AmfRoundTrip
  import opened TypeGraph
  import opened TypeFields
  import opened TypedValues
  import opened TypedEncode
  import opened TypedDecode

  // ---- What comes back

  /** What a zero variable of type t holds after n was encoded and decoded into it: empty
      slices are nil, interfaces hold normal forms, structs have their members and are zero
      elsewhere. */
  ghost function Rebuilt(ts: Types, t: TypeId, n: Node): (r: Node)
    requires TypesOk(ts) && Shaped(ts, t, n)
    ensures Shaped(ts, t, r)
    decreases n, 1
  {
    hide TypesOk, Visible;
    PartsShaped(ts, t, n);
    match n
    case Any(v) => Any(Norm(v))
    case List(es) => if es == [] then NilList else List(RebuiltItems(ts, ElemOf(ts, t), n, 0))
    case Dict(m) => Dict(map k | k in m :: Rebuilt(ts, ElemOf(ts, t), m[k]))
    case Struct(_) =>
      StructKnown(ts, t, n);
      RebuiltFields(ts, t, n, |ListOf(ts, t)|)
    case _ => n
  }

  ghost function RebuiltItems(ts: Types, e: TypeId, n: Node, i: nat): (r: seq<Node>)
    requires TypesOk(ts) && n.List? && i <= |n.elems| && forall j | 0 <= j < |n.elems| :: Shaped(ts, e, n.elems[j])
    ensures |r| == |n.elems| - i && forall j | 0 <= j < |r| :: Shaped(ts, e, r[j]) && r[j] == Rebuilt(ts, e, n.elems[i + j])
    decreases n, 0, |n.elems| - i
  {
    hide TypesOk, Shaped;
    if i == |n.elems| then [] else [Rebuilt(ts, e, n.elems[i])] + RebuiltItems(ts, e, n, i + 1)
  }

  /** What member f of a struct comes back as. */
  ghost function RebuiltField(ts: Types, f: Field, x: Node): (r: Node)
    requires TypesOk(ts) && Shaped(ts, f.typ, x)
    ensures Shaped(ts, f.typ, r)
    decreases x, 2
  {
    ZeroShaped(ts, f.typ);
    hide *;
    if Omitted(f, x) then ZeroOf(ts, f.typ) else Rebuilt(ts, f.typ, x)
  }

  /** Member i of n. */
  ghost function MemberAt(ts: Types, t: TypeId, n: Node, i: nat): (x: Node)
    requires TypesOk(ts) && Shaped(ts, t, n) && n.Struct? && i < |ListOf(ts, t)|
    ensures Shaped(ts, ListOf(ts, t)[i].typ, x) && (n decreases to x)
  {
    hide *;
    FieldIn(ts, t, n, i);
    Get(n, ListOf(ts, t)[i].index)
  }

  /** m with its member i set to x. */
  ghost function WithMember(ts: Types, t: TypeId, m: Node, i: nat, x: Node): (r: Node)
    requires TypesOk(ts) && Shaped(ts, t, m) && m.Struct? && i < |ListOf(ts, t)|
    requires Shaped(ts, ListOf(ts, t)[i].typ, x)
    ensures Shaped(ts, t, r) && r.Struct?
  {
    FieldIn(ts, t, m, i);
    SetMember(ts, t, m, ListOf(ts, t)[i], x);
    StructStays(ts, t, Set(m, ListOf(ts, t)[i].index, x));
    hide *;
    Set(m, ListOf(ts, t)[i].index, x)
  }

  lemma StructStays(ts: Types, t: TypeId, n: Node)
    ensures KindOf(ts, t).StructKind? && Shaped(ts, t, n) ==> n.Struct?
  {
  }

  /** The zero struct with the first i members of n in it. */
  ghost function RebuiltFields(ts: Types, t: TypeId, n: Node, i: nat): (r: Node)
    requires TypesOk(ts) && Shaped(ts, t, n) && n.Struct? && i <= |ListOf(ts, t)|
    ensures Shaped(ts, t, r) && r.Struct?
    decreases n, 0, i
  {
    hide *;
    ZeroStructIn(ts, t, n);
    if i == 0 then ZeroOf(ts, t)
    else WithMember(ts, t, RebuiltFields(ts, t, n, i - 1), i - 1, RebuiltMember(ts, t, n, i - 1))
  }

  ghost function RebuiltMember(ts: Types, t: TypeId, n: Node, i: nat): (r: Node)
    requires TypesOk(ts) && Shaped(ts, t, n) && n.Struct? && i < |ListOf(ts, t)|
    ensures Shaped(ts, ListOf(ts, t)[i].typ, r)
    decreases n, 0, i
  {
    hide *;
    RebuiltField(ts, ListOf(ts, t)[i], MemberAt(ts, t, n, i))
  }

  lemma ZeroStructIn(ts: Types, t: TypeId, n: Node)
    requires TypesOk(ts) && Shaped(ts, t, n) && n.Struct?
    ensures Shaped(ts, t, ZeroOf(ts, t)) && ZeroOf(ts, t).Struct?
  {
    ZeroShaped(ts, t);
    StructKnown(ts, t, n);
    StructStays(ts, t, ZeroOf(ts, t));
    hide *;
  }

  /** Numbers, strings and names fit their fields on the wire. */
  ghost predicate Codable(ts: Types, t: TypeId, n: Node)
    requires TypesOk(ts) && Shaped(ts, t, n)
    decreases n, 1
  {
    hide TypesOk, Visible;
    PartsShaped(ts, t, n);
    match n
    case Any(v) => Encodable(v)
    case Text(s) => |s| < 0x1_0000_0000
    case Real(bits) => KindOf(ts, t) == FloatKind(true) ==> ts.numbers.narrow(bits) == bits
    case Whole(k) => KindOf(ts, t).WholeKind? ==> KindOf(ts, t).width != Uintptr && ts.numbers.toInt(KindOf(ts, t).width, ts.numbers.ofInt(k)) == k
    case List(es) => |es| < 0x1_0000_0000 && forall i | 0 <= i < |es| :: Codable(ts, ElemOf(ts, t), es[i])
    case Dict(m) => forall k | k in m :: NameOk(k) && Codable(ts, ElemOf(ts, t), m[k])
    case Struct(_) =>
      StructKnown(ts, t, n);
      CodableFields(ts, t, n, |ListOf(ts, t)|)
    case _ => true
  }

  ghost predicate CodableFields(ts: Types, t: TypeId, n: Node, i: nat)
    requires TypesOk(ts) && Shaped(ts, t, n) && n.Struct? && i <= |ListOf(ts, t)|
    decreases n, 0, i
  {
    hide *;
    i == 0 || (CodableField(ts, ListOf(ts, t)[i - 1], MemberAt(ts, t, n, i - 1)) && CodableFields(ts, t, n, i - 1))
  }

  /** A member that is left out need not fit. */
  ghost predicate CodableField(ts: Types, f: Field, x: Node)
    requires TypesOk(ts) && Shaped(ts, f.typ, x)
    decreases x, 2
  {
    hide *;
    Omitted(f, x) || (NameOk(f.name) && Codable(ts, f.typ, x))
  }

  /** The encoding of n has an empty string as its last item. */
  predicate EndsInEmpty(n: Node) {
    match n
    case Any(v) => EndsInEmptyString(v)
    case Text(s) => s == []
    case List(es) => es != [] && EndsInEmpty(es[|es| - 1])
    case _ => false
  }

  // ---- Scalars and interfaces

  /** value on an interface variable that holds nil, and value on a nil interface. */
  lemma AnyAgrees(ts: Types, t: TypeId, s: Bytes, errs: Errors)
    requires TypesOk(ts) && KindOf(ts, t).AnyKind?
    ensures ReadInto(ts, To(t, Any(Nil)), s, errs)
            == match ReadInterface(s)
               case Got(v, rest) => Stored(To(t, Any(v)), rest, errs)
               case Returned => Failed(errs.within)
               case Panicked => Broke
  {
    hide TypesOk, FromBe, ParseObject, ParseArray, TakeBytes, TakeUint;
  }

  /** A map of values as one of interfaces. */
  function Interfaces(m: map<Bytes, Value>): map<Bytes, Node> {
    map k | k in m :: Any(m[k])
  }

  /** object on a map of interfaces, and object on a map of string to interface. */
  lemma {:induction false} MapAgrees(ts: Types, e: TypeId, m: map<Bytes, Value>, s: Bytes, errs: Errors)
    requires TypesOk(ts) && KindOf(ts, e).AnyKind?
    ensures match ReadMap(s, m)
            case Got(v, rest) => v.Object? && ReadDict(ts, e, Interfaces(m), s, errs) == Stored(Interfaces(v.fields), rest, errs)
            case Returned => ReadDict(ts, e, Interfaces(m), s, errs) == Failed(errs.within)
            case Panicked => ReadDict(ts, e, Interfaces(m), s, errs).Broke?
    decreases |s|
  {
    hide TypesOk, ReadInto, ReadInterface, ParseName;
    NameProgress(s);
    var p := ParseName(s);
    if p.Done? && p.value != [] {
      AnyAgrees(ts, e, p.rest, errs);
      ReadInterfaceProgress(p.rest);
      var r := ReadInterface(p.rest);
      if r.Got? {
        assert Interfaces(m[p.value := r.value]) == Interfaces(m)[p.value := Any(r.value)];
        MapAgrees(ts, e, m[p.value := r.value], r.rest, errs);
      }
    }
  }

  lemma RoundTripAny(ts: Types, t: TypeId, v: Value, rest: Bytes, errs: Errors)
    requires TypesOk(ts) && KindOf(ts, t).AnyKind? && Encodable(v) && (rest != [] || !EndsInEmptyString(v))
    ensures ReadInto(ts, To(t, Any(Nil)), Enc(v) + rest, errs) == Stored(To(t, Any(Norm(v))), rest, errs)
  {
    hide *;
    AnyAgrees(ts, t, Enc(v) + rest, errs);
    RoundTrip(v, rest);
    DecodersAgree(Enc(v) + rest);
  }

  lemma ReadText(ts: Types, t: TypeId, s: Bytes, rest: Bytes, errs: Errors)
    requires TypesOk(ts) && KindOf(ts, t).StringKind? && |s| < 0x1_0000_0000 && s + rest != []
    ensures ReadInto(ts, To(t, Text([])), EncString(s) + rest, errs) == Stored(To(t, Text(s)), rest, errs)
  {
    hide TypesOk, Be, FromBe, ParseString, EncString;
    Widths();
    var width := if |s| > LONG_STRING_SIZE then 4 else 2;
    var m: byte := if |s| > LONG_STRING_SIZE then LONG_STRING_MARKER else STRING_MARKER;
    StringBytes(s, rest);
    ParseStringOfString(width, s, rest);
    assert ([m] + (Be(width, |s|) + (s + rest)))[1..] == Be(width, |s|) + (s + rest);
  }

  lemma StringBytes(s: Bytes, rest: Bytes)
    ensures EncString(s) + rest
         == if |s| > LONG_STRING_SIZE then [LONG_STRING_MARKER] + (Be(4, |s|) + (s + rest))
            else [STRING_MARKER] + (Be(2, |s|) + (s + rest))
  {
    Concat4([LONG_STRING_MARKER], Be(4, |s|), s, rest);
    Concat4([STRING_MARKER], Be(2, |s|), s, rest);
    Concat3(Be(4, |s|), s, rest);
    Concat3(Be(2, |s|), s, rest);
  }

  lemma ReadNumber(ts: Types, tg: Target, bits: uint64, rest: Bytes, errs: Errors)
    requires TypesOk(ts) && Fits(ts, tg)
    ensures ReadInto(ts, tg, [NUMBER_MARKER] + Be(8, bits) + rest, errs) == StoreNumber(ts, tg, bits, rest, errs)
  {
    hide TypesOk, Be, FromBe, Fits, StoreNumber;
    Widths();
    Concat3([NUMBER_MARKER], Be(8, bits), rest);
    var t := Be(8, bits) + rest;
    assert ([NUMBER_MARKER] + t)[1..] == t;
    FromBeOfBe(8, bits);
    assert t[..8] == Be(8, bits) && t[8..] == rest;
  }

  lemma ReadFlag(ts: Types, t: TypeId, b: bool, rest: Bytes, errs: Errors)
    requires TypesOk(ts) && KindOf(ts, t).BoolKind?
    ensures ReadInto(ts, To(t, Flag(false)), [BOOLEAN_MARKER, if b then 1 else 0] + rest, errs) == Stored(To(t, Flag(b)), rest, errs)
  {
    hide TypesOk;
    var s := [BOOLEAN_MARKER, if b then 1 else 0] + rest;
    assert s[1..][1..] == rest;
  }

  lemma ReadSingle(ts: Types, tg: Target, m: byte, rest: Bytes, errs: Errors)
    requires TypesOk(ts) && Fits(ts, tg)
    ensures m == NULL_MARKER ==> ReadInto(ts, tg, [m] + rest, errs) == StoreNull(ts, tg, rest, errs)
    ensures m == UNDEFINED_MARKER ==> ReadInto(ts, tg, [m] + rest, errs) == Stored(tg, rest, errs)
  {
    hide TypesOk, Fits, StoreNull;
    assert ([m] + rest)[1..] == rest;
  }

  lemma ReadStrict(ts: Types, tg: Target, n: nat, body: Bytes, errs: Errors)
    requires TypesOk(ts) && Fits(ts, tg) && n < 0x1_0000_0000
    ensures ReadInto(ts, tg, [STRICT_ARRAY_MARKER] + (Be(4, n) + body), errs) == ReadArray(ts, tg, n, body, errs)
  {
    hide TypesOk, Fits, Be, FromBe, ReadArray;
    Widths();
    TakeUintOfBe(4, n, body);
    assert ([STRICT_ARRAY_MARKER] + (Be(4, n) + body))[1..] == Be(4, n) + body;
  }

  lemma ReadObjectMarked(ts: Types, tg: Target, body: Bytes, errs: Errors)
    requires TypesOk(ts) && Fits(ts, tg)
    ensures ReadInto(ts, tg, [OBJECT_MARKER] + body, errs) == ReadObject(ts, tg, body, errs)
  {
    hide TypesOk, Fits, ReadObject;
    assert ([OBJECT_MARKER] + body)[1..] == body;
  }

  // ---- Round trip

  /** Decoding what was encoded of n into a zero variable of its type stores what n is
      rebuilt as, puts no error aside, and leaves what follows. */
  lemma {:induction false} RoundTripNode(ts: Types, t: TypeId, n: Node, rest: Bytes, errs: Errors)
    requires TypesOk(ts) && Shaped(ts, t, n) && Codable(ts, t, n) && (rest != [] || !EndsInEmpty(n))
    ensures Fits(ts, To(t, ZeroOf(ts, t)))
    ensures ReadInto(ts, To(t, ZeroOf(ts, t)), EncNode(ts, t, n) + rest, errs)
         == Stored(To(t, Rebuilt(ts, t, n)), rest, errs)
    decreases n, 3
  {
    hide TypesOk, ReadInto, EncString, Be, Enc;
    ZeroShaped(ts, t);
    match n {
      case Any(v) => RoundTripAny(ts, t, v, rest, errs);
      case Text(s) => ReadText(ts, t, s, rest, errs);
      case Flag(b) => ReadFlag(ts, t, b, rest, errs);
      case Real(bits) => ReadNumber(ts, To(t, Real(0)), bits, rest, errs);
      case Whole(k) => ReadNumber(ts, To(t, Whole(0)), ts.numbers.ofInt(k), rest, errs);
      case NilList => ReadSingle(ts, To(t, NilList), NULL_MARKER, rest, errs);
      case List(es) =>
        if es == [] {
          ReadSingle(ts, To(t, NilList), UNDEFINED_MARKER, rest, errs);
        } else {
          RoundTripList(ts, t, n, rest, errs);
        }
      case NilDict => ReadSingle(ts, To(t, NilDict), NULL_MARKER, rest, errs);
      case Dict(_) => RoundTripDict(ts, t, n, rest, errs);
      case Struct(_) => RoundTripStruct(ts, t, n, rest, errs);
    }
  }

  lemma RoundTripList(ts: Types, t: TypeId, n: Node, rest: Bytes, errs: Errors)
    requires TypesOk(ts) && Shaped(ts, t, n) && n.List? && n.elems != [] && Codable(ts, t, n) && (rest != [] || !EndsInEmpty(n))
    ensures Fits(ts, To(t, NilList))
    ensures ReadInto(ts, To(t, NilList), EncNode(ts, t, n) + rest, errs) == Stored(To(t, Rebuilt(ts, t, n)), rest, errs)
    decreases n, 2
  {
    hide TypesOk, ReadInto, ReadItems, Be, EncItems, RebuiltItems, EndsInEmpty;
    PartsShaped(ts, t, n);
    var e := ElemOf(ts, t);
    Concat4([STRICT_ARRAY_MARKER], Be(4, |n.elems|), EncItems(ts, e, n, 0), rest);
    Concat3(Be(4, |n.elems|), EncItems(ts, e, n, 0), rest);
    ReadStrict(ts, To(t, NilList), |n.elems|, EncItems(ts, e, n, 0) + rest, errs);
    RoundTripItems(ts, e, n, 0, [], rest, errs);
    assert [] + RebuiltItems(ts, e, n, 0) == RebuiltItems(ts, e, n, 0);
  }

  lemma {:induction false} RoundTripItems(ts: Types, e: TypeId, n: Node, i: nat, done: seq<Node>, rest: Bytes, errs: Errors)
    requires TypesOk(ts) && n.List? && i <= |n.elems| && (rest != [] || !EndsInEmpty(n))
    requires forall j | 0 <= j < |n.elems| :: Shaped(ts, e, n.elems[j]) && Codable(ts, e, n.elems[j])
    requires forall j | 0 <= j < |done| :: Shaped(ts, e, done[j])
    ensures ReadItems(ts, e, [], done, |n.elems| - i, EncItems(ts, e, n, i) + rest, errs)
         == Stored(done + RebuiltItems(ts, e, n, i), rest, errs)
    decreases n, 1, |n.elems| - i
  {
    hide TypesOk, Shaped, ReadInto, ReadItems, EncNode, Rebuilt, Codable, EndsInEmpty;
    if i == |n.elems| {
      assert [] + rest == rest && done + [] == done;
      NoItems(ts, e, [], done, rest, errs);
    } else {
      var tail := EncItems(ts, e, n, i + 1) + rest;
      Concat3(EncNode(ts, e, n.elems[i]), EncItems(ts, e, n, i + 1), rest);
      ItemsNotEmpty(ts, e, n, i + 1, rest);
      RoundTripNode(ts, e, n.elems[i], tail, errs);
      ItemsStep(ts, e, [], done, |n.elems| - i, EncNode(ts, e, n.elems[i]) + tail, errs);
      var x := Rebuilt(ts, e, n.elems[i]);
      RoundTripItems(ts, e, n, i + 1, done + [x], rest, errs);
      assert done + ([x] + RebuiltItems(ts, e, n, i + 1)) == (done + [x]) + RebuiltItems(ts, e, n, i + 1);
    }
  }

  lemma NodeNotEmpty(ts: Types, t: TypeId, n: Node)
    requires TypesOk(ts) && Shaped(ts, t, n)
    ensures EncNode(ts, t, n) != []
  {
    hide TypesOk, Be, EncItems, EncEntries, EncFields;
    if n.Any? {
      assert Enc(n.v) != [];
    }
  }

  /** An element that ends in an empty string is followed by something, or is the last. */
  lemma ItemsNotEmpty(ts: Types, e: TypeId, n: Node, i: nat, rest: Bytes)
    requires TypesOk(ts) && n.List? && 0 < i <= |n.elems| && (rest != [] || !EndsInEmpty(n))
    requires forall j | 0 <= j < |n.elems| :: Shaped(ts, e, n.elems[j])
    ensures EncItems(ts, e, n, i) + rest != [] || !EndsInEmpty(n.elems[i - 1])
  {
    hide TypesOk, EncNode, Shaped;
    if i < |n.elems| {
      NodeNotEmpty(ts, e, n.elems[i]);
    }
  }

  // ---- Maps

  /** The entries of the given names, as they come back. */
  ghost function RebuiltEntries(ts: Types, e: TypeId, n: Node, names: seq<Bytes>): map<Bytes, Node>
    requires TypesOk(ts) && n.Dict? && (forall k | k in names :: k in n.members)
    requires forall k | k in n.members :: Shaped(ts, e, n.members[k])
  {
    map k | k in names :: Rebuilt(ts, e, n.members[k])
  }

  lemma RoundTripDict(ts: Types, t: TypeId, n: Node, rest: Bytes, errs: Errors)
    requires TypesOk(ts) && Shaped(ts, t, n) && n.Dict? && Codable(ts, t, n)
    ensures Fits(ts, To(t, NilDict))
    ensures ReadInto(ts, To(t, NilDict), EncNode(ts, t, n) + rest, errs) == Stored(To(t, Rebuilt(ts, t, n)), rest, errs)
    decreases n, 2
  {
    hide TypesOk, Shaped, KindOf, ReadInto, ReadDict, EncNode, EncEntries, Rebuilt, RebuiltEntries, Codable, NameOk;
    var e, names := ElemOf(ts, t), SortedKeys(n.members.Keys);
    SortedKeysMembers(n.members.Keys);
    DictIs(ts, t, n);
    Concat4([OBJECT_MARKER], EncEntries(ts, e, n, names), OBJECT_END, rest);
    Concat3(EncEntries(ts, e, n, names), OBJECT_END, rest);
    ReadObjectMarked(ts, To(t, NilDict), EncEntries(ts, e, n, names) + (OBJECT_END + rest), errs);
    ReadNilDict(ts, t, EncEntries(ts, e, n, names) + (OBJECT_END + rest), errs);
    RoundTripEntries(ts, e, n, names, map[], rest, errs);
  }

  lemma DictIs(ts: Types, t: TypeId, n: Node)
    requires TypesOk(ts) && Shaped(ts, t, n) && n.Dict? && Codable(ts, t, n)
    ensures Fits(ts, To(t, NilDict)) && KindOf(ts, t) == MapKind(ElemOf(ts, t))
    ensures forall k | k in n.members :: Shaped(ts, ElemOf(ts, t), n.members[k]) && NameOk(k) && Codable(ts, ElemOf(ts, t), n.members[k])
    ensures var e, names := ElemOf(ts, t), SortedKeys(n.members.Keys);
            && (forall k | k in names :: k in n.members)
            && EncNode(ts, t, n) == [OBJECT_MARKER] + EncEntries(ts, e, n, names) + OBJECT_END
            && Rebuilt(ts, t, n) == Dict(map[] + RebuiltEntries(ts, e, n, names))
  {
    hide *;
    SortedKeysMembers(n.members.Keys);
    DictKind(ts, t, n);
    DictEncoded(ts, t, n);
    DictRebuilt(ts, t, n);
  }

  lemma DictKind(ts: Types, t: TypeId, n: Node)
    requires TypesOk(ts) && Shaped(ts, t, n) && n.Dict?
    ensures Fits(ts, To(t, NilDict)) && KindOf(ts, t) == MapKind(ElemOf(ts, t))
    ensures forall k | k in n.members :: Shaped(ts, ElemOf(ts, t), n.members[k])
    ensures Codable(ts, t, n) ==> forall k | k in n.members :: NameOk(k) && Codable(ts, ElemOf(ts, t), n.members[k])
  {
    hide TypesOk, NameOk;
    PartsShaped(ts, t, n);
  }

  lemma DictEncoded(ts: Types, t: TypeId, n: Node)
    requires TypesOk(ts) && Shaped(ts, t, n) && n.Dict?
    requires forall k | k in n.members :: Shaped(ts, ElemOf(ts, t), n.members[k])
    requires forall k | k in SortedKeys(n.members.Keys) :: k in n.members
    ensures EncNode(ts, t, n) == [OBJECT_MARKER] + EncEntries(ts, ElemOf(ts, t), n, SortedKeys(n.members.Keys)) + OBJECT_END
  {
    hide TypesOk, Shaped, EncEntries, ElemOf;
  }

  lemma DictRebuilt(ts: Types, t: TypeId, n: Node)
    requires TypesOk(ts) && Shaped(ts, t, n) && n.Dict?
    requires forall k | k in n.members :: Shaped(ts, ElemOf(ts, t), n.members[k])
    requires forall k :: k in SortedKeys(n.members.Keys) <==> k in n.members
    ensures Rebuilt(ts, t, n) == Dict(map[] + RebuiltEntries(ts, ElemOf(ts, t), n, SortedKeys(n.members.Keys)))
  {
    hide TypesOk, Shaped, ElemOf;
    assert map[] + RebuiltEntries(ts, ElemOf(ts, t), n, SortedKeys(n.members.Keys)) == Rebuilt(ts, t, n).members;
  }

  lemma ReadNilDict(ts: Types, t: TypeId, s: Bytes, errs: Errors)
    requires TypesOk(ts) && KindOf(ts, t) == MapKind(ElemOf(ts, t)) && Fits(ts, To(t, NilDict))
    ensures ReadObject(ts, To(t, NilDict), s, errs)
            == match ReadDict(ts, ElemOf(ts, t), map[], s, errs)
               case Stored(m, rest, ev) => Stored(To(t, Dict(m)), rest, ev)
               case Failed(w) => Failed(w)
               case Broke => Broke
  {
    hide TypesOk, ReadDict, Fits;
  }

  lemma DictEnd(ts: Types, e: TypeId, m: map<Bytes, Node>, rest: Bytes, errs: Errors)
    requires TypesOk(ts) && forall k | k in m :: Shaped(ts, e, m[k])
    ensures ReadDict(ts, e, m, OBJECT_END + rest, errs) == Stored(m, rest, errs)
  {
    hide TypesOk, Shaped;
    NameEnd(rest);
  }

  /** After the last member comes an empty name and the end marker. */
  lemma NameEnd(rest: Bytes)
    ensures ParseName(OBJECT_END + rest) == Done([], [OBJECT_END_MARKER] + rest)
  {
    Widths();
    assert Be(2, 0) == [0, 0];
    TakeUintOfBe(2, 0, [OBJECT_END_MARKER] + rest);
    assert OBJECT_END + rest == Be(2, 0) + ([OBJECT_END_MARKER] + rest);
  }

  lemma EntryRead(ts: Types, e: TypeId, m: map<Bytes, Node>, name: Bytes, s: Bytes, errs: Errors)
    requires TypesOk(ts) && (forall k | k in m :: Shaped(ts, e, m[k])) && NameOk(name) && Fits(ts, To(e, ZeroOf(ts, e)))
    ensures var x := ReadInto(ts, To(e, ZeroOf(ts, e)), s, errs);
            var r := ReadDict(ts, e, m, Be(2, |name|) + (name + s), errs);
            if x.Stored? then r == ReadDict(ts, e, m[name := x.value.node], x.rest, x.errs) else !r.Stored?
  {
    hide TypesOk, Shaped, ReadInto, Be, ParseName;
    ParseNameOfName(name, s);
    assert name != [];
  }

  /** One entry apart from those after it and what follows. */
  lemma EntryParts(ts: Types, e: TypeId, n: Node, names: seq<Bytes>, rest: Bytes)
    requires TypesOk(ts) && n.Dict? && (forall k | k in names :: k in n.members) && names != []
    requires forall k | k in n.members :: Shaped(ts, e, n.members[k])
    ensures EncEntries(ts, e, n, names) + rest
         == Be(2, |names[0]|) + (names[0] + (EncNode(ts, e, n.members[names[0]]) + (EncEntries(ts, e, n, names[1..]) + rest)))
  {
    hide TypesOk, Shaped, Be, EncNode;
    var a, b, c := Be(2, |names[0]|), names[0], EncNode(ts, e, n.members[names[0]]);
    Concat3(a + b + c, EncEntries(ts, e, n, names[1..]), rest);
    Concat4(a, b, c, EncEntries(ts, e, n, names[1..]) + rest);
    Concat3(b, c, EncEntries(ts, e, n, names[1..]) + rest);
  }

  lemma {:induction false} RoundTripEntries(ts: Types, e: TypeId, n: Node, names: seq<Bytes>, m: map<Bytes, Node>, rest: Bytes, errs: Errors)
    requires TypesOk(ts) && n.Dict? && (forall k | k in names :: k in n.members)
    requires forall k | k in n.members :: Shaped(ts, e, n.members[k]) && NameOk(k) && Codable(ts, e, n.members[k])
    requires forall k | k in m :: Shaped(ts, e, m[k])
    ensures ReadDict(ts, e, m, EncEntries(ts, e, n, names) + (OBJECT_END + rest), errs)
         == Stored(m + RebuiltEntries(ts, e, n, names), rest, errs)
    decreases n, 1, |names|
  {
    hide TypesOk, Shaped, ReadInto, ReadDict, EncNode, Rebuilt, Codable, NameOk;
    if names == [] {
      assert [] + (OBJECT_END + rest) == OBJECT_END + rest;
      assert m + RebuiltEntries(ts, e, n, names) == m;
      DictEnd(ts, e, m, rest, errs);
    } else {
      var name, sub := names[0], n.members[names[0]];
      var tail := EncEntries(ts, e, n, names[1..]) + (OBJECT_END + rest);
      EntryParts(ts, e, n, names, OBJECT_END + rest);
      RoundTripNode(ts, e, sub, tail, errs);
      EntryRead(ts, e, m, name, EncNode(ts, e, sub) + tail, errs);
      RoundTripEntries(ts, e, n, names[1..], m[name := Rebuilt(ts, e, sub)], rest, errs);
      EntriesRebuilt(ts, e, n, names, m);
    }
  }

  lemma EntriesRebuilt(ts: Types, e: TypeId, n: Node, names: seq<Bytes>, m: map<Bytes, Node>)
    requires TypesOk(ts) && n.Dict? && (forall k | k in names :: k in n.members) && names != []
    requires forall k | k in n.members :: Shaped(ts, e, n.members[k])
    ensures m[names[0] := Rebuilt(ts, e, n.members[names[0]])] + RebuiltEntries(ts, e, n, names[1..])
         == m + RebuiltEntries(ts, e, n, names)
  {
    hide TypesOk, Shaped, Rebuilt;
    forall k ensures k in names <==> k == names[0] || k in names[1..] {
    }
  }

  // ---- Structs

  lemma RoundTripStruct(ts: Types, t: TypeId, n: Node, rest: Bytes, errs: Errors)
    requires TypesOk(ts) && Shaped(ts, t, n) && n.Struct? && Codable(ts, t, n)
    ensures Fits(ts, To(t, ZeroOf(ts, t)))
    ensures ReadInto(ts, To(t, ZeroOf(ts, t)), EncNode(ts, t, n) + rest, errs) == Stored(To(t, Rebuilt(ts, t, n)), rest, errs)
    decreases n, 2
  {
    hide TypesOk, Shaped, ReadInto, ReadStruct, EncFields, RebuiltFields, CodableFields;
    ZeroShaped(ts, t);
    StructIs(ts, t, n);
    EncStruct(ts, t, n);
    Concat4([OBJECT_MARKER], EncFields(ts, t, n, 0), OBJECT_END, rest);
    Concat3(EncFields(ts, t, n, 0), OBJECT_END, rest);
    ReadObjectMarked(ts, To(t, ZeroOf(ts, t)), EncFields(ts, t, n, 0) + (OBJECT_END + rest), errs);
    NoneRebuilt(ts, t, n);
    RoundTripFields(ts, t, n, 0, rest, errs);
  }

  lemma StructIs(ts: Types, t: TypeId, n: Node)
    requires TypesOk(ts) && Shaped(ts, t, n) && n.Struct?
    ensures KindOf(ts, t) == StructKind && t in ts.members
    ensures Codable(ts, t, n) ==> CodableFields(ts, t, n, |ListOf(ts, t)|)
    ensures Rebuilt(ts, t, n) == RebuiltFields(ts, t, n, |ListOf(ts, t)|)
  {
    hide TypesOk, Shaped, RebuiltFields, CodableFields;
    StructKnown(ts, t, n);
  }

  lemma NoneRebuilt(ts: Types, t: TypeId, n: Node)
    requires TypesOk(ts) && Shaped(ts, t, n) && n.Struct?
    ensures RebuiltFields(ts, t, n, 0) == ZeroOf(ts, t)
  {
    hide TypesOk, Shaped, ZeroOf;
  }

  lemma {:induction false} CodableMember(ts: Types, t: TypeId, n: Node, i: nat)
    requires TypesOk(ts) && Shaped(ts, t, n) && n.Struct? && i <= |ListOf(ts, t)|
    ensures CodableFields(ts, t, n, i) <==> forall j | 0 <= j < i :: CodableField(ts, ListOf(ts, t)[j], MemberAt(ts, t, n, j))
    decreases i
  {
    hide TypesOk, Shaped, CodableField, MemberAt;
    if i > 0 {
      CodableMember(ts, t, n, i - 1);
    }
  }

  lemma FieldCodable(ts: Types, f: Field, x: Node)
    requires TypesOk(ts) && Shaped(ts, f.typ, x) && CodableField(ts, f, x)
    ensures !Omitted(f, x) ==> NameOk(f.name) && Codable(ts, f.typ, x)
  {
    hide TypesOk, Shaped, Omitted, NameOk, Codable;
  }

  /** Members that are not rebuilt yet are zero. */
  lemma {:induction false} FieldStillZero(ts: Types, t: TypeId, n: Node, i: nat, j: nat)
    requires TypesOk(ts) && Shaped(ts, t, n) && n.Struct? && i <= j < |ListOf(ts, t)|
    ensures MemberAt(ts, t, RebuiltFields(ts, t, n, i), j) == ZeroOf(ts, ListOf(ts, t)[j].typ)
    decreases i
  {
    hide *;
    if i == 0 {
      NoneRebuilt(ts, t, n);
      ZeroAt(ts, t, j);
    } else {
      FieldStillZero(ts, t, n, i - 1, j);
      RebuiltStep(ts, t, n, i - 1);
      WithApart(ts, t, RebuiltFields(ts, t, n, i - 1), i - 1, RebuiltMember(ts, t, n, i - 1), j);
    }
  }

  lemma ZeroAt(ts: Types, t: TypeId, j: nat)
    requires TypesOk(ts) && Shaped(ts, t, ZeroOf(ts, t)) && ZeroOf(ts, t).Struct? && j < |ListOf(ts, t)|
    ensures MemberAt(ts, t, ZeroOf(ts, t), j) == ZeroOf(ts, ListOf(ts, t)[j].typ)
  {
    hide TypesOk, Shaped, ZeroOf, MembersKnown, Get, PathIn, KindOf;
    FieldIn(ts, t, ZeroOf(ts, t), j);
    ZeroMember(ts, t, ListOf(ts, t)[j]);
  }

  lemma RebuiltStep(ts: Types, t: TypeId, n: Node, i: nat)
    requires TypesOk(ts) && Shaped(ts, t, n) && n.Struct? && i < |ListOf(ts, t)|
    ensures RebuiltFields(ts, t, n, i + 1) == WithMember(ts, t, RebuiltFields(ts, t, n, i), i, RebuiltMember(ts, t, n, i))
    ensures RebuiltMember(ts, t, n, i) == RebuiltField(ts, ListOf(ts, t)[i], MemberAt(ts, t, n, i))
  {
    hide TypesOk, Shaped, WithMember, RebuiltField, MemberAt;
  }

  /** Setting a member sets it and no other. */
  lemma WithApart(ts: Types, t: TypeId, m: Node, i: nat, x: Node, j: nat)
    requires TypesOk(ts) && Shaped(ts, t, m) && m.Struct?
    requires i < |ListOf(ts, t)| && j < |ListOf(ts, t)| && Shaped(ts, ListOf(ts, t)[i].typ, x)
    ensures MemberAt(ts, t, WithMember(ts, t, m, i, x), j) == if j == i then x else MemberAt(ts, t, m, j)
  {
    hide TypesOk, Shaped, Get, Set, PathIn, MembersKnown;
    var list := ListOf(ts, t);
    FieldIn(ts, t, m, i);
    FieldIn(ts, t, m, j);
    if j == i {
      SetGet(m, list[i].index, x);
    } else {
      PathsApart(ts, t, i, j);
      SetApart(m, list[i].index, x, list[j].index);
    }
  }

  lemma PathsApart(ts: Types, t: TypeId, i: nat, j: nat)
    requires MembersKnown(ts, t) && i < |ListOf(ts, t)| && j < |ListOf(ts, t)| && i != j
    ensures !(ListOf(ts, t)[i].index <= ListOf(ts, t)[j].index)
    ensures !(ListOf(ts, t)[j].index <= ListOf(ts, t)[i].index)
  {
    hide MemberOk, InList;
  }

  lemma StructEnd(ts: Types, t: TypeId, m: Node, rest: Bytes, errs: Errors)
    requires TypesOk(ts) && KindOf(ts, t).StructKind? && Shaped(ts, t, m)
    ensures ReadStruct(ts, t, m, OBJECT_END + rest, errs) == Stored(m, rest, errs)
  {
    hide TypesOk, Shaped, KindOf, ReadStruct, ParseName;
    NameEnd(rest);
    StructStep(ts, t, m, OBJECT_END + rest, errs);
  }

  lemma FindsMember(ts: Types, t: TypeId, i: nat)
    requires MembersKnown(ts, t) && i < |ListOf(ts, t)|
    ensures Lookup(ts.least, ts.members[t], ListOf(ts, t)[i].name) == Some(i)
  {
    assert MemberOk(ts, t, i);
    hide Lookup, InList;
  }

  /** A written name finds its own member, and the value goes there or nowhere. */
  lemma FieldRead(ts: Types, t: TypeId, m: Node, i: nat, s: Bytes, errs: Errors)
    requires TypesOk(ts) && KindOf(ts, t).StructKind? && Shaped(ts, t, m) && m.Struct? && i < |ListOf(ts, t)|
    requires NameOk(ListOf(ts, t)[i].name)
    ensures var f := ListOf(ts, t)[i];
            && Fits(ts, To(f.typ, MemberAt(ts, t, m, i)))
            && var x := ReadInto(ts, To(f.typ, MemberAt(ts, t, m, i)), s, Inside(errs));
               var r := ReadStruct(ts, t, m, Be(2, |f.name|) + (f.name + s), errs);
               if x.Stored? then
                 r == ReadStruct(ts, t, WithMember(ts, t, m, i, x.value.node), x.rest, Errors(x.errs.saved, errs.within))
               else !r.Stored?
  {
    hide TypesOk, Shaped, KindOf, ReadStruct, ReadMember, ReadField, ReadInto, Lookup, Be, ParseName, MembersKnown, PathIn, Get, Set, NameOk;
    var f := ListOf(ts, t)[i];
    FieldIn(ts, t, m, i);
    FindsMember(ts, t, i);
    ParseNameOfName(f.name, s);
    NameThere(f.name);
    StructStep(ts, t, m, Be(2, |f.name|) + (f.name + s), errs);
    MemberStep(ts, t, m, f.name, s, errs);
    FieldGoes(ts, t, m, i, s, errs);
  }

  lemma FieldGoes(ts: Types, t: TypeId, m: Node, i: nat, s: Bytes, errs: Errors)
    requires TypesOk(ts) && KindOf(ts, t).StructKind? && Shaped(ts, t, m) && m.Struct? && i < |ListOf(ts, t)|
    requires ListOf(ts, t)[i] in ListOf(ts, t)
    ensures Fits(ts, To(ListOf(ts, t)[i].typ, MemberAt(ts, t, m, i)))
    ensures var x := ReadInto(ts, To(ListOf(ts, t)[i].typ, MemberAt(ts, t, m, i)), s, Inside(errs));
            var r := ReadField(ts, t, m, ListOf(ts, t)[i], s, errs);
            if x.Stored? then
              r == Stored(WithMember(ts, t, m, i, x.value.node), x.rest, Errors(x.errs.saved, errs.within))
            else !r.Stored?
  {
    hide TypesOk, Shaped, KindOf, ReadInto, PathIn, Get, Set;
    FieldIn(ts, t, m, i);
  }

  lemma NameThere(name: Bytes)
    requires NameOk(name)
    ensures name != []
  {
  }

  /** Member i apart from those after it and what follows. */
  lemma FieldParts(ts: Types, t: TypeId, n: Node, i: nat, rest: Bytes)
    requires TypesOk(ts) && Shaped(ts, t, n) && n.Struct? && i < |ListOf(ts, t)|
    ensures var f, x, tail := ListOf(ts, t)[i], MemberAt(ts, t, n, i), EncFields(ts, t, n, i + 1) + rest;
            EncFields(ts, t, n, i) + rest
            == if Omitted(f, x) then tail else Be(2, |f.name|) + (f.name + (EncNode(ts, f.typ, x) + tail))
  {
    hide TypesOk, Shaped, Be, EncNode, Omitted, Get;
    FieldIn(ts, t, n, i);
    var f, x, tail := ListOf(ts, t)[i], MemberAt(ts, t, n, i), EncFields(ts, t, n, i + 1);
    assert [] + tail == tail;
    if !Omitted(f, x) {
      var a, b, c := Be(2, |f.name|), f.name, EncNode(ts, f.typ, x);
      Concat3(a + b + c, tail, rest);
      Concat4(a, b, c, tail + rest);
      Concat3(b, c, tail + rest);
    }
  }

  lemma {:induction false} RoundTripFields(ts: Types, t: TypeId, n: Node, i: nat, rest: Bytes, errs: Errors)
    requires TypesOk(ts) && Shaped(ts, t, n) && n.Struct? && KindOf(ts, t).StructKind?
    requires i <= |ListOf(ts, t)| && CodableFields(ts, t, n, |ListOf(ts, t)|)
    ensures ReadStruct(ts, t, RebuiltFields(ts, t, n, i), EncFields(ts, t, n, i) + (OBJECT_END + rest), errs)
         == Stored(RebuiltFields(ts, t, n, |ListOf(ts, t)|), rest, errs)
    decreases n, 1, |ListOf(ts, t)| - i
  {
    hide *;
    if i == |ListOf(ts, t)| {
      NoFieldsLeft(ts, t, n);
      assert [] + (OBJECT_END + rest) == OBJECT_END + rest;
      StructEnd(ts, t, RebuiltFields(ts, t, n, i), rest, errs);
    } else {
      EndThere(rest);
      RoundTripField(ts, t, n, i, OBJECT_END + rest, errs);
      RoundTripFields(ts, t, n, i + 1, rest, errs);
    }
  }

  lemma EndThere(rest: Bytes)
    ensures OBJECT_END + rest != []
  {
  }

  /** Reading what was written for member i. */
  lemma RoundTripField(ts: Types, t: TypeId, n: Node, i: nat, end: Bytes, errs: Errors)
    requires TypesOk(ts) && Shaped(ts, t, n) && n.Struct? && KindOf(ts, t).StructKind? && end != []
    requires i < |ListOf(ts, t)| && CodableFields(ts, t, n, |ListOf(ts, t)|)
    ensures ReadStruct(ts, t, RebuiltFields(ts, t, n, i), EncFields(ts, t, n, i) + end, errs)
         == ReadStruct(ts, t, RebuiltFields(ts, t, n, i + 1), EncFields(ts, t, n, i + 1) + end, errs)
    decreases n, 0
  {
    hide TypesOk, KindOf, Shaped, ReadInto, ReadStruct, EncNode, EncFields, Codable, CodableField, CodableFields, Rebuilt, RebuiltField, RebuiltFields, RebuiltMember, Omitted, ZeroOf, MemberAt, WithMember, EndsInEmpty;
    var f, x, tail := ListOf(ts, t)[i], MemberAt(ts, t, n, i), EncFields(ts, t, n, i + 1) + end;
    var m := RebuiltFields(ts, t, n, i);
    FieldParts(ts, t, n, i, end);
    RebuiltStep(ts, t, n, i);
    FieldStillZero(ts, t, n, i, i);
    if Omitted(f, x) {
      OmittedZero(ts, f, x);
      SetBack(ts, t, m, i);
    } else {
      CodableMember(ts, t, n, |ListOf(ts, t)|);
      FieldCodable(ts, f, x);
      KeptRebuilt(ts, f, x);
      RoundTripNode(ts, f.typ, x, tail, Inside(errs));
      FieldRead(ts, t, m, i, EncNode(ts, f.typ, x) + tail, errs);
    }
  }

  lemma OmittedZero(ts: Types, f: Field, x: Node)
    requires TypesOk(ts) && Shaped(ts, f.typ, x)
    ensures Omitted(f, x) ==> RebuiltField(ts, f, x) == ZeroOf(ts, f.typ)
  {
    hide TypesOk, Shaped, Omitted, ZeroOf;
  }

  lemma KeptRebuilt(ts: Types, f: Field, x: Node)
    requires TypesOk(ts) && Shaped(ts, f.typ, x)
    ensures !Omitted(f, x) ==> RebuiltField(ts, f, x) == Rebuilt(ts, f.typ, x)
  {
    hide TypesOk, Shaped, Omitted, Rebuilt;
  }

  /** Setting a member to what it is changes nothing. */
  lemma SetBack(ts: Types, t: TypeId, m: Node, i: nat)
    requires TypesOk(ts) && Shaped(ts, t, m) && m.Struct? && i < |ListOf(ts, t)|
    ensures WithMember(ts, t, m, i, MemberAt(ts, t, m, i)) == m
  {
    hide TypesOk, Shaped, Get, Set, PathIn;
    FieldIn(ts, t, m, i);
    SetSame(m, ListOf(ts, t)[i].index);
  }

  lemma {:induction false} SetSame(n: Node, p: seq<nat>)
    requires PathIn(n, p)
    ensures Set(n, p, Get(n, p)) == n
  {
    if p != [] {
      SetSame(n.fields[p[0]], p[1..]);
    }
  }

  // ---- What is stored over what was there

  /** Undefined and unsupported values and dates leave a variable as it is. */
  lemma SkippedKeeps(ts: Types, tg: Target, s: Bytes, errs: Errors)
    requires TypesOk(ts) && Fits(ts, tg) && s != []
    ensures s[0] == 6 || s[0] == 13 ==> ReadInto(ts, tg, s, errs) == Stored(tg, s[1..], errs)
    ensures s[0] == 11 && |s| >= 9 ==> ReadInto(ts, tg, s, errs) == Stored(tg, if |s| >= 11 then s[11..] else [], errs)
  {
    hide TypesOk, Fits;
  }

  /** Scalars and null replace what was there, whatever it was. */
  lemma ScalarsReplace(ts: Types, t: TypeId, n: Node, s: Bytes, errs: Errors)
    requires TypesOk(ts) && Shaped(ts, t, n) && s != [] && s[0] in {0, 1, 2, 5, 12, 15}
    ensures Fits(ts, To(t, ZeroOf(ts, t)))
    ensures ReadInto(ts, To(t, n), s, errs) == ReadInto(ts, To(t, ZeroOf(ts, t)), s, errs)
  {
    hide TypesOk, FromBe, ParseString;
    ZeroShaped(ts, t);
  }

  /** Null empties what can be nil. */
  lemma NullClears(ts: Types, t: TypeId, n: Node, rest: Bytes, errs: Errors)
    requires TypesOk(ts) && Shaped(ts, t, n)
    ensures ReadInto(ts, To(t, n), [5] + rest, errs)
         == match KindOf(ts, t)
            case AnyKind => Stored(To(t, Any(Nil)), rest, errs)
            case SliceKind(_) => Stored(To(t, NilList), rest, errs)
            case MapKind(_) => Stored(To(t, NilDict), rest, errs)
            case _ => Broke
  {
    hide TypesOk, ReadInto;
    ReadSingle(ts, To(t, n), 5, rest, errs);
  }

  /** A number into the decoder's own string type is its text. */
  lemma NumberAsText(ts: Types, t: TypeId, n: Node, bits: uint64, rest: Bytes, errs: Errors)
    requires TypesOk(ts) && KindOf(ts, t) == StringKind(true) && Shaped(ts, t, n)
    ensures ReadInto(ts, To(t, n), [0] + Be(8, bits) + rest, errs) == Stored(To(t, Text(ts.numbers.format(bits))), rest, errs)
  {
    hide TypesOk, ReadInto, Be;
    ReadNumber(ts, To(t, n), bits, rest, errs);
  }

  lemma LongWidths(w: Width)
    ensures ParsesLong(w) <==> w !in {Int8, Int16, Uint8, Uint16, Uintptr}
  {
    assert w.Int? || w.Int8? || w.Int16? || w.Int32? || w.Int64? || w.Uint? || w.Uint8? || w.Uint16? || w.Uint32? || w.Uint64? || w.Uintptr?;
  }

  /** A long string into an integer type of 32 bits or more is the number it spells. */
  lemma DigitsAsNumber(ts: Types, t: TypeId, n: Node, s: Bytes, rest: Bytes, errs: Errors)
    requires TypesOk(ts) && KindOf(ts, t).WholeKind? && Shaped(ts, t, n) && 0 < |s| < 0x1_0000_0000
    requires KindOf(ts, t).width !in {Int8, Int16, Uint8, Uint16, Uintptr}
    ensures ReadInto(ts, To(t, n), [12] + (Be(4, |s|) + (s + rest)), errs)
         == match ts.numbers.parse(KindOf(ts, t).width, s)
            case None => Failed(errs.within)
            case Some(k) => Stored(To(t, Whole(k)), rest, errs)
  {
    hide TypesOk, Be, FromBe, ParseString;
    Widths();
    ParseStringOfString(4, s, rest);
    assert ([12] + (Be(4, |s|) + (s + rest)))[1..] == Be(4, |s|) + (s + rest);
    LongWidths(KindOf(ts, t).width);
  }

  /** A string into a byte slice is what it stands for in base 64, byte for byte. */
  lemma Base64AsBytes(ts: Types, t: TypeId, n: Node, s: Bytes, rest: Bytes, errs: Errors)
    requires TypesOk(ts) && KindOf(ts, t).SliceKind? && KindOf(ts, KindOf(ts, t).elem) == WholeKind(Uint8) && Shaped(ts, t, n)
    requires 0 < |s| < 0x1_0000
    ensures var r := ReadInto(ts, To(t, n), [2] + (Be(2, |s|) + (s + rest)), errs);
            match ts.numbers.base64(s)
            case None => r == Failed(errs.within)
            case Some(b) =>
              && r.Stored? && r.rest == rest && r.errs == errs && r.value.To? && r.value.node.List?
              && |r.value.node.elems| == |b| && forall i | 0 <= i < |b| :: r.value.node.elems[i] == Whole(b[i])
  {
    hide TypesOk, Be, FromBe, ParseString;
    Widths();
    ParseStringOfString(2, s, rest);
    assert ([2] + (Be(2, |s|) + (s + rest)))[1..] == Be(2, |s|) + (s + rest);
  }

  /** An object without members leaves the entries of a map and the fields of a struct. */
  lemma EmptyObjectKeeps(ts: Types, tg: Target, rest: Bytes, errs: Errors)
    requires TypesOk(ts) && Fits(ts, tg) && tg.To? && (tg.node.Dict? || tg.node.Struct?)
    ensures ReadObject(ts, tg, [0, 0, 9] + rest, errs) == Stored(tg, rest, errs)
  {
    hide TypesOk, ReadDict, ReadStruct;
    assert OBJECT_END == [0, 0, 9];
    if tg.node.Dict? {
      PartsShaped(ts, tg.typ, tg.node);
      DictEnd(ts, ElemOf(ts, tg.typ), tg.node.members, rest, errs);
    } else {
      StructKnown(ts, tg.typ, tg.node);
      StructEnd(ts, tg.typ, tg.node, rest, errs);
    }
  }

  function Undefined(n: nat): (b: Bytes)
    ensures |b| == n && forall i | 0 <= i < n :: b[i] == 6
  {
    seq(n, _ => 6)
  }

  /** Elements are decoded over those that were there: n undefined ones leave the first n as
      they are, with zeros after them. */
  lemma {:induction false} ElementsKept(ts: Types, e: TypeId, before: seq<Node>, done: seq<Node>, n: nat, rest: Bytes, errs: Errors)
    requires TypesOk(ts) && (forall j | 0 <= j < |before| :: Shaped(ts, e, before[j]))
    requires forall j | 0 <= j < |done| :: Shaped(ts, e, done[j])
    ensures var r := ReadItems(ts, e, before, done, n, Undefined(n) + rest, errs);
            && r.Stored? && r.rest == rest && r.errs == errs && |r.value| == |done| + n && r.value[..|done|] == done
            && forall j | |done| <= j < |done| + n :: r.value[j] == if j < |before| then before[j] else ZeroOf(ts, e)
    decreases n
  {
    hide TypesOk, Shaped, ReadInto, ReadItems, ZeroOf;
    if n == 0 {
      assert Undefined(0) + rest == rest && done[..|done|] == done;
      NoItems(ts, e, before, done, rest, errs);
    } else {
      var s := Undefined(n) + rest;
      assert s[1..] == Undefined(n - 1) + rest;
      ItemsStep(ts, e, before, done, n, s, errs);
      SkippedKeeps(ts, To(e, ItemAt(ts, e, before, |done|)), s, errs);
      var x := if |done| < |before| then before[|done|] else ZeroOf(ts, e);
      ElementsKept(ts, e, before, done + [x], n - 1, rest, errs);
      assert (done + [x])[..|done|] == done;
    }
  }

  // ---- What is left out

  const NEGATIVE_ZERO: uint64 := 0x8000_0000_0000_0000

  /** Zero, or one of the three other values that count as empty. */
  ghost predicate Nothing(ts: Types, t: TypeId, x: Node) {
    !x.Struct? && (x == ZeroOf(ts, t) || x == List([]) || x == Dict(map[]) || x == Real(NEGATIVE_ZERO))
  }

  lemma EmptyExactly(ts: Types, t: TypeId, x: Node)
    requires TypesOk(ts) && Shaped(ts, t, x)
    ensures Empty(x) <==> Nothing(ts, t, x)
  {
    hide TypesOk;
  }

  /** For every struct value: member i is missing from the encoding if and only if it is
      omitempty and zero, an empty slice or map, or negative zero; structs never are. */
  lemma LeftOutExactly(ts: Types, t: TypeId, n: Node, i: nat)
    requires TypesOk(ts) && Shaped(ts, t, n) && n.Struct? && i < |ListOf(ts, t)|
    ensures EncFields(ts, t, n, i) == EncFields(ts, t, n, i + 1)
       <==> ListOf(ts, t)[i].omitEmpty && Nothing(ts, ListOf(ts, t)[i].typ, MemberAt(ts, t, n, i))
  {
    hide TypesOk, Shaped, Empty, Nothing, EncFields, EncNode, MemberAt, Be;
    var tail := EncFields(ts, t, n, i + 1);
    FieldParts(ts, t, n, i, []);
    EmptyExactly(ts, ListOf(ts, t)[i].typ, MemberAt(ts, t, n, i));
    assert EncFields(ts, t, n, i) + [] == EncFields(ts, t, n, i) && tail + [] == tail;
  }

  /** Leaving a member out loses nothing, unless it is a map that is empty but not nil, or
      negative zero: those come back as nil and as zero. */
  lemma OmittedLosesNothing(ts: Types, f: Field, x: Node)
    requires TypesOk(ts) && Shaped(ts, f.typ, x) && Omitted(f, x)
    ensures Rebuilt(ts, f.typ, x) == ZeroOf(ts, f.typ) <==> x != Dict(map[]) && x != Real(NEGATIVE_ZERO)
  {
    hide TypesOk;
  }

  // ---- The theorem

  /** Every member that was not omitted has what its value is rebuilt as; the others are
      zero. */
  lemma {:induction false} RebuiltMembers(ts: Types, t: TypeId, n: Node, i: nat, j: nat)
    requires TypesOk(ts) && Shaped(ts, t, n) && n.Struct? && j < i <= |ListOf(ts, t)|
    ensures MemberAt(ts, t, RebuiltFields(ts, t, n, i), j) == RebuiltField(ts, ListOf(ts, t)[j], MemberAt(ts, t, n, j))
    decreases i
  {
    hide *;
    RebuiltStep(ts, t, n, i - 1);
    WithApart(ts, t, RebuiltFields(ts, t, n, i - 1), i - 1, RebuiltMember(ts, t, n, i - 1), j);
    if j < i - 1 {
      RebuiltMembers(ts, t, n, i - 1, j);
    }
  }

  /** For every program and every struct type in it, with members of any type that the
      codec handles: what encoding a value wrote, decoding into a zero struct restores,
      member by member; no error is put aside, and what follows is left. */
  lemma StructRoundTrip(ts: Types, t: TypeId, n: Node, rest: Bytes, errs: Errors)
    requires GoTypes(ts) && t in ts.graph && Shaped(ts, t, n)
    ensures TypesOk(ts) && Shaped(ts, t, ts.zeros[t]) && n.Struct?
    ensures Codable(ts, t, n) ==>
              var r := ReadInto(ts, To(t, ts.zeros[t]), EncNode(ts, t, n) + rest, errs);
              && r.Stored? && r.rest == rest && r.errs == errs && r.value.To? && r.value.node.Struct? && Shaped(ts, t, r.value.node)
              && t in ts.members
              && forall j | 0 <= j < |ListOf(ts, t)| ::
                   MemberAt(ts, t, r.value.node, j) == RebuiltField(ts, ListOf(ts, t)[j], MemberAt(ts, t, n, j))
  {
    hide GoTypes, TypesOk, Shaped, Codable, ReadInto, EncNode, Rebuilt, RebuiltField, RebuiltFields, MemberAt, ZeroStruct, MembersKnown;
    GoTypesOk(ts);
    StructOf(ts, t, n);
    if Codable(ts, t, n) {
      StructIs(ts, t, n);
      RoundTripNode(ts, t, n, rest, errs);
      forall j | 0 <= j < |ListOf(ts, t)|
        ensures MemberAt(ts, t, Rebuilt(ts, t, n), j) == RebuiltField(ts, ListOf(ts, t)[j], MemberAt(ts, t, n, j))
      {
        RebuiltMembers(ts, t, n, |ListOf(ts, t)|, j);
      }
    }
  }

  lemma StructOf(ts: Types, t: TypeId, n: Node)
    requires TypesOk(ts) && t in ts.graph && Shaped(ts, t, n)
    ensures KindOf(ts, t) == StructKind && n.Struct? && t in ts.members && t in ts.zeros
    ensures ZeroOf(ts, t) == ts.zeros[t] && Shaped(ts, t, ts.zeros[t]) && !EndsInEmpty(n)
  {
    StructIn(ts, t);
  }

  // ---- Names that no member answers to

  /** How many bytes there must be for the type of the target to be asked for: the whole
      scalar, one byte of a string, the count of an array, and nothing of an object. */
  function BytesBeforeType(m: byte): Option<nat> {
    if m == OBJECT_MARKER || m == NULL_MARKER then Some(1)
    else if m == BOOLEAN_MARKER then Some(2)
    else if m == STRING_MARKER then Some(4)
    else if m == ECMA_ARRAY_MARKER || m == STRICT_ARRAY_MARKER then Some(5)
    else if m == LONG_STRING_MARKER || m == XML_DOCUMENT_MARKER then Some(6)
    else if m == NUMBER_MARKER then Some(9)
    else None
  }

  /** Decoding nowhere panics exactly on values of a type that is asked for, once the bytes
      read before that are there; undefined, unsupported and dates are skipped; everything
      else is an error. */
  lemma DiscardExactly(ts: Types, s: Bytes, errs: Errors)
    requires TypesOk(ts)
    ensures var r := ReadInto(ts, Nowhere, s, errs);
            && (r.Broke? <==> s != [] && BytesBeforeType(s[0]).Some? && |s| >= BytesBeforeType(s[0]).value)
            && (r.Stored? <==> s != [] && (s[0] in {UNDEFINED_MARKER, UNSUPPORTED_MARKER} || (s[0] == DATE_MARKER && |s| >= 9)))
            && (r.Stored? ==> r.value == Nowhere && r.errs == errs)
  {
    hide TypesOk, FromBe;
  }

  /** Of what the encoder writes, only an empty slice can be discarded. */
  lemma DiscardEncoded(ts: Types, v: Value, rest: Bytes, errs: Errors)
    requires TypesOk(ts) && rest != []
    ensures ReadInto(ts, Nowhere, Enc(v) + rest, errs)
         == if v == Slice([]) then Stored(Nowhere, rest, errs) else Broke
  {
    hide TypesOk, ReadInto, Be, EncElems, EncMembers;
    DiscardExactly(ts, Enc(v) + rest, errs);
    if v == Slice([]) {
      ReadSingle(ts, Nowhere, UNDEFINED_MARKER, rest, errs);
    } else {
      EncodedMarker(v);
    }
  }

  lemma EncodedMarker(v: Value)
    ensures v != Slice([]) ==> BytesBeforeType(Enc(v)[0]).Some? && |Enc(v)| + 1 >= BytesBeforeType(Enc(v)[0]).value
  {
    hide Be, EncElems, EncMembers;
  }
}
