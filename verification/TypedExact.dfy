/** When the round trip of typed values holds, exactly. */
module TypedExact {
  import opened ByteCodec
  import opened AmfValue
  import opened AmfEncode
  import opened AmfDecode
  import opened AmfRoundTrip
  import opened TypeGraph
  import opened TypeFields
  import opened TypedValues
  import opened TypedEncode
  import opened TypedDecode
  import opened StructCodec

  // ---- What decoding stores has lengths that fit

  /** Strings, arrays and names in n fit their length fields. */
  ghost predicate Sized(ts: Types, t: TypeId, n: Node)
    requires TypesOk(ts) && Shaped(ts, t, n)
    decreases n, 1
  {
    hide TypesOk, Visible, MemberAt;
    PartsShaped(ts, t, n);
    match n
    case Any(v) => Encodable(v)
    case Text(s) => |s| < 0x1_0000_0000
    case List(es) => |es| < 0x1_0000_0000 && forall i | 0 <= i < |es| :: Sized(ts, ElemOf(ts, t), es[i])
    case Dict(m) => forall k | k in m :: NameOk(k) && Sized(ts, ElemOf(ts, t), m[k])
    case Struct(_) => forall j | 0 <= j < |ListOf(ts, t)| :: Sized(ts, ListOf(ts, t)[j].typ, MemberAt(ts, t, n, j))
    case _ => true
  }

  /** Base 64 does not make a string longer, and no number takes four gigabytes to write. */
  ghost predicate ConversionsFit(ts: Types) {
    && (forall s :: Base64Fits(ts, s))
    && (forall bits :: |ts.numbers.format(bits)| < 0x1_0000_0000)
  }

  predicate Base64Fits(ts: Types, s: Bytes) {
    ts.numbers.base64(s).Some? ==> |ts.numbers.base64(s).value| <= |s|
  }

  ghost predicate SizedTarget(ts: Types, tg: Target)
    requires TypesOk(ts) && Fits(ts, tg)
  {
    tg.To? ==> Sized(ts, tg.typ, tg.node)
  }

  lemma {:induction false} EmptySized(ts: Types, t: TypeId, n: Node)
    requires TypesOk(ts) && Shaped(ts, t, n) && Empty(n)
    ensures Sized(ts, t, n)
  {
    hide TypesOk;
  }

  lemma {:induction false} ZeroSized(ts: Types, t: TypeId)
    requires TypesOk(ts)
    ensures Shaped(ts, t, ZeroOf(ts, t)) && Sized(ts, t, ZeroOf(ts, t))
    decreases ZeroOf(ts, t)
  {
    hide TypesOk, MemberAt, Shaped;
    ZeroShaped(ts, t);
    if KindOf(ts, t).StructKind? {
      StructStays(ts, t, ZeroOf(ts, t));
      forall j | 0 <= j < |ListOf(ts, t)| ensures Sized(ts, ListOf(ts, t)[j].typ, MemberAt(ts, t, ZeroOf(ts, t), j)) {
        ZeroAt(ts, t, j);
        ZeroSized(ts, ListOf(ts, t)[j].typ);
      }
    }
  }

  lemma StringFits(width: nat, s: Bytes)
    requires width == 2 || width == 4
    ensures ParseString(width, s).Done? ==> ParseString(width, s).value.Str? && |ParseString(width, s).value.s| < 0x1_0000_0000
  {
    if |s| >= width {
      FromBeBound(s[..width]);
      Widths();
    }
  }

  lemma StringSized(ts: Types, tg: Target, b: Bytes, rest: Bytes, errs: Errors)
    requires TypesOk(ts) && ConversionsFit(ts) && Fits(ts, tg) && |b| < 0x1_0000_0000
    ensures SizedResult(ts, StoreString(ts, tg, b, rest, errs)) && SizedResult(ts, StoreLong(ts, tg, b, rest, errs))
  {
    hide TypesOk, MemberAt;
    assert Base64Fits(ts, b);
    if tg.To? && KindOf(ts, tg.typ).SliceKind? && IsByte(KindOf(ts, KindOf(ts, tg.typ).elem)) && ts.numbers.base64(b).Some? {
      OctetsSized(ts, tg.typ, ts.numbers.base64(b).value);
    }
  }

  lemma OctetsSized(ts: Types, t: TypeId, b: Bytes)
    requires TypesOk(ts) && KindOf(ts, t).SliceKind? && IsByte(KindOf(ts, KindOf(ts, t).elem)) && |b| < 0x1_0000_0000
    ensures Shaped(ts, t, List(Octets(b))) && Sized(ts, t, List(Octets(b)))
  {
    hide TypesOk, MemberAt;
    forall i | 0 <= i < |b| ensures Sized(ts, ElemOf(ts, t), Octets(b)[i]) {
    }
  }

  ghost predicate SizedResult(ts: Types, r: Into<Target>)
    requires TypesOk(ts)
  {
    r.Stored? ==> Fits(ts, r.value) && SizedTarget(ts, r.value)
  }

  lemma ScalarSized(ts: Types, tg: Target, s: Bytes, errs: Errors)
    requires TypesOk(ts) && ConversionsFit(ts) && Fits(ts, tg) && SizedTarget(ts, tg)
    requires ObjectAt(s).None? && (s == [] || s[0] != STRICT_ARRAY_MARKER || |s| < 5)
    ensures SizedResult(ts, ReadInto(ts, tg, s, errs))
  {
    hide TypesOk, MemberAt, ParseString, StoreString, StoreLong, FromBe;
    if s != [] {
      StringFits(2, s[1..]);
      StringFits(4, s[1..]);
      var p, q := ParseString(2, s[1..]), ParseString(4, s[1..]);
      if p.Done? {
        StringSized(ts, tg, p.value.s, p.rest, errs);
      }
      if q.Done? {
        StringSized(ts, tg, q.value.s, q.rest, errs);
      }
    }
  }

  /** Decoding any input into a variable whose lengths fit keeps them fitting. */
  lemma {:induction false} DecodedSized(ts: Types, tg: Target, s: Bytes, errs: Errors)
    requires TypesOk(ts) && ConversionsFit(ts) && Fits(ts, tg) && SizedTarget(ts, tg)
    ensures SizedResult(ts, ReadInto(ts, tg, s, errs))
    decreases |s|, 2, 0
  {
    hide TypesOk, ConversionsFit, Fits, FromBe, ReadInto, ReadObject, ReadArray, SizedTarget;
    if ObjectAt(s).Some? {
      IntoObject(ts, tg, s, errs);
      ObjectSized(ts, tg, ObjectAt(s).value, errs);
    } else if s != [] && s[0] == STRICT_ARRAY_MARKER && |s| >= 5 {
      IntoArray(ts, tg, s, errs);
      FromBeBound(s[1..5]);
      Widths();
      ArraySized(ts, tg, FromBe(s[1..5]), s[5..], errs);
    } else {
      ScalarSized(ts, tg, s, errs);
    }
  }

  lemma {:induction false} ObjectSized(ts: Types, tg: Target, s: Bytes, errs: Errors)
    requires TypesOk(ts) && ConversionsFit(ts) && Fits(ts, tg) && SizedTarget(ts, tg)
    ensures SizedResult(ts, ReadObject(ts, tg, s, errs))
    decreases |s|, 1, 0
  {
    hide TypesOk, ConversionsFit, ReadDict, ReadStruct, MemberAt, NameOk;
    if tg.To? {
      match KindOf(ts, tg.typ) {
        case AnyKind =>
          if ParseObject(s, map[]).Done? {
            ObjectIsEncodable(s, map[]);
          }
        case MapKind(e) => DictSized(ts, e, if tg.node.NilDict? then map[] else tg.node.members, s, errs);
        case StructKind => StructSized(ts, tg.typ, tg.node, s, errs);
        case _ =>
      }
    }
  }

  ghost predicate SizedEntries(ts: Types, e: TypeId, m: map<Bytes, Node>)
    requires TypesOk(ts)
  {
    forall k | k in m :: Shaped(ts, e, m[k]) && NameOk(k) && Sized(ts, e, m[k])
  }

  lemma NameFits(s: Bytes)
    ensures ParseName(s).Done? && ParseName(s).value != [] ==> NameOk(ParseName(s).value)
  {
    if |s| >= 2 {
      FromBeBound(s[..2]);
      Widths();
    }
  }

  lemma {:induction false} DictSized(ts: Types, e: TypeId, m: map<Bytes, Node>, s: Bytes, errs: Errors)
    requires TypesOk(ts) && ConversionsFit(ts) && SizedEntries(ts, e, m)
    ensures var r := ReadDict(ts, e, m, s, errs);
            r.Stored? ==> SizedEntries(ts, e, r.value)
    decreases |s|, 0, 0
  {
    hide TypesOk, ConversionsFit, Shaped, ReadInto, ParseName, NameOk, Sized;
    NameProgress(s);
    NameFits(s);
    ZeroSized(ts, e);
    var p := ParseName(s);
    if p.Done? && p.value != [] {
      DecodedSized(ts, To(e, ZeroOf(ts, e)), p.rest, errs);
      var x := ReadInto(ts, To(e, ZeroOf(ts, e)), p.rest, errs);
      if x.Stored? {
        DictSized(ts, e, m[p.value := x.value.node], x.rest, x.errs);
      }
    }
  }

  lemma {:induction false} StructSized(ts: Types, t: TypeId, n: Node, s: Bytes, errs: Errors)
    requires TypesOk(ts) && ConversionsFit(ts) && KindOf(ts, t).StructKind? && Shaped(ts, t, n) && Sized(ts, t, n)
    ensures var r := ReadStruct(ts, t, n, s, errs);
            r.Stored? ==> Sized(ts, t, r.value)
    decreases |s|, 0, 0
  {
    hide TypesOk, ConversionsFit, Shaped, KindOf, ReadStruct, ReadMember, ParseName, Sized;
    NameProgress(s);
    StructStep(ts, t, n, s, errs);
    var p := ParseName(s);
    if p.Done? && p.value != [] {
      MemberSized(ts, t, n, p.value, p.rest, errs);
      var x := ReadMember(ts, t, n, p.value, p.rest, errs);
      if x.Stored? {
        StructSized(ts, t, x.value, x.rest, x.errs);
      }
    }
  }

  lemma {:induction false} MemberSized(ts: Types, t: TypeId, n: Node, name: Bytes, s: Bytes, errs: Errors)
    requires TypesOk(ts) && ConversionsFit(ts) && KindOf(ts, t).StructKind? && Shaped(ts, t, n) && Sized(ts, t, n)
    ensures var r := ReadMember(ts, t, n, name, s, errs);
            r.Stored? ==> Sized(ts, t, r.value)
    decreases |s|, 3, 0
  {
    hide TypesOk, ConversionsFit, Shaped, KindOf, ReadInto, ReadField, ReadMember, Lookup, Sized;
    LookupKnown(ts, t, name);
    MemberStep(ts, t, n, name, s, errs);
    StructStays(ts, t, n);
    var i := Lookup(ts.least, ts.members[t], name);
    if i.Some? {
      FieldIn(ts, t, n, i.value);
      SizedAt(ts, t, n, i.value);
      DecodedSized(ts, To(ListOf(ts, t)[i.value].typ, MemberAt(ts, t, n, i.value)), s, Inside(errs));
      FieldSized(ts, t, n, i.value, s, errs);
    }
  }

  lemma SizedAt(ts: Types, t: TypeId, n: Node, i: nat)
    requires TypesOk(ts) && Shaped(ts, t, n) && n.Struct? && Sized(ts, t, n) && i < |ListOf(ts, t)|
    ensures Sized(ts, ListOf(ts, t)[i].typ, MemberAt(ts, t, n, i))
  {
    hide TypesOk, Shaped, MemberAt;
  }

  lemma WithSized(ts: Types, t: TypeId, n: Node, i: nat, x: Node)
    requires TypesOk(ts) && Shaped(ts, t, n) && n.Struct? && Sized(ts, t, n) && i < |ListOf(ts, t)|
    requires Shaped(ts, ListOf(ts, t)[i].typ, x) && Sized(ts, ListOf(ts, t)[i].typ, x)
    ensures Sized(ts, t, WithMember(ts, t, n, i, x))
  {
    hide TypesOk, Shaped, MemberAt, WithMember;
    forall j | 0 <= j < |ListOf(ts, t)|
      ensures Sized(ts, ListOf(ts, t)[j].typ, MemberAt(ts, t, WithMember(ts, t, n, i, x), j))
    {
      WithApart(ts, t, n, i, x, j);
      SizedAt(ts, t, n, j);
    }
  }

  lemma FieldSized(ts: Types, t: TypeId, n: Node, i: nat, s: Bytes, errs: Errors)
    requires TypesOk(ts) && KindOf(ts, t).StructKind? && Shaped(ts, t, n) && n.Struct? && Sized(ts, t, n)
    requires i < |ListOf(ts, t)| && ListOf(ts, t)[i] in ListOf(ts, t)
    requires Fits(ts, To(ListOf(ts, t)[i].typ, MemberAt(ts, t, n, i)))
    requires SizedResult(ts, ReadInto(ts, To(ListOf(ts, t)[i].typ, MemberAt(ts, t, n, i)), s, Inside(errs)))
    ensures var r := ReadField(ts, t, n, ListOf(ts, t)[i], s, errs);
            r.Stored? ==> Sized(ts, t, r.value)
  {
    hide TypesOk, KindOf, Shaped, ReadInto, Sized, Get, Set, PathIn;
    FieldIn(ts, t, n, i);
    var x := ReadInto(ts, To(ListOf(ts, t)[i].typ, MemberAt(ts, t, n, i)), s, Inside(errs));
    if x.Stored? {
      WithSized(ts, t, n, i, x.value.node);
    }
  }

  lemma {:induction false} ArraySized(ts: Types, tg: Target, n: nat, s: Bytes, errs: Errors)
    requires TypesOk(ts) && ConversionsFit(ts) && Fits(ts, tg) && SizedTarget(ts, tg) && n < 0x1_0000_0000
    ensures SizedResult(ts, ReadArray(ts, tg, n, s, errs))
    decreases |s|, 4, 0
  {
    hide TypesOk, ConversionsFit, ReadItems, MemberAt, ParseArray;
    if tg.To? {
      match KindOf(ts, tg.typ) {
        case AnyKind =>
          if ParseArray(n, s).Done? {
            ArrayIsEncodable(n, s);
            EachEncodable(ParseArray(n, s).value);
          }
        case SliceKind(e) => ItemsSized(ts, e, if tg.node.NilList? then [] else tg.node.elems, [], n, s, errs);
        case _ =>
      }
    }
  }

  lemma EachEncodable(vs: seq<Value>)
    requires |vs| < 0x1_0000_0000 && forall v | v in vs :: Encodable(v)
    ensures Encodable(Slice(vs))
  {
  }

  ghost predicate SizedItems(ts: Types, e: TypeId, es: seq<Node>)
    requires TypesOk(ts)
  {
    forall i | 0 <= i < |es| :: Shaped(ts, e, es[i]) && Sized(ts, e, es[i])
  }

  lemma {:induction false} ItemsSized(ts: Types, e: TypeId, before: seq<Node>, done: seq<Node>, n: nat, s: Bytes, errs: Errors)
    requires TypesOk(ts) && ConversionsFit(ts) && SizedItems(ts, e, before) && SizedItems(ts, e, done)
    ensures var r := ReadItems(ts, e, before, done, n, s, errs);
            r.Stored? ==> |r.value| == |done| + n && SizedItems(ts, e, r.value)
    decreases |s|, 3, n
  {
    hide TypesOk, ConversionsFit, Shaped, ReadInto, ReadItems, Sized;
    if n == 0 {
      NoItems(ts, e, before, done, s, errs);
    } else {
      ZeroSized(ts, e);
      ItemsStep(ts, e, before, done, n, s, errs);
      var tg := To(e, ItemAt(ts, e, before, |done|));
      DecodedSized(ts, tg, s, errs);
      var x := ReadInto(ts, tg, s, errs);
      if x.Stored? {
        ItemsSized(ts, e, before, done + [x.value.node], n - 1, x.rest, x.errs);
      }
    }
  }

  /** What comes back has lengths that fit only if what was encoded had. */
  lemma {:induction false} SizedBack(ts: Types, t: TypeId, n: Node)
    requires TypesOk(ts) && Shaped(ts, t, n) && Sized(ts, t, Rebuilt(ts, t, n))
    ensures Sized(ts, t, n)
    decreases n, 1
  {
    hide TypesOk, Shaped, MemberAt, RebuiltFields;
    PartsShaped(ts, t, n);
    match n {
      case Any(v) => NormKeepsDomain(v);
      case List(es) =>
        forall i | 0 <= i < |es| ensures Sized(ts, ElemOf(ts, t), es[i]) {
          assert RebuiltItems(ts, ElemOf(ts, t), n, 0)[i] == Rebuilt(ts, ElemOf(ts, t), es[i]);
          SizedBack(ts, ElemOf(ts, t), es[i]);
        }
      case Dict(m) =>
        forall k | k in m ensures NameOk(k) && Sized(ts, ElemOf(ts, t), m[k]) {
          assert Rebuilt(ts, t, n).members[k] == Rebuilt(ts, ElemOf(ts, t), m[k]);
          SizedBack(ts, ElemOf(ts, t), m[k]);
        }
      case Struct(_) => FieldsSizedBack(ts, t, n);
      case _ =>
    }
  }

  lemma {:induction false} FieldsSizedBack(ts: Types, t: TypeId, n: Node)
    requires TypesOk(ts) && Shaped(ts, t, n) && n.Struct? && Sized(ts, t, Rebuilt(ts, t, n))
    ensures forall j | 0 <= j < |ListOf(ts, t)| :: Sized(ts, ListOf(ts, t)[j].typ, MemberAt(ts, t, n, j))
    decreases n, 0
  {
    hide TypesOk, Shaped, MemberAt, RebuiltFields, RebuiltField, Rebuilt, Sized, Omitted, Empty;
    StructIs(ts, t, n);
    forall j | 0 <= j < |ListOf(ts, t)| ensures Sized(ts, ListOf(ts, t)[j].typ, MemberAt(ts, t, n, j)) {
      var f, x := ListOf(ts, t)[j], MemberAt(ts, t, n, j);
      if Omitted(f, x) {
        OmittedEmpty(f, x);
        EmptySized(ts, f.typ, x);
      } else {
        RebuiltMembers(ts, t, n, |ListOf(ts, t)|, j);
        KeptRebuilt(ts, f, x);
        SizedAt(ts, t, Rebuilt(ts, t, n), j);
        SizedBack(ts, f.typ, x);
      }
    }
  }

  lemma OmittedEmpty(f: Field, x: Node)
    ensures Omitted(f, x) ==> Empty(x)
  {
    hide Empty;
  }

  // ---- Where lengths fit, decoding never loses its place

  /** The names of all members fit their length field. */
  ghost predicate NamesFit(ts: Types) {
    forall t, i | t in ts.graph && 0 <= i < |ListOf(ts, t)| :: NameOk(ListOf(ts, t)[i].name)
  }

  /** If a value was read, it was read to its end, and is what n is rebuilt as only if n
      could be encoded. */
  ghost predicate Placed(ts: Types, t: TypeId, n: Node, rest: Bytes, errs: Errors, r: Into<Target>)
    requires TypesOk(ts) && Shaped(ts, t, n)
  {
    r.Stored? ==>
      && r.rest == rest && r.errs == errs && r.value.To?
      && (r.value.node == Rebuilt(ts, t, n) ==> Codable(ts, t, n) && (rest != [] || !EndsInEmpty(n)))
  }

  lemma {:induction false} NodePlaced(ts: Types, t: TypeId, n: Node, rest: Bytes, errs: Errors)
    requires TypesOk(ts) && NamesFit(ts) && Shaped(ts, t, n) && Sized(ts, t, n)
    ensures Fits(ts, To(t, ZeroOf(ts, t)))
    ensures Placed(ts, t, n, rest, errs, ReadInto(ts, To(t, ZeroOf(ts, t)), EncNode(ts, t, n) + rest, errs))
    decreases n, 3
  {
    hide TypesOk, NamesFit, ReadInto, EncString, Be, Enc, Encodable, MemberAt, RebuiltFields, CodableFields;
    ZeroShaped(ts, t);
    match n {
      case Any(v) => AnyPlaced(ts, t, v, rest, errs);
      case Text(s) => TextPlaced(ts, t, s, rest, errs);
      case Flag(b) => ReadFlag(ts, t, b, rest, errs);
      case Real(bits) => ReadNumber(ts, To(t, Real(0)), bits, rest, errs);
      case Whole(k) => ReadNumber(ts, To(t, Whole(0)), ts.numbers.ofInt(k), rest, errs);
      case NilList => ReadSingle(ts, To(t, NilList), NULL_MARKER, rest, errs);
      case List(es) =>
        if es == [] {
          ReadSingle(ts, To(t, NilList), UNDEFINED_MARKER, rest, errs);
        } else {
          ListPlaced(ts, t, n, rest, errs);
        }
      case NilDict => ReadSingle(ts, To(t, NilDict), NULL_MARKER, rest, errs);
      case Dict(_) => DictPlaced(ts, t, n, rest, errs);
      case Struct(_) => StructPlaced(ts, t, n, rest, errs);
    }
  }

  lemma AnyPlaced(ts: Types, t: TypeId, v: Value, rest: Bytes, errs: Errors)
    requires TypesOk(ts) && KindOf(ts, t).AnyKind? && Encodable(v)
    ensures var r := ReadInto(ts, To(t, Any(Nil)), Enc(v) + rest, errs);
            if rest == [] && EndsInEmptyString(v) then !r.Stored? else r == Stored(To(t, Any(Norm(v))), rest, errs)
  {
    hide TypesOk, ReadInto, Encodable, Norm, Enc, ParseValue, ReadInterface, EndsInEmptyString;
    if rest == [] && EndsInEmptyString(v) {
      assert Enc(v) + [] == Enc(v);
      TrailingEmptyStringFails(v);
      AnyAgrees(ts, t, Enc(v), errs);
      DecodersAgree(Enc(v));
      NotDate(v);
    } else {
      RoundTripAny(ts, t, v, rest, errs);
    }
  }

  lemma NotDate(v: Value)
    ensures !TruncatedDate(Enc(v))
  {
    hide Be, EncElems, EncMembers;
  }

  lemma TextPlaced(ts: Types, t: TypeId, s: Bytes, rest: Bytes, errs: Errors)
    requires TypesOk(ts) && KindOf(ts, t).StringKind? && |s| < 0x1_0000_0000
    ensures var r := ReadInto(ts, To(t, Text([])), EncString(s) + rest, errs);
            if s + rest == [] then !r.Stored? else r == Stored(To(t, Text(s)), rest, errs)
  {
    hide TypesOk;
    if s + rest == [] {
      Widths();
      assert Be(2, 0) == [0, 0];
    } else {
      ReadText(ts, t, s, rest, errs);
    }
  }

  lemma {:induction false} ListPlaced(ts: Types, t: TypeId, n: Node, rest: Bytes, errs: Errors)
    requires TypesOk(ts) && NamesFit(ts) && Shaped(ts, t, n) && n.List? && n.elems != [] && Sized(ts, t, n)
    ensures Fits(ts, To(t, NilList))
    ensures Placed(ts, t, n, rest, errs, ReadInto(ts, To(t, NilList), EncNode(ts, t, n) + rest, errs))
    decreases n, 2
  {
    hide TypesOk, NamesFit, ReadInto, ReadItems, Be, EncItems, EndsInEmpty, MemberAt;
    PartsShaped(ts, t, n);
    var e := ElemOf(ts, t);
    Concat4([STRICT_ARRAY_MARKER], Be(4, |n.elems|), EncItems(ts, e, n, 0), rest);
    Concat3(Be(4, |n.elems|), EncItems(ts, e, n, 0), rest);
    ReadStrict(ts, To(t, NilList), |n.elems|, EncItems(ts, e, n, 0) + rest, errs);
    ItemsPlaced(ts, e, n, 0, [], rest, errs);
    ListKept(ts, t, n, rest);
  }

  /** The elements read for those of n from position i on, after the first d. */
  ghost predicate ItemsKept(ts: Types, e: TypeId, n: Node, i: nat, d: nat, rest: Bytes, es: seq<Node>)
    requires TypesOk(ts) && n.List? && i <= |n.elems| && forall j | 0 <= j < |n.elems| :: Shaped(ts, e, n.elems[j])
  {
    && |es| == d + |n.elems| - i
    && forall j | i <= j < |n.elems| && es[d + j - i] == Rebuilt(ts, e, n.elems[j]) ::
         Codable(ts, e, n.elems[j]) && (j == |n.elems| - 1 ==> rest != [] || !EndsInEmpty(n.elems[j]))
  }

  lemma ListKept(ts: Types, t: TypeId, n: Node, rest: Bytes)
    requires TypesOk(ts) && Shaped(ts, t, n) && n.List? && n.elems != [] && Sized(ts, t, n)
    ensures forall j | 0 <= j < |n.elems| :: Shaped(ts, ElemOf(ts, t), n.elems[j])
    ensures forall es | ItemsKept(ts, ElemOf(ts, t), n, 0, 0, rest, es) && List(es) == Rebuilt(ts, t, n) ::
              Codable(ts, t, n) && (rest != [] || !EndsInEmpty(n))
  {
    hide TypesOk, MemberAt, RebuiltItems;
    PartsShaped(ts, t, n);
    var e := ElemOf(ts, t);
    forall es | ItemsKept(ts, e, n, 0, 0, rest, es) && List(es) == Rebuilt(ts, t, n)
      ensures Codable(ts, t, n) && (rest != [] || !EndsInEmpty(n))
    {
      forall j | 0 <= j < |n.elems| ensures es[j] == Rebuilt(ts, e, n.elems[j]) {
        assert RebuiltItems(ts, e, n, 0)[j] == Rebuilt(ts, e, n.elems[j]);
      }
    }
  }

  lemma {:induction false} ItemsPlaced(ts: Types, e: TypeId, n: Node, i: nat, done: seq<Node>, rest: Bytes, errs: Errors)
    requires TypesOk(ts) && NamesFit(ts) && n.List? && i <= |n.elems|
    requires forall j | 0 <= j < |n.elems| :: Shaped(ts, e, n.elems[j]) && Sized(ts, e, n.elems[j])
    requires forall j | 0 <= j < |done| :: Shaped(ts, e, done[j])
    ensures var r := ReadItems(ts, e, [], done, |n.elems| - i, EncItems(ts, e, n, i) + rest, errs);
            r.Stored? ==>
              && r.rest == rest && r.errs == errs && ItemsKept(ts, e, n, i, |done|, rest, r.value)
              && r.value[..|done|] == done
    decreases n, 1, |n.elems| - i
  {
    hide TypesOk, NamesFit, Shaped, Sized, ReadInto, ReadItems, EncNode, Rebuilt, Codable, EndsInEmpty;
    if i == |n.elems| {
      assert [] + rest == rest && done[..|done|] == done;
      NoItems(ts, e, [], done, rest, errs);
    } else {
      var tail := EncItems(ts, e, n, i + 1) + rest;
      Concat3(EncNode(ts, e, n.elems[i]), EncItems(ts, e, n, i + 1), rest);
      NodePlaced(ts, e, n.elems[i], tail, errs);
      ItemsStep(ts, e, [], done, |n.elems| - i, EncNode(ts, e, n.elems[i]) + tail, errs);
      var x := ReadInto(ts, To(e, ZeroOf(ts, e)), EncNode(ts, e, n.elems[i]) + tail, errs);
      if x.Stored? {
        ItemsPlaced(ts, e, n, i + 1, done + [x.value.node], rest, errs);
        LastTail(ts, e, n, i, rest);
        assert (done + [x.value.node])[..|done|] == done;
      }
    }
  }

  lemma LastTail(ts: Types, e: TypeId, n: Node, i: nat, rest: Bytes)
    requires TypesOk(ts) && n.List? && i < |n.elems| && forall j | 0 <= j < |n.elems| :: Shaped(ts, e, n.elems[j])
    ensures i == |n.elems| - 1 ==> EncItems(ts, e, n, i + 1) + rest == rest
  {
    hide TypesOk, Shaped, EncNode;
  }

  lemma {:induction false} DictPlaced(ts: Types, t: TypeId, n: Node, rest: Bytes, errs: Errors)
    requires TypesOk(ts) && NamesFit(ts) && Shaped(ts, t, n) && n.Dict? && Sized(ts, t, n)
    ensures Fits(ts, To(t, NilDict))
    ensures Placed(ts, t, n, rest, errs, ReadInto(ts, To(t, NilDict), EncNode(ts, t, n) + rest, errs))
    decreases n, 2
  {
    hide TypesOk, NamesFit, Shaped, Sized, KindOf, ReadInto, ReadDict, EncNode, EncEntries, Rebuilt, Codable, NameOk, Placed, Distinct;
    var e, names := ElemOf(ts, t), SortedKeys(n.members.Keys);
    SortedKeysMembers(n.members.Keys);
    DictKind(ts, t, n);
    DictEncoded(ts, t, n);
    Concat4([OBJECT_MARKER], EncEntries(ts, e, n, names), OBJECT_END, rest);
    Concat3(EncEntries(ts, e, n, names), OBJECT_END, rest);
    var s := EncEntries(ts, e, n, names) + (OBJECT_END + rest);
    ReadObjectMarked(ts, To(t, NilDict), s, errs);
    ReadNilDict(ts, t, s, errs);
    EntriesSized(ts, t, n);
    DictDistinct(n.members.Keys);
    EntriesPlaced(ts, e, n, names, map[], rest, errs);
    DictPlacedBy(ts, t, n, rest, errs, ReadDict(ts, e, map[], s, errs));
  }

  lemma EntriesSized(ts: Types, t: TypeId, n: Node)
    requires TypesOk(ts) && Shaped(ts, t, n) && n.Dict? && Sized(ts, t, n)
    ensures SizedEntries(ts, ElemOf(ts, t), n.members)
  {
    hide TypesOk, NameOk, MemberAt;
    PartsShaped(ts, t, n);
  }

  predicate Distinct(names: seq<Bytes>) {
    forall i, j | 0 <= i < j < |names| :: names[i] != names[j]
  }

  lemma DictDistinct(names: set<Bytes>)
    ensures Distinct(SortedKeys(names))
  {
    SortedKeysAscend(names);
    var r := SortedKeys(names);
    forall i, j | 0 <= i < j < |r| ensures r[i] != r[j] {
      if r[i] == r[j] {
        LessAsymmetric(r[i], r[j]);
      }
    }
  }

  /** The entries read for the given names; others are as they were. */
  ghost predicate EntriesKept(ts: Types, e: TypeId, n: Node, names: seq<Bytes>, m: map<Bytes, Node>, r: map<Bytes, Node>)
    requires TypesOk(ts) && n.Dict? && (forall k | k in names :: k in n.members) && SizedEntries(ts, e, n.members)
  {
    && (forall k | k in names :: k in r && (r[k] == Rebuilt(ts, e, n.members[k]) ==> Codable(ts, e, n.members[k])))
    && (forall k | k in m && k !in names :: k in r && r[k] == m[k])
  }

  function DictTarget(t: TypeId, p: Into<map<Bytes, Node>>): Into<Target> {
    match p
    case Stored(m, rest, errs) => Stored(To(t, Dict(m)), rest, errs)
    case Failed(within) => Failed(within)
    case Broke => Broke
  }

  lemma DictPlacedBy(ts: Types, t: TypeId, n: Node, rest: Bytes, errs: Errors, p: Into<map<Bytes, Node>>)
    requires TypesOk(ts) && Shaped(ts, t, n) && n.Dict? && SizedEntries(ts, ElemOf(ts, t), n.members)
    requires forall k :: k in SortedKeys(n.members.Keys) <==> k in n.members
    requires p.Stored? ==> p.rest == rest && p.errs == errs
                           && EntriesKept(ts, ElemOf(ts, t), n, SortedKeys(n.members.Keys), map[], p.value)
    ensures Placed(ts, t, n, rest, errs, DictTarget(t, p))
  {
    hide TypesOk, Shaped, Sized, NameOk, ElemOf, SortedKeys;
    if p.Stored? && Dict(p.value) == Rebuilt(ts, t, n) {
      forall k | k in n.members ensures Codable(ts, ElemOf(ts, t), n.members[k]) {
        assert p.value[k] == Rebuilt(ts, t, n).members[k] == Rebuilt(ts, ElemOf(ts, t), n.members[k]);
      }
    }
  }

  lemma {:induction false} EntriesPlaced(ts: Types, e: TypeId, n: Node, names: seq<Bytes>, m: map<Bytes, Node>, rest: Bytes, errs: Errors)
    requires TypesOk(ts) && NamesFit(ts) && n.Dict? && (forall k | k in names :: k in n.members) && Distinct(names)
    requires SizedEntries(ts, e, n.members) && forall k | k in m :: Shaped(ts, e, m[k])
    ensures var r := ReadDict(ts, e, m, EncEntries(ts, e, n, names) + (OBJECT_END + rest), errs);
            r.Stored? ==> r.rest == rest && r.errs == errs && EntriesKept(ts, e, n, names, m, r.value)
    decreases n, 1, |names|
  {
    hide TypesOk, NamesFit, Shaped, Sized, ReadInto, ReadDict, EncNode, Rebuilt, Codable, NameOk;
    if names == [] {
      assert [] + (OBJECT_END + rest) == OBJECT_END + rest;
      DictEnd(ts, e, m, rest, errs);
    } else {
      var name, sub := names[0], n.members[names[0]];
      var tail := EncEntries(ts, e, n, names[1..]) + (OBJECT_END + rest);
      EntryParts(ts, e, n, names, OBJECT_END + rest);
      NodePlaced(ts, e, sub, tail, errs);
      EntryRead(ts, e, m, name, EncNode(ts, e, sub) + tail, errs);
      var x := ReadInto(ts, To(e, ZeroOf(ts, e)), EncNode(ts, e, sub) + tail, errs);
      if x.Stored? {
        EntriesPlaced(ts, e, n, names[1..], m[name := x.value.node], rest, errs);
      }
    }
  }

  lemma {:induction false} StructPlaced(ts: Types, t: TypeId, n: Node, rest: Bytes, errs: Errors)
    requires TypesOk(ts) && NamesFit(ts) && Shaped(ts, t, n) && n.Struct? && Sized(ts, t, n)
    ensures Fits(ts, To(t, ZeroOf(ts, t)))
    ensures Placed(ts, t, n, rest, errs, ReadInto(ts, To(t, ZeroOf(ts, t)), EncNode(ts, t, n) + rest, errs))
    decreases n, 2
  {
    hide TypesOk, NamesFit, Shaped, ReadInto, ReadStruct, EncNode, EncFields, RebuiltFields, CodableFields, Sized, ZeroOf, MemberAt, Placed;
    ZeroShaped(ts, t);
    StructIs(ts, t, n);
    EncStruct(ts, t, n);
    Concat4([OBJECT_MARKER], EncFields(ts, t, n, 0), OBJECT_END, rest);
    Concat3(EncFields(ts, t, n, 0), OBJECT_END, rest);
    var s := EncFields(ts, t, n, 0) + (OBJECT_END + rest);
    ReadObjectMarked(ts, To(t, ZeroOf(ts, t)), s, errs);
    StructStays(ts, t, ZeroOf(ts, t));
    forall j | 0 <= j < |ListOf(ts, t)| ensures MemberAt(ts, t, ZeroOf(ts, t), j) == ZeroOf(ts, ListOf(ts, t)[j].typ) {
      ZeroAt(ts, t, j);
    }
    FieldsPlaced(ts, t, n, ZeroOf(ts, t), 0, rest, errs);
    StructPlacedBy(ts, t, n, rest, errs, ReadStruct(ts, t, ZeroOf(ts, t), s, errs));
  }

  /** Member j was read as x is rebuilt only if x could be encoded. */
  ghost predicate FieldKept(ts: Types, f: Field, x: Node, y: Node)
    requires TypesOk(ts) && Shaped(ts, f.typ, x)
  {
    Omitted(f, x) || (y == Rebuilt(ts, f.typ, x) ==> Codable(ts, f.typ, x))
  }

  /** The members of r from i on are what was read for those of n, the others those of m. */
  ghost predicate FieldsKept(ts: Types, t: TypeId, n: Node, m: Node, i: nat, r: Node)
    requires TypesOk(ts) && Shaped(ts, t, n) && n.Struct? && Shaped(ts, t, m) && m.Struct?
  {
    && Shaped(ts, t, r) && r.Struct?
    && (forall j | 0 <= j < i && j < |ListOf(ts, t)| :: MemberAt(ts, t, r, j) == MemberAt(ts, t, m, j))
    && (forall j | i <= j < |ListOf(ts, t)| :: FieldKept(ts, ListOf(ts, t)[j], MemberAt(ts, t, n, j), MemberAt(ts, t, r, j)))
  }

  function StructTarget(t: TypeId, p: Into<Node>): Into<Target> {
    match p
    case Stored(n, rest, errs) => Stored(To(t, n), rest, errs)
    case Failed(within) => Failed(within)
    case Broke => Broke
  }

  lemma StructPlacedBy(ts: Types, t: TypeId, n: Node, rest: Bytes, errs: Errors, p: Into<Node>)
    requires TypesOk(ts) && NamesFit(ts) && KindOf(ts, t).StructKind? && Shaped(ts, t, n) && n.Struct?
    requires Shaped(ts, t, ZeroOf(ts, t)) && ZeroOf(ts, t).Struct?
    requires p.Stored? ==> p.rest == rest && p.errs == errs && FieldsKept(ts, t, n, ZeroOf(ts, t), 0, p.value)
    ensures Placed(ts, t, n, rest, errs, StructTarget(t, p))
  {
    hide TypesOk, NamesFit, Shaped, KindOf, Codable, Rebuilt, ZeroOf, MemberAt, RebuiltField, CodableField, CodableFields, RebuiltFields, Omitted, EndsInEmpty;
    if p.Stored? && p.value == Rebuilt(ts, t, n) {
      forall j | 0 <= j < |ListOf(ts, t)| ensures CodableField(ts, ListOf(ts, t)[j], MemberAt(ts, t, n, j)) {
        FieldBack(ts, t, n, j, p.value);
      }
      CodableMember(ts, t, n, |ListOf(ts, t)|);
      StructCodable(ts, t, n);
    }
  }

  lemma FieldBack(ts: Types, t: TypeId, n: Node, j: nat, r: Node)
    requires TypesOk(ts) && NamesFit(ts) && KindOf(ts, t).StructKind? && Shaped(ts, t, n) && n.Struct? && j < |ListOf(ts, t)|
    requires r == Rebuilt(ts, t, n) && r.Struct?
    requires FieldKept(ts, ListOf(ts, t)[j], MemberAt(ts, t, n, j), MemberAt(ts, t, r, j))
    ensures CodableField(ts, ListOf(ts, t)[j], MemberAt(ts, t, n, j))
  {
    hide TypesOk, Shaped, KindOf, Codable, Rebuilt, ZeroOf, MemberAt, RebuiltField, RebuiltFields, Omitted, NameOk;
    var f, x := ListOf(ts, t)[j], MemberAt(ts, t, n, j);
    StructIs(ts, t, n);
    StructOfKind(ts, t);
    RebuiltMembers(ts, t, n, |ListOf(ts, t)|, j);
    KeptRebuilt(ts, f, x);
  }

  lemma StructOfKind(ts: Types, t: TypeId)
    requires TypesOk(ts) && KindOf(ts, t).StructKind?
    ensures t in ts.graph
  {
    StructIn(ts, t);
    hide *;
  }

  lemma StructCodable(ts: Types, t: TypeId, n: Node)
    requires TypesOk(ts) && Shaped(ts, t, n) && n.Struct? && CodableFields(ts, t, n, |ListOf(ts, t)|)
    ensures Codable(ts, t, n) && !EndsInEmpty(n)
  {
    hide TypesOk, Shaped, CodableFields;
    StructKnown(ts, t, n);
  }

  lemma {:induction false} FieldsPlaced(ts: Types, t: TypeId, n: Node, m: Node, i: nat, rest: Bytes, errs: Errors)
    requires TypesOk(ts) && NamesFit(ts) && KindOf(ts, t).StructKind? && i <= |ListOf(ts, t)|
    requires Shaped(ts, t, n) && n.Struct? && Sized(ts, t, n) && Shaped(ts, t, m) && m.Struct?
    requires forall j | i <= j < |ListOf(ts, t)| :: MemberAt(ts, t, m, j) == ZeroOf(ts, ListOf(ts, t)[j].typ)
    ensures var r := ReadStruct(ts, t, m, EncFields(ts, t, n, i) + (OBJECT_END + rest), errs);
            r.Stored? ==> r.rest == rest && r.errs == errs && FieldsKept(ts, t, n, m, i, r.value)
    decreases n, 1, |ListOf(ts, t)| - i
  {
    hide TypesOk, NamesFit, KindOf, Shaped, Sized, ReadInto, ReadStruct, EncNode, EncFields, Codable, Rebuilt, Omitted, ZeroOf, MemberAt, WithMember, FieldKept;
    if i == |ListOf(ts, t)| {
      NoFieldsLeft(ts, t, n);
      assert [] + (OBJECT_END + rest) == OBJECT_END + rest;
      StructEnd(ts, t, m, rest, errs);
    } else {
      var f, x, tail := ListOf(ts, t)[i], MemberAt(ts, t, n, i), EncFields(ts, t, n, i + 1) + (OBJECT_END + rest);
      FieldParts(ts, t, n, i, OBJECT_END + rest);
      if Omitted(f, x) {
        FieldsPlaced(ts, t, n, m, i + 1, rest, errs);
        LeftOutKept(ts, f, x);
      } else {
        SizedAt(ts, t, n, i);
        EndThere(rest);
        NodePlaced(ts, f.typ, x, tail, Inside(errs));
        NameFitsAt(ts, t, i);
        FieldRead(ts, t, m, i, EncNode(ts, f.typ, x) + tail, errs);
        var y := ReadInto(ts, To(f.typ, MemberAt(ts, t, m, i)), EncNode(ts, f.typ, x) + tail, Inside(errs));
        if y.Stored? {
          WithZeros(ts, t, m, i, y.value.node);
          FieldsPlaced(ts, t, n, WithMember(ts, t, m, i, y.value.node), i + 1, rest, errs);
          ReadKept(ts, f, x, y.value.node, tail, Inside(errs), y);
        }
      }
    }
  }

  lemma LeftOutKept(ts: Types, f: Field, x: Node)
    requires TypesOk(ts) && Shaped(ts, f.typ, x) && Omitted(f, x)
    ensures forall y :: FieldKept(ts, f, x, y)
  {
    hide TypesOk, Shaped, Omitted;
  }

  lemma ReadKept(ts: Types, f: Field, x: Node, y: Node, tail: Bytes, errs: Errors, r: Into<Target>)
    requires TypesOk(ts) && Shaped(ts, f.typ, x) && Placed(ts, f.typ, x, tail, errs, r) && r.Stored? && r.value.To? && y == r.value.node
    ensures FieldKept(ts, f, x, y)
  {
    hide TypesOk, Shaped, Omitted;
  }

  lemma NameFitsAt(ts: Types, t: TypeId, i: nat)
    requires TypesOk(ts) && NamesFit(ts) && KindOf(ts, t).StructKind? && i < |ListOf(ts, t)|
    ensures NameOk(ListOf(ts, t)[i].name)
  {
    hide TypesOk, NameOk, KindOf;
    StructOfKind(ts, t);
  }

  /** Setting member i leaves those after it zero, and those before it as they were. */
  lemma WithZeros(ts: Types, t: TypeId, m: Node, i: nat, x: Node)
    requires TypesOk(ts) && Shaped(ts, t, m) && m.Struct? && i < |ListOf(ts, t)| && Shaped(ts, ListOf(ts, t)[i].typ, x)
    ensures var w := WithMember(ts, t, m, i, x);
            forall j | 0 <= j < |ListOf(ts, t)| :: MemberAt(ts, t, w, j) == if j == i then x else MemberAt(ts, t, m, j)
  {
    hide *;
    forall j | 0 <= j < |ListOf(ts, t)|
      ensures MemberAt(ts, t, WithMember(ts, t, m, i, x), j) == if j == i then x else MemberAt(ts, t, m, j)
    {
      WithApart(ts, t, m, i, x, j);
    }
  }

  // ---- The theorem

  /** For every program whose member names fit their length field, every type and value, and
      whatever follows: decoding what was encoded stores the value again and leaves what
      follows, if and only if the numbers convert back, the lengths fit, and an empty string
      at the end is not the end of the input. */
  lemma RoundTripNodeExactly(ts: Types, t: TypeId, n: Node, rest: Bytes, errs: Errors)
    requires TypesOk(ts) && NamesFit(ts) && ConversionsFit(ts) && Shaped(ts, t, n)
    ensures Fits(ts, To(t, ZeroOf(ts, t)))
    ensures ReadInto(ts, To(t, ZeroOf(ts, t)), EncNode(ts, t, n) + rest, errs) == Stored(To(t, Rebuilt(ts, t, n)), rest, errs)
       <==> Codable(ts, t, n) && (rest != [] || !EndsInEmpty(n))
  {
    hide TypesOk, NamesFit, ConversionsFit, Shaped, Codable, ReadInto, EncNode, Rebuilt, ZeroOf, Sized, EndsInEmpty;
    ZeroShaped(ts, t);
    var s := EncNode(ts, t, n) + rest;
    if Codable(ts, t, n) && (rest != [] || !EndsInEmpty(n)) {
      RoundTripNode(ts, t, n, rest, errs);
    } else if ReadInto(ts, To(t, ZeroOf(ts, t)), s, errs) == Stored(To(t, Rebuilt(ts, t, n)), rest, errs) {
      ZeroSized(ts, t);
      DecodedSized(ts, To(t, ZeroOf(ts, t)), s, errs);
      SizedBack(ts, t, n);
      NodePlaced(ts, t, n, rest, errs);
    }
  }
}
