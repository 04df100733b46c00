/** amf/decode.go: value and its helpers, on targets of any type and on none. */
module TypedDecode {
  import opened ByteCodec
  import opened Results
  import opened AmfValue
  import opened AmfDecode
  import opened TypeGraph
  import opened TypeFields
  import opened Fold
  import opened TypedValues

  /** What value decodes into: a variable of some type, or an invalid reflect.Value. */
  datatype Target = Nowhere | To(typ: TypeId, node: Node)

  /** What is stored, with the input that remains and what is known of errors; an error that
      is returned, from within a member or not; or a panic. */
  datatype Into<+T> = Stored(value: T, rest: Bytes, errs: Errors) | Failed(within: bool) | Broke

  ghost predicate Fits(ts: Types, tg: Target) {
    tg.To? ==> Shaped(ts, tg.typ, tg.node)
  }

  predicate SameTarget(a: Target, b: Target) {
    if a.To? then b.To? && a.typ == b.typ else b == Nowhere
  }

  /** Set on the variable. */
  function Put(tg: Target, x: Node, rest: Bytes, errs: Errors): Into<Target>
    requires tg.To?
  {
    Stored(tg.(node := x), rest, errs)
  }

  /** Decoding keeps the type of the target. */
  ghost predicate Kept(ts: Types, tg: Target, s: Bytes, r: Into<Target>) {
    r.Stored? ==> Fits(ts, r.value) && SameTarget(tg, r.value) && |r.rest| <= |s|
  }

  // ---- Scalars: no target has no type to ask for, which panics

  function StoreNumber(ts: Types, tg: Target, bits: uint64, rest: Bytes, errs: Errors): (r: Into<Target>)
    ensures Fits(ts, tg) ==> Kept(ts, tg, rest, r)
  {
    if tg.Nowhere? then Broke else
    match KindOf(ts, tg.typ)
    case FloatKind(single) => Put(tg, Real(if single then ts.numbers.narrow(bits) else bits), rest, errs)
    case WholeKind(w) =>
      if w == Uintptr then Failed(errs.within) else Put(tg, Whole(ts.numbers.toInt(w, bits)), rest, errs)
    case StringKind(number) =>
      if number then Put(tg, Text(ts.numbers.format(bits)), rest, errs) else Failed(errs.within)
    case AnyKind => Put(tg, Any(Number(bits)), rest, errs)
    case _ => Failed(errs.within)
  }

  function StoreBool(ts: Types, tg: Target, b: bool, rest: Bytes, errs: Errors): (r: Into<Target>)
    ensures Fits(ts, tg) ==> Kept(ts, tg, rest, r)
  {
    if tg.Nowhere? then Broke else
    match KindOf(ts, tg.typ)
    case BoolKind => Put(tg, Flag(b), rest, errs)
    case AnyKind => Put(tg, Any(Bool(b)), rest, errs)
    case _ => Failed(errs.within)
  }

  predicate IsByte(k: Kind) {
    k == WholeKind(Uint8)
  }

  /** The elements of a byte slice. */
  function Octets(b: Bytes): seq<Node> {
    seq(|b|, i requires 0 <= i < |b| => Whole(b[i]))
  }

  /** A string goes into a byte slice as base 64. */
  function StoreString(ts: Types, tg: Target, s: Bytes, rest: Bytes, errs: Errors): (r: Into<Target>)
    ensures Fits(ts, tg) ==> Kept(ts, tg, rest, r)
  {
    if tg.Nowhere? then Broke else
    match KindOf(ts, tg.typ)
    case StringKind(_) => Put(tg, Text(s), rest, errs)
    case SliceKind(e) =>
      if !IsByte(KindOf(ts, e)) || ts.numbers.base64(s).None? then Failed(errs.within)
      else Put(tg, List(Octets(ts.numbers.base64(s).value)), rest, errs)
    case AnyKind => Put(tg, Any(Str(s)), rest, errs)
    case _ => Failed(errs.within)
  }

  /** The integer types a long string is parsed into. */
  predicate ParsesLong(w: Width) {
    w in {Int, Int32, Int64, Uint, Uint32, Uint64}
  }

  function StoreLong(ts: Types, tg: Target, s: Bytes, rest: Bytes, errs: Errors): (r: Into<Target>)
    ensures Fits(ts, tg) ==> Kept(ts, tg, rest, r)
  {
    if tg.Nowhere? then Broke else
    match KindOf(ts, tg.typ)
    case WholeKind(w) =>
      if !ParsesLong(w) || ts.numbers.parse(w, s).None? then Failed(errs.within)
      else Put(tg, Whole(ts.numbers.parse(w, s).value), rest, errs)
    case StringKind(_) => Put(tg, Text(s), rest, errs)
    case AnyKind => Put(tg, Any(Str(s)), rest, errs)
    case _ => Failed(errs.within)
  }

  /** null: IsNil panics on anything that cannot be nil. */
  function StoreNull(ts: Types, tg: Target, rest: Bytes, errs: Errors): (r: Into<Target>)
    ensures Fits(ts, tg) ==> Kept(ts, tg, rest, r)
  {
    if tg.Nowhere? then Broke else
    match KindOf(ts, tg.typ)
    case AnyKind => Put(tg, Any(Nil), rest, errs)
    case SliceKind(_) => Put(tg, NilList, rest, errs)
    case MapKind(_) => Put(tg, NilDict, rest, errs)
    case _ => Broke
  }

  // ---- value

  ghost function ReadInto(ts: Types, tg: Target, s: Bytes, errs: Errors): (r: Into<Target>)
    requires TypesOk(ts) && Fits(ts, tg)
    ensures Kept(ts, tg, s, r) && (r.Stored? ==> |r.rest| < |s|)
    decreases |s|, 2, 0
  {
    hide TypesOk, FromBe, Fits, StoreNumber, StoreBool, StoreString, StoreLong, StoreNull;
    if s == [] then Failed(errs.within) else
    var m, t := s[0], s[1..];
    if m == NUMBER_MARKER then
      if |t| < 8 then Failed(errs.within) else StoreNumber(ts, tg, NumberAt(t), t[8..], errs)
    else if m == BOOLEAN_MARKER then
      if t == [] then Failed(errs.within) else StoreBool(ts, tg, t[0] != 0, t[1..], errs)
    else if m == STRING_MARKER then
      var p := ParseString(2, t);
      if p.Fail? then Failed(errs.within) else StoreString(ts, tg, p.value.s, p.rest, errs)
    else if m == OBJECT_MARKER then ReadObject(ts, tg, t, errs)
    else if m == NULL_MARKER then StoreNull(ts, tg, t, errs)
    else if m == UNDEFINED_MARKER || m == UNSUPPORTED_MARKER then Stored(tg, t, errs)
    else if m == ECMA_ARRAY_MARKER then
      if |t| < 4 then Failed(errs.within) else ReadObject(ts, tg, t[4..], errs)
    else if m == STRICT_ARRAY_MARKER then
      if |t| < 4 then Failed(errs.within) else ReadArray(ts, tg, FromBe(t[..4]), t[4..], errs)
    else if m == DATE_MARKER then
      if |t| < 8 then Failed(errs.within) else Stored(tg, if TakeBytes(2, t[8..]).Done? then TakeBytes(2, t[8..]).rest else t[8..], errs)
    else if m == LONG_STRING_MARKER || m == XML_DOCUMENT_MARKER then
      var p := ParseString(4, t);
      if p.Fail? then Failed(errs.within) else StoreLong(ts, tg, p.value.s, p.rest, errs)
    else Failed(errs.within)
  }

  function NumberAt(t: Bytes): uint64
    requires |t| >= 8
  {
    FromBeBound(t[..8]);
    Widths();
    FromBe(t[..8])
  }

  /** saveError: the first error is put aside, which panics within a member. */
  function PutAside<T>(x: T, rest: Bytes, errs: Errors): Into<T> {
    if !errs.saved && errs.within then Broke else Stored(x, rest, errs.(saved := true))
  }

  /** object: the type of the target is asked for before anything is read; a target that
      can hold no object is passed over, nothing of it being read, and an error put
      aside. */
  ghost function ReadObject(ts: Types, tg: Target, s: Bytes, errs: Errors): (r: Into<Target>)
    requires TypesOk(ts) && Fits(ts, tg)
    ensures Kept(ts, tg, s, r)
    decreases |s|, 1, 0
  {
    hide TypesOk;
    if tg.Nowhere? then Broke else
    match KindOf(ts, tg.typ)
    case AnyKind =>
      var p := ParseObject(s, map[]);
      if p.Fail? then Broke else Put(tg, Any(p.value), p.rest, errs)
    case MapKind(e) =>
      var p := ReadDict(ts, e, if tg.node.NilDict? then map[] else tg.node.members, s, errs);
      (match p
       case Stored(m, rest, ev) => Put(tg, Dict(m), rest, ev)
       case Failed(w) => Failed(w)
       case Broke => Broke)
    case StructKind =>
      var p := ReadStruct(ts, tg.typ, tg.node, s, errs);
      (match p
       case Stored(n, rest, ev) => Put(tg, n, rest, ev)
       case Failed(w) => Failed(w)
       case Broke => Broke)
    case _ => PutAside(tg, s, errs)
  }

  lemma NameProgress(s: Bytes)
    ensures ParseName(s).Done? ==> |ParseName(s).rest| < |s|
  {
  }

  /** object on a map: every value is decoded into a zero element. */
  ghost function ReadDict(ts: Types, e: TypeId, m: map<Bytes, Node>, s: Bytes, errs: Errors): (r: Into<map<Bytes, Node>>)
    requires TypesOk(ts) && forall k | k in m :: Shaped(ts, e, m[k])
    ensures r.Stored? ==> (forall k | k in r.value :: Shaped(ts, e, r.value[k])) && |r.rest| <= |s|
    decreases |s|, 0, 0
  {
    hide TypesOk, ParseName, Shaped;
    NameProgress(s);
    ZeroShaped(ts, e);
    var p := ParseName(s);
    if p.Fail? then Failed(errs.within)
    else if p.value == [] then
      if p.rest != [] && p.rest[0] == OBJECT_END_MARKER then Stored(m, p.rest[1..], errs) else Broke
    else
      match ReadInto(ts, To(e, ZeroOf(ts, e)), p.rest, errs)
      case Stored(x, rest, ev) => ReadDict(ts, e, m[p.value := x.node], rest, ev)
      case Failed(w) => Failed(w)
      case Broke => Broke
  }

  lemma LookupIn(ts: Types, t: TypeId, name: Bytes)
    requires MembersKnown(ts, t)
    ensures var f := Lookup(ts.least, ts.members[t], name);
            f.Some? ==> f.value < |ListOf(ts, t)| && ListOf(ts, t)[f.value] in ListOf(ts, t)
  {
    assert InList(ts, t, name);
    hide Lookup;
  }

  /** object on a struct: every value is decoded into the member of its name, at the end of
      its index path, or nowhere. */
  ghost function ReadStruct(ts: Types, t: TypeId, n: Node, s: Bytes, errs: Errors): (r: Into<Node>)
    requires TypesOk(ts) && KindOf(ts, t).StructKind? && Shaped(ts, t, n)
    ensures r.Stored? ==> Shaped(ts, t, r.value) && |r.rest| <= |s|
    decreases |s|, 0, 0
  {
    hide TypesOk, ParseName, Shaped;
    NameProgress(s);
    var p := ParseName(s);
    if p.Fail? then Failed(errs.within)
    else if p.value == [] then
      if p.rest != [] && p.rest[0] == OBJECT_END_MARKER then Stored(n, p.rest[1..], errs) else Broke
    else
      match ReadMember(ts, t, n, p.value, p.rest, errs)
      case Stored(x, rest, ev) => ReadStruct(ts, t, x, rest, ev)
      case Failed(w) => Failed(w)
      case Broke => Broke
  }

  /** The value for an object name. */
  ghost function ReadMember(ts: Types, t: TypeId, n: Node, name: Bytes, s: Bytes, errs: Errors): (r: Into<Node>)
    requires TypesOk(ts) && KindOf(ts, t).StructKind? && Shaped(ts, t, n)
    ensures r.Stored? ==> Shaped(ts, t, r.value) && |r.rest| < |s|
    decreases |s|, 3, 0
  {
    hide TypesOk, Shaped, Lookup, PathIn, Get, Set, KindOf;
    LookupKnown(ts, t, name);
    var i := Lookup(ts.least, ts.members[t], name);
    if i.None? then
      (match ReadInto(ts, Nowhere, s, errs)
       case Stored(_, rest, ev) => Stored(n, rest, ev)
       case Failed(w) => Failed(w)
       case Broke => Broke)
    else ReadField(ts, t, n, ListOf(ts, t)[i.value], s, errs)
  }

  /** What is known of errors while a member is decoded. */
  function Inside(errs: Errors): Errors {
    Errors(errs.saved, true)
  }

  /** Into the member f of n: errorContext is set until a value is stored. */
  ghost function ReadField(ts: Types, t: TypeId, n: Node, f: Field, s: Bytes, errs: Errors): (r: Into<Node>)
    requires TypesOk(ts) && KindOf(ts, t).StructKind? && Shaped(ts, t, n) && f in ListOf(ts, t)
    ensures r.Stored? ==> Shaped(ts, t, r.value) && |r.rest| < |s|
    decreases |s|, 2, 1
  {
    hide *;
    FieldFits(ts, t, n, f);
    var p := ReadInto(ts, To(f.typ, Get(n, f.index)), s, Inside(errs));
    if p.Stored? then
      FieldSet(ts, t, n, f, p.value);
      Stored(Set(n, f.index, p.value.node), p.rest, Errors(p.errs.saved, errs.within))
    else if p.Failed? then Failed(p.within)
    else Broke
  }

  lemma FieldFits(ts: Types, t: TypeId, n: Node, f: Field)
    requires TypesOk(ts) && KindOf(ts, t).StructKind? && Shaped(ts, t, n) && f in ListOf(ts, t)
    ensures PathIn(n, f.index) && Fits(ts, To(f.typ, Get(n, f.index)))
  {
    hide TypesOk, Shaped, KindOf, Get;
    MemberOf(ts, t, n, f);
  }

  lemma FieldSet(ts: Types, t: TypeId, n: Node, f: Field, x: Target)
    requires TypesOk(ts) && KindOf(ts, t).StructKind? && Shaped(ts, t, n) && f in ListOf(ts, t)
    requires PathIn(n, f.index) && Fits(ts, x) && SameTarget(To(f.typ, Get(n, f.index)), x)
    ensures x.To? && Shaped(ts, t, Set(n, f.index, x.node))
  {
    hide TypesOk, Shaped, KindOf, Get, Set;
    SetInto(ts, t, n, f, x.node);
  }

  lemma LookupKnown(ts: Types, t: TypeId, name: Bytes)
    requires TypesOk(ts) && KindOf(ts, t).StructKind?
    ensures t in ts.members
    ensures var f := Lookup(ts.least, ts.members[t], name);
            f.Some? ==> f.value < |ListOf(ts, t)| && ListOf(ts, t)[f.value] in ListOf(ts, t)
  {
    StructIn(ts, t);
    MembersIn(ts, t);
    LookupIn(ts, t, name);
    hide *;
  }

  lemma MemberOf(ts: Types, t: TypeId, n: Node, f: Field)
    requires TypesOk(ts) && KindOf(ts, t).StructKind? && Shaped(ts, t, n) && f in ListOf(ts, t)
    ensures PathIn(n, f.index) && Shaped(ts, f.typ, Get(n, f.index))
  {
    StructIn(ts, t);
    MemberIn(ts, t, n, f);
    hide *;
  }

  lemma SetInto(ts: Types, t: TypeId, n: Node, f: Field, x: Node)
    requires TypesOk(ts) && KindOf(ts, t).StructKind? && Shaped(ts, t, n) && f in ListOf(ts, t)
    requires Shaped(ts, f.typ, x)
    ensures PathIn(n, f.index) && Shaped(ts, t, Set(n, f.index, x))
  {
    StructIn(ts, t);
    SetMember(ts, t, n, f, x);
    hide *;
  }

  lemma MembersIn(ts: Types, t: TypeId)
    requires MembersKnown(ts, t)
    ensures t in ts.members
  {
  }

  /** strictArray: n elements; a target that can hold no array is passed over like one that
      can hold no object. */
  ghost function ReadArray(ts: Types, tg: Target, n: nat, s: Bytes, errs: Errors): (r: Into<Target>)
    requires TypesOk(ts) && Fits(ts, tg)
    ensures Kept(ts, tg, s, r)
    decreases |s|, 4, 0
  {
    hide TypesOk;
    if tg.Nowhere? then Broke else
    match KindOf(ts, tg.typ)
    case AnyKind =>
      var p := ParseStrictArray(n, s);
      if p.Fail? then Broke else Put(tg, Any(p.value), p.rest, errs)
    case SliceKind(e) =>
      var p := ReadItems(ts, e, if tg.node.NilList? then [] else tg.node.elems, [], n, s, errs);
      (match p
       case Stored(es, rest, ev) => Put(tg, List(es), rest, ev)
       case Failed(w) => Failed(w)
       case Broke => Broke)
    case _ => PutAside(tg, s, errs)
  }

  /** What element i of a slice holds before it is decoded into. */
  function ItemAt(ts: Types, e: TypeId, before: seq<Node>, i: nat): Node {
    if i < |before| then before[i] else ZeroOf(ts, e)
  }

  /** n more elements after those that are done. */
  ghost function ReadItems(ts: Types, e: TypeId, before: seq<Node>, done: seq<Node>, n: nat, s: Bytes, errs: Errors): (r: Into<seq<Node>>)
    requires TypesOk(ts) && (forall j | 0 <= j < |before| :: Shaped(ts, e, before[j]))
    requires forall j | 0 <= j < |done| :: Shaped(ts, e, done[j])
    ensures r.Stored? ==> (forall j | 0 <= j < |r.value| :: Shaped(ts, e, r.value[j])) && |r.rest| <= |s|
    decreases |s|, 3, n
  {
    hide TypesOk, Shaped;
    ZeroShaped(ts, e);
    if n == 0 then Stored(done, s, errs)
    else
      match ReadInto(ts, To(e, ItemAt(ts, e, before, |done|)), s, errs)
      case Stored(x, rest, ev) => ReadItems(ts, e, before, done + [x.node], n - 1, rest, ev)
      case Failed(w) => Failed(w)
      case Broke => Broke
  }

  // ---- After the marker

  /** Where the members of an object or ECMA array begin. */
  function ObjectAt(s: Bytes): (r: Option<Bytes>)
    ensures r.Some? ==> |r.value| < |s|
  {
    if s != [] && s[0] == OBJECT_MARKER then Some(s[1..])
    else if s != [] && s[0] == ECMA_ARRAY_MARKER && |s| >= 5 then Some(s[5..])
    else None
  }

  lemma IntoObject(ts: Types, tg: Target, s: Bytes, errs: Errors)
    requires TypesOk(ts) && Fits(ts, tg) && ObjectAt(s).Some?
    ensures ReadInto(ts, tg, s, errs) == ReadObject(ts, tg, ObjectAt(s).value, errs)
  {
    hide TypesOk, Fits, ReadObject;
    assert |s| >= 5 ==> s[1..][4..] == s[5..];
  }

  lemma IntoArray(ts: Types, tg: Target, s: Bytes, errs: Errors)
    requires TypesOk(ts) && Fits(ts, tg) && |s| >= 5 && s[0] == STRICT_ARRAY_MARKER
    ensures ReadInto(ts, tg, s, errs) == ReadArray(ts, tg, FromBe(s[1..5]), s[5..], errs)
  {
    hide TypesOk, Fits, ReadArray, FromBe;
    assert s[1..][4..] == s[5..] && s[1..][..4] == s[1..5];
  }

  // ---- Over the cursor

  /** The outcome is that of p, and so are the cursor and what is known of errors. Only a
      value leaves the context of errors as it was. */
  ghost predicate Agrees<T>(d: DecodeState, stack: seq<Bytes>, p: Into<T>, r: Outcome<T>)
    reads d
  {
    && d.Valid()
    && match p
       case Stored(x, rest, errs) => r == Ok(x) && d.Rest() == rest && d.Errs() == errs && d.fieldStack == stack
       case Failed(within) => r == Error && d.Errs().within == within
       case Broke => r == Panic
  }

  method ValueInto(d: DecodeState, ts: Types, tg: Target) returns (r: Outcome<Target>)
    requires d.Valid() && TypesOk(ts) && Fits(ts, tg)
    modifies d
    ensures Agrees(d, old(d.fieldStack), ReadInto(ts, tg, old(d.Rest()), old(d.Errs())), r)
    decreases |d.data| - d.off, 5, 0
  {
    hide TypesOk, Fits, FromBe, ReadObject, ReadArray, StoreNumber, StoreBool, StoreString, StoreLong, StoreNull;
    var m := d.ReadByte();
    if m.Error? {
      return Error;
    }
    if m.value == NUMBER_MARKER {
      r := Float64Into(d, ts, tg);
    } else if m.value == BOOLEAN_MARKER {
      r := BoolInto(d, ts, tg);
    } else if m.value == STRING_MARKER {
      r := StringInto(d, ts, tg);
    } else if m.value == OBJECT_MARKER {
      r := ObjectInto(d, ts, tg);
    } else if m.value == NULL_MARKER {
      r := NullInto(d, ts, tg);
    } else if m.value == UNDEFINED_MARKER || m.value == UNSUPPORTED_MARKER {
      r := Ok(tg);
    } else if m.value == ECMA_ARRAY_MARKER {
      r := EcmaArrayInto(d, ts, tg);
    } else if m.value == STRICT_ARRAY_MARKER {
      r := StrictArrayInto(d, ts, tg);
    } else if m.value == DATE_MARKER {
      r := DateInto(d, tg);
    } else if m.value == LONG_STRING_MARKER || m.value == XML_DOCUMENT_MARKER {
      r := LongStringInto(d, ts, tg);
    } else {
      r := Error;
    }
  }

  method Float64Into(d: DecodeState, ts: Types, tg: Target) returns (r: Outcome<Target>)
    requires d.Valid()
    modifies d`off
    ensures Agrees(d, old(d.fieldStack), if |old(d.Rest())| < 8 then Failed(old(d.Errs()).within)
                      else StoreNumber(ts, tg, NumberAt(old(d.Rest())), old(d.Rest())[8..], d.Errs()), r)
  {
    ghost var t := d.Rest();
    var f := d.ReadUint(8);
    if f.Error? {
      return Error;
    }
    FromBeBound(t[..8]);
    Widths();
    var bits: uint64 := f.value;
    if tg.Nowhere? {
      return Panic;
    }
    match KindOf(ts, tg.typ) {
      case FloatKind(single) => r := Ok(tg.(node := Real(if single then ts.numbers.narrow(bits) else bits)));
      case WholeKind(w) => r := if w == Uintptr then Error else Ok(tg.(node := Whole(ts.numbers.toInt(w, bits))));
      case StringKind(number) => r := if number then Ok(tg.(node := Text(ts.numbers.format(bits)))) else Error;
      case AnyKind => r := Ok(tg.(node := Any(Number(bits))));
      case _ => r := Error;
    }
  }

  method BoolInto(d: DecodeState, ts: Types, tg: Target) returns (r: Outcome<Target>)
    requires d.Valid()
    modifies d`off
    ensures Agrees(d, old(d.fieldStack), if old(d.Rest()) == [] then Failed(d.Errs().within)
                      else StoreBool(ts, tg, old(d.Rest())[0] != 0, old(d.Rest())[1..], d.Errs()), r)
  {
    var bt := d.ReadByte();
    if bt.Error? {
      return Error;
    }
    var b := bt.value != 0;
    if tg.Nowhere? {
      return Panic;
    }
    match KindOf(ts, tg.typ) {
      case BoolKind => r := Ok(tg.(node := Flag(b)));
      case AnyKind => r := Ok(tg.(node := Any(Bool(b))));
      case _ => r := Error;
    }
  }

  /** A length-prefixed string. */
  method ReadString(d: DecodeState, width: nat) returns (s: Outcome<Bytes>)
    requires d.Valid()
    modifies d`off
    ensures d.Valid()
    ensures var p := ParseString(width, old(d.Rest()));
            if p.Fail? then s == Error else s == Ok(p.value.s) && d.Rest() == p.rest
  {
    var u := d.ReadUint(width);
    if u.Error? {
      return Error;
    }
    s := d.Read(u.value);
  }

  method StringInto(d: DecodeState, ts: Types, tg: Target) returns (r: Outcome<Target>)
    requires d.Valid()
    modifies d`off
    ensures var p := ParseString(2, old(d.Rest()));
            Agrees(d, old(d.fieldStack), if p.Fail? then Failed(old(d.Errs()).within) else StoreString(ts, tg, p.value.s, p.rest, d.Errs()), r)
  {
    var s := ReadString(d, 2);
    if !s.Ok? {
      return Error;
    }
    if tg.Nowhere? {
      return Panic;
    }
    match KindOf(ts, tg.typ) {
      case StringKind(_) => r := Ok(tg.(node := Text(s.value)));
      case SliceKind(e) =>
        if !IsByte(KindOf(ts, e)) {
          return Error;
        }
        var b := ts.numbers.base64(s.value);
        r := if b.None? then Error else Ok(tg.(node := List(Octets(b.value))));
      case AnyKind => r := Ok(tg.(node := Any(Str(s.value))));
      case _ => r := Error;
    }
  }

  method LongStringInto(d: DecodeState, ts: Types, tg: Target) returns (r: Outcome<Target>)
    requires d.Valid()
    modifies d`off
    ensures var p := ParseString(4, old(d.Rest()));
            Agrees(d, old(d.fieldStack), if p.Fail? then Failed(old(d.Errs()).within) else StoreLong(ts, tg, p.value.s, p.rest, d.Errs()), r)
  {
    hide ParseString;
    var s := ReadString(d, 4);
    if !s.Ok? {
      return Error;
    }
    if tg.Nowhere? {
      return Panic;
    }
    match KindOf(ts, tg.typ) {
      case WholeKind(w) =>
        if !ParsesLong(w) {
          return Error;
        }
        var n := ts.numbers.parse(w, s.value);
        r := if n.None? then Error else Ok(tg.(node := Whole(n.value)));
      case StringKind(_) => r := Ok(tg.(node := Text(s.value)));
      case AnyKind => r := Ok(tg.(node := Any(Str(s.value))));
      case _ => r := Error;
    }
  }

  method NullInto(d: DecodeState, ts: Types, tg: Target) returns (r: Outcome<Target>)
    requires d.Valid()
    ensures Agrees(d, old(d.fieldStack), StoreNull(ts, tg, d.Rest(), d.Errs()), r)
  {
    if tg.Nowhere? {
      return Panic;
    }
    match KindOf(ts, tg.typ) {
      case AnyKind => r := Ok(tg.(node := Any(Nil)));
      case SliceKind(_) => r := Ok(tg.(node := NilList));
      case MapKind(_) => r := Ok(tg.(node := NilDict));
      case _ => r := Panic;
    }
  }

  method DateInto(d: DecodeState, tg: Target) returns (r: Outcome<Target>)
    requires d.Valid()
    modifies d`off
    ensures var t := old(d.Rest());
            Agrees(d, old(d.fieldStack), if |t| < 8 then Failed(old(d.Errs()).within)
                      else Stored(tg, if TakeBytes(2, t[8..]).Done? then TakeBytes(2, t[8..]).rest else t[8..], d.Errs()), r)
  {
    var f := d.ReadUint(8);
    if f.Error? {
      return Error;
    }
    var s := d.Read(2);
    r := Ok(tg);
  }

  method EcmaArrayInto(d: DecodeState, ts: Types, tg: Target) returns (r: Outcome<Target>)
    requires d.Valid() && TypesOk(ts) && Fits(ts, tg)
    modifies d
    ensures Agrees(d, old(d.fieldStack), if |old(d.Rest())| < 4 then Failed(old(d.Errs()).within) else ReadObject(ts, tg, old(d.Rest())[4..], old(d.Errs())), r)
    decreases |d.data| - d.off, 5, 0
  {
    hide TypesOk, Fits, ReadObject;
    var u := d.ReadUint(4);
    if u.Error? {
      return Error;
    }
    r := ObjectInto(d, ts, tg);
  }

  method ObjectInto(d: DecodeState, ts: Types, tg: Target) returns (r: Outcome<Target>)
    requires d.Valid() && TypesOk(ts) && Fits(ts, tg)
    modifies d
    ensures Agrees(d, old(d.fieldStack), ReadObject(ts, tg, old(d.Rest()), old(d.Errs())), r)
    decreases |d.data| - d.off, 4, 0
  {
    hide TypesOk, ParseObject, ReadDict, ReadStruct;
    if tg.Nowhere? {
      return Panic;
    }
    match KindOf(ts, tg.typ) {
      case AnyKind =>
        var v := d.ObjectInterface();
        r := if v.Ok? then Ok(tg.(node := Any(v.value))) else Panic;
      case MapKind(e) =>
        var m := DictInto(d, ts, e, if tg.node.NilDict? then map[] else tg.node.members);
        r := if m.Ok? then Ok(tg.(node := Dict(m.value))) else if m.Error? then Error else Panic;
      case StructKind =>
        var n := ObjectStruct(d, ts, tg.typ, tg.node);
        r := if n.Ok? then Ok(tg.(node := n.value)) else if n.Error? then Error else Panic;
      case _ =>
        var panics := d.SaveError();
        r := if panics then Panic else Ok(tg);
    }
  }

  /** The member loop on a map. */
  method DictInto(d: DecodeState, ts: Types, e: TypeId, target: map<Bytes, Node>) returns (r: Outcome<map<Bytes, Node>>)
    requires d.Valid() && TypesOk(ts) && forall k | k in target :: Shaped(ts, e, target[k])
    modifies d
    ensures Agrees(d, old(d.fieldStack), ReadDict(ts, e, target, old(d.Rest()), old(d.Errs())), r)
    decreases |d.data| - d.off, 3, 0
  {
    ghost var stack := d.fieldStack;
    ghost var start := ReadDict(ts, e, target, d.Rest(), d.Errs());
    var m, done := target, false;
    r := Panic;
    while !done
      invariant (!done ==> d.fieldStack == stack) && d.Valid() && (!done ==> d.off >= old(d.off)) && forall k | k in m :: Shaped(ts, e, m[k])
      invariant if done then Agrees(d, stack, start, r) else ReadDict(ts, e, m, d.Rest(), d.Errs()) == start
      decreases !done, |d.data| - d.off
    {
      hide TypesOk, Shaped, ReadDict;
      m, done, r := DictEntry(d, ts, e, m);
    }
  }

  /** One iteration: the end of the object, a failure, or one entry. */
  method DictEntry(d: DecodeState, ts: Types, e: TypeId, m: map<Bytes, Node>)
    returns (m': map<Bytes, Node>, done: bool, r: Outcome<map<Bytes, Node>>)
    requires d.Valid() && TypesOk(ts) && forall k | k in m :: Shaped(ts, e, m[k])
    modifies d
    ensures d.Valid() && forall k | k in m' :: Shaped(ts, e, m'[k])
    ensures done ==> Agrees(d, old(d.fieldStack), ReadDict(ts, e, m, old(d.Rest()), old(d.Errs())), r)
    ensures !done ==> d.off > old(d.off) && d.fieldStack == old(d.fieldStack)
    ensures !done ==> ReadDict(ts, e, m', d.Rest(), d.Errs()) == ReadDict(ts, e, m, old(d.Rest()), old(d.Errs()))
    decreases |d.data| - d.off, 2, 0
  {
    hide TypesOk, Shaped, ReadInto;
    ZeroShaped(ts, e);
    NameProgress(d.Rest());
    var on := d.ObjectName();
    if on.Error? {
      return m, true, Error;
    }
    if |on.value| == 0 {
      var ended := ObjectEnd(d);
      return m, true, if ended then Ok(m) else Panic;
    }
    var v := ValueInto(d, ts, To(e, ZeroOf(ts, e)));
    if !v.Ok? {
      return m, true, if v.Error? then Error else Panic;
    }
    return m[on.value := v.value.node], false, Panic;
  }

  /** The member loop on a struct: find the member, walk its index path, decode in place. */
  method ObjectStruct(d: DecodeState, ts: Types, t: TypeId, target: Node) returns (r: Outcome<Node>)
    requires d.Valid() && TypesOk(ts) && KindOf(ts, t).StructKind? && Shaped(ts, t, target)
    modifies d
    ensures Agrees(d, old(d.fieldStack), ReadStruct(ts, t, target, old(d.Rest()), old(d.Errs())), r)
    decreases |d.data| - d.off, 3, 0
  {
    ghost var stack := d.fieldStack;
    ghost var start := ReadStruct(ts, t, target, d.Rest(), d.Errs());
    var n, done := target, false;
    r := Panic;
    while !done
      invariant (!done ==> d.fieldStack == stack) && d.Valid() && (!done ==> d.off >= old(d.off)) && Shaped(ts, t, n)
      invariant if done then Agrees(d, stack, start, r) else ReadStruct(ts, t, n, d.Rest(), d.Errs()) == start
      decreases !done, |d.data| - d.off
    {
      hide TypesOk, Shaped, ReadStruct;
      n, done, r := ObjectMember(d, ts, t, n);
    }
  }

  /** One iteration: the end of the object, a failure, or one member. */
  method ObjectMember(d: DecodeState, ts: Types, t: TypeId, n: Node)
    returns (n': Node, done: bool, r: Outcome<Node>)
    requires d.Valid() && TypesOk(ts) && KindOf(ts, t).StructKind? && Shaped(ts, t, n)
    modifies d
    ensures d.Valid() && Shaped(ts, t, n')
    ensures done ==> Agrees(d, old(d.fieldStack), ReadStruct(ts, t, n, old(d.Rest()), old(d.Errs())), r)
    ensures !done ==> d.off > old(d.off) && d.fieldStack == old(d.fieldStack)
    ensures !done ==> ReadStruct(ts, t, n', d.Rest(), d.Errs()) == ReadStruct(ts, t, n, old(d.Rest()), old(d.Errs()))
    decreases |d.data| - d.off, 2, 0
  {
    hide TypesOk, Shaped, ReadMember, ReadStruct, KindOf, ParseName;
    NameProgress(d.Rest());
    StructStep(ts, t, n, d.Rest(), d.Errs());
    var on := d.ObjectName();
    if on.Error? {
      return n, true, Error;
    }
    if |on.value| == 0 {
      var ended := ObjectEnd(d);
      return n, true, if ended then Ok(n) else Panic;
    }
    var x := MemberInto(d, ts, t, n, on.value);
    if !x.Ok? {
      return n, true, if x.Error? then Error else Panic;
    }
    return x.value, false, Panic;
  }

  lemma StructStep(ts: Types, t: TypeId, n: Node, s: Bytes, errs: Errors)
    requires TypesOk(ts) && KindOf(ts, t).StructKind? && Shaped(ts, t, n)
    ensures var p := ParseName(s);
            ReadStruct(ts, t, n, s, errs)
            == if p.Fail? then Failed(errs.within)
               else if p.value == [] then
                 if p.rest != [] && p.rest[0] == OBJECT_END_MARKER then Stored(n, p.rest[1..], errs) else Broke
               else
                 var x := ReadMember(ts, t, n, p.value, p.rest, errs);
                 if x.Stored? then ReadStruct(ts, t, x.value, x.rest, x.errs) else x
  {
  }

  /** After an empty name the end marker must follow. */
  method ObjectEnd(d: DecodeState) returns (ended: bool)
    requires d.Valid()
    modifies d`off
    ensures d.Valid() && ended == (old(d.Rest()) != [] && old(d.Rest())[0] == OBJECT_END_MARKER)
    ensures ended ==> d.Rest() == old(d.Rest())[1..]
  {
    var end := d.ReadByte();
    ended := end.Ok? && end.value == OBJECT_END_MARKER;
  }

  /** The value for an object name: into the member of that name, or nowhere. */
  method MemberInto(d: DecodeState, ts: Types, t: TypeId, n: Node, on: Bytes) returns (r: Outcome<Node>)
    requires d.Valid() && TypesOk(ts) && KindOf(ts, t).StructKind? && Shaped(ts, t, n)
    modifies d
    ensures Agrees(d, old(d.fieldStack), ReadMember(ts, t, n, on, old(d.Rest()), old(d.Errs())), r)
    decreases |d.data| - d.off, 6, 0
  {
    hide TypesOk, Shaped, ReadInto, ReadField, ReadMember, KindOf, Lookup, OrbitsOk;
    LookupKnown(ts, t, on);
    OrbitsKnown(ts);
    MemberStep(ts, t, n, on, d.Rest(), d.Errs());
    var i := FindMember(ts.least, ts.members[t], on);
    if i.None? {
      var skipped := ValueInto(d, ts, Nowhere);
      return if skipped.Ok? then Ok(n) else if skipped.Error? then Error else Panic;
    }
    r := FieldInto(d, ts, t, n, ListOf(ts, t)[i.value]);
  }

  /** The name of the member is in the context of errors until a value has been decoded; an
      error leaves it there. */
  method FieldInto(d: DecodeState, ts: Types, t: TypeId, n: Node, f: Field) returns (r: Outcome<Node>)
    requires d.Valid() && TypesOk(ts) && KindOf(ts, t).StructKind? && Shaped(ts, t, n)
    requires f in ListOf(ts, t)
    modifies d
    ensures Agrees(d, old(d.fieldStack), ReadField(ts, t, n, f, old(d.Rest()), old(d.Errs())), r)
    decreases |d.data| - d.off, 5, 1
  {
    hide TypesOk, Shaped, ReadInto, KindOf, PathIn, Get, Set;
    MemberOf(ts, t, n, f);
    ghost var stack, errs := d.fieldStack, d.Errs();
    d.fieldStack := d.fieldStack + [f.name];
    assert d.Errs() == Inside(errs);
    var v := ValueInto(d, ts, To(f.typ, Get(n, f.index)));
    if !v.Ok? {
      return if v.Error? then Error else Panic;
    }
    d.fieldStack := d.fieldStack[..|d.fieldStack| - 1];
    assert d.fieldStack == stack;
    r := Ok(Set(n, f.index, v.value.node));
  }

  lemma MemberStep(ts: Types, t: TypeId, n: Node, name: Bytes, s: Bytes, errs: Errors)
    requires TypesOk(ts) && KindOf(ts, t).StructKind? && Shaped(ts, t, n)
    requires t in ts.members
    requires var i := Lookup(ts.least, ts.members[t], name);
             i.Some? ==> i.value < |ListOf(ts, t)| && ListOf(ts, t)[i.value] in ListOf(ts, t)
    ensures var i := Lookup(ts.least, ts.members[t], name);
            ReadMember(ts, t, n, name, s, errs)
            == if i.Some? then ReadField(ts, t, n, ListOf(ts, t)[i.value], s, errs)
               else
                 match ReadInto(ts, Nowhere, s, errs)
                 case Stored(_, rest, ev) => Stored(n, rest, ev)
                 case Failed(w) => Failed(w)
                 case Broke => Broke
  {
    hide TypesOk, Shaped, ReadInto, ReadField, KindOf, Lookup;
  }

  lemma OrbitsKnown(ts: Types)
    requires TypesOk(ts)
    ensures OrbitsOk(ts.least)
  {
  }

  method FindMember(least: Orbits, sf: StructFields, on: Bytes) returns (f: Option<nat>)
    requires OrbitsOk(least)
    ensures f == Lookup(least, sf, on)
  {
    if on in sf.byExactName {
      return Some(sf.byExactName[on]);
    }
    var key := FoldName(least, on);
    f := if key in sf.byFoldedName then Some(sf.byFoldedName[key]) else None;
  }

  method StrictArrayInto(d: DecodeState, ts: Types, tg: Target) returns (r: Outcome<Target>)
    requires d.Valid() && TypesOk(ts) && Fits(ts, tg)
    modifies d
    ensures Agrees(d, old(d.fieldStack), if |old(d.Rest())| < 4 then Failed(old(d.Errs()).within)
                      else ReadArray(ts, tg, FromBe(old(d.Rest())[..4]), old(d.Rest())[4..], old(d.Errs())), r)
    decreases |d.data| - d.off, 8, 0
  {
    hide TypesOk, FromBe, ParseArray, ReadItems, Attempts;
    var u := d.ReadUint(4);
    if u.Error? {
      return Error;
    }
    if tg.Nowhere? {
      return Panic;
    }
    match KindOf(ts, tg.typ) {
      case AnyKind =>
        var v, _ := d.ArrayInterface(u.value);
        r := if v.Ok? then Ok(tg.(node := Any(v.value))) else Panic;
      case SliceKind(e) =>
        var es := ItemsInto(d, ts, e, if tg.node.NilList? then [] else tg.node.elems, u.value);
        r := if es.Ok? then Ok(tg.(node := List(es.value))) else if es.Error? then Error else Panic;
      case _ =>
        var panics := d.SaveError();
        r := if panics then Panic else Ok(tg);
    }
  }

  /** The element loop, in place over what the slice held. */
  method ItemsInto(d: DecodeState, ts: Types, e: TypeId, before: seq<Node>, n: nat) returns (r: Outcome<seq<Node>>)
    requires d.Valid() && TypesOk(ts) && forall j | 0 <= j < |before| :: Shaped(ts, e, before[j])
    modifies d
    ensures Agrees(d, old(d.fieldStack), ReadItems(ts, e, before, [], n, old(d.Rest()), old(d.Errs())), r)
    decreases |d.data| - d.off, 7, 0
  {
    ghost var start := ReadItems(ts, e, before, [], n, d.Rest(), d.Errs());
    var v: seq<Node> := [];
    assert ItemsLeft(d, ts, e, before, v, n, start);
    for i := 0 to n
      invariant d.Valid() && d.off >= old(d.off) && d.fieldStack == old(d.fieldStack)
      invariant ItemsLeft(d, ts, e, before, v, n - i, start)
    {
      hide *;
      var x := ItemInto(d, ts, e, before, v, n - i, start);
      if !x.Ok? {
        return if x.Error? then Error else Panic;
      }
      v := v + [x.value];
    }
    NoItems(ts, e, before, v, d.Rest(), d.Errs());
    r := Ok(v);
  }

  /** n elements are left to be decoded after those in v. */
  ghost predicate ItemsLeft(d: DecodeState, ts: Types, e: TypeId, before: seq<Node>, v: seq<Node>, n: nat, start: Into<seq<Node>>)
    reads d
  {
    && d.Valid() && TypesOk(ts)
    && (forall j | 0 <= j < |before| :: Shaped(ts, e, before[j])) && (forall j | 0 <= j < |v| :: Shaped(ts, e, v[j]))
    && ReadItems(ts, e, before, v, n, d.Rest(), d.Errs()) == start
  }

  method ItemInto(d: DecodeState, ts: Types, e: TypeId, before: seq<Node>, v: seq<Node>, ghost n: nat, ghost start: Into<seq<Node>>)
    returns (x: Outcome<Node>)
    requires ItemsLeft(d, ts, e, before, v, n, start) && n > 0
    modifies d
    ensures d.Valid() && (x.Ok? ==> d.off >= old(d.off) && d.fieldStack == old(d.fieldStack) && ItemsLeft(d, ts, e, before, v + [x.value], n - 1, start))
    ensures !x.Ok? ==> start == if x.Error? then Failed(d.Errs().within) else Broke
    decreases |d.data| - d.off, 6, 0
  {
    hide TypesOk, Shaped, ReadInto, ReadItems;
    ItemsStep(ts, e, before, v, n, d.Rest(), d.Errs());
    var y := ValueInto(d, ts, To(e, ItemAt(ts, e, before, |v|)));
    x := if y.Ok? then Ok(y.value.node) else if y.Error? then Error else Panic;
  }

  lemma ItemsStep(ts: Types, e: TypeId, before: seq<Node>, done: seq<Node>, n: nat, s: Bytes, errs: Errors)
    requires TypesOk(ts) && n > 0 && (forall j | 0 <= j < |before| :: Shaped(ts, e, before[j]))
    requires forall j | 0 <= j < |done| :: Shaped(ts, e, done[j])
    ensures Fits(ts, To(e, ItemAt(ts, e, before, |done|)))
    ensures ReadItems(ts, e, before, done, n, s, errs)
            == match ReadInto(ts, To(e, ItemAt(ts, e, before, |done|)), s, errs)
               case Stored(x, rest, ev) => ReadItems(ts, e, before, done + [x.node], n - 1, rest, ev)
               case Failed(w) => Failed(w)
               case Broke => Broke
  {
    hide TypesOk, Shaped, ReadInto;
    ZeroShaped(ts, e);
  }

  lemma NoItems(ts: Types, e: TypeId, before: seq<Node>, done: seq<Node>, s: Bytes, errs: Errors)
    requires TypesOk(ts) && (forall j | 0 <= j < |before| :: Shaped(ts, e, before[j]))
    requires forall j | 0 <= j < |done| :: Shaped(ts, e, done[j])
    ensures ReadItems(ts, e, before, done, 0, s, errs) == Stored(done, s, errs)
  {
  }

  /** How unmarshal ends: an error that is returned passes addErrorContext, which panics
      within a member; an error put aside is reported last. */
  function Reported(p: Into<Target>): Outcome<Node>
    requires p.Stored? ==> p.value.To?
  {
    match p
    case Stored(x, _, errs) => if errs.saved then Error else Ok(x.node)
    case Failed(within) => if within then Panic else Error
    case Broke => Panic
  }

  /** What Unmarshal makes of a variable of type t that holds zero. */
  ghost function Unmarshalled(ts: Types, t: TypeId, data: Bytes): Outcome<Node>
    requires TypesOk(ts)
  {
    hide TypesOk, Shaped, ReadInto;
    ZeroShaped(ts, t);
    Reported(ReadInto(ts, To(t, ZeroOf(ts, t)), data, NO_ERRORS))
  }

  method Unmarshal(ts: Types, data: Bytes, t: TypeId) returns (r: Outcome<Node>)
    requires TypesOk(ts)
    ensures r == Unmarshalled(ts, t, data)
  {
    hide TypesOk, Shaped, ReadInto;
    ZeroShaped(ts, t);
    var d := new DecodeState(data);
    var v := ValueInto(d, ts, To(t, ZeroOf(ts, t)));
    if v.Error? {
      var panics := d.AddErrorContext();
      return if panics then Panic else Error;
    }
    r := if v.Panic? then Panic else if d.saved then Error else Ok(v.value.node);
  }
}
