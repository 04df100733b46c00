/** amf/decode.go: errors within struct members, where the context that should go into the
    error makes every one of them a panic. */
module MemberErrors {
  import opened ByteCodec
  import opened Results
  import opened AmfValue
  import opened AmfDecode
  import opened TypeGraph
  import opened TypeFields
  import opened Fold
  import opened TypedValues
  import opened TypedDecode
  import AmfRoundTrip
  import StructCodec

  // ---- What can be read, from the types and the bytes alone

  /** The type of a target is asked for: the bytes read before that are there. */
  predicate AsksType(s: Bytes) {
    s != [] && StructCodec.BytesBeforeType(s[0]).Some? && |s| >= StructCodec.BytesBeforeType(s[0]).value
  }

  /** The string after the marker, and what follows it. */
  function StringAt(width: nat, s: Bytes): (Bytes, Bytes)
    requires s != []
  {
    var p := ParseString(width, s[1..]);
    if p.Done? then (p.value.s, p.rest) else ([], [])
  }

  /** What is left after a value that is skipped whatever the target is. */
  function Skipped(s: Bytes): (r: Option<Bytes>)
    ensures r.Some? ==> |r.value| < |s|
  {
    if s == [] then None
    else if s[0] in {UNDEFINED_MARKER, UNSUPPORTED_MARKER} then Some(s[1..])
    else if s[0] == DATE_MARKER && |s| >= 9 then Some(if |s| >= 11 then s[11..] else [])
    else None
  }

  /** What is left after a scalar that goes into a variable of kind k. */
  function Scalar(ts: Types, k: Kind, s: Bytes): (r: Option<Bytes>)
    ensures r.Some? ==> |r.value| < |s|
  {
    if Skipped(s).Some? then Skipped(s)
    else if !AsksType(s) then None
    else if s[0] == NULL_MARKER then
      if k.AnyKind? || k.SliceKind? || k.MapKind? then Some(s[1..]) else None
    else if s[0] == BOOLEAN_MARKER then
      if k.AnyKind? || k.BoolKind? then Some(s[2..]) else None
    else if s[0] == NUMBER_MARKER then
      if k.AnyKind? || k.FloatKind? || (k.WholeKind? && k.width != Uintptr) || k == StringKind(true) then Some(s[9..]) else None
    else if s[0] == STRING_MARKER then
      if k.AnyKind? || k.StringKind? || TakesBase64(ts, k, StringAt(2, s).0) then Some(StringAt(2, s).1) else None
    else if s[0] in {LONG_STRING_MARKER, XML_DOCUMENT_MARKER} then
      if k.AnyKind? || k.StringKind? || TakesDigits(ts, k, StringAt(4, s).0) then Some(StringAt(4, s).1) else None
    else None
  }

  predicate TakesBase64(ts: Types, k: Kind, b: Bytes) {
    k.SliceKind? && KindOf(ts, k.elem) == WholeKind(Uint8) && ts.numbers.base64(b).Some?
  }

  predicate TakesDigits(ts: Types, k: Kind, b: Bytes) {
    k.WholeKind? && k.width !in {Int8, Int16, Uint8, Uint16, Uintptr} && ts.numbers.parse(k.width, b).Some?
  }

  /** What is left after a value that goes into a variable of type t. */
  ghost function Readable(ts: Types, t: TypeId, s: Bytes): (r: Option<Bytes>)
    ensures r.Some? ==> |r.value| < |s|
    decreases |s|, 3, 0
  {
    if s == [] then None
    else if ObjectAt(s).Some? then Contents(ts, t, ObjectAt(s).value)
    else if s[0] == STRICT_ARRAY_MARKER && |s| >= 5 then Elements(ts, t, FromBe(s[1..5]), s[5..])
    else Scalar(ts, KindOf(ts, t), s)
  }

  ghost function Contents(ts: Types, t: TypeId, s: Bytes): (r: Option<Bytes>)
    ensures r.Some? ==> |r.value| <= |s|
    decreases |s|, 2, 0
  {
    match KindOf(ts, t)
    case AnyKind => if ParseObject(s, map[]).Done? then Some(ParseObject(s, map[]).rest) else None
    case MapKind(_) => Entries(ts, t, s)
    case StructKind => Entries(ts, t, s)
    case _ => None
  }

  /** The end of an object, after an empty name. */
  predicate Ended(s: Bytes) {
    s != [] && s[0] == OBJECT_END_MARKER
  }

  ghost function Entries(ts: Types, t: TypeId, s: Bytes): (r: Option<Bytes>)
    ensures r.Some? ==> |r.value| <= |s|
    decreases |s|, 1, 0
  {
    NameProgress(s);
    hide ParseName;
    var p := ParseName(s);
    if p.Fail? then None
    else if p.value == [] then if Ended(p.rest) then Some(p.rest[1..]) else None
    else
      var q := Entry(ts, t, p.value, p.rest);
      if q.None? then None else Entries(ts, t, q.value)
  }

  /** The value for an object name: of the type of the member or the map element; nowhere
      if there is none. */
  ghost function Entry(ts: Types, t: TypeId, name: Bytes, s: Bytes): (r: Option<Bytes>)
    ensures r.Some? ==> |r.value| < |s|
    decreases |s|, 4, 0
  {
    if MemberType(ts, t, name).Some? then Readable(ts, MemberType(ts, t, name).value, s) else Skipped(s)
  }

  ghost function MemberType(ts: Types, t: TypeId, name: Bytes): Option<TypeId> {
    match KindOf(ts, t)
    case MapKind(e) => Some(e)
    case StructKind =>
      if t !in ts.members then None else
      var i := Lookup(ts.least, ts.members[t], name);
      if i.Some? && i.value < |ListOf(ts, t)| then Some(ListOf(ts, t)[i.value].typ) else None
    case _ => None
  }

  ghost function Elements(ts: Types, t: TypeId, n: nat, s: Bytes): (r: Option<Bytes>)
    ensures r.Some? ==> |r.value| <= |s|
    decreases |s|, 5, n
  {
    match KindOf(ts, t)
    case AnyKind => if ParseArray(n, s).Done? then Some(ParseArray(n, s).rest) else None
    case SliceKind(e) => Items(ts, e, n, s)
    case _ => None
  }

  ghost function Items(ts: Types, e: TypeId, n: nat, s: Bytes): (r: Option<Bytes>)
    ensures r.Some? ==> |r.value| <= |s|
    decreases |s|, 4, n
  {
    if n == 0 then Some(s)
    else
      var q := Readable(ts, e, s);
      if q.None? then None else Items(ts, e, n - 1, q.value)
  }

  // ---- Within a member

  /** Nothing is put aside yet, and a member is being decoded. */
  const INSIDE := Errors(false, true)

  /** What q says is read, with no error put aside; every failure ends in a panic. */
  predicate AsRead<T>(r: Into<T>, q: Option<Bytes>) {
    match r
    case Stored(_, rest, errs) => q == Some(rest) && errs == INSIDE
    case Failed(within) => q.None? && within
    case Broke => q.None?
  }

  lemma NowhereReads(ts: Types, s: Bytes, errs: Errors)
    requires TypesOk(ts)
    ensures ReadInto(ts, Nowhere, s, errs)
         == if Skipped(s).Some? then Stored(Nowhere, Skipped(s).value, errs)
            else if AsksType(s) then Broke
            else Failed(errs.within)
  {
    hide TypesOk, FromBe;
  }

  /** For every program, type and input: what goes into a variable within a member is what
      the bytes and the type say; no error is put aside there, and none is returned but as
      one that panics. */
  lemma {:induction false} ReadsInside(ts: Types, tg: Target, s: Bytes)
    requires TypesOk(ts) && Fits(ts, tg) && tg.To?
    ensures AsRead(ReadInto(ts, tg, s, INSIDE), Readable(ts, tg.typ, s))
    decreases |s|, 3, 0
  {
    hide TypesOk, Fits, FromBe, ReadInto, ReadObject, ReadArray, Scalar, Contents, Elements;
    if ObjectAt(s).Some? {
      IntoObject(ts, tg, s, INSIDE);
      ObjectInside(ts, tg, ObjectAt(s).value);
    } else if s != [] && s[0] == STRICT_ARRAY_MARKER && |s| >= 5 {
      IntoArray(ts, tg, s, INSIDE);
      ArrayInside(ts, tg, FromBe(s[1..5]), s[5..]);
    } else {
      ScalarInside(ts, tg, s);
    }
  }

  lemma ScalarInside(ts: Types, tg: Target, s: Bytes)
    requires TypesOk(ts) && Fits(ts, tg) && tg.To? && ObjectAt(s).None?
    requires s == [] || s[0] != STRICT_ARRAY_MARKER || |s| < 5
    ensures AsRead(ReadInto(ts, tg, s, INSIDE), Scalar(ts, KindOf(ts, tg.typ), s))
  {
    hide TypesOk, Fits, FromBe, ParseString, StoreString, StoreLong, TakesDigits, TakesBase64;
    if s != [] {
      StringEnds(2, s[1..]);
      StringEnds(4, s[1..]);
      StringsInside(ts, tg, StringAt(2, s).0, StringAt(2, s).1);
      StringsInside(ts, tg, StringAt(4, s).0, StringAt(4, s).1);
    }
  }

  lemma StringEnds(width: nat, s: Bytes)
    ensures ParseString(width, s).Done? <==> |s| > width
    ensures ParseString(width, s).Done? ==> ParseString(width, s).value.Str?
  {
  }

  lemma StringsInside(ts: Types, tg: Target, b: Bytes, rest: Bytes)
    requires tg.To?
    ensures var k := KindOf(ts, tg.typ);
            && AsRead(StoreString(ts, tg, b, rest, INSIDE),
                      if k.AnyKind? || k.StringKind? || TakesBase64(ts, k, b) then Some(rest) else None)
            && AsRead(StoreLong(ts, tg, b, rest, INSIDE),
                      if k.AnyKind? || k.StringKind? || TakesDigits(ts, k, b) then Some(rest) else None)
  {
    if KindOf(ts, tg.typ).WholeKind? {
      StructCodec.LongWidths(KindOf(ts, tg.typ).width);
    }
  }

  lemma {:induction false} ObjectInside(ts: Types, tg: Target, s: Bytes)
    requires TypesOk(ts) && Fits(ts, tg) && tg.To?
    ensures AsRead(ReadObject(ts, tg, s, INSIDE), Contents(ts, tg.typ, s))
    decreases |s|, 2, 0
  {
    hide TypesOk, ReadDict, ReadStruct, Entries;
    match KindOf(ts, tg.typ) {
      case MapKind(e) => DictInside(ts, tg.typ, e, if tg.node.NilDict? then map[] else tg.node.members, s);
      case StructKind => StructInside(ts, tg.typ, tg.node, s);
      case _ =>
    }
  }

  lemma {:induction false} DictInside(ts: Types, t: TypeId, e: TypeId, m: map<Bytes, Node>, s: Bytes)
    requires TypesOk(ts) && KindOf(ts, t) == MapKind(e) && forall k | k in m :: Shaped(ts, e, m[k])
    ensures AsRead(ReadDict(ts, e, m, s, INSIDE), Entries(ts, t, s))
    decreases |s|, 1, 0
  {
    hide TypesOk, Shaped, ReadInto, Readable, ParseName;
    NameProgress(s);
    ZeroShaped(ts, e);
    var p := ParseName(s);
    if p.Done? && p.value != [] {
      ReadsInside(ts, To(e, ZeroOf(ts, e)), p.rest);
      var x := ReadInto(ts, To(e, ZeroOf(ts, e)), p.rest, INSIDE);
      if x.Stored? {
        DictInside(ts, t, e, m[p.value := x.value.node], x.rest);
      }
    }
  }

  lemma {:induction false} StructInside(ts: Types, t: TypeId, n: Node, s: Bytes)
    requires TypesOk(ts) && KindOf(ts, t).StructKind? && Shaped(ts, t, n)
    ensures AsRead(ReadStruct(ts, t, n, s, INSIDE), Entries(ts, t, s))
    decreases |s|, 1, 0
  {
    hide TypesOk, Shaped, KindOf, ReadStruct, ReadMember, Entry, ParseName;
    NameProgress(s);
    StructStep(ts, t, n, s, INSIDE);
    var p := ParseName(s);
    if p.Done? && p.value != [] {
      MemberInside(ts, t, n, p.value, p.rest, INSIDE);
      var x := ReadMember(ts, t, n, p.value, p.rest, INSIDE);
      if x.Stored? {
        StructInside(ts, t, x.value, x.rest);
      }
    }
  }

  /** How the value for an object name ends: within a member as said above; without one it
      is nowhere, where an error may still be returned. */
  predicate MemberRead(r: Into<Node>, u: Option<TypeId>, q: Option<Bytes>, s: Bytes, errs: Errors) {
    match r
    case Stored(_, rest, ev) => q == Some(rest) && ev == errs
    case Failed(within) => q.None? && within == (errs.within || u.Some?) && (u.None? ==> !AsksType(s))
    case Broke => q.None? && (u.None? ==> AsksType(s))
  }

  lemma {:induction false} MemberInside(ts: Types, t: TypeId, n: Node, name: Bytes, s: Bytes, errs: Errors)
    requires TypesOk(ts) && KindOf(ts, t).StructKind? && Shaped(ts, t, n) && !errs.saved
    ensures MemberRead(ReadMember(ts, t, n, name, s, errs), MemberType(ts, t, name), Entry(ts, t, name, s), s, errs)
    decreases |s|, 4, 0
  {
    hide TypesOk, Shaped, ReadInto, ReadField, ReadMember, Readable, Lookup, AsksType, Skipped, Get, Set, PathIn;
    LookupKnown(ts, t, name);
    MemberStep(ts, t, n, name, s, errs);
    var i := Lookup(ts.least, ts.members[t], name);
    if i.Some? {
      var f := ListOf(ts, t)[i.value];
      FieldFits(ts, t, n, f);
      ReadsInside(ts, To(f.typ, Get(n, f.index)), s);
      FieldStep(ts, t, n, f, s, errs);
    } else {
      NowhereReads(ts, s, errs);
    }
  }

  lemma FieldStep(ts: Types, t: TypeId, n: Node, f: Field, s: Bytes, errs: Errors)
    requires TypesOk(ts) && KindOf(ts, t).StructKind? && Shaped(ts, t, n) && f in ListOf(ts, t)
    requires PathIn(n, f.index) && Fits(ts, To(f.typ, Get(n, f.index)))
    ensures var r, x := ReadField(ts, t, n, f, s, errs), ReadInto(ts, To(f.typ, Get(n, f.index)), s, Inside(errs));
            match x
            case Stored(_, rest, ev) => r.Stored? && r.rest == rest && r.errs == Errors(ev.saved, errs.within)
            case Failed(within) => r == Failed(within)
            case Broke => r == Broke
  {
    hide TypesOk, Shaped, ReadInto, KindOf, Get, Set, PathIn, Fits;
  }

  lemma {:induction false} ArrayInside(ts: Types, tg: Target, n: nat, s: Bytes)
    requires TypesOk(ts) && Fits(ts, tg) && tg.To?
    ensures AsRead(ReadArray(ts, tg, n, s, INSIDE), Elements(ts, tg.typ, n, s))
    decreases |s|, 5, n
  {
    hide TypesOk, ReadItems, Items, ParseArray;
    match KindOf(ts, tg.typ) {
      case SliceKind(e) => ItemsInside(ts, e, if tg.node.NilList? then [] else tg.node.elems, [], n, s);
      case _ =>
    }
  }

  lemma {:induction false} ItemsInside(ts: Types, e: TypeId, before: seq<Node>, done: seq<Node>, n: nat, s: Bytes)
    requires TypesOk(ts) && (forall j | 0 <= j < |before| :: Shaped(ts, e, before[j]))
    requires forall j | 0 <= j < |done| :: Shaped(ts, e, done[j])
    ensures AsRead(ReadItems(ts, e, before, done, n, s, INSIDE), Items(ts, e, n, s))
    decreases |s|, 4, n
  {
    hide TypesOk, Shaped, ReadInto, ReadItems, Readable;
    if n == 0 {
      NoItems(ts, e, before, done, s, INSIDE);
    } else {
      ItemsStep(ts, e, before, done, n, s, INSIDE);
      var tg := To(e, ItemAt(ts, e, before, |done|));
      ReadsInside(ts, tg, s);
      var x := ReadInto(ts, tg, s, INSIDE);
      if x.Stored? {
        ItemsInside(ts, e, before, done + [x.value.node], n - 1, x.rest);
      }
    }
  }

  // ---- Unmarshal into a struct

  /** Where the member loop of the outermost struct stops: at the first name whose value is
      not read, or at the last. */
  ghost function Stop(ts: Types, t: TypeId, s: Bytes): Bytes
    decreases |s|
  {
    NameProgress(s);
    hide ParseName;
    var p := ParseName(s);
    if p.Fail? || p.value == [] then s
    else
      var q := Entry(ts, t, p.value, p.rest);
      if q.None? then s else Stop(ts, t, q.value)
  }

  /** The loop stops at an end marker. */
  ghost predicate StopsWell(s: Bytes) {
    var p := ParseName(s);
    p.Done? && p.value == [] && Ended(p.rest)
  }

  /** It stops at an empty name without the end marker, at the value of a member, or at one
      that goes nowhere and has its type asked for. */
  ghost predicate StopsInPanic(ts: Types, t: TypeId, s: Bytes) {
    var p := ParseName(s);
    && p.Done?
    && if p.value == [] then !Ended(p.rest) else MemberType(ts, t, p.value).Some? || AsksType(p.rest)
  }

  lemma {:induction false} LoopExactly(ts: Types, t: TypeId, n: Node, s: Bytes)
    requires TypesOk(ts) && KindOf(ts, t).StructKind? && Shaped(ts, t, n)
    ensures var r := ReadStruct(ts, t, n, s, NO_ERRORS);
            && (r.Stored? <==> StopsWell(Stop(ts, t, s)))
            && (r.Stored? ==> r.errs == NO_ERRORS)
            && (r.Broke? || r == Failed(true) <==> StopsInPanic(ts, t, Stop(ts, t, s)))
    decreases |s|
  {
    hide TypesOk, Shaped, KindOf, ReadStruct, ReadMember, MemberType, Entry, ParseName, AsksType;
    NameProgress(s);
    StructStep(ts, t, n, s, NO_ERRORS);
    var p := ParseName(s);
    if p.Done? && p.value != [] {
      MemberInside(ts, t, n, p.value, p.rest, NO_ERRORS);
      var x := ReadMember(ts, t, n, p.value, p.rest, NO_ERRORS);
      if x.Stored? {
        LoopExactly(ts, t, x.value, x.rest);
      }
    }
  }

  /** For every program, struct type and input: decoding panics if and only if the input is a
      null, or its members stop in a panic; it returns an error if and only if they stop
      otherwise before the end, or the input is no object and not skipped. Nothing is ever
      put aside but an array in place of the struct itself. */
  lemma StructPanicsExactly(ts: Types, t: TypeId, data: Bytes)
    requires TypesOk(ts) && KindOf(ts, t).StructKind?
    ensures var r := Unmarshalled(ts, t, data);
            && (r.Panic? <==> if ObjectAt(data).Some? then StopsInPanic(ts, t, Stop(ts, t, ObjectAt(data).value))
                              else data != [] && data[0] == NULL_MARKER)
            && (r.Ok? <==> if ObjectAt(data).Some? then StopsWell(Stop(ts, t, ObjectAt(data).value))
                           else Skipped(data).Some?)
  {
    hide TypesOk, Shaped, FromBe, ReadInto, ReadStruct, StopsInPanic, StopsWell;
    ZeroShaped(ts, t);
    var tg := To(t, ZeroOf(ts, t));
    if ObjectAt(data).Some? {
      IntoObject(ts, tg, data, NO_ERRORS);
      LoopExactly(ts, t, ZeroOf(ts, t), ObjectAt(data).value);
    } else {
      NoObject(ts, tg, data);
    }
  }

  lemma NoObject(ts: Types, tg: Target, s: Bytes)
    requires TypesOk(ts) && Fits(ts, tg) && tg.To? && KindOf(ts, tg.typ).StructKind? && ObjectAt(s).None?
    ensures var r := Reported(ReadInto(ts, tg, s, NO_ERRORS));
            && (r.Panic? <==> s != [] && s[0] == NULL_MARKER)
            && (r.Ok? <==> Skipped(s).Some?)
  {
    hide TypesOk, Fits, FromBe;
  }

  /** So whatever cannot be read into the first member named panics, */
  lemma FirstMemberPanics(ts: Types, t: TypeId, name: Bytes, s: Bytes)
    requires TypesOk(ts) && KindOf(ts, t).StructKind? && NameOk(name) && s != []
    requires MemberType(ts, t, name).Some? && Readable(ts, MemberType(ts, t, name).value, s).None?
    ensures Unmarshalled(ts, t, [OBJECT_MARKER] + (Be(2, |name|) + (name + s))).Panic?
  {
    hide TypesOk, KindOf, Unmarshalled, MemberType, Readable, Be, ParseName;
    var body := Be(2, |name|) + (name + s);
    StructPanicsExactly(ts, t, [OBJECT_MARKER] + body);
    assert ([OBJECT_MARKER] + body)[1..] == body;
    StructCodec.NameThere(name);
    AmfRoundTrip.ParseNameOfName(name, s);
  }

  /** a number into a string member among them, and an object. */
  lemma WrongTypePanics(ts: Types, t: TypeId, name: Bytes, s: Bytes)
    requires TypesOk(ts) && KindOf(ts, t).StructKind? && NameOk(name) && s != []
    requires MemberType(ts, t, name).Some? && KindOf(ts, MemberType(ts, t, name).value) == StringKind(false)
    ensures s[0] in {NUMBER_MARKER, OBJECT_MARKER} ==>
              Unmarshalled(ts, t, [OBJECT_MARKER] + (Be(2, |name|) + (name + s))).Panic?
  {
    hide TypesOk, MemberType, Be, NameOk, Unmarshalled;
    StructPanicsExactly(ts, t, [OBJECT_MARKER] + (Be(2, |name|) + (name + s)));
    if s[0] in {NUMBER_MARKER, OBJECT_MARKER} {
      FirstMemberPanics(ts, t, name, s);
    }
  }

  // ---- A struct with one string member, A

  /** The program with that struct as type 0, and the string type as 1. */
  function OneString(): Types {
    var a := [0x41];
    Types(map[0 := [FieldDecl(a, true, false, false, [], false, 1)]], t => StringKind(false),
          map[0 := StructFields([Field(a, false, [0], 1, false)], map[a := 0], map[a := 0])],
          map[0 := Struct([Text([])])], c => Upper(c),
          Numbers(n => 0, (w, bits) => 0, bits => bits, (w, s) => None, bits => [], s => None))
  }

  lemma OneStringOk()
    ensures TypesOk(OneString()) && KindOf(OneString(), 0) == StructKind && MemberType(OneString(), 0, [0x41]) == Some(1)
  {
    var ts := OneString();
    assert ts.graph[0][0].typ == 1 && Visible(ts.graph, ts.graph[0][0]);
    assert TypeAt(ts, 0, [0]) == Some(1) by {
      assert [0][1..] == [];
    }
    assert MemberOk(ts, 0, 0);
    forall name ensures InList(ts, 0, name) {
    }
  }

  /** A number for A. */
  lemma NumberForA(bits: uint64)
    ensures TypesOk(OneString())
    ensures var data := [OBJECT_MARKER, 0, 1, 0x41, NUMBER_MARKER] + Be(8, bits);
            Unmarshalled(OneString(), 0, data).Panic?
  {
    hide TypesOk, OneString, MemberType, KindOf, Unmarshalled;
    OneStringOk();
    var s := [NUMBER_MARKER] + Be(8, bits);
    assert Be(2, 1) == [0, 1];
    assert [OBJECT_MARKER, 0, 1, 0x41, NUMBER_MARKER] + Be(8, bits) == [OBJECT_MARKER] + (Be(2, 1) + ([0x41] + s));
    StringMember();
    WrongTypePanics(OneString(), 0, [0x41], s);
  }

  lemma StringMember()
    ensures KindOf(OneString(), 1) == StringKind(false)
  {
  }
}
