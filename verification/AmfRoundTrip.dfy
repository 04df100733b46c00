/** The promises of the codec: round trip, canonical form, progress. */
module AmfRoundTrip {
  import opened ByteCodec
  import opened Results
  import opened AmfValue
  import opened AmfEncode
  import opened AmfDecode

  // ---- Round trip

  lemma TakeUintOfBe(width: nat, n: nat, tail: Bytes)
    requires n < Pow256(width)
    ensures TakeUint(width, Be(width, n) + tail) == Done(n, tail)
  {
    FromBeOfBe(width, n);
    assert (Be(width, n) + tail)[..width] == Be(width, n);
    assert (Be(width, n) + tail)[width..] == tail;
  }

  lemma TakeBytesOfBytes(b: Bytes, tail: Bytes)
    requires b + tail != []
    ensures TakeBytes(|b|, b + tail) == Done(b, tail)
  {
    assert (b + tail)[..|b|] == b;
  }

  lemma ParseStringOfString(width: nat, b: Bytes, tail: Bytes)
    requires |b| < Pow256(width) && b + tail != []
    ensures ParseString(width, Be(width, |b|) + (b + tail)) == Done(Str(b), tail)
  {
    TakeUintOfBe(width, |b|, b + tail);
    TakeBytesOfBytes(b, tail);
  }

  lemma ParseNameOfName(name: Bytes, tail: Bytes)
    requires NameOk(name)
    ensures ParseName(Be(2, |name|) + (name + tail)) == Done(name, tail)
  {
    Widths();
    TakeUintOfBe(2, |name|, name + tail);
    TakeBytesOfBytes(name, tail);
  }

  lemma ParseObjectEnd(rest: Bytes, m: map<Bytes, Value>)
    ensures ParseObject(OBJECT_END + rest, m) == Done(Object(m), rest)
  {
    assert Be(2, 0) == [0, 0];
    Widths();
    TakeUintOfBe(2, 0, [OBJECT_END_MARKER] + rest);
    assert OBJECT_END + rest == Be(2, 0) + ([OBJECT_END_MARKER] + rest);
  }

  /** Decoding the encoding of v followed by rest gives v back, with empty slices
      turned to nil, and leaves rest. */
  lemma {:induction false} RoundTrip(v: Value, rest: Bytes)
    requires Encodable(v) && (rest != [] || !EndsInEmptyString(v))
    ensures ParseValue(Enc(v) + rest) == Done(Norm(v), rest)
    decreases v, 2
  {
    Widths();
    var s := Enc(v) + rest;
    match v {
      case Bool(_) =>
      case Number(bits) =>
        assert s[1..] == Be(8, bits) + rest;
        TakeUintOfBe(8, bits, rest);
      case Str(b) =>
        if |b| > LONG_STRING_SIZE {
          assert s[1..] == Be(4, |b|) + (b + rest);
          ParseStringOfString(4, b, rest);
        } else {
          assert s[1..] == Be(2, |b|) + (b + rest);
          ParseStringOfString(2, b, rest);
        }
      case Slice(es) =>
        if es == [] {
          assert s[1..] == rest;
        } else {
          RoundTripSlice(v, rest);
        }
      case Object(m) =>
        RoundTripObject(v, rest);
      case _ =>
        assert s[1..] == rest;
    }
  }

  lemma ParseValueArray(n: nat, body: Bytes)
    requires n < 0x1_0000_0000
    ensures ParseValue([STRICT_ARRAY_MARKER] + (Be(4, n) + body)) == ParseStrictArray(n, body)
  {
    Widths();
    TakeUintOfBe(4, n, body);
    assert ([STRICT_ARRAY_MARKER] + (Be(4, n) + body))[1..] == Be(4, n) + body;
    hide ParseArray, Be, FromBe;
  }

  lemma {:induction false} RoundTripSlice(v: Value, rest: Bytes)
    requires v.Slice? && v.elems != [] && Encodable(v) && (rest != [] || !EndsInEmptyString(v))
    ensures ParseValue(Enc(v) + rest) == Done(Norm(v), rest)
    decreases v, 1
  {
    Concat4([STRICT_ARRAY_MARKER], Be(4, |v.elems|), EncElems(v, 0), rest);
    Concat3(Be(4, |v.elems|), EncElems(v, 0), rest);
    ParseValueArray(|v.elems|, EncElems(v, 0) + rest);
    RoundTripElems(v, 0, rest);
    hide ParseValue, Be;
  }

  lemma {:induction false} RoundTripObject(v: Value, rest: Bytes)
    requires v.Object? && Encodable(v)
    ensures ParseValue(Enc(v) + rest) == Done(Norm(v), rest)
    decreases v, 1
  {
    var names := SortedKeys(v.fields.Keys);
    SortedKeysMembers(v.fields.Keys);
    Concat4([OBJECT_MARKER], EncMembers(v, names), OBJECT_END, rest);
    Concat3(EncMembers(v, names), OBJECT_END, rest);
    ParseValueObject(EncMembers(v, names) + (OBJECT_END + rest));
    RoundTripMembers(v, names, map[], rest);
    NormMembersAll(v, names);
  }

  lemma ParseValueObject(body: Bytes)
    ensures ParseValue([OBJECT_MARKER] + body) == ParseObject(body, map[])
  {
    assert ([OBJECT_MARKER] + body)[1..] == body;
  }

  lemma {:induction false} RoundTripElems(v: Value, i: nat, rest: Bytes)
    requires v.Slice? && i <= |v.elems| && Encodable(v)
    requires rest != [] || !EndsInEmptyString(v)
    ensures ParseArray(|v.elems| - i, EncElems(v, i) + rest) == Done(NormSeq(v, i), rest)
    decreases v, 0, |v.elems| - i
  {
    hide ParseValue, ParseArray, Enc;
    if i == |v.elems| {
      assert [] + rest == rest;
      ParseArrayNone(rest);
    } else {
      var tail := EncElems(v, i + 1) + rest;
      Concat3(Enc(v.elems[i]), EncElems(v, i + 1), rest);
      EncNotEmpty(v, i + 1);
      RoundTrip(v.elems[i], tail);
      RoundTripElems(v, i + 1, rest);
      ParseArrayStep(|v.elems| - i, Enc(v.elems[i]) + tail, Norm(v.elems[i]), tail, NormSeq(v, i + 1), rest);
    }
  }

  lemma ParseArrayNone(s: Bytes)
    ensures ParseArray(0, s) == Done([], s)
  {
  }

  lemma ParseArrayStep(n: nat, s: Bytes, v: Value, t: Bytes, vs: seq<Value>, u: Bytes)
    requires n > 0 && ParseValue(s) == Done(v, t) && ParseArray(n - 1, t) == Done(vs, u)
    ensures ParseArray(n, s) == Done([v] + vs, u)
  {
    hide ParseValue;
  }

  lemma EncNotEmpty(v: Value, i: nat)
    requires v.Slice? && i <= |v.elems|
    ensures i < |v.elems| ==> EncElems(v, i) != []
  {
    if i < |v.elems| {
      assert Enc(v.elems[i]) != [];
    }
  }

  ghost function NormMembers(v: Value, names: seq<Bytes>): map<Bytes, Value>
    requires v.Object? && forall k | k in names :: k in v.fields
  {
    map k | k in names :: Norm(v.fields[k])
  }

  lemma MemberApart(v: Value, names: seq<Bytes>, tail: Bytes)
    requires v.Object? && names != [] && forall k | k in names :: k in v.fields
    ensures EncMembers(v, names) + tail
         == Be(2, |names[0]|) + (names[0] + (Enc(v.fields[names[0]]) + (EncMembers(v, names[1..]) + tail)))
  {
    hide Be, Enc;
    MembersSplit(v, names);
    hide EncMembers;
    Concat3(EncMember(v, names[0]), EncMembers(v, names[1..]), tail);
    Concat4(Be(2, |names[0]|), names[0], Enc(v.fields[names[0]]), EncMembers(v, names[1..]) + tail);
    Concat3(names[0], Enc(v.fields[names[0]]), EncMembers(v, names[1..]) + tail);
  }

  lemma MembersSplit(v: Value, names: seq<Bytes>)
    requires v.Object? && names != [] && forall k | k in names :: k in v.fields
    ensures EncMembers(v, names) == EncMember(v, names[0]) + EncMembers(v, names[1..])
  {
    hide EncMember;
  }

  lemma NormMembersAll(v: Value, names: seq<Bytes>)
    requires v.Object? && forall k :: k in names <==> k in v.fields
    ensures Norm(v) == Object(map[] + NormMembers(v, names))
  {
    assert map[] + NormMembers(v, names) == Norm(v).fields;
  }

  lemma NormMembersStep(v: Value, names: seq<Bytes>, m: map<Bytes, Value>)
    requires v.Object? && names != [] && forall k | k in names :: k in v.fields
    ensures m[names[0] := Norm(v.fields[names[0]])] + NormMembers(v, names[1..])
         == m + NormMembers(v, names)
  {
    forall k ensures k in names <==> k == names[0] || k in names[1..] {
    }
  }

  lemma ParseMember(name: Bytes, enc: Bytes, v: Value, tail: Bytes, m: map<Bytes, Value>)
    requires NameOk(name) && ParseValue(enc + tail) == Done(v, tail)
    ensures ParseObject(Be(2, |name|) + (name + (enc + tail)), m) == ParseObject(tail, m[name := v])
  {
    ParseNameOfName(name, enc + tail);
  }

  lemma {:induction false} RoundTripMembers(v: Value, names: seq<Bytes>, m: map<Bytes, Value>, rest: Bytes)
    requires v.Object? && Encodable(v) && forall k | k in names :: k in v.fields
    ensures ParseObject(EncMembers(v, names) + (OBJECT_END + rest), m)
         == Done(Object(m + NormMembers(v, names)), rest)
    decreases v, 0, |names|
  {
    if names == [] {
      assert [] + (OBJECT_END + rest) == OBJECT_END + rest;
      assert m + NormMembers(v, names) == m;
      ParseObjectEnd(rest, m);
    } else {
      var name, sub := names[0], v.fields[names[0]];
      var tail := EncMembers(v, names[1..]) + (OBJECT_END + rest);
      MemberApart(v, names, OBJECT_END + rest);
      assert tail != [];
      RoundTrip(sub, tail);
      ParseMember(name, Enc(sub), Norm(sub), tail, m);
      RoundTripMembers(v, names[1..], m[name := Norm(sub)], rest);
      NormMembersStep(v, names, m);
    }
  }

  // ---- Everything the decoder returns lies in the encoder's domain

  lemma {:induction false} DecodedIsEncodable(s: Bytes)
    requires ParseValue(s).Done?
    ensures Encodable(ParseValue(s).value)
    decreases |s|, 1
  {
    var m, t := s[0], s[1..];
    if m == OBJECT_MARKER {
      ObjectIsEncodable(t, map[]);
    } else if m == ECMA_ARRAY_MARKER {
      ObjectIsEncodable(t[4..], map[]);
    } else if m == STRICT_ARRAY_MARKER {
      FromBeBound(t[..4]);
      Widths();
      ArrayIsEncodable(FromBe(t[..4]), t[4..]);
    } else if m in {STRING_MARKER, LONG_STRING_MARKER, XML_DOCUMENT_MARKER} {
      var width := if m == STRING_MARKER then 2 else 4;
      FromBeBound(t[..width]);
      Widths();
    }
  }

  lemma {:induction false} ArrayIsEncodable(n: nat, s: Bytes)
    requires ParseArray(n, s).Done?
    ensures forall v | v in ParseArray(n, s).value :: Encodable(v)
    decreases |s|, 2, n
  {
    if n > 0 {
      DecodedIsEncodable(s);
      ArrayIsEncodable(n - 1, ParseValue(s).rest);
    }
  }

  lemma {:induction false} ObjectIsEncodable(s: Bytes, m: map<Bytes, Value>)
    requires ParseObject(s, m).Done? && Encodable(Object(m))
    ensures Encodable(ParseObject(s, m).value)
    decreases |s|, 0
  {
    var Done(name, t) := ParseName(s);
    if name != [] {
      FromBeBound(s[..2]);
      Widths();
      DecodedIsEncodable(t);
      ObjectIsEncodable(ParseValue(t).rest, m[name := ParseValue(t).value]);
    }
  }

  // ---- When the round trip holds, exactly

  lemma {:induction false} NormKeepsDomain(v: Value)
    ensures Encodable(Norm(v)) <==> Encodable(v)
  {
    match v {
      case Slice(es) =>
        forall i | 0 <= i < |es| ensures Encodable(Norm(es[i])) <==> Encodable(es[i]) {
          NormKeepsDomain(es[i]);
        }
        if es != [] {
          var r := NormSeq(v, 0);
          assert forall i | 0 <= i < |es| :: r[i] == Norm(es[i]);
        }
      case Object(m) =>
        forall k | k in m ensures Encodable(Norm(m[k])) <==> Encodable(m[k]) {
          NormKeepsDomain(m[k]);
        }
      case _ =>
    }
  }

  /** With nothing after it, an empty string cannot be read. */
  lemma {:induction false} TrailingEmptyStringFails(v: Value)
    requires Encodable(v) && EndsInEmptyString(v)
    ensures ParseValue(Enc(v)).Fail?
    decreases v, 1
  {
    Widths();
    if v.Str? {
      assert Enc(v)[1..] == Be(2, 0) + [];
      TakeUintOfBe(2, 0, []);
    } else {
      assert Enc(v)[1..] == Be(4, |v.elems|) + EncElems(v, 0);
      TakeUintOfBe(4, |v.elems|, EncElems(v, 0));
      TrailingElemFails(v, 0);
    }
  }

  lemma {:induction false} TrailingElemFails(v: Value, i: nat)
    requires v.Slice? && Encodable(v) && EndsInEmptyString(v) && i < |v.elems|
    ensures ParseArray(|v.elems| - i, EncElems(v, i)).Fail?
    decreases v, 0, |v.elems| - i
  {
    hide Enc, ParseValue, ParseArray;
    if i == |v.elems| - 1 {
      assert EncElems(v, i) == Enc(v.elems[i]) by {
        LastElem(v);
      }
      TrailingEmptyStringFails(v.elems[i]);
      ArrayFails(|v.elems| - i, EncElems(v, i));
    } else {
      EncNotEmpty(v, i + 1);
      RoundTrip(v.elems[i], EncElems(v, i + 1));
      TrailingElemFails(v, i + 1);
      ArrayFailsLater(|v.elems| - i, EncElems(v, i), Norm(v.elems[i]), EncElems(v, i + 1));
    }
  }

  lemma LastElem(v: Value)
    requires v.Slice? && v.elems != []
    ensures EncElems(v, |v.elems| - 1) == Enc(v.elems[|v.elems| - 1])
  {
    hide Enc;
  }

  lemma ArrayFails(n: nat, s: Bytes)
    requires n > 0 && ParseValue(s).Fail?
    ensures ParseArray(n, s).Fail?
  {
    hide ParseValue;
  }

  lemma ArrayFailsLater(n: nat, s: Bytes, v: Value, t: Bytes)
    requires n > 0 && ParseValue(s) == Done(v, t) && ParseArray(n - 1, t).Fail?
    ensures ParseArray(n, s).Fail?
  {
    hide ParseValue;
  }

  /** The round trip succeeds exactly on the encodable values, except where an encoding
      that ends in an empty string is also the end of the input. */
  lemma RoundTripExactly(v: Value, rest: Bytes)
    ensures ParseValue(Enc(v) + rest) == Done(Norm(v), rest)
       <==> Encodable(v) && (rest != [] || !EndsInEmptyString(v))
  {
    if ParseValue(Enc(v) + rest) == Done(Norm(v), rest) {
      DecodedIsEncodable(Enc(v) + rest);
      NormKeepsDomain(v);
      assert Enc(v) + [] == Enc(v);
      if rest == [] && EndsInEmptyString(v) {
        TrailingEmptyStringFails(v);
      }
    } else if Encodable(v) && (rest != [] || !EndsInEmptyString(v)) {
      RoundTrip(v, rest);
    }
  }

  /** No encoding is a prefix of the encoding of a different value: a stream of
      encodings splits in one way only. */
  lemma UniqueParse(a: Value, b: Value, x: Bytes, y: Bytes)
    requires Encodable(a) && Encodable(b) && Enc(a) + x == Enc(b) + y
    ensures Norm(a) == Norm(b) && x == y
  {
    Concat3(Enc(a), x, [0]);
    Concat3(Enc(b), y, [0]);
    RoundTrip(a, x + [0]);
    RoundTrip(b, y + [0]);
    assert (x + [0])[..|x|] == x && (y + [0])[..|y|] == y;
  }

  // ---- Canonical form

  lemma {:induction false} NormIdempotent(v: Value)
    ensures Norm(Norm(v)) == Norm(v)
  {
    match v {
      case Slice(es) =>
        if es != [] {
          var w := Norm(v);
          forall i | 0 <= i < |es| ensures NormSeq(w, 0)[i] == w.elems[i] {
            NormIdempotent(es[i]);
          }
          assert NormSeq(w, 0) == w.elems;
        }
      case Object(m) =>
        forall k | k in m ensures Norm(Norm(m[k])) == Norm(m[k]) {
          NormIdempotent(m[k]);
        }
      case _ =>
    }
  }

  /** Whatever was accepted can be encoded again, decodes to its normal form, and from
      then on re-encoding changes nothing. */
  lemma CanonicalStable(s: Bytes, rest: Bytes)
    requires ParseValue(s).Done? && rest != []
    ensures var v := ParseValue(s).value;
            && Encodable(v)
            && ParseValue(Enc(v) + rest) == Done(Norm(v), rest)
            && ParseValue(Enc(Norm(v)) + rest) == Done(Norm(v), rest)
  {
    var v := ParseValue(s).value;
    DecodedIsEncodable(s);
    RoundTrip(v, rest);
    NormKeepsDomain(v);
    NormIdempotent(v);
    RoundTrip(Norm(v), rest);
  }

  // ---- Progress

  /** However many elements an array declares, the input bounds the work. */
  lemma {:induction false} AttemptsBounded(n: nat, s: Bytes)
    ensures Attempts(n, s) <= n && Attempts(n, s) <= |s| + 1
    ensures ParseArray(n, s).Done? ==> Attempts(n, s) == n <= |s|
  {
    hide ParseValue;
    if n > 0 && ParseValue(s).Done? {
      AttemptsBounded(n - 1, ParseValue(s).rest);
    }
  }

  // ---- The two decoders

  /** A date whose input ends before the time zone. */
  predicate TruncatedDate(s: Bytes) {
    |s| == 9 && s[0] == DATE_MARKER
  }

  /** value on a nil interface{} and valueInterface accept the same inputs, with the same
      result, except for a truncated date, which only the former accepts. */
  lemma DecodersAgree(s: Bytes)
    ensures ParseValue(s).Done? ==> ReadInterface(s) == Got(ParseValue(s).value, ParseValue(s).rest)
    ensures (ReadInterface(s).Got? <==> ParseValue(s).Done?) <==> !TruncatedDate(s)
  {
    hide ParseObject, ParseArray, ParseString, ParseNumber;
    if |s| >= 9 && s[0] == DATE_MARKER {
      assert s[1..][8..] == s[9..];
    }
  }

  /** Malformed input makes value panic, rather than return an error, exactly inside a
      container: after an object marker, or an array marker with its whole count. */
  lemma PanicsExactly(s: Bytes)
    ensures ReadInterface(s).Panicked? <==> ParseValue(s).Fail? && Container(s)
  {
    hide ParseObject, ParseArray, ParseString, ParseNumber, TakeBytes, FromBe;
  }

  predicate Container(s: Bytes) {
    s != [] && (s[0] == OBJECT_MARKER || (|s| >= 5 && (s[0] == ECMA_ARRAY_MARKER || s[0] == STRICT_ARRAY_MARKER)))
  }

  /** Filling a map[string]interface{} and building one agree on every input. */
  lemma {:induction false} MapTargetAgrees(s: Bytes, m: map<Bytes, Value>)
    ensures ReadMap(s, m).Got? <==> ParseObject(s, m).Done?
    ensures ReadMap(s, m).Got? ==>
              ReadMap(s, m) == Got(ParseObject(s, m).value, ParseObject(s, m).rest)
    decreases |s|
  {
    var p := ParseName(s);
    if p.Done? && p.value != [] {
      var t := p.rest;
      DecodersAgree(t);
      ReadInterfaceProgress(t);
      if TruncatedDate(t) {
        assert t[1..][8..] == [];
        assert ReadInterface(t) == Got(Nil, []);
      } else if ParseValue(t).Done? {
        MapTargetAgrees(ParseValue(t).rest, m[p.value := ParseValue(t).value]);
      }
    }
  }
}
