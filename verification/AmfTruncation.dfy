/** What the decoder makes of an encoding that is cut off. */
module AmfTruncation {
  import opened ByteCodec
  import opened Results
  import opened AmfValue
  import opened AmfEncode
  import opened AmfDecode
  import opened AmfRoundTrip

  /** How many bytes of string an encoding ends in. */
  function TailLen(v: Value): nat {
    match v
    case Str(s) => |s|
    case Slice(es) => if es == [] then 0 else TailLen(es[|es| - 1])
    case _ => 0
  }

  /** v with the last c bytes of the string it ends in zero. */
  function PadLast(v: Value, c: nat): (r: Value)
    requires c <= TailLen(v)
    ensures v.Slice? ==> r.Slice? && |r.elems| == |v.elems|
  {
    match v
    case Str(s) => Str(s[..|s| - c] + Zeros(c))
    case Slice(es) => if es == [] then v else Slice(es[..|es| - 1] + [PadLast(es[|es| - 1], c)])
    case _ => v
  }

  lemma {:induction false} TailShort(v: Value)
    requires Encodable(v)
    ensures TailLen(v) < |Enc(v)|
  {
    if v.Slice? && v.elems != [] {
      TailShort(v.elems[|v.elems| - 1]);
      TailInElems(v, 0);
    }
  }

  lemma {:induction false} TailInElems(v: Value, i: nat)
    requires v.Slice? && i < |v.elems| && TailLen(v.elems[|v.elems| - 1]) < |Enc(v.elems[|v.elems| - 1])|
    ensures TailLen(v) < |EncElems(v, i)|
    decreases |v.elems| - i
  {
    hide Enc;
    if i < |v.elems| - 1 {
      TailInElems(v, i + 1);
    }
  }

  lemma CutLeft(a: Bytes, b: Bytes, k: nat)
    requires k <= |a|
    ensures (a + b)[..k] == a[..k]
  {
  }

  lemma CutRight(a: Bytes, b: Bytes, k: nat)
    requires |a| <= k <= |a| + |b|
    ensures (a + b)[..k] == a + b[..k - |a|]
  {
  }

  /** What a string of which j bytes are there is read as. */
  lemma CutString(width: nat, s: Bytes, j: nat)
    requires |s| < Pow256(width) && j < |s|
    ensures ParseString(width, Be(width, |s|) + s[..j]) == if j == 0 then Fail else Done(Str(s[..j] + Zeros(|s| - j)), [])
  {
    hide Be, FromBe, TakeUint;
    TakeUintOfBe(width, |s|, s[..j]);
    assert TakeBytes(|s|, s[..j]) == if j == 0 then Fail else Done(s[..j] + Zeros(|s| - j), []);
  }

  lemma ParseMarked(m: byte, t: Bytes)
    requires m == STRING_MARKER || m == LONG_STRING_MARKER
    ensures ParseValue([m] + t) == ParseString(if m == STRING_MARKER then 2 else 4, t)
  {
    assert ([m] + t)[1..] == t;
    hide ParseString;
  }

  lemma StringParts(s: Bytes)
    ensures var long := |s| > LONG_STRING_SIZE;
            EncString(s) == [if long then LONG_STRING_MARKER else STRING_MARKER] + (Be(if long then 4 else 2, |s|) + s)
    ensures !(|s| > LONG_STRING_SIZE) ==> |s| < Pow256(2)
    ensures |s| < 0x1_0000_0000 ==> |s| < Pow256(4)
  {
    Widths();
    hide Be;
  }

  lemma CutStringValue(s: Bytes, k: nat)
    requires |s| < 0x1_0000_0000 && k < |EncString(s)|
    ensures var c := |EncString(s)| - k;
            ParseValue(EncString(s)[..k]) == if c < |s| then Done(Str(s[..|s| - c] + Zeros(c)), []) else Fail
  {
    hide ParseValue, ParseString, EncString, Be, Zeros;
    StringParts(s);
    var width := if |s| > LONG_STRING_SIZE then 4 else 2;
    var m: byte := if |s| > LONG_STRING_SIZE then LONG_STRING_MARKER else STRING_MARKER;
    if k == 0 {
      NothingParsed();
      assert EncString(s)[..0] == [];
    } else {
      var t := (Be(width, |s|) + s)[..k - 1];
      CutRight([m], Be(width, |s|) + s, k);
      ParseMarked(m, t);
      if k - 1 < width {
        ShortString(width, t);
      } else {
        CutRight(Be(width, |s|), s, k - 1);
        CutString(width, s, k - 1 - width);
      }
    }
  }

  lemma NothingParsed()
    ensures ParseValue([]).Fail?
  {
  }

  lemma ShortString(width: nat, t: Bytes)
    requires |t| < width
    ensures ParseString(width, t).Fail?
  {
  }

  /** A cut leaves something that can be read only if it lies inside the string the
      encoding ends in, after its first byte; the missing bytes are read as zeros. */
  lemma {:induction false} CutExactly(v: Value, k: nat)
    requires Encodable(v) && k < |Enc(v)|
    ensures var c := |Enc(v)| - k;
            ParseValue(Enc(v)[..k]) == if c < TailLen(v) then Done(Norm(PadLast(v, c)), []) else Fail
    decreases v, 2
  {
    match v {
      case Str(s) => CutStringValue(s, k);
      case Slice(es) =>
        if es != [] {
          CutSlice(v, k);
        }
      case Object(_) => CutObject(v, k);
      case _ =>
    }
  }

  lemma {:induction false} CutSlice(v: Value, k: nat)
    requires v.Slice? && v.elems != [] && Encodable(v) && k < |Enc(v)|
    ensures var c := |Enc(v)| - k;
            ParseValue(Enc(v)[..k]) == if c < TailLen(v) then Done(Norm(PadLast(v, c)), []) else Fail
    decreases v, 1
  {
    hide Enc, EncElems, Encodable, TailLen, ParseValue, ParseArray, Norm, NormSeq, PadLast, Be;
    var n := |v.elems|;
    var head, body := [STRICT_ARRAY_MARKER] + Be(4, n), EncElems(v, 0);
    SliceParts(v);
    if k < 5 {
      CutLeft(head, body, k);
      CutHead(n, k);
    } else {
      CutRight(head, body, k);
      Concat3([STRICT_ARRAY_MARKER], Be(4, n), body[..k - 5]);
      ParseValueArray(n, body[..k - 5]);
      CutElems(v, 0, k - 5);
      if |Enc(v)| - k < TailLen(v) {
        NormPadded(v, |Enc(v)| - k);
      }
    }
  }

  lemma SliceParts(v: Value)
    requires v.Slice? && v.elems != [] && Encodable(v)
    ensures Enc(v) == ([STRICT_ARRAY_MARKER] + Be(4, |v.elems|)) + EncElems(v, 0)
    ensures |v.elems| < 0x1_0000_0000 && TailLen(v) < |EncElems(v, 0)|
  {
    TailShort(v.elems[|v.elems| - 1]);
    TailInElems(v, 0);
  }

  lemma NormPadded(v: Value, c: nat)
    requires v.Slice? && v.elems != [] && c <= TailLen(v)
    ensures Norm(PadLast(v, c)) == Slice(NormSeq(PadLast(v, c), 0))
  {
  }

  lemma CutHead(n: nat, k: nat)
    requires k < 5
    ensures ParseValue(([STRICT_ARRAY_MARKER] + Be(4, n))[..k]).Fail?
  {
    hide Be, FromBe;
  }

  /** What n - i elements cut off c bytes before their end are read as. */
  ghost function CutArray(v: Value, i: nat, c: nat): Parse<seq<Value>>
    requires v.Slice? && i <= |v.elems|
  {
    if c < TailLen(v) then Done(NormSeq(PadLast(v, c), i), []) else Fail
  }

  lemma {:induction false} CutElems(v: Value, i: nat, k: nat)
    requires v.Slice? && Encodable(v) && i < |v.elems| && k < |EncElems(v, i)|
    ensures ParseArray(|v.elems| - i, EncElems(v, i)[..k]) == CutArray(v, i, |EncElems(v, i)| - k)
    decreases v, 0, |v.elems| - i
  {
    hide ParseValue, ParseArray, Enc, Encodable, EncElems, CutArray, TailLen;
    var e := v.elems[i];
    ElemsTail(v, i);
    if k < |Enc(e)| {
      CutExactly(e, k);
      CutInElem(v, i, k);
    } else if k == |Enc(e)| {
      CutAfterElem(v, i);
    } else {
      CutElems(v, i + 1, k - |Enc(e)|);
      CutPastElem(v, i, k);
    }
  }

  /** The cut lies in element i. */
  lemma CutInElem(v: Value, i: nat, k: nat)
    requires v.Slice? && Encodable(v) && i < |v.elems| && k < |Enc(v.elems[i])| <= |EncElems(v, i)|
    requires var e, c := v.elems[i], |Enc(v.elems[i])| - k;
             ParseValue(Enc(e)[..k]) == if c < TailLen(e) then Done(Norm(PadLast(e, c)), []) else Fail
    ensures ParseArray(|v.elems| - i, EncElems(v, i)[..k]) == CutArray(v, i, |EncElems(v, i)| - k)
  {
    hide ParseValue, ParseArray, Enc, Encodable, EncElems, Norm, NormSeq, TailLen;
    var e := v.elems[i];
    ElemsTail(v, i);
    CutLeft(Enc(e), EncElems(v, i + 1), k);
    ArrayAtEnd(|v.elems| - i, Enc(e)[..k]);
    if i == |v.elems| - 1 && |Enc(e)| - k < TailLen(e) {
      PadLastElem(v, |Enc(e)| - k);
    }
  }

  /** The cut lies between element i and the next. */
  lemma CutAfterElem(v: Value, i: nat)
    requires v.Slice? && Encodable(v) && i < |v.elems| - 1 && |Enc(v.elems[i])| <= |EncElems(v, i)|
    ensures ParseArray(|v.elems| - i, EncElems(v, i)[..|Enc(v.elems[i])|])
         == CutArray(v, i, |EncElems(v, i)| - |Enc(v.elems[i])|)
  {
    hide ParseValue, ParseArray, Enc, Encodable, EncElems, TailLen;
    var e := v.elems[i];
    ElemsTail(v, i);
    CutRight(Enc(e), EncElems(v, i + 1), |Enc(e)|);
    assert Enc(e) + EncElems(v, i + 1)[..0] == Enc(e);
    WholeAtEnd(e);
    ArrayAtEnd(|v.elems| - i, Enc(e));
  }

  /** The cut lies past the first byte of the next element. */
  lemma CutPastElem(v: Value, i: nat, k: nat)
    requires v.Slice? && Encodable(v) && i < |v.elems| - 1 && |Enc(v.elems[i])| < k < |EncElems(v, i)|
    requires EncElems(v, i) == Enc(v.elems[i]) + EncElems(v, i + 1)
    requires ParseArray(|v.elems| - i - 1, EncElems(v, i + 1)[..k - |Enc(v.elems[i])|])
          == CutArray(v, i + 1, |EncElems(v, i)| - k)
    ensures ParseArray(|v.elems| - i, EncElems(v, i)[..k]) == CutArray(v, i, |EncElems(v, i)| - k)
  {
    hide ParseValue, ParseArray, Enc, Encodable, EncElems, Norm, TailLen, PadLast;
    var e, tail := v.elems[i], EncElems(v, i + 1)[..k - |Enc(v.elems[i])|];
    ElemsTail(v, i);
    CutRight(Enc(e), EncElems(v, i + 1), k);
    RoundTrip(e, tail);
    ArrayGoesOn(|v.elems| - i, Enc(e) + tail, Norm(e), tail);
    var c := |EncElems(v, i)| - k;
    if c < TailLen(v) {
      PadKeepsElem(v, c, i);
    }
  }

  lemma PadKeepsElem(v: Value, c: nat, i: nat)
    requires v.Slice? && c <= TailLen(v) && i < |v.elems| - 1
    ensures PadLast(v, c).elems[i] == v.elems[i]
    ensures NormSeq(PadLast(v, c), i) == [Norm(v.elems[i])] + NormSeq(PadLast(v, c), i + 1)
  {
  }

  lemma PadLastElem(v: Value, c: nat)
    requires v.Slice? && v.elems != [] && c <= TailLen(v)
    ensures TailLen(v) == TailLen(v.elems[|v.elems| - 1])
    ensures NormSeq(PadLast(v, c), |v.elems| - 1) == [Norm(PadLast(v.elems[|v.elems| - 1], c))]
  {
    var n := |v.elems| - 1;
    assert NormSeq(PadLast(v, c), n + 1) == [];
    assert PadLast(v, c).elems[n] == PadLast(v.elems[n], c);
  }

  lemma ArrayGoesOn(n: nat, s: Bytes, v: Value, t: Bytes)
    requires n > 0 && ParseValue(s) == Done(v, t)
    ensures var p := ParseArray(n - 1, t);
            ParseArray(n, s) == if p.Done? then Done([v] + p.value, p.rest) else Fail
  {
    hide ParseValue;
  }

  /** The string an array ends in belongs to its last element. */
  lemma ElemsTail(v: Value, i: nat)
    requires v.Slice? && Encodable(v) && i < |v.elems|
    ensures EncElems(v, i) == Enc(v.elems[i]) + EncElems(v, i + 1)
    ensures Encodable(v.elems[i]) && EncElems(v, |v.elems|) == []
    ensures i == |v.elems| - 1 ==> TailLen(v) == TailLen(v.elems[i])
    ensures i < |v.elems| - 1 ==> TailLen(v) < |EncElems(v, i + 1)|
  {
    if i < |v.elems| - 1 {
      TailShort(v.elems[|v.elems| - 1]);
      TailInElems(v, i + 1);
    }
  }

  /** At the end of the input no further element can be read. */
  lemma ArrayAtEnd(n: nat, s: Bytes)
    requires n > 0 && (ParseValue(s).Done? ==> ParseValue(s).rest == [])
    ensures n > 1 ==> ParseArray(n, s).Fail?
    ensures n == 1 ==> ParseArray(n, s) == if ParseValue(s).Done? then Done([ParseValue(s).value], []) else Fail
  {
    assert ParseValue(s).Done? ==> [ParseValue(s).value] + [] == [ParseValue(s).value];
  }

  lemma WholeAtEnd(v: Value)
    requires Encodable(v)
    ensures ParseValue(Enc(v)).Done? ==> ParseValue(Enc(v)).rest == []
  {
    hide ParseValue, Enc;
    assert Enc(v) + [] == Enc(v);
    if EndsInEmptyString(v) {
      TrailingEmptyStringFails(v);
    } else {
      RoundTrip(v, []);
    }
  }

  lemma {:induction false} CutObject(v: Value, k: nat)
    requires v.Object? && Encodable(v) && k < |Enc(v)|
    ensures ParseValue(Enc(v)[..k]).Fail?
    decreases v, 1
  {
    SortedKeysMembers(v.fields.Keys);
    var names := SortedKeys(v.fields.Keys);
    var body := EncMembers(v, names) + OBJECT_END;
    Concat3([OBJECT_MARKER], EncMembers(v, names), OBJECT_END);
    if k > 0 {
      CutRight([OBJECT_MARKER], body, k);
      ParseValueObject(body[..k - 1]);
      CutMembers(v, names, map[], k - 1);
    }
  }

  /** A member apart from those after it. */
  lemma MemberParts(v: Value, names: seq<Bytes>)
    requires v.Object? && Encodable(v) && names != [] && forall x | x in names :: x in v.fields
    ensures var name, sub := names[0], v.fields[names[0]];
            && NameOk(name) && Encodable(sub)
            && EncMembers(v, names) + OBJECT_END
               == Be(2, |name|) + (name + (Enc(sub) + (EncMembers(v, names[1..]) + OBJECT_END)))
    ensures |EncMembers(v, names[1..]) + OBJECT_END| >= 3
  {
    MemberApart(v, names, OBJECT_END);
    hide Be, Enc, EncMembers;
  }

  lemma {:induction false} CutMembers(v: Value, names: seq<Bytes>, m: map<Bytes, Value>, k: nat)
    requires v.Object? && Encodable(v) && (forall x | x in names :: x in v.fields)
    requires k < |EncMembers(v, names) + OBJECT_END|
    ensures ParseObject((EncMembers(v, names) + OBJECT_END)[..k], m).Fail?
    decreases v, 0, |names|
  {
    hide ParseValue, ParseObject, Enc, EncMembers, Be, Norm, Encodable, NameOk;
    if names == [] {
      NoMembersLeft(v);
      CutEnd(m, k);
    } else {
      var name, sub, tail := names[0], v.fields[names[0]], EncMembers(v, names[1..]) + OBJECT_END;
      MemberParts(v, names);
      var q := k - 2 - |name|;
      if q <= 0 {
        CutName(name, Enc(sub) + tail, m, k);
      } else {
        CutRight(Be(2, |name|), name + (Enc(sub) + tail), k);
        CutRight(name, Enc(sub) + tail, k - 2);
        if q < |Enc(sub)| {
          CutExactly(sub, q);
          CutInMember(name, Enc(sub), tail, m, q);
        } else if q == |Enc(sub)| {
          WholeAtEnd(sub);
          assert Enc(sub)[..q] == Enc(sub);
          CutInMember(name, Enc(sub), tail, m, q);
        } else {
          CutRight(Enc(sub), tail, q);
          RoundTrip(sub, tail[..q - |Enc(sub)|]);
          ParseMember(name, Enc(sub), Norm(sub), tail[..q - |Enc(sub)|], m);
          CutMembers(v, names[1..], m[name := Norm(sub)], q - |Enc(sub)|);
        }
      }
    }
  }

  lemma NoMembersLeft(v: Value)
    requires v.Object?
    ensures EncMembers(v, []) + OBJECT_END == OBJECT_END
  {
  }

  /** The cut lies in the value of a member, or right after it. */
  lemma CutInMember(name: Bytes, enc: Bytes, tail: Bytes, m: map<Bytes, Value>, q: nat)
    requires NameOk(name) && q <= |enc|
    requires ParseValue(enc[..q]).Done? ==> ParseValue(enc[..q]).rest == []
    ensures ParseObject(Be(2, |name|) + (name + (enc + tail)[..q]), m).Fail?
  {
    CutLeft(enc, tail, q);
    ParseNameOfName(name, enc[..q]);
    MemberAtEnd(name, Be(2, |name|) + (name + enc[..q]), enc[..q], m);
    hide *;
  }

  lemma CutEnd(m: map<Bytes, Value>, k: nat)
    requires k < |OBJECT_END|
    ensures ParseObject(OBJECT_END[..k], m).Fail?
  {
    if k == 2 {
      assert Be(2, 0) == [0, 0];
      Widths();
      TakeUintOfBe(2, 0, []);
      assert OBJECT_END[..2] == Be(2, 0) + [];
    }
  }

  /** A name that is cut off is padded, and then there is no value. */
  lemma CutName(name: Bytes, tail: Bytes, m: map<Bytes, Value>, k: nat)
    requires NameOk(name) && k <= 2 + |name|
    ensures ParseObject((Be(2, |name|) + (name + tail))[..k], m).Fail?
  {
    var s := (Be(2, |name|) + (name + tail))[..k];
    if k >= 2 {
      CutRight(Be(2, |name|), name + tail, k);
      CutLeft(name, tail, k - 2);
      Widths();
      TakeUintOfBe(2, |name|, name[..k - 2]);
      assert ParseName(s).Done? ==> ParseName(s).rest == [] && ParseName(s).value != [];
      assert ParseValue([]).Fail?;
    }
    hide Be, FromBe;
  }

  /** At the end of the input the object is not finished. */
  lemma MemberAtEnd(name: Bytes, s: Bytes, t: Bytes, m: map<Bytes, Value>)
    requires ParseName(s) == Done(name, t) && name != []
    requires ParseValue(t).Done? ==> ParseValue(t).rest == []
    ensures ParseObject(s, m).Fail?
  {
    hide ParseValue;
    if ParseValue(t).Done? {
      assert ParseObject([], m[name := ParseValue(t).value]).Fail?;
    }
  }
}
