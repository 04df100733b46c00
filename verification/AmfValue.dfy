/** AMF0 markers, the Go value trees the codec works on, and their normal form. */
module AmfValue {
  import opened ByteCodec
  import opened Sorting

  // AMF 0 File Format Specification, section 2.1.
  const NUMBER_MARKER := 0
  const BOOLEAN_MARKER := 1
  const STRING_MARKER := 2
  const OBJECT_MARKER := 3
  const MOVIE_CLIP_MARKER := 4
  const NULL_MARKER := 5
  const UNDEFINED_MARKER := 6
  const REFERENCE_MARKER := 7
  const ECMA_ARRAY_MARKER := 8
  const OBJECT_END_MARKER := 9
  const STRICT_ARRAY_MARKER := 10
  const DATE_MARKER := 11
  const LONG_STRING_MARKER := 12
  const UNSUPPORTED_MARKER := 13
  const RECORD_SET_MARKER := 14
  const XML_DOCUMENT_MARKER := 15
  const TYPED_OBJECT_MARKER := 16

  const LONG_STRING_SIZE := 0xffff

  type uint64 = n: int | 0 <= n < 0x1_0000_0000_0000_0000

  /** What an interface{} can hold: nil, a bool, a float64 (its bit pattern), a string
      (its bytes), a []interface{} or a map[string]interface{}. A slice or map that is
      itself nil is a value of its own. */
  datatype Value =
    | Nil
    | Bool(b: bool)
    | Number(bits: uint64)
    | Str(s: Bytes)
    | NilSlice
    | Slice(elems: seq<Value>)
    | NilMap
    | Object(fields: map<Bytes, Value>)

  /** What decoding gives back: nil for each of the three ways to say "nothing". */
  function Norm(v: Value): Value {
    match v
    case Slice(es) => if es == [] then Nil else Slice(NormSeq(v, 0))
    case Object(m) => Object(map k | k in m :: Norm(m[k]))
    case NilSlice => Nil
    case NilMap => Nil
    case _ => v
  }

  function NormSeq(v: Value, i: nat): (r: seq<Value>)
    requires v.Slice? && i <= |v.elems|
    ensures |r| == |v.elems| - i
    ensures forall j | 0 <= j < |r| :: r[j] == Norm(v.elems[i + j])
    decreases v, 0, |v.elems| - i
  {
    if i == |v.elems| then [] else [Norm(v.elems[i])] + NormSeq(v, i + 1)
  }

  predicate NameOk(name: Bytes) {
    0 < |name| < 0x1_0000
  }

  /** The values AMF0 as written here can carry: member names of 1 to 65535 bytes,
      strings and arrays whose length fits 32 bits. */
  predicate Encodable(v: Value) {
    match v
    case Str(s) => |s| < 0x1_0000_0000
    case Slice(es) => |es| < 0x1_0000_0000 && forall i | 0 <= i < |es| :: Encodable(es[i])
    case Object(m) => forall k | k in m :: NameOk(k) && Encodable(m[k])
    case _ => true
  }

  /** The encoding of v has an empty string as its last item. */
  predicate EndsInEmptyString(v: Value) {
    match v
    case Str(s) => s == []
    case Slice(es) => es != [] && EndsInEmptyString(es[|es| - 1])
    case _ => false
  }

  /** The less function mapEncoder gives sort.Slice. */
  predicate KeyLess(x: Bytes, y: Bytes) {
    Less(x, y)
  }

  lemma KeyLessIsOrder()
    ensures StrictWeak(KeyLess)
  {
    forall x: Bytes, y: Bytes | KeyLess(x, y) ensures !KeyLess(y, x) {
      LessAsymmetric(x, y);
    }
    forall x: Bytes, y: Bytes, z: Bytes | !KeyLess(y, x) && !KeyLess(z, y) ensures !KeyLess(z, x) {
      if Less(z, x) {
        if Less(x, y) {
          LessTransitive(z, x, y);
        } else {
          LessConnected(x, y);
        }
      }
    }
  }

  ghost function Enumerate(ks: set<Bytes>): (r: seq<Bytes>)
    ensures multiset(r) == multiset(ks)
  {
    if ks == {} then
      []
    else
      var k :| k in ks;
      [k] + Enumerate(ks - {k})
  }

  /** The member names of a map, in the order they go on the wire. */
  ghost function SortedKeys(ks: set<Bytes>): (r: seq<Bytes>)
    ensures multiset(r) == multiset(ks)
  {
    Sort(KeyLess, Enumerate(ks))
  }

  /** However the keys of a map are enumerated, sorting them gives the same list. */
  lemma SortedKeysUnique(ks: set<Bytes>, r: seq<Bytes>)
    requires multiset(r) == multiset(ks) && Sorted(KeyLess, r)
    ensures r == SortedKeys(ks)
  {
    KeyLessIsOrder();
    SortSorts(KeyLess, Enumerate(ks));
    forall x, y | x in r && y in r ensures KeyLess(x, y) || KeyLess(y, x) || x == y {
      if !Less(x, y) && !Less(y, x) {
        LessConnected(x, y);
      }
    }
    SortedUnique(KeyLess, r, SortedKeys(ks));
  }

  /** Names go on the wire in ascending order, byte by byte. */
  lemma SortedKeysAscend(ks: set<Bytes>)
    ensures forall i, j | 0 <= i < j < |SortedKeys(ks)| :: Less(SortedKeys(ks)[i], SortedKeys(ks)[j])
  {
    var r := SortedKeys(ks);
    KeyLessIsOrder();
    SortSorts(KeyLess, Enumerate(ks));
    forall i, j | 0 <= i < j < |r| ensures Less(r[i], r[j]) {
      assert r == r[..j] + r[j..];
      assert r[i] in r[..j] && r[j] in r[j..];
      assert multiset(r)[r[i]] <= 1;
      if !Less(r[i], r[j]) {
        LessConnected(r[i], r[j]);
      }
    }
  }

  lemma SortedKeysMembers(ks: set<Bytes>)
    ensures forall k :: k in SortedKeys(ks) <==> k in ks
  {
    forall k ensures k in SortedKeys(ks) <==> k in ks {
      assert k in SortedKeys(ks) <==> k in multiset(SortedKeys(ks));
    }
  }
}
