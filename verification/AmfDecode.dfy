/** amf/decode.go: two recursive-descent decoders over one read cursor. */
module AmfDecode {
  import opened ByteCodec
  import opened Results
  import opened AmfValue

  /** binary.Read of a big-endian unsigned integer: all its bytes or an error. */
  function TakeUint(width: nat, s: Bytes): Parse<nat> {
    if |s| < width then Fail else Done(FromBe(s[..width]), s[width..])
  }

  /** bytes.Reader.Read into n zeroed bytes: an error at the end of the input, even when
      n is 0; otherwise as many bytes as there are, the others staying zero. */
  function TakeBytes(n: nat, s: Bytes): Parse<Bytes> {
    if s == [] then Fail
    else if n <= |s| then Done(s[..n], s[n..])
    else Done(s + Zeros(n - |s|), [])
  }

  /** objectName: an empty name is read without touching the input after its length. */
  function ParseName(s: Bytes): Parse<Bytes> {
    var (n, t) :- TakeUint(2, s);
    if n == 0 then Done([], t) else TakeBytes(n, t)
  }

  function ParseString(width: nat, s: Bytes): Parse<Value> {
    var (n, t) :- TakeUint(width, s);
    var (b, u) :- TakeBytes(n, t);
    Done(Str(b), u)
  }

  function ParseNumber(s: Bytes): Parse<Value> {
    if |s| < 8 then Fail else
    FromBeBound(s[..8]);
    Widths();
    Done(Number(FromBe(s[..8])), s[8..])
  }

  /** valueInterface on the remaining input s. */
  function ParseValue(s: Bytes): (r: Parse<Value>)
    ensures r.Done? ==> |r.rest| < |s|
    decreases |s|, 1
  {
    if s == [] then Fail else
    var m, t := s[0], s[1..];
    if m == NUMBER_MARKER then ParseNumber(t)
    else if m == BOOLEAN_MARKER then if t == [] then Fail else Done(Bool(t[0] != 0), t[1..])
    else if m == STRING_MARKER then ParseString(2, t)
    else if m == OBJECT_MARKER then ParseObject(t, map[])
    else if m == NULL_MARKER then Done(Nil, t)
    else if m == UNDEFINED_MARKER then Done(Nil, t)
    else if m == ECMA_ARRAY_MARKER then
      var (_, u) :- TakeUint(4, t);
      ParseObject(u, map[])
    else if m == STRICT_ARRAY_MARKER then
      var (n, u) :- TakeUint(4, t);
      var (es, w) :- ParseArray(n, u);
      Done(Slice(es), w)
    else if m == DATE_MARKER then
      var (_, u) :- TakeUint(8, t);
      var (_, w) :- TakeBytes(2, u);
      Done(Nil, w)
    else if m == LONG_STRING_MARKER then ParseString(4, t)
    else if m == UNSUPPORTED_MARKER then Done(Nil, t)
    else if m == XML_DOCUMENT_MARKER then ParseString(4, t)
    else Fail
  }

  /** n values in a row. */
  function ParseArray(n: nat, s: Bytes): (r: Parse<seq<Value>>)
    ensures r.Done? ==> |r.rest| + n <= |s| && |r.value| == n
    decreases |s|, 2, n
  {
    if n == 0 then Done([], s) else
    var (v, t) :- ParseValue(s);
    var (vs, u) :- ParseArray(n - 1, t);
    Done([v] + vs, u)
  }

  /** Members up to the end marker, added to those in m. */
  function ParseObject(s: Bytes, m: map<Bytes, Value>): (r: Parse<Value>)
    ensures r.Done? ==> |r.rest| < |s| && r.value.Object?
    decreases |s|, 0
  {
    var (name, t) :- ParseName(s);
    if name == [] then
      if t != [] && t[0] == OBJECT_END_MARKER then Done(Object(m), t[1..]) else Fail
    else
      var (v, u) :- ParseValue(t);
      ParseObject(u, m[name := v])
  }

  /** The calls to valueInterface that a loop over n elements makes, counting a call
      that fails and ends the loop. */
  function Attempts(n: nat, s: Bytes): nat
    decreases n
  {
    if n == 0 then 0
    else if ParseValue(s).Fail? then 1
    else 1 + Attempts(n - 1, ParseValue(s).rest)
  }

  /** How value ends, with the input that remains. */
  datatype Read = Got(value: Value, rest: Bytes) | Returned | Panicked

  function OrReturn(p: Parse<Value>): Read {
    if p.Done? then Got(p.value, p.rest) else Returned
  }

  function OrPanic(p: Parse<Value>): Read {
    if p.Done? then Got(p.value, p.rest) else Panicked
  }

  function ParseStrictArray(n: nat, s: Bytes): Parse<Value> {
    var (es, t) :- ParseArray(n, s);
    Done(Slice(es), t)
  }

  /** An array whose first elements v are already read. */
  function Glue(v: seq<Value>, p: Parse<seq<Value>>): Parse<Value> {
    if p.Done? then Done(Slice(v + p.value), p.rest) else Fail
  }

  lemma ArrayStep(v: seq<Value>, n: nat, s: Bytes)
    requires n > 0
    ensures var p := ParseValue(s);
            && Glue(v, ParseArray(n, s))
               == (if p.Done? then Glue(v + [p.value], ParseArray(n - 1, p.rest)) else Fail)
            && Attempts(n, s) == 1 + if p.Done? then Attempts(n - 1, p.rest) else 0
  {
    var p := ParseValue(s);
    if p.Done? {
      var q := ParseArray(n - 1, p.rest);
      if q.Done? {
        assert v + ([p.value] + q.value) == (v + [p.value]) + q.value;
      }
    }
  }

  lemma GlueAll(v: seq<Value>, s: Bytes)
    ensures Glue(v, ParseArray(0, s)) == Done(Slice(v), s) && Attempts(0, s) == 0
  {
    assert v + [] == v;
  }

  lemma GlueNone(n: nat, s: Bytes)
    ensures Glue([], ParseArray(n, s)) == ParseStrictArray(n, s)
  {
    var p := ParseArray(n, s);
    if p.Done? {
      assert [] + p.value == p.value;
    }
  }

  /** value on a nil interface{}: scalars are read into the target, containers are
      handed to the interface decoder, whose failures are panics. */
  function ReadInterface(s: Bytes): Read {
    if s == [] then Returned else
    var m, t := s[0], s[1..];
    if m == NUMBER_MARKER then OrReturn(ParseNumber(t))
    else if m == BOOLEAN_MARKER then if t == [] then Returned else Got(Bool(t[0] != 0), t[1..])
    else if m == STRING_MARKER then OrReturn(ParseString(2, t))
    else if m == OBJECT_MARKER then OrPanic(ParseObject(t, map[]))
    else if m == NULL_MARKER || m == UNDEFINED_MARKER || m == UNSUPPORTED_MARKER then Got(Nil, t)
    else if m == ECMA_ARRAY_MARKER then
      if |t| < 4 then Returned else OrPanic(ParseObject(t[4..], map[]))
    else if m == STRICT_ARRAY_MARKER then
      if |t| < 4 then Returned else OrPanic(ParseStrictArray(FromBe(t[..4]), t[4..]))
    else if m == DATE_MARKER then
      if |t| < 8 then Returned
      else if TakeBytes(2, t[8..]).Done? then Got(Nil, TakeBytes(2, t[8..]).rest)
      else Got(Nil, t[8..])
    else if m == LONG_STRING_MARKER || m == XML_DOCUMENT_MARKER then OrReturn(ParseString(4, t))
    else Returned
  }

  lemma ReadInterfaceProgress(s: Bytes)
    ensures ReadInterface(s).Got? ==> |ReadInterface(s).rest| < |s|
  {
  }

  /** object on a map[string]interface{} holding m. */
  function ReadMap(s: Bytes, m: map<Bytes, Value>): Read
    decreases |s|
  {
    var p := ParseName(s);
    if p.Fail? then Returned
    else if p.value == [] then
      if p.rest != [] && p.rest[0] == OBJECT_END_MARKER then Got(Object(m), p.rest[1..]) else Panicked
    else
      var r := ReadInterface(p.rest);
      ReadInterfaceProgress(p.rest);
      if r.Got? then ReadMap(r.rest, m[p.value := r.value]) else r
  }

  /** What a decoder knows of errors: whether one was put aside, and whether errorContext is
      set, as it is while a struct member is decoded. */
  datatype Errors = Errors(saved: bool, within: bool)

  const NO_ERRORS := Errors(false, false)

  class DecodeState {
    const data: Bytes
    var off: nat

    /** An error was put aside, to be reported at the end. */
    var saved: bool

    /** The names in errorContext, from the outermost member in; its struct type is set
        exactly when there is one. */
    var fieldStack: seq<Bytes>

    constructor (data: Bytes)
      ensures Valid() && Rest() == data && Errs() == NO_ERRORS
    {
      this.data := data;
      off, saved, fieldStack := 0, false, [];
    }

    ghost function Errs(): Errors
      reads this
    {
      Errors(saved, fieldStack != [])
    }

    ghost predicate Valid()
      reads this
    {
      off <= |data|
    }

    ghost function Rest(): Bytes
      requires Valid()
      reads this
    {
      data[off..]
    }

    /** The outcome is that of p; only a value fixes where the cursor stands. */
    ghost predicate Follows<T>(p: Parse<T>, r: Outcome<T>, failure: Outcome<T>)
      reads this
    {
      Valid() && if p.Done? then r == Ok(p.value) && Rest() == p.rest else r == failure
    }

    ghost predicate Matches(p: Read, r: Outcome<Value>)
      reads this
    {
      && Valid()
      && match p
         case Got(v, rest) => r == Ok(v) && Rest() == rest
         case Returned => r == Error
         case Panicked => r == Panic
    }

    // ---- Errors

    method SaveError() returns (panics: bool)
      modifies this`saved
      ensures panics <==> !old(saved) && fieldStack != []
      ensures saved == (old(saved) || !panics)
    {
      if saved {
        return false;
      }
      panics := AddErrorContext();
      saved := !panics;
    }

    /** Within a member the error is looked for in a variable declared there, not in the
        parameter of the same name: the nil pointer in it is found and assigned through. */
    method AddErrorContext() returns (panics: bool)
      ensures panics <==> fieldStack != []
    {
      panics := |fieldStack| > 0;
    }

    // ---- The reader

    method ReadByte() returns (r: Outcome<byte>)
      requires Valid()
      modifies this`off
      ensures Valid()
      ensures if old(Rest()) == [] then r == Error && off == old(off)
              else r == Ok(old(Rest())[0]) && Rest() == old(Rest())[1..]
    {
      if off == |data| {
        return Error;
      }
      r := Ok(data[off]);
      off := off + 1;
    }

    method ReadUint(width: nat) returns (r: Outcome<nat>)
      requires Valid()
      modifies this`off
      ensures Follows(TakeUint(width, old(Rest())), r, Error)
    {
      if |data| - off < width {
        off := |data|;
        return Error;
      }
      assert data[off..][..width] == data[off..off + width];
      r := Ok(FromBe(data[off..off + width]));
      off := off + width;
    }

    method Read(n: nat) returns (r: Outcome<Bytes>)
      requires Valid()
      modifies this`off
      ensures Follows(TakeBytes(n, old(Rest())), r, Error)
      ensures r.Error? ==> off == old(off)
    {
      if off == |data| {
        return Error;
      }
      if n <= |data| - off {
        assert data[off..][..n] == data[off..off + n];
        r := Ok(data[off..off + n]);
        off := off + n;
      } else {
        r := Ok(data[off..] + Zeros(n - (|data| - off)));
        off := |data|;
      }
    }

    method ObjectName() returns (r: Outcome<Bytes>)
      requires Valid()
      modifies this`off
      ensures Follows(ParseName(old(Rest())), r, Error)
    {
      var n := ReadUint(2);
      if n.Error? {
        return Error;
      }
      if n.value == 0 {
        return Ok([]);
      }
      r := Read(n.value);
    }

    // ---- valueInterface and its helpers: every error is a panic

    method FloatInterface() returns (r: Outcome<Value>)
      requires Valid()
      modifies this`off
      ensures Follows(ParseNumber(old(Rest())), r, Panic)
    {
      ghost var s := Rest();
      var f := ReadUint(8);
      if f.Error? {
        return Panic;
      }
      FromBeBound(s[..8]);
      Widths();
      r := Ok(Number(f.value));
    }

    method BoolInterface() returns (r: Outcome<Value>)
      requires Valid()
      modifies this`off
      ensures Follows(if old(Rest()) == [] then Fail else Done(Bool(old(Rest())[0] != 0), old(Rest())[1..]), r, Panic)
    {
      var bt := ReadByte();
      if bt.Error? {
        return Panic;
      }
      r := Ok(Bool(bt.value != 0));
    }

    /** stringInterface and longStringInterface. */
    method StringInterface(width: nat) returns (r: Outcome<Value>)
      requires Valid()
      modifies this`off
      ensures Follows(ParseString(width, old(Rest())), r, Panic)
    {
      var u := ReadUint(width);
      if u.Error? {
        return Panic;
      }
      var s := Read(u.value);
      if s.Error? {
        return Panic;
      }
      r := Ok(Str(s.value));
    }

    method ValueInterface() returns (r: Outcome<Value>)
      requires Valid()
      modifies this`off
      ensures Follows(ParseValue(old(Rest())), r, Panic)
      decreases |data| - off, 1
    {
      var m := ReadByte();
      if m.Error? {
        return Panic;
      }
      if m.value == NUMBER_MARKER {
        r := FloatInterface();
      } else if m.value == BOOLEAN_MARKER {
        r := BoolInterface();
      } else if m.value == STRING_MARKER {
        r := StringInterface(2);
      } else if m.value == OBJECT_MARKER {
        r := ObjectInterface();
      } else if m.value == NULL_MARKER || m.value == UNDEFINED_MARKER || m.value == UNSUPPORTED_MARKER {
        r := Ok(Nil);
      } else if m.value == ECMA_ARRAY_MARKER {
        r := EcmaArrayInterface();
      } else if m.value == STRICT_ARRAY_MARKER {
        r := StrictArrayInterface();
      } else if m.value == DATE_MARKER {
        r := DateInterface();
      } else if m.value == LONG_STRING_MARKER || m.value == XML_DOCUMENT_MARKER {
        r := StringInterface(4);
      } else {
        r := Panic;
      }
    }

    method ObjectInterface() returns (r: Outcome<Value>)
      requires Valid()
      modifies this`off
      ensures Follows(ParseObject(old(Rest()), map[]), r, Panic)
      decreases |data| - off, 0
    {
      ghost var start := ParseObject(Rest(), map[]);
      var m: map<Bytes, Value> := map[];
      while true
        invariant Valid() && off >= old(off)
        invariant ParseObject(Rest(), m) == start
        decreases |data| - off
      {
        var on := ObjectName();
        if on.Error? {
          return Panic;
        }
        if |on.value| > 0 {
          var v := ValueInterface();
          if v.Panic? {
            return Panic;
          }
          m := m[on.value := v.value];
        } else {
          var end := ReadByte();
          if end.Error? || end.value != OBJECT_END_MARKER {
            return Panic;
          }
          return Ok(Object(m));
        }
      }
    }

    method EcmaArrayInterface() returns (r: Outcome<Value>)
      requires Valid()
      modifies this`off
      ensures Follows(if |old(Rest())| < 4 then Fail else ParseObject(old(Rest())[4..], map[]), r, Panic)
      decreases |data| - off, 1
    {
      var u := ReadUint(4);
      if u.Error? {
        return Panic;
      }
      r := ObjectInterface();
    }

    method StrictArrayInterface() returns (r: Outcome<Value>)
      requires Valid()
      modifies this`off
      ensures Follows(if |old(Rest())| < 4 then Fail
                      else ParseStrictArray(FromBe(old(Rest())[..4]), old(Rest())[4..]), r, Panic)
      decreases |data| - off, 4
    {
      var u := ReadUint(4);
      if u.Error? {
        return Panic;
      }
      ghost var attempts;
      r, attempts := ArrayInterface(u.value);
    }

    /** The loop over n declared elements, which stops at the first failure. */
    method ArrayInterface(n: nat) returns (r: Outcome<Value>, ghost attempts: nat)
      requires Valid()
      modifies this`off
      ensures Follows(ParseStrictArray(n, old(Rest())), r, Panic)
      ensures attempts == Attempts(n, old(Rest()))
      decreases |data| - off, 3
    {
      hide ParseValue, ParseArray, Attempts;
      ghost var s := Rest();
      var v: seq<Value> := [];
      attempts := 0;
      GlueNone(n, s);
      for i := 0 to n
        invariant Valid() && off >= old(off)
        invariant attempts == i && |v| == i
        invariant i + Attempts(n - i, Rest()) == Attempts(n, s)
        invariant Glue(v, ParseArray(n - i, Rest())) == ParseStrictArray(n, s)
      {
        ArrayStep(v, n - i, Rest());
        var e := ValueInterface();
        attempts := attempts + 1;
        if e.Panic? {
          return Panic, attempts;
        }
        v := v + [e.value];
      }
      GlueAll(v, Rest());
      r := Ok(Slice(v));
    }

    method DateInterface() returns (r: Outcome<Value>)
      requires Valid()
      modifies this`off
      ensures Follows(if |old(Rest())| < 8 || TakeBytes(2, old(Rest())[8..]).Fail? then Fail
                      else Done(Nil, TakeBytes(2, old(Rest())[8..]).rest), r, Panic)
    {
      var f := ReadUint(8);
      if f.Error? {
        return Panic;
      }
      var s := Read(2);
      if s.Error? {
        return Panic;
      }
      r := Ok(Nil);
    }

    // ---- value on a nil interface{}, and object on a map[string]interface{}

    method Value() returns (r: Outcome<Value>)
      requires Valid()
      modifies this`off
      ensures Matches(ReadInterface(old(Rest())), r)
    {
      var m := ReadByte();
      if m.Error? {
        return Error;
      }
      if m.value == NUMBER_MARKER {
        r := Float64();
      } else if m.value == BOOLEAN_MARKER {
        var bt := ReadByte();
        r := if bt.Error? then Error else Ok(Bool(bt.value != 0));
      } else if m.value == STRING_MARKER {
        r := String(2);
      } else if m.value == OBJECT_MARKER {
        r := ObjectInterface();
      } else if m.value == NULL_MARKER || m.value == UNDEFINED_MARKER || m.value == UNSUPPORTED_MARKER {
        r := Ok(Nil);
      } else if m.value == ECMA_ARRAY_MARKER {
        var u := ReadUint(4);
        if u.Error? {
          return Error;
        }
        r := ObjectInterface();
      } else if m.value == STRICT_ARRAY_MARKER {
        var u := ReadUint(4);
        if u.Error? {
          return Error;
        }
        ghost var attempts;
        r, attempts := ArrayInterface(u.value);
      } else if m.value == DATE_MARKER {
        r := Date();
      } else if m.value == LONG_STRING_MARKER || m.value == XML_DOCUMENT_MARKER {
        r := String(4);
      } else {
        r := Error;
      }
    }

    method Float64() returns (r: Outcome<Value>)
      requires Valid()
      modifies this`off
      ensures Matches(OrReturn(ParseNumber(old(Rest()))), r)
    {
      ghost var s := Rest();
      var f := ReadUint(8);
      if f.Error? {
        return Error;
      }
      FromBeBound(s[..8]);
      Widths();
      r := Ok(Number(f.value));
    }

    method String(width: nat) returns (r: Outcome<Value>)
      requires Valid()
      modifies this`off
      ensures Matches(OrReturn(ParseString(width, old(Rest()))), r)
    {
      var u := ReadUint(width);
      if u.Error? {
        return Error;
      }
      var s := Read(u.value);
      r := if s.Error? then Error else Ok(Str(s.value));
    }

    /** date drops the error of a missing time zone, dateInterface does not. */
    method Date() returns (r: Outcome<Value>)
      requires Valid()
      modifies this`off
      ensures Matches(ReadInterface([DATE_MARKER] + old(Rest())), r)
    {
      assert ([DATE_MARKER] + Rest())[1..] == Rest();
      var f := ReadUint(8);
      if f.Error? {
        return Error;
      }
      var s := Read(2);
      r := Ok(Nil);
    }

    method ObjectMap(target: map<Bytes, Value>) returns (r: Outcome<Value>)
      requires Valid()
      modifies this`off
      ensures Matches(ReadMap(old(Rest()), target), r)
    {
      ghost var start := ReadMap(Rest(), target);
      var m := target;
      while true
        invariant Valid()
        invariant ReadMap(Rest(), m) == start
        decreases |data| - off
      {
        var on := ObjectName();
        if on.Error? {
          return Error;
        }
        if |on.value| == 0 {
          var end := ReadByte();
          if end.Error? || end.value != OBJECT_END_MARKER {
            return Panic;
          }
          return Ok(Object(m));
        }
        ReadInterfaceProgress(Rest());
        var v := Value();
        if !v.Ok? {
          return v;
        }
        m := m[on.value := v.value];
      }
    }
  }

  /** Unmarshal(data, &x) with x a nil interface{}. */
  method Unmarshal(data: Bytes) returns (r: Outcome<Value>)
    ensures match ReadInterface(data)
            case Got(v, _) => r == Ok(v)
            case Returned => r == Error
            case Panicked => r == Panic
  {
    var d := new DecodeState(data);
    r := d.Value();
  }
}
