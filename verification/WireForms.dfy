/** What is on the wire, byte by byte, in numbers. */
module WireForms {
  import opened ByteCodec
  import opened Results
  import opened AmfValue
  import opened AmfEncode
  import opened AmfDecode
  import opened RtmpWire
  import opened MessageStates
  import Conns

  // ---- AMF0

  /** The most significant byte first. */
  function Two(n: nat): Bytes {
    [n / 256 % 256, n % 256]
  }

  function Four(n: nat): Bytes {
    [n / 16777216 % 256, n / 65536 % 256, n / 256 % 256, n % 256]
  }

  lemma EightBytes(n: nat)
    ensures Be(8, n) == Four(n / 0x1_0000_0000) + Four(n)
  {
    Be4(n / 0x1_0000_0000);
    Be4(n);
    Front(n);
    hide Be;
  }

  lemma Front(n: nat)
    ensures Be(8, n) == Be(4, n / 0x1_0000_0000) + Be(4, n)
  {
    hide Be;
    var a, b, c := n / 256, n / 65536, n / 16777216;
    assert a / 256 == b && b / 256 == c && c / 256 == n / 0x1_0000_0000;
    BeFront(7, n);
    BeFront(6, a);
    BeFront(5, b);
    BeFront(4, c);
    Be4(n);
  }

  /** Every encoding, by the kind of the value: its marker, and the bytes after it. */
  lemma EncodedForms(v: Value)
    ensures match v
            case Nil => Enc(v) == [5]
            case NilSlice => Enc(v) == [5]
            case NilMap => Enc(v) == [5]
            case Bool(b) => Enc(v) == [1, if b then 1 else 0]
            case Number(bits) => Enc(v) == [0] + (Four(bits / 0x1_0000_0000) + Four(bits))
            case Str(s) => Enc(v) == if |s| <= 65535 then [2] + Two(|s|) + s else [12] + Four(|s|) + s
            case Slice(es) => if es == [] then Enc(v) == [6] else [10] + Four(|es|) + Enc(es[0]) <= Enc(v)
            case Object(m) => Enc(v)[..1] == [3] && |Enc(v)| >= 4 && Enc(v)[|Enc(v)| - 3..] == [0, 0, 9]
  {
    match v {
      case Number(bits) => EightBytes(bits);
      case Str(s) =>
        Be2(|s|);
        Be4(|s|);
      case Slice(es) =>
        Be4(|es|);
        hide Be;
      case _ =>
    }
  }

  /** A member of an object: two bytes of length, its name, its value. */
  lemma EncodedMember(v: Value, name: Bytes)
    requires v.Object? && name in v.fields
    ensures EncMember(v, name) == Two(|name|) + name + Enc(v.fields[name])
  {
    Be2(|name|);
    hide Be;
  }

  /** What only a decoder meets: an object after a count that is ignored, the long form of
      strings under the marker of documents, and nil under that of unsupported values;
      other markers are refused. */
  lemma DecodedForms(m: byte, n: nat, s: Bytes)
    requires n < 0x1_0000_0000
    ensures ParseValue([8] + Four(n) + s) == ParseValue([3] + s)
    ensures ParseValue([15] + s) == ParseValue([12] + s)
    ensures ParseValue([13] + s) == ParseValue([6] + s) == ParseValue([5] + s) == Done(Nil, s)
    ensures m in {4, 7, 9, 14} || m >= 16 ==> ParseValue([m] + s).Fail?
  {
    hide ParseValue, FromBe;
    EcmaForm(n, s);
    OneByte(15, s);
    OneByte(12, s);
    OneByte(13, s);
    OneByte(6, s);
    OneByte(5, s);
    OneByte(m, s);
  }

  lemma EcmaForm(n: nat, s: Bytes)
    ensures ParseValue([8] + Four(n) + s) == ParseValue([3] + s)
  {
    hide ParseObject, FromBe;
    var d := [8] + Four(n) + s;
    assert d[1..] == Four(n) + s && (Four(n) + s)[4..] == s && ([3] + s)[1..] == s;
  }

  lemma OneByte(m: byte, s: Bytes)
    ensures ParseValue([m] + s)
         == if m == 12 || m == 15 then ParseString(4, s)
            else if m in {5, 6, 13} then Done(Nil, s)
            else if m in {4, 7, 9, 14} || m >= 16 then Fail
            else ParseValue([m] + s)
  {
    hide ParseObject, ParseString, ParseArray, ParseNumber, TakeUint, TakeBytes;
    assert ([m] + s)[1..] == s;
  }

  // ---- RTMP

  /** A full header: stream, three bytes of time stamp and of length, type, four bytes of
      message stream; a time stamp that three bytes cannot hold follows all ones. */
  lemma FullHeader(h: Header, n: uint32)
    requires 2 <= h.csid <= 32
    ensures SentHeader(None, h, n)
         == [h.csid] + (if h.timestamp < 0xffffff then Four(h.timestamp)[1..] else [0xff, 0xff, 0xff])
            + (Four(n)[1..] + [h.typo % 256]) + Four(h.msid)
            + (if h.timestamp < 0xffffff then [] else Four(h.timestamp))
  {
    TimestampForm(h.timestamp);
    LengthForm(n, h.typo);
    StreamIdForm(h.msid);
    hide TimestampBytes, LengthBytes, StreamIdBytes, ExtendedBytes, Four;
  }

  lemma StreamIdForm(msid: uint32)
    ensures StreamIdBytes(0, msid) == Four(msid)
  {
    Be4(msid);
    hide Be;
  }

  lemma TimestampForm(timestamp: uint32)
    ensures TimestampBytes(0, timestamp) == if timestamp < 0xffffff then Four(timestamp)[1..] else [0xff, 0xff, 0xff]
    ensures ExtendedBytes(timestamp) == if timestamp < 0xffffff then [] else Four(timestamp)
  {
    Be3(timestamp);
    Be3(0xffffff);
    Be4(timestamp);
    hide Be;
  }

  lemma LengthForm(n: uint32, typo: nat)
    ensures LengthBytes(0, n, typo) == Four(n)[1..] + [typo % 256]
  {
    Be3(n);
    hide Be;
  }

  /** A later chunk of a message starts with one byte, format 3 and the stream. */
  lemma ContinuationHeader(csid: uint32)
    requires 2 <= csid <= 32
    ensures BasicBytes(3, csid) == [192 + csid]
  {
  }

  /** Streams 0 and 1 are written as 256 and 257, which no receiver accepts. */
  lemma LowStreams(h: Header, payload: Bytes, streams: seq<Stream>, chunkSize: uint32, rest: Bytes)
    requires h.csid < 2 && |payload| < 0x1_0000_0000
    ensures StreamOf(MessageBytes(h, payload) + rest) == 256 + h.csid
    ensures ParseMessage(streams, chunkSize, MessageBytes(h, payload) + rest) == Refused
  {
    var s := MessageBytes(h, payload) + rest;
    StartsWith(h, payload, rest);
    BasicExactly(s);
    hide ParseBasic, ParseMessageHeader, MessageBytes;
  }

  lemma StartsWith(h: Header, payload: Bytes, rest: Bytes)
    requires h.csid < 2 && |payload| < 0x1_0000_0000
    ensures [1, 192 + h.csid, 0] <= MessageBytes(h, payload) + rest
  {
    hide TimestampBytes, LengthBytes, StreamIdBytes, ExtendedBytes;
  }

  /** What goes out for a message of any length announces its length modulo 4096. */
  lemma AnnouncedLength(p: Bytes, prev: Option<Header>, h: Header)
    requires 2 <= h.csid <= 32
    ensures Wire(p, prev, h) == SentHeader(prev, h, |p| % 4096) + p
  {
    hide SentHeader, Wire;
    WireBytes(p, prev, h);
  }

  /** The numbers of the message types end before 23. */
  lemma KnownTypes(h: Header, payload: Bytes, streams: seq<Stream>, chunkSize: uint32, rest: Bytes)
    requires 2 <= h.csid < 32 && |payload| < 0x100_0000 && |payload| <= chunkSize < 0x1_0000_0000 - 18
    requires |streams| == 32 && streams[h.csid] == ZERO_STREAM
    ensures h.typo in {20, 22} ==> ParseMessage(streams, chunkSize, MessageBytes(h, payload) + rest)
                                   == Pumped.Got(h.(fmt := 0, mlen := |payload|), payload, rest)
    ensures h.typo in {23, 24, 255} ==> ParseMessage(streams, chunkSize, MessageBytes(h, payload) + rest) == Refused
  {
    hide HeaderBytes, ParseBasic, ParseMessageHeader;
    MessageRoundTripExactly(h, payload, streams, chunkSize, rest);
    Concat3(SentHeader(None, h, |payload|), payload, rest);
    ReadHeader(0, h, h.timestamp, |payload|, payload + rest);
  }

  /** An acknowledgement: stream 2, type 3, and the number of bytes received. */
  lemma AckForm(n: uint32)
    ensures Conns.AckBytes(Some(n)) == [2, 0, 0, 0, 0, 0, 4, 3, 0, 0, 0, 0] + Four(n)
  {
    hide Wire, SentHeader, Be, ZERO_HEADER;
    WireBytes(Be(4, n), None, ZERO_HEADER.(csid := 2, typo := MESSAGE_ACK));
    AckHeader();
    Be4(n);
  }

  lemma AckHeader()
    ensures SentHeader(None, ZERO_HEADER.(csid := 2, typo := MESSAGE_ACK), 4) == [2, 0, 0, 0, 0, 0, 4, 3, 0, 0, 0, 0]
  {
    hide SentHeader, Four;
    FullHeader(ZERO_HEADER.(csid := 2, typo := MESSAGE_ACK), 4);
    SmallFours();
    assert [0, 0, 0, 0][1..] == [0, 0, 0] && [0, 0, 0, 4][1..] == [0, 0, 4];
  }

  lemma SmallFours()
    ensures Four(0) == [0, 0, 0, 0] && Four(4) == [0, 0, 0, 4]
  {
  }
}
