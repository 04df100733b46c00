/** Chunk headers on the wire (RTMP 1.0 specification, section 5.3.1): what
    Message.prepare writes and what pumpMessage reads. */
module RtmpWire {
  import opened ByteCodec
  import opened Results

  const MAX_HEADER_SIZE := 18
  const SEND_CHUNK_SIZE := 4096
  const MAX_STREAMS := 32
  /** From here on the size of a buffer with room for a header wraps around. */
  const CHUNK_SIZE_LIMIT := 0x1_0000_0000 - MAX_HEADER_SIZE
  const EXTENDED := 0xffffff
  const MESSAGE_ACK := 3
  const MESSAGE_MAX := 23

  type uint32 = x: int | 0 <= x < 0x1_0000_0000

  datatype Header = Header(fmt: nat, csid: uint32, timestamp: uint32, mlen: uint32, typo: nat, msid: uint32)

  const ZERO_HEADER := Header(0, 0, 0, 0, 0, 0)

  function Wrap(n: int): uint32 {
    n % 0x1_0000_0000
  }

  function Min(n: uint32, m: uint32): uint32 {
    if n < m then n else m
  }

  // ---- Sending

  /** The header compression prepare chooses against the previous header. */
  function FmtOf(prev: Option<Header>, h: Header, size: uint32): nat {
    if prev.None? || prev.value.csid == 0 || h.msid != prev.value.msid then 0
    else if h.typo != prev.value.typo || size == 0 || size != prev.value.mlen then 1
    else if h.timestamp != prev.value.timestamp then 2
    else 3
  }

  /** The absolute time stamp, or its difference to the previous one. */
  function SentTimestamp(prev: Option<Header>, h: Header, size: uint32): uint32 {
    if FmtOf(prev, h, size) == 0 then h.timestamp else Wrap(h.timestamp - prev.value.timestamp)
  }

  /** prepare refuses chunk stream ids above 32; below 2 it falls into its last branch. */
  function BasicBytes(fmt: nat, csid: uint32): Bytes
    requires fmt < 4 && csid <= MAX_STREAMS
  {
    if csid >= 2 then [64 * fmt + csid] else [64 * fmt + 1, csid + 192, 0]
  }

  function TimestampBytes(fmt: nat, timestamp: uint32): Bytes {
    if fmt <= 2 then Be(3, Min(timestamp, EXTENDED)) else []
  }

  function LengthBytes(fmt: nat, size: uint32, typo: nat): Bytes {
    if fmt <= 1 then Be(3, size) + [typo % 256] else []
  }

  function StreamIdBytes(fmt: nat, msid: uint32): Bytes {
    if fmt == 0 then Be(4, msid) else []
  }

  function ExtendedBytes(timestamp: uint32): Bytes {
    if timestamp >= EXTENDED then Be(4, timestamp) else []
  }

  function HeaderBytes(fmt: nat, h: Header, timestamp: uint32, size: uint32): Bytes
    requires fmt < 4 && h.csid <= MAX_STREAMS
  {
    BasicBytes(fmt, h.csid) + TimestampBytes(fmt, timestamp) + LengthBytes(fmt, size, h.typo)
    + StreamIdBytes(fmt, h.msid) + ExtendedBytes(timestamp)
  }

  function SentHeader(prev: Option<Header>, h: Header, size: uint32): Bytes
    requires h.csid <= MAX_STREAMS
  {
    HeaderBytes(FmtOf(prev, h, size), h, SentTimestamp(prev, h, size), size)
  }

  // ---- Receiving

  function Take(n: nat, s: Bytes): Parse<Bytes> {
    if |s| < n then Fail else Done(s[..n], s[n..])
  }

  function ParseBasic(s: Bytes): Parse<Header> {
    var (b, t) :- Take(1, s);
    var h := ZERO_HEADER.(fmt := b[0] / 64, csid := b[0] % 64);
    if h.csid == 0 then
      var (c, u) :- Take(1, t);
      var c0: int := c[0];
      Done(h.(csid := 64 + c0), u)
    else if h.csid == 1 then
      var (c, u) :- Take(2, t);
      var c0: int, c1: int := c[0], c[1];
      Done(h.(csid := 64 + c0 + 256 * c1), u)
    else Done(h, t)
  }

  function ParseLength(h: Header, s: Bytes): Parse<Header> {
    if h.fmt > 1 then Done(h, s) else
    var (b, t) :- Take(4, s);
    assert FromBe(b[..3]) < 0x100_0000 by {
      FromBeBound(b[..3]);
      Widths();
    }
    Done(h.(mlen := FromBe(b[..3]), typo := b[3]), t)
  }

  function ParseStreamId(h: Header, s: Bytes): Parse<Header> {
    if h.fmt > 0 then Done(h, s) else
    var (b, t) :- Take(4, s);
    assert FromBe(b) < 0x1_0000_0000 by {
      FromBeBound(b);
      Widths();
    }
    Done(h.(msid := FromBe(b)), t)
  }

  function ParseTimestamp(h: Header, s: Bytes): Parse<Header> {
    if h.fmt > 2 then Done(h, s) else
    var (b, t) :- Take(3, s);
    assert FromBe(b) < 0x100_0000 by {
      FromBeBound(b);
      Widths();
    }
    Done(h.(timestamp := FromBe(b)), t)
  }

  function ParseExtended(h: Header, s: Bytes): Parse<Header> {
    if h.timestamp != EXTENDED then Done(h, s) else
    var (b, t) :- Take(4, s);
    assert FromBe(b) < 0x1_0000_0000 by {
      FromBeBound(b);
      Widths();
    }
    Done(h.(timestamp := FromBe(b)), t)
  }

  /** readChunkMessageHeader: what the format leaves out stays zero. */
  function ParseMessageHeader(h: Header, s: Bytes): Parse<Header> {
    var (h1, s1) :- ParseTimestamp(h, s);
    var (h2, s2) :- ParseLength(h1, s1);
    var (h3, s3) :- ParseStreamId(h2, s2);
    ParseExtended(h3, s3)
  }

  /** What the stream's stored header becomes. */
  function Merge(stored: Header, h: Header): Header {
    Header(h.fmt,
           h.csid,
           if h.fmt > 0 then Wrap(stored.timestamp + h.timestamp) else h.timestamp,
           if h.fmt <= 1 then h.mlen else stored.mlen,
           if h.fmt <= 1 then h.typo else stored.typo,
           if h.fmt == 0 then h.msid else stored.msid)
  }

  // ---- Theorems on headers

  lemma TakePrefix(b: Bytes, tail: Bytes)
    ensures Take(|b|, b + tail) == Done(b, tail)
  {
  }

  /** The header on the receiving side, before merging. */
  function Received(fmt: nat, h: Header, timestamp: uint32, size: uint32): Header {
    Header(fmt, h.csid, timestamp,
           if fmt <= 1 then size % 0x100_0000 else 0,
           if fmt <= 1 then h.typo % 256 else 0,
           if fmt == 0 then h.msid else 0)
  }

  lemma ReadTimestamp(h: Header, timestamp: uint32, tail: Bytes)
    requires h.timestamp == 0 && (h.fmt == 3 ==> timestamp == 0) && h.fmt <= 3
    ensures ParseTimestamp(h, TimestampBytes(h.fmt, timestamp) + tail)
         == Done(h.(timestamp := Min(timestamp, EXTENDED)), tail)
  {
    if h.fmt <= 2 {
      Widths();
      TakePrefix(Be(3, Min(timestamp, EXTENDED)), tail);
      FromBeOfBe(3, Min(timestamp, EXTENDED));
    } else {
      assert [] + tail == tail;
    }
  }

  lemma ReadLength(h: Header, size: uint32, typo: nat, tail: Bytes)
    ensures ParseLength(h, LengthBytes(h.fmt, size, typo) + tail)
         == Done(if h.fmt <= 1 then h.(mlen := size % 0x100_0000, typo := typo % 256) else h, tail)
  {
    if h.fmt <= 1 {
      var b := Be(3, size) + [typo % 256];
      TakePrefix(b, tail);
      assert b[..3] == Be(3, size);
      BeModulo(3, size);
      Widths();
    } else {
      assert [] + tail == tail;
    }
  }

  lemma ReadStreamId(h: Header, msid: uint32, tail: Bytes)
    ensures ParseStreamId(h, StreamIdBytes(h.fmt, msid) + tail)
         == Done(if h.fmt == 0 then h.(msid := msid) else h, tail)
  {
    if h.fmt == 0 {
      Widths();
      TakePrefix(Be(4, msid), tail);
      FromBeOfBe(4, msid);
    } else {
      assert [] + tail == tail;
    }
  }

  lemma ReadExtended(h: Header, timestamp: uint32, tail: Bytes)
    requires h.timestamp == Min(timestamp, EXTENDED)
    ensures ParseExtended(h, ExtendedBytes(timestamp) + tail) == Done(h.(timestamp := timestamp), tail)
  {
    if timestamp >= EXTENDED {
      Widths();
      TakePrefix(Be(4, timestamp), tail);
      FromBeOfBe(4, timestamp);
    } else {
      assert [] + tail == tail;
    }
  }

  lemma HeaderJoin(a: Bytes, b: Bytes, c: Bytes, d: Bytes, e: Bytes, tail: Bytes)
    ensures (a + b + c + d + e) + tail == a + (b + (c + (d + (e + tail))))
  {
    Concat3(a + b + c + d, e, tail);
    Concat3(a + b + c, d, e + tail);
    Concat3(a + b, c, d + (e + tail));
    Concat3(a, b, c + (d + (e + tail)));
  }

  lemma ReadBasic(fmt: nat, csid: uint32, tail: Bytes)
    requires fmt < 4 && 2 <= csid <= MAX_STREAMS
    ensures ParseBasic(BasicBytes(fmt, csid) + tail) == Done(ZERO_HEADER.(fmt := fmt, csid := csid), tail)
  {
    TakePrefix(BasicBytes(fmt, csid), tail);
  }

  lemma ReadMessageHeader(fmt: nat, h: Header, timestamp: uint32, size: uint32, tail: Bytes)
    requires fmt < 4 && (fmt == 3 ==> timestamp == 0)
    ensures ParseMessageHeader(ZERO_HEADER.(fmt := fmt, csid := h.csid),
                               TimestampBytes(fmt, timestamp) + (LengthBytes(fmt, size, h.typo)
                               + (StreamIdBytes(fmt, h.msid) + (ExtendedBytes(timestamp) + tail))))
         == Done(Received(fmt, h, timestamp, size), tail)
  {
    hide TimestampBytes, LengthBytes, StreamIdBytes, ExtendedBytes, ParseTimestamp, ParseLength, ParseStreamId, ParseExtended;
    var c, d, e := LengthBytes(fmt, size, h.typo), StreamIdBytes(fmt, h.msid), ExtendedBytes(timestamp);
    var h0 := ZERO_HEADER.(fmt := fmt, csid := h.csid);
    ReadTimestamp(h0, timestamp, c + (d + (e + tail)));
    var h1 := h0.(timestamp := Min(timestamp, EXTENDED));
    ReadLength(h1, size, h.typo, d + (e + tail));
    var h2 := if fmt <= 1 then h1.(mlen := size % 0x100_0000, typo := h.typo % 256) else h1;
    ReadStreamId(h2, h.msid, e + tail);
    ReadExtended(if fmt == 0 then h2.(msid := h.msid) else h2, timestamp, tail);
  }

  /** What the receiver reads of a written header, and that it reads exactly that. */
  lemma ReadHeader(fmt: nat, h: Header, timestamp: uint32, size: uint32, tail: Bytes)
    requires fmt < 4 && 2 <= h.csid <= MAX_STREAMS && (fmt == 3 ==> timestamp == 0)
    ensures var p := ParseBasic(HeaderBytes(fmt, h, timestamp, size) + tail);
            && p.Done? && p.value == ZERO_HEADER.(fmt := fmt, csid := h.csid)
            && ParseMessageHeader(p.value, p.rest) == Done(Received(fmt, h, timestamp, size), tail)
  {
    hide BasicBytes, TimestampBytes, LengthBytes, StreamIdBytes, ExtendedBytes, ParseBasic, ParseMessageHeader, Received;
    var b, c, d, e := TimestampBytes(fmt, timestamp), LengthBytes(fmt, size, h.typo), StreamIdBytes(fmt, h.msid), ExtendedBytes(timestamp);
    HeaderJoin(BasicBytes(fmt, h.csid), b, c, d, e, tail);
    ReadBasic(fmt, h.csid, b + (c + (d + (e + tail))));
    ReadMessageHeader(fmt, h, timestamp, size, tail);
  }

  /** The header the receiver should end up with. */
  function Expected(prev: Option<Header>, h: Header, size: uint32): Header {
    h.(fmt := FmtOf(prev, h, size), mlen := size)
  }

  /** stored agrees with the sender's previous header in what a stream remembers. */
  predicate InStep(prev: Option<Header>, stored: Header) {
    && prev.Some?
    && stored.timestamp == prev.value.timestamp && stored.mlen == prev.value.mlen
    && stored.typo == prev.value.typo && stored.msid == prev.value.msid
  }

  lemma WrapDelta(a: uint32, b: uint32)
    ensures Wrap(a + Wrap(b - a)) == b
  {
  }

  lemma MergeDelta(prev: Option<Header>, h: Header, size: uint32, stored: Header)
    requires FmtOf(prev, h, size) > 0 ==> InStep(prev, stored)
    ensures Merge(stored, Received(FmtOf(prev, h, size), h, SentTimestamp(prev, h, size), size)) == Expected(prev, h, size)
       <==> FmtOf(prev, h, size) >= 2 || (h.typo < 256 && size < 0x100_0000)
  {
    if prev.Some? {
      WrapDelta(prev.value.timestamp, h.timestamp);
    }
    hide Wrap;
  }

  /** Delta compression loses nothing: with the two sides in step, or a full header, the
      receiver recovers the header exactly when its type and length fit their fields. */
  lemma DeltaRoundTrip(prev: Option<Header>, h: Header, size: uint32, stored: Header, tail: Bytes)
    requires 2 <= h.csid <= MAX_STREAMS && (FmtOf(prev, h, size) > 0 ==> InStep(prev, stored))
    ensures var p := ParseBasic(SentHeader(prev, h, size) + tail);
            && p.Done?
            && var q := ParseMessageHeader(p.value, p.rest);
               && q.Done? && q.rest == tail
               && (Merge(stored, q.value) == Expected(prev, h, size)
                   <==> FmtOf(prev, h, size) >= 2 || (h.typo < 256 && size < 0x100_0000))
  {
    ReadHeader(FmtOf(prev, h, size), h, SentTimestamp(prev, h, size), size, tail);
    MergeDelta(prev, h, size, stored);
    hide HeaderBytes, ParseBasic, ParseMessageHeader, Merge, Expected, Received, FmtOf, SentTimestamp;
  }

  /** What the receiver reads of the header in format k; format 3 carries no time stamp. */
  function InFormat(k: nat, prev: Header, h: Header, size: uint32): Header {
    var delta := Wrap(h.timestamp - prev.timestamp);
    Received(k, h, if k == 0 then h.timestamp else if k == 3 then 0 else delta, size)
  }

  /** Compression is as strong as a remembering receiver can undo: it recovers the header
      from format k if and only if k is at most the one chosen. Against no header, or one
      never sent, a full one is chosen; for a message without payload at most format 1. */
  lemma HighestFormat(prev: Header, h: Header, size: uint32, stored: Header, k: nat)
    requires InStep(Some(prev), stored) && h.typo < 256 && size < 0x100_0000 && k <= 3
    ensures prev.csid > 0 && size > 0 ==>
              (k <= FmtOf(Some(prev), h, size)
               <==> var m := Merge(stored, InFormat(k, prev, h, size));
                    m.timestamp == h.timestamp && m.mlen == size && m.typo == h.typo && m.msid == h.msid)
    ensures FmtOf(None, h, size) == 0 && (prev.csid == 0 ==> FmtOf(Some(prev), h, size) == 0)
    ensures prev.csid > 0 && size == 0 ==> FmtOf(Some(prev), h, size) == if h.msid == prev.msid then 1 else 0
  {
    WrapDelta(prev.timestamp, h.timestamp);
    assert Wrap(stored.timestamp + 0) == stored.timestamp;
    hide Wrap;
  }

  lemma MergeZero(prev: Option<Header>, h: Header, size: uint32)
    requires h.typo < 256 && size < 0x100_0000
    ensures Merge(ZERO_HEADER, Received(FmtOf(prev, h, size), h, SentTimestamp(prev, h, size), size))
              == Expected(prev, h, size)
       <==> SelfContained(prev, h, size)
  {
  }

  /** What a stream that remembers nothing needs of a header to recover it. */
  predicate SelfContained(prev: Option<Header>, h: Header, size: uint32) {
    || FmtOf(prev, h, size) == 0
    || (FmtOf(prev, h, size) == 1 && prev.value.timestamp == 0 && h.msid == 0)
  }

  /** Against a stream whose stored header is still zero, a compressed header is
      recovered only if the previous one had nothing to remember. */
  lemma DeltaAgainstZero(prev: Option<Header>, h: Header, size: uint32, tail: Bytes)
    requires 2 <= h.csid <= MAX_STREAMS && h.typo < 256 && size < 0x100_0000
    ensures var p := ParseBasic(SentHeader(prev, h, size) + tail);
            && p.Done?
            && var q := ParseMessageHeader(p.value, p.rest);
               && q.Done? && q.rest == tail
               && (Merge(ZERO_HEADER, q.value) == Expected(prev, h, size) <==> SelfContained(prev, h, size))
  {
    ReadHeader(FmtOf(prev, h, size), h, SentTimestamp(prev, h, size), size, tail);
    MergeZero(prev, h, size);
    hide HeaderBytes, ParseBasic, ParseMessageHeader, Merge, Expected, Received, FmtOf, SentTimestamp;
  }

  // ---- Runs of headers

  /** Headers compressed one after the other: prepare leaves each for the next. */
  function SendRun(prev: Option<Header>, hs: seq<(Header, uint32)>): Bytes
    requires forall i | 0 <= i < |hs| :: hs[i].0.csid <= MAX_STREAMS
    decreases |hs|
  {
    if hs == [] then []
    else var (h, size) := hs[0]; SentHeader(prev, h, size) + SendRun(Some(h.(mlen := size)), hs[1..])
  }

  /** Reading n headers, each merged into what the one before left. */
  function ReadRun(stored: Header, n: nat, s: Bytes): Parse<seq<Header>>
    decreases n
  {
    if n == 0 then Done([], s)
    else
      var (b, s1) :- ParseBasic(s);
      var (h, s2) :- ParseMessageHeader(b, s1);
      var (hs, s3) :- ReadRun(Merge(stored, h), n - 1, s2);
      Done([Merge(stored, h)] + hs, s3)
  }

  function ExpectedRun(prev: Option<Header>, hs: seq<(Header, uint32)>): seq<Header>
    decreases |hs|
  {
    if hs == [] then []
    else var (h, size) := hs[0]; [Expected(prev, h, size)] + ExpectedRun(Some(h.(mlen := size)), hs[1..])
  }

  /** Over any run, a receiver that keeps the merged header recovers every header sent. */
  lemma {:induction false} RunRoundTrip(prev: Option<Header>, hs: seq<(Header, uint32)>, stored: Header, tail: Bytes)
    requires forall i | 0 <= i < |hs| :: 2 <= hs[i].0.csid <= MAX_STREAMS && hs[i].0.typo < 256 && hs[i].1 < 0x100_0000
    requires prev.None? || prev.value.csid == 0 || InStep(prev, stored)
    ensures ReadRun(stored, |hs|, SendRun(prev, hs) + tail) == Done(ExpectedRun(prev, hs), tail)
    decreases |hs|
  {
    hide SentHeader, ParseBasic, ParseMessageHeader, Merge, InStep, Expected;
    if hs == [] {
      assert SendRun(prev, hs) + tail == tail;
    } else {
      var (h, size) := hs[0];
      var next := Some(h.(mlen := size));
      Concat3(SentHeader(prev, h, size), SendRun(next, hs[1..]), tail);
      DeltaStep(prev, h, size, stored, SendRun(next, hs[1..]) + tail);
      RunRoundTrip(next, hs[1..], Expected(prev, h, size), tail);
    }
  }

  lemma DeltaStep(prev: Option<Header>, h: Header, size: uint32, stored: Header, tail: Bytes)
    requires 2 <= h.csid <= MAX_STREAMS && h.typo < 256 && size < 0x100_0000
    requires prev.None? || prev.value.csid == 0 || InStep(prev, stored)
    ensures var p := ParseBasic(SentHeader(prev, h, size) + tail);
            && p.Done?
            && var q := ParseMessageHeader(p.value, p.rest);
               q.Done? && q.rest == tail && Merge(stored, q.value) == Expected(prev, h, size)
    ensures InStep(Some(h.(mlen := size)), Expected(prev, h, size))
  {
    hide SentHeader, ParseBasic, ParseMessageHeader, Merge;
    DeltaRoundTrip(prev, h, size, stored, tail);
  }

  // ---- Whole messages

  datatype Stream = Stream(hdr: Header, len: uint32)

  const ZERO_STREAM := Stream(ZERO_HEADER, 0)

  /** pumpMessage: a message with its payload, an error, or a panic. */
  datatype Pumped = Got(hdr: Header, payload: Bytes, rest: Bytes) | Refused | Panicked

  /** Merge the header into the stream's and read the body it announces. */
  function Deliver(stm: Stream, h: Header, chunkSize: uint32, s: Bytes): Pumped {
    var hdr := Merge(stm.hdr, h);
    var n := Min(Wrap(hdr.mlen - stm.len), chunkSize);
    if chunkSize >= CHUNK_SIZE_LIMIT then Panicked
    else if |s| < n then Refused
    else if hdr.mlen != Wrap(stm.len + n) || h.typo >= MESSAGE_MAX then Refused
    else Got(hdr, s[..n], s[n..])
  }

  function ParseMessage(streams: seq<Stream>, chunkSize: uint32, s: Bytes): Pumped {
    var p := ParseBasic(s);
    if p.Fail? || p.value.csid > MAX_STREAMS then Refused else
    var q := ParseMessageHeader(p.value, p.rest);
    if q.Fail? then Refused
    else if q.value.csid >= |streams| then Panicked
    else Deliver(streams[q.value.csid], q.value, chunkSize, q.rest)
  }

  /** One message with a full header on the wire. */
  function MessageBytes(h: Header, payload: Bytes): Bytes
    requires h.csid <= MAX_STREAMS && |payload| < 0x1_0000_0000
  {
    SentHeader(None, h, |payload|) + payload
  }

  /** What was sent arrives, and nothing of what follows is touched, exactly if the
      payload fits one chunk of the receiver and the type is one it knows. */
  lemma MessageRoundTripExactly(h: Header, payload: Bytes, streams: seq<Stream>, chunkSize: uint32, rest: Bytes)
    requires 2 <= h.csid < MAX_STREAMS && |payload| < 0x1_0000_0000
    requires |streams| == MAX_STREAMS && streams[h.csid] == ZERO_STREAM
    ensures ParseMessage(streams, chunkSize, MessageBytes(h, payload) + rest)
              == Got(h.(fmt := 0, mlen := |payload|), payload, rest)
       <==> |payload| <= chunkSize < CHUNK_SIZE_LIMIT && |payload| < 0x100_0000 && h.typo < MESSAGE_MAX
  {
    hide HeaderBytes, ParseBasic, ParseMessageHeader, Deliver;
    var n := |payload|;
    Concat3(SentHeader(None, h, n), payload, rest);
    ReadHeader(0, h, h.timestamp, n, payload + rest);
    DeliverExactly(h, payload, chunkSize, rest);
  }

  lemma DeliverExactly(h: Header, payload: Bytes, chunkSize: uint32, rest: Bytes)
    requires |payload| < 0x1_0000_0000
    ensures Deliver(ZERO_STREAM, Received(0, h, h.timestamp, |payload|), chunkSize, payload + rest)
              == Got(h.(fmt := 0, mlen := |payload|), payload, rest)
       <==> |payload| <= chunkSize < CHUNK_SIZE_LIMIT && |payload| < 0x100_0000 && h.typo < MESSAGE_MAX
  {
    var n := |payload|;
    assert (payload + rest)[..n] == payload && (payload + rest)[n..] == rest;
    assert Wrap(n % 0x100_0000) == n % 0x100_0000;
  }

  // ---- When pumping panics

  lemma IdKept(h: Header, s: Bytes)
    ensures ParseTimestamp(h, s).Done? ==> ParseTimestamp(h, s).value.csid == h.csid
    ensures ParseLength(h, s).Done? ==> ParseLength(h, s).value.csid == h.csid
    ensures ParseStreamId(h, s).Done? ==> ParseStreamId(h, s).value.csid == h.csid
    ensures ParseExtended(h, s).Done? ==> ParseExtended(h, s).value.csid == h.csid
  {
    hide FromBe;
  }

  /** Reading the message header leaves the chunk stream id alone. */
  lemma HeaderKeepsId(h: Header, s: Bytes)
    ensures var q := ParseMessageHeader(h, s); q.Done? ==> q.value.csid == h.csid
  {
    hide ParseTimestamp, ParseLength, ParseStreamId, ParseExtended;
    IdKept(h, s);
    var a := ParseTimestamp(h, s);
    if a.Done? {
      IdKept(a.value, a.rest);
      var b := ParseLength(a.value, a.rest);
      if b.Done? {
        IdKept(b.value, b.rest);
        var c := ParseStreamId(b.value, b.rest);
        if c.Done? {
          IdKept(c.value, c.rest);
        }
      }
    }
  }

  /** How many bytes the basic header takes, by its first byte. */
  function BasicSize(b: byte): nat {
    if b % 64 == 0 then 2 else if b % 64 == 1 then 3 else 1
  }

  /** The chunk stream id in the first bytes of s. */
  function StreamOf(s: Bytes): nat
    requires s != [] && BasicSize(s[0]) <= |s|
  {
    var low: int := s[0] % 64;
    if low > 1 then low
    else
      var c0: int := s[1];
      if low == 0 then 64 + c0
      else
        var c1: int := s[2];
        64 + c0 + 256 * c1
  }

  /** How many bytes the two headers take: eleven, seven, three or none after the basic
      header, and four more when the time stamp is all ones. */
  function HeaderSize(s: Bytes): (n: nat)
    requires s != [] && BasicSize(s[0]) <= |s|
  {
    var k, fmt := BasicSize(s[0]), s[0] / 64;
    var fixed := k + [11, 7, 3, 0][fmt];
    fixed + if fmt <= 2 && |s| >= k + 3 && s[k..k + 3] == [0xff, 0xff, 0xff] then 4 else 0
  }

  lemma BasicExactly(s: Bytes)
    ensures ParseBasic(s).Done? <==> s != [] && BasicSize(s[0]) <= |s|
    ensures ParseBasic(s).Done? ==> ParseBasic(s) == Done(ZERO_HEADER.(fmt := s[0] / 64, csid := StreamOf(s)), s[BasicSize(s[0])..])
  {
    if s != [] && s[0] % 64 <= 1 && BasicSize(s[0]) <= |s| {
      var t := s[1..];
      assert t[0] == s[1] && t[BasicSize(s[0]) - 1..] == s[BasicSize(s[0])..];
      assert s[0] % 64 == 1 ==> t[..2][1] == s[2];
    }
  }

  lemma AllOnes(b: Bytes)
    requires |b| == 3
    ensures FromBe(b) == EXTENDED <==> b == [0xff, 0xff, 0xff]
  {
    var x: int, y: int, z: int := b[0], b[1], b[2];
    assert b[..2][..1] == [b[0]] && b[..1][..0] == [] && b[..2] == [b[0], b[1]];
    assert FromBe(b[..1]) == x;
    assert FromBe(b[..2]) == 256 * x + y;
    assert FromBe(b) == 65536 * x + 256 * y + z;
  }

  /** The message header can be read exactly if its bytes are there. */
  lemma MessageHeaderExactly(h: Header, s: Bytes)
    requires h.fmt <= 3 && h.timestamp == 0
    ensures ParseMessageHeader(h, s).Done? <==>
            |s| >= [11, 7, 3, 0][h.fmt] + if h.fmt <= 2 && |s| >= 3 && s[..3] == [0xff, 0xff, 0xff] then 4 else 0
  {
    hide FromBe;
    if h.fmt <= 2 && |s| >= 3 {
      AllOnes(s[..3]);
    }
  }

  /** For every input and every chunk size, pumping goes out of range exactly if all bytes
      of the headers are there and the chunk stream is the one past the table, or any up to
      it while the chunk size leaves no room for a header in 32 bits. */
  lemma PumpPanicsExactly(streams: seq<Stream>, chunkSize: uint32, s: Bytes)
    requires |streams| == MAX_STREAMS
    ensures ParseMessage(streams, chunkSize, s).Panicked? <==>
            && s != [] && BasicSize(s[0]) <= |s| && HeaderSize(s) <= |s| && StreamOf(s) <= MAX_STREAMS
            && (StreamOf(s) == MAX_STREAMS || chunkSize >= CHUNK_SIZE_LIMIT)
  {
    hide ParseBasic, ParseMessageHeader;
    BasicExactly(s);
    if s != [] && BasicSize(s[0]) <= |s| {
      var k, h := BasicSize(s[0]), ZERO_HEADER.(fmt := s[0] / 64, csid := StreamOf(s));
      HeaderKeepsId(h, s[k..]);
      MessageHeaderExactly(h, s[k..]);
      assert |s| >= k + 3 ==> s[k..][..3] == s[k..k + 3];
    }
  }

  /** Among others, every message on stream 32, which passes the size check. */
  lemma StreamIdBeyondTable(h: Header, payload: Bytes, streams: seq<Stream>, chunkSize: uint32, rest: Bytes)
    requires h.csid == MAX_STREAMS && |payload| < 0x1_0000_0000 && |streams| == MAX_STREAMS
    ensures ParseMessage(streams, chunkSize, MessageBytes(h, payload) + rest).Panicked?
  {
    Concat3(SentHeader(None, h, |payload|), payload, rest);
    ReadHeader(0, h, h.timestamp, |payload|, payload + rest);
    hide HeaderBytes, ParseBasic, ParseMessageHeader;
  }
}
