/** message.go on values: allocating, filling, heading and sending a message. */
module MessageStates {
  import opened ByteCodec
  import opened Results
  import opened RtmpWire
  import opened ChunkStates

  // ---- Any interleaving of reads and writes

  /** Write and WriteByte, Read and ReadByte. */
  datatype Op = WriteOp(p: Bytes) | ReadOp(n: nat)

  datatype FlatBuffer = FlatBuffer(buf: Bytes, w: nat, r: nat)

  function Abstract(l: ListState): (f: FlatBuffer)
    requires ListOk(l)
  {
    FlatBuffer(FlatOf(l), WritePos(l), ReadPos(l))
  }

  function StepList(l: ListState, op: Op): (r: (ListState, Bytes))
    requires ListOk(l)
    ensures ListOk(r.0)
  {
    match op
    case WriteOp(p) => (ListWrite(l, p).0, p[..ListWrite(l, p).1])
    case ReadOp(n) => ListRead(l, n)
  }

  /** What the operations return, one after the other: the bytes written or read. */
  function RunList(l: ListState, ops: seq<Op>): (r: (ListState, seq<Bytes>))
    requires ListOk(l)
    ensures ListOk(r.0)
    decreases |ops|
  {
    if ops == [] then (l, [])
    else
      var (l1, b) := StepList(l, ops[0]);
      var rest := RunList(l1, ops[1..]);
      (rest.0, [b] + rest.1)
  }

  function FlatStep(f: FlatBuffer, op: Op): (r: (FlatBuffer, Bytes))
    requires f.w <= |f.buf| && f.r <= |f.buf|
    ensures r.0.w <= |r.0.buf| && r.0.r <= |r.0.buf|
  {
    match op
    case WriteOp(p) =>
      var b := p[..Least(|p|, |f.buf| - f.w)];
      (f.(buf := Splice(f.buf, f.w, b), w := f.w + |b|), b)
    case ReadOp(n) =>
      var m := Least(n, |f.buf| - f.r);
      (f.(r := f.r + m), f.buf[f.r..f.r + m])
  }

  function RunFlat(f: FlatBuffer, ops: seq<Op>): (FlatBuffer, seq<Bytes>)
    requires f.w <= |f.buf| && f.r <= |f.buf|
    decreases |ops|
  {
    if ops == [] then (f, [])
    else
      var (f1, b) := FlatStep(f, ops[0]);
      var rest := RunFlat(f1, ops[1..]);
      (rest.0, [b] + rest.1)
  }

  lemma WriteRefines(l: ListState, p: Bytes, l': ListState, w: nat)
    requires ListOk(l) && ListOk(l') && w <= |p| && Written(l, p, l', w)
    ensures ReadPos(l) <= |FlatOf(l)|
    ensures FlatStep(Abstract(l), WriteOp(p)) == (Abstract(l'), p[..w])
  {
    PositionsBounded(l);
    hide FlatOf, WritePos, ReadPos, ListOk;
  }

  lemma ReadRefines(l: ListState, n: nat, l': ListState, p: Bytes)
    requires ListOk(l) && ListOk(l') && ReadFrom(l, n, l', p)
    ensures WritePos(l) <= |FlatOf(l)|
    ensures FlatStep(Abstract(l), ReadOp(n)) == (Abstract(l'), p)
  {
    PositionsBounded(l);
    hide FlatOf, WritePos, ReadPos, ListOk;
  }

  lemma StepRefines(l: ListState, op: Op)
    requires ListOk(l)
    ensures WritePos(l) <= |FlatOf(l)| && ReadPos(l) <= |FlatOf(l)|
    ensures FlatStep(Abstract(l), op) == (Abstract(StepList(l, op).0), StepList(l, op).1)
  {
    PositionsBounded(l);
    hide FlatOf, WritePos, ReadPos, ListOk, ListWrite, ListRead, FlatStep, Written, ReadFrom;
    match op {
      case WriteOp(p) =>
        WriteIsFlat(l, p);
        WriteRefines(l, p, ListWrite(l, p).0, ListWrite(l, p).1);
      case ReadOp(n) =>
        ReadIsFlat(l, n);
        ReadRefines(l, n, ListRead(l, n).0, ListRead(l, n).1);
    }
  }

  /** A list of chunks cannot be told from one flat buffer with two cursors. */
  lemma {:induction false} ListRefinesFlat(l: ListState, ops: seq<Op>)
    requires ListOk(l)
    ensures WritePos(l) <= |FlatOf(l)| && ReadPos(l) <= |FlatOf(l)|
    ensures RunFlat(Abstract(l), ops) == (Abstract(RunList(l, ops).0), RunList(l, ops).1)
    decreases |ops|
  {
    PositionsBounded(l);
    hide FlatOf, WritePos, ReadPos, ListOk, FlatStep, StepList;
    if ops != [] {
      StepRefines(l, ops[0]);
      ListRefinesFlat(StepList(l, ops[0]).0, ops[1..]);
    }
  }

  // ---- Allocating and filling

  /** A chunk nothing has been read from or written to through its cursors. */
  predicate Unused(c: ChunkState) {
    ChunkOk(c) && c.offr == MAX_HEADER_SIZE && c.offw == MAX_HEADER_SIZE
  }

  /** l with c at its end. */
  function Appended(l: ListState, c: ChunkState): (r: ListState)
    requires ListOk(l) && Unused(c)
    ensures ListOk(r)
  {
    l.(cks := l.cks + [c])
  }

  /** l with n more fresh chunks for sending. */
  function Extended(l: ListState, n: nat): (r: ListState)
    requires ListOk(l)
    ensures ListOk(r)
  {
    l.(cks := l.cks + Repeat(FreshChunk(SEND_CHUNK_SIZE), n))
  }

  lemma ExtendedStep(l: ListState, n: nat)
    requires ListOk(l)
    ensures Unused(FreshChunk(SEND_CHUNK_SIZE))
    ensures Appended(Extended(l, n), FreshChunk(SEND_CHUNK_SIZE)) == Extended(l, n + 1)
  {
    var c := FreshChunk(SEND_CHUNK_SIZE);
    assert Repeat(c, n) + [c] == Repeat(c, n + 1);
    Concat(l.cks, Repeat(c, n), [c]);
    hide ListOk, Repeat;
  }

  lemma ExtendedNone(l: ListState)
    requires ListOk(l)
    ensures Extended(l, 0) == l
  {
    assert l.cks + Repeat(FreshChunk(SEND_CHUNK_SIZE), 0) == l.cks;
  }

  lemma Concat(a: seq<ChunkState>, b: seq<ChunkState>, c: seq<ChunkState>)
    ensures (a + b) + c == a + (b + c)
  {
  }

  const EMPTY := ListState([], 0, 0, 0)

  lemma ExtendedEmpty(n: nat)
    ensures ListOk(EMPTY) && Extended(EMPTY, n / SEND_CHUNK_SIZE + 1) == Alloc(n)
  {
  }

  function Repeat(c: ChunkState, n: nat): (r: seq<ChunkState>)
    ensures |r| == n && forall i | 0 <= i < n :: r[i] == c
  {
    seq(n, _ => c)
  }

  /** alloc(n) on an empty list. */
  function Alloc(n: nat): (l: ListState)
    ensures ListOk(l)
  {
    ListState(Repeat(FreshChunk(SEND_CHUNK_SIZE), n / SEND_CHUNK_SIZE + 1), 0, 0, 0)
  }

  /** What writing leaves alone. */
  predicate SameFrame(a: ListState, b: ListState) {
    && |a.cks| == |b.cks| && a.offr == b.offr && a.offs == b.offs
    && forall i | 0 <= i < |a.cks| ::
         && |a.cks[i].buf| == |b.cks[i].buf| && |a.cks[i].buf| >= MAX_HEADER_SIZE
         && a.cks[i].offr == b.cks[i].offr && a.cks[i].head == b.cks[i].head && a.cks[i].offs == b.cks[i].offs
         && a.cks[i].buf[..MAX_HEADER_SIZE] == b.cks[i].buf[..MAX_HEADER_SIZE]
  }

  lemma {:induction false} WriteFrame(l: ListState, p: Bytes)
    requires ListOk(l)
    ensures SameFrame(l, ListWrite(l, p).0)
    decreases |p|
  {
    if p != [] && l.offw < |l.cks| {
      var l1 := WriteOnce(l, p);
      assert SameFrame(l, l1);
      WriteFrame(l1, p[Least(|p|, Room(l.cks[l.offw]))..]);
    }
  }

  /** Chunks as the sender allocates them. */
  predicate SendChunks(cks: seq<ChunkState>) {
    AllOk(cks) && forall i | 0 <= i < |cks| :: |cks[i].buf| == SEND_CHUNK_SIZE + MAX_HEADER_SIZE
  }

  lemma {:induction false} SendFlatSize(cks: seq<ChunkState>, n: nat)
    requires SendChunks(cks) && n <= |cks|
    ensures |Flat(cks, n)| == SEND_CHUNK_SIZE * n
  {
    if n > 0 {
      SendFlatSize(cks, n - 1);
    }
  }

  lemma FilledSizes(l0: ListState, l: ListState, n: nat)
    requires ListOk(l0) && ListOk(l) && l0 == Alloc(n) && SameFrame(l0, l)
    ensures SendChunks(l0.cks) && SendChunks(l.cks)
    ensures |FlatOf(l0)| == |FlatOf(l)| == SEND_CHUNK_SIZE * (n / SEND_CHUNK_SIZE + 1)
    ensures WritePos(l0) == 0 && |Flat(l.cks, l.offw)| == SEND_CHUNK_SIZE * l.offw
  {
    SendFlatSize(l0.cks, |l0.cks|);
    SendFlatSize(l.cks, |l.cks|);
    SendFlatSize(l.cks, l.offw);
  }

  /** After alloc(n), n bytes all fit, and the write cursor is in the last chunk: the loop
      of Send, which includes it, stays inside the list. */
  lemma Filled(p: Bytes)
    ensures var (l, w) := ListWrite(Alloc(|p|), p);
            && w == |p| && SendChunks(l.cks) && SameFrame(Alloc(|p|), l)
            && l.offw == |p| / SEND_CHUNK_SIZE == |l.cks| - 1
            && l.cks[l.offw].offw == MAX_HEADER_SIZE + |p| % SEND_CHUNK_SIZE
            && WritePos(l) == |p| && FlatOf(l)[..|p|] == p
  {
    var l0 := Alloc(|p|);
    var (l, w) := ListWrite(l0, p);
    WriteFrame(l0, p);
    FilledSizes(l0, l, |p|);
    FilledCursor(l0, l, p, w);
    hide *;
  }

  lemma FilledCursor(l0: ListState, l: ListState, p: Bytes, w: nat)
    requires ListOk(l0) && ListOk(l) && ListWrite(l0, p) == (l, w) && SendChunks(l.cks)
    requires |l.cks| == |p| / SEND_CHUNK_SIZE + 1
    requires |FlatOf(l0)| == SEND_CHUNK_SIZE * (|p| / SEND_CHUNK_SIZE + 1)
    requires WritePos(l0) == 0 && |Flat(l.cks, l.offw)| == SEND_CHUNK_SIZE * l.offw
    ensures w == |p| && WritePos(l) == |p| && FlatOf(l)[..|p|] == p
    ensures l.offw == |p| / SEND_CHUNK_SIZE && l.cks[l.offw].offw == MAX_HEADER_SIZE + |p| % SEND_CHUNK_SIZE
  {
    WriteIsFlat(l0, p);
    hide ListWrite, FlatOf, Flat;
    assert w == |p| && p[..w] == p;
    assert FlatOf(l)[..|p|] == p;
  }

  // ---- Heading

  /** Size: once per chunk from the write cursor on, the size of the chunk at the write
      cursor. */
  function SizeFrom(l: ListState, i: nat): nat
    requires ListOk(l) && l.offw <= i <= |l.cks|
    decreases |l.cks| - i
  {
    if i == |l.cks| then 0
    else
      assert ChunkOk(l.cks[l.offw]);
      (l.cks[l.offw].offw - l.cks[l.offw].head) + SizeFrom(l, i + 1)
  }

  lemma SizeStep(l: ListState, i: nat, acc: nat)
    requires ListOk(l) && l.offw <= i < |l.cks|
    ensures var d := l.cks[l.offw].offw - l.cks[l.offw].head;
            && d >= 0 && Wrap(Wrap(acc + d) + SizeFrom(l, i + 1)) == Wrap(acc + SizeFrom(l, i))
            && Wrap(Wrap(acc + d)) == Wrap(acc + d)
            && (i + 1 == |l.cks| ==> SizeFrom(l, i + 1) == 0)
  {
    ListFacts(l);
    hide ListOk;
  }

  lemma WrapZero(n: nat)
    ensures Wrap(0 + n) == Wrap(n) && Wrap(0) == 0
  {
  }

  /** The header a chunk gets in the room before its payload. */
  function PutHeader(c: ChunkState, n: nat, b: Bytes): (r: ChunkState)
    requires ChunkOk(c) && n <= c.head && c.head - n + |b| <= |c.buf|
    ensures ChunkOk(r)
  {
    c.(head := c.head - n, offs := c.head - n, buf := Splice(c.buf, c.head - n, b))
  }

  /** The room prepare reserves: it does not count the longer forms of the stream id. */
  function HeaderRoom(fmt: nat, timestamp: uint32): nat
    requires fmt < 4
  {
    [12, 8, 4, 1][fmt] + if timestamp >= EXTENDED then 4 else 0
  }

  /** The header fills exactly the room reserved for it. */
  lemma HeaderFits(fmt: nat, h: Header, timestamp: uint32, size: uint32)
    requires fmt < 4 && h.csid <= MAX_STREAMS
    ensures |HeaderBytes(fmt, h, timestamp, size)| == HeaderRoom(fmt, timestamp) + if h.csid >= 2 then 0 else 2
    ensures HeaderRoom(fmt, timestamp) <= 16
  {
  }

  lemma HeaderSizes(fmt: nat, csid: uint32)
    requires fmt < 4 && csid <= MAX_STREAMS
    ensures |BasicBytes(fmt, csid)| == if csid >= 2 then 1 else 3
  {
  }

  lemma SpliceNone(s: Bytes, at: nat)
    requires at <= |s|
    ensures Splice(s, at, []) == s
  {
  }

  /** The header as it grows: after the stream id, the time stamp, the length and type, and
      the message stream id. */
  function HeaderPieces(fmt: nat, h: Header, timestamp: uint32, size: uint32): (r: (Bytes, Bytes, Bytes, Bytes))
    requires fmt < 4 && h.csid <= MAX_STREAMS
    ensures |r.3| + |ExtendedBytes(timestamp)| == |HeaderBytes(fmt, h, timestamp, size)|
    ensures |r.0| <= |r.1| <= |r.2| <= |r.3|
    ensures HeaderBytes(fmt, h, timestamp, size) == if timestamp >= EXTENDED then r.3 + ExtendedBytes(timestamp) else r.3
    ensures r.3 == if fmt == 0 then r.2 + StreamIdBytes(fmt, h.msid) else r.2
    ensures r.2 == if fmt <= 1 then r.1 + LengthBytes(fmt, size, h.typo) else r.1
    ensures r.1 == if fmt <= 2 then r.0 + TimestampBytes(fmt, timestamp) else r.0
    ensures r.0 == BasicBytes(fmt, h.csid)
  {
    var a := BasicBytes(fmt, h.csid);
    var b := a + TimestampBytes(fmt, timestamp);
    var c := b + LengthBytes(fmt, size, h.typo);
    (a, b, c, c + StreamIdBytes(fmt, h.msid))
  }

  /** A list no header has been put in yet, as alloc makes them. */
  predicate Headless(l: ListState) {
    ListOk(l) && SendChunks(l.cks) && |l.cks| > 0 && forall i | 0 <= i < |l.cks| :: l.cks[i].head == MAX_HEADER_SIZE
  }

  /** Chunk i with b as its header, in n bytes of the room it has left for one. */
  function HeadAt(l: ListState, i: nat, n: nat, b: Bytes): (r: ListState)
    requires ListOk(l) && SendChunks(l.cks) && i < |l.cks|
    requires n <= l.cks[i].head && |b| <= SEND_CHUNK_SIZE
    ensures ListOk(r) && SendChunks(r.cks) && |r.cks| == |l.cks|
    ensures r == l.(cks := l.cks[i := PutHeader(l.cks[i], n, b)])
  {
    l.(cks := l.cks[i := PutHeader(l.cks[i], n, b)])
  }

  lemma SendChunkFacts(l: ListState, i: nat)
    requires ListOk(l) && SendChunks(l.cks) && i < |l.cks|
    ensures ChunkOk(l.cks[i]) && |l.cks[i].buf| == SEND_CHUNK_SIZE + MAX_HEADER_SIZE
  {
  }

  lemma HeadlessFacts(l: ListState)
    requires Headless(l)
    ensures ListOk(l) && SendChunks(l.cks) && |l.cks| > 0
    ensures ChunkOk(l.cks[0]) && |l.cks[0].buf| == SEND_CHUNK_SIZE + MAX_HEADER_SIZE
    ensures l.cks[0].head == MAX_HEADER_SIZE
  {
  }

  /** The first chunk with its header. */
  function FirstHeaded(l: ListState, prev: Option<Header>, h: Header): (r: ListState)
    requires Headless(l) && h.csid <= MAX_STREAMS
    ensures ListOk(r) && SendChunks(r.cks)
  {
    ListFacts(l);
    hide ListOk, SendChunks, SizeFrom, Wrap, HeaderRoom, HeaderBytes, SentTimestamp, PutHeader;
    var size := Wrap(SizeFrom(l, l.offw));
    var fmt, ts := FmtOf(prev, h, size), SentTimestamp(prev, h, size);
    HeaderFits(fmt, h, ts, size);
    HeadAt(l, 0, HeaderRoom(fmt, ts), HeaderBytes(fmt, h, ts, size))
  }

  /** The chunks i..n of the list with a one-byte continuation header. */
  function Followed(l: ListState, csid: uint32, i: nat, n: nat): (r: ListState)
    requires ListOk(l) && SendChunks(l.cks) && csid <= MAX_STREAMS && (i < n ==> n <= |l.cks|)
    requires forall j | i <= j < n :: l.cks[j].head == MAX_HEADER_SIZE
    ensures ListOk(r) && SendChunks(r.cks) && |r.cks| == |l.cks|
    ensures forall j | 0 <= j < |l.cks| && !(i <= j < n) :: r.cks[j] == l.cks[j]
    decreases n
  {
    hide ListOk, SendChunks, BasicBytes, PutHeader;
    if n <= i then l
    else
      var r := Followed(l, csid, i, n - 1);
      assert |BasicBytes(3, csid)| <= 3 by {
        HeaderSizes(3, csid);
      }
      var b := BasicBytes(3, csid);
      HeadAt(r, n - 1, |b|, b)
  }

  lemma FollowedStep(l: ListState, csid: uint32, i: nat, n: nat)
    requires ListOk(l) && SendChunks(l.cks) && csid <= MAX_STREAMS && i <= n < |l.cks|
    requires forall j | i <= j < |l.cks| :: l.cks[j].head == MAX_HEADER_SIZE
    ensures var b, r := BasicBytes(3, csid), Followed(l, csid, i, n);
            && |b| <= 3 && r.cks[n].head == MAX_HEADER_SIZE
            && Followed(l, csid, i, n + 1) == HeadAt(r, n, |b|, b)
  {
    HeaderSizes(3, csid);
    hide ListOk, SendChunks, BasicBytes, PutHeader, HeadAt;
  }

  lemma FollowedNone(l: ListState, csid: uint32, i: nat, n: nat)
    requires ListOk(l) && SendChunks(l.cks) && csid <= MAX_STREAMS && n <= i
    ensures Followed(l, csid, i, n) == l
  {
  }

  lemma FirstHeadedFacts(l: ListState, prev: Option<Header>, h: Header)
    requires Headless(l) && h.csid <= MAX_STREAMS
    ensures var r, size := FirstHeaded(l, prev, h), Wrap(SizeFrom(l, l.offw));
            var fmt, ts := FmtOf(prev, h, size), SentTimestamp(prev, h, size);
            && |HeaderBytes(fmt, h, ts, size)| <= 18 && HeaderRoom(fmt, ts) <= 16
            && r == HeadAt(l, 0, HeaderRoom(fmt, ts), HeaderBytes(fmt, h, ts, size))
    ensures var r := FirstHeaded(l, prev, h);
            && r.offw == l.offw <= |r.cks| && |r.cks| == |l.cks|
            && (forall j | 0 < j < |r.cks| :: r.cks[j].head == MAX_HEADER_SIZE)
  {
    var size := Wrap(SizeFrom(l, l.offw));
    var fmt, ts := FmtOf(prev, h, size), SentTimestamp(prev, h, size);
    HeaderFits(fmt, h, ts, size);
    hide SendChunks, SizeFrom, Wrap, HeaderRoom, HeaderBytes, SentTimestamp, PutHeader;
  }

  lemma PreparedParts(l: ListState, prev: Option<Header>, h: Header)
    requires Headless(l) && h.csid <= MAX_STREAMS
    ensures var first := FirstHeaded(l, prev, h);
            && |first.cks| == |l.cks| && first.offw == l.offw && ListOk(first) && SendChunks(first.cks)
            && (forall j | l.offw < j < |l.cks| :: first.cks[j].head == MAX_HEADER_SIZE)
            && Prepared(l, prev, h) == Followed(first, h.csid, l.offw + 1, |l.cks|)
  {
    hide ListOk, SendChunks, FirstHeaded;
    FirstHeadedFacts(l, prev, h);
  }

  lemma SentEnd(l: ListState, out: Bytes)
    requires Sendable(l) && l.offs > l.offw
    ensures out + SentFrom(l, l.offs) == out
  {
  }

  /** prepare on a message that has none yet. */
  function Prepared(l: ListState, prev: Option<Header>, h: Header): ListState
    requires Headless(l) && h.csid <= MAX_STREAMS
  {
    Followed(FirstHeaded(l, prev, h), h.csid, l.offw + 1, |l.cks|)
  }

  // ---- Receiving

  /** The chunk pumpMessage reads a payload into. */
  function ReceivedChunk(cs: nat, p: Bytes): (r: ChunkState)
    requires |p| <= cs
  {
    FreshChunk(cs).(buf := Splice(Zeros(cs + MAX_HEADER_SIZE), MAX_HEADER_SIZE, p))
  }

  /** The list of a received message. */
  function ReceivedList(cs: nat, p: Bytes): ListState
    requires |p| <= cs
  {
    ListState([ReceivedChunk(cs, p)], 0, 0, 0)
  }

  /** Reading a received message gives its payload first, in any portions. */
  lemma ReceivedReads(cs: nat, p: Bytes)
    requires |p| <= cs && 0 < cs < CHUNK_SIZE_LIMIT
    ensures ListOk(ReceivedList(cs, p)) && ReadPos(ReceivedList(cs, p)) == 0
    ensures |p| <= |FlatOf(ReceivedList(cs, p))| && FlatOf(ReceivedList(cs, p))[..|p|] == p
    ensures ListRead(ReceivedList(cs, p), |p|).1 == p
  {
    var l := ReceivedList(cs, p);
    ChunkStates.FlatStep(l.cks, 1);
    assert FlatOf(l) == Payload(l.cks[0]);
    ReadIsFlat(l, |p|);
    assert Payload(l.cks[0])[..|p|] == p;
  }

  // ---- Sending

  predicate Sendable(l: ListState) {
    l.offw < |l.cks| && forall j | 0 <= j < |l.cks| :: l.cks[j].offs <= l.cks[j].offw <= |l.cks[j].buf|
  }

  /** What Send puts out from chunk i on, up to and including the one being written. */
  function SentFrom(l: ListState, i: nat): Bytes
    requires Sendable(l)
    decreases l.offw + 1 - i
  {
    if i > l.offw then [] else l.cks[i].buf[l.cks[i].offs..l.cks[i].offw] + SentFrom(l, i + 1)
  }

  lemma {:induction false} SentSame(l: ListState, l': ListState, i: nat)
    requires Sendable(l) && Sendable(l') && l.offw == l'.offw
    requires forall j | i <= j <= l.offw :: l.cks[j] == l'.cks[j]
    ensures SentFrom(l, i) == SentFrom(l', i)
    decreases l.offw + 1 - i
  {
    if i <= l.offw {
      SentSame(l, l', i + 1);
    }
  }

  /** Chunk i, sent as far as o. */
  function SentTo(l: ListState, i: nat, o: nat): (r: ListState)
    requires ListOk(l) && i < |l.cks| && o <= |l.cks[i].buf|
    ensures ListOk(r)
  {
    l.(cks := l.cks[i := l.cks[i].(offs := o)])
  }

  /** Sending changes how far the chunks are sent and nothing else. */
  predicate SameButSent(a: ListState, b: ListState) {
    && |a.cks| == |b.cks| && a.offr == b.offr && a.offw == b.offw
    && forall j | 0 <= j < |a.cks| :: b.cks[j] == a.cks[j].(offs := b.cks[j].offs)
  }

  lemma SentStep(l: ListState, l': ListState, out: Bytes)
    requires ListOk(l) && Sendable(l) && l.offs <= l.offw
    requires var c := l.cks[l.offs]; l' == SentTo(l, l.offs, c.offw).(offs := l.offs + 1)
    ensures Sendable(l') && SameButSent(l, l')
    ensures var c := l.cks[l.offs];
            (out + c.buf[c.offs..c.offw]) + SentFrom(l', l'.offs) == out + SentFrom(l, l.offs)
  {
    hide ListOk;
    var c := l.cks[l.offs];
    SentSame(l, l', l.offs + 1);
    Concat3(out, c.buf[c.offs..c.offw], SentFrom(l, l.offs + 1));
  }

  /** A message of n bytes announces n modulo the chunk size. */
  lemma {:induction false} SizeOfLast(l: ListState, p: Bytes)
    requires l == ListWrite(Alloc(|p|), p).0
    ensures Headless(l) && l.offw == |l.cks| - 1 && SizeFrom(l, l.offw) == |p| % SEND_CHUNK_SIZE
  {
    Filled(p);
    hide ListWrite;
    assert SizeFrom(l, l.offw + 1) == 0;
  }

  lemma SentFromStep(l: ListState, i: nat)
    requires Sendable(l)
    ensures l.offw < |l.cks|
    ensures i <= l.offw ==> l.cks[i].offs <= l.cks[i].offw <= |l.cks[i].buf|
    ensures SentFrom(l, i) == if i > l.offw then [] else l.cks[i].buf[l.cks[i].offs..l.cks[i].offw] + SentFrom(l, i + 1)
  {
  }

  lemma {:induction false} SentPayload(l: ListState, i: nat)
    requires ListOk(l) && SendChunks(l.cks) && Sendable(l) && 0 < i <= l.offw + 1
    requires forall j | 0 < j <= l.offw :: l.cks[j].offs == MAX_HEADER_SIZE
    ensures SEND_CHUNK_SIZE * i <= WritePos(l) + SEND_CHUNK_SIZE && WritePos(l) <= |FlatOf(l)|
    ensures i <= l.offw ==> SEND_CHUNK_SIZE * i <= WritePos(l)
    ensures SentFrom(l, i) == if i <= l.offw then FlatOf(l)[SEND_CHUNK_SIZE * i..WritePos(l)] else []
    decreases l.offw + 1 - i
  {
    hide ListOk, SendChunks, Sendable, FlatOf, WritePos, SentFrom;
    SentFromStep(l, i);
    if i <= l.offw {
      SentPayload(l, i + 1);
      ChunkSent(l, i);
      if i < l.offw {
        SliceJoin(FlatOf(l), SEND_CHUNK_SIZE * i, SEND_CHUNK_SIZE * (i + 1), WritePos(l));
      }
    } else {
      ChunkSent(l, l.offw);
    }
  }

  /** Chunk i's part of the flat buffer, as far as it is written. */
  lemma ChunkSent(l: ListState, i: nat)
    requires ListOk(l) && SendChunks(l.cks) && i <= l.offw < |l.cks|
    ensures var hi := if i == l.offw then WritePos(l) else SEND_CHUNK_SIZE * (i + 1);
            && SEND_CHUNK_SIZE * i <= hi <= WritePos(l) <= |FlatOf(l)|
            && l.cks[i].buf[MAX_HEADER_SIZE..l.cks[i].offw] == FlatOf(l)[SEND_CHUNK_SIZE * i..hi]
  {
    PositionsBounded(l);
    SendFlatSize(l.cks, l.offw);
    SendFlatSize(l.cks, i);
    FlatLonger(l.cks, i, |l.cks|);
    var c := l.cks[i];
    assert c.buf[MAX_HEADER_SIZE..c.offw] == Payload(c)[..c.offw - MAX_HEADER_SIZE];
    hide Flat, ListOk, SendChunks;
    SliceSlice(FlatOf(l), SEND_CHUNK_SIZE * i, Payload(c), 0, c.offw - MAX_HEADER_SIZE);
  }

  /** The header ends where the payload begins. */
  lemma HeadedBytes(c: ChunkState, b: Bytes)
    requires ChunkOk(c) && c.head == MAX_HEADER_SIZE && |b| <= MAX_HEADER_SIZE
    ensures var r := PutHeader(c, |b|, b);
            && r.buf[MAX_HEADER_SIZE..] == c.buf[MAX_HEADER_SIZE..]
            && r.buf[r.offs..r.offw] == b + c.buf[MAX_HEADER_SIZE..c.offw]
  {
    hide Splice;
    SpliceSlice(c.buf, MAX_HEADER_SIZE - |b|, b, c.offw);
  }

  /** What Send puts out when all payload has been written and only the first chunk has a
      header. */
  lemma SentHeaded(l: ListState, b: Bytes)
    requires Headless(l) && l.offw < |l.cks| && |b| <= 16
    requires forall j | 0 <= j < |l.cks| :: l.cks[j].offs == MAX_HEADER_SIZE
    ensures Sendable(HeadAt(l, 0, |b|, b)) && WritePos(l) <= |FlatOf(l)|
    ensures SentFrom(HeadAt(l, 0, |b|, b), 0) == b + FlatOf(l)[..WritePos(l)]
  {
    var r := HeadAt(l, 0, |b|, b);
    HeadedBytes(l.cks[0], b);
    ChunkSent(l, 0);
    SentPayload(l, 1);
    assert Sendable(l) && Sendable(r);
    SentSame(l, r, 1);
    var first := l.cks[0].buf[MAX_HEADER_SIZE..l.cks[0].offw];
    assert SentFrom(r, 0) == (b + first) + SentFrom(l, 1);
    Concat3(b, first, SentFrom(l, 1));
    hide ListOk, FlatOf, WritePos, SendChunks, Sendable, PutHeader;
    if l.offw == 0 {
      assert FlatOf(l)[..WritePos(l)] == FlatOf(l)[0..WritePos(l)];
    } else {
      SliceJoin(FlatOf(l), 0, SEND_CHUNK_SIZE, WritePos(l));
    }
  }

  lemma FilledFrame(p: Bytes)
    ensures var l := ListWrite(Alloc(|p|), p).0;
            && Headless(l) && l.offw == |l.cks| - 1 && SizeFrom(l, l.offw) == |p| % SEND_CHUNK_SIZE
            && WritePos(l) == |p| <= |FlatOf(l)| && FlatOf(l)[..|p|] == p
            && forall j | 0 <= j < |l.cks| :: l.cks[j].offs == MAX_HEADER_SIZE
  {
    Filled(p);
    SizeOfLast(ListWrite(Alloc(|p|), p).0, p);
    PositionsBounded(ListWrite(Alloc(|p|), p).0);
    hide ListWrite, SizeFrom, WritePos, FlatOf;
  }

  lemma PreparedSingle(l: ListState, prev: Option<Header>, h: Header)
    requires Headless(l) && l.offw == |l.cks| - 1 && 2 <= h.csid <= MAX_STREAMS
    ensures var b := SentHeader(prev, h, Wrap(SizeFrom(l, l.offw)));
            |b| <= 16 && Prepared(l, prev, h) == HeadAt(l, 0, |b|, b)
  {
    var size := Wrap(SizeFrom(l, l.offw));
    var fmt, ts := FmtOf(prev, h, size), SentTimestamp(prev, h, size);
    HeaderFits(fmt, h, ts, size);
    hide ListOk, SendChunks, SizeFrom, PutHeader, Wrap, HeaderRoom, HeaderBytes;
  }

  /** Allocating for p, writing it, preparing against prev and sending. */
  function Wire(p: Bytes, prev: Option<Header>, h: Header): Bytes
    requires 2 <= h.csid <= MAX_STREAMS
  {
    FilledFrame(p);
    var l := ListWrite(Alloc(|p|), p).0;
    PreparedSingle(l, prev, h);
    var b := SentHeader(prev, h, Wrap(SizeFrom(l, l.offw)));
    SentHeaded(l, b);
    SentFrom(Prepared(l, prev, h), 0)
  }

  lemma PreparedBytes(l: ListState, p: Bytes, prev: Option<Header>, h: Header, size: uint32)
    requires Headless(l) && l.offw == |l.cks| - 1 && 2 <= h.csid <= MAX_STREAMS
    requires SizeFrom(l, l.offw) == size && Wrap(size) == size
    requires WritePos(l) == |p| <= |FlatOf(l)| && FlatOf(l)[..|p|] == p
    requires forall j | 0 <= j < |l.cks| :: l.cks[j].offs == MAX_HEADER_SIZE
    ensures Sendable(Prepared(l, prev, h)) && SentFrom(Prepared(l, prev, h), 0) == SentHeader(prev, h, size) + p
  {
    PreparedSingle(l, prev, h);
    SentHeaded(l, SentHeader(prev, h, size));
    hide *;
  }

  /** Wire, step by step. */
  lemma WireSteps(p: Bytes, prev: Option<Header>, h: Header)
    requires 2 <= h.csid <= MAX_STREAMS
    ensures var l := ListWrite(Alloc(|p|), p).0;
            && Headless(l) && Sendable(Prepared(l, prev, h)) && Prepared(l, prev, h).offs == 0
            && SentFrom(Prepared(l, prev, h), 0) == Wire(p, prev, h)
  {
    hide Headless, ListOk, FlatOf, WritePos, SendChunks, Sendable, Wrap, SizeFrom, SentHeader, Prepared, SentFrom;
    FilledFrame(p);
    WriteFrame(Alloc(|p|), p);
    var l := ListWrite(Alloc(|p|), p).0;
    PreparedSingle(l, prev, h);
    SentHeaded(l, SentHeader(prev, h, Wrap(SizeFrom(l, l.offw))));
  }

  /** What the wire carries for a message of any length. */
  lemma WireBytes(p: Bytes, prev: Option<Header>, h: Header)
    requires 2 <= h.csid <= MAX_STREAMS
    ensures Wire(p, prev, h) == SentHeader(prev, h, |p| % SEND_CHUNK_SIZE) + p
  {
    FilledFrame(p);
    var size := |p| % SEND_CHUNK_SIZE;
    assert Wrap(size) == size;
    PreparedBytes(ListWrite(Alloc(|p|), p).0, p, prev, h, size);
    hide Headless, ListOk, FlatOf, WritePos, SendChunks, Sendable, ListWrite, Wrap, SizeFrom, SentHeader, Prepared, SentFrom;
  }

  /** A message on a stream that remembers nothing is delivered by its own header. */
  lemma ParsedAgainstZero(prev: Option<Header>, h: Header, size: uint32, s: Bytes, streams: seq<Stream>, chunkSize: uint32)
    requires 2 <= h.csid < MAX_STREAMS && |streams| == MAX_STREAMS && streams[h.csid] == ZERO_STREAM
    ensures ParseMessage(streams, chunkSize, SentHeader(prev, h, size) + s)
         == Deliver(ZERO_STREAM, Received(FmtOf(prev, h, size), h, SentTimestamp(prev, h, size), size), chunkSize, s)
  {
    hide HeaderBytes, ParseBasic, ParseMessageHeader, Deliver;
    ReadHeader(FmtOf(prev, h, size), h, SentTimestamp(prev, h, size), size, s);
  }

  lemma DeliveredAgainstZero(prev: Option<Header>, h: Header, size: uint32, p: Bytes, chunkSize: uint32, rest: Bytes)
    requires size == |p| % SEND_CHUNK_SIZE && |p| < 0x1_0000_0000
    ensures Deliver(ZERO_STREAM, Received(FmtOf(prev, h, size), h, SentTimestamp(prev, h, size), size), chunkSize, p + rest)
              == Got(h.(fmt := FmtOf(prev, h, size), mlen := |p|), p, rest)
       <==> && |p| < SEND_CHUNK_SIZE && |p| <= chunkSize < CHUNK_SIZE_LIMIT && h.typo < MESSAGE_MAX
            && SelfContained(prev, h, size)
  {
    assert (p + rest)[..|p|] == p && (p + rest)[|p|..] == rest;
    assert Wrap(size) == size;
    WrapZero(h.timestamp);
    if h.typo < 256 {
      MergeZero(prev, h, size);
    }
  }

  /** A message prepared against any previous header arrives as it was exactly if it is
      shorter than a chunk of the sender, fits a chunk of the receiver, has a known type,
      and its header leaves nothing to remember. */
  lemma SentArrivesExactly(p: Bytes, prev: Option<Header>, h: Header, streams: seq<Stream>, chunkSize: uint32, rest: Bytes)
    requires 2 <= h.csid < MAX_STREAMS && |p| < 0x1_0000_0000
    requires |streams| == MAX_STREAMS && streams[h.csid] == ZERO_STREAM
    ensures var size := |p| % SEND_CHUNK_SIZE;
            ParseMessage(streams, chunkSize, Wire(p, prev, h) + rest)
              == Got(h.(fmt := FmtOf(prev, h, size), mlen := |p|), p, rest)
            <==> && |p| < SEND_CHUNK_SIZE && |p| <= chunkSize < CHUNK_SIZE_LIMIT && h.typo < MESSAGE_MAX
                 && SelfContained(prev, h, size)
  {
    var size := |p| % SEND_CHUNK_SIZE;
    hide *;
    WireBytes(p, prev, h);
    Concat3(SentHeader(prev, h, size), p, rest);
    ParsedAgainstZero(prev, h, size, p + rest, streams, chunkSize);
    DeliveredAgainstZero(prev, h, size, p, chunkSize, rest);
  }

  // ---- Many messages

  datatype Outgoing = Outgoing(hdr: Header, payload: Bytes)

  /** Messages sent one after the other, each prepared without a previous header. */
  function WireAll(ms: seq<Outgoing>): Bytes
    requires forall i | 0 <= i < |ms| :: 2 <= ms[i].hdr.csid <= MAX_STREAMS
  {
    if ms == [] then [] else Wire(ms[0].payload, None, ms[0].hdr) + WireAll(ms[1..])
  }

  /** n messages pumped from s, with what remains; none if one of them fails. */
  function PumpAll(streams: seq<Stream>, chunkSize: uint32, n: nat, s: Bytes): Option<(seq<Outgoing>, Bytes)>
    decreases n
  {
    if n == 0 then Some(([], s))
    else
      match ParseMessage(streams, chunkSize, s)
      case Got(h, p, rest) =>
        (match PumpAll(streams, chunkSize, n - 1, rest)
         case Some((ms, end)) => Some(([Outgoing(h, p)] + ms, end))
         case None => None)
      case _ => None
  }

  /** The messages as they should arrive. */
  function Announced(ms: seq<Outgoing>): (r: seq<Outgoing>)
    requires forall i | 0 <= i < |ms| :: |ms[i].payload| < SEND_CHUNK_SIZE
    ensures |r| == |ms|
    ensures forall i | 0 <= i < |ms| :: r[i] == ms[i].(hdr := ms[i].hdr.(fmt := 0, mlen := |ms[i].payload|))
  {
    if ms == [] then []
    else [ms[0].(hdr := ms[0].hdr.(fmt := 0, mlen := |ms[0].payload|))] + Announced(ms[1..])
  }

  /** Any run of short messages arrives message by message, in order, on whichever chunk
      streams they are sent. */
  lemma {:induction false} RunArrives(ms: seq<Outgoing>, streams: seq<Stream>, chunkSize: uint32, rest: Bytes)
    requires forall i | 0 <= i < |ms| :: 2 <= ms[i].hdr.csid < MAX_STREAMS && ms[i].hdr.typo < MESSAGE_MAX
    requires forall i | 0 <= i < |ms| :: |ms[i].payload| < SEND_CHUNK_SIZE && |ms[i].payload| <= chunkSize
    requires chunkSize < CHUNK_SIZE_LIMIT && |streams| == MAX_STREAMS && forall i | 0 <= i < MAX_STREAMS :: streams[i] == ZERO_STREAM
    ensures PumpAll(streams, chunkSize, |ms|, WireAll(ms) + rest)
         == Some((Announced(ms), rest))
    decreases |ms|
  {
    hide Wire, ParseMessage;
    if ms == [] {
      assert WireAll(ms) + rest == rest;
    } else {
      var m := ms[0];
      Concat3(Wire(m.payload, None, m.hdr), WireAll(ms[1..]), rest);
      SentArrivesExactly(m.payload, None, m.hdr, streams, chunkSize, WireAll(ms[1..]) + rest);
      RunArrives(ms[1..], streams, chunkSize, rest);
    }
  }
}
