/** The states of chunks and chunk lists as values, and what reading and writing do to
    them; the classes of message.go are proved against these functions. */
module ChunkStates {
  import opened ByteCodec
  import opened RtmpWire

  /** buf has MAX_HEADER_SIZE bytes of room for a header, then the payload area. */
  datatype ChunkState = ChunkState(buf: Bytes, offr: nat, offw: nat, head: nat, offs: nat)

  datatype ListState = ListState(cks: seq<ChunkState>, offr: nat, offw: nat, offs: nat)

  predicate ChunkOk(c: ChunkState) {
    && MAX_HEADER_SIZE < |c.buf| < 0x1_0000_0000
    && MAX_HEADER_SIZE <= c.offr <= |c.buf| && MAX_HEADER_SIZE <= c.offw <= |c.buf|
    && c.head <= MAX_HEADER_SIZE && c.offs <= |c.buf|
  }

  function FreshChunk(cs: nat): ChunkState {
    ChunkState(Zeros(cs + MAX_HEADER_SIZE), MAX_HEADER_SIZE, MAX_HEADER_SIZE, MAX_HEADER_SIZE, MAX_HEADER_SIZE)
  }

  // ---- One chunk

  function Room(c: ChunkState): nat
    requires ChunkOk(c)
  {
    |c.buf| - c.offw
  }

  function Unread(c: ChunkState): nat
    requires ChunkOk(c)
  {
    |c.buf| - c.offr
  }

  function Least(a: nat, b: nat): nat {
    if a < b then a else b
  }

  function ChunkWrite(c: ChunkState, p: Bytes): (r: ChunkState)
    requires ChunkOk(c)
    ensures ChunkOk(r)
  {
    var w := Least(|p|, Room(c));
    c.(buf := Splice(c.buf, c.offw, p[..w]), offw := c.offw + w)
  }

  function ChunkRead(c: ChunkState, n: nat): (r: (ChunkState, Bytes))
    requires ChunkOk(c)
    ensures ChunkOk(r.0)
  {
    var m := Least(n, Unread(c));
    (c.(offr := c.offr + m), c.buf[c.offr..c.offr + m])
  }

  predicate AllOk(cks: seq<ChunkState>) {
    forall i | 0 <= i < |cks| :: ChunkOk(cks[i])
  }

  // ---- The list

  /** Chunks before a cursor are used up, those after it untouched. */
  predicate ListOk(l: ListState) {
    && l.offr <= |l.cks| && l.offw <= |l.cks|
    && AllOk(l.cks)
    && (forall i | 0 <= i < l.offw :: Room(l.cks[i]) == 0)
    && (l.offw < |l.cks| ==> Room(l.cks[l.offw]) > 0)
    && (forall i | l.offw < i < |l.cks| :: l.cks[i].offw == MAX_HEADER_SIZE)
    && (forall i | 0 <= i < l.offr :: Unread(l.cks[i]) == 0)
    && (l.offr < |l.cks| ==> Unread(l.cks[l.offr]) > 0)
    && (forall i | l.offr < i < |l.cks| :: l.cks[i].offr == MAX_HEADER_SIZE)
  }

  /** Write goes from chunk to chunk until p is used up or the list is full. */
  function ListWrite(l: ListState, p: Bytes): (r: (ListState, nat))
    requires ListOk(l)
    ensures ListOk(r.0) && r.1 <= |p|
    decreases |p|
  {
    if p == [] || l.offw == |l.cks| then
      (l, 0)
    else
      var n := Least(|p|, Room(l.cks[l.offw]));
      var rest := ListWrite(WriteOnce(l, p), p[n..]);
      (rest.0, n + rest.1)
  }

  /** One iteration. */
  function WriteOnce(l: ListState, p: Bytes): (r: ListState)
    requires ListOk(l) && p != [] && l.offw < |l.cks|
    ensures ListOk(r)
  {
    var c := ChunkWrite(l.cks[l.offw], p);
    l.(cks := l.cks[l.offw := c], offw := if Room(c) == 0 then l.offw + 1 else l.offw)
  }

  lemma ListWriteStep(l: ListState, p: Bytes)
    requires ListOk(l)
    ensures if p == [] || l.offw == |l.cks| then ListWrite(l, p) == (l, 0)
            else var n := Least(|p|, Room(l.cks[l.offw]));
                 0 < n && ListWrite(l, p) == (ListWrite(WriteOnce(l, p), p[n..]).0, n + ListWrite(WriteOnce(l, p), p[n..]).1)
  {
  }

  /** With w bytes of p written to give l, writing the rest gives result. */
  ghost predicate Writing(l: ListState, p: Bytes, w: nat, result: (ListState, nat)) {
    ListOk(l) && w <= |p| && result == (ListWrite(l, p[w..]).0, w + ListWrite(l, p[w..]).1)
  }

  lemma WritingStep(l: ListState, p: Bytes, w: nat, result: (ListState, nat))
    requires Writing(l, p, w, result) && w < |p| && l.offw < |l.cks|
    ensures var n := Least(|p| - w, Room(l.cks[l.offw]));
            0 < n && w + n <= |p| && Writing(WriteOnce(l, p[w..]), p, w + n, result)
  {
    ListFacts(l);
    hide ListWrite, WriteOnce, ListOk, Room;
    ListWriteStep(l, p[w..]);
    var n := Least(|p| - w, Room(l.cks[l.offw]));
    assert p[w..][n..] == p[w + n..];
  }

  lemma WritingEnd(l: ListState, p: Bytes, w: nat, result: (ListState, nat))
    requires Writing(l, p, w, result) && (w == |p| || l.offw == |l.cks|)
    ensures result == (l, w)
  {
    ListWriteStep(l, p[w..]);
    hide ListWrite, ListOk;
  }

  function ListRead(l: ListState, n: nat): (r: (ListState, Bytes))
    requires ListOk(l)
    ensures ListOk(r.0) && |r.1| <= n
    decreases n
  {
    if n == 0 || l.offr == |l.cks| then
      (l, [])
    else
      var (c, p) := ChunkRead(l.cks[l.offr], n);
      var rest := ListRead(ReadOnce(l, n), n - |p|);
      (rest.0, p + rest.1)
  }

  lemma ListReadStep(l: ListState, n: nat)
    requires ListOk(l)
    ensures if n == 0 || l.offr == |l.cks| then ListRead(l, n) == (l, [])
            else var p := ChunkRead(l.cks[l.offr], n).1;
                 0 < |p| <= n && ListRead(l, n) == (ListRead(ReadOnce(l, n), n - |p|).0, p + ListRead(ReadOnce(l, n), n - |p|).1)
  {
  }

  /** With p read to leave l, reading up to n bytes in all gives result. */
  ghost predicate Reading(l: ListState, n: nat, p: Bytes, result: (ListState, Bytes)) {
    ListOk(l) && |p| <= n && result == (ListRead(l, n - |p|).0, p + ListRead(l, n - |p|).1)
  }

  lemma ReadingStep(l: ListState, n: nat, p: Bytes, result: (ListState, Bytes))
    requires Reading(l, n, p, result) && |p| < n && l.offr < |l.cks|
    ensures var q := ChunkRead(l.cks[l.offr], n - |p|).1;
            q != [] && |p| + |q| <= n && Reading(ReadOnce(l, n - |p|), n, p + q, result)
  {
    ListFacts(l);
    hide ListRead, ReadOnce, ChunkRead, ListOk;
    ListReadStep(l, n - |p|);
    ReadingNext(ReadOnce(l, n - |p|), n, p, ChunkRead(l.cks[l.offr], n - |p|).1, result);
  }

  lemma ReadingEnd(l: ListState, n: nat, p: Bytes, result: (ListState, Bytes))
    requires Reading(l, n, p, result) && (|p| == n || l.offr == |l.cks|)
    ensures result == (l, p)
  {
    assert p + [] == p;
    ListReadStep(l, n - |p|);
    hide ListRead, ListOk;
  }

  lemma ReadingNext(l1: ListState, n: nat, p: Bytes, q: Bytes, result: (ListState, Bytes))
    requires ListOk(l1) && |p| + |q| <= n
    requires var rest := ListRead(l1, n - |p| - |q|); result == (rest.0, p + (q + rest.1))
    ensures Reading(l1, n, p + q, result)
  {
    hide ListRead, ListOk;
    Concat3(p, q, ListRead(l1, n - |p| - |q|).1);
  }

  function ReadOnce(l: ListState, n: nat): (r: ListState)
    requires ListOk(l) && n > 0 && l.offr < |l.cks|
    ensures ListOk(r)
  {
    var c := ChunkRead(l.cks[l.offr], n).0;
    l.(cks := l.cks[l.offr := c], offr := if Unread(c) == 0 then l.offr + 1 else l.offr)
  }

  lemma ListReadOne(l: ListState)
    requires ListOk(l) && l.offr < |l.cks|
    ensures ListRead(l, 1) == (ReadOnce(l, 1), ChunkRead(l.cks[l.offr], 1).1) && |ChunkRead(l.cks[l.offr], 1).1| == 1
  {
    ListReadStep(l, 1);
    ListReadStep(ReadOnce(l, 1), 0);
    assert ChunkRead(l.cks[l.offr], 1).1 + [] == ChunkRead(l.cks[l.offr], 1).1;
    hide ListRead, ReadOnce, ListOk;
  }

  lemma ListWriteOne(l: ListState, c: byte)
    requires ListOk(l) && l.offw < |l.cks|
    ensures ListWrite(l, [c]) == (WriteOnce(l, [c]), 1)
  {
    ListWriteStep(l, [c]);
    ListWriteStep(WriteOnce(l, [c]), []);
    hide ListWrite, WriteOnce, ListOk;
  }

  // ---- Refinement: one flat buffer with two cursors

  function Payload(c: ChunkState): Bytes
    requires ChunkOk(c)
  {
    c.buf[MAX_HEADER_SIZE..]
  }

  /** The payload areas of the first n chunks, one after the other. */
  function Flat(cks: seq<ChunkState>, n: nat): Bytes
    requires n <= |cks| && AllOk(cks)
  {
    if n == 0 then [] else Flat(cks, n - 1) + Payload(cks[n - 1])
  }

  function FlatOf(l: ListState): Bytes
    requires ListOk(l)
  {
    Flat(l.cks, |l.cks|)
  }

  function WritePos(l: ListState): nat
    requires ListOk(l)
  {
    |Flat(l.cks, l.offw)| + if l.offw < |l.cks| then l.cks[l.offw].offw - MAX_HEADER_SIZE else 0
  }

  function ReadPos(l: ListState): nat
    requires ListOk(l)
  {
    |Flat(l.cks, l.offr)| + if l.offr < |l.cks| then l.cks[l.offr].offr - MAX_HEADER_SIZE else 0
  }

  lemma FlatStep(cks: seq<ChunkState>, n: nat)
    requires AllOk(cks) && 0 < n <= |cks|
    ensures Flat(cks, n) == Flat(cks, n - 1) + Payload(cks[n - 1])
  {
  }

  lemma {:induction false} FlatLonger(cks: seq<ChunkState>, i: nat, n: nat)
    requires i < n <= |cks| && AllOk(cks)
    ensures |Flat(cks, i)| + |Payload(cks[i])| <= |Flat(cks, n)|
    ensures Flat(cks, n)[|Flat(cks, i)|..|Flat(cks, i)| + |Payload(cks[i])|] == Payload(cks[i])
    decreases n
  {
    FlatStep(cks, n);
    hide Flat, Payload;
    if i < n - 1 {
      FlatLonger(cks, i, n - 1);
    }
  }

  lemma SpliceRight(a: Bytes, b: Bytes, at: nat, p: Bytes)
    requires at + |p| <= |b|
    ensures a + Splice(b, at, p) == Splice(a + b, |a| + at, p)
  {
  }

  lemma SpliceLeft(a: Bytes, b: Bytes, at: nat, p: Bytes)
    requires at + |p| <= |a|
    ensures Splice(a, at, p) + b == Splice(a + b, at, p)
  {
  }

  lemma {:induction false} FlatSame(cks: seq<ChunkState>, i: nat, c: ChunkState, n: nat)
    requires AllOk(cks) && ChunkOk(c) && n <= i < |cks|
    ensures Flat(cks[i := c], n) == Flat(cks, n)
  {
    if n > 0 {
      FlatSame(cks, i, c, n - 1);
    }
  }

  /** Changing chunk i changes its part of the flat buffer and nothing else. */
  lemma {:induction false} FlatUpdate(cks: seq<ChunkState>, i: nat, c: ChunkState, n: nat, at: nat, p: Bytes)
    requires i < n <= |cks| && AllOk(cks) && AllOk(cks[i := c]) && ChunkOk(c)
    requires at + |p| <= |Payload(cks[i])| && Payload(c) == Splice(Payload(cks[i]), at, p)
    ensures |Flat(cks, i)| + at + |p| <= |Flat(cks, n)|
    ensures Flat(cks[i := c], n) == Splice(Flat(cks, n), |Flat(cks, i)| + at, p)
    decreases n
  {
    FlatStep(cks, n);
    FlatStep(cks[i := c], n);
    var front := Flat(cks, n - 1);
    if i == n - 1 {
      FlatSame(cks, i, c, i);
      hide *;
      SpliceRight(front, Payload(cks[i]), at, p);
    } else {
      hide *;
      FlatUpdate(cks, i, c, n - 1, at, p);
      SpliceLeft(front, Payload(cks[n - 1]), |Flat(cks, i)| + at, p);
    }
  }

  lemma Splice2(s: Bytes, at: nat, p: Bytes, q: Bytes)
    requires at + |p| + |q| <= |s|
    ensures Splice(Splice(s, at, p), at + |p|, q) == Splice(s, at, p + q)
  {
  }

  lemma PositionsBounded(l: ListState)
    requires ListOk(l)
    ensures WritePos(l) <= |FlatOf(l)| && ReadPos(l) <= |FlatOf(l)|
    ensures l.offw < |l.cks| ==> WritePos(l) + Room(l.cks[l.offw]) <= |FlatOf(l)|
    ensures l.offr < |l.cks| ==> ReadPos(l) + Unread(l.cks[l.offr]) <= |FlatOf(l)|
  {
    if l.offw < |l.cks| {
      FlatLonger(l.cks, l.offw, |l.cks|);
    }
    if l.offr < |l.cks| {
      FlatLonger(l.cks, l.offr, |l.cks|);
    }
  }

  /** The payload areas of two lists have the same sizes. */
  lemma {:induction false} FlatSizes(cks: seq<ChunkState>, i: nat, c: ChunkState, n: nat)
    requires AllOk(cks) && ChunkOk(c) && i < |cks| && n <= |cks|
    requires |c.buf| == |cks[i].buf|
    ensures |Flat(cks[i := c], n)| == |Flat(cks, n)|
    ensures c.buf == cks[i].buf ==> Flat(cks[i := c], n) == Flat(cks, n)
    decreases n
  {
    if n > 0 {
      FlatSizes(cks, i, c, n - 1);
    }
  }

  lemma SpliceTail(s: Bytes, at: nat, p: Bytes)
    requires MAX_HEADER_SIZE <= at && at + |p| <= |s|
    ensures Splice(s, at, p)[MAX_HEADER_SIZE..] == Splice(s[MAX_HEADER_SIZE..], at - MAX_HEADER_SIZE, p)
  {
  }

  lemma PayloadWrite(c: ChunkState, p: Bytes)
    requires ChunkOk(c)
    ensures var n := Least(|p|, Room(c));
            && c.offw - MAX_HEADER_SIZE + n <= |Payload(c)|
            && Payload(ChunkWrite(c, p)) == Splice(Payload(c), c.offw - MAX_HEADER_SIZE, p[..n])
  {
    SpliceTail(c.buf, c.offw, p[..Least(|p|, Room(c))]);
    hide Splice;
  }

  lemma ListFacts(l: ListState)
    requires ListOk(l)
    ensures AllOk(l.cks) && l.offw <= |l.cks| && l.offr <= |l.cks|
    ensures l.offw < |l.cks| ==> ChunkOk(l.cks[l.offw]) && Room(l.cks[l.offw]) > 0
    ensures l.offr < |l.cks| ==> ChunkOk(l.cks[l.offr]) && Unread(l.cks[l.offr]) > 0
  {
  }

  lemma ChunkWriteFlat(cks: seq<ChunkState>, k: nat, p: Bytes)
    requires AllOk(cks) && k < |cks|
    ensures var n, c := Least(|p|, Room(cks[k])), ChunkWrite(cks[k], p);
            && AllOk(cks[k := c])
            && |Flat(cks, k)| + (cks[k].offw - MAX_HEADER_SIZE) + n <= |Flat(cks, |cks|)|
            && Flat(cks[k := c], |cks|)
               == Splice(Flat(cks, |cks|), |Flat(cks, k)| + (cks[k].offw - MAX_HEADER_SIZE), p[..n])
  {
    PayloadWrite(cks[k], p);
    hide Payload, Splice, Flat, ChunkWrite;
    FlatUpdate(cks, k, ChunkWrite(cks[k], p), |cks|, cks[k].offw - MAX_HEADER_SIZE, p[..Least(|p|, Room(cks[k]))]);
  }

  lemma WriteOnceContents(l: ListState, p: Bytes)
    requires ListOk(l) && p != [] && l.offw < |l.cks|
    ensures var n := Least(|p|, Room(l.cks[l.offw]));
            && 0 < n && WritePos(l) + n <= |FlatOf(l)|
            && FlatOf(WriteOnce(l, p)) == Splice(FlatOf(l), WritePos(l), p[..n])
  {
    ListFacts(l);
    ChunkWriteFlat(l.cks, l.offw, p);
    hide ListOk, Splice, Flat, AllOk, ChunkOk, ChunkWrite;
  }

  lemma WriteOnceMoves(l: ListState, p: Bytes)
    requires ListOk(l) && p != [] && l.offw < |l.cks|
    ensures WritePos(WriteOnce(l, p)) == WritePos(l) + Least(|p|, Room(l.cks[l.offw]))
  {
    ListFacts(l);
    ListFacts(WriteOnce(l, p));
    var k, c := l.offw, ChunkWrite(l.cks[l.offw], p);
    var cks := l.cks[k := c];
    FlatSizes(l.cks, k, c, k);
    FlatStep(cks, k + 1);
    assert l.offw + 1 < |l.cks| ==> l.cks[l.offw + 1].offw == MAX_HEADER_SIZE;
    hide ListOk, Flat, Splice;
  }

  lemma WriteOnceKeepsReading(l: ListState, p: Bytes)
    requires ListOk(l) && p != [] && l.offw < |l.cks|
    ensures ReadPos(WriteOnce(l, p)) == ReadPos(l)
  {
    ListFacts(l);
    ListFacts(WriteOnce(l, p));
    hide ListOk;
    FlatSizes(l.cks, l.offw, ChunkWrite(l.cks[l.offw], p), l.offr);
    hide Flat, Splice;
  }

  /** l' is l with as much of p as fits, w bytes, written at the write cursor of the flat
      buffer; the read cursor stays. */
  ghost predicate Written(l: ListState, p: Bytes, l': ListState, w: nat)
    requires ListOk(l) && ListOk(l')
  {
    && WritePos(l) <= |FlatOf(l)|
    && w == Least(|p|, |FlatOf(l)| - WritePos(l))
    && FlatOf(l') == Splice(FlatOf(l), WritePos(l), p[..w])
    && WritePos(l') == WritePos(l) + w && ReadPos(l') == ReadPos(l)
  }

  /** p is what the flat buffer of l holds from the read cursor on, n bytes or all there
      are, and l' has only that cursor moved. */
  ghost predicate ReadFrom(l: ListState, n: nat, l': ListState, p: Bytes)
    requires ListOk(l) && ListOk(l')
  {
    && ReadPos(l) <= |FlatOf(l)|
    && |p| == Least(n, |FlatOf(l)| - ReadPos(l))
    && p == FlatOf(l)[ReadPos(l)..ReadPos(l) + |p|]
    && FlatOf(l') == FlatOf(l)
    && ReadPos(l') == ReadPos(l) + |p| && WritePos(l') == WritePos(l)
  }

  lemma WriteOnceIsFlat(l: ListState, p: Bytes)
    requires ListOk(l) && p != [] && l.offw < |l.cks|
    ensures var n := Least(|p|, Room(l.cks[l.offw]));
            0 < n && Written(l, p[..n], WriteOnce(l, p), n)
  {
    WriteOnceContents(l, p);
    WriteOnceMoves(l, p);
    WriteOnceKeepsReading(l, p);
    hide FlatOf, WritePos, ReadPos, Splice, WriteOnce;
    assert p[..Least(|p|, Room(l.cks[l.offw]))][..Least(|p|, Room(l.cks[l.offw]))] == p[..Least(|p|, Room(l.cks[l.offw]))];
  }

  lemma WrittenThen(l: ListState, p: Bytes, n: nat, l1: ListState, l2: ListState, w: nat)
    requires ListOk(l) && ListOk(l1) && ListOk(l2) && n <= |p|
    requires Written(l, p[..n], l1, n) && Written(l1, p[n..], l2, w)
    ensures Written(l, p, l2, n + w)
  {
    hide FlatOf, WritePos, ReadPos, ListOk;
    assert p[..n][..n] == p[..n] && p[..n] + p[n..][..w] == p[..n + w];
    Splice2(FlatOf(l), WritePos(l), p[..n], p[n..][..w]);
  }

  lemma WrittenNone(l: ListState, p: Bytes)
    requires ListOk(l) && (p == [] || l.offw == |l.cks|)
    ensures Written(l, p, l, 0)
  {
    PositionsBounded(l);
    assert Splice(FlatOf(l), WritePos(l), p[..0]) == FlatOf(l);
  }

  /** Writing to the list is writing to the flat buffer. */
  lemma {:induction false} WriteIsFlat(l: ListState, p: Bytes)
    requires ListOk(l)
    ensures Written(l, p, ListWrite(l, p).0, ListWrite(l, p).1)
    decreases |p|
  {
    hide Written, WriteOnce;
    if p == [] || l.offw == |l.cks| {
      WrittenNone(l, p);
    } else {
      var n := Least(|p|, Room(l.cks[l.offw]));
      WriteOnceIsFlat(l, p);
      WriteIsFlat(WriteOnce(l, p), p[n..]);
      var (l2, w) := ListWrite(WriteOnce(l, p), p[n..]);
      WrittenThen(l, p, n, WriteOnce(l, p), l2, w);
    }
  }

  lemma ChunkReadFlat(cks: seq<ChunkState>, k: nat, n: nat)
    requires AllOk(cks) && k < |cks|
    ensures var (c, p) := ChunkRead(cks[k], n);
            var at := |Flat(cks, k)| + (cks[k].offr - MAX_HEADER_SIZE);
            && at + |p| <= |Flat(cks, |cks|)| && p == Flat(cks, |cks|)[at..at + |p|]
            && AllOk(cks[k := c]) && Flat(cks[k := c], |cks|) == Flat(cks, |cks|)
  {
    var (c, p) := ChunkRead(cks[k], n);
    FlatLonger(cks, k, |cks|);
    FlatSizes(cks, k, c, |cks|);
    assert p == Payload(cks[k])[cks[k].offr - MAX_HEADER_SIZE..][..|p|];
    hide Flat, Payload, AllOk;
    SliceSlice(Flat(cks, |cks|), |Flat(cks, k)|, Payload(cks[k]), cks[k].offr - MAX_HEADER_SIZE, |p|);
  }

  lemma ReadOnceContents(l: ListState, n: nat)
    requires ListOk(l) && n > 0 && l.offr < |l.cks|
    ensures var p := ChunkRead(l.cks[l.offr], n).1;
            && p != [] && ReadPos(l) + |p| <= |FlatOf(l)|
            && p == FlatOf(l)[ReadPos(l)..ReadPos(l) + |p|]
            && FlatOf(ReadOnce(l, n)) == FlatOf(l)
  {
    ListFacts(l);
    ChunkReadFlat(l.cks, l.offr, n);
    hide ListOk, Flat, AllOk, ChunkOk;
  }

  lemma ReadOnceCursors(l: ListState, n: nat)
    requires ListOk(l) && n > 0 && l.offr < |l.cks|
    ensures ReadPos(ReadOnce(l, n)) == ReadPos(l) + |ChunkRead(l.cks[l.offr], n).1|
    ensures WritePos(ReadOnce(l, n)) == WritePos(l)
  {
    ListFacts(l);
    ListFacts(ReadOnce(l, n));
    hide ListOk;
    var k, c := l.offr, ChunkRead(l.cks[l.offr], n).0;
    FlatSizes(l.cks, k, c, l.offw);
    FlatSizes(l.cks, k, c, k);
    FlatSizes(l.cks, k, c, k + 1);
    FlatStep(l.cks, k + 1);
    hide Flat;
  }

  lemma SliceSlice(s: Bytes, lo: nat, t: Bytes, at: nat, n: nat)
    requires lo + |t| <= |s| && s[lo..lo + |t|] == t && at + n <= |t|
    ensures s[lo + at..lo + at + n] == t[at..][..n]
  {
    forall k | 0 <= k < n ensures s[lo + at..lo + at + n][k] == t[at..][..n][k] {
      assert s[lo..lo + |t|][at + k] == t[at + k];
    }
  }

  lemma SliceGrow(s: Bytes, a: nat, b: nat, c: nat, n: nat)
    requires a <= b <= c <= |s| && b + n <= c
    ensures s[a..b] + s[b..c][..n] == s[a..b + n]
  {
    assert s[b..c][..n] == s[b..b + n];
  }

  lemma SliceJoin(s: Bytes, a: nat, b: nat, c: nat)
    requires a <= b <= c <= |s|
    ensures s[a..b] + s[b..c] == s[a..c]
  {
  }

  lemma ReadOnceIsFlat(l: ListState, n: nat)
    requires ListOk(l) && n > 0 && l.offr < |l.cks|
    ensures var p := ChunkRead(l.cks[l.offr], n).1;
            p != [] && ReadFrom(l, |p|, ReadOnce(l, n), p)
  {
    ReadOnceContents(l, n);
    ReadOnceCursors(l, n);
    hide FlatOf, WritePos, ReadPos, ReadOnce, ChunkRead;
  }

  lemma ReadThen(l: ListState, n: nat, p: Bytes, l1: ListState, l2: ListState, q: Bytes)
    requires ListOk(l) && ListOk(l1) && ListOk(l2) && |p| <= n
    requires ReadFrom(l, |p|, l1, p) && ReadFrom(l1, n - |p|, l2, q)
    ensures ReadFrom(l, n, l2, p + q)
  {
    hide FlatOf, WritePos, ReadPos, ListOk;
    SliceJoin(FlatOf(l), ReadPos(l), ReadPos(l1), ReadPos(l1) + |q|);
  }

  lemma ReadNone(l: ListState, n: nat)
    requires ListOk(l) && (n == 0 || l.offr == |l.cks|)
    ensures ReadFrom(l, n, l, [])
  {
    PositionsBounded(l);
  }

  /** Reading from the list is reading from the flat buffer. */
  lemma {:induction false} ReadIsFlat(l: ListState, n: nat)
    requires ListOk(l)
    ensures ReadFrom(l, n, ListRead(l, n).0, ListRead(l, n).1)
    decreases n
  {
    hide ReadFrom, ReadOnce, ListOk, ListRead, ChunkRead;
    ListReadStep(l, n);
    if n == 0 || l.offr == |l.cks| {
      ReadNone(l, n);
    } else {
      ListFacts(l);
      var p := ChunkRead(l.cks[l.offr], n).1;
      ReadOnceIsFlat(l, n);
      ReadIsFlat(ReadOnce(l, n), n - |p|);
      var (l2, q) := ListRead(ReadOnce(l, n), n - |p|);
      ReadThen(l, n, p, ReadOnce(l, n), l2, q);
    }
  }
}
