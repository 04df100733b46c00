/** message.go: chunks, and the list of chunks that a message is written to and read from,
    updated in place. */
module Chunks {
  import opened ByteCodec
  import opened Results
  import opened RtmpWire
  import opened ChunkStates
  import opened MessageStates

  /** An io.Writer. Each call takes some of the bytes, at least one; one that fails may
      have taken any number. A healthy writer does not fail. */
  class Writer {
    var out: Bytes
    const healthy: bool

    constructor (healthy: bool)
      ensures out == [] && this.healthy == healthy
    {
      out := [];
      this.healthy := healthy;
    }

    method Write(p: Bytes) returns (n: nat, ok: bool)
      requires p != []
      modifies this
      ensures n <= |p| && out == old(out) + p[..n]
      ensures ok ==> n > 0
      ensures healthy ==> ok
    {
      ok := *;
      ok := ok || healthy;
      var m: int := *;
      n := if 0 <= m <= |p| && (ok ==> m > 0) then m else |p|;
      out := out + p[..n];
    }

    /** A buffered write and its flush. */
    method WriteAll(p: Bytes) returns (ok: bool)
      modifies this
      ensures ok ==> out == old(out) + p
      ensures healthy ==> ok
    {
      ok := *;
      ok := ok || healthy;
      var m: int := *;
      out := out + if ok || !(0 <= m <= |p|) then p else p[..m];
    }
  }

  class Chunk {
    const buf: array<byte>
    var offr: nat
    var offw: nat
    var head: nat
    var offs: nat

    ghost function State(): ChunkState
      reads this, buf
    {
      ChunkState(buf[..], offr, offw, head, offs)
    }

    /** A fresh chunk with room for cs bytes after the space for a header. */
    constructor (cs: nat)
      requires cs < CHUNK_SIZE_LIMIT
      ensures State() == FreshChunk(cs) && fresh(buf) && buf.Length == cs + MAX_HEADER_SIZE
    {
      buf := new byte[cs + MAX_HEADER_SIZE](_ => 0);
      offr, offw, head, offs := MAX_HEADER_SIZE, MAX_HEADER_SIZE, MAX_HEADER_SIZE, MAX_HEADER_SIZE;
      new;
      assert buf[..] == Zeros(cs + MAX_HEADER_SIZE);
    }

    /** Room for a header of n bytes; where there is none the source panics. */
    method Reset(n: nat)
      requires n <= head
      modifies this
      ensures State() == old(State()).(head := old(head) - n, offs := old(head) - n)
    {
      head := head - n;
      offs := head;
    }

    /** Everything from offs to offw goes out, however the writer splits it. */
    method Send(w: Writer) returns (ok: bool)
      requires offs <= offw <= buf.Length
      modifies this, w
      ensures State() == old(State()).(offs := offs) && offs <= offw
      ensures ok ==> offs == offw && w.out == old(w.out) + buf[..][old(offs)..offw]
      ensures w.healthy ==> ok
    {
      ghost var start, from := w.out, offs;
      while offs < offw
        invariant from <= offs <= offw <= buf.Length && w.out == start + buf[..][from..offs]
        invariant State() == old(State()).(offs := offs)
      {
        SentMore(start, buf[..], from, offs, offw);
        var n, sent := w.Write(buf[..][offs..offw]);
        if !sent {
          return false;
        }
        offs := offs + n;
      }
      return true;
    }

    lemma SentMore(out: Bytes, s: Bytes, a: nat, b: nat, c: nat)
      requires a <= b <= c <= |s|
      ensures forall n | 0 <= n <= c - b :: (out + s[a..b]) + s[b..c][..n] == out + s[a..b + n]
    {
      forall n | 0 <= n <= c - b ensures (out + s[a..b]) + s[b..c][..n] == out + s[a..b + n] {
        SliceGrow(s, a, b, c, n);
        Concat3(out, s[a..b], s[b..c][..n]);
      }
    }

    method Read(n: nat) returns (p: Bytes, ok: bool)
      requires ChunkOk(State()) && n < 0x1_0000_0000
      modifies this`offr
      ensures (State(), p) == ChunkRead(old(State()), n) && ok == (p != [])
    {
      var m := buf.Length - offr;
      var r := if n < m then n else m;
      assert buf[offr..offr + r] == buf[..][offr..offr + r];
      if r > 0 {
        p := buf[offr..offr + r];
        offr := offr + r;
        return p, true;
      }
      assert buf[..][offr..offr + 0] == [];
      return [], false;
    }

    method Write(p: Bytes) returns (w: nat, ok: bool)
      requires ChunkOk(State()) && |p| < 0x1_0000_0000
      modifies this`offw, buf
      ensures State() == ChunkWrite(old(State()), p) && w == Least(|p|, Room(old(State()))) && ok == (w > 0)
    {
      ghost var before := buf[..];
      var m := buf.Length - offw;
      w := if |p| < m then |p| else m;
      forall k | 0 <= k < w {
        buf[offw + k] := p[k];
      }
      assert buf[..] == Splice(before, offw, p[..w]);
      offw := offw + w;
      ok := w > 0;
    }

    method ReadByte() returns (b: byte, ok: bool)
      requires ChunkOk(State())
      modifies this`offr
      ensures (State(), if ok then [b] else []) == ChunkRead(old(State()), 1)
    {
      if buf.Length <= offr {
        assert buf[..][offr..offr + 0] == [];
        return 0, false;
      }
      b := buf[offr];
      offr := offr + 1;
      return b, true;
    }

    method WriteByte(c: byte) returns (ok: bool)
      requires ChunkOk(State())
      modifies this`offw, buf
      ensures State() == ChunkWrite(old(State()), [c]) && ok == (Room(old(State())) > 0)
    {
      ghost var before := buf[..];
      if offw == buf.Length {
        assert Splice(before, offw, []) == before;
        return false;
      }
      buf[offw] := c;
      assert buf[..] == Splice(before, offw, [c]);
      offw := offw + 1;
      return true;
    }

    /** Put b after done, which starts at start. */
    method PutNext(ghost before: Bytes, ghost start: nat, ghost done: Bytes, at: nat, b: Bytes) returns (next: nat)
      requires |before| == buf.Length && start + |done| + |b| <= buf.Length && at == start + |done|
      requires buf[..] == Splice(before, start, done)
      modifies buf
      ensures buf[..] == Splice(before, start, done + b) && next == at + |b|
    {
      Splice2(before, start, done, b);
      hide Splice;
      Put(at, b);
      next := at + |b|;
    }

    /** Reserve room for the header and put it there piece by piece. */
    method WriteHeader(fmt: nat, h: Header, timestamp: uint32, size: uint32)
      requires ChunkOk(State()) && fmt < 4 && h.csid <= MAX_STREAMS && head == MAX_HEADER_SIZE
      requires buf.Length == SEND_CHUNK_SIZE + MAX_HEADER_SIZE
      modifies this, buf
      ensures HeaderRoom(fmt, timestamp) <= 16
      ensures |HeaderBytes(fmt, h, timestamp, size)| <= HeaderRoom(fmt, timestamp) + 2
      ensures State() == MessageStates.PutHeader(old(State()), HeaderRoom(fmt, timestamp), HeaderBytes(fmt, h, timestamp, size))
    {
      hide HeaderRoom, HeaderBytes, Splice;
      HeaderFits(fmt, h, timestamp, size);
      Reset(HeaderRoom(fmt, timestamp));
      WritePieces(fmt, h, timestamp, size);
    }

    method WritePieces(fmt: nat, h: Header, timestamp: uint32, size: uint32)
      requires fmt < 4 && h.csid <= MAX_STREAMS
      requires head + |HeaderBytes(fmt, h, timestamp, size)| <= buf.Length
      modifies buf
      ensures buf[..] == Splice(old(buf[..]), head, HeaderBytes(fmt, h, timestamp, size))
    {
      hide HeaderBytes, Be, BasicBytes, Splice, Min;
      ghost var before := buf[..];
      ghost var b := HeaderPieces(fmt, h, timestamp, size);
      SpliceNone(before, head);
      assert [] + b.0 == b.0;
      var at := PutNext(before, head, [], head, BasicBytes(fmt, h.csid));
      if fmt <= 2 {
        at := PutNext(before, head, b.0, at, Be(3, Min(timestamp, EXTENDED)));
        if fmt <= 1 {
          at := PutNext(before, head, b.1, at, Be(3, size) + [h.typo % 256]);
          if fmt == 0 {
            at := PutNext(before, head, b.2, at, Be(4, h.msid));
          }
        }
      }
      assert buf[..] == Splice(before, head, b.3) && at == head + |b.3|;
      if timestamp >= EXTENDED {
        at := PutNext(before, head, b.3, at, Be(4, timestamp));
      }
    }

    method PutHeader(n: nat, b: Bytes)
      requires ChunkOk(State()) && n <= head && head - n + |b| <= buf.Length
      modifies this, buf
      ensures State() == MessageStates.PutHeader(old(State()), n, b)
    {
      Reset(n);
      Put(head, b);
    }

    /** Write b at position at, in the header room. */
    method Put(at: nat, b: Bytes)
      requires at + |b| <= buf.Length
      modifies buf
      ensures buf[..] == Splice(old(buf[..]), at, b)
    {
      forall k | 0 <= k < |b| {
        buf[at + k] := b[k];
      }
    }
  }

  class ChunkList {
    var chs: seq<Chunk>
    var offr: nat
    var offw: nat
    var offs: nat

    ghost function Objects(): (o: set<object>)
      reads this`chs
      ensures this !in o && forall x | x in o :: x is Chunk || x is array<byte>
    {
      (set i | 0 <= i < |chs| :: chs[i] as object) + (set i | 0 <= i < |chs| :: chs[i].buf as object)
    }

    ghost predicate Apart()
      reads this
    {
      forall i, j | 0 <= i < j < |chs| :: chs[i] != chs[j] && chs[i].buf != chs[j].buf
    }

    ghost function State(): (s: ListState)
      reads this, Objects()
      ensures |s.cks| == |chs| && s.offr == offr && s.offw == offw && s.offs == offs
    {
      ListState(seq(|chs|, i requires 0 <= i < |chs| reads this, Objects() => chs[i].State()), offr, offw, offs)
    }

    ghost predicate Valid()
      reads this, Objects()
    {
      Apart() && ListOk(State())
    }

    constructor ()
      ensures Valid() && chs == [] && State() == ListState([], 0, 0, 0) && Objects() == {}
    {
      chs, offr, offw, offs := [], 0, 0, 0;
    }

    /** One iteration of Write. */
    method WriteSome(p: Bytes) returns (n: nat)
      requires Valid() && offw < |chs| && p != [] && |p| < 0x1_0000_0000
      modifies this`offw, Objects()
      ensures State() == WriteOnce(old(State()), p) && n == Least(|p|, Room(old(State()).cks[old(offw)]))
      ensures Valid() && chs == old(chs)
    {
      var ch := chs[offw];
      ghost var k, before := offw, State();
      assert ch.State() == before.cks[k];
      var ok: bool;
      n, ok := ch.Write(p);
      assert State().cks == before.cks[k := ChunkWrite(before.cks[k], p)];
      if ch.offw == ch.buf.Length {
        offw := offw + 1;
      }
      assert State() == WriteOnce(before, p);
      hide ListOk;
    }

    method WriteNext(p: Bytes, w: nat, ghost result: (ListState, nat)) returns (w': nat)
      requires Valid() && Writing(State(), p, w, result) && offw < |chs| && w < |p| < 0x1_0000_0000
      modifies this`offw, Objects()
      ensures Valid() && Writing(State(), p, w', result)
      ensures w < w' <= |p| && chs == old(chs)
    {
      hide *;
      WritingStep(State(), p, w, result);
      var n := WriteSome(p[w..]);
      w' := w + n;
    }

    /** Write: p as far as there is room. io.EOF also answers an empty p. */
    method Write(p: Bytes) returns (w: nat, ok: bool)
      requires Valid() && |p| < 0x1_0000_0000
      modifies this`offw, Objects()
      ensures Valid() && chs == old(chs)
      ensures (State(), w) == ListWrite(old(State()), p) && ok == (p != [] && w == |p|)
    {
      w := 0;
      assert p[0..] == p;
      ghost var result := ListWrite(State(), p);
      assert Writing(State(), p, 0, result);
      hide Writing, ListWrite, ListOk, Apart;
      while offw < |chs| && w < |p|
        invariant Valid() && chs == old(chs) && w <= |p|
        invariant Writing(State(), p, w, result)
        decreases |p| - w
      {
        w := WriteNext(p, w, result);
      }
      WritingEnd(State(), p, w, result);
      ok := p != [] && w == |p|;
    }

    method ReadSome(n: nat) returns (p: Bytes)
      requires Valid() && offr < |chs| && 0 < n < 0x1_0000_0000
      modifies this`offr, Objects()
      ensures State() == ReadOnce(old(State()), n) && p == ChunkRead(old(State()).cks[old(offr)], n).1
      ensures Valid() && chs == old(chs)
    {
      var ch := chs[offr];
      ghost var k, before := offr, State();
      assert ch.State() == before.cks[k];
      var ok: bool;
      p, ok := ch.Read(n);
      assert State().cks == before.cks[k := ChunkRead(before.cks[k], n).0];
      if ch.offr == ch.buf.Length {
        offr := offr + 1;
      }
      assert State() == ReadOnce(before, n);
      hide ListOk;
    }

    method ReadNext(n: nat, p: Bytes, ghost result: (ListState, Bytes)) returns (p': Bytes)
      requires Valid() && Reading(State(), n, p, result) && offr < |chs| && |p| < n < 0x1_0000_0000
      modifies this`offr, Objects()
      ensures Valid() && Reading(State(), n, p', result)
      ensures |p| < |p'| <= n && chs == old(chs)
    {
      hide *;
      ReadingStep(State(), n, p, result);
      var q := ReadSome(n - |p|);
      p' := p + q;
    }

    /** Read into n bytes: as many as there are. */
    method Read(n: nat) returns (p: Bytes, ok: bool)
      requires Valid() && n < 0x1_0000_0000
      modifies this`offr, Objects()
      ensures Valid() && chs == old(chs)
      ensures (State(), p) == ListRead(old(State()), n) && ok == (n > 0 && |p| == n)
    {
      p := [];
      ghost var result := ListRead(State(), n);
      assert [] + result.1 == result.1;
      assert Reading(State(), n, [], result);
      hide Reading, ListRead, ListOk, Apart;
      while offr < |chs| && |p| < n
        invariant Valid() && chs == old(chs) && |p| <= n
        invariant Reading(State(), n, p, result)
        decreases n - |p|
      {
        p := ReadNext(n, p, result);
      }
      ReadingEnd(State(), n, p, result);
      ok := n > 0 && |p| == n;
    }

    method ReadByte() returns (b: byte, ok: bool)
      requires Valid()
      modifies this`offr, Objects()
      ensures Valid() && chs == old(chs)
      ensures (State(), if ok then [b] else []) == ListRead(old(State()), 1)
    {
      ghost var k, before := offr, State();
      if offr == |chs| {
        ListReadStep(before, 1);
        return 0, false;
      }
      var ch := chs[offr];
      assert ch.State() == before.cks[k];
      ListReadOne(before);
      hide ListRead, ListOk;
      b, ok := ch.ReadByte();
      assert State().cks == before.cks[k := ChunkRead(before.cks[k], 1).0];
      if ch.buf.Length == ch.offr {
        offr := offr + 1;
      }
      assert State() == ReadOnce(before, 1);
    }

    method WriteByte(c: byte) returns (ok: bool)
      requires Valid()
      modifies this`offw, Objects()
      ensures Valid() && chs == old(chs)
      ensures (State(), if ok then 1 else 0) == ListWrite(old(State()), [c])
    {
      ghost var k, before := offw, State();
      if offw == |chs| {
        ListWriteStep(before, [c]);
        return false;
      }
      var ch := chs[offw];
      assert ch.State() == before.cks[k];
      ListWriteOne(before, c);
      hide ListWrite;
      ok := ch.WriteByte(c);
      assert State().cks == before.cks[k := ChunkWrite(before.cks[k], [c])];
      hide ListOk;
      if ch.buf.Length == ch.offw {
        offw := offw + 1;
      }
      assert State() == WriteOnce(before, [c]);
    }

    method AppendChunk(ch: Chunk)
      requires Apart() && ch !in Objects() && ch.buf !in Objects()
      modifies this`chs
      ensures Apart() && chs == old(chs) + [ch]
      ensures State() == old(State()).(cks := old(State()).cks + [ch.State()])
      ensures ListOk(old(State())) && Unused(ch.State()) ==> State() == Appended(old(State()), ch.State()) && Valid()
    {
      hide ListOk;
      ghost var before := State();
      chs := chs + [ch];
      assert State().cks == before.cks + [ch.State()];
    }

    /** The size of the chunk at the write cursor, once for each chunk from there on. */
    method Size() returns (l: uint32)
      requires Valid()
      ensures Valid() && l == Wrap(SizeFrom(State(), offw))
    {
      l := 0;
      var i := offw;
      ghost var st := State();
      ListFacts(st);
      WrapZero(SizeFrom(st, i));
      hide ListOk, AllOk, Apart, SizeFrom, Wrap;
      while i < |chs|
        invariant offw <= i <= |chs| && State() == st && Valid()
        invariant Wrap(l + SizeFrom(st, i)) == Wrap(SizeFrom(st, offw))
        invariant i == |chs| ==> SizeFrom(st, i) == 0 && Wrap(l) == l
      {
        SizeStep(st, i, l);
        assert chs[offw].State() == st.cks[offw];
        l := Wrap(l + (chs[offw].offw - chs[offw].head));
        i := i + 1;
      }
    }

    method HeadFirst(fmt: nat, h: Header, timestamp: uint32, size: uint32)
      requires Valid() && Headless(State()) && fmt < 4 && h.csid <= MAX_STREAMS
      modifies Objects()
      ensures Valid() && chs == old(chs) && HeaderRoom(fmt, timestamp) <= 16
      ensures |HeaderBytes(fmt, h, timestamp, size)| <= SEND_CHUNK_SIZE
      ensures State() == MessageStates.HeadAt(old(State()), 0, HeaderRoom(fmt, timestamp), HeaderBytes(fmt, h, timestamp, size))
    {
      hide ListOk, SendChunks, Headless, ChunkOk, HeaderRoom, HeaderBytes, MessageStates.PutHeader;
      HeadlessFacts(State());
      ghost var before := State();
      var ch := chs[0];
      assert ch.State() == before.cks[0];
      ch.WriteHeader(fmt, h, timestamp, size);
      assert State().cks == before.cks[0 := MessageStates.PutHeader(before.cks[0], HeaderRoom(fmt, timestamp), HeaderBytes(fmt, h, timestamp, size))];
      assert State() == MessageStates.HeadAt(before, 0, HeaderRoom(fmt, timestamp), HeaderBytes(fmt, h, timestamp, size));
    }

    /** Reserve n bytes before chunk i's payload and put b there. */
    method HeadAt(i: nat, n: nat, b: Bytes)
      requires Valid() && i < |chs| && SendChunks(State().cks)
      requires n <= chs[i].head && |b| <= SEND_CHUNK_SIZE
      modifies Objects()
      ensures Valid() && chs == old(chs) && State() == MessageStates.HeadAt(old(State()), i, n, b)
    {
      hide ListOk, SendChunks, ChunkOk, MessageStates.PutHeader;
      SendChunkFacts(State(), i);
      ghost var before := State();
      var ch := chs[i];
      assert ch.State() == before.cks[i];
      ch.PutHeader(n, b);
      assert State().cks == before.cks[i := MessageStates.PutHeader(before.cks[i], n, b)];
      assert State() == MessageStates.HeadAt(before, i, n, b);
    }

    /** The chosen header on the first chunk, continuation headers on those after the one
        written last. */
    method WriteHeaders(hdr: Header, ghost prev: Option<Header>, fmt: nat, timestamp: uint32, size: uint32)
      requires Valid() && Headless(State()) && hdr.csid <= MAX_STREAMS
      requires size == Wrap(SizeFrom(State(), State().offw)) && fmt < 4
      requires fmt == FmtOf(prev, hdr, size) && timestamp == SentTimestamp(prev, hdr, size)
      modifies Objects()
      ensures Valid() && chs == old(chs)
      ensures State() == Prepared(old(State()), prev, hdr)
    {
      hide *;
      FirstHeadedFacts(State(), prev, hdr);
      PreparedParts(State(), prev, hdr);
      ghost var first := FirstHeaded(State(), prev, hdr);
      HeadFirst(fmt, hdr, timestamp, size);
      assert State() == first;
      Follow(hdr.csid);
    }

    ghost predicate Followable(before: ListState, csid: uint32)
      reads this
    {
      && ListOk(before) && SendChunks(before.cks) && csid <= MAX_STREAMS
      && before.offw == offw && |before.cks| == |chs|
      && (forall j | offw < j < |chs| :: before.cks[j].head == MAX_HEADER_SIZE)
    }

    /** The chunks after the one at the write cursor, up to i, have got their headers. */
    ghost predicate Following(before: ListState, csid: uint32, i: nat)
      reads this, Objects()
    {
      && Followable(before, csid) && Valid()
      && offw < i && (i <= |chs| || i == offw + 1)
      && State() == Followed(before, csid, offw + 1, i)
    }

    lemma FollowingNow(before: ListState, csid: uint32, i: nat)
      requires Following(before, csid, i) && i < |chs|
      ensures Valid() && csid <= MAX_STREAMS && SendChunks(State().cks) && Followable(before, csid)
      ensures var b := BasicBytes(3, csid);
              && |b| <= chs[i].head && |b| <= SEND_CHUNK_SIZE
              && |b| <= State().cks[i].head
              && FollowsTo(before, csid, MessageStates.HeadAt(State(), i, |b|, b), i + 1)
    {
      FollowedStep(before, csid, offw + 1, i);
      assert chs[i].State() == State().cks[i];
      hide ListOk, SendChunks, BasicBytes, Apart, MessageStates.HeadAt, Followed;
    }

    ghost predicate FollowsTo(before: ListState, csid: uint32, l: ListState, i: nat)
      requires Followable(before, csid)
      reads this
    {
      offw < i <= |chs| && l == Followed(before, csid, offw + 1, i)
    }

    lemma FollowingStart(csid: uint32)
      requires Valid() && ListOk(State()) && SendChunks(State().cks) && csid <= MAX_STREAMS
      requires forall j | offw < j < |chs| :: State().cks[j].head == MAX_HEADER_SIZE
      ensures Following(State(), csid, offw + 1)
    {
      FollowedNone(State(), csid, offw + 1, offw + 1);
      hide ListOk, SendChunks, Followed, Apart;
    }

    lemma FollowingEnd(before: ListState, csid: uint32, i: nat)
      requires Following(before, csid, i) && |chs| <= i
      ensures Valid() && State() == Followed(before, csid, offw + 1, |before.cks|)
    {
      hide ListOk, SendChunks, Followed, Apart;
      if |before.cks| <= offw + 1 {
        FollowedNone(before, csid, offw + 1, |before.cks|);
        FollowedNone(before, csid, offw + 1, i);
      }
    }

    method Follow(csid: uint32)
      requires Valid() && ListOk(State()) && SendChunks(State().cks) && csid <= MAX_STREAMS
      requires forall j | offw < j < |chs| :: State().cks[j].head == MAX_HEADER_SIZE
      modifies Objects()
      ensures Valid() && chs == old(chs)
      ensures State() == Followed(old(State()), csid, offw + 1, |old(State()).cks|)
    {
      hide *;
      ghost var before := State();
      var i: nat := offw + 1;
      FollowingStart(csid);
      while i < |chs|
        invariant Following(before, csid, i) && chs == old(chs)
      {
        FollowNext(csid, before, i);
        i := i + 1;
      }
      FollowingEnd(before, csid, i);
    }

    method FollowNext(csid: uint32, ghost before: ListState, i: nat)
      requires Following(before, csid, i) && i < |chs|
      modifies Objects()
      ensures Following(before, csid, i + 1) && chs == old(chs)
    {
      hide *;
      FollowingNow(before, csid, i);
      var b := BasicBytes(3, csid);
      HeadAt(i, |b|, b);
      FollowingNext(before, csid, i + 1);
    }

    lemma FollowingNext(before: ListState, csid: uint32, i: nat)
      requires Valid() && Followable(before, csid) && FollowsTo(before, csid, State(), i)
      ensures Following(before, csid, i)
    {
      hide Followable, Followed;
    }

    /** Send the chunk at offs, as far as o. */
    method SendChunk(w: Writer) returns (ok: bool, ghost o: nat)
      requires Valid() && Sendable(State()) && offs <= offw && w !in Objects()
      modifies Objects(), w
      ensures Valid() && chs == old(chs)
      ensures o <= |old(State()).cks[offs].buf| && State() == SentTo(old(State()), offs, o)
      ensures ok ==> var c := old(State()).cks[offs]; o == c.offw && w.out == old(w.out) + c.buf[c.offs..c.offw]
      ensures w.healthy ==> ok
    {
      ghost var before := State();
      var ch := chs[offs];
      assert ch.State() == before.cks[offs];
      hide ListOk;
      ok := ch.Send(w);
      assert State().cks == before.cks[offs := before.cks[offs].(offs := ch.offs)];
      o := ch.offs;
    }

    /** Send the chunk at offs and go on to the next. */
    method SendNext(w: Writer) returns (ok: bool)
      requires Valid() && Sendable(State()) && offs <= offw && w !in Objects()
      modifies this`offs, Objects(), w
      ensures Valid() && chs == old(chs)
      ensures ok ==> Sendable(State()) && SameButSent(old(State()), State()) && offs == old(offs) + 1
      ensures ok ==> w.out + SentFrom(State(), offs) == old(w.out) + SentFrom(old(State()), old(offs))
      ensures w.healthy ==> ok
    {
      ghost var before, out := State(), w.out;
      hide ListOk, Sendable, SentFrom, SentTo, Apart;
      ghost var o: nat;
      ok, o := SendChunk(w);
      if ok {
        offs := offs + 1;
        SentStep(before, State(), out);
      }
    }
  }
}
