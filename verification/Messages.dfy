/** message.go: messages, prepared and sent in place. */
module Messages {
  import opened ByteCodec
  import opened Results
  import opened RtmpWire
  import opened ChunkStates
  import opened MessageStates
  import opened Chunks

  /** A header others can overwrite. */
  class HeaderRef {
    var h: Header

    constructor (h: Header)
      ensures this.h == h
    {
      this.h := h;
    }
  }

  class Message {
    const hdr: Header
    const cl: ChunkList
    var ready: bool

    constructor (hdr: Header)
      ensures this.hdr == hdr && !ready && fresh(cl)
      ensures cl.Valid() && cl.chs == [] && cl.Objects() == {} && cl.State() == EMPTY
    {
      this.hdr := hdr;
      cl := new ChunkList();
      ready := false;
    }

    /** Chunks for n bytes, and one more. */
    method Alloc(n: nat)
      requires cl.Valid()
      modifies cl
      ensures cl.Valid() && fresh(cl.Objects() - old(cl.Objects()))
      ensures cl.State() == Extended(old(cl.State()), n / SEND_CHUNK_SIZE + 1)
    {
      ghost var before: ListState, k: nat := cl.State(), 0;
      var i: nat := n / SEND_CHUNK_SIZE + 1;
      assert Extended(before, 0) == before by { ExtendedNone(before); }
      hide ListOk, Extended, ChunkList.Apart, Appended;
      while i > 0
        invariant k + i == n / SEND_CHUNK_SIZE + 1 && cl.Valid() && cl.State() == Extended(before, k)
        invariant fresh(cl.Objects() - old(cl.Objects()))
      {
        ExtendedStep(before, k);
        AddFresh();
        k := k + 1;
        i := i - 1;
      }
    }

    method AddFresh()
      requires cl.Valid()
      modifies cl
      ensures cl.Valid() && Unused(FreshChunk(SEND_CHUNK_SIZE))
      ensures cl.State() == Appended(old(cl.State()), FreshChunk(SEND_CHUNK_SIZE))
      ensures fresh(cl.Objects() - old(cl.Objects()))
    {
      hide ListOk;
      ghost var before := cl.State();
      var ck := new Chunk(SEND_CHUNK_SIZE);
      assert cl.State() == before;
      cl.AppendChunk(ck);
    }

    method Write(p: Bytes) returns (w: nat, ok: bool)
      requires cl.Valid() && |p| < 0x1_0000_0000
      modifies cl`offw, cl.Objects()
      ensures cl.Valid() && cl.chs == old(cl.chs)
      ensures (cl.State(), w) == ListWrite(old(cl.State()), p) && ok == (p != [] && w == |p|)
    {
      w, ok := cl.Write(p);
    }

    method Read(n: nat) returns (p: Bytes, ok: bool)
      requires cl.Valid() && n < 0x1_0000_0000
      modifies cl`offr, cl.Objects()
      ensures cl.Valid() && cl.chs == old(cl.chs)
      ensures (cl.State(), p) == ListRead(old(cl.State()), n) && ok == (n > 0 && |p| == n)
    {
      p, ok := cl.Read(n);
    }

    method WriteByte(c: byte) returns (ok: bool)
      requires cl.Valid()
      modifies cl`offw, cl.Objects()
      ensures cl.Valid() && cl.chs == old(cl.chs)
      ensures (cl.State(), if ok then 1 else 0) == ListWrite(old(cl.State()), [c])
    {
      ok := cl.WriteByte(c);
    }

    method ReadByte() returns (b: byte, ok: bool)
      requires cl.Valid()
      modifies cl`offr, cl.Objects()
      ensures cl.Valid() && cl.chs == old(cl.chs)
      ensures (cl.State(), if ok then [b] else []) == ListRead(old(cl.State()), 1)
    {
      b, ok := cl.ReadByte();
    }

    /** Put the header, compressed against prev, in the room before the payload, and leave
        this message's header in prev. False for a chunk stream id beyond 32. */
    method Prepare(prev: HeaderRef?) returns (ok: bool)
      requires cl.Valid() && (!ready && hdr.csid <= MAX_STREAMS ==> Headless(cl.State()))
      modifies this`ready, cl.Objects(), prev
      ensures cl.Valid() && cl.chs == old(cl.chs)
      ensures ok == (old(ready) || hdr.csid <= MAX_STREAMS) && ready == ok
      ensures old(ready) || !ok ==> cl.State() == old(cl.State()) && (prev != null ==> prev.h == old(prev.h))
      ensures !old(ready) && ok ==> cl.State() == Prepared(old(cl.State()), if prev == null then None else Some(old(prev.h)), hdr)
      ensures !old(ready) && ok && prev != null ==> prev.h == hdr.(mlen := Wrap(SizeFrom(old(cl.State()), old(cl.State()).offw)))
    {
      hide *;
      if ready {
        return true;
      }
      if hdr.csid > MAX_STREAMS {
        return false;
      }
      Head(prev);
      ready := true;
      return true;
    }

    method Head(prev: HeaderRef?)
      requires cl.Valid() && hdr.csid <= MAX_STREAMS && Headless(cl.State())
      modifies cl.Objects(), prev
      ensures cl.Valid() && cl.chs == old(cl.chs)
      ensures cl.State() == Prepared(old(cl.State()), if prev == null then None else Some(old(prev.h)), hdr)
      ensures prev != null ==> prev.h == hdr.(mlen := Wrap(SizeFrom(old(cl.State()), old(cl.State()).offw)))
    {
      hide Headless, ListOk, Prepared, ChunkList.Apart, SizeFrom, Wrap, FmtOf, SentTimestamp;
      var size := cl.Size();
      var fmt, timestamp := Compress(prev, size);
      ghost var before := if prev == null then None else Some(prev.h);
      if prev != null {
        prev.h := hdr.(mlen := size);
      }
      cl.WriteHeaders(hdr, before, fmt, timestamp, size);
    }

    method Compress(prev: HeaderRef?, size: uint32) returns (fmt: nat, timestamp: uint32)
      ensures var p := if prev == null then None else Some(prev.h);
              fmt == FmtOf(p, hdr, size) < 4 && timestamp == SentTimestamp(p, hdr, size)
    {
      fmt, timestamp := 0, hdr.timestamp;
      if prev != null && prev.h.csid > 0 && hdr.msid == prev.h.msid {
        fmt := fmt + 1;
        if hdr.typo == prev.h.typo && size > 0 && size == prev.h.mlen {
          fmt := fmt + 1;
          if hdr.timestamp == prev.h.timestamp {
            fmt := fmt + 1;
          }
        }
        timestamp := Wrap(hdr.timestamp - prev.h.timestamp);
      }
    }

    /** Send everything up to the chunk written last. */
    method Send(w: Writer) returns (ok: bool)
      requires cl.Valid() && Sendable(cl.State()) && w !in cl.Objects() && w as object != cl
      modifies cl`offs, cl.Objects(), w
      ensures cl.Valid() && cl.chs == old(cl.chs)
      ensures ok ==> SameButSent(old(cl.State()), cl.State()) && w.out == old(w.out) + SentFrom(old(cl.State()), old(cl.offs))
      ensures w.healthy ==> ok
    {
      ghost var before := cl.State();
      hide ListOk, Sendable, SentFrom, ChunkList.Apart;
      while cl.offs <= cl.offw
        invariant cl.Valid() && Sendable(cl.State()) && cl.chs == old(cl.chs)
        invariant SameButSent(before, cl.State())
        invariant w.out + SentFrom(cl.State(), cl.offs) == old(w.out) + SentFrom(before, before.offs)
        decreases cl.offw + 1 - cl.offs
      {
        ok := cl.SendNext(w);
        if !ok {
          return;
        }
      }
      SentEnd(cl.State(), w.out);
      return true;
    }
  }
}
