/** AMF commands: marshalled, sent as one message, received, and decoded. */
module Commands {
  import opened ByteCodec
  import opened Results
  import opened AmfValue
  import AmfEncode
  import AmfDecode
  import AmfRoundTrip
  import opened RtmpWire
  import opened ChunkStates
  import opened MessageStates
  import opened TypeGraph
  import opened TypedValues
  import opened TypedDecode
  import StructCodec

  /** The body of every command sent: one slice, marshalled in one call. */
  ghost function Body(vs: seq<Value>): Bytes {
    AmfEncode.Enc(Slice(vs))
  }

  /** What can be read of a received message: the payload, then the unused end of the
      chunk it was read into. */
  lemma ReceivedFlat(cs: nat, p: Bytes)
    requires |p| <= cs && 0 < cs < CHUNK_SIZE_LIMIT
    ensures ListOk(ReceivedList(cs, p)) && FlatOf(ReceivedList(cs, p)) == p + Zeros(cs - |p|)
  {
    var l := ReceivedList(cs, p);
    ChunkStates.FlatStep(l.cks, 1);
    assert Flat(l.cks, 0) == [] && FlatOf(l) == Payload(l.cks[0]);
    assert Payload(l.cks[0]) == p + Zeros(cs - |p|);
  }

  /** A short command, with room left in the receiver's chunk, arrives as one value: the
      first decode of the message gives the whole slice in normal form and leaves the
      room, which lets even a last empty string be read. */
  lemma CommandArrives(vs: seq<Value>, h: Header, streams: seq<Stream>, chunkSize: uint32, rest: Bytes)
    requires Encodable(Slice(vs)) && |Body(vs)| < SEND_CHUNK_SIZE && |Body(vs)| < chunkSize < CHUNK_SIZE_LIMIT
    requires 2 <= h.csid < MAX_STREAMS && h.typo < MESSAGE_MAX
    requires |streams| == MAX_STREAMS && streams[h.csid] == ZERO_STREAM
    ensures var r := ParseMessage(streams, chunkSize, Wire(Body(vs), None, h) + rest);
            && r.Got? && r.rest == rest && r.hdr.typo == h.typo && |r.payload| < chunkSize
            && var l := ReceivedList(chunkSize, r.payload);
               ListOk(l) && AmfDecode.ParseValue(FlatOf(l)[ReadPos(l)..])
                         == Done(Norm(Slice(vs)), Zeros(chunkSize - |Body(vs)|))
  {
    hide Wire, ParseMessage, AmfDecode.ParseValue, Encodable, Norm, FlatOf, ReadPos, ListOk, ReceivedList, Body;
    var p := Body(vs);
    SentArrivesExactly(p, None, h, streams, chunkSize, rest);
    ReceivedReads(chunkSize, p);
    ReceivedFlat(chunkSize, p);
    DecodesWhole(vs, Zeros(chunkSize - |p|));
    assert FlatOf(ReceivedList(chunkSize, p))[0..] == FlatOf(ReceivedList(chunkSize, p));
  }

  lemma DecodesWhole(vs: seq<Value>, room: Bytes)
    requires Encodable(Slice(vs)) && room != []
    ensures AmfDecode.ParseValue(Body(vs) + room) == Done(Norm(Slice(vs)), room)
  {
    AmfRoundTrip.RoundTrip(Slice(vs), room);
  }

  lemma BodyIsArray(vs: seq<Value>, room: Bytes)
    requires vs != []
    ensures Body(vs) + room == [STRICT_ARRAY_MARKER] + (Be(4, |vs|) + (AmfEncode.EncElems(Slice(vs), 0) + room))
  {
    hide Be;
    Concat4([STRICT_ARRAY_MARKER], Be(4, |vs|), AmfEncode.EncElems(Slice(vs), 0), room);
    Concat3(Be(4, |vs|), AmfEncode.EncElems(Slice(vs), 0), room);
  }

  /** No array gets into a string, whatever is in it: nothing is read but the count, the
      string keeps what it held, and an error is put aside, which decoding returns. */
  lemma ArrayPassedOver(ts: Types, t: TypeId, n: nat, items: Bytes, name: Bytes)
    requires TypesOk(ts) && KindOf(ts, t).StringKind? && n < 0x1_0000_0000
    ensures ReadInto(ts, To(t, Text(name)), [STRICT_ARRAY_MARKER] + (Be(4, n) + items), AmfDecode.NO_ERRORS)
         == Stored(To(t, Text(name)), items, AmfDecode.Errors(true, false))
  {
    hide TypesOk, ReadInto, Be;
    StructCodec.ReadStrict(ts, To(t, Text(name)), n, items, AmfDecode.NO_ERRORS);
  }

  /** Handling a command starts by decoding its name into a string, and no command with
      anything in it gets past that. */
  lemma NameNeverRead(ts: Types, t: TypeId, vs: seq<Value>, room: Bytes, name: Bytes)
    requires TypesOk(ts) && KindOf(ts, t).StringKind? && 0 < |vs| < 0x1_0000_0000
    ensures ReadInto(ts, To(t, Text(name)), Body(vs) + room, AmfDecode.NO_ERRORS)
         == Stored(To(t, Text(name)), AmfEncode.EncElems(Slice(vs), 0) + room, AmfDecode.Errors(true, false))
  {
    hide TypesOk, ReadInto, Be, Body;
    BodyIsArray(vs, room);
    ArrayPassedOver(ts, t, |vs|, AmfEncode.EncElems(Slice(vs), 0) + room, name);
  }

  /** Whatever the type of the variable that a command's first value is to be decoded into:
      it never gets there. An interface takes the whole slice; a variable of any type but a
      slice ends in an error. */
  lemma NeverValueByValue(ts: Types, t: TypeId, vs: seq<Value>, room: Bytes)
    requires TypesOk(ts) && Encodable(Slice(vs)) && vs != [] && room != []
    ensures var r := Unmarshalled(ts, t, Body(vs) + room);
            match KindOf(ts, t)
            case AnyKind => r == Ok(Any(Norm(Slice(vs)))) && r != Ok(Any(Norm(vs[0])))
            case SliceKind(_) => true
            case _ => r == Error
  {
    hide TypesOk, ReadInto, Be, AmfEncode.Enc, Encodable, Norm;
    if KindOf(ts, t).AnyKind? {
      StructCodec.RoundTripAny(ts, t, Slice(vs), room, AmfDecode.NO_ERRORS);
      NotItsOwnHead(vs);
    } else if !KindOf(ts, t).SliceKind? {
      ZeroShaped(ts, t);
      CountFits(vs);
      BodyIsArray(vs, room);
      StructCodec.ReadStrict(ts, To(t, ZeroOf(ts, t)), |vs|, AmfEncode.EncElems(Slice(vs), 0) + room, AmfDecode.NO_ERRORS);
    }
  }

  lemma CountFits(vs: seq<Value>)
    requires Encodable(Slice(vs))
    ensures |vs| < 0x1_0000_0000
  {
  }

  lemma NotItsOwnHead(vs: seq<Value>)
    requires vs != []
    ensures Norm(Slice(vs)) != Norm(vs[0])
  {
    var es := NormSeq(Slice(vs), 0);
    assert es[0] != Slice(es);
  }
}
