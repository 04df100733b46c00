/** conn.go and handshake.go: a connection, which reads messages, acknowledges what it has
    read, and opens with the handshake. */
module Conns {
  import opened ByteCodec
  import opened Results
  import opened RtmpWire
  import opened MessageStates
  import opened Chunks
  import opened Messages
  import opened Acks
  import Digests
  import Handshakes

  /** The acknowledgement of so many bytes, if one is due. */
  function AckBytes(ack: Option<uint32>): Bytes {
    match ack
    case None => []
    case Some(n) => Wire(Be(4, n), None, ZERO_HEADER.(csid := 2, typo := MESSAGE_ACK))
  }

  /** An acknowledgement on the wire is a message that carries the number. */
  lemma AckArrives(n: uint32, streams: seq<Stream>, chunkSize: uint32, rest: Bytes)
    requires |streams| == MAX_STREAMS && streams[2] == ZERO_STREAM && 4 <= chunkSize < CHUNK_SIZE_LIMIT
    ensures ParseMessage(streams, chunkSize, AckBytes(Some(n)) + rest)
         == Got(Header(0, 2, 0, 4, MESSAGE_ACK, 0), Be(4, n), rest)
    ensures FromBe(Be(4, n)) == n
  {
    hide ParseMessage, Wire;
    SentArrivesExactly(Be(4, n), None, ZERO_HEADER.(csid := 2, typo := MESSAGE_ACK), streams, chunkSize, rest);
    Widths();
    FromBeOfBe(4, n);
  }

  /** The table as it is made; nothing is ever written back to it. */
  function NewStreams(): (s: seq<Stream>)
    ensures |s| == MAX_STREAMS && forall i | 0 <= i < MAX_STREAMS :: s[i] == ZERO_STREAM
  {
    seq(MAX_STREAMS, _ => ZERO_STREAM)
  }

  class Conn {
    const env: Handshakes.Env
    const w: Writer

    /** What the other side will have sent before it closes, less what has been read. */
    var input: Bytes

    var state: nat
    var digest: Bytes
    var incomingEpoch: uint32

    var streams: seq<Stream>
    var chunkSize: uint32

    var ackWinSize: uint32
    var inBytes: uint32
    var inLastAck: uint32

    /** Every successful read and every new window so far. */
    ghost var events: seq<Event>
    /** All the input there ever was. */
    ghost const all: Bytes

    /** What has been read is what has been counted. */
    ghost predicate Valid()
      reads this`input, this`streams, this`inBytes, this`inLastAck, this`ackWinSize, this`events
    {
      && Handshakes.EnvOk(env)
      && Consumed(all, events, input)
      && streams == NewStreams()
      && CountValid()
    }

    ghost predicate CountValid()
      reads this`inBytes, this`inLastAck, this`ackWinSize, this`events
    {
      Run(events) && Acks.At(events, |events|) == Account()
    }

    function Account(): Acks.Account
      reads this`inBytes, this`inLastAck, this`ackWinSize
    {
      Acks.Account(inBytes, inLastAck, ackWinSize)
    }

    function Peer(): Handshakes.Peer
      reads this`state, this`digest, this`incomingEpoch
    {
      Handshakes.Peer(state, digest, incomingEpoch)
    }

    constructor (env: Handshakes.Env, input: Bytes, w: Writer, state: nat)
      requires Handshakes.EnvOk(env)
      ensures Valid() && this.env == env && this.w == w && this.input == input
      ensures Peer() == Handshakes.Peer(state, [], 0) && events == [] && chunkSize == 128
    {
      hide Run, Acks.At, Taken, NewStreams, Handshakes.EnvOk;
      this.env, this.input, this.w, this.state := env, input, w, state;
      all := input;
      digest, incomingEpoch := [], 0;
      streams, chunkSize := NewStreams(), 128;
      ackWinSize, inBytes, inLastAck := 0, 0, 0;
      events := [];
      new;
      NothingCounted(input);
    }

    /** The counters stand for what they should after anything a connection does. */
    lemma Counted()
      requires Valid()
      ensures inLastAck <= inBytes < RESET
      ensures inBytes == ReceivedBefore(events, |events|) && inLastAck == LatestAck(events, |events|)
    {
      CountersExact(events, |events|);
    }

    method SetWindow(size: uint32)
      requires Valid()
      modifies this`ackWinSize, this`events
      ensures Valid() && ackWinSize == size && events == old(events) + [Window(size)]
    {
      EventAdded(events, Window(size));
      ConsumedWindow(all, events, input, size);
      ackWinSize := size;
      events := events + [Window(size)];
    }

    method SetChunkSize(size: uint32)
      requires Valid()
      modifies this`chunkSize
      ensures Valid() && chunkSize == size
    {
      if chunkSize != size {
        chunkSize := size;
      }
    }

    // ---- Sending

    /** Allocate for p, write it, prepare without a previous header, send. */
    method SendMessage(hdr: Header, p: Bytes) returns (ok: bool)
      requires 2 <= hdr.csid <= MAX_STREAMS && |p| < 0x1_0000_0000
      modifies w
      ensures ok ==> w.out == old(w.out) + Wire(p, None, hdr)
      ensures w.healthy ==> ok
    {
      hide *;
      ExtendedEmpty(|p|);
      WireSteps(p, None, hdr);
      var msg := new Message(hdr);
      msg.Alloc(|p|);
      var n, _ := msg.Write(p);
      var prepared := msg.Prepare(null);
      ok := msg.Send(w);
    }

    method SendAck(n: uint32) returns (ok: bool)
      modifies w
      ensures ok ==> w.out == old(w.out) + AckBytes(Some(n))
      ensures w.healthy ==> ok
    {
      ok := SendMessage(ZERO_HEADER.(csid := 2, typo := MESSAGE_ACK), Be(4, n));
    }

    // ---- Receiving

    /** n bytes, counted and acknowledged. */
    method ReadFull(n: nat) returns (b: Bytes, ok: bool)
      requires Valid() && n <= LONGEST
      modifies this`input, this`inBytes, this`inLastAck, this`events, w
      ensures Valid() && ackWinSize == old(ackWinSize)
      ensures if |old(input)| < n then
                !ok && input == [] && events == old(events) && Account() == old(Account()) && w.out == old(w.out)
              else
                && b == old(input)[..n] && input == old(input)[n..] && events == old(events) + [Read(n)]
                && Account() == AfterRead(old(Account()), n).0
                && (ok ==> w.out == old(w.out) + AckBytes(AfterRead(old(Account()), n).1))
                && (w.healthy ==> ok)
      ensures if ok then Take(n, old(input)) == Done(b, input) else w.healthy ==> Take(n, old(input)).Fail?
    {
      hide Run, Acks.At, AfterRead, AckBytes, Consumed, CountValid, Wire;
      if |input| < n {
        ConsumedNone(all, events, input);
        input := [];
        return [], false;
      }
      ConsumedMore(all, events, input, n);
      b, input := input[..n], input[n..];
      ok := Count(n);
    }

    /** Count n bytes and acknowledge if the window is full. */
    method Count(n: nat) returns (ok: bool)
      requires CountValid() && n <= LONGEST
      modifies this`inBytes, this`inLastAck, this`events, w
      ensures CountValid() && ackWinSize == old(ackWinSize) && events == old(events) + [Read(n)]
      ensures Account() == AfterRead(old(Account()), n).0
      ensures ok ==> w.out == old(w.out) + AckBytes(AfterRead(old(Account()), n).1)
      ensures w.healthy ==> ok
    {
      hide Acks.At, Acks.Run, Wire, AckBytes, Wrap;
      EventAdded(events, Read(n));
      NoAck();
      events := events + [Read(n)];
      inBytes := Wrap(inBytes + n % 0x1_0000_0000);
      if inBytes >= RESET {
        inBytes := 0;
        inLastAck := 0;
      }
      if ackWinSize > 0 && Wrap(inBytes - inLastAck) >= ackWinSize {
        inLastAck := inBytes;
        ok := SendAck(inBytes);
        return;
      }
      return true;
    }

    method ReadBasicHeader() returns (h: Header, ok: bool)
      requires Valid()
      modifies this`input, this`inBytes, this`inLastAck, this`events, w
      ensures Valid() && ackWinSize == old(ackWinSize)
      ensures if ok then ParseBasic(old(input)) == Done(h, input) else w.healthy ==> ParseBasic(old(input)).Fail?
    {
      hide Valid, AfterRead, AckBytes, Account;
      h := ZERO_HEADER;
      var b: Bytes;
      b, ok := ReadFull(1);
      if !ok {
        return;
      }
      h := h.(fmt := b[0] / 64, csid := b[0] % 64);
      if h.csid == 0 {
        h := h.(csid := 64);
        b, ok := ReadFull(1);
        if !ok {
          return;
        }
        var c0: int := b[0];
        h := h.(csid := h.csid + c0);
      } else if h.csid == 1 {
        h := h.(csid := 64);
        b, ok := ReadFull(2);
        if !ok {
          return;
        }
        var c0: int, c1: int := b[0], b[1];
        h := h.(csid := h.csid + c0);
        h := h.(csid := h.csid + 256 * c1);
      }
    }

    /** What the format leaves out is left as it is. */
    method ReadChunkMessageHeader(hdr: Header) returns (h: Header, ok: bool)
      requires Valid()
      modifies this`input, this`inBytes, this`inLastAck, this`events, w
      ensures Valid() && ackWinSize == old(ackWinSize)
      ensures if ok then ParseMessageHeader(hdr, old(input)) == Done(h, input)
              else w.healthy ==> ParseMessageHeader(hdr, old(input)).Fail?
    {
      hide Valid, FromBe, AfterRead, AckBytes, Account;
      h := hdr;
      if h.fmt <= 2 {
        var b;
        b, ok := ReadFull(3);
        if !ok {
          return;
        }
        Three(b);
        h := h.(timestamp := FromBe(b));
        if h.fmt <= 1 {
          b, ok := ReadFull(4);
          if !ok {
            return;
          }
          Three(b[..3]);
          h := h.(mlen := FromBe(b[..3]));
          h := h.(typo := b[3]);
          if h.fmt == 0 {
            b, ok := ReadFull(4);
            if !ok {
              return;
            }
            Four(b);
            h := h.(msid := FromBe(b));
          }
        }
      }
      if h.timestamp == EXTENDED {
        var b;
        b, ok := ReadFull(4);
        if !ok {
          return;
        }
        Four(b);
        h := h.(timestamp := FromBe(b));
      }
      ok := true;
    }

    /** The next message, as one chunk. An index out of range is a panic. */
    method PumpMessage() returns (r: Outcome<Message>)
      requires Valid()
      modifies this`input, this`inBytes, this`inLastAck, this`events, w
      ensures Valid() && ackWinSize == old(ackWinSize)
      ensures Pumps(ParseMessage(streams, chunkSize, old(input)), r)
      ensures r.Ok? ==> fresh(r.value) && fresh(r.value.cl)
    {
      hide Valid, ParseBasic, ParseMessageHeader, Deliver, AfterRead, AckBytes, Account, ReceivedList;
      ValidStreams();
      var h, ok := ReadBasicHeader();
      if !ok || h.csid > MAX_STREAMS {
        return Error;
      }
      BasicLength(old(input));
      LengthBound(h, input);
      h, ok := ReadChunkMessageHeader(h);
      if !ok {
        return Error;
      }
      if h.csid >= |streams| {
        return Panic;
      }
      r := ReadBody(h);
    }

    /** What pumping made of input that parses as p. */
    ghost predicate Pumps(p: Pumped, r: Outcome<Message>)
      reads this, if r.Ok? then {r.value, r.value.cl} else {}, if r.Ok? then r.value.cl.Objects() else {}
    {
      match r
      case Ok(msg) =>
        && p.Got? && msg.hdr == p.hdr && input == p.rest
        && |p.payload| <= chunkSize && msg.cl.State() == ReceivedList(chunkSize, p.payload)
      case Error => w.healthy ==> p.Refused?
      case Panic => p.Panicked?
    }

    /** Merge the header into a copy of the stream's, read the payload, and make them a
        message. The stream itself stays as it was. */
    method ReadBody(h: Header) returns (r: Outcome<Message>)
      requires Valid() && h.csid < MAX_STREAMS && h.mlen < 0x100_0000
      modifies this`input, this`inBytes, this`inLastAck, this`events, w
      ensures Valid() && ackWinSize == old(ackWinSize)
      ensures Pumps(Deliver(streams[h.csid], h, chunkSize, old(input)), r)
      ensures r.Ok? ==> fresh(r.value) && fresh(r.value.cl)
    {
      hide Valid, ReceivedList, FromBe, Take, AfterRead, AckBytes, Account;
      ValidStreams();
      var stm := streams[h.csid];
      var hdr := MergeHeader(stm.hdr, h);
      var n := Min(Wrap(hdr.mlen - stm.len), chunkSize);
      if chunkSize >= CHUNK_SIZE_LIMIT {
        return Panic;
      }
      var b, ok := ReadFull(n);
      if !ok {
        TakeFails(n, old(input));
        return Error;
      }
      TakeGives(n, old(input));
      if hdr.mlen != Wrap(stm.len + n) || h.typo >= MESSAGE_MAX {
        return Error;
      }
      var msg := Wrapped(hdr, b);
      r := Ok(msg);
    }

    method MergeHeader(stored: Header, h: Header) returns (hdr: Header)
      ensures hdr == Merge(stored, h)
    {
      hdr := stored;
      if h.fmt > 0 {
        hdr := hdr.(timestamp := Wrap(hdr.timestamp + h.timestamp));
      } else {
        hdr := hdr.(timestamp := h.timestamp);
      }
      hdr := hdr.(fmt := h.fmt, csid := h.csid);
      if h.fmt <= 1 {
        hdr := hdr.(mlen := h.mlen, typo := h.typo);
        if h.fmt == 0 {
          hdr := hdr.(msid := h.msid);
        }
      }
    }

    lemma ValidStreams()
      requires Valid()
      ensures streams == NewStreams()
    {
    }

    /** A new message with p in a chunk of its own. */
    method Wrapped(hdr: Header, p: Bytes) returns (msg: Message)
      requires |p| <= chunkSize < CHUNK_SIZE_LIMIT
      ensures fresh(msg) && fresh(msg.cl) && msg.hdr == hdr
      ensures msg.cl.State() == ReceivedList(chunkSize, p)
    {
      var ck := new Chunk(chunkSize);
      ck.Put(ck.offr, p);
      msg := new Message(hdr);
      msg.cl.AppendChunk(ck);
      assert [] + [ck.State()] == [ReceivedChunk(chunkSize, p)];
    }

    // ---- Handshake

    method SendChallenge(version: Bytes, key: Bytes) returns (ok: bool)
      requires Handshakes.EnvOk(env) && |version| == 4
      modifies w
      ensures ok ==> w.out == old(w.out) + Handshakes.Challenge(env, version, key)
      ensures w.healthy ==> ok
    {
      var s01 := new byte[Digests.CHALLENGE_SIZE](_ => 0);
      var draft := Be(4, env.epoch) + version + env.filler;
      s01[0] := Handshakes.PROTO_VERSION;
      Digests.CopyAt(s01, 1, draft);
      assert s01[..1] == [Handshakes.PROTO_VERSION] && s01[1..] == draft;
      hide Digests.Signed, Be;
      Digests.WriteDigest(env.mac, s01, 1, key, 0);
      assert s01[..] == s01[..1] + s01[1..];
      ok := w.WriteAll(s01[..]);
    }

    method RecvChallenge(theirs: Bytes, ours: Bytes) returns (r: Outcome<()>)
      requires Valid()
      modifies this`input, this`inBytes, this`inLastAck, this`events, this`digest, this`incomingEpoch, w
      ensures Valid() && ackWinSize == old(ackWinSize) && state == old(state)
      ensures var a := Handshakes.Receive(env, old(Peer()), old(input), theirs, ours);
              match r
              case Ok(_) => a == Handshakes.Stepped(Handshakes.Next(Peer()), input, [], true)
                                && (ackWinSize == 0 ==> w.out == old(w.out))
              case Error => w.healthy ==> a.Waiting? || a.Failed?
              case Panic => a.Crashed?
    {
      hide Valid, AfterRead, AckBytes, FromBe, Digests.Find, Digests.MakeDigest;
      assert w.out + [] == w.out;
      SilentWithoutWindow(Account(), Digests.CHALLENGE_SIZE);
      var b, ok := ReadFull(Digests.CHALLENGE_SIZE);
      if !ok {
        TakeFails(Digests.CHALLENGE_SIZE, old(input));
        return Error;
      }
      TakeGives(Digests.CHALLENGE_SIZE, old(input));
      r := OnChallenge(b, theirs, ours);
    }

    method OnChallenge(b: Bytes, theirs: Bytes, ours: Bytes) returns (r: Outcome<()>)
      requires Valid() && |b| == Digests.CHALLENGE_SIZE
      modifies this`digest, this`incomingEpoch
      ensures Valid()
      ensures match Handshakes.OnChallenge(env.mac, old(Peer()), b, theirs, ours)
              case Accepted(p) => r.Ok? && p == Peer()
              case Rejected => r == Error
              case OutOfRange => r == Panic
    {
      hide Valid, FromBe, Digests.Find, Digests.MakeDigest;
      if b[0] != Handshakes.PROTO_VERSION {
        return Error;
      }
      incomingEpoch := Wrap(FromBe(b[1..5]));
      if FromBe(b[5..9]) == 0 {
        return Ok(());
      }
      var c01 := new byte[Digests.CHALLENGE_SIZE](_ => 0);
      Digests.CopyAt(c01, 0, b);
      assert c01[..] == b && c01[1..] == b[1..];
      var found, offs := Digests.FindDigest(env.mac, c01, 1, theirs, 772);
      if !found {
        found, offs := Digests.FindDigest(env.mac, c01, 1, theirs, 8);
      }
      if !found {
        return Error;
      }
      match Digests.MakeDigest(env.mac, c01[1 + offs..], ours, offs) {
        case None =>
          assert c01[1 + offs..] == b[1..][offs..];
          return Panic;
        case Some(d) =>
          assert c01[1 + offs..] == b[1..][offs..];
          digest := d;
          return Ok(());
      }
    }

    method SendResponse() returns (ok: bool)
      requires Handshakes.EnvOk(env)
      modifies w
      ensures ok ==> w.out == old(w.out) + Handshakes.Response(env, digest)
      ensures ok ==> Handshakes.Answers(env, digest, w.out[|old(w.out)|..])
      ensures w.healthy ==> ok
    {
      var s2 := new byte[Digests.RESPONSE_SIZE](_ => 0);
      Digests.CopyAt(s2, 0, env.answer);
      assert s2[..] == env.answer;
      var offs := Digests.RESPONSE_SIZE - Digests.DIGEST_LEN;
      var hs := env.mac(digest, s2[..offs] + s2[offs + Digests.DIGEST_LEN..]);
      assert s2[..offs] + s2[offs + Digests.DIGEST_LEN..] == env.answer[..offs];
      Digests.CopyAt(s2, offs, hs);
      assert s2[..] == Handshakes.Response(env, digest);
      Handshakes.ResponseAnswers(env, digest);
      ok := w.WriteAll(s2[..]);
    }

    method RecvResponse() returns (ok: bool)
      requires Valid()
      modifies this`input, this`inBytes, this`inLastAck, this`events, w
      ensures Valid() && ackWinSize == old(ackWinSize)
      ensures var a := Handshakes.ReceiveResponse(Peer(), old(input));
              if ok then a == Handshakes.Stepped(Handshakes.Next(Peer()), input, [], true)
                         && (ackWinSize == 0 ==> w.out == old(w.out))
              else w.healthy ==> a.Waiting?
    {
      hide Valid, AfterRead, AckBytes;
      assert w.out + [] == w.out;
      SilentWithoutWindow(Account(), Digests.RESPONSE_SIZE);
      var b;
      b, ok := ReadFull(Digests.RESPONSE_SIZE);
      TakeGives(Digests.RESPONSE_SIZE, old(input));
    }

    /** One turn of the state loop. */
    method Step() returns (r: Outcome<bool>)
      requires Valid() && state <= Handshakes.CLIENT_DONE
      modifies this, w
      ensures Valid() && ackWinSize == old(ackWinSize)
      ensures var a := Handshakes.Act(env, old(Peer()), old(input));
              match r
              case Ok(run) => && a.Stepped? && a.peer == Peer() && a.rest == input && a.run == run
                                && (ackWinSize == 0 ==> w.out == old(w.out) + a.out)
              case Error => w.healthy ==> a.Waiting? || a.Failed?
              case Panic => a.Crashed?
    {
      hide Valid, Handshakes.Receive, Handshakes.ReceiveResponse, Handshakes.Challenge, Handshakes.Response;
      ValidEnv();
      assert w.out + [] == w.out;
      var run, ok := true, true;
      if state == Handshakes.SERVER_RECV_CHALLENGE {
        var c := RecvChallenge(Handshakes.CLIENT_PARTIAL_KEY, Handshakes.SERVER_FULL_KEY);
        if c.Panic? {
          return Panic;
        }
        ok := c.Ok?;
      } else if state == Handshakes.SERVER_SEND_CHALLENGE {
        ok := SendChallenge(Handshakes.SERVER_VERSION, Handshakes.SERVER_PARTIAL_KEY);
      } else if state == Handshakes.SERVER_RECV_RESPONSE {
        ok := RecvResponse();
      } else if state == Handshakes.SERVER_SEND_RESPONSE {
        ok := SendResponse();
      } else if state == Handshakes.SERVER_DONE {
        run := false;
      } else if state == Handshakes.CLIENT_SEND_CHALLENGE {
        ok := SendChallenge(Handshakes.CLIENT_VERSION, Handshakes.CLIENT_PARTIAL_KEY);
      } else if state == Handshakes.CLIENT_RECV_CHALLENGE {
        var c := RecvChallenge(Handshakes.SERVER_PARTIAL_KEY, Handshakes.CLIENT_FULL_KEY);
        if c.Panic? {
          return Panic;
        }
        ok := c.Ok?;
      } else if state == Handshakes.CLIENT_SEND_RESPONSE {
        ok := SendResponse();
      } else if state == Handshakes.CLIENT_RECV_RESPONSE {
        ok := RecvResponse();
      } else {
        run := false;
      }
      if !ok {
        return Error;
      }
      state := state + 1;
      return Ok(run);
    }

    lemma ValidEnv()
      requires Valid()
      ensures Handshakes.EnvOk(env)
    {
    }

    /** The state loop, from the first state of either side to one past its last. */
    method Handshake() returns (r: Outcome<()>)
      requires Valid() && Handshakes.EnvOk(env) && state <= Handshakes.CLIENT_DONE
      modifies this, w
      ensures Valid() && ackWinSize == old(ackWinSize)
      ensures var shake := Handshakes.HandshakeOn(env, old(Peer()), old(input));
              match r
              case Ok(_) => && shake.Shaken? && shake.peer == Peer() && shake.rest == input
                                && (ackWinSize == 0 ==> w.out == old(w.out) + shake.out)
              case Error => w.healthy ==> shake.Broken?
              case Panic => shake.Ruined?
    {
      hide Valid, Handshakes.Act, Handshakes.HandshakeOn, Handshakes.EnvOk, Prepend;
      ghost var sent, result, before := [], Handshakes.HandshakeOn(env, Peer(), input), w.out;
      ShakeNothing(result);
      assert w.out + [] == w.out;
      var run := true;
      while run
        invariant Valid() && ackWinSize == old(ackWinSize)
        invariant run ==> state <= Handshakes.CLIENT_DONE
        invariant if run then result == Prepend(sent, Handshakes.HandshakeOn(env, Peer(), input))
                  else result == Handshakes.Shaken(Peer(), input, sent)
        invariant ackWinSize == 0 ==> w.out == before + sent
        decreases run, Handshakes.CLIENT_DONE - state
      {
        ghost var p, i := Peer(), input;
        var step := Step();
        ShakeStep(env, p, i, sent, result);
        if !step.Ok? {
          return if step.Error? then Error else Panic;
        }
        run := step.value;
        ghost var out := Handshakes.Act(env, p, i).out;
        Concat3(before, sent, out);
        sent := sent + out;
      }
      r := Ok(());
    }
  }

  /** Without a window reading acknowledges nothing. */
  lemma SilentWithoutWindow(a: Acks.Account, n: nat)
    ensures a.window == 0 ==> AckBytes(AfterRead(a, n).1) == []
  {
  }

  lemma TakeGives(n: nat, s: Bytes)
    ensures Take(n, s).Done? <==> |s| >= n
    ensures |s| >= n ==> Take(n, s) == Done(s[..n], s[n..])
  {
  }

  lemma TakeFails(n: nat, s: Bytes)
    ensures Take(n, s).Fail? <==> |s| < n
  {
  }

  /** A length on the wire has three bytes. */
  lemma LengthBound(h: Header, s: Bytes)
    requires h.mlen < 0x100_0000
    ensures var q := ParseMessageHeader(h, s);
            q.Done? ==> q.value.mlen < 0x100_0000 && q.value.csid == h.csid
  {
    hide ParseTimestamp, ParseStreamId, ParseExtended;
    OthersKeepLength(h, s);
    var p := ParseTimestamp(h, s);
    if p.Done? {
      LengthOnly(p.value, p.rest);
      var q := ParseLength(p.value, p.rest);
      if q.Done? {
        OthersKeepLength(q.value, q.rest);
        var r := ParseStreamId(q.value, q.rest);
        if r.Done? {
          OthersKeepLength(r.value, r.rest);
        }
      }
    }
  }

  lemma LengthOnly(h: Header, s: Bytes)
    requires h.mlen < 0x100_0000
    ensures var q := ParseLength(h, s);
            q.Done? ==> q.value.mlen < 0x100_0000 && q.value.csid == h.csid
  {
    if |s| >= 4 {
      Three(s[..4][..3]);
    }
  }

  lemma OthersKeepLength(h: Header, s: Bytes)
    ensures ParseTimestamp(h, s).Done? ==> ParseTimestamp(h, s).value.mlen == h.mlen && ParseTimestamp(h, s).value.csid == h.csid
    ensures ParseStreamId(h, s).Done? ==> ParseStreamId(h, s).value.mlen == h.mlen && ParseStreamId(h, s).value.csid == h.csid
    ensures ParseExtended(h, s).Done? ==> ParseExtended(h, s).value.mlen == h.mlen && ParseExtended(h, s).value.csid == h.csid
  {
    hide FromBe;
  }

  lemma BasicLength(s: Bytes)
    ensures ParseBasic(s).Done? ==> ParseBasic(s).value.mlen == 0
  {
  }

  function Taken(es: seq<Event>): nat {
    if es == [] then 0
    else Taken(es[..|es| - 1]) + if es[|es| - 1].Read? then es[|es| - 1].n else 0
  }

  lemma TakenAdded(es: seq<Event>, e: Event)
    ensures Taken(es + [e]) == Taken(es) + if e.Read? then e.n else 0
  {
    assert (es + [e])[..|es|] == es;
  }

  /** input is what is left of all after what es has taken, if anything is. */
  ghost predicate Consumed(all: Bytes, es: seq<Event>, input: Bytes) {
    Taken(es) + |input| <= |all| && (input != [] ==> input == all[Taken(es)..])
  }

  lemma ConsumedMore(all: Bytes, es: seq<Event>, input: Bytes, n: nat)
    requires Consumed(all, es, input) && n <= |input|
    ensures Consumed(all, es + [Read(n)], input[n..])
  {
    TakenAdded(es, Read(n));
    if input[n..] != [] {
      assert all[Taken(es)..][n..] == all[Taken(es) + n..];
    }
  }

  lemma ConsumedNone(all: Bytes, es: seq<Event>, input: Bytes)
    requires Consumed(all, es, input)
    ensures Consumed(all, es, [])
  {
  }

  lemma ConsumedWindow(all: Bytes, es: seq<Event>, input: Bytes, size: uint32)
    requires Consumed(all, es, input)
    ensures Consumed(all, es + [Window(size)], input)
  {
    TakenAdded(es, Window(size));
  }

  lemma Three(b: Bytes)
    requires |b| == 3
    ensures FromBe(b) < 0x100_0000
  {
    FromBeBound(b);
    Widths();
  }

  lemma Four(b: Bytes)
    requires |b| == 4
    ensures FromBe(b) < 0x1_0000_0000
  {
    FromBeBound(b);
    Widths();
  }

  /** What is sent before the rest of a handshake. */
  function Prepend(sent: Bytes, r: Handshakes.Shake): Handshakes.Shake {
    if r.Shaken? then r.(out := sent + r.out) else r
  }

  lemma ShakeNothing(r: Handshakes.Shake)
    ensures Prepend([], r) == r
  {
    if r.Shaken? {
      assert [] + r.out == r.out;
    }
  }

  lemma ShakeStep(e: Handshakes.Env, p: Handshakes.Peer, input: Bytes, sent: Bytes, result: Handshakes.Shake)
    requires Handshakes.EnvOk(e) && p.state <= Handshakes.CLIENT_DONE
    requires result == Prepend(sent, Handshakes.HandshakeOn(e, p, input))
    ensures var a := Handshakes.Act(e, p, input);
            && (a.Crashed? ==> result.Ruined?) && (a.Waiting? || a.Failed? ==> result.Broken?)
            && (a.Stepped? && !a.run ==> result == Handshakes.Shaken(a.peer, a.rest, sent + a.out))
            && (a.Stepped? && a.run ==>
                  && p.state < a.peer.state <= Handshakes.CLIENT_DONE
                  && result == Prepend(sent + a.out, Handshakes.HandshakeOn(e, a.peer, a.rest)))
  {
    hide Handshakes.Act, Handshakes.HandshakeOn;
    Handshakes.HandshakeStep(e, p, input);
    var a := Handshakes.Act(e, p, input);
    if a.Stepped? && a.run {
      var r := Handshakes.HandshakeOn(e, a.peer, a.rest);
      if r.Shaken? {
        Concat3(sent, a.out, r.out);
      }
    }
  }

  lemma NothingCounted(all: Bytes)
    ensures Run([]) && Acks.At([], 0) == Acks.START && Taken([]) == 0 && all[0..] == all
  {
  }

  lemma NoAck()
    ensures AckBytes(None) == []
  {
  }

  lemma {:induction false} AtPrefix(es: seq<Event>, e: Event, i: nat)
    requires i <= |es|
    ensures Acks.At(es + [e], i) == Acks.At(es, i)
  {
    if i > 0 {
      AtPrefix(es, e, i - 1);
    }
  }

  lemma EventAdded(es: seq<Event>, e: Event)
    requires Run(es) && (e.Read? ==> e.n <= LONGEST)
    ensures Run(es + [e])
    ensures Acks.At(es + [e], |es| + 1) == After(Acks.At(es, |es|), e).0
  {
    AtPrefix(es, e, |es|);
  }
}
