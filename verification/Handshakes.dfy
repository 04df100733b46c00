/** handshake.go: the handshake (RTMP 1.0 specification, section 5.2, with digests) as two
    peers stepping over two byte channels. */
module Handshakes {
  import opened ByteCodec
  import opened Results
  import opened RtmpWire
  import opened Digests

  const PROTO_VERSION: byte := 3

  const KEY_TAIL: Bytes :=
    [240, 238, 194, 74, 128, 104, 190, 232, 46, 0, 208, 209, 2, 158, 126, 87,
     110, 236, 93, 45, 41, 128, 111, 171, 147, 184, 230, 54, 207, 235, 49, 174]

  /** Genuine Adobe Flash Media Server 001 */
  const SERVER_PARTIAL_KEY: Bytes :=
    [71, 101, 110, 117, 105, 110, 101, 32, 65, 100, 111, 98, 101, 32, 70, 108, 97, 115, 104, 32,
     77, 101, 100, 105, 97, 32, 83, 101, 114, 118, 101, 114, 32, 48, 48, 49]

  /** Genuine Adobe Flash Player 001 */
  const CLIENT_PARTIAL_KEY: Bytes :=
    [71, 101, 110, 117, 105, 110, 101, 32, 65, 100, 111, 98, 101, 32, 70, 108, 97, 115, 104, 32,
     80, 108, 97, 121, 101, 114, 32, 48, 48, 49]

  const SERVER_FULL_KEY: Bytes := SERVER_PARTIAL_KEY + KEY_TAIL
  const CLIENT_FULL_KEY: Bytes := CLIENT_PARTIAL_KEY + KEY_TAIL
  const SERVER_VERSION: Bytes := [0x0D, 0x0E, 0x0A, 0x0D]
  const CLIENT_VERSION: Bytes := [0x0C, 0x00, 0x0D, 0x0E]

  const SERVER_RECV_CHALLENGE := 0
  const SERVER_SEND_CHALLENGE := 1
  const SERVER_RECV_RESPONSE := 2
  const SERVER_SEND_RESPONSE := 3
  const SERVER_DONE := 4
  const CLIENT_SEND_CHALLENGE := 5
  const CLIENT_RECV_CHALLENGE := 6
  const CLIENT_SEND_RESPONSE := 7
  const CLIENT_RECV_RESPONSE := 8
  const CLIENT_DONE := 9

  /** What a peer does not decide: its code, its clock and its random bytes. */
  datatype Env = Env(mac: Mac, epoch: uint32, filler: Bytes, answer: Bytes)

  predicate EnvOk(e: Env) {
    |e.filler| == CHALLENGE_SIZE - 9 && |e.answer| == RESPONSE_SIZE
  }

  datatype Peer = Peer(state: nat, digest: Bytes, incomingEpoch: uint32)

  // ---- The packets

  /** The packet before its digest goes in. */
  function Draft(e: Env, version: Bytes): (p: Bytes)
    requires EnvOk(e) && |version| == 4
    ensures |p| == RESPONSE_SIZE
  {
    Be(4, e.epoch) + version + e.filler
  }

  function Challenge(e: Env, version: Bytes, key: Bytes): (p: Bytes)
    requires EnvOk(e) && |version| == 4
    ensures |p| == CHALLENGE_SIZE
  {
    [PROTO_VERSION] + Signed(e.mac, Draft(e, version), key, 0)
  }

  /** Random bytes that end in their digest. */
  function Response(e: Env, digest: Bytes): (p: Bytes)
    requires EnvOk(e)
    ensures |p| == RESPONSE_SIZE
  {
    var offs := RESPONSE_SIZE - DIGEST_LEN;
    e.answer[..offs] + e.mac(digest, e.answer[..offs])
  }

  datatype Reaction = Accepted(peer: Peer) | Rejected | OutOfRange

  /** recvChallenge on the bytes received. */
  function OnChallenge(mac: Mac, p: Peer, c: Bytes, theirs: Bytes, ours: Bytes): Reaction
    requires |c| == CHALLENGE_SIZE
  {
    if c[0] != PROTO_VERSION then Rejected else
    var q := p.(incomingEpoch := Wrap(FromBe(c[1..5])));
    if FromBe(c[5..9]) == 0 then Accepted(q) else
    var far, near := Find(mac, c[1..], theirs, 772), Find(mac, c[1..], theirs, 8);
    if !far.0 && !near.0 then Rejected else
    var offs := if far.0 then far.1 else near.1;
    match MakeDigest(mac, c[1..][offs..], ours, offs)
    case None => OutOfRange
    case Some(d) => Accepted(q.(digest := d))
  }

  /** A packet cannot be answered if and only if it carries a digest in its second half. */
  lemma FarDigestPanics(mac: Mac, p: Peer, c: Bytes, theirs: Bytes, ours: Bytes)
    requires |c| == CHALLENGE_SIZE && c[0] == PROTO_VERSION && FromBe(c[5..9]) != 0
    ensures OnChallenge(mac, p, c, theirs, ours).OutOfRange? <==> Find(mac, c[1..], theirs, 772).0
  {
    var far, near := Find(mac, c[1..], theirs, 772), Find(mac, c[1..], theirs, 8);
    SecondDigestFits(mac, c[1..], ours, 772);
    SecondDigestFits(mac, c[1..], ours, 8);
    hide Find, MakeDigest;
  }

  /** What the receiver of a challenge makes of it. */
  function Learned(e: Env, version: Bytes, key: Bytes, mac: Mac, p: Peer, ours: Bytes): Peer
    requires EnvOk(e) && |version| == 4
  {
    var c := Signed(e.mac, Draft(e, version), key, 0);
    var offs := Place(Draft(e, version), 8);
    Peer(p.state, mac(ours, Without(c[offs..], offs)), e.epoch)
  }

  lemma ChallengeFields(e: Env, version: Bytes, key: Bytes)
    requires EnvOk(e) && |version| == 4
    ensures var c := Challenge(e, version, key);
            c[0] == PROTO_VERSION && c[1..5] == Be(4, e.epoch) && c[5..9] == version
            && c[1..] == Signed(e.mac, Draft(e, version), key, 0)
  {
    var c := Challenge(e, version, key);
    var d := Draft(e, version);
    forall k | 0 <= k < 8 ensures c[1 + k] == d[k] {
      SignedElsewhere(e.mac, d, key, 0, k);
    }
    assert c[1..5] == d[..4] && c[5..9] == d[4..8];
  }

  /** No challenge signed at the second of the two places that a receiver looks at can be
      answered, whatever the code, the key and the rest of it. */
  lemma SecondPlaceUnanswered(e: Env, version: Bytes, key: Bytes, p: Peer, ours: Bytes)
    requires EnvOk(e) && |version| == 4 && FromBe(version) != 0
    ensures OnChallenge(e.mac, p, [PROTO_VERSION] + Signed(e.mac, Draft(e, version), key, 764), key, ours).OutOfRange?
  {
    hide OnChallenge, Signed, Find, FromBe;
    var d := Draft(e, version);
    var c := [PROTO_VERSION] + Signed(e.mac, d, key, 764);
    SignedFound(e.mac, d, key, 764);
    forall k | 4 <= k < 8 ensures c[1 + k] == d[k] {
      SignedElsewhere(e.mac, d, key, 764, k);
    }
    assert c[5..9] == d[4..8] == version;
    assert c[1..] == Signed(e.mac, d, key, 764);
    FarDigestPanics(e.mac, p, c, key, ours);
  }

  lemma NearAccepted(mac: Mac, p: Peer, c: Bytes, theirs: Bytes, ours: Bytes, offs: nat)
    requires |c| == CHALLENGE_SIZE && c[0] == PROTO_VERSION && FromBe(c[5..9]) != 0
    requires !Find(mac, c[1..], theirs, 772).0 && Find(mac, c[1..], theirs, 8) == (true, offs)
    ensures 2 * offs + DIGEST_LEN <= RESPONSE_SIZE
    ensures OnChallenge(mac, p, c, theirs, ours)
         == Accepted(p.(incomingEpoch := Wrap(FromBe(c[1..5])), digest := mac(ours, Without(c[1..][offs..], offs))))
  {
    hide Find, Without, FromBe, Wrap;
  }

  lemma EpochRead(epoch: uint32)
    ensures Wrap(FromBe(Be(4, epoch))) == epoch
  {
    Widths();
    FromBeOfBe(4, epoch);
  }

  /** A challenge made with the same code is accepted, with the digest of the packet,
      exactly if it does not happen to verify in its second half. */
  lemma ChallengeAccepted(e: Env, version: Bytes, key: Bytes, p: Peer, ours: Bytes)
    requires EnvOk(e) && |version| == 4 && FromBe(version) != 0
    ensures OnChallenge(e.mac, p, Challenge(e, version, key), key, ours) == Accepted(Learned(e, version, key, e.mac, p, ours))
       <==> !Find(e.mac, Challenge(e, version, key)[1..], key, 772).0
  {
    hide Challenge, Signed, Find, Draft, Without, OnChallenge, Place, Wrap, FromBe, Be;
    ChallengeFields(e, version, key);
    var c := Challenge(e, version, key);
    FarDigestPanics(e.mac, p, c, key, ours);
    if !Find(e.mac, c[1..], key, 772).0 {
      SignedFound(e.mac, Draft(e, version), key, 0);
      NearAccepted(e.mac, p, c, key, ours, Place(Draft(e, version), 8));
      EpochRead(e.epoch);
    }
  }

  /** Each full key is the partial one and 32 bytes that both share; the versions sent. */
  lemma Keys()
    ensures |SERVER_FULL_KEY| == 68 && SERVER_FULL_KEY[..36] == SERVER_PARTIAL_KEY
    ensures |CLIENT_FULL_KEY| == 62 && CLIENT_FULL_KEY[..30] == CLIENT_PARTIAL_KEY
    ensures SERVER_FULL_KEY[36..] == CLIENT_FULL_KEY[30..]
    ensures SERVER_VERSION == [13, 14, 10, 13] && CLIENT_VERSION == [12, 0, 13, 14]
  {
  }

  // ---- The packets in numbers

  /** Where the four bytes at base of a packet put its digest. */
  function At(b: Bytes, base: nat): (o: nat)
    requires base + 4 <= |b|
  {
    ((b[base] as int) + b[base + 1] + b[base + 2] + b[base + 3]) % 728 + base + 4
  }

  /** The 32 bytes at o are the code, under the key, of all the others. */
  predicate Verifies(mac: Mac, b: Bytes, key: Bytes, o: nat)
    requires o + 32 <= |b|
  {
    b[o..o + 32] == mac(key, b[..o] + b[o + 32..])
  }

  /** A challenge is version 3, epoch, version, and random bytes with the digest in them. */
  lemma ChallengeBytes(e: Env, version: Bytes, key: Bytes)
    requires EnvOk(e) && |version| == 4
    ensures var c := Challenge(e, version, key);
            var b := c[1..];
            var o := At(b, 8);
            && |c| == 1537 && o + 32 <= |b|
            && c[0] == 3
            && c[1..5] == [e.epoch / 16777216 % 256, e.epoch / 65536 % 256, e.epoch / 256 % 256, e.epoch % 256]
            && c[5..9] == version
            && Verifies(e.mac, b, key, o)
            && forall k | 8 <= k < 1536 && !(o <= k < o + 32) :: b[k] == e.filler[k - 8]
  {
    hide Challenge, Signed, Draft, Place, Be;
    var b := Signed(e.mac, Draft(e, version), key, 0);
    ChallengeFields(e, version, key);
    Be4(e.epoch);
    SignedFound(e.mac, Draft(e, version), key, 0);
    PlaceExactly(b, 8);
    DraftFiller(e, version);
    forall k | 8 <= k < 1536 && !(At(b, 8) <= k < At(b, 8) + 32) ensures b[k] == e.filler[k - 8] {
      SignedElsewhere(e.mac, Draft(e, version), key, 0, k);
    }
  }

  lemma DraftFiller(e: Env, version: Bytes)
    requires EnvOk(e) && |version| == 4
    ensures forall k | 8 <= k < 1536 :: Draft(e, version)[k] == e.filler[k - 8]
  {
  }

  /** What a challenge of any bytes leads to: not accepted unless it is version 3; accepted
      with nothing learned but the epoch if its version field is zero; else accepted exactly
      if it verifies at the near place only, which fixes the key of the answer. */
  lemma ReactionExactly(mac: Mac, p: Peer, c: Bytes, theirs: Bytes, ours: Bytes)
    requires |c| == CHALLENGE_SIZE
    ensures var r, b := OnChallenge(mac, p, c, theirs, ours), c[1..];
            var near, far := At(b, 8), At(b, 772);
            && near + 32 <= |b| && far + 32 <= |b|
            && (r.Accepted? <==> c[0] == 3 && (c[5..9] == [0, 0, 0, 0]
                                               || (Verifies(mac, b, theirs, near) && !Verifies(mac, b, theirs, far))))
            && (r.OutOfRange? <==> c[0] == 3 && c[5..9] != [0, 0, 0, 0] && Verifies(mac, b, theirs, far))
            && (r.Accepted? ==>
                  && 2 * near + 32 <= |b|
                  && r.peer == Peer(p.state,
                                    if c[5..9] == [0, 0, 0, 0] then p.digest else mac(ours, b[near..2 * near] + b[2 * near + 32..]),
                                    16777216 * (c[1] as int) + 65536 * (c[2] as int) + 256 * (c[3] as int) + c[4]))
  {
    var b := c[1..];
    FindExactly(mac, b, theirs, 8);
    FindExactly(mac, b, theirs, 772);
    ZeroField(c[5..9]);
    FromBeBytes(c[1..5]);
    EpochFits(c[1..5]);
    AnswerKeyFrom(mac, b, ours, At(b, 8));
    SecondDigestFits(mac, b, ours, 772);
    SecondDigestFits(mac, b, ours, 8);
    PlaceExactly(b, 8);
    PlaceExactly(b, 772);
    hide FromBe, Place, Find, MakeDigest, Verifies, At, Wrap;
  }

  lemma FindExactly(mac: Mac, b: Bytes, key: Bytes, base: nat)
    requires base + SPAN <= |b|
    ensures At(b, base) + 32 <= |b| && Find(mac, b, key, base) == (Verifies(mac, b, key, At(b, base)), At(b, base))
  {
    PlaceExactly(b, base);
    hide Place;
  }

  lemma EpochFits(b: Bytes)
    requires |b| == 4
    ensures Wrap(FromBe(b)) == FromBe(b)
  {
    FromBeBound(b);
    Widths();
  }

  lemma ZeroField(b: Bytes)
    requires |b| == 4
    ensures FromBe(b) == 0 <==> b == [0, 0, 0, 0]
  {
    FromBeBytes(b);
  }

  lemma AnswerKeyFrom(mac: Mac, b: Bytes, key: Bytes, o: nat)
    requires 0 < o && 2 * o + 32 <= |b|
    ensures MakeDigest(mac, b[o..], key, o) == Some(mac(key, b[o..2 * o] + b[2 * o + 32..]))
  {
    assert Without(b[o..], o) == b[o..2 * o] + b[2 * o + 32..];
  }

  /** An answer is random bytes and, at its end, their code under the digest as key. */
  ghost predicate Answers(e: Env, digest: Bytes, a: Bytes)
    requires EnvOk(e)
  {
    && |a| == 1536 && a[..1504] == e.answer[..1504]
    && a[1504..] == e.mac(digest, a[..1504])
  }

  lemma ResponseAnswers(e: Env, digest: Bytes)
    requires EnvOk(e)
    ensures Answers(e, digest, Response(e, digest))
  {
  }

  // ---- One step of the state loop

  /** Stepped says with run whether the loop goes on. */
  datatype Step = Stepped(peer: Peer, rest: Bytes, out: Bytes, run: bool) | Waiting | Failed | Crashed

  function Next(p: Peer): Peer {
    p.(state := p.state + 1)
  }

  function Receive(e: Env, p: Peer, input: Bytes, theirs: Bytes, ours: Bytes): Step {
    if |input| < CHALLENGE_SIZE then Waiting else
    match OnChallenge(e.mac, p, input[..CHALLENGE_SIZE], theirs, ours)
    case Accepted(q) => Stepped(Next(q), input[CHALLENGE_SIZE..], [], true)
    case Rejected => Failed
    case OutOfRange => Crashed
  }

  function ReceiveResponse(p: Peer, input: Bytes): Step {
    if |input| < RESPONSE_SIZE then Waiting else Stepped(Next(p), input[RESPONSE_SIZE..], [], true)
  }

  /** The input is what has arrived so far. */
  function Act(e: Env, p: Peer, input: Bytes): Step
    requires EnvOk(e)
  {
    if p.state == SERVER_RECV_CHALLENGE then Receive(e, p, input, CLIENT_PARTIAL_KEY, SERVER_FULL_KEY)
    else if p.state == SERVER_SEND_CHALLENGE then Stepped(Next(p), input, Challenge(e, SERVER_VERSION, SERVER_PARTIAL_KEY), true)
    else if p.state == SERVER_RECV_RESPONSE then ReceiveResponse(p, input)
    else if p.state == SERVER_SEND_RESPONSE then Stepped(Next(p), input, Response(e, p.digest), true)
    else if p.state == SERVER_DONE then Stepped(Next(p), input, [], false)
    else if p.state == CLIENT_SEND_CHALLENGE then Stepped(Next(p), input, Challenge(e, CLIENT_VERSION, CLIENT_PARTIAL_KEY), true)
    else if p.state == CLIENT_RECV_CHALLENGE then Receive(e, p, input, SERVER_PARTIAL_KEY, CLIENT_FULL_KEY)
    else if p.state == CLIENT_SEND_RESPONSE then Stepped(Next(p), input, Response(e, p.digest), true)
    else if p.state == CLIENT_RECV_RESPONSE then ReceiveResponse(p, input)
    else if p.state == CLIENT_DONE then Stepped(Next(p), input, [], false)
    else Stepped(Next(p), input, [], true)
  }

  /** The whole loop on what will ever arrive: waiting then means the end of the input. */
  datatype Shake = Shaken(peer: Peer, rest: Bytes, out: Bytes) | Broken | Ruined

  function HandshakeOn(e: Env, p: Peer, input: Bytes): Shake
    requires EnvOk(e) && p.state <= CLIENT_DONE
    decreases CLIENT_DONE - p.state
  {
    match Act(e, p, input)
    case Stepped(q, rest, out, run) =>
      if !run then Shaken(q, rest, out)
      else
        (match HandshakeOn(e, q, rest)
         case Shaken(q2, rest2, out2) => Shaken(q2, rest2, out + out2)
         case other => other)
    case Crashed => Ruined
    case _ => Broken
  }

  lemma HandshakeStep(e: Env, p: Peer, input: Bytes)
    requires EnvOk(e) && p.state <= CLIENT_DONE
    ensures var a := Act(e, p, input);
            && (a.Stepped? ==> a.peer.state == p.state + 1 && (a.run <==> p.state != SERVER_DONE && p.state != CLIENT_DONE))
            && HandshakeOn(e, p, input)
               == if a.Crashed? then Ruined else if !a.Stepped? then Broken
                  else if !a.run then Shaken(a.peer, a.rest, a.out)
                  else var r := HandshakeOn(e, a.peer, a.rest);
                       if r.Shaken? then r.(out := a.out + r.out) else r
  {
    hide Receive, ReceiveResponse, Challenge, Response;
    ReceiveNext(e, p, input, CLIENT_PARTIAL_KEY, SERVER_FULL_KEY);
    ReceiveNext(e, p, input, SERVER_PARTIAL_KEY, CLIENT_FULL_KEY);
  }

  lemma ReceiveNext(e: Env, p: Peer, input: Bytes, theirs: Bytes, ours: Bytes)
    ensures var a := Receive(e, p, input, theirs, ours);
            a.Stepped? ==> a.peer.state == p.state + 1 && a.run && |input| >= CHALLENGE_SIZE
                           && a.rest == input[CHALLENGE_SIZE..] && a.out == []
                           && OnChallenge(e.mac, p, input[..CHALLENGE_SIZE], theirs, ours) == Accepted(a.peer.(state := p.state))
    ensures var a := ReceiveResponse(p, input);
            (a.Stepped? <==> |input| >= RESPONSE_SIZE)
            && (a.Stepped? ==> a == Stepped(Next(p), input[RESPONSE_SIZE..], [], true))
  {
    hide Find, MakeDigest;
  }

  /** A finished server has read one challenge and one response, nothing more, and has
      written the same; its state is one past done, where a client starts. */
  lemma ServerHandshake(e: Env, input: Bytes)
    requires EnvOk(e)
    ensures var r := HandshakeOn(e, Peer(SERVER_RECV_CHALLENGE, [], 0), input);
            r.Shaken? ==>
              && |input| >= CHALLENGE_SIZE + RESPONSE_SIZE && r.rest == input[CHALLENGE_SIZE + RESPONSE_SIZE..]
              && r.out == Challenge(e, SERVER_VERSION, SERVER_PARTIAL_KEY) + Response(e, r.peer.digest)
              && r.peer.state == CLIENT_SEND_CHALLENGE
              && Answers(e, r.peer.digest, r.out[CHALLENGE_SIZE..])
              && OnChallenge(e.mac, Peer(SERVER_RECV_CHALLENGE, [], 0), input[..CHALLENGE_SIZE], CLIENT_PARTIAL_KEY, SERVER_FULL_KEY)
                 == Accepted(r.peer.(state := SERVER_RECV_CHALLENGE))
  {
    hide Receive, ReceiveResponse, Challenge, Response, HandshakeOn, OnChallenge, Answers;
    var p := Peer(SERVER_RECV_CHALLENGE, [], 0);
    HandshakeStep(e, p, input);
    ReceiveNext(e, p, input, CLIENT_PARTIAL_KEY, SERVER_FULL_KEY);
    var a := Act(e, p, input);
    if a.Stepped? {
      var t := input[CHALLENGE_SIZE..];
      ServerAnswers(e, a.peer, t);
      assert |t| >= RESPONSE_SIZE ==> t[RESPONSE_SIZE..] == input[CHALLENGE_SIZE + RESPONSE_SIZE..];
      var r := HandshakeOn(e, a.peer, t);
      assert r.Shaken? ==> [] + r.out == r.out;
      SecondPart(Challenge(e, SERVER_VERSION, SERVER_PARTIAL_KEY), Response(e, a.peer.digest));
      ResponseAnswers(e, a.peer.digest);
    }
  }

  lemma SecondPart(c: Bytes, r: Bytes)
    ensures (c + r)[|c|..] == r
  {
  }

  /** From its own challenge on. */
  lemma ServerAnswers(e: Env, p: Peer, t: Bytes)
    requires EnvOk(e) && p.state == SERVER_SEND_CHALLENGE
    ensures var r := HandshakeOn(e, p, t);
            r.Shaken? ==>
              && |t| >= RESPONSE_SIZE && r.rest == t[RESPONSE_SIZE..]
              && r.out == Challenge(e, SERVER_VERSION, SERVER_PARTIAL_KEY) + Response(e, p.digest)
              && r.peer == p.(state := CLIENT_SEND_CHALLENGE)
  {
    hide Receive, ReceiveResponse, Challenge, Response, HandshakeOn, OnChallenge, Answers;
    HandshakeStep(e, p, t);
    HandshakeStep(e, Next(p), t);
    ReceiveNext(e, Next(p), t, CLIENT_PARTIAL_KEY, SERVER_FULL_KEY);
    if |t| >= RESPONSE_SIZE {
      HandshakeStep(e, Next(Next(p)), t[RESPONSE_SIZE..]);
      HandshakeStep(e, Next(Next(Next(p))), t[RESPONSE_SIZE..]);
      Glued(Challenge(e, SERVER_VERSION, SERVER_PARTIAL_KEY), Response(e, p.digest));
    }
  }

  lemma Glued(c: Bytes, r: Bytes)
    ensures c + ([] + (r + [])) == c + r
  {
  }

  lemma ClientHandshake(e: Env, input: Bytes)
    requires EnvOk(e)
    ensures var r := HandshakeOn(e, Peer(CLIENT_SEND_CHALLENGE, [], 0), input);
            r.Shaken? ==>
              && |input| >= CHALLENGE_SIZE + RESPONSE_SIZE && r.rest == input[CHALLENGE_SIZE + RESPONSE_SIZE..]
              && r.out == Challenge(e, CLIENT_VERSION, CLIENT_PARTIAL_KEY) + Response(e, r.peer.digest)
              && r.peer.state == CLIENT_DONE + 1
              && Answers(e, r.peer.digest, r.out[CHALLENGE_SIZE..])
              && OnChallenge(e.mac, Peer(CLIENT_RECV_CHALLENGE, [], 0), input[..CHALLENGE_SIZE], SERVER_PARTIAL_KEY, CLIENT_FULL_KEY)
                 == Accepted(r.peer.(state := CLIENT_RECV_CHALLENGE))
  {
    hide Receive, ReceiveResponse, Challenge, Response, HandshakeOn, OnChallenge, Answers;
    var p := Peer(CLIENT_SEND_CHALLENGE, [], 0);
    HandshakeStep(e, p, input);
    HandshakeStep(e, Next(p), input);
    ReceiveNext(e, Next(p), input, SERVER_PARTIAL_KEY, CLIENT_FULL_KEY);
    var a := Act(e, Next(p), input);
    if a.Stepped? {
      var t := input[CHALLENGE_SIZE..];
      ClientAnswers(e, a.peer, t);
      assert |t| >= RESPONSE_SIZE ==> t[RESPONSE_SIZE..] == input[CHALLENGE_SIZE + RESPONSE_SIZE..];
      var r := HandshakeOn(e, a.peer, t);
      assert r.Shaken? ==> [] + r.out == r.out;
      SecondPart(Challenge(e, CLIENT_VERSION, CLIENT_PARTIAL_KEY), Response(e, a.peer.digest));
      ResponseAnswers(e, a.peer.digest);
    }
  }

  /** From its own response on. */
  lemma ClientAnswers(e: Env, p: Peer, t: Bytes)
    requires EnvOk(e) && p.state == CLIENT_SEND_RESPONSE
    ensures var r := HandshakeOn(e, p, t);
            r.Shaken? ==>
              && |t| >= RESPONSE_SIZE && r.rest == t[RESPONSE_SIZE..] && r.out == Response(e, p.digest)
              && r.peer == p.(state := CLIENT_DONE + 1)
  {
    hide Receive, ReceiveResponse, Challenge, Response, HandshakeOn, OnChallenge, Answers;
    HandshakeStep(e, p, t);
    HandshakeStep(e, Next(p), t);
    ReceiveNext(e, Next(p), t, SERVER_PARTIAL_KEY, CLIENT_FULL_KEY);
    if |t| >= RESPONSE_SIZE {
      HandshakeStep(e, Next(Next(p)), t[RESPONSE_SIZE..]);
      assert Response(e, p.digest) + ([] + []) == Response(e, p.digest);
    }
  }

  // ---- The composition

  datatype World = World(server: Peer, client: Peer, serverRuns: bool, clientRuns: bool, up: Bytes, down: Bytes)

  datatype Setup = Setup(server: Env, client: Env)

  const START := World(Peer(SERVER_RECV_CHALLENGE, [], 0), Peer(CLIENT_SEND_CHALLENGE, [], 0), true, true, [], [])

  /** Both compute the same code, and neither challenge happens to verify at the far place. */
  ghost predicate SetupOk(s: Setup) {
    && EnvOk(s.server) && EnvOk(s.client) && s.server.mac == s.client.mac
    && !Find(s.server.mac, ServerHello(s)[1..], SERVER_PARTIAL_KEY, 772).0
    && !Find(s.client.mac, ClientHello(s)[1..], CLIENT_PARTIAL_KEY, 772).0
  }

  function ServerHello(s: Setup): (c: Bytes)
    requires EnvOk(s.server)
    ensures |c| == CHALLENGE_SIZE
  {
    Challenge(s.server, SERVER_VERSION, SERVER_PARTIAL_KEY)
  }

  function ClientHello(s: Setup): (c: Bytes)
    requires EnvOk(s.client)
    ensures |c| == CHALLENGE_SIZE
  {
    Challenge(s.client, CLIENT_VERSION, CLIENT_PARTIAL_KEY)
  }

  datatype Turn = ServerTurn | ClientTurn

  /** What the peer whose turn it is does. */
  function TakeTurn(s: Setup, w: World, t: Turn): Step
    requires EnvOk(s.server) && EnvOk(s.client)
  {
    if t.ServerTurn? then (if w.serverRuns then Act(s.server, w.server, w.up) else Waiting)
    else (if w.clientRuns then Act(s.client, w.client, w.down) else Waiting)
  }

  /** The world after a turn that is not a wait. */
  ghost predicate Moves(s: Setup, w: World, t: Turn, w': World)
    requires EnvOk(s.server) && EnvOk(s.client)
  {
    match TakeTurn(s, w, t)
    case Stepped(p, rest, out, run) =>
      w' == if t.ServerTurn? then w.(server := p, serverRuns := run, up := rest, down := w.down + out)
            else w.(client := p, clientRuns := run, down := rest, up := w.up + out)
    case _ => false
  }

  // ---- Every reachable world

  /** What a peer knows after its first i steps. */
  function ServerAfter(s: Setup, i: nat): Peer
    requires EnvOk(s.server) && EnvOk(s.client)
  {
    if i == 0 then START.server
    else Learned(s.client, CLIENT_VERSION, CLIENT_PARTIAL_KEY, s.server.mac, START.server, SERVER_FULL_KEY).(state := i)
  }

  function ClientAfter(s: Setup, j: nat): Peer
    requires EnvOk(s.server) && EnvOk(s.client)
  {
    if j <= 1 then START.client.(state := CLIENT_SEND_CHALLENGE + j)
    else Learned(s.server, SERVER_VERSION, SERVER_PARTIAL_KEY, s.client.mac, START.client, CLIENT_FULL_KEY)
         .(state := CLIENT_SEND_CHALLENGE + j)
  }

  /** What the client has sent in j steps and the server has not read in i. */
  function Up(s: Setup, i: nat, j: nat): Bytes
    requires EnvOk(s.server) && EnvOk(s.client)
  {
    (if i < 1 <= j then ClientHello(s) else [])
    + (if i < 3 <= j then Response(s.client, ClientAfter(s, 2).digest) else [])
  }

  function Down(s: Setup, i: nat, j: nat): Bytes
    requires EnvOk(s.server) && EnvOk(s.client)
  {
    (if j < 2 <= i then ServerHello(s) else [])
    + (if j < 4 <= i then Response(s.server, ServerAfter(s, 1).digest) else [])
  }

  /** The server has done i steps and the client j, and neither is ahead of what it has
      been sent. */
  ghost predicate Reached(s: Setup, i: nat, j: nat, w: World)
    requires EnvOk(s.server) && EnvOk(s.client)
  {
    && i <= 5 && j <= 5
    && (i >= 1 ==> j >= 1) && (i >= 3 ==> j >= 3) && (j >= 2 ==> i >= 2) && (j >= 4 ==> i >= 4)
    && w == World(ServerAfter(s, i), ClientAfter(s, j), i < 5, j < 5, Up(s, i, j), Down(s, i, j))
  }

  lemma StartReached(s: Setup)
    requires EnvOk(s.server) && EnvOk(s.client)
    ensures Reached(s, 0, 0, START)
  {
  }

  lemma VersionsNonZero()
    ensures FromBe(SERVER_VERSION) != 0 && FromBe(CLIENT_VERSION) != 0
  {
    assert CLIENT_VERSION[..3] == [12, 0, 13] && SERVER_VERSION[..3] == [13, 14, 10];
  }

  lemma ReceiveHello(e: Env, p: Peer, from: Env, version: Bytes, theirs: Bytes, ours: Bytes)
    requires EnvOk(e) && EnvOk(from) && from.mac == e.mac && |version| == 4 && FromBe(version) != 0
    requires !Find(e.mac, Challenge(from, version, theirs)[1..], theirs, 772).0
    ensures Receive(e, p, Challenge(from, version, theirs) + [], theirs, ours)
         == Stepped(Next(Learned(from, version, theirs, e.mac, p, ours)), [], [], true)
  {
    hide Challenge, Find, Learned, OnChallenge, Signed, Draft;
    var c := Challenge(from, version, theirs);
    ChallengeAccepted(from, version, theirs, p, ours);
    assert (c + [])[..CHALLENGE_SIZE] == c && (c + [])[CHALLENGE_SIZE..] == [];
  }

  lemma ReceiveAnswer(p: Peer, r: Bytes)
    requires |r| == RESPONSE_SIZE
    ensures ReceiveResponse(p, [] + r) == Stepped(Next(p), [], [], true)
  {
  }

  /** In a reached world the server steps unless it waits for the client, and reaches the
      next world. */
  lemma ServerStep(s: Setup, i: nat, j: nat, w: World)
    requires SetupOk(s) && Reached(s, i, j, w) && i < 5
    ensures var a := Act(s.server, w.server, w.up);
            if (i == 0 && j < 1) || (i == 2 && j < 3) then a.Waiting?
            else a.Stepped? && Reached(s, i + 1, j, World(a.peer, w.client, a.run, w.clientRuns, a.rest, w.down + a.out))
  {
    hide Challenge, Find, Response, Receive, ReceiveResponse, Signed, Without, Place, Draft;
    if i == 0 {
      if j == 1 {
        VersionsNonZero();
        ReceiveHello(s.server, w.server, s.client, CLIENT_VERSION, CLIENT_PARTIAL_KEY, SERVER_FULL_KEY);
      } else {
        ShortWaits(s.server, w.server, w.up, CLIENT_PARTIAL_KEY, SERVER_FULL_KEY);
      }
    } else if i == 2 {
      if j == 3 {
        ReceiveAnswer(w.server, Response(s.client, ClientAfter(s, 2).digest));
      } else {
        ShortWaits(s.server, w.server, w.up, CLIENT_PARTIAL_KEY, SERVER_FULL_KEY);
      }
    }
  }

  lemma ShortWaits(e: Env, p: Peer, input: Bytes, theirs: Bytes, ours: Bytes)
    requires |input| < RESPONSE_SIZE
    ensures Receive(e, p, input, theirs, ours).Waiting? && ReceiveResponse(p, input).Waiting?
  {
  }

  lemma ClientStep(s: Setup, i: nat, j: nat, w: World)
    requires SetupOk(s) && Reached(s, i, j, w) && j < 5
    ensures var a := Act(s.client, w.client, w.down);
            if (j == 1 && i < 2) || (j == 3 && i < 4) then a.Waiting?
            else a.Stepped? && Reached(s, i, j + 1, World(w.server, a.peer, w.serverRuns, a.run, w.up + a.out, a.rest))
  {
    hide Challenge, Find, Response, Receive, ReceiveResponse, Signed, Without, Place, Draft;
    if j == 1 {
      if i == 2 {
        VersionsNonZero();
        ReceiveHello(s.client, w.client, s.server, SERVER_VERSION, SERVER_PARTIAL_KEY, CLIENT_FULL_KEY);
      } else {
        ShortWaits(s.client, w.client, w.down, SERVER_PARTIAL_KEY, CLIENT_FULL_KEY);
      }
    } else if j == 3 {
      if i == 4 || i == 5 {
        ReceiveAnswer(w.client, Response(s.server, ServerAfter(s, 1).digest));
      } else {
        ShortWaits(s.client, w.client, w.down, SERVER_PARTIAL_KEY, CLIENT_FULL_KEY);
      }
    }
  }

  // ---- Runs

  /** ws starts where both start, and ts[k] leads from ws[k] to the next. */
  ghost predicate Run(s: Setup, ts: seq<Turn>, ws: seq<World>)
    requires EnvOk(s.server) && EnvOk(s.client)
  {
    && |ws| == |ts| + 1 && ws[0] == START
    && forall k | 0 <= k < |ts| :: Moves(s, ws[k], ts[k], ws[k + 1])
  }

  function Count(ts: seq<Turn>, t: Turn, k: nat): nat
    requires k <= |ts|
  {
    if k == 0 then 0 else Count(ts, t, k - 1) + if ts[k - 1] == t then 1 else 0
  }

  lemma MoveReached(s: Setup, i: nat, j: nat, w: World, t: Turn, w': World)
    requires SetupOk(s) && Reached(s, i, j, w) && Moves(s, w, t, w')
    ensures if t.ServerTurn? then Reached(s, i + 1, j, w') else Reached(s, i, j + 1, w')
  {
    hide Act, Up, Down, ServerAfter, ClientAfter;
    if t.ServerTurn? {
      ServerStep(s, i, j, w);
    } else {
      ClientStep(s, i, j, w);
    }
  }

  /** In every interleaving each peer has done its own first steps, in order, and the
      channels hold exactly what was sent and not yet read. */
  lemma {:induction false} RunReached(s: Setup, ts: seq<Turn>, ws: seq<World>, k: nat)
    requires SetupOk(s) && Run(s, ts, ws) && k <= |ts|
    ensures Reached(s, Count(ts, ServerTurn, k), Count(ts, ClientTurn, k), ws[k])
  {
    hide Reached, Moves;
    if k == 0 {
      StartReached(s);
    } else {
      RunReached(s, ts, ws, k - 1);
      assert Moves(s, ws[k - 1], ts[k - 1], ws[k - 1 + 1]);
      MoveReached(s, Count(ts, ServerTurn, k - 1), Count(ts, ClientTurn, k - 1), ws[k - 1], ts[k - 1], ws[k]);
    }
  }

  /** No peer ever fails, and while one still runs some peer can move. */
  lemma NoDeadlock(s: Setup, ts: seq<Turn>, ws: seq<World>, k: nat)
    requires SetupOk(s) && Run(s, ts, ws) && k <= |ts|
    ensures forall t :: TakeTurn(s, ws[k], t).Stepped? || TakeTurn(s, ws[k], t).Waiting?
    ensures ws[k].serverRuns || ws[k].clientRuns ==> exists t :: TakeTurn(s, ws[k], t).Stepped?
  {
    hide Act, Up, Down, ServerAfter, ClientAfter;
    RunReached(s, ts, ws, k);
    var i, j := Count(ts, ServerTurn, k), Count(ts, ClientTurn, k);
    if i < 5 {
      ServerStep(s, i, j, ws[k]);
    }
    if j < 5 {
      ClientStep(s, i, j, ws[k]);
    }
    assert TakeTurn(s, ws[k], ServerTurn).Stepped? || TakeTurn(s, ws[k], ClientTurn).Stepped? || (i == 5 && j == 5);
  }

  lemma {:induction false} CountsAdd(ts: seq<Turn>, k: nat)
    requires k <= |ts|
    ensures Count(ts, ServerTurn, k) + Count(ts, ClientTurn, k) == k
  {
    if k > 0 {
      CountsAdd(ts, k - 1);
    }
  }

  /** Every interleaving ends after ten steps, and one that cannot go on has ended there:
      both peers are done, every byte sent has been read, and both know the other's epoch. */
  lemma EveryRunCompletes(s: Setup, ts: seq<Turn>, ws: seq<World>)
    requires SetupOk(s) && Run(s, ts, ws)
    ensures |ts| <= 10
    ensures (forall t :: !TakeTurn(s, ws[|ts|], t).Stepped?) ==> |ts| == 10
    ensures |ts| == 10 ==>
              var w := ws[10];
              && !w.serverRuns && !w.clientRuns && w.up == [] && w.down == []
              && w.server == ServerAfter(s, 5) && w.client == ClientAfter(s, 5)
              && w.server.incomingEpoch == s.client.epoch && w.client.incomingEpoch == s.server.epoch
              && w.server.digest == AnswerKey(s.server.mac, SERVER_FULL_KEY, ClientHello(s)[1..])
              && w.client.digest == AnswerKey(s.client.mac, CLIENT_FULL_KEY, ServerHello(s)[1..])
  {
    hide TakeTurn, Act, ServerAfter, ClientAfter, Moves, AnswerKey, Learned;
    DigestsLearned(s, 5, 5);
    RunReached(s, ts, ws, |ts|);
    CountsAdd(ts, |ts|);
    NoDeadlock(s, ts, ws, |ts|);
    Agreement(s);
  }

  /** The key of the answer to the packet b. */
  function AnswerKey(mac: Mac, ours: Bytes, b: Bytes): Digest
    requires |b| == 1536
  {
    var o := At(b, 8);
    mac(ours, b[o..2 * o] + b[2 * o + 32..])
  }

  lemma LearnedKey(e: Env, version: Bytes, key: Bytes, p: Peer, ours: Bytes)
    requires EnvOk(e) && |version| == 4
    ensures Learned(e, version, key, e.mac, p, ours).digest == AnswerKey(e.mac, ours, Challenge(e, version, key)[1..])
  {
    hide Draft, Signed;
    var c := Signed(e.mac, Draft(e, version), key, 0);
    SignedFound(e.mac, Draft(e, version), key, 0);
    PlaceExactly(c, 8);
    assert Challenge(e, version, key)[1..] == c;
    WithoutKey(c, At(c, 8));
    hide Place, Without;
  }

  lemma WithoutKey(b: Bytes, o: nat)
    requires 2 * o + 32 <= |b|
    ensures Without(b[o..], o) == b[o..2 * o] + b[2 * o + 32..]
  {
  }

  lemma DigestsLearned(s: Setup, i: nat, j: nat)
    requires SetupOk(s) && i >= 1 && j >= 2
    ensures ServerAfter(s, i).digest == AnswerKey(s.server.mac, SERVER_FULL_KEY, ClientHello(s)[1..])
    ensures ClientAfter(s, j).digest == AnswerKey(s.client.mac, CLIENT_FULL_KEY, ServerHello(s)[1..])
  {
    hide AnswerKey, Challenge, Learned;
    LearnedKey(s.client, CLIENT_VERSION, CLIENT_PARTIAL_KEY, START.server, SERVER_FULL_KEY);
    LearnedKey(s.server, SERVER_VERSION, SERVER_PARTIAL_KEY, START.client, CLIENT_FULL_KEY);
  }

  /** In every interleaving each peer's answer is random bytes with their code under the key
      that the other's challenge determines. */
  lemma AnswersVerify(s: Setup, ts: seq<Turn>, ws: seq<World>, k: nat)
    requires SetupOk(s) && Run(s, ts, ws) && k < |ts|
    ensures ts[k] == ServerTurn && Count(ts, ServerTurn, k) == 3 ==>
              && ws[k].down <= ws[k + 1].down
              && Answers(s.server, AnswerKey(s.server.mac, SERVER_FULL_KEY, ClientHello(s)[1..]), ws[k + 1].down[|ws[k].down|..])
    ensures ts[k] == ClientTurn && Count(ts, ClientTurn, k) == 2 ==>
              && ws[k].up <= ws[k + 1].up
              && Answers(s.client, AnswerKey(s.client.mac, CLIENT_FULL_KEY, ServerHello(s)[1..]), ws[k + 1].up[|ws[k].up|..])
  {
    hide AnswerKey, Answers, Response, Learned, Challenge, Up, Down;
    RunReached(s, ts, ws, k);
    assert Moves(s, ws[k], ts[k], ws[k + 1]);
    DigestsLearned(s, 3, 2);
    ResponseAnswers(s.server, ServerAfter(s, 3).digest);
    ResponseAnswers(s.client, ClientAfter(s, 2).digest);
    SecondPart(ws[k].down, Response(s.server, ServerAfter(s, 3).digest));
    SecondPart(ws[k].up, Response(s.client, ClientAfter(s, 2).digest));
  }

  /** What each side has told the other when both are done. */
  lemma Agreement(s: Setup)
    requires SetupOk(s)
    ensures ServerAfter(s, 5).incomingEpoch == s.client.epoch && ClientAfter(s, 5).incomingEpoch == s.server.epoch
    ensures ServerAfter(s, 5).state == CLIENT_SEND_CHALLENGE
  {
  }

  /** For every code: the key of the answer is taken over the packet from the found digest
      on, leaving 32 bytes out once more, which is never the found digest alone, as the
      comment on top of the source has it. The two keys are equal exactly if the code
      collides on these two messages of different lengths. */
  lemma AnswerKeyExactly(e: Env, version: Bytes, key: Bytes, p: Peer, ours: Bytes)
    requires EnvOk(e) && |version| == 4
    ensures var c := Signed(e.mac, Draft(e, version), key, 0);
            var offs := Place(Draft(e, version), 8);
            var m, d := Without(c[offs..], offs), c[offs..offs + DIGEST_LEN];
            && d == e.mac(key, Without(c, offs))
            && Learned(e, version, key, e.mac, p, ours).digest == e.mac(ours, m)
            && |m| == RESPONSE_SIZE - offs - DIGEST_LEN > DIGEST_LEN && m != d
            && (Learned(e, version, key, e.mac, p, ours).digest == e.mac(ours, d) <==> e.mac(ours, m) == e.mac(ours, d))
  {
    hide Draft, Signed, Find;
    SignedFound(e.mac, Draft(e, version), key, 0);
    FoundDigest(e.mac, Draft(e, version), key);
  }

  lemma FoundDigest(mac: Mac, b: Bytes, key: Bytes)
    requires |b| == RESPONSE_SIZE
    ensures var c, offs := Signed(mac, b, key, 0), Place(b, 8);
            c[offs..offs + DIGEST_LEN] == mac(key, Without(c, offs))
  {
    SignedFound(mac, b, key, 0);
  }

  function LengthMac(key: Bytes, message: Bytes): Digest {
    Be(DIGEST_LEN, |message|)
  }

  /** There are codes under which the two keys differ on every packet. */
  lemma AnswerKeyIsNotOverDigestAlone(e: Env, version: Bytes, key: Bytes, p: Peer, ours: Bytes)
    requires EnvOk(e) && |version| == 4 && e.mac == LengthMac
    ensures var c := Signed(e.mac, Draft(e, version), key, 0);
            var offs := Place(Draft(e, version), 8);
            Learned(e, version, key, e.mac, p, ours).digest != e.mac(ours, c[offs..offs + DIGEST_LEN])
  {
    hide Draft, Signed, Place, Be;
    AnswerKeyExactly(e, version, key, p, ours);
    LengthsTold(RESPONSE_SIZE - Place(Draft(e, version), 8) - DIGEST_LEN, DIGEST_LEN);
  }

  lemma LengthsTold(m: nat, n: nat)
    requires m < 0x1_0000_0000 && n < 0x1_0000_0000 && m != n
    ensures Be(DIGEST_LEN, m) != Be(DIGEST_LEN, n)
  {
    Widths();
    Pow256Grows(4, DIGEST_LEN);
    FromBeOfBe(DIGEST_LEN, m);
    FromBeOfBe(DIGEST_LEN, n);
  }

  lemma {:induction false} Pow256Grows(k: nat, n: nat)
    requires k <= n
    ensures Pow256(k) <= Pow256(n)
    decreases n
  {
    if k < n {
      Pow256Grows(k, n - 1);
    }
  }
}
