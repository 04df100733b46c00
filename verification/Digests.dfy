/** handshake.go: digests hidden in random packets. The message authentication code is a
    parameter; nothing is assumed of it but its length. */
module Digests {
  import opened ByteCodec
  import opened Results

  const DIGEST_LEN := 32
  const CHALLENGE_SIZE := 1537
  const RESPONSE_SIZE := CHALLENGE_SIZE - 1
  /** Digests start at one of this many places. */
  const PLACES := 728
  /** The four bytes that choose the place, the places, and the digest at the last one. */
  const SPAN := 4 + PLACES - 1 + DIGEST_LEN

  type Digest = d: Bytes | |d| == DIGEST_LEN witness Zeros(DIGEST_LEN)

  /** From a key and a message. */
  type Mac = (Bytes, Bytes) -> Digest

  function Without(b: Bytes, offs: nat): Bytes
    requires offs + DIGEST_LEN <= |b|
  {
    b[..offs] + b[offs + DIGEST_LEN..]
  }

  /** The digest of b, leaving its place at offs out if that is not 0; none if the place is
      not inside b and slicing panics. */
  function MakeDigest(mac: Mac, b: Bytes, key: Bytes, offs: nat): Option<Digest> {
    if offs == 0 then Some(mac(key, b))
    else if offs + DIGEST_LEN > |b| then None
    else Some(mac(key, Without(b, offs)))
  }

  function Sum(b: Bytes): nat {
    if b == [] then 0 else Sum(b[..|b| - 1]) + b[|b| - 1]
  }

  /** The place chosen by the four bytes at base. */
  function Place(b: Bytes, base: nat): (offs: nat)
    requires base + SPAN <= |b|
    ensures base + 4 <= offs && offs + DIGEST_LEN <= base + SPAN
  {
    Sum(b[base..base + 4]) % PLACES + base + 4
  }

  /** In numbers. */
  lemma PlaceExactly(b: Bytes, base: nat)
    requires base + SPAN <= |b|
    ensures Place(b, base) == ((b[base] as int) + b[base + 1] + b[base + 2] + b[base + 3]) % 728 + base + 4
  {
    var q := b[base..base + 4];
    assert q[..3][..2] == q[..2] && q[..2][..1] == q[..1] && q[..1][..0] == [];
    assert Sum(q[..1]) == q[0] && Sum(q[..2]) == Sum(q[..1]) + q[1] && Sum(q[..3]) == Sum(q[..2]) + q[2];
  }

  function Find(mac: Mac, b: Bytes, key: Bytes, base: nat): (r: (bool, nat))
    requires base + SPAN <= |b|
    ensures base + 4 <= r.1 && r.1 + DIGEST_LEN <= base + SPAN
  {
    var offs := Place(b, base);
    (b[offs..offs + DIGEST_LEN] == mac(key, Without(b, offs)), offs)
  }

  /** b with its digest written in, at the place chosen by the four bytes at base + 8. */
  function Signed(mac: Mac, b: Bytes, key: Bytes, base: nat): (r: Bytes)
    requires base + 8 + SPAN <= |b|
    ensures |r| == |b|
  {
    var offs := Place(b, base + 8);
    Splice(b, offs, mac(key, Without(b, offs)))
  }

  /** What was written is found, at the same place. */
  lemma SignedFound(mac: Mac, b: Bytes, key: Bytes, base: nat)
    requires base + 8 + SPAN <= |b|
    ensures Find(mac, Signed(mac, b, key, base), key, base + 8) == (true, Place(b, base + 8))
  {
    var offs := Place(b, base + 8);
    var r := Signed(mac, b, key, base);
    assert r[base + 8..base + 12] == b[base + 8..base + 12];
    assert Without(r, offs) == Without(b, offs);
  }

  /** Signing changes nothing outside the digest. */
  lemma SignedElsewhere(mac: Mac, b: Bytes, key: Bytes, base: nat, k: nat)
    requires base + 8 + SPAN <= |b| && k < |b|
    ensures Signed(mac, b, key, base)[k] != b[k] ==> Place(b, base + 8) <= k < Place(b, base + 8) + DIGEST_LEN
    ensures k < base + 12 ==> Signed(mac, b, key, base)[k] == b[k]
  {
  }

  /** The digest of the answer is taken over what follows the place in the packet, leaving
      as much out again: there is room for that in the first half only. */
  lemma SecondDigestFits(mac: Mac, p: Bytes, key: Bytes, base: nat)
    requires |p| == RESPONSE_SIZE && base + SPAN <= |p|
    ensures var offs := Place(p, base);
            && (MakeDigest(mac, p[offs..], key, offs).Some? <==> 2 * offs + DIGEST_LEN <= |p|)
            && (base == 8 ==> MakeDigest(mac, p[offs..], key, offs).Some?)
            && (base == 772 ==> MakeDigest(mac, p[offs..], key, offs).None?)
  {
  }

  // ---- In place

  /** The sum of the four bytes at at. */
  method SumAt(b: array<byte>, at: nat) returns (sum: nat)
    requires at + 4 <= b.Length
    ensures sum == Sum(b[..][at..at + 4])
  {
    sum := 0;
    var n := 0;
    while n < 4
      invariant n <= 4 && sum == Sum(b[..][at..at + n])
    {
      assert b[..][at..at + (n + 1)][..n] == b[..][at..at + n];
      sum := sum + b[at + n];
      n := n + 1;
    }
  }

  /** The packet is what follows the first from bytes of a. */
  method FindDigest(mac: Mac, a: array<byte>, from: nat, key: Bytes, base: nat) returns (found: bool, offs: nat)
    requires from + base + SPAN <= a.Length
    ensures (found, offs) == Find(mac, a[from..], key, base)
  {
    ghost var s := a[..];
    var sum := SumAt(a, from + base);
    offs := sum % PLACES + base + 4;
    PacketParts(s, from, base, offs);
    hide Without, Sum;
    var hs := mac(key, a[from..from + offs] + a[from + offs + DIGEST_LEN..]);
    found := a[from + offs..from + offs + DIGEST_LEN] == hs;
  }

  /** The packet is what follows the first from bytes of a. */
  method WriteDigest(mac: Mac, a: array<byte>, from: nat, key: Bytes, base: nat)
    requires from + base + 8 + SPAN <= a.Length
    modifies a
    ensures a[..from] == old(a[..from]) && a[from..] == Signed(mac, old(a[from..]), key, base)
  {
    hide Splice, Without, Sum, Signed;
    ghost var s := a[..];
    var sum := SumAt(a, from + base + 8);
    var offs := sum % PLACES + base + 12;
    SignedAt(mac, s, from, key, base);
    var hs := mac(key, a[from..from + offs] + a[from + offs + DIGEST_LEN..]);
    CopyAt(a, from + offs, hs);
    assert a[..from] == a[..][..from] && a[from..] == a[..][from..];
  }

  /** Signing the packet in s. */
  lemma SignedAt(mac: Mac, s: Bytes, from: nat, key: Bytes, base: nat)
    requires from + base + 8 + SPAN <= |s|
    ensures var offs := Sum(s[from + base + 8..from + base + 8 + 4]) % PLACES + base + 12;
            && from + offs + DIGEST_LEN <= |s|
            && var r := Splice(s, from + offs, mac(key, s[from..from + offs] + s[from + offs + DIGEST_LEN..]));
               r[..from] == s[..from] && r[from..] == Signed(mac, s[from..], key, base)
  {
    hide Splice, Without, Sum;
    var offs := Sum(s[from + base + 8..from + base + 8 + 4]) % PLACES + base + 12;
    PacketParts(s, from, base + 8, offs);
    SpliceAfter(s, from, offs, mac(key, Without(s[from..], offs)));
  }

  /** The packet in s, and the same parts of it in the packet itself. */
  lemma PacketParts(s: Bytes, from: nat, base: nat, offs: nat)
    requires from + base + SPAN <= |s| && from + offs + DIGEST_LEN <= |s|
    ensures s[from + base..from + base + 4] == s[from..][base..base + 4]
    ensures s[from..from + offs] + s[from + offs + DIGEST_LEN..] == Without(s[from..], offs)
    ensures s[from + offs..from + offs + DIGEST_LEN] == s[from..][offs..offs + DIGEST_LEN]
  {
  }

  lemma SpliceAfter(s: Bytes, from: nat, offs: nat, d: Bytes)
    requires from + offs + |d| <= |s|
    ensures Splice(s, from + offs, d)[..from] == s[..from]
    ensures Splice(s, from + offs, d)[from..] == Splice(s[from..], offs, d)
  {
  }

  method CopyAt(a: array<byte>, at: nat, d: Bytes)
    requires at + |d| <= a.Length
    modifies a
    ensures a[..] == Splice(old(a[..]), at, d)
  {
    ghost var before := a[..];
    var n := 0;
    assert Splice(before, at, d[..0]) == before;
    hide Splice;
    while n < |d|
      invariant n <= |d| && a[..] == Splice(before, at, d[..n])
    {
      SpliceNext(before, at, d, n);
      a[at + n] := d[n];
      n := n + 1;
    }
    assert d[..n] == d;
  }
}
