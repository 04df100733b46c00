/** amf/fold.go: names are equal under folding exactly when their folded forms are. */
module Fold {
  import opened ByteCodec

  const RUNE_SELF := 0x80
  const RUNE_ERROR := 0xFFFD
  const MAX_RUNE := 0x10FFFF

  /** A code point that UTF-8 can carry: not a surrogate half. */
  type Rune = r: int | 0 <= r <= 0x10FFFF && !(0xD800 <= r <= 0xDFFF)

  // ---- unicode/utf8

  function AppendRune(r: Rune): (b: Bytes)
    ensures b != []
  {
    var n: int := r;
    if n <= 0x7F then [n]
    else if n <= 0x7FF then [0xC0 + n / 64, 0x80 + n % 64]
    else if n <= 0xFFFF then [0xE0 + n / 4096, 0x80 + n / 64 % 64, 0x80 + n % 64]
    else [0xF0 + n / 262144, 0x80 + n / 4096 % 64, 0x80 + n / 64 % 64, 0x80 + n % 64]
  }

  predicate Tail(b: byte) {
    0x80 <= b <= 0xBF
  }

  /** The low bits of a byte after its marker. */
  function Bits(b: int, marker: int): int {
    b - marker
  }

  /** The second bytes that may follow a first byte. */
  predicate Accepts(b0: byte, b1: byte) {
    && Tail(b1)
    && (b0 == 0xE0 ==> 0xA0 <= b1) && (b0 == 0xED ==> b1 <= 0x9F)
    && (b0 == 0xF0 ==> 0x90 <= b1) && (b0 == 0xF4 ==> b1 <= 0x8F)
  }

  /** The first rune of s and its width; an error rune of width 1 where s is not UTF-8. */
  function DecodeRune(s: Bytes): (r: (Rune, nat))
    requires s != []
    ensures 1 <= r.1 <= |s|
  {
    var b0 := s[0];
    if b0 < RUNE_SELF then
      (b0, 1)
    else if 0xC2 <= b0 <= 0xDF && |s| >= 2 && Accepts(b0, s[1]) then
      (Bits(b0, 0xC0) * 64 + Bits(s[1], 0x80), 2)
    else if 0xE0 <= b0 <= 0xEF && |s| >= 3 && Accepts(b0, s[1]) && Tail(s[2]) then
      (Bits(b0, 0xE0) * 4096 + Bits(s[1], 0x80) * 64 + Bits(s[2], 0x80), 3)
    else if 0xF0 <= b0 <= 0xF4 && |s| >= 4 && Accepts(b0, s[1]) && Tail(s[2]) && Tail(s[3]) then
      (Bits(b0, 0xF0) * 262144 + Bits(s[1], 0x80) * 4096 + Bits(s[2], 0x80) * 64 + Bits(s[3], 0x80), 4)
    else
      (RUNE_ERROR, 1)
  }

  function Runes(s: Bytes): seq<Rune> {
    if s == [] then [] else [DecodeRune(s).0] + Runes(s[DecodeRune(s).1..])
  }

  function Encode(rs: seq<Rune>): Bytes {
    if rs == [] then [] else AppendRune(rs[0]) + Encode(rs[1..])
  }

  lemma Digits(n: nat)
    ensures n == n / 4096 * 4096 + n / 64 % 64 * 64 + n % 64
    ensures n / 4096 == n / 262144 * 64 + n / 4096 % 64
  {
    assert n / 4096 == n / 64 / 64 && n / 262144 == n / 4096 / 64;
  }

  lemma Decode2(r: Rune, t: Bytes)
    requires 0x80 <= r <= 0x7FF
    ensures DecodeRune(AppendRune(r) + t) == (r, 2)
  {
  }

  lemma Decode3(r: Rune, t: Bytes)
    requires 0x800 <= r <= 0xFFFF
    ensures DecodeRune(AppendRune(r) + t) == (r, 3)
  {
    Digits(r);
    var b0, b1: int := 0xE0 + r / 4096, 0x80 + r / 64 % 64;
    assert r / 4096 == 0 ==> r / 64 % 64 == r / 64 >= 32;
    assert r / 4096 == 13 ==> r / 64 % 64 == r / 64 - 832 <= 31;
    assert Accepts(b0, b1);
  }

  lemma Decode4(r: Rune, t: Bytes)
    requires 0x10000 <= r
    ensures DecodeRune(AppendRune(r) + t) == (r, 4)
  {
    Digits(r);
    var b0, b1: int := 0xF0 + r / 262144, 0x80 + r / 4096 % 64;
    assert r / 262144 == 0 ==> r / 4096 % 64 == r / 4096 >= 16;
    assert r / 262144 == 4 ==> r / 4096 % 64 == r / 4096 - 256 <= 15;
    assert Accepts(b0, b1);
  }

  /** UTF-8 is a prefix code: a rune is read back from whatever follows it. */
  lemma DecodeOfAppend(r: Rune, t: Bytes)
    ensures DecodeRune(AppendRune(r) + t) == (r, |AppendRune(r)|)
  {
    if 0x80 <= r <= 0x7FF {
      Decode2(r, t);
    } else if 0x800 <= r <= 0xFFFF {
      Decode3(r, t);
    } else if 0x10000 <= r {
      Decode4(r, t);
    }
  }

  /** Bytes that start no rune, and a rune of each length. */
  lemma Utf8Forms(b: byte, s: Bytes)
    requires 0x80 <= b < 0xC2 || 0xF5 <= b
    ensures DecodeRune([b] + s) == (0xFFFD, 1)
    ensures AppendRune(0x41) == [0x41] && AppendRune(0xE9) == [0xC3, 0xA9]
    ensures AppendRune(0x20AC) == [0xE2, 0x82, 0xAC] && AppendRune(0x1F600) == [0xF0, 0x9F, 0x98, 0x80]
  {
  }

  lemma {:induction false} RunesOfEncode(rs: seq<Rune>)
    ensures Runes(Encode(rs)) == rs
  {
    if rs != [] {
      var s, t := Encode(rs), Encode(rs[1..]);
      DecodeOfAppend(rs[0], t);
      assert s[|AppendRune(rs[0])|..] == t;
      RunesOfEncode(rs[1..]);
    }
  }

  // ---- unicode.SimpleFold, as a table of orbits

  /** Each rune's smallest equivalent; on ASCII that is the upper-case letter. */
  type Orbits = Rune -> Rune

  ghost predicate OrbitsOk(least: Orbits) {
    && (forall r: Rune :: least(r) <= r && least(least(r)) == least(r))
    && (forall c: Rune | c < RUNE_SELF :: least(c) == Upper(c))
  }

  function Upper(c: Rune): Rune {
    if 0x61 <= c <= 0x7A then c - 0x20 else c
  }

  predicate IsRune(c: int) {
    0 <= c <= MAX_RUNE && !(0xD800 <= c <= 0xDFFF)
  }

  /** n follows r in its orbit: nothing lies between, and after the largest comes the
      smallest. */
  ghost predicate FollowsInOrbit(least: Orbits, r: Rune, n: Rune) {
    if n > r then least(n) == least(r) && forall c: Rune | r < c < n :: least(c) != least(r)
    else n == least(r) && forall c: Rune | r < c :: least(c) != least(r)
  }

  /** The next larger rune of the orbit of r, from c on; at the top, the smallest. */
  function NextInOrbit(least: Orbits, r: Rune, c: nat): (n: Rune)
    requires OrbitsOk(least) && r < c
    requires forall d: Rune | r < d < c :: least(d) != least(r)
    ensures FollowsInOrbit(least, r, n)
    decreases MAX_RUNE + 1 - c
  {
    if c > MAX_RUNE then least(r)
    else if IsRune(c) && least(c) == least(r) then c
    else NextInOrbit(least, r, c + 1)
  }

  function SimpleFold(least: Orbits, r: Rune): (n: Rune)
    requires OrbitsOk(least)
    ensures FollowsInOrbit(least, r, n)
    ensures (n > r && least(n) == least(r)) || n == least(r)
  {
    NextInOrbit(least, r, r + 1)
  }

  /** foldRune walks the orbit to its top and returns the wrap-around. */
  method FoldRune(least: Orbits, r0: Rune) returns (m: Rune)
    requires OrbitsOk(least)
    ensures m == least(r0)
  {
    var r := r0;
    while true
      invariant least(r) == least(r0)
      decreases MAX_RUNE - r
    {
      var r2 := SimpleFold(least, r);
      if r2 <= r {
        return r2;
      }
      r := r2;
    }
  }

  function Map(least: Orbits, rs: seq<Rune>): (m: seq<Rune>)
    ensures |m| == |rs| && forall i | 0 <= i < |rs| :: m[i] == least(rs[i])
  {
    if rs == [] then [] else [least(rs[0])] + Map(least, rs[1..])
  }

  function FoldedName(least: Orbits, s: Bytes): Bytes {
    Encode(Map(least, Runes(s)))
  }

  /** The first i bytes of s are folded into out. */
  ghost predicate Folding(least: Orbits, s: Bytes, i: nat, out: Bytes) {
    i <= |s| && FoldedName(least, s) == out + FoldedName(least, s[i..])
  }

  lemma FoldingStep(least: Orbits, s: Bytes, i: nat, out: Bytes)
    requires i < |s| && Folding(least, s, i, out)
    ensures var d := DecodeRune(s[i..]); Folding(least, s, i + d.1, out + AppendRune(least(d.0)))
  {
    var d := DecodeRune(s[i..]);
    var t := s[i + d.1..];
    assert s[i..][d.1..] == t;
    assert Runes(s[i..])[1..] == Runes(t);
    Concat3(out, AppendRune(least(d.0)), FoldedName(least, t));
  }

  /** One iteration of appendFoldedName: ASCII is folded on its own. */
  method FoldNext(least: Orbits, s: Bytes, i: nat) returns (piece: Bytes, n: nat)
    requires OrbitsOk(least) && i < |s|
    ensures var d := DecodeRune(s[i..]); piece == AppendRune(least(d.0)) && n == d.1
  {
    if s[i] < RUNE_SELF {
      var c := s[i];
      if 0x61 <= c <= 0x7A {
        c := c - 0x20;
      }
      return [c], 1;
    }
    var d := DecodeRune(s[i..]);
    var m := FoldRune(least, d.0);
    return AppendRune(m), d.1;
  }

  method FoldName(least: Orbits, s: Bytes) returns (out: Bytes)
    requires OrbitsOk(least)
    ensures out == FoldedName(least, s)
  {
    out := [];
    var i := 0;
    assert s[0..] == s && s[|s|..] == [];
    while i < |s|
      invariant Folding(least, s, i, out)
    {
      FoldingStep(least, s, i, out);
      var piece, n := FoldNext(least, s, i);
      out, i := out + piece, i + n;
    }
  }

  // ---- bytes.EqualFold

  /** The loop of bytes.EqualFold on runes s < t, from r on: walk the orbit of s until it
      comes back to s or reaches t. */
  function Walk(least: Orbits, s: Rune, t: Rune, r: Rune): (m: Rune)
    requires OrbitsOk(least) && s < t && least(r) == least(s)
    decreases if r > s then 1 else 0, MAX_RUNE + 1 - r
  {
    if r != s && r < t then
      assert r < s ==> SimpleFold(least, r) <= s;
      Walk(least, s, t, SimpleFold(least, r))
    else r
  }

  /** Two runes are equal under folding if they are equal or the walk from the smaller one
      ends at the larger. */
  predicate RunesFold(least: Orbits, x: Rune, y: Rune)
    requires OrbitsOk(least)
  {
    || x == y
    || (x < y && Walk(least, x, y, SimpleFold(least, x)) == y)
    || (y < x && Walk(least, y, x, SimpleFold(least, y)) == x)
  }

  /** The walk stays in the orbit and does not jump over t. */
  lemma {:induction false} WalkFinds(least: Orbits, s: Rune, t: Rune, r: Rune)
    requires OrbitsOk(least) && s < t && least(r) == least(s)
    requires r > t || r <= s ==> least(t) != least(s)
    ensures Walk(least, s, t, r) == t <==> least(t) == least(s)
    decreases if r > s then 1 else 0, MAX_RUNE + 1 - r
  {
    if r != s && r < t {
      assert r < s ==> SimpleFold(least, r) <= s;
      WalkFinds(least, s, t, SimpleFold(least, r));
    }
  }

  /** Reaching one rune from the other is having the same smallest equivalent. */
  lemma RunesFoldIsOrbit(least: Orbits, x: Rune, y: Rune)
    requires OrbitsOk(least)
    ensures RunesFold(least, x, y) <==> least(x) == least(y)
  {
    if x < y {
      WalkFinds(least, x, y, SimpleFold(least, x));
    } else if y < x {
      WalkFinds(least, y, x, SimpleFold(least, y));
    }
  }

  /** bytes.EqualFold: rune by rune, each reached from the other by simple folding. */
  predicate EqualFold(least: Orbits, x: Bytes, y: Bytes)
    requires OrbitsOk(least)
  {
    if x == [] || y == [] then
      x == y
    else
      && RunesFold(least, DecodeRune(x).0, DecodeRune(y).0)
      && EqualFold(least, x[DecodeRune(x).1..], y[DecodeRune(y).1..])
  }

  lemma {:induction false} EqualFoldIsPairwise(least: Orbits, x: Bytes, y: Bytes)
    requires OrbitsOk(least)
    ensures EqualFold(least, x, y) <==> Map(least, Runes(x)) == Map(least, Runes(y))
  {
    hide RunesFold, OrbitsOk, DecodeRune;
    if x != [] && y != [] {
      var x', y' := x[DecodeRune(x).1..], y[DecodeRune(y).1..];
      RunesFoldIsOrbit(least, DecodeRune(x).0, DecodeRune(y).0);
      EqualFoldIsPairwise(least, x', y');
      assert Runes(x)[1..] == Runes(x') && Runes(y)[1..] == Runes(y');
      var a, b := Map(least, Runes(x)), Map(least, Runes(y));
      assert a == [a[0]] + Map(least, Runes(x')) && b == [b[0]] + Map(least, Runes(y'));
      assert a[1..] == Map(least, Runes(x')) && b[1..] == Map(least, Runes(y'));
    }
  }

  /** For all byte strings, UTF-8 or not: equal folded names are names equal under
      folding. */
  lemma FoldDecides(least: Orbits, x: Bytes, y: Bytes)
    requires OrbitsOk(least)
    ensures FoldedName(least, x) == FoldedName(least, y) <==> EqualFold(least, x, y)
  {
    EqualFoldIsPairwise(least, x, y);
    RunesOfEncode(Map(least, Runes(x)));
    RunesOfEncode(Map(least, Runes(y)));
  }
}
