/** Bytes and big-endian integers, as encoding/binary reads and writes them. */
module ByteCodec {
  type byte = x: int | 0 <= x < 256
  type Bytes = seq<byte>

  function Pow256(k: nat): (p: nat)
    ensures p > 0
  {
    if k == 0 then 1 else 256 * Pow256(k - 1)
  }

  /** The low k bytes of n, most significant first: what a conversion to a k-byte
      unsigned integer followed by a big-endian write puts out. */
  function Be(k: nat, n: nat): (b: Bytes)
    ensures |b| == k
  {
    if k == 0 then [] else Be(k - 1, n / 256) + [n % 256]
  }

  function FromBe(b: Bytes): nat {
    if b == [] then 0 else 256 * FromBe(b[..|b| - 1]) + b[|b| - 1]
  }

  lemma {:induction false} FromBeOfBe(k: nat, n: nat)
    requires n < Pow256(k)
    ensures FromBe(Be(k, n)) == n
  {
    if k > 0 {
      assert Be(k, n)[..k - 1] == Be(k - 1, n / 256);
      FromBeOfBe(k - 1, n / 256);
    }
  }

  /** A number too wide for k bytes loses its high part. */
  lemma {:induction false} BeModulo(k: nat, n: nat)
    ensures FromBe(Be(k, n)) == n % Pow256(k)
  {
    if k > 0 {
      assert Be(k, n)[..k - 1] == Be(k - 1, n / 256);
      BeModulo(k - 1, n / 256);
      ModStep(n, Pow256(k - 1));
    }
  }

  lemma ModStep(n: nat, p: nat)
    requires p > 0
    ensures 256 * ((n / 256) % p) + n % 256 == n % (256 * p)
  {
    var q, r := (n / 256) / p, 256 * ((n / 256) % p) + n % 256;
    assert n == (256 * p) * q + r by {
      assert n / 256 == p * q + (n / 256) % p;
    }
    assert 0 <= r < 256 * p;
    DivModUnique(n, 256 * p, q, r);
  }

  lemma DivModUnique(n: nat, d: nat, q: nat, r: nat)
    requires d > 0 && n == d * q + r && r < d
    ensures n % d == r
  {
    var k := q - n / d;
    assert d * k == n % d - r;
    assert k >= 1 ==> d * k >= d;
    assert k <= -1 ==> d * k + d <= 0;
  }

  lemma {:induction false} FromBeBound(b: Bytes)
    ensures FromBe(b) < Pow256(|b|)
  {
    if b != [] {
      FromBeBound(b[..|b| - 1]);
    }
  }

  lemma {:induction false} BeOfFromBe(b: Bytes)
    ensures Be(|b|, FromBe(b)) == b
  {
    if b != [] {
      BeOfFromBe(b[..|b| - 1]);
    }
  }

  lemma Widths()
    ensures Pow256(1) == 0x100 && Pow256(2) == 0x1_0000 && Pow256(3) == 0x100_0000
    ensures Pow256(4) == 0x1_0000_0000 && Pow256(8) == 0x1_0000_0000_0000_0000
  {
  }

  lemma BeFront(k: nat, n: nat)
    ensures Be(0, n) == [] && Be(k + 1, n) == Be(k, n / 256) + [n % 256]
  {
  }

  /** The most significant byte comes first. */
  lemma Be2(n: nat)
    ensures Be(2, n) == [n / 256 % 256, n % 256]
  {
    hide Be;
    BeFront(0, n / 256);
    BeFront(1, n);
  }

  lemma Be3(n: nat)
    ensures Be(3, n) == [n / 65536 % 256, n / 256 % 256, n % 256]
  {
    hide Be;
    assert n / 256 / 256 == n / 65536;
    Be2(n / 256);
    BeFront(2, n);
  }

  lemma Be4(n: nat)
    ensures Be(4, n) == [n / 16777216 % 256, n / 65536 % 256, n / 256 % 256, n % 256]
  {
    hide Be;
    assert n / 256 / 256 == n / 65536 && n / 256 / 65536 == n / 16777216;
    Be3(n / 256);
    BeFront(3, n);
  }

  lemma FromBeBytes(b: Bytes)
    ensures |b| == 2 ==> FromBe(b) == 256 * (b[0] as int) + b[1]
    ensures |b| == 3 ==> FromBe(b) == 65536 * (b[0] as int) + 256 * (b[1] as int) + b[2]
    ensures |b| == 4 ==> FromBe(b) == 16777216 * (b[0] as int) + 65536 * (b[1] as int) + 256 * (b[2] as int) + b[3]
  {
    if 2 <= |b| <= 4 {
      FromBeFront(b);
      FromBeFront(b[..|b| - 1]);
      if |b| >= 3 {
        FromBeFront(b[..|b| - 2]);
        assert b[..|b| - 1][..|b| - 2] == b[..|b| - 2];
      }
      if |b| == 4 {
        FromBeFront(b[..1]);
        assert b[..2][..1] == b[..1];
      }
      assert b[..|b| - 1][..1] == b[..1] && FromBe([]) == 0;
    }
  }

  lemma FromBeFront(b: Bytes)
    requires b != []
    ensures FromBe(b) == 256 * FromBe(b[..|b| - 1]) + b[|b| - 1]
  {
  }

  function Zeros(n: nat): (b: Bytes)
    ensures |b| == n
  {
    seq(n, _ => 0)
  }

  /** s with p written over it from position at on. */
  function Splice(s: Bytes, at: nat, p: Bytes): (r: Bytes)
    requires at + |p| <= |s|
    ensures |r| == |s|
  {
    s[..at] + p + s[at + |p|..]
  }

  lemma SpliceNext(s: Bytes, at: nat, d: Bytes, n: nat)
    requires at + |d| <= |s| && n < |d|
    ensures Splice(s, at, d[..n])[at + n := d[n]] == Splice(s, at, d[..n + 1])
  {
  }

  lemma SpliceSlice(s: Bytes, at: nat, d: Bytes, hi: nat)
    requires at + |d| <= hi <= |s|
    ensures Splice(s, at, d)[at..hi] == d + s[at + |d|..hi]
    ensures Splice(s, at, d)[at + |d|..] == s[at + |d|..]
  {
  }

  /** Lexicographic order, a proper prefix first: Go's < on strings, and the order of
      index sequences. */
  predicate Less(a: seq<int>, b: seq<int>) {
    b != [] && (a == [] || a[0] < b[0] || (a[0] == b[0] && Less(a[1..], b[1..])))
  }

  lemma {:induction false} LessAsymmetric(a: seq<int>, b: seq<int>)
    requires Less(a, b)
    ensures !Less(b, a)
  {
    if a != [] && a[0] == b[0] {
      LessAsymmetric(a[1..], b[1..]);
    }
  }

  lemma {:induction false} LessConnected(a: seq<int>, b: seq<int>)
    requires !Less(a, b) && !Less(b, a)
    ensures a == b
  {
    if a != [] && b != [] {
      LessConnected(a[1..], b[1..]);
    }
  }

  lemma {:induction false} LessTransitive(a: seq<int>, b: seq<int>, c: seq<int>)
    requires Less(a, b) && Less(b, c)
    ensures Less(a, c)
  {
    if a != [] && a[0] == b[0] == c[0] {
      LessTransitive(a[1..], b[1..], c[1..]);
    }
  }

  lemma Concat3(a: Bytes, b: Bytes, c: Bytes)
    ensures (a + b) + c == a + (b + c)
  {
  }

  lemma Concat4(a: Bytes, b: Bytes, c: Bytes, d: Bytes)
    ensures ((a + b) + c) + d == a + (b + c + d)
  {
  }
}
