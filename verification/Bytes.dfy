/** Fixed-width big-endian words: the byte layout every EVM and ABI encoding in
    the repository is built from. */
module Bytes {

  type byte = b: nat | b < 256

  type Bytes = seq<byte>

  /** A 32-byte word: a hash, a `bytes32`, or a padded ABI value. */
  type Word = w: Bytes | |w| == 32 witness Zeros(32)

  /** A 20-byte account address. */
  type Address = a: Bytes | |a| == 20 witness Zeros(20)

  /** Stand-in for the hash function; nothing is assumed about it beyond its width. */
  type Keccak = Bytes -> Word

  /** The bytes of an ASCII string. */
  function Ascii(s: string): Bytes {
    seq(|s|, i requires 0 <= i < |s| => s[i] as int % 256)
  }

  const TWO64: nat := 0x1_0000_0000_0000_0000
  const TWO128: nat := 0x1_0000_0000_0000_0000_0000_0000_0000_0000
  const TWO256: nat :=
    0x1_0000_0000_0000_0000_0000_0000_0000_0000_0000_0000_0000_0000_0000_0000_0000_0000

  const ZERO_ADDRESS: Address := Zeros(20)

  function Zeros(n: nat): (r: Bytes)
    ensures |r| == n
  {
    seq(n, i => 0)
  }

  function Pow256(w: nat): (r: nat)
    ensures r > 0
  {
    if w == 0 then 1 else 256 * Pow256(w - 1)
  }

  /** The low `w` bytes of `n`, most significant first. */
  function BigEndian(n: nat, w: nat): (r: Bytes)
    ensures |r| == w
  {
    if w == 0 then [] else BigEndian(n / 256, w - 1) + [n % 256]
  }

  function FromBigEndian(s: Bytes): nat {
    if s == [] then 0 else 256 * FromBigEndian(s[..|s| - 1]) + s[|s| - 1]
  }

  /** Reading back what was written loses exactly what does not fit the width. */
  lemma {:induction false} ReadBack(n: nat, w: nat)
    ensures FromBigEndian(BigEndian(n, w)) == n % Pow256(w)
  {
    if w == 0 {
    } else {
      var q, p := n / 256, Pow256(w - 1);
      var s := BigEndian(n, w);
      assert s[..|s| - 1] == BigEndian(q, w - 1);
      ReadBack(q, w - 1);
      DivModStep(n, p);
    }
  }

  lemma DivModStep(n: nat, p: nat)
    requires p > 0
    ensures n % (256 * p) == 256 * ((n / 256) % p) + n % 256
  {
    var q := n / 256;
    var m, r := q / p, 256 * (q % p) + n % 256;
    assert n == (256 * p) * m + r by {
      assert q == p * m + q % p;
      assert 256 * (p * m) == (256 * p) * m;
    }
    assert 0 <= r < 256 * p by { assert q % p <= p - 1; }
    ModUnique(n, 256 * p, m, r);
  }

  /** The remainder is the only number below the divisor that leaves a multiple. */
  lemma ModUnique(n: nat, d: nat, q: nat, r: nat)
    requires d > 0 && r < d && n == d * q + r
    ensures n / d == q && n % d == r
  {
    var q', r' := n / d, n % d;
    assert n == d * q' + r';
    assert d * (q - q') == r' - r by { assert d * (q - q') == d * q - d * q'; }
    if q > q' {
      MulGrows(d, q - q');
      assert false;
    } else if q < q' {
      MulGrows(d, q' - q);
      assert false;
    }
  }

  lemma SmallRest(v: nat, p: nat)
    requires v < p
    ensures v % p == v
  {
  }

  lemma MulGrows(d: nat, m: nat)
    requires m >= 1
    ensures d * m >= d
  {
    assert d * m == d * (m - 1) + d;
  }

  lemma {:induction false} ReadBelow(s: Bytes)
    ensures FromBigEndian(s) < Pow256(|s|)
  {
    if s == [] {
    } else {
      ReadBelow(s[..|s| - 1]);
    }
  }

  lemma {:induction false} ReadIgnoresZeros(k: nat, b: Bytes)
    ensures FromBigEndian(Zeros(k) + b) == FromBigEndian(b)
    decreases |b|, k
  {
    var t := Zeros(k) + b;
    if b != [] {
      ReadIgnoresZeros(k, b[..|b| - 1]);
      assert t[..|t| - 1] == Zeros(k) + b[..|b| - 1];
    } else if k > 0 {
      ReadIgnoresZeros(k - 1, b);
      assert t[..|t| - 1] == Zeros(k - 1) + b;
    }
  }

  lemma {:induction false} WriteBack(s: Bytes)
    ensures BigEndian(FromBigEndian(s), |s|) == s
  {
    if s == [] {
    } else {
      var n := FromBigEndian(s);
      var head := s[..|s| - 1];
      assert n / 256 == FromBigEndian(head) && n % 256 == s[|s| - 1];
      WriteBack(head);
      assert s == head + [s[|s| - 1]];
    }
  }

  lemma {:induction false} PowAdd(v: nat, w: nat)
    ensures Pow256(v + w) == Pow256(v) * Pow256(w)
  {
    if v == 0 {
    } else {
      PowAdd(v - 1, w);
      assert Pow256(v + w) == 256 * Pow256(v - 1 + w);
      assert 256 * (Pow256(v - 1) * Pow256(w)) == (256 * Pow256(v - 1)) * Pow256(w);
    }
  }

  lemma PowValues()
    ensures Pow256(2) == 65536 && Pow256(8) == TWO64 && Pow256(16) == TWO128 && Pow256(32) == TWO256
  {
    assert Pow256(1) == 256 && Pow256(2) == 65536;
    PowAdd(2, 2);
    PowAdd(4, 4);
    PowAdd(8, 8);
    PowAdd(16, 16);
  }

  lemma ReadTwo(a: byte, b: byte)
    ensures FromBigEndian([a, b]) == 256 * a + b
  {
    assert [a, b][..1] == [a] && [a][..0] == [];
    assert FromBigEndian([a]) == a;
  }

  /** The last two bytes of a word are its value modulo 65536. */
  lemma LastTwoBytes(n: nat, w: nat)
    ensures BigEndian(n, w + 2)[w..] == [n / 256 % 256, n % 256]
    ensures FromBigEndian(BigEndian(n, w + 2)[w..]) == n % 65536
  {
    var q := n / 256;
    assert BigEndian(n, w + 2) == BigEndian(q, w + 1) + [n % 256];
    assert BigEndian(q, w + 1) == BigEndian(q / 256, w) + [q % 256];
    ReadTwo(q % 256, n % 256);
  }

  lemma Uint16ReadBack(n: nat)
    ensures FromBigEndian(BigEndian(n, 2)) == n % 65536
  {
    LastTwoBytes(n, 0);
    assert BigEndian(n, 2)[0..] == BigEndian(n, 2);
  }

  /** Writing a two-part number writes the two parts side by side. */
  lemma {:induction false} WriteParts(high: nat, low: nat, v: nat, w: nat)
    requires low < Pow256(w)
    ensures BigEndian(high * Pow256(w) + low, v + w) == BigEndian(high, v) + BigEndian(low, w)
  {
    if w == 0 {
      assert BigEndian(low, w) == [];
      assert high * Pow256(w) + low == high;
    } else {
      var p := Pow256(w - 1);
      var n := high * Pow256(w) + low;
      assert high * (256 * p) == 256 * (high * p);
      assert n / 256 == high * p + low / 256 && n % 256 == low % 256;
      assert low / 256 < p;
      WriteParts(high, low / 256, v, w - 1);
      assert BigEndian(n, v + w) == BigEndian(n / 256, v + w - 1) + [n % 256];
    }
  }

  /** A concatenation can be taken apart when the widths of the first parts agree. */
  lemma SplitConcat(a: Bytes, b: Bytes, c: Bytes, d: Bytes)
    requires a + b == c + d && |a| == |c|
    ensures a == c && b == d
  {
    assert a == (a + b)[..|a|] && c == (c + d)[..|c|];
    assert b == (a + b)[|a|..] && d == (c + d)[|c|..];
  }

  // ----- ABI words

  /** `abi.encode` of a uint256: values are reduced modulo 2^256. */
  function UintWord(n: nat): Word { BigEndian(n % TWO256, 32) }

  function AddressWord(a: Address): Word { Zeros(12) + a }

  lemma UintWordRead(n: nat)
    ensures FromBigEndian(UintWord(n)) == n % TWO256
  {
    var v, p := n % TWO256, Pow256(32);
    PowValues();
    ReadBack(v, 32);
    ModUnique(v, p, 0, v);
  }

  lemma UintWordTail(n: nat)
    ensures FromBigEndian(UintWord(n)[30..]) == n % 65536
  {
    var v := n % TWO256;
    LastTwoBytes(v, 30);
    ModUnique(n, 65536, TWO256 / 65536 * (n / TWO256) + v / 65536, v % 65536);
  }

  lemma UintWordInjective(m: nat, n: nat)
    ensures UintWord(m) == UintWord(n) <==> m % TWO256 == n % TWO256
  {
    UintWordRead(m);
    UintWordRead(n);
  }

  /** Static ABI tuples are their words one after the other. */
  function Flatten(ws: seq<Word>): (r: Bytes)
    ensures |r| == 32 * |ws|
  {
    if ws == [] then [] else ws[0] + Flatten(ws[1..])
  }

  lemma {:induction false} FlattenAt(ws: seq<Word>, i: nat)
    requires i < |ws|
    ensures Flatten(ws)[32 * i..32 * i + 32] == ws[i]
  {
    if i > 0 {
      FlattenAt(ws[1..], i - 1);
      assert Flatten(ws)[32..] == Flatten(ws[1..]);
      assert Flatten(ws)[32 * i..32 * i + 32] == Flatten(ws)[32..][32 * (i - 1)..32 * (i - 1) + 32];
    } else {
      assert Flatten(ws)[..32] == ws[0];
    }
  }
}
