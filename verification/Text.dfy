/** The string operations the adaptors use on addresses, amounts and calldata:
    hex, decimal and hexadecimal integers, trimming and lower-casing. Letters and
    white space outside Latin-1 are not modelled. */
module Text {
  import opened Wrappers
  import opened Bytes

  // ----- digits

  const DIGITS: string := "0123456789abcdef"

  /** Value of a digit of any base up to sixteen, in either case; 16 for anything else. */
  function DigitValue(c: char): (v: nat)
    ensures v <= 16
  {
    if '0' <= c <= '9' then c as int - '0' as int
    else if 'a' <= c <= 'f' then c as int - 'a' as int + 10
    else if 'A' <= c <= 'F' then c as int - 'A' as int + 10
    else 16
  }

  function DigitChar(v: nat): (c: char)
    requires v < 16
    ensures DigitValue(c) == v && ToLowerChar(c) == c && !IsSpace(c) && c != '|' && c != 'x' && c != '+' && c != '-'
  {
    DIGITS[v]
  }

  predicate AllDigits(s: string, base: nat) {
    forall i | 0 <= i < |s| :: DigitValue(s[i]) < base
  }

  function Value(s: string, base: nat): nat {
    if s == [] then 0 else Value(s[..|s| - 1], base) * base + DigitValue(s[|s| - 1])
  }

  /** `big.Int.SetString`: an optional sign, then one or more digits of the base. */
  function ParseInt(s: string, base: nat): Option<int> {
    var digits := if s != [] && (s[0] == '-' || s[0] == '+') then s[1..] else s;
    if digits == [] || !AllDigits(digits, base) then None
    else if s[0] == '-' then Some(0 - Value(digits, base))
    else Some(Value(digits, base))
  }

  /** The shortest digits of a number. */
  function DigitsOf(n: nat, base: nat): (s: string)
    requires 2 <= base <= 16
    ensures s != []
  {
    if n < base then [DigitChar(n)] else DigitsOf(n / base, base) + [DigitChar(n % base)]
  }

  function IntString(n: int): string {
    if n < 0 then "-" + DigitsOf(-n, 10) else DigitsOf(n, 10)
  }

  predicate Plain(s: string) {
    forall i | 0 <= i < |s| :: DigitValue(s[i]) < 16 && ToLowerChar(s[i]) == s[i]
  }

  lemma {:induction false} DigitsPlain(n: nat, base: nat)
    requires 2 <= base <= 16
    ensures AllDigits(DigitsOf(n, base), base) && Plain(DigitsOf(n, base))
  {
    if n < base {
    } else {
      DigitsPlain(n / base, base);
    }
  }

  lemma {:induction false} DigitsRead(n: nat, base: nat)
    requires 2 <= base <= 16
    ensures Value(DigitsOf(n, base), base) == n
  {
    if n < base {
      ValueAppend([], DigitChar(n), base);
      assert [] + [DigitChar(n)] == DigitsOf(n, base);
    } else {
      DigitsRead(n / base, base);
      ValueAppend(DigitsOf(n / base, base), DigitChar(n % base), base);
      QuotientAndRest(n, base);
    }
  }

  lemma QuotientAndRest(n: nat, base: nat)
    requires base > 0
    ensures n / base * base + n % base == n
  {
  }

  lemma ValueAppend(s: string, c: char, base: nat)
    ensures Value(s + [c], base) == Value(s, base) * base + DigitValue(c)
  {
    assert (s + [c])[..|s|] == s;
  }

  lemma ParsePlain(s: string, base: nat)
    requires s != [] && AllDigits(s, base) && Plain(s)
    ensures ParseInt(s, base) == Some(Value(s, base))
  {
    assert DigitValue(s[0]) < 16;
  }

  /** Printing then parsing is the identity, and so printing is injective. */
  lemma IntStringRead(n: int)
    ensures ParseInt(IntString(n), 10) == Some(n)
  {
    var m: nat := if n < 0 then -n else n;
    DigitsRead(m, 10);
    DigitsPlain(m, 10);
    ParsePlain(DigitsOf(m, 10), 10);
    if n < 0 {
      assert IntString(n)[1..] == DigitsOf(m, 10);
    }
  }

  // ----- fixed-width hexadecimal numbers

  function Repeat(c: char, n: nat): (s: string)
    ensures |s| == n
  {
    seq(n, i => c)
  }

  lemma {:induction false} LeadingZeros(k: nat, s: string, base: nat)
    requires 2 <= base && AllDigits(s, base)
    ensures AllDigits(Repeat('0', k) + s, base) && Value(Repeat('0', k) + s, base) == Value(s, base)
    decreases |s|, k
  {
    var t := Repeat('0', k) + s;
    if s != [] {
      var head := s[..|s| - 1];
      LeadingZeros(k, head, base);
      assert t[..|t| - 1] == Repeat('0', k) + head;
    } else if k > 0 {
      LeadingZeros(k - 1, s, base);
      assert t[..|t| - 1] == Repeat('0', k - 1) + s;
    }
  }

  /** `%064x`: zero-padded hexadecimal, the sign taking one of the 64 places. */
  function Hex64(v: int): string {
    if v < 0 then "-" + ZeroPadded(DigitsOf(-v, 16), 63) else ZeroPadded(DigitsOf(v, 16), 64)
  }

  function ZeroPadded(digits: string, width: nat): string {
    if |digits| <= width then Repeat('0', width - |digits|) + digits else digits
  }

  /** Two digits a byte are enough. */
  lemma {:induction false} FewDigits(n: nat, w: nat)
    requires 1 <= w && n < Pow256(w)
    ensures |DigitsOf(n, 16)| <= 2 * w
  {
    if n < 256 {
      assert |DigitsOf(n / 16, 16)| == 1;
    } else {
      assert n / 16 / 16 == n / 256 && |DigitsOf(n, 16)| == |DigitsOf(n / 16 / 16, 16)| + 2;
      FewDigits(n / 256, w - 1);
    }
  }

  /** A 64-bit amount is written in exactly 64 characters and reads back as itself,
      sign included. */
  lemma Hex64Read(v: int)
    requires -(TWO64 as int) < v < TWO64
    ensures |Hex64(v)| == 64 && ParseInt(Hex64(v), 16) == Some(v)
    ensures v >= 0 ==> AllDigits(Hex64(v), 16)
  {
    if v < 0 {
      var padded := PaddedDigits(-v, 63);
      assert Hex64(v) == "-" + padded;
      assert Hex64(v)[1..] == padded;
    } else {
      var padded := PaddedDigits(v, 64);
      ParsePlain(padded, 16);
    }
  }

  lemma PaddedDigits(m: nat, width: nat) returns (padded: string)
    requires m < TWO64 && width >= 16
    ensures padded == ZeroPadded(DigitsOf(m, 16), width)
    ensures |padded| == width && AllDigits(padded, 16) && Plain(padded) && Value(padded, 16) == m
  {
    padded := ZeroPadded(DigitsOf(m, 16), width);
    PowValues();
    FewDigits(m, 8);
    DigitsRead(m, 16);
    DigitsPlain(m, 16);
    PaddingKeeps(DigitsOf(m, 16), width);
  }

  lemma PaddingKeeps(digits: string, width: nat)
    requires AllDigits(digits, 16) && Plain(digits) && |digits| <= width
    ensures var padded := ZeroPadded(digits, width);
            |padded| == width && AllDigits(padded, 16) && Plain(padded) && Value(padded, 16) == Value(digits, 16)
  {
    LeadingZeros(width - |digits|, digits, 16);
  }

  // ----- hex strings of bytes

  function HexOf(b: Bytes): (s: string)
    ensures |s| == 2 * |b|
  {
    if b == [] then []
    else HexOf(b[..|b| - 1]) + [DigitChar(b[|b| - 1] / 16), DigitChar(b[|b| - 1] % 16)]
  }

  /** What `hex.DecodeString` returns: the bytes decoded so far, and success. */
  datatype Decoded = Decoded(bytes: Bytes, ok: bool)

  function HexDecode(s: string): Decoded {
    if |s| < 2 then Decoded([], |s| == 0)
    else if DigitValue(s[0]) == 16 || DigitValue(s[1]) == 16 then Decoded([], false)
    else
      var rest := HexDecode(s[2..]);
      Decoded([16 * DigitValue(s[0]) + DigitValue(s[1])] + rest.bytes, rest.ok)
  }

  lemma HexAppend(b: Bytes, x: byte)
    ensures HexOf(b + [x]) == HexOf(b) + [DigitChar(x / 16), DigitChar(x % 16)]
  {
    assert (b + [x])[..|b|] == b;
  }

  lemma {:induction false} HexConcat(a: Bytes, b: Bytes)
    ensures HexOf(a + b) == HexOf(a) + HexOf(b)
  {
    if b == [] {
      assert a + b == a;
    } else {
      var head, x := b[..|b| - 1], b[|b| - 1];
      var digits := [DigitChar(x / 16), DigitChar(x % 16)];
      assert a + b == a + head + [x];
      HexConcat(a, head);
      HexAppend(a + head, x);
      assert HexOf(b) == HexOf(head) + digits;
      assert HexOf(a) + HexOf(head) + digits == HexOf(a) + (HexOf(head) + digits);
    }
  }

  /** Hex digits of a part of the bytes are a part of the hex digits. */
  lemma HexPart(x: Bytes, y: Bytes, z: Bytes)
    ensures HexOf(x + y + z)[2 * |x|..2 * |x| + 2 * |y|] == HexOf(y)
  {
    HexConcat(x, y);
    HexConcat(x + y, z);
    Middle(HexOf(x), HexOf(y), HexOf(z));
  }

  lemma Middle(x: string, y: string, z: string)
    ensures (x + y + z)[|x|..|x| + |y|] == y
  {
  }

  lemma HexByte(b: byte)
    ensures HexOf([b]) == [DigitChar(b / 16), DigitChar(b % 16)]
  {
    assert [b][..0] == [];
  }

  lemma {:induction false} HexDecodeOf(b: Bytes)
    ensures HexDecode(HexOf(b)) == Decoded(b, true)
  {
    if b == [] {
    } else {
      HexConcat(b[..1], b[1..]);
      assert b == b[..1] + b[1..] && b[..1] == [b[0]];
      HexByte(b[0]);
      HexDecodeOf(b[1..]);
      assert HexOf(b)[2..] == HexOf(b[1..]);
    }
  }

  lemma {:induction false} HexDigits(b: Bytes)
    ensures AllDigits(HexOf(b), 16) && Plain(HexOf(b))
  {
    if b == [] {
    } else {
      HexDigits(b[..|b| - 1]);
    }
  }

  /** Reading the hex of some bytes as a number reads the bytes as a number. */
  lemma {:induction false} HexValue(b: Bytes)
    ensures Value(HexOf(b), 16) == FromBigEndian(b)
  {
    if b == [] {
    } else {
      var s, head := HexOf(b), HexOf(b[..|b| - 1]);
      HexValue(b[..|b| - 1]);
      assert s[..|s| - 1] == head + [DigitChar(b[|b| - 1] / 16)];
      assert s[..|s| - 1][..|s| - 2] == head;
    }
  }

  lemma HexInjective(a: Bytes, b: Bytes)
    ensures HexOf(a) == HexOf(b) <==> a == b
  {
    HexDecodeOf(a);
    HexDecodeOf(b);
  }

  // ----- case, trimming, prefixes

  function ToLowerChar(c: char): char {
    if 'A' <= c <= 'Z' then (c as int + 32) as char else c
  }

  function ToLower(s: string): (r: string)
    ensures |r| == |s|
  {
    seq(|s|, i requires 0 <= i < |s| => ToLowerChar(s[i]))
  }

  predicate IsSpace(c: char) {
    c == ' ' || '\U{0009}' <= c <= '\U{000D}' || c == '\U{0085}' || c == '\U{00A0}'
  }

  function TrimLeft(s: string): string {
    if s != [] && IsSpace(s[0]) then TrimLeft(s[1..]) else s
  }

  function TrimRight(s: string): string {
    if s != [] && IsSpace(s[|s| - 1]) then TrimRight(s[..|s| - 1]) else s
  }

  function TrimSpace(s: string): string {
    TrimRight(TrimLeft(s))
  }

  predicate AllSpace(s: string) {
    forall i | 0 <= i < |s| :: IsSpace(s[i])
  }

  /** White space around a text is trimmed, and nothing else is. */
  lemma Trimmed(before: string, s: string, behind: string)
    requires AllSpace(before) && AllSpace(behind)
    requires s != [] && !IsSpace(s[0]) && !IsSpace(s[|s| - 1])
    ensures TrimSpace(before + s + behind) == s
  {
    assert before + s + behind == before + (s + behind);
    TrimmedLeft(before, s + behind);
    TrimmedRight(s, behind);
  }

  lemma {:induction false} TrimmedLeft(spaces: string, s: string)
    requires AllSpace(spaces)
    requires s != [] && !IsSpace(s[0])
    ensures TrimLeft(spaces + s) == s
  {
    if spaces == [] {
      assert spaces + s == s;
    } else {
      TrimmedLeft(spaces[1..], s);
      assert (spaces + s)[1..] == spaces[1..] + s;
    }
  }

  lemma {:induction false} TrimmedRight(s: string, spaces: string)
    requires AllSpace(spaces)
    requires s != [] && !IsSpace(s[|s| - 1])
    ensures TrimRight(s + spaces) == s
  {
    if spaces == [] {
      assert s + spaces == s;
    } else {
      var init := spaces[..|spaces| - 1];
      TrimmedRight(s, init);
      assert (s + spaces)[..|s + spaces| - 1] == s + init;
    }
  }

  function TrimPrefix(s: string, prefix: string): string {
    if prefix <= s then s[|prefix|..] else s
  }

  lemma PlainText(s: string)
    requires Plain(s)
    ensures ToLower(s) == s && TrimSpace(s) == s && TrimPrefix(s, "0x") == s
  {
    if |s| >= 2 { assert DigitValue(s[1]) < 16; }
  }
}
