/** Account addresses as text: parsing, checksummed printing, normalisation. */
module Addresses {
  import opened Bytes
  import opened Text

  /** Stand-in for the EIP-55 hash: which digits of an address print in upper case. */
  type CaseMask = (Address, nat) -> bool

  function UpperDigit(c: char): (r: char)
    ensures DigitValue(c) < 16 ==> DigitValue(r) == DigitValue(c) && (ToLowerChar(c) == c ==> ToLowerChar(r) == c)
  {
    if 'a' <= c <= 'f' then (c as int - 32) as char else c
  }

  function ChecksumChar(mask: CaseMask, a: Address, j: nat, c: char): char {
    if mask(a, j) then UpperDigit(c) else c
  }

  function Checksummed(mask: CaseMask, a: Address): (s: string)
    ensures |s| == 40
  {
    var digits := HexOf(a);
    seq(40, j requires 0 <= j < 40 => ChecksumChar(mask, a, j, digits[j]))
  }

  /** `Address.Hex()`. */
  function AddressHex(mask: CaseMask, a: Address): string {
    "0x" + Checksummed(mask, a)
  }

  function StripHexPrefix(s: string): string {
    if |s| >= 2 && s[0] == '0' && (s[1] == 'x' || s[1] == 'X') then s[2..] else s
  }

  /** `common.FromHex`: optional prefix, odd length padded, decoding up to the first bad digit. */
  function FromHex(s: string): Bytes {
    var t := StripHexPrefix(s);
    HexDecode(if |t| % 2 == 1 then "0" + t else t).bytes
  }

  /** `common.BytesToAddress`: the last twenty bytes, padded on the left. */
  function BytesToAddress(b: Bytes): Address {
    if |b| > 20 then b[|b| - 20..] else Zeros(20 - |b|) + b
  }

  function HexToAddress(s: string): Address {
    BytesToAddress(FromHex(s))
  }

  predicate IsHexAddress(s: string) {
    |StripHexPrefix(s)| == 40 && AllDigits(StripHexPrefix(s), 16)
  }

  function NormalizeAddress(mask: CaseMask, s: string): string {
    if s == "" then ""
    else if IsHexAddress(s) then ToLower(AddressHex(mask, HexToAddress(s)))
    else ToLower(s)
  }

  lemma NoHexPrefix(s: string)
    requires AllDigits(s, 16)
    ensures StripHexPrefix(s) == s
  {
  }

  lemma ChecksumDigits(mask: CaseMask, a: Address)
    ensures var s, t := Checksummed(mask, a), HexOf(a);
            forall j | 0 <= j < 40 ::
              DigitValue(s[j]) == DigitValue(t[j]) < 16 && ToLowerChar(s[j]) == t[j]
  {
    HexDigits(a);
    var s, t := Checksummed(mask, a), HexOf(a);
    forall j | 0 <= j < 40 ensures DigitValue(s[j]) == DigitValue(t[j]) < 16 && ToLowerChar(s[j]) == t[j] {
      assert s[j] == ChecksumChar(mask, a, j, t[j]);
      assert DigitValue(t[j]) < 16 && ToLowerChar(t[j]) == t[j];
    }
  }

  lemma LowerOfChecksummed(mask: CaseMask, a: Address)
    ensures ToLower(AddressHex(mask, a)) == "0x" + HexOf(a)
  {
    ChecksumDigits(mask, a);
    var s, t := ToLower(AddressHex(mask, a)), "0x" + HexOf(a);
    forall j | 0 <= j < |s| ensures s[j] == t[j] {
      if j >= 2 { assert AddressHex(mask, a)[j] == Checksummed(mask, a)[j - 2]; }
    }
  }

  /** Decoding looks at digit values only. */
  lemma {:induction false} DecodeIgnoresCase(s: string, t: string)
    requires |s| == |t| && forall i | 0 <= i < |s| :: DigitValue(s[i]) == DigitValue(t[i])
    ensures HexDecode(s) == HexDecode(t)
  {
    if |s| < 2 {
    } else {
      DecodeIgnoresCase(s[2..], t[2..]);
    }
  }

  /** An address printed in any capitalisation reads back as itself, and its normal
      form is the lower-case hex of its bytes. */
  lemma AddressReadBack(mask: CaseMask, a: Address)
    ensures IsHexAddress(AddressHex(mask, a)) && HexToAddress(AddressHex(mask, a)) == a
    ensures NormalizeAddress(mask, AddressHex(mask, a)) == "0x" + HexOf(a)
  {
    hide HexOf, HexDecode, FromHex, StripHexPrefix, Checksummed, BytesToAddress;
    LowerOfChecksummed(mask, a);
    ChecksumDigits(mask, a);
    PrefixStripped(Checksummed(mask, a));
    DecodeIgnoresCase(Checksummed(mask, a), HexOf(a));
    HexDecodeOf(a);
    FromEvenHex(AddressHex(mask, a));
    LastTwenty(a);
  }

  lemma LastTwenty(b: Bytes)
    requires |b| >= 20
    ensures BytesToAddress(b) == b[|b| - 20..]
  {
    if |b| == 20 { assert Zeros(0) + b == b; }
  }

  lemma FromEvenHex(s: string)
    requires |StripHexPrefix(s)| % 2 == 0
    ensures FromHex(s) == HexDecode(StripHexPrefix(s)).bytes
  {
  }

  lemma PrefixStripped(t: string)
    ensures StripHexPrefix("0x" + t) == t
  {
    assert ("0x" + t)[2..] == t;
  }

  lemma FromBareHex(b: Bytes)
    ensures FromHex(HexOf(b)) == b && FromHex("0x" + HexOf(b)) == b
  {
    hide HexOf, HexDecode, FromHex, StripHexPrefix;
    HexDigits(b);
    NoHexPrefix(HexOf(b));
    PrefixStripped(HexOf(b));
    HexDecodeOf(b);
    FromEvenHex(HexOf(b));
    FromEvenHex("0x" + HexOf(b));
  }

  lemma BareHexReadBack(b: Bytes)
    requires |b| >= 20
    ensures HexToAddress(HexOf(b)) == b[|b| - 20..] && HexToAddress("0x" + HexOf(b)) == b[|b| - 20..]
  {
    FromBareHex(b);
    LastTwenty(b);
  }

  /** Any two spellings of one address normalise alike; other text is lowered. */
  lemma NormalIsLowerHex(mask: CaseMask, s: string)
    ensures NormalizeAddress(mask, s) == if IsHexAddress(s) then "0x" + HexOf(HexToAddress(s)) else ToLower(s)
  {
    LowerOfChecksummed(mask, HexToAddress(s));
  }
}
