/** ERC-20 transfer calldata: the encoder and the block indexer's decoder. */
module Erc20Codec {
  import opened Wrappers
  import opened Bytes
  import opened Text
  import opened Addresses

  const TRANSFER_METHOD: string := "a9059cbb"
  const TRANSFER_SELECTOR: Bytes := [0xa9, 0x05, 0x9c, 0xbb]
  const TRANSFER_SIGNATURE: string := "transfer(address,uint256)"

  /** `big.Int.Bytes`: no leading zeros, nothing at all for zero. */
  function MinBytes(n: nat): Bytes {
    if n == 0 then [] else MinBytes(n / 256) + [n % 256]
  }

  function LeftPad32(b: Bytes): Bytes {
    if |b| >= 32 then b else Zeros(32 - |b|) + b
  }

  function TransferCalldata(selector: Bytes, to: Address, amount: nat): Bytes {
    selector + AddressWord(to) + LeftPad32(MinBytes(amount))
  }

  method BuildErc20Data(k: Keccak, to: Address, amount: nat) returns (data: Bytes)
    ensures data == TransferCalldata(k(Ascii("transfer(address,uint256)"))[..4], to, amount)
  {
    data := [];
    var hash := k(Ascii(TRANSFER_SIGNATURE));
    var methodId := hash[..4];
    var dataAddress := LeftPad32(to);
    var dataAmount := LeftPad32(MinBytes(amount));
    data := data + methodId;
    data := data + dataAddress;
    data := data + dataAmount;
  }

  datatype Transfer = Transfer(to: string, amount: string)

  function ParseTransferData(mask: CaseMask, input: string): Result<Transfer> {
    var data := TrimPrefix(input, "0x");
    if |data| < 136 then Err("invalid ERC20 input length")
    else if data[..8] != TRANSFER_METHOD then Err("unsupported method")
    else
      var amount := ParseInt(data[72..136], 16);
      if amount.None? then Err("invalid ERC20 amount")
      else Ok(Transfer(AddressHex(mask, HexToAddress(data[32..72])), IntString(amount.value)))
  }

  // ----- round trip

  lemma {:induction false} MinBytesRead(n: nat)
    ensures FromBigEndian(MinBytes(n)) == n
    ensures n > 0 ==> Pow256(|MinBytes(n)| - 1) <= n
  {
    if n == 0 {
    } else {
      var q := n / 256;
      MinBytesRead(q);
      assert MinBytes(n)[..|MinBytes(n)| - 1] == MinBytes(q);
      if q == 0 { assert MinBytes(q) == []; }
    }
  }

  lemma {:induction false} PowMonotone(v: nat, w: nat)
    requires v <= w
    ensures Pow256(v) <= Pow256(w)
  {
    if v == w {
    } else {
      PowMonotone(v, w - 1);
    }
  }

  /** The amount field is one word, read back exactly, for 256-bit amounts; a larger
      amount overflows it and what the decoder reads is smaller. */
  lemma AmountField(n: nat)
    ensures var p := LeftPad32(MinBytes(n));
            |p| >= 32 && (FromBigEndian(p[..32]) == n <==> n < TWO256)
  {
    var m := MinBytes(n);
    var p := LeftPad32(m);
    MinBytesRead(n);
    PowValues();
    if n < TWO256 {
      if |m| > 32 { PowMonotone(32, |m| - 1); }
      ReadIgnoresZeros(32 - |m|, m);
      assert p[..32] == Zeros(32 - |m|) + m;
    } else {
      ReadBelow(p[..32]);
    }
  }

  lemma SelectorHex()
    ensures HexOf(TRANSFER_SELECTOR) == TRANSFER_METHOD
  {
    HexPair(0xa9, 0x05);
    HexPair(0x9c, 0xbb);
    HexConcat([0xa9, 0x05], [0x9c, 0xbb]);
    assert TRANSFER_SELECTOR == [0xa9, 0x05] + [0x9c, 0xbb];
    assert DigitChar(10) == 'a' && DigitChar(9) == '9' && DigitChar(0) == '0' && DigitChar(5) == '5';
    assert DigitChar(12) == 'c' && DigitChar(11) == 'b';
  }

  lemma HexPair(a: byte, b: byte)
    ensures HexOf([a, b]) == [DigitChar(a / 16), DigitChar(a % 16), DigitChar(b / 16), DigitChar(b % 16)]
  {
    HexConcat([a], [b]);
    HexByte(a);
    HexByte(b);
    assert [a, b] == [a] + [b];
  }

  /** Where the fields of the calldata sit in its hex text. */
  lemma CalldataFields(to: Address, rest: Bytes)
    requires |rest| >= 32
    ensures var s := HexOf(TRANSFER_SELECTOR + AddressWord(to) + rest);
            && |s| >= 136 && s[..8] == TRANSFER_METHOD
            && s[32..72] == HexOf(to) && s[72..136] == HexOf(rest[..32])
  {
    SelectorHex();
    FieldsAt(TRANSFER_SELECTOR, to, rest[..32], rest[32..]);
    assert rest == rest[..32] + rest[32..];
    assert TRANSFER_SELECTOR + AddressWord(to) + rest
        == TRANSFER_SELECTOR + AddressWord(to) + rest[..32] + rest[32..];
  }

  lemma FieldsAt(selector: Bytes, to: Address, amount: Bytes, rest: Bytes)
    requires |selector| == 4 && |amount| == 32
    ensures var s := HexOf(selector + AddressWord(to) + amount + rest);
            |s| >= 136 && s[..8] == HexOf(selector) && s[32..72] == HexOf(to) && s[72..136] == HexOf(amount)
  {
    var data := selector + AddressWord(to) + amount + rest;
    assert data == [] + selector + (AddressWord(to) + amount + rest);
    HexPart([], selector, AddressWord(to) + amount + rest);
    assert data == (selector + Zeros(12)) + to + (amount + rest);
    HexPart(selector + Zeros(12), to, amount + rest);
    HexPart(selector + AddressWord(to), amount, rest);
  }

  /** What the decoder makes of encoder output, with or without the 0x prefix. */
  lemma ParseOfBuilt(mask: CaseMask, to: Address, amount: nat, input: string)
    requires var text := HexOf(TransferCalldata(TRANSFER_SELECTOR, to, amount));
             input == text || input == "0x" + text
    ensures ParseTransferData(mask, input)
            == Ok(Transfer(AddressHex(mask, to), IntString(FromBigEndian(LeftPad32(MinBytes(amount))[..32]))))
  {
    var rest := LeftPad32(MinBytes(amount));
    var data := TransferCalldata(TRANSFER_SELECTOR, to, amount);
    var text := HexOf(data);
    AmountField(amount);
    CalldataFields(to, rest);
    HexDigits(data);
    PlainText(text);
    assert TrimPrefix(input, "0x") == text;
    BareHexReadBack(to);
    var word := rest[..32];
    HexDigits(word);
    ParsePlain(HexOf(word), 16);
    HexValue(word);
  }

  /** The round trip holds exactly for the amounts a uint256 can hold. */
  lemma RoundTrip(mask: CaseMask, to: Address, amount: nat, input: string)
    requires var text := HexOf(TransferCalldata(TRANSFER_SELECTOR, to, amount));
             input == text || input == "0x" + text
    ensures ParseTransferData(mask, input) == Ok(Transfer(AddressHex(mask, to), IntString(amount)))
            <==> amount < TWO256
  {
    ParseOfBuilt(mask, to, amount, input);
    AmountField(amount);
    IntStringRead(amount);
    IntStringRead(FromBigEndian(LeftPad32(MinBytes(amount))[..32]));
  }
}
