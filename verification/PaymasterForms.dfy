/** The paymaster field in its two byte layouts, and the bytes its hash is taken of. */
module PaymasterForms {
  import opened Wrappers
  import opened Bytes

  const MAGIC: Bytes := [0x22, 0xe3, 0x25, 0xa2, 0x97, 0x43, 0x96, 0x56]
  const PAYMASTER_VERIFY_GAS: nat := 100_000
  const PAYMASTER_POST_OP_GAS: nat := 50_000

  /** Paymaster, its two gas limits and its data: the part both layouts share. */
  function PaymasterHead(paymaster: Address, data: Bytes): (r: Bytes)
    ensures |r| == 52 + |data|
  {
    paymaster + Uint128Bytes(PAYMASTER_VERIFY_GAS) + Uint128Bytes(PAYMASTER_POST_OP_GAS) + data
  }

  function Uint128Bytes(v: nat): (r: Bytes)
    ensures |r| == 16
  {
    Zeros(8) + BigEndian(v, 8)
  }

  /** The signing layout ends in the magic; the on-chain layout carries the
      signature and its 16-bit length before it. */
  function PaymasterField(paymaster: Address, data: Bytes, sig: Bytes, forSigning: bool): Bytes {
    var head := PaymasterHead(paymaster, data);
    if paymaster == ZERO_ADDRESS then []
    else if sig == [] then head
    else if forSigning then head + MAGIC
    else head + sig + BigEndian(|sig|, 2) + MAGIC
  }

  method PackPaymasterAndData(paymaster: Address, data: Bytes, sig: Bytes, forSigning: bool) returns (out: Bytes)
    ensures out == PaymasterField(paymaster, data, sig, forSigning)
  {
    hide BigEndian, Uint128Bytes;
    out := [];
    if paymaster == ZERO_ADDRESS {
      return;
    }
    out := out + paymaster;
    out := out + Uint128Bytes(PAYMASTER_VERIFY_GAS);
    out := out + Uint128Bytes(PAYMASTER_POST_OP_GAS);
    out := out + data;
    if |sig| > 0 && !forSigning {
      out := out + sig;
      out := out + BigEndian(|sig|, 2);
      out := out + MAGIC;
    } else if forSigning && |sig| > 0 {
      out := out + MAGIC;
    }
  }

  method BytesEqual(a: Bytes, b: Bytes) returns (same: bool)
    ensures same <==> a == b
  {
    if |a| != |b| {
      return false;
    }
    for i := 0 to |a|
      invariant a[..i] == b[..i]
    {
      if a[i] != b[i] {
        return false;
      }
    }
    same := true;
  }

  /** The 16-bit length in front of a trailing magic, or 0 when there is no magic. */
  function SignatureLength(data: Bytes): nat {
    if |data| < |MAGIC| + 10 || data[|data| - 8..] != MAGIC then 0
    else FromBigEndian(data[|data| - 10..|data| - 8])
  }

  method PaymasterSignatureLength(data: Bytes) returns (n: nat)
    ensures n == SignatureLength(data)
  {
    if |data| < |MAGIC| + 10 {
      return 0;
    }
    var same := BytesEqual(data[|data| - |MAGIC|..], MAGIC);
    if !same {
      return 0;
    }
    n := FromBigEndian(data[|data| - |MAGIC| - 2..|data| - |MAGIC|]);
  }

  /** The bytes the paymaster hash is taken of; `None` where slicing panics. */
  function PaymasterPreimage(data: Bytes): Option<Bytes> {
    var n := SignatureLength(data);
    if n == 0 then Some(data)
    else if |data| < n + 10 then None
    else Some(data[..|data| - n - 10] + MAGIC)
  }

  /** True when the two bytes in front of the signing layout's magic are zero. */
  predicate TailZero(paymaster: Address, data: Bytes) {
    SigningTail(paymaster, data) == 0
  }

  function SigningTail(paymaster: Address, data: Bytes): nat {
    var head := PaymasterHead(paymaster, data);
    FromBigEndian(head[|head| - 2..])
  }

  /** A field that ends in a length and the magic is cut that many bytes short. */
  lemma TrailerPreimage(body: Bytes, len: Bytes)
    requires |len| == 2 && |body| >= 8
    ensures var n := FromBigEndian(len);
            PaymasterPreimage(body + len + MAGIC) ==
            if n == 0 then Some(body + len + MAGIC)
            else if |body| < n then None
            else Some(body[..|body| - n] + MAGIC)
  {
    var form, n := body + len + MAGIC, FromBigEndian(len);
    assert form[|form| - 8..] == MAGIC;
    assert form[|form| - 10..|form| - 8] == len;
    if n <= |body| {
      assert form[..|form| - n - 10] == body[..|body| - n];
    }
  }

  lemma SigningPreimage(paymaster: Address, data: Bytes, sig: Bytes)
    requires paymaster != ZERO_ADDRESS && sig != []
    ensures var head := PaymasterHead(paymaster, data);
            var z := SigningTail(paymaster, data);
            PaymasterPreimage(PaymasterField(paymaster, data, sig, true)) ==
            if z == 0 then Some(head + MAGIC)
            else if |head| < z + 2 then None
            else Some(head[..|head| - z - 2] + MAGIC)
  {
    var head, z := PaymasterHead(paymaster, data), SigningTail(paymaster, data);
    var body := head[..|head| - 2];
    assert head == body + head[|head| - 2..];
    TrailerPreimage(body, head[|head| - 2..]);
    if z + 2 <= |head| {
      assert body[..|body| - z] == head[..|head| - z - 2];
    }
  }

  lemma OnChainPreimage(paymaster: Address, data: Bytes, sig: Bytes, len: Bytes, n: nat)
    requires paymaster != ZERO_ADDRESS && sig != []
    requires len == BigEndian(|sig|, 2) && FromBigEndian(len) == n <= |sig|
    ensures var head := PaymasterHead(paymaster, data);
            PaymasterPreimage(PaymasterField(paymaster, data, sig, false)) ==
            if n == 0 then Some(head + sig + len + MAGIC) else Some(head + sig[..|sig| - n] + MAGIC)
  {
    CutSignature(PaymasterHead(paymaster, data), sig, len, n);
    assert PaymasterField(paymaster, data, sig, false) == PaymasterHead(paymaster, data) + sig + len + MAGIC;
  }

  lemma CutSignature(head: Bytes, sig: Bytes, len: Bytes, n: nat)
    requires |head| >= 8 && |len| == 2 && FromBigEndian(len) == n <= |sig|
    ensures PaymasterPreimage(head + sig + len + MAGIC) ==
            if n == 0 then Some(head + sig + len + MAGIC) else Some(head + sig[..|sig| - n] + MAGIC)
  {
    var body := head + sig;
    TrailerPreimage(body, len);
    assert body[..|body| - n] == head + sig[..|sig| - n];
  }

  /** The on-chain field and the signing field hash the same bytes exactly when the
      signing field's tail is zero and the signature length fits its 16 bits. */
  lemma FormsHashAlike(paymaster: Address, data: Bytes, signingSig: Bytes, chainSig: Bytes)
    requires paymaster != ZERO_ADDRESS && signingSig != [] && chainSig != []
    ensures PaymasterPreimage(PaymasterField(paymaster, data, chainSig, false))
            == PaymasterPreimage(PaymasterField(paymaster, data, signingSig, true))
            <==> TailZero(paymaster, data) && |chainSig| < 65536
    ensures PaymasterPreimage(PaymasterField(paymaster, data, chainSig, false)).Some?
  {
    SigningPreimage(paymaster, data, signingSig);
    var len, n := BigEndian(|chainSig|, 2), |chainSig| % 65536;
    Uint16ReadBack(|chainSig|);
    OnChainPreimage(paymaster, data, chainSig, len, n);
    CutLength(PaymasterHead(paymaster, data), chainSig, len, n);
  }

  /** Cutting the announced length leaves the head alone only if nothing was left over. */
  lemma CutLength(head: Bytes, sig: Bytes, len: Bytes, n: nat)
    requires sig != [] && n == |sig| % 65536
    ensures var cut := if n == 0 then head + sig + len + MAGIC else head + sig[..|sig| - n] + MAGIC;
            && |cut| >= |head| + 8
            && (cut == head + MAGIC <==> |sig| < 65536)
  {
    if |sig| < 65536 {
      assert head + sig[..0] == head;
    }
  }

  /** The validity window as the paymaster contract reads it: two uint256 words. */
  function WindowBytes(until: nat, after: nat): Bytes {
    UintWord(until) + UintWord(after)
  }

  /** For a window, the tail condition is about validAfter alone; 0 satisfies it. */
  lemma WindowTail(paymaster: Address, until: nat, after: nat)
    ensures SigningTail(paymaster, WindowBytes(until, after)) == after % 65536
    ensures TailZero(paymaster, WindowBytes(until, after)) <==> after % 65536 == 0
  {
    UintWordTail(after);
    HeadTail(PaymasterHead(paymaster, []), UintWord(until), UintWord(after));
    HeadSplits(paymaster, WindowBytes(until, after));
  }

  lemma HeadTail(fixed: Bytes, until: Word, after: Word)
    ensures var head := fixed + (until + after); head[|head| - 2..] == after[30..]
  {
  }

  lemma HeadSplits(paymaster: Address, data: Bytes)
    ensures PaymasterHead(paymaster, data) == PaymasterHead(paymaster, []) + data
  {
  }

  lemma SameSigningPreimage(p: Address, data: Bytes, sig: Bytes, p': Address, data': Bytes, sig': Bytes)
    requires p != ZERO_ADDRESS && sig != [] && TailZero(p, data)
    requires p' != ZERO_ADDRESS ==> sig' != [] && (TailZero(p', data') || |data'| <= |data|)
    requires PaymasterPreimage(PaymasterField(p, data, sig, true))
             == PaymasterPreimage(PaymasterField(p', data', sig', true))
    ensures p == p' && data == data'
  {
    SigningPreimage(p, data, sig);
    var head, head' := PaymasterHead(p, data), PaymasterHead(p', data');
    if p' != ZERO_ADDRESS {
      SigningPreimage(p', data', sig');
      if TailZero(p', data') {
        assert |head + MAGIC| == |head' + MAGIC|;
        SplitConcat(head, MAGIC, head', MAGIC);
        HeadParts(p, data);
        HeadParts(p', data');
      }
    }
  }

  lemma HeadParts(p: Address, data: Bytes)
    ensures PaymasterHead(p, data)[..20] == p && PaymasterHead(p, data)[52..] == data
  {
  }

  /** Hashing a signing field cuts as many bytes as its tail says, if there are as many. */
  predicate TailFits(paymaster: Address, data: Bytes) {
    SigningTail(paymaster, data) <= 50 + |data|
  }

  /** Two data fields of one length whose signing fields are hashed as the same bytes. */
  ghost predicate Confusable(paymaster: Address, data: Bytes, other: Bytes, sig: Bytes) {
    var preimage := PaymasterPreimage(PaymasterField(paymaster, data, sig, true));
    && |other| == |data| && other != data
    && preimage.Some? && PaymasterPreimage(PaymasterField(paymaster, other, sig, true)) == preimage
  }

  /** The three outcomes of hashing a signing field, by its tail: a zero tail binds the
      data among data of its length; a tail that fits cuts data off, so that other data is
      hashed alike; a tail that does not fit panics. Data shorter than three bytes has
      nothing in front of the tail to lose. */
  lemma DataBoundIff(paymaster: Address, data: Bytes, sig: Bytes)
    requires paymaster != ZERO_ADDRESS && sig != []
    ensures PaymasterPreimage(PaymasterField(paymaster, data, sig, true)).None? <==> !TailFits(paymaster, data)
    ensures (exists other :: Confusable(paymaster, data, other, sig))
            <==> !TailZero(paymaster, data) && TailFits(paymaster, data) && |data| >= 3
  {
    hide PaymasterPreimage, PaymasterField, SigningTail;
    SigningPreimage(paymaster, data, sig);
    if other :| Confusable(paymaster, data, other, sig) {
      ConfusedData(paymaster, data, other, sig);
    }
    if !TailZero(paymaster, data) && TailFits(paymaster, data) && |data| >= 3 {
      var i := |data| - 3;
      var other: Bytes := data[..i] + [if data[i] == 0 then 1 else 0] + data[i + 1..];
      assert other[..i] == data[..i] && other[i + 1..] == data[i + 1..];
      NonZeroTailConfuses(paymaster, data, other, sig);
      assert Confusable(paymaster, data, other, sig);
    }
  }

  lemma SigningLength(paymaster: Address, data: Bytes, sig: Bytes)
    requires paymaster != ZERO_ADDRESS && sig != []
    ensures var preimage := PaymasterPreimage(PaymasterField(paymaster, data, sig, true));
            var z := SigningTail(paymaster, data);
            preimage.Some? ==> |preimage.value| == 60 + |data| - if z == 0 then 0 else z + 2
  {
    hide SigningTail, PaymasterPreimage, PaymasterField;
    SigningPreimage(paymaster, data, sig);
  }

  /** Data hashed alike has the same tail, which is not zero, and differs in front of it. */
  lemma ConfusedData(paymaster: Address, data: Bytes, other: Bytes, sig: Bytes)
    requires paymaster != ZERO_ADDRESS && sig != [] && Confusable(paymaster, data, other, sig)
    ensures !TailZero(paymaster, data) && TailFits(paymaster, data) && |data| >= 3
  {
    hide FromBigEndian, PaymasterPreimage, PaymasterField;
    var head, head' := PaymasterHead(paymaster, data), PaymasterHead(paymaster, other);
    SigningPreimage(paymaster, data, sig);
    SigningPreimage(paymaster, other, sig);
    SigningLength(paymaster, data, sig);
    SigningLength(paymaster, other, sig);
    assert SigningTail(paymaster, data) == SigningTail(paymaster, other);
    WriteBack(head[|head| - 2..]);
    WriteBack(head'[|head'| - 2..]);
    HeadParts(paymaster, data);
    HeadParts(paymaster, other);
    if TailZero(paymaster, data) {
      SplitConcat(head, MAGIC, head', MAGIC);
    }
  }

  /** Without data the tail is the second gas limit, which is too much to cut. */
  lemma EmptyDataPanics(paymaster: Address, sig: Bytes)
    requires paymaster != ZERO_ADDRESS && sig != []
    ensures SigningTail(paymaster, []) == PAYMASTER_POST_OP_GAS && !TailFits(paymaster, [])
    ensures PaymasterPreimage(PaymasterField(paymaster, [], sig, true)).None?
  {
    hide BigEndian, FromBigEndian;
    var head := PaymasterHead(paymaster, []);
    LastTwoBytes(PAYMASTER_POST_OP_GAS, 6);
    assert head[|head| - 2..] == BigEndian(PAYMASTER_POST_OP_GAS, 6 + 2)[6..];
    SmallRest(PAYMASTER_POST_OP_GAS, 65536);
    SigningPreimage(paymaster, [], sig);
  }

  lemma NonZeroTailConfuses(paymaster: Address, data: Bytes, other: Bytes, sig: Bytes)
    requires paymaster != ZERO_ADDRESS && sig != [] && |data| >= 3 && |other| == |data|
    requires !TailZero(paymaster, data) && TailFits(paymaster, data)
    requires var i := |data| - 3; other[..i] == data[..i] && other[i] != data[i] && other[i + 1..] == data[i + 1..]
    ensures Confusable(paymaster, data, other, sig)
  {
    var head, head' := PaymasterHead(paymaster, data), PaymasterHead(paymaster, other);
    var i, z := |data| - 3, SigningTail(paymaster, data);
    var fixed := PaymasterHead(paymaster, []);
    assert head == fixed + data && head' == fixed + other;
    assert head[|head| - 2..] == data[i + 1..] && head'[|head'| - 2..] == other[i + 1..];
    assert head[..|head| - 3] == fixed + data[..i] == head'[..|head'| - 3];
    SigningPreimage(paymaster, data, sig);
    SigningPreimage(paymaster, other, sig);
    assert head[..|head| - z - 2] == head[..|head| - 3][..|head| - z - 2];
    assert head'[..|head| - z - 2] == head'[..|head| - 3][..|head| - z - 2];
  }

  /** Everything packed into the on-chain field can be read back from it by position,
      for signatures the length field can announce. */
  lemma OnChainFieldReads(paymaster: Address, data: Bytes, sig: Bytes)
    requires paymaster != ZERO_ADDRESS && 0 < |sig| < 65536
    ensures var f := PaymasterField(paymaster, data, sig, false); var n := SignatureLength(f);
            && n == |sig| && |f| == 62 + |data| + n
            && f[..20] == paymaster
            && FromBigEndian(f[20..36]) == PAYMASTER_VERIFY_GAS && FromBigEndian(f[36..52]) == PAYMASTER_POST_OP_GAS
            && f[52..|f| - n - 10] == data && f[|f| - n - 10..|f| - 10] == sig
  {
    hide BigEndian, FromBigEndian;
    var head, len := PaymasterHead(paymaster, data), BigEndian(|sig|, 2);
    var f := head + sig + len + MAGIC;
    Uint16ReadBack(|sig|);
    assert f[|f| - 8..] == MAGIC && f[|f| - 10..|f| - 8] == len;
    assert f[..52] == head[..52] && f[52..|f| - |sig| - 10] == head[52..] && f[|f| - |sig| - 10..|f| - 10] == sig;
    HeadParts(paymaster, data);
    HeadGas(paymaster, data);
    assert f[..20] == head[..20] && f[20..36] == head[20..36] && f[36..52] == head[36..52];
  }

  lemma HeadGas(paymaster: Address, data: Bytes)
    ensures var head := PaymasterHead(paymaster, data);
            FromBigEndian(head[20..36]) == PAYMASTER_VERIFY_GAS && FromBigEndian(head[36..52]) == PAYMASTER_POST_OP_GAS
  {
    hide Uint128Bytes, FromBigEndian;
    var head := PaymasterHead(paymaster, data);
    Uint128Reads(PAYMASTER_VERIFY_GAS);
    Uint128Reads(PAYMASTER_POST_OP_GAS);
    assert head[20..36] == Uint128Bytes(PAYMASTER_VERIFY_GAS) && head[36..52] == Uint128Bytes(PAYMASTER_POST_OP_GAS);
  }

  lemma Uint128Reads(v: nat)
    requires v < TWO64
    ensures FromBigEndian(Uint128Bytes(v)) == v
  {
    hide BigEndian, FromBigEndian;
    var b := BigEndian(v, 8);
    ReadIgnoresZeros(8, b);
    ReadBack(v, 8);
    PowValues();
    SmallRest(v, Pow256(8));
  }
}
