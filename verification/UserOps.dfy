/** User operations: packing for EntryPoint v0.9 and the hash that is signed. */
module UserOps {
  import opened Wrappers
  import opened Bytes
  import opened GasWords
  import opened PaymasterForms

  const MARKER: Bytes := [0x77, 0x02]
  const PACKED_USER_OP_TYPE :=
    "PackedUserOperation(address sender,uint256 nonce,bytes initCode,bytes callData,"
    + "bytes32 accountGasLimits,uint256 preVerificationGas,bytes32 gasFees,"
    + "bytes paymasterAndData)"
  const DOMAIN_TYPE := "EIP712Domain(string name,string version,uint256 chainId,address verifyingContract)"

  datatype UserOp = UserOp(
    sender: Address, nonce: nat, initCode: Bytes, callData: Bytes,
    verificationGasLimit: nat, callGasLimit: nat, preVerificationGas: nat,
    maxFeePerGas: nat, maxPriorityFeePerGas: nat,
    paymaster: Address, paymasterData: Bytes, paymasterSignature: Bytes, signature: Bytes,
    entryPoint: Address, chainId: nat, authNonce: nat, delegate: Address, requestId: string)

  datatype Packed = Packed(
    sender: Address, nonce: nat, initCode: Bytes, callData: Bytes,
    accountGasLimits: Word, preVerificationGas: nat, gasFees: Word,
    paymasterAndData: Bytes, signature: Bytes)

  // ----- initCode

  predicate HasMarker(initCode: Bytes) {
    |initCode| >= 2 && initCode[..2] == MARKER
  }

  method IsEip7702InitCode(initCode: Bytes) returns (yes: bool)
    ensures yes <==> HasMarker(initCode)
  {
    if |initCode| < |MARKER| {
      return false;
    }
    for i := 0 to |MARKER|
      invariant initCode[..i] == MARKER[..i]
    {
      if initCode[i] != MARKER[i] {
        return false;
      }
    }
    assert MARKER[..2] == MARKER;
    yes := true;
  }

  /** Marker code stands for the account's delegate, if there is one. */
  predicate Overridden(initCode: Bytes, delegate: Address) {
    HasMarker(initCode) && delegate != ZERO_ADDRESS
  }

  function InitTail(initCode: Bytes): Bytes {
    if |initCode| <= 20 then [] else initCode[20..]
  }

  /** What `initCode` is hashed as. */
  function InitPreimage(initCode: Bytes, delegate: Address): Bytes {
    if Overridden(initCode, delegate) then delegate + InitTail(initCode) else initCode
  }

  /** Code that spells out a delegate and the tail of some marker code. */
  predicate Spells(initCode: Bytes, delegate: Address, marked: Bytes) {
    |initCode| >= 20 && initCode[..20] == delegate && initCode[20..] == InitTail(marked)
  }

  predicate SameInit(code: Bytes, delegate: Address, code': Bytes, delegate': Address) {
    if Overridden(code, delegate) && Overridden(code', delegate') then
      delegate == delegate' && InitTail(code) == InitTail(code')
    else if Overridden(code, delegate) then Spells(code', delegate, code)
    else if Overridden(code', delegate') then Spells(code, delegate', code')
    else code == code'
  }

  /** Exactly when two init codes hash alike. Bytes 2 to 19 of marker code are cut, and
      unmarked code may spell out what marked code stands for. */
  lemma SameInitPreimage(code: Bytes, delegate: Address, code': Bytes, delegate': Address)
    ensures InitPreimage(code, delegate) == InitPreimage(code', delegate')
            <==> SameInit(code, delegate, code', delegate')
  {
    if InitPreimage(code, delegate) == InitPreimage(code', delegate') {
      if Overridden(code, delegate) && Overridden(code', delegate') {
        SplitConcat(delegate, InitTail(code), delegate', InitTail(code'));
      }
    } else if Overridden(code, delegate) && Spells(code', delegate, code) {
      assert code' == code'[..20] + code'[20..];
    } else if Overridden(code', delegate') && Spells(code, delegate', code') {
      assert code == code[..20] + code[20..];
    }
  }

  // ----- packing and hashing

  function CodeOf(op: UserOp): Bytes {
    if op.initCode == [] then MARKER else op.initCode
  }

  function PackUserOp(op: UserOp, forSigning: bool): Option<Packed> {
    var limits := PackWord(op.verificationGasLimit, op.callGasLimit);
    var fees := PackWord(op.maxPriorityFeePerGas, op.maxFeePerGas);
    if limits.None? || fees.None? then None
    else
      Some(Packed(op.sender, op.nonce, CodeOf(op), op.callData,
                  limits.value, op.preVerificationGas, fees.value,
                  PaymasterField(op.paymaster, op.paymasterData, op.paymasterSignature, forSigning),
                  op.signature))
  }

  /** Everything the hash is a function of, field by field. */
  datatype View = View(
    sender: Address, nonce: Word, init: Bytes, callData: Bytes, gasLimits: Word,
    preVerificationGas: Word, gasFees: Word, paymaster: Bytes, entryPoint: Address, chainId: Word)

  function ViewOf(p: Packed, delegate: Address, entryPoint: Address, chainId: nat): Option<View> {
    var pm := PaymasterPreimage(p.paymasterAndData);
    if pm.None? then None
    else
      Some(View(p.sender, UintWord(p.nonce), InitPreimage(p.initCode, delegate), p.callData, p.accountGasLimits,
                UintWord(p.preVerificationGas), p.gasFees, pm.value, entryPoint, UintWord(chainId)))
  }

  function StructWords(k: Keccak, v: View): (ws: seq<Word>)
    ensures |ws| == 9
  {
    [k(Ascii(PACKED_USER_OP_TYPE)), AddressWord(v.sender), v.nonce, k(v.init), k(v.callData),
     v.gasLimits, v.preVerificationGas, v.gasFees, k(v.paymaster)]
  }

  function DomainWords(k: Keccak, v: View): (ws: seq<Word>)
    ensures |ws| == 5
  {
    [k(Ascii(DOMAIN_TYPE)), k(Ascii("ERC4337")), k(Ascii("1")), v.chainId, AddressWord(v.entryPoint)]
  }

  function OuterPreimage(k: Keccak, v: View): (r: Bytes)
    ensures |r| == 66
  {
    [0x19, 0x01] + (k(Flatten(DomainWords(k, v))) + k(Flatten(StructWords(k, v))))
  }

  function Digest(k: Keccak, v: View): Word {
    k(OuterPreimage(k, v))
  }

  /** The hash of a packed operation, as the EntryPoint contract also computes it. */
  function PackedHash(k: Keccak, p: Packed, delegate: Address, entryPoint: Address, chainId: nat): Option<Word> {
    var v := ViewOf(p, delegate, entryPoint, chainId);
    if v.None? then None else Some(Digest(k, v.value))
  }

  function SignedView(op: UserOp): Option<View> {
    var p := PackUserOp(op, true);
    if p.None? then None else ViewOf(p.value, op.delegate, op.entryPoint, op.chainId)
  }

  /** `GetUserOpHash`; `None` where packing or slicing panics. */
  function UserOpHash(k: Keccak, op: UserOp): Option<Word> {
    var v := SignedView(op);
    if v.None? then None else Some(Digest(k, v.value))
  }

  function ChainView(op: UserOp): Option<View> {
    var p := PackUserOp(op, false);
    if p.None? then None else ViewOf(p.value, op.delegate, op.entryPoint, op.chainId)
  }

  /** The hash of the packed form that goes on chain. */
  function OnChainHash(k: Keccak, op: UserOp): Option<Word> {
    var v := ChainView(op);
    if v.None? then None else Some(Digest(k, v.value))
  }

  // ----- binding

  /** The byte strings hashed on the way to one digest. */
  function Preimages(k: Keccak, v: View): set<Bytes> {
    {OuterPreimage(k, v), Flatten(DomainWords(k, v)), Flatten(StructWords(k, v)), v.init, v.callData, v.paymaster}
  }

  predicate Collides(k: Keccak, s: set<Bytes>) {
    exists x, y | x in s && y in s :: x != y && k(x) == k(y)
  }

  /** Words sit at the offsets ERC-4337 and EIP-712 give them. */
  lemma StructLayout(k: Keccak, v: View)
    ensures var e := Flatten(StructWords(k, v));
            && |e| == 288
            && e[..32] == k(Ascii(PACKED_USER_OP_TYPE)) && e[32..44] == Zeros(12)
            && e[44..64] == v.sender && e[64..96] == v.nonce && e[96..128] == k(v.init)
            && e[128..160] == k(v.callData) && e[160..192] == v.gasLimits
            && e[192..224] == v.preVerificationGas && e[224..256] == v.gasFees && e[256..288] == k(v.paymaster)
    ensures var d := Flatten(DomainWords(k, v));
            && |d| == 160
            && d[..32] == k(Ascii(DOMAIN_TYPE)) && d[32..64] == k(Ascii("ERC4337")) && d[64..96] == k(Ascii("1"))
            && d[128..140] == Zeros(12)
            && d[96..128] == v.chainId && d[140..160] == v.entryPoint
  {
    hide Ascii;
    var ws, ds := StructWords(k, v), DomainWords(k, v);
    var e, d := Flatten(ws), Flatten(ds);
    forall i | 0 <= i < 9 ensures e[32 * i..32 * i + 32] == ws[i] { FlattenAt(ws, i); }
    forall i | 0 <= i < 5 ensures d[32 * i..32 * i + 32] == ds[i] { FlattenAt(ds, i); }
    assert e[32 * 0..32 * 0 + 32] == ws[0] && d[32 * 0..32 * 0 + 32] == ds[0];
    assert d[32 * 1..32 * 1 + 32] == ds[1] && d[32 * 2..32 * 2 + 32] == ds[2];
    assert e[32 * 1..32 * 1 + 32] == ws[1] && e[32 * 2..32 * 2 + 32] == ws[2] && e[32 * 3..32 * 3 + 32] == ws[3];
    assert e[32 * 4..32 * 4 + 32] == ws[4] && e[32 * 5..32 * 5 + 32] == ws[5] && e[32 * 6..32 * 6 + 32] == ws[6];
    assert e[32 * 7..32 * 7 + 32] == ws[7] && e[32 * 8..32 * 8 + 32] == ws[8];
    assert d[32 * 3..32 * 3 + 32] == ds[3] && d[32 * 4..32 * 4 + 32] == ds[4];
    assert e[32..44] == e[32..64][..12] && AddressWord(v.sender)[..12] == Zeros(12);
    assert d[128..140] == d[128..160][..12] && AddressWord(v.entryPoint)[..12] == Zeros(12);
    assert e[44..64] == e[32..64][12..] && AddressWord(v.sender)[12..] == v.sender;
    assert d[140..160] == d[128..160][12..] && AddressWord(v.entryPoint)[12..] == v.entryPoint;
  }

  /** Equal digests mean equal views, unless the hash function collides on one of
      the twelve strings hashed for the two. */
  lemma DigestBinds(k: Keccak, v: View, w: View)
    ensures Digest(k, v) == Digest(k, w) ==> v == w || Collides(k, Preimages(k, v) + Preimages(k, w))
  {
    if Digest(k, v) == Digest(k, w) && !Collides(k, Preimages(k, v) + Preimages(k, w)) {
      var dv, dw := Flatten(DomainWords(k, v)), Flatten(DomainWords(k, w));
      var sv, sw := Flatten(StructWords(k, v)), Flatten(StructWords(k, w));
      assert OuterPreimage(k, v) == OuterPreimage(k, w);
      SplitConcat([0x19, 0x01], k(dv) + k(sv), [0x19, 0x01], k(dw) + k(sw));
      SplitConcat(k(dv), k(sv), k(dw), k(sw));
      assert dv == dw && sv == sw;
      StructLayout(k, v);
      StructLayout(k, w);
    }
  }
}
