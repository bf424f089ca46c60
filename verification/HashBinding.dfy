/** What the signed user-operation hash commits to, and when the EntryPoint, which
    sees the on-chain form, computes the same hash. */
module HashBinding {
  import opened Wrappers
  import opened Bytes
  import opened GasWords
  import opened PaymasterForms
  import opened UserOps

  function PreimagesOf(k: Keccak, v: Option<View>): set<Bytes> {
    if v.None? then {} else Preimages(k, v.value)
  }

  /** All the strings hashed for an operation's signed and on-chain hashes. */
  function HashedFor(k: Keccak, op: UserOp): set<Bytes> {
    PreimagesOf(k, SignedView(op)) + PreimagesOf(k, ChainView(op))
  }

  /** What a caller can check before sending: the tail is zero and the signature fits. */
  predicate FormsAgree(op: UserOp) {
    op.paymaster == ZERO_ADDRESS
    || (TailZero(op.paymaster, op.paymasterData) && |op.paymasterSignature| < 65536)
  }

  /** The EntryPoint's hash of the submitted form is the signed hash exactly when
      `FormsAgree`, unless the hash function collides on a string hashed for the two. */
  lemma OnChainHashMatches(k: Keccak, op: UserOp)
    requires op.paymasterSignature != [] && PackUserOp(op, true).Some?
    ensures FormsAgree(op) ==> OnChainHash(k, op) == UserOpHash(k, op)
    ensures OnChainHash(k, op) == UserOpHash(k, op) ==>
              FormsAgree(op) || Collides(k, HashedFor(k, op))
  {
    if op.paymaster != ZERO_ADDRESS {
      FormsHashAlike(op.paymaster, op.paymasterData, op.paymasterSignature, op.paymasterSignature);
    }
    ViewsDifferInPaymaster(op);
    var v, w := SignedView(op), ChainView(op);
    if v.Some? {
      DigestBinds(k, v.value, w.value);
    }
  }

  function PreimageOfForm(op: UserOp, forSigning: bool): Option<Bytes> {
    PaymasterPreimage(PaymasterField(op.paymaster, op.paymasterData, op.paymasterSignature, forSigning))
  }

  lemma ViewsDifferInPaymaster(op: UserOp)
    requires PackUserOp(op, true).Some?
    ensures var signing, onChain := PreimageOfForm(op, true), PreimageOfForm(op, false);
            && (SignedView(op).Some? <==> signing.Some?)
            && (ChainView(op).Some? <==> onChain.Some?)
            && (signing.Some? && onChain.Some? ==> (SignedView(op) == ChainView(op) <==> signing == onChain))
  {
  }

  /** The hash does not depend on either signature, only on a paymaster slot existing. */
  lemma HashIgnoresSignatures(k: Keccak, op: UserOp, sig: Bytes, pmSig: Bytes)
    requires op.paymasterSignature != [] <==> pmSig != []
    ensures UserOpHash(k, op.(signature := sig, paymasterSignature := pmSig)) == UserOpHash(k, op)
  {
    assert PaymasterField(op.paymaster, op.paymasterData, pmSig, true)
        == PaymasterField(op.paymaster, op.paymasterData, op.paymasterSignature, true);
  }

  // ----- when there is a hash at all

  /** The gas values fit where packing puts them. */
  predicate Packable(op: UserOp) {
    && op.verificationGasLimit < TWO128 && op.callGasLimit < TWO256
    && op.maxPriorityFeePerGas < TWO128 && op.maxFeePerGas < TWO256
  }

  /** What a caller can check before hashing. */
  predicate Hashable(op: UserOp) {
    Packable(op) && (op.paymaster == ZERO_ADDRESS || TailFits(op.paymaster, op.paymasterData))
  }

  lemma PackedIff(op: UserOp, forSigning: bool)
    ensures PackUserOp(op, forSigning).Some? <==> Packable(op)
  {
    PackFits(op.verificationGasLimit, op.callGasLimit);
    PackFits(op.maxPriorityFeePerGas, op.maxFeePerGas);
  }

  /** Hashing panics exactly on operations that are not hashable, given the placeholder. */
  lemma HashExistsIff(k: Keccak, op: UserOp)
    requires op.paymaster != ZERO_ADDRESS ==> HasSlot(op)
    ensures UserOpHash(k, op).Some? <==> Hashable(op)
  {
    PackedIff(op, true);
    if op.paymaster != ZERO_ADDRESS {
      DataBoundIff(op.paymaster, op.paymasterData, op.paymasterSignature);
    }
  }

  /** Leaving the paymaster data out is such an operation. */
  lemma NoDataPanics(k: Keccak, op: UserOp)
    requires op.paymaster != ZERO_ADDRESS && HasSlot(op) && op.paymasterData == []
    ensures UserOpHash(k, op).None?
  {
    HashExistsIff(k, op);
    EmptyDataPanics(op.paymaster, op.paymasterSignature);
  }

  // ----- which fields are bound

  /** The numbers fit the widths the packed layout gives them. */
  predicate InRange(op: UserOp) {
    && op.nonce < TWO256 && op.preVerificationGas < TWO256 && op.chainId < TWO256
    && op.verificationGasLimit < TWO128 && op.callGasLimit < TWO128
    && op.maxFeePerGas < TWO128 && op.maxPriorityFeePerGas < TWO128
  }

  /** A filled paymaster signature slot, as every operation has from preflight on. */
  predicate HasSlot(op: UserOp) {
    op.paymasterSignature != []
  }

  /** Init code as the service builds it, or dropped on the way. */
  predicate BareCode(op: UserOp) {
    op.initCode == [] || op.initCode == MARKER
  }

  predicate SameSignedFields(a: UserOp, b: UserOp) {
    && a.sender == b.sender && a.nonce == b.nonce && a.callData == b.callData
    && a.verificationGasLimit == b.verificationGasLimit && a.callGasLimit == b.callGasLimit
    && a.preVerificationGas == b.preVerificationGas
    && a.maxFeePerGas == b.maxFeePerGas && a.maxPriorityFeePerGas == b.maxPriorityFeePerGas
    && a.paymaster == b.paymaster && (a.paymaster != ZERO_ADDRESS ==> a.paymasterData == b.paymasterData)
    && SameInit(CodeOf(a), a.delegate, CodeOf(b), b.delegate) && a.entryPoint == b.entryPoint && a.chainId == b.chainId
  }

  /** For code as the service builds it, the delegate alone decides. */
  lemma BareCodeBindsDelegate(a: UserOp, b: UserOp)
    requires BareCode(a) && BareCode(b)
    ensures SameInit(CodeOf(a), a.delegate, CodeOf(b), b.delegate) <==> a.delegate == b.delegate
  {
    assert MARKER[..2] == MARKER;
  }

  /** Appending up to eighteen bytes to marker code leaves the hash alone. */
  lemma MarkerPaddingNotBound(k: Keccak, op: UserOp, padding: Bytes)
    requires op.delegate != ZERO_ADDRESS && |padding| <= 18
    ensures UserOpHash(k, op.(initCode := MARKER + padding)) == UserOpHash(k, op.(initCode := MARKER))
    ensures HasSlot(op) && Hashable(op) ==> UserOpHash(k, op.(initCode := MARKER)).Some?
  {
    var code := MARKER + padding;
    assert code[..2] == MARKER == MARKER[..2];
    HashSeesInit(k, op, code, MARKER);
    if HasSlot(op) { HashExistsIff(k, op.(initCode := MARKER)); }
  }

  lemma HashSeesInit(k: Keccak, op: UserOp, code: Bytes, code': Bytes)
    requires code != [] && code' != [] && InitPreimage(code, op.delegate) == InitPreimage(code', op.delegate)
    ensures UserOpHash(k, op.(initCode := code)) == UserOpHash(k, op.(initCode := code'))
  {
    hide InitPreimage, PaymasterField, PackWord, UintWord, PaymasterPreimage;
  }

  lemma SamePaymasterPreimage(a: UserOp, b: UserOp)
    requires HasSlot(a) && HasSlot(b)
    requires a.paymaster == ZERO_ADDRESS || TailZero(a.paymaster, a.paymasterData)
    requires b.paymaster == ZERO_ADDRESS || TailZero(b.paymaster, b.paymasterData)
             || (a.paymaster != ZERO_ADDRESS && |b.paymasterData| <= |a.paymasterData|)
    ensures PaymasterPreimage(PaymasterField(a.paymaster, a.paymasterData, a.paymasterSignature, true))
            == PaymasterPreimage(PaymasterField(b.paymaster, b.paymasterData, b.paymasterSignature, true))
            <==> a.paymaster == b.paymaster && (a.paymaster != ZERO_ADDRESS ==> a.paymasterData == b.paymasterData)
  {
    var fa := PaymasterField(a.paymaster, a.paymasterData, a.paymasterSignature, true);
    var fb := PaymasterField(b.paymaster, b.paymasterData, b.paymasterSignature, true);
    if PaymasterPreimage(fa) == PaymasterPreimage(fb) {
      if a.paymaster != ZERO_ADDRESS {
        SameSigningPreimage(a.paymaster, a.paymasterData, a.paymasterSignature,
                            b.paymaster, b.paymasterData, b.paymasterSignature);
      } else if b.paymaster != ZERO_ADDRESS {
        SameSigningPreimage(b.paymaster, b.paymasterData, b.paymasterSignature,
                            a.paymaster, a.paymasterData, a.paymasterSignature);
      }
    }
  }

  lemma SlotView(op: UserOp)
    requires InRange(op) && HasSlot(op)
    ensures var limits := PackWord(op.verificationGasLimit, op.callGasLimit);
            var fees := PackWord(op.maxPriorityFeePerGas, op.maxFeePerGas);
            var pm := PaymasterPreimage(PaymasterField(op.paymaster, op.paymasterData, op.paymasterSignature, true));
            && limits.Some? && fees.Some?
            && SignedView(op) ==
               if pm.None? then None
               else Some(View(op.sender, UintWord(op.nonce),
                              InitPreimage(CodeOf(op), op.delegate),
                              op.callData, limits.value, UintWord(op.preVerificationGas), fees.value,
                              pm.value, op.entryPoint, UintWord(op.chainId)))
  {
    PackFits(op.verificationGasLimit, op.callGasLimit);
    PackFits(op.maxPriorityFeePerGas, op.maxFeePerGas);
  }

  lemma SignedViewBinds(a: UserOp, b: UserOp)
    requires InRange(a) && InRange(b) && HasSlot(a) && HasSlot(b)
    requires a.paymaster == ZERO_ADDRESS || TailZero(a.paymaster, a.paymasterData)
    requires b.paymaster == ZERO_ADDRESS || TailZero(b.paymaster, b.paymasterData)
             || (a.paymaster != ZERO_ADDRESS && |b.paymasterData| <= |a.paymasterData|)
    ensures SignedView(a).Some?
    ensures SignedView(a) == SignedView(b) <==> SameSignedFields(a, b)
  {
    hide SignedView, PaymasterField, PaymasterPreimage, InitPreimage, PackWord, UintWord, TailZero, SameInit, CodeOf;
    SlotView(a);
    SlotView(b);
    SameInitPreimage(CodeOf(a), a.delegate, CodeOf(b), b.delegate);
    SamePaymasterPreimage(a, b);
    SignedPreimageExists(a);
    PackInjective(a.verificationGasLimit, a.callGasLimit, b.verificationGasLimit, b.callGasLimit);
    PackInjective(a.maxPriorityFeePerGas, a.maxFeePerGas, b.maxPriorityFeePerGas, b.maxFeePerGas);
    UintWordInjective(a.nonce, b.nonce);
    UintWordInjective(a.preVerificationGas, b.preVerificationGas);
    UintWordInjective(a.chainId, b.chainId);
  }

  lemma SignedPreimageExists(op: UserOp)
    requires op.paymasterSignature != []
    requires op.paymaster == ZERO_ADDRESS || TailZero(op.paymaster, op.paymasterData)
    ensures PaymasterPreimage(PaymasterField(op.paymaster, op.paymasterData, op.paymasterSignature, true)).Some?
  {
    if op.paymaster != ZERO_ADDRESS {
      SigningPreimage(op.paymaster, op.paymasterData, op.paymasterSignature);
    }
  }

  /** Two operations share a hash exactly when they agree on every signed
      field, unless the hash function collides on a string hashed for them. Only one
      needs the zero tail if the other's paymaster data is not longer. */
  lemma HashBindsFields(k: Keccak, a: UserOp, b: UserOp)
    requires InRange(a) && InRange(b) && HasSlot(a) && HasSlot(b)
    requires a.paymaster == ZERO_ADDRESS || TailZero(a.paymaster, a.paymasterData)
    requires b.paymaster == ZERO_ADDRESS || TailZero(b.paymaster, b.paymasterData)
             || (a.paymaster != ZERO_ADDRESS && |b.paymasterData| <= |a.paymasterData|)
    ensures UserOpHash(k, a).Some?
    ensures SameSignedFields(a, b) ==> UserOpHash(k, a) == UserOpHash(k, b)
    ensures UserOpHash(k, a) == UserOpHash(k, b) ==>
              SameSignedFields(a, b)
              || Collides(k, PreimagesOf(k, SignedView(a)) + PreimagesOf(k, SignedView(b)))
  {
    SignedViewBinds(a, b);
    if SignedView(b).Some? {
      DigestBinds(k, SignedView(a).value, SignedView(b).value);
    }
  }

  /** With a window of validity, there is a hash exactly when the last two bytes of
      validAfter are at most 114: they are read as a length to cut. */
  lemma WindowHashExists(k: Keccak, op: UserOp, until: nat, after: nat)
    requires op.paymaster != ZERO_ADDRESS && HasSlot(op)
    ensures UserOpHash(k, op.(paymasterData := WindowBytes(until, after))).Some?
            <==> Packable(op) && after % 65536 <= 114
  {
    hide UserOpHash;
    HashExistsIff(k, op.(paymasterData := WindowBytes(until, after)));
    WindowTail(op.paymaster, until, after);
  }

  /** The next validAfter up in steps of 65536, or down where up would carry. */
  function Neighbour(after: nat): nat {
    if after / 65536 % 256 < 255 then after + 65536 else after - 65536
  }

  /** Where there is a hash but the tail is not zero, the window is not bound: another
      window has the same hash, whatever the rest of the operation is. */
  lemma WindowNotBound(k: Keccak, op: UserOp, until: nat, after: nat)
    requires op.paymaster != ZERO_ADDRESS && HasSlot(op) && Packable(op)
    requires 0 < after % 65536 <= 114 && after < TWO256
    ensures UserOpHash(k, op.(paymasterData := WindowBytes(until, after))).Some?
    ensures UserOpHash(k, op.(paymasterData := WindowBytes(until, after)))
            == UserOpHash(k, op.(paymasterData := WindowBytes(until, Neighbour(after))))
    ensures Neighbour(after) < TWO256 && WindowBytes(until, after) != WindowBytes(until, Neighbour(after))
  {
    hide UserOpHash;
    WindowHashExists(k, op, until, after);
    NeighbourDiffers(after);
    var next := Neighbour(after);
    BehindUntil(UintWord(until), UintWord(after), UintWord(next));
    WindowTail(op.paymaster, until, after);
    SameHashForConfusable(k, op, WindowBytes(until, after), WindowBytes(until, next));
  }

  /** With a zero tail the window is bound, up to a collision among the strings hashed. */
  lemma WindowBound(k: Keccak, op: UserOp, until: nat, after: nat, until': nat, after': nat)
    requires InRange(op) && op.paymaster != ZERO_ADDRESS && HasSlot(op) && after % 65536 == 0
    requires until < TWO256 && after < TWO256 && until' < TWO256 && after' < TWO256
    ensures var a := op.(paymasterData := WindowBytes(until, after));
            var b := op.(paymasterData := WindowBytes(until', after'));
            && UserOpHash(k, a).Some?
            && (UserOpHash(k, a) == UserOpHash(k, b) ==>
                  (until == until' && after == after')
                  || Collides(k, PreimagesOf(k, SignedView(a)) + PreimagesOf(k, SignedView(b))))
  {
    hide UserOpHash, SignedView, PreimagesOf, Collides, TailZero, SameInit, CodeOf, UintWord;
    var a := op.(paymasterData := WindowBytes(until, after));
    var b := op.(paymasterData := WindowBytes(until', after'));
    WindowTail(op.paymaster, until, after);
    HashBindsFields(k, a, b);
    if WindowBytes(until, after) == WindowBytes(until', after') {
      SplitConcat(UintWord(until), UintWord(after), UintWord(until'), UintWord(after'));
      InRangeReads(until);
      InRangeReads(after);
      InRangeReads(until');
      InRangeReads(after');
    }
  }

  /** Neighbours differ in the third-last byte and no other. */
  lemma NeighbourDiffers(n: nat)
    requires n < TWO256
    ensures var m := Neighbour(n); var s, t := UintWord(n), UintWord(m);
            m < TWO256 && s[..29] == t[..29] && s[29] != t[29] && s[30..] == t[30..]
  {
    hide UintWord;
    if n / 65536 % 256 < 255 {
      NoCarry(n);
      NextThirdByte(n);
    } else {
      Borrow(n);
      NextThirdByte(n - 65536);
    }
  }

  lemma Borrow(n: nat)
    requires n / 65536 % 256 == 255
    ensures n >= 65536 && (n - 65536) / 65536 % 256 == 254
  {
    assert n / 65536 >= 255 && (n - 65536) / 65536 == n / 65536 - 1;
  }

  lemma NoCarry(n: nat)
    requires n < TWO256 && n / 65536 % 256 < 255
    ensures n + 65536 < TWO256
  {
    var p := TWO256 / 65536;
    assert n / 65536 < p && p % 256 == 0;
    assert n / 65536 != p - 1;
  }

  lemma SameHashForConfusable(k: Keccak, op: UserOp, d: Bytes, d': Bytes)
    requires op.paymaster != ZERO_ADDRESS && op.paymasterSignature != []
    requires |d| == |d'| == 64 && !TailZero(op.paymaster, d) && TailFits(op.paymaster, d)
    requires d[..61] == d'[..61] && d[61] != d'[61] && d[62..] == d'[62..]
    ensures UserOpHash(k, op.(paymasterData := d)) == UserOpHash(k, op.(paymasterData := d'))
  {
    NonZeroTailConfuses(op.paymaster, d, d', op.paymasterSignature);
    HashSeesPreimage(k, op, d, d');
  }

  lemma HashSeesPreimage(k: Keccak, op: UserOp, d: Bytes, d': Bytes)
    requires PaymasterPreimage(PaymasterField(op.paymaster, d, op.paymasterSignature, true))
             == PaymasterPreimage(PaymasterField(op.paymaster, d', op.paymasterSignature, true))
    ensures UserOpHash(k, op.(paymasterData := d)) == UserOpHash(k, op.(paymasterData := d'))
  {
  }

  /** Adding 65536 without a carry changes the third-last byte and no other. */
  lemma NextThirdByte(n: nat)
    requires n / 65536 % 256 < 255 && n + 65536 < TWO256
    ensures var s, t := UintWord(n), UintWord(n + 65536);
            s[..29] == t[..29] && s[29] != t[29] && s[30..] == t[30..]
  {
    var c, x, y, z := Digits(n);
    assert UintWord(n) == BigEndian(c, 29) + [x, y, z] by {
      LastThreeBytes(c, x, y, z, 29);
      WordIsBigEndian(n);
    }
    assert UintWord(n + 65536) == BigEndian(c, 29) + [x + 1, y, z] by {
      LastThreeBytes(c, x + 1, y, z, 29);
      assert ((c * 256 + (x + 1)) * 256 + y) * 256 + z == n + 65536;
      WordIsBigEndian(n + 65536);
    }
  }

  lemma Digits(n: nat) returns (c: nat, x: byte, y: byte, z: byte)
    ensures n == ((c * 256 + x) * 256 + y) * 256 + z && x == n / 65536 % 256
  {
    c, x, y, z := n / 65536 / 256, n / 65536 % 256, n / 256 % 256, n % 256;
  }

  lemma WordIsBigEndian(n: nat)
    requires n < TWO256
    ensures UintWord(n) == BigEndian(n, 29 + 3)
  {
  }

  lemma BehindUntil(u: Word, s: Word, t: Word)
    requires s[..29] == t[..29] && s[29] != t[29] && s[30..] == t[30..]
    ensures var d, d' := u + s, u + t;
            d[..61] == d'[..61] && d[61] != d'[61] && d[62..] == d'[62..]
  {
    assert (u + s)[..61] == u + s[..29] && (u + t)[..61] == u + t[..29];
    assert (u + s)[62..] == s[30..] && (u + t)[62..] == t[30..];
  }

  lemma LastThreeBytes(c: nat, x: byte, y: byte, z: byte, w: nat)
    ensures BigEndian(((c * 256 + x) * 256 + y) * 256 + z, w + 3) == BigEndian(c, w) + [x, y, z]
  {
    hide BigEndian;
    var n := c * 256 + x;
    var m := n * 256 + y;
    OneMoreByte(c, x, w);
    OneMoreByte(n, y, w + 1);
    OneMoreByte(m, z, w + 2);
    assert BigEndian(c, w) + [x] + [y] + [z] == BigEndian(c, w) + [x, y, z];
  }

  lemma OneMoreByte(n: nat, x: byte, w: nat)
    ensures BigEndian(n * 256 + x, w + 1) == BigEndian(n, w) + [x]
  {
    assert (n * 256 + x) / 256 == n && (n * 256 + x) % 256 == x;
  }

  /** EIP-712: the encoded domain. */
  predicate DomainEncoding(k: Keccak, op: UserOp, d: Bytes) {
    && |d| == 160
    && d[..32] == k(Ascii("EIP712Domain(string name,string version,uint256 chainId,address verifyingContract)"))
    && d[32..64] == k(Ascii("ERC4337")) && d[64..96] == k(Ascii("1"))
    && FromBigEndian(d[96..128]) == op.chainId
    && d[128..140] == Zeros(12) && d[140..160] == op.entryPoint
  }

  /** ERC-4337: the encoded operation. */
  predicate StructEncoding(k: Keccak, op: UserOp, e: Bytes) {
    && |e| == 288
    && e[..32] == k(Ascii("PackedUserOperation(address sender,uint256 nonce,bytes initCode,bytes callData,"
                          + "bytes32 accountGasLimits,uint256 preVerificationGas,bytes32 gasFees,"
                          + "bytes paymasterAndData)"))
    && e[32..44] == Zeros(12) && e[44..64] == op.sender && FromBigEndian(e[64..96]) == op.nonce
    && InitHashed(k, op, e[96..128]) && e[128..160] == k(op.callData)
    && FromBigEndian(e[160..176]) == op.verificationGasLimit && FromBigEndian(e[176..192]) == op.callGasLimit
    && FromBigEndian(e[192..224]) == op.preVerificationGas
    && FromBigEndian(e[224..240]) == op.maxPriorityFeePerGas && FromBigEndian(e[240..256]) == op.maxFeePerGas
    && PaymasterHashed(k, op, e[256..288])
  }

  /** EIP-7702 marker code is hashed as the delegate and what follows byte 20. */
  predicate InitHashed(k: Keccak, op: UserOp, h: Bytes) {
    var code: Bytes := if op.initCode == [] then [0x77, 0x02] else op.initCode;
    if |code| >= 2 && code[0] == 0x77 && code[1] == 0x02 && op.delegate != Zeros(20) then
      h == k(op.delegate + if |code| <= 20 then [] else code[20..])
    else h == k(code)
  }

  /** The paymaster, 100000 and 50000 gas in 16 bytes each, and the data. */
  function PaymasterGiven(op: UserOp): (r: Bytes)
    ensures |r| == 52 + |op.paymasterData|
  {
    op.paymaster + (Zeros(13) + [0x01, 0x86, 0xa0]) + (Zeros(14) + [0xc3, 0x50]) + op.paymasterData
  }

  /** The paymaster, its gas limits and data, less what the last two bytes announce, and
      the magic. */
  predicate PaymasterHashed(k: Keccak, op: UserOp, h: Bytes) {
    if op.paymaster == Zeros(20) then h == k([])
    else
      var head := PaymasterGiven(op);
      var announced: nat := 256 * (head[|head| - 2] as nat) + head[|head| - 1];
      && announced + 2 <= |head|
      && h == k((if announced == 0 then head else head[..|head| - announced - 2])
                + [0x22, 0xe3, 0x25, 0xa2, 0x97, 0x43, 0x96, 0x56])
  }

  /** The hash that is signed, byte for byte: 0x1901, the hash of the encoded domain, the
      hash of the encoded operation. */
  lemma SignedLayout(k: Keccak, op: UserOp) returns (d: Bytes, e: Bytes)
    requires InRange(op) && HasSlot(op) && Hashable(op)
    ensures UserOpHash(k, op) == Some(k([0x19, 0x01] + k(d) + k(e)))
    ensures DomainEncoding(k, op, d) && StructEncoding(k, op, e)
  {
    hide SignedView, StructWords, DomainWords, Digest, DomainEncoding, StructEncoding, Hashable;
    HashExistsIff(k, op);
    var v := SignedView(op).value;
    d, e := Flatten(DomainWords(k, v)), Flatten(StructWords(k, v));
    DigestWritten(k, v);
    DomainIsEncoded(k, op);
    StructIsEncoded(k, op);
  }

  lemma DigestWritten(k: Keccak, v: View)
    ensures Digest(k, v) == k([0x19, 0x01] + k(Flatten(DomainWords(k, v))) + k(Flatten(StructWords(k, v))))
  {
    var d: Bytes, e: Bytes := k(Flatten(DomainWords(k, v))), k(Flatten(StructWords(k, v)));
    assert OuterPreimage(k, v) == [0x19, 0x01] + (d + e);
    assert [0x19, 0x01] + d + e == [0x19, 0x01] + (d + e);
  }

  lemma DomainIsEncoded(k: Keccak, op: UserOp)
    requires InRange(op) && HasSlot(op) && SignedView(op).Some?
    ensures DomainEncoding(k, op, Flatten(DomainWords(k, SignedView(op).value)))
  {
    hide UintWord, FromBigEndian, PackWord, PaymasterField, PaymasterPreimage, StructWords, DomainWords, Flatten,
      SignedView, InitPreimage, CodeOf, Ascii;
    SlotView(op);
    StructLayout(k, SignedView(op).value);
    InRangeReads(op.chainId);
    TypeTexts();
  }

  lemma StructIsEncoded(k: Keccak, op: UserOp)
    requires InRange(op) && HasSlot(op) && SignedView(op).Some?
    ensures StructEncoding(k, op, Flatten(StructWords(k, SignedView(op).value)))
  {
    hide UintWord, BigEndian, FromBigEndian, PackWord, PaymasterField, PaymasterPreimage, StructWords, DomainWords,
      Flatten, SignedView, InitPreimage, CodeOf, Ascii, InitHashed, PaymasterHashed;
    SlotView(op);
    var v := SignedView(op).value;
    StructLayout(k, v);
    PackedHalves(op.verificationGasLimit, op.callGasLimit);
    PackedHalves(op.maxPriorityFeePerGas, op.maxFeePerGas);
    InRangeReads(op.nonce);
    InRangeReads(op.preVerificationGas);
    HalfReads(op.verificationGasLimit);
    HalfReads(op.callGasLimit);
    HalfReads(op.maxPriorityFeePerGas);
    HalfReads(op.maxFeePerGas);
    var e := Flatten(StructWords(k, v));
    Halves(e, 160, BigEndian(op.verificationGasLimit, 16), BigEndian(op.callGasLimit, 16));
    Halves(e, 224, BigEndian(op.maxPriorityFeePerGas, 16), BigEndian(op.maxFeePerGas, 16));
    TypeTexts();
    InitIsHashed(k, op);
    PaymasterIsHashed(k, op);
  }

  /** The texts hashed are their ASCII codes. */
  lemma NameBytes()
    ensures Ascii("ERC4337") == [0x45, 0x52, 0x43, 0x34, 0x33, 0x33, 0x37] && Ascii("1") == [0x31]
    ensures forall s: string, i: nat | i < |s| && s[i] as int < 256 :: |Ascii(s)| == |s| && Ascii(s)[i] == s[i] as int
  {
  }

  lemma TypeTexts()
    ensures DOMAIN_TYPE == "EIP712Domain(string name,string version,uint256 chainId,address verifyingContract)"
    ensures PACKED_USER_OP_TYPE
            == "PackedUserOperation(address sender,uint256 nonce,bytes initCode,bytes callData,"
               + "bytes32 accountGasLimits,uint256 preVerificationGas,bytes32 gasFees,"
               + "bytes paymasterAndData)"
  {
  }

  lemma InitIsHashed(k: Keccak, op: UserOp)
    ensures InitHashed(k, op, k(InitPreimage(CodeOf(op), op.delegate)))
  {
    var code := CodeOf(op);
    assert |code| >= 2 ==> (code[..2] == MARKER <==> code[0] == 0x77 && code[1] == 0x02);
  }

  lemma PaymasterIsHashed(k: Keccak, op: UserOp)
    requires HasSlot(op) && PreimageOfForm(op, true).Some?
    ensures PaymasterHashed(k, op, k(PreimageOfForm(op, true).value))
  {
    hide BigEndian;
    if op.paymaster == ZERO_ADDRESS {
      assert PaymasterField(op.paymaster, op.paymasterData, op.paymasterSignature, true) == [];
    } else {
      hide PaymasterField, PaymasterPreimage, Uint128Bytes;
      var head := PaymasterHead(op.paymaster, op.paymasterData);
      SigningPreimage(op.paymaster, op.paymasterData, op.paymasterSignature);
      GasGiven();
      ReadTwo(head[|head| - 2], head[|head| - 1]);
      assert head[|head| - 2..] == [head[|head| - 2], head[|head| - 1]];
    }
  }

  lemma GasGiven()
    ensures Uint128Bytes(PAYMASTER_VERIFY_GAS) == Zeros(13) + [0x01, 0x86, 0xa0]
    ensures Uint128Bytes(PAYMASTER_POST_OP_GAS) == Zeros(14) + [0xc3, 0x50]
  {
    hide BigEndian, Uint128Bytes;
    Uint128Is(PAYMASTER_VERIFY_GAS);
    Uint128Is(PAYMASTER_POST_OP_GAS);
    LastThreeBytes(0, 0x01, 0x86, 0xa0, 13);
    LastThreeBytes(0, 0x00, 0xc3, 0x50, 13);
    ZeroIsZeros(13);
    assert Zeros(13) + [0x00, 0xc3, 0x50] == Zeros(14) + [0xc3, 0x50];
  }

  lemma Uint128Is(v: nat)
    requires v < TWO64
    ensures Uint128Bytes(v) == BigEndian(v, 16)
  {
    hide BigEndian;
    PowValues();
    WriteParts(0, v, 8, 8);
    ZeroIsZeros(8);
  }

  lemma {:induction false} ZeroIsZeros(w: nat)
    ensures BigEndian(0, w) == Zeros(w)
  {
    if w == 0 {
    } else {
      ZeroIsZeros(w - 1);
    }
  }

  lemma HalfReads(n: nat)
    requires n < TWO128
    ensures FromBigEndian(BigEndian(n, 16)) == n
  {
    hide BigEndian, FromBigEndian;
    ReadBack(n, 16);
    PowValues();
    SmallRest(n, Pow256(16));
  }

  lemma InRangeReads(n: nat)
    requires n < TWO256
    ensures FromBigEndian(UintWord(n)) == n
  {
    UintWordRead(n);
    SmallRest(n, TWO256);
  }

  lemma Halves(e: Bytes, at: nat, a: Bytes, b: Bytes)
    requires at + 32 <= |e| && |a| == |b| == 16 && e[at..at + 32] == a + b
    ensures e[at..at + 16] == a && e[at + 16..at + 32] == b
  {
    assert e[at..at + 16] == e[at..at + 32][..16] && e[at + 16..at + 32] == e[at..at + 32][16..];
  }
}
