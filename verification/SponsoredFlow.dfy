/** The sponsored transfer from build to submission: what the client signed at build
    time is what preflight checks and what the EntryPoint sees on chain. */
module SponsoredFlow {
  import opened Wrappers
  import opened Bytes
  import opened GasWords
  import opened PaymasterForms
  import opened UserOps
  import opened HashBinding
  import opened Fees
  import opened SponsoredSend

  const VERIFICATION_GAS: nat := 150_000
  const CALL_GAS: nat := 120_000
  const PRE_VERIFICATION_GAS: nat := 50_000
  const TOKEN_TRANSFER_SIGNATURE := "executeTokenTransfer(address,address,uint256)"

  function ExecuteTokenTransferCall(k: Keccak, token: Address, to: Address, amount: int): Bytes {
    k(Ascii(TOKEN_TRANSFER_SIGNATURE))[..4] + AddressWord(token) + AddressWord(to) + UintWord(amount % TWO256)
  }

  function BuildTransferUserOp(k: Keccak, cfg: Config, from: Address, to: Address, token: Address, amount: int,
                               nonce: nat, authNonce: nat, requestId: string, fee: Fee, now: nat): UserOp {
    UserOp(from, nonce, MARKER, ExecuteTokenTransferCall(k, token, to, amount),
           VERIFICATION_GAS, CALL_GAS, PRE_VERIFICATION_GAS, fee.cap, fee.tip,
           cfg.paymaster, WindowBytes((now + 3600) % TWO64, 0), PLACEHOLDER, [],
           cfg.entryPoint, cfg.chainId, authNonce, cfg.delegate, requestId)
  }

  datatype BuildResponse = BuildResponse(op: UserOp, userOpHash: Option<Word>, auth: AuthTuple)

  /** What is asked for, and what the node and the clock answered. */
  datatype Order = Order(
    from: Address, to: Address, token: Address, amount: int, requestId: string,
    nonce: nat, authCount: nat, quotes: Quotes, now: nat)

  /** The build call: the operation, the hash to sign, and the tuple whose digest the
      sender signs. */
  function BuildSponsoredTransfer(k: Keccak, cfg: Config, o: Order): BuildResponse {
    var authNonce := o.authCount % TWO64;
    var fee := StartingFee(o.quotes);
    var op := BuildTransferUserOp(k, cfg, o.from, o.to, o.token, o.amount, o.nonce, authNonce, o.requestId, fee, o.now);
    BuildResponse(op, UserOpHash(k, op), AuthTuple(cfg.chainId % TWO256, cfg.delegate, authNonce))
  }

  /** What may come back from the client: the signed fields as built. The deployment
      fields, both signatures and the request id may be anything, and the init code
      may have been dropped. */
  predicate Transported(built: UserOp, received: UserOp) {
    && received.sender == built.sender && received.nonce == built.nonce
    && (received.initCode == built.initCode || received.initCode == [])
    && received.callData == built.callData
    && received.verificationGasLimit == built.verificationGasLimit && received.callGasLimit == built.callGasLimit
    && received.preVerificationGas == built.preVerificationGas
    && received.maxFeePerGas == built.maxFeePerGas && received.maxPriorityFeePerGas == built.maxPriorityFeePerGas
    && received.paymasterData == built.paymasterData && received.authNonce == built.authNonce
  }

  /** The operation preflight checks and the send loop starts from. */
  function Checked(cfg: Config, received: UserOp): UserOp {
    WithPlaceholder(Configure(received, cfg))
  }

  /** A built operation has the placeholder and a zero tail, and with fees below 2^128 it
      is in range and has a hash. */
  lemma BuiltIsSponsored(k: Keccak, cfg: Config, o: Order)
    ensures var b, fee := BuildSponsoredTransfer(k, cfg, o), StartingFee(o.quotes);
            && BareCode(b.op) && HasSlot(b.op)
            && TailZero(b.op.paymaster, b.op.paymasterData)
            && (fee.cap < TWO128 && o.nonce < TWO256 && cfg.chainId < TWO256 ==> InRange(b.op) && b.userOpHash.Some?)
  {
    hide UserOpHash, TailZero, ExecuteTokenTransferCall, StartingFee;
    var op := BuildSponsoredTransfer(k, cfg, o).op;
    WindowTail(cfg.paymaster, (o.now + 3600) % TWO64, 0);
    StartingFeeValid(o.quotes);
    if InRange(op) {
      HashBindsFields(k, op, op);
    }
  }

  /** A call of the sender's account that moves `amount` of `token` to `to`, in the ABI's
      layout; the amount is the requested one exactly when it fits a uint256. */
  predicate MovesTokens(k: Keccak, data: Bytes, token: Address, to: Address, amount: int) {
    && |data| == 100
    && data[..4] == k(Ascii("executeTokenTransfer(address,address,uint256)"))[..4]
    && data[4..16] == Zeros(12) && data[16..36] == token
    && data[36..48] == Zeros(12) && data[48..68] == to
    && (FromBigEndian(data[68..100]) == amount <==> 0 <= amount < TWO256)
  }

  /** A window open now, for an hour. */
  predicate OpensForAnHour(data: Bytes, now: nat) {
    && |data| == 64
    && FromBigEndian(data[..32]) == (now + 3600) % TWO64 && FromBigEndian(data[32..]) == 0
  }

  /** The operation built is the one asked for, field by field, and the tuple names the
      configured delegate and chain and the sender's count. */
  lemma BuiltAsOrdered(k: Keccak, cfg: Config, o: Order)
    ensures var b := BuildSponsoredTransfer(k, cfg, o); var op := b.op;
            && op.sender == o.from && op.nonce == o.nonce && op.initCode == [0x77, 0x02]
            && MovesTokens(k, op.callData, o.token, o.to, o.amount)
            && op.verificationGasLimit == 150_000 && op.callGasLimit == 120_000 && op.preVerificationGas == 50_000
            && op.maxFeePerGas == StartingFee(o.quotes).cap && op.maxPriorityFeePerGas == StartingFee(o.quotes).tip
            && op.paymaster == cfg.paymaster && OpensForAnHour(op.paymasterData, o.now)
            && op.paymasterSignature == [0] && op.signature == []
            && op.entryPoint == cfg.entryPoint && op.chainId == cfg.chainId && op.delegate == cfg.delegate
            && op.authNonce == o.authCount % TWO64 && op.requestId == o.requestId
            && b.auth == AuthTuple(cfg.chainId % TWO256, cfg.delegate, o.authCount % TWO64)
            && b.userOpHash == UserOpHash(k, op)
  {
    hide UserOpHash, StartingFee, ExecuteTokenTransferCall, MovesTokens, UintWord, FromBigEndian;
    CallReads(k, o.token, o.to, o.amount);
    WindowIs((o.now + 3600) % TWO64, 0);
  }

  lemma WindowIs(until: nat, after: nat)
    requires until < TWO64 && after < TWO64
    ensures var data := WindowBytes(until, after);
            |data| == 64 && FromBigEndian(data[..32]) == until && FromBigEndian(data[32..]) == after
  {
    hide UintWord, FromBigEndian;
    var data := WindowBytes(until, after);
    assert data[..32] == UintWord(until) && data[32..] == UintWord(after);
    InRangeReads(until);
    InRangeReads(after);
  }

  /** Build to preflight: whatever transport did to the fields that are overwritten
      or not signed, the hash recomputed from the received operation is the built one. */
  lemma PreflightHashIsBuilt(k: Keccak, cfg: Config, built: UserOp, received: UserOp)
    requires BareCode(built) && HasSlot(built) && Configure(built, cfg) == built
    requires Transported(built, received)
    ensures UserOpHash(k, Checked(cfg, received)) == UserOpHash(k, built)
  {
    hide PackWord, PaymasterPreimage, PaymasterHead;
    var checked := Checked(cfg, received);
    assert PaymasterField(checked.paymaster, checked.paymasterData, checked.paymasterSignature, true)
        == PaymasterField(built.paymaster, built.paymasterData, built.paymasterSignature, true);
    SameViewSameHash(k, built, checked);
  }

  lemma SameViewSameHash(k: Keccak, a: UserOp, b: UserOp)
    requires a.sender == b.sender && a.nonce == b.nonce && a.callData == b.callData
    requires (if a.initCode == [] then MARKER else a.initCode) == (if b.initCode == [] then MARKER else b.initCode)
    requires a.verificationGasLimit == b.verificationGasLimit && a.callGasLimit == b.callGasLimit
    requires a.preVerificationGas == b.preVerificationGas
    requires a.maxFeePerGas == b.maxFeePerGas && a.maxPriorityFeePerGas == b.maxPriorityFeePerGas
    requires a.delegate == b.delegate && a.entryPoint == b.entryPoint && a.chainId == b.chainId
    requires PaymasterField(a.paymaster, a.paymasterData, a.paymasterSignature, true)
             == PaymasterField(b.paymaster, b.paymasterData, b.paymasterSignature, true)
    ensures UserOpHash(k, a) == UserOpHash(k, b)
  {
    hide PackWord, PaymasterPreimage, PaymasterField;
  }

  /** The hash the EntryPoint computes of a submitted operation. */
  function ChainHash(c: Crypto, cfg: Config, tx: SetCodeTx): Option<Word> {
    PackedHash(c.keccak, tx.op, cfg.delegate, tx.to, cfg.chainId)
  }

  /** Every submission of a run hashes, on chain, to the hash preflight checked, and
      does so exactly when the paymaster data ends in two zero bytes. */
  lemma SubmittedHash(c: Crypto, cfg: Config, checked: UserOp, userOpSig: Bytes, now: nat, authSig: Bytes,
                      start: Fee, i: nat, s: Submission, final: UserOp)
    requires checked.paymasterSignature != [] && Configure(checked, cfg) == checked
    requires FinalOp(c, cfg, checked, userOpSig, now) == Some(final) && IsAttempt(cfg, final, authSig, start, i, s)
    ensures checked.paymaster == ZERO_ADDRESS || TailZero(checked.paymaster, checked.paymasterData) ==>
              ChainHash(c, cfg, s.tx) == UserOpHash(c.keccak, checked)
    ensures ChainHash(c, cfg, s.tx) == UserOpHash(c.keccak, checked) ==>
              checked.paymaster == ZERO_ADDRESS || TailZero(checked.paymaster, checked.paymasterData)
              || Collides(c.keccak, HashedFor(c.keccak, final))
    ensures s.tx.auth.tuple == AuthTuple(cfg.chainId % TWO256, cfg.delegate, checked.authNonce)
  {
    hide UserOpHash, PackedHash, TailZero, Collides, HashedFor;
    FinalOpStable(c, cfg, checked, userOpSig, now);
    FinalFields(c, cfg, checked, userOpSig, now);
    PackedEitherWay(final);
    OnChainHashMatches(c.keccak, final);
    OnChainIsPacked(c.keccak, final);
  }

  lemma FinalFields(c: Crypto, cfg: Config, op: UserOp, userOpSig: Bytes, now: nat)
    requires FinalOp(c, cfg, op, userOpSig, now).Some? && op.paymasterSignature != []
    ensures var f := FinalOp(c, cfg, op, userOpSig, now).value;
            |f.paymasterSignature| == 65 && SameButSignatures(f, op)
  {
    hide UserOpHash;
  }

  lemma PackedEitherWay(op: UserOp)
    ensures PackUserOp(op, true).Some? <==> PackUserOp(op, false).Some?
  {
  }

  lemma OnChainIsPacked(k: Keccak, op: UserOp)
    requires PackUserOp(op, false).Some?
    ensures OnChainHash(k, op) == PackedHash(k, PackUserOp(op, false).value, op.delegate, op.entryPoint, op.chainId)
  {
  }

  /** Build to chain: for an operation this service built, every submission made for
      what came back hashes on chain to the hash the build call returned, and carries
      the authorization tuple whose digest it returned. */
  lemma BuildToChain(c: Crypto, cfg: Config, o: Order, received: UserOp, userOpSig: Bytes, later: nat,
                     authSig: Bytes, start: Fee, i: nat, s: Submission, final: UserOp)
    requires Transported(BuildSponsoredTransfer(c.keccak, cfg, o).op, received)
    requires Checked(cfg, received).paymasterSignature != []
    requires FinalOp(c, cfg, Checked(cfg, received), userOpSig, later) == Some(final)
    requires IsAttempt(cfg, final, authSig, start, i, s)
    ensures var b := BuildSponsoredTransfer(c.keccak, cfg, o);
            && UserOpHash(c.keccak, Checked(cfg, received)) == b.userOpHash
            && ChainHash(c, cfg, s.tx) == b.userOpHash
            && s.tx.auth.tuple == b.auth
  {
    hide UserOpHash, PackedHash, TailZero, FinalOp, IsAttempt, ExecuteTokenTransferCall, UintWord, StartingFee;
    var b := BuildSponsoredTransfer(c.keccak, cfg, o);
    BuiltIsSponsored(c.keccak, cfg, o);
    PreflightHashIsBuilt(c.keccak, cfg, b.op, received);
    SubmittedHash(c, cfg, Checked(cfg, received), userOpSig, later, authSig, start, i, s, final);
  }

  /** The operation inside a submission is the one asked for: the order's sender, nonce,
      call and fees (which fit 128 bits), the service's gas limits, its paymaster with the hour's window, the
      client's signature. */
  predicate CarriesOrder(k: Keccak, cfg: Config, o: Order, userOpSig: Bytes, p: Packed) {
    var fee := StartingFee(o.quotes);
    && p.sender == o.from && p.nonce == o.nonce && p.initCode == [0x77, 0x02]
    && MovesTokens(k, p.callData, o.token, o.to, o.amount)
    && FromBigEndian(p.accountGasLimits[..16]) == 150_000 && FromBigEndian(p.accountGasLimits[16..]) == 120_000
    && p.preVerificationGas == 50_000
    && (fee.cap < TWO128 ==> FromBigEndian(p.gasFees[..16]) == fee.tip && FromBigEndian(p.gasFees[16..]) == fee.cap)
    && (if cfg.paymaster == ZERO_ADDRESS then p.paymasterAndData == []
        else
          && |p.paymasterAndData| == 191 && p.paymasterAndData[..20] == cfg.paymaster
          && FromBigEndian(p.paymasterAndData[20..36]) == 100_000 && FromBigEndian(p.paymasterAndData[36..52]) == 50_000
          && OpensForAnHour(p.paymasterAndData[52..116], o.now))
    && p.signature == NormalizeV(userOpSig)
  }

  lemma SubmittedAsOrdered(c: Crypto, cfg: Config, o: Order, received: UserOp, userOpSig: Bytes, later: nat,
                           authSig: Bytes, start: Fee, i: nat, s: Submission, final: UserOp)
    requires Transported(BuildSponsoredTransfer(c.keccak, cfg, o).op, received)
    requires Checked(cfg, received).paymasterSignature != []
    requires FinalOp(c, cfg, Checked(cfg, received), userOpSig, later) == Some(final)
    requires IsAttempt(cfg, final, authSig, start, i, s)
    ensures CarriesOrder(c.keccak, cfg, o, userOpSig, s.tx.op)
    ensures s.tx.auth.tuple == AuthTuple(cfg.chainId % TWO256, cfg.delegate, o.authCount % TWO64)
  {
    hide UserOpHash, StartingFee, MovesTokens, OpensForAnHour, ExecuteTokenTransferCall, FromBigEndian, PackWord,
      PaymasterField, FeesAt, SignPaymaster, DecodePaymasterWindow, NormalizeV;
    var fee := StartingFee(o.quotes);
    BuiltAsOrdered(c.keccak, cfg, o);
    StartingFeeValid(o.quotes);
    FinalFields(c, cfg, Checked(cfg, received), userOpSig, later);
    WordReads(150_000, 120_000);
    if fee.cap < TWO128 { WordReads(fee.tip, fee.cap); }
    if cfg.paymaster == ZERO_ADDRESS {
      assert PaymasterField(final.paymaster, final.paymasterData, final.paymasterSignature, false) == [] by {
        NoField(final.paymasterData, final.paymasterSignature);
      }
    } else {
      OnChainFieldReads(final.paymaster, final.paymasterData, final.paymasterSignature);
      var f := PaymasterField(final.paymaster, final.paymasterData, final.paymasterSignature, false);
      assert f[52..|f| - 65 - 10] == f[52..116];
    }
  }

  lemma NoField(data: Bytes, sig: Bytes)
    ensures PaymasterField(ZERO_ADDRESS, data, sig, false) == []
  {
  }

  lemma WordReads(high: nat, low: nat)
    requires high < TWO128 && low < TWO128
    ensures PackWord(high, low).Some?
    ensures var w := PackWord(high, low).value; FromBigEndian(w[..16]) == high && FromBigEndian(w[16..]) == low
  {
    hide PackWord, BigEndian, FromBigEndian;
    PackedHalves(high, low);
    HalfReads(high);
    HalfReads(low);
    var w := PackWord(high, low).value;
    assert w[..16] == BigEndian(high, 16) && w[16..] == BigEndian(low, 16);
  }

  /** The authorization of every submission carries the count the node gave for the
      sender at the start of this send, and the one the operation was built for. */
  lemma AuthNonceWasRead(c: Crypto, cfg: Config, checked: UserOp, userOpSig: Bytes, now: nat, authSig: Bytes,
                         start: Fee, events: seq<Event>, run: seq<Submission>, i: nat, final: UserOp)
    requires checked.paymasterSignature != [] && Configure(checked, cfg) == checked
    requires FinalOp(c, cfg, checked, userOpSig, now) == Some(final) && GoodRun(cfg, final, authSig, start, run)
    requires SendEvents(cfg, checked, events, run) && i < |run|
    ensures events[0].Counted? && events[0].account == checked.sender && events[0].count.Ok?
            && run[i].tx.auth.tuple.nonce == events[0].count.value % TWO64 == checked.authNonce
  {
    hide FinalOp, IsAttempt, LoopEvents;
    assert IsAttempt(cfg, final, authSig, start, i, run[i]);
    SubmittedHash(c, cfg, checked, userOpSig, now, authSig, start, i, run[i], final);
  }

  // ----- what the chain reads

  lemma CallReads(k: Keccak, token: Address, to: Address, amount: int)
    ensures MovesTokens(k, ExecuteTokenTransferCall(k, token, to, amount), token, to, amount)
  {
    hide UintWord, FromBigEndian, Ascii, AddressWord;
    InRangeReads(amount % TWO256);
    CallParts(k(Ascii(TOKEN_TRANSFER_SIGNATURE))[..4], token, to, UintWord(amount % TWO256));
  }

  lemma CallParts(selector: Bytes, token: Address, to: Address, amount: Word)
    requires |selector| == 4
    ensures var data := selector + AddressWord(token) + AddressWord(to) + amount;
            && |data| == 100 && data[..4] == selector && data[68..100] == amount
            && data[4..16] == Zeros(12) && data[16..36] == token && data[36..48] == Zeros(12) && data[48..68] == to
  {
    var t, r := AddressWord(token), AddressWord(to);
    var data := selector + t + r + amount;
    assert t[..12] == Zeros(12) && t[12..] == token && r[..12] == Zeros(12) && r[12..] == to;
    hide AddressWord;
    assert data[4..36] == t && data[36..68] == r;
    assert data[4..16] == data[4..36][..12] && data[16..36] == data[4..36][12..];
    assert data[36..48] == data[36..68][..12] && data[48..68] == data[36..68][12..];
  }

  /** The window the paymaster signs is the one encoded into the operation. */
  lemma WindowReadBack(until: nat, after: nat, now: nat)
    requires until < TWO64 && after < TWO64
    ensures DecodePaymasterWindow(WindowBytes(until, after), now) == Some(Window(until, after))
    ensures DecodePaymasterWindow([], now) == Some(Window((now + 3600) % TWO64, 0))
    ensures forall data: Bytes | 0 < |data| < 64 :: DecodePaymasterWindow(data, now).None?
  {
    hide UintWord, FromBigEndian;
    var data := WindowBytes(until, after);
    assert data[..32] == UintWord(until) && data[32..64] == UintWord(after);
    InRangeReads(until);
    InRangeReads(after);
    SmallRest(until, TWO64);
    SmallRest(after, TWO64);
  }

  /** The digest the paymaster signs decides hash and window, up to a collision. */
  lemma PaymasterDigestBinds(c: Crypto, hash: Word, w: Window, hash': Word, w': Window)
    requires w.until < TWO64 && w.after < TWO64 && w'.until < TWO64 && w'.after < TWO64
    ensures var s, s' := hash + UintWord(w.until) + UintWord(w.after), hash' + UintWord(w'.until) + UintWord(w'.after);
            PaymasterDigest(c, hash, w) == PaymasterDigest(c, hash', w') ==>
              (hash == hash' && w == w') || (s != s' && c.keccak(s) == c.keccak(s'))
  {
    hide UintWord;
    var s, s' := hash + UintWord(w.until) + UintWord(w.after), hash' + UintWord(w'.until) + UintWord(w'.after);
    if s == s' {
      SplitConcat(hash + UintWord(w.until), UintWord(w.after), hash' + UintWord(w'.until), UintWord(w'.after));
      SplitConcat(hash, UintWord(w.until), hash', UintWord(w'.until));
      InRangeReads(w.until);
      InRangeReads(w.after);
      InRangeReads(w'.until);
      InRangeReads(w'.after);
    }
  }

  /** A full authorization signature is carried without loss: r, s and v put back
      together are its first 65 bytes. A shorter one is not carried at all. */
  lemma AuthCarriesSignature(chainId: nat, delegate: Address, nonce: nat, sig: Bytes)
    ensures var a := AuthFromSignature(chainId, delegate, nonce, sig);
            if |sig| >= 65 then BigEndian(a.r, 32) + BigEndian(a.s, 32) + [a.v] == sig[..65]
            else a.r == 0 && a.s == 0 && a.v == 0
  {
    if |sig| >= 65 {
      WriteBack(sig[..32]);
      WriteBack(sig[32..64]);
      assert sig[..65] == sig[..32] + sig[32..64] + [sig[64]];
    }
  }

  /** The signature as the recovery takes it: a recovery id of 27 or more is lowered. */
  function Plainly(sig: Signature): Signature {
    sig[..64] + [if sig[64] >= 27 then sig[64] - 27 else sig[64]]
  }

  /** Ids 0 and 1 leave as 27 and 28, and recovering what left is recovering what came. */
  lemma NormalizedRecovers(c: Crypto, hash: Word, sig: Signature)
    ensures NormalizeV(sig)[..64] == sig[..64]
    ensures NormalizeV(sig)[64] == if sig[64] < 27 then sig[64] + 27 else sig[64]
    ensures RecoverSigner(c, hash, NormalizeV(sig)) == c.recover(hash, Plainly(sig))
  {
    var n := NormalizeV(sig);
    assert n[64] >= 27 && n[..64] == sig[..64] && n[..64] + [n[64] - 27] == Plainly(sig);
  }

  /** The key's signature over the hash and the window in the paymaster data. */
  function WindowSignature(c: Crypto, hash: Word, data: Bytes, key: Bytes): Option<Signature>
    requires |data| == 64
  {
    c.sign(key, WindowDigest(c, hash, data))
  }

  function WindowDigest(c: Crypto, hash: Word, data: Bytes): Word
    requires |data| == 64
  {
    c.keccak(hash + UintWord(FromBigEndian(data[..32]) % TWO64) + UintWord(FromBigEndian(data[32..]) % TWO64))
  }

  /** Preflight accepts exactly a placed operation with 64 bytes of paymaster data, a
      65-byte user signature that recovers to the sender over the hash, and a configured
      paymaster key that is the on-chain signer, if that was read, and whose signature
      over hash and window recovers to itself. */
  lemma AcceptedIff(c: Crypto, cfg: Config, op: UserOp, userOpSig: Bytes, onChainSigner: Address, now: nat)
    ensures var hash, key := UserOpHash(c.keccak, op), c.parseKey(cfg.verifyingKey);
            Accepted(c, cfg, op, userOpSig, onChainSigner, now) <==>
            && HasSlot(op) && |op.paymasterData| == 64 && |userOpSig| == 65 && hash.Some? && key.Some?
            && c.recover(hash.value, Plainly(userOpSig)) == Some(op.sender)
            && (onChainSigner == ZERO_ADDRESS || onChainSigner == c.addressOf(key.value))
            && var sig := WindowSignature(c, hash.value, op.paymasterData, key.value);
               sig.Some? && c.recover(WindowDigest(c, hash.value, op.paymasterData), Plainly(sig.value))
                            == Some(c.addressOf(key.value))
  {
    hide UserOpHash, RecoverSigner, NormalizeV, Plainly, UintWord, FromBigEndian;
    var hash, key, data := UserOpHash(c.keccak, op), c.parseKey(cfg.verifyingKey), op.paymasterData;
    if hash.Some? && key.Some? && |data| == 64 {
      assert data[32..64] == data[32..];
      if |userOpSig| == 65 { NormalizedRecovers(c, hash.value, userOpSig); }
      var sig := WindowSignature(c, hash.value, data, key.value);
      if sig.Some? { NormalizedRecovers(c, WindowDigest(c, hash.value, data), sig.value); }
    }
  }

  /** What preflight accepted, the chain accepts: over the submitted operation's hash the
      user signature recovers to the sender, and the paymaster signature, whenever it is
      made, to the configured key, which is the on-chain signer if that was known. */
  lemma SubmissionValidates(c: Crypto, cfg: Config, checked: UserOp, userOpSig: Bytes, onChainSigner: Address, now: nat,
                            later: nat, final: UserOp)
    requires Accepted(c, cfg, checked, userOpSig, onChainSigner, now)
    requires FinalOp(c, cfg, checked, userOpSig, later) == Some(final)
    ensures var hash, key := UserOpHash(c.keccak, final), c.parseKey(cfg.verifyingKey);
            var w := DecodePaymasterWindow(final.paymasterData, later);
            && hash.Some? && key.Some? && w.Some?
            && RecoverSigner(c, hash.value, final.signature) == Some(final.sender)
            && RecoverSigner(c, PaymasterDigest(c, hash.value, w.value), final.paymasterSignature)
               == Some(c.addressOf(key.value))
            && (onChainSigner != ZERO_ADDRESS ==> c.addressOf(key.value) == onChainSigner)
  {
    hide UserOpHash, RecoverSigner, PaymasterDigest, SignPaymaster;
    AcceptedHasPlaceholder(c, checked, UserOpHash(c.keccak, checked).value, userOpSig);
    FinalOpStable(c, cfg, checked, userOpSig, later);
    var signed := checked.(signature := NormalizeV(userOpSig));
    HashIgnoresSignatures(c.keccak, checked, signed.signature, checked.paymasterSignature);
  }
}
