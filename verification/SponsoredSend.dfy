/** Sending a sponsored transfer: the operation object is configured, preflighted,
    signed and submitted, with up to two retries over the same object. */
module SponsoredSend {
  import opened Wrappers
  import opened Bytes
  import opened Text
  import opened PaymasterForms
  import opened UserOps
  import opened HashBinding
  import opened Fees
  import opened SendErrors

  type Signature = s: Bytes | |s| == 65 witness Zeros(65)

  /** The foreign cryptography, each operation a function of its inputs. */
  datatype Crypto = Crypto(
    keccak: Keccak,
    parseKey: string -> Option<Bytes>,
    sign: (Bytes, Word) -> Option<Signature>,
    addressOf: Bytes -> Address,
    recover: (Word, Signature) -> Option<Address>)

  datatype Config = Config(
    entryPoint: Address, delegate: Address, paymaster: Address, sponsorAddress: Address,
    sponsorKey: string, verifyingKey: string, chainId: nat)

  datatype Outcome<+T> = Done(value: T) | Failed(message: string) | Panicked

  const PLACEHOLDER: Bytes := [0]
  const OUTER_GAS_LIMIT: nat := 1_500_000
  const MAX_SEND_ATTEMPTS: nat := 3

  // ----- the operation object

  class UserOperation {
    var sender: Address
    var nonce: nat
    var initCode: Bytes
    var callData: Bytes
    var verificationGasLimit: nat
    var callGasLimit: nat
    var preVerificationGas: nat
    var maxFeePerGas: nat
    var maxPriorityFeePerGas: nat
    var paymaster: Address
    var paymasterData: Bytes
    var paymasterSignature: Bytes
    var signature: Bytes
    var entryPoint: Address
    var chainId: nat
    var authNonce: nat
    var delegate: Address
    var requestId: string

    function Value(): UserOp
      reads this
    {
      UserOp(sender, nonce, initCode, callData, verificationGasLimit, callGasLimit, preVerificationGas,
             maxFeePerGas, maxPriorityFeePerGas, paymaster, paymasterData, paymasterSignature, signature,
             entryPoint, chainId, authNonce, delegate, requestId)
    }

    /** The object a decoded request starts as. */
    constructor (op: UserOp)
      ensures Value() == op
    {
      sender, nonce, initCode, callData := op.sender, op.nonce, op.initCode, op.callData;
      verificationGasLimit, callGasLimit := op.verificationGasLimit, op.callGasLimit;
      preVerificationGas := op.preVerificationGas;
      maxFeePerGas, maxPriorityFeePerGas := op.maxFeePerGas, op.maxPriorityFeePerGas;
      paymaster, paymasterData, paymasterSignature := op.paymaster, op.paymasterData, op.paymasterSignature;
      signature, entryPoint, chainId := op.signature, op.entryPoint, op.chainId;
      authNonce, delegate, requestId := op.authNonce, op.delegate, op.requestId;
    }
  }

  function Configure(op: UserOp, cfg: Config): UserOp {
    op.(entryPoint := cfg.entryPoint, delegate := cfg.delegate, paymaster := cfg.paymaster, chainId := cfg.chainId)
  }

  function WithPlaceholder(op: UserOp): UserOp {
    if op.paymaster != ZERO_ADDRESS && op.paymasterSignature == [] then op.(paymasterSignature := PLACEHOLDER) else op
  }

  method ApplyConfigToUserOp(op: UserOperation, cfg: Config)
    modifies op
    ensures op.Value() == Configure(old(op.Value()), cfg)
  {
    op.entryPoint := cfg.entryPoint;
    op.delegate := cfg.delegate;
    op.paymaster := cfg.paymaster;
    op.chainId := cfg.chainId;
  }

  method EnsurePaymasterSigPlaceholder(op: UserOperation)
    modifies op
    ensures op.Value() == WithPlaceholder(old(op.Value()))
  {
    if op.paymaster != ZERO_ADDRESS && |op.paymasterSignature| == 0 {
      op.paymasterSignature := PLACEHOLDER;
    }
  }

  method AttachPaymasterSignature(op: UserOperation, pmSig: Bytes)
    modifies op
    ensures op.Value() == old(op.Value()).(paymasterSignature := pmSig)
  {
    op.paymasterSignature := pmSig;
  }

  // ----- signatures

  /** Recovery ids 0 and 1 become 27 and 28; anything else is left alone. */
  function NormalizeV(sig: Bytes): (r: Bytes)
    ensures |r| == |sig|
  {
    if |sig| != 65 || sig[64] >= 27 then sig else sig[..64] + [sig[64] + 27]
  }

  function RecoverSigner(c: Crypto, hash: Word, sig: Bytes): Option<Address> {
    if |sig| != 65 then None
    else c.recover(hash, if sig[64] >= 27 then sig[..64] + [sig[64] - 27] else sig)
  }

  datatype Window = Window(until: nat, after: nat)

  function DecodePaymasterWindow(data: Bytes, now: nat): Option<Window> {
    if data == [] then Some(Window((now + 3600) % TWO64, 0))
    else if |data| < 64 then None
    else Some(Window(FromBigEndian(data[..32]) % TWO64, FromBigEndian(data[32..64]) % TWO64))
  }

  function PaymasterDigest(c: Crypto, hash: Word, w: Window): Word {
    c.keccak(hash + UintWord(w.until) + UintWord(w.after))
  }

  function SignPaymaster(c: Crypto, hash: Word, w: Window, key: Bytes): (r: Option<Bytes>)
    ensures r.Some? ==> |r.value| == 65
  {
    var sig := c.sign(key, PaymasterDigest(c, hash, w));
    if sig.None? then None else Some(NormalizeV(sig.value))
  }

  // ----- the authorization

  datatype AuthTuple = AuthTuple(chainId: nat, delegate: Address, nonce: nat)

  datatype Authorization = Authorization(tuple: AuthTuple, v: byte, r: nat, s: nat)

  function AuthFromSignature(chainId: nat, delegate: Address, nonce: nat, sig: Bytes): Authorization {
    var tuple := AuthTuple(chainId % TWO256, delegate, nonce);
    if |sig| >= 65 then Authorization(tuple, sig[64], FromBigEndian(sig[..32]), FromBigEndian(sig[32..64]))
    else Authorization(tuple, 0, 0, 0)
  }

  // ----- finalizing

  datatype SetCodeTx = SetCodeTx(
    chainId: nat, nonce: nat, fee: Fee, gas: nat, to: Address, op: Packed, beneficiary: Address, auth: Authorization)

  /** The operation as submitted: user signature normalised, paymaster signature attached. */
  function FinalOp(c: Crypto, cfg: Config, op: UserOp, userOpSig: Bytes, now: nat): Option<UserOp> {
    var signed := WithPlaceholder(op).(signature := NormalizeV(userOpSig));
    var w := DecodePaymasterWindow(signed.paymasterData, now);
    var hash := UserOpHash(c.keccak, signed);
    var key := c.parseKey(cfg.verifyingKey);
    if w.None? || hash.None? || key.None? then None
    else
      var pmSig := SignPaymaster(c, hash.value, w.value, key.value);
      if pmSig.None? then None else Some(signed.(paymasterSignature := pmSig.value))
  }

  function SendTx(cfg: Config, op: UserOp, packed: Packed, authSig: Bytes, sponsorNonce: nat, fee: Fee): SetCodeTx {
    SetCodeTx(cfg.chainId % TWO256, sponsorNonce, fee, OUTER_GAS_LIMIT, cfg.entryPoint, packed, cfg.sponsorAddress,
              AuthFromSignature(cfg.chainId, cfg.delegate, op.authNonce, authSig))
  }

  /** Nothing but the two signatures differs. */
  predicate SameButSignatures(a: UserOp, b: UserOp) {
    a.(signature := b.signature, paymasterSignature := b.paymasterSignature) == b
  }

  /** The transaction fields hold 256 bits; more panics. */
  predicate FeeFits(fee: Fee) {
    fee.tip < TWO256 && fee.cap < TWO256
  }

  /** Finalizing and signing goes through. */
  predicate Signable(c: Crypto, cfg: Config, op: UserOp, userOpSig: Bytes, now: nat) {
    FinalOp(c, cfg, op, userOpSig, now).Some? && c.parseKey(cfg.sponsorKey).Some?
  }

  /** A panic: the operation has no hash, or all is signed and the fees are too large. */
  predicate SigningPanics(c: Crypto, cfg: Config, op: UserOp, userOpSig: Bytes, now: nat, fee: Fee) {
    && DecodePaymasterWindow(op.paymasterData, now).Some?
    && (!Hashable(WithPlaceholder(op)) || (Signable(c, cfg, op, userOpSig, now) && !FeeFits(fee)))
  }

  method FinalizeAndSignSend(c: Crypto, cfg: Config, op: UserOperation, userOpSig: Bytes, authSig: Bytes,
                             sponsorNonce: nat, fee: Fee, now: nat) returns (r: Outcome<SetCodeTx>)
    modifies op
    ensures SameButSignatures(old(op.Value()), op.Value())
    ensures r.Done? <==> Signable(c, cfg, old(op.Value()), userOpSig, now) && FeeFits(fee)
    ensures r.Panicked? <==> SigningPanics(c, cfg, old(op.Value()), userOpSig, now, fee)
    ensures r.Done? ==>
              && FinalOp(c, cfg, old(op.Value()), userOpSig, now) == Some(op.Value())
              && PackUserOp(op.Value(), false).Some?
              && r.value == SendTx(cfg, op.Value(), PackUserOp(op.Value(), false).value, authSig, sponsorNonce, fee)
  {
    hide UserOpHash, PackUserOp, Hashable, DecodePaymasterWindow, SignPaymaster, NormalizeV;
    ghost var placed := WithPlaceholder(op.Value());
    EnsurePaymasterSigPlaceholder(op);
    op.signature := NormalizeV(userOpSig);
    HashableWhenSigned(c.keccak, placed, op.signature);
    assert op.Value() == placed.(signature := op.signature);
    var w := DecodePaymasterWindow(op.paymasterData, now);
    if w.None? {
      return Failed("paymaster window");
    }
    var hash := UserOpHash(c.keccak, op.Value());
    if hash.None? {
      return Panicked;
    }
    var key := c.parseKey(cfg.verifyingKey);
    if key.None? {
      return Failed("paymaster signer key");
    }
    var pmSig := SignPaymaster(c, hash.value, w.value, key.value);
    if pmSig.None? {
      return Failed("sign paymaster");
    }
    ghost var hashed := op.Value();
    AttachPaymasterSignature(op, pmSig.value);
    HashedIsPacked(c.keccak, hashed, op.Value());
    var packed := PackUserOp(op.Value(), false);
    var auth := AuthFromSignature(cfg.chainId, cfg.delegate, op.authNonce, authSig);
    if c.parseKey(cfg.sponsorKey).None? {
      return Failed("sponsor private key");
    }
    if !FeeFits(fee) {
      return Panicked;
    }
    r := Done(SetCodeTx(cfg.chainId % TWO256, sponsorNonce, fee, OUTER_GAS_LIMIT, cfg.entryPoint, packed.value,
                        cfg.sponsorAddress, auth));
  }

  lemma HashableWhenSigned(k: Keccak, op: UserOp, sig: Bytes)
    requires op.paymaster != ZERO_ADDRESS ==> HasSlot(op)
    ensures UserOpHash(k, op.(signature := sig)).Some? <==> Hashable(op)
  {
    hide UserOpHash;
    HashExistsIff(k, op.(signature := sig));
  }

  /** Packing looks at no signature: what has a hash can be packed for the chain. */
  lemma HashedIsPacked(k: Keccak, op: UserOp, signed: UserOp)
    requires UserOpHash(k, op).Some? && SameButSignatures(op, signed)
    ensures PackUserOp(signed, false).Some?
  {
    PackedIff(op, true);
    PackedIff(signed, false);
  }

  /** Finalizing what was already finalized changes nothing: the hash ignores both
      signatures, so the paymaster signs the same digest again. */
  lemma FinalOpStable(c: Crypto, cfg: Config, op: UserOp, userOpSig: Bytes, now: nat)
    requires op.paymasterSignature != [] && FinalOp(c, cfg, op, userOpSig, now).Some?
    ensures var f := FinalOp(c, cfg, op, userOpSig, now).value;
            && f.paymasterSignature != []
            && FinalOp(c, cfg, f, userOpSig, now) == Some(f)
            && UserOpHash(c.keccak, f) == UserOpHash(c.keccak, op)
  {
    hide UserOpHash;
    var f := FinalOp(c, cfg, op, userOpSig, now).value;
    var signed := op.(signature := NormalizeV(userOpSig));
    HashIgnoresSignatures(c.keccak, op, f.signature, f.paymasterSignature);
    HashIgnoresSignatures(c.keccak, op, signed.signature, op.paymasterSignature);
  }

  // ----- preflight

  datatype PreflightError =
    | MissingPlaceholder | PaymasterDataLength | UserSignatureLength | UserSignatureInvalid | UserSignatureNotSender
    | PaymasterWindow | PaymasterSignerKey | SignerNotOnChain | SignPaymasterFailed
    | PaymasterSignatureInvalid | PaymasterSignatureNotSigner | PackedPaymasterNotConfig

  datatype PreflightReport = PreflightReport(
    userOpHash: Word, verifyingSigner: Address, hasPlaceholder: bool, paymasterDataLen: nat, userSigLen: nat,
    errors: seq<PreflightError>)
  {
    predicate OK() { errors == [] }
  }

  /** What preflight asks of the operation and of the configured paymaster key. */
  predicate UserSideAccepted(c: Crypto, op: UserOp, hash: Word, userOpSig: Bytes) {
    && op.paymasterSignature != [] && |op.paymasterData| == 64 && |userOpSig| == 65
    && RecoverSigner(c, hash, NormalizeV(userOpSig)) == Some(op.sender)
  }

  predicate PaymasterSideAccepted(c: Crypto, cfg: Config, op: UserOp, hash: Word, onChainSigner: Address, now: nat) {
    var w := DecodePaymasterWindow(op.paymasterData, now);
    var key := c.parseKey(cfg.verifyingKey);
    && w.Some? && key.Some?
    && (onChainSigner == ZERO_ADDRESS || c.addressOf(key.value) == onChainSigner)
    && var pmSig := SignPaymaster(c, hash, w.value, key.value);
       pmSig.Some? && RecoverSigner(c, PaymasterDigest(c, hash, w.value), pmSig.value) == Some(c.addressOf(key.value))
  }

  /** A packed paymaster is the configured one, or there is none to compare. */
  predicate PaymasterConfigured(cfg: Config, op: UserOp) {
    op.paymaster == ZERO_ADDRESS || op.paymaster == cfg.paymaster
  }

  method CheckUserSide(c: Crypto, o: UserOp, hash: Word, userOpSig: Bytes) returns (errors: seq<PreflightError>)
    ensures errors == [] <==> UserSideAccepted(c, o, hash, userOpSig)
  {
    errors := [];
    if |o.paymasterSignature| == 0 {
      errors := errors + [MissingPlaceholder];
    }
    if |o.paymasterData| != 64 {
      errors := errors + [PaymasterDataLength];
    }
    if |userOpSig| != 65 {
      errors := errors + [UserSignatureLength];
    } else {
      var user := RecoverSigner(c, hash, NormalizeV(userOpSig));
      if user.None? {
        errors := errors + [UserSignatureInvalid];
      } else if user.value != o.sender {
        errors := errors + [UserSignatureNotSender];
      }
    }
  }

  /** `stopped` is the early return, before the packed form is looked at. */
  method CheckPaymasterSide(c: Crypto, cfg: Config, o: UserOp, hash: Word, onChainSigner: Address, now: nat)
    returns (errors: seq<PreflightError>, signer: Address, stopped: bool)
    ensures errors == [] <==> PaymasterSideAccepted(c, cfg, o, hash, onChainSigner, now)
    ensures stopped ==> errors != []
    ensures onChainSigner != ZERO_ADDRESS ==> signer == onChainSigner
  {
    hide DecodePaymasterWindow, SignPaymaster, RecoverSigner, PaymasterDigest;
    errors, signer, stopped := [], onChainSigner, false;
    var key := c.parseKey(cfg.verifyingKey);
    if signer == ZERO_ADDRESS && key.Some? {
      signer := c.addressOf(key.value);
    }
    var w := DecodePaymasterWindow(o.paymasterData, now);
    if w.None? {
      return [PaymasterWindow], signer, true;
    }
    if key.None? {
      return [PaymasterSignerKey], signer, true;
    }
    var local := c.addressOf(key.value);
    if signer == ZERO_ADDRESS {
      signer := local;
    } else if local != signer {
      errors := errors + [SignerNotOnChain];
    }
    var pmSig := SignPaymaster(c, hash, w.value, key.value);
    if pmSig.None? {
      return errors + [SignPaymasterFailed], signer, true;
    }
    var recovered := RecoverSigner(c, PaymasterDigest(c, hash, w.value), pmSig.value);
    if recovered.None? {
      errors := errors + [PaymasterSignatureInvalid];
    } else if recovered.value != signer {
      errors := errors + [PaymasterSignatureNotSigner];
    }
  }

  /** Panics on operations that are not hashable; otherwise reports no error exactly for an operation both
      sides accept whose paymaster is the configured one. */
  method PreflightSponsoredSend(c: Crypto, cfg: Config, op: UserOperation, userOpSig: Bytes,
                                onChainSigner: Address, now: nat)
    returns (r: Outcome<PreflightReport>)
    modifies op
    ensures op.Value() == WithPlaceholder(old(op.Value()))
    ensures match r
            case Failed(_) => false
            case Panicked => !Hashable(op.Value())
            case Done(report) =>
              && Hashable(op.Value()) && UserOpHash(c.keccak, op.Value()) == Some(report.userOpHash)
              && report.hasPlaceholder == (op.Value().paymasterSignature != [])
              && report.paymasterDataLen == |op.Value().paymasterData| && report.userSigLen == |userOpSig|
              && (onChainSigner != ZERO_ADDRESS ==> report.verifyingSigner == onChainSigner)
              && (report.OK() <==> UserSideAccepted(c, op.Value(), report.userOpHash, userOpSig)
                                   && PaymasterSideAccepted(c, cfg, op.Value(), report.userOpHash, onChainSigner, now)
                                   && PaymasterConfigured(cfg, op.Value()))
  {
    hide UserOpHash, PackUserOp, UserOperation.Value, UserSideAccepted, PaymasterSideAccepted, Hashable;
    EnsurePaymasterSigPlaceholder(op);
    var o := op.Value();
    HashExistsIff(c.keccak, o);
    var hash := UserOpHash(c.keccak, o);
    if hash.None? {
      return Panicked;
    }
    var userErrors := CheckUserSide(c, o, hash.value, userOpSig);
    var pmErrors, signer, stopped := CheckPaymasterSide(c, cfg, o, hash.value, onChainSigner, now);
    var errors := userErrors + pmErrors;
    if !stopped {
      HashedIsPacked(c.keccak, o, o);
      var field := PackUserOp(o, false).value.paymasterAndData;
      FieldStartsWithPaymaster(o);
      if |field| >= 20 && field[..20] != cfg.paymaster {
        errors := errors + [PackedPaymasterNotConfig];
      }
    }
    r := Done(PreflightReport(hash.value, signer, |o.paymasterSignature| > 0, |o.paymasterData|, |userOpSig|, errors));
  }

  lemma FieldStartsWithPaymaster(op: UserOp)
    requires PackUserOp(op, false).Some?
    ensures var f := PackUserOp(op, false).value.paymasterAndData;
            (|f| >= 20 <==> op.paymaster != ZERO_ADDRESS) && (|f| >= 20 ==> f[..20] == op.paymaster)
  {
    if op.paymaster != ZERO_ADDRESS {
      HeadParts(op.paymaster, op.paymasterData);
      var f := PaymasterField(op.paymaster, op.paymasterData, op.paymasterSignature, false);
      assert f[..20] == PaymasterHead(op.paymaster, op.paymasterData)[..20];
    }
  }

  // ----- the node

  /** A question to the node or a transaction handed to it, with the answer. */
  datatype Event =
    | Counted(account: Address, count: Result<nat>)
    | Submitted(tx: SetCodeTx, reply: Result<Word>)

  /** The node answers every call as it likes; the calls are recorded in order. */
  class EthClient {
    var events: seq<Event>

    constructor ()
      ensures events == []
    {
      events := [];
    }

    method GetTransactionAccount(a: Address) returns (r: Result<nat>)
      modifies this
      ensures events == old(events) + [Counted(a, r)]
    {
      r := *;
      events := events + [Counted(a, r)];
    }

    method SendRawTransaction(tx: SetCodeTx) returns (reply: Result<Word>)
      modifies this
      ensures events == old(events) + [Submitted(tx, reply)]
    {
      reply := *;
      events := events + [Submitted(tx, reply)];
    }
  }

  // ----- sending

  datatype Response = Sent(hash: Word) | Rejected(message: string) | Crashed

  /** One attempt that got as far as the node: the count read for the account, the
      transaction sent right after it, and the reply. */
  datatype Submission = Submission(account: Address, count: nat, tx: SetCodeTx, reply: Result<Word>)

  function EventsOf(run: seq<Submission>): seq<Event> {
    if run == [] then []
    else
      var last := run[|run| - 1];
      EventsOf(run[..|run| - 1]) + [Counted(last.account, Ok(last.count)), Submitted(last.tx, last.reply)]
  }

  lemma EventsOfAppend(run: seq<Submission>, s: Submission)
    ensures EventsOf(run + [s]) == EventsOf(run) + [Counted(s.account, Ok(s.count)), Submitted(s.tx, s.reply)]
  {
    assert (run + [s])[..|run|] == run;
  }

  /** Submission number `i` of a run: the sponsor's count as nonce, the bumped fees,
      and the same finalized operation and authorization every time. */
  predicate IsAttempt(cfg: Config, op: UserOp, authSig: Bytes, start: Fee, i: nat, s: Submission) {
    var packed := PackUserOp(op, false);
    && s.account == cfg.sponsorAddress
    && packed.Some?
    && s.tx == SendTx(cfg, op, packed.value, authSig, s.count % TWO64, FeesAt(start, i))
  }

  predicate Retried(s: Submission) {
    s.reply.Err? && IsRetryableSendError(s.reply.message)
  }

  /** The loop is over: the last attempt was the third, or not one to retry after. */
  predicate Over(run: seq<Submission>) {
    run != [] && (|run| == MAX_SEND_ATTEMPTS || !Retried(run[|run| - 1]))
  }

  /** The events of the retry loop: those of the run, and unless it is over one more read
      of the sponsor's count, which nothing was sent after. */
  ghost predicate LoopEvents(cfg: Config, events: seq<Event>, run: seq<Submission>) {
    if Over(run) then events == EventsOf(run)
    else exists answer :: events == EventsOf(run) + [Counted(cfg.sponsorAddress, answer)]
  }

  /** The last thing the node did was to give a count. */
  predicate EndsInCount(events: seq<Event>) {
    events != [] && var last := events[|events| - 1]; last.Counted? && last.count.Ok?
  }

  predicate GoodRun(cfg: Config, op: UserOp, authSig: Bytes, start: Fee, run: seq<Submission>) {
    && |run| <= MAX_SEND_ATTEMPTS
    && (forall i | 0 <= i < |run| :: IsAttempt(cfg, op, authSig, start, i, run[i]))
    && (forall i | 0 <= i < |run| - 1 :: Retried(run[i]))
  }

  lemma NothingSent(cfg: Config, op: UserOp, authSig: Bytes, start: Fee)
    ensures GoodRun(cfg, op, authSig, start, [])
  {
  }

  /** What submission number `i` of a send holds besides the operation and authorization. */
  predicate Carries(cfg: Config, start: Fee, i: nat, s: Submission) {
    && s.tx.fee == FeesAt(start, i) && s.tx.gas == 1_500_000 && s.tx.chainId == cfg.chainId % TWO256
    && s.tx.to == cfg.entryPoint && s.tx.beneficiary == cfg.sponsorAddress
    && s.account == cfg.sponsorAddress && s.tx.nonce == s.count % TWO64
  }

  lemma RunCarries(cfg: Config, op: UserOp, authSig: Bytes, start: Fee, run: seq<Submission>)
    requires GoodRun(cfg, op, authSig, start, run)
    ensures forall i | 0 <= i < |run| :: Carries(cfg, start, i, run[i])
    ensures |run| <= 3 && (Over(run) <==> run != [] && (|run| == 3 || !Retried(run[|run| - 1])))
  {
    hide PackUserOp, FeesAt, AuthFromSignature, IsRetryableSendError;
    forall i | 0 <= i < |run| ensures Carries(cfg, start, i, run[i]) {
      assert IsAttempt(cfg, op, authSig, start, i, run[i]);
    }
  }

  /** The fees over the recorded submissions: the first has the starting fees, the second
      140 percent of them, the third 160 percent of those, rounded down; all are valid,
      none falls, none exceeds 224 percent of the first. */
  lemma FeesOfRun(cfg: Config, start: Fee, run: seq<Submission>)
    requires start.Valid() && |run| <= MAX_SEND_ATTEMPTS && forall i | 0 <= i < |run| :: Carries(cfg, start, i, run[i])
    ensures run != [] ==> run[0].tx.fee == start
    ensures forall i | 0 <= i < |run| ::
              var f := run[i].tx.fee; f.Valid() && 100 * f.tip <= 224 * start.tip && 100 * f.cap <= 224 * start.cap
    ensures |run| > 1 ==> RaisedBy(run[0].tx.fee, run[1].tx.fee, 140)
    ensures |run| > 2 ==> RaisedBy(run[1].tx.fee, run[2].tx.fee, 160)
  {
    hide FeesAt, RaisedBy, Fee.Valid;
    AttemptsRaised(start);
  }

  /** The response is the last reply: sent if it is a hash. */
  predicate Reports(resp: Response, run: seq<Submission>) {
    && (resp.Sent? <==> run != [] && run[|run| - 1].reply.Ok?)
    && (resp.Sent? ==> run[|run| - 1].reply == Ok(resp.hash))
  }

  /** The retry loop. Every submission carries the same finalized operation, though
      each attempt overwrites both signatures of the object. */
  method SubmitWithRetries(c: Crypto, cfg: Config, client: EthClient, op: UserOperation, userOpSig: Bytes,
                           authSig: Bytes, start: Fee, now: nat)
    returns (resp: Response, ghost run: seq<Submission>, ghost final: UserOp)
    requires op.Value().paymasterSignature != []
    modifies op, client
    ensures SameButSignatures(old(op.Value()), op.Value())
    ensures old(client.events) <= client.events
    ensures LoopEvents(cfg, client.events[|old(client.events)|..], run)
    ensures GoodRun(cfg, final, authSig, start, run) && Reports(resp, run)
    ensures run != [] ==> FinalOp(c, cfg, old(op.Value()), userOpSig, now) == Some(final)
    ensures resp.Crashed? <==>
            && EndsInCount(client.events[|old(client.events)|..])
            && SigningPanics(c, cfg, old(op.Value()), userOpSig, now, FeesAt(start, |run|))
  {
    hide UserOpHash, PackUserOp, FinalOp, Bump, SendTx, UserOperation.Value, IsRetryableSendError, NormalizeV, EventsOf,
      SigningPanics;
    ghost var checked, before := op.Value(), client.events;
    var fee := start;
    run := [];
    var lastError := "send sponsored transfer failed";
    var attempt := 0;
    final := checked;
    NoEvents();
    while attempt < MAX_SEND_ATTEMPTS
      invariant 0 <= attempt <= MAX_SEND_ATTEMPTS && |run| == attempt
      invariant client.events == before + EventsOf(run)
      invariant fee == FeesAt(start, if attempt == 0 then 0 else attempt - 1)
      invariant op.Value() == final && SameButSignatures(checked, final)
      invariant if attempt == 0 then final == checked else FinalOp(c, cfg, checked, userOpSig, now) == Some(final)
      invariant GoodRun(cfg, final, authSig, start, run) && forall i | 0 <= i < |run| :: Retried(run[i])
    {
      if attempt > 0 {
        fee := BumpEip1559GasFees(fee, attempt);
        FinalOpStable(c, cfg, checked, userOpSig, now);
        PanicsAlike(c, cfg, checked, userOpSig, now, fee);
      }
      var sponsorNonce := client.GetTransactionAccount(cfg.sponsorAddress);
      if sponsorNonce.Err? {
        resp := Rejected(sponsorNonce.message);
        return;
      }
      var tx := FinalizeAndSignSend(c, cfg, op, userOpSig, authSig, sponsorNonce.value % TWO64, fee, now);
      if !tx.Done? {
        resp := if tx.Panicked? then Crashed else Rejected(tx.message);
        return;
      }
      final := op.Value();
      var reply := client.SendRawTransaction(tx.value);
      ghost var s := Submission(cfg.sponsorAddress, sponsorNonce.value, tx.value, reply);
      EventsOfAppend(run, s);
      run := run + [s];
      NoCountLast(run);
      assert client.events[|before|..] == EventsOf(run);
      assert IsAttempt(cfg, final, authSig, start, attempt, run[attempt]);
      if reply.Ok? {
        resp := Sent(reply.value);
        return;
      }
      lastError := reply.message;
      if !IsRetryableSendError(reply.message) || attempt == MAX_SEND_ATTEMPTS - 1 {
        break;
      }
      attempt := attempt + 1;
    }
    NoCountLast(run);
    assert client.events[|before|..] == EventsOf(run);
    resp := Rejected(lastError);
  }

  /** The finalized operation panics where the operation itself does. */
  lemma PanicsAlike(c: Crypto, cfg: Config, op: UserOp, userOpSig: Bytes, now: nat, fee: Fee)
    requires op.paymasterSignature != [] && FinalOp(c, cfg, op, userOpSig, now).Some?
    ensures var final := FinalOp(c, cfg, op, userOpSig, now).value;
            SigningPanics(c, cfg, final, userOpSig, now, fee) <==> SigningPanics(c, cfg, op, userOpSig, now, fee)
  {
    hide UserOpHash, DecodePaymasterWindow, SignPaymaster, NormalizeV;
    FinalOpStable(c, cfg, op, userOpSig, now);
  }

  lemma NoCountLast(run: seq<Submission>)
    requires run != []
    ensures !EndsInCount(EventsOf(run))
  {
  }

  lemma NoEvents()
    ensures EventsOf([]) == []
  {
  }

  /** The sender's count the node gave is the one the operation was built for. */
  predicate Current(answer: Result<nat>, authNonce: nat) {
    answer.Ok? && answer.value % TWO64 == authNonce
  }

  /** The events of a whole send that preflight let through: the sender's count is read
      first, and unless it is the one built for, nothing follows. */
  ghost predicate SendEvents(cfg: Config, op: UserOp, events: seq<Event>, run: seq<Submission>) {
    && events != [] && events[0].Counted? && events[0].account == op.sender
    && if Current(events[0].count, op.authNonce) then LoopEvents(cfg, events[1..], run)
       else |events| == 1 && run == []
  }

  /** One send, over every behaviour of the node. `checked` is the operation as preflight
      saw it, `run` the submissions made and `final` the operation they carry. The node is
      asked anything at all exactly when the signatures decode and preflight accepts. */
  method SendSponsoredTransfer(c: Crypto, cfg: Config, client: EthClient, op: UserOperation, userOpSigHex: string,
                               authSigHex: string, onChainSigner: Address, quotes: Quotes, now: nat)
    returns (resp: Response, ghost run: seq<Submission>, ghost final: UserOp)
    modifies op, client
    ensures old(client.events) <= client.events
    ensures var configured := Configure(old(op.Value()), cfg);
            var checked := WithPlaceholder(configured);
            var events := client.events[|old(client.events)|..];
            && SameButSignatures(configured, op.Value())
            && GoodRun(cfg, final, SignatureBytes(authSigHex), StartingFee(quotes), run) && Reports(resp, run)
            && (forall i | 0 <= i < |run| :: Carries(cfg, StartingFee(quotes), i, run[i]))
            && (events != [] <==> SignatureDecodes(userOpSigHex) && SignatureDecodes(authSigHex)
                                  && Accepted(c, cfg, checked, SignatureBytes(userOpSigHex), onChainSigner, now))
            && (if events == [] then run == [] else SendEvents(cfg, checked, events, run))
            && (run != [] ==> FinalOp(c, cfg, checked, SignatureBytes(userOpSigHex), now) == Some(final))
            && (events == [] ==>
                  (resp.Crashed? <==> SignatureDecodes(userOpSigHex) && SignatureDecodes(authSigHex)
                                      && !Hashable(checked)))
            && (events != [] ==>
                  (resp.Crashed? <==> |events| > 1 && EndsInCount(events) && c.parseKey(cfg.sponsorKey).Some?
                                      && !FeeFits(FeesAt(StartingFee(quotes), |run|))))
  {
    hide UserOpHash, PackUserOp, FinalOp, UserSideAccepted, PaymasterSideAccepted, FeesAt, SendTx, HexDecode,
      TrimPrefix, UserOperation.Value, IsAttempt, Carries, LoopEvents, StartingFee, Hashable, SigningPanics,
      GoodRun;
    run := [];
    ApplyConfigToUserOp(op, cfg);
    EnsurePaymasterSigPlaceholder(op);
    ghost var checked, before := op.Value(), client.events;
    final := checked;
    HashExistsIff(c.keccak, checked);
    NothingSent(cfg, final, SignatureBytes(authSigHex), StartingFee(quotes));
    assert client.events[|before|..] == [];
    var userOpSig := HexDecode(TrimPrefix(userOpSigHex, "0x"));
    var authSig := HexDecode(TrimPrefix(authSigHex, "0x"));
    if !userOpSig.ok || !authSig.ok {
      resp := Rejected("invalid signature hex");
      return;
    }
    var report := PreflightSponsoredSend(c, cfg, op, userOpSig.bytes, onChainSigner, now);
    if report.Panicked? {
      resp := Crashed;
      return;
    }
    if report.Failed? || !report.value.OK() {
      resp := Rejected("preflight");
      return;
    }
    AcceptedHasPlaceholder(c, checked, report.value.userOpHash, userOpSig.bytes);
    // The sponsor lock is held from here to the end.
    var authCount := client.GetTransactionAccount(op.Value().sender);
    ghost var asked := client.events;
    SinceThen(before, Counted(checked.sender, authCount), asked);
    if authCount.Err? {
      resp := Rejected(authCount.message);
      return;
    }
    if authCount.value % TWO64 != op.Value().authNonce {
      resp := Rejected("stale auth nonce");
      return;
    }
    var fee := StartingFees(quotes);
    AcceptedIsFinal(c, cfg, checked, userOpSig.bytes, onChainSigner, now);
    resp, run, final := SubmitWithRetries(c, cfg, client, op, userOpSig.bytes, authSig.bytes, fee, now);
    SinceThen(before, Counted(checked.sender, authCount), client.events);
    RunCarries(cfg, final, authSig.bytes, fee, run);
    LoopHasEvents(cfg, client.events[|asked|..], run);
  }

  function SignatureBytes(hex: string): Bytes {
    HexDecode(TrimPrefix(hex, "0x")).bytes
  }

  predicate SignatureDecodes(hex: string) {
    HexDecode(TrimPrefix(hex, "0x")).ok
  }

  predicate Accepted(c: Crypto, cfg: Config, op: UserOp, userOpSig: Bytes, onChainSigner: Address, now: nat) {
    var hash := UserOpHash(c.keccak, op);
    && hash.Some?
    && UserSideAccepted(c, op, hash.value, userOpSig)
    && PaymasterSideAccepted(c, cfg, op, hash.value, onChainSigner, now)
  }

  /** What preflight accepted can be finalized, and then only the fees can panic. */
  lemma AcceptedIsFinal(c: Crypto, cfg: Config, op: UserOp, userOpSig: Bytes, onChainSigner: Address, now: nat)
    requires Accepted(c, cfg, op, userOpSig, onChainSigner, now)
    ensures FinalOp(c, cfg, op, userOpSig, now).Some?
    ensures forall fee :: SigningPanics(c, cfg, op, userOpSig, now, fee)
                          <==> c.parseKey(cfg.sponsorKey).Some? && !FeeFits(fee)
  {
    hide UserOpHash, RecoverSigner, PaymasterDigest, SignPaymaster, DecodePaymasterWindow;
    HashIgnoresSignatures(c.keccak, op, NormalizeV(userOpSig), op.paymasterSignature);
    HashExistsIff(c.keccak, op);
  }

  lemma SinceThen(before: seq<Event>, e: Event, events: seq<Event>)
    requires before + [e] <= events
    ensures events[|before|..] == [e] + events[|before| + 1..]
  {
  }

  lemma LoopHasEvents(cfg: Config, events: seq<Event>, run: seq<Submission>)
    requires LoopEvents(cfg, events, run)
    ensures events != []
  {
  }

  lemma AcceptedHasPlaceholder(c: Crypto, op: UserOp, hash: Word, userOpSig: Bytes)
    requires UserSideAccepted(c, op, hash, userOpSig)
    ensures op.paymasterSignature != []
  {
  }
}
