/** Merging the signatures of several Solana signers into transactions: requests are
    grouped by payload, signatures assembled in account-key order. */
module MultiSigner {
  import opened Wrappers
  import opened Bytes
  import opened Text

  datatype Envelope = Envelope(
    messageHex: string, numRequired: int, signerKeys: seq<string>, signatures: map<string, string>,
    recentBlockhash: string)

  /** A transaction message as built: its bytes, its required signatures, its account keys in base58. */
  datatype Message = Message(bytes: Bytes, numRequired: nat, accountKeys: seq<string>, recentBlockhash: string)

  datatype Request = Request(payload: string, publicKey: string, signature: string)

  /** The foreign codecs: base64 JSON envelopes, base58 keys, wire messages. */
  datatype Codec = Codec(
    decodeEnvelope: string -> Option<Envelope>,
    keyToBase58: Bytes -> string,
    isBase58Key: string -> bool,
    isMessage: Bytes -> bool,
    serialize: (Bytes, seq<Bytes>) -> Option<string>)

  datatype Assembled = Signed(message: Bytes, signatures: seq<Bytes>) | Failed | Panicked

  method EnvelopeFromTransaction(m: Message) returns (env: Envelope)
    ensures env == EnvelopeOf(m)
  {
    var signerKeys: seq<string> := [];
    var i := 0;
    while i < m.numRequired && i < |m.accountKeys|
      invariant 0 <= i <= m.numRequired && i <= |m.accountKeys|
      invariant signerKeys == m.accountKeys[..i]
    {
      signerKeys := signerKeys + [m.accountKeys[i]];
      i := i + 1;
    }
    var sigs: map<string, string> := map[];
    for j := 0 to |signerKeys|
      invariant sigs == map k | k in signerKeys[..j] :: ""
    {
      sigs := sigs[signerKeys[j] := ""];
    }
    assert signerKeys[..|signerKeys|] == signerKeys;
    env := Envelope(HexOf(m.bytes), m.numRequired, signerKeys, sigs, m.recentBlockhash);
  }

  function EnvelopeOf(m: Message): Envelope {
    var keys := if m.numRequired <= |m.accountKeys| then m.accountKeys[..m.numRequired] else m.accountKeys;
    Envelope(HexOf(m.bytes), m.numRequired, keys, map k | k in keys :: "", m.recentBlockhash)
  }

  // ----- assembling

  /** The 64 bytes of a signature text, if it is one. */
  function SignatureBytes(text: string): Option<Bytes> {
    var s := TrimSpace(text);
    var d := HexDecode(TrimPrefix(s, "0x"));
    if s == "" || !d.ok || |d.bytes| != 64 then None else Some(d.bytes)
  }

  function SignatureOf(env: Envelope, key: string): Option<Bytes> {
    SignatureBytes(if key in env.signatures then env.signatures[key] else "")
  }

  /** Signatures in signer order; slots without a signer key stay zero. A negative
      count, more keys than slots, or no slot at all panics. */
  method AssembleSignedTransaction(c: Codec, env: Envelope) returns (r: Assembled)
    ensures r == Assemble(c, env)
  {
    hide HexDecode, TrimPrefix, SignatureOf;
    var msg := HexDecode(TrimPrefix(env.messageHex, "0x"));
    if !msg.ok || !c.isMessage(msg.bytes) {
      return Failed;
    }
    if env.numRequired < 0 {
      return Panicked;
    }
    var slots := seq(env.numRequired, i => Zeros(64));
    for i := 0 to |env.signerKeys|
      invariant |slots| == env.numRequired && i <= env.numRequired
      invariant forall j | 0 <= j < i :: SignatureOf(env, env.signerKeys[j]) == Some(slots[j])
      invariant forall j | i <= j < env.numRequired :: slots[j] == Zeros(64)
    {
      var sig := SignatureOf(env, env.signerKeys[i]);
      if sig.None? {
        assert FirstBad(env, i);
        return Failed;
      }
      if i >= env.numRequired {
        assert TooManyKeys(env, i);
        return Panicked;
      }
      slots := slots[i := sig.value];
    }
    if env.numRequired == 0 {
      return Panicked;
    }
    assert slots == Slots(env);
    r := Signed(msg.bytes, slots);
  }

  /** The first signer without a usable signature, its slot in range up to there. */
  predicate FirstBad(env: Envelope, i: nat) {
    i < |env.signerKeys| && i <= env.numRequired && SignatureOf(env, env.signerKeys[i]).None?
    && forall j | 0 <= j < i :: SignatureOf(env, env.signerKeys[j]).Some?
  }

  predicate TooManyKeys(env: Envelope, i: nat) {
    i < |env.signerKeys| && i == env.numRequired && forall j | 0 <= j <= i :: SignatureOf(env, env.signerKeys[j]).Some?
  }

  predicate AllSigned(env: Envelope) {
    forall i | 0 <= i < |env.signerKeys| :: SignatureOf(env, env.signerKeys[i]).Some?
  }

  function Slots(env: Envelope): seq<Bytes>
    requires 0 <= env.numRequired && AllSigned(env)
  {
    seq(env.numRequired, i requires 0 <= i < env.numRequired =>
      if i < |env.signerKeys| then SignatureOf(env, env.signerKeys[i]).value else Zeros(64))
  }

  function Assemble(c: Codec, env: Envelope): Assembled {
    var msg := HexDecode(TrimPrefix(env.messageHex, "0x"));
    if !msg.ok || !c.isMessage(msg.bytes) then Failed
    else if env.numRequired < 0 then Panicked
    else if exists i :: 0 <= i < |env.signerKeys| && FirstBad(env, i) then Failed
    else if env.numRequired == 0 || exists i :: 0 <= i < |env.signerKeys| && TooManyKeys(env, i) then Panicked
    else if AllSigned(env) then Signed(msg.bytes, Slots(env))
    else Panicked
  }

  // ----- grouping

  /** Whose signature a request carries: the stated key, or the only signer there is. */
  function SignerOf(c: Codec, env: Envelope, r: Request): Option<string> {
    var stated := TrimSpace(r.publicKey);
    if stated == "" then
      if |env.signerKeys| == 1 && env.signerKeys[0] != "" then Some(env.signerKeys[0]) else None
    else
      var key := HexDecode(TrimPrefix(stated, "0x"));
      if key.ok && |key.bytes| == 32 then Some(c.keyToBase58(key.bytes))
      else if c.isBase58Key(stated) then Some(stated)
      else None
  }

  /** Decodable payloads in order of first appearance. */
  function PayloadOrder(c: Codec, rs: seq<Request>): seq<string> {
    if rs == [] then []
    else
      var before, p := PayloadOrder(c, rs[..|rs| - 1]), rs[|rs| - 1].payload;
      if c.decodeEnvelope(p).Some? && p !in before then before + [p] else before
  }

  /** The envelope of a payload with the signatures the requests gave it; the last
      signature for a signer counts. */
  function Merged(c: Codec, rs: seq<Request>, p: string): Envelope
    requires c.decodeEnvelope(p).Some?
  {
    if rs == [] then c.decodeEnvelope(p).value
    else
      var env, r := Merged(c, rs[..|rs| - 1], p), rs[|rs| - 1];
      var signer := SignerOf(c, env, r);
      if r.payload != p || signer.None? then env
      else env.(signatures := env.signatures[signer.value := TrimSpace(r.signature)])
  }

  datatype Entry = Success(signedTx: string, txId: Bytes) | Failure

  /** A failed entry for whatever cannot be assembled or serialized; a panic ends the call. */
  function EntryOf(c: Codec, a: Assembled): Option<Entry> {
    match a
    case Panicked => None
    case Failed => Some(Failure)
    case Signed(message, signatures) =>
      var text := c.serialize(message, signatures);
      if text.None? then Some(Failure)
      else if signatures == [] then None
      else Some(Success(text.value, signatures[0]))
  }

  /** What a call returns: an entry per payload, that of its merged envelope; nothing when
      one of them panics. */
  ghost predicate Built(c: Codec, rs: seq<Request>, out: Option<seq<Entry>>) {
    var order := PayloadOrder(c, rs);
    && (forall p | p in order :: c.decodeEnvelope(p).Some?)
    && (out.Some? <==> forall p | p in order :: EntryOf(c, Assemble(c, Merged(c, rs, p))).Some?)
    && (out.Some? ==>
          && |out.value| == |order|
          && forall i | 0 <= i < |order| :: Some(out.value[i]) == EntryOf(c, Assemble(c, Merged(c, rs, order[i]))))
  }

  method BuildSignedTransaction(c: Codec, rs: seq<Request>) returns (out: Option<seq<Entry>>)
    ensures Built(c, rs, out)
  {
    hide Assemble, EntryOf, Merged, PayloadOrder;
    var grouped, order := GroupRequests(c, rs);
    var entries: seq<Entry> := [];
    for i := 0 to |order|
      invariant |entries| == i
      invariant forall j | 0 <= j < i :: Some(entries[j]) == EntryOf(c, Assemble(c, Merged(c, rs, order[j])))
    {
      assert order[i] in order;
      var assembled := AssembleSignedTransaction(c, grouped[order[i]]);
      var entry := EntryOf(c, assembled);
      if entry.None? {
        return None;
      }
      entries := entries + [entry.value];
    }
    out := Some(entries);
  }

  method GroupRequests(c: Codec, rs: seq<Request>) returns (grouped: map<string, Envelope>, order: seq<string>)
    ensures order == PayloadOrder(c, rs)
    ensures forall p | p in order :: p in grouped && c.decodeEnvelope(p).Some? && grouped[p] == Merged(c, rs, p)
  {
    hide SignerOf, TrimSpace, Merged, PayloadOrder;
    grouped, order := map[], [];
    NothingGrouped(c);
    for i := 0 to |rs|
      invariant order == PayloadOrder(c, rs[..i])
      invariant forall p :: p in order <==> p in grouped
      invariant forall p | p in order :: c.decodeEnvelope(p).Some? && grouped[p] == Merged(c, rs[..i], p)
      invariant forall p | p !in order && c.decodeEnvelope(p).Some? ::
                  Merged(c, rs[..i], p) == c.decodeEnvelope(p).value
    {
      GroupStep(c, rs, i);
      var p := rs[i].payload;
      var env := c.decodeEnvelope(p);
      if env.None? {
        continue;
      }
      if p !in grouped {
        grouped := grouped[p := env.value];
        order := order + [p];
      }
      var signer := SignerOf(c, grouped[p], rs[i]);
      if signer.None? {
        continue;
      }
      var e := grouped[p];
      grouped := grouped[p := e.(signatures := e.signatures[signer.value := TrimSpace(rs[i].signature)])];
    }
    assert rs[..|rs|] == rs;
  }

  lemma NothingGrouped(c: Codec)
    ensures PayloadOrder(c, []) == []
    ensures forall p | c.decodeEnvelope(p).Some? :: Merged(c, [], p) == c.decodeEnvelope(p).value
  {
  }

  /** What one more request does to order and envelopes. */
  lemma GroupStep(c: Codec, rs: seq<Request>, i: nat)
    requires i < |rs|
    ensures var before, p := PayloadOrder(c, rs[..i]), rs[i].payload;
            PayloadOrder(c, rs[..i + 1]) == if c.decodeEnvelope(p).Some? && p !in before then before + [p] else before
    ensures forall p | c.decodeEnvelope(p).Some? ::
              var env := Merged(c, rs[..i], p);
              var signer := SignerOf(c, env, rs[i]);
              Merged(c, rs[..i + 1], p) ==
              if rs[i].payload != p || signer.None? then env
              else env.(signatures := env.signatures[signer.value := TrimSpace(rs[i].signature)])
  {
    hide SignerOf, TrimSpace;
    assert rs[..i + 1][..i] == rs[..i];
  }

  /** `order` lists, by the positions `at`, the first appearances of the decodable payloads. */
  ghost predicate FirstAppearances(c: Codec, rs: seq<Request>, order: seq<string>, at: seq<nat>) {
    && |at| == |order|
    && (forall n | 0 <= n < |at| :: at[n] < |rs| && rs[at[n]].payload == order[n])
    && (forall n, m | 0 <= n < m < |at| :: at[n] < at[m])
    && (forall n, i | 0 <= n < |at| && 0 <= i < at[n] :: rs[i].payload != order[n])
    && (forall p :: p in order <==> c.decodeEnvelope(p).Some? && Requested(rs, p))
  }

  predicate Requested(rs: seq<Request>, p: string) {
    exists i :: 0 <= i < |rs| && rs[i].payload == p
  }

  /** One entry per decodable payload, in order of first appearance. */
  lemma {:induction false} OrderIsFirstAppearances(c: Codec, rs: seq<Request>) returns (at: seq<nat>)
    ensures FirstAppearances(c, rs, PayloadOrder(c, rs), at)
  {
    if rs == [] {
      at := [];
    } else {
      var init, p := rs[..|rs| - 1], rs[|rs| - 1].payload;
      at := OrderIsFirstAppearances(c, init);
      MorePayloads(c, init, rs[|rs| - 1], PayloadOrder(c, init), at);
      assert rs == init + [rs[|rs| - 1]];
      if c.decodeEnvelope(p).Some? && p !in PayloadOrder(c, init) {
        at := at + [|init|];
      }
    }
  }

  lemma MorePayloads(c: Codec, rs: seq<Request>, r: Request, order: seq<string>, at: seq<nat>)
    requires FirstAppearances(c, rs, order, at)
    ensures c.decodeEnvelope(r.payload).None? || r.payload in order ==> FirstAppearances(c, rs + [r], order, at)
    ensures c.decodeEnvelope(r.payload).Some? && r.payload !in order ==>
              FirstAppearances(c, rs + [r], order + [r.payload], at + [|rs|])
  {
    var all := rs + [r];
    forall p ensures Requested(all, p) <==> p == r.payload || Requested(rs, p) {
      if i :| 0 <= i < |rs| && rs[i].payload == p {
        assert all[i].payload == p;
      }
      assert all[|rs|] == r;
    }
  }

  // ----- the merge

  /** Request `i` signs payload `p` for `key`. */
  predicate SignsFor(c: Codec, rs: seq<Request>, env: Envelope, p: string, key: string, i: nat) {
    i < |rs| && rs[i].payload == p && SignerOf(c, env, rs[i]) == Some(key)
  }

  lemma {:induction false} MergedKeepsRest(c: Codec, rs: seq<Request>, p: string)
    requires c.decodeEnvelope(p).Some?
    ensures Merged(c, rs, p) == c.decodeEnvelope(p).value.(signatures := Merged(c, rs, p).signatures)
  {
    if rs == [] {
    } else {
      MergedKeepsRest(c, rs[..|rs| - 1], p);
    }
  }

  lemma {:induction false} LastSignatureCounts(c: Codec, rs: seq<Request>, p: string, key: string, i: nat)
    requires c.decodeEnvelope(p).Some?
    requires SignsFor(c, rs, c.decodeEnvelope(p).value, p, key, i)
    requires forall j | i < j < |rs| :: !SignsFor(c, rs, c.decodeEnvelope(p).value, p, key, j)
    ensures var m := Merged(c, rs, p).signatures; key in m && m[key] == TrimSpace(rs[i].signature)
  {
    hide SignerOf, TrimSpace;
    var init, last, env := rs[..|rs| - 1], |rs| - 1, c.decodeEnvelope(p).value;
    SignerOfMerged(c, init, p, rs[last]);
    if i == last {
    } else {
      assert init[i] == rs[i];
      forall j | i < j < |init| ensures !SignsFor(c, init, env, p, key, j) {
        assert !SignsFor(c, rs, env, p, key, j);
        assert init[j] == rs[j];
      }
      LastSignatureCounts(c, init, p, key, i);
      assert !SignsFor(c, rs, env, p, key, last);
    }
  }

  lemma {:induction false} NoSignatureNoChange(c: Codec, rs: seq<Request>, p: string, key: string)
    requires c.decodeEnvelope(p).Some?
    requires forall j | 0 <= j < |rs| :: !SignsFor(c, rs, c.decodeEnvelope(p).value, p, key, j)
    ensures var env := c.decodeEnvelope(p).value; var m := Merged(c, rs, p);
            SignatureOf(m, key) == SignatureOf(env, key)
  {
    hide SignerOf, TrimSpace;
    if rs == [] {
    } else {
      var init, last, env := rs[..|rs| - 1], |rs| - 1, c.decodeEnvelope(p).value;
      forall j | 0 <= j < |init| ensures !SignsFor(c, init, env, p, key, j) {
        assert !SignsFor(c, rs, env, p, key, j);
        assert init[j] == rs[j];
      }
      NoSignatureNoChange(c, init, p, key);
      SignerOfMerged(c, init, p, rs[last]);
      assert !SignsFor(c, rs, env, p, key, last);
    }
  }

  lemma SignerOfMerged(c: Codec, rs: seq<Request>, p: string, r: Request)
    requires c.decodeEnvelope(p).Some?
    ensures SignerOf(c, Merged(c, rs, p), r) == SignerOf(c, c.decodeEnvelope(p).value, r)
  {
    MergedKeepsRest(c, rs, p);
  }

  /** A message the library accepts: it has signers, each with an account key. */
  predicate WellFormed(c: Codec, m: Message) {
    1 <= m.numRequired <= |m.accountKeys| && c.isMessage(m.bytes)
  }

  /** No signer is given twice for the payload. */
  ghost predicate DistinctSigners(c: Codec, rs: seq<Request>, env: Envelope, p: string) {
    forall key, i, j | SignsFor(c, rs, env, p, key, i) && SignsFor(c, rs, env, p, key, j) :: i == j
  }

  /** A usable signature for account key `n` is among the requests. */
  predicate HasSignature(c: Codec, rs: seq<Request>, env: Envelope, p: string, m: Message, n: nat) {
    n < |m.accountKeys|
    && exists i :: 0 <= i < |rs| && SignsFor(c, rs, env, p, m.accountKeys[n], i)
                   && SignatureBytes(TrimSpace(rs[i].signature)).Some?
  }

  lemma SignatureOfMerged(c: Codec, rs: seq<Request>, p: string, m: Message, n: nat)
    requires WellFormed(c, m) && n < m.numRequired && c.decodeEnvelope(p) == Some(EnvelopeOf(m))
    requires DistinctSigners(c, rs, EnvelopeOf(m), p)
    ensures forall i | 0 <= i < |rs| && SignsFor(c, rs, EnvelopeOf(m), p, m.accountKeys[n], i) ::
              SignatureOf(Merged(c, rs, p), m.accountKeys[n]) == SignatureBytes(TrimSpace(rs[i].signature))
    ensures SignatureOf(Merged(c, rs, p), m.accountKeys[n]).Some? <==> HasSignature(c, rs, EnvelopeOf(m), p, m, n)
  {
    hide SignerOf, TrimSpace, SignatureBytes, Merged;
    var env, key := EnvelopeOf(m), m.accountKeys[n];
    if i :| 0 <= i < |rs| && SignsFor(c, rs, env, p, key, i) {
      LastSignatureCounts(c, rs, p, key, i);
    } else {
      NoSignatureNoChange(c, rs, p, key);
      EmptyIsNoSignature();
      assert key in env.signerKeys;
    }
  }

  lemma EmptyIsNoSignature()
    ensures SignatureBytes("").None?
  {
  }

  /** For an envelope this service made, requests from distinct signers in any order
      assemble exactly when every required signer gave a usable signature, and then
      slot `n` holds the signature given for account key `n`. */
  lemma MergeInKeyOrder(c: Codec, rs: seq<Request>, p: string, m: Message)
    requires WellFormed(c, m) && c.decodeEnvelope(p) == Some(EnvelopeOf(m))
    requires DistinctSigners(c, rs, EnvelopeOf(m), p)
    ensures var a := Assemble(c, Merged(c, rs, p));
            && (a.Signed? <==> forall n | 0 <= n < m.numRequired :: HasSignature(c, rs, EnvelopeOf(m), p, m, n))
            && (!a.Signed? ==> a == Failed)
            && (a.Signed? ==> a.message == m.bytes && |a.signatures| == m.numRequired)
            && (a.Signed? ==> forall n, i | 0 <= n < m.numRequired && 0 <= i < |rs|
                                            && SignsFor(c, rs, EnvelopeOf(m), p, m.accountKeys[n], i) ::
                                Some(a.signatures[n]) == SignatureBytes(TrimSpace(rs[i].signature)))
  {
    hide SignerOf, TrimSpace, SignatureBytes, Merged, HexDecode, HexOf, TrimPrefix, SignsFor, DistinctSigners;
    var env, merged := EnvelopeOf(m), Merged(c, rs, p);
    MergedKeepsRest(c, rs, p);
    HexDigits(m.bytes);
    PlainText(HexOf(m.bytes));
    HexDecodeOf(m.bytes);
    assert merged.signerKeys == m.accountKeys[..m.numRequired];
    forall n | 0 <= n < m.numRequired
      ensures SignatureOf(merged, merged.signerKeys[n]).Some? <==> HasSignature(c, rs, env, p, m, n)
      ensures forall i | 0 <= i < |rs| && SignsFor(c, rs, env, p, m.accountKeys[n], i) ::
                SignatureOf(merged, merged.signerKeys[n]) == SignatureBytes(TrimSpace(rs[i].signature))
    {
      SignatureOfMerged(c, rs, p, m, n);
    }
    AssembleMatchingKeys(c, merged);
  }

  /** A message this service put into an envelope, its signers distinct in the requests. */
  ghost predicate ServiceMade(c: Codec, rs: seq<Request>, p: string, m: Message) {
    WellFormed(c, m) && c.decodeEnvelope(p) == Some(EnvelopeOf(m)) && DistinctSigners(c, rs, EnvelopeOf(m), p)
  }

  /** Every required signer of the payload gave a usable signature. */
  predicate AllSigners(c: Codec, rs: seq<Request>, p: string, m: Message) {
    forall n | 0 <= n < m.numRequired :: HasSignature(c, rs, EnvelopeOf(m), p, m, n)
  }

  /** As many signatures as the message requires, slot `n` that given for account key `n`. */
  predicate InKeyOrder(c: Codec, rs: seq<Request>, p: string, m: Message, signatures: seq<Bytes>) {
    && |signatures| == m.numRequired <= |m.accountKeys|
    && forall n, i | 0 <= n < m.numRequired && 0 <= i < |rs|
                     && SignsFor(c, rs, EnvelopeOf(m), p, m.accountKeys[n], i) ::
         Some(signatures[n]) == SignatureBytes(TrimSpace(rs[i].signature))
  }

  /** A successful entry: the message with its signatures in key order, serialized, and as
      transaction id the signature of the first account key, which pays. */
  ghost predicate HoldsTransaction(c: Codec, rs: seq<Request>, p: string, m: Message, e: Entry) {
    && e.Success?
    && exists signatures :: InKeyOrder(c, rs, p, m, signatures) && signatures != []
                            && Some(e.signedTx) == c.serialize(m.bytes, signatures) && e.txId == signatures[0]
  }

  predicate Serializes(c: Codec, a: Assembled) {
    a.Signed? && c.serialize(a.message, a.signatures).Some?
  }

  /** The entry of a service-made payload never panics, and fails exactly when a signer is
      missing or the library cannot serialize the transaction. */
  lemma ServiceEntry(c: Codec, rs: seq<Request>, p: string, m: Message)
    requires ServiceMade(c, rs, p, m)
    ensures var a := Assemble(c, Merged(c, rs, p));
            && EntryOf(c, a).Some?
            && (EntryOf(c, a) == Some(Failure) <==> !AllSigners(c, rs, p, m) || !Serializes(c, a))
            && (EntryOf(c, a).value.Success? ==> HoldsTransaction(c, rs, p, m, EntryOf(c, a).value))
  {
    hide Assemble, Merged, HasSignature, SignsFor, DistinctSigners, EnvelopeOf, SignatureBytes, TrimSpace;
    MergeInKeyOrder(c, rs, p, m);
    var a := Assemble(c, Merged(c, rs, p));
    if a.Signed? && EntryOf(c, a).value.Success? {
      assert InKeyOrder(c, rs, p, m, a.signatures);
    }
  }

  /** A call over service-made payloads does not panic, and entry `i` fails exactly when a
      signer of payload `i` is missing or the library cannot serialize the transaction. */
  lemma ServiceCall(c: Codec, rs: seq<Request>, ms: map<string, Message>, out: Option<seq<Entry>>)
    requires forall p | p in PayloadOrder(c, rs) :: p in ms && ServiceMade(c, rs, p, ms[p])
    requires Built(c, rs, out)
    ensures out.Some?
    ensures var order := PayloadOrder(c, rs);
            forall i | 0 <= i < |order| ::
              var p := order[i];
              out.value[i] == Failure <==>
              !AllSigners(c, rs, p, ms[p]) || !Serializes(c, Assemble(c, Merged(c, rs, p)))
    ensures var order := PayloadOrder(c, rs);
            forall i | 0 <= i < |order| ::
              out.value[i].Success? ==> HoldsTransaction(c, rs, order[i], ms[order[i]], out.value[i])
  {
    hide HoldsTransaction, Assemble, Merged, AllSigners, ServiceMade, PayloadOrder, EntryOf;
    forall p | p in PayloadOrder(c, rs) ensures EntryOf(c, Assemble(c, Merged(c, rs, p))).Some? {
      ServiceEntry(c, rs, p, ms[p]);
    }
    var order := PayloadOrder(c, rs);
    forall i | 0 <= i < |order|
      ensures var p := order[i];
              && (out.value[i] == Failure <==>
                  !AllSigners(c, rs, p, ms[p]) || !Serializes(c, Assemble(c, Merged(c, rs, p))))
              && (out.value[i].Success? ==> HoldsTransaction(c, rs, p, ms[p], out.value[i]))
    {
      var p := order[i];
      assert p in order;
      ServiceEntry(c, rs, p, ms[p]);
    }
  }

  /** With one key per slot, assembly succeeds exactly when every key is signed. */
  lemma AssembleMatchingKeys(c: Codec, env: Envelope)
    requires env.numRequired == |env.signerKeys| > 0
    requires var msg := HexDecode(TrimPrefix(env.messageHex, "0x")); msg.ok && c.isMessage(msg.bytes)
    ensures AllSigned(env) ==> Assemble(c, env) == Signed(HexDecode(TrimPrefix(env.messageHex, "0x")).bytes, Slots(env))
    ensures !AllSigned(env) ==> Assemble(c, env) == Failed
  {
    hide SignatureOf, HexDecode, TrimPrefix;
    if !AllSigned(env) {
      var i :| 0 <= i < |env.signerKeys| && SignatureOf(env, env.signerKeys[i]).None?;
      var first := FirstUnsigned(env, i);
    }
  }

  lemma {:induction false} FirstUnsigned(env: Envelope, i: nat) returns (first: nat)
    requires env.numRequired == |env.signerKeys| && i < |env.signerKeys| && SignatureOf(env, env.signerKeys[i]).None?
    ensures first < |env.signerKeys| && FirstBad(env, first)
    decreases i
  {
    hide SignatureOf;
    if j :| 0 <= j < i && SignatureOf(env, env.signerKeys[j]).None? {
      first := FirstUnsigned(env, j);
    } else {
      first := i;
    }
  }

  // ----- what keys and signatures mean

  /** The hex of some bytes as a client may write it: with 0x or without. */
  predicate HexText(text: string, b: Bytes) {
    text == HexOf(b) || text == "0x" + HexOf(b)
  }

  lemma HexTextRead(text: string, b: Bytes)
    requires HexText(text, b) && b != []
    ensures text != "" && !IsSpace(text[0]) && !IsSpace(text[|text| - 1])
    ensures HexDecode(TrimPrefix(text, "0x")) == Decoded(b, true)
  {
    HexDigits(b);
    HexDecodeOf(b);
    PlainText(HexOf(b));
    assert DigitValue(HexOf(b)[0]) < 16 && DigitValue(HexOf(b)[|HexOf(b)| - 1]) < 16;
    assert ("0x" + HexOf(b))[2..] == HexOf(b);
  }

  /** A 32-byte public key in hex, white space around it or not, is its base58 text. */
  lemma HexKeySigns(c: Codec, env: Envelope, r: Request, text: string, key: Bytes, before: string, behind: string)
    requires HexText(text, key) && |key| == 32 && AllSpace(before) && AllSpace(behind)
    requires r.publicKey == before + text + behind
    ensures SignerOf(c, env, r) == Some(c.keyToBase58(key))
  {
    hide HexOf, HexDecode, TrimPrefix, TrimSpace;
    HexTextRead(text, key);
    Trimmed(before, text, behind);
  }

  /** A key that is not 32 bytes of hex is taken as it stands if it is base58, and its
      request is dropped otherwise; without a key the only signer is meant. */
  lemma OtherKeySigns(c: Codec, env: Envelope, r: Request)
    requires var d := HexDecode(TrimPrefix(TrimSpace(r.publicKey), "0x")); !d.ok || |d.bytes| != 32
    ensures var key := TrimSpace(r.publicKey);
            SignerOf(c, env, r) ==
            if key != "" then if c.isBase58Key(key) then Some(key) else None
            else if |env.signerKeys| == 1 && env.signerKeys[0] != "" then Some(env.signerKeys[0])
            else None
  {
    hide HexDecode, TrimPrefix, TrimSpace;
  }

  /** A signature is usable exactly when it is the hex of 64 bytes. */
  lemma SignatureRead(text: string, signature: Bytes, before: string, behind: string)
    requires HexText(text, signature) && signature != [] && AllSpace(before) && AllSpace(behind)
    ensures SignatureBytes(before + text + behind) == if |signature| == 64 then Some(signature) else None
  {
    hide HexOf, HexDecode, TrimPrefix, TrimSpace;
    HexTextRead(text, signature);
    Trimmed(before, text, behind);
  }
}
