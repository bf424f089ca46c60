/** Tron contract calls: the hex encoders for call parameters, and the fixed-offset
    parsers that read a TRC-20 transfer back from a block. */
module TronAbi {
  import opened Wrappers
  import opened Bytes
  import opened Text
  import Erc20Codec

  /** Base58 with checksum: a payload and its version byte. */
  datatype Base58 = Base58(encode: (Bytes, byte) -> string, decode: string -> Option<(Bytes, byte)>)

  const ADDRESS_VERSION: byte := 0x41
  const ADDRESS_PREFIX: string := "41"
  const RESOURCE_ENERGY: nat := 1

  // ----- address texts

  function TronAddressToHex(b58: Base58, address: string): string {
    var d := b58.decode(address);
    if d.None? then "" else "0x" + HexOf([d.value.1] + d.value.0)
  }

  /** Empty for bad hex; no bytes at all panics. */
  function HexToTronAddress(b58: Base58, hexAddr: string): Option<string> {
    var d := HexDecode(TrimPrefix(hexAddr, "0x"));
    if !d.ok then Some("")
    else if d.bytes == [] then None
    else Some(b58.encode(d.bytes[1..], d.bytes[0]))
  }

  // ----- encoders

  /** The transfer parameter: the version byte stays in front of the address. */
  method Trc20Parameter(b58: Base58, toAddress: string, amount: int) returns (parameter: Result<string>)
    ensures var d := b58.decode(toAddress);
            && (parameter.Ok? <==> d.Some?)
            && (d.Some? ==> parameter == Ok(ZeroPadded(HexOf([d.value.1] + d.value.0), 64) + Hex64(amount)))
  {
    hide HexOf, Hex64;
    var toAddressHex := TronAddressToHex(b58, toAddress);
    if toAddressHex == "" {
      assert b58.decode(toAddress).None?;
      return Err("invalid to address");
    }
    toAddressHex := toAddressHex[2..];
    var d := b58.decode(toAddress).value;
    assert toAddressHex == HexOf([d.1] + d.0);
    if |toAddressHex| < 64 {
      toAddressHex := Repeat('0', 64 - |toAddressHex|) + toAddressHex;
    }
    assert toAddressHex == ZeroPadded(HexOf([d.1] + d.0), 64);
    parameter := Ok(toAddressHex + Hex64(amount));
  }

  /** The other encoder drops the version byte, and insists on 21 bytes. */
  function EncodeAddressParam(b58: Base58, address: string): Result<string> {
    var d := b58.decode(address);
    if d.None? then Err("invalid tron address")
    else
      var addrBytes := [d.value.1] + d.value.0;
      if |addrBytes| != 21 then Err("invalid tron address length")
      else Ok(ZeroPadded(HexOf(addrBytes[1..]), 64))
  }

  function EncodeUint256Param(value: int): string {
    Hex64(if value < 0 then 0 else value)
  }

  function RentResourceParameter(b58: Base58, receiver: string, trxAmountSun: int): Result<string> {
    var receiverParam := EncodeAddressParam(b58, receiver);
    if receiverParam.Err? then receiverParam
    else Ok(receiverParam.value + EncodeUint256Param(trxAmountSun) + EncodeUint256Param(RESOURCE_ENERGY))
  }

  function GetRentInfoParameter(b58: Base58, renter: string, receiver: string): Result<string> {
    var renterParam, receiverParam := EncodeAddressParam(b58, renter), EncodeAddressParam(b58, receiver);
    if renterParam.Err? then renterParam
    else if receiverParam.Err? then receiverParam
    else Ok(renterParam.value + receiverParam.value + EncodeUint256Param(RESOURCE_ENERGY))
  }

  // ----- parsers

  datatype Transfer = Transfer(to: string, amount: int)

  function ParseTrc20TransferData(b58: Base58, data: string): Result<Transfer> {
    if |data| < 136 then Err("invalid data length")
    else
      var to := HexDecode(ADDRESS_PREFIX + data[32..72]);
      if !to.ok || to.bytes == [] then Err("failed to parse address")
      else
        var value := ParseInt(data[72..136], 16);
        if value.None? then Err("failed to parse amount from hex")
        else Ok(Transfer(b58.encode(to.bytes[1..], to.bytes[0]), value.value))
  }

  datatype ContractKind = TransferContract | TriggerSmartContract | OtherContract

  datatype Contract = Contract(
    kind: ContractKind, owner: string, to: string, contractAddress: string, amount: int, data: string)

  datatype Transaction = Transaction(txId: string, contracts: seq<Contract>, results: seq<string>)

  datatype Status = Pending | Success | Failed

  /** `contractRetStatus`: the first result decides, in any capitalisation. */
  function StatusOf(tx: Transaction): Status {
    if tx.results == [] then Pending else if ToLower(tx.results[0]) == "success" then Success else Failed
  }

  datatype TransferKind = OuterTrx | ReceiptTrc20

  /** The block a transaction is parsed in. */
  datatype Place = Place(blockHash: string, blockHeight: nat)

  datatype Party = Party(address: string, amount: string)

  datatype Entry = Entry(
    txId: string, from: seq<Party>, to: seq<Party>, contractAddress: string, txType: nat, place: Place, logIndex: nat,
    kind: TransferKind, status: Status)

  datatype Parsed = Listed(entry: Entry) | Skipped | Panicked

  /** An owner, recipient or contract field: absent when empty, and panicking on a bare "0x". */
  method ParseField(b58: Base58, text: string) returns (address: Option<string>, panicked: bool)
    ensures panicked <==> text == "0x"
    ensures address == HexToTronAddress(b58, text)
    ensures forall amount :: PartyOf(b58, text, amount) == if address.Some? then [Party(address.value, amount)] else []
  {
    address, panicked := None, false;
    NoBytesNoText(TrimPrefix(text, "0x"));
    if text != "" {
      address := HexToTronAddress(b58, text);
      panicked := address.None?;
    }
  }

  lemma NoBytesNoText(s: string)
    ensures HexDecode(s).ok && HexDecode(s).bytes == [] <==> s == ""
  {
  }

  predicate IsTransferCall(data: string) {
    |data| >= 136 && Erc20Codec.TRANSFER_METHOD <= data
  }

  /** The amount in a call: "0" when the field is not a number. */
  function CallAmount(data: string): string
    requires |data| >= 136
  {
    var amount := ParseInt(data[72..136], 16);
    if amount.Some? then IntString(amount.value) else "0"
  }

  function CallRecipient(b58: Base58, data: string): string
    requires |data| >= 136
  {
    var d := HexDecode(ADDRESS_PREFIX + data[32..72]);
    if d.ok && d.bytes != [] then b58.encode(d.bytes[1..], d.bytes[0]) else ""
  }

  /** The parties of an entry: the field's address with the amount, if the field is there. */
  function PartyOf(b58: Base58, text: string, amount: string): seq<Party> {
    var address := HexToTronAddress(b58, text);
    if text == "" || address.None? then [] else [Party(address.value, amount)]
  }

  method ParseSingleTransaction(b58: Base58, tx: Transaction, place: Place, logIndex: nat) returns (r: Parsed)
    ensures r == Expected(b58, tx, place, logIndex)
  {
    hide HexToTronAddress, ParseInt, IntString, HexDecode, PartyOf;
    if |tx.contracts| == 0 {
      return Skipped;
    }
    var c := tx.contracts[0];
    var fromAddrs: seq<Party>, toAddrs: seq<Party> := [], [];
    var contractAddress, txType, kind := "", 0, OuterTrx;
    match c.kind {
    case TransferContract =>
      txType := 1;
      var from, fromPanics := ParseField(b58, c.owner);
      if fromPanics { return Panicked; }
      if from.Some? { fromAddrs := fromAddrs + [Party(from.value, IntString(c.amount))]; }
      var to, toPanics := ParseField(b58, c.to);
      if toPanics { return Panicked; }
      if to.Some? { toAddrs := toAddrs + [Party(to.value, IntString(c.amount))]; }
    case TriggerSmartContract =>
      txType, kind := 2, ReceiptTrc20;
      var contract, contractPanics := ParseField(b58, c.contractAddress);
      if contractPanics { return Panicked; }
      if contract.Some? { contractAddress := contract.value; }
      var from, fromPanics := ParseField(b58, c.owner);
      if fromPanics { return Panicked; }
      if from.Some? { fromAddrs := fromAddrs + [Party(from.value, "")]; }
      if |c.data| < 136 || c.data[..8] != Erc20Codec.TRANSFER_METHOD {
        return Skipped;
      }
      RecipientText(b58, c.data);
      var toAddr := HexToTronAddress(b58, ADDRESS_PREFIX + c.data[32..72]);
      var amount := "0";
      var amountBig := ParseInt(c.data[72..136], 16);
      if amountBig.Some? { amount := IntString(amountBig.value); }
      assert amount == CallAmount(c.data);
      assert toAddr == Some(CallRecipient(b58, c.data));
      if |fromAddrs| > 0 { fromAddrs := fromAddrs[0 := fromAddrs[0].(amount := amount)]; }
      assert fromAddrs == PartyOf(b58, c.owner, amount);
      toAddrs := toAddrs + [Party(toAddr.value, amount)];
    case OtherContract =>
      return Skipped;
    }
    if |fromAddrs| == 0 && |toAddrs| == 0 {
      return Skipped;
    }
    r := Listed(Entry(tx.txId, fromAddrs, toAddrs, contractAddress, txType, place, logIndex, kind, StatusOf(tx)));
  }

  /** With the prefix in front there is always a first byte, so the recipient never panics. */
  lemma RecipientText(b58: Base58, data: string)
    requires |data| >= 136
    ensures HexToTronAddress(b58, ADDRESS_PREFIX + data[32..72]) == Some(CallRecipient(b58, data))
  {
    var s := ADDRESS_PREFIX + data[32..72];
    assert s[0] == '4' && s[1] == '1';
  }

  /** What a transaction is listed as, by its first contract. */
  function Expected(b58: Base58, tx: Transaction, place: Place, logIndex: nat): Parsed {
    if tx.contracts == [] then Skipped
    else
      var c := tx.contracts[0];
      match c.kind
      case OtherContract => Skipped
      case TransferContract =>
        var from, to := PartyOf(b58, c.owner, IntString(c.amount)), PartyOf(b58, c.to, IntString(c.amount));
        if c.owner == "0x" || c.to == "0x" then Panicked
        else if from == [] && to == [] then Skipped
        else Listed(Entry(tx.txId, from, to, "", 1, place, logIndex, OuterTrx, StatusOf(tx)))
      case TriggerSmartContract =>
        if c.contractAddress == "0x" || c.owner == "0x" then Panicked
        else if !IsTransferCall(c.data) then Skipped
        else
          var contract := HexToTronAddress(b58, c.contractAddress);
          Listed(Entry(tx.txId,
                       PartyOf(b58, c.owner, CallAmount(c.data)),
                       [Party(CallRecipient(b58, c.data), CallAmount(c.data))],
                       if contract.Some? then contract.value else "",
                       2, place, logIndex, ReceiptTrc20, StatusOf(tx)))
  }

  /** The listed transactions of a block in order, each under its own index; a panic
      ends the call. */
  method ParseBlockTransactions(b58: Base58, txs: seq<Transaction>, place: Place) returns (out: Option<seq<Entry>>)
    ensures out.Some? <==> forall i | 0 <= i < |txs| :: !Expected(b58, txs[i], place, i).Panicked?
    ensures out.Some? ==> ListsExactly(b58, txs, place, |txs|, out.value)
  {
    hide Expected;
    var list: seq<Entry> := [];
    for i := 0 to |txs|
      invariant forall j | 0 <= j < i :: !Expected(b58, txs[j], place, j).Panicked?
      invariant ListsExactly(b58, txs, place, i, list)
    {
      var parsed := ParseSingleTransaction(b58, txs[i], place, i);
      ListedUnderIndex(b58, txs[i], place, i);
      if parsed.Panicked? {
        return None;
      }
      if parsed.Listed? {
        list := list + [parsed.entry];
      }
    }
    out := Some(list);
  }

  /** `list` is what the first `n` transactions are listed as, each once and in order. */
  predicate ListsExactly(b58: Base58, txs: seq<Transaction>, place: Place, n: nat, list: seq<Entry>)
    requires n <= |txs|
  {
    && (forall k | 0 <= k < |list| ::
          list[k].logIndex < n && Expected(b58, txs[list[k].logIndex], place, list[k].logIndex) == Listed(list[k]))
    && (forall k, m | 0 <= k < m < |list| :: list[k].logIndex < list[m].logIndex)
    && (forall i | 0 <= i < n && Expected(b58, txs[i], place, i).Listed? ::
          Expected(b58, txs[i], place, i).entry in list)
  }

  lemma ListedUnderIndex(b58: Base58, tx: Transaction, place: Place, logIndex: nat)
    ensures var e := Expected(b58, tx, place, logIndex);
            e.Listed? ==> e.entry.logIndex == logIndex && e.entry.txId == tx.txId
  {
  }

  // ----- round trips

  /** Calldata whose fixed-offset fields are an address and a 64-character number. */
  predicate HasFields(data: string, to: Address, number: string) {
    |data| == 136 && Erc20Codec.TRANSFER_METHOD <= data && data[32..72] == HexOf(to) && data[72..136] == number
  }

  lemma VersionedHex(to: Address)
    ensures HexDecode(ADDRESS_PREFIX + HexOf(to)) == Decoded([ADDRESS_VERSION] + to, true)
  {
    HexByte(ADDRESS_VERSION);
    assert HexOf([ADDRESS_VERSION]) == ADDRESS_PREFIX by { assert DigitChar(4) == '4' && DigitChar(1) == '1'; }
    HexConcat([ADDRESS_VERSION], to);
    HexDecodeOf([ADDRESS_VERSION] + to);
  }

  /** Both parsers read the fields back. */
  lemma ParseFields(b58: Base58, data: string, to: Address, number: string, amount: int)
    requires HasFields(data, to, number) && ParseInt(number, 16) == Some(amount)
    ensures ParseTrc20TransferData(b58, data) == Ok(Transfer(b58.encode(to, ADDRESS_VERSION), amount))
    ensures CallRecipient(b58, data) == b58.encode(to, ADDRESS_VERSION) && CallAmount(data) == IntString(amount)
  {
    VersionedHex(to);
    assert ([ADDRESS_VERSION] + to)[1..] == to;
  }

  /** An address word of either encoder, with the amount after it, sits at the offsets. */
  lemma FieldsOfCall(front: Bytes, to: Address, number: string)
    requires |front| <= 12 && |number| == 64
    ensures HasFields(Erc20Codec.TRANSFER_METHOD + ZeroPadded(HexOf(front + to), 64) + number, to, number)
  {
    HexConcat(front, to);
    var digits := HexOf(front) + HexOf(to);
    var word := Repeat('0', 64 - |digits|) + digits;
    assert word == (Repeat('0', 64 - |digits|) + HexOf(front)) + HexOf(to);
    var data := Erc20Codec.TRANSFER_METHOD + word + number;
    assert data[72..136] == number;
    assert data[32..72] == word[24..64];
    assert word[24..64] == HexOf(to);
  }

  /** The parameter the transfer request carries, selector in front, reads back as the
      address and the amount, for every 20-byte payload and every 64-bit amount. */
  lemma Trc20RoundTrip(b58: Base58, to: Address, version: byte, amount: int)
    requires -(TWO64 as int) < amount < TWO64
    ensures var data := Erc20Codec.TRANSFER_METHOD + (ZeroPadded(HexOf([version] + to), 64) + Hex64(amount));
            && IsTransferCall(data)
            && ParseTrc20TransferData(b58, data) == Ok(Transfer(b58.encode(to, ADDRESS_VERSION), amount))
            && CallRecipient(b58, data) == b58.encode(to, ADDRESS_VERSION) && CallAmount(data) == IntString(amount)
  {
    hide HexOf, Hex64, ZeroPadded, ParseInt, ParseTrc20TransferData, CallRecipient, CallAmount;
    Hex64Read(amount);
    FieldsOfCall([version], to, Hex64(amount));
    var word := ZeroPadded(HexOf([version] + to), 64);
    var data := Erc20Codec.TRANSFER_METHOD + (word + Hex64(amount));
    assert data == Erc20Codec.TRANSFER_METHOD + word + Hex64(amount);
    ParseFields(b58, data, to, Hex64(amount), amount);
  }

  /** A call made with that parameter is listed with the recipient and the amount, the
      sender debited the same amount. */
  lemma TransferIsListed(b58: Base58, tx: Transaction, place: Place, logIndex: nat, to: Address, version: byte,
                         amount: int)
    requires tx.contracts != [] && tx.contracts[0].kind == TriggerSmartContract
    requires tx.contracts[0].owner != "0x" && tx.contracts[0].contractAddress != "0x"
    requires tx.contracts[0].data
             == Erc20Codec.TRANSFER_METHOD + (ZeroPadded(HexOf([version] + to), 64) + Hex64(amount))
    requires -(TWO64 as int) < amount < TWO64
    ensures var r := Expected(b58, tx, place, logIndex);
            && r.Listed? && r.entry.to == [Party(b58.encode(to, ADDRESS_VERSION), IntString(amount))]
            && r.entry.from == PartyOf(b58, tx.contracts[0].owner, IntString(amount))
            && r.entry.txId == tx.txId && r.entry.txType == 2 && r.entry.kind == ReceiptTrc20
            && r.entry.place == place && r.entry.logIndex == logIndex && r.entry.status == StatusOf(tx)
            && var token := HexToTronAddress(b58, tx.contracts[0].contractAddress);
               r.entry.contractAddress == if token.Some? then token.value else ""
  {
    hide StatusOf, HexOf, Hex64, ZeroPadded, IsTransferCall, CallRecipient, CallAmount, PartyOf, HexToTronAddress,
      IntString;
    Trc20RoundTrip(b58, to, version, amount);
  }

  /** The stripping encoder round-trips exactly the amounts that are not negative. */
  lemma StrippedRoundTrip(b58: Base58, address: string, to: Address, version: byte, amount: int)
    requires -(TWO64 as int) < amount < TWO64 && b58.decode(address) == Some((to, version))
    ensures EncodeAddressParam(b58, address).Ok?
    ensures var parameter := EncodeAddressParam(b58, address).value + EncodeUint256Param(amount);
            var data, recipient := Erc20Codec.TRANSFER_METHOD + parameter, b58.encode(to, ADDRESS_VERSION);
            && IsTransferCall(data)
            && (ParseTrc20TransferData(b58, data) == Ok(Transfer(recipient, amount)) <==> amount >= 0)
            && CallRecipient(b58, data) == recipient
            && (CallAmount(data) == IntString(amount) <==> amount >= 0)
  {
    hide HexOf, Hex64, ZeroPadded, ParseInt, ParseTrc20TransferData, CallRecipient, CallAmount, IntString;
    var kept := if amount < 0 then 0 else amount;
    Hex64Read(kept);
    FieldsOfCall([], to, Hex64(kept));
    var word := EncodeAddressParam(b58, address).value;
    assert [] + to == to && ([version] + to)[1..] == to;
    assert word == ZeroPadded(HexOf(to), 64);
    var data := Erc20Codec.TRANSFER_METHOD + (word + Hex64(kept));
    assert data == Erc20Codec.TRANSFER_METHOD + word + Hex64(kept);
    ParseFields(b58, data, to, Hex64(kept), kept);
    IntStringRead(kept);
    IntStringRead(amount);
  }

  /** What base58 with checksum promises: decoding undoes encoding, and a text that
      decodes is the encoding of what it decodes to. */
  ghost predicate Lawful(b58: Base58) {
    && (forall payload: Bytes, version: byte :: b58.decode(b58.encode(payload, version)) == Some((payload, version)))
    && (forall text :: b58.decode(text).Some? ==>
                         b58.encode(b58.decode(text).value.0, b58.decode(text).value.1) == text)
  }

  /** A transfer to an address text is listed with that same text exactly when its version
      byte is 0x41: the request keeps the byte, the parser puts 0x41. */
  lemma RecipientTextComesBack(b58: Base58, toAddress: string, to: Address, version: byte, amount: int)
    requires Lawful(b58) && b58.decode(toAddress) == Some((to, version))
    requires -(TWO64 as int) < amount < TWO64
    ensures var data := Erc20Codec.TRANSFER_METHOD + (ZeroPadded(HexOf([version] + to), 64) + Hex64(amount));
            && IsTransferCall(data)
            && (CallRecipient(b58, data) == toAddress <==> version == 0x41)
  {
    hide HexOf, Hex64, ZeroPadded, IsTransferCall, CallRecipient;
    Trc20RoundTrip(b58, to, version, amount);
    assert b58.decode(b58.encode(to, ADDRESS_VERSION)) == Some((to, ADDRESS_VERSION));
  }

  /** The two encoders write the same address word only for a zero version byte. */
  lemma EncodersDiffer(to: Address, version: byte)
    ensures ZeroPadded(HexOf([version] + to), 64) == ZeroPadded(HexOf(to), 64) <==> version == 0
  {
    var kept, stripped := ZeroPadded(HexOf([version] + to), 64), ZeroPadded(HexOf(to), 64);
    HexConcat([version], to);
    HexByte(version);
    var v := HexOf([version]);
    assert kept == Repeat('0', 22) + (v + HexOf(to));
    assert stripped == Repeat('0', 24) + HexOf(to);
    assert kept[22] == DigitChar(version / 16) && kept[23] == DigitChar(version % 16);
    assert stripped[22] == '0' && stripped[23] == '0';
    assert DigitChar(0) == '0';
    if version == 0 {
      assert kept == stripped;
    }
  }

  // ----- rent parameters

  /** A word of 64 hex digits with this value. */
  predicate IsWordOf(s: string, value: nat) {
    |s| == 64 && AllDigits(s, 16) && Value(s, 16) == value
  }

  lemma AddressParam(b58: Base58, address: string)
    ensures var d := b58.decode(address); var r := EncodeAddressParam(b58, address);
            && (r.Ok? <==> d.Some? && |d.value.0| == 20)
            && (r.Ok? ==> IsWordOf(r.value, FromBigEndian(d.value.0)))
  {
    var d := b58.decode(address);
    if d.Some? && |d.value.0| == 20 {
      var to := d.value.0;
      assert ([d.value.1] + to)[1..] == to;
      HexDigits(to);
      HexValue(to);
      PaddingKeeps(HexOf(to), 64);
    }
  }

  lemma UintParam(value: int)
    requires value < TWO64
    ensures IsWordOf(EncodeUint256Param(value), if value < 0 then 0 else value)
  {
    hide Hex64;
    var v := if value < 0 then 0 else value;
    Hex64Read(v);
    ParseDigits(Hex64(v), v);
  }

  lemma ParseDigits(s: string, v: nat)
    requires s != [] && AllDigits(s, 16) && ParseInt(s, 16) == Some(v)
    ensures Value(s, 16) == v
  {
    assert DigitValue(s[0]) < 16;
  }

  /** Renting: the receiver's address, the amount (never below zero), the resource. */
  lemma RentParameterWords(b58: Base58, receiver: string, trxAmountSun: int)
    requires trxAmountSun < TWO64
    ensures var d := b58.decode(receiver); var r := RentResourceParameter(b58, receiver, trxAmountSun);
            && (r.Ok? <==> d.Some? && |d.value.0| == 20)
            && (r.Ok? ==> |r.value| == 192 && IsWordOf(r.value[..64], FromBigEndian(d.value.0))
                          && IsWordOf(r.value[64..128], if trxAmountSun < 0 then 0 else trxAmountSun)
                          && IsWordOf(r.value[128..], 1))
  {
    hide EncodeAddressParam, EncodeUint256Param, IsWordOf;
    AddressParam(b58, receiver);
    UintParam(trxAmountSun);
    UintParam(RESOURCE_ENERGY);
    var r := EncodeAddressParam(b58, receiver);
    if r.Ok? {
      ThreeWords(r.value, EncodeUint256Param(trxAmountSun), EncodeUint256Param(RESOURCE_ENERGY),
                 FromBigEndian(b58.decode(receiver).value.0),
                 if trxAmountSun < 0 then 0 else trxAmountSun, RESOURCE_ENERGY);
    }
  }

  lemma RentInfoParameterWords(b58: Base58, renter: string, receiver: string)
    ensures var d, e := b58.decode(renter), b58.decode(receiver); var r := GetRentInfoParameter(b58, renter, receiver);
            && (r.Ok? <==> d.Some? && |d.value.0| == 20 && e.Some? && |e.value.0| == 20)
            && (r.Ok? ==> |r.value| == 192 && IsWordOf(r.value[..64], FromBigEndian(d.value.0))
                          && IsWordOf(r.value[64..128], FromBigEndian(e.value.0))
                          && IsWordOf(r.value[128..], 1))
  {
    hide EncodeAddressParam, EncodeUint256Param, IsWordOf;
    AddressParam(b58, renter);
    AddressParam(b58, receiver);
    UintParam(RESOURCE_ENERGY);
    var r, s := EncodeAddressParam(b58, renter), EncodeAddressParam(b58, receiver);
    if r.Ok? && s.Ok? {
      ThreeWords(r.value, s.value, EncodeUint256Param(RESOURCE_ENERGY),
                 FromBigEndian(b58.decode(renter).value.0), FromBigEndian(b58.decode(receiver).value.0),
                 RESOURCE_ENERGY);
    }
  }

  lemma ThreeWords(a: string, b: string, c: string, x: nat, y: nat, z: nat)
    requires IsWordOf(a, x) && IsWordOf(b, y) && IsWordOf(c, z)
    ensures var s := a + b + c;
            |s| == 192 && IsWordOf(s[..64], x) && IsWordOf(s[64..128], y) && IsWordOf(s[128..], z)
  {
    hide AllDigits, Value;
    var s := a + b + c;
    assert s[..64] == a && s[64..128] == b && s[128..] == c;
  }

  // ----- plain transfers and results

  /** A TRX transfer between two parties is listed with the amount on both sides. */
  lemma TrxIsListed(b58: Base58, tx: Transaction, place: Place, logIndex: nat, from: Bytes, to: Bytes)
    requires tx.contracts != [] && tx.contracts[0].kind == TransferContract && |from| == |to| == 21
    requires tx.contracts[0].owner == HexOf(from) && tx.contracts[0].to == HexOf(to)
    ensures var amount := IntString(tx.contracts[0].amount); var r := Expected(b58, tx, place, logIndex);
            r == Listed(Entry(tx.txId, [Party(b58.encode(from[1..], from[0]), amount)],
                              [Party(b58.encode(to[1..], to[0]), amount)],
                              "", 1, place, logIndex, OuterTrx, StatusOf(tx)))
  {
    hide HexOf, HexDecode, IntString, TrimPrefix, StatusOf, HexToTronAddress;
    HexAddressRead(b58, from);
    HexAddressRead(b58, to);
  }

  lemma HexAddressRead(b58: Base58, b: Bytes)
    requires |b| == 21
    ensures HexOf(b) != "" && HexOf(b) != "0x"
    ensures HexToTronAddress(b58, HexOf(b)) == Some(b58.encode(b[1..], b[0]))
  {
    hide HexOf, HexDecode, TrimPrefix;
    HexDigits(b);
    HexDecodeOf(b);
    PlainText(HexOf(b));
  }

  /** Without a result a transaction is pending; it succeeded if the first result says
      SUCCESS in any capitalisation, and failed on anything else. */
  lemma StatusIs(tx: Transaction)
    ensures StatusOf(tx) == Pending <==> tx.results == []
    ensures StatusOf(tx) == Success <==> tx.results != [] && ToLower(tx.results[0]) == ToLower("SUCCESS")
  {
    assert ToLower("SUCCESS") == "success";
  }
}
