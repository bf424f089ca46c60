/** From building an ERC-20 transfer to indexing it: the calldata branch and the
    receipt branch meet on one key, and the block lists the transfer once. */
module TransferEndToEnd {
  import opened Wrappers
  import opened Bytes
  import opened Text
  import opened Addresses
  import opened Erc20Codec
  import opened DedupKey
  import opened BlockIndexer

  /** A direct token transfer as it reaches the chain. */
  datatype Sent = Sent(txHash: Word, token: Address, from: Address, to: Address, amount: nat)

  function KeyOf(mask: CaseMask, s: Sent): string {
    LogKey(mask, s.txHash, s.token, s.from, s.to, s.amount)
  }

  /** The block item of the transfer: any capitalisation of the addresses and the
      hash, calldata from the encoder. */
  predicate ItemOf(s: Sent, item: BlockItem) {
    && ToLower(TrimSpace(item.hash)) == "0x" + HexOf(s.txHash)
    && IsHexAddress(item.to) && HexToAddress(item.to) == s.token
    && IsHexAddress(item.from) && HexToAddress(item.from) == s.from
    && item.input == "0x" + HexOf(TransferCalldata(TRANSFER_SELECTOR, s.to, s.amount))
  }

  /** The Transfer event of the transfer, indexed parties in the topics. */
  predicate LogOf(ix: Indexer, s: Sent, lg: Log) {
    && lg.address == s.token
    && lg.topics == [ix.transferTopic, AddressWord(s.from), AddressWord(s.to)]
    && FromBigEndian(lg.data) == s.amount
  }

  predicate Tracked(ix: Indexer, token: Address) {
    ix.tracked == {} || "0x" + HexOf(token) in ix.tracked
  }

  function CountKey(mask: CaseMask, es: seq<Entry>, k: string): nat {
    if es == [] then 0
    else CountKey(mask, es[..|es| - 1], k) + if EntryKey(mask, es[|es| - 1]) == k then 1 else 0
  }

  // ----- the two branches

  /** The outer branch decodes the calldata and keys the entry by the transfer. */
  lemma OuterEntryOf(ix: Indexer, s: Sent, item: BlockItem, blockHash: string, height: nat)
    requires ItemOf(s, item) && Tracked(ix, s.token) && s.amount < TWO256
    ensures var e := OuterEntry(ix, item, blockHash, height);
            && e.Some? && EntryKey(ix.mask, e.value) == KeyOf(ix.mask, s)
            && e.value.txType == 3 && e.value.contractAddress == item.to
            && e.value.to == [Party(AddressHex(ix.mask, s.to), IntString(s.amount))]
            && e.value.from == [Party(item.from, IntString(s.amount))]
  {
    hide ParseTransferData, TransferCalldata, AddressHex, IntString, NormalizeAddress, HexOf, HexToAddress,
      TransferDedupKey;
    RoundTrip(ix.mask, s.to, s.amount, item.input);
    ParsedIsTransfer(ix.mask, item.input);
    NormalIsLowerHex(ix.mask, item.to);
    assert ShouldParse(ix, item);
    NotEmpty(item.to);
    AmountNotEmpty(s.amount);
    OuterKeyOf(ix.mask, s, item);
  }

  lemma NotEmpty(s: string)
    requires IsHexAddress(s)
    ensures s != ""
  {
  }

  lemma AmountNotEmpty(n: nat)
    ensures IntString(n) != ""
  {
  }

  lemma ParsedIsTransfer(mask: CaseMask, input: string)
    requires ParseTransferData(mask, input).Ok?
    ensures var data := TrimPrefix(input, "0x"); |data| >= 136 && data[..8] == TRANSFER_METHOD
  {
  }

  lemma OuterKeyOf(mask: CaseMask, s: Sent, item: BlockItem)
    requires ItemOf(s, item)
    ensures TransferDedupKey(mask, item.hash, item.to, item.from, AddressHex(mask, s.to), IntString(s.amount))
            == KeyOf(mask, s)
  {
    hide AddressHex, IntString, NormalizeAddress, HexOf, HexToAddress, IsHexAddress, TransferCalldata;
    NormalIsLowerHex(mask, item.to);
    NormalIsLowerHex(mask, item.from);
    AddressReadBack(mask, s.token);
    AddressReadBack(mask, s.from);
    AddressReadBack(mask, s.to);
    HexTextPlain(s.txHash);
  }

  /** The receipt branch reads the same five values out of the log. */
  lemma LogTransferOf(ix: Indexer, s: Sent, lg: Log)
    requires LogOf(ix, s, lg) && Tracked(ix, s.token)
    ensures var t := LogTransfer(ix, Some(lg));
            && (t.Some? <==> s.amount > 0)
            && (t.Some? ==> TransferDedupKey(ix.mask, "0x" + HexOf(s.txHash), t.value.contract, t.value.from,
                                             t.value.to, t.value.amount) == KeyOf(ix.mask, s))
  {
    hide AddressHex, IntString, NormalizeAddress, HexOf, HexToAddress, TransferDedupKey, FromBigEndian;
    AddressReadBack(ix.mask, s.token);
    TopicOf(ix.mask, s.from);
    TopicOf(ix.mask, s.to);
  }

  lemma TopicOf(mask: CaseMask, a: Address)
    ensures TopicAddress(mask, AddressWord(a)) == AddressHex(mask, a)
  {
    BareHexReadBack(AddressWord(a));
  }

  // ----- counting

  lemma {:induction false} CountConcat(mask: CaseMask, es: seq<Entry>, fs: seq<Entry>, k: string)
    ensures CountKey(mask, es + fs, k) == CountKey(mask, es, k) + CountKey(mask, fs, k)
  {
    hide EntryKey;
    if fs == [] {
      assert es + fs == es;
    } else {
      CountConcat(mask, es, fs[..|fs| - 1], k);
      assert (es + fs)[..|es + fs| - 1] == es + fs[..|fs| - 1];
    }
  }

  lemma {:induction false} CountAbsent(mask: CaseMask, es: seq<Entry>, k: string)
    requires k !in KeySet(mask, es)
    ensures CountKey(mask, es, k) == 0
  {
    hide EntryKey;
    if es == [] {
    } else {
      var init := es[..|es| - 1];
      assert EntryKey(mask, es[|es| - 1]) in KeySet(mask, es);
      forall j | 0 <= j < |init| ensures EntryKey(mask, init[j]) in KeySet(mask, es) {
        assert init[j] == es[j];
      }
      CountAbsent(mask, init, k);
    }
  }

  lemma CountPresent(mask: CaseMask, es: seq<Entry>, k: string)
    requires CountKey(mask, es, k) > 0
    ensures k in KeySet(mask, es)
  {
    if k !in KeySet(mask, es) { CountAbsent(mask, es, k); }
  }

  /** An entry of another transaction has another key, whatever text its fields hold. */
  lemma OtherHashOtherKey(ix: Indexer, s: Sent, item: BlockItem, blockHash: string, height: nat)
    requires ToLower(TrimSpace(item.hash)) != "0x" + HexOf(s.txHash)
    ensures var e := OuterEntry(ix, item, blockHash, height);
            e.Some? ==> EntryKey(ix.mask, e.value) != KeyOf(ix.mask, s)
  {
    hide NormalizeAddress, AddressHex, HexOf, IntString, ParseTransferData, Join, ToLower, TrimSpace, TransferDedupKey;
    var e := OuterEntry(ix, item, blockHash, height);
    if e.Some? {
      var from, to := e.value.from[0], e.value.to[0];
      var amount := if from.amount == "" then to.amount else from.amount;
      LogKeyUnconfused(ix.mask, e.value.txHash, e.value.contractAddress, from.address, to.address, amount,
                       s.txHash, s.token, s.from, s.to, s.amount);
      assert e.value.txHash == item.hash;
    }
  }

  predicate OtherHashes(s: Sent, items: seq<BlockItem>) {
    forall i | 0 <= i < |items| :: ToLower(TrimSpace(items[i].hash)) != "0x" + HexOf(s.txHash)
  }

  lemma {:induction false} OthersContributeNothing(ix: Indexer, s: Sent, items: seq<BlockItem>, blockHash: string,
                                                   height: nat)
    requires OtherHashes(s, items)
    ensures CountKey(ix.mask, OuterEntries(ix, items, blockHash, height), KeyOf(ix.mask, s)) == 0
  {
    hide EntryKey, OuterEntry, KeyOf;
    if items == [] {
    } else {
      var init, last := items[..|items| - 1], items[|items| - 1];
      OthersContributeNothing(ix, s, init, blockHash, height);
      OtherHashOtherKey(ix, s, last, blockHash, height);
      var before, e := OuterEntries(ix, init, blockHash, height), OuterEntry(ix, last, blockHash, height);
      CountAppend(ix.mask, before, e, KeyOf(ix.mask, s));
    }
  }

  lemma CountAppend(mask: CaseMask, es: seq<Entry>, e: Option<Entry>, k: string)
    ensures CountKey(mask, es + if e.None? then [] else [e.value], k) ==
            CountKey(mask, es, k) + if e.Some? && EntryKey(mask, e.value) == k then 1 else 0
  {
    hide EntryKey;
    if e.Some? {
      assert (es + [e.value])[..|es|] == es;
    } else {
      assert es + [] == es;
    }
  }

  lemma {:induction false} OuterSplit(ix: Indexer, xs: seq<BlockItem>, ys: seq<BlockItem>, blockHash: string,
                                      height: nat)
    ensures OuterEntries(ix, xs + ys, blockHash, height)
            == OuterEntries(ix, xs, blockHash, height) + OuterEntries(ix, ys, blockHash, height)
  {
    hide OuterEntry, OuterEntries;
    if ys == [] {
      assert xs + ys == xs;
      NoOuter(ix, blockHash, height);
    } else {
      var n := |ys| - 1;
      OuterSplit(ix, xs, ys[..n], blockHash, height);
      OuterMore(ix, ys[..n], ys[n], blockHash, height);
      OuterMore(ix, xs + ys[..n], ys[n], blockHash, height);
      assert ys == ys[..n] + [ys[n]] && xs + ys == xs + ys[..n] + [ys[n]];
    }
  }

  lemma NoOuter(ix: Indexer, blockHash: string, height: nat)
    ensures OuterEntries(ix, [], blockHash, height) == []
  {
  }

  lemma OuterMore(ix: Indexer, items: seq<BlockItem>, item: BlockItem, blockHash: string, height: nat)
    ensures var e := OuterEntry(ix, item, blockHash, height);
            OuterEntries(ix, items + [item], blockHash, height)
            == OuterEntries(ix, items, blockHash, height) + if e.None? then [] else [e.value]
  {
    hide OuterEntry;
    assert (items + [item])[..|items|] == items;
  }

  lemma OuterListsOnce(ix: Indexer, s: Sent, xs: seq<BlockItem>, y: BlockItem, ys: seq<BlockItem>, blockHash: string,
                       height: nat)
    requires ItemOf(s, y) && Tracked(ix, s.token) && s.amount < TWO256
    requires OtherHashes(s, xs) && OtherHashes(s, ys)
    ensures CountKey(ix.mask, OuterEntries(ix, xs + [y] + ys, blockHash, height), KeyOf(ix.mask, s)) == 1
  {
    hide EntryKey, OuterEntry, KeyOf, OtherHashes, ItemOf, Tracked, CountKey;
    var k := KeyOf(ix.mask, s);
    OthersContributeNothing(ix, s, xs, blockHash, height);
    OthersContributeNothing(ix, s, ys, blockHash, height);
    OuterEntryOf(ix, s, y, blockHash, height);
    OuterSplit(ix, xs + [y], ys, blockHash, height);
    assert (xs + [y])[..|xs|] == xs;
    CountAppend(ix.mask, OuterEntries(ix, xs, blockHash, height), OuterEntry(ix, y, blockHash, height), k);
    CountConcat(ix.mask, OuterEntries(ix, xs + [y], blockHash, height), OuterEntries(ix, ys, blockHash, height), k);
  }

  /** Receipts never repeat a key the outer list already has. */
  lemma ReceiptsAddNoOuterKey(ix: Indexer, b: RpcBlock, height: nat, receipts: Option<seq<Option<Receipt>>>, k: string)
    requires CountKey(ix.mask, OuterEntries(ix, b.transactions, b.hash, height), k) > 0
    ensures CountKey(ix.mask, BlockEntries(ix, b, height, receipts), k)
            == CountKey(ix.mask, OuterEntries(ix, b.transactions, b.hash, height), k)
  {
    hide EntryKey, OuterEntries, Candidates, FirstOccurrences, CountKey, KeySet;
    if receipts.Some? {
      var outer := OuterEntries(ix, b.transactions, b.hash, height);
      var cs := Candidates(ix, receipts.value, b.hash, height);
      var added := FirstOccurrences(ix.mask, cs, KeySet(ix.mask, outer));
      CountPresent(ix.mask, outer, k);
      AddedKeys(ix.mask, cs, KeySet(ix.mask, outer));
      CountAbsent(ix.mask, added, k);
      CountConcat(ix.mask, outer, added, k);
    }
  }

  /** One item of the transfer among items of other transactions: the block lists
      its key exactly once, whatever the receipts say. */
  lemma ListedOnce(ix: Indexer, s: Sent, b: RpcBlock, p: nat, height: nat, receipts: Option<seq<Option<Receipt>>>)
    requires p < |b.transactions| && ItemOf(s, b.transactions[p])
    requires Tracked(ix, s.token) && s.amount < TWO256
    requires OtherHashes(s, b.transactions[..p]) && OtherHashes(s, b.transactions[p + 1..])
    ensures CountKey(ix.mask, BlockEntries(ix, b, height, receipts), KeyOf(ix.mask, s)) == 1
  {
    hide EntryKey, OuterEntry, KeyOf, OtherHashes, ItemOf, Tracked, CountKey, OuterEntries, BlockEntries;
    var xs, y, ys := b.transactions[..p], b.transactions[p], b.transactions[p + 1..];
    assert b.transactions == xs + [y] + ys;
    OuterListsOnce(ix, s, xs, y, ys, b.hash, height);
    ReceiptsAddNoOuterKey(ix, b, height, receipts, KeyOf(ix.mask, s));
  }

  // ----- every logged transfer

  /** The transfer a log of transaction `txHash` records, if it is tracked and positive. */
  function LogSent(ix: Indexer, txHash: Word, lg: Option<Log>): Option<Sent> {
    if LogTransfer(ix, lg).None? then None else Some(Recorded(txHash, lg.value))
  }

  function Recorded(txHash: Word, log: Log): Sent
    requires |log.topics| == 3
  {
    Sent(txHash, log.address, log.topics[1][12..], log.topics[2][12..], FromBigEndian(log.data))
  }

  function LogSents(ix: Indexer, txHash: Word, logs: seq<Option<Log>>): seq<Sent> {
    if logs == [] then []
    else
      var s := LogSent(ix, txHash, logs[|logs| - 1]);
      LogSents(ix, txHash, logs[..|logs| - 1]) + if s.None? then [] else [s.value]
  }

  /** Every tracked positive transfer the successful receipts log, in order. */
  function BlockSents(ix: Indexer, rs: seq<Option<Receipt>>): seq<Sent> {
    if rs == [] then []
    else
      var r := rs[|rs| - 1];
      BlockSents(ix, rs[..|rs| - 1])
      + if r.None? || r.value.status != 1 then [] else LogSents(ix, r.value.txHash, r.value.logs)
  }

  function SentKeys(mask: CaseMask, ss: seq<Sent>): seq<string> {
    seq(|ss|, i requires 0 <= i < |ss| => KeyOf(mask, ss[i]))
  }

  lemma SentKeysAppend(mask: CaseMask, ss: seq<Sent>, s: Sent)
    ensures SentKeys(mask, ss + [s]) == SentKeys(mask, ss) + [KeyOf(mask, s)]
  {
    hide KeyOf;
  }

  lemma LogSentKey(ix: Indexer, r: Receipt, lg: Option<Log>, blockHash: string, height: nat)
    requires LogTransfer(ix, lg).Some?
    ensures EntryKey(ix.mask, ReceiptEntry(LogTransfer(ix, lg).value, r, blockHash, height))
            == KeyOf(ix.mask, LogSent(ix, r.txHash, lg).value)
  {
    hide AddressHex, IntString, NormalizeAddress, HexOf, HexToAddress, TransferDedupKey, FromBigEndian;
    var log := lg.value;
    BareHexReadBack(log.topics[1]);
    BareHexReadBack(log.topics[2]);
    ReceiptEntryKey(ix.mask, LogTransfer(ix, lg).value, r, blockHash, height);
  }

  /** Which logs give an entry, and that entry, field by field. */
  lemma LogEntryIs(ix: Indexer, r: Receipt, lg: Log, blockHash: string, height: nat)
    ensures var t, value := LogTransfer(ix, Some(lg)), FromBigEndian(lg.data);
            && (t.Some? <==> && |lg.topics| == 3 && lg.topics[0] == ix.transferTopic
                             && Tracked(ix, lg.address) && value > 0)
            && (t.Some? ==>
                  ReceiptEntry(t.value, r, blockHash, height)
                  == Entry("0x" + HexOf(r.txHash), IntString(r.gasUsed * r.effectiveGasPrice), 1, 3,
                           AddressHex(ix.mask, lg.address),
                           [Party(AddressHex(ix.mask, lg.topics[1][12..]), IntString(value))],
                           [Party(AddressHex(ix.mask, lg.topics[2][12..]), IntString(value))],
                           blockHash, height, lg.index % 0x1_0000_0000, "receipt_erc20"))
  {
    hide AddressHex, IntString, NormalizeAddress, HexOf, HexToAddress, FromBigEndian;
    AddressReadBack(ix.mask, lg.address);
    if |lg.topics| == 3 {
      BareHexReadBack(lg.topics[1]);
      BareHexReadBack(lg.topics[2]);
    }
  }

  /** The entry is that of this log of this successful receipt. */
  predicate EntryOfLog(ix: Indexer, rs: seq<Option<Receipt>>, i: nat, j: nat, blockHash: string, height: nat,
                       e: Entry) {
    && i < |rs| && rs[i].Some? && rs[i].value.status == 1 && j < |rs[i].value.logs|
    && var t := LogTransfer(ix, rs[i].value.logs[j]);
       t.Some? && e == ReceiptEntry(t.value, rs[i].value, blockHash, height)
  }

  lemma {:induction false} TransferFromLog(ix: Indexer, logs: seq<Option<Log>>, t: TransferLog) returns (j: nat)
    requires t in LogTransfers(ix, logs)
    ensures j < |logs| && LogTransfer(ix, logs[j]) == Some(t)
  {
    hide LogTransfer;
    var init, lg := logs[..|logs| - 1], logs[|logs| - 1];
    if LogTransfer(ix, lg) == Some(t) {
      j := |logs| - 1;
    } else {
      j := TransferFromLog(ix, init, t);
    }
  }

  /** Every entry the receipts add is that of one of their logs. */
  lemma {:induction false} CandidateFromLog(ix: Indexer, rs: seq<Option<Receipt>>, blockHash: string, height: nat,
                                            e: Entry)
    returns (i: nat, j: nat)
    requires e in Candidates(ix, rs, blockHash, height)
    ensures EntryOfLog(ix, rs, i, j, blockHash, height, e)
  {
    hide LogTransfer, LogTransfers, ReceiptEntry;
    var init, r := rs[..|rs| - 1], rs[|rs| - 1];
    if e in Candidates(ix, init, blockHash, height) {
      i, j := CandidateFromLog(ix, init, blockHash, height, e);
    } else {
      var ts := LogTransfers(ix, r.value.logs);
      var n :| 0 <= n < |ts| && ReceiptEntries(ts, r.value, blockHash, height)[n] == e;
      i := |rs| - 1;
      j := TransferFromLog(ix, r.value.logs, ts[n]);
    }
  }

  lemma {:induction false} LogSentsKeys(ix: Indexer, r: Receipt, logs: seq<Option<Log>>, blockHash: string, height: nat)
    ensures Keys(ix.mask, ReceiptEntries(LogTransfers(ix, logs), r, blockHash, height))
            == SentKeys(ix.mask, LogSents(ix, r.txHash, logs))
  {
    hide EntryKey, KeyOf, LogTransfer, ReceiptEntry;
    if logs == [] {
    } else {
      var init, lg := logs[..|logs| - 1], logs[|logs| - 1];
      LogSentsKeys(ix, r, init, blockHash, height);
      var t := LogTransfer(ix, lg);
      if t.Some? {
        LogSentKey(ix, r, lg, blockHash, height);
        var es := ReceiptEntries(LogTransfers(ix, init), r, blockHash, height);
        var e := ReceiptEntry(t.value, r, blockHash, height);
        assert ReceiptEntries(LogTransfers(ix, logs), r, blockHash, height) == es + [e];
        KeysAppend(ix.mask, es, e);
        SentKeysAppend(ix.mask, LogSents(ix, r.txHash, init), LogSent(ix, r.txHash, lg).value);
      } else {
        assert LogTransfers(ix, logs) == LogTransfers(ix, init);
      }
    }
  }

  lemma {:induction false} CandidateKeys(ix: Indexer, rs: seq<Option<Receipt>>, blockHash: string, height: nat)
    ensures Keys(ix.mask, Candidates(ix, rs, blockHash, height)) == SentKeys(ix.mask, BlockSents(ix, rs))
  {
    hide EntryKey, KeyOf, LogTransfers, LogSents, ReceiptEntries;
    if rs == [] {
    } else {
      var init, r := rs[..|rs| - 1], rs[|rs| - 1];
      CandidateKeys(ix, init, blockHash, height);
      if r.Some? { LogSentsKeys(ix, r.value, r.value.logs, blockHash, height); }
    }
  }

  lemma SentKeysDistinct(mask: CaseMask, ss: seq<Sent>)
    ensures Distinct(SentKeys(mask, ss)) <==> Distinct(ss)
  {
    hide KeyOf;
    forall i, j | 0 <= i < j < |ss| ensures SentKeys(mask, ss)[i] != SentKeys(mask, ss)[j] <==> ss[i] != ss[j] {
      SentKeyInjective(mask, ss[i], ss[j]);
    }
  }

  lemma SentKeyInjective(mask: CaseMask, s: Sent, t: Sent)
    ensures KeyOf(mask, s) == KeyOf(mask, t) <==> s == t
  {
    LogKeyInjective(mask, s.txHash, s.token, s.from, s.to, s.amount, t.txHash, t.token, t.from, t.to, t.amount);
  }

  /** Pairwise different, and none of them an outer entry. */
  ghost predicate AllNew(mask: CaseMask, ss: seq<Sent>, outer: seq<Entry>) {
    Distinct(ss) && forall i | 0 <= i < |ss| :: KeyOf(mask, ss[i]) !in KeySet(mask, outer)
  }

  /** Every transfer the receipts log gets an entry of its own exactly when the transfers
      are pairwise different (in hash, token, parties or amount) and none is an outer entry. */
  lemma EveryLogListedIff(ix: Indexer, b: RpcBlock, height: nat, rs: seq<Option<Receipt>>)
    ensures var outer, sents := OuterEntries(ix, b.transactions, b.hash, height), BlockSents(ix, rs);
            var list := BlockEntries(ix, b, height, Some(rs));
            && |list| <= |outer| + |sents|
            && (|list| == |outer| + |sents| <==> AllNew(ix.mask, sents, outer))
            && (list == outer + Candidates(ix, rs, b.hash, height) <==> AllNew(ix.mask, sents, outer))
  {
    hide EntryKey, KeyOf, OuterEntries, Candidates, FirstOccurrences, KeySet, Distinct;
    var outer, sents := OuterEntries(ix, b.transactions, b.hash, height), BlockSents(ix, rs);
    var cs := Candidates(ix, rs, b.hash, height);
    CandidateKeys(ix, rs, b.hash, height);
    assert |cs| == |Keys(ix.mask, cs)| == |sents|;
    NothingLostIff(ix.mask, cs, KeySet(ix.mask, outer));
    SentKeysDistinct(ix.mask, sents);
    KeysDisjoint(ix.mask, cs, sents, KeySet(ix.mask, outer));
    SameSuffix(outer, FirstOccurrences(ix.mask, cs, KeySet(ix.mask, outer)), cs);
  }

  lemma SameSuffix(a: seq<Entry>, s: seq<Entry>, t: seq<Entry>)
    ensures a + s == a + t <==> s == t
  {
    assert s == (a + s)[|a|..] && t == (a + t)[|a|..];
  }

  lemma KeysDisjoint(mask: CaseMask, cs: seq<Entry>, ss: seq<Sent>, outer: set<string>)
    requires Keys(mask, cs) == SentKeys(mask, ss)
    ensures KeySet(mask, cs) !! outer <==> forall i | 0 <= i < |ss| :: KeyOf(mask, ss[i]) !in outer
  {
    hide EntryKey, KeyOf;
    forall i | 0 <= i < |ss| ensures KeyOf(mask, ss[i]) in KeySet(mask, cs) {
      assert KeyOf(mask, ss[i]) == SentKeys(mask, ss)[i] == Keys(mask, cs)[i];
    }
    forall k | k in KeySet(mask, cs) ensures exists i :: 0 <= i < |ss| && KeyOf(mask, ss[i]) == k {
      KeySetIsKeys(mask, cs, k);
      var i :| 0 <= i < |cs| && Keys(mask, cs)[i] == k;
      assert SentKeys(mask, ss)[i] == k;
    }
  }

  /** A transaction that logs one transfer twice is listed with it once: the key has no
      log index. */
  lemma EqualLogsMerge(ix: Indexer, s: Sent, first: Log, second: Log, b: RpcBlock, height: nat, gas: nat, price: nat)
    requires LogOf(ix, s, first) && LogOf(ix, s, second) && Tracked(ix, s.token) && s.amount > 0
    requires b.transactions == []
    ensures var rs := [Some(Receipt(s.txHash, 1, gas, price, [Some(first), Some(second)]))];
            BlockSents(ix, rs) == [s, s] && |BlockEntries(ix, b, height, Some(rs))| == 1
  {
    hide EntryKey, KeyOf, LogOf, Tracked, LogSents, LogSent, Candidates, FirstOccurrences, KeySet, BlockSents;
    var receipt := Receipt(s.txHash, 1, gas, price, [Some(first), Some(second)]);
    var rs := [Some(receipt)];
    TwoSents(ix, s, first, second);
    OneReceipt(ix, receipt);
    EveryLogListedIff(ix, b, height, rs);
    NotDistinct(s);
    NothingToMerge(ix.mask, {});
    SomethingListed(ix, b, height, rs);
  }

  lemma OneReceipt(ix: Indexer, r: Receipt)
    requires r.status == 1
    ensures BlockSents(ix, [Some(r)]) == LogSents(ix, r.txHash, r.logs)
  {
    hide LogSents;
    var rs := [Some(r)];
    assert rs[..0] == [] && BlockSents(ix, []) == [];
  }

  lemma SomethingListed(ix: Indexer, b: RpcBlock, height: nat, rs: seq<Option<Receipt>>)
    requires b.transactions == [] && BlockSents(ix, rs) != []
    ensures |BlockEntries(ix, b, height, Some(rs))| >= 1
  {
    hide EntryKey, KeyOf, BlockSents, Candidates, FirstOccurrences, KeySet;
    var cs, mask := Candidates(ix, rs, b.hash, height), ix.mask;
    CandidateKeys(ix, rs, b.hash, height);
    NothingToMerge(mask, {});
    var k := Keys(mask, cs)[0];
    KeySetIsKeys(mask, cs, k);
    AddedKeys(mask, cs, {});
    assert k in {} + KeySet(mask, cs);
  }

  lemma NotDistinct(s: Sent)
    ensures !Distinct([s, s])
  {
    assert [s, s][0] == [s, s][1];
  }

  lemma LogSentsAppend(ix: Indexer, txHash: Word, logs: seq<Option<Log>>, lg: Log, s: Sent)
    requires LogSent(ix, txHash, Some(lg)) == Some(s)
    ensures LogSents(ix, txHash, logs + [Some(lg)]) == LogSents(ix, txHash, logs) + [s]
  {
    hide LogSent;
    assert (logs + [Some(lg)])[..|logs|] == logs;
  }

  lemma LogSentOf(ix: Indexer, s: Sent, lg: Log)
    requires LogOf(ix, s, lg) && Tracked(ix, s.token) && s.amount > 0
    ensures LogSent(ix, s.txHash, Some(lg)) == Some(s)
  {
    hide LogTransfer, FromBigEndian, Tracked;
    LogTransferOf(ix, s, lg);
    assert AddressWord(s.from)[12..] == s.from && AddressWord(s.to)[12..] == s.to;
  }

  lemma TwoSents(ix: Indexer, s: Sent, first: Log, second: Log)
    requires LogOf(ix, s, first) && LogOf(ix, s, second) && Tracked(ix, s.token) && s.amount > 0
    ensures LogSents(ix, s.txHash, [Some(first), Some(second)]) == [s, s]
  {
    hide LogSent, LogOf, Tracked;
    LogSentOf(ix, s, first);
    LogSentOf(ix, s, second);
    LogSentsAppend(ix, s.txHash, [], first, s);
    LogSentsAppend(ix, s.txHash, [Some(first)], second, s);
    assert [] + [Some(first)] == [Some(first)] && [Some(first)] + [Some(second)] == [Some(first), Some(second)];
  }
}
