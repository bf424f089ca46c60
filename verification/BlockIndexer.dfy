/** A block's transaction list: the outer transactions, then every token transfer
    its receipts add to them. */
module BlockIndexer {
  import opened Wrappers
  import opened Bytes
  import opened Text
  import opened Addresses
  import opened Erc20Codec
  import opened DedupKey

  const NATIVE_TOKEN: string := "0xEeeeeEeeeEeEeeEeEeEeeEEEeeeeEeeeeeeeEEeE"

  datatype BlockItem = BlockItem(from: string, to: string, hash: string, value: string, input: string, gasPrice: string)

  datatype Log = Log(address: Address, topics: seq<Word>, data: Bytes, index: nat)

  datatype Receipt = Receipt(txHash: Word, status: nat, gasUsed: nat, effectiveGasPrice: nat, logs: seq<Option<Log>>)

  /** An RPC block; `None` for a number or timestamp that does not decode. */
  datatype RpcBlock = RpcBlock(
    number: Option<nat>, hash: string, parentHash: string, timestamp: Option<nat>, transactions: seq<BlockItem>)

  datatype Party = Party(address: string, amount: string)

  datatype Entry = Entry(
    txHash: string, fee: string, status: nat, txType: nat, contractAddress: string, from: seq<Party>, to: seq<Party>,
    blockHash: string, blockHeight: nat, logIndex: nat, transferKind: string)

  datatype TransferLog = TransferLog(contract: string, from: string, to: string, amount: string, logIndex: nat)

  /** The adaptor's tracked tokens (none tracked means all), and the two foreign
      facts it prints and filters with. */
  datatype Indexer = Indexer(mask: CaseMask, tracked: set<string>, transferTopic: Word)

  method NewContractAddrIndex(mask: CaseMask, addrs: seq<string>) returns (index: set<string>)
    ensures forall a :: a in index <==> a != "" && exists i :: 0 <= i < |addrs| && NormalizeAddress(mask, addrs[i]) == a
  {
    index := {};
    for i := 0 to |addrs|
      invariant forall a :: a in index <==> a != "" && exists j :: 0 <= j < i && NormalizeAddress(mask, addrs[j]) == a
    {
      var normalized := NormalizeAddress(mask, addrs[i]);
      if normalized != "" {
        index := index + {normalized};
      }
    }
  }

  predicate Tracks(ix: Indexer, token: string) {
    ix.tracked == {} || NormalizeAddress(ix.mask, token) in ix.tracked
  }

  // ----- outer transactions

  predicate ShouldParse(ix: Indexer, item: BlockItem) {
    var input := TrimPrefix(item.input, "0x");
    |input| >= 8 && input[..8] == TRANSFER_METHOD && Tracks(ix, item.to)
  }

  /** The entry for one block item, or nothing for a contract creation. */
  function OuterEntry(ix: Indexer, item: BlockItem, blockHash: string, height: nat): Option<Entry> {
    if item.to == "" then None
    else
      var parsed := if ShouldParse(ix, item) then ParseTransferData(ix.mask, item.input) else Err("not a transfer");
      var (txType, contract, to, amount) :=
        match parsed
        case Ok(t) => (3, item.to, t.to, t.amount)
        case Err(_) => (1, NATIVE_TOKEN, item.to, item.value);
      Some(Entry(item.hash, item.gasPrice, 0, txType, contract, [Party(item.from, amount)], [Party(to, amount)],
                 blockHash, height, 0, "outer"))
  }

  function OuterEntries(ix: Indexer, items: seq<BlockItem>, blockHash: string, height: nat): seq<Entry> {
    if items == [] then []
    else
      var e := OuterEntry(ix, items[|items| - 1], blockHash, height);
      OuterEntries(ix, items[..|items| - 1], blockHash, height) + if e.None? then [] else [e.value]
  }

  /** `outerTransferKey`: first sender, first receiver, and the first amount stated. */
  function EntryKey(mask: CaseMask, e: Entry): string {
    var from := if |e.from| > 0 then e.from[0].address else "";
    var sent := if |e.from| > 0 then e.from[0].amount else "";
    var to := if |e.to| > 0 then e.to[0].address else "";
    var amount := if sent == "" && |e.to| > 0 then e.to[0].amount else sent;
    TransferDedupKey(mask, e.txHash, e.contractAddress, from, to, amount)
  }

  function KeySet(mask: CaseMask, es: seq<Entry>): set<string> {
    set i | 0 <= i < |es| :: EntryKey(mask, es[i])
  }

  // ----- receipt logs

  /** The transfer a log records: a three-topic Transfer event of a tracked token
      with a positive amount. */
  function LogTransfer(ix: Indexer, lg: Option<Log>): (t: Option<TransferLog>)
    ensures t.Some? ==> lg.Some? && |lg.value.topics| == 3
  {
    if lg.None? || |lg.value.topics| != 3 || lg.value.topics[0] != ix.transferTopic then None
    else
      var log := lg.value;
      var token := AddressHex(ix.mask, log.address);
      var value := FromBigEndian(log.data);
      if !Tracks(ix, token) || value == 0 then None
      else
        Some(TransferLog(token, TopicAddress(ix.mask, log.topics[1]), TopicAddress(ix.mask, log.topics[2]),
                         IntString(value), log.index % 0x1_0000_0000))
  }

  function TopicAddress(mask: CaseMask, topic: Word): string {
    AddressHex(mask, HexToAddress("0x" + HexOf(topic)))
  }

  function LogTransfers(ix: Indexer, logs: seq<Option<Log>>): seq<TransferLog> {
    if logs == [] then []
    else
      var t := LogTransfer(ix, logs[|logs| - 1]);
      LogTransfers(ix, logs[..|logs| - 1]) + if t.None? then [] else [t.value]
  }

  method ParseErc20TransfersFromReceipt(ix: Indexer, logs: seq<Option<Log>>) returns (out: seq<TransferLog>)
    ensures out == LogTransfers(ix, logs)
  {
    hide AddressHex, NormalizeAddress, TopicAddress, IntString, FromBigEndian;
    out := [];
    for i := 0 to |logs|
      invariant out == LogTransfers(ix, logs[..i])
    {
      assert logs[..i + 1][..i] == logs[..i];
      var lg := logs[i];
      if lg.None? || |lg.value.topics| != 3 || lg.value.topics[0] != ix.transferTopic {
        continue;
      }
      var log := lg.value;
      var token := NormalizeAddress(ix.mask, AddressHex(ix.mask, log.address));
      if |ix.tracked| > 0 && token !in ix.tracked {
        continue;
      }
      var from := TopicAddress(ix.mask, log.topics[1]);
      var to := TopicAddress(ix.mask, log.topics[2]);
      var value := FromBigEndian(log.data);
      if value <= 0 {
        continue;
      }
      var logIndex := log.index % 0x1_0000_0000;
      out := out + [TransferLog(AddressHex(ix.mask, log.address), from, to, IntString(value), logIndex)];
    }
    assert logs[..|logs|] == logs;
  }

  function ReceiptEntry(t: TransferLog, r: Receipt, blockHash: string, height: nat): Entry {
    Entry("0x" + HexOf(r.txHash), IntString(r.gasUsed * r.effectiveGasPrice), 1, 3, t.contract,
          [Party(t.from, t.amount)], [Party(t.to, t.amount)], blockHash, height, t.logIndex, "receipt_erc20")
  }

  function ReceiptEntries(ts: seq<TransferLog>, r: Receipt, blockHash: string, height: nat): seq<Entry> {
    seq(|ts|, i requires 0 <= i < |ts| => ReceiptEntry(ts[i], r, blockHash, height))
  }

  /** Every transfer of every successful receipt, in block order. */
  function Candidates(ix: Indexer, rs: seq<Option<Receipt>>, blockHash: string, height: nat): seq<Entry> {
    if rs == [] then []
    else
      var r := rs[|rs| - 1];
      Candidates(ix, rs[..|rs| - 1], blockHash, height)
      + if r.None? || r.value.status != 1 then []
        else ReceiptEntries(LogTransfers(ix, r.value.logs), r.value, blockHash, height)
  }

  /** Those candidates whose key is neither taken by an outer transaction nor by an
      earlier candidate. */
  function FirstOccurrences(mask: CaseMask, cs: seq<Entry>, outer: set<string>): seq<Entry> {
    if cs == [] then []
    else
      var init, c := cs[..|cs| - 1], cs[|cs| - 1];
      FirstOccurrences(mask, init, outer)
      + if EntryKey(mask, c) in outer + KeySet(mask, init) then [] else [c]
  }

  // ----- the block

  datatype Block = Block(height: nat, hash: string, parentHash: string, timestamp: nat, transactions: seq<Entry>)

  /** `receipts` is `None` when the node does not serve them: the outer list stands alone. */
  function BlockEntries(ix: Indexer, b: RpcBlock, height: nat, receipts: Option<seq<Option<Receipt>>>): seq<Entry> {
    var outer := OuterEntries(ix, b.transactions, b.hash, height);
    if receipts.None? then outer
    else outer + FirstOccurrences(ix.mask, Candidates(ix, receipts.value, b.hash, height), KeySet(ix.mask, outer))
  }

  method BuildBlockWithTransactions(ix: Indexer, b: RpcBlock, receipts: Option<seq<Option<Receipt>>>)
    returns (r: Result<Block>)
    ensures r.Ok? <==> b.number.Some? && b.timestamp.Some?
    ensures r.Ok? ==> r.value == Block(b.number.value, b.hash, b.parentHash, b.timestamp.value,
                                       BlockEntries(ix, b, b.number.value, receipts))
  {
    if b.number.None? {
      return Err("failed to decode block number");
    }
    var height := b.number.value;
    var list: seq<Entry> := [];
    var keys: set<string> := {};
    for i := 0 to |b.transactions|
      invariant list == OuterEntries(ix, b.transactions[..i], b.hash, height)
      invariant keys == KeySet(ix.mask, list)
    {
      assert b.transactions[..i + 1][..i] == b.transactions[..i];
      var item := OuterEntry(ix, b.transactions[i], b.hash, height);
      if item.Some? {
        KeySetAppend(ix.mask, list, item.value);
        list := list + [item.value];
        keys := keys + {EntryKey(ix.mask, item.value)};
      }
    }
    assert b.transactions[..|b.transactions|] == b.transactions;
    if receipts.Some? {
      list := MergeReceipts(ix, b.hash, height, receipts.value, list);
    }
    if b.timestamp.None? {
      return Err("failed to decode block timestamp");
    }
    r := Ok(Block(height, b.hash, b.parentHash, b.timestamp.value, list));
  }

  method MergeReceipts(ix: Indexer, blockHash: string, height: nat, rs: seq<Option<Receipt>>, outer: seq<Entry>)
    returns (list: seq<Entry>)
    ensures list == outer + FirstOccurrences(ix.mask, Candidates(ix, rs, blockHash, height), KeySet(ix.mask, outer))
  {
    hide EntryKey, ReceiptEntry, TransferDedupKey, FirstOccurrences, KeySet, Candidates, LogTransfers;
    list := outer;
    var keys := KeySet(ix.mask, outer);
    ghost var taken := keys;
    ghost var done: seq<Entry> := [];
    NothingMerged(ix, blockHash, height, taken);
    for i := 0 to |rs|
      invariant done == Candidates(ix, rs[..i], blockHash, height)
      invariant list == outer + FirstOccurrences(ix.mask, done, taken)
      invariant keys == taken + KeySet(ix.mask, done)
    {
      CandidatesStep(ix, rs, i, blockHash, height);
      if rs[i].None? || rs[i].value.status != 1 {
        continue;
      }
      var receipt := rs[i].value;
      var transfers := ParseErc20TransfersFromReceipt(ix, receipt.logs);
      ghost var added := ReceiptEntries(transfers, receipt, blockHash, height);
      ghost var before := done;
      for j := 0 to |transfers|
        invariant done == before + added[..j]
        invariant list == outer + FirstOccurrences(ix.mask, done, taken)
        invariant keys == taken + KeySet(ix.mask, done)
      {
        var transfer := transfers[j];
        var key := TransferDedupKey(ix.mask, "0x" + HexOf(receipt.txHash), transfer.contract, transfer.from,
                                    transfer.to, transfer.amount);
        var entry := ReceiptEntry(transfer, receipt, blockHash, height);
        ReceiptEntryKey(ix.mask, transfer, receipt, blockHash, height);
        MergeStep(ix.mask, done, entry, taken);
        done := done + [entry];
        if key in keys {
          continue;
        }
        keys := keys + {key};
        list := list + [entry];
      }
      assert added[..|transfers|] == added;
    }
    assert rs[..|rs|] == rs;
  }

  lemma NothingMerged(ix: Indexer, blockHash: string, height: nat, taken: set<string>)
    ensures Candidates(ix, [], blockHash, height) == [] && FirstOccurrences(ix.mask, [], taken) == []
    ensures KeySet(ix.mask, []) == {}
  {
  }

  lemma CandidatesStep(ix: Indexer, rs: seq<Option<Receipt>>, i: nat, blockHash: string, height: nat)
    requires i < |rs|
    ensures Candidates(ix, rs[..i + 1], blockHash, height) ==
            Candidates(ix, rs[..i], blockHash, height)
            + if rs[i].None? || rs[i].value.status != 1 then []
              else ReceiptEntries(LogTransfers(ix, rs[i].value.logs), rs[i].value, blockHash, height)
  {
    assert rs[..i + 1][..i] == rs[..i];
  }

  lemma MergeStep(mask: CaseMask, done: seq<Entry>, entry: Entry, taken: set<string>)
    ensures FirstOccurrences(mask, done + [entry], taken) ==
            FirstOccurrences(mask, done, taken)
            + if EntryKey(mask, entry) in taken + KeySet(mask, done) then [] else [entry]
    ensures KeySet(mask, done + [entry]) == KeySet(mask, done) + {EntryKey(mask, entry)}
  {
    hide EntryKey;
    KeySetAppend(mask, done, entry);
    assert (done + [entry])[..|done|] == done;
  }

  lemma KeySetAppend(mask: CaseMask, es: seq<Entry>, e: Entry)
    ensures KeySet(mask, es + [e]) == KeySet(mask, es) + {EntryKey(mask, e)}
  {
    hide EntryKey;
    var fs := es + [e];
    forall k | k in KeySet(mask, es) + {EntryKey(mask, e)} ensures k in KeySet(mask, fs) {
      if k == EntryKey(mask, e) {
        assert fs[|es|] == e;
      } else {
        var i :| 0 <= i < |es| && EntryKey(mask, es[i]) == k;
        assert fs[i] == es[i];
      }
    }
    forall k | k in KeySet(mask, fs) ensures k in KeySet(mask, es) + {EntryKey(mask, e)} {
      var i :| 0 <= i < |fs| && EntryKey(mask, fs[i]) == k;
      if i < |es| { assert fs[i] == es[i]; }
    }
  }

  // ----- outer entries

  /** The item is listed as a token transfer: its calldata starts with the transfer
      method, the token is tracked, and the fields decode. */
  predicate IsTokenTransfer(ix: Indexer, item: BlockItem) {
    ShouldParse(ix, item) && ParseTransferData(ix.mask, item.input).Ok?
  }

  /** Which items those are, and what their calldata names: the address in the last 20
      bytes of the first word, the number in the second. */
  lemma TokenTransferIff(ix: Indexer, item: BlockItem)
    ensures var d := if "0x" <= item.input then item.input[2..] else item.input;
            && (IsTokenTransfer(ix, item) <==>
                  && |d| >= 8 + 64 + 64 && d[..8] == "a9059cbb" && ParseInt(d[8 + 64..8 + 64 + 64], 16).Some?
                  && (ix.tracked == {} || NormalizeAddress(ix.mask, item.to) in ix.tracked))
            && (IsTokenTransfer(ix, item) ==>
                  var t := ParseTransferData(ix.mask, item.input).value;
                  && t.to == AddressHex(ix.mask, HexToAddress(d[8 + 24..8 + 64]))
                  && t.amount == IntString(ParseInt(d[8 + 64..8 + 64 + 64], 16).value))
  {
    hide ParseInt, AddressHex, HexToAddress, NormalizeAddress, IntString;
  }

  /** Any other item with a recipient is listed with both parties and its value, as a
      native transfer. */
  lemma NativeEntry(ix: Indexer, item: BlockItem, blockHash: string, height: nat)
    requires item.to != "" && !IsTokenTransfer(ix, item)
    ensures OuterEntry(ix, item, blockHash, height)
            == Some(Entry(item.hash, item.gasPrice, 0, 1, "0xEeeeeEeeeEeEeeEeEeEeeEEEeeeeEeeeeeeeEEeE",
                          [Party(item.from, item.value)], [Party(item.to, item.value)],
                          blockHash, height, 0, "outer"))
  {
    hide ShouldParse, ParseTransferData;
  }

  /** A token transfer is listed with the recipient and amount of its calldata. */
  lemma TokenEntry(ix: Indexer, item: BlockItem, blockHash: string, height: nat)
    requires item.to != "" && IsTokenTransfer(ix, item)
    ensures var t := ParseTransferData(ix.mask, item.input).value;
            OuterEntry(ix, item, blockHash, height)
            == Some(Entry(item.hash, item.gasPrice, 0, 3, item.to,
                          [Party(item.from, t.amount)], [Party(t.to, t.amount)],
                          blockHash, height, 0, "outer"))
  {
    hide ShouldParse, ParseTransferData;
  }

  /** `at` lists, in order, the positions of the items with a recipient, and the entries
      are those of the items there. */
  ghost predicate Lists(ix: Indexer, items: seq<BlockItem>, blockHash: string, height: nat, es: seq<Entry>,
                        at: seq<nat>) {
    && |es| == |at|
    && (forall n, m | 0 <= n < m < |at| :: at[n] < at[m])
    && (forall n | 0 <= n < |at| ::
          at[n] < |items| && items[at[n]].to != "" && OuterEntry(ix, items[at[n]], blockHash, height) == Some(es[n]))
    && (forall i | 0 <= i < |items| && items[i].to != "" :: i in at)
  }

  /** The outer entries come first, and alone if the node serves no receipts. */
  lemma OuterFirst(ix: Indexer, b: RpcBlock, height: nat, receipts: Option<seq<Option<Receipt>>>)
    ensures var outer, list := OuterEntries(ix, b.transactions, b.hash, height), BlockEntries(ix, b, height, receipts);
            outer <= list && (receipts.None? ==> list == outer)
  {
  }

  /** An item is listed exactly when it has a recipient: contract creations are not. */
  lemma {:induction false} OuterEntriesAre(ix: Indexer, items: seq<BlockItem>, blockHash: string, height: nat)
    returns (at: seq<nat>)
    ensures Lists(ix, items, blockHash, height, OuterEntries(ix, items, blockHash, height), at)
  {
    hide ParseTransferData, ShouldParse;
    if items == [] {
      at := [];
    } else {
      var init, last := items[..|items| - 1], items[|items| - 1];
      at := OuterEntriesAre(ix, init, blockHash, height);
      ListsMore(ix, init, last, blockHash, height, OuterEntries(ix, init, blockHash, height), at);
      assert items == init + [last];
      var es := OuterEntries(ix, init, blockHash, height);
      if last.to != "" {
        at := at + [|init|];
      } else {
        assert es + [] == es;
      }
    }
  }

  lemma ListsMore(ix: Indexer, items: seq<BlockItem>, item: BlockItem, blockHash: string, height: nat, es: seq<Entry>,
                  at: seq<nat>)
    requires Lists(ix, items, blockHash, height, es, at)
    ensures item.to == "" ==>
              OuterEntry(ix, item, blockHash, height).None? && Lists(ix, items + [item], blockHash, height, es, at)
    ensures item.to != "" ==>
              var e := OuterEntry(ix, item, blockHash, height);
              e.Some? && Lists(ix, items + [item], blockHash, height, es + [e.value], at + [|items|])
  {
    hide ParseTransferData, ShouldParse;
    var all := items + [item];
    forall i | 0 <= i < |all| && all[i].to != "" ensures i in at + [|items|] {
      if i < |items| { assert items[i].to != ""; }
    }
  }

  // ----- what the list contains

  function Keys(mask: CaseMask, es: seq<Entry>): (ks: seq<string>)
    ensures |ks| == |es| && forall i | 0 <= i < |es| :: ks[i] == EntryKey(mask, es[i])
  {
    seq(|es|, i requires 0 <= i < |es| => EntryKey(mask, es[i]))
  }

  ghost predicate Distinct<T>(s: seq<T>) {
    forall i, j | 0 <= i < j < |s| :: s[i] != s[j]
  }

  /** `at` lists, in order, the positions of the first occurrences of new keys. */
  ghost predicate FirstPositions(ks: seq<string>, outer: set<string>, at: seq<nat>) {
    && (forall n | 0 <= n < |at| :: at[n] < |ks| && ks[at[n]] !in outer)
    && (forall n, m | 0 <= n < m < |at| :: at[n] < at[m])
    && (forall n, i | 0 <= n < |at| && 0 <= i < at[n] :: ks[i] != ks[at[n]])
    && (forall i | 0 <= i < |ks| && ks[i] !in outer :: Found(ks, at, ks[i]))
  }

  predicate Found(ks: seq<string>, at: seq<nat>, k: string) {
    exists n :: 0 <= n < |at| && at[n] < |ks| && ks[at[n]] == k
  }

  lemma SkipLast(ks: seq<string>, k: string, outer: set<string>, at: seq<nat>)
    requires FirstPositions(ks, outer, at) && (k in outer || k in ks)
    ensures FirstPositions(ks + [k], outer, at)
  {
    var js := ks + [k];
    forall i | 0 <= i < |js| && js[i] !in outer ensures Found(js, at, js[i]) {
      var i' :| 0 <= i' < |ks| && ks[i'] == js[i];
      FoundStill(ks, k, at, at, ks[i']);
    }
  }

  lemma FoundStill(ks: seq<string>, k: string, at: seq<nat>, at': seq<nat>, found: string)
    requires Found(ks, at, found) && at <= at'
    ensures Found(ks + [k], at', found)
  {
    var n :| 0 <= n < |at| && at[n] < |ks| && ks[at[n]] == found;
    assert (ks + [k])[at'[n]] == found;
  }

  lemma TakeLast(ks: seq<string>, k: string, outer: set<string>, at: seq<nat>)
    requires FirstPositions(ks, outer, at) && k !in outer && k !in ks
    ensures FirstPositions(ks + [k], outer, at + [|ks|])
  {
    hide Found;
    var js, at' := ks + [k], at + [|ks|];
    forall i | 0 <= i < |js| && js[i] !in outer ensures Found(js, at', js[i]) {
      if i == |ks| {
        FoundLast(ks, k, at);
      } else {
        FoundStill(ks, k, at, at', ks[i]);
      }
    }
  }

  lemma FoundLast(ks: seq<string>, k: string, at: seq<nat>)
    ensures Found(ks + [k], at + [|ks|], k)
  {
    assert (ks + [k])[(at + [|ks|])[|at|]] == k;
  }

  lemma KeySetIsKeys(mask: CaseMask, es: seq<Entry>, k: string)
    ensures k in KeySet(mask, es) <==> k in Keys(mask, es)
  {
    hide EntryKey;
    if k in KeySet(mask, es) {
      var i :| 0 <= i < |es| && EntryKey(mask, es[i]) == k;
      assert Keys(mask, es)[i] == k;
    }
  }

  /** `r` is the elements of `cs` at these positions. */
  ghost predicate Picks(r: seq<Entry>, cs: seq<Entry>, at: seq<nat>) {
    |r| == |at| && forall n | 0 <= n < |at| :: at[n] < |cs| && r[n] == cs[at[n]]
  }

  lemma PickMore(r: seq<Entry>, cs: seq<Entry>, c: Entry, at: seq<nat>)
    requires Picks(r, cs, at)
    ensures Picks(r + [], cs + [c], at) && Picks(r, cs + [c], at) && Picks(r + [c], cs + [c], at + [|cs|])
  {
    assert r + [] == r;
  }

  /** The added entries are candidates, kept in order, each the first with its key,
      and every candidate key that no outer transaction has is among them. */
  lemma {:induction false} FirstOccurrencesAre(mask: CaseMask, cs: seq<Entry>, outer: set<string>)
    returns (at: seq<nat>)
    ensures FirstPositions(Keys(mask, cs), outer, at)
    ensures Picks(FirstOccurrences(mask, cs, outer), cs, at)
  {
    hide EntryKey, FirstPositions, FirstOccurrences, KeySet, Picks;
    at := [];
    NoPositions(mask, outer);
    if cs == [] {
    } else {
      var init, c := cs[..|cs| - 1], cs[|cs| - 1];
      var k := EntryKey(mask, c);
      at := FirstOccurrencesAre(mask, init, outer);
      assert cs == init + [c];
      KeysAppend(mask, init, c);
      MergeStep(mask, init, c, outer);
      KeySetIsKeys(mask, init, k);
      if k in outer || k in KeySet(mask, init) {
        SkipLast(Keys(mask, init), k, outer, at);
        PickMore(FirstOccurrences(mask, init, outer), init, c, at);
      } else {
        TakeLast(Keys(mask, init), k, outer, at);
        PickMore(FirstOccurrences(mask, init, outer), init, c, at);
        at := at + [|init|];
      }
    }
  }

  lemma KeysAppend(mask: CaseMask, es: seq<Entry>, e: Entry)
    ensures Keys(mask, es + [e]) == Keys(mask, es) + [EntryKey(mask, e)]
  {
    hide EntryKey;
  }

  lemma NoPositions(mask: CaseMask, outer: set<string>)
    ensures FirstPositions(Keys(mask, []), outer, [])
    ensures Picks(FirstOccurrences(mask, [], outer), [], [])
  {
  }

  /** The added keys are pairwise distinct, none is an outer key, and together with
      the outer keys they are exactly the outer and candidate keys: nothing is lost. */
  lemma {:induction false} AddedKeys(mask: CaseMask, cs: seq<Entry>, outer: set<string>)
    ensures var r := FirstOccurrences(mask, cs, outer);
            && Distinct(Keys(mask, r))
            && KeySet(mask, r) !! outer
            && outer + KeySet(mask, r) == outer + KeySet(mask, cs)
  {
    hide EntryKey, FirstOccurrences, KeySet, Keys, Distinct;
    if cs == [] {
      NothingToMerge(mask, outer);
      NoKeys(mask);
    } else {
      var init, c := cs[..|cs| - 1], cs[|cs| - 1];
      var r := FirstOccurrences(mask, init, outer);
      AddedKeys(mask, init, outer);
      assert cs == init + [c];
      MergeStep(mask, init, c, outer);
      KeysAppend(mask, r, c);
      KeySetAppend(mask, r, c);
      KeySetIsKeys(mask, r, EntryKey(mask, c));
      DistinctAppend(Keys(mask, r), EntryKey(mask, c));
      assert r + [] == r;
    }
  }

  lemma NoKeys(mask: CaseMask)
    ensures Distinct(Keys(mask, []))
  {
  }

  /** Nothing is merged away exactly when the candidates' keys are pairwise distinct and
      none is an outer key. */
  lemma {:induction false} NothingLostIff(mask: CaseMask, cs: seq<Entry>, outer: set<string>)
    ensures |FirstOccurrences(mask, cs, outer)| <= |cs|
    ensures FirstOccurrences(mask, cs, outer) == cs <==> |FirstOccurrences(mask, cs, outer)| == |cs|
    ensures FirstOccurrences(mask, cs, outer) == cs <==> Distinct(Keys(mask, cs)) && KeySet(mask, cs) !! outer
  {
    hide EntryKey, KeySet, FirstOccurrences;
    if cs == [] {
      NothingToMerge(mask, outer);
    } else {
      var init, c := cs[..|cs| - 1], cs[|cs| - 1];
      var k := EntryKey(mask, c);
      NothingLostIff(mask, init, outer);
      assert cs == init + [c];
      MergeStep(mask, init, c, outer);
      KeysAppend(mask, init, c);
      KeySetIsKeys(mask, init, k);
      DistinctAppend(Keys(mask, init), k);
    }
  }

  lemma NothingToMerge(mask: CaseMask, outer: set<string>)
    ensures FirstOccurrences(mask, [], outer) == [] && KeySet(mask, []) == {}
  {
  }

  lemma DistinctAppend<T>(s: seq<T>, x: T)
    ensures Distinct(s + [x]) <==> Distinct(s) && x !in s
  {
    if Distinct(s + [x]) {
      forall i, j | 0 <= i < j < |s| ensures s[i] != s[j] {
        assert (s + [x])[i] == s[i] && (s + [x])[j] == s[j];
      }
      forall i | 0 <= i < |s| ensures s[i] != x {
        assert (s + [x])[i] == s[i] && (s + [x])[|s|] == x;
      }
    }
  }

  /** A bar in an address confuses the keys of two outer entries, which the list keeps
      both all the same. */
  lemma BarConfuses(ix: Indexer, blockHash: string, height: nat)
    ensures var a := BlockItem("a|b", "c", "h", "0", "", "0"); var b := BlockItem("a", "b|c", "h", "0", "", "0");
            var d, e := OuterEntry(ix, a, blockHash, height), OuterEntry(ix, b, blockHash, height);
            && d.Some? && e.Some? && d.value.from != e.value.from && d.value.to != e.value.to
            && EntryKey(ix.mask, d.value) == EntryKey(ix.mask, e.value)
  {
    assert !IsHexAddress("a|b") && !IsHexAddress("c") && !IsHexAddress("a") && !IsHexAddress("b|c");
    assert ToLower("a|b") == "a|b" && ToLower("b|c") == "b|c" && ToLower("a") == "a" && ToLower("c") == "c";
    assert "a|b" + "|" + ("c" + "|" + "0") == "a" + "|" + ("b|c" + "|" + "0");
    assert TrimSpace("0") == "0";
  }

  /** A receipt entry's key is the one the merge loop computes from its transfer. */
  lemma ReceiptEntryKey(mask: CaseMask, t: TransferLog, r: Receipt, blockHash: string, height: nat)
    ensures EntryKey(mask, ReceiptEntry(t, r, blockHash, height))
            == TransferDedupKey(mask, "0x" + HexOf(r.txHash), t.contract, t.from, t.to, t.amount)
  {
  }
}
