# A verified model of the wallet chain adaptors

The adaptors turn wallet requests into chain transactions and chain blocks into wallet
entries. This project models three parts of them, with proofs over every input, every
run and every interleaving:

- **Sponsored transfers (ERC-4337 / EIP-7702).** `GasWords`, `PaymasterForms`, `UserOps`
  and `HashBinding` are the packing and hashing of a user operation; `Fees` the EIP-1559
  fees; `SendErrors` which errors are retried; `SponsoredSend` the send path over the
  shared, mutated operation object; `SponsoredFlow` the way from build to chain; `SponsorLock` all interleavings of
  concurrent sends, and `SendOnLock` the send path as a path of that machine.
- **Indexers.** `Erc20Codec`, `DedupKey`, `BlockIndexer` and `TransferEndToEnd` list the
  transfers of a BNB block; `TokenBalances` reads SPL transfers out of balance changes;
  `TronAbi` encodes and parses Tron contract calls.
- **Concurrent fetchers and signature assembly.** `TransactionRange`, `HeaderGroups`,
  `MultiSigner`, `PriorityFee`.

`Bytes`, `Text` and `Addresses` hold the encodings the rest stands on: big-endian words,
hexadecimal, decimal and trimming, all concrete. Keccak-256 and EIP-55 capitalisation are
total functions handed in as parameters, about which nothing is assumed: where a result
needs collision-freeness it says "unless the function collides on one of the strings
hashed here", because no function onto 32 bytes is injective. Signing, recovery, key
parsing, base58, base64, JSON and the Solana wire codec are function parameters too. The
node answers every call as it likes. Go panics are outcomes (`None`, `Panicked`,
`Crashed`), not preconditions.

## What the proofs found

- The EntryPoint hashes the on-chain paymaster field. It computes the hash the user
  signed exactly when the last two bytes of the paymaster data are zero and the paymaster
  signature is shorter than 2^16 bytes (`OnChainHashMatches`). For a validity window that
  is `validAfter % 65536 == 0`, and then the window is bound (`WindowBound`); the default
  `validAfter` of 0 is safe. A remainder of 1 to 114 leaves a hash that another window
  shares (`WindowNotBound`). Any larger remainder makes hashing panic (`WindowHashExists`).
- Hashing panics exactly on operations whose gas values do not fit or whose paymaster data
  announces more bytes than the field has (`HashExistsIff`). Leaving the paymaster data out
  is such an operation (`NoDataPanics`): a send of it panics before preflight can report
  the length (`SendSponsoredTransfer`).
- `PackUint128s` is invertible only while the low half stays below 2^128: above, its bits
  are or-ed into the high half (`PackSpills`).
- A fee bump makes a transaction replaceable (a tenth more on both fees) exactly from 3
  wei on at the second attempt and 2 wei at the third; a tip of 1 or 2 wei does not rise
  at the first bump at all (`BumpRaises`, `SmallTipStays`).
- A call that reports success has just one transaction accepted if and only if no error it
  retried on hid an acceptance (`SendsAreSequential`); an error can, even under the mutex
  (`HonestyIsNeeded`).
- The hash does not bind bytes 2 to 19 of init code that starts with the EIP-7702 marker
  (`MarkerPaddingNotBound`); `SameInitPreimage` says exactly which init codes and
  delegates hash alike. For code as the service builds it the delegate alone decides.
- `BlockHeadersByRange` on the ZkFair chains panics in every complete run whose header
  count leaves 99 over when divided by 100, and fetches everything in all others
  (`RunOutcome`). A failed request is not reported there: it yields a zero header.
- The SPL transfer read from token balances is independent of Go's map order exactly when
  nothing is reported, or one key gains and one owner loses (`IndependentIff`). Every
  other pairing of a gaining and a losing key is what some order reports.
- The transfer key has no log index. Every tracked transfer the receipts of a block log
  gets an entry of its own exactly when those transfers are pairwise different in hash,
  token, parties or amount and none is an outer entry (`EveryLogListedIff`); a transaction
  logging one transfer twice is listed with it once (`EqualLogsMerge`).
- A transfer key has other fields too exactly when some field holds a `|` (`ConfusedIff`),
  so two outer entries can share one (`BarConfuses`). That is harmless: the list keeps
  both, and the key of a logged transfer is the key of nothing else, whatever text the
  other fields hold (`LogKeyUnconfused`).
- The TRC-20 request keeps the version byte in the address word, so it is never the ABI
  word the rent encoder writes (`EncodersDiffer`); both parse back to the same address.

## Model

| member | source | states |
|---|---|---|
| `GasWords.PackUint128s` | chain/evmbase/aa/userop.go:66-74 | shifting, or-ing and filling gives both halves side by side, 16 bytes each, when both are below 2^128; panics as `PackWord` says |
| `GasWords.PackFits` | chain/evmbase/aa/userop.go:66-74 | packing panics if and only if the high half needs more than 128 bits or the low half more than 256 |
| `GasWords.PackInjective` | chain/evmbase/aa/userop.go:66-74 | exactly which pairs share a word; with low halves below 2^128 packing is invertible |
| `GasWords.PackSpills` | chain/evmbase/aa/userop.go:66-74 | two different in-width pairs with one word: low half 2^128 against high half 1 |
| `PaymasterForms.PackPaymasterAndData` | chain/evmbase/aa/userop.go:95-120 | the appended buffer is the signing or the on-chain layout, empty without a paymaster |
| `PaymasterForms.BytesEqual` | chain/evmbase/aa/userop.go:144-154 | the byte loop decides equality |
| `PaymasterForms.PaymasterSignatureLength` | chain/evmbase/aa/userop.go:132-142 | the 16-bit length before a trailing magic, 0 without magic or below 18 bytes |
| `PaymasterForms.TrailerPreimage` | chain/evmbase/aa/userop.go:122-142 | what is hashed for any field ending in a length and the magic: cut by that length, kept whole for 0, panic when longer than the field |
| `PaymasterForms.OnChainFieldReads` | chain/evmbase/aa/userop.go:95-142 | paymaster, both gas limits, data, signature and its length all read back from the on-chain field by position |
| `PaymasterForms.SigningPreimage` | chain/evmbase/aa/userop.go:95-142 | what is hashed for the signing layout: its last two data bytes are read as a length |
| `PaymasterForms.FormsHashAlike` | chain/evmbase/aa/userop.go:95-142 | on-chain and signing layouts, whatever the two signatures, hash the same bytes if and only if the tail is zero and the on-chain signature is below 2^16 bytes |
| `PaymasterForms.WindowTail` | chain/evmbase/aa/paymaster.go:24-31 | for an encoded window the tail is zero if and only if validAfter is a multiple of 65536 |
| `PaymasterForms.DataBoundIff` | chain/evmbase/aa/userop.go:95-142 | hashing the signing layout panics if and only if the tail exceeds 50 plus the data's length; other data of the same length is hashed as the same bytes if and only if the tail is not zero, does not exceed that and the data has three bytes or more |
| `PaymasterForms.EmptyDataPanics` | chain/evmbase/aa/userop.go:95-142 | without paymaster data the tail is the second gas limit and hashing panics |
| `UserOps.IsEip7702InitCode` | chain/evmbase/aa/userop.go:156-167 | the prefix loop recognises exactly the code that starts with the marker |
| `UserOps.StructLayout` | chain/evmbase/aa/userop.go:184-214 | every word of the two encodings sits at its offset: type hash, padded addresses, numbers and hashes |
| `UserOps.DigestBinds` | chain/evmbase/aa/userop.go:184-214 | equal hashes mean equal packed fields, init preimage, paymaster preimage, entry point and chain id, or a collision among the strings hashed |
| `UserOps.SameInitPreimage` | chain/evmbase/aa/userop.go:169-182 | exactly when two pairs of init code and delegate are hashed as the same bytes |
| `HashBinding.SignedLayout` | chain/evmbase/aa/userop.go:76-214 | the hash of an in-range operation is keccak(0x1901, hash of the encoded domain, hash of the encoded operation), both encodings written out: type texts, name and version, chain id, entry point, sender, nonce, init code or delegate, call data, gas halves, fee halves, and the paymaster bytes with their announced length cut |
| `HashBinding.NameBytes` | chain/evmbase/aa/userop.go:207-208 | the texts hashed are their ASCII codes |
| `HashBinding.HashBindsFields` | chain/evmbase/aa/userop.go:76-214 | two operations with in-range numbers and a paymaster slot share a hash if and only if they agree on sender, nonce, call data, gas halves, fees, paymaster and data, entry point, chain id and, by `SameInit`, on init code and delegate, up to a collision among the strings hashed; only one of the two needs the zero tail |
| `HashBinding.BareCodeBindsDelegate` | chain/evmbase/aa/userop.go:169-182 | for marker-only or dropped init code that agreement is agreement on the delegate |
| `HashBinding.MarkerPaddingNotBound` | chain/evmbase/aa/userop.go:169-182 | up to eighteen bytes appended to the marker leave the hash of any operation with a delegate unchanged |
| `HashBinding.OnChainHashMatches` | chain/evmbase/aa/userop.go:95-142 | the EntryPoint's hash of the submitted form is the signed hash if and only if tail zero and signature below 2^16 bytes (or no paymaster), up to a collision |
| `HashBinding.HashIgnoresSignatures` | chain/evmbase/aa/validate.go:29-34 | with the placeholder kept, neither signature changes the hash |
| `HashBinding.HashExistsIff` | chain/evmbase/aa/userop.go:66-142 | an operation with the placeholder has a hash if and only if its gas values fit their widths and the tail does not exceed 50 plus the data's length |
| `HashBinding.NoDataPanics` | chain/evmbase/aa/validate.go:46-67 | an operation of a paymaster without paymaster data has no hash |
| `HashBinding.WindowHashExists` | chain/evmbase/aa/userop.go:122-142 | with a window there is a hash if and only if the gas values fit and validAfter modulo 65536 is at most 114 |
| `HashBinding.WindowNotBound` | chain/evmbase/aa/userop.go:122-142 | for a remainder of 1 to 114 the hash exists and is that of another window too, whatever the rest of the operation is |
| `HashBinding.WindowBound` | chain/evmbase/aa/userop.go:122-142 | for remainder 0 the hash exists and no other window has it, up to a collision among the strings hashed |
| `Fees.ResolveEip1559GasFees` | chain/evmbase/gas.go:16-52 | fails only with the gas price; otherwise tip and cap are the node's values where positive and the stated fallbacks elsewhere, with tip >= 1 and cap >= tip always |
| `Fees.StartingFees` | chain/bnbchain/bnb_aa.go:164-167 | the send starts from the resolved fees, or from the defaults when the price call fails |
| `Fees.StartingFeeValid` | chain/evmbase/gas.go:16-56 | whatever the node answers the starting fees are valid |
| `Fees.StartingFeeIs` | chain/evmbase/gas.go:16-56 | the starting fees case by case: 1 and 3 gwei without a price; the suggested tip or a tenth of the price, at least 1; twice the base fee plus the tip or twelve tenths of the price, at least the tip |
| `Fees.BumpEip1559GasFees` | chain/evmbase/send_retry.go:20-33 | the in-place arithmetic computes `Bump` |
| `Fees.BumpRaises` | chain/evmbase/send_retry.go:20-33 | a bump keeps fees valid, lowers neither, scales each by at most 140 or 160 percent, and raises a fee by a tenth if and only if it is at least 3 (second attempt) or 2 (third) |
| `Fees.BumpIs` | chain/evmbase/send_retry.go:20-33 | the second attempt's fees are 140 percent of the first's, the third's 160 percent of the second's, rounded down |
| `Fees.FeesOverSend` | chain/bnbchain/bnb_aa.go:164-175 | over the three attempts fees stay valid, never fall, rise by a tenth exactly from 3 wei (second attempt) and 2 wei (third), and end at most at 224 percent of the start |
| `Fees.SmallTipStays` | chain/evmbase/send_retry.go:20-33 | a tip of 1 or 2 is the same on the second attempt |
| `SponsoredSend.UserOperation.constructor` | chain/evmbase/aa/userop.go:33-52 | a decoded operation object holds the decoded fields |
| `SponsoredSend.ApplyConfigToUserOp` | chain/evmbase/aa/addresses.go:22-29 | overwrites the four deployment fields and nothing else |
| `SponsoredSend.EnsurePaymasterSigPlaceholder` | chain/evmbase/aa/validate.go:29-34 | fills an empty paymaster signature of a sponsored operation and nothing else |
| `SponsoredSend.AttachPaymasterSignature` | chain/evmbase/aa/paymaster.go:86-88 | sets the paymaster signature and nothing else |
| `SponsoredSend.FinalizeAndSignSend` | chain/evmbase/aa/sponsored.go:43-70 | only the two signatures of the object change, whatever the outcome; exactly when it succeeds and exactly when it panics; on success the object is the finalized operation and the transaction carries its on-chain form, the authorization, nonce and fees |
| `SponsoredSend.FinalOpStable` | chain/evmbase/aa/sponsored.go:44-61 | finalizing a finalized operation again yields the same operation with the same hash |
| `SponsoredSend.CheckUserSide` | chain/evmbase/aa/validate.go:62-83 | no error if and only if placeholder, data length and user signature are acceptable |
| `SponsoredSend.CheckPaymasterSide` | chain/evmbase/aa/validate.go:85-122 | no error if and only if window, key, signer and paymaster signature are acceptable; an early return always carries an error |
| `SponsoredSend.PreflightSponsoredSend` | chain/evmbase/aa/validate.go:45-133 | changes at most the placeholder; panics exactly when the operation's gas values do not fit or its tail is too large; the reported hash is the operation's; no error if and only if both sides accept and the paymaster, if any, is the configured one |
| `SponsoredSend.EthClient.GetTransactionAccount` | chain/bnbchain/bnb_aa.go:153-177 | the node's answer is arbitrary and question and answer are recorded in order |
| `SponsoredSend.EthClient.SendRawTransaction` | chain/bnbchain/bnb_aa.go:187-192 | the node's answer is arbitrary and transaction and answer are recorded in order |
| `SponsoredSend.SubmitWithRetries` | chain/bnbchain/bnb_aa.go:169-221 | the recorded events are those of at most three attempts, each a count read for the sponsor followed by one submission of the same finalized operation with that count and the bumped fees, each but the last answered by a retryable error, plus one more read unless the loop is over; success if and only if the last was accepted; exactly when it panics |
| `SponsoredSend.RunCarries` | chain/evmbase/aa/setcode_tx.go:49-77 | submission i of a run has the fees of attempt i, the configured chain, destination and beneficiary, 1500000 gas and as nonce the sponsor's count just read; a run has at most three |
| `SponsoredSend.FeesOfRun` | chain/bnbchain/bnb_aa.go:164-192 | the recorded submissions carry the starting fees, 140 percent of them and 160 percent of those, rounded down; all valid, none falling, none above 224 percent of the first |
| `SponsoredSend.SendSponsoredTransfer` | chain/bnbchain/bnb_aa.go:115-221 | the node is asked anything if and only if the signatures decode and preflight accepts; the first event is the read of the sender's count, and unless its answer is the count built for nothing follows; the attempts start from the resolved or default fees and carry the operation preflight checked, up to its two signatures; the call panics if and only if the decoded operation has no hash, or, after preflight, the sponsor key parses and the fees of the next attempt exceed 256 bits |
| `SponsoredFlow.BuiltIsSponsored` | chain/evmbase/aa/sponsored.go:15-41 | a built operation has marker code, placeholder and zero tail, and with fees below 2^128 it is in range and has a hash |
| `SponsoredFlow.BuiltAsOrdered` | chain/bnbchain/bnb_aa.go:53-113 | the operation built is the one asked for: sender, nonce, a call moving the amount of the token to the recipient, the three gas limits, the resolved fees, the paymaster with a window of an hour, and the tuple of configured chain and delegate and the sender's count |
| `SponsoredFlow.SubmittedAsOrdered` | chain/bnbchain/bnb_aa.go:86-204 | the operation inside every submission, read from its packed form, is the one asked for at build, with the client's signature |
| `SponsoredFlow.CallReads` | chain/evmbase/aa/userop.go:224-230 | selector, padded token and padded recipient stand in the call at their ABI positions; the amount reads back if and only if it fits a uint256 |
| `SponsoredFlow.PreflightHashIsBuilt` | chain/bnbchain/bnb_aa.go:86-129 | whatever transport did to overwritten fields, signatures, request id or init code, the hash preflight recomputes is the built one |
| `SponsoredFlow.SubmittedHash` | chain/evmbase/aa/sponsored.go:44-70 | every submission hashes on chain to the checked hash if and only if the paymaster data ends in two zero bytes, up to a collision |
| `SponsoredFlow.AuthNonceWasRead` | chain/bnbchain/bnb_aa.go:153-182 | the authorization of every submission carries the count the node gave for the sender at the start of that send, and the one built for |
| `SponsoredFlow.WindowReadBack` | chain/evmbase/aa/paymaster.go:29-60 | decoding an encoded window gives it back; no data gives the default hour, less than 64 bytes an error |
| `SponsoredFlow.PaymasterDigestBinds` | chain/evmbase/aa/paymaster.go:62-71 | equal digests mean the same hash and window, or a collision of the two strings hashed |
| `SponsoredFlow.AuthCarriesSignature` | chain/evmbase/aa/setcode_tx.go:85-102 | r, s and v put back together are the first 65 signature bytes; a shorter signature leaves them zero |
| `SponsoredFlow.NormalizedRecovers` | chain/evmbase/aa/signature.go:5-12 | recovery ids below 27 leave 27 higher, and recovering what left is recovering what came |
| `SponsoredFlow.AcceptedIff` | chain/evmbase/aa/validate.go:45-133 | preflight accepts exactly 64 bytes of paymaster data, a 65-byte user signature recovering to the sender over the hash, and a paymaster key that is the on-chain signer, if read, and whose signature over hash and window recovers to itself |
| `SponsoredFlow.SubmissionValidates` | chain/evmbase/aa/sponsored.go:44-61 | after an accepting preflight both signatures of the submitted operation recover, over its hash, to the sender and to the paymaster key |
| `SponsoredFlow.BuildToChain` | chain/bnbchain/bnb_aa.go:86-204 | every submission for a built operation hashes on chain to the hash build returned, with the authorization tuple build returned the digest of |
| `SponsorLock.StepKeepsInv` | chain/bnbchain/bnb_aa.go:150-214 | every step of every call keeps: one holder, each nonce about to be sent is the pending one, accepted nonces consecutive |
| `SponsorLock.Safety` | chain/bnbchain/bnb_aa.go:150-214 | the invariant holds in every reachable state of every interleaving |
| `SponsorLock.SendsAreSequential` | chain/bnbchain/bnb_aa.go:150-204 | every submission carries the node's pending nonce; accepted nonces are consecutive; calls never overlap in the locked part; a call submits only after reading, under the lock, the sender count it was built for; at most three tries each; a success has an acceptance, and exactly one if and only if the retried errors were honest |
| `SendOnLock.AttemptsArePath` | chain/bnbchain/bnb_aa.go:169-209 | the attempts of every run of the send loop are steps of one call of the lock machine, against a truthful node |
| `SendOnLock.SendIsPath` | chain/bnbchain/bnb_aa.go:150-221 | the recorded events of every send, read as actions, are a path of one call, which ends returning with the send's submissions as its tries and the send's result |
| `SponsorLock.Progress` | chain/bnbchain/bnb_aa.go:150-214 | while a call is unfinished some call can step |
| `SponsorLock.LockIsNeeded` | chain/bnbchain/bnb_aa.go:150-151 | without the mutex two calls do submit the same nonce, the second stale |
| `SponsorLock.HonestyIsNeeded` | chain/bnbchain/bnb_aa.go:205-208 | under the mutex, a call retrying on an error that hid an acceptance has two transactions accepted |
| `SendErrors.RetryableIff` | chain/evmbase/send_retry.go:8-18 | an error is retried if and only if one of the three texts stands somewhere in it, in any capitalisation |
| `SendErrors.NonceTooLowRetried` | chain/evmbase/send_retry.go:8-18 | a message holding nonce too low in any capitalisation is retried |
| `SendErrors.InsufficientFundsNotRetried` | chain/evmbase/send_retry.go:8-18 | insufficient funds in any capitalisation is not |
| `Addresses.AddressReadBack` | chain/bnbchain/bnb.go:283-291 | an address printed in any capitalisation parses back, and normalises to its lower-case hex |
| `Addresses.NormalIsLowerHex` | chain/bnbchain/bnb.go:283-291 | every spelling of one address normalises to its lower-case hex, other text to its lower case |
| `Erc20Codec.BuildErc20Data` | chain/evmbase/transaction.go:15-29 | selector, padded address and padded amount, in that order |
| `Erc20Codec.AmountField` | chain/evmbase/transaction.go:22-26 | the first word of the amount reads back as the amount if and only if it is below 2^256 |
| `Erc20Codec.ParseOfBuilt` | chain/bnbchain/bnb.go:449-468 | what the decoder reads from encoder output, for every address and every amount |
| `Erc20Codec.RoundTrip` | chain/bnbchain/bnb.go:449-468 | with selector a9059cbb, decoding the encoded transfer returns the same address and amount if and only if the amount is below 2^256 |
| `DedupKey.KeyInjective` | chain/bnbchain/bnb_receipt.go:107-113 | bar-free fields share a key if and only if trimmed lower-cased hashes, normalised addresses and trimmed amounts agree |
| `DedupKey.LogKeyInjective` | chain/bnbchain/bnb_receipt.go:107-113 | the key of a logged transfer decides hash, token, both parties and amount |
| `DedupKey.ConfusedIff` | chain/bnbchain/bnb_receipt.go:107-113 | five fields share their key with five others if and only if one of them holds a bar |
| `DedupKey.LogKeyUnconfused` | chain/bnbchain/bnb_receipt.go:107-113 | any five fields, bars or not, have the key of a logged transfer if and only if hash, addresses and amount normalise to that transfer's |
| `BlockIndexer.NewContractAddrIndex` | chain/bnbchain/bnb.go:271-281 | the index holds exactly the non-empty normal forms |
| `BlockIndexer.ParseErc20TransfersFromReceipt` | chain/bnbchain/bnb_receipt.go:70-97 | the loop lists exactly the three-topic Transfer events of tracked tokens with positive amount, in order |
| `BlockIndexer.MergeReceipts` | chain/bnbchain/bnb.go:320-356 | the merge over the mutable key set appends the first occurrences of keys not yet taken |
| `BlockIndexer.BuildBlockWithTransactions` | chain/bnbchain/bnb.go:293-370 | the list is the outer entries followed by the first occurrences among receipt transfers; errors exactly for an undecodable number or timestamp |
| `BlockIndexer.TokenTransferIff` | chain/bnbchain/bnb.go:437-468 | which block items are token transfers, and which address and number their calldata names |
| `BlockIndexer.NativeEntry` | chain/bnbchain/bnb.go:392-435 | any other item with a recipient is listed with both parties and its value, as a native transfer under its hash, gas price and block |
| `BlockIndexer.TokenEntry` | chain/bnbchain/bnb.go:392-435 | a token transfer is listed with the calldata's recipient and amount on both sides and the token as contract |
| `BlockIndexer.OuterEntriesAre` | chain/bnbchain/bnb.go:302-311 | the outer entries are those of exactly the items with a recipient, in order |
| `BlockIndexer.OuterFirst` | chain/bnbchain/bnb.go:317-320 | the outer entries come first, and alone without receipts |
| `BlockIndexer.FirstOccurrencesAre` | chain/bnbchain/bnb.go:320-356 | the added entries are candidates in order, each the first with its key, and no untaken key is missing |
| `BlockIndexer.AddedKeys` | chain/bnbchain/bnb.go:320-356 | added keys are distinct and disjoint from outer keys, and together they are all outer and candidate keys |
| `BlockIndexer.NothingLostIff` | chain/bnbchain/bnb.go:320-356 | every candidate is added if and only if candidate keys are pairwise distinct and none is an outer key |
| `BlockIndexer.BarConfuses` | chain/bnbchain/bnb.go:372-435 | two native block items with a bar in an address give different outer entries with one key |
| `TransferEndToEnd.OuterEntryOf` | chain/bnbchain/bnb.go:392-447 | a block item carrying encoded calldata to a tracked token is listed as that transfer and keyed by it |
| `TransferEndToEnd.LogTransferOf` | chain/bnbchain/bnb_receipt.go:70-97 | the matching Transfer log gives a transfer if and only if the amount is positive, under the same key |
| `TransferEndToEnd.LogEntryIs` | chain/bnbchain/bnb_receipt.go:70-128 | exactly which logs give an entry, and that entry field by field: hash, fee, status, token, both parties with the amount, block and log index |
| `TransferEndToEnd.CandidateFromLog` | chain/bnbchain/bnb.go:320-356 | every candidate is the entry of a log of a successful receipt |
| `TransferEndToEnd.OtherHashOtherKey` | chain/bnbchain/bnb.go:372-435 | an entry of another transaction never has the key of a given transfer |
| `TransferEndToEnd.ListedOnce` | chain/bnbchain/bnb.go:299-356 | a built transfer in a block whose other items have other hashes is listed exactly once under its key, whatever the receipts and the other items hold |
| `TransferEndToEnd.EveryLogListedIff` | chain/bnbchain/bnb.go:320-356 | every tracked positive transfer logged by the successful receipts gets its own entry if and only if those transfers are pairwise different in hash, token, parties or amount and none is an outer entry |
| `TransferEndToEnd.EqualLogsMerge` | chain/bnbchain/bnb.go:329-334 | a receipt with two equal Transfer logs adds one entry for two transfers |
| `TokenBalances.DecodeTokenBalances` | chain/solana/solana_parse.go:208-224 | the loop keeps exactly the items that decode and name owner and mint |
| `TokenBalances.ParseSplFromTokenBalances` | chain/solana/solana_parse.go:132-194 | by the last decodable entries before and after: a transfer if and only if some owner has more of a mint after than before and some owner less, naming a gaining owner and mint, the gain as decimal number, and a losing owner; the result of some visiting order |
| `TokenBalances.GainIsMore` | chain/solana/solana_parse.go:140-167 | gains and losses in the orders below are balances after above or below those before, the last entry of an owner and mint counting |
| `TokenBalances.AmountRead` | chain/solana/solana_parse.go:196-206 | a decimal number with white space around it reads as that number |
| `TokenBalances.EveryOrder` | chain/solana/solana_parse.go:157-194 | for every order a transfer is reported if and only if some key gains and some key loses, and it names a gaining key with its exact gain and a losing owner |
| `TokenBalances.EveryPairHappens` | chain/solana/solana_parse.go:157-194 | every pair of a gaining and a losing key is reported for some order |
| `TokenBalances.IndependentIff` | chain/solana/solana_parse.go:157-194 | the result is the same for all orders if and only if none is reported or one key gains and one owner loses |
| `TransactionRange.Safety` | chain/solana/solana_client.go:658-706 | every reachable state keeps the invariant, and no run exceeds seven steps per goroutine |
| `TransactionRange.AtMostTwentyRunning` | chain/solana/solana_client.go:665-673 | at most twenty goroutines hold the semaphore |
| `TransactionRange.SendNeverBlocks` | chain/solana/solana_client.go:658-703 | a goroutine about to send always finds room in its channel |
| `TransactionRange.Progress` | chain/solana/solana_client.go:667-706 | no deadlock: until all are done some goroutine can step |
| `TransactionRange.RangeResult` | chain/solana/solana_client.go:667-733 | when all are done each sent one message after at most three requests, having retried request failures and nothing else; what it obtained is the body last answered, and it failed only by the deadline, a final answer or a third failure; the call succeeds if and only if every transaction was obtained, and then returns exactly those |
| `TransactionRange.Collect` | chain/solana/solana_client.go:710-733 | any error fails the call, else the results with signatures in channel order, or an error if none |
| `TransactionRange.ValidateSignatures` | chain/solana/solana_client.go:629-638 | the caller's slice is trimmed in place up to the first bad signature, untouched after it |
| `MultiSigner.EnvelopeFromTransaction` | chain/solana/solana_tx.go:151-172 | the signer keys are the leading account keys, each with an empty signature |
| `MultiSigner.AssembleSignedTransaction` | chain/solana/solana_tx.go:209-241 | signatures land in signer order; failure for a bad message or the first missing or malformed signature, panic for an overlong key list or no slot |
| `MultiSigner.GroupRequests` | chain/solana/solana.go:490-519 | the mutable map and list hold, after all requests, the payload order and the merged envelope of each payload |
| `MultiSigner.BuildSignedTransaction` | chain/solana/solana.go:485-549 | one entry per grouped payload in order, each that of the merged envelope |
| `MultiSigner.OrderIsFirstAppearances` | chain/solana/solana.go:490-502 | the payloads listed are exactly the decodable ones, each once, in order of their first appearance |
| `MultiSigner.LastSignatureCounts` | chain/solana/solana.go:503-519 | the last request that signs for a key decides its signature |
| `MultiSigner.MergeInKeyOrder` | chain/solana/solana.go:485-519 | requests from distinct signers in any order assemble if and only if every required key has a usable signature, slot n then holding the one given for account key n, and fail otherwise |
| `MultiSigner.ServiceCall` | chain/solana/solana.go:522-549 | over envelopes of this service the call never panics; entry i fails if and only if a signer of payload i is missing or the library cannot serialize; a successful entry is the serialized message with the signatures in key order, its id the first account key's signature |
| `MultiSigner.HexKeySigns` | chain/solana/solana.go:503-511 | a 32-byte hex public key, with 0x or white space or not, signs for its base58 text |
| `MultiSigner.OtherKeySigns` | chain/solana/solana.go:503-518 | any other key counts as it stands if it is base58 and is dropped otherwise; no key means the only signer |
| `MultiSigner.SignatureRead` | chain/solana/solana_tx.go:220-233 | a hex signature, with 0x or white space or not, is usable if and only if it has 64 bytes |
| `HeaderGroups.SplitGroups` | chain/evmbase/ethclient.go:162-176 | the goroutines started are as many as the wait group expects, each with its start and end |
| `HeaderGroups.GroupsPartition` | chain/evmbase/ethclient.go:168-173 | every index is in exactly one group |
| `HeaderGroups.GroupsInRange` | chain/evmbase/ethclient.go:168-173 | no group leaves the range if and only if the count does not leave 99 over |
| `HeaderGroups.RunsAreFinite` | chain/evmbase/ethclient.go:174-189 | no interleaving runs for ever |
| `HeaderGroups.WaitReturns` | chain/evmbase/ethclient.go:174-189 | when the wait returns every height was requested exactly once and its slot holds that answer, the zero header for a failed one |
| `HeaderGroups.RunOutcome` | chain/evmbase/ethclient.go:162-189 | a complete run panics if and only if the count leaves 99 over, and otherwise has fetched every header |
| `HeaderGroups.CollectHeaders` | chain/evmbase/ethclient.go:200-210 | the headers in slot order; an unfilled slot is an error |
| `PriorityFee.GetSuggestedPriorityFee` | chain/solana/solana_client.go:813-830 | filling, sorting in place and indexing gives the quartile element of the ascending fees, 0 for none |
| `PriorityFee.SuggestedIsQuartile` | chain/solana/solana_client.go:813-830 | it is one of the fees; more than three quarters of the fees are at most it and at least a quarter are at least it |
| `PriorityFee.SuggestedPermute` | chain/solana/solana_client.go:813-830 | it is the same for every permutation of the fees |
| `TronAbi.Trc20Parameter` | chain/tron/tronclient.go:204-219 | fails exactly for an address that does not decode; else the padded address with its version byte and the amount |
| `TronAbi.ParseSingleTransaction` | chain/tron/tron_parse.go:36-122 | lists the first contract's transfer with its parties, place, kind and status, skips everything else, panics on an address field of bare 0x |
| `TronAbi.ParseBlockTransactions` | chain/tron/tron_parse.go:20-34 | exactly the listed transactions, in block order, each under its block index |
| `TronAbi.ParseFields` | chain/tron/helpers.go:58-82 | both parsers read address and amount at the fixed offsets |
| `TronAbi.Trc20RoundTrip` | chain/tron/helpers.go:58-82 | for every 20-byte address, version byte and 64-bit amount, the transfer parameter parses back to the address and amount |
| `TronAbi.TransferIsListed` | chain/tron/tron_parse.go:66-91 | a call with that parameter is listed with the recipient and, on both sides, the amount |
| `TronAbi.TrxIsListed` | chain/tron/tron_parse.go:47-64 | a plain TRX transfer is listed with owner and recipient and the amount on both sides |
| `TronAbi.StatusIs` | chain/tron/tron_parse.go:115-123 | pending without a result, success for SUCCESS in any capitalisation, failed otherwise |
| `TronAbi.StrippedRoundTrip` | chain/tron/justlend.go:26-43 | the stripping encoder accepts every 20-byte address, and the pair parses back if and only if the amount is not negative |
| `TronAbi.RecipientTextComesBack` | chain/tron/tron_parse.go:76-91 | with a base58 whose decoding undoes encoding, a transfer to an address text is listed with that same text if and only if its version byte is 0x41 |
| `TronAbi.EncodersDiffer` | chain/tron/tronclient.go:206-213 | the two encoders write the same address word if and only if the version byte is zero |
| `TronAbi.RentParameterWords` | chain/tron/justlend.go:45-52 | fails exactly for an address without 20 bytes; else three words of 64 hex digits: receiver, amount clamped at zero, resource |
| `TronAbi.RentInfoParameterWords` | chain/tron/justlend.go:54-64 | the same for renter and receiver |
| `Text.Hex64Read` | chain/tron/tronclient.go:215-215 | a 64-bit amount prints in 64 characters and reads back, sign included |
| `Text.IntStringRead` | chain/bnbchain/bnb.go:462-467 | printing and parsing a decimal amount is the identity |

## Left out

- The gRPC service, dispatcher, configuration, command line, database and cache code: plumbing without a property of its own.
- The Ethereum and Bitcoin adaptors: wrappers, or copies of the BNB logic.
- Keccak-256, ECDSA, base58, base64, JSON, RLP, the handleOps ABI wrapper and the Solana message codec: foreign libraries, taken as function parameters or, for the ABI wrapper and RLP, as the value they carry.
- Wall-clock time is an input; sleeps, tickers and logging are dropped.
- A user operation from JSON with negative or absent numbers, which the packing code meets with a panic or a sign loss: numbers are naturals.
- The AA-enabled switch, configuration parsing and the two contract reads of the send and build paths: their answers are inputs.
- Text outside Latin-1: lower-casing and trimming follow Latin-1.
- The JSON-RPC batch branch of the header fetch, its early exit for one header, and heights beyond 64 bits.
- A receipt without an effective gas price; only successful receipts reach the merge, so their status is one value.
- The instruction branch of the Solana parser, NFT calldata and the user-operation receipt lookup: readings of one branch.
- The HTTP status and error bodies of a Solana request: any failure, with or without the words "request failed", is one answer.
- The single-signature shortcut of the range fetch, and the trimmed signatures as request text.
- Floating-point rounding of the quartile index above 2^51 fees.
- The nil Tron block, which gives no list: one branch.
- The Tron library's own hex-address parser, not part of this repository, is taken as hex decoding that fails on bad text.
- PriorityFee.SortInPlace: stands for the library's sort, whose algorithm is not modelled, only its contract.
- SponsorLock.SendsAreSequential: assumes that nobody else sends from the sponsor account and that its count stays below 2^64.
- SendOnLock.SendIsPath: assumes a node whose answers are its counts and whose success means acceptance; actions of other calls and accounts in between are the machine's own.
- SponsoredSend.PreflightSponsoredSend: the error list is kept as tags, not texts.
