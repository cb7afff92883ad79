# NULS account ledger in Dafny

This project models the account ledger of the NULS node and proves properties of that model. The ledger keeps the local transaction history and the spendable outputs of the accounts held by this node. The model covers these pieces:

- **`AccountLedgerServiceImpl`** is a class over:
  - the cached list of local accounts;
  - a store that holds transaction info records, raw transactions, the unconfirmed pool and spendable outputs;
  - the sequence of balance refreshes it asked for.

  The modelled operations are:
  - locality tests and address matching;
  - greedy coin selection (`getCoinData`);
  - the two-write save with its compensating delete;
  - rollback;
  - the batch save that undoes earlier items when one fails;
  - unlocking and relocking of time-locked outputs;
  - balance lookup;
  - the control flow of `transfer`.

  Each state-changing method is proved to move the state exactly as a pure function in `LedgerSpec` says. The laws about those functions are proved in `LedgerLaws`.
- **`Coin`** covers:
  - its constructors;
  - the `usable` lock test;
  - its wire size, serialisation and parsing, with the round trip proved;
  - `getAddress`.
- **`AccountLedgerResource`** is the REST layer. The model covers:
  - the input checks of `getBalance` and `transfer`;
  - the paging of `getTxInfoList`.
- **`TxRemarkValidator`** is the remark length rule of protocol versions 1 and 2.

## How storage failures are modelled

Storage can fail. The store carries a set of calls, each an operation kind on a transaction hash, that fail. A failing call changes nothing. Every call, successful or not, is appended to a log, so the proofs can speak about call order.

## Parameters

These collaborators are parameters of the operations:

- the coin comparator;
- the fee calculator;
- the best block height and the clock;
- the account service;
- Base58 decoding and address validation;
- the transaction digest and size;
- the outcomes of signing, verification and broadcast.

## Files

| file | contents |
|---|---|
| `wrappers.dfy`, `kernel.dfy` | `Option`, `Result`, byte strings, error codes, the `Result` answer type |
| `codec.dfy` | little-endian integers, VarInt, length-prefixed bytes, output and input buffers |
| `coin.dfy` | `Coin`, `usable`, size, serialisation, `getAddress` |
| `transaction.dfy` | `CoinData` (mutable outputs), `Transaction`, info records |
| `remark.dfy` | `TxRemarkValidator` |
| `storage.dfy` | the ledger storage with failures and call log |
| `accounts.dfy`, `subsequence.dfy` | local-account membership, related addresses, local-transaction filter |
| `selection.dfy` | the specification of `getCoinData` and its laws |
| `ledger_spec.dfy`, `ledger_laws.dfy` | the state-changing operations as functions, and their laws |
| `service.dfy` | `AccountLedgerService`, the imperative service |
| `resource.dfy` | the REST resource: `getBalance`, `transfer` checks, `getTxInfoList` paging |

## Model

| member | source | states |
|---|---|---|
| Coins.CoinOf | core-module/kernel/src/main/java/io/nuls/kernel/model/Coin.java:68-71 | a coin built from owner and amount carries them, has lock time 0 and is usable on every chain |
| Coins.Usable | core-module/kernel/src/main/java/io/nuls/kernel/model/Coin.java:161-185 | a coin is usable exactly when its lock state is reached: lock time 0 always, negative (locked) never, below the divide a height, otherwise a timestamp |
| Coins.UsableMonotone | core-module/kernel/src/main/java/io/nuls/kernel/model/Coin.java:161-185 | a coin usable at some height and time stays usable at any later height and time |
| Coins.Size | core-module/kernel/src/main/java/io/nuls/kernel/model/Coin.java:93-99 | `size()` is exactly the number of bytes serializeToStream writes |
| Coins.ParseSerialize | core-module/kernel/src/main/java/io/nuls/kernel/model/Coin.java:79-90 | parsing what serializeToStream wrote gives back the same coin and consumes exactly `size()` bytes, whatever follows |
| Coins.ParseSerializeLockTimeLowBits | core-module/kernel/src/main/java/io/nuls/kernel/model/Coin.java:79-90 | a lock time outside 48 bits, such as the locked value -1, comes back as its low 48 bits |
| Coins.ParseCoin | core-module/kernel/src/main/java/io/nuls/kernel/model/Coin.java:79-90 | a successful parse never takes more bytes than it was given |
| Coins.SerializeToStream | core-module/kernel/src/main/java/io/nuls/kernel/model/Coin.java:79-83 | the stream gains exactly the serialisation of the coin |
| Coins.Parse | core-module/kernel/src/main/java/io/nuls/kernel/model/Coin.java:86-90 | the buffer yields the coin encoded at its cursor and advances past it, or yields nothing |
| Coins.GetAddress | core-module/kernel/src/main/java/io/nuls/kernel/model/Coin.java:199-219 | no owner gives null; a 23-byte owner is itself the address; otherwise a pay-to-address script gives its 23 bytes from offset 3 and a pay-to-script-hash script from offset 2; a script too short for the copy, or of any other kind, is an error (address not on this chain for the latter) |
| Codec.LittleEndianRoundTrip | core-module/kernel/src/main/java/io/nuls/kernel/model/Coin.java:79-90 | reading a fixed-width little-endian number gives back the number written |
| Codec.VarIntRoundTrip | account-ledger-module/base/account-ledger-base/src/main/java/io/nuls/account/ledger/base/service/impl/AccountLedgerServiceImpl.java:344 | a VarInt, as used in output keys, decodes to the number encoded, with its encoded length |
| Codec.BytesWithLengthRoundTrip | core-module/kernel/src/main/java/io/nuls/kernel/model/Coin.java:79-88 | a length-prefixed byte string decodes to itself and consumes `sizeOfBytes` bytes |
| Codec.Int64RoundTrip | core-module/kernel/src/main/java/io/nuls/kernel/model/Coin.java:79-89 | a signed 64-bit value reads back unchanged from its 8 bytes |
| Codec.Uint48RoundTrip | core-module/kernel/src/main/java/io/nuls/kernel/model/Coin.java:79-90 | a value below 2^48 reads back unchanged from its 6 bytes |
| Codec.Uint48ReadsLowBits | core-module/kernel/src/main/java/io/nuls/kernel/model/Coin.java:79-90 | any value reads back as its low 48 bits |
| Codec.OutputBuffer.WriteBytesWithLength | core-module/kernel/src/main/java/io/nuls/kernel/model/Coin.java:80 | the buffer gains the length-prefixed encoding |
| Codec.OutputBuffer.WriteInt64 | core-module/kernel/src/main/java/io/nuls/kernel/model/Coin.java:81 | the buffer gains the 8-byte encoding |
| Codec.OutputBuffer.WriteUint48 | core-module/kernel/src/main/java/io/nuls/kernel/model/Coin.java:82 | the buffer gains the 6-byte encoding |
| Codec.InputBuffer.ReadByLengthByte | core-module/kernel/src/main/java/io/nuls/kernel/model/Coin.java:87 | the read gives the decoded byte string and advances by its encoded length, or fails without moving |
| Codec.InputBuffer.ReadInt64 | core-module/kernel/src/main/java/io/nuls/kernel/model/Coin.java:88 | the read gives the decoded value and advances 8 bytes, or fails without moving |
| Codec.InputBuffer.ReadUint48 | core-module/kernel/src/main/java/io/nuls/kernel/model/Coin.java:89 | the read gives the decoded value and advances 6 bytes, or fails without moving |
| TxRemark.Validate | protocol-module/protocol/src/main/java/io/nuls/protocol/model/validator/TxRemarkValidator.java:41-47 | fails, with the data-size error code, exactly when the main-net version is at most 2 and the remark is longer than 100 bytes |
| TxRemark.RemarkAtLimitPasses | protocol-module/protocol/src/main/java/io/nuls/protocol/model/validator/TxRemarkValidator.java:38-47 | a remark of exactly the maximum length passes |
| TxRemark.NullRemarkPasses | protocol-module/protocol/src/main/java/io/nuls/protocol/model/validator/TxRemarkValidator.java:43-46 | a missing remark passes |
| TxRemark.LaterVersionsAcceptEveryRemark | protocol-module/protocol/src/main/java/io/nuls/protocol/model/validator/TxRemarkValidator.java:43-46 | after version 2 every remark passes |
| TxRemark.ShorterRemarkPasses | protocol-module/protocol/src/main/java/io/nuls/protocol/model/validator/TxRemarkValidator.java:41-47 | shortening a passing remark keeps it passing |
| LocalAccounts.Contains | account-ledger-module/base/account-ledger-base/src/main/java/io/nuls/account/ledger/base/service/impl/AccountLedgerServiceImpl.java:237-242 | the linear search answers true exactly for a listed address |
| LocalAccounts.IsLocalAccount | account-ledger-module/base/account-ledger-base/src/main/java/io/nuls/account/ledger/base/service/impl/AccountLedgerServiceImpl.java:232-243 | true exactly when the account list is loaded and holds the address |
| LocalAccounts.Matches | account-ledger-module/base/account-ledger-base/src/main/java/io/nuls/account/ledger/base/service/impl/AccountLedgerServiceImpl.java:543-548 | the inner loop adds the source address once per equal candidate |
| LocalAccounts.Related | account-ledger-module/base/account-ledger-base/src/main/java/io/nuls/account/ledger/base/service/impl/AccountLedgerServiceImpl.java:542-549 | the result holds exactly the source addresses that are among the candidates |
| LocalAccounts.Keep | account-ledger-module/base/account-ledger-base/src/main/java/io/nuls/account/ledger/base/service/impl/AccountLedgerServiceImpl.java:542-549 | a filter of the sources that keeps their order: the reference definition for `Related` |
| LocalAccounts.CountAtMostOne | account-ledger-module/base/account-ledger-base/src/main/java/io/nuls/account/ledger/base/service/impl/AccountLedgerServiceImpl.java:543-548 | a candidate list without repeats holds each address at most once |
| LocalAccounts.RelatedIsFilter | account-ledger-module/base/account-ledger-base/src/main/java/io/nuls/account/ledger/base/service/impl/AccountLedgerServiceImpl.java:529-551 | with distinct candidates the result is the order-preserving filter of the transaction's addresses |
| LocalAccounts.RelatedAddressesAmong | account-ledger-module/base/account-ledger-base/src/main/java/io/nuls/account/ledger/base/service/impl/AccountLedgerServiceImpl.java:529-551 | an address is in the result exactly when it is a relative of the transaction and among the given (non-null) candidates |
| LocalAccounts.RelatedAddresses | account-ledger-module/base/account-ledger-base/src/main/java/io/nuls/account/ledger/base/service/impl/AccountLedgerServiceImpl.java:513-527 | an address is in the result exactly when it is a relative of the transaction and a local account |
| LocalAccounts.AnyLocal | account-ledger-module/base/account-ledger-base/src/main/java/io/nuls/account/ledger/base/service/impl/AccountLedgerServiceImpl.java:560-566 | true exactly when some address of the list is local |
| LocalAccounts.IsLocalTransaction | account-ledger-module/base/account-ledger-base/src/main/java/io/nuls/account/ledger/base/service/impl/AccountLedgerServiceImpl.java:553-567 | a transaction is local exactly when one of its related addresses is a local account (never while the account list is null or empty) |
| LocalAccounts.LocalIffRelated | account-ledger-module/base/account-ledger-base/src/main/java/io/nuls/account/ledger/base/service/impl/AccountLedgerServiceImpl.java:513-567 | a transaction is local exactly when it has a related local address |
| LocalAccounts.FilterLocal | account-ledger-module/base/account-ledger-base/src/main/java/io/nuls/account/ledger/base/service/impl/AccountLedgerServiceImpl.java:504-509 | keeps exactly the local transactions, in their order |
| LocalAccounts.FilterLocalCount | account-ledger-module/base/account-ledger-base/src/main/java/io/nuls/account/ledger/base/service/impl/AccountLedgerServiceImpl.java:504-509 | each local transaction is kept as often as the list holds it, every other one never |
| LocalAccounts.GetLocalTransaction | account-ledger-module/base/account-ledger-base/src/main/java/io/nuls/account/ledger/base/service/impl/AccountLedgerServiceImpl.java:495-511 | the local transactions of the list in order, none when the list or the registry is empty |
| LocalAccounts.LocalTransactionCounts | account-ledger-module/base/account-ledger-base/src/main/java/io/nuls/account/ledger/base/service/impl/AccountLedgerServiceImpl.java:495-511 | getLocalTransaction holds each local transaction as often as the list does and no other transaction |
| CoinSelection.UsableCoins | account-ledger-module/base/account-ledger-base/src/main/java/io/nuls/account/ledger/base/service/impl/AccountLedgerServiceImpl.java:199-204 | the usable coins of the sorted list, all of them, in sorted order |
| CoinSelection.UsableCoinsCount | account-ledger-module/base/account-ledger-base/src/main/java/io/nuls/account/ledger/base/service/impl/AccountLedgerServiceImpl.java:199-204 | each usable coin is kept as often as the sorted list holds it, an unusable one never |
| CoinSelection.UsableCoinsAppend | account-ledger-module/base/account-ledger-base/src/main/java/io/nuls/account/ledger/base/service/impl/AccountLedgerServiceImpl.java:199-204 | skipping unusable coins distributes over concatenation |
| CoinSelection.ChangeCoin | account-ledger-module/base/account-ledger-base/src/main/java/io/nuls/account/ledger/base/service/impl/AccountLedgerServiceImpl.java:213-219 | a change coin exists exactly when the surplus is positive; it goes to the sender, worth the surplus, unlocked |
| CoinSelection.FirstCoverUnique | account-ledger-module/base/account-ledger-base/src/main/java/io/nuls/account/ledger/base/service/impl/AccountLedgerServiceImpl.java:208-221 | the stopping point of the greedy pass is unique |
| CoinSelection.SelectsDeterministic | account-ledger-module/base/account-ledger-base/src/main/java/io/nuls/account/ledger/base/service/impl/AccountLedgerServiceImpl.java:187-229 | the selection specification admits one result only |
| CoinSelection.EnoughIffSomePrefixCovers | account-ledger-module/base/account-ledger-base/src/main/java/io/nuls/account/ledger/base/service/impl/AccountLedgerServiceImpl.java:196-228 | enough exactly when some prefix of the usable coins pays amount plus fee; otherwise no coins, fee or change |
| CoinSelection.SelectionSound | account-ledger-module/base/account-ledger-base/src/main/java/io/nuls/account/ledger/base/service/impl/AccountLedgerServiceImpl.java:196-222 | an enough result spends usable coins of the sorted list, in order, none more often than listed; the fee is that of its size; it covers amount plus fee and no shorter prefix does; the change is positive and balances the sum exactly |
| LedgerLaws.SaveNonLocalChangesNothing | account-ledger-module/base/account-ledger-base/src/main/java/io/nuls/account/ledger/base/service/impl/AccountLedgerServiceImpl.java:442-447 | saving a transaction of no local account changes nothing and answers failed with data 0 |
| LedgerLaws.SaveInfoFailure | account-ledger-module/base/account-ledger-base/src/main/java/io/nuls/account/ledger/base/service/impl/AccountLedgerServiceImpl.java:449-456 | a failed info write is returned: nothing else is written and nothing refreshed |
| LedgerLaws.SaveRawFailure | account-ledger-module/base/account-ledger-base/src/main/java/io/nuls/account/ledger/base/service/impl/AccountLedgerServiceImpl.java:457-468 | a failed raw write deletes the info record again, leaves raw records alone, still refreshes, and an unconfirmed save answers with the pool write's result |
| LedgerLaws.SaveRawFailureCallOrder | account-ledger-module/base/account-ledger-base/src/main/java/io/nuls/account/ledger/base/service/impl/AccountLedgerServiceImpl.java:452-464 | the calls are info save, raw save, info delete, then the pool write for an unconfirmed transaction |
| LedgerLaws.SaveRawFailureSteps | account-ledger-module/base/account-ledger-base/src/main/java/io/nuls/account/ledger/base/service/impl/AccountLedgerServiceImpl.java:452-468 | the store after a failed raw write, step by step |
| LedgerLaws.SaveSuccess | account-ledger-module/base/account-ledger-base/src/main/java/io/nuls/account/ledger/base/service/impl/AccountLedgerServiceImpl.java:442-469 | with working storage the info record (hash, status, related addresses) and the raw transaction are stored, the pool too when unconfirmed, outputs untouched, and every related address refreshed |
| LedgerLaws.SaveForOneAddress | account-ledger-module/base/account-ledger-base/src/main/java/io/nuls/account/ledger/base/service/impl/AccountLedgerServiceImpl.java:471-492 | the one-address save records only that address, never the pool, refreshes nothing, and answers failed/0 when the address is unrelated |
| LedgerLaws.RollbackNonLocal | account-ledger-module/base/account-ledger-base/src/main/java/io/nuls/account/ledger/base/service/impl/AccountLedgerServiceImpl.java:132-136 | rollback of a non-local transaction changes nothing and answers failed/0 |
| LedgerLaws.RollbackInfoDeleteFailure | account-ledger-module/base/account-ledger-base/src/main/java/io/nuls/account/ledger/base/service/impl/AccountLedgerServiceImpl.java:137-143 | a failed info delete is returned at once and the raw record stays |
| LedgerLaws.SaveThenRollback | account-ledger-module/base/account-ledger-base/src/main/java/io/nuls/account/ledger/base/service/impl/AccountLedgerServiceImpl.java:106-146 | rolling back a confirmed save removes exactly its two records, restoring a store that had neither |
| LedgerLaws.RollbackEachOnlyDeletes | account-ledger-module/base/account-ledger-base/src/main/java/io/nuls/account/ledger/base/service/impl/AccountLedgerServiceImpl.java:153-165 | rollback of a list only deletes records; everything left is as it was |
| LedgerLaws.RollbackListCount | account-ledger-module/base/account-ledger-base/src/main/java/io/nuls/account/ledger/base/service/impl/AccountLedgerServiceImpl.java:149-165 | rollback of a list answers success with the number of items walked: the local ones when checking, all otherwise |
| LedgerLaws.RollbackEachRemoves | account-ledger-module/base/account-ledger-base/src/main/java/io/nuls/account/ledger/base/service/impl/AccountLedgerServiceImpl.java:153-165 | with working deletes, rolling back local transactions removes exactly their records |
| LedgerLaws.SavedUpToNext | account-ledger-module/base/account-ledger-base/src/main/java/io/nuls/account/ledger/base/service/impl/AccountLedgerServiceImpl.java:118-127 | one more successful item extends the saved prefix |
| LedgerLaws.SaveBatchUnfold | account-ledger-module/base/account-ledger-base/src/main/java/io/nuls/account/ledger/base/service/impl/AccountLedgerServiceImpl.java:118-127 | one iteration of the batch loop |
| LedgerLaws.SaveBatchFrom | account-ledger-module/base/account-ledger-base/src/main/java/io/nuls/account/ledger/base/service/impl/AccountLedgerServiceImpl.java:116-129 | the batch saves a prefix and stops at its first failure, or saves everything |
| LedgerLaws.BatchOutcome | account-ledger-module/base/account-ledger-base/src/main/java/io/nuls/account/ledger/base/service/impl/AccountLedgerServiceImpl.java:116-129 | either every item saved and the answer is success with the count, or the first failing item's answer is returned after an unchecked rollback of the items before it |
| LedgerLaws.BatchSuccessIffAllSaved | account-ledger-module/base/account-ledger-base/src/main/java/io/nuls/account/ledger/base/service/impl/AccountLedgerServiceImpl.java:116-129 | success exactly when every item saved, with the list length as data |
| LedgerLaws.BatchFailureIsRollback | account-ledger-module/base/account-ledger-base/src/main/java/io/nuls/account/ledger/base/service/impl/AccountLedgerServiceImpl.java:120-125 | a failed batch is the rollback of the saved items after the failing save |
| LedgerLaws.BatchFailureRestoresRecords | account-ledger-module/base/account-ledger-base/src/main/java/io/nuls/account/ledger/base/service/impl/AccountLedgerServiceImpl.java:116-129 | with working deletes and new transactions, a failed batch leaves the info and raw records exactly as before |
| LedgerLaws.ConfirmedSaveFrame | account-ledger-module/base/account-ledger-base/src/main/java/io/nuls/account/ledger/base/service/impl/AccountLedgerServiceImpl.java:442-469 | a confirmed save touches only the records of its own hash; a failed one of a new transaction leaves none behind |
| LedgerLaws.UnlockedChangesOnlyLocked | account-ledger-module/base/account-ledger-base/src/main/java/io/nuls/account/ledger/base/service/impl/AccountLedgerServiceImpl.java:338-342 | unlocking sets lock time -1 to 0 and leaves every other output alone; it is idempotent |
| LedgerLaws.OutputWritesAreTheLockedOutputs | account-ledger-module/base/account-ledger-base/src/main/java/io/nuls/account/ledger/base/service/impl/AccountLedgerServiceImpl.java:336-346 | the outputs written are exactly the locked ones, under owner + hash + VarInt(index) |
| LedgerLaws.OutputWriteValues | account-ledger-module/base/account-ledger-base/src/main/java/io/nuls/account/ledger/base/service/impl/AccountLedgerServiceImpl.java:320-391 | unlock and relock write the same keys, one per locked output; at each key unlock stores that output with lock time 0 and relock stores it unchanged |
| LedgerLaws.RollbackUnlockAfterUnlockWritesNothing | account-ledger-module/base/account-ledger-base/src/main/java/io/nuls/account/ledger/base/service/impl/AccountLedgerServiceImpl.java:360-391 | on an output list already unlocked in memory, rollbackUnlockTxCoinData finds nothing to write |
| LedgerLaws.ApplyWritesIsOverlay | account-ledger-module/base/account-ledger-base/src/main/java/io/nuls/account/ledger/base/service/impl/AccountLedgerServiceImpl.java:345 | with working output writes, the writes overlay the output map |
| LedgerLaws.RelockOverwritesUnlock | account-ledger-module/base/account-ledger-base/src/main/java/io/nuls/account/ledger/base/service/impl/AccountLedgerServiceImpl.java:320-391 | relocking after unlocking leaves the outputs as relocking alone would |
| LedgerLaws.UnlockThenRelockRestores | account-ledger-module/base/account-ledger-base/src/main/java/io/nuls/account/ledger/base/service/impl/AccountLedgerServiceImpl.java:320-391 | when the store held the locked outputs, unlock then relock restores it |
| AccountLedger.AccountLedgerService.constructor | account-ledger-module/base/account-ledger-base/src/main/java/io/nuls/account/ledger/base/service/impl/AccountLedgerServiceImpl.java:101-103 | the service starts with the fetched account list, the given store, no refreshes |
| AccountLedger.AccountLedgerService.ReloadAccount | account-ledger-module/base/account-ledger-base/src/main/java/io/nuls/account/ledger/base/service/impl/AccountLedgerServiceImpl.java:569-575 | the cached account list becomes the fetched one; nothing else changes |
| AccountLedger.AccountLedgerService.GetCoinData | account-ledger-module/base/account-ledger-base/src/main/java/io/nuls/account/ledger/base/service/impl/AccountLedgerServiceImpl.java:187-229 | no stored coins gives not enough; otherwise the result meets the selection specification over the usable coins in comparator order; with a comparator that only reorders, an enough result spends usable stored coins of the address, none more often than stored |
| AccountLedger.SelectionFromStore | account-ledger-module/base/account-ledger-base/src/main/java/io/nuls/account/ledger/base/service/impl/AccountLedgerServiceImpl.java:187-204 | a selection over the sorted usable coins spends usable stored coins, none more often than stored, when the sort only reorders |
| AccountLedger.AccountLedgerService.SaveConfirmedTransaction | account-ledger-module/base/account-ledger-base/src/main/java/io/nuls/account/ledger/base/service/impl/AccountLedgerServiceImpl.java:105-108 | a save with status confirmed |
| AccountLedger.AccountLedgerService.SaveUnconfirmedTransaction | account-ledger-module/base/account-ledger-base/src/main/java/io/nuls/account/ledger/base/service/impl/AccountLedgerServiceImpl.java:110-113 | a save with status unconfirmed |
| AccountLedger.AccountLedgerService.SaveTransaction | account-ledger-module/base/account-ledger-base/src/main/java/io/nuls/account/ledger/base/service/impl/AccountLedgerServiceImpl.java:442-469 | new state and answer are those of `LedgerSpec.SaveTransaction` |
| AccountLedger.AccountLedgerService.RefreshBalances | account-ledger-module/base/account-ledger-base/src/main/java/io/nuls/account/ledger/base/service/impl/AccountLedgerServiceImpl.java:465-467 | each address is refreshed once, in order; nothing else changes |
| AccountLedger.AccountLedgerService.SaveTransactionFor | account-ledger-module/base/account-ledger-base/src/main/java/io/nuls/account/ledger/base/service/impl/AccountLedgerServiceImpl.java:471-492 | new state and answer are those of `LedgerSpec.SaveTransactionFor` |
| AccountLedger.AccountLedgerService.SaveConfirmedTransactionList | account-ledger-module/base/account-ledger-base/src/main/java/io/nuls/account/ledger/base/service/impl/AccountLedgerServiceImpl.java:116-129 | new state and answer are those of `LedgerSpec.SaveBatch` |
| AccountLedger.AccountLedgerService.Rollback | account-ledger-module/base/account-ledger-base/src/main/java/io/nuls/account/ledger/base/service/impl/AccountLedgerServiceImpl.java:132-146 | new state and answer are those of `LedgerSpec.Rollback` |
| AccountLedger.AccountLedgerService.RollbackLocal | account-ledger-module/base/account-ledger-base/src/main/java/io/nuls/account/ledger/base/service/impl/AccountLedgerServiceImpl.java:149-151 | rollback(list) is the checked rollback of the list |
| AccountLedger.AccountLedgerService.RollbackList | account-ledger-module/base/account-ledger-base/src/main/java/io/nuls/account/ledger/base/service/impl/AccountLedgerServiceImpl.java:153-165 | new state and answer are those of `LedgerSpec.RollbackList` |
| AccountLedger.AccountLedgerService.UnlockCoinData | account-ledger-module/base/account-ledger-base/src/main/java/io/nuls/account/ledger/base/service/impl/AccountLedgerServiceImpl.java:320-357 | inputs untouched; for a local transaction the in-memory outputs become unlocked; store and answer are those of `LedgerSpec.UnlockOutputs` |
| AccountLedger.AccountLedgerService.UnlockOutputsOf | account-ledger-module/base/account-ledger-base/src/main/java/io/nuls/account/ledger/base/service/impl/AccountLedgerServiceImpl.java:333-355 | the loop unlocks the outputs in place and applies exactly their output writes |
| AccountLedger.AccountLedgerService.RollbackUnlockTxCoinData | account-ledger-module/base/account-ledger-base/src/main/java/io/nuls/account/ledger/base/service/impl/AccountLedgerServiceImpl.java:360-391 | store and answer are those of `LedgerSpec.UnlockOutputs` in relock mode |
| AccountLedger.AccountLedgerService.Transfer | account-ledger-module/base/account-ledger-base/src/main/java/io/nuls/account/ledger/base/service/impl/AccountLedgerServiceImpl.java:246-317 | the checks in order (empty argument, non-positive amount, account, password), each failing with no state change; selection per `getCoinData` with the size of the transaction before it has coin data, plus the script length; not enough gives a balance error; enough spends stored coins of the sender, none more often than stored; otherwise a transaction of the selected inputs, the payment and the change, whose sign, verify, save and broadcast failures are answered in that order; success carries the hash and the state is that of an unconfirmed save |
| AccountLedger.AccountLedgerService.SendAuthorized | account-ledger-module/base/account-ledger-base/src/main/java/io/nuls/account/ledger/base/service/impl/AccountLedgerServiceImpl.java:271-309 | after the checks: the selection at the size before coin data, the balance error when not enough, else the transaction built from the selection and sent |
| AccountLedger.AccountLedgerService.SignAndSend | account-ledger-module/base/account-ledger-base/src/main/java/io/nuls/account/ledger/base/service/impl/AccountLedgerServiceImpl.java:294-309 | sign, verify, unconfirmed save and broadcast failures answered in that order, the first two with no state change; success carries the hash |
| AccountLedger.AccountLedgerService.GetBalance | account-ledger-module/base/account-ledger-base/src/main/java/io/nuls/account/ledger/base/service/impl/AccountLedgerServiceImpl.java:168-184 | null or non-23-byte address is a parameter error; success exactly for a local address with a balance; a 23-byte address that fails is account-not-exist |
| AccountLedger.RemarkBytes | account-ledger-module/base/account-ledger-base/src/main/java/io/nuls/account/ledger/base/service/impl/AccountLedgerServiceImpl.java:272-278 | the transaction has a remark exactly when the given text is not blank |
| LedgerResource.GetBalance | account-ledger-module/base/account-ledger-rpc/src/main/java/io/nuls/accout/ledger/rpc/AccountLedgerResource.java:80-105 | undecodable or wrong-length address is a parameter error; a service exception or null answer is an unknown error; otherwise the service's answer |
| LedgerResource.BalanceEndpointOverService | account-ledger-module/base/account-ledger-rpc/src/main/java/io/nuls/accout/ledger/rpc/AccountLedgerResource.java:80-105 | over the modelled service, success exactly for a decodable local 23-byte address with a balance; a decodable 23-byte address that fails is account-not-exist; every failure is a parameter or account error |
| LedgerResource.TransferGate | account-ledger-module/base/account-ledger-rpc/src/main/java/io/nuls/accout/ledger/rpc/AccountLedgerResource.java:114-136 | null form, bad sender, bad receiver, non-positive amount are rejected in that order, a non-positive amount between valid addresses as a parameter error; otherwise the decoded arguments are forwarded |
| LedgerResource.ForwardedAmountPassesService | account-ledger-module/base/account-ledger-rpc/src/main/java/io/nuls/accout/ledger/rpc/AccountLedgerResource.java:128-135 | what the gate forwards passes the service's amount check |
| LedgerResource.Wrap32 | account-ledger-module/base/account-ledger-rpc/src/main/java/io/nuls/accout/ledger/rpc/AccountLedgerResource.java:178 | Java `int` arithmetic: congruent modulo 2^32, identity in range |
| LedgerResource.PageStartAsWritten | account-ledger-module/base/account-ledger-rpc/src/main/java/io/nuls/accout/ledger/rpc/AccountLedgerResource.java:178 | the 32-bit start agrees with `pageNumber * pageSize - pageSize` modulo 2^32 |
| LedgerResource.Defaulted | account-ledger-module/base/account-ledger-rpc/src/main/java/io/nuls/accout/ledger/rpc/AccountLedgerResource.java:151-156 | a null or 0 parameter becomes its default |
| LedgerResource.PageStart | account-ledger-module/base/account-ledger-rpc/src/main/java/io/nuls/accout/ledger/rpc/AccountLedgerResource.java:178 | the page starts after the items of the earlier pages and is never negative |
| LedgerResource.PageStartOverflows | account-ledger-module/base/account-ledger-rpc/src/main/java/io/nuls/accout/ledger/rpc/AccountLedgerResource.java:157-178 | accepted parameters for which the 32-bit start is negative |
| LedgerResource.PageStartWrapsSilently | account-ledger-module/base/account-ledger-rpc/src/main/java/io/nuls/accout/ledger/rpc/AccountLedgerResource.java:157-196 | accepted parameters for which the 32-bit start wraps to 4, a wrong non-negative offset the source pages from, while the intended start is past the end and the model's page has no list |
| LedgerResource.PageStartAgrees | account-ledger-module/base/account-ledger-rpc/src/main/java/io/nuls/accout/ledger/rpc/AccountLedgerResource.java:178 | without overflow the 32-bit start is the intended one |
| LedgerResource.PageEnd | account-ledger-module/base/account-ledger-rpc/src/main/java/io/nuls/accout/ledger/rpc/AccountLedgerResource.java:184-187 | the end is the smaller of a full page and the total |
| LedgerResource.GetTxInfoList | account-ledger-module/base/account-ledger-rpc/src/main/java/io/nuls/accout/ledger/rpc/AccountLedgerResource.java:145-198 | the endpoint answers as `TxInfoList` |
| LedgerResource.DtoList | account-ledger-module/base/account-ledger-rpc/src/main/java/io/nuls/accout/ledger/rpc/AccountLedgerResource.java:189-193 | the loop converts exactly the items from start to end, in order |
| LedgerResource.TxInfoList | account-ledger-module/base/account-ledger-rpc/src/main/java/io/nuls/accout/ledger/rpc/AccountLedgerResource.java:145-198 | bad paging or address is a parameter error, a service failure passes its code through, and a page is answered exactly when the parameters and address are good and the service answers |
| LedgerResource.PageOf | account-ledger-module/base/account-ledger-rpc/src/main/java/io/nuls/accout/ledger/rpc/AccountLedgerResource.java:177-197 | the page reports number, size and total; it has no list, and is unsuccessful, exactly when it starts past the end; otherwise its list is the converted items from `(n - 1) * size` on, `size` of them or as many as are left |
| LedgerResource.ItemOnItsPage | account-ledger-module/base/account-ledger-rpc/src/main/java/io/nuls/accout/ledger/rpc/AccountLedgerResource.java:177-197 | every item appears on page `i / size + 1` at position `i % size` |

## Left out

- `importAccountLedger`, the service's `getTxInfoList` and the sorting comparators are not part of this model. Only the one-address save that the import uses is modelled.
- Paging calls the service's history through a parameter. `TransactionInfoDto` conversion is a parameter too.
- Collaborators are parameters:
  - the account service and password check;
  - the coin comparator, fee calculator, clock and best height;
  - Base58, `Address.validAddress` and `AddressTool`;
  - the transaction digest, size and related-address computation;
  - signing, verification and broadcast.

  Their nulls and exceptions are the error values of those parameters.
- `NulsConstant` and `TransactionFeeCalculator` are not part of this model. The height/time divide is a named constant whose value no proof depends on; the fee is a parameter.
- Concurrency is not modelled. The service is a single-threaded object.
- `Na` overflow in the sums of `getCoinData` is not modelled; amounts are unbounded integers.
- A null transaction is not modelled. Every transaction value has a hash and a list of relatives. A null coin data is modelled.
- Coins.Serialize: the writer for a null owner is not part of this model. A null owner is serialised as an empty length-prefixed byte string.
- Coins.Parse: `NulsByteBuffer.readUint48` is not part of this model. The model assumes it reads the six bytes as an unsigned number, so a written lock time comes back as its low 48 bits. Under that assumption the locked lock time -1 does not survive a round trip, as `ParseSerializeLockTimeLowBits` states.
- LocalAccounts.Related: the unreachable `continue` in `getRelatedAddresses` is followed as written. A candidate listed twice adds the source address twice.
- AccountLedger.AccountLedgerService.UnlockCoinData: the output coins of a `CoinData` are a sequence field of the class, reassigned whole. Aliasing of individual `Coin` objects shared with other lists is not modelled.
- AccountLedger.AccountLedgerService.RollbackUnlockTxCoinData: this works on whatever outputs the transaction object holds. After `unlockCoinData` on the same object it writes nothing, as the source does.
- AccountLedger.AccountLedgerService.Transfer:
  - `IOException` from hash serialisation and exceptions from the remark encoding are not modelled;
  - the `setData(0)` of a failed save is not carried into the string-typed answer;
  - the result only says which failures are answered, not the exception messages;
  - an empty `from`, `to`, amount or password makes `AssertUtil.canNotEmpty` throw a runtime exception that the two `catch` clauses do not handle, so it leaves `transfer`; the model answers it as the null-parameter failure instead.
- AccountLedger.Blank: `StringUtils.isBlank` is not part of this model. Blank means only ASCII whitespace.
- LedgerResource.TxInfoList:
  - `new Result<>()` is assumed to start unsuccessful, so a page past the end is answered with success false and a page without a list;
  - the page-count fields of `Page` are not modelled.
- LedgerResource.GetTxInfoList: the model pages from the intended start `(pageNumber - 1) * pageSize`, as the finding below explains. Where the 32-bit arithmetic wraps, the source's start is either negative, and `get(i)` at line 191 throws, or a wrong non-negative offset, and the source answers a wrong page as success or a page past the end. The model answers the page at the intended start instead.
- `MultipleTxToDto` and the other context files are not part of this model.

## Findings

| source | as written | input that shows it | evidently intended | confidence | as-written member | corrected member |
|---|---|---|---|---|---|---|
| account-ledger-module/base/account-ledger-rpc/src/main/java/io/nuls/accout/ledger/rpc/AccountLedgerResource.java:178 | `int start = pageNumber * pageSize - pageSize` in 32-bit arithmetic after the checks at 157 | pageNumber = 21474838, pageSize = 100 passes the checks; the start wraps to -2147483596, so `get(i)` at 191 is called with a negative index. pageNumber = 42949674, pageSize = 100 passes too; the start wraps to 4, so with five or more items the loop at 190-192 copies items from 4 on and 195-196 answer success with that wrong page | the start of the page, `(pageNumber - 1) * pageSize`, without overflow, so that a page past the end is empty | not executed | LedgerResource.PageStartOverflows and LedgerResource.PageStartWrapsSilently (over LedgerResource.PageStartAsWritten) | LedgerResource.PageStart, used by LedgerResource.GetTxInfoList |
