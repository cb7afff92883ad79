/**
 * The state-changing operations of AccountLedgerServiceImpl as functions of the ledger state:
 * the two-write save with its compensating delete, rollback with its early stop, the batch
 * save that undoes earlier items on the first failure, and the writes of the unlock paths.
 * The methods of AccountLedgerService are proved to follow these functions.
 */
module LedgerSpec {
  import opened Wrappers
  import opened Kernel
  import opened Codec
  import opened Coins
  import opened Transactions
  import opened LedgerStorage
  import opened LocalAccounts

  /** The registry, the store, and the addresses whose balances were refreshed, in order. */
  datatype Ledger = Ledger(accounts: Registry, store: Store, refreshed: seq<Bytes>)

  /** The ledger after an operation, and the Result it returned. */
  datatype Step = Step(ledger: Ledger, result: Response<int>)

  /** `Result.getFailed().setData(0)`: the answer when nothing local is involved. */
  const FailedZero: Response<int> := Failure(Failed, Some(0))

  /** The tail shared by both save overloads: info record, raw transaction, compensating delete. */
  function SaveRecords(s: Store, tx: Transaction, status: TxStatus, addresses: seq<Bytes>): Written {
    var w1 := SaveLocalTxInfo(s, tx.hash, status, addresses);
    if w1.result.Failure? then w1
    else
      var w2 := SaveLocalTx(w1.store, tx);
      if w2.result.Failure? then Written(DeleteLocalTxInfo(w2.store, tx.hash).store, w2.result)
      else w2
  }

  /**
   * saveTransaction(tx, status). Past the info write the temp-pool result replaces the
   * earlier one for an unconfirmed transaction, and every related address is refreshed.
   */
  function SaveTransaction(l: Ledger, tx: Transaction, status: TxStatus): Step {
    var addresses := RelatedAddresses(tx, l.accounts);
    if |addresses| == 0 then Step(l, FailedZero)
    else
      var w := SaveRecords(l.store, tx, status, addresses);
      if !Succeeds(l.store, Call(InfoSave, tx.hash)) then
        Step(l.(store := w.store), w.result)
      else
        var w' := if status == Unconfirmed then SaveTempTx(w.store, tx) else w;
        Step(Ledger(l.accounts, w'.store, l.refreshed + addresses), w'.result)
  }

  /** saveTransaction(tx, address, status): only `address` is a candidate; no pool write, no refresh. */
  function SaveTransactionFor(l: Ledger, tx: Transaction, address: Bytes, status: TxStatus): Step {
    var addresses := RelatedAddressesAmong(tx, Some([address]));
    if |addresses| == 0 then Step(l, FailedZero)
    else
      var w := SaveRecords(l.store, tx, status, addresses);
      Step(l.(store := w.store), w.result)
  }

  /** rollback(tx): a failed info delete stops before the raw record. */
  function Rollback(l: Ledger, tx: Transaction): Step {
    if !IsLocalTransaction(tx, l.accounts) then Step(l, FailedZero)
    else
      var w1 := DeleteLocalTxInfo(l.store, tx.hash);
      if w1.result.Failure? then Step(l.(store := w1.store), w1.result)
      else
        var w2 := DeleteLocalTx(w1.store, tx.hash);
        Step(l.(store := w2.store), w2.result)
  }

  /** The loop of rollback(list, check): each item in order, its result ignored. */
  function RollbackEach(l: Ledger, txs: seq<Transaction>): Ledger
    decreases |txs|
  {
    if |txs| == 0 then l else RollbackEach(Rollback(l, txs[0]).ledger, txs[1..])
  }

  /** rollback(list, check): with `check`, only the local transactions of the list. */
  function RollbackList(l: Ledger, txs: seq<Transaction>, check: bool): Step {
    var list := if check then GetLocalTransaction(txs, l.accounts) else txs;
    Step(RollbackEach(l, list), Success(Some(|list|)))
  }

  /**
   * saveConfirmedTransactionList from item `i` on, with `txs[..i]` saved: on the first
   * failure the saved items are rolled back, unfiltered, and that failure is returned.
   */
  function SaveBatch(l: Ledger, txs: seq<Transaction>, i: nat): Step
    requires i <= |txs|
    decreases |txs| - i
  {
    if i == |txs| then Step(l, Success(Some(i)))
    else
      var st := SaveTransaction(l, txs[i], Confirmed);
      if st.result.Success? then SaveBatch(st.ledger, txs, i + 1)
      else Step(RollbackList(st.ledger, txs[..i], false).ledger, st.result)
  }

  // ---- unlock and rollback-unlock ----

  /** The output key: owner bytes, then the serialized tx hash, then VarInt(index). */
  function OutputKey(c: Coin, txHash: Bytes, i: nat): Bytes {
    OwnerBytes(c) + txHash + EncodeVarInt(i)
  }

  /** The lock-time sentinel the unlock paths look for. */
  const LockedSentinel: int := -1

  /** An output of `to` after unlockCoinData: the sentinel becomes 0, nothing else changes. */
  function UnlockCoin(c: Coin): Coin {
    if c.lockTime == LockedSentinel then c.(lockTime := 0) else c
  }

  /** The output writes of the loop from index `i` on; `unlock` writes the unlocked coin. */
  function OutputWrites(to: seq<Coin>, txHash: Bytes, i: nat, unlock: bool): seq<(Bytes, Bytes)>
    requires i <= |to|
    decreases |to| - i
  {
    if i == |to| then []
    else
      (if to[i].lockTime == LockedSentinel
       then [(OutputKey(to[i], txHash, i), Serialize(if unlock then UnlockCoin(to[i]) else to[i]))]
       else [])
      + OutputWrites(to, txHash, i + 1, unlock)
  }

  /** The outputs after unlockCoinData: the loop's in-place `setLockTime(0)` on each sentinel. */
  function Unlocked(to: seq<Coin>): seq<Coin> {
    seq(|to|, j requires 0 <= j < |to| => UnlockCoin(to[j]))
  }

  /** saveOutPut for each write in order; the results are ignored. */
  function ApplyWrites(s: Store, writes: seq<(Bytes, Bytes)>): Store
    decreases |writes|
  {
    if |writes| == 0 then s else ApplyWrites(SaveOutput(s, writes[0].0, writes[0].1).store, writes[1..])
  }

  /**
   * unlockCoinData and rollbackUnlockTxCoinData on the outputs `to` (None for a null
   * CoinData): failed with 0 when nothing local is involved, else the writes and success.
   */
  function UnlockOutputs(l: Ledger, tx: Transaction, to: Option<seq<Coin>>, unlock: bool): Step {
    if |RelatedAddresses(tx, l.accounts)| == 0 then Step(l, FailedZero)
    else if to.None? then Step(l, Success(None))
    else Step(l.(store := ApplyWrites(l.store, OutputWrites(to.value, tx.hash, 0, unlock))), Success(None))
  }
}
