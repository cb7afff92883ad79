/**
 * AccountLedgerStorageService as an abstract key-value store: transaction-info records,
 * raw transactions, the pool of unconfirmed transactions, output records and the coins per
 * address. A call can fail: the calls listed in `faults` fail and change nothing. Every call
 * is appended to `log`, so the order of writes and deletes is observable.
 */
module LedgerStorage {
  import opened Wrappers
  import opened Kernel
  import opened Coins
  import opened Transactions

  datatype CallKind = InfoSave | InfoDelete | TxSave | TxDelete | TempSave | OutputSave

  /** A storage call by kind and key: a transaction hash, or an output key. */
  datatype Call = Call(kind: CallKind, key: Bytes)

  datatype Attempt = Attempt(call: Call, ok: bool)

  datatype Store = Store(
    infos: map<Bytes, TxInfoRecord>,
    txs: map<Bytes, Transaction>,
    temps: map<Bytes, Transaction>,
    outputs: map<Bytes, Bytes>,
    coins: map<Bytes, seq<Coin>>,
    faults: set<Call>,
    log: seq<Attempt>)

  /** The store after a call, and the Result the call returned. */
  datatype Written = Written(store: Store, result: Response<int>)

  function StoreResult(ok: bool): Response<int> {
    if ok then Success(None) else Failure(StorageFailure, None)
  }

  predicate Succeeds(s: Store, c: Call) {
    c !in s.faults
  }

  function Logged(s: Store, c: Call): Store {
    s.(log := s.log + [Attempt(c, Succeeds(s, c))])
  }

  /** saveLocalTxInfo(po, addresses). */
  function SaveLocalTxInfo(s: Store, txHash: Bytes, status: TxStatus, addresses: seq<Bytes>): Written {
    var c := Call(InfoSave, txHash);
    var ok := Succeeds(s, c);
    Written(Logged(s, c).(infos := if ok then s.infos[txHash := TxInfoRecord(txHash, status, addresses)] else s.infos),
            StoreResult(ok))
  }

  /** deleteLocalTxInfo(po). */
  function DeleteLocalTxInfo(s: Store, txHash: Bytes): Written {
    var c := Call(InfoDelete, txHash);
    var ok := Succeeds(s, c);
    Written(Logged(s, c).(infos := if ok then s.infos - {txHash} else s.infos), StoreResult(ok))
  }

  /** saveLocalTx(tx). */
  function SaveLocalTx(s: Store, tx: Transaction): Written {
    var c := Call(TxSave, tx.hash);
    var ok := Succeeds(s, c);
    Written(Logged(s, c).(txs := if ok then s.txs[tx.hash := tx] else s.txs), StoreResult(ok))
  }

  /** deleteLocalTx(tx). */
  function DeleteLocalTx(s: Store, txHash: Bytes): Written {
    var c := Call(TxDelete, txHash);
    var ok := Succeeds(s, c);
    Written(Logged(s, c).(txs := if ok then s.txs - {txHash} else s.txs), StoreResult(ok))
  }

  /** saveTempTx(tx): the pool that keeps unconfirmed transactions apart. */
  function SaveTempTx(s: Store, tx: Transaction): Written {
    var c := Call(TempSave, tx.hash);
    var ok := Succeeds(s, c);
    Written(Logged(s, c).(temps := if ok then s.temps[tx.hash := tx] else s.temps), StoreResult(ok))
  }

  /** saveOutPut(key, bytes). */
  function SaveOutput(s: Store, key: Bytes, value: Bytes): Written {
    var c := Call(OutputSave, key);
    var ok := Succeeds(s, c);
    Written(Logged(s, c).(outputs := if ok then s.outputs[key := value] else s.outputs), StoreResult(ok))
  }

  /** getCoinBytes(address): the coins stored for an address, none when it has no entry. */
  function CoinsOf(s: Store, address: Bytes): seq<Coin> {
    if address in s.coins then s.coins[address] else []
  }
}
