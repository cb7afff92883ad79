/** What the save, rollback, batch and unlock operations of the account ledger guarantee. */
module LedgerLaws {
  import opened Wrappers
  import opened Kernel
  import opened Codec
  import opened Coins
  import opened Transactions
  import opened LedgerStorage
  import opened LocalAccounts
  import opened LedgerSpec

  // ---- saveTransaction ----

  /** A transaction with no local address is refused with failed/0 and nothing is written or refreshed. */
  lemma SaveNonLocalChangesNothing(l: Ledger, tx: Transaction, status: TxStatus)
    requires !IsLocalTransaction(tx, l.accounts)
    ensures SaveTransaction(l, tx, status) == Step(l, FailedZero)
  {
    LocalIffRelated(tx, l.accounts);
  }

  /** A failed info write is returned as is: the raw transaction and the pool are never written. */
  lemma SaveInfoFailure(l: Ledger, tx: Transaction, status: TxStatus)
    requires IsLocalTransaction(tx, l.accounts)
    requires !Succeeds(l.store, Call(InfoSave, tx.hash))
    ensures var st := SaveTransaction(l, tx, status);
      && st.result == Failure(StorageFailure, None)
      && st.ledger == l.(store := l.store.(log := l.store.log + [Attempt(Call(InfoSave, tx.hash), false)]))
  {
    LocalIffRelated(tx, l.accounts);
  }

  /**
   * A failed raw write after a good info write: the info record is deleted again (when that
   * delete goes through), the raw record is untouched, the addresses are refreshed anyway, and
   * an unconfirmed save answers with the pool write's result instead of the failure.
   */
  lemma SaveRawFailure(l: Ledger, tx: Transaction, status: TxStatus)
    requires IsLocalTransaction(tx, l.accounts)
    requires Succeeds(l.store, Call(InfoSave, tx.hash)) && !Succeeds(l.store, Call(TxSave, tx.hash))
    ensures var st := SaveTransaction(l, tx, status);
      var s := st.ledger.store;
      var pooled := Succeeds(l.store, Call(TempSave, tx.hash));
      && s.txs == l.store.txs
      && (Succeeds(l.store, Call(InfoDelete, tx.hash)) ==> s.infos == l.store.infos - {tx.hash})
      && s.temps == (if status == Unconfirmed && pooled then l.store.temps[tx.hash := tx] else l.store.temps)
      && st.result == (if status == Unconfirmed then StoreResult(pooled) else Failure(StorageFailure, None))
      && st.ledger.refreshed == l.refreshed + RelatedAddresses(tx, l.accounts)
  {
    SaveRawFailureSteps(l, tx, status);
  }

  /** The calls of a save whose raw write fails: info save, raw save, info delete, then the pool. */
  lemma SaveRawFailureCallOrder(l: Ledger, tx: Transaction, status: TxStatus)
    requires IsLocalTransaction(tx, l.accounts)
    requires Succeeds(l.store, Call(InfoSave, tx.hash)) && !Succeeds(l.store, Call(TxSave, tx.hash))
    ensures SaveTransaction(l, tx, status).ledger.store.log == l.store.log
      + [Attempt(Call(InfoSave, tx.hash), true), Attempt(Call(TxSave, tx.hash), false),
         Attempt(Call(InfoDelete, tx.hash), Succeeds(l.store, Call(InfoDelete, tx.hash)))]
      + (if status == Unconfirmed then [Attempt(Call(TempSave, tx.hash), Succeeds(l.store, Call(TempSave, tx.hash)))] else [])
  {
    SaveRawFailureSteps(l, tx, status);
  }

  /** The save whose raw write fails, written out call by call. */
  lemma SaveRawFailureSteps(l: Ledger, tx: Transaction, status: TxStatus)
    requires IsLocalTransaction(tx, l.accounts)
    requires Succeeds(l.store, Call(InfoSave, tx.hash)) && !Succeeds(l.store, Call(TxSave, tx.hash))
    ensures var addresses := RelatedAddresses(tx, l.accounts);
      var w1 := SaveLocalTxInfo(l.store, tx.hash, status, addresses);
      var w2 := SaveLocalTx(w1.store, tx);
      var w3 := DeleteLocalTxInfo(w2.store, tx.hash);
      var w4 := if status == Unconfirmed then SaveTempTx(w3.store, tx) else Written(w3.store, w2.result);
      SaveTransaction(l, tx, status) == Step(Ledger(l.accounts, w4.store, l.refreshed + addresses), w4.result)
  {
    LocalIffRelated(tx, l.accounts);
  }

  /** Without store failures the save writes the info record, the raw record and, if unconfirmed, the pool. */
  lemma SaveSuccess(l: Ledger, tx: Transaction, status: TxStatus)
    requires IsLocalTransaction(tx, l.accounts)
    requires Succeeds(l.store, Call(InfoSave, tx.hash)) && Succeeds(l.store, Call(TxSave, tx.hash))
    requires status == Unconfirmed ==> Succeeds(l.store, Call(TempSave, tx.hash))
    ensures var st := SaveTransaction(l, tx, status);
      var s := st.ledger.store;
      && st.result == Success(None)
      && s.infos == l.store.infos[tx.hash := TxInfoRecord(tx.hash, status, RelatedAddresses(tx, l.accounts))]
      && s.txs == l.store.txs[tx.hash := tx]
      && s.temps == (if status == Unconfirmed then l.store.temps[tx.hash := tx] else l.store.temps)
      && s.outputs == l.store.outputs && s.coins == l.store.coins
      && st.ledger.accounts == l.accounts
      && st.ledger.refreshed == l.refreshed + RelatedAddresses(tx, l.accounts)
  {
    LocalIffRelated(tx, l.accounts);
  }

  /** The one-address overload saves only for that address, never touches the pool and refreshes nothing. */
  lemma SaveForOneAddress(l: Ledger, tx: Transaction, address: Bytes, status: TxStatus)
    ensures var st := SaveTransactionFor(l, tx, address, status);
      && st.ledger.refreshed == l.refreshed
      && st.ledger.store.temps == l.store.temps
      && st.ledger.accounts == l.accounts
      && (address !in tx.relatives ==> st == Step(l, FailedZero))
      && (address in tx.relatives && Succeeds(l.store, Call(InfoSave, tx.hash))
            && Succeeds(l.store, Call(TxSave, tx.hash)) ==>
            && tx.hash in st.ledger.store.infos
            && st.ledger.store.infos[tx.hash].addresses == RelatedAddressesAmong(tx, Some([address]))
            && st.result == Success(None)
            && forall a :: a in st.ledger.store.infos[tx.hash].addresses ==> a == address)
  {
    var related := RelatedAddressesAmong(tx, Some([address]));
    if address in tx.relatives {
      assert address in related;
    }
    if |related| > 0 {
      assert related[0] in related;
    }
  }

  // ---- rollback ----

  /** rollback of a transaction with no local address deletes nothing and answers failed/0. */
  lemma RollbackNonLocal(l: Ledger, tx: Transaction)
    requires !IsLocalTransaction(tx, l.accounts)
    ensures Rollback(l, tx) == Step(l, FailedZero)
  {
  }

  /** A failed info delete is returned at once: the raw record stays. */
  lemma RollbackInfoDeleteFailure(l: Ledger, tx: Transaction)
    requires IsLocalTransaction(tx, l.accounts) && !Succeeds(l.store, Call(InfoDelete, tx.hash))
    ensures var st := Rollback(l, tx);
      && st.result == Failure(StorageFailure, None)
      && st.ledger.store.txs == l.store.txs && st.ledger.store.infos == l.store.infos
  {
  }

  /** Rolling back a confirmed save, without store failures, removes exactly what the save added. */
  lemma SaveThenRollback(l: Ledger, tx: Transaction)
    requires IsLocalTransaction(tx, l.accounts)
    requires forall k :: k in {InfoSave, TxSave, InfoDelete, TxDelete} ==> Succeeds(l.store, Call(k, tx.hash))
    ensures var st := Rollback(SaveTransaction(l, tx, Confirmed).ledger, tx);
      && st.result == Success(None)
      && st.ledger.store.infos == l.store.infos - {tx.hash}
      && st.ledger.store.txs == l.store.txs - {tx.hash}
      && (tx.hash !in l.store.infos && tx.hash !in l.store.txs ==>
            st.ledger.store.infos == l.store.infos && st.ledger.store.txs == l.store.txs)
  {
    assert InfoSave in {InfoSave, TxSave, InfoDelete, TxDelete};
    assert TxSave in {InfoSave, TxSave, InfoDelete, TxDelete};
    assert InfoDelete in {InfoSave, TxSave, InfoDelete, TxDelete};
    assert TxDelete in {InfoSave, TxSave, InfoDelete, TxDelete};
    SaveSuccess(l, tx, Confirmed);
  }

  /** Rollback only ever deletes records: whatever remains was there before, unchanged. */
  lemma {:induction false} RollbackEachOnlyDeletes(l: Ledger, txs: seq<Transaction>)
    ensures var r := RollbackEach(l, txs);
      && r.accounts == l.accounts && r.refreshed == l.refreshed
      && r.store.faults == l.store.faults && r.store.temps == l.store.temps
      && (forall h :: h in r.store.infos ==> h in l.store.infos && r.store.infos[h] == l.store.infos[h])
      && (forall h :: h in r.store.txs ==> h in l.store.txs && r.store.txs[h] == l.store.txs[h])
    decreases |txs|
  {
    if |txs| > 0 {
      RollbackEachOnlyDeletes(Rollback(l, txs[0]).ledger, txs[1..]);
    }
  }

  /** rollback(list, check) answers success with the size of the list it walked, whatever each item did. */
  lemma RollbackListCount(l: Ledger, txs: seq<Transaction>, check: bool)
    ensures RollbackList(l, txs, check).result
         == Success(Some(if check then |GetLocalTransaction(txs, l.accounts)| else |txs|))
  {
  }

  // ---- saveConfirmedTransactionList ----

  /** The ledger after saving the first `k` items one after another. */
  function SavedPrefix(l: Ledger, txs: seq<Transaction>, k: nat): Ledger
    requires k <= |txs|
  {
    if k == 0 then l else SaveTransaction(SavedPrefix(l, txs, k - 1), txs[k - 1], Confirmed).ledger
  }

  /** The save of item `k`, made after items 0..k-1. */
  function SaveOfItem(l: Ledger, txs: seq<Transaction>, k: nat): Step
    requires k < |txs|
  {
    SaveTransaction(SavedPrefix(l, txs, k), txs[k], Confirmed)
  }

  /** Items 0..k-1 all saved successfully. */
  predicate SavedUpTo(l: Ledger, txs: seq<Transaction>, k: nat)
    requires k <= |txs|
  {
    forall j :: 0 <= j < k ==> SaveOfItem(l, txs, j).result.Success?
  }

  /** Item `k` is the first whose save fails. */
  predicate FirstFailureAt(l: Ledger, txs: seq<Transaction>, k: nat) {
    k < |txs| && SavedUpTo(l, txs, k) && SaveOfItem(l, txs, k).result.Failure?
  }

  lemma SavedUpToNext(l: Ledger, txs: seq<Transaction>, i: nat)
    requires i < |txs| && SavedUpTo(l, txs, i) && SaveOfItem(l, txs, i).result.Success?
    ensures SavedUpTo(l, txs, i + 1)
    ensures SavedPrefix(l, txs, i + 1) == SaveOfItem(l, txs, i).ledger
  {
  }

  lemma SaveBatchUnfold(l: Ledger, txs: seq<Transaction>, i: nat)
    requires i < |txs|
    ensures var st := SaveTransaction(l, txs[i], Confirmed);
      SaveBatch(l, txs, i)
      == if st.result.Success? then SaveBatch(st.ledger, txs, i + 1)
         else Step(RollbackList(st.ledger, txs[..i], false).ledger, st.result)
  {
  }

  /** The batch from item `i` on, after items 0..i-1 saved: `k` is where it stops. */
  lemma {:induction false} SaveBatchFrom(l: Ledger, txs: seq<Transaction>, i: nat) returns (k: nat)
    requires i <= |txs| && SavedUpTo(l, txs, i)
    ensures i <= k <= |txs| && SavedUpTo(l, txs, k)
    ensures k < |txs| ==> SaveOfItem(l, txs, k).result.Failure?
    ensures SaveBatch(SavedPrefix(l, txs, i), txs, i)
         == if k == |txs| then Step(SavedPrefix(l, txs, |txs|), Success(Some(|txs|)))
            else Step(RollbackList(SaveOfItem(l, txs, k).ledger, txs[..k], false).ledger, SaveOfItem(l, txs, k).result)
    decreases |txs| - i
  {
    if i == |txs| {
      k := i;
    } else {
      SaveBatchUnfold(SavedPrefix(l, txs, i), txs, i);
      if SaveOfItem(l, txs, i).result.Success? {
        SavedUpToNext(l, txs, i);
        k := SaveBatchFrom(l, txs, i + 1);
      } else {
        k := i;
      }
    }
  }

  /**
   * saveConfirmedTransactionList either saves every item and answers with their number, or
   * stops at the first failing item k, rolls back items 0..k-1 in save order without the
   * ownership filter, and answers with item k's failure.
   */
  lemma BatchOutcome(l: Ledger, txs: seq<Transaction>)
    ensures var st := SaveBatch(l, txs, 0);
      || (SavedUpTo(l, txs, |txs|) && st == Step(SavedPrefix(l, txs, |txs|), Success(Some(|txs|))))
      || (exists k :: 0 <= k < |txs| && FirstFailureAt(l, txs, k)
            && st == Step(RollbackList(SaveOfItem(l, txs, k).ledger, txs[..k], false).ledger,
                          SaveOfItem(l, txs, k).result))
  {
    var k := SaveBatchFrom(l, txs, 0);
    if k < |txs| {
      assert FirstFailureAt(l, txs, k);
    }
  }

  /** The batch answers success exactly when every item saved. */
  lemma BatchSuccessIffAllSaved(l: Ledger, txs: seq<Transaction>)
    ensures SaveBatch(l, txs, 0).result.Success? <==> SavedUpTo(l, txs, |txs|)
    ensures SaveBatch(l, txs, 0).result.Success? ==> SaveBatch(l, txs, 0).result == Success(Some(|txs|))
  {
    var k := SaveBatchFrom(l, txs, 0);
    if k < |txs| {
      assert !SavedUpTo(l, txs, |txs|);
    }
  }

  // ---- unlockCoinData and rollbackUnlockTxCoinData ----

  /** Unlocking changes only the outputs with the sentinel, sets them to 0, and leaves none behind. */
  lemma UnlockedChangesOnlyLocked(to: seq<Coin>)
    ensures |Unlocked(to)| == |to|
    ensures forall j :: 0 <= j < |to| && to[j].lockTime == LockedSentinel ==> Unlocked(to)[j] == to[j].(lockTime := 0)
    ensures forall j :: 0 <= j < |to| && to[j].lockTime != LockedSentinel ==> Unlocked(to)[j] == to[j]
    ensures forall j :: 0 <= j < |to| ==> Unlocked(to)[j].lockTime != LockedSentinel
    ensures Unlocked(Unlocked(to)) == Unlocked(to)
  {
  }

  /** `x` is the write the loop makes for output `j`, which holds the sentinel. */
  predicate IsWriteOf(to: seq<Coin>, txHash: Bytes, j: nat, unlock: bool, x: (Bytes, Bytes))
    requires j < |to|
  {
    to[j].lockTime == LockedSentinel
    && x == (OutputKey(to[j], txHash, j), Serialize(if unlock then UnlockCoin(to[j]) else to[j]))
  }

  /** The writes are exactly one per sentinel output, under owner‖hash‖VarInt(index). */
  lemma {:induction false} OutputWritesAreTheLockedOutputs(to: seq<Coin>, txHash: Bytes, i: nat, unlock: bool)
    requires i <= |to|
    ensures forall x :: x in OutputWrites(to, txHash, i, unlock) ==>
      exists j :: i <= j < |to| && IsWriteOf(to, txHash, j, unlock, x)
    ensures forall j :: i <= j < |to| && to[j].lockTime == LockedSentinel ==>
      (OutputKey(to[j], txHash, j), Serialize(if unlock then UnlockCoin(to[j]) else to[j]))
        in OutputWrites(to, txHash, i, unlock)
    decreases |to| - i
  {
    if i < |to| {
      OutputWritesAreTheLockedOutputs(to, txHash, i + 1, unlock);
      var rest := OutputWrites(to, txHash, i + 1, unlock);
      forall x | x in OutputWrites(to, txHash, i, unlock)
        ensures exists j :: i <= j < |to| && IsWriteOf(to, txHash, j, unlock, x)
      {
        if x !in rest {
          assert IsWriteOf(to, txHash, i, unlock, x);
        }
      }
    }
  }

  /**
   * `u` and `v` are the writes unlock and relock make for output `j`, which holds the sentinel:
   * the same key, the coin with lock time 0 for unlock and the coin as it is for relock.
   */
  predicate WritePair(to: seq<Coin>, txHash: Bytes, j: nat, u: (Bytes, Bytes), v: (Bytes, Bytes))
    requires j < |to|
  {
    && to[j].lockTime == LockedSentinel
    && u == (OutputKey(to[j], txHash, j), Serialize(to[j].(lockTime := 0)))
    && v == (OutputKey(to[j], txHash, j), Serialize(to[j]))
  }

  /** `u` and `v` are the pair of writes made for some sentinel output from index `lo` on. */
  predicate Paired(to: seq<Coin>, txHash: Bytes, lo: nat, u: (Bytes, Bytes), v: (Bytes, Bytes)) {
    exists j :: lo <= j < |to| && WritePair(to, txHash, j, u, v)
  }

  /** Position by position, the writes `u` and `v` are the pair made for some sentinel output from `lo` on. */
  predicate AllPaired(to: seq<Coin>, txHash: Bytes, lo: nat, u: seq<(Bytes, Bytes)>, v: seq<(Bytes, Bytes)>) {
    && |u| == |v|
    && forall n :: 0 <= n < |u| ==> Paired(to, txHash, lo, u[n], v[n])
  }

  /** The write the loop makes for output `i` alone: one for a sentinel, none otherwise. */
  function HeadWrite(to: seq<Coin>, txHash: Bytes, i: nat, unlock: bool): seq<(Bytes, Bytes)>
    requires i < |to|
  {
    if to[i].lockTime == LockedSentinel
    then [(OutputKey(to[i], txHash, i), Serialize(if unlock then UnlockCoin(to[i]) else to[i]))]
    else []
  }

  /** The outputs written for unlocking hold lock time 0; those written for rollback keep the sentinel. */
  lemma {:induction false} OutputWriteValues(to: seq<Coin>, txHash: Bytes, i: nat)
    requires i <= |to|
    ensures |OutputWrites(to, txHash, i, true)| == |OutputWrites(to, txHash, i, false)|
    ensures forall n :: 0 <= n < |OutputWrites(to, txHash, i, true)| ==>
      OutputWrites(to, txHash, i, true)[n].0 == OutputWrites(to, txHash, i, false)[n].0
    ensures AllPaired(to, txHash, i, OutputWrites(to, txHash, i, true), OutputWrites(to, txHash, i, false))
    decreases |to| - i
  {
    if i < |to| {
      OutputWriteValues(to, txHash, i + 1);
      assert OutputWrites(to, txHash, i, true) == HeadWrite(to, txHash, i, true) + OutputWrites(to, txHash, i + 1, true);
      assert OutputWrites(to, txHash, i, false) == HeadWrite(to, txHash, i, false) + OutputWrites(to, txHash, i + 1, false);
      var h1, h2 := HeadWrite(to, txHash, i, true), HeadWrite(to, txHash, i, false);
      if to[i].lockTime == LockedSentinel {
        assert WritePair(to, txHash, i, h1[0], h2[0]);
      }
      PairedStep(to, txHash, i, h1, h2, OutputWrites(to, txHash, i + 1, true), OutputWrites(to, txHash, i + 1, false));
    }
  }

  /** Putting output `i`'s pair, if any, in front of writes paired from `i + 1` on keeps them paired from `i` on. */
  lemma PairedStep(to: seq<Coin>, txHash: Bytes, i: nat, h1: seq<(Bytes, Bytes)>, h2: seq<(Bytes, Bytes)>,
                   u1: seq<(Bytes, Bytes)>, v1: seq<(Bytes, Bytes)>)
    requires i < |to| && AllPaired(to, txHash, i + 1, u1, v1)
    requires |h1| == |h2| <= 1 && (|h1| == 1 ==> WritePair(to, txHash, i, h1[0], h2[0]))
    ensures AllPaired(to, txHash, i, h1 + u1, h2 + v1)
  {
    forall n | 0 <= n < |h1 + u1|
      ensures Paired(to, txHash, i, (h1 + u1)[n], (h2 + v1)[n])
    {
      if n < |h1| {
        assert WritePair(to, txHash, i, (h1 + u1)[n], (h2 + v1)[n]);
      } else {
        PairedFromLater(to, txHash, i, u1[n - |h1|], v1[n - |h1|]);
      }
    }
  }

  /** A pair made for an output after `i` is one made from `i` on. */
  lemma PairedFromLater(to: seq<Coin>, txHash: Bytes, i: nat, u: (Bytes, Bytes), v: (Bytes, Bytes))
    requires Paired(to, txHash, i + 1, u, v)
    ensures Paired(to, txHash, i, u, v)
  {
    var j :| i + 1 <= j < |to| && WritePair(to, txHash, j, u, v);
    assert i <= j;
  }

  /** Rollback-unlock on outputs that were already unlocked in place finds no sentinel and writes nothing. */
  lemma {:induction false} RollbackUnlockAfterUnlockWritesNothing(to: seq<Coin>, txHash: Bytes, i: nat)
    requires i <= |to|
    ensures OutputWrites(Unlocked(to), txHash, i, false) == []
    decreases |to| - i
  {
    if i < |to| {
      RollbackUnlockAfterUnlockWritesNothing(to, txHash, i + 1);
      assert Unlocked(to)[i].lockTime != LockedSentinel;
    }
  }

  // ---- output writes against the store ----

  /** The keys a list of output writes writes to. */
  function WriteKeys(writes: seq<(Bytes, Bytes)>): set<Bytes> {
    set n | 0 <= n < |writes| :: writes[n].0
  }

  /** The outputs map after `writes`, none of them failing. */
  function Overlay(m: map<Bytes, Bytes>, writes: seq<(Bytes, Bytes)>): map<Bytes, Bytes>
    decreases |writes|
  {
    if |writes| == 0 then m else Overlay(m[writes[0].0 := writes[0].1], writes[1..])
  }

  /** No output write can fail. */
  predicate OutputWritesSucceed(s: Store) {
    forall c :: c in s.faults ==> c.kind != OutputSave
  }

  lemma {:induction false} ApplyWritesIsOverlay(s: Store, writes: seq<(Bytes, Bytes)>)
    requires OutputWritesSucceed(s)
    ensures ApplyWrites(s, writes).outputs == Overlay(s.outputs, writes)
    ensures ApplyWrites(s, writes).faults == s.faults
    decreases |writes|
  {
    if |writes| > 0 {
      ApplyWritesIsOverlay(SaveOutput(s, writes[0].0, writes[0].1).store, writes[1..]);
    }
  }

  /** Maps that agree away from the written keys agree after the writes. */
  lemma {:induction false} OverlayAgree(m1: map<Bytes, Bytes>, m2: map<Bytes, Bytes>, writes: seq<(Bytes, Bytes)>)
    requires forall k :: k !in WriteKeys(writes) ==> (k in m1 <==> k in m2) && (k in m1 ==> m1[k] == m2[k])
    ensures Overlay(m1, writes) == Overlay(m2, writes)
    decreases |writes|
  {
    if |writes| == 0 {
      assert m1.Keys == m2.Keys;
    } else {
      var rest := writes[1..];
      forall k | k !in WriteKeys(rest)
        ensures var a, b := m1[writes[0].0 := writes[0].1], m2[writes[0].0 := writes[0].1];
          (k in a <==> k in b) && (k in a ==> a[k] == b[k])
      {
        if k != writes[0].0 {
          assert k !in WriteKeys(writes);
        }
      }
      OverlayAgree(m1[writes[0].0 := writes[0].1], m2[writes[0].0 := writes[0].1], rest);
    }
  }

  /** Away from the written keys the writes change nothing. */
  lemma {:induction false} OverlayOutside(m: map<Bytes, Bytes>, writes: seq<(Bytes, Bytes)>)
    ensures forall k :: k !in WriteKeys(writes) ==>
      (k in Overlay(m, writes) <==> k in m) && (k in m ==> Overlay(m, writes)[k] == m[k])
    decreases |writes|
  {
    if |writes| > 0 {
      var rest := writes[1..];
      OverlayOutside(m[writes[0].0 := writes[0].1], rest);
      assert forall k :: k !in WriteKeys(writes) ==> k !in WriteKeys(rest) && k != writes[0].0;
    }
  }

  /**
   * rollbackUnlockTxCoinData, run on the original outputs after unlockCoinData, leaves the
   * output records exactly as rollback-unlock alone would: it rewrites every key the unlock wrote.
   */
  lemma RelockOverwritesUnlock(s: Store, to: seq<Coin>, txHash: Bytes)
    requires OutputWritesSucceed(s)
    ensures var unlockW, relockW := OutputWrites(to, txHash, 0, true), OutputWrites(to, txHash, 0, false);
      ApplyWrites(ApplyWrites(s, unlockW), relockW).outputs == ApplyWrites(s, relockW).outputs
  {
    var unlockW, relockW := OutputWrites(to, txHash, 0, true), OutputWrites(to, txHash, 0, false);
    OutputWriteValues(to, txHash, 0);
    assert WriteKeys(unlockW) == WriteKeys(relockW) by {
      forall k | k in WriteKeys(unlockW) ensures k in WriteKeys(relockW) {
        var n :| 0 <= n < |unlockW| && unlockW[n].0 == k;
        assert relockW[n].0 == k;
      }
      forall k | k in WriteKeys(relockW) ensures k in WriteKeys(unlockW) {
        var n :| 0 <= n < |relockW| && relockW[n].0 == k;
        assert unlockW[n].0 == k;
      }
    }
    ApplyWritesIsOverlay(s, unlockW);
    var s1 := ApplyWrites(s, unlockW);
    ApplyWritesIsOverlay(s1, relockW);
    ApplyWritesIsOverlay(s, relockW);
    OverlayOutside(s.outputs, unlockW);
    OverlayAgree(s1.outputs, s.outputs, relockW);
  }

  /** When the store already holds the locked outputs, unlocking and then relocking restores it. */
  lemma UnlockThenRelockRestores(s: Store, to: seq<Coin>, txHash: Bytes)
    requires OutputWritesSucceed(s)
    requires ApplyWrites(s, OutputWrites(to, txHash, 0, false)).outputs == s.outputs
    ensures ApplyWrites(ApplyWrites(s, OutputWrites(to, txHash, 0, true)), OutputWrites(to, txHash, 0, false)).outputs
         == s.outputs
  {
    RelockOverwritesUnlock(s, to, txHash);
  }

  // ---- a failed batch leaves the records as they were ----

  /** The hashes of a list of transactions. */
  function Hashes(txs: seq<Transaction>): set<Bytes> {
    set n | 0 <= n < |txs| :: txs[n].hash
  }

  /** Two maps agree on every key outside `keys`. */
  ghost predicate SameOutside<V>(m1: map<Bytes, V>, m2: map<Bytes, V>, keys: set<Bytes>) {
    forall k :: k !in keys ==> (k in m1 <==> k in m2) && (k in m1 ==> m1[k] == m2[k])
  }

  /** No delete of an info record or a raw record can fail. */
  predicate DeletesSucceed(s: Store) {
    forall c :: c in s.faults ==> c.kind != InfoDelete && c.kind != TxDelete
  }

  /**
   * A confirmed save touches the records of its own hash only, and when it fails without a
   * failing delete, a hash that had no records still has none.
   */
  lemma ConfirmedSaveFrame(l: Ledger, tx: Transaction)
    ensures var st := SaveTransaction(l, tx, Confirmed);
      && Framed(l, st.ledger, {tx.hash})
      && (st.result.Failure? && DeletesSucceed(l.store) && tx.hash !in l.store.infos && tx.hash !in l.store.txs ==>
            tx.hash !in st.ledger.store.infos && tx.hash !in st.ledger.store.txs)
  {
    var addresses := RelatedAddresses(tx, l.accounts);
    if |addresses| > 0 && Succeeds(l.store, Call(InfoSave, tx.hash)) {
      var w1 := SaveLocalTxInfo(l.store, tx.hash, Confirmed, addresses);
      var w2 := SaveLocalTx(w1.store, tx);
      if w2.result.Failure? {
        assert SaveTransaction(l, tx, Confirmed).ledger.store == DeleteLocalTxInfo(w2.store, tx.hash).store;
      }
    }
  }

  /** With no failing deletes, rolling back local transactions removes exactly their records. */
  lemma {:induction false} RollbackEachRemoves(l: Ledger, txs: seq<Transaction>)
    requires DeletesSucceed(l.store)
    requires forall n :: 0 <= n < |txs| ==> IsLocalTransaction(txs[n], l.accounts)
    ensures var r := RollbackEach(l, txs);
      && r.store.infos == l.store.infos - Hashes(txs)
      && r.store.txs == l.store.txs - Hashes(txs)
    decreases |txs|
  {
    if |txs| == 0 {
      assert Hashes(txs) == {};
    } else {
      var next := Rollback(l, txs[0]).ledger;
      assert next.store.infos == l.store.infos - {txs[0].hash};
      assert next.store.txs == l.store.txs - {txs[0].hash};
      RollbackEachRemoves(next, txs[1..]);
      assert Hashes(txs) == {txs[0].hash} + Hashes(txs[1..]) by {
        forall h | h in Hashes(txs) ensures h in {txs[0].hash} + Hashes(txs[1..]) {
          var n :| 0 <= n < |txs| && txs[n].hash == h;
          if n > 0 {
            assert txs[1..][n - 1].hash == h;
          }
        }
      }
    }
  }

  /** `after` differs from `before` in the info and raw records of `keys` only. */
  ghost predicate Framed(before: Ledger, after: Ledger, keys: set<Bytes>) {
    && after.accounts == before.accounts && after.store.faults == before.store.faults
    && SameOutside(after.store.infos, before.store.infos, keys)
    && SameOutside(after.store.txs, before.store.txs, keys)
  }

  lemma FramedTrans(l1: Ledger, l2: Ledger, l3: Ledger, k1: set<Bytes>, k2: set<Bytes>)
    requires Framed(l1, l2, k1) && Framed(l2, l3, k2)
    ensures Framed(l1, l3, k1 + k2)
  {
  }

  lemma HashesSnoc(txs: seq<Transaction>, i: nat)
    requires 0 < i <= |txs|
    ensures Hashes(txs[..i]) == Hashes(txs[..i - 1]) + {txs[i - 1].hash}
  {
    assert txs[..i][i - 1] == txs[i - 1];
    forall n | 0 <= n < i - 1 ensures txs[..i - 1][n] == txs[..i][n] {}
  }

  /** After saving a prefix, the records differ from the start only at the prefix's hashes. */
  lemma {:induction false} SavedPrefixFrame(l: Ledger, txs: seq<Transaction>, i: nat)
    requires i <= |txs|
    ensures Framed(l, SavedPrefix(l, txs, i), Hashes(txs[..i]))
  {
    if i == 0 {
      assert Hashes(txs[..0]) == {};
    } else {
      var q := SavedPrefix(l, txs, i - 1);
      var p := SaveTransaction(q, txs[i - 1], Confirmed).ledger;
      assert p == SavedPrefix(l, txs, i);
      SavedPrefixFrame(l, txs, i - 1);
      assert Framed(l, q, Hashes(txs[..i - 1]));
      ConfirmedSaveFrame(q, txs[i - 1]);
      assert Framed(q, p, {txs[i - 1].hash});
      FramedTrans(l, q, p, Hashes(txs[..i - 1]), {txs[i - 1].hash});
      HashesSnoc(txs, i);
    }
  }

  /** Every item saved before the first failure was a local transaction. */
  lemma SavedItemsAreLocal(l: Ledger, txs: seq<Transaction>, k: nat)
    requires k <= |txs| && SavedUpTo(l, txs, k)
    ensures forall n :: 0 <= n < k ==> IsLocalTransaction(txs[n], l.accounts)
  {
    forall n | 0 <= n < k ensures IsLocalTransaction(txs[n], l.accounts) {
      SavedPrefixFrame(l, txs, n);
      assert SaveOfItem(l, txs, n).result.Success?;
      LocalIffRelated(txs[n], l.accounts);
    }
  }

  /** A failed batch is the rollback, unfiltered, of the items saved before the failing one. */
  lemma BatchFailureIsRollback(l: Ledger, txs: seq<Transaction>, k: nat)
    requires FirstFailureAt(l, txs, k)
    ensures SaveBatch(l, txs, 0) == Step(RollbackEach(SaveOfItem(l, txs, k).ledger, txs[..k]), SaveOfItem(l, txs, k).result)
  {
    var k' := SaveBatchFrom(l, txs, 0);
  }

  /** Up to the failing item, the batch touched only the records of the hashes it saw. */
  lemma FailedItemFrame(l: Ledger, txs: seq<Transaction>, k: nat)
    requires FirstFailureAt(l, txs, k)
    requires DeletesSucceed(l.store)
    requires forall n :: 0 <= n < |txs| ==> txs[n].hash !in l.store.infos && txs[n].hash !in l.store.txs
    ensures var f := SaveOfItem(l, txs, k).ledger;
      && Framed(l, f, Hashes(txs[..k]) + {txs[k].hash})
      && (txs[k].hash !in Hashes(txs[..k]) ==> txs[k].hash !in f.store.infos && txs[k].hash !in f.store.txs)
  {
    var p := SavedPrefix(l, txs, k);
    var f := SaveOfItem(l, txs, k);
    SavedPrefixFrame(l, txs, k);
    assert Framed(l, p, Hashes(txs[..k]));
    ConfirmedSaveFrame(p, txs[k]);
    assert Framed(p, f.ledger, {txs[k].hash});
    FramedTrans(l, p, f.ledger, Hashes(txs[..k]), {txs[k].hash});
  }

  /**
   * A failed batch over transactions new to the store, with no failing delete, leaves the
   * info records and the raw records exactly as they were before the batch.
   */
  lemma BatchFailureRestoresRecords(l: Ledger, txs: seq<Transaction>, k: nat)
    requires FirstFailureAt(l, txs, k)
    requires DeletesSucceed(l.store)
    requires forall n :: 0 <= n < |txs| ==> txs[n].hash !in l.store.infos && txs[n].hash !in l.store.txs
    ensures SaveBatch(l, txs, 0).ledger.store.infos == l.store.infos
    ensures SaveBatch(l, txs, 0).ledger.store.txs == l.store.txs
  {
    BatchFailureIsRollback(l, txs, k);
    FailedItemFrame(l, txs, k);
    SavedItemsAreLocal(l, txs, k);
    HashesOfPrefix(txs, k);
    RollbackUndoesSaves(l, SaveOfItem(l, txs, k).ledger, txs[..k], txs[k].hash);
  }

  lemma HashesOfPrefix(txs: seq<Transaction>, k: nat)
    requires k < |txs|
    ensures forall key :: key in Hashes(txs[..k]) + {txs[k].hash} ==> exists n :: 0 <= n < |txs| && txs[n].hash == key
  {
    forall key | key in Hashes(txs[..k]) + {txs[k].hash} ensures exists n :: 0 <= n < |txs| && txs[n].hash == key {
      if key in Hashes(txs[..k]) {
        var n :| 0 <= n < k && txs[..k][n].hash == key;
        assert txs[n].hash == key;
      }
    }
  }

  /** Rolling back the saved items from the ledger the failing item left restores the records. */
  lemma RollbackUndoesSaves(l: Ledger, f: Ledger, saved: seq<Transaction>, h: Bytes)
    requires Framed(l, f, Hashes(saved) + {h})
    requires h !in Hashes(saved) ==> h !in f.store.infos && h !in f.store.txs
    requires DeletesSucceed(l.store)
    requires forall n :: 0 <= n < |saved| ==> IsLocalTransaction(saved[n], l.accounts)
    requires forall key :: key in Hashes(saved) + {h} ==> key !in l.store.infos && key !in l.store.txs
    ensures RollbackEach(f, saved).store.infos == l.store.infos
    ensures RollbackEach(f, saved).store.txs == l.store.txs
  {
    RollbackEachRemoves(f, saved);
    var r := RollbackEach(f, saved);
    RestoredRecords(l.store.infos, f.store.infos, r.store.infos, Hashes(saved), h);
    RestoredRecords(l.store.txs, f.store.txs, r.store.txs, Hashes(saved), h);
  }

  /** The map argument of the restoration: what the batch touched is new, and is gone again. */
  lemma RestoredRecords<V>(m0: map<Bytes, V>, m1: map<Bytes, V>, m2: map<Bytes, V>, keys: set<Bytes>, h: Bytes)
    requires SameOutside(m1, m0, keys + {h})
    requires h !in keys ==> h !in m1
    requires m2 == m1 - keys
    requires forall key :: key in keys + {h} ==> key !in m0
    ensures m2 == m0
  {
    assert h !in m0;
    assert m2.Keys == m0.Keys;
  }
}
