/**
 * AccountLedgerServiceImpl as a stateful object: the local-account registry it caches, the
 * storage it writes through and the balance refreshes it triggers. Each state-changing method
 * is proved to follow the matching function of LedgerSpec, whose properties LedgerLaws proves.
 */
module AccountLedger {
  import opened Wrappers
  import opened Kernel
  import opened Codec
  import opened Coins
  import opened Transactions
  import opened LedgerStorage
  import opened LocalAccounts
  import opened CoinSelection
  import opened LedgerSpec
  import LedgerLaws

  class AccountLedgerService {
    /** localAccountList, by address; None while the account service returned null. */
    var accounts: Registry
    var store: Store
    /** The addresses passed to balanceProvider.refreshBalance, in call order. */
    var refreshed: seq<Bytes>

    function State(): Ledger
      reads this
    {
      Ledger(accounts, store, refreshed)
    }

    /** afterPropertiesSet, which runs init and so reloadAccount once. */
    constructor (fetched: Registry, store: Store)
      ensures State() == Ledger(fetched, store, [])
    {
      accounts := fetched;
      this.store := store;
      refreshed := [];
    }

    /** reloadAccount: the cached registry becomes whatever the account service returned. */
    method ReloadAccount(fetched: Registry)
      modifies this
      ensures State() == old(State()).(accounts := fetched)
    {
      accounts := fetched;
    }

    /**
     * getCoinData: over the stored coins in comparator order, the greedy pass that stops at
     * the first usable prefix worth the amount plus the fee at the size reached.
     */
    method GetCoinData(address: Bytes, amount: int, size: int, chain: Chain,
                       sortCoins: seq<Coin> -> seq<Coin>, fee: int -> int) returns (r: CoinDataResult)
      requires Permutes(sortCoins)
      ensures CoinsOf(store, address) == [] ==> r == NotEnough
      ensures CoinsOf(store, address) != [] ==>
        Selects(r, UsableCoins(sortCoins(CoinsOf(store, address)), chain), address, amount, size, fee)
      ensures r.enough ==> SpendsStoredCoins(r, CoinsOf(store, address), chain)
    {
      var coinList := CoinsOf(store, address);
      if |coinList| == 0 {
        return NotEnough;
      }
      var sorted := sortCoins(coinList);
      var coins: seq<Coin> := [];
      var values := 0;
      var total := size;
      var i := 0;
      while i < |sorted|
        invariant 0 <= i <= |sorted|
        invariant coins == UsableCoins(sorted[..i], chain)
        invariant total == size + SizeSum(coins)
        invariant values == ValueSum(coins)
        invariant NoCover(coins, amount, size, fee)
      {
        var coin := sorted[i];
        UsableStep(sorted, i, chain);
        if !Usable(coin, chain) {
          i := i + 1;
          continue;
        }
        ghost var before := coins;
        coins := coins + [coin];
        SumsOfSnoc(before, coin);
        total := total + Size(coin);
        var f := fee(total);
        values := values + coin.na;
        if values >= amount + f {
          r := CoinDataResult(true, Some(coins), Some(f), ChangeCoin(address, values - (amount + f)));
          StopSelects(sorted, i, before, coins, chain, address, amount, size, fee, values, f, r);
          SelectionFromStore(r, coinList, sortCoins, chain, address, amount, size, fee);
          return;
        }
        NoCoverSnoc(before, coins, amount, size, fee, values, f);
        i := i + 1;
      }
      r := NotEnough;
      assert sorted[..i] == sorted;
    }

    /** saveConfirmedTransaction. */
    method SaveConfirmedTransaction(tx: Transaction) returns (r: Response<int>)
      modifies this
      ensures Step(State(), r) == LedgerSpec.SaveTransaction(old(State()), tx, Confirmed)
    {
      r := SaveTransaction(tx, Confirmed);
    }

    /** saveUnconfirmedTransaction. */
    method SaveUnconfirmedTransaction(tx: Transaction) returns (r: Response<int>)
      modifies this
      ensures Step(State(), r) == LedgerSpec.SaveTransaction(old(State()), tx, Unconfirmed)
    {
      r := SaveTransaction(tx, Unconfirmed);
    }

    /** saveTransaction(tx, status), with its refresh loop over the related addresses. */
    method SaveTransaction(tx: Transaction, status: TxStatus) returns (r: Response<int>)
      modifies this
      ensures Step(State(), r) == LedgerSpec.SaveTransaction(old(State()), tx, status)
    {
      var addresses := RelatedAddresses(tx, accounts);
      if |addresses| == 0 {
        return FailedZero;
      }
      ghost var w := SaveRecords(store, tx, status, addresses);
      var w1 := SaveLocalTxInfo(store, tx.hash, status, addresses);
      store := w1.store;
      r := w1.result;
      if r.Failure? {
        return;
      }
      var w2 := SaveLocalTx(store, tx);
      store := w2.store;
      r := w2.result;
      if r.Failure? {
        var w3 := DeleteLocalTxInfo(store, tx.hash);
        store := w3.store;
      }
      assert store == w.store && r == w.result;
      if status == Unconfirmed {
        var w4 := SaveTempTx(store, tx);
        store := w4.store;
        r := w4.result;
      }
      RefreshBalances(addresses);
    }

    /** The refresh loop of saveTransaction: balanceProvider.refreshBalance for each address in order. */
    method RefreshBalances(addresses: seq<Bytes>)
      modifies this
      ensures State() == old(State()).(refreshed := old(refreshed) + addresses)
    {
      var i := 0;
      while i < |addresses|
        invariant 0 <= i <= |addresses|
        invariant State() == old(State()).(refreshed := old(refreshed) + addresses[..i])
      {
        PrefixSnoc(addresses, i);
        refreshed := refreshed + [addresses[i]];
        i := i + 1;
      }
      assert addresses[..i] == addresses;
    }

    /** saveTransaction(tx, address, status), as importAccountLedger uses it. */
    method SaveTransactionFor(tx: Transaction, address: Bytes, status: TxStatus) returns (r: Response<int>)
      modifies this
      ensures Step(State(), r) == LedgerSpec.SaveTransactionFor(old(State()), tx, address, status)
    {
      var addresses := RelatedAddressesAmong(tx, Some([address]));
      if |addresses| == 0 {
        return FailedZero;
      }
      var w1 := SaveLocalTxInfo(store, tx.hash, status, addresses);
      store := w1.store;
      r := w1.result;
      if r.Failure? {
        return;
      }
      var w2 := SaveLocalTx(store, tx);
      store := w2.store;
      r := w2.result;
      if r.Failure? {
        var w3 := DeleteLocalTxInfo(store, tx.hash);
        store := w3.store;
      }
    }

    /**
     * saveConfirmedTransactionList: the items are saved in order; the first failure rolls
     * back the items saved so far, unchecked, and is returned.
     */
    method SaveConfirmedTransactionList(txs: seq<Transaction>) returns (r: Response<int>)
      modifies this
      ensures Step(State(), r) == SaveBatch(old(State()), txs, 0)
    {
      var saved: seq<Transaction> := [];
      var i := 0;
      while i < |txs|
        invariant 0 <= i <= |txs|
        invariant saved == txs[..i]
        invariant SaveBatch(State(), txs, i) == SaveBatch(old(State()), txs, 0)
      {
        LedgerLaws.SaveBatchUnfold(State(), txs, i);
        var result := SaveConfirmedTransaction(txs[i]);
        if result.Success? {
          PrefixSnoc(txs, i);
          saved := saved + [txs[i]];
          i := i + 1;
        } else {
          var _ := RollbackList(saved, false);
          return result;
        }
      }
      return Success(Some(|saved|));
    }

    /** rollback(tx): the info record, then the raw record; a failed info delete stops. */
    method Rollback(tx: Transaction) returns (r: Response<int>)
      modifies this
      ensures Step(State(), r) == LedgerSpec.Rollback(old(State()), tx)
    {
      if !IsLocalTransaction(tx, accounts) {
        return FailedZero;
      }
      var w1 := DeleteLocalTxInfo(store, tx.hash);
      store := w1.store;
      r := w1.result;
      if r.Failure? {
        return;
      }
      var w2 := DeleteLocalTx(store, tx.hash);
      store := w2.store;
      r := w2.result;
    }

    /** rollback(txs): the local transactions of the list. */
    method RollbackLocal(txs: seq<Transaction>) returns (r: Response<int>)
      modifies this
      ensures Step(State(), r) == LedgerSpec.RollbackList(old(State()), txs, true)
    {
      r := RollbackList(txs, true);
    }

    /** rollback(txs, isCheckMine): each item in order, results ignored; the count is returned. */
    method RollbackList(txs: seq<Transaction>, isCheckMine: bool) returns (r: Response<int>)
      modifies this
      ensures Step(State(), r) == LedgerSpec.RollbackList(old(State()), txs, isCheckMine)
    {
      var list := if isCheckMine then GetLocalTransaction(txs, accounts) else txs;
      var i := 0;
      while i < |list|
        invariant 0 <= i <= |list|
        invariant RollbackEach(State(), list[i..]) == RollbackEach(old(State()), list)
      {
        assert list[i..][1..] == list[i + 1..];
        var _ := Rollback(list[i]);
        i := i + 1;
      }
      r := Success(Some(|list|));
    }

    /**
     * unlockCoinData: every output whose lock time is the sentinel -1 is set to 0 in place
     * and written under its output key; other outputs are left alone.
     */
    method UnlockCoinData(tx: Transaction) returns (r: Response<int>)
      modifies this, tx.coinData
      ensures tx.coinData != null ==> tx.coinData.from == old(tx.coinData.from)
      ensures tx.coinData != null ==>
        tx.coinData.to == if |RelatedAddresses(tx, old(accounts))| == 0 then old(tx.coinData.to) else Unlocked(old(tx.coinData.to))
      ensures Step(State(), r) ==
        UnlockOutputs(old(State()), tx, if tx.coinData == null then None else Some(old(tx.coinData.to)), true)
    {
      if |RelatedAddresses(tx, accounts)| == 0 {
        return FailedZero;
      }
      var cd := tx.coinData;
      if cd != null {
        UnlockOutputsOf(cd, tx.hash);
      }
      r := Success(None);
    }

    /** The loop of unlockCoinData over the outputs of `cd`. */
    method UnlockOutputsOf(cd: CoinData, txHash: Bytes)
      modifies this, cd
      ensures cd.from == old(cd.from) && cd.to == Unlocked(old(cd.to))
      ensures State() == old(State()).(store := ApplyWrites(old(store), OutputWrites(old(cd.to), txHash, 0, true)))
    {
      ghost var to0 := cd.to;
      ghost var s0 := store;
      var i := 0;
      var length := |cd.to|;
      while i < length
        invariant 0 <= i <= length == |to0|
        invariant UnlockedUpTo(cd.to, to0, i)
        invariant cd.from == old(cd.from)
        invariant accounts == old(accounts) && refreshed == old(refreshed)
        invariant ApplyWrites(store, OutputWrites(to0, txHash, i, true)) == ApplyWrites(s0, OutputWrites(to0, txHash, 0, true))
      {
        OutputWritesStep(to0, txHash, i, true);
        UnlockedUpToStep(cd.to, to0, i);
        ghost var rest := OutputWrites(to0, txHash, i + 1, true);
        if cd.to[i].lockTime == LockedSentinel {
          var coin := cd.to[i].(lockTime := 0);
          cd.to := cd.to[i := coin];
          var key := OutputKey(coin, txHash, i);
          ApplyOneWrite(store, key, Serialize(coin), rest);
          var w := SaveOutput(store, key, Serialize(coin));
          store := w.store;
        }
        i := i + 1;
      }
      UnlockedUpToAll(cd.to, to0);
    }

    /**
     * rollbackUnlockTxCoinData: every output still carrying the sentinel -1 is written back
     * as it is; the coins are not changed.
     */
    method RollbackUnlockTxCoinData(tx: Transaction) returns (r: Response<int>)
      modifies this
      ensures Step(State(), r) ==
        UnlockOutputs(old(State()), tx, if tx.coinData == null then None else Some(tx.coinData.to), false)
    {
      if |RelatedAddresses(tx, accounts)| == 0 {
        return FailedZero;
      }
      var cd := tx.coinData;
      if cd != null {
        ghost var s0 := store;
        ghost var to0 := cd.to;
        var i := 0;
        var length := |cd.to|;
        while i < length
          invariant 0 <= i <= length == |cd.to| && cd.to == to0
          invariant accounts == old(accounts) && refreshed == old(refreshed)
          invariant ApplyWrites(store, OutputWrites(to0, tx.hash, i, false)) == ApplyWrites(s0, OutputWrites(to0, tx.hash, 0, false))
        {
          OutputWritesStep(to0, tx.hash, i, false);
          if cd.to[i].lockTime == LockedSentinel {
            var key := OutputKey(cd.to[i], tx.hash, i);
            ApplyOneWrite(store, key, Serialize(cd.to[i]), OutputWrites(cd.to, tx.hash, i + 1, false));
            var w := SaveOutput(store, key, Serialize(cd.to[i]));
            store := w.store;
          }
          i := i + 1;
        }
      }
      r := Success(None);
    }

    /**
     * transfer: the checks in the order the source makes them, then the transaction built
     * from the coin selection, signed, verified, saved as unconfirmed and broadcast. `sent` is
     * the transaction once built; `selection` is the answer of getCoinData.
     */
    method Transfer(from: Option<Bytes>, to: Option<Bytes>, values: Option<int>,
                    password: Option<string>, remark: Option<string>, env: TransferEnv)
      returns (r: Response<Bytes>, ghost sent: Option<Transaction>, ghost selection: CoinDataResult)
      requires Permutes(env.sortCoins)
      modifies this
      ensures !Prechecked(from, to, values) ==>
        r == Failure(NullParameter, None) && State() == old(State()) && sent.None?
      ensures Prechecked(from, to, values) && values.value <= 0 ==>
        r == Failure(AmountError, None) && State() == old(State()) && sent.None?
      ensures Prechecked(from, to, values) && values.value > 0 && env.getAccount(from.value).Err? ==>
        r == Failure(env.getAccount(from.value).error, None) && State() == old(State()) && sent.None?
      ensures Prechecked(from, to, values) && values.value > 0 && env.getAccount(from.value).Ok? ==>
        var account := env.getAccount(from.value).value;
        (account.encrypted && EmptyText(password) ==>
           r == Failure(NullParameter, None) && State() == old(State()) && sent.None?)
        && (account.encrypted && !EmptyText(password) && env.validPassword(account, password.value).Some? ==>
           r == Failure(env.validPassword(account, password.value).value, None) && State() == old(State()) && sent.None?)
      ensures Authorized(from, to, values, password, env) ==>
        var amount := values.value;
        var remarkBytes := RemarkBytes(remark, env);
        var size := env.unsignedSize(remarkBytes, env.now) + env.scriptSigLength;
        var stored := CoinsOf(old(store), from.value);
        (stored == [] ==> selection == NotEnough)
        && (stored != [] ==> Selects(selection, UsableCoins(env.sortCoins(stored), env.chain), from.value, amount, size, env.fee))
        && (!selection.enough ==> r == Failure(BalanceNotEnough, None) && State() == old(State()) && sent.None?)
        && (selection.enough ==> sent.Some? && SpendsStoredCoins(selection, stored, env.chain))
      ensures sent.Some? ==>
        var tx := sent.value;
        Authorized(from, to, values, password, env) && selection.enough && selection.coinList.Some?
        && tx.coinData != null && fresh(tx.coinData)
        && tx.coinData.from == selection.coinList.value
        && tx.coinData.to == [CoinOf(to.value, values.value)] + (if selection.change.Some? then [selection.change.value] else [])
        && tx.remark == RemarkBytes(remark, env) && tx.time == env.now
        && tx.hash == env.digest(tx.remark, tx.time, tx.coinData.from, tx.coinData.to)
        && tx.relatives == env.relatives(tx.coinData.from, tx.coinData.to)
        && (env.signError.Some? ==> r == Failure(env.signError.value, None) && State() == old(State()))
        && (env.signError.None? && env.verifyError.Some? ==> r == Failure(env.verifyError.value, None) && State() == old(State()))
        && (env.signError.None? && env.verifyError.None? ==>
              var st := LedgerSpec.SaveTransaction(old(State()), tx, Unconfirmed);
              State() == st.ledger
              && r == if st.result.Failure? then Failure(st.result.code, None)
                      else if env.broadcastError.Some? then Failure(env.broadcastError.value, None)
                      else Success(Some(tx.hash)))
      ensures r.Success? ==> sent.Some? && r.data == Some(sent.value.hash)
    {
      sent := None;
      selection := NotEnough;
      if from.None? || |from.value| == 0 || to.None? || |to.value| == 0 || values.None? {
        return Failure(NullParameter, None), sent, selection;
      }
      var amount := values.value;
      if amount <= 0 {
        return Failure(AmountError, None), sent, selection;
      }
      var accountResult := env.getAccount(from.value);
      if accountResult.Err? {
        return Failure(accountResult.error, None), sent, selection;
      }
      var account := accountResult.value;
      if account.encrypted {
        if password.None? || |password.value| == 0 {
          return Failure(NullParameter, None), sent, selection;
        }
        var passwordError := env.validPassword(account, password.value);
        if passwordError.Some? {
          return Failure(passwordError.value, None), sent, selection;
        }
      }
      r, sent, selection := SendAuthorized(from.value, to.value, amount, remark, env);
    }

    /**
     * The part of transfer after its checks: the coin selection for the amount, at the size of
     * the transaction before it has coin data, then the transaction built, signed and sent.
     */
    method SendAuthorized(from: Bytes, to: Bytes, amount: int, remark: Option<string>, env: TransferEnv)
      returns (r: Response<Bytes>, ghost sent: Option<Transaction>, ghost selection: CoinDataResult)
      requires Permutes(env.sortCoins)
      modifies this
      ensures var size := env.unsignedSize(RemarkBytes(remark, env), env.now) + env.scriptSigLength;
        var stored := CoinsOf(old(store), from);
        (stored == [] ==> selection == NotEnough)
        && (stored != [] ==> Selects(selection, UsableCoins(env.sortCoins(stored), env.chain), from, amount, size, env.fee))
        && (!selection.enough ==> r == Failure(BalanceNotEnough, None) && State() == old(State()) && sent.None?)
        && (selection.enough ==> sent.Some? && SpendsStoredCoins(selection, stored, env.chain))
      ensures sent.Some? ==>
        var tx := sent.value;
        selection.enough && selection.coinList.Some?
        && tx.coinData != null && fresh(tx.coinData)
        && tx.coinData.from == selection.coinList.value
        && tx.coinData.to == [CoinOf(to, amount)] + (if selection.change.Some? then [selection.change.value] else [])
        && tx.remark == RemarkBytes(remark, env) && tx.time == env.now
        && tx.hash == env.digest(tx.remark, tx.time, tx.coinData.from, tx.coinData.to)
        && tx.relatives == env.relatives(tx.coinData.from, tx.coinData.to)
        && (env.signError.Some? ==> r == Failure(env.signError.value, None) && State() == old(State()))
        && (env.signError.None? && env.verifyError.Some? ==> r == Failure(env.verifyError.value, None) && State() == old(State()))
        && (env.signError.None? && env.verifyError.None? ==>
              var st := LedgerSpec.SaveTransaction(old(State()), tx, Unconfirmed);
              State() == st.ledger
              && r == if st.result.Failure? then Failure(st.result.code, None)
                      else if env.broadcastError.Some? then Failure(env.broadcastError.value, None)
                      else Success(Some(tx.hash)))
      ensures r.Success? ==> sent.Some? && r.data == Some(sent.value.hash)
    {
      sent := None;
      var remarkBytes := RemarkBytes(remark, env);
      var time := env.now;
      var toCoin := CoinOf(to, amount);
      var size := env.unsignedSize(remarkBytes, time) + env.scriptSigLength;
      ghost var stored := CoinsOf(store, from);
      assert stored == CoinsOf(old(store), from);
      var coinDataResult := GetCoinData(from, amount, size, env.chain, env.sortCoins, env.fee);
      selection := coinDataResult;
      EnoughHasCoins(coinDataResult, from, amount, size, env, stored);
      assert stored != [] ==> Selects(selection, UsableCoins(env.sortCoins(stored), env.chain), from, amount, size, env.fee);
      assert selection.enough ==> SpendsStoredCoins(selection, stored, env.chain);
      if !coinDataResult.enough || coinDataResult.coinList.None? {
        return Failure(BalanceNotEnough, None), sent, selection;
      }
      var tos := [toCoin] + if coinDataResult.change.Some? then [coinDataResult.change.value] else [];
      var coinData := new CoinData(coinDataResult.coinList.value, tos);
      var hash := env.digest(remarkBytes, time, coinData.from, coinData.to);
      var tx := Transaction(hash, env.relatives(coinData.from, coinData.to), coinData, remarkBytes, time);
      sent := Some(tx);
      r := SignAndSend(tx, env);
    }

    /** The tail of transfer: sign, verify, save as unconfirmed, broadcast, each failure returned. */
    method SignAndSend(tx: Transaction, env: TransferEnv) returns (r: Response<Bytes>)
      modifies this
      ensures env.signError.Some? ==> r == Failure(env.signError.value, None) && State() == old(State())
      ensures env.signError.None? && env.verifyError.Some? ==>
        r == Failure(env.verifyError.value, None) && State() == old(State())
      ensures env.signError.None? && env.verifyError.None? ==>
        var st := LedgerSpec.SaveTransaction(old(State()), tx, Unconfirmed);
        State() == st.ledger
        && r == if st.result.Failure? then Failure(st.result.code, None)
                else if env.broadcastError.Some? then Failure(env.broadcastError.value, None)
                else Success(Some(tx.hash))
      ensures r.Success? ==> r.data == Some(tx.hash)
    {
      if env.signError.Some? {
        return Failure(env.signError.value, None);
      }
      if env.verifyError.Some? {
        return Failure(env.verifyError.value, None);
      }
      var saveResult := SaveUnconfirmedTransaction(tx);
      if saveResult.Failure? {
        return Failure(saveResult.code, None);
      }
      if env.broadcastError.Some? {
        return Failure(env.broadcastError.value, None);
      }
      r := Success(Some(tx.hash));
    }

    /**
     * getBalance: a null or wrong-length address is a parameter error; an address that is
     * not local, or one the balance provider has nothing for, does not exist.
     */
    function GetBalance<B>(address: Option<Bytes>, balanceOf: Bytes -> Option<B>): (r: Response<B>)
      reads this
      ensures r.Success? <==>
        address.Some? && |address.value| == HashLength && address.value in Registered(accounts)
        && balanceOf(address.value).Some?
      ensures r.Success? ==> r.data == balanceOf(address.value)
      ensures (address.None? || |address.value| != HashLength) ==> r == Failure(ParameterError, None)
      ensures address.Some? && |address.value| == HashLength && r.Failure? ==> r == Failure(AccountNotExist, None)
      ensures r.Failure? ==> r.data.None? && r.code in {ParameterError, AccountNotExist}
    {
      if address.None? || |address.value| != HashLength then Failure(ParameterError, None)
      else if !IsLocalAccount(accounts, address.value) then Failure(AccountNotExist, None)
      else
        var balance := balanceOf(address.value);
        if balance.None? then Failure(AccountNotExist, None) else Success(balance)
    }
  }

  /** The account service's answer for an address: whether its key is encrypted. */
  datatype Account = Account(address: Bytes, encrypted: bool)

  /**
   * What transfer takes from collaborators outside this model: the account service, the
   * clock, the chain, the coin comparator, the fee calculator, the remark encoding, the
   * transaction's digest, its related addresses, and the outcomes of signing, verification
   * and broadcast (None for success). `unsignedSize` is the size of the transaction while it
   * has its remark and time but no coin data yet: the size getCoinData is called with.
   */
  datatype TransferEnv = TransferEnv(
    getAccount: Bytes -> Result<Account, ErrorCode>,
    validPassword: (Account, string) -> Option<ErrorCode>,
    now: int,
    chain: Chain,
    sortCoins: seq<Coin> -> seq<Coin>,
    fee: int -> int,
    encode: string -> Bytes,
    unsignedSize: (Option<Bytes>, int) -> int,
    scriptSigLength: int,
    digest: (Option<Bytes>, int, seq<Coin>, seq<Coin>) -> Bytes,
    relatives: (seq<Coin>, seq<Coin>) -> seq<Bytes>,
    signError: Option<ErrorCode>,
    verifyError: Option<ErrorCode>,
    broadcastError: Option<ErrorCode>)

  /** AssertUtil.canNotEmpty on a string: null or "". */
  predicate EmptyText(s: Option<string>) {
    s.None? || |s.value| == 0
  }

  /** The three canNotEmpty checks of transfer pass: from and to non-empty, an amount given. */
  predicate Prechecked(from: Option<Bytes>, to: Option<Bytes>, values: Option<int>) {
    from.Some? && |from.value| > 0 && to.Some? && |to.value| > 0 && values.Some?
  }

  /** Every check of transfer before the coin selection passes. */
  predicate Authorized(from: Option<Bytes>, to: Option<Bytes>, values: Option<int>,
                       password: Option<string>, env: TransferEnv) {
    Prechecked(from, to, values) && values.value > 0 && env.getAccount(from.value).Ok?
    && (env.getAccount(from.value).value.encrypted ==>
          !EmptyText(password) && env.validPassword(env.getAccount(from.value).value, password.value).None?)
  }

  /** StringUtils.isBlank: null, or only whitespace. */
  predicate Blank(s: Option<string>) {
    s.None? || forall i :: 0 <= i < |s.value| ==> s.value[i] in {' ', '\t', '\n', '\r', '\U{000C}', '\U{000B}'}
  }

  /** The remark transfer stores: the encoded text unless it is blank. */
  function RemarkBytes(remark: Option<string>, env: TransferEnv): (r: Option<Bytes>)
    ensures r.Some? <==> !Blank(remark)
  {
    if Blank(remark) then None else Some(env.encode(remark.value))
  }

  /** The comparator sort only reorders: Collections.sort permutes the list it is given. */
  ghost predicate Permutes(sort: seq<Coin> -> seq<Coin>) {
    forall s :: multiset(sort(s)) == multiset(s)
  }

  /** The selected coins are usable stored coins of the address, none spent more often than stored. */
  predicate SpendsStoredCoins(r: CoinDataResult, stored: seq<Coin>, chain: Chain) {
    && r.coinList.Some?
    && multiset(r.coinList.value) <= multiset(stored)
    && forall i :: 0 <= i < |r.coinList.value| ==> Usable(r.coinList.value[i], chain)
  }

  /** Over a sort that permutes, an enough selection spends only stored coins. */
  lemma SelectionFromStore(r: CoinDataResult, stored: seq<Coin>, sortCoins: seq<Coin> -> seq<Coin>, chain: Chain,
                           address: Bytes, amount: int, size: int, fee: int -> int)
    requires Permutes(sortCoins) && r.enough
    requires Selects(r, UsableCoins(sortCoins(stored), chain), address, amount, size, fee)
    ensures SpendsStoredCoins(r, stored, chain)
  {
    SelectionSound(r, sortCoins(stored), chain, address, amount, size, fee);
    assert multiset(sortCoins(stored)) == multiset(stored);
  }

  /** A result that says enough always carries its coins; one that does not is NotEnough. */
  lemma EnoughHasCoins(r: CoinDataResult, address: Bytes, amount: int, size: int, env: TransferEnv, stored: seq<Coin>)
    requires stored == [] ==> r == NotEnough
    requires stored != [] ==> Selects(r, UsableCoins(env.sortCoins(stored), env.chain), address, amount, size, env.fee)
    ensures r.enough ==> r.coinList.Some?
  {
  }

  /** The addresses of the registry; none while it is null. */
  function Registered(registry: Registry): seq<Bytes> {
    if registry.None? then [] else registry.value
  }

  /** One more element of `sorted` through the usable filter. */
  lemma UsableStep(sorted: seq<Coin>, i: nat, chain: Chain)
    requires i < |sorted|
    ensures UsableCoins(sorted[..i + 1], chain)
      == UsableCoins(sorted[..i], chain) + if Usable(sorted[i], chain) then [sorted[i]] else []
  {
    assert sorted[..i + 1] == sorted[..i] + [sorted[i]];
    UsableCoinsAppend(sorted[..i], [sorted[i]], chain);
    assert UsableCoins([sorted[i]], chain) == if Usable(sorted[i], chain) then [sorted[i]] else [];
  }

  /** The running sums after taking one more coin. */
  lemma SumsOfSnoc(coins: seq<Coin>, c: Coin)
    ensures SizeSum(coins + [c]) == SizeSum(coins) + Size(c)
    ensures ValueSum(coins + [c]) == ValueSum(coins) + c.na
  {
    assert (coins + [c])[..|coins|] == coins;
  }

  /** `f` is the fee at the size reached after taking `taken`. */
  predicate FeeAt(f: int, fee: int -> int, baseSize: int, taken: seq<Coin>) {
    f == fee(baseSize + SizeSum(taken))
  }

  /** A coin that does not complete a cover keeps every prefix short of covering. */
  lemma NoCoverSnoc(coins: seq<Coin>, taken: seq<Coin>, amount: int, baseSize: int, fee: int -> int,
                    values: int, f: int)
    requires |taken| == |coins| + 1 && taken[..|coins|] == coins
    requires values == ValueSum(taken) && FeeAt(f, fee, baseSize, taken)
    requires NoCover(coins, amount, baseSize, fee) && values < amount + f
    ensures NoCover(taken, amount, baseSize, fee)
  {
    forall j | 1 <= j <= |taken|
      ensures !Covers(taken[..j], amount, baseSize, fee)
    {
      if j <= |coins| {
        assert taken[..j] == coins[..j];
      } else {
        assert taken[..j] == taken;
      }
    }
  }

  /** The result the loop builds where it stops is the one the selection prescribes. */
  lemma StopSelects(sorted: seq<Coin>, i: nat, coins: seq<Coin>, taken: seq<Coin>, chain: Chain, address: Bytes,
                    amount: int, baseSize: int, fee: int -> int, values: int, f: int, r: CoinDataResult)
    requires i < |sorted| && taken == coins + [sorted[i]] && Usable(sorted[i], chain)
    requires coins == UsableCoins(sorted[..i], chain)
    requires values == ValueSum(taken) && FeeAt(f, fee, baseSize, taken)
    requires NoCover(coins, amount, baseSize, fee) && values >= amount + f
    requires r == CoinDataResult(true, Some(taken), Some(f), ChangeCoin(address, values - (amount + f)))
    ensures Selects(r, UsableCoins(sorted, chain), address, amount, baseSize, fee)
  {
    StopIsFirstCover(sorted, i, coins, sorted[i], chain, amount, baseSize, fee);
    var u := UsableCoins(sorted, chain);
    assert r == Outcome(u, |coins| + 1, address, amount, baseSize, fee);
  }

  /** Where the loop stops: the coins taken are the first cover of all the usable coins. */
  lemma StopIsFirstCover(sorted: seq<Coin>, i: nat, coins: seq<Coin>, c: Coin, chain: Chain,
                         amount: int, baseSize: int, fee: int -> int)
    requires i < |sorted| && sorted[i] == c && Usable(c, chain)
    requires coins == UsableCoins(sorted[..i], chain)
    requires NoCover(coins, amount, baseSize, fee) && Covers(coins + [c], amount, baseSize, fee)
    ensures var u := UsableCoins(sorted, chain);
      |coins| + 1 <= |u| && u[..|coins| + 1] == coins + [c]
      && FirstCover(u, |coins| + 1, amount, baseSize, fee)
  {
    UsablePrefixAt(sorted, i, chain);
    var u := UsableCoins(sorted, chain);
    var taken := u[..|coins| + 1];
    assert taken == coins + [c];
    forall j | 1 <= j < |coins| + 1
      ensures !Covers(u[..j], amount, baseSize, fee)
    {
      assert u[..j] == taken[..j] == coins[..j];
    }
  }

  /** The usable coins of `sorted` up to a usable `sorted[i]` begin the usable coins of all of it. */
  lemma UsablePrefixAt(sorted: seq<Coin>, i: nat, chain: Chain)
    requires i < |sorted| && Usable(sorted[i], chain)
    ensures var u := UsableCoins(sorted, chain);
      var coins := UsableCoins(sorted[..i], chain);
      |coins| + 1 <= |u| && u[..|coins| + 1] == coins + [sorted[i]]
  {
    UsableStep(sorted, i, chain);
    assert sorted == sorted[..i + 1] + sorted[i + 1..];
    UsableCoinsAppend(sorted[..i + 1], sorted[i + 1..], chain);
  }

  /** One step of the output loop: the write of index `i`, if any, then the rest. */
  lemma OutputWritesStep(to: seq<Coin>, txHash: Bytes, i: nat, unlock: bool)
    requires i < |to|
    ensures to[i].lockTime == LockedSentinel ==>
      OutputWrites(to, txHash, i, unlock)
      == [(OutputKey(to[i], txHash, i), Serialize(if unlock then UnlockCoin(to[i]) else to[i]))]
         + OutputWrites(to, txHash, i + 1, unlock)
    ensures to[i].lockTime != LockedSentinel ==>
      OutputWrites(to, txHash, i, unlock) == OutputWrites(to, txHash, i + 1, unlock)
  {
    assert [] + OutputWrites(to, txHash, i + 1, unlock) == OutputWrites(to, txHash, i + 1, unlock);
  }

  lemma PrefixSnoc<T>(s: seq<T>, i: nat)
    requires i < |s|
    ensures s[..i + 1] == s[..i] + [s[i]]
  {
  }

  /** The outputs while unlockCoinData runs: those before `i` unlocked, the others as they were. */
  predicate UnlockedUpTo(tos: seq<Coin>, to0: seq<Coin>, i: nat) {
    |tos| == |to0| && i <= |to0|
    && (forall j :: 0 <= j < i ==> tos[j] == UnlockCoin(to0[j]))
    && (forall j :: i <= j < |to0| ==> tos[j] == to0[j])
  }

  /** The loop's update at index `i`: `setLockTime(0)` exactly on the sentinel. */
  lemma UnlockedUpToStep(tos: seq<Coin>, to0: seq<Coin>, i: nat)
    requires UnlockedUpTo(tos, to0, i) && i < |to0|
    ensures tos[i] == to0[i]
    ensures tos[i].lockTime == LockedSentinel ==> UnlockedUpTo(tos[i := tos[i].(lockTime := 0)], to0, i + 1)
    ensures tos[i].lockTime != LockedSentinel ==> UnlockedUpTo(tos, to0, i + 1)
  {
  }

  lemma UnlockedUpToAll(tos: seq<Coin>, to0: seq<Coin>)
    requires UnlockedUpTo(tos, to0, |to0|)
    ensures tos == Unlocked(to0)
  {
  }

  /** One write taken off the front of a write list. */
  lemma ApplyOneWrite(s: Store, key: Bytes, value: Bytes, rest: seq<(Bytes, Bytes)>)
    ensures ApplyWrites(s, [(key, value)] + rest) == ApplyWrites(SaveOutput(s, key, value).store, rest)
  {
    assert ([(key, value)] + rest)[1..] == rest;
  }
}
