/**
 * The greedy coin selection of getCoinData, stated as a specification: over the usable coins
 * in sorted order, take the shortest prefix whose value covers the amount plus the fee at the
 * size reached with that prefix, and return the exact surplus as a change coin.
 */
module CoinSelection {
  import opened Wrappers
  import opened Kernel
  import opened Coins
  import opened Subsequences

  /** The coins the loop does not skip: those that pass `usable()`, in order. */
  function UsableCoins(sorted: seq<Coin>, chain: Chain): (r: seq<Coin>)
    ensures forall i :: 0 <= i < |r| ==> Usable(r[i], chain)
    ensures forall c :: c in sorted && Usable(c, chain) ==> c in r
    ensures IsSubsequence(r, sorted)
    decreases |sorted|
  {
    if |sorted| == 0 then []
    else
      var rest := UsableCoins(sorted[1..], chain);
      assert sorted == [sorted[0]] + sorted[1..];
      assert forall c :: c in sorted ==> c == sorted[0] || c in sorted[1..];
      if Usable(sorted[0], chain) then [sorted[0]] + rest
      else
        assert rest == [] || rest[0] != sorted[0];
        rest
  }

  /** Each usable coin is kept as often as the list holds it; an unusable one never. */
  lemma {:induction false} UsableCoinsCount(sorted: seq<Coin>, chain: Chain, c: Coin)
    ensures multiset(UsableCoins(sorted, chain))[c] == if Usable(c, chain) then multiset(sorted)[c] else 0
    decreases |sorted|
  {
    if |sorted| > 0 {
      UsableCoinsCount(sorted[1..], chain, c);
      assert sorted == [sorted[0]] + sorted[1..];
    }
  }

  /** Filtering distributes over concatenation, so the filtered prefix is a prefix of the result. */
  lemma {:induction false} UsableCoinsAppend(a: seq<Coin>, b: seq<Coin>, chain: Chain)
    ensures UsableCoins(a + b, chain) == UsableCoins(a, chain) + UsableCoins(b, chain)
    decreases |a|
  {
    if |a| > 0 {
      UsableCoinsAppend(a[1..], b, chain);
      assert (a + b)[0] == a[0];
      assert (a + b)[1..] == a[1..] + b;
      if Usable(a[0], chain) {
        assert UsableCoins(a + b, chain) == [a[0]] + UsableCoins(a[1..] + b, chain);
      } else {
        assert UsableCoins(a + b, chain) == UsableCoins(a[1..] + b, chain);
      }
    } else {
      assert a + b == b;
    }
  }

  /** The added sizes of `coins` (`size += coin.size()`). */
  function SizeSum(coins: seq<Coin>): nat {
    if |coins| == 0 then 0 else SizeSum(coins[..|coins| - 1]) + Size(coins[|coins| - 1])
  }

  /** The added values of `coins` (`values = values.add(coin.getNa())`). */
  function ValueSum(coins: seq<Coin>): int {
    if |coins| == 0 then 0 else ValueSum(coins[..|coins| - 1]) + coins[|coins| - 1].na
  }

  /** The stopping test after taking `coins`: value >= amount + fee(size so far). */
  predicate Covers(coins: seq<Coin>, amount: int, baseSize: int, fee: int -> int) {
    ValueSum(coins) >= amount + fee(baseSize + SizeSum(coins))
  }

  /** `k` is where the loop stops: the k-coin prefix covers and no shorter non-empty one does. */
  predicate FirstCover(u: seq<Coin>, k: nat, amount: int, baseSize: int, fee: int -> int) {
    1 <= k <= |u| && Covers(u[..k], amount, baseSize, fee)
    && forall j :: 1 <= j < k ==> !Covers(u[..j], amount, baseSize, fee)
  }

  /** The loop runs to the end: no non-empty prefix covers. */
  predicate NoCover(u: seq<Coin>, amount: int, baseSize: int, fee: int -> int) {
    forall j :: 1 <= j <= |u| ==> !Covers(u[..j], amount, baseSize, fee)
  }

  /** CoinDataResult: the flag, and the coin list, fee and change when they were set. */
  datatype CoinDataResult = CoinDataResult(
    enough: bool, coinList: Option<seq<Coin>>, fee: Option<int>, change: Option<Coin>)

  /** A result with only `enough = false` set. */
  const NotEnough := CoinDataResult(false, None, None, None)

  /** The change coin: owned by the spender, worth the surplus, lock time 0; none when there is no surplus. */
  function ChangeCoin(address: Bytes, surplus: int): (r: Option<Coin>)
    ensures r.Some? <==> surplus > 0
    ensures r.Some? ==> r.value.owner == Some(address) && r.value.na == surplus && r.value.lockTime == 0
  {
    if surplus > 0 then Some(CoinOf(address, surplus)) else None
  }

  /** What the loop reports when it stops after the first `k` usable coins. */
  function Outcome(u: seq<Coin>, k: nat, address: Bytes, amount: int, baseSize: int, fee: int -> int): CoinDataResult
    requires k <= |u|
  {
    var coins := u[..k];
    var f := fee(baseSize + SizeSum(coins));
    CoinDataResult(true, Some(coins), Some(f), ChangeCoin(address, ValueSum(coins) - (amount + f)))
  }

  /** `r` is a result the greedy pass over the usable coins `u` may return. */
  predicate Selects(r: CoinDataResult, u: seq<Coin>, address: Bytes, amount: int, baseSize: int, fee: int -> int) {
    (exists k :: 1 <= k <= |u| && FirstCover(u, k, amount, baseSize, fee) && r == Outcome(u, k, address, amount, baseSize, fee))
    || (NoCover(u, amount, baseSize, fee) && r == NotEnough)
  }

  lemma FirstCoverUnique(u: seq<Coin>, k1: nat, k2: nat, amount: int, baseSize: int, fee: int -> int)
    requires FirstCover(u, k1, amount, baseSize, fee) && FirstCover(u, k2, amount, baseSize, fee)
    ensures k1 == k2
  {
  }

  /** The selection is a function of its inputs: two results it may return are equal. */
  lemma SelectsDeterministic(r1: CoinDataResult, r2: CoinDataResult, u: seq<Coin>, address: Bytes,
                             amount: int, baseSize: int, fee: int -> int)
    requires Selects(r1, u, address, amount, baseSize, fee) && Selects(r2, u, address, amount, baseSize, fee)
    ensures r1 == r2
  {
    if r1.enough {
      var k1 :| 1 <= k1 <= |u| && FirstCover(u, k1, amount, baseSize, fee) && r1 == Outcome(u, k1, address, amount, baseSize, fee);
      assert !NoCover(u, amount, baseSize, fee);
      var k2 :| 1 <= k2 <= |u| && FirstCover(u, k2, amount, baseSize, fee) && r2 == Outcome(u, k2, address, amount, baseSize, fee);
      FirstCoverUnique(u, k1, k2, amount, baseSize, fee);
    }
  }

  /** Enough is reported exactly when some non-empty prefix of the usable coins covers. */
  lemma EnoughIffSomePrefixCovers(r: CoinDataResult, u: seq<Coin>, address: Bytes,
                                  amount: int, baseSize: int, fee: int -> int)
    requires Selects(r, u, address, amount, baseSize, fee)
    ensures r.enough <==> exists j :: 1 <= j <= |u| && Covers(u[..j], amount, baseSize, fee)
    ensures !r.enough ==> r.coinList.None? && r.fee.None? && r.change.None?
  {
    if r.enough {
      var k :| 1 <= k <= |u| && FirstCover(u, k, amount, baseSize, fee) && r == Outcome(u, k, address, amount, baseSize, fee);
      assert Covers(u[..k], amount, baseSize, fee);
    }
  }

  /**
   * A successful selection over the usable coins of `sorted`: the coins are usable, taken in
   * sorted order without repeating a position, their value covers the amount plus the fee at
   * the final size, the reported fee is that fee, every shorter prefix falls short at its own
   * size, and value = amount + fee + change exactly.
   */
  predicate SoundSelection(r: CoinDataResult, sorted: seq<Coin>, chain: Chain, address: Bytes,
                           amount: int, baseSize: int, fee: int -> int)
  {
    && r.coinList.Some? && r.fee.Some?
    && var coins := r.coinList.value;
    && |coins| >= 1
    && (forall i :: 0 <= i < |coins| ==> Usable(coins[i], chain))
    && IsSubsequence(coins, sorted)
    && multiset(coins) <= multiset(sorted)
    && r.fee.value == fee(baseSize + SizeSum(coins))
    && ValueSum(coins) >= amount + r.fee.value
    && (forall j :: 1 <= j < |coins| ==> !Covers(coins[..j], amount, baseSize, fee))
    && (r.change.Some? <==> ValueSum(coins) > amount + r.fee.value)
    && (r.change.Some? ==> r.change.value == Coin(Some(address), ValueSum(coins) - amount - r.fee.value, 0))
    && ValueSum(coins) == amount + r.fee.value + (if r.change.Some? then r.change.value.na else 0)
  }

  /** Every successful greedy pass over the usable coins of `sorted` is sound. */
  lemma SelectionSound(r: CoinDataResult, sorted: seq<Coin>, chain: Chain, address: Bytes,
                       amount: int, baseSize: int, fee: int -> int)
    requires Selects(r, UsableCoins(sorted, chain), address, amount, baseSize, fee)
    requires r.enough
    ensures SoundSelection(r, sorted, chain, address, amount, baseSize, fee)
  {
    var u := UsableCoins(sorted, chain);
    var k :| 1 <= k <= |u| && FirstCover(u, k, amount, baseSize, fee) && r == Outcome(u, k, address, amount, baseSize, fee);
    SelectionAt(r, sorted, chain, k, address, amount, baseSize, fee);
  }

  /** SelectionSound at the stopping point `k`. */
  lemma SelectionAt(r: CoinDataResult, sorted: seq<Coin>, chain: Chain, k: nat, address: Bytes,
                    amount: int, baseSize: int, fee: int -> int)
    requires FirstCover(UsableCoins(sorted, chain), k, amount, baseSize, fee)
    requires r == Outcome(UsableCoins(sorted, chain), k, address, amount, baseSize, fee)
    ensures SoundSelection(r, sorted, chain, address, amount, baseSize, fee)
  {
    var u := UsableCoins(sorted, chain);
    OutcomeSound(u, k, address, amount, baseSize, fee);
    UsablePrefixFromStore(sorted, chain, k);
  }

  /** The report at the first covering prefix: its coins, their fee, and value = amount + fee + change. */
  lemma OutcomeSound(u: seq<Coin>, k: nat, address: Bytes, amount: int, baseSize: int, fee: int -> int)
    requires FirstCover(u, k, amount, baseSize, fee)
    ensures var r := Outcome(u, k, address, amount, baseSize, fee);
      var coins := u[..k];
      && r.coinList == Some(coins) && |coins| >= 1
      && r.fee == Some(fee(baseSize + SizeSum(coins)))
      && ValueSum(coins) >= amount + r.fee.value
      && (forall j :: 1 <= j < |coins| ==> !Covers(coins[..j], amount, baseSize, fee))
      && (r.change.Some? <==> ValueSum(coins) > amount + r.fee.value)
      && (r.change.Some? ==> r.change.value == Coin(Some(address), ValueSum(coins) - amount - r.fee.value, 0))
      && ValueSum(coins) == amount + r.fee.value + (if r.change.Some? then r.change.value.na else 0)
  {
    var coins := u[..k];
    forall j | 1 <= j < |coins|
      ensures !Covers(coins[..j], amount, baseSize, fee)
    {
      assert coins[..j] == u[..j];
    }
  }

  /** A prefix of the usable coins is made of usable coins of the list, in order, none repeated. */
  lemma UsablePrefixFromStore(sorted: seq<Coin>, chain: Chain, k: nat)
    requires k <= |UsableCoins(sorted, chain)|
    ensures var coins := UsableCoins(sorted, chain)[..k];
      && (forall i :: 0 <= i < |coins| ==> Usable(coins[i], chain))
      && IsSubsequence(coins, sorted)
      && multiset(coins) <= multiset(sorted)
  {
    var u := UsableCoins(sorted, chain);
    SubsequencePrefix(u, sorted, k);
    SubsequenceMultiset(u[..k], sorted);
  }
}
