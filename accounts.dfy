/**
 * The account-membership tests of AccountLedgerServiceImpl: whether an address is held
 * locally, which addresses of a transaction are local, and which transactions are.
 */
module LocalAccounts {
  import opened Wrappers
  import opened Kernel
  import opened Transactions
  import opened Subsequences

  /** localAccountList: null until loaded, else each local account by its address bytes. */
  type Registry = Option<seq<Bytes>>

  /** The search loop of isLocalAccount: some entry byte-equal to `address`. */
  function Contains(list: seq<Bytes>, address: Bytes): (r: bool)
    ensures r <==> address in list
  {
    if |list| == 0 then false else list[0] == address || Contains(list[1..], address)
  }

  /** isLocalAccount: false on a null or empty registry, else byte-equal membership. */
  function IsLocalAccount(registry: Registry, address: Bytes): (r: bool)
    ensures r <==> registry.Some? && address in registry.value
  {
    if registry.None? || |registry.value| == 0 then false else Contains(registry.value, address)
  }

  /** The inner loop of getRelatedAddresses: `source` once for each candidate equal to it. */
  function Matches(source: Bytes, candidates: seq<Bytes>): (r: seq<Bytes>)
    ensures forall x :: x in r ==> x == source
    ensures |r| == multiset(candidates)[source]
  {
    if |candidates| == 0 then []
    else
      assert candidates == [candidates[0]] + candidates[1..];
      (if candidates[0] == source then [source] else []) + Matches(source, candidates[1..])
  }

  /** The outer loop of getRelatedAddresses, in the order of `sources`. */
  function Related(sources: seq<Bytes>, candidates: seq<Bytes>): (r: seq<Bytes>)
    ensures forall x :: x in r <==> x in sources && x in candidates
  {
    if |sources| == 0 then []
    else
      var m := Matches(sources[0], candidates);
      assert |m| > 0 <==> sources[0] in candidates;
      assert |m| > 0 ==> m[0] in m;
      assert forall x :: x in sources <==> x == sources[0] || x in sources[1..];
      m + Related(sources[1..], candidates)
  }

  /** The addresses of `sources` that occur in `candidates`, each kept once, in order. */
  function Keep(sources: seq<Bytes>, candidates: seq<Bytes>): (r: seq<Bytes>)
    ensures forall x :: x in r <==> x in sources && x in candidates
    ensures IsSubsequence(r, sources)
  {
    if |sources| == 0 then []
    else
      var rest := Keep(sources[1..], candidates);
      if sources[0] in candidates then [sources[0]] + rest
      else
        assert rest == [] || rest[0] != sources[0];
        rest
  }

  predicate NoDuplicates(s: seq<Bytes>) {
    forall i, j :: 0 <= i < j < |s| ==> s[i] != s[j]
  }

  lemma CountAtMostOne(candidates: seq<Bytes>, x: Bytes)
    requires NoDuplicates(candidates)
    ensures multiset(candidates)[x] == if x in candidates then 1 else 0
  {
    if |candidates| > 0 {
      assert candidates == [candidates[0]] + candidates[1..];
      CountAtMostOne(candidates[1..], x);
    }
  }

  /**
   * With a duplicate-free candidate list, getRelatedAddresses is exactly the transaction's
   * addresses that are candidates, in transaction order. (A duplicated candidate would repeat
   * the address: the `continue` in the inner loop does not leave it.)
   */
  lemma {:induction false} RelatedIsFilter(sources: seq<Bytes>, candidates: seq<Bytes>)
    requires NoDuplicates(candidates)
    ensures Related(sources, candidates) == Keep(sources, candidates)
  {
    if |sources| > 0 {
      RelatedIsFilter(sources[1..], candidates);
      var m := Matches(sources[0], candidates);
      CountAtMostOne(candidates, sources[0]);
      if sources[0] in candidates {
        assert |m| == 1 && m[0] in m;
        assert m == [sources[0]];
      } else {
        assert |m| == 0;
      }
    }
  }

  /** getRelatedAddresses(tx, addresses): a null or empty candidate list relates nothing. */
  function RelatedAddressesAmong(tx: Transaction, candidates: Option<seq<Bytes>>): (r: seq<Bytes>)
    ensures forall x :: x in r <==> x in tx.relatives && candidates.Some? && x in candidates.value
  {
    if candidates.None? || |candidates.value| == 0 then []
    else if |tx.relatives| == 0 then []
    else Related(tx.relatives, candidates.value)
  }

  /** getRelatedAddresses(tx): the candidates are the addresses of all local accounts. */
  function RelatedAddresses(tx: Transaction, registry: Registry): (r: seq<Bytes>)
    ensures forall x :: x in r <==> x in tx.relatives && IsLocalAccount(registry, x)
  {
    if registry.None? || |registry.value| == 0 then []
    else RelatedAddressesAmong(tx, Some(registry.value))
  }

  /** The search loop of isLocalTransaction. */
  function AnyLocal(addresses: seq<Bytes>, registry: Registry): (r: bool)
    ensures r <==> exists a :: a in addresses && IsLocalAccount(registry, a)
  {
    if |addresses| == 0 then false
    else IsLocalAccount(registry, addresses[0]) || AnyLocal(addresses[1..], registry)
  }

  /** isLocalTransaction: false on a null or empty registry, else some address is local. */
  function IsLocalTransaction(tx: Transaction, registry: Registry): (r: bool)
    ensures r <==> exists a :: a in tx.relatives && IsLocalAccount(registry, a)
  {
    if registry.None? || |registry.value| == 0 then false else AnyLocal(tx.relatives, registry)
  }

  /** A transaction is local exactly when it has a related local address. */
  lemma LocalIffRelated(tx: Transaction, registry: Registry)
    ensures IsLocalTransaction(tx, registry) <==> |RelatedAddresses(tx, registry)| > 0
  {
    var r := RelatedAddresses(tx, registry);
    if IsLocalTransaction(tx, registry) {
      var a :| a in tx.relatives && IsLocalAccount(registry, a);
      assert a in r;
    }
    if |r| > 0 {
      assert r[0] in r;
    }
  }

  /** The filter loop of getLocalTransaction. */
  function FilterLocal(txs: seq<Transaction>, registry: Registry): (r: seq<Transaction>)
    ensures forall i :: 0 <= i < |r| ==> r[i] in txs && IsLocalTransaction(r[i], registry)
    ensures forall i :: 0 <= i < |txs| && IsLocalTransaction(txs[i], registry) ==> txs[i] in r
    ensures IsSubsequence(r, txs)
  {
    if |txs| == 0 then []
    else
      var rest := FilterLocal(txs[1..], registry);
      if IsLocalTransaction(txs[0], registry) then [txs[0]] + rest
      else
        assert rest == [] || rest[0] != txs[0];
        rest
  }

  /** getLocalTransaction: the local transactions of `txs`, in order. */
  function GetLocalTransaction(txs: seq<Transaction>, registry: Registry): (r: seq<Transaction>)
    ensures forall i :: 0 <= i < |r| ==> r[i] in txs && IsLocalTransaction(r[i], registry)
    ensures forall i :: 0 <= i < |txs| && IsLocalTransaction(txs[i], registry) ==> txs[i] in r
    ensures IsSubsequence(r, txs)
  {
    if |txs| == 0 then []
    else if registry.None? || |registry.value| == 0 then []
    else FilterLocal(txs, registry)
  }

  /** The filter keeps every local transaction as often as the list holds it, and nothing else. */
  lemma {:induction false} FilterLocalCount(txs: seq<Transaction>, registry: Registry, t: Transaction)
    ensures multiset(FilterLocal(txs, registry))[t] == if IsLocalTransaction(t, registry) then multiset(txs)[t] else 0
    decreases |txs|
  {
    if |txs| > 0 {
      FilterLocalCount(txs[1..], registry, t);
      assert txs == [txs[0]] + txs[1..];
    }
  }

  /** getLocalTransaction counts: each local transaction as often as listed, every other one never. */
  lemma LocalTransactionCounts(txs: seq<Transaction>, registry: Registry)
    ensures forall t :: multiset(GetLocalTransaction(txs, registry))[t]
                     == if IsLocalTransaction(t, registry) then multiset(txs)[t] else 0
  {
    forall t
      ensures multiset(GetLocalTransaction(txs, registry))[t]
           == if IsLocalTransaction(t, registry) then multiset(txs)[t] else 0
    {
      FilterLocalCount(txs, registry, t);
    }
  }
}
