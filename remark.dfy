/** TxRemarkValidator: the remark length rule, which applies only up to main-net version 2. */
module TxRemark {
  import opened Wrappers
  import opened Kernel
  import opened Transactions

  const MaxRemarkLen: nat := 100

  datatype ValidateResult = Passed | FailedResult(validator: string, code: ErrorCode)

  predicate RemarkTooLong(remark: Option<Bytes>) {
    remark.Some? && |remark.value| > MaxRemarkLen
  }

  /** validate, with NulsContext.MAIN_NET_VERSION passed in. */
  function Validate(tx: Transaction, mainNetVersion: int): (r: ValidateResult)
    ensures r.FailedResult? <==> mainNetVersion <= 2 && RemarkTooLong(tx.remark)
    ensures r.FailedResult? ==> r.code == DataSizeError
  {
    if mainNetVersion <= 2 && tx.remark.Some? && |tx.remark.value| > MaxRemarkLen
    then FailedResult("io.nuls.protocol.model.validator.TxRemarkValidator", DataSizeError)
    else Passed
  }

  /** The bound is inclusive: a remark of exactly 100 bytes passes. */
  lemma RemarkAtLimitPasses(tx: Transaction, mainNetVersion: int)
    requires tx.remark.Some? && |tx.remark.value| == MaxRemarkLen
    ensures Validate(tx, mainNetVersion) == Passed
  {
  }

  /** A transaction without a remark always passes. */
  lemma NullRemarkPasses(tx: Transaction, mainNetVersion: int)
    requires tx.remark.None?
    ensures Validate(tx, mainNetVersion) == Passed
  {
  }

  /** From version 3 on the rule is off: every remark passes. */
  lemma LaterVersionsAcceptEveryRemark(tx: Transaction, mainNetVersion: int)
    requires mainNetVersion > 2
    ensures Validate(tx, mainNetVersion) == Passed
  {
  }

  /** Passing is closed under shortening the remark. */
  lemma ShorterRemarkPasses(tx: Transaction, shorter: Transaction, mainNetVersion: int)
    requires Validate(tx, mainNetVersion) == Passed
    requires tx.remark.Some? && shorter.remark.Some? && |shorter.remark.value| <= |tx.remark.value|
    ensures Validate(shorter, mainNetVersion) == Passed
  {
  }
}
