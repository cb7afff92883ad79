/**
 * Kernel-level vocabulary shared by the account ledger: bytes, Java `long` range,
 * error codes and the `Result` object that services return.
 */
module Kernel {
  import opened Wrappers

  type Byte = b: int | 0 <= b < 256
  type Bytes = seq<Byte>

  /** Length of an address in bytes (AddressTool.HASH_LENGTH; a 20-byte hash with 3 framing bytes). */
  const HashLength: nat := 23

  const Int64Min: int := -0x8000_0000_0000_0000
  const Int64Max: int := 0x7FFF_FFFF_FFFF_FFFF

  /** `x` is representable as a Java `long`. */
  predicate IsInt64(x: int) {
    Int64Min <= x <= Int64Max
  }

  /** The error codes the modelled code returns. */
  datatype ErrorCode =
    | Failed                     // Result.getFailed() without an explicit code
    | ParameterError
    | AddressError
    | AccountNotExist
    | BalanceNotEnough
    | DataSizeError
    | StorageFailure             // a storage call that did not succeed
    | UnknownError
    | AmountError                // Result.getFailed("amount error")
    | NullParameter              // the runtime exception AssertUtil.canNotEmpty raises
    | IndexOutOfBounds           // System.arraycopy past the end of the source array
    | AddressNotBelongsToChain
    | External(code: nat)        // a code chosen by a collaborator that is not part of this model

  /**
   * io.nuls.kernel.model.Result: success or failure with its error code, and an optional payload
   * (`data`, null when absent); `Result.getFailed().setData(0)` is `Failure(Failed, Some(0))`.
   */
  datatype Response<+T> = Success(data: Option<T>) | Failure(code: ErrorCode, data: Option<T>)
}
