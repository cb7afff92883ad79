/** The parts of a transaction the account ledger reads and updates. */
module Transactions {
  import opened Wrappers
  import opened Kernel
  import opened Coins

  /** CoinData: the coins a transaction spends and the outputs it creates; `to` is updated in place. */
  class CoinData {
    var from: seq<Coin>
    var to: seq<Coin>

    constructor (from: seq<Coin>, to: seq<Coin>)
      ensures this.from == from && this.to == to
    {
      this.from := from;
      this.to := to;
    }
  }

  datatype TxStatus = Unconfirmed | Confirmed

  /**
   * A transaction: its hash as serialized bytes, the addresses getAllRelativeAddress reports,
   * its coin data (null when absent), its remark bytes and its time.
   */
  datatype Transaction = Transaction(
    hash: Bytes,
    relatives: seq<Bytes>,
    coinData: CoinData?,
    remark: Option<Bytes>,
    time: int)

  /** TransactionInfoPo as stored, with the local addresses it was saved for. */
  datatype TxInfoRecord = TxInfoRecord(txHash: Bytes, status: TxStatus, addresses: seq<Bytes>)
}
