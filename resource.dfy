/**
 * AccountLedgerResource, the RPC front of the account ledger: the input checks of the
 * balance and transfer endpoints, and the paging of the transaction list.
 */
module LedgerResource {
  import opened Wrappers
  import opened Kernel
  import AccountLedger

  // ---- getBalance ----

  /**
   * getBalance(address): a string that does not decode, or decodes to the wrong length, is a
   * parameter error; a service that throws or answers null gives UNKNOW_ERROR; otherwise the
   * service's Result is returned unchanged. `decode` is Base58.decode (None when it throws);
   * `answer` is the service call (Err when it throws, Ok(None) when it returns null).
   */
  function GetBalance<B>(address: Option<string>, decode: string -> Option<Bytes>,
                         answer: Bytes -> Result<Option<Response<B>>, ErrorCode>): (r: Response<B>)
    ensures address.None? || decode(address.value).None? ==> r == Failure(ParameterError, None)
    ensures address.Some? && decode(address.value).Some? ==>
      var bytes := decode(address.value).value;
      (|bytes| != HashLength ==> r == Failure(ParameterError, None))
      && (|bytes| == HashLength && (answer(bytes).Err? || answer(bytes).value.None?) ==> r == Failure(UnknownError, None))
      && (|bytes| == HashLength && answer(bytes).Ok? && answer(bytes).value.Some? ==> r == answer(bytes).value.value)
  {
    if address.None? then Failure(ParameterError, None)
    else
      var decoded := decode(address.value);
      if decoded.None? then Failure(ParameterError, None)
      else if |decoded.value| != HashLength then Failure(ParameterError, None)
      else
        var result := answer(decoded.value);
        if result.Err? || result.value.None? then Failure(UnknownError, None)
        else result.value.value
  }

  /**
   * The endpoint over the modelled service: a balance comes back exactly for an address
   * that decodes to a local 23-byte address the balance provider knows.
   */
  lemma BalanceEndpointOverService<B>(service: AccountLedger.AccountLedgerService, address: Option<string>,
                                      decode: string -> Option<Bytes>, balanceOf: Bytes -> Option<B>,
                                      answer: Bytes -> Result<Option<Response<B>>, ErrorCode>)
    requires forall b :: answer(b) == Ok(Some(service.GetBalance(Some(b), balanceOf)))
    ensures var r := GetBalance(address, decode, answer);
      (r.Success? <==>
        address.Some? && decode(address.value).Some? && |decode(address.value).value| == HashLength
        && decode(address.value).value in AccountLedger.Registered(service.accounts)
        && balanceOf(decode(address.value).value).Some?)
      && (address.Some? && decode(address.value).Some? && |decode(address.value).value| == HashLength && r.Failure? ==>
            r == Failure(AccountNotExist, None))
      && (r.Failure? ==> r.code in {ParameterError, AccountNotExist})
  {
  }

  // ---- transfer ----

  /** The transfer form: sender, receiver, amount in Na, password and remark. */
  datatype TransferForm = TransferForm(address: string, toAddress: string, amount: int,
                                       password: Option<string>, remark: Option<string>)

  /** The arguments the resource hands to the service's transfer. */
  datatype TransferArgs = TransferArgs(from: Option<Bytes>, to: Option<Bytes>, values: Option<int>,
                                       password: Option<string>, remark: Option<string>)

  /** A request refused with an error code, or passed on. */
  datatype Gate<T> = Reject(code: ErrorCode) | Forward(arg: T)

  /**
   * transfer(form): null form, then the sender and receiver addresses, then the amount, in
   * that order; a request that passes is forwarded. `validAddress` is Address.validAddress
   * and `addressOf` is AddressTool.getAddress.
   */
  function TransferGate(form: Option<TransferForm>, validAddress: string -> bool,
                        addressOf: string -> Bytes): (r: Gate<TransferArgs>)
    ensures form.None? ==> r == Reject(ParameterError)
    ensures form.Some? && !validAddress(form.value.address) ==> r == Reject(AddressError)
    ensures form.Some? && validAddress(form.value.address) && !validAddress(form.value.toAddress) ==>
      r == Reject(AddressError)
    ensures form.Some? && validAddress(form.value.address) && validAddress(form.value.toAddress) && form.value.amount <= 0 ==>
      r == Reject(ParameterError)
    ensures r.Forward? <==>
      form.Some? && validAddress(form.value.address) && validAddress(form.value.toAddress) && form.value.amount > 0
    ensures r.Forward? ==>
      r.arg == TransferArgs(Some(addressOf(form.value.address)), Some(addressOf(form.value.toAddress)),
                            Some(form.value.amount), form.value.password, form.value.remark)
  {
    if form.None? then Reject(ParameterError)
    else
      var f := form.value;
      if !validAddress(f.address) then Reject(AddressError)
      else if !validAddress(f.toAddress) then Reject(AddressError)
      else if f.amount <= 0 then Reject(ParameterError)
      else Forward(TransferArgs(Some(addressOf(f.address)), Some(addressOf(f.toAddress)), Some(f.amount), f.password, f.remark))
  }

  /**
   * A forwarded request always carries a positive amount, so the service's own null-amount
   * and amount checks never fire behind the resource.
   */
  lemma ForwardedAmountPassesService(form: Option<TransferForm>, validAddress: string -> bool,
                                     addressOf: string -> Bytes)
    requires TransferGate(form, validAddress, addressOf).Forward?
    ensures var a := TransferGate(form, validAddress, addressOf).arg;
      a.values.Some? && a.values.value > 0 && a.from.Some? && a.to.Some?
  {
  }

  // ---- getTxInfoList ----

  const Int32Min: int := -0x8000_0000
  const Int32Max: int := 0x7FFF_FFFF

  /** A Java `int`. */
  type Int32 = x: int | Int32Min <= x <= Int32Max

  /** Java `int` arithmetic: the mathematical value reduced into the 32-bit range. */
  function Wrap32(x: int): (r: Int32)
    ensures (x - r) % 0x1_0000_0000 == 0
    ensures Int32Min <= x <= Int32Max ==> r == x
  {
    (x - Int32Min) % 0x1_0000_0000 + Int32Min
  }

  /** Page: the requested number and size, the total, and the items when there were any. */
  datatype Page<T> = Page(pageNumber: int, pageSize: int, total: int, list: Option<seq<T>>)

  /**
   * The Result the endpoint builds: its success flag, the error code when one was set, and
   * the page. `new Result<>()` leaves the flag false and the code unset.
   */
  datatype PageResult<T> = PageResult(success: bool, errorCode: Option<ErrorCode>, data: Option<Page<T>>)

  function Failed<T>(code: ErrorCode): PageResult<T> {
    PageResult(false, Some(code), None)
  }

  /** The defaulting of the page parameters: a null or 0 value becomes the default. */
  function Defaulted(value: Option<Int32>, default: Int32): (r: Int32)
    ensures value.None? || value.value == 0 ==> r == default
    ensures value.Some? && value.value != 0 ==> r == value.value
  {
    if value.None? || value.value == 0 then default else value.value
  }

  /** The range check after defaulting. */
  predicate PageParamsValid(pageNumber: int, pageSize: int) {
    pageNumber >= 0 && pageSize >= 0 && pageSize <= 100
  }

  /** `pageNumber * pageSize - pageSize` as the source computes it, in 32-bit arithmetic. */
  function PageStartAsWritten(pageNumber: Int32, pageSize: Int32): (r: Int32)
    ensures (r - (pageNumber * pageSize - pageSize)) % 0x1_0000_0000 == 0
  {
    Wrap32(Wrap32(pageNumber * pageSize) - pageSize)
  }

  /** The start of the page: the items of the earlier pages are skipped. */
  function PageStart(pageNumber: int, pageSize: int): (r: int)
    requires PageParamsValid(pageNumber, pageSize) && pageNumber >= 1
    ensures 0 <= r && r == (pageNumber - 1) * pageSize
  {
    pageNumber * pageSize - pageSize
  }

  /** A page number the range check accepts makes the 32-bit start negative. */
  lemma PageStartOverflows()
    ensures PageParamsValid(21474838, 100)
    ensures PageStartAsWritten(21474838, 100) == -2147483596
    ensures PageStart(21474838, 100) == 2147483700
  {
  }

  /**
   * A page number the range check accepts whose 32-bit start wraps to a small non-negative
   * offset: the source then pages from item 4 and answers success, where the intended start
   * lies past the end of any shorter history and the page has no list.
   */
  lemma PageStartWrapsSilently<I, D>(items: seq<I>, toDto: I -> D)
    requires 5 <= |items| < 4294967300
    ensures PageParamsValid(42949674, 100)
    ensures PageStartAsWritten(42949674, 100) == 4 && 4 < |items|
    ensures PageStart(42949674, 100) == 4294967300
    ensures PageOf(42949674, 100, items, toDto).data.value.list.None?
  {
  }

  /** Where the product fits in 32 bits the source's start is the intended one. */
  lemma PageStartAgrees(pageNumber: Int32, pageSize: Int32)
    requires PageParamsValid(pageNumber, pageSize) && pageNumber >= 1
    requires pageNumber * pageSize <= Int32Max
    ensures PageStartAsWritten(pageNumber, pageSize) == PageStart(pageNumber, pageSize)
  {
    assert 0 <= pageNumber * pageSize;
    assert 0 <= pageNumber * pageSize - pageSize;
  }

  /** The page after the start is known to be before the end: `min(start + size, total)`. */
  function PageEnd(start: int, pageSize: int, total: int): (r: int)
    ensures r <= total && r <= start + pageSize
    ensures r == total || r == start + pageSize
  {
    if start + pageSize > total then total else start + pageSize
  }

  /**
   * The page for `items`: it reports the total; past the end it has no list, otherwise it
   * holds the items from `(n - 1) * size` on, `size` of them or as many as are left.
   */
  function PageOf<I, D>(n: int, size: int, items: seq<I>, toDto: I -> D): (r: PageResult<D>)
    requires PageParamsValid(n, size) && n >= 1
    ensures r.errorCode.None? && r.data.Some? && r.data.value.total == |items|
    ensures r.data.value.pageNumber == n && r.data.value.pageSize == size
    ensures r.success <==> r.data.value.list.Some?
    ensures r.data.value.list.None? <==> PageStart(n, size) >= |items|
    ensures r.data.value.list.Some? ==>
      |r.data.value.list.value| == (if PageStart(n, size) + size <= |items| then size else |items| - PageStart(n, size))
      && forall k :: 0 <= k < |r.data.value.list.value| ==> r.data.value.list.value[k] == toDto(items[PageStart(n, size) + k])
  {
    var start := PageStart(n, size);
    if start >= |items| then PageResult(false, None, Some(Page(n, size, |items|, None)))
    else
      var end := PageEnd(start, size, |items|);
      PageResult(true, None, Some(Page(n, size, |items|, Some(seq(end - start, k requires 0 <= k < end - start => toDto(items[start + k]))))))
  }

  /** The answer of getTxInfoList, branch by branch. */
  function TxInfoList<I, D>(pageNumber: Option<Int32>, pageSize: Option<Int32>, address: Option<string>,
                            decode: string -> Option<Bytes>, infos: Bytes -> Result<seq<I>, ErrorCode>,
                            toDto: I -> D): (r: PageResult<D>)
    ensures var n := Defaulted(pageNumber, 1);
      var size := Defaulted(pageSize, 10);
      (!PageParamsValid(n, size) ==> r == Failed(ParameterError))
      && (PageParamsValid(n, size) && (address.None? || decode(address.value).None?) ==> r == Failed(ParameterError))
      && (PageParamsValid(n, size) && address.Some? && decode(address.value).Some? && infos(decode(address.value).value).Err? ==>
            r == Failed(infos(decode(address.value).value).error))
      && (r.data.Some? <==> PageParamsValid(n, size) && address.Some? && decode(address.value).Some? && infos(decode(address.value).value).Ok?)
  {
    var n := Defaulted(pageNumber, 1);
    var size := Defaulted(pageSize, 10);
    if !PageParamsValid(n, size) then Failed(ParameterError)
    else if address.None? || decode(address.value).None? then Failed(ParameterError)
    else
      var answer := infos(decode(address.value).value);
      if answer.Err? then Failed(answer.error) else PageOf(n, size, answer.value, toDto)
  }

  /**
   * getTxInfoList(pageNumber, pageSize, address). `decode` is Base58.decode (None when it
   * throws), `infos` the service's getTxInfoList (its list, or its error code), `toDto` the
   * TransactionInfoDto constructor. The start is computed without 32-bit wrap-around.
   */
  method GetTxInfoList<I, D>(pageNumber: Option<Int32>, pageSize: Option<Int32>, address: Option<string>,
                             decode: string -> Option<Bytes>, infos: Bytes -> Result<seq<I>, ErrorCode>,
                             toDto: I -> D) returns (r: PageResult<D>)
    ensures r == TxInfoList(pageNumber, pageSize, address, decode, infos, toDto)
  {
    var n := Defaulted(pageNumber, 1);
    var size := Defaulted(pageSize, 10);
    if !PageParamsValid(n, size) {
      return Failed(ParameterError);
    }
    if address.None? {
      return Failed(ParameterError);
    }
    var addressBytes := decode(address.value);
    if addressBytes.None? {
      return Failed(ParameterError);
    }
    var result := infos(addressBytes.value);
    if result.Err? {
      return Failed(result.error);
    }
    var items := result.value;
    var total := |items|;
    var start := PageStart(n, size);
    if start >= total {
      return PageResult(false, None, Some(Page(n, size, total, None)));
    }
    var end := start + size;
    if end > total {
      end := total;
    }
    var list := DtoList(items, start, end, toDto);
    r := PageResult(true, None, Some(Page(n, size, total, Some(list))));
  }

  /** Every item is on page `i / size + 1`, at position `i % size`. */
  lemma ItemOnItsPage<I, D>(i: int, size: int, items: seq<I>, toDto: I -> D)
    requires 0 <= i < |items| && 1 <= size <= 100
    ensures var n := i / size + 1;
      var p := PageOf(n, size, items, toDto).data.value;
      p.list.Some? && i % size < |p.list.value| && p.list.value[i % size] == toDto(items[i])
  {
    var n := i / size + 1;
    assert PageStart(n, size) == (i / size) * size;
    assert i == (i / size) * size + i % size;
  }

  /** The copy loop of getTxInfoList: one TransactionInfoDto for each item from `start` up to `end`. */
  method DtoList<I, D>(items: seq<I>, start: int, end: int, toDto: I -> D) returns (list: seq<D>)
    requires 0 <= start <= end <= |items|
    ensures list == seq(end - start, k requires 0 <= k < end - start => toDto(items[start + k]))
  {
    list := [];
    var i := start;
    while i < end
      invariant start <= i <= end
      invariant list == seq(i - start, k requires 0 <= k < i - start => toDto(items[start + k]))
    {
      list := list + [toDto(items[i])];
      i := i + 1;
    }
  }
}
