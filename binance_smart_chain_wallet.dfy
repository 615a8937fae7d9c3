/**
 * The Binance Smart Chain adapter: its confirmation default, the batched
 * block scanner, the receipt-polling loop and the network names. The status
 * machine, the transaction normalisation, the deposit filter and the fee
 * formula are those of `EvmWallet`.
 */
module BinanceSmartChainWallet {
  import opened Wrappers
  import opened Values
  import opened Numerals
  import opened JsonRpc
  import opened EvmWallet

  /** Confirmations required when neither the caller nor the configuration says. */
  const DefaultConfirmations: int := 10

  /** `$required ?? $this->confirmations`, where the constructor took `$config['confirmations'] ?? 10`. */
  function Required(argument: Option<int>, configured: Option<int>): int {
    argument.GetOr(configured.GetOr(DefaultConfirmations))
  }

  /**
   * `isDepositConfirmed($txid, $required)`: the shared depth check, with the
   * requirement taken from the argument, else the configuration, else 10.
   */
  function IsDepositConfirmed(transaction: Answer, head: Answer, argument: Option<int>, configured: Option<int>)
    : (ok: bool)
    ensures argument.Some? ==>
      (ok <==> Mined(transaction) && head.Success?
               && Confirmations(HeightOf(head), BlockOf(transaction)) >= argument.value)
    ensures argument.None? && configured.Some? ==>
      (ok <==> Mined(transaction) && head.Success?
               && Confirmations(HeightOf(head), BlockOf(transaction)) >= configured.value)
    ensures argument.None? && configured.None? ==>
      (ok <==> Mined(transaction) && head.Success?
               && Confirmations(HeightOf(head), BlockOf(transaction)) >= 10)
  {
    DepositConfirmed(transaction, head, Required(argument, configured))
  }

  // ---------------------------------------------------------------- the batched scanner

  /** The request for the block at height `i`: `eth_getBlockByNumber('0x' . dechex($i), true)` with id `i`. */
  function BlockRequest(i: int): (r: Request)
    ensures r.jsonrpc == "2.0" && r.methodName == "eth_getBlockByNumber" && r.id == i
    ensures r.params == [Str("0x" + DecHex(i)), Bool(true)]
  {
    Envelope("eth_getBlockByNumber", [Str("0x" + DecHex(i)), Bool(true)], i)
  }

  /** For heights the node can hold, the requested height reads back as the block number itself. */
  lemma BlockRequestNamesHeight(i: int)
    requires 0 <= i < Word
    ensures HexDecOf(BlockRequest(i).params[0]) == i
  {
    PrefixedDecHexRoundTrip(i);
  }

  /**
   * One batch exchange: Guzzle threw, or the body came back, already through
   * `json_decode(..., true)`.
   */
  datatype BatchExchange = BatchFailed(message: string) | BatchReplied(body: Value)

  /** `batchCall($calls)`: the decoded body, or null when the post threw. */
  function BatchCall(x: BatchExchange): (v: Value)
    ensures x.BatchFailed? ==> v == Null
    ensures x.BatchReplied? ==> v == x.body
  {
    match x
    case BatchFailed(_) => Null
    case BatchReplied(body) => body
  }

  /** `$res['result'] ?? []` when it is truthy and has a `transactions` member: the transactions listed. */
  function ListedTransactions(response: Value): seq<Value> {
    var block := Member(response, "result");
    if Truthy(block) && IsSet(block, "transactions") then Items(Member(block, "transactions")) else []
  }

  /** The records the batch responses yield, response by response. */
  function BatchDeposits(current: int, target: int, responses: seq<Value>): Result<seq<Deposit>, Thrown> {
    if responses == [] then Success([])
    else
      match BatchDeposits(current, target, responses[..|responses| - 1])
      case Failure(e) => Failure(e)
      case Success(ds) =>
        match TransactionDeposits(current, target, ListedTransactions(responses[|responses| - 1]))
        case Failure(e) => Failure(e)
        case Success(more) => Success(ds + more)
  }

  lemma {:induction false} BatchDepositsFailureSticks(current: int, target: int, responses: seq<Value>, n: nat)
    requires n <= |responses|
    requires BatchDeposits(current, target, responses[..n]).Failure?
    ensures BatchDeposits(current, target, responses) == BatchDeposits(current, target, responses[..n])
    decreases |responses| - n
  {
    if n < |responses| {
      assert responses[..n + 1][..n] == responses[..n];
      BatchDepositsFailureSticks(current, target, responses, n + 1);
    } else {
      assert responses[..n] == responses;
    }
  }

  /** `d` is the record of one of the transactions listed in the block of `response`. */
  predicate InBlock(current: int, target: int, response: Value, d: Deposit) {
    exists j :: 0 <= j < |ListedTransactions(response)| && Yields(current, target, ListedTransactions(response)[j], d)
  }

  /**
   * A successful batch scan emits a record exactly for each qualifying
   * transaction listed in any response's block.
   */
  lemma {:induction false} BatchDepositsMembership(current: int, target: int, responses: seq<Value>)
    requires BatchDeposits(current, target, responses).Success?
    ensures forall d :: (d in BatchDeposits(current, target, responses).value
      <==> exists k :: 0 <= k < |responses| && InBlock(current, target, responses[k], d))
  {
    if responses != [] {
      var init := responses[..|responses| - 1];
      var last := responses[|responses| - 1];
      assert BatchDeposits(current, target, init).Success?;
      BatchDepositsMembership(current, target, init);
      var txs := ListedTransactions(last);
      assert TransactionDeposits(current, target, txs).Success?;
      TransactionDepositsMembership(current, target, txs);
      var ds := BatchDeposits(current, target, init).value;
      var more := TransactionDeposits(current, target, txs).value;
      var all := BatchDeposits(current, target, responses).value;
      assert all == ds + more;
      forall d
        ensures d in all <==> exists k :: 0 <= k < |responses| && InBlock(current, target, responses[k], d)
      {
        assert d in all <==> d in ds || d in more;
        assert d in more <==> InBlock(current, target, last, d);
        assert (exists k :: 0 <= k < |init| && InBlock(current, target, init[k], d))
           <==> (exists k :: 0 <= k < |responses| - 1 && InBlock(current, target, responses[k], d)) by {
          assert forall k :: 0 <= k < |init| ==> init[k] == responses[k];
        }
      }
    }
  }

  /** The batch for heights `lo` up to `hi`: one `eth_getBlockByNumber` request per height, ascending. */
  method BuildRequests(lo: int, hi: int) returns (requests: seq<Request>)
    ensures |requests| == if lo <= hi then hi - lo + 1 else 0
    ensures forall k :: 0 <= k < |requests| ==> requests[k] == BlockRequest(lo + k)
  {
    requests := [];
    var i := lo;
    while i <= hi
      invariant |requests| == i - lo
      invariant lo <= i <= hi + 1 || (i == lo && lo > hi)
      invariant forall k :: 0 <= k < |requests| ==> requests[k] == BlockRequest(lo + k)
      decreases hi - i
    {
      requests := requests + [BlockRequest(i)];
      i := i + 1;
    }
  }

  /** The outer loop over the batch responses. */
  method ScanResponses(current: int, target: int, responses: seq<Value>)
    returns (r: Result<seq<Deposit>, Thrown>)
    ensures r == BatchDeposits(current, target, responses)
  {
    var ds: seq<Deposit> := [];
    var k := 0;
    while k < |responses|
      invariant 0 <= k <= |responses|
      invariant BatchDeposits(current, target, responses[..k]) == Success(ds)
    {
      assert responses[..k + 1][..k] == responses[..k];
      var more := ScanTransactions(current, target, ListedTransactions(responses[k]));
      if more.Failure? {
        BatchDepositsFailureSticks(current, target, responses, k + 1);
        return Failure(more.error);
      }
      ds := ds + more.value;
      k := k + 1;
    }
    assert responses[..k] == responses;
    r := Success(ds);
  }

  /** What `listSinceBlock` does once the batch reply is in. */
  function ListingOf(current: int, target: int, start: int, results: Value): Result<Option<Listing>, Thrown> {
    if !IsArray(results) then Success(None)
    else
      match BatchDeposits(current, target, Items(results))
      case Failure(e) => Failure(e)
      case Success(ds) => Success(Some(Listing(ds, Int(start))))
  }

  /**
   * `listSinceBlock($blockhash, $target)`. `reference` is the numeric block
   * number passed, or None when the argument is not numeric; `head` is the
   * answer to eth_blockNumber, which throws through; `batch` is the node's
   * reply to a batch. Returns the batch it posted and the outcome: the
   * listing, None for the `false` returned when the reply is not an array,
   * or the exception.
   */
  method ListSinceBlock(reference: Option<int>, argument: Option<int>, configured: Option<int>,
                        head: Answer, batch: seq<Request> -> BatchExchange)
    returns (requests: seq<Request>, r: Result<Option<Listing>, Thrown>)
    ensures head.Failure? ==> requests == [] && r == Failure(head.error)
    ensures head.Success? ==>
      var target, current := Required(argument, configured), HexDecOf(head.value);
      var start := reference.GetOr(current);
      && |requests| == (if start - target <= current then current - (start - target) + 1 else 0)
      && (forall k :: 0 <= k < |requests| ==> requests[k] == BlockRequest(start - target + k))
      && r == ListingOf(current, target, start, BatchCall(batch(requests)))
  {
    var target := Required(argument, configured);
    if head.Failure? {
      return [], Failure(head.error);
    }
    var current := HexDecOf(head.value);
    var start := reference.GetOr(current);
    requests := BuildRequests(start - target, current);
    var results := BatchCall(batch(requests));
    if !IsArray(results) {
      return requests, Success(None);
    }
    var ds := ScanResponses(current, target, Items(results));
    if ds.Failure? {
      return requests, Failure(ds.error);
    }
    r := Success(Some(Listing(ds.value, Int(start))));
  }

  /**
   * A listing checkpoints the starting height, and holds a record exactly
   * for each qualifying transaction of the blocks the batch returned.
   */
  lemma ListingMembership(current: int, target: int, start: int, results: Value)
    requires ListingOf(current, target, start, results).Success?
    requires ListingOf(current, target, start, results).value.Some?
    ensures var listing := ListingOf(current, target, start, results).value.value;
      && listing.lastblock == Int(start)
      && forall d :: (d in listing.transactions
           <==> exists k :: 0 <= k < |Items(results)| && InBlock(current, target, Items(results)[k], d))
  {
    BatchDepositsMembership(current, target, Items(results));
  }

  // ---------------------------------------------------------------- receipt polling

  const ReceiptNotFound: Thrown :=
    Thrown(PlainException, "Transaction receipt not found after maximum attempts", 0)

  /**
   * The outcome of polling from attempt `k` on, where `receiptAt(n)` is the
   * answer to the n-th eth_getTransactionReceipt request: the first
   * non-null receipt, the first exception, or the give-up exception once
   * `maxAttempts` requests all returned null.
   */
  function Poll(receiptAt: nat -> Answer, k: nat, maxAttempts: int): Answer
    decreases maxAttempts - k
  {
    if k >= maxAttempts then Failure(ReceiptNotFound)
    else
      match receiptAt(k)
      case Failure(e) => Failure(e)
      case Success(v) => if v != Null then Success(v) else Poll(receiptAt, k + 1, maxAttempts)
  }

  /** The number of requests polling from attempt `k` on makes. */
  function PollAttempts(receiptAt: nat -> Answer, k: nat, maxAttempts: int): nat
    decreases maxAttempts - k
  {
    if k >= maxAttempts then 0
    else if receiptAt(k).Failure? || receiptAt(k).value != Null then 1
    else 1 + PollAttempts(receiptAt, k + 1, maxAttempts)
  }

  /** The number of attempts `waitForTransactionReceipt` makes when the caller gives none. */
  const DefaultMaxAttempts: int := 50

  /**
   * `waitForTransactionReceipt($txHash, $maxAttempts = 50)`: request the
   * receipt until one is not null, at most `maxAttempts` times. Returns the
   * outcome and the number of requests made; the pauses between them are
   * not modelled.
   */
  method WaitForTransactionReceipt(receiptAt: nat -> Answer, argument: Option<int>)
    returns (r: Answer, attempts: nat)
    ensures r == Poll(receiptAt, 0, argument.GetOr(DefaultMaxAttempts))
    ensures attempts == PollAttempts(receiptAt, 0, argument.GetOr(DefaultMaxAttempts))
  {
    var maxAttempts := argument.GetOr(DefaultMaxAttempts);
    var i: nat := 0;
    while i < maxAttempts
      invariant Poll(receiptAt, 0, maxAttempts) == Poll(receiptAt, i, maxAttempts)
      invariant PollAttempts(receiptAt, 0, maxAttempts) == i + PollAttempts(receiptAt, i, maxAttempts)
      invariant forall n :: 0 <= n < i ==> receiptAt(n) == Success(Null)
      decreases maxAttempts - i
    {
      var receipt := receiptAt(i);
      if receipt.Failure? {
        return Failure(receipt.error), i + 1;
      }
      if receipt.value != Null {
        return receipt, i + 1;
      }
      i := i + 1;
    }
    r, attempts := Failure(ReceiptNotFound), i;
  }

  /**
   * Polling stops at the first receipt that is not null, after at most
   * `maxAttempts` requests, every earlier request having returned null.
   */
  lemma {:induction false} PollReturnsFirstReceipt(receiptAt: nat -> Answer, k: nat, maxAttempts: int)
    requires Poll(receiptAt, k, maxAttempts).Success?
    ensures var n := k + PollAttempts(receiptAt, k, maxAttempts) - 1;
      k <= n < maxAttempts
      && receiptAt(n) == Poll(receiptAt, k, maxAttempts) && receiptAt(n).value != Null
      && forall m :: k <= m < n ==> receiptAt(m) == Success(Null)
    decreases maxAttempts - k
  {
    if receiptAt(k).Success? && receiptAt(k).value == Null {
      PollReturnsFirstReceipt(receiptAt, k + 1, maxAttempts);
    }
  }

  /** When every one of the `maxAttempts` requests returns null, polling gives up with the exception. */
  lemma {:induction false} PollGivesUp(receiptAt: nat -> Answer, k: nat, maxAttempts: int)
    requires forall m :: k <= m < maxAttempts ==> receiptAt(m) == Success(Null)
    ensures Poll(receiptAt, k, maxAttempts) == Failure(ReceiptNotFound)
    ensures PollAttempts(receiptAt, k, maxAttempts) == if maxAttempts > k then maxAttempts - k else 0
    decreases maxAttempts - k
  {
    if k < maxAttempts {
      PollGivesUp(receiptAt, k + 1, maxAttempts);
    }
  }

  /** Polling never makes more than `maxAttempts` requests, and none when that is not positive. */
  lemma {:induction false} PollAttemptsBounded(receiptAt: nat -> Answer, k: nat, maxAttempts: int)
    ensures PollAttempts(receiptAt, k, maxAttempts) <= if maxAttempts > k then maxAttempts - k else 0
    decreases maxAttempts - k
  {
    if k < maxAttempts {
      PollAttemptsBounded(receiptAt, k + 1, maxAttempts);
    }
  }

  // ---------------------------------------------------------------- network names

  /** `getNetworkName($networkId)`: the `switch` compares loosely with '56' and then '97'. */
  function GetNetworkName(networkId: Value): (name: string)
    ensures LooselyEqualsDecimal(networkId, 56) ==> name == "Binance Smart Chain Mainnet"
    ensures !LooselyEqualsDecimal(networkId, 56) && LooselyEqualsDecimal(networkId, 97) ==>
      name == "Binance Smart Chain Testnet"
    ensures !LooselyEqualsDecimal(networkId, 56) && !LooselyEqualsDecimal(networkId, 97) ==>
      name == "Unknown network (ID: " + TextOf(networkId) + ")"
  {
    if LooselyEqualsDecimal(networkId, 56) then "Binance Smart Chain Mainnet"
    else if LooselyEqualsDecimal(networkId, 97) then "Binance Smart Chain Testnet"
    else "Unknown network (ID: " + TextOf(networkId) + ")"
  }

  /** The ids as `net_version` reports them (decimal strings) name the two networks; other ids do not. */
  lemma NetworkNames()
    ensures GetNetworkName(Str("56")) == "Binance Smart Chain Mainnet"
    ensures GetNetworkName(Str("97")) == "Binance Smart Chain Testnet"
    ensures GetNetworkName(Int(97)) == "Binance Smart Chain Testnet"
    ensures GetNetworkName(Str("1")) == "Unknown network (ID: 1)"
  {
    DecimalOfTwoDigits("56");
    DecimalOfTwoDigits("97");
    DecimalOfOneDigit("1");
  }
}
