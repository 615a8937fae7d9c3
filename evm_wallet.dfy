/**
 * What the two EVM adapters (Binance Smart Chain and Ethereum) share line for
 * line: the transaction-status state machine, the confirmation-depth check,
 * the normalisation of transaction objects, the deposit filter of the block
 * scanners and the EIP-1559 fee formula. Node answers are inputs: an
 * `Answer` is what one `call` returned or threw.
 */
module EvmWallet {
  import opened Wrappers
  import opened Values
  import opened Numerals
  import EncryptionHelper

  // ---------------------------------------------------------------- transaction status

  datatype TxStatus = NotFound | Pending | Successful | Confirmed | Failed | Error {
    /** The string `getTransactionStatus` returns. */
    function Name(): string {
      match this
      case NotFound => "NOT_FOUND"
      case Pending => "PENDING"
      case Successful => "SUCCESS"
      case Confirmed => "CONFIRMED"
      case Failed => "FAILED"
      case Error => "ERROR"
    }
  }

  /** The depth at which a successful transaction is reported CONFIRMED. */
  const ConfirmedDepth: int := 12

  /** Blocks on top of the transaction's block, that block included: `current - block + 1`. */
  function Confirmations(current: int, block: int): int {
    current - block + 1
  }

  /** eth_getTransactionByHash answered with a truthy transaction. */
  predicate Found(transaction: Answer) {
    transaction.Success? && Truthy(transaction.value)
  }

  /** The transaction was found and carries a non-null blockNumber. */
  predicate Mined(transaction: Answer) {
    Found(transaction) && IsSet(transaction.value, "blockNumber")
  }

  /** `hexdec($transaction['blockNumber'])`. */
  function BlockOf(transaction: Answer): nat {
    if transaction.Success? then HexDecOf(Member(transaction.value, "blockNumber")) else 0
  }

  /** eth_getTransactionReceipt answered with a truthy receipt. */
  predicate HasReceipt(receipt: Answer) {
    receipt.Success? && Truthy(receipt.value)
  }

  /** `hexdec($receipt['status']) === 1`. */
  predicate ReceiptSucceeded(receipt: Answer) {
    receipt.Success? && HexDecOf(Member(receipt.value, "status")) == 1
  }

  /** `hexdec($this->call('eth_blockNumber'))`. */
  function HeightOf(head: Answer): nat {
    if head.Success? then HexDecOf(head.value) else 0
  }

  /**
   * `getTransactionStatus($txHash)`, given the answers to the three requests
   * it may make, in order: eth_getTransactionByHash, eth_getTransactionReceipt
   * and eth_blockNumber. An answer the code does not reach is ignored; an
   * exception thrown by any request is caught and reported as ERROR.
   */
  function TransactionStatus(transaction: Answer, receipt: Answer, head: Answer): (s: TxStatus)
    ensures s == NotFound <==> transaction.Success? && !Truthy(transaction.value)
    ensures s == Pending <==>
      Found(transaction)
      && (!IsSet(transaction.value, "blockNumber") || (receipt.Success? && !Truthy(receipt.value)))
    ensures s == Failed <==> Mined(transaction) && HasReceipt(receipt) && !ReceiptSucceeded(receipt)
    ensures s == Confirmed <==>
      Mined(transaction) && HasReceipt(receipt) && ReceiptSucceeded(receipt) && head.Success?
      && Confirmations(HeightOf(head), BlockOf(transaction)) >= ConfirmedDepth
    ensures s == Successful <==>
      Mined(transaction) && HasReceipt(receipt) && ReceiptSucceeded(receipt) && head.Success?
      && Confirmations(HeightOf(head), BlockOf(transaction)) < ConfirmedDepth
    ensures s == Error <==>
      transaction.Failure?
      || (Mined(transaction) && receipt.Failure?)
      || (Mined(transaction) && HasReceipt(receipt) && ReceiptSucceeded(receipt) && head.Failure?)
  {
    match transaction
    case Failure(_) => Error
    case Success(tx) =>
      if !Truthy(tx) then NotFound
      else if !IsSet(tx, "blockNumber") then Pending
      else match receipt
        case Failure(_) => Error
        case Success(rc) =>
          if !Truthy(rc) then Pending
          else if HexDecOf(Member(rc, "status")) != 1 then Failed
          else match head
            case Failure(_) => Error
            case Success(h) =>
              if Confirmations(HexDecOf(h), HexDecOf(Member(tx, "blockNumber"))) >= ConfirmedDepth
              then Confirmed else Successful
  }

  /**
   * Once CONFIRMED, a transaction stays CONFIRMED as the chain grows: a
   * higher head never turns the status back.
   */
  lemma ConfirmedIsStable(transaction: Answer, receipt: Answer, head: Answer, later: Answer)
    requires TransactionStatus(transaction, receipt, head) == Confirmed
    requires later.Success? && HeightOf(later) >= HeightOf(head)
    ensures TransactionStatus(transaction, receipt, later) == Confirmed
  {
  }

  /**
   * `isDepositConfirmed($txid, $required)`, given the answers to
   * eth_getTransactionByHash and eth_blockNumber: a missing or unmined
   * transaction and any exception all give false.
   */
  function DepositConfirmed(transaction: Answer, head: Answer, required: int): (ok: bool)
    ensures ok <==>
      Mined(transaction) && head.Success?
      && Confirmations(HeightOf(head), BlockOf(transaction)) >= required
  {
    match transaction
    case Failure(_) => false
    case Success(tx) =>
      if !Truthy(tx) then false
      else match head
        case Failure(_) => false
        case Success(h) =>
          if !IsSet(tx, "blockNumber") then false
          else Confirmations(HexDecOf(h), HexDecOf(Member(tx, "blockNumber"))) >= required
  }

  /**
   * The two checks agree: a transaction whose status is CONFIRMED passes the
   * deposit check for any requirement up to 12, on the same answers.
   */
  lemma ConfirmedStatusPassesDepositCheck(transaction: Answer, receipt: Answer, head: Answer, required: int)
    requires TransactionStatus(transaction, receipt, head) == Confirmed
    requires required <= ConfirmedDepth
    ensures DepositConfirmed(transaction, head, required)
  {
  }

  // ---------------------------------------------------------------- transaction normalisation

  /** The fields `formatTransaction` hex-decodes to integers. */
  const NumericKeys: set<string> :=
    {"blockNumber", "gas", "gasPrice", "nonce", "transactionIndex", "type", "chainId", "v"}

  /** Call data longer than this is cut to this many characters. */
  const InputShown: nat := 66

  /** An amount in wei as a whole coin: `$wei / 1e18`, taken exactly. */
  function WeiToUnit(wei: nat): real {
    wei as real / Pow10(18) as real
  }

  /** `formatInput($input)`: call data over 66 characters becomes its first 66 and '...'. */
  function FormatInput(v: Value): (r: Value)
    ensures |TextOf(v)| <= InputShown ==> r == v
    ensures |TextOf(v)| > InputShown ==>
      r.Str? && |r.s| == InputShown + 3 && r.s[..InputShown] == TextOf(v)[..InputShown]
      && r.s[InputShown..] == "..."
  {
    var text := TextOf(v);
    if |text| > InputShown then Str(text[..InputShown] + "...") else v
  }

  /** Shortening is done once: shortened call data is left as it is. */
  lemma FormatInputIdempotent(v: Value)
    ensures FormatInput(FormatInput(v)) == FormatInput(v)
  {
    var r := FormatInput(v);
    if |TextOf(v)| > InputShown {
      assert TextOf(r) == r.s;
      assert r.s[..InputShown] + "..." == r.s;
    }
  }

  /** One field of `formatTransaction`'s result, by key. */
  function FormatField(key: string, v: Value): Value {
    if key in NumericKeys then Int(HexDecOf(v))
    else if key == "value" then Float(WeiToUnit(HexDecOf(v)))
    else if key == "input" then FormatInput(v)
    else v
  }

  /** The formatted transaction: the same keys in the same order, each value formatted. */
  function Formatted(tx: seq<(string, Value)>): seq<(string, Value)> {
    seq(|tx|, i requires 0 <= i < |tx| => (tx[i].0, FormatField(tx[i].0, tx[i].1)))
  }

  /** `formatTransaction($transaction)`: fills the result one key at a time. */
  method FormatTransaction(tx: seq<(string, Value)>) returns (formatted: seq<(string, Value)>)
    ensures formatted == Formatted(tx)
  {
    formatted := [];
    var k := 0;
    while k < |tx|
      invariant 0 <= k <= |tx|
      invariant |formatted| == k
      invariant forall i :: 0 <= i < k ==> formatted[i] == (tx[i].0, FormatField(tx[i].0, tx[i].1))
    {
      formatted := formatted + [(tx[k].0, FormatField(tx[k].0, tx[k].1))];
      k := k + 1;
    }
  }

  /**
   * Formatting keeps exactly the input's keys: a key present before reads
   * back as its formatted value, and an absent key stays absent.
   */
  lemma {:induction false} FormattedLookup(tx: seq<(string, Value)>, key: string)
    ensures HasKey(Formatted(tx), key) <==> HasKey(tx, key)
    ensures Lookup(Formatted(tx), key)
         == if HasKey(tx, key) then FormatField(key, Lookup(tx, key)) else Null
  {
    var f := Formatted(tx);
    assert forall i :: 0 <= i < |tx| ==> f[i].0 == tx[i].0;
    if tx != [] {
      assert f[1..] == Formatted(tx[1..]);
      FormattedLookup(tx[1..], key);
      if tx[0].0 != key {
        assert HasKey(tx, key) ==> HasKey(tx[1..], key) by {
          if HasKey(tx, key) {
            var i :| 0 <= i < |tx| && tx[i].0 == key;
            assert tx[1..][i - 1] == tx[i];
          }
        }
        assert HasKey(tx[1..], key) ==> HasKey(tx, key) by {
          if HasKey(tx[1..], key) {
            var i :| 0 <= i < |tx[1..]| && tx[1..][i].0 == key;
            assert tx[i + 1] == tx[1..][i];
          }
        }
        assert HasKey(f[1..], key) ==> HasKey(f, key) by {
          if HasKey(f[1..], key) {
            var i :| 0 <= i < |f[1..]| && f[1..][i].0 == key;
            assert f[i + 1] == f[1..][i];
          }
        }
        assert HasKey(f, key) ==> HasKey(f[1..], key) by {
          if HasKey(f, key) {
            var i :| 0 <= i < |f| && f[i].0 == key;
            assert f[1..][i - 1] == f[i];
          }
        }
      } else {
        assert f[0].0 == key;
      }
    }
  }

  // ---------------------------------------------------------------- the deposit filter

  /** One emitted record: `txid`, `address`, `from_address`, `amount`, `confirmations`, `blocknum`, `category`. */
  datatype Deposit = Deposit(txid: Value, address: Value, fromAddress: Value, amount: Value,
                             confirmations: int, blocknum: Value, category: string)

  /** `(float)$tx['value']` as `isZeroBalance` receives it: the formatted amount, 0 when absent. */
  function AmountOf(v: Value): real {
    match v
    case Float(x) => x
    case Int(i) => i as real
    case _ => 0.0
  }

  /** The scanners' depth, `$currentBlockNumber - $tx['blockNumber']`: no +1 here. */
  function Depth(current: int, tx: seq<(string, Value)>): int {
    current - NumberOf(Lookup(tx, "blockNumber"))
  }

  /** Whether a formatted transaction is emitted: deep enough, and not a zero amount. */
  predicate Qualifies(current: int, target: int, tx: seq<(string, Value)>) {
    Depth(current, tx) >= target
    && !EncryptionHelper.IsZeroBalance(AmountOf(Lookup(tx, "value")), EncryptionHelper.DefaultDecimals)
  }

  /** The record emitted for a formatted transaction. */
  function Record(current: int, tx: seq<(string, Value)>): (d: Deposit)
    ensures d.confirmations == Depth(current, tx) && d.category == "receive"
  {
    Deposit(Lookup(tx, "hash"), Lookup(tx, "to"), Lookup(tx, "from"), Lookup(tx, "value"),
            Depth(current, tx), Lookup(tx, "blockNumber"), "receive")
  }

  /** What PHP throws when `formatTransaction` is handed something that is not an array. */
  const NotAnArray: Thrown :=
    Thrown(TypeError, "formatTransaction(): Argument #1 ($transaction) must be of type array", 0)

  /**
   * The records one block's transaction list yields, in order; a listed
   * transaction that is not an array stops the scan with a TypeError.
   */
  function TransactionDeposits(current: int, target: int, txs: seq<Value>): Result<seq<Deposit>, Thrown> {
    if txs == [] then Success([])
    else
      match TransactionDeposits(current, target, txs[..|txs| - 1])
      case Failure(e) => Failure(e)
      case Success(ds) =>
        var t := txs[|txs| - 1];
        if !IsArray(t) then Failure(NotAnArray)
        else Success(ds + Emitted(current, target, t))
  }

  /** The formatted transaction a listed entry stands for. */
  function Entry(t: Value): seq<(string, Value)> {
    Formatted(Fields(t))
  }

  /** The records one listed entry yields: its record if it qualifies, none otherwise. */
  function Emitted(current: int, target: int, t: Value): seq<Deposit> {
    var f := Entry(t);
    if Qualifies(current, target, f) then [Record(current, f)] else []
  }

  /** `d` is the record of entry `t`, and `t` qualifies. */
  predicate Yields(current: int, target: int, t: Value, d: Deposit) {
    Qualifies(current, target, Entry(t)) && d == Record(current, Entry(t))
  }

  /** `d` is the record of one of the transactions `txs` that qualifies. */
  predicate Among(current: int, target: int, txs: seq<Value>, d: Deposit) {
    exists j :: 0 <= j < |txs| && Yields(current, target, txs[j], d)
  }

  /** Once a prefix of the list fails, the whole list fails the same way. */
  lemma {:induction false} TransactionDepositsFailureSticks(current: int, target: int, txs: seq<Value>, n: nat)
    requires n <= |txs|
    requires TransactionDeposits(current, target, txs[..n]).Failure?
    ensures TransactionDeposits(current, target, txs) == TransactionDeposits(current, target, txs[..n])
    decreases |txs| - n
  {
    if n < |txs| {
      assert txs[..n + 1][..n] == txs[..n];
      TransactionDepositsFailureSticks(current, target, txs, n + 1);
    } else {
      assert txs[..n] == txs;
    }
  }

  /** The inner loop of both scanners: format each listed transaction and keep those that qualify. */
  method ScanTransactions(current: int, target: int, txs: seq<Value>)
    returns (r: Result<seq<Deposit>, Thrown>)
    ensures r == TransactionDeposits(current, target, txs)
  {
    var ds: seq<Deposit> := [];
    var k := 0;
    while k < |txs|
      invariant 0 <= k <= |txs|
      invariant TransactionDeposits(current, target, txs[..k]) == Success(ds)
    {
      assert txs[..k + 1][..k] == txs[..k];
      if !IsArray(txs[k]) {
        TransactionDepositsFailureSticks(current, target, txs, k + 1);
        return Failure(NotAnArray);
      }
      var f := FormatTransaction(Fields(txs[k]));
      var emitted := if Qualifies(current, target, f) then [Record(current, f)] else [];
      assert emitted == Emitted(current, target, txs[k]);
      assert TransactionDeposits(current, target, txs[..k + 1]) == Success(ds + emitted);
      ds := ds + emitted;
      k := k + 1;
    }
    assert txs[..k] == txs;
    r := Success(ds);
  }

  /** A block's list scans successfully exactly when every entry is an array. */
  lemma {:induction false} TransactionDepositsSucceed(current: int, target: int, txs: seq<Value>)
    ensures TransactionDeposits(current, target, txs).Success?
        <==> forall j :: 0 <= j < |txs| ==> IsArray(txs[j])
  {
    if txs != [] {
      var init := txs[..|txs| - 1];
      TransactionDepositsSucceed(current, target, init);
      assert forall j :: 0 <= j < |init| ==> init[j] == txs[j];
      assert TransactionDeposits(current, target, txs).Success?
         <==> TransactionDeposits(current, target, init).Success? && IsArray(txs[|txs| - 1]);
    }
  }

  /**
   * After a successful scan of a block's list, a record is emitted exactly
   * for the entries that qualify.
   */
  lemma {:induction false} TransactionDepositsMembership(current: int, target: int, txs: seq<Value>)
    requires TransactionDeposits(current, target, txs).Success?
    ensures forall d :: (d in TransactionDeposits(current, target, txs).value
                         <==> exists j :: 0 <= j < |txs| && Yields(current, target, txs[j], d))
  {
    if txs != [] {
      var init := txs[..|txs| - 1];
      var t := txs[|txs| - 1];
      assert TransactionDeposits(current, target, init).Success?;
      TransactionDepositsMembership(current, target, init);
      var ds := TransactionDeposits(current, target, init).value;
      var all := TransactionDeposits(current, target, txs).value;
      assert all == ds + Emitted(current, target, t);
      forall d
        ensures d in all <==> exists j :: 0 <= j < |txs| && Yields(current, target, txs[j], d)
      {
        assert d in all <==> d in ds || d in Emitted(current, target, t);
        assert d in Emitted(current, target, t) <==> Yields(current, target, t, d);
        assert (exists j :: 0 <= j < |init| && Yields(current, target, init[j], d))
           <==> (exists j :: 0 <= j < |txs| - 1 && Yields(current, target, txs[j], d)) by {
          assert forall j :: 0 <= j < |init| ==> init[j] == txs[j];
        }
      }
    }
  }

  /** What a scanner's `listSinceBlock` returns: the deposit records and the checkpoint. */
  datatype Listing = Listing(transactions: seq<Deposit>, lastblock: Value)

  /** `hexdec($tx['blockNumber'])` on the transaction as the node sent it; 0 when it has none. */
  function RawHeight(tx: seq<(string, Value)>): nat {
    if HasKey(tx, "blockNumber") then HexDecOf(Lookup(tx, "blockNumber")) else 0
  }

  /** `blockNumber` is one of the hex-decoded keys. */
  lemma FormatsBlockNumber(v: Value)
    ensures FormatField("blockNumber", v) == Int(HexDecOf(v))
  {
  }

  /** `value` is converted from wei. */
  lemma FormatsValue(v: Value)
    ensures FormatField("value", v) == Float(WeiToUnit(HexDecOf(v)))
  {
  }

  /**
   * The filter in the node's own terms: a transaction is emitted exactly
   * when `current - blockNumber >= target` and its wei amount is present and
   * not zero. The fixed-point zero test on the converted amount loses
   * nothing.
   */
  lemma QualifiesIffNonZeroWei(current: int, target: int, tx: seq<(string, Value)>)
    ensures Qualifies(current, target, Formatted(tx))
        <==> current - RawHeight(tx) >= target
             && HasKey(tx, "value") && HexDecOf(Lookup(tx, "value")) != 0
  {
    FormattedDepth(current, tx);
    FormattedAmountIsZero(tx);
  }

  /** The depth of a formatted transaction counts from its hex-decoded block number. */
  lemma FormattedDepth(current: int, tx: seq<(string, Value)>)
    ensures Depth(current, Formatted(tx)) == current - RawHeight(tx)
  {
    FormattedLookup(tx, "blockNumber");
    FormatsBlockNumber(Lookup(tx, "blockNumber"));
  }

  /** The converted amount counts as zero exactly when the wei amount is missing or zero. */
  lemma FormattedAmountIsZero(tx: seq<(string, Value)>)
    ensures EncryptionHelper.IsZeroBalance(AmountOf(Lookup(Formatted(tx), "value")), EncryptionHelper.DefaultDecimals)
        <==> !(HasKey(tx, "value") && HexDecOf(Lookup(tx, "value")) != 0)
  {
    FormattedLookup(tx, "value");
    FormatsValue(Lookup(tx, "value"));
    var amount := AmountOf(Lookup(Formatted(tx), "value"));
    if HasKey(tx, "value") {
      var wei := HexDecOf(Lookup(tx, "value"));
      assert amount == WeiToUnit(wei);
      EncryptionHelper.SmallestUnitsRoundTrip(wei, EncryptionHelper.DefaultDecimals);
    } else {
      assert amount == 0.0;
      EncryptionHelper.ZeroIsZero(EncryptionHelper.DefaultDecimals);
    }
  }


  /**
   * The scanners count one confirmation fewer than the status and deposit
   * checks do for the same transaction and head.
   */
  lemma ScannerDepthIsOneBelowConfirmations(current: int, tx: seq<(string, Value)>)
    requires HasKey(tx, "blockNumber")
    ensures Depth(current, Formatted(tx)) == Confirmations(current, HexDecOf(Lookup(tx, "blockNumber"))) - 1
  {
    FormattedLookup(tx, "blockNumber");
  }

  // ---------------------------------------------------------------- fees

  /** The two fee fields `fetchGasPrices` returns, as 0x-prefixed hex strings. */
  datatype GasPrices = GasPrices(maxPriorityFeePerGas: string, maxFeePerGas: string)

  function Sum(xs: seq<nat>): nat {
    if xs == [] then 0 else Sum(xs[..|xs| - 1]) + xs[|xs| - 1]
  }

  lemma DivisionBounds(s: nat, n: nat)
    requires n > 0
    ensures 0 <= s / n && n * (s / n) <= s < n * (s / n) + n
  {
    var q := s / n;
    assert n * q + s % n == s;
  }

  /** `intval(array_sum($fees) / count($fees) * 1.5)`, in exact arithmetic. */
  function PriorityFee(fees: seq<nat>): int
    requires |fees| > 0
  {
    (3 * Sum(fees)) / (2 * |fees|)
  }

  /** The priority fee is 3/2 of the mean fee, rounded down: `p <= 1.5 * mean < p + 1`. */
  lemma PriorityFeeBounds(fees: seq<nat>)
    requires |fees| > 0
    ensures var n, p := 2 * |fees|, PriorityFee(fees); n * p <= 3 * Sum(fees) < n * p + n
    ensures PriorityFee(fees) >= 0
  {
    DivisionBounds(3 * Sum(fees), 2 * |fees|);
  }

  const RewardRowNotArray: Thrown :=
    Thrown(TypeError, "array_map(): Argument #2 ($array) must be of type array", 0)
  const EmptyRewardRow: Thrown := Thrown(DivisionByZero, "Division by zero", 0)

  /** The priority fees of the first reward row, each hex-decoded. */
  function RewardRow(feeHistory: Value): seq<nat> {
    var row := Items(Index(Member(feeHistory, "reward"), 0));
    seq(|row|, i requires 0 <= i < |row| => HexDecOf(row[i]))
  }

  /**
   * `fetchGasPrices()`, given the answers to eth_getBlockByNumber('latest')
   * and eth_feeHistory: the priority fee is 1.5 times the mean of the first
   * reward row, truncated, and the fee cap twice the base fee plus it. A
   * failed request, a reward row that is not an array and an empty one all
   * throw.
   */
  function FetchGasPrices(latest: Answer, feeHistory: Answer): (r: Result<GasPrices, Thrown>)
    ensures r.Success? <==>
      latest.Success? && feeHistory.Success?
      && IsArray(Index(Member(feeHistory.value, "reward"), 0))
      && |RewardRow(feeHistory.value)| > 0
    ensures r.Success? ==>
      var base, p := HexDecOf(Member(latest.value, "baseFeePerGas")), PriorityFee(RewardRow(feeHistory.value));
      r.value == GasPrices("0x" + DecHex(p), "0x" + DecHex(2 * base + p))
  {
    match latest
    case Failure(e) => Failure(e)
    case Success(block) =>
      var base := HexDecOf(Member(block, "baseFeePerGas"));
      match feeHistory
      case Failure(e) => Failure(e)
      case Success(history) =>
        if !IsArray(Index(Member(history, "reward"), 0)) then Failure(RewardRowNotArray)
        else
          var fees := RewardRow(history);
          if |fees| == 0 then Failure(EmptyRewardRow)
          else
            var p := PriorityFee(fees);
            Success(GasPrices("0x" + DecHex(p), "0x" + DecHex(2 * base + p)))
  }

  /**
   * Read back by the node, the fee cap is twice the base fee plus the
   * priority fee, so never below twice the base fee, as long as both fit in
   * the 64-bit integers PHP computes with.
   */
  lemma FeeCapCoversBaseFee(latest: Answer, feeHistory: Answer)
    requires FetchGasPrices(latest, feeHistory).Success?
    requires var base, p := HexDecOf(Member(latest.value, "baseFeePerGas")), PriorityFee(RewardRow(feeHistory.value));
      2 * base + p < Word
    ensures var g, base := FetchGasPrices(latest, feeHistory).value, HexDecOf(Member(latest.value, "baseFeePerGas"));
      HexDec(g.maxFeePerGas) == 2 * base + HexDec(g.maxPriorityFeePerGas)
      && HexDec(g.maxFeePerGas) >= 2 * base
  {
    var base, fees := HexDecOf(Member(latest.value, "baseFeePerGas")), RewardRow(feeHistory.value);
    var p := PriorityFee(fees);
    PriorityFeeBounds(fees);
    FeeCapReadsBack(FetchGasPrices(latest, feeHistory).value, base, p);
  }

  /** Both fee fields, sent as '0x' . dechex, read back as the numbers they were built from. */
  lemma FeeCapReadsBack(g: GasPrices, base: nat, p: nat)
    requires g == GasPrices("0x" + DecHex(p), "0x" + DecHex(2 * base + p))
    requires 2 * base + p < Word
    ensures HexDec(g.maxFeePerGas) == 2 * base + HexDec(g.maxPriorityFeePerGas)
    ensures HexDec(g.maxFeePerGas) >= 2 * base
  {
    PrefixedDecHexRoundTrip(p);
    PrefixedDecHexRoundTrip(2 * base + p);
  }
}
