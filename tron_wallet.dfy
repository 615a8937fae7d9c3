/**
 * The Tron adapter: a block scan that counts confirmations with +1 and keeps
 * transfers with a recipient, the status and deposit checks, and the
 * balance lookups over the account the node returns. The client library's
 * conversions (`fromTron`, `fromHex`) are uninterpreted functions.
 */
module TronWallet {
  import opened Wrappers
  import opened Values
  import opened Numerals

  /** The client library's pure conversions. */
  datatype TronClient = TronClient(fromTron: Value -> Value, fromHex: Value -> Value)

  const DefaultTarget: int := 3
  const DefaultConfirmations: int := 3

  /** `$block['block_header']['raw_data']['number']`, as the value found there. */
  function NumberMember(block: Value): Value {
    Member(Member(Member(block, "block_header"), "raw_data"), "number")
  }

  /** The height of a block as PHP arithmetic reads it (0 when missing). */
  function Height(block: Value): int {
    NumberOf(NumberMember(block))
  }

  // ---------------------------------------------------------------- the scanner

  /** `$tx['raw_data']['contract'][0]`. */
  function FirstContract(tx: Value): Value {
    Index(Member(Member(tx, "raw_data"), "contract"), 0)
  }

  /** `$tx['raw_data']['contract'][0]['parameter']['value']`: the transfer's fields. */
  function Transfer(tx: Value): Value {
    Member(Member(FirstContract(tx), "parameter"), "value")
  }

  /** The address condition: `to_address` is set and not empty. */
  predicate HasRecipient(tx: Value) {
    Truthy(Member(Transfer(tx), "to_address"))
  }

  /** One record of Tron's `listSinceBlock`. */
  datatype TronDeposit = TronDeposit(txid: Value, address: Value, fromAddress: Value, amount: Value,
                                     confirmations: int, blocknum: int, kind: Value, category: string)

  /** Confirmations of a transaction at height `i`, as the scanner counts them. */
  function ScanConfirmations(current: int, i: int): int {
    current - i + 1
  }

  /** Whether the scanner keeps transaction `tx` found at height `i`. */
  predicate Emits(current: int, target: int, i: int, tx: Value) {
    ScanConfirmations(current, i) >= target && HasRecipient(tx)
  }

  /** The record for transaction `tx` at height `i`: the amount through `fromTron` when set, else 0. */
  function TronRecord(client: TronClient, current: int, i: int, tx: Value): (d: TronDeposit)
    ensures d.confirmations == current - i + 1 && d.blocknum == i && d.category == "receive"
    ensures IsSet(Transfer(tx), "amount") ==> d.amount == client.fromTron(Member(Transfer(tx), "amount"))
    ensures !IsSet(Transfer(tx), "amount") ==> d.amount == Int(0)
  {
    var transfer := Transfer(tx);
    var amount := if IsSet(transfer, "amount") then client.fromTron(Member(transfer, "amount")) else Int(0);
    TronDeposit(Member(tx, "txID"), client.fromHex(Member(transfer, "to_address")),
                Member(transfer, "owner_address"), amount, ScanConfirmations(current, i), i,
                Member(FirstContract(tx), "type"), "receive")
  }

  /** The records the transactions of the block at height `i` yield, in order. */
  function BlockRecords(client: TronClient, current: int, target: int, i: int, txs: seq<Value>): seq<TronDeposit> {
    if txs == [] then []
    else
      var tx := txs[|txs| - 1];
      BlockRecords(client, current, target, i, txs[..|txs| - 1])
        + (if Emits(current, target, i, tx) then [TronRecord(client, current, i, tx)] else [])
  }

  /** `$blockInfo['transactions'] ?? []`, as `foreach` visits it. */
  function BlockTransactions(block: Value): seq<Value> {
    Items(Member(block, "transactions"))
  }

  /**
   * The first `n` iterations of the scan from height `lo`, where `blockAt(i)`
   * answers `getBlockByNumber(i)`: the records found, or the first exception.
   */
  function Window(client: TronClient, current: int, target: int, lo: int, n: nat, blockAt: int -> Answer)
    : Result<seq<TronDeposit>, Thrown>
  {
    if n == 0 then Success([])
    else
      match Window(client, current, target, lo, n - 1, blockAt)
      case Failure(e) => Failure(e)
      case Success(ds) =>
        match blockAt(lo + n - 1)
        case Failure(e) => Failure(e)
        case Success(b) => Success(ds + BlockRecords(client, current, target, lo + n - 1, BlockTransactions(b)))
  }

  /** The inner loop: the records of one block's transactions. */
  method ScanBlock(client: TronClient, current: int, target: int, i: int, txs: seq<Value>)
    returns (records: seq<TronDeposit>)
    ensures records == BlockRecords(client, current, target, i, txs)
  {
    records := [];
    var k := 0;
    while k < |txs|
      invariant 0 <= k <= |txs|
      invariant records == BlockRecords(client, current, target, i, txs[..k])
    {
      assert txs[..k + 1][..k] == txs[..k];
      var confirmations := current - i + 1;
      if confirmations >= target && HasRecipient(txs[k]) {
        records := records + [TronRecord(client, current, i, txs[k])];
      }
      k := k + 1;
    }
    assert txs[..k] == txs;
  }

  /** Scanning one height more is one more block's records. */
  lemma WindowStep(client: TronClient, current: int, target: int, lo: int, n: nat, blockAt: int -> Answer)
    requires Window(client, current, target, lo, n, blockAt).Success?
    ensures Window(client, current, target, lo, n + 1, blockAt)
         == match blockAt(lo + n)
            case Failure(e) => Failure(e)
            case Success(b) =>
              Success(Window(client, current, target, lo, n, blockAt).value
                      + BlockRecords(client, current, target, lo + n, BlockTransactions(b)))
  {
  }

  /** Once a request throws, the scan ends with that exception. */
  lemma {:induction false} WindowFailureSticks(client: TronClient, current: int, target: int, lo: int,
                                               n: nat, m: nat, blockAt: int -> Answer)
    requires n <= m
    requires Window(client, current, target, lo, n, blockAt).Failure?
    ensures Window(client, current, target, lo, m, blockAt) == Window(client, current, target, lo, n, blockAt)
    decreases m - n
  {
    if n < m {
      WindowFailureSticks(client, current, target, lo, n, m - 1, blockAt);
    }
  }

  /** The outer loop: heights `lo` to `lo + count - 1`, each requested once, in order. */
  method ScanWindow(client: TronClient, current: int, target: int, lo: int, count: nat, blockAt: int -> Answer)
    returns (heights: seq<int>, r: Result<seq<TronDeposit>, Thrown>)
    ensures |heights| <= count && forall k :: 0 <= k < |heights| ==> heights[k] == lo + k
    ensures r == Window(client, current, target, lo, count, blockAt)
    ensures r.Success? ==> |heights| == count
  {
    heights := [];
    var transactions: seq<TronDeposit> := [];
    var n := 0;
    while n < count
      invariant 0 <= n <= count
      invariant |heights| == n
      invariant forall k :: 0 <= k < n ==> heights[k] == lo + k
      invariant Window(client, current, target, lo, n, blockAt) == Success(transactions)
    {
      var i := lo + n;
      heights := heights + [i];
      var blockInfo := blockAt(i);
      WindowStep(client, current, target, lo, n, blockAt);
      if blockInfo.Failure? {
        WindowFailureSticks(client, current, target, lo, n + 1, count, blockAt);
        return heights, Failure(blockInfo.error);
      }
      var records := ScanBlock(client, current, target, i, BlockTransactions(blockInfo.value));
      transactions := transactions + records;
      n := n + 1;
    }
    r := Success(transactions);
  }

  /**
   * The height after which the scan starts: the referenced block's number,
   * or the current height when there is no reference (or it has no number).
   */
  function StartHeight(blockhash: Value, byHash: Answer, current: int): Result<int, Thrown> {
    if !Truthy(blockhash) then Success(current)
    else if byHash.Failure? then Failure(byHash.error)
    else if NumberMember(byHash.value) == Null then Success(current)
    else Success(Height(byHash.value))
  }

  /** What Tron's `listSinceBlock` returns. */
  datatype TronListing = TronListing(transactions: seq<TronDeposit>, lastblock: Value)

  /** `$currentBlock['blockID'] ?? ''`. */
  function LastBlock(currentBlock: Value): (v: Value)
    ensures IsSet(currentBlock, "blockID") ==> v == Member(currentBlock, "blockID")
    ensures !IsSet(currentBlock, "blockID") ==> v == Str("")
  {
    if IsSet(currentBlock, "blockID") then Member(currentBlock, "blockID") else Str("")
  }

  /**
   * `listSinceBlock($blockhash, $target = 3)`. `byHash` answers
   * getBlockByHash (asked only for a non-empty reference), `currentBlock`
   * answers getCurrentBlock and `blockAt` answers getBlockByNumber; every
   * exception throws through. Returns the heights requested and the outcome.
   */
  method ListSinceBlock(client: TronClient, blockhash: Value, argument: Option<int>, byHash: Answer,
                        currentBlock: Answer, blockAt: int -> Answer)
    returns (heights: seq<int>, r: Result<TronListing, Thrown>)
    ensures Truthy(blockhash) && byHash.Failure? ==> heights == [] && r == Failure(byHash.error)
    ensures (!Truthy(blockhash) || byHash.Success?) && currentBlock.Failure? ==>
      heights == [] && r == Failure(currentBlock.error)
    ensures (!Truthy(blockhash) || byHash.Success?) && currentBlock.Success? ==>
      var target, current := argument.GetOr(DefaultTarget), Height(currentBlock.value);
      var lo := StartHeight(blockhash, byHash, current).value + 1;
      && |heights| <= Span(lo, current)
      && (forall k :: 0 <= k < |heights| ==> heights[k] == lo + k)
      && (match Window(client, current, target, lo, Span(lo, current), blockAt)
          case Failure(e) => r == Failure(e)
          case Success(ds) =>
            r == Success(TronListing(ds, LastBlock(currentBlock.value))) && |heights| == Span(lo, current))
  {
    var target := argument.GetOr(DefaultTarget);
    if Truthy(blockhash) && byHash.Failure? {
      return [], Failure(byHash.error);
    }
    if currentBlock.Failure? {
      return [], Failure(currentBlock.error);
    }
    var current := Height(currentBlock.value);
    var start := StartHeight(blockhash, byHash, current).value;
    var transactions;
    heights, transactions := ScanWindow(client, current, target, start + 1, Span(start + 1, current), blockAt);
    if transactions.Failure? {
      return heights, Failure(transactions.error);
    }
    r := Success(TronListing(transactions.value, LastBlock(currentBlock.value)));
  }

  /** Without a reference the scan starts after the current height, so it requests and lists nothing. */
  lemma NoReferenceScansNothing(client: TronClient, blockhash: Value, byHash: Answer, current: int, target: int,
                                blockAt: int -> Answer)
    requires !Truthy(blockhash)
    ensures StartHeight(blockhash, byHash, current) == Success(current)
    ensures Span(current + 1, current) == 0
    ensures Window(client, current, target, current + 1, 0, blockAt) == Success([])
  {
  }

  /** `d` is the record the scanner emits for `tx` at height `i`. */
  predicate Yields(client: TronClient, current: int, target: int, i: int, tx: Value, d: TronDeposit) {
    Emits(current, target, i, tx) && d == TronRecord(client, current, i, tx)
  }

  /** `d` is the record of one of the transactions `txs` that the scanner keeps at height `i`. */
  predicate Kept(client: TronClient, current: int, target: int, i: int, txs: seq<Value>, d: TronDeposit) {
    exists j :: 0 <= j < |txs| && Yields(client, current, target, i, txs[j], d)
  }

  /** `d` is the record of a transaction the block at height `i` lists and the scanner keeps. */
  predicate RecordedAt(client: TronClient, current: int, target: int, blockAt: int -> Answer, i: int, d: TronDeposit) {
    blockAt(i).Success? && Kept(client, current, target, i, BlockTransactions(blockAt(i).value), d)
  }

  /** A block's records are exactly the records of its transactions that the scanner keeps. */
  lemma {:induction false} BlockRecordsMembership(client: TronClient, current: int, target: int, i: int,
                                                  txs: seq<Value>, d: TronDeposit)
    ensures d in BlockRecords(client, current, target, i, txs) <==> Kept(client, current, target, i, txs, d)
  {
    if txs != [] {
      var init, tx := txs[..|txs| - 1], txs[|txs| - 1];
      BlockRecordsMembership(client, current, target, i, init, d);
      var last := if Emits(current, target, i, tx) then [TronRecord(client, current, i, tx)] else [];
      assert BlockRecords(client, current, target, i, txs) == BlockRecords(client, current, target, i, init) + last;
      assert d in last <==> Yields(client, current, target, i, tx, d);
      assert Kept(client, current, target, i, init, d)
         <==> (exists j :: 0 <= j < |txs| - 1 && Yields(client, current, target, i, txs[j], d)) by {
        assert forall j :: 0 <= j < |init| ==> init[j] == txs[j];
      }
    }
  }

  /** A height below `h + 1` is a height below `h`, or `h` itself. */
  lemma SplitLastHeight(client: TronClient, current: int, target: int, blockAt: int -> Answer,
                        lo: int, h: int, d: TronDeposit)
    ensures (exists i :: lo <= i < h + 1 && RecordedAt(client, current, target, blockAt, i, d))
        <==> (exists i :: lo <= i < h && RecordedAt(client, current, target, blockAt, i, d))
             || (lo <= h && RecordedAt(client, current, target, blockAt, h, d))
  {
    if exists i :: lo <= i < h + 1 && RecordedAt(client, current, target, blockAt, i, d) {
      var i :| lo <= i < h + 1 && RecordedAt(client, current, target, blockAt, i, d);
      if i < h {
        assert lo <= i < h && RecordedAt(client, current, target, blockAt, i, d);
      }
    }
  }

  /**
   * A successful scan lists a record exactly for each transaction, at a
   * height of the window, that has a recipient and enough confirmations.
   */
  lemma {:induction false} WindowMembership(client: TronClient, current: int, target: int, lo: int, n: nat,
                                            blockAt: int -> Answer)
    requires Window(client, current, target, lo, n, blockAt).Success?
    ensures forall d :: (d in Window(client, current, target, lo, n, blockAt).value
      <==> exists i :: lo <= i < lo + n && RecordedAt(client, current, target, blockAt, i, d))
  {
    if n > 0 {
      var m := n - 1;
      var h := lo + m;
      assert Window(client, current, target, lo, m, blockAt).Success?;
      WindowMembership(client, current, target, lo, m, blockAt);
      WindowStep(client, current, target, lo, m, blockAt);
      var txs := BlockTransactions(blockAt(h).value);
      var ds := Window(client, current, target, lo, m, blockAt).value;
      var more := BlockRecords(client, current, target, h, txs);
      var all := Window(client, current, target, lo, n, blockAt).value;
      assert all == ds + more;
      forall d
        ensures d in all <==> exists i :: lo <= i < lo + n && RecordedAt(client, current, target, blockAt, i, d)
      {
        assert d in all <==> d in ds || d in more;
        BlockRecordsMembership(client, current, target, h, txs, d);
        assert d in more <==> RecordedAt(client, current, target, blockAt, h, d);
        SplitLastHeight(client, current, target, blockAt, lo, h, d);
      }
    }
  }

  /**
   * Every listed record has at least `target` confirmations, counted as
   * current - height + 1 for a height inside the window, and a recipient.
   */
  lemma ListedRecordsAreConfirmed(client: TronClient, current: int, target: int, lo: int, n: nat,
                                  blockAt: int -> Answer, d: TronDeposit)
    requires Window(client, current, target, lo, n, blockAt).Success?
    requires d in Window(client, current, target, lo, n, blockAt).value
    ensures d.confirmations == current - d.blocknum + 1 >= target
    ensures lo <= d.blocknum < lo + n && d.category == "receive"
  {
    WindowMembership(client, current, target, lo, n, blockAt);
    var i :| lo <= i < lo + n && RecordedAt(client, current, target, blockAt, i, d);
    var txs := BlockTransactions(blockAt(i).value);
    var j :| 0 <= j < |txs| && Emits(current, target, i, txs[j]) && d == TronRecord(client, current, i, txs[j]);
  }

  // ---------------------------------------------------------------- status and confirmation

  /** `getTransactionStatus($txHash)`: the node's answer to getTransaction decides, and exceptions throw through. */
  function GetTransactionStatus(transaction: Answer): (r: Result<string, Thrown>)
    ensures transaction.Failure? ==> r == Failure(transaction.error)
    ensures transaction.Success? ==>
      (r == Success("confirmed")
       <==> Member(Index(Member(transaction.value, "ret"), 0), "contractRet") == Str("SUCCESS"))
    ensures r.Success? ==> r.value == "confirmed" || r.value == "pending"
  {
    match transaction
    case Failure(e) => Failure(e)
    case Success(tx) =>
      if Member(Index(Member(tx, "ret"), 0), "contractRet") == Str("SUCCESS") then Success("confirmed")
      else Success("pending")
  }

  /**
   * `isDepositConfirmed($txid, $required = 3)`: `info` answers
   * getTransactionInfo, `currentBlock` answers getCurrentBlock, which is
   * asked only when the transaction has a block number. The depth is counted
   * without +1, and exceptions throw through.
   */
  function IsDepositConfirmed(info: Answer, currentBlock: Answer, argument: Option<int>): (r: Result<bool, Thrown>)
    ensures info.Failure? ==> r == Failure(info.error)
    ensures info.Success? && !IsSet(info.value, "blockNumber") ==> r == Success(false)
    ensures info.Success? && IsSet(info.value, "blockNumber") ==>
      (if currentBlock.Failure? then r == Failure(currentBlock.error)
       else r == Success(Height(currentBlock.value) - NumberOf(Member(info.value, "blockNumber"))
                         >= argument.GetOr(3)))
  {
    match info
    case Failure(e) => Failure(e)
    case Success(tx) =>
      if !IsSet(tx, "blockNumber") then Success(false)
      else
        match currentBlock
        case Failure(e) => Failure(e)
        case Success(head) =>
          Success(Height(head) - NumberOf(Member(tx, "blockNumber")) >= argument.GetOr(DefaultConfirmations))
  }

  /**
   * The two counts differ by one: a deposit the scanner reports with exactly
   * `target` confirmations is still one short for `isDepositConfirmed` with
   * the same requirement, and passes it only when one fewer is required.
   */
  lemma ScannerCountsOneMoreThanTracker(client: TronClient, current: int, i: int, tx: Value,
                                        info: Value, head: Value, target: int)
    requires TronRecord(client, current, i, tx).confirmations == target
    requires Member(info, "blockNumber") == Int(i)
    requires Height(head) == current
    ensures IsDepositConfirmed(Success(info), Success(head), Some(target)) == Success(false)
    ensures IsDepositConfirmed(Success(info), Success(head), Some(target - 1)) == Success(true)
  {
    var d := TronRecord(client, current, i, tx);
    assert d.confirmations == current - i + 1;
    assert IsSet(info, "blockNumber");
  }

  // ---------------------------------------------------------------- balances

  /** `getBalance($address)` on the account the node returns: 0 when it has no balance key, else `fromTron` of it. */
  function GetBalance(client: TronClient, account: Value): (v: Value)
    ensures !HasKey(Fields(account), "balance") ==> v == Float(0.0)
    ensures HasKey(Fields(account), "balance") ==> v == client.fromTron(Member(account, "balance"))
  {
    if HasKey(Fields(account), "balance") then client.fromTron(Member(account, "balance")) else Float(0.0)
  }

  const TokenNotFound: Thrown := Thrown(TronError, "Token id not found", 0)
  const AssetsNotArray: Thrown :=
    Thrown(TypeError, "array_filter(): Argument #1 ($array) must be of type array", 0)

  /** The assetV2 entries whose key loosely equals `tokenId`, in order (`array_filter`). */
  function Matching(entries: seq<Value>, tokenId: int): (m: seq<Value>)
    ensures forall x :: x in m <==> x in entries && LooselyEqualsInt(Member(x, "key"), tokenId)
  {
    if entries == [] then []
    else
      Matching(entries[..|entries| - 1], tokenId)
        + (if LooselyEqualsInt(Member(entries[|entries| - 1], "key"), tokenId) then [entries[|entries| - 1]] else [])
  }

  /**
   * `getTokenBalance($tokenId, $address, $fromTron)` on the account the node
   * returns: the value of the first assetV2 entry whose key equals the id
   * (through `fromTron` when asked), 'Token id not found' when none does,
   * and 0 when the account has no assets.
   */
  function GetTokenBalance(client: TronClient, account: Value, tokenId: int, fromTron: bool): (r: Result<Value, Thrown>)
    ensures !Truthy(Member(account, "assetV2")) ==> r == Success(Int(0))
    ensures Truthy(Member(account, "assetV2")) && IsArray(Member(account, "assetV2")) ==>
      var entries := Items(Member(account, "assetV2"));
      && ((forall j :: 0 <= j < |entries| ==> !LooselyEqualsInt(Member(entries[j], "key"), tokenId))
          <==> r == Failure(TokenNotFound))
      && forall j :: (0 <= j < |entries| && LooselyEqualsInt(Member(entries[j], "key"), tokenId)
                      && (forall k :: 0 <= k < j ==> !LooselyEqualsInt(Member(entries[k], "key"), tokenId))
                      ==> r == Success(if fromTron then client.fromTron(Member(entries[j], "value"))
                                       else Member(entries[j], "value")))
  {
    var assets := Member(account, "assetV2");
    if !Truthy(assets) then Success(Int(0))
    else if !IsArray(assets) then Failure(AssetsNotArray)
    else
      var entries := Items(assets);
      var found := Matching(entries, tokenId);
      FirstMatch(entries, tokenId);
      if found == [] then Failure(TokenNotFound)
      else Success(if fromTron then client.fromTron(Member(found[0], "value")) else Member(found[0], "value"))
  }

  /** The first entry `array_filter` keeps is the first entry that matches. */
  lemma {:induction false} FirstMatch(entries: seq<Value>, tokenId: int)
    ensures Matching(entries, tokenId) == [] <==>
      forall j :: 0 <= j < |entries| ==> !LooselyEqualsInt(Member(entries[j], "key"), tokenId)
    ensures forall j :: (0 <= j < |entries| && LooselyEqualsInt(Member(entries[j], "key"), tokenId)
                         && (forall k :: 0 <= k < j ==> !LooselyEqualsInt(Member(entries[k], "key"), tokenId))
                         ==> Matching(entries, tokenId)[0] == entries[j])
  {
    if entries != [] {
      var init := entries[..|entries| - 1];
      FirstMatch(init, tokenId);
      assert forall j :: 0 <= j < |init| ==> init[j] == entries[j];
    }
  }
}
