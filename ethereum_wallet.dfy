/**
 * The Ethereum adapter: its confirmation default, the sequential block
 * scanner and the network names. The status machine, the transaction
 * normalisation, the deposit filter and the fee formula are those of
 * `EvmWallet`.
 */
module EthereumWallet {
  import opened Wrappers
  import opened Values
  import opened Numerals
  import opened EvmWallet

  const DefaultConfirmations: int := 3
  const DefaultTarget: int := 20

  /** `isDepositConfirmed($txid, $required = 3)`: the shared depth check with default 3. */
  function IsDepositConfirmed(transaction: Answer, head: Answer, argument: Option<int>): (ok: bool)
    ensures ok <==> Mined(transaction) && head.Success?
                    && Confirmations(HeightOf(head), BlockOf(transaction)) >= argument.GetOr(3)
  {
    DepositConfirmed(transaction, head, argument.GetOr(DefaultConfirmations))
  }

  // ---------------------------------------------------------------- the sequential scanner

  /** The transactions a fetched block lists; none when the block is null or lists nothing. */
  function BlockTransactions(block: Value): seq<Value> {
    Items(Member(block, "transactions"))
  }

  /**
   * The first `n` iterations of the scan from height `lo`, where `blockAt(i)`
   * is the answer to `eth_getBlockByNumber('0x' . dechex(i), true)`: the
   * records found and the hash of the last block visited (null before the
   * first), or the first exception.
   */
  function Blocks(current: int, target: int, lo: int, n: nat, blockAt: int -> Answer): Result<Listing, Thrown> {
    if n == 0 then Success(Listing([], Null))
    else
      match Blocks(current, target, lo, n - 1, blockAt)
      case Failure(e) => Failure(e)
      case Success(so) => Visit(current, target, so, blockAt(lo + n - 1))
  }

  /** One iteration: add the records of the fetched block and move the checkpoint to its hash. */
  function Visit(current: int, target: int, so: Listing, block: Answer): Result<Listing, Thrown> {
    match block
    case Failure(e) => Failure(e)
    case Success(b) =>
      match TransactionDeposits(current, target, BlockTransactions(b))
      case Failure(e) => Failure(e)
      case Success(more) => Success(Listing(so.transactions + more, Member(b, "hash")))
  }

  /** Where the scan starts: the number of the block with the given hash, or the current height. */
  function Start(blockhash: Value, byHash: Answer, current: nat): Result<int, Thrown> {
    if !Truthy(blockhash) then Success(current)
    else if byHash.Failure? then Failure(byHash.error)
    else Success(HexDecOf(Member(byHash.value, "number")))
  }

  /**
   * The loop of `listSinceBlock`: fetch the blocks at heights `lo` to
   * `lo + count - 1` in turn, keep the qualifying records and remember the
   * last block's hash. Returns the heights requested and the outcome.
   */
  method ScanBlocks(current: int, target: int, lo: int, count: nat, blockAt: int -> Answer)
    returns (heights: seq<int>, r: Result<Listing, Thrown>)
    ensures |heights| <= count && forall k :: 0 <= k < |heights| ==> heights[k] == lo + k
    ensures r == Blocks(current, target, lo, count, blockAt)
    ensures r.Success? ==> |heights| == count
  {
    heights := [];
    var so := Listing([], Null);
    var n := 0;
    while n < count
      invariant 0 <= n <= count
      invariant |heights| == n
      invariant forall k :: 0 <= k < n ==> heights[k] == lo + k
      invariant Blocks(current, target, lo, n, blockAt) == Success(so)
    {
      var i := lo + n;
      heights := heights + [i];
      var next := VisitBlock(current, target, so, blockAt(i));
      BlocksStep(current, target, lo, n, blockAt);
      if next.Failure? {
        BlocksFailureSticks(current, target, lo, n + 1, count, blockAt);
        return heights, next;
      }
      so := next.value;
      n := n + 1;
    }
    r := Success(so);
  }

  /** One iteration of the loop: scan the fetched block's transactions and move the checkpoint to its hash. */
  method VisitBlock(current: int, target: int, so: Listing, block: Answer) returns (r: Result<Listing, Thrown>)
    ensures r == Visit(current, target, so, block)
  {
    if block.Failure? {
      return Failure(block.error);
    }
    var more := ScanTransactions(current, target, BlockTransactions(block.value));
    if more.Failure? {
      return Failure(more.error);
    }
    r := Success(Listing(so.transactions + more.value, Member(block.value, "hash")));
  }

  /**
   * `listSinceBlock($blockhash, $target = 20)`. `head` answers
   * eth_blockNumber, `byHash` answers eth_getBlockByHash (asked only when the
   * hash is truthy) and `blockAt` answers eth_getBlockByNumber; every
   * exception throws through. Returns the heights requested, in order, and
   * the outcome: the window runs from `target` blocks below the start up to
   * the head.
   */
  method ListSinceBlock(blockhash: Value, argument: Option<int>, head: Answer, byHash: Answer,
                        blockAt: int -> Answer)
    returns (heights: seq<int>, r: Result<Listing, Thrown>)
    ensures head.Failure? ==> heights == [] && r == Failure(head.error)
    ensures head.Success? && Start(blockhash, byHash, HexDecOf(head.value)).Failure? ==>
      heights == [] && r == Failure(Start(blockhash, byHash, HexDecOf(head.value)).error)
    ensures head.Success? && Start(blockhash, byHash, HexDecOf(head.value)).Success? ==>
      var target, current := argument.GetOr(DefaultTarget), HexDecOf(head.value);
      var lo := Start(blockhash, byHash, current).value - target;
      && |heights| <= Span(lo, current)
      && (forall k :: 0 <= k < |heights| ==> heights[k] == lo + k)
      && r == Blocks(current, target, lo, Span(lo, current), blockAt)
      && (r.Success? ==> |heights| == Span(lo, current))
  {
    var target := argument.GetOr(DefaultTarget);
    if head.Failure? {
      return [], Failure(head.error);
    }
    var current := HexDecOf(head.value);
    var begin := Start(blockhash, byHash, current);
    if begin.Failure? {
      return [], Failure(begin.error);
    }
    var lo := begin.value - target;
    heights, r := ScanBlocks(current, target, lo, Span(lo, current), blockAt);
  }

  /** Scanning one block more is one more visit. */
  lemma BlocksStep(current: int, target: int, lo: int, n: nat, blockAt: int -> Answer)
    requires Blocks(current, target, lo, n, blockAt).Success?
    ensures Blocks(current, target, lo, n + 1, blockAt)
         == Visit(current, target, Blocks(current, target, lo, n, blockAt).value, blockAt(lo + n))
  {
  }

  /** Once an iteration throws, the scan ends with that exception. */
  lemma {:induction false} BlocksFailureSticks(current: int, target: int, lo: int, n: nat, m: nat,
                                               blockAt: int -> Answer)
    requires n <= m
    requires Blocks(current, target, lo, n, blockAt).Failure?
    ensures Blocks(current, target, lo, m, blockAt) == Blocks(current, target, lo, n, blockAt)
    decreases m - n
  {
    if n < m {
      BlocksFailureSticks(current, target, lo, n, m - 1, blockAt);
    }
  }

  /**
   * The checkpoint is the hash of the last block visited: the block at the
   * current height when the window is not empty, and null when it is.
   */
  lemma LastBlockIsHeadHash(current: int, target: int, lo: int, blockAt: int -> Answer)
    requires Blocks(current, target, lo, Span(lo, current), blockAt).Success?
    ensures lo <= current ==>
      blockAt(current).Success?
      && Blocks(current, target, lo, Span(lo, current), blockAt).value.lastblock
         == Member(blockAt(current).value, "hash")
    ensures lo > current ==> Blocks(current, target, lo, Span(lo, current), blockAt).value.lastblock == Null
  {
    var n := Span(lo, current);
    if lo <= current {
      LastVisited(current, target, lo, n, blockAt);
      assert lo + n - 1 == current;
    }
  }

  /** After a successful scan of `n > 0` blocks, the checkpoint is the hash of the block at `lo + n - 1`. */
  lemma LastVisited(current: int, target: int, lo: int, n: nat, blockAt: int -> Answer)
    requires n > 0 && Blocks(current, target, lo, n, blockAt).Success?
    ensures blockAt(lo + n - 1).Success?
    ensures Blocks(current, target, lo, n, blockAt).value.lastblock == Member(blockAt(lo + n - 1).value, "hash")
  {
  }

  /** `d` is the record of one of the transactions the block at height `i` lists. */
  predicate InBlockAt(current: int, target: int, blockAt: int -> Answer, i: int, d: Deposit) {
    blockAt(i).Success? && Among(current, target, BlockTransactions(blockAt(i).value), d)
  }

  /** A height below `h + 1` is a height below `h`, or `h` itself. */
  lemma SplitLastHeight(current: int, target: int, blockAt: int -> Answer, lo: int, h: int, d: Deposit)
    ensures (exists i :: lo <= i < h + 1 && InBlockAt(current, target, blockAt, i, d))
        <==> (exists i :: lo <= i < h && InBlockAt(current, target, blockAt, i, d))
             || (lo <= h && InBlockAt(current, target, blockAt, h, d))
  {
    SplitRange(i => InBlockAt(current, target, blockAt, i, d), lo, h);
  }

  /**
   * A successful scan emits a record exactly for each qualifying transaction
   * of the blocks at heights `lo` to `lo + n - 1`.
   */
  lemma {:induction false} BlocksMembership(current: int, target: int, lo: int, n: nat, blockAt: int -> Answer)
    requires Blocks(current, target, lo, n, blockAt).Success?
    ensures forall d :: (d in Blocks(current, target, lo, n, blockAt).value.transactions
      <==> exists i :: lo <= i < lo + n && InBlockAt(current, target, blockAt, i, d))
  {
    if n > 0 {
      var m := n - 1;
      var h := lo + m;
      assert Blocks(current, target, lo, m, blockAt).Success?;
      BlocksMembership(current, target, lo, m, blockAt);
      BlocksStep(current, target, lo, m, blockAt);
      var block := blockAt(h).value;
      var txs := BlockTransactions(block);
      assert TransactionDeposits(current, target, txs).Success?;
      TransactionDepositsMembership(current, target, txs);
      var ds := Blocks(current, target, lo, m, blockAt).value.transactions;
      var more := TransactionDeposits(current, target, txs).value;
      var all := Blocks(current, target, lo, n, blockAt).value.transactions;
      assert all == ds + more;
      forall d
        ensures d in all <==> exists i :: lo <= i < lo + n && InBlockAt(current, target, blockAt, i, d)
      {
        assert d in all <==> d in ds || d in more;
        assert d in more <==> InBlockAt(current, target, blockAt, h, d);
        SplitLastHeight(current, target, blockAt, lo, h, d);
      }
    }
  }

  /**
   * Every record of a successful scan has at least `target` confirmations
   * in the scanner's count, and so the transaction lies at least `target`
   * blocks below the head.
   */
  lemma ListedRecordsAreDeep(current: int, target: int, lo: int, n: nat, blockAt: int -> Answer, d: Deposit)
    requires Blocks(current, target, lo, n, blockAt).Success?
    requires d in Blocks(current, target, lo, n, blockAt).value.transactions
    ensures d.confirmations >= target && d.category == "receive"
  {
    BlocksMembership(current, target, lo, n, blockAt);
    var i :| lo <= i < lo + n && InBlockAt(current, target, blockAt, i, d);
    var txs := BlockTransactions(blockAt(i).value);
    var j :| 0 <= j < |txs| && Yields(current, target, txs[j], d);
  }

  // ---------------------------------------------------------------- network names

  /** No case label among `ids` matches `networkId` under the `switch`'s loose comparison. */
  predicate MatchesNone(networkId: Value, ids: set<nat>) {
    forall id :: id in ids ==> !LooselyEqualsDecimal(networkId, id)
  }

  /** `getNetworkName($networkId)`: the `switch` compares loosely with each known id in turn. */
  function GetNetworkName(networkId: Value): (name: string)
    ensures LooselyEqualsDecimal(networkId, 1) ==> name == "Mainnet"
    ensures LooselyEqualsDecimal(networkId, 3) && MatchesNone(networkId, {1}) ==> name == "Ropsten"
    ensures LooselyEqualsDecimal(networkId, 4) && MatchesNone(networkId, {1, 3}) ==> name == "Rinkeby"
    ensures LooselyEqualsDecimal(networkId, 5) && MatchesNone(networkId, {1, 3, 4}) ==> name == "Goerli"
    ensures LooselyEqualsDecimal(networkId, 42) && MatchesNone(networkId, {1, 3, 4, 5}) ==> name == "Kovan"
    ensures LooselyEqualsDecimal(networkId, 11155111) && MatchesNone(networkId, {1, 3, 4, 5, 42}) ==>
      name == "Sepolia"
    ensures MatchesNone(networkId, {1, 3, 4, 5, 42, 11155111}) ==>
      name == "Unknown network (ID: " + TextOf(networkId) + ")"
  {
    if LooselyEqualsDecimal(networkId, 1) then "Mainnet"
    else if LooselyEqualsDecimal(networkId, 3) then "Ropsten"
    else if LooselyEqualsDecimal(networkId, 4) then "Rinkeby"
    else if LooselyEqualsDecimal(networkId, 5) then "Goerli"
    else if LooselyEqualsDecimal(networkId, 42) then "Kovan"
    else if LooselyEqualsDecimal(networkId, 11155111) then "Sepolia"
    else "Unknown network (ID: " + TextOf(networkId) + ")"
  }

  /** The ids as `net_version` reports them (decimal strings) name their networks. */
  lemma NetworkNames()
    ensures GetNetworkName(Str("1")) == "Mainnet"
    ensures GetNetworkName(Str("5")) == "Goerli"
    ensures GetNetworkName(Str("42")) == "Kovan"
  {
    DecimalOfOneDigit("1");
    DecimalOfOneDigit("5");
    DecimalOfTwoDigits("42");
  }

  /** Integer ids compare by value, and an id outside the list is reported as unknown. */
  lemma OtherNetworkNames()
    ensures GetNetworkName(Int(42)) == "Kovan"
    ensures GetNetworkName(Int(11155111)) == "Sepolia"
    ensures GetNetworkName(Str("56")) == "Unknown network (ID: 56)"
  {
    DecimalOfTwoDigits("56");
  }
}
