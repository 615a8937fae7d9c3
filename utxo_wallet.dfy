/**
 * The Bitcoin and Litecoin adapters. Both wrap the same JSON-RPC client and
 * differ only in their configuration and their confirmation defaults; every
 * method is one client call, here an uninterpreted answer, plus at most one
 * comparison.
 */
module UtxoWallet {
  import opened Wrappers
  import opened Values

  datatype Chain = Bitcoin | Litecoin

  /** The default of both `$targetConfirmations` and `$requiredConfirmations`. */
  function DefaultConfirmations(chain: Chain): (n: int)
    ensures chain == Bitcoin ==> n == 3
    ensures chain == Litecoin ==> n == 6
  {
    match chain
    case Bitcoin => 3
    case Litecoin => 6
  }

  /** The status threshold: `confirmations > 6`. */
  const StatusDepth: int := 6

  /** `$transaction['confirmations']` as PHP compares it with an integer (null reads as 0). */
  function ConfirmationsOf(transaction: Value): int {
    NumberOf(Member(transaction, "confirmations"))
  }

  /** `getTransactionStatus($txHash)` over the answer to `gettransaction`: strictly more than 6 is 'confirmed'. */
  function GetTransactionStatus(transaction: Answer): (r: Result<string, Thrown>)
    ensures transaction.Failure? ==> r == Failure(transaction.error)
    ensures transaction.Success? ==>
      (r == Success("confirmed") <==> ConfirmationsOf(transaction.value) > 6)
      && (r == Success("pending") <==> ConfirmationsOf(transaction.value) <= 6)
  {
    match transaction
    case Failure(e) => Failure(e)
    case Success(tx) => Success(if ConfirmationsOf(tx) > StatusDepth then "confirmed" else "pending")
  }

  /** `isDepositConfirmed($txid, $required)` over the answer to `gettransaction`: at least `required`. */
  function IsDepositConfirmed(chain: Chain, transaction: Answer, argument: Option<int>): (r: Result<bool, Thrown>)
    ensures transaction.Failure? ==> r == Failure(transaction.error)
    ensures transaction.Success? ==>
      r == Success(ConfirmationsOf(transaction.value) >= argument.GetOr(DefaultConfirmations(chain)))
  {
    match transaction
    case Failure(e) => Failure(e)
    case Success(tx) => Success(ConfirmationsOf(tx) >= argument.GetOr(DefaultConfirmations(chain)))
  }

  /**
   * With the defaults, a Litecoin transaction at exactly 6 confirmations is
   * already a confirmed deposit while its status is still 'pending'; on
   * Bitcoin that holds from 3 to 6 confirmations.
   */
  lemma DepositConfirmedBeforeStatus(chain: Chain, transaction: Value)
    requires DefaultConfirmations(chain) <= ConfirmationsOf(transaction) <= 6
    ensures IsDepositConfirmed(chain, Success(transaction), None) == Success(true)
    ensures GetTransactionStatus(Success(transaction)) == Success("pending")
  {
  }

  /** A 'confirmed' status implies a confirmed deposit with the default requirement on either chain. */
  lemma ConfirmedStatusImpliesDeposit(chain: Chain, transaction: Answer)
    requires GetTransactionStatus(transaction) == Success("confirmed")
    ensures IsDepositConfirmed(chain, transaction, None) == Success(true)
  {
  }

  /** The arguments `listsinceblock` is called with. */
  datatype ListCall = ListCall(blockhash: Value, targetConfirmations: int, includeWatchonly: bool)

  /**
   * `listSinceBlock($blockhash, $target, $watchonly)`: one `listsinceblock`
   * call with the arguments as given, the defaults filled in, and its answer
   * returned unchanged.
   */
  function ListSinceBlock(chain: Chain, listsinceblock: ListCall -> Answer, blockhash: Value,
                          target: Option<int>, watchonly: Option<bool>): (r: Answer)
    ensures exists call: ListCall ::
      && call.blockhash == blockhash
      && (target.Some? ==> call.targetConfirmations == target.value)
      && (target.None? ==> call.targetConfirmations == DefaultConfirmations(chain))
      && call.includeWatchonly == (watchonly.Some? && watchonly.value)
      && r == listsinceblock(call)
  {
    listsinceblock(ListCall(blockhash, target.GetOr(DefaultConfirmations(chain)), watchonly.GetOr(false)))
  }

  /**
   * `createWallet($label)`: the client's new address for the label, as the
   * only member of the returned array.
   */
  function CreateWallet(getnewaddress: string -> Answer, accountLabel: string): (r: Result<seq<(string, Value)>, Thrown>)
    ensures getnewaddress(accountLabel).Failure? ==> r == Failure(getnewaddress(accountLabel).error)
    ensures getnewaddress(accountLabel).Success? ==>
      r.Success? && |r.value| == 1 && HasKey(r.value, "address")
      && Lookup(r.value, "address") == getnewaddress(accountLabel).value
  {
    match getnewaddress(accountLabel)
    case Failure(e) => Failure(e)
    case Success(address) =>
      var members := [("address", address)];
      assert members[0].0 == "address";
      Success(members)
  }

  /** The wallet has no key other than 'address'. */
  lemma CreateWalletOnlyAddress(getnewaddress: string -> Answer, accountLabel: string, key: string)
    requires CreateWallet(getnewaddress, accountLabel).Success?
    requires key != "address"
    ensures !HasKey(CreateWallet(getnewaddress, accountLabel).value, key)
  {
  }

  /** `getBalance($address)`: what `getreceivedbyaddress` answers, unchanged. */
  function GetBalance(getreceivedbyaddress: string -> Answer, address: string): (r: Answer)
    ensures r.Success? <==> getreceivedbyaddress(address).Success?
    ensures r == getreceivedbyaddress(address)
  {
    getreceivedbyaddress(address)
  }

  /** `sendTransaction($to, $amount)`: what `sendtoaddress` answers for those arguments, unchanged. */
  function SendTransaction(sendtoaddress: (string, real) -> Answer, toAddress: string, amount: real): (r: Answer)
    ensures r == sendtoaddress(toAddress, amount)
  {
    sendtoaddress(toAddress, amount)
  }
}
