/**
 * The wallet factory: a `switch` from a chain symbol to the adapter that
 * serves it. The adapters' constructors read configuration and open
 * clients; here the factory's outcome is the kind of adapter it builds.
 */
module WalletFactory {
  import opened Wrappers
  import opened Values

  datatype WalletKind = BitcoinWallet | LitecoinWallet | BinanceSmartChainWallet | TronWallet | EthereumWallet

  /** The symbols the factory accepts, in the order of its cases. */
  const Symbols: seq<string> := ["BTC", "LTC", "BNB", "TRX", "ETH"]

  /**
   * PHP 8's loose `$v == $text` for a text that is not numeric: equal
   * strings, a boolean of the same truthiness, or null against the empty
   * string; numbers and arrays never equal it.
   */
  predicate LooselyEqualsText(v: Value, text: string) {
    match v
    case Str(s) => s == text
    case Bool(b) => b == Truthy(Str(text))
    case Null => text == ""
    case _ => false
  }

  function Unsupported(kind: Value): Thrown {
    Thrown(InvalidArgument, "Unsupported wallet type: " + TextOf(kind), 0)
  }

  /** `createWalletInstance($type)`: the first case the symbol loosely equals, else InvalidArgumentException. */
  function CreateWalletInstance(kind: Value): (r: Result<WalletKind, Thrown>)
    ensures LooselyEqualsText(kind, "BTC") ==> r == Success(BitcoinWallet)
    ensures !LooselyEqualsText(kind, "BTC") && LooselyEqualsText(kind, "LTC") ==> r == Success(LitecoinWallet)
    ensures (!LooselyEqualsText(kind, "BTC") && !LooselyEqualsText(kind, "LTC") && !LooselyEqualsText(kind, "BNB")
             && !LooselyEqualsText(kind, "TRX") && !LooselyEqualsText(kind, "ETH")) ==>
      r == Failure(Unsupported(kind))
  {
    if LooselyEqualsText(kind, "BTC") then Success(BitcoinWallet)
    else if LooselyEqualsText(kind, "LTC") then Success(LitecoinWallet)
    else if LooselyEqualsText(kind, "BNB") then Success(BinanceSmartChainWallet)
    else if LooselyEqualsText(kind, "TRX") then Success(TronWallet)
    else if LooselyEqualsText(kind, "ETH") then Success(EthereumWallet)
    else Failure(Unsupported(kind))
  }

  /** The adapter each symbol names. */
  function KindOf(k: nat): WalletKind
    requires k < |Symbols|
  {
    [BitcoinWallet, LitecoinWallet, BinanceSmartChainWallet, TronWallet, EthereumWallet][k]
  }

  /**
   * On strings the factory is exact matching: the five symbols, and only
   * they, build an adapter, each its own; anything else, 'btc' included,
   * is rejected with the symbol in the message.
   */
  lemma StringDispatch(s: string)
    ensures CreateWalletInstance(Str(s)).Success? <==> s in Symbols
    ensures forall k :: 0 <= k < |Symbols| && s == Symbols[k] ==> CreateWalletInstance(Str(s)) == Success(KindOf(k))
    ensures s !in Symbols ==>
      CreateWalletInstance(Str(s)) == Failure(Thrown(InvalidArgument, "Unsupported wallet type: " + s, 0))
  {
  }

  /** Different symbols build different adapters. */
  lemma DispatchIsInjective(a: string, b: string)
    requires CreateWalletInstance(Str(a)).Success? && CreateWalletInstance(Str(b)).Success?
    requires CreateWalletInstance(Str(a)) == CreateWalletInstance(Str(b))
    ensures a == b
  {
    StringDispatch(a);
    StringDispatch(b);
  }

  /** Lower-case and unknown symbols are rejected; `true` loosely equals 'BTC' and so builds a Bitcoin adapter. */
  lemma DispatchExamples()
    ensures CreateWalletInstance(Str("btc")) == Failure(Thrown(InvalidArgument, "Unsupported wallet type: btc", 0))
    ensures CreateWalletInstance(Str("DOGE")).Failure?
    ensures CreateWalletInstance(Bool(true)) == Success(BitcoinWallet)
    ensures CreateWalletInstance(Null) == Failure(Thrown(InvalidArgument, "Unsupported wallet type: ", 0))
  {
    StringDispatch("btc");
    assert "Unsupported wallet type: " + "btc" == "Unsupported wallet type: btc";
    assert "Unsupported wallet type: " + "" == "Unsupported wallet type: ";
  }
}
