/**
 * The Binance Smart Chain transport: a Guzzle client configured once, and
 * calls that always post the envelope with id 1 and decode the reply.
 */
module BinanceSmartChainRpc {
  import opened Wrappers
  import opened Values
  import opened JsonRpc

  const FixedId: int := 1
  const TimeoutSeconds: nat := 30

  datatype ClientConfig = ClientConfig(baseUri: string, timeout: nat)

  /** The client options chosen by the constructor. */
  function Configure(url: string): (c: ClientConfig)
    ensures c.baseUri == url && c.timeout == 30
  {
    ClientConfig(url, TimeoutSeconds)
  }

  /**
   * One HTTP exchange: Guzzle threw (a transport error, with its message),
   * or a body came back, already passed through `json_decode(..., true)`.
   */
  datatype Exchange = GuzzleFailed(message: string) | Replied(body: Value)

  /** The request every call posts: the JSON-RPC envelope with id 1. */
  function RequestFor(methodName: string, params: seq<Value>): (r: Request)
    ensures r == Request("2.0", methodName, params, 1)
  {
    Envelope(methodName, params, FixedId)
  }

  /**
   * The outcome of a call given its exchange: a transport error is rethrown
   * with the prefix 'RPC request failed: ', an `error` member is thrown with
   * its message and code, and otherwise the `result` member is returned.
   */
  function Decode(x: Exchange): (a: Answer)
    ensures a.Success? <==> x.Replied? && !IsSet(x.body, "error")
    ensures a.Success? ==> a.value == Member(x.body, "result")
    ensures x.GuzzleFailed? ==> a == Failure(Thrown(PlainException, "RPC request failed: " + x.message, 0))
    ensures x.Replied? && IsSet(x.body, "error") ==>
      var e := Member(x.body, "error");
      a == Failure(Thrown(PlainException, TextOf(Member(e, "message")), NumberOf(Member(e, "code"))))
  {
    match x
    case GuzzleFailed(m) => Failure(Thrown(PlainException, "RPC request failed: " + m, 0))
    case Replied(body) =>
      if IsSet(body, "error") then
        var e := Member(body, "error");
        Failure(Thrown(PlainException, TextOf(Member(e, "message")), NumberOf(Member(e, "code"))))
      else
        Success(Member(body, "result"))
  }

  /** A call: post the fixed-id envelope, decode what comes back. */
  function Call(methodName: string, params: seq<Value>, transport: Request -> Exchange): (a: Answer)
    ensures a == Decode(transport(Request("2.0", methodName, params, 1)))
  {
    Decode(transport(RequestFor(methodName, params)))
  }

  /** Two calls, whatever their methods and parameters, carry the same id. */
  lemma IdNeverVaries(m1: string, p1: seq<Value>, m2: string, p2: seq<Value>)
    ensures RequestFor(m1, p1).id == RequestFor(m2, p2).id == 1
  {
  }
}
