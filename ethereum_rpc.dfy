/**
 * The Ethereum transport: every call takes the next request id, posts one
 * JSON-RPC envelope over curl and decodes the reply (sections 4 and 5 of
 * the JSON-RPC 2.0 specification).
 */
module EthereumRpc {
  import opened Wrappers
  import opened Values
  import opened JsonRpc

  /**
   * One HTTP exchange as the transport sees it: curl failed (with curl's
   * error text), or a body came back, already passed through
   * `json_decode(..., true)` (a body that is not JSON decodes to Null).
   */
  datatype Exchange = CurlFailed(curlError: string) | Replied(body: Value)

  /**
   * The outcome of a call given its exchange: a curl failure or an `error`
   * member is thrown, otherwise the `result` member is returned (Null when
   * the reply has none).
   */
  function Decode(x: Exchange): (a: Answer)
    ensures a.Success? <==> x.Replied? && !IsSet(x.body, "error")
    ensures a.Success? ==> a.value == Member(x.body, "result")
    ensures x.CurlFailed? ==> a == Failure(Thrown(PlainException, "CURL Error: " + x.curlError, 0))
    ensures x.Replied? && IsSet(x.body, "error") ==>
      a == Failure(Thrown(PlainException,
                          "ETH RPC Error: " + TextOf(Member(Member(x.body, "error"), "message")), 0))
  {
    match x
    case CurlFailed(e) => Failure(Thrown(PlainException, "CURL Error: " + e, 0))
    case Replied(body) =>
      if IsSet(body, "error") then
        Failure(Thrown(PlainException, "ETH RPC Error: " + TextOf(Member(Member(body, "error"), "message")), 0))
      else
        Success(Member(body, "result"))
  }

  class EthereumRpc {
    /** The endpoint, fixed at construction. */
    const url: string
    /** The id of the last request sent; 0 before the first call. */
    var id: int

    constructor (url: string)
      ensures this.url == url && id == 0
    {
      this.url := url;
      id := 0;
    }

    /**
     * Takes the next id, builds the envelope with it and decodes what the
     * transport returns for that envelope.
     */
    method Call(methodName: string, params: seq<Value>, transport: Request -> Exchange)
      returns (request: Request, answer: Answer)
      modifies this
      ensures id == old(id) + 1
      ensures request == Envelope(methodName, params, id)
      ensures answer == Decode(transport(request))
    {
      id := id + 1;
      request := Envelope(methodName, params, id);
      answer := Decode(transport(request));
    }
  }

  /** The first two calls on a fresh transport carry ids 1 and 2, and the url stays put. */
  method FirstCalls(url: string, transport: Request -> Exchange)
    returns (first: Request, second: Request)
    ensures first.id == 1 && second.id == 2
    ensures first.jsonrpc == "2.0" && second.jsonrpc == "2.0"
  {
    var rpc := new EthereumRpc(url);
    var a;
    first, a := rpc.Call("eth_blockNumber", [], transport);
    second, a := rpc.Call("eth_blockNumber", [], transport);
    assert rpc.url == url;
  }
}
