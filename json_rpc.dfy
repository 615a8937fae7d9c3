/**
 * Request objects of the JSON-RPC 2.0 specification (section 4), shared by
 * the Ethereum and Binance Smart Chain transports and by the batch the
 * Binance Smart Chain scanner posts (section 6).
 */
module JsonRpc {
  import opened Wrappers
  import opened Values

  const Version: string := "2.0"

  datatype Request = Request(jsonrpc: string, methodName: string, params: seq<Value>, id: int)

  /** The request object `{jsonrpc: '2.0', method, params, id}`. */
  function Envelope(methodName: string, params: seq<Value>, id: int): (r: Request)
    ensures r.jsonrpc == "2.0" && r.methodName == methodName && r.params == params && r.id == id
  {
    Request(Version, methodName, params, id)
  }

  /** The PHP array that is JSON-encoded and posted, members in the order the source writes them. */
  function Encode(r: Request): Value {
    Assoc([("jsonrpc", Str(r.jsonrpc)), ("method", Str(r.methodName)),
           ("params", List(r.params)), ("id", Int(r.id))])
  }

  /** How a receiver reads a request object back; None for anything that is not one. */
  function Parse(v: Value): Option<Request> {
    var version, methodName, params, id :=
      Member(v, "jsonrpc"), Member(v, "method"), Member(v, "params"), Member(v, "id");
    if version.Str? && methodName.Str? && params.List? && id.Int?
    then Some(Request(version.s, methodName.s, params.items, id.i))
    else None
  }

  /** Every posted envelope reads back as exactly the request that was built. */
  lemma ParseEncode(r: Request)
    ensures Parse(Encode(r)) == Some(r)
  {
    var members := Encode(r).members;
    LookupFound(members, "jsonrpc", 0);
    LookupFound(members, "method", 1);
    LookupFound(members, "params", 2);
    LookupFound(members, "id", 3);
  }
}
