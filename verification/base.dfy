/** The grammar's node and request records, and the foreign codecs the fuzzer calls
    (base64, protojson, fastjson, the go-fuzz byte mutator, URL escaping, protobuf),
    which the model takes as given functions. */
module Base {
  import opened Values

  /** One location of an operation's input: a parameter location ("path", "query",
      "header") or a body media type, with its fields. */
  datatype Request = Request(typ: string, fields: seq<Field>)

  /** One request of the grammar: an operation (HTTP method `verb`) of a path, in a
      numbered group. */
  datatype Node = Node(group: nat, path: string, verb: string, requests: seq<Request>)

  /** What a fastjson lookup yields: the value read as an integer and as a string
      (0 and "" when the keys lead nowhere). */
  datatype JsonLeaf = JsonLeaf(num: int, str: string)

  datatype Externals = Externals(
    encode: string -> string,                          // base64 StdEncoding
    decode: string -> Option<string>,                  // base64 StdEncoding; None on a decode error
    marshal: Value -> string,                          // protojson text of a struct value
    exampleKeys: Value -> seq<string>,                 // the JSON keys of an example
    bodyKeys: string -> seq<string>,                   // the JSON keys found in a response body
    lookup: (string, seq<string>) -> Option<JsonLeaf>, // fastjson parse and Get; None when the body is not JSON
    mutate: (nat, string) -> string,                   // go-fuzz byte mutator, given its random seed
    pathEscape: string -> string,
    queryEscape: string -> string,
    grammarBytes: seq<Node> -> seq<Text.byte>,         // proto.Marshal of a grammar
    grammarOf: seq<Text.byte> -> Option<seq<Node>>,    // proto.Unmarshal of a grammar
    nodeBytes: Node -> seq<Text.byte>,                 // proto.Marshal of one node
    nodeText: Node -> string)                          // the node's text form

  /** base64 decoding undoes base64 encoding. */
  ghost predicate DecodesEncoded(x: Externals) {
    forall s :: x.decode(x.encode(s)) == Some(s)
  }

  /** The outcome of one HTTP exchange: the request could not be built or sent (Go's
      error text), or the server answered with a status, a Content-Type and a body. */
  datatype Exchange = Refused(error: string) | Answered(status: int, contentType: string, body: string)

  predicate IsJson(typ: string) {
    Text.IsJsonType(typ)
  }

  import Text
}
