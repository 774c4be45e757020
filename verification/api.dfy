/** The parts of an OpenAPI document and of the dependency file that the fuzzer reads.
    Examples are taken as given (the example generator is not part of this model):
    `None` stands for an example the generator failed to produce. Media types and
    response codes are listed in the order Go's map iteration visits them. */
module Api {
  import opened Values

  datatype Param = Param(name: string, location: string, example: Option<Value>)

  datatype Content = Content(mediaType: string, example: Option<Value>)

  datatype Response = Response(content: seq<Content>)

  datatype Operation = Operation(
    params: seq<Param>,
    body: Option<seq<Content>>,
    responses: map<string, Response>)

  datatype PathItem = PathItem(params: seq<Param>, ops: map<string, Operation>)

  type Doc = map<string, PathItem>

  /** The methods in the order the fuzzer visits them. CONNECT is not among them. */
  const MethodOrder: seq<string> := ["OPTIONS", "HEAD", "POST", "PUT", "PATCH", "GET", "DELETE", "TRACE"]

  /** Response codes whose presence blanks an operation's output goals and reduces the
      number of nodes built for it. */
  const ExcludeCodes: seq<string> := ["default", "401", "403", "500"]

  /** How many of `codes` an operation declares. */
  function CountDeclared(codes: seq<string>, responses: map<string, Response>): (n: nat)
    ensures n <= |codes|
    ensures n == 0 <==> forall i :: 0 <= i < |codes| ==> codes[i] !in responses
  {
    if codes == [] then 0
    else (if codes[0] in responses then 1 else 0) + CountDeclared(codes[1..], responses)
  }

  function ExcludedCount(responses: map<string, Response>): nat {
    CountDeclared(ExcludeCodes, responses)
  }

  predicate DeclaresExcluded(responses: map<string, Response>) {
    exists i :: 0 <= i < |ExcludeCodes| && ExcludeCodes[i] in responses
  }

  /** One entry of a path's dependency list: the request key it fills and where the value
      comes from (a path whose response is cached, and a key into that response). */
  datatype Item = Item(key: string, sourcePath: string, sourceKey: string)

  /** A (method, path) pair a POST path's top coverage level requires. */
  datatype Flow = Flow(verb: string, path: string)

  datatype Dependency = Dependency(
    count: int,
    paths: map<string, seq<Item>>,
    posts: map<string, seq<Flow>>)
}
