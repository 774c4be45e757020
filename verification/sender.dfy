/** The sender: how a grammar node becomes an HTTP request (path template, query,
    headers, JSON body, authorization), what is reported back for it, and the cache of
    JSON answers by group and path that the mutator reads dependency values from.
    URL escaping and the HTTP exchange itself are given functions. */
module Sender {
  import opened Values
  import opened Base
  import Text
  import Mutator
  import Auth
  import Analyzer

  /** What the request loop assembles. `query` holds the escaped values as Go's
      url.Values does before it is encoded. */
  datatype Outgoing = Outgoing(path: string, query: map<string, string>, header: map<string, string>, body: string)

  /** The request as it goes out: the method, the server joined with the path, and the
      rest of what was assembled. */
  datatype Wire = Wire(verb: string, url: string, query: map<string, string>, header: map<string, string>, body: string)

  /** http.NewRequest's error for a request, and the server's answer to it. */
  datatype Http = Http(build: Wire -> Option<string>, send: Wire -> Exchange)

  /** What the sender reads besides the node: the server, strict mode and the token. */
  datatype Session = Session(server: string, strict: bool, token: Auth.Token)

  predicate IsParamLocation(typ: string) {
    typ == "path" || typ == "query" || typ == "header"
  }

  // ---------------------------------------------------------------- rendering

  /** One field of a parameter request, its value rendered with list elements joined:
      a path field replaces every `{name}` of the path, a query field sets the query key
      to the escaped value, a header field sets the header. */
  function SetParam(out: Outgoing, typ: string, f: Field, decode: bool, x: Externals): Outgoing {
    var value := Mutator.Render(f.val, decode, true, x);
    if typ == "path" then out.(path := Text.ReplaceAll(out.path, "{" + f.key + "}", x.pathEscape(value)))
    else if typ == "query" then out.(query := out.query[f.key := x.queryEscape(value)])
    else if typ == "header" then out.(header := out.header[f.key := value])
    else out
  }

  /** The first `k` fields of a parameter request, in order. */
  function SetParams(out: Outgoing, typ: string, fs: seq<Field>, k: nat, decode: bool, x: Externals): Outgoing
    requires k <= |fs|
  {
    if k == 0 then out else SetParam(SetParams(out, typ, fs, k - 1, decode, x), typ, fs[k - 1], decode, x)
  }

  /** The body text after the first `k` leaves: each string leaf that base64-decodes has
      every occurrence of its text replaced by the decoding. */
  function DecodeLeaves(body: string, root: Value, leaves: seq<Mutator.Leaf>, k: nat, x: Externals): string
    requires k <= |leaves|
  {
    if k == 0 then body
    else
      DecodeLeaf(DecodeLeaves(body, root, leaves, k - 1, x), root, leaves[k - 1], x)
  }

  /** One leaf: a string that decodes is replaced by its decoding everywhere in the body. */
  function DecodeLeaf(b: string, root: Value, leaf: Mutator.Leaf, x: Externals): string {
    match At(root, leaf.path)
    case Some(Str(s)) => (match x.decode(s) case Some(d) => Text.ReplaceAll(b, s, d) case None => b)
    case _ => b
  }

  /** A JSON request's body: the protojson text of its fields with the string leaves
      decoded; flattening panics on a list nested three deep. */
  function BodyText(fields: seq<Field>, decode: bool, x: Externals): Result<string> {
    var root := Struct(fields);
    match Mutator.Flatten("", root, 0, [])
    case Failure(e) => Failure(e)
    case Success(ls) => Success(DecodeLeaves(Mutator.Render(root, decode, true, x), root, ls, |ls|, x))
  }

  /** One request of the node, by its location. */
  function ApplyRequest(out: Outgoing, q: Request, decode: bool, x: Externals): Result<Outgoing> {
    if IsParamLocation(q.typ) then Success(SetParams(out, q.typ, q.fields, |q.fields|, decode, x))
    else if IsJson(q.typ) then
      match BodyText(q.fields, decode, x)
      case Failure(e) => Failure(e)
      case Success(b) => Success(out.(header := out.header["Content-Type" := q.typ], body := b))
    else Failure("Invalid: request type " + q.typ)
  }

  /** The first `k` requests of the node, starting from its path template. */
  function RenderSpec(node: Node, decode: bool, x: Externals, k: nat): Result<Outgoing>
    requires k <= |node.requests|
  {
    if k == 0 then Success(Outgoing(node.path, map[], map[], ""))
    else
      match RenderSpec(node, decode, x, k - 1)
      case Failure(e) => Failure(e)
      case Success(out) => ApplyRequest(out, node.requests[k - 1], decode, x)
  }

  /** A non-empty bearer key goes into the query when the token says so, otherwise into
      an Authorization header as "Bearer <key>". */
  function Authorize(out: Outgoing, t: Auth.Token): Outgoing {
    if t.bearer == "" then out
    else if t.place == "query" then out.(query := out.query["Authorization" := t.bearer])
    else out.(header := out.header["Authorization" := "Bearer " + t.bearer])
  }

  function Prepared(node: Node, decode: bool, t: Auth.Token, x: Externals): Result<Outgoing> {
    match RenderSpec(node, decode, x, |node.requests|)
    case Failure(e) => Failure(e)
    case Success(out) => Success(Authorize(out, t))
  }

  function WireOf(node: Node, ss: Session, out: Outgoing): Wire {
    Wire(node.verb, ss.server + out.path, out.query, out.header, out.body)
  }

  // ---------------------------------------------------------------- the answer

  /** The request was rendered and built, so it reached the network. */
  predicate Delivered(node: Node, decode: bool, ss: Session, x: Externals, http: Http) {
    Prepared(node, decode, ss.token, x).Success? &&
    http.build(WireOf(node, ss, Prepared(node, decode, ss.token, x).value)).None?
  }

  /** What SendRequest reports: a request that could not be built gives the 599
      sentinel in strict mode and otherwise panics on the nil request; a refused
      exchange gives 599 with the error text; an answer gives its code, type and body. */
  function Outcome(node: Node, decode: bool, ss: Session, x: Externals, http: Http): Result<Analyzer.Info> {
    match Prepared(node, decode, ss.token, x)
    case Failure(e) => Failure(e)
    case Success(out) =>
      var w := WireOf(node, ss, out);
      match http.build(w)
      case Some(e) => if ss.strict then Success(Analyzer.Info(node, 599, "", e)) else Failure("nil request")
      case None =>
        match http.send(w)
        case Refused(e) => Success(Analyzer.Info(node, 599, "", e))
        case Answered(status, ct, body) => Success(Analyzer.Info(node, status, ct, body))
  }

  /** A 2xx answer with a JSON Content-Type. */
  predicate Cacheable(reply: Exchange) {
    reply.Answered? && Text.Quo(reply.status, 100) == 2 && IsJson(reply.contentType)
  }

  /** The cache after an answer: a cacheable answer's body is stored under the node's
      group and path, creating the group's map if missing and replacing an earlier body. */
  function Cached(groups: map<nat, map<string, string>>, node: Node, reply: Exchange): map<nat, map<string, string>> {
    if Cacheable(reply) then
      groups[node.group := (if node.group in groups then groups[node.group] else map[])[node.path := reply.body]]
    else groups
  }

  /** The cache after sending a node. */
  function CacheAfter(groups: map<nat, map<string, string>>, node: Node, decode: bool, ss: Session, x: Externals,
                      http: Http): map<nat, map<string, string>> {
    if Delivered(node, decode, ss, x, http)
    then Cached(groups, node, http.send(WireOf(node, ss, Prepared(node, decode, ss.token, x).value)))
    else groups
  }

  /** The cache shared with the mutator: JSON answers by group and path. */
  class GroupCache {
    var groups: map<nat, map<string, string>>

    constructor ()
      ensures groups == map[]
    {
      groups := map[];
    }

    /** SendRequest: renders the node, sends it and records a cacheable answer. */
    method SendRequest(node: Node, decode: bool, ss: Session, x: Externals, http: Http) returns (r: Result<Analyzer.Info>)
      modifies this
      ensures r == Outcome(node, decode, ss, x, http)
      ensures groups == CacheAfter(old(groups), node, decode, ss, x, http)
    {
      var p := PrepareOne(node, decode, ss.token, x);
      if p.Failure? {
        return Failure(p.error);
      }
      var o := p.value;
      var w := Wire(node.verb, ss.server + o.path, o.query, o.header, o.body);
      var err := http.build(w);
      if err.Some? {
        if ss.strict {
          return Success(Analyzer.Info(node, 599, "", err.value));
        }
        return Failure("nil request");
      }
      var reply := http.send(w);
      if reply.Refused? {
        return Success(Analyzer.Info(node, 599, "", reply.error));
      }
      if Text.Quo(reply.status, 100) == 2 && Text.IsJsonType(reply.contentType) {
        var g: map<string, string> := if node.group in groups then groups[node.group] else map[];
        groups := groups[node.group := g[node.path := reply.body]];
      }
      r := Success(Analyzer.Info(node, reply.status, reply.contentType, reply.body));
    }
  }

  // ---------------------------------------------------------------- the loops

  /** Renders a node and adds the bearer key. */
  method PrepareOne(node: Node, decode: bool, t: Auth.Token, x: Externals) returns (r: Result<Outgoing>)
    ensures r == Prepared(node, decode, t, x)
  {
    var out := RenderNode(node, decode, x);
    if out.Failure? {
      return Failure(out.error);
    }
    var o := out.value;
    if t.bearer != "" {
      if t.place == "query" {
        o := o.(query := o.query["Authorization" := t.bearer]);
      } else {
        o := o.(header := o.header["Authorization" := "Bearer " + t.bearer]);
      }
    }
    r := Success(o);
  }

  /** The request loop: each request in turn updates the path, the query, the headers
      or the body. */
  method RenderNode(node: Node, decode: bool, x: Externals) returns (r: Result<Outgoing>)
    ensures r == RenderSpec(node, decode, x, |node.requests|)
  {
    var out := Outgoing(node.path, map[], map[], "");
    var k := 0;
    while k < |node.requests|
      invariant 0 <= k <= |node.requests|
      invariant RenderSpec(node, decode, x, k) == Success(out)
    {
      var next := ApplyOne(out, node.requests[k], decode, x);
      RenderStep(node, decode, x, k, out, next);
      if next.Failure? {
        RenderFails(node, decode, x, k + 1);
        return next;
      }
      out := next.value;
      k := k + 1;
    }
    r := Success(out);
  }

  lemma RenderStep(node: Node, decode: bool, x: Externals, k: nat, out: Outgoing, next: Result<Outgoing>)
    requires k < |node.requests| && RenderSpec(node, decode, x, k) == Success(out)
    requires next == ApplyRequest(out, node.requests[k], decode, x)
    ensures RenderSpec(node, decode, x, k + 1) == next
  {
  }

  lemma {:induction false} RenderFails(node: Node, decode: bool, x: Externals, k: nat)
    requires 0 < k <= |node.requests| && RenderSpec(node, decode, x, k).Failure?
    ensures RenderSpec(node, decode, x, |node.requests|) == RenderSpec(node, decode, x, k)
    decreases |node.requests| - k
  {
    if k < |node.requests| {
      RenderFails(node, decode, x, k + 1);
    }
  }

  method ApplyOne(out: Outgoing, q: Request, decode: bool, x: Externals) returns (r: Result<Outgoing>)
    ensures r == ApplyRequest(out, q, decode, x)
  {
    if IsParamLocation(q.typ) {
      var o := ParamLoop(out, q.typ, q.fields, decode, x);
      return Success(o);
    } else if Text.IsJsonType(q.typ) {
      var root := Struct(q.fields);
      var leaves := Mutator.Flatten("", root, 0, []);
      if leaves.Failure? {
        return Failure(leaves.error);
      }
      var body := DecodeLoop(Mutator.Render(root, decode, true, x), root, leaves.value, x);
      return Success(out.(header := out.header["Content-Type" := q.typ], body := body));
    }
    r := Failure("Invalid: request type " + q.typ);
  }

  /** The field loop of a parameter request. */
  method ParamLoop(out: Outgoing, typ: string, fs: seq<Field>, decode: bool, x: Externals) returns (o: Outgoing)
    requires IsParamLocation(typ)
    ensures o == SetParams(out, typ, fs, |fs|, decode, x)
  {
    o := out;
    var k := 0;
    while k < |fs|
      invariant 0 <= k <= |fs|
      invariant o == SetParams(out, typ, fs, k, decode, x)
    {
      var f := fs[k];
      var value := Mutator.Render(f.val, decode, true, x);
      if typ == "path" {
        o := o.(path := Text.ReplaceAll(o.path, "{" + f.key + "}", x.pathEscape(value)));
      } else if typ == "query" {
        o := o.(query := o.query[f.key := x.queryEscape(value)]);
      } else {
        o := o.(header := o.header[f.key := value]);
      }
      k := k + 1;
    }
  }

  /** The leaf loop of a JSON body. */
  method DecodeLoop(body: string, root: Value, leaves: seq<Mutator.Leaf>, x: Externals) returns (b: string)
    ensures b == DecodeLeaves(body, root, leaves, |leaves|, x)
  {
    b := body;
    var k := 0;
    while k < |leaves|
      invariant 0 <= k <= |leaves|
      invariant b == DecodeLeaves(body, root, leaves, k, x)
    {
      b := DecodeOne(b, root, leaves[k], x);
      k := k + 1;
    }
  }

  method DecodeOne(b: string, root: Value, leaf: Mutator.Leaf, x: Externals) returns (r: string)
    ensures r == DecodeLeaf(b, root, leaf, x)
  {
    r := b;
    var v := At(root, leaf.path);
    if v.Some? && v.value.Str? {
      var d := x.decode(v.value.s);
      if d.Some? {
        r := Text.ReplaceAll(b, v.value.s, d.value);
      }
    }
  }

  // ---------------------------------------------------------------- properties

  /** A parameter request touches only its own part of the request: path fields only
      the path, query fields only the query, header fields only the headers. */
  lemma {:induction false} ParamsStayInPlace(out: Outgoing, typ: string, fs: seq<Field>, k: nat, decode: bool, x: Externals)
    requires IsParamLocation(typ) && k <= |fs|
    ensures SetParams(out, typ, fs, k, decode, x).body == out.body
    ensures typ != "path" ==> SetParams(out, typ, fs, k, decode, x).path == out.path
    ensures typ != "query" ==> SetParams(out, typ, fs, k, decode, x).query == out.query
    ensures typ != "header" ==> SetParams(out, typ, fs, k, decode, x).header == out.header
    decreases k
  {
    if k > 0 {
      ParamsStayInPlace(out, typ, fs, k - 1, decode, x);
    }
  }

  /** The map a query or header field writes into, and the text it writes there. */
  function Slot(o: Outgoing, typ: string): map<string, string> {
    if typ == "query" then o.query else o.header
  }

  function Shown(typ: string, f: Field, decode: bool, x: Externals): string {
    var value := Mutator.Render(f.val, decode, true, x);
    if typ == "query" then x.queryEscape(value) else value
  }

  /** No later field of the first `k` has the key of field `i`. */
  predicate LastOf(fs: seq<Field>, k: nat, i: nat)
    requires i < k <= |fs|
  {
    forall j :: i < j < k ==> fs[j].key != fs[i].key
  }

  /** A query or header field writes its key and nothing else of its map. */
  lemma SlotStep(o: Outgoing, typ: string, f: Field, decode: bool, x: Externals)
    requires typ == "query" || typ == "header"
    ensures Slot(SetParam(o, typ, f, decode, x), typ) == Slot(o, typ)[f.key := Shown(typ, f, decode, x)]
  {
  }

  /** The field with no later namesake sets its key: a query key holds the escaped
      value of the last field that names it, a header the rendered value. */
  lemma {:induction false} LastFieldWins(out: Outgoing, typ: string, fs: seq<Field>, k: nat, decode: bool, x: Externals)
    requires (typ == "query" || typ == "header") && k <= |fs|
    ensures forall i :: 0 <= i < k && LastOf(fs, k, i) ==>
      fs[i].key in Slot(SetParams(out, typ, fs, k, decode, x), typ) &&
      Slot(SetParams(out, typ, fs, k, decode, x), typ)[fs[i].key] == Shown(typ, fs[i], decode, x)
    decreases k
  {
    if k > 0 {
      LastFieldWins(out, typ, fs, k - 1, decode, x);
      var prev := SetParams(out, typ, fs, k - 1, decode, x);
      SlotStep(prev, typ, fs[k - 1], decode, x);
      forall i | 0 <= i < k - 1 && LastOf(fs, k, i)
        ensures LastOf(fs, k - 1, i)
      {
      }
    }
  }

  /** A key no field names keeps what it held, or stays absent. */
  lemma {:induction false} UnnamedKeysKept(out: Outgoing, typ: string, fs: seq<Field>, k: nat, decode: bool, x: Externals,
                                           key: string)
    requires (typ == "query" || typ == "header") && k <= |fs|
    requires forall j :: 0 <= j < k ==> fs[j].key != key
    ensures key in Slot(SetParams(out, typ, fs, k, decode, x), typ) <==> key in Slot(out, typ)
    ensures key in Slot(out, typ) ==> Slot(SetParams(out, typ, fs, k, decode, x), typ)[key] == Slot(out, typ)[key]
    decreases k
  {
    if k > 0 {
      UnnamedKeysKept(out, typ, fs, k - 1, decode, x, key);
      SlotStep(SetParams(out, typ, fs, k - 1, decode, x), typ, fs[k - 1], decode, x);
    }
  }

  /** Each location goes where it belongs: a JSON request sets the Content-Type to its
      own type and replaces the body, leaving path and query alone; a request of any
      other location panics with its type in the message. */
  lemma RequestRouting(out: Outgoing, q: Request, decode: bool, x: Externals)
    ensures IsParamLocation(q.typ) ==> ApplyRequest(out, q, decode, x).Success?
    ensures !IsParamLocation(q.typ) && IsJson(q.typ) ==>
      (ApplyRequest(out, q, decode, x).Success? <==> Mutator.Flatten("", Struct(q.fields), 0, []).Success?)
    ensures !IsParamLocation(q.typ) && IsJson(q.typ) && ApplyRequest(out, q, decode, x).Success? ==>
      var o := ApplyRequest(out, q, decode, x).value;
      o.path == out.path && o.query == out.query && o.header == out.header["Content-Type" := q.typ]
    ensures !IsParamLocation(q.typ) && !IsJson(q.typ) ==>
      ApplyRequest(out, q, decode, x) == Failure("Invalid: request type " + q.typ)
  {
  }

  /** A string that occurs nowhere leaves a replacement unchanged one character at a
      time. */
  lemma ReplaceSkip(c: char, s: string, pat: string, rep: string)
    requires pat != [] && c != pat[0]
    ensures Text.ReplaceAll([c] + s, pat, rep) == [c] + Text.ReplaceAll(s, pat, rep)
  {
    var t := [c] + s;
    assert t[1..] == s;
    if |t| >= |pat| {
      assert t[..|pat|][0] == c;
    }
  }

  /** Text free of the pattern's first character passes through a replacement as it is. */
  lemma {:induction false} ReplacePrefix(pre: string, rest: string, pat: string, rep: string)
    requires pat != [] && pat[0] !in pre
    ensures Text.ReplaceAll(pre + rest, pat, rep) == pre + Text.ReplaceAll(rest, pat, rep)
    decreases |pre|
  {
    if pre != [] {
      var c, t := pre[0], pre[1..];
      assert c in pre;
      ReplacePrefix(t, rest, pat, rep);
      ConsSplit(pre, rest);
      ReplaceSkip(c, t + rest, pat, rep);
      ConsSplit(pre, Text.ReplaceAll(rest, pat, rep));
    } else {
      assert pre + rest == rest;
    }
  }

  lemma ConsSplit<T>(s: seq<T>, u: seq<T>)
    requires s != []
    ensures s + u == [s[0]] + (s[1..] + u)
  {
  }

  /** Text without the pattern's first character does not contain the pattern. */
  lemma MissingFirst(s: string, pat: string)
    requires pat != [] && pat[0] !in s
    ensures !Text.Contains(s, pat)
  {
  }

  /** A path with one `{name}` template, and no other brace, becomes the path with the
      escaped value in the template's place. */
  lemma PathTemplate(pre: string, name: string, post: string, e: string)
    requires '{' !in pre && '{' !in post
    ensures Text.ReplaceAll(pre + "{" + name + "}" + post, "{" + name + "}", e) == pre + e + post
  {
    var pat := "{" + name + "}";
    assert pat[0] == '{';
    assert pre + "{" + name + "}" + post == pre + (pat + post);
    ReplacePrefix(pre, pat + post, pat, e);
    assert (pat + post)[..|pat|] == pat && (pat + post)[|pat|..] == post;
    assert Text.ReplaceAll(pat + post, pat, e) == e + Text.ReplaceAll(post, pat, e);
    MissingFirst(post, pat);
    Text.ReplaceAbsent(post, pat, e);
    assert pre + (e + post) == pre + e + post;
  }

  /** A parameter the grammar base64-encoded is sent as the text it encodes. */
  lemma EncodedQueryParam(out: Outgoing, key: string, s: string, x: Externals)
    requires DecodesEncoded(x)
    ensures ApplyRequest(out, Request("query", [Field(key, Str(x.encode(s)))]), true, x)
      == Success(out.(query := out.query[key := x.queryEscape(s)]))
  {
    Mutator.RenderEncoded(s, true, x);
    var q := Request("query", [Field(key, Str(x.encode(s)))]);
    assert SetParams(out, "query", q.fields, 0, true, x) == out;
    assert SetParams(out, "query", q.fields, 1, true, x) == SetParam(out, "query", q.fields[0], true, x);
  }

  /** A body with no decodable string leaf is the protojson text as it is. */
  lemma {:induction false} NothingToDecode(body: string, root: Value, leaves: seq<Mutator.Leaf>, k: nat, x: Externals)
    requires k <= |leaves|
    requires forall i :: 0 <= i < k && At(root, leaves[i].path).Some? && At(root, leaves[i].path).value.Str? ==>
      x.decode(At(root, leaves[i].path).value.s).None?
    ensures DecodeLeaves(body, root, leaves, k, x) == body
    decreases k
  {
    if k > 0 {
      NothingToDecode(body, root, leaves, k - 1, x);
    }
  }

  /** Where the bearer key goes. */
  lemma BearerPlacement(out: Outgoing, t: Auth.Token)
    ensures t.bearer == "" ==> Authorize(out, t) == out
    ensures t.bearer != "" && t.place == "query" ==>
      Authorize(out, t).query["Authorization"] == t.bearer && Authorize(out, t).header == out.header
    ensures t.bearer != "" && t.place != "query" ==>
      Authorize(out, t).header["Authorization"] == "Bearer " + t.bearer && Authorize(out, t).query == out.query
    ensures Authorize(out, t).path == out.path && Authorize(out, t).body == out.body
  {
  }

  /** An answer records the node it answers. */
  lemma AnswerNode(node: Node, decode: bool, ss: Session, x: Externals, http: Http)
    ensures Outcome(node, decode, ss, x, http).Success? ==> Outcome(node, decode, ss, x, http).value.node == node
  {
  }

  /** The 599 sentinel: a refused exchange, or in strict mode a request that could not
      be built, is reported with code 599 and the error text; outside strict mode an
      unbuildable request panics. */
  lemma Sentinel(node: Node, decode: bool, ss: Session, x: Externals, http: Http)
    requires Prepared(node, decode, ss.token, x).Success?
    ensures var w := WireOf(node, ss, Prepared(node, decode, ss.token, x).value);
      (http.build(w).Some? ==>
        (ss.strict <==> Outcome(node, decode, ss, x, http).Success?) &&
        (ss.strict ==> Outcome(node, decode, ss, x, http).value == Analyzer.Info(node, 599, "", http.build(w).value))) &&
      (http.build(w).None? && http.send(w).Refused? ==>
        Outcome(node, decode, ss, x, http) == Success(Analyzer.Info(node, 599, "", http.send(w).error))) &&
      (http.build(w).None? && http.send(w).Answered? ==>
        Outcome(node, decode, ss, x, http).Success? && Outcome(node, decode, ss, x, http).value.code == http.send(w).status)
    ensures Outcome(node, decode, ss, x, http).Success? ==> Outcome(node, decode, ss, x, http).value.node == node
  {
  }

  /** Go's status/100 == 2 is exactly the 2xx range. */
  lemma CacheableRange(reply: Exchange)
    ensures Cacheable(reply) <==> reply.Answered? && 200 <= reply.status <= 299 && IsJson(reply.contentType)
  {
    if reply.Answered? && reply.status < 0 {
      assert Text.Quo(reply.status, 100) <= 0;
    }
  }

  /** A cacheable answer stores its body under the node's group and path and changes no
      other entry; any other answer leaves the cache alone. */
  lemma CacheWrite(groups: map<nat, map<string, string>>, node: Node, reply: Exchange)
    ensures !Cacheable(reply) ==> Cached(groups, node, reply) == groups
    ensures Cacheable(reply) ==>
      node.group in Cached(groups, node, reply) &&
      node.path in Cached(groups, node, reply)[node.group] &&
      Cached(groups, node, reply)[node.group][node.path] == reply.body
    ensures forall g, p :: g in groups && p in groups[g] && (g != node.group || p != node.path) ==>
      g in Cached(groups, node, reply) && p in Cached(groups, node, reply)[g] &&
      Cached(groups, node, reply)[g][p] == groups[g][p]
    ensures Cached(groups, node, reply).Keys <= groups.Keys + {node.group}
  {
  }
}
