/** The login step that fetches the bearer key the sender attaches to every request:
    either the key is written into Token.yml by hand, or a login request is sent and the
    key is read from the JSON answer. The YAML serialiser, the HTTP exchange and the
    fastjson lookup are given functions. */
module Auth {
  import opened Values
  import opened Base
  import Text
  import KeyPath

  /** Token.yml. `place` is its `in` entry: "query" sends the key as a query parameter,
      anything else as an Authorization header. */
  datatype Token = Token(url: string, verb: string, key: string, bearer: string,
                         contentType: string, hardcode: bool, place: string)

  /** The login request as it is sent. */
  datatype Login = Login(verb: string, url: string, body: string, header: map<string, string>)

  /** The body sent: YAML text of the configured body; a single-quoted scalar loses its
      first character and its last two. Text starting with a quote that is shorter than
      three characters makes the slice panic. */
  function LoginBody(text: string): Result<string> {
    if Text.HasPrefix(text, "'") then
      if |text| >= 3 then Success(text[1..|text| - 2]) else Failure("slice bounds out of range")
    else Success(text)
  }

  /** A quoted YAML scalar `'s'` followed by its newline is sent as `s`; text that does
      not start with a quote is sent as it is. */
  lemma QuotedBody(s: string, text: string)
    ensures LoginBody("'" + s + "'\n") == Success(s)
    ensures !Text.HasPrefix(text, "'") ==> LoginBody(text) == Success(text)
  {
    var q := "'" + s + "'\n";
    assert Text.HasPrefix(q, "'") by { assert q[..1] == "'"; }
    assert q[1..|q| - 2] == s;
  }

  /** The login request: the configured method and URL, the body, and a Content-Type
      header only when a type is configured. */
  function LoginOf(t: Token, text: string): Result<Login> {
    match LoginBody(text)
    case Failure(e) => Failure(e)
    case Success(b) =>
      Success(Login(t.verb, t.url, b, if t.contentType != "" then map["Content-Type" := t.contentType] else map[]))
  }

  lemma ContentTypeOnlyWhenSet(t: Token, text: string)
    requires LoginOf(t, text).Success?
    ensures "Content-Type" in LoginOf(t, text).value.header <==> t.contentType != ""
    ensures t.contentType != "" ==> LoginOf(t, text).value.header["Content-Type"] == t.contentType
    ensures |LoginOf(t, text).value.header| <= 1
  {
  }

  /** The key read from the login answer: anything but 200 panics; a body that is not
      JSON panics; the string at the key path is the key, and when it is empty (the path
      leads nowhere or not to a string) the whole body without its double quotes is. */
  function Extract(t: Token, reply: Exchange, x: Externals): Result<string> {
    match reply
    case Refused(e) => Failure(e)
    case Answered(status, _, body) =>
      if status != 200 then Failure("Invalid log in, code: " + Text.IntToString(status))
      else
        match x.lookup(body, KeyPath.Segments(t.key))
        case None => Failure("cannot parse JSON")
        case Some(leaf) =>
          if leaf.str == "" then Success(Text.ReplaceAll(body, "\"", "")) else Success(leaf.str)
  }

  /** GetToken, with the login exchange as a function of the request sent. */
  function TokenSpec(t: Token, text: string, send: Login -> Exchange, x: Externals): Result<string> {
    if t.hardcode then Success(t.bearer)
    else
      match LoginOf(t, text)
      case Failure(e) => Failure(e)
      case Success(req) => Extract(t, send(req), x)
  }

  /** A hand-written key is returned unchanged, and no login request is made: the result
      does not depend on the exchange. */
  lemma HardcodeSkipsLogin(t: Token, text: string, send: Login -> Exchange, other: Login -> Exchange, x: Externals)
    requires t.hardcode
    ensures TokenSpec(t, text, send, x) == Success(t.bearer)
    ensures TokenSpec(t, text, send, x) == TokenSpec(t, text, other, x)
  {
  }

  /** Any answer but 200 OK is fatal, with the code in the message. */
  lemma RejectedLogin(t: Token, text: string, send: Login -> Exchange, x: Externals)
    requires !t.hardcode && LoginOf(t, text).Success?
    requires send(LoginOf(t, text).value).Answered? && send(LoginOf(t, text).value).status != 200
    ensures TokenSpec(t, text, send, x) ==
      Failure("Invalid log in, code: " + Text.IntToString(send(LoginOf(t, text).value).status))
  {
  }

  /** When the key path yields no string, the key is the body with every double quote
      removed, so it holds no double quote and is no longer than the body. */
  lemma FallbackKey(t: Token, body: string, ct: string, x: Externals)
    requires x.lookup(body, KeyPath.Segments(t.key)).Some?
    requires x.lookup(body, KeyPath.Segments(t.key)).value.str == ""
    ensures Extract(t, Answered(200, ct, body), x).Success?
    ensures '"' !in Extract(t, Answered(200, ct, body), x).value
    ensures |Extract(t, Answered(200, ct, body), x).value| <= |body|
  {
    Text.RemoveAllChar(body, '"');
  }

  /** A key found at the key path is returned as found. */
  lemma FoundKey(t: Token, body: string, ct: string, x: Externals)
    requires x.lookup(body, KeyPath.Segments(t.key)).Some?
    requires x.lookup(body, KeyPath.Segments(t.key)).value.str != ""
    ensures Extract(t, Answered(200, ct, body), x) == Success(x.lookup(body, KeyPath.Segments(t.key)).value.str)
  {
  }

  /** GetToken: splits the key path one character at a time, as the mutator does. */
  method GetToken(t: Token, text: string, send: Login -> Exchange, x: Externals) returns (r: Result<string>)
    ensures r == TokenSpec(t, text, send, x)
  {
    if t.hardcode {
      return Success(t.bearer);
    }
    var body := text;
    if Text.HasPrefix(body, "'") {
      if |body| < 3 {
        return Failure("slice bounds out of range");
      }
      body := body[1..|body| - 2];
    }
    var header: map<string, string> := map[];
    if t.contentType != "" {
      header := header["Content-Type" := t.contentType];
    }
    var reply := send(Login(t.verb, t.url, body, header));
    if reply.Refused? {
      return Failure(reply.error);
    }
    if reply.status != 200 {
      return Failure("Invalid log in, code: " + Text.IntToString(reply.status));
    }
    var keys := KeyPath.Split(t.key);
    var v := x.lookup(reply.body, keys);
    if v.None? {
      return Failure("cannot parse JSON");
    }
    var bearer := v.value.str;
    if bearer == "" {
      bearer := Text.ReplaceAll(reply.body, "\"", "");
    }
    r := Success(bearer);
  }
}
