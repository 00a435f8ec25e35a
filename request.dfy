/**
  The incoming request: the request line split into method, target and
  version (a lenient reading of section 3.1.1 of RFC 7230), the target split
  into path and query string, and the lookups over headers, route parameters
  and query parameters.
*/
module HttpRequest {
  import opened Wrappers
  import opened Text
  import opened Assoc

  // ---------------------------------------------------------------------------
  // Request line

  datatype RequestLine = RequestLine(httpMethod: string, target: string, version: string)

  /** What a request line of any other shape is read as. */
  const DefaultLine := RequestLine("GET", "/", "HTTP/1.1")

  /** The three whitespace-separated tokens of the line, or `GET / HTTP/1.1` when there are not exactly three. */
  function ParseRequestLine(line: string): (r: RequestLine)
    ensures IsToken(r.httpMethod) && IsToken(r.target) && IsToken(r.version)
  {
    var parts := SplitWhitespace(line);
    SplitWhitespaceTokens(line);
    if |parts| == 3 then
      assert parts[0] in parts && parts[1] in parts && parts[2] in parts;
      RequestLine(parts[0], parts[1], parts[2])
    else
      DefaultLineTokens();
      DefaultLine
  }

  /** The fallback line is made of three tokens. */
  lemma DefaultLineTokens()
    ensures IsToken(DefaultLine.httpMethod) && IsToken(DefaultLine.target) && IsToken(DefaultLine.version)
  {
    assert forall j :: 0 <= j < |"HTTP/1.1"| ==> !IsWhitespace("HTTP/1.1"[j]);
  }

  /** Tokens written with single spaces come back as method, target and version exactly when there are three of them. */
  lemma RequestLineOfTokens(tokens: seq<string>)
    requires forall w :: w in tokens ==> IsToken(w)
    ensures ParseRequestLine(Join(tokens, " "))
      == if |tokens| == 3 then RequestLine(tokens[0], tokens[1], tokens[2]) else DefaultLine
  {
    SplitWhitespaceJoin(tokens);
  }

  lemma ExampleTokens()
    ensures IsToken("GET") && IsToken("/hello?developer=alfaarghy") && IsToken("HTTP/1.1")
    ensures IsToken("POST") && IsToken("/submit")
  {
    assert forall j :: 0 <= j < |"/hello?developer=alfaarghy"| ==> !IsWhitespace("/hello?developer=alfaarghy"[j]);
    assert forall j :: 0 <= j < |"HTTP/1.1"| ==> !IsWhitespace("HTTP/1.1"[j]);
    assert forall j :: 0 <= j < |"/submit"| ==> !IsWhitespace("/submit"[j]);
  }

  lemma ExampleJoinPost()
    ensures Join(["POST", "/submit"], " ") == "POST /submit"
  {
    JoinTwo("POST", "/submit", " ");
  }

  /** The request line of the constructor's documented example, `GET /hello?developer=alfaarghy HTTP/1.1`. */
  lemma RequestLineExample()
    ensures ParseRequestLine("GET" + " " + "/hello?developer=alfaarghy" + " " + "HTTP/1.1")
      == RequestLine("GET", "/hello?developer=alfaarghy", "HTTP/1.1")
  {
    ExampleTokens();
    JoinThree("GET", "/hello?developer=alfaarghy", "HTTP/1.1", " ");
    RequestLineOfTokens(["GET", "/hello?developer=alfaarghy", "HTTP/1.1"]);
  }

  /** A line with two tokens, or none, falls back to `GET / HTTP/1.1`. */
  lemma RequestLineFallback()
    ensures ParseRequestLine("POST /submit") == DefaultLine
    ensures ParseRequestLine("") == DefaultLine
  {
    ExampleTokens();
    ExampleJoinPost();
    RequestLineOfTokens(["POST", "/submit"]);
    RequestLineOfTokens([]);
  }

  // ---------------------------------------------------------------------------
  // Query string

  /** One `&`-separated piece: the text before its first `=` and the rest, or the whole piece and `""`. */
  function QueryPair(piece: string): (p: (string, string))
    ensures '=' !in p.0
    ensures '=' in piece ==> piece == p.0 + "=" + p.1
    ensures '=' !in piece ==> p == (piece, "")
  {
    match SplitOnce(piece, '=')
    case Some((k, v)) => (k, v)
    case None => (piece, "")
  }

  function QueryPairs(pieces: seq<string>): (ps: seq<(string, string)>)
    ensures |ps| == |pieces| && forall i :: 0 <= i < |pieces| ==> ps[i] == QueryPair(pieces[i])
  {
    seq(|pieces|, i requires 0 <= i < |pieces| => QueryPair(pieces[i]))
  }

  /** The map `parse_query` builds: one insertion per `&`-separated piece, in order. */
  function QueryMap(q: string): (m: map<string, string>)
  {
    PairsToMap(QueryPairs(Split(q, '&')))
  }

  /** The keys of a parsed query are exactly the keys of its `&`-separated pieces. */
  lemma QueryMapKeys(q: string)
    ensures forall k :: k in QueryMap(q) <==> exists piece :: piece in Split(q, '&') && QueryPair(piece).0 == k
  {
    var pieces := Split(q, '&');
    PairsToMapKeys(QueryPairs(pieces));
    assert forall k :: k in QueryMap(q) <==> exists i :: 0 <= i < |pieces| && QueryPair(pieces[i]).0 == k;
  }

  /** `parse_query`: insert each piece's key and value into a fresh map. */
  method ParseQuery(q: string) returns (m: map<string, string>)
    ensures m == QueryMap(q)
  {
    var pieces := Split(q, '&');
    ghost var ps := QueryPairs(pieces);
    m := map[];
    for i := 0 to |pieces|
      invariant m == PairsToMap(ps[..i])
    {
      var pair := SplitOnce(pieces[i], '=');
      if pair.Some? {
        m := m[pair.value.0 := pair.value.1];
      } else {
        m := m[pieces[i] := ""];
      }
      assert ps[..i + 1][..i] == ps[..i];
    }
    assert ps[..|pieces|] == ps;
  }

  /** A key takes the value of the last piece that has it. */
  lemma QueryLastWins(pieces: seq<string>, i: nat)
    requires |pieces| >= 1 && i < |pieces|
    requires forall j :: 0 <= j < |pieces| ==> '&' !in pieces[j]
    requires forall j :: i < j < |pieces| ==> QueryPair(pieces[j]).0 != QueryPair(pieces[i]).0
    ensures var k := QueryPair(pieces[i]).0;
      k in QueryMap(Join(pieces, "&")) && QueryMap(Join(pieces, "&"))[k] == QueryPair(pieces[i]).1
  {
    SplitJoin(pieces, '&');
    LastWins(QueryPairs(pieces), i);
  }

  /** The pieces of a query written with `&` between them are parsed one by one. */
  lemma QueryOfPieces(pieces: seq<string>)
    requires |pieces| >= 1
    requires forall j :: 0 <= j < |pieces| ==> '&' !in pieces[j]
    ensures QueryMap(Join(pieces, "&")) == PairsToMap(QueryPairs(pieces))
  {
    SplitJoin(pieces, '&');
  }

  /** The empty query is one empty piece, so it yields `{"": ""}`. */
  lemma QueryEmpty()
    ensures QueryMap("") == map["" := ""]
  {
    QueryOfPieces([""]);
    assert QueryPairs([""]) == [("", "")];
    PairsToMapSingle("", "");
  }

  /** Only the first `=` separates: `a=1=2` maps `a` to `1=2`. */
  lemma QueryFirstEquals()
    ensures QueryMap("a=1=2") == map["a" := "1=2"]
  {
    SplitOnceAtFirst("a", '=', "1=2");
    assert "a=1=2" == "a" + ['='] + "1=2";
    QueryOfPieces(["a=1=2"]);
    assert QueryPairs(["a=1=2"]) == [("a", "1=2")];
    PairsToMapSingle("a", "1=2");
  }

  /** A later duplicate key overwrites an earlier one. */
  lemma QueryDuplicate()
    ensures QueryMap("a=1&a=2") == map["a" := "2"]
  {
    DuplicatePairs();
    PairsToMapTwo("a", "1", "a", "2");
    assert map["a" := "1"]["a" := "2"] == map["a" := "2"];
    assert Join(["a=1", "a=2"], "&") == "a=1&a=2";
    QueryOfPieces(["a=1", "a=2"]);
  }

  /** The parser test: `a=1&b=2&empty`. */
  lemma QueryTest()
    ensures QueryMap("a=1&b=2&empty") == map["a" := "1", "b" := "2", "empty" := ""]
  {
    TestPairs();
    PairsToMapThree("a", "1", "b", "2", "empty", "");
    assert Join(["a=1", "b=2", "empty"], "&") == "a=1&b=2&empty";
    QueryOfPieces(["a=1", "b=2", "empty"]);
  }

  lemma DuplicatePairs()
    ensures QueryPairs(["a=1", "a=2"]) == [("a", "1"), ("a", "2")]
  {
    SplitOnceAtFirst("a", '=', "1");
    SplitOnceAtFirst("a", '=', "2");
    assert "a=1" == "a" + ['='] + "1" && "a=2" == "a" + ['='] + "2";
  }

  lemma TestPairs()
    ensures QueryPairs(["a=1", "b=2", "empty"]) == [("a", "1"), ("b", "2"), ("empty", "")]
  {
    SplitOnceAtFirst("a", '=', "1");
    SplitOnceAtFirst("b", '=', "2");
    assert "a=1" == "a" + ['='] + "1" && "b=2" == "b" + ['='] + "2";
    assert forall j :: 0 <= j < |"empty"| ==> "empty"[j] != '=';
  }

  lemma PairsToMapTwo(k1: string, v1: string, k2: string, v2: string)
    ensures PairsToMap([(k1, v1), (k2, v2)]) == map[k1 := v1][k2 := v2]
  {
    assert [(k1, v1), (k2, v2)][..1] == [(k1, v1)];
    PairsToMapSingle(k1, v1);
  }

  lemma PairsToMapThree(k1: string, v1: string, k2: string, v2: string, k3: string, v3: string)
    ensures PairsToMap([(k1, v1), (k2, v2), (k3, v3)]) == map[k1 := v1][k2 := v2][k3 := v3]
  {
    assert [(k1, v1), (k2, v2), (k3, v3)][..2] == [(k1, v1), (k2, v2)];
    PairsToMapTwo(k1, v1, k2, v2);
  }

  lemma PairsToMapSingle(k: string, v: string)
    ensures PairsToMap([(k, v)]) == map[k := v]
  {
    assert [(k, v)][..0] == [];
  }

  // ---------------------------------------------------------------------------
  // Target

  /** The path and query map of a request target: split at the first `?`, or the whole target with no query. */
  function SplitTarget(target: string): (r: (string, map<string, string>))
    ensures '?' in target ==>
      && '?' !in r.0 && |r.0| < |target|
      && target == r.0 + "?" + target[|r.0| + 1..]
      && r.1 == QueryMap(target[|r.0| + 1..])
    ensures '?' !in target ==> r == (target, map[])
  {
    match SplitOnce(target, '?')
    case Some((p, q)) =>
      assert target[|p| + 1..] == q;
      (p, QueryMap(q))
    case None => (target, map[])
  }

  // ---------------------------------------------------------------------------
  // The request

  /** The text of the error `header_expect` returns for a missing key. */
  function MissingHeader(key: string): (msg: string)
    ensures IsInfix("Required header `" + key + "` is missing", msg)
  {
    var needle := "Required header `" + key + "` is missing";
    var tail := ". Please include it in your request, e.g., `" + key + ": value`.";
    InfixOfConcat("[rxpress error]: ", needle, tail);
    "[rxpress error]: " + needle + tail
  }

  /** The text of the error `param_expect` returns for a missing key. */
  function MissingParam(key: string): (msg: string)
    ensures IsInfix("Required route parameter `" + key + "` is missing", msg)
  {
    var needle := "Required route parameter `" + key + "` is missing";
    var tail := ". Ensure your route includes it, e.g., `/route/:" + key + "`.";
    InfixOfConcat("[rxpress error]: ", needle, tail);
    "[rxpress error]: " + needle + tail
  }

  /** The text of the error `query_expect` returns for a missing key. */
  function MissingQuery(key: string): (msg: string)
    ensures IsInfix("Required query parameter `" + key + "` is missing", msg)
  {
    var needle := "Required query parameter `" + key + "` is missing";
    var tail := ". Please include it in your request, e.g., `/route?" + key + "=value`.";
    InfixOfConcat("[rxpress error]: ", needle, tail);
    "[rxpress error]: " + needle + tail
  }

  /**
    A parsed request.  Only the route parameters change after construction:
    the router binds them while matching.
  */
  class Request {
    const httpMethod: string
    const path: string
    const headers: map<string, string>
    const version: string
    const query: map<string, string>
    var params: map<string, string>
    const body: string

    /** `Request::new`: the request line's parts, the target's path and query, the given headers and body, and no params. */
    constructor (requestLine: string, headers: map<string, string>, body: string)
      ensures httpMethod == ParseRequestLine(requestLine).httpMethod
      ensures version == ParseRequestLine(requestLine).version
      ensures (path, query) == SplitTarget(ParseRequestLine(requestLine).target)
      ensures this.headers == headers && this.body == body && params == map[]
    {
      var line := ParseRequestLine(requestLine);
      httpMethod := line.httpMethod;
      version := line.version;
      var split := SplitOnce(line.target, '?');
      var parsed: map<string, string> := map[];
      if split.Some? {
        path := split.value.0;
        parsed := ParseQuery(split.value.1);
      } else {
        path := line.target;
      }
      query := parsed;
      this.headers := headers;
      params := map[];
      this.body := body;
    }

    /**
      `header`: the value of some stored key equal to `key` ignoring ASCII
      case.  Which one, when several keys qualify, depends on the map's
      iteration order, which is left open.
    */
    method Header(key: string) returns (r: Option<string>)
      ensures r.Some? <==> exists k :: k in headers && EqualsIgnoreAsciiCase(k, key)
      ensures r.Some? ==> exists k :: k in headers && EqualsIgnoreAsciiCase(k, key) && headers[k] == r.value
    {
      var keys := headers.Keys;
      while keys != {}
        invariant keys <= headers.Keys
        invariant forall k :: k in headers && k !in keys ==> !EqualsIgnoreAsciiCase(k, key)
        decreases |keys|
      {
        var k :| k in keys;
        if EqualsIgnoreAsciiCase(k, key) {
          return Some(headers[k]);
        }
        keys := keys - {k};
      }
      return None;
    }

    /** `header_or`: the value stored under exactly `key`, or the default. */
    function HeaderOr(key: string, default: string): (r: string)
      ensures key in headers ==> r == headers[key]
      ensures key !in headers ==> r == default
    {
      if key in headers then headers[key] else default
    }

    /** `header_expect`: the value stored under exactly `key`, or an error naming the key. */
    function HeaderExpect(key: string): (r: Result<string, string>)
      ensures r.Ok? <==> key in headers
      ensures r.Ok? ==> r.value == headers[key]
      ensures r.Err? ==> IsInfix("Required header `" + key + "` is missing", r.error)
    {
      if key in headers then Ok(headers[key]) else Err(MissingHeader(key))
    }

    /** `param`. */
    function Param(key: string): (r: Option<string>)
      reads this
      ensures r.Some? <==> key in params
      ensures r.Some? ==> r.value == params[key]
    {
      if key in params then Some(params[key]) else None
    }

    /** `param_or`. */
    function ParamOr(key: string, default: string): (r: string)
      reads this
      ensures key in params ==> r == params[key]
      ensures key !in params ==> r == default
    {
      if key in params then params[key] else default
    }

    /** `param_expect`. */
    function ParamExpect(key: string): (r: Result<string, string>)
      reads this
      ensures r.Ok? <==> key in params
      ensures r.Ok? ==> r.value == params[key]
      ensures r.Err? ==> IsInfix("Required route parameter `" + key + "` is missing", r.error)
    {
      if key in params then Ok(params[key]) else Err(MissingParam(key))
    }

    /** `query`. */
    function Query(key: string): (r: Option<string>)
      ensures r.Some? <==> key in query
      ensures r.Some? ==> r.value == query[key]
    {
      if key in query then Some(query[key]) else None
    }

    /** `query_or`. */
    function QueryOr(key: string, default: string): (r: string)
      ensures key in query ==> r == query[key]
      ensures key !in query ==> r == default
    {
      if key in query then query[key] else default
    }

    /** `query_expect`. */
    function QueryExpect(key: string): (r: Result<string, string>)
      ensures r.Ok? <==> key in query
      ensures r.Ok? ==> r.value == query[key]
      ensures r.Err? ==> IsInfix("Required query parameter `" + key + "` is missing", r.error)
    {
      if key in query then Ok(query[key]) else Err(MissingQuery(key))
    }

    /**
      `header` with the lookup `header_or` and `header_expect` evidently
      intend: a stored key equal to `key` ignoring ASCII case, else the default.
    */
    method HeaderOrIgnoringCase(key: string, default: string) returns (r: string)
      ensures (exists k :: k in headers && EqualsIgnoreAsciiCase(k, key))
          ==> exists k :: k in headers && EqualsIgnoreAsciiCase(k, key) && headers[k] == r
      ensures (forall k :: k in headers ==> !EqualsIgnoreAsciiCase(k, key)) ==> r == default
    {
      var found := Header(key);
      r := if found.Some? then found.value else default;
    }

    /** The corrected `header_expect`: found ignoring ASCII case, or the same error. */
    method HeaderExpectIgnoringCase(key: string) returns (r: Result<string, string>)
      ensures r.Ok? <==> exists k :: k in headers && EqualsIgnoreAsciiCase(k, key)
      ensures r.Ok? ==> exists k :: k in headers && EqualsIgnoreAsciiCase(k, key) && headers[k] == r.value
      ensures r.Err? ==> IsInfix("Required header `" + key + "` is missing", r.error)
    {
      var found := Header(key);
      r := if found.Some? then Ok(found.value) else Err(MissingHeader(key));
    }
  }

  /** The three forms of each lookup agree: a default or an error exactly when the plain lookup finds nothing. */
  lemma AccessorsAgree(req: Request, key: string, default: string)
    ensures req.ParamOr(key, default) == (if req.Param(key).Some? then req.Param(key).value else default)
    ensures req.ParamExpect(key).Ok? <==> req.Param(key).Some?
    ensures req.QueryOr(key, default) == (if req.Query(key).Some? then req.Query(key).value else default)
    ensures req.QueryExpect(key).Ok? <==> req.Query(key).Some?
    ensures req.HeaderExpect(key).Ok? <==> key in req.headers
    ensures req.HeaderExpect(key).Ok? ==> req.HeaderOr(key, default) == req.HeaderExpect(key).value
  {
  }

  /** An exact-case hit of `header_or` is also a hit of `header`, since every key equals itself ignoring case. */
  lemma ExactKeyFoundIgnoringCase(req: Request, key: string)
    requires key in req.headers
    ensures exists k :: k in req.headers && EqualsIgnoreAsciiCase(k, key)
  {
    assert EqualsIgnoreAsciiCase(key, key);
  }

  /** A query of one `key=value` piece. */
  lemma QuerySinglePair(k: string, v: string)
    requires '=' !in k && '&' !in k && '&' !in v
    ensures QueryMap(k + "=" + v) == map[k := v]
  {
    var piece := k + "=" + v;
    SplitOnceAtFirst(k, '=', v);
    assert piece == k + ['='] + v;
    assert '&' !in piece by {
      assert forall j :: 0 <= j < |piece| ==> piece[j] == (if j < |k| then k[j] else if j == |k| then '=' else v[j - |k| - 1]);
    }
    QueryOfPieces([piece]);
    assert QueryPairs([piece]) == [(k, v)];
    PairsToMapSingle(k, v);
  }

  /** A target with a `?` is split at the first one. */
  lemma TargetWithQuery(p: string, q: string)
    requires '?' !in p
    ensures SplitTarget(p + "?" + q) == (p, QueryMap(q))
  {
    SplitOnceAtFirst(p, '?', q);
    assert p + "?" + q == p + ['?'] + q;
  }

  /** A request built with one header finds it under any spelling of its key that differs only in ASCII case. */
  method OneHeaderFoundIgnoringCase(requestLine: string, key: string, value: string, spelling: string, body: string)
    returns (r: Option<string>)
    requires EqualsIgnoreAsciiCase(key, spelling)
    ensures r == Some(value)
  {
    var req := new Request(requestLine, map[key := value], body);
    r := LookupOnlyHeader(req, key, value, spelling);
  }

  /** On a request whose only header is `key: value`, `header` finds `value` under any spelling of `key`. */
  method LookupOnlyHeader(req: Request, key: string, value: string, spelling: string) returns (r: Option<string>)
    requires req.headers == map[key := value] && EqualsIgnoreAsciiCase(key, spelling)
    ensures r == Some(value)
  {
    assert key in req.headers;
    r := req.Header(spelling);
    assert forall k :: k in req.headers ==> k == key && req.headers[k] == value;
  }
}
