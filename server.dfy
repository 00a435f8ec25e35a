/**
  The server: its address, route registration by method, and the reading
  of a request off a connection, which repeats the parser module's rules.
*/
module HttpServer {
  import opened Wrappers
  import opened Text
  import opened Wire
  import opened Routes
  import opened Routing
  import opened Parser
  import opened HttpRequest

  /** The address `Server::new` builds: the loopback host, a colon, then the port as given. */
  function AddressFor(port: string): (a: string)
    ensures |a| == |port| + 10
    ensures a[..10] == "127.0.0.1:" && a[10..] == port
  {
    var host := "127.0.0.1";
    assert |host + ":"| == 10;
    host + ":" + port
  }

  /** The address for port 3000. */
  lemma AddressExample()
    ensures AddressFor("3000") == "127.0.0.1:3000"
  {
  }

  class Server {
    const address: string
    const router: Router

    /** `Server::new(port)`: the address for `port` and a fresh, empty router. */
    constructor (port: string)
      ensures address == AddressFor(port)
      ensures fresh(router) && router.routes == []
    {
      address := AddressFor(port);
      router := new Router();
    }

    /** `address()`: the stored address. */
    function Address(): (a: string)
      ensures a == address
    {
      address
    }

    /** `get`: one `GET` route at the end of the table. */
    method Get(path: string, handler: HandlerId)
      modifies router
      ensures router.routes == old(router.routes) + [Route("GET", path, handler)]
    {
      router.AddRoute("GET", path, handler);
    }

    /** `post`: one `POST` route at the end of the table. */
    method Post(path: string, handler: HandlerId)
      modifies router
      ensures router.routes == old(router.routes) + [Route("POST", path, handler)]
    {
      router.AddRoute("POST", path, handler);
    }

    /** `put`: one `PUT` route at the end of the table. */
    method Put(path: string, handler: HandlerId)
      modifies router
      ensures router.routes == old(router.routes) + [Route("PUT", path, handler)]
    {
      router.AddRoute("PUT", path, handler);
    }

    /** `delete`: one `DELETE` route at the end of the table. */
    method Delete(path: string, handler: HandlerId)
      modifies router
      ensures router.routes == old(router.routes) + [Route("DELETE", path, handler)]
    {
      router.AddRoute("DELETE", path, handler);
    }

    /** `patch`: one `PATCH` route at the end of the table. */
    method Patch(path: string, handler: HandlerId)
      modifies router
      ensures router.routes == old(router.routes) + [Route("PATCH", path, handler)]
    {
      router.AddRoute("PATCH", path, handler);
    }

    /** `options`: one `OPTIONS` route at the end of the table. */
    method Options(path: string, handler: HandlerId)
      modifies router
      ensures router.routes == old(router.routes) + [Route("OPTIONS", path, handler)]
    {
      router.AddRoute("OPTIONS", path, handler);
    }

    /** `head`: one `HEAD` route at the end of the table. */
    method Head(path: string, handler: HandlerId)
      modifies router
      ensures router.routes == old(router.routes) + [Route("HEAD", path, handler)]
    {
      router.AddRoute("HEAD", path, handler);
    }

    /** The server's own `get_request_line`: the parser module's rule. */
    method GetRequestLine(reader: Reader) returns (r: Result<string, string>)
      modifies reader
      ensures r == RequestLineOf(old(reader.lines))
      ensures reader.lines == if old(reader.lines) == [] then [] else old(reader.lines)[1..]
      ensures reader.bytes == old(reader.bytes)
    {
      r := Parser.GetRequestLine(reader);
    }

    /** The server's own `get_headers`: the same stop, split, trim, lower-case and skip rules. */
    method GetHeaders(reader: Reader) returns (headers: map<string, string>)
      modifies reader
      ensures headers == HeaderMap(old(reader.lines))
      ensures reader.lines == old(reader.lines)[Consumed(old(reader.lines))..]
      ensures reader.bytes == old(reader.bytes)
    {
      headers := Parser.GetHeaders(reader);
    }

    /** The server's own `get_body`: the same Content-Length rule. */
    method GetBody(headers: map<string, string>, reader: Reader) returns (r: BodyOutcome)
      modifies reader
      ensures r == BodyOf(headers, old(reader.bytes))
      ensures r.CapacityOverflow? || BodyLength(headers).None? ==> reader.bytes == old(reader.bytes)
      ensures r.Returned? && BodyLength(headers).Some? && BodyLength(headers).value <= |old(reader.bytes)| ==>
        reader.bytes == old(reader.bytes)[BodyLength(headers).value..]
      ensures reader.lines == old(reader.lines)
    {
      r := Parser.GetBody(headers, reader);
    }
  }

  /** Registrations land in call order: a `get` then a `post` give exactly those two routes. */
  method RegistrationOrder(port: string, p1: string, h1: HandlerId, p2: string, h2: HandlerId) returns (server: Server)
    ensures server.router.routes == [Route("GET", p1, h1), Route("POST", p2, h2)]
  {
    server := new Server(port);
    server.Get(p1, h1);
    server.Post(p2, h2);
  }

  // ---------------------------------------------------------------------------
  // Header lookups on the headers a server reads

  /**
    The exact-key lookups miss every key with an upper-case letter on the
    headers a server reads, since those keys are all stored lower-cased: the
    documented `header_or("Content-Type", "text/plain")` always yields its
    default, and `header_expect("Authorization")` always errs.
  */
  lemma ExactLookupMissesSentHeader(lines: seq<LineRead>, req: Request, key: string, default: string, i: nat)
    requires req.headers == HeaderMap(lines)
    requires i < |key| && IsUpperLetter(key[i])
    ensures req.HeaderOr(key, default) == default
    ensures req.HeaderExpect(key).Err?
  {
    if key in req.headers {
      HeaderKeysLowerCase(lines, key);
      assert false;
    }
  }

  /**
    A header the client sent as `key: value` after the other header lines is
    found by the case-insensitive lookup under the key as written, which is
    what `header_or` and `header_expect` are documented to do.
  */
  lemma SentHeaderFoundIgnoringCase(lines: seq<LineRead>, key: string, value: string)
    requires HeaderEnd(lines) == |lines|
    requires ':' !in key
    requires |key| > 0 ==> !IsWhitespace(key[0]) && !IsWhitespace(key[|key| - 1])
    requires |value| > 0 ==> !IsWhitespace(value[0]) && !IsWhitespace(value[|value| - 1])
    ensures var m := HeaderMap(lines + [Line(key + ": " + value)]);
      && ToLowerAscii(key) in m && m[ToLowerAscii(key)] == value
      && exists k :: k in m && EqualsIgnoreAsciiCase(k, key) && m[k] == value
  {
    var text := key + ": " + value;
    assert ':' in text by {
      assert text[|key|] == ':';
    }
    HeaderLineRead(key, value);
    LaterLineOverwrites(lines, text);
    var lower := ToLowerAscii(key);
    var m := HeaderMap(lines + [Line(text)]);
    assert m == HeaderMap(lines)[lower := value];
    LowerAsciiIdempotent(key);
    assert EqualsIgnoreAsciiCase(lower, key);
  }
}
