/**
  The outgoing response: a status code and reason, a header map and a
  one-way `sent` flag, serialised once to the stream as a status line, the
  header fields, a Content-Length and the body (the message shape of
  sections 3.1.2 and 3.3.2 of RFC 7230).
*/
module HttpResponse {
  import opened Wrappers
  import opened Text
  import opened Decimal
  import opened Bytes
  import opened Wire
  import opened StatusCodes

  /** The three forms `status` accepts: a variant, a bare code, or a code with its own reason. */
  datatype StatusArg = ByEnum(e: HttpStatus) | ByCode(code: u16) | ByCodeReason(code: u16, reason: string)

  /** The files `html_file` can read: a path maps to its contents, or to `None` when reading fails. */
  type FileSystem = map<string, Option<string>>

  /** `fs::read_to_string(path)`. */
  function ReadToString(fs: FileSystem, path: string): (r: Option<string>)
    ensures r.Some? <==> path in fs && fs[path].Some?
    ensures r.Some? ==> r.value == fs[path].value
  {
    if path in fs then fs[path] else None
  }

  const PoweredByKey := "HTTP-Server-Powered-By"
  const PoweredByValue := "rxpress"
  const ContentTypeKey := "Content-Type"
  const TextPlain := "text/plain"
  const ApplicationJson := "application/json"
  const TextHtml := "text/html; charset=utf-8"

  /** The body `html_file` sends when the file cannot be read. */
  function MissingFileBody(path: string): (body: string)
    ensures IsInfix("No file found on " + path, body)
  {
    var tail := "</p>";
    InfixOfConcat("<h2>Internal Server Error</h2>\n<p>", "No file found on " + path, tail);
    "<h2>Internal Server Error</h2>\n<p>" + ("No file found on " + path) + tail
  }

  // ---------------------------------------------------------------------------
  // Serialisation

  /** `order` lists every key of `headers` exactly once: one possible iteration order of the map. */
  ghost predicate Enumerates(order: seq<string>, headers: map<string, string>)
  {
    && (forall k :: k in headers <==> k in order)
    && (forall i, j :: 0 <= i < j < |order| ==> order[i] != order[j])
  }

  /** One `key: value` line per key, in the given order. */
  function HeaderLines(headers: map<string, string>, order: seq<string>): (lines: seq<string>)
    requires forall i :: 0 <= i < |order| ==> order[i] in headers
    ensures |lines| == |order|
    ensures forall i :: 0 <= i < |order| ==> lines[i] == order[i] + ": " + headers[order[i]]
  {
    seq(|order|, i requires 0 <= i < |order| => order[i] + ": " + headers[order[i]])
  }

  /** The serialised head of a response: status line, header lines joined by CRLF, Content-Length, blank line. */
  function Head(code: nat, reason: string, block: string, length: nat): (head: string)
    ensures IsPrefix("HTTP/1.1 " + NatToString(code) + " " + reason + "\r\n", head)
  {
    var statusLine := "HTTP/1.1 " + NatToString(code) + " " + reason + "\r\n";
    var rest := block + "\r\nContent-Length: " + NatToString(length) + "\r\n\r\n";
    assert (statusLine + rest)[..|statusLine|] == statusLine;
    statusLine + rest
  }

  /**
    The header lines of a map, in some iteration order: every key appears
    exactly once, as `key: value`, and the lines are joined by CRLF.
  */
  method RenderHeaders(headers: map<string, string>) returns (block: string, ghost order: seq<string>)
    ensures Enumerates(order, headers)
    ensures block == Join(HeaderLines(headers, order), "\r\n")
  {
    var keys := headers.Keys;
    var lines: seq<string> := [];
    order := [];
    while keys != {}
      invariant keys <= headers.Keys
      invariant forall k :: k in headers ==> (k in order <==> k !in keys)
      invariant forall k :: k in order ==> k in headers
      invariant forall i, j :: 0 <= i < j < |order| ==> order[i] != order[j]
      invariant lines == HeaderLines(headers, order)
      decreases |keys|
    {
      var k :| k in keys;
      lines := lines + [k + ": " + headers[k]];
      order := order + [k];
      keys := keys - {k};
    }
    block := Join(lines, "\r\n");
  }

  /** Every header appears on exactly one line of a rendering. */
  lemma EachHeaderOnce(headers: map<string, string>, order: seq<string>, k: string)
    requires Enumerates(order, headers) && k in headers
    ensures exists i :: 0 <= i < |order| && HeaderLines(headers, order)[i] == k + ": " + headers[k]
    ensures forall i, j :: 0 <= i < |order| && 0 <= j < |order| && order[i] == k && order[j] == k ==> i == j
  {
    var i :| 0 <= i < |order| && order[i] == k;
    assert HeaderLines(headers, order)[i] == k + ": " + headers[k];
  }

  /** What one response puts in the log: head, body and flush, cut short by the first failure. */
  ghost predicate Transmits(oracle: Oracle, before: seq<IoEvent>, after: seq<IoEvent>,
                            code: nat, reason: string, headers: map<string, string>, body: seq<byte>)
  {
    exists order :: Enumerates(order, headers)
      && after == before + Transmission(oracle, |before|,
           Utf8(Head(code, reason, Join(HeaderLines(headers, order), "\r\n"), |body|)), body)
  }

  /**
    What the peer receives from one response: a prefix of head and body,
    the whole of both exactly when both writes succeed, less than the head
    when the head's write fails, and the head with part of the body when
    only the body's write fails.
  */
  lemma TransmitsDelivers(oracle: Oracle, before: seq<IoEvent>, after: seq<IoEvent>,
                          code: nat, reason: string, headers: map<string, string>, body: seq<byte>)
    requires Transmits(oracle, before, after, code, reason, headers, body)
    ensures exists order :: (Enumerates(order, headers)
      && var head := Utf8(Head(code, reason, Join(HeaderLines(headers, order), "\r\n"), |body|));
         exists k :: DeliversPrefix(oracle, |before|, head, body, Delivered(before), Delivered(after), k))
  {
    var order :| Enumerates(order, headers)
      && after == before + Transmission(oracle, |before|,
           Utf8(Head(code, reason, Join(HeaderLines(headers, order), "\r\n"), |body|)), body);
    var head := Utf8(Head(code, reason, Join(HeaderLines(headers, order), "\r\n"), |body|));
    TransmissionDeliversPrefix(oracle, before, head, body);
  }

  /** `send("")` cannot fail at the body: writing an empty body succeeds, so a head that goes out is followed by the flush. */
  lemma EmptyBodyCompletes(oracle: Oracle, before: seq<IoEvent>, after: seq<IoEvent>,
                           code: nat, reason: string, headers: map<string, string>)
    requires Transmits(oracle, before, after, code, reason, headers, [])
    requires oracle.succeeds(|before|)
    ensures |after| == |before| + 3 && after[|before| + 1] == Wrote([], true, 0) && after[|before| + 2] == Flushed(true)
  {
  }

  /** The log past `base` holds one transmission, whatever its contents. */
  ghost predicate OneTransmission(oracle: Oracle, base: nat, steps: seq<IoEvent>)
  {
    exists head, body :: steps == Transmission(oracle, base, head, body)
  }

  // ---------------------------------------------------------------------------
  // The response

  class Response {
    const stream: Stream
    var headers: map<string, string>
    var status: HttpStatus
    var statusCode: u16
    var statusReason: string
    var sent: bool
    /** The length of the stream's log when the response was created. */
    ghost const base: nat

    /** Nothing is written before the response is sent, and exactly one response after. */
    ghost predicate Valid()
      reads this, stream
    {
      && base <= |stream.log|
      && (!sent ==> |stream.log| == base)
      && (sent ==> OneTransmission(stream.oracle, base, stream.log[base..]))
    }

    /** `Response::new`: 200 OK, not sent, and only the powered-by header. */
    constructor (stream: Stream)
      ensures Valid()
      ensures this.stream == stream && base == |stream.log|
      ensures headers == map[PoweredByKey := PoweredByValue]
      ensures status == OK && statusCode == 200 && statusReason == "OK" && !sent
    {
      this.stream := stream;
      headers := map[PoweredByKey := PoweredByValue];
      status := OK;
      statusCode := 200;
      statusReason := "OK";
      sent := false;
      base := |stream.log|;
    }

    /**
      `status`: a variant sets the code to its discriminant and the reason
      from the table; a bare code takes the table's reason (`""` if unlisted);
      a code with a reason is taken verbatim.
    */
    method Status(arg: StatusArg)
      modifies this
      ensures match arg
        case ByEnum(e) => status == e && statusCode == Code(e) && statusReason == Reason(Code(e))
        case ByCode(c) => status == old(status) && statusCode == c && statusReason == Reason(c)
        case ByCodeReason(c, r) => status == old(status) && statusCode == c && statusReason == r
      ensures headers == old(headers) && sent == old(sent)
    {
      match arg
      case ByEnum(e) =>
        status := e;
        statusCode := Code(e);
        statusReason := Reason(statusCode);
      case ByCode(c) =>
        statusCode := c;
        statusReason := Reason(c);
      case ByCodeReason(c, r) =>
        statusCode := c;
        statusReason := r;
    }

    /** `set_header`: inserts or replaces exactly `key`, with no case folding. */
    method SetHeader(key: string, value: string)
      modifies this
      ensures headers == old(headers)[key := value]
      ensures status == old(status) && statusCode == old(statusCode)
      ensures statusReason == old(statusReason) && sent == old(sent)
    {
      headers := headers[key := value];
    }

    /** `write_response`: renders the head, then writes head, body and flush, stopping at the first failure. */
    method WriteResponse(body: seq<byte>)
      requires base == |stream.log|
      modifies stream
      ensures Transmits(stream.oracle, old(stream.log), stream.log, statusCode, statusReason, headers, body)
      ensures OneTransmission(stream.oracle, base, stream.log[base..])
    {
      ghost var before := stream.log;
      var block, order := RenderHeaders(headers);
      var head := Utf8(Head(statusCode, statusReason, block, |body|));
      ghost var steps := Transmission(stream.oracle, |before|, head, body);
      var ok := stream.WriteAll(head);
      if ok {
        ok := stream.WriteAll(body);
        if ok {
          ok := stream.Flush();
        }
      }
      assert stream.log == before + steps;
      assert stream.log[base..] == steps;
    }

    /** The shared tail of `send`, `json` and `html`: mark as sent, set the content type, write once. */
    method Reply(contentType: string, body: string)
      requires Valid()
      modifies this, stream
      ensures Valid()
      ensures old(sent) ==> unchanged(this) && stream.log == old(stream.log)
      ensures !old(sent) ==>
        && sent && headers == old(headers)[ContentTypeKey := contentType]
        && status == old(status) && statusCode == old(statusCode) && statusReason == old(statusReason)
        && Transmits(stream.oracle, old(stream.log), stream.log, statusCode, statusReason, headers, Utf8(body))
    {
      if sent {
        return;
      }
      sent := true;
      SetHeader(ContentTypeKey, contentType);
      WriteResponse(Utf8(body));
    }

    /** `send`: a `text/plain` response, unless one was already sent. */
    method Send(msg: string)
      requires Valid()
      modifies this, stream
      ensures Valid()
      ensures old(sent) ==> unchanged(this) && stream.log == old(stream.log)
      ensures !old(sent) ==>
        && sent && headers == old(headers)[ContentTypeKey := TextPlain]
        && status == old(status) && statusCode == old(statusCode) && statusReason == old(statusReason)
        && Transmits(stream.oracle, old(stream.log), stream.log, statusCode, statusReason, headers, Utf8(msg))
    {
      Reply(TextPlain, msg);
    }

    /** `json`: an `application/json` response, unless one was already sent. */
    method Json(msg: string)
      requires Valid()
      modifies this, stream
      ensures Valid()
      ensures old(sent) ==> unchanged(this) && stream.log == old(stream.log)
      ensures !old(sent) ==>
        && sent && headers == old(headers)[ContentTypeKey := ApplicationJson]
        && status == old(status) && statusCode == old(statusCode) && statusReason == old(statusReason)
        && Transmits(stream.oracle, old(stream.log), stream.log, statusCode, statusReason, headers, Utf8(msg))
    {
      Reply(ApplicationJson, msg);
    }

    /** `html`: a `text/html; charset=utf-8` response, unless one was already sent. */
    method Html(body: string)
      requires Valid()
      modifies this, stream
      ensures Valid()
      ensures old(sent) ==> unchanged(this) && stream.log == old(stream.log)
      ensures !old(sent) ==>
        && sent && headers == old(headers)[ContentTypeKey := TextHtml]
        && status == old(status) && statusCode == old(statusCode) && statusReason == old(statusReason)
        && Transmits(stream.oracle, old(stream.log), stream.log, statusCode, statusReason, headers, Utf8(body))
    {
      Reply(TextHtml, body);
    }

    /**
      `html_file`: the file's contents as an HTML response; when the file
      cannot be read, a 500 Internal Server Error naming the path.
    */
    method HtmlFile(fs: FileSystem, path: string)
      requires Valid()
      modifies this, stream
      ensures Valid()
      ensures old(sent) ==> unchanged(this) && stream.log == old(stream.log)
      ensures !old(sent) ==> sent && headers == old(headers)[ContentTypeKey := TextHtml]
      ensures !old(sent) && ReadToString(fs, path).Some? ==>
        && status == old(status) && statusCode == old(statusCode) && statusReason == old(statusReason)
        && Transmits(stream.oracle, old(stream.log), stream.log, statusCode, statusReason, headers,
                     Utf8(ReadToString(fs, path).value))
      ensures !old(sent) && ReadToString(fs, path).None? ==>
        && status == InternalServerError && statusCode == 500 && statusReason == "Internal Server Error"
        && Transmits(stream.oracle, old(stream.log), stream.log, 500, "Internal Server Error", headers,
                     Utf8(MissingFileBody(path)))
    {
      if sent {
        return;
      }
      sent := true;
      SetHeader(ContentTypeKey, TextHtml);
      var content := ReadToString(fs, path);
      if content.Some? {
        WriteResponse(Utf8(content.value));
      } else {
        ReplyMissingFile(path);
      }
    }

    /** The unreadable-file branch of `html_file`: status 500 and a body naming the path. */
    method ReplyMissingFile(path: string)
      requires base == |stream.log|
      modifies this, stream
      ensures status == InternalServerError && statusCode == 500 && statusReason == "Internal Server Error"
      ensures headers == old(headers) && sent == old(sent)
      ensures Transmits(stream.oracle, old(stream.log), stream.log, 500, "Internal Server Error", headers,
                        Utf8(MissingFileBody(path)))
      ensures OneTransmission(stream.oracle, base, stream.log[base..])
    {
      Status(ByEnum(InternalServerError));
      assert statusCode == 500 && statusReason == "Internal Server Error";
      WriteResponse(Utf8(MissingFileBody(path)));
    }
  }

  /** Only the first of two sends reaches the stream; the second changes nothing. */
  method SecondSendIgnored(res: Response, first: string, second: string)
    requires res.Valid() && !res.sent
    modifies res, res.stream
    ensures res.Valid() && res.sent
    ensures Transmits(res.stream.oracle, old(res.stream.log), res.stream.log,
                      res.statusCode, res.statusReason, res.headers, Utf8(first))
  {
    res.Send(first);
    res.Send(second);
  }

  /** A bare code set before the first send goes out with the table's reason for that code. */
  method ReasonOnWire(res: Response, code: u16, msg: string)
    requires res.Valid() && !res.sent
    modifies res, res.stream
    ensures res.Valid() && res.sent && res.statusCode == code && res.statusReason == Reason(code)
    ensures Transmits(res.stream.oracle, old(res.stream.log), res.stream.log, code, Reason(code), res.headers, Utf8(msg))
  {
    res.Status(ByCode(code));
    res.Send(msg);
  }
}
