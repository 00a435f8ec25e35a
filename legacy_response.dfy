/**
  The first response type: a bare status code and a header map, with no
  `sent` flag.  Every `send` or `json` writes a complete response, and the
  status line always carries the reason phrase `OK`, whatever the code.
  A failed write is fatal (`unwrap`): the method reports it and
  writes nothing more.
*/
module LegacyResponse {
  import opened Text
  import opened Decimal
  import opened Bytes
  import opened Wire
  import opened StatusCodes
  import opened HttpResponse

  /** The reason phrase written for every status code. */
  const FixedReason := "OK"

  /**
    Both writes of a transmission from log position `at` succeed, so no
    `unwrap` panics: the head is never empty, an empty body's write succeeds
    without touching the socket, and the flush always succeeds.
  */
  predicate Completes(oracle: Oracle, at: nat, body: seq<byte>)
  {
    oracle.succeeds(at) && (body == [] || oracle.succeeds(at + 1))
  }

  class Response {
    const stream: Stream
    var headers: map<string, string>
    var status: u16

    /** `Response::new`: status 200 and only the powered-by header. */
    constructor (stream: Stream)
      ensures this.stream == stream
      ensures headers == map[PoweredByKey := PoweredByValue] && status == 200
    {
      this.stream := stream;
      headers := map[PoweredByKey := PoweredByValue];
      status := 200;
    }

    /** `status`: the code is stored as given; nothing else changes. */
    method Status(code: u16)
      modifies this
      ensures status == code && headers == old(headers)
    {
      status := code;
    }

    /** `set_header`: inserts or replaces exactly `key`. */
    method SetHeader(key: string, value: string)
      modifies this
      ensures headers == old(headers)[key := value] && status == old(status)
    {
      headers := headers[key := value];
    }

    /**
      `write_response`: the head with reason `OK`, the body, a flush; the first
      failure stops the sequence, and `completed` says whether none failed.
    */
    method WriteResponse(body: seq<byte>) returns (completed: bool)
      modifies stream
      ensures Transmits(stream.oracle, old(stream.log), stream.log, status, FixedReason, headers, body)
      ensures completed <==> Completes(stream.oracle, |old(stream.log)|, body)
    {
      ghost var before := stream.log;
      var block, order := RenderHeaders(headers);
      var head := Utf8(Head(status, FixedReason, block, |body|));
      ghost var steps := Transmission(stream.oracle, |before|, head, body);
      completed := stream.WriteAll(head);
      if completed {
        completed := stream.WriteAll(body);
        if completed {
          completed := stream.Flush();
        }
      }
      assert stream.log == before + steps;
    }

    /** `send`: sets `Content-Type: text/plain` and writes a whole response, every time it is called. */
    method Send(msg: string) returns (completed: bool)
      modifies this, stream
      ensures headers == old(headers)[ContentTypeKey := TextPlain] && status == old(status)
      ensures Transmits(stream.oracle, old(stream.log), stream.log, status, FixedReason, headers, Utf8(msg))
      ensures completed <==> Completes(stream.oracle, |old(stream.log)|, Utf8(msg))
    {
      SetHeader(ContentTypeKey, TextPlain);
      completed := WriteResponse(Utf8(msg));
    }

    /** `json`: sets `Content-Type: application/json` and writes a whole response, every time it is called. */
    method Json(msg: string) returns (completed: bool)
      modifies this, stream
      ensures headers == old(headers)[ContentTypeKey := ApplicationJson] && status == old(status)
      ensures Transmits(stream.oracle, old(stream.log), stream.log, status, FixedReason, headers, Utf8(msg))
      ensures completed <==> Completes(stream.oracle, |old(stream.log)|, Utf8(msg))
    {
      SetHeader(ContentTypeKey, ApplicationJson);
      completed := WriteResponse(Utf8(msg));
    }
  }

  /**
    Two sends write two responses, one after the other, unless the first
    one's writes failed and the handler stopped there.
  */
  method SendTwice(res: Response, first: string, second: string) returns (completed: bool, ghost mid: seq<IoEvent>)
    modifies res, res.stream
    ensures Transmits(res.stream.oracle, old(res.stream.log), mid, res.status, FixedReason, res.headers, Utf8(first))
    ensures Completes(res.stream.oracle, |old(res.stream.log)|, Utf8(first)) ==>
      Transmits(res.stream.oracle, mid, res.stream.log, res.status, FixedReason, res.headers, Utf8(second))
    ensures !Completes(res.stream.oracle, |old(res.stream.log)|, Utf8(first)) ==> res.stream.log == mid && !completed
  {
    completed := res.Send(first);
    mid := res.stream.log;
    ghost var headers, status := res.headers, res.status;
    if completed {
      completed := res.Send(second);
      assert res.headers == headers[ContentTypeKey := TextPlain];
      assert res.headers == headers;
    }
    assert res.headers == headers && res.status == status;
  }

  /** Two heads that differ only in their reason phrase differ. */
  lemma HeadsDiffer(code: nat, r1: string, r2: string, block: string, length: nat)
    requires r1 != r2
    ensures Head(code, r1, block, length) != Head(code, r2, block, length)
  {
    var prefix := "HTTP/1.1 " + NatToString(code) + " ";
    var rest := "\r\n" + (block + "\r\nContent-Length: " + NatToString(length) + "\r\n\r\n");
    var h1, h2 := Head(code, r1, block, length), Head(code, r2, block, length);
    assert h1 == prefix + r1 + rest;
    assert h2 == prefix + r2 + rest;
    if |r1| == |r2| {
      assert h1[|prefix|..|prefix| + |r1|] == r1;
      assert h2[|prefix|..|prefix| + |r2|] == r2;
    } else {
      assert |h1| != |h2|;
    }
  }

  /**
    The status line is wrong for every code whose reason is not `OK`: the
    head written differs from the one carrying the code's own reason.
  */
  lemma MislabelledHead(code: u16, block: string, length: nat)
    requires Reason(code) != FixedReason
    ensures Head(code, FixedReason, block, length) != Head(code, Reason(code), block, length)
  {
    HeadsDiffer(code, FixedReason, Reason(code), block, length);
  }

  /** A 404 goes out as `HTTP/1.1 404 OK` rather than with the reason `Not Found`. */
  lemma NotFoundSaysOK(block: string, length: nat)
    ensures Reason(404) == "Not Found"
    ensures Head(404, FixedReason, block, length) != Head(404, Reason(404), block, length)
  {
    ReasonExamples();
    MislabelledHead(404, block, length);
  }
}
