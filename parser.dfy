/**
  Reading a request off the connection: the request line, the header
  block up to the first empty line, and a body whose length the
  `content-length` header gives.
*/
module Parser {
  import opened Wrappers
  import opened Text
  import opened Assoc
  import opened Decimal
  import opened Bytes
  import opened Wire

  // ---------------------------------------------------------------------------
  // Request line

  /** What `get_request_line` makes of the input: the first line, or an error when there is none or it cannot be read. */
  function RequestLineOf(lines: seq<LineRead>): (r: Result<string, string>)
    ensures r.Ok? <==> |lines| > 0 && lines[0].Line?
    ensures r.Ok? ==> r.value == lines[0].text
    ensures |lines| == 0 ==> r == Err("no request line")
    ensures |lines| > 0 && lines[0].LineError? ==> r == Err("failed to read request line")
  {
    if |lines| == 0 then Err("no request line")
    else match lines[0]
      case Line(text) => Ok(text)
      case LineError => Err("failed to read request line")
  }

  /** `get_request_line`: consumes one line, if there is one. */
  method GetRequestLine(reader: Reader) returns (r: Result<string, string>)
    modifies reader
    ensures r == RequestLineOf(old(reader.lines))
    ensures reader.lines == if old(reader.lines) == [] then [] else old(reader.lines)[1..]
    ensures reader.bytes == old(reader.bytes)
  {
    var next := reader.NextLine();
    match next
    case None => r := Err("no request line");
    case Some(LineError) => r := Err("failed to read request line");
    case Some(Line(text)) => r := Ok(text);
  }

  // ---------------------------------------------------------------------------
  // Header block

  /** A key as the parser stores it: ASCII lower case. */
  predicate IsLowerKey(k: string)
  {
    forall i :: 0 <= i < |k| ==> !IsUpperLetter(k[i])
  }

  /**
    One header line split at its first `:`, the key trimmed and
    lower-cased and the value trimmed; `None` for a line without `:`.
  */
  function HeaderField(line: string): (r: Option<(string, string)>)
    ensures r.None? <==> ':' !in line
  {
    var split := SplitOnce(line, ':');
    if split.None? then None
    else Some((ToLowerAscii(Trim(split.value.0)), Trim(split.value.1)))
  }

  /** A stored key has no upper-case letter and no `:`; a stored value has no whitespace at either end. */
  lemma HeaderFieldShape(line: string)
    requires ':' in line
    ensures IsLowerKey(HeaderField(line).value.0) && ':' !in HeaderField(line).value.0
    ensures var v := HeaderField(line).value.1; |v| > 0 ==> !IsWhitespace(v[0]) && !IsWhitespace(v[|v| - 1])
  {
    var split := SplitOnce(line, ':').value;
    var k, v := Trim(split.0), Trim(split.1);
    assert HeaderField(line).value == (ToLowerAscii(k), v);
    TrimKeepsOut(split.0, ':');
    LowerKeepsOut(k, ':');
    LowerAsciiFacts(k);
  }

  /** A line `key:value` with a `:`-free key gives the key lower-cased and trimmed and the whole trimmed rest, `:` included. */
  lemma HeaderFieldOf(key: string, value: string)
    requires ':' !in key
    ensures HeaderField(key + ":" + value) == Some((ToLowerAscii(Trim(key)), Trim(value)))
  {
    SplitOnceAtFirst(key, ':', value);
    assert key + ":" + value == key + [':'] + value;
  }

  /** A no-break space after the colon is trimmed like any other whitespace: `X-Name:` U+00A0 `bob` stores `bob`. */
  lemma NoBreakSpaceTrimmed(key: string, value: string)
    requires ':' !in key
    requires |key| > 0 ==> !IsWhitespace(key[0]) && !IsWhitespace(key[|key| - 1])
    requires |value| > 0 ==> !IsWhitespace(value[0]) && !IsWhitespace(value[|value| - 1])
    ensures HeaderField(key + ":" + ['\U{00A0}'] + value) == Some((ToLowerAscii(key), value))
  {
    assert key + ":" + ['\U{00A0}'] + value == key + ":" + (['\U{00A0}'] + value);
    HeaderFieldOf(key, ['\U{00A0}'] + value);
    TrimOfTrimmed(key);
    TrimLeadingWhitespace('\U{00A0}', value);
    TrimOfTrimmed(value);
  }

  /** Whether reading stops at this line: an empty line or a read error. */
  predicate StopsAt(l: LineRead)
  {
    l.LineError? || l.text == ""
  }

  /** The number of header lines before the stop point: the first empty line or read error, else the whole input. */
  function HeaderEnd(lines: seq<LineRead>): (n: nat)
    ensures n <= |lines|
    ensures n < |lines| ==> StopsAt(lines[n])
    ensures forall i :: 0 <= i < n ==> !StopsAt(lines[i])
  {
    if |lines| == 0 then 0
    else if StopsAt(lines[0]) then 0
    else 1 + HeaderEnd(lines[1..])
  }

  /** The lines `get_headers` consumes: the header lines and the line it stopped at. */
  function Consumed(lines: seq<LineRead>): (n: nat)
    ensures n <= |lines|
  {
    if HeaderEnd(lines) < |lines| then HeaderEnd(lines) + 1 else |lines|
  }

  /** The field a line contributes: none for a read error or a line without `:`. */
  function FieldOf(l: LineRead): (r: Option<(string, string)>)
    ensures r.Some? <==> l.Line? && ':' in l.text
  {
    if l.LineError? then None else HeaderField(l.text)
  }

  /** The fields of the well-formed header lines among `lines`, in order. */
  function Fields(lines: seq<LineRead>): (ps: seq<(string, string)>)
  {
    if |lines| == 0 then []
    else
      var n := |lines| - 1;
      var field := FieldOf(lines[n]);
      Fields(lines[..n]) + if field.Some? then [field.value] else []
  }

  /** The header map `get_headers` builds from the input. */
  function HeaderMap(lines: seq<LineRead>): (m: map<string, string>)
  {
    PairsToMap(Fields(lines[..HeaderEnd(lines)]))
  }

  /** One more header line: a well-formed one adds its field, a malformed one adds nothing. */
  lemma FieldsStep(lines: seq<LineRead>, i: nat)
    requires i < |lines|
    ensures Fields(lines[..i + 1]) == Fields(lines[..i]) + if FieldOf(lines[i]).Some? then [FieldOf(lines[i]).value] else []
  {
    assert lines[..i + 1][..i] == lines[..i];
  }

  /** `get_headers`: reads lines up to and including the stop point and inserts each field, later ones overwriting. */
  method GetHeaders(reader: Reader) returns (headers: map<string, string>)
    modifies reader
    ensures headers == HeaderMap(old(reader.lines))
    ensures reader.lines == old(reader.lines)[Consumed(old(reader.lines))..]
    ensures reader.bytes == old(reader.bytes)
  {
    ghost var input := reader.lines;
    ghost var end := HeaderEnd(input);
    ghost var i := 0;
    headers := map[];
    while true
      invariant i <= end && reader.lines == input[i..] && reader.bytes == old(reader.bytes)
      invariant headers == PairsToMap(Fields(input[..end][..i]))
      decreases |reader.lines|
    {
      var next := reader.NextLine();
      if next.None? {
        assert i == |input|;
        break;
      }
      var l := next.value;
      if l.LineError? || l.text == "" {
        assert i == end;
        break;
      }
      FieldsStep(input[..end], i);
      assert input[..end][..i + 1] == input[..i + 1] && input[..end][..i] == input[..i];
      var field := HeaderField(l.text);
      assert field == FieldOf(input[i]);
      if field.Some? {
        headers := headers[field.value.0 := field.value.1];
        PairsToMapSnoc(Fields(input[..i]), field.value);
      } else {
        assert Fields(input[..i]) + [] == Fields(input[..i]);
      }
      i := i + 1;
    }
    assert input[..end][..end] == input[..end];
  }

  /** Nothing after the stop point enters the map: appending input after it changes nothing. */
  lemma NothingAfterStop(lines: seq<LineRead>, more: seq<LineRead>)
    requires HeaderEnd(lines) < |lines|
    ensures HeaderEnd(lines + more) == HeaderEnd(lines)
    ensures HeaderMap(lines + more) == HeaderMap(lines)
  {
    var n := HeaderEnd(lines);
    assert (lines + more)[..n] == lines[..n];
    assert forall i :: 0 <= i <= n ==> (lines + more)[i] == lines[i];
  }

  /** The fields of two runs of header lines are those of the first run, then those of the second. */
  lemma {:induction false} FieldsConcat(a: seq<LineRead>, b: seq<LineRead>)
    ensures Fields(a + b) == Fields(a) + Fields(b)
    decreases |b|
  {
    if |b| == 0 {
      assert a + b == a;
    } else {
      var n := |b| - 1;
      assert (a + b)[..|a + b| - 1] == a + b[..n];
      FieldsConcat(a, b[..n]);
    }
  }

  /** A malformed line, one with no `:`, is skipped and reading goes on. */
  lemma MalformedSkipped(text: string, lines: seq<LineRead>)
    requires text != "" && ':' !in text
    ensures HeaderEnd([Line(text)] + lines) == 1 + HeaderEnd(lines)
    ensures HeaderMap([Line(text)] + lines) == HeaderMap(lines)
  {
    var all := [Line(text)] + lines;
    assert all[1..] == lines;
    var e := HeaderEnd(lines);
    assert all[..1 + e] == [Line(text)] + lines[..e];
    FieldsConcat([Line(text)], lines[..e]);
    assert [Line(text)][..0] == [];
    assert Fields([Line(text)]) == [];
    assert [] + Fields(lines[..e]) == Fields(lines[..e]);
  }

  /** A header line after the others overwrites whatever they stored under its key. */
  lemma LaterLineOverwrites(lines: seq<LineRead>, text: string)
    requires HeaderEnd(lines) == |lines| && ':' in text
    ensures HeaderMap(lines + [Line(text)])
      == HeaderMap(lines)[HeaderField(text).value.0 := HeaderField(text).value.1]
  {
    var all := lines + [Line(text)];
    assert text != "";
    assert forall i :: 0 <= i < |all| ==> !StopsAt(all[i]) by {
      assert forall i :: 0 <= i < |lines| ==> all[i] == lines[i] && !StopsAt(lines[i]);
    }
    assert HeaderEnd(all) == |all|;
    assert all[..|all|] == all && lines[..|lines|] == lines;
    FieldsStep(all, |lines|);
    assert all[..|lines|] == lines;
    PairsToMapSnoc(Fields(lines), HeaderField(text).value);
  }

  /** `Host: a:1` is stored as `host` mapped to `a:1`: the split is at the first `:` only. */
  lemma HostHeaderExample()
    ensures HeaderField("Host: a:1") == Some(("host", "a:1"))
  {
    assert "Host: a:1" == "Host" + ":" + " a:1";
    HeaderFieldOf("Host", " a:1");
    HostKeyLowered();
    ValueTrimmed();
  }

  lemma HostKeyLowered()
    ensures ToLowerAscii(Trim("Host")) == "host"
  {
    TrimOfTrimmed("Host");
    LowerHost();
  }

  lemma LowerHost()
    ensures ToLowerAscii("Host") == "host"
  {
    var r := ToLowerAscii("Host");
    assert r[0] == 'h' && r[1] == 'o' && r[2] == 's' && r[3] == 't';
  }

  lemma ValueTrimmed()
    ensures Trim(" a:1") == "a:1"
  {
    TrimLeadingSpace("a:1");
    TrimOfTrimmed("a:1");
  }

  /** Every field read has a lower-case key. */
  lemma {:induction false} FieldsLowerCase(lines: seq<LineRead>)
    ensures forall i :: 0 <= i < |Fields(lines)| ==> IsLowerKey(Fields(lines)[i].0)
    decreases |lines|
  {
    if |lines| > 0 {
      var n := |lines| - 1;
      FieldsLowerCase(lines[..n]);
      if FieldOf(lines[n]).Some? {
        HeaderFieldShape(lines[n].text);
      }
    }
  }

  /** Every key of the header map is lower case, whatever the client sent. */
  lemma HeaderKeysLowerCase(lines: seq<LineRead>, k: string)
    requires k in HeaderMap(lines)
    ensures IsLowerKey(k)
  {
    var ps := Fields(lines[..HeaderEnd(lines)]);
    FieldsLowerCase(lines[..HeaderEnd(lines)]);
    PairsToMapKeys(ps);
    var i :| 0 <= i < |ps| && ps[i].0 == k;
  }

  // ---------------------------------------------------------------------------
  // Body

  /** The body length announced by the headers: `content-length` read as a `usize`, if it is there and well formed. */
  function BodyLength(headers: map<string, string>): (n: Option<nat>)
    ensures n.Some? ==> "content-length" in headers && n == ParseUsize(headers["content-length"])
    ensures "content-length" in headers && ParseUsize(headers["content-length"]).Some? ==> n.Some?
  {
    if "content-length" in headers then ParseUsize(headers["content-length"]) else None
  }

  /**
    How `get_body` ends: it returns a result, or it panics with "capacity
    overflow" in `vec![0; size]` because the length exceeds `isize::MAX`,
    before any byte is read.
  */
  datatype BodyOutcome = Returned(result: Result<string, string>) | CapacityOverflow

  /** What `get_body` does with the headers and the bytes that remain after the header block. */
  function BodyOf(headers: map<string, string>, bytes: seq<byte>): (r: BodyOutcome)
    ensures BodyLength(headers).None? ==> r == Returned(Ok(""))
    ensures BodyLength(headers).Some? && BodyLength(headers).value >= IsizeLimit ==> r == CapacityOverflow
    ensures BodyLength(headers).Some? && BodyLength(headers).value < IsizeLimit && BodyLength(headers).value <= |bytes| ==>
      r == Returned(Ok(DecodeLossy(bytes[..BodyLength(headers).value])))
    ensures BodyLength(headers).Some? && BodyLength(headers).value < IsizeLimit && BodyLength(headers).value > |bytes| ==>
      r == Returned(Err("failed to read body"))
  {
    match BodyLength(headers)
    case None => Returned(Ok(""))
    case Some(n) =>
      if n >= IsizeLimit then CapacityOverflow
      else if n <= |bytes| then Returned(Ok(DecodeLossy(bytes[..n])))
      else Returned(Err("failed to read body"))
  }

  /**
    `get_body`: with a well-formed `content-length` of n, allocates n bytes
    (a panic past `isize::MAX`) and reads exactly n bytes (an error when
    fewer remain); otherwise an empty body, reading nothing.
  */
  method GetBody(headers: map<string, string>, reader: Reader) returns (r: BodyOutcome)
    modifies reader
    ensures r == BodyOf(headers, old(reader.bytes))
    ensures r.CapacityOverflow? || BodyLength(headers).None? ==> reader.bytes == old(reader.bytes)
    ensures r.Returned? && BodyLength(headers).Some? && BodyLength(headers).value <= |old(reader.bytes)| ==>
      reader.bytes == old(reader.bytes)[BodyLength(headers).value..]
    ensures reader.lines == old(reader.lines)
  {
    if "content-length" in headers {
      var size := ParseUsize(headers["content-length"]);
      if size.Some? {
        if size.value >= IsizeLimit {
          return CapacityOverflow;
        }
        var ok, buffer := reader.ReadExact(size.value);
        if ok {
          return Returned(Ok(DecodeLossy(buffer)));
        } else {
          return Returned(Err("failed to read body"));
        }
      }
    }
    return Returned(Ok(""));
  }

  /**
    Every length from 2^63 on that `parse::<usize>` accepts makes `get_body`
    panic, whatever the connection holds: `Content-Length: 9223372036854775808`
    is the smallest.
  */
  lemma HugeLengthPanics(headers: map<string, string>, n: nat, bytes: seq<byte>)
    requires IsizeLimit <= n < UsizeLimit
    ensures BodyOf(headers["content-length" := NatToString(n)], bytes) == CapacityOverflow
    ensures BodyOf(headers["content-length" := NatToString(IsizeLimit)], bytes) == CapacityOverflow
  {
    ParseFormatted(n);
    ParseFormatted(IsizeLimit);
  }

  /**
    The evidently intended `get_body`: a length longer than the connection
    delivers is a failed read, and no length makes it panic.  It reads at
    most the bytes that are there, as `take(size).read_to_end` would.
  */
  function BoundedBodyOf(headers: map<string, string>, bytes: seq<byte>): (r: Result<string, string>)
    ensures r.Err? <==> BodyLength(headers).Some? && BodyLength(headers).value > |bytes|
    ensures r.Ok? && BodyLength(headers).None? ==> r.value == ""
  {
    match BodyLength(headers)
    case None => Ok("")
    case Some(n) => if n <= |bytes| then Ok(DecodeLossy(bytes[..n])) else Err("failed to read body")
  }

  /**
    The bounded reader never panics, fails for every length beyond the
    bytes that remain (in particular every length past `isize::MAX` on a
    finite connection), and returns what `get_body` returns wherever
    `get_body` does not panic.
  */
  lemma BoundedBodyAgrees(headers: map<string, string>, bytes: seq<byte>)
    ensures BodyOf(headers, bytes).Returned? ==> BoundedBodyOf(headers, bytes) == BodyOf(headers, bytes).result
    ensures BodyLength(headers).Some? && BodyLength(headers).value > |bytes| ==>
      BoundedBodyOf(headers, bytes) == Err("failed to read body")
    ensures BodyOf(headers, bytes).CapacityOverflow? ==> BoundedBodyOf(headers, bytes).Err? || |bytes| >= IsizeLimit
  {
  }

  /** A body announced with its own length, in the decimal form a response writes, is read back whole; the rest stays unread. */
  lemma BodyRoundTrip(headers: map<string, string>, body: string, rest: seq<byte>)
    requires IsAscii(body) && |body| < IsizeLimit
    ensures BodyOf(headers["content-length" := NatToString(|body|)], Utf8(body) + rest) == Returned(Ok(body))
  {
    ParseFormatted(|body|);
    DecodeAscii(body);
    assert (Utf8(body) + rest)[..|body|] == Utf8(body);
  }

  /**
    A header line as a response writes it, `key: value`, is read back as the
    lower-cased key and the value, when the key has no `:` and neither part
    has whitespace at its ends.
  */
  lemma HeaderLineRead(key: string, value: string)
    requires ':' !in key
    requires |key| > 0 ==> !IsWhitespace(key[0]) && !IsWhitespace(key[|key| - 1])
    requires |value| > 0 ==> !IsWhitespace(value[0]) && !IsWhitespace(value[|value| - 1])
    ensures HeaderField(key + ": " + value) == Some((ToLowerAscii(key), value))
  {
    assert key + ": " + value == key + ":" + (" " + value);
    HeaderFieldOf(key, " " + value);
    TrimOfTrimmed(key);
    TrimLeadingSpace(value);
    TrimOfTrimmed(value);
  }

  /** The `Content-Length` line a response writes is read back as the `content-length` field with the same numeral. */
  lemma ContentLengthLineRead(n: nat)
    ensures HeaderField("Content-Length: " + NatToString(n)) == Some(("content-length", NatToString(n)))
  {
    var digits := NatToString(n);
    assert "Content-Length: " + digits == "Content-Length" + ": " + digits;
    HeaderLineRead("Content-Length", digits);
    ContentLengthLowered();
  }

  lemma ContentLengthLowered()
    ensures ToLowerAscii("Content-Length") == "content-length"
  {
  }
}
