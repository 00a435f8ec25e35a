/**
  The connection, seen from the two ends the engine touches.

  The output side is an append-only log of stream operations; whether the
  n-th operation, a write, succeeds, and how much of its buffer a failing
  write gets out, is fixed in advance by an oracle.  The input side is the sequence of lines a
  `BufReader::lines` iterator yields, followed by the bytes that remain.
*/
module Wire {
  import opened Wrappers
  import opened Bytes

  /**
    One stream operation as it ended.  A write records its buffer, whether
    `write_all` returned `Ok`, and how many of the buffer's bytes went out.
  */
  datatype IoEvent = Wrote(data: seq<byte>, ok: bool, sent: nat) | Flushed(ok: bool)

  /**
    The behaviour of the connection, fixed in advance: whether the operation
    at position n of the log succeeds, and how many bytes a failing write at
    position n gets out before its error.
  */
  datatype Oracle = Oracle(succeeds: nat -> bool, partial: nat -> nat)

  /**
    `write_all` of `data` as operation n: an empty buffer succeeds without
    touching the socket, and a failing call has sent a strict prefix of the
    buffer, since `write_all` only gives up while bytes remain.
  */
  function WriteAt(oracle: Oracle, n: nat, data: seq<byte>): (e: IoEvent)
    ensures e.Wrote? && e.data == data && e.sent <= |data|
    ensures e.ok <==> data == [] || oracle.succeeds(n)
    ensures e.ok <==> e.sent == |data|
  {
    if data == [] || oracle.succeeds(n) then Wrote(data, true, |data|)
    else Wrote(data, false, if oracle.partial(n) < |data| then oracle.partial(n) else |data| - 1)
  }

  /** The write side of a TCP stream. */
  class Stream {
    var log: seq<IoEvent>
    const oracle: Oracle

    constructor (oracle: Oracle)
      ensures log == [] && this.oracle == oracle
    {
      log := [];
      this.oracle := oracle;
    }

    /** `write_all`: the whole buffer is written, or the call fails after sending part of it. */
    method WriteAll(data: seq<byte>) returns (ok: bool)
      modifies this
      ensures ok <==> data == [] || oracle.succeeds(|old(log)|)
      ensures log == old(log) + [WriteAt(oracle, |old(log)|, data)]
    {
      var e := WriteAt(oracle, |log|, data);
      ok := e.ok;
      log := log + [e];
    }

    /** `flush`: a `TcpStream` buffers nothing, so its flush always returns `Ok`. */
    method Flush() returns (ok: bool)
      modifies this
      ensures ok
      ensures log == old(log) + [Flushed(true)]
    {
      ok := true;
      log := log + [Flushed(ok)];
    }
  }

  /**
    The operations of one response written from log position `at`: the head,
    then the body, then a flush, where a failed step stops the sequence.
  */
  function Transmission(oracle: Oracle, at: nat, head: seq<byte>, body: seq<byte>): (steps: seq<IoEvent>)
    ensures 1 <= |steps| <= 3 && steps[0] == WriteAt(oracle, at, head)
    ensures |steps| > 1 <==> steps[0].ok
    ensures |steps| > 1 ==> steps[1] == WriteAt(oracle, at + 1, body)
    ensures |steps| == 3 <==> steps[0].ok && WriteAt(oracle, at + 1, body).ok
    ensures |steps| == 3 ==> steps[2] == Flushed(true)
  {
    var h := WriteAt(oracle, at, head);
    var b := WriteAt(oracle, at + 1, body);
    if !h.ok then [h]
    else if !b.ok then [h, b]
    else [h, b, Flushed(true)]
  }

  /** The bytes that reached the peer: what each write got out, in order. */
  function Delivered(log: seq<IoEvent>): (bs: seq<byte>)
  {
    if |log| == 0 then []
    else
      var last := log[|log| - 1];
      Delivered(log[..|log| - 1]) + (if last.Wrote? then SentPart(last) else [])
  }

  /** The bytes one write got out. */
  function SentPart(e: IoEvent): (bs: seq<byte>)
    requires e.Wrote?
  {
    if e.sent <= |e.data| then e.data[..e.sent] else e.data
  }

  /**
    What a transmission puts on the wire: head and body when both writes
    succeed, the head and part of the body when the body's write fails, and
    part of the head when the head's write fails.
  */
  lemma TransmissionDelivers(oracle: Oracle, at: nat, head: seq<byte>, body: seq<byte>)
    ensures var h := WriteAt(oracle, at, head); var b := WriteAt(oracle, at + 1, body);
      Delivered(Transmission(oracle, at, head, body))
        == if !h.ok then head[..h.sent] else if !b.ok then head + body[..b.sent] else head + body
  {
    var t := Transmission(oracle, at, head, body);
    var h := WriteAt(oracle, at, head);
    assert t[..0] == [];
    assert t[..1] == [h];
    assert Delivered(t[..1]) == head[..h.sent];
    if h.ok {
      assert head[..h.sent] == head;
      var b := WriteAt(oracle, at + 1, body);
      assert t[..2] == [h, b];
      assert t[..2][..1] == t[..1];
      assert Delivered(t[..2]) == head + body[..b.sent];
      if b.ok {
        assert body[..b.sent] == body;
        assert t[..|t| - 1] == t[..2];
      } else {
        assert t[..|t| - 1] == t[..1];
      }
    }
  }

  /**
    The peer had `earlier` and now has `earlier` followed by the first `k` bytes of
    `head + body`, where `k` is the whole of both exactly when both writes at
    `at` and `at + 1` succeed, short of the head when the head's write fails,
    and past the head but short of the body when only the body's write fails.
  */
  ghost predicate DeliversPrefix(oracle: Oracle, at: nat, head: seq<byte>, body: seq<byte>,
                                 earlier: seq<byte>, now: seq<byte>, k: nat)
  {
    var headOk := WriteAt(oracle, at, head).ok;
    var bodyOk := WriteAt(oracle, at + 1, body).ok;
    && k <= |head| + |body|
    && now == earlier + (head + body)[..k]
    && (k == |head| + |body| <==> headOk && bodyOk)
    && (!headOk ==> k < |head|)
    && (headOk && !bodyOk ==> |head| <= k < |head| + |body|)
  }

  /** Appended to a log, a transmission delivers a prefix of head and body, as `DeliversPrefix` describes. */
  lemma TransmissionDeliversPrefix(oracle: Oracle, before: seq<IoEvent>, head: seq<byte>, body: seq<byte>)
    ensures exists k :: DeliversPrefix(oracle, |before|, head, body, Delivered(before),
                                       Delivered(before + Transmission(oracle, |before|, head, body)), k)
  {
    var t := Transmission(oracle, |before|, head, body);
    DeliveredConcat(before, t);
    TransmissionDelivers(oracle, |before|, head, body);
    WrittenPrefix(oracle, |before|, head, body, Delivered(before), Delivered(t));
  }

  /** The bytes of one transmission, appended to what the peer had, are a prefix of head and body. */
  lemma WrittenPrefix(oracle: Oracle, at: nat, head: seq<byte>, body: seq<byte>, earlier: seq<byte>, part: seq<byte>)
    requires var h := WriteAt(oracle, at, head); var b := WriteAt(oracle, at + 1, body);
      part == if !h.ok then head[..h.sent] else if !b.ok then head + body[..b.sent] else head + body
    ensures exists k :: DeliversPrefix(oracle, at, head, body, earlier, earlier + part, k)
  {
    var h := WriteAt(oracle, at, head);
    var b := WriteAt(oracle, at + 1, body);
    var k: nat;
    if !h.ok {
      k := h.sent;
      assert (head + body)[..k] == head[..h.sent];
    } else if !b.ok {
      k := |head| + b.sent;
      assert (head + body)[..k] == head + body[..b.sent];
    } else {
      k := |head| + |body|;
      assert (head + body)[..k] == head + body;
    }
    assert DeliversPrefix(oracle, at, head, body, earlier, earlier + part, k);
  }

  /** What the peer has received after some more operations: the old bytes, then the new ones. */
  lemma {:induction false} DeliveredConcat(a: seq<IoEvent>, b: seq<IoEvent>)
    ensures Delivered(a + b) == Delivered(a) + Delivered(b)
    decreases |b|
  {
    if |b| == 0 {
      assert a + b == a;
    } else {
      assert (a + b)[..|a + b| - 1] == a + b[..|b| - 1];
      DeliveredConcat(a, b[..|b| - 1]);
    }
  }

  /** One line as the `lines()` iterator yields it: the text without its line ending, or a read error. */
  datatype LineRead = Line(text: string) | LineError

  /** The read side of a TCP stream behind a `BufReader`. */
  class Reader {
    /** The lines the `lines()` iterator will yield, in order. */
    var lines: seq<LineRead>
    /** The bytes that remain after those lines. */
    var bytes: seq<byte>

    constructor (lines: seq<LineRead>, bytes: seq<byte>)
      ensures this.lines == lines && this.bytes == bytes
    {
      this.lines := lines;
      this.bytes := bytes;
    }

    /** `lines.next()`: `None` at the end of input, otherwise the next line or read error. */
    method NextLine() returns (r: Option<LineRead>)
      modifies this
      ensures old(lines) == [] ==> r == None && lines == []
      ensures old(lines) != [] ==> r == Some(old(lines)[0]) && lines == old(lines)[1..]
      ensures bytes == old(bytes)
    {
      if lines == [] {
        r := None;
      } else {
        r := Some(lines[0]);
        lines := lines[1..];
      }
    }

    /**
      `read_exact` into a buffer of `n` bytes: succeeds exactly when `n` bytes
      remain; at a premature end of input the rest is consumed and the call fails.
    */
    method ReadExact(n: nat) returns (ok: bool, buf: seq<byte>)
      modifies this
      ensures ok <==> n <= |old(bytes)|
      ensures ok ==> buf == old(bytes)[..n] && bytes == old(bytes)[n..]
      ensures !ok ==> buf == [] && bytes == []
      ensures lines == old(lines)
    {
      if n <= |bytes| {
        ok, buf := true, bytes[..n];
        bytes := bytes[n..];
      } else {
        ok, buf := false, [];
        bytes := [];
      }
    }
  }
}
