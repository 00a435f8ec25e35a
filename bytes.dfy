/**
  Bytes on the wire: the UTF-8 encoding of a Rust `String` (`as_bytes`), its
  byte length (`len`), and the ASCII part of `String::from_utf8_lossy`.
*/
module Bytes {

  type byte = b: int | 0 <= b < 0x100

  predicate IsAscii(s: string)
  {
    forall i :: 0 <= i < |s| ==> s[i] as int < 0x80
  }

  /** The UTF-8 encoding of one Unicode scalar value: one to four bytes. */
  function EncodeChar(c: char): (bs: seq<byte>)
    ensures 1 <= |bs| <= 4
    ensures |bs| == 1 <==> c as int < 0x80
    ensures c as int < 0x80 ==> bs == [c as int]
  {
    var n := c as int;
    if n < 0x80 then [n]
    else if n < 0x800 then [0xC0 + n / 0x40, 0x80 + n % 0x40]
    else if n < 0x1_0000 then [0xE0 + n / 0x1000, 0x80 + (n / 0x40) % 0x40, 0x80 + n % 0x40]
    else [0xF0 + n / 0x4_0000, 0x80 + (n / 0x1000) % 0x40, 0x80 + (n / 0x40) % 0x40, 0x80 + n % 0x40]
  }

  /** `s.as_bytes()`: the UTF-8 encoding of `s`. */
  function Utf8(s: string): (bs: seq<byte>)
    ensures |bs| >= |s|
    ensures IsAscii(s) ==> |bs| == |s| && forall i :: 0 <= i < |s| ==> bs[i] == s[i] as int
  {
    if |s| == 0 then []
    else
      var front := s[..|s| - 1];
      assert IsAscii(s) ==> IsAscii(front) && forall i :: 0 <= i < |front| ==> front[i] == s[i];
      Utf8(front) + EncodeChar(s[|s| - 1])
  }

  /** The encoding of a concatenation is the concatenation of the encodings. */
  lemma {:induction false} Utf8Concat(a: string, b: string)
    ensures Utf8(a + b) == Utf8(a) + Utf8(b)
    decreases |b|
  {
    if |b| == 0 {
      assert a + b == a;
    } else {
      assert (a + b)[..|a + b| - 1] == a + b[..|b| - 1];
      Utf8Concat(a, b[..|b| - 1]);
    }
  }

  /** Decoding of a byte buffer into text: ASCII bytes stand for themselves, any other byte becomes U+FFFD. */
  function DecodeLossy(bs: seq<byte>): (s: string)
    ensures |s| == |bs|
    ensures forall i :: 0 <= i < |bs| ==> (bs[i] < 0x80 ==> s[i] as int == bs[i]) && (bs[i] >= 0x80 ==> s[i] == '�')
  {
    seq(|bs|, i requires 0 <= i < |bs| => if bs[i] < 0x80 then bs[i] as char else '�')
  }

  /** ASCII text survives the encode / lossy-decode round trip. */
  lemma DecodeAscii(s: string)
    requires IsAscii(s)
    ensures DecodeLossy(Utf8(s)) == s
  {
    var d := DecodeLossy(Utf8(s));
    assert forall i :: 0 <= i < |s| ==> d[i] == s[i];
  }

  /** A character outside ASCII takes more than one byte, so `len` counts bytes and not characters. */
  lemma Utf8LongerThanText(s: string)
    requires !IsAscii(s)
    ensures |Utf8(s)| > |s|
  {
    var i :| 0 <= i < |s| && s[i] as int >= 0x80;
    assert s == s[..i] + [s[i]] + s[i + 1..];
    Utf8Concat(s[..i] + [s[i]], s[i + 1..]);
    Utf8Concat(s[..i], [s[i]]);
    assert Utf8([s[i]]) == EncodeChar(s[i]) by {
      assert [s[i]][..0] == [];
    }
  }
}
