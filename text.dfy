/**
  String helpers with the semantics of the Rust `str` methods the server uses:
  `split`, `split_once`, `split_whitespace`, `trim`, `trim_start_matches`,
  `to_ascii_lowercase`, `to_uppercase` and `eq_ignore_ascii_case`.
  Case mapping is ASCII only; whitespace is Unicode White_Space.
*/
module Text {
  import opened Wrappers

  // ---------------------------------------------------------------------------
  // Searching and splitting on one character

  /** Index of the first `c` in `s`, or `|s|` when `s` has none. */
  function IndexOf(s: string, c: char): (i: nat)
    ensures i <= |s|
    ensures i < |s| ==> s[i] == c
    ensures forall j :: 0 <= j < i ==> s[j] != c
  {
    if |s| == 0 then 0
    else if s[0] == c then 0
    else 1 + IndexOf(s[1..], c)
  }

  /** `s.split(c)`: the pieces between the occurrences of `c`; there is always at least one. */
  function Split(s: string, c: char): (pieces: seq<string>)
    ensures |pieces| >= 1
    ensures forall i :: 0 <= i < |pieces| ==> c !in pieces[i]
    decreases |s|
  {
    var i := IndexOf(s, c);
    if i == |s| then [s] else [s[..i]] + Split(s[i + 1..], c)
  }

  /** The pieces written one after another with `sep` between neighbours. */
  function Join(pieces: seq<string>, sep: string): string
  {
    if |pieces| == 0 then ""
    else if |pieces| == 1 then pieces[0]
    else pieces[0] + sep + Join(pieces[1..], sep)
  }

  /** Joining the pieces of a split with the separator gives back the string. */
  lemma {:induction false} JoinSplit(s: string, c: char)
    ensures Join(Split(s, c), [c]) == s
    decreases |s|
  {
    var i := IndexOf(s, c);
    if i < |s| {
      var rest := Split(s[i + 1..], c);
      JoinSplit(s[i + 1..], c);
      assert Split(s, c) == [s[..i]] + rest;
      assert ([s[..i]] + rest)[1..] == rest;
      assert s == s[..i] + [c] + s[i + 1..];
    }
  }

  /** Splitting a join of `c`-free pieces gives back the pieces. */
  lemma {:induction false} SplitJoin(pieces: seq<string>, c: char)
    requires |pieces| >= 1
    requires forall i :: 0 <= i < |pieces| ==> c !in pieces[i]
    ensures Split(Join(pieces, [c]), c) == pieces
  {
    var s := Join(pieces, [c]);
    if |pieces| == 1 {
      assert IndexOf(s, c) == |s|;
    } else {
      var p0, rest := pieces[0], pieces[1..];
      assert s == p0 + [c] + Join(rest, [c]);
      var i := IndexOf(s, c);
      assert s[|p0|] == c;
      assert forall j :: 0 <= j < |p0| ==> s[j] == p0[j];
      assert i == |p0|;
      assert s[..i] == p0;
      assert s[i + 1..] == Join(rest, [c]);
      SplitJoin(rest, c);
      assert pieces == [p0] + rest;
    }
  }

  /** Text without `c` splits into itself alone. */
  lemma SplitNone(s: string, c: char)
    requires c !in s
    ensures Split(s, c) == [s]
  {
    assert IndexOf(s, c) == |s|;
  }

  /** A `c`-free first piece followed by `c` comes off the front of the split. */
  lemma SplitCons(a: string, c: char, rest: string)
    requires c !in a
    ensures Split(a + [c] + rest, c) == [a] + Split(rest, c)
  {
    var s := a + [c] + rest;
    assert s[|a|] == c;
    assert forall j :: 0 <= j < |a| ==> s[j] == a[j];
    assert IndexOf(s, c) == |a|;
    assert s[..|a|] == a && s[|a| + 1..] == rest;
  }

  /** `s.split_once(c)`: the text before and after the first `c`, or None. */
  function SplitOnce(s: string, c: char): (r: Option<(string, string)>)
    ensures r.None? <==> c !in s
    ensures r.Some? ==> s == r.value.0 + [c] + r.value.1 && c !in r.value.0
  {
    var i := IndexOf(s, c);
    if i == |s| then None
    else
      assert s == s[..i] + [c] + s[i + 1..];
      Some((s[..i], s[i + 1..]))
  }

  /** The split happens at the first `c`: a `c`-free prefix is recovered exactly. */
  lemma SplitOnceAtFirst(before: string, c: char, after: string)
    requires c !in before
    ensures SplitOnce(before + [c] + after, c) == Some((before, after))
  {
    var s := before + [c] + after;
    assert s[|before|] == c;
    assert forall j :: 0 <= j < |before| ==> s[j] == before[j] && s[j] != c;
    var i := IndexOf(s, c);
    assert i == |before|;
    assert s[..i] == before;
    assert s[i + 1..] == after;
  }

  // ---------------------------------------------------------------------------
  // Whitespace

  /**
    `char::is_whitespace`, the Unicode White_Space property that `trim` and
    `split_whitespace` strip: tab to carriage return, space, next line,
    no-break space, ogham space mark, the spaces U+2000 to U+200A, the line
    and paragraph separators, narrow no-break space, medium mathematical
    space and ideographic space.
  */
  predicate IsWhitespace(c: char)
  {
    var n := c as int;
    || n == 0x20 || (0x09 <= n <= 0x0D) || n == 0x85 || n == 0xA0 || n == 0x1680
    || (0x2000 <= n <= 0x200A) || n == 0x2028 || n == 0x2029 || n == 0x202F || n == 0x205F || n == 0x3000
  }

  /** A non-empty word without whitespace, as `split_whitespace` yields them. */
  predicate IsToken(w: string)
  {
    |w| > 0 && forall j :: 0 <= j < |w| ==> !IsWhitespace(w[j])
  }

  /** `s.trim_start()`: drops the leading whitespace. */
  function TrimStart(s: string): (r: string)
    ensures |r| <= |s| && r == s[|s| - |r|..]
    ensures forall i :: 0 <= i < |s| - |r| ==> IsWhitespace(s[i])
    ensures |r| > 0 ==> !IsWhitespace(r[0])
  {
    if |s| > 0 && IsWhitespace(s[0]) then TrimStart(s[1..]) else s
  }

  /** `s.trim_end()`: drops the trailing whitespace. */
  function TrimEnd(s: string): (r: string)
    ensures |r| <= |s| && r == s[..|r|]
    ensures forall i :: |r| <= i < |s| ==> IsWhitespace(s[i])
    ensures |r| > 0 ==> !IsWhitespace(r[|r| - 1])
  {
    if |s| > 0 && IsWhitespace(s[|s| - 1]) then TrimEnd(s[..|s| - 1]) else s
  }

  /** `r` is `s` cut at `i` and `i + |r|`, with only whitespace cut away. */
  ghost predicate TrimmedAt(s: string, r: string, i: int)
  {
    0 <= i <= |s| - |r| && s[i..i + |r|] == r
    && (forall j :: 0 <= j < i ==> IsWhitespace(s[j]))
    && (forall j :: i + |r| <= j < |s| ==> IsWhitespace(s[j]))
  }

  /** `s.trim()`: drops whitespace at both ends. */
  function Trim(s: string): (r: string)
    ensures |r| > 0 ==> !IsWhitespace(r[0]) && !IsWhitespace(r[|r| - 1])
    ensures exists i :: TrimmedAt(s, r, i)
  {
    var t := TrimStart(s);
    var r := TrimEnd(t);
    assert TrimmedAt(s, r, |s| - |t|) by {
      assert s[|s| - |t|..][..|r|] == s[|s| - |t|..|s| - |t| + |r|];
      forall j | |s| - |t| + |r| <= j < |s| ensures IsWhitespace(s[j]) {
        assert s[j] == t[j - (|s| - |t|)];
      }
    }
    r
  }

  /** Text with no whitespace at either end is its own trim. */
  lemma TrimOfTrimmed(s: string)
    requires |s| > 0 ==> !IsWhitespace(s[0]) && !IsWhitespace(s[|s| - 1])
    ensures Trim(s) == s
  {
    assert TrimStart(s) == s;
    assert TrimEnd(s) == s;
  }

  /** Trimming adds no character. */
  lemma TrimKeepsOut(s: string, c: char)
    requires c !in s
    ensures c !in Trim(s)
  {
    var r := Trim(s);
    var i :| TrimmedAt(s, r, i);
    forall j | 0 <= j < |r|
      ensures r[j] != c
    {
      assert r[j] == s[i..i + |r|][j] == s[i + j];
    }
  }

  /** Leading whitespace does not survive a trim. */
  lemma TrimLeadingSpace(s: string)
    ensures Trim(" " + s) == Trim(s)
  {
    TrimLeadingWhitespace(' ', s);
  }

  /** Any leading whitespace character, not only ASCII space, is trimmed away. */
  lemma TrimLeadingWhitespace(c: char, s: string)
    requires IsWhitespace(c)
    ensures Trim([c] + s) == Trim(s)
  {
    assert ([c] + s)[1..] == s;
    assert TrimStart([c] + s) == TrimStart(s);
  }

  /** Index of the first whitespace character, or `|s|`. */
  function WhitespaceIndex(s: string): (i: nat)
    ensures i <= |s|
    ensures i < |s| ==> IsWhitespace(s[i])
    ensures forall j :: 0 <= j < i ==> !IsWhitespace(s[j])
  {
    if |s| == 0 then 0
    else if IsWhitespace(s[0]) then 0
    else 1 + WhitespaceIndex(s[1..])
  }

  /** `s.split_whitespace()`: the maximal runs of non-whitespace, in order. */
  function SplitWhitespace(s: string): seq<string>
    decreases |s|
  {
    var t := TrimStart(s);
    if |t| == 0 then []
    else
      var n := WhitespaceIndex(t);
      assert n > 0 by {
        assert !IsWhitespace(t[0]);
      }
      [t[..n]] + SplitWhitespace(t[n..])
  }

  /** The run before the first whitespace of text that starts with a non-whitespace character is a token. */
  lemma LeadingToken(t: string)
    requires |t| > 0 && !IsWhitespace(t[0])
    ensures WhitespaceIndex(t) > 0 && IsToken(t[..WhitespaceIndex(t)])
  {
    var n := WhitespaceIndex(t);
    var token := t[..n];
    assert forall j :: 0 <= j < n ==> token[j] == t[j];
  }

  /** Every piece `split_whitespace` yields is a token. */
  lemma {:induction false} SplitWhitespaceTokens(s: string)
    ensures forall w :: w in SplitWhitespace(s) ==> IsToken(w)
    decreases |s|
  {
    var t := TrimStart(s);
    if |t| > 0 {
      LeadingToken(t);
      var n := WhitespaceIndex(t);
      var rest := SplitWhitespace(t[n..]);
      SplitWhitespaceTokens(t[n..]);
      assert SplitWhitespace(s) == [t[..n]] + rest;
    }
  }

  lemma SplitWhitespaceSkipsSpace(s: string)
    ensures SplitWhitespace(" " + s) == SplitWhitespace(s)
  {
    assert (" " + s)[1..] == s;
    assert TrimStart(" " + s) == TrimStart(s);
  }

  /** A token followed by a space and more text splits off as the first token. */
  lemma SplitWhitespaceToken(w: string, rest: string)
    requires IsToken(w)
    ensures SplitWhitespace(w + rest) == [w] + SplitWhitespace(rest)
    requires rest == "" || rest[0] == ' '
  {
    var s := w + rest;
    assert s[0] == w[0];
    assert TrimStart(s) == s;
    var n := WhitespaceIndex(s);
    assert forall j :: 0 <= j < |w| ==> s[j] == w[j];
    assert |w| < |s| ==> s[|w|] == ' ';
    assert n == |w|;
    assert s[..n] == w;
    assert s[n..] == rest;
  }

  /** Two pieces joined by `sep`. */
  lemma JoinTwo(a: string, b: string, sep: string)
    ensures Join([a, b], sep) == a + sep + b
  {
    assert [a, b][1..] == [b];
  }

  /** Three pieces joined by `sep`. */
  lemma JoinThree(a: string, b: string, c: string, sep: string)
    ensures Join([a, b, c], sep) == a + sep + b + sep + c
  {
    assert [a, b, c][1..] == [b, c];
    JoinTwo(b, c, sep);
  }

  /** Splitting tokens joined by single spaces gives back the tokens. */
  lemma {:induction false} SplitWhitespaceJoin(tokens: seq<string>)
    requires forall w :: w in tokens ==> IsToken(w)
    ensures SplitWhitespace(Join(tokens, " ")) == tokens
  {
    if |tokens| == 0 {
    } else if |tokens| == 1 {
      SplitWhitespaceSingle(tokens[0]);
    } else {
      var rest := tokens[1..];
      assert Join(tokens, " ") == tokens[0] + " " + Join(rest, " ");
      SplitWhitespaceCons(tokens[0], Join(rest, " "));
      SplitWhitespaceJoin(rest);
      assert tokens == [tokens[0]] + rest;
    }
  }

  lemma SplitWhitespaceSingle(w: string)
    requires IsToken(w)
    ensures SplitWhitespace(w) == [w]
  {
    assert TrimStart(w) == w;
    var n := WhitespaceIndex(w);
    assert n == |w|;
    assert w[..n] == w;
    assert w[n..] == "";
    assert SplitWhitespace("") == [];
  }

  lemma SplitWhitespaceCons(w: string, j: string)
    requires IsToken(w)
    ensures SplitWhitespace(w + " " + j) == [w] + SplitWhitespace(j)
  {
    assert w + " " + j == w + (" " + j);
    SplitWhitespaceToken(w, " " + j);
    SplitWhitespaceSkipsSpace(j);
  }

  // ---------------------------------------------------------------------------
  // Prefixes

  /** `s.trim_start_matches(c)`: drops every leading `c`. */
  function TrimStartMatches(s: string, c: char): (r: string)
    ensures |r| <= |s| && r == s[|s| - |r|..]
    ensures forall i :: 0 <= i < |s| - |r| ==> s[i] == c
    ensures |r| > 0 ==> r[0] != c
  {
    if |s| > 0 && s[0] == c then TrimStartMatches(s[1..], c) else s
  }

  predicate IsPrefix(p: string, s: string)
  {
    |p| <= |s| && s[..|p|] == p
  }

  /** `needle` occurs somewhere in `s`, as Rust's `contains`. */
  predicate IsInfix(needle: string, s: string)
    decreases |s|
  {
    IsPrefix(needle, s) || (|s| > 0 && IsInfix(needle, s[1..]))
  }

  lemma {:induction false} InfixOfConcat(a: string, needle: string, b: string)
    ensures IsInfix(needle, a + needle + b)
    decreases |a|
  {
    var s := a + needle + b;
    if |a| == 0 {
      assert s[..|needle|] == needle;
    } else {
      assert s[1..] == a[1..] + needle + b;
      InfixOfConcat(a[1..], needle, b);
    }
  }

  // ---------------------------------------------------------------------------
  // ASCII case

  function LowerChar(c: char): char
  {
    if 'A' <= c <= 'Z' then (c as int + 32) as char else c
  }

  function UpperChar(c: char): char
  {
    if 'a' <= c <= 'z' then (c as int - 32) as char else c
  }

  predicate IsLowerLetter(c: char)
  {
    'a' <= c <= 'z'
  }

  predicate IsUpperLetter(c: char)
  {
    'A' <= c <= 'Z'
  }

  /** `s.to_ascii_lowercase()`. */
  function ToLowerAscii(s: string): (r: string)
    ensures |r| == |s|
    ensures forall i :: 0 <= i < |s| ==> r[i] == LowerChar(s[i])
  {
    seq(|s|, i requires 0 <= i < |s| => LowerChar(s[i]))
  }

  /** Upper-casing of the ASCII letters, the ASCII part of `to_uppercase`. */
  function ToUpperAscii(s: string): (r: string)
    ensures |r| == |s|
    ensures forall i :: 0 <= i < |s| ==> r[i] == UpperChar(s[i])
  {
    seq(|s|, i requires 0 <= i < |s| => UpperChar(s[i]))
  }

  /** `a.eq_ignore_ascii_case(b)`. */
  predicate EqualsIgnoreAsciiCase(a: string, b: string)
  {
    ToLowerAscii(a) == ToLowerAscii(b)
  }

  /** Lower-casing keeps whitespace where it is and leaves no upper-case letter. */
  lemma LowerAsciiFacts(s: string)
    ensures forall i :: 0 <= i < |s| ==> !IsUpperLetter(ToLowerAscii(s)[i])
    ensures forall i :: 0 <= i < |s| ==> (IsWhitespace(ToLowerAscii(s)[i]) <==> IsWhitespace(s[i]))
  {
  }

  /** Lower-casing introduces no character other than a lower-case letter. */
  lemma LowerKeepsOut(s: string, c: char)
    requires c !in s && !('a' <= c <= 'z')
    ensures c !in ToLowerAscii(s)
  {
    var r := ToLowerAscii(s);
    forall i | 0 <= i < |r|
      ensures r[i] != c
    {
      assert s[i] != c;
    }
  }

  /** Lower-casing twice is lower-casing once. */
  lemma LowerAsciiIdempotent(s: string)
    ensures ToLowerAscii(ToLowerAscii(s)) == ToLowerAscii(s)
  {
  }

  /** Upper-cased text holds no lower-case ASCII letter. */
  lemma UpperAsciiHasNoLower(s: string)
    ensures forall i :: 0 <= i < |s| ==> !IsLowerLetter(ToUpperAscii(s)[i])
  {
  }
}
