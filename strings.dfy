/**
 * The few string operations the scripts rely on: `str.split(sep)` (Python) and
 * `String.split(sep)` (JavaScript) with a one-character separator, `str.strip()`,
 * `String.includes` and the decimal rendering of a number.
 */
module Strings {

  /** Python's str.isspace() for one character (the characters str.strip() removes). */
  predicate IsWhitespace(c: char)
  {
    ('\t' <= c <= '\r') || ('\U{1C}' <= c <= '\U{1F}') || c == ' '
    || c == '\U{85}' || c == '\U{A0}' || c == '\U{1680}'
    || ('\U{2000}' <= c <= '\U{200A}') || c == '\U{2028}' || c == '\U{2029}'
    || c == '\U{202F}' || c == '\U{205F}' || c == '\U{3000}'
  }

  /** Position of the first occurrence of `c` in `s`. */
  function IndexOf(s: string, c: char): (i: nat)
    requires c in s
    ensures i < |s| && s[i] == c
    ensures forall k :: 0 <= k < i ==> s[k] != c
  {
    if s[0] == c then 0 else
      assert c in s[1..] by { var k :| 0 <= k < |s| && s[k] == c; assert s[1..][k - 1] == c; }
      var j := IndexOf(s[1..], c);
      assert forall k :: 0 < k <= j ==> s[k] == s[1..][k - 1];
      j + 1
  }

  /** The pieces of `s` between the occurrences of `sep`, as `s.split(sep)` gives them. */
  function Split(s: string, sep: char): (pieces: seq<string>)
    ensures |pieces| >= 1
    ensures forall k :: 0 <= k < |pieces| ==> sep !in pieces[k]
    decreases |s|
  {
    if sep !in s then [s]
    else
      var i := IndexOf(s, sep);
      [s[..i]] + Split(s[i + 1..], sep)
  }

  /** `sep.join(pieces)`. */
  function Join(pieces: seq<string>, sep: char): string
    requires |pieces| >= 1
  {
    if |pieces| == 1 then pieces[0] else pieces[0] + [sep] + Join(pieces[1..], sep)
  }

  /** Splitting loses nothing: joining the pieces back gives the original string. */
  lemma {:induction false} JoinSplit(s: string, sep: char)
    ensures Join(Split(s, sep), sep) == s
    decreases |s|
  {
    if sep in s {
      var i := IndexOf(s, sep);
      var rest := s[i + 1..];
      JoinSplit(rest, sep);
      var pieces := Split(rest, sep);
      var whole := Split(s, sep);
      assert whole == [s[..i]] + pieces;
      assert whole[1..] == pieces;
      assert Join(whole, sep) == s[..i] + [sep] + Join(pieces, sep);
      assert s == s[..i] + [sep] + rest;
    }
  }

  /** A string with one separator splits into the text before it and the text after it. */
  lemma SplitOnce(s: string, sep: char, i: nat)
    requires i < |s| && s[i] == sep && sep !in s[..i] && sep !in s[i + 1..]
    ensures Split(s, sep) == [s[..i], s[i + 1..]]
  {
    assert IndexOf(s, sep) == i;
  }

  /** The first piece is everything before the first separator. */
  lemma FirstPiece(s: string, sep: char)
    ensures sep !in s ==> Split(s, sep)[0] == s
    ensures sep in s ==> Split(s, sep)[0] == s[..IndexOf(s, sep)]
  {
  }

  /** `s.split(sep)[-1]`: the text after the last separator, all of `s` when it has none. */
  function LastPieceOf(s: string, sep: char): string
  {
    if s == [] || s[|s| - 1] == sep then [] else LastPieceOf(s[..|s| - 1], sep) + [s[|s| - 1]]
  }

  /**
   * The last piece is a suffix of `s` that holds no separator and is either
   * all of `s` or follows a separator.
   */
  lemma {:induction false} LastPiece(s: string, sep: char)
    ensures |LastPieceOf(s, sep)| <= |s| && LastPieceOf(s, sep) == s[|s| - |LastPieceOf(s, sep)|..]
    ensures forall k :: 0 <= k < |LastPieceOf(s, sep)| ==> LastPieceOf(s, sep)[k] != sep
    ensures |LastPieceOf(s, sep)| < |s| ==> s[|s| - |LastPieceOf(s, sep)| - 1] == sep
  {
    if s != [] && s[|s| - 1] != sep {
      var init := s[..|s| - 1];
      LastPiece(init, sep);
      var r := LastPieceOf(init, sep);
      var last := r + [s[|s| - 1]];
      assert LastPieceOf(s, sep) == last;
      forall k | 0 <= k < |last|
        ensures last[k] == s[|s| - |last| + k]
      {
        if k < |r| {
          assert r[k] == init[|init| - |r| + k];
        }
      }
      assert last == s[|s| - |last|..];
      if |last| < |s| {
        assert s[|s| - |last| - 1] == init[|init| - |r| - 1];
      }
    }
  }

  /** `s.lstrip()`. */
  function TrimStart(s: string): (r: string)
    ensures |r| <= |s| && r == s[|s| - |r|..]
    ensures forall k :: 0 <= k < |s| - |r| ==> IsWhitespace(s[k])
    ensures r == [] || !IsWhitespace(r[0])
  {
    if s == [] || !IsWhitespace(s[0]) then s else TrimStart(s[1..])
  }

  /** `s.rstrip()`. */
  function TrimEnd(s: string): (r: string)
    ensures |r| <= |s| && r == s[..|r|]
    ensures forall k :: |r| <= k < |s| ==> IsWhitespace(s[k])
    ensures r == [] || !IsWhitespace(r[|r| - 1])
  {
    if s == [] || !IsWhitespace(s[|s| - 1]) then s else TrimEnd(s[..|s| - 1])
  }

  /** `s.strip()`: the middle of `s` once leading and trailing whitespace are cut off. */
  function Strip(s: string): (r: string)
    ensures r == [] || (!IsWhitespace(r[0]) && !IsWhitespace(r[|r| - 1]))
  {
    TrimEnd(TrimStart(s))
  }

  /** Strip keeps a middle part of `s`; what it cuts off on either side is whitespace. */
  lemma StripBounds(s: string) returns (i: nat, j: nat)
    ensures i <= j <= |s| && Strip(s) == s[i..j]
    ensures forall k :: 0 <= k < i ==> IsWhitespace(s[k])
    ensures forall k :: j <= k < |s| ==> IsWhitespace(s[k])
  {
    var t := TrimStart(s);
    var r := TrimEnd(t);
    assert r == Strip(s);
    i, j := |s| - |t|, |s| - |t| + |r|;
    assert t == s[i..];
    forall k | 0 <= k < |r|
      ensures r[k] == s[i..j][k]
    {
      assert r[k] == t[k] == s[i + k];
    }
    forall k | j <= k < |s|
      ensures IsWhitespace(s[k])
    {
      assert s[k] == t[k - i];
    }
  }

  /** Stripping a string that has no whitespace at either end changes nothing. */
  lemma StripTrimmed(s: string)
    requires s == [] || (!IsWhitespace(s[0]) && !IsWhitespace(s[|s| - 1]))
    ensures Strip(s) == s
  {
  }

  /** Every character of Strip(s) is a character of s. */
  lemma StripChars(s: string, c: char)
    requires c in Strip(s)
    ensures c in s
  {
    var t := TrimStart(s);
    var r := TrimEnd(t);
    assert r == Strip(s);
    var k :| 0 <= k < |r| && r[k] == c;
    assert r[k] == t[k];
    assert t[k] == s[|s| - |t| + k];
  }

  /** `s.includes(sub)`: `sub` occurs at some position of `s`. */
  predicate OccursAt(s: string, sub: string, i: nat)
  {
    i + |sub| <= |s| && s[i..i + |sub|] == sub
  }

  function Contains(s: string, sub: string): bool
    decreases |s|
  {
    |sub| <= |s| && (s[..|sub|] == sub || Contains(s[1..], sub))
  }

  lemma {:induction false} ContainsOccurs(s: string, sub: string)
    ensures Contains(s, sub) <==> exists i: nat :: OccursAt(s, sub, i)
    decreases |s|
  {
    if exists i: nat :: OccursAt(s, sub, i) {
      var i: nat :| OccursAt(s, sub, i);
      if i > 0 {
        assert OccursAt(s[1..], sub, i - 1) by { assert s[1..][i - 1..i - 1 + |sub|] == s[i..i + |sub|]; }
        ContainsOccurs(s[1..], sub);
      }
    }
    if Contains(s, sub) {
      if s[..|sub|] == sub {
        assert OccursAt(s, sub, 0);
      } else {
        ContainsOccurs(s[1..], sub);
        var i: nat :| OccursAt(s[1..], sub, i);
        assert OccursAt(s, sub, i + 1) by { assert s[i + 1..i + 1 + |sub|] == s[1..][i..i + |sub|]; }
      }
    }
  }

  /** The decimal digit character of a value below ten. */
  function DigitChar(d: nat): (c: char)
    requires d < 10
    ensures '0' <= c <= '9'
  {
    (48 + d) as char
  }

  /** `n.toString()` for a natural number: its decimal digits, most significant first. */
  function NatToString(n: nat): (s: string)
    ensures |s| >= 1 && forall k :: 0 <= k < |s| ==> '0' <= s[k] <= '9'
    ensures |s| > 1 ==> s[0] != '0'
  {
    if n < 10 then [DigitChar(n)] else NatToString(n / 10) + [DigitChar(n % 10)]
  }

  /** The value a string of decimal digits stands for. */
  function DigitsValue(s: string): nat
    requires forall k :: 0 <= k < |s| ==> '0' <= s[k] <= '9'
  {
    if s == [] then 0 else 10 * DigitsValue(s[..|s| - 1]) + ((s[|s| - 1] as int) - 48)
  }

  /** Reading the rendered digits back gives the number: the rendering is injective. */
  lemma {:induction false} NatToStringRoundTrip(n: nat)
    ensures DigitsValue(NatToString(n)) == n
  {
    if n >= 10 {
      NatToStringRoundTrip(n / 10);
      var s := NatToString(n);
      assert s[..|s| - 1] == NatToString(n / 10);
    }
  }

  lemma NatToStringInjective(m: nat, n: nat)
    requires NatToString(m) == NatToString(n)
    ensures m == n
  {
    NatToStringRoundTrip(m);
    NatToStringRoundTrip(n);
  }

  /** `n.toString()` for an integer, with a leading '-' when negative. */
  function IntToString(n: int): (s: string)
    ensures n >= 0 ==> s == NatToString(n)
    ensures n < 0 ==> s == ['-'] + NatToString(-n)
  {
    if n >= 0 then NatToString(n) else ['-'] + NatToString(-n)
  }

  /** Distinct integers are rendered differently. */
  lemma IntToStringInjective(m: int, n: int)
    requires IntToString(m) == IntToString(n)
    ensures m == n
  {
    if m >= 0 && n >= 0 {
      NatToStringInjective(m, n);
    } else if m < 0 && n < 0 {
      assert NatToString(-m) == IntToString(m)[1..];
      NatToStringInjective(-m, -n);
    } else {
      assert false;
    }
  }
}
