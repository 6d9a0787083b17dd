/**
 * The JavaScript string primitives the parser relies on, over `seq<char>`:
 * digit tests and `Number()` on digit strings, `startsWith`, `includes`,
 * ASCII `toUpperCase`, `trim`, `replace(str, '')` and `split(/\r?\n/)`.
 */
module Text {

  predicate IsDigit(c: char) { '0' <= c <= '9' }

  predicate AllDigits(s: string) { forall i :: 0 <= i < |s| ==> IsDigit(s[i]) }

  /** `Number(s)` for a string of decimal digits. */
  function DigitsValue(s: string): nat
  {
    if s == [] then 0
    else DigitsValue(s[..|s| - 1]) * 10 + (if IsDigit(s[|s| - 1]) then s[|s| - 1] as int - '0' as int else 0)
  }

  predicate StartsWith(s: string, prefix: string) {
    |prefix| <= |s| && s[..|prefix|] == prefix
  }

  predicate OccursAt(s: string, t: string, i: int) {
    0 <= i && i + |t| <= |s| && s[i..i + |t|] == t
  }

  /** `s.includes(t)`. */
  predicate Contains(s: string, t: string) {
    exists i :: 0 <= i <= |s| && OccursAt(s, t, i)
  }

  /** `toUpperCase` restricted to ASCII letters. */
  function UpperChar(c: char): char {
    if 'a' <= c <= 'z' then (c as int - 32) as char else c
  }

  function ToUpper(s: string): (r: string)
    ensures |r| == |s|
    ensures forall i :: 0 <= i < |s| ==> r[i] == UpperChar(s[i])
  {
    seq(|s|, i requires 0 <= i < |s| => UpperChar(s[i]))
  }

  /**
   * What upper-casing does to each character: the result keeps the length,
   * holds no lower-case ASCII letter, changes a character exactly when it is
   * one, and turns it into the same letter of the alphabet in upper case.
   */
  lemma ToUpperMeaning(s: string)
    ensures |ToUpper(s)| == |s|
    ensures forall i :: 0 <= i < |s| ==> !('a' <= ToUpper(s)[i] <= 'z')
    ensures forall i :: 0 <= i < |s| ==> (ToUpper(s)[i] != s[i] <==> 'a' <= s[i] <= 'z')
    ensures forall i :: 0 <= i < |s| && 'a' <= s[i] <= 'z' ==>
      'A' <= ToUpper(s)[i] <= 'Z' && ToUpper(s)[i] as int - 'A' as int == s[i] as int - 'a' as int
  {
  }

  /** Upper-casing an upper-cased line changes nothing. */
  lemma ToUpperIdempotent(s: string)
    ensures ToUpper(ToUpper(s)) == ToUpper(s)
  {
  }

  /** Upper-casing commutes with taking a slice. */
  lemma ToUpperSlice(s: string, i: int, j: int)
    requires 0 <= i <= j <= |s|
    ensures ToUpper(s)[i..j] == ToUpper(s[i..j])
  {
  }

  /** An occurrence of `t` in `s` is an occurrence of upper-cased `t` in upper-cased `s`. */
  lemma ContainsUpper(s: string, t: string)
    requires Contains(s, t)
    ensures Contains(ToUpper(s), ToUpper(t))
  {
    var i :| 0 <= i <= |s| && OccursAt(s, t, i);
    assert i + |t| <= |s|;
    ToUpperSlice(s, i, i + |t|);
    assert OccursAt(ToUpper(s), ToUpper(t), i);
  }

  /**
   * The characters `trim` removes: ECMAScript WhiteSpace (TAB, VT, FF, SP,
   * NBSP, ZWNBSP and the Unicode category Zs) and LineTerminator (LF, CR,
   * LS, PS).
   */
  predicate IsWhitespace(c: char) {
    c == '\t' || c == '\n' || c == '\U{000B}' || c == '\U{000C}' || c == '\r' || c == ' '
    || c == '\U{00A0}' || c == '\U{1680}' || ('\U{2000}' <= c <= '\U{200A}')
    || c == '\U{2028}' || c == '\U{2029}' || c == '\U{202F}' || c == '\U{205F}'
    || c == '\U{3000}' || c == '\U{FEFF}'
  }

  /** The line terminators that end a line for a `^` anchor under the `m` flag. */
  predicate IsLineTerminator(c: char) {
    c == '\n' || c == '\r' || c == '\U{2028}' || c == '\U{2029}'
  }

  predicate AllWhitespace(s: string) { forall i :: 0 <= i < |s| ==> IsWhitespace(s[i]) }

  /** Every character of `s` from index `lo` up to `hi` is whitespace. */
  predicate SpaceBetween(s: string, lo: int, hi: int)
    requires 0 <= lo <= hi <= |s|
  {
    forall m :: lo <= m < hi ==> IsWhitespace(s[m])
  }

  /** The number of whitespace characters `s` starts with. */
  function LeadingSpace(s: string): (k: nat)
    ensures k <= |s| && SpaceBetween(s, 0, k) && (k == |s| || !IsWhitespace(s[k]))
  {
    if s != [] && IsWhitespace(s[0]) then
      var k := LeadingSpace(s[1..]);
      assert forall m :: 1 <= m < |s| ==> s[m] == s[1..][m - 1];
      1 + k
    else
      0
  }

  /** The number of whitespace characters `s` ends with. */
  function TrailingSpace(s: string): (k: nat)
    ensures k <= |s| && SpaceBetween(s, |s| - k, |s|) && (k == |s| || !IsWhitespace(s[|s| - k - 1]))
  {
    if s != [] && IsWhitespace(s[|s| - 1]) then
      var t := s[..|s| - 1];
      var k := TrailingSpace(t);
      assert forall m :: 0 <= m < |t| ==> s[m] == t[m];
      1 + k
    else
      0
  }

  /**
   * `s.trim()`: the infix of `s` left after removing whitespace at both ends;
   * it is empty exactly when `s` is all whitespace.
   */
  function Trim(s: string): (r: string)
    ensures r == [] || (!IsWhitespace(r[0]) && !IsWhitespace(r[|r| - 1]))
    ensures var i := LeadingSpace(s);
      && i + |r| <= |s| && r == s[i..i + |r|]
      && SpaceBetween(s, 0, i) && SpaceBetween(s, i + |r|, |s|)
    ensures r == [] <==> AllWhitespace(s)
  {
    var i := LeadingSpace(s);
    var t := s[i..];
    var j := |t| - TrailingSpace(t);
    var r := t[..j];
    InfixSpace(s, i, t, j, r);
    TrimEmpty(s, i, t, j, r);
    r
  }

  lemma InfixSpace(s: string, i: nat, t: string, j: nat, r: string)
    requires i <= |s| && t == s[i..] && j <= |t| && r == t[..j] && SpaceBetween(t, j, |t|)
    ensures i + j <= |s| && r == s[i..i + j] && SpaceBetween(s, i + j, |s|)
  {
    forall m | i + j <= m < |s| ensures IsWhitespace(s[m]) {
      assert s[m] == t[m - i];
    }
  }

  lemma TrimEmpty(s: string, i: nat, t: string, j: nat, r: string)
    requires i <= |s| && SpaceBetween(s, 0, i) && (i == |s| || !IsWhitespace(s[i]))
    requires t == s[i..] && j <= |t| && r == t[..j] && SpaceBetween(t, j, |t|)
    ensures r == [] <==> AllWhitespace(s)
  {
    if r == [] {
      if t != [] {
        assert false;
      }
      assert i == |s|;
    } else {
      assert s[i] == t[0];
    }
  }

  /** `s.replace(t, '')` for a string `t`: removes the first occurrence of `t`, if any. */
  function RemoveFirst(s: string, t: string): string
    decreases |s|
  {
    if StartsWith(s, t) then s[|t|..]
    else if s == [] then s
    else [s[0]] + RemoveFirst(s[1..], t)
  }

  /** When `t` is a prefix of `s`, removing its first occurrence removes that prefix. */
  lemma RemoveFirstPrefix(s: string, t: string)
    requires StartsWith(s, t)
    ensures RemoveFirst(s, t) == s[|t|..]
  {
  }

  function CountChar(s: string, c: char): nat
  {
    if s == [] then 0 else (if s[0] == c then 1 else 0) + CountChar(s[1..], c)
  }

  /**
   * `s.split(/\r?\n/)`: the pieces between line feeds, each losing the
   * carriage return that immediately precedes its line feed.
   */
  function SplitLines(s: string): (lines: seq<string>)
    ensures |lines| == CountChar(s, '\n') + 1
    ensures forall k :: 0 <= k < |lines| ==> '\n' !in lines[k]
  {
    if s == [] then [""]
    else if |s| >= 2 && s[0] == '\r' && s[1] == '\n' then
      assert CountChar(s, '\n') == CountChar(s[2..], '\n') + 1 by { assert s[1..][1..] == s[2..]; }
      [""] + SplitLines(s[2..])
    else if s[0] == '\n' then [""] + SplitLines(s[1..])
    else
      var rest := SplitLines(s[1..]);
      [[s[0]] + rest[0]] + rest[1..]
  }

  /** The lines joined back with line feeds. */
  function JoinLines(lines: seq<string>): string
  {
    if lines == [] then "" else if |lines| == 1 then lines[0] else lines[0] + "\n" + JoinLines(lines[1..])
  }

  /** `s` with every CR LF pair replaced by a single LF. */
  function NormalizeCrLf(s: string): string
  {
    if s == [] then ""
    else if |s| >= 2 && s[0] == '\r' && s[1] == '\n' then "\n" + NormalizeCrLf(s[2..])
    else [s[0]] + NormalizeCrLf(s[1..])
  }

  /** Splitting loses exactly the carriage returns of CR LF line ends. */
  lemma {:induction false} JoinSplitLines(s: string)
    ensures JoinLines(SplitLines(s)) == NormalizeCrLf(s)
    decreases |s|
  {
    if s == [] {
    } else if |s| >= 2 && s[0] == '\r' && s[1] == '\n' {
      JoinSplitLines(s[2..]);
      var rest := SplitLines(s[2..]);
      assert SplitLines(s) == [""] + rest;
      assert ([""] + rest)[1..] == rest;
    } else if s[0] == '\n' {
      JoinSplitLines(s[1..]);
      var rest := SplitLines(s[1..]);
      assert ([""] + rest)[1..] == rest;
    } else {
      JoinSplitLines(s[1..]);
      var rest := SplitLines(s[1..]);
      var lines := [[s[0]] + rest[0]] + rest[1..];
      assert SplitLines(s) == lines;
      if |rest| == 1 {
        assert JoinLines(lines) == [s[0]] + rest[0];
      } else {
        assert lines[1..] == rest[1..];
        assert JoinLines(rest) == rest[0] + "\n" + JoinLines(rest[1..]);
        assert JoinLines(lines) == ([s[0]] + rest[0]) + "\n" + JoinLines(rest[1..]);
      }
    }
  }
}
