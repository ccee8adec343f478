/** String helpers the routine page relies on: the whitespace-stripping
    `String.prototype.trim` of JavaScript, written out as pure functions. */
module Text {

  /** The characters ECMAScript's `trim` removes: the WhiteSpace production
      (tab, vertical tab, form feed, space, no-break space, byte order mark
      and the Unicode space separators) and the LineTerminator production
      (line feed, carriage return, line and paragraph separators). */
  predicate IsWhitespace(c: char) {
    || c == '\t' || c == '\n' || c == '\U{000B}' || c == '\U{000C}' || c == '\r'
    || c == ' ' || c == '\U{00A0}' || c == '\U{1680}'
    || ('\U{2000}' <= c <= '\U{200A}')
    || c == '\U{2028}' || c == '\U{2029}' || c == '\U{202F}' || c == '\U{205F}'
    || c == '\U{3000}' || c == '\U{FEFF}'
  }

  predicate AllWhitespace(s: string) {
    forall k :: 0 <= k < |s| ==> IsWhitespace(s[k])
  }

  /** A string as `trim` leaves it: empty, or starting and ending with a
      character that is not whitespace. */
  predicate IsTrimmed(s: string) {
    s == [] || (!IsWhitespace(s[0]) && !IsWhitespace(s[|s| - 1]))
  }

  /** The number of whitespace characters at the front of `s`. */
  function LeadingWhitespace(s: string): (n: nat)
    ensures n <= |s|
    ensures AllWhitespace(s[..n])
    ensures n == |s| || !IsWhitespace(s[n])
  {
    if s == [] || !IsWhitespace(s[0]) then 0 else 1 + LeadingWhitespace(s[1..])
  }

  /** The number of whitespace characters at the back of `s`. */
  function TrailingWhitespace(s: string): (n: nat)
    ensures n <= |s|
    ensures AllWhitespace(s[|s| - n..])
    ensures n == |s| || !IsWhitespace(s[|s| - n - 1])
  {
    if s == [] || !IsWhitespace(s[|s| - 1]) then 0
    else 1 + TrailingWhitespace(s[..|s| - 1])
  }

  /** `s.trim()`: `s` without its leading and trailing whitespace. The result
      is the slice of `s` between two all-whitespace margins and neither
      starts nor ends with whitespace. */
  function Trim(s: string): (r: string)
    ensures LeadingWhitespace(s) + |r| <= |s|
    ensures r == s[LeadingWhitespace(s)..LeadingWhitespace(s) + |r|]
    ensures AllWhitespace(s[LeadingWhitespace(s) + |r|..])
    ensures IsTrimmed(r)
  {
    var lo := LeadingWhitespace(s);
    var front := s[lo..];
    var n := TrailingWhitespace(front);
    var r := front[..|front| - n];
    assert front[|front| - n..] == s[lo + |r|..];
    assert r == s[lo..lo + |r|];
    assert r != [] ==> r[0] == s[lo] && r[|r| - 1] == front[|front| - n - 1];
    r
  }

  /** `trim` yields the empty string exactly when every character is
      whitespace. */
  lemma TrimEmptyIff(s: string)
    ensures Trim(s) == [] <==> AllWhitespace(s)
  {
    var lo := LeadingWhitespace(s);
    if Trim(s) == [] {
      assert s[..lo] == s;
    } else {
      assert !IsWhitespace(s[lo]);
    }
  }

  /** A trimmed string is its own trim. */
  lemma {:induction false} TrimOfTrimmed(s: string)
    requires IsTrimmed(s)
    ensures Trim(s) == s
  {
    if s != [] {
      assert LeadingWhitespace(s) == 0;
      assert TrailingWhitespace(s) == 0;
    }
  }

  /** Trimming twice is trimming once. */
  lemma {:induction false} TrimIdempotent(s: string)
    ensures Trim(Trim(s)) == Trim(s)
  {
    TrimOfTrimmed(Trim(s));
  }
}
