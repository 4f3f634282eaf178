/** JavaScript string whitespace: the characters both the regular-expression
    class `\s` and `String.prototype.trim` treat as white space (the
    ECMAScript WhiteSpace and LineTerminator productions). */
module JsText {

  /** The fixed whitespace set: tab, line feed, vertical tab, form feed,
      carriage return, space, no-break space, ogham space mark, the spaces
      U+2000 to U+200A, line and paragraph separators, narrow no-break
      space, medium mathematical space, ideographic space and the byte
      order mark. */
  predicate IsWhitespace(c: char)
  {
    var n := c as int;
    (0x09 <= n <= 0x0D) || n == 0x20 || n == 0xA0 || n == 0x1680 ||
    (0x2000 <= n <= 0x200A) || n == 0x2028 || n == 0x2029 || n == 0x202F ||
    n == 0x205F || n == 0x3000 || n == 0xFEFF
  }

  predicate AllWhitespace(s: string)
  {
    forall k :: 0 <= k < |s| ==> IsWhitespace(s[k])
  }

  predicate NoWhitespace(s: string)
  {
    forall k :: 0 <= k < |s| ==> !IsWhitespace(s[k])
  }

  /** Length of the leading whitespace run. */
  function LeadingWhitespace(s: string): (n: nat)
    ensures n <= |s|
    ensures forall k :: 0 <= k < n ==> IsWhitespace(s[k])
    ensures n < |s| ==> !IsWhitespace(s[n])
  {
    if |s| == 0 || !IsWhitespace(s[0]) then 0 else 1 + LeadingWhitespace(s[1..])
  }

  /** Length of the trailing whitespace run. */
  function TrailingWhitespace(s: string): (n: nat)
    ensures n <= |s|
    ensures forall k :: |s| - n <= k < |s| ==> IsWhitespace(s[k])
    ensures n < |s| ==> !IsWhitespace(s[|s| - n - 1])
  {
    if |s| == 0 || !IsWhitespace(s[|s| - 1]) then 0
    else 1 + TrailingWhitespace(s[..|s| - 1])
  }

  /** `String.prototype.trim`: the longest factor of `s` that neither starts
      nor ends with whitespace, obtained by cutting whitespace runs off both
      ends; empty exactly when `s` is all whitespace. */
  function Trim(s: string): (r: string)
    ensures LeadingWhitespace(s) + |r| <= |s|
    ensures r == s[LeadingWhitespace(s)..LeadingWhitespace(s) + |r|]
    ensures AllWhitespace(s[LeadingWhitespace(s) + |r|..])
    ensures |r| > 0 ==> !IsWhitespace(r[0]) && !IsWhitespace(r[|r| - 1])
    ensures |r| == 0 <==> AllWhitespace(s)
  {
    var a := LeadingWhitespace(s);
    if a == |s| then []
    else
      var b := |s| - TrailingWhitespace(s);
      s[a..b]
  }

  /** A string without whitespace is its own trim. */
  lemma TrimNoWhitespace(s: string)
    requires NoWhitespace(s)
    ensures Trim(s) == s
  {
  }

  /** Trimming twice is trimming once. */
  lemma TrimIdempotent(s: string)
    ensures Trim(Trim(s)) == Trim(s)
  {
  }
}
