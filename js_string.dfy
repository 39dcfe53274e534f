/**
  The two JavaScript string operations the dashboard relies on:
  `String.prototype.trim` (form validation) and `String.prototype.includes`
  (search). A Dafny `char` is a Unicode scalar value, so a string here is a
  sequence of code points where JavaScript holds UTF-16 code units; on
  well-formed text both operations agree.
 */
module JsString {

  /**
    The characters `trim` removes: the WhiteSpace and LineTerminator code
    points of ECMAScript (ECMA-262, sections 12.2 and 12.3), with the Unicode
    space separators (category Zs) written out.
   */
  predicate IsWhitespace(c: char)
  {
    || c == '\t' || c == '\n' || c == '\U{000B}' || c == '\U{000C}' || c == '\r'
    || c == ' ' || c == '\U{00A0}' || c == '\U{1680}'
    || ('\U{2000}' <= c <= '\U{200A}')
    || c == '\U{2028}' || c == '\U{2029}' || c == '\U{202F}' || c == '\U{205F}'
    || c == '\U{3000}' || c == '\U{FEFF}'
  }

  predicate AllWhitespace(s: string)
  {
    forall i :: 0 <= i < |s| ==> IsWhitespace(s[i])
  }

  /** The number of white-space characters at the start of `s`. */
  function LeadingWhitespace(s: string): (n: nat)
    ensures n <= |s|
    ensures forall i :: 0 <= i < n ==> IsWhitespace(s[i])
    ensures n < |s| ==> !IsWhitespace(s[n])
    decreases |s|
  {
    if s != [] && IsWhitespace(s[0]) then 1 + LeadingWhitespace(s[1..]) else 0
  }

  /** The number of white-space characters at the end of `s`. */
  function TrailingWhitespace(s: string): (n: nat)
    ensures n <= |s|
    ensures forall i :: |s| - n <= i < |s| ==> IsWhitespace(s[i])
    ensures n < |s| ==> !IsWhitespace(s[|s| - n - 1])
    decreases |s|
  {
    if s != [] && IsWhitespace(s[|s| - 1]) then 1 + TrailingWhitespace(s[..|s| - 1]) else 0
  }

  /**
    `s.trim()`: `s` without its leading and its trailing white space. The
    result is a piece of `s` with only white space before and after it; it
    neither starts nor ends with white space, and it is empty exactly when
    `s` is all white space.
   */
  function Trim(s: string): (r: string)
    ensures exists i :: OccursAt(s, r, i) && AllWhitespace(s[..i]) && AllWhitespace(s[i + |r|..])
    ensures r != [] ==> !IsWhitespace(r[0]) && !IsWhitespace(r[|r| - 1])
    ensures r == [] <==> AllWhitespace(s)
  {
    var cut := LeadingWhitespace(s);
    var t := s[cut..];
    var r := t[..|t| - TrailingWhitespace(t)];
    assert r == s[cut..cut + |r|];
    forall k | cut + |r| <= k < |s|
      ensures IsWhitespace(s[k])
    {
      assert s[k] == t[k - cut];
    }
    assert OccursAt(s, r, cut) && AllWhitespace(s[..cut]) && AllWhitespace(s[cut + |r|..]);
    // an empty result means all of `t` is trailing white space, and then `t` is empty
    // or `s[cut]` would be white space
    assert r == [] ==> |t| == TrailingWhitespace(t);
    r
  }

  /** `q` occurs in `s` starting at index `i`. */
  predicate OccursAt(s: string, q: string, i: int)
  {
    0 <= i && i + |q| <= |s| && s[i..i + |q|] == q
  }

  /** `s.includes(q)`: tries every start position from the left. */
  function Includes(s: string, q: string): bool
    decreases |s|
  {
    if |q| > |s| then false
    else if s[..|q|] == q then true
    else |s| > 0 && Includes(s[1..], q)
  }

  /** `Includes` holds exactly when `q` is a substring of `s`; the empty string is a substring of every string. */
  lemma {:induction false} IncludesIff(s: string, q: string)
    ensures Includes(s, q) <==> exists i :: OccursAt(s, q, i)
    ensures q == [] ==> Includes(s, q)
    decreases |s|
  {
    if |q| <= |s| {
      if s[..|q|] == q {
        assert OccursAt(s, q, 0);
      } else if |s| > 0 {
        IncludesIff(s[1..], q);
        if Includes(s[1..], q) {
          var i :| OccursAt(s[1..], q, i);
          assert s[1..][i..i + |q|] == s[i + 1..i + 1 + |q|];
          assert OccursAt(s, q, i + 1);
        }
        if exists i :: OccursAt(s, q, i) {
          var i :| OccursAt(s, q, i);
          assert i != 0 by {
            assert s[..|q|] == s[0..|q|];
          }
          assert s[1..][i - 1..i - 1 + |q|] == s[i..i + |q|];
          assert OccursAt(s[1..], q, i - 1);
        }
      }
    }
  }

  /** `IncludesIff` for every string searched for `q`. */
  lemma IncludesIffEverywhere(q: string)
    ensures forall s :: Includes(s, q) <==> exists i :: OccursAt(s, q, i)
  {
    forall s
      ensures Includes(s, q) <==> exists i :: OccursAt(s, q, i)
    {
      IncludesIff(s, q);
    }
  }
}
