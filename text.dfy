/**
  String primitives of Python that the agent relies on: `str.strip()`,
  `str.replace`, the `in` substring test, `str.lower()` on ASCII text, and the
  character classes `\s` and `\w` and the IGNORECASE comparison of the `re`
  module, restricted to what the agent's fixed patterns need.
*/
module Text {

  /** Python's whitespace (`str.isspace()`, and `\s` of `re` on `str`
      patterns): the C0 separators, space, NEL, NBSP and the Unicode spaces. */
  predicate IsSpace(c: char)
  {
    ('\t' <= c <= '\r') || ('\U{1C}' <= c <= '\U{1F}') || c == ' ' || c == '\U{85}' || c == '\U{A0}'
    || c == '\U{1680}' || ('\U{2000}' <= c <= '\U{200A}') || c == '\U{2028}' || c == '\U{2029}'
    || c == '\U{202F}' || c == '\U{205F}' || c == '\U{3000}'
  }

  predicate IsAsciiLetter(c: char)
  {
    ('A' <= c <= 'Z') || ('a' <= c <= 'z')
  }

  /** `\w` restricted to ASCII: letters, digits and the underscore. */
  predicate IsWordChar(c: char)
  {
    IsAsciiLetter(c) || ('0' <= c <= '9') || c == '_'
  }

  /** `str.lower()` on one character, for ASCII letters. */
  function LowerChar(c: char): (r: char)
    ensures IsAsciiLetter(c) ==> 'a' <= r <= 'z'
    ensures !('A' <= c <= 'Z') ==> r == c
  {
    if 'A' <= c <= 'Z' then (c as int + 32) as char else c
  }

  function Lower(s: string): (r: string)
    ensures |r| == |s|
    ensures forall i :: 0 <= i < |s| ==> r[i] == LowerChar(s[i])
  {
    seq(|s|, i requires 0 <= i < |s| => LowerChar(s[i]))
  }

  /** Case-insensitive match of the text character `c` against the lower-case
      pattern character `p` under `re.IGNORECASE`: the character itself, its
      ASCII capital, and four more characters Python's engine matches for
      three of the letters: U+0130 and U+0131 for i, the Kelvin sign U+212A
      for k and the long s U+017F for s. */
  predicate CiEq(c: char, p: char)
  {
    c == p
    || ('a' <= p <= 'z' && c as int == p as int - 32)
    || (p == 'i' && (c == '\U{130}' || c == '\U{131}'))
    || (p == 'k' && c == '\U{212A}')
    || (p == 's' && c == '\U{17F}')
  }

  /** `t` starts with the lower-case pattern `pat`, compared case-insensitively. */
  predicate CiPrefix(pat: string, t: string)
  {
    |pat| <= |t| && forall i :: 0 <= i < |pat| ==> CiEq(t[i], pat[i])
  }

  // ---------------------------------------------------------------------------
  // strip()
  // ---------------------------------------------------------------------------

  /** Length of the run of whitespace at the front of `s`. */
  function LeadingSpace(s: string): (n: nat)
    ensures n <= |s|
    ensures forall i :: 0 <= i < n ==> IsSpace(s[i])
    ensures n == |s| || !IsSpace(s[n])
  {
    if s != [] && IsSpace(s[0]) then 1 + LeadingSpace(s[1..]) else 0
  }

  /** Length of the run of whitespace at the back of `s`. */
  function TrailingSpace(s: string): (n: nat)
    ensures n <= |s|
    ensures forall i :: |s| - n <= i < |s| ==> IsSpace(s[i])
    ensures n == |s| || !IsSpace(s[|s| - 1 - n])
  {
    if s != [] && IsSpace(s[|s| - 1]) then 1 + TrailingSpace(s[..|s| - 1]) else 0
  }

  /** A string with no whitespace at either end. */
  predicate Stripped(s: string)
  {
    s == [] || (!IsSpace(s[0]) && !IsSpace(s[|s| - 1]))
  }

  /** Python's `s.strip()`: the slice of `s` left once the whitespace at both
      ends is cut off. */
  function Strip(s: string): (r: string)
    ensures Stripped(r)
    ensures |r| <= |s|
  {
    var a := LeadingSpace(s);
    var t := s[a..];
    var b := a + |t| - TrailingSpace(t);
    assert a == |s| || !IsSpace(s[a]);
    assert s[a..b] == t[..|t| - TrailingSpace(t)];
    s[a..b]
  }

  /** `strip()` as two steps: cut the front whitespace, then the back. */
  lemma StripInTwoSteps(s: string)
    ensures var t := s[LeadingSpace(s)..]; Strip(s) == t[..|t| - TrailingSpace(t)]
  {
  }

  lemma StripKeepsChars(s: string, c: char)
    requires c in Strip(s)
    ensures c in s
  {
    var a := LeadingSpace(s);
    var t := s[a..];
    var b := a + |t| - TrailingSpace(t);
    assert Strip(s) == s[a..b];
    var k :| 0 <= k < b - a && s[a..b][k] == c;
    assert s[a + k] == c;
  }

  /** `strip()` cuts only whitespace, and only from the two ends. */
  lemma StripCutsSpaceAtEnds(s: string)
    ensures exists a, b ::
              && 0 <= a <= b <= |s| && Strip(s) == s[a..b]
              && (forall i :: 0 <= i < a ==> IsSpace(s[i]))
              && (forall i :: b <= i < |s| ==> IsSpace(s[i]))
  {
    var a := LeadingSpace(s);
    var t := s[a..];
    var b := a + |t| - TrailingSpace(t);
    assert Strip(s) == s[a..b];
    assert forall i :: b <= i < |s| ==> s[i] == t[i - a];
  }

  lemma StripOfStripped(s: string)
    requires Stripped(s)
    ensures Strip(s) == s
  {
    assert LeadingSpace(s) == 0;
    assert TrailingSpace(s) == 0;
  }

  // ---------------------------------------------------------------------------
  // Substrings: `sub in s` and `s.replace(old, new)`
  // ---------------------------------------------------------------------------

  /** `sub` occurs in `s` at position `i`. */
  predicate OccursAt(s: string, sub: string, i: int)
  {
    0 <= i && i + |sub| <= |s| && s[i..i + |sub|] == sub
  }

  /** Python's `sub in s`. */
  function Contains(s: string, sub: string): (r: bool)
    ensures r <==> exists i :: OccursAt(s, sub, i)
  {
    if sub <= s then
      assert OccursAt(s, sub, 0);
      true
    else if s == [] then
      false
    else
      var r := Contains(s[1..], sub);
      forall i | 0 < i && OccursAt(s, sub, i)
        ensures OccursAt(s[1..], sub, i - 1)
      {
        assert s[1..][i - 1..i - 1 + |sub|] == s[i..i + |sub|];
      }
      forall i | OccursAt(s[1..], sub, i)
        ensures OccursAt(s, sub, i + 1)
      {
        assert s[1..][i..i + |sub|] == s[i + 1..i + 1 + |sub|];
      }
      r
  }

  /** Python's `s.replace(pat, rep)`: every occurrence, scanned from the
      left without overlap. */
  function ReplaceAll(s: string, pat: string, rep: string): string
    requires pat != []
    decreases |s|
  {
    if s == [] then []
    else if pat <= s then rep + ReplaceAll(s[|pat|..], pat, rep)
    else [s[0]] + ReplaceAll(s[1..], pat, rep)
  }

  /** Replacing a pattern that occurs nowhere changes nothing. */
  lemma {:induction false} ReplaceAbsent(s: string, pat: string, rep: string)
    requires pat != [] && !Contains(s, pat)
    ensures ReplaceAll(s, pat, rep) == s
  {
    if s != [] {
      assert pat <= s ==> OccursAt(s, pat, 0);
      assert forall i :: OccursAt(s[1..], pat, i) ==> OccursAt(s, pat, i + 1);
      ReplaceAbsent(s[1..], pat, rep);
    }
  }

  /** Deleting a pattern: every character of the result comes from `s`. */
  lemma {:induction false} DeleteKeepsChars(s: string, pat: string, c: char)
    requires pat != [] && c in ReplaceAll(s, pat, "")
    ensures c in s
  {
    if s != [] {
      if pat <= s {
        DeleteKeepsChars(s[|pat|..], pat, c);
      } else if c != s[0] {
        DeleteKeepsChars(s[1..], pat, c);
      }
    }
  }

  /** Deleting every single-character pattern leaves none of it. */
  lemma {:induction false} DeleteCharRemovesIt(s: string, c: char)
    ensures c !in ReplaceAll(s, [c], "")
  {
    if s != [] {
      DeleteCharRemovesIt(s[|[c]|..], c);
      DeleteCharRemovesIt(s[1..], c);
    }
  }

  /** A prefix `p` in which no occurrence of `pat` starts is copied through. */
  lemma {:induction false} ReplaceSkipsPrefix(p: string, z: string, pat: string, rep: string)
    requires pat != []
    requires forall i :: 0 <= i < |p| ==> !(pat <= (p + z)[i..])
    ensures ReplaceAll(p + z, pat, rep) == p + ReplaceAll(z, pat, rep)
  {
    if p != [] {
      assert !(pat <= (p + z)[0..]);
      assert (p + z)[1..] == p[1..] + z;
      forall i | 0 <= i < |p[1..]|
        ensures !(pat <= (p[1..] + z)[i..])
      {
        assert (p[1..] + z)[i..] == (p + z)[i + 1..];
      }
      ReplaceSkipsPrefix(p[1..], z, pat, rep);
    }
  }
}
