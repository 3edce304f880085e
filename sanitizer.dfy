/**
  `sanitize_sql`: two fixed rewrites of known model mistakes, applied in
  order (agent.py:189-195).
  - `EXTRACT(YEAR FROM w)`, in any letter case and with `w` a run of word
    characters, becomes `w` (the schema already has a year column).
  - the whole word `yr`, in lower case only, becomes `rental_year`.
*/
module Sanitizer {
  import opened Wrappers
  import opened Text

  // ---------------------------------------------------------------------------
  // EXTRACT(YEAR FROM w) -> w
  // ---------------------------------------------------------------------------

  /** Length of the run of word characters at the front of `s`. */
  function WordRun(s: string): (n: nat)
    ensures n <= |s|
    ensures forall i :: 0 <= i < n ==> IsWordChar(s[i])
    ensures n == |s| || !IsWordChar(s[n])
  {
    if s != [] && IsWordChar(s[0]) then 1 + WordRun(s[1..]) else 0
  }

  /** `s` starts with `EXTRACT(YEAR FROM `, letters in any case. */
  predicate ExtractHead(s: string)
  {
    && |s| >= 18
    && CiEq(s[0], 'e') && CiEq(s[1], 'x') && CiEq(s[2], 't') && CiEq(s[3], 'r')
    && CiEq(s[4], 'a') && CiEq(s[5], 'c') && CiEq(s[6], 't') && s[7] == '('
    && CiEq(s[8], 'y') && CiEq(s[9], 'e') && CiEq(s[10], 'a') && CiEq(s[11], 'r')
    && s[12] == ' ' && CiEq(s[13], 'f') && CiEq(s[14], 'r') && CiEq(s[15], 'o')
    && CiEq(s[16], 'm') && s[17] == ' '
  }

  /** `EXTRACT\(YEAR FROM (\w+)\)` matches at the front of `s`, capturing
      the first `w` characters after the 18-character head. The greedy `\w+`
      takes the whole word run, and giving any of it back would put a word
      character where `)` is needed, so the run must be followed by `)`. */
  predicate ExtractYearAt(s: string, w: nat)
  {
    && ExtractHead(s)
    && w == WordRun(s[18..]) && w > 0
    && 18 + w < |s| && s[18 + w] == ')'
  }

  /** The pattern matches at the front of `s`. */
  predicate ExtractYearMatch(s: string)
  {
    ExtractHead(s) && ExtractYearAt(s, WordRun(s[18..]))
  }

  /** `re.sub(r'EXTRACT\(YEAR FROM (\w+)\)', r'\1', s, flags=re.IGNORECASE)`:
      scanning from the left, each match is replaced by its captured word and
      the scan goes on after the match. */
  function RewriteExtractYear(s: string): (r: string)
    ensures |r| <= |s|
    decreases |s|
  {
    if s == [] then []
    else if ExtractYearMatch(s) then
      var w := WordRun(s[18..]);
      s[18..18 + w] + RewriteExtractYear(s[18 + w + 1..])
    else
      [s[0]] + RewriteExtractYear(s[1..])
  }

  /** Where no match starts, one character is copied. */
  lemma RewriteCopiesFront(s: string)
    requires s != [] && !ExtractYearMatch(s)
    ensures RewriteExtractYear(s) == [s[0]] + RewriteExtractYear(s[1..])
  {
  }

  /** The pattern matches at position `i` of `s`. */
  predicate ExtractYearMatchAt(s: string, i: nat)
    requires i <= |s|
  {
    ExtractYearMatch(s[i..])
  }

  /** The first `n` characters of `s`, at none of which a match starts, are
      copied through. */
  lemma {:induction false} RewriteSkipsPrefix(s: string, n: nat)
    requires n <= |s| && forall i :: 0 <= i < n ==> !ExtractYearMatchAt(s, i)
    ensures RewriteExtractYear(s) == s[..n] + RewriteExtractYear(s[n..])
  {
    if n > 0 {
      var t := s[1..];
      assert !ExtractYearMatchAt(s, 0);
      assert s[0..] == s;
      RewriteCopiesFront(s);
      forall i | 0 <= i < n - 1
        ensures !ExtractYearMatchAt(t, i)
      {
        assert !ExtractYearMatchAt(s, i + 1);
        assert t[i..] == s[i + 1..];
      }
      RewriteSkipsPrefix(t, n - 1);
      assert t[n - 1..] == s[n..];
      assert [s[0]] + t[..n - 1] == s[..n];
      Regroup(RewriteExtractYear(s), s[0], t[..n - 1], RewriteExtractYear(s[n..]), s[..n]);
    }
  }

  lemma Regroup(x: string, c: char, front: string, rest: string, prefix: string)
    requires x == [c] + (front + rest) && prefix == [c] + front
    ensures x == prefix + rest
  {
  }

  /** `EXTRACT(YEAR FROM w)`, written in any letter case, with `w` one word,
      is replaced by `w`, and the scan goes on after it. */
  lemma ExtractYearReplaced(head: string, w: string, rest: string)
    requires IsExtractHead(head) && IsWord(w)
    ensures RewriteExtractYear(head + w + ")" + rest) == w + RewriteExtractYear(rest)
  {
    var s := head + w + ")" + rest;
    assert s[..18] == head;
    StartsWithHead(s, head);
    assert s[18..] == w + (")" + rest);
    WordRunOfWord(w, ")" + rest);
    assert s[18..18 + |w|] == w;
    assert s[18 + |w| + 1..] == rest;
  }

  /** A text that starts with a head passes the head test. */
  lemma StartsWithHead(s: string, head: string)
    requires IsExtractHead(head) && |s| >= 18 && s[..18] == head
    ensures ExtractHead(s)
  {
    forall k | 0 <= k < 18
      ensures s[k] == head[k]
    {
      assert s[..18][k] == s[k];
    }
  }

  lemma {:induction false} WordRunOfWord(w: string, z: string)
    requires forall i :: 0 <= i < |w| ==> IsWordChar(w[i])
    requires z == [] || !IsWordChar(z[0])
    ensures WordRun(w + z) == |w|
  {
    if w != [] {
      assert (w + z)[1..] == w[1..] + z;
      WordRunOfWord(w[1..], z);
    } else {
      assert w + z == z;
    }
  }

  /** `EXTRACT(YEAR FROM `, written in any letter case. */
  predicate IsExtractHead(e: string)
  {
    |e| == 18 && CiPrefix("extract(year from ", e)
  }

  /** A non-empty run of word characters, as `\w+` captures. */
  predicate IsWord(w: string)
  {
    w != [] && forall i :: 0 <= i < |w| ==> IsWordChar(w[i])
  }

  /** The head holds `(` only at index 7, and starts with the seven letters
      of `EXTRACT`. */
  lemma HeadShape(e: string)
    requires IsExtractHead(e)
    ensures forall k :: 0 <= k < 18 && k != 7 ==> e[k] != '('
    ensures forall k :: 0 <= k < 7 ==> IsWordChar(e[k])
    ensures e[7] == '('
  {
    var pat := "extract(year from ";
    forall k | 0 <= k < 18
      ensures CiEq(e[k], pat[k])
    {
    }
  }

  /** The outer head of two nested calls is not a match: the word after it
      is followed by `(`, not `)`. */
  lemma OuterHeadNotMatched(e1: string, e2: string, w: string)
    requires IsExtractHead(e1) && IsExtractHead(e2) && IsWord(w)
    ensures !ExtractYearMatch(e1 + e2 + w + "))")
  {
    var s := e1 + e2 + w + "))";
    HeadShape(e2);
    var letters, after := e2[..7], e2[7..] + w + "))";
    assert s[18..] == letters + after;
    WordRunOfWord(letters, after);
    assert s[25] == e2[7];
  }

  /** Nor does a match start inside the outer head: none has a `(` seven
      characters further on. */
  lemma InsideOuterHeadNotMatched(e1: string, e2: string, w: string, i: nat)
    requires IsExtractHead(e1) && IsExtractHead(e2) && IsWord(w)
    requires 0 < i < 18
    ensures !ExtractYearMatchAt(e1 + e2 + w + "))", i)
  {
    var s := e1 + e2 + w + "))";
    HeadShape(e1);
    HeadShape(e2);
    assert s[i..][7] == s[i + 7];
    if i + 7 < 18 {
      assert s[i + 7] == e1[i + 7];
    } else {
      assert s[i + 7] == e2[i + 7 - 18];
    }
  }

  /** No match starts within the outer head. */
  lemma NoMatchInOuterHead(e1: string, e2: string, w: string)
    requires IsExtractHead(e1) && IsExtractHead(e2) && IsWord(w)
    ensures forall i :: 0 <= i < 18 ==> !ExtractYearMatchAt(e1 + e2 + w + "))", i)
  {
    var s := e1 + e2 + w + "))";
    forall i | 0 <= i < 18
      ensures !ExtractYearMatchAt(s, i)
    {
      if 0 < i {
        InsideOuterHeadNotMatched(e1, e2, w, i);
      } else {
        assert s[0..] == s;
        OuterHeadNotMatched(e1, e2, w);
      }
    }
  }

  /** The outer head is copied through unchanged. */
  lemma OuterHeadCopied(e1: string, e2: string, w: string)
    requires IsExtractHead(e1) && IsExtractHead(e2) && IsWord(w)
    ensures RewriteExtractYear(e1 + e2 + w + "))") == e1 + RewriteExtractYear(e2 + w + ")" + ")")
  {
    var s := e1 + e2 + w + "))";
    NoMatchInOuterHead(e1, e2, w);
    RewriteSkipsPrefix(s, 18);
    assert s[..18] == e1;
    assert s[18..] == e2 + w + ")" + ")";
  }

  lemma CloseParenCopied()
    ensures RewriteExtractYear(")") == ")"
  {
  }

  /** Nested `EXTRACT(YEAR FROM ...)` calls are rewritten one layer per pass:
      the scan resumes after the inner match's `)`, so the outer call is left
      for a second pass. */
  lemma NestedExtractRewritten(e1: string, e2: string, w: string)
    requires IsExtractHead(e1) && IsExtractHead(e2) && IsWord(w)
    ensures RewriteExtractYear(e1 + e2 + w + "))") == e1 + w + ")"
  {
    OuterHeadCopied(e1, e2, w);
    ExtractYearReplaced(e2, w, ")");
    CloseParenCopied();
  }

  // ---------------------------------------------------------------------------
  // \byr\b -> rental_year
  // ---------------------------------------------------------------------------

  /** A whole-word `yr` at position `p` of `s`; `prevWord` says whether the
      character just before `s` is a word character (false at the start of
      the text). `\b` holds between a word and a non-word character. */
  predicate WholeWordYrAt(s: string, p: int, prevWord: bool)
  {
    && 0 <= p && p + 2 <= |s| && s[p] == 'y' && s[p + 1] == 'r'
    && (if p == 0 then !prevWord else !IsWordChar(s[p - 1]))
    && (p + 2 == |s| || !IsWordChar(s[p + 2]))
  }

  /** `re.sub(r'\byr\b', 'rental_year', s)`, continuing a scan whose last
      character was a word character when `prevWord` holds. */
  function ReplaceYr(s: string, prevWord: bool): string
    decreases |s|
  {
    if s == [] then []
    else if WholeWordYrAt(s, 0, prevWord) then "rental_year" + ReplaceYr(s[2..], true)
    else [s[0]] + ReplaceYr(s[1..], IsWordChar(s[0]))
  }

  /** The first character is kept, or it is the `y` of a rewritten `yr`,
      whose replacement starts with a word character too. */
  lemma ReplaceYrFront(s: string, prevWord: bool)
    requires s != []
    ensures ReplaceYr(s, prevWord) != []
    ensures prevWord ==> ReplaceYr(s, prevWord)[0] == s[0]
  {
  }

  /** No whole-word `yr` is left after the rewrite. */
  lemma {:induction false} NoYrLeft(s: string, prevWord: bool)
    ensures forall p :: !WholeWordYrAt(ReplaceYr(s, prevWord), p, prevWord)
    decreases |s|
  {
    if s != [] {
      var r := ReplaceYr(s, prevWord);
      if WholeWordYrAt(s, 0, prevWord) {
        var r' := ReplaceYr(s[2..], true);
        NoYrLeft(s[2..], true);
        assert r == "rental_year" + r';
        forall p | 0 <= p
          ensures !WholeWordYrAt(r, p, prevWord)
        {
          if 11 <= p {
            assert !WholeWordYrAt(r', p - 11, true);
            assert p + 2 <= |r| ==> r[p] == r'[p - 11] && r[p + 1] == r'[p - 10];
            assert p == 11 ==> r[p - 1] == 'r';
            assert 11 < p && p + 2 <= |r| ==> r[p - 1] == r'[p - 12];
            assert p + 2 < |r| ==> r[p + 2] == r'[p - 9];
          } else {
            assert r[..11] == "rental_year";
            assert p + 1 < 11 ==> r[p + 1] == "rental_year"[p + 1];
            assert p + 1 == 11 ==> r[p] == 'r';
          }
        }
      } else {
        var c := s[0];
        var r' := ReplaceYr(s[1..], IsWordChar(c));
        NoYrLeft(s[1..], IsWordChar(c));
        assert r == [c] + r';
        forall p | 0 <= p
          ensures !WholeWordYrAt(r, p, prevWord)
        {
          if 1 <= p {
            assert !WholeWordYrAt(r', p - 1, IsWordChar(c));
            assert p + 2 <= |r| ==> r[p] == r'[p - 1] && r[p + 1] == r'[p];
            assert p == 1 ==> r[p - 1] == c;
            assert 1 < p && p + 2 <= |r| ==> r[p - 1] == r'[p - 2];
            assert p + 2 < |r| ==> r[p + 2] == r'[p + 1];
          } else {
            YrAtFrontKept(s, prevWord);
          }
        }
      }
    }
  }

  /** When no rewrite happens at the front, the result does not start with a
      whole-word `yr` either. */
  lemma YrAtFrontKept(s: string, prevWord: bool)
    requires s != [] && !WholeWordYrAt(s, 0, prevWord)
    ensures !WholeWordYrAt(ReplaceYr(s, prevWord), 0, prevWord)
  {
    var r := ReplaceYr(s, prevWord);
    var c := s[0];
    var r' := ReplaceYr(s[1..], IsWordChar(c));
    assert r == [c] + r';
    if c == 'y' && !prevWord && |s| >= 2 {
      ReplaceYrFront(s[1..], true);
      assert r[1] == s[1];
      if s[1] == 'r' && |s| >= 3 {
        assert IsWordChar(s[2]);
        var r'' := ReplaceYr(s[2..], true);
        assert r' == [s[1]] + r'';
        ReplaceYrFront(s[2..], true);
        assert r[2] == s[2];
      } else if s[1] == 'r' {
        assert false;
      }
    } else if c == 'y' && !prevWord {
      assert |r| == 1 by {
        assert s[1..] == [];
      }
    }
  }

  /** Where no whole-word `yr` occurs, the rewrite changes nothing. */
  lemma {:induction false} NoYrUnchanged(s: string, prevWord: bool)
    requires forall p :: !WholeWordYrAt(s, p, prevWord)
    ensures ReplaceYr(s, prevWord) == s
    decreases |s|
  {
    if s != [] {
      assert !WholeWordYrAt(s, 0, prevWord);
      forall p | 0 <= p
        ensures !WholeWordYrAt(s[1..], p, IsWordChar(s[0]))
      {
        assert !WholeWordYrAt(s, p + 1, prevWord);
        assert p + 2 <= |s[1..]| ==> s[1..][p] == s[p + 1] && s[1..][p + 1] == s[p + 2];
        assert 0 < p && p + 2 <= |s[1..]| ==> s[1..][p - 1] == s[p];
        assert p + 2 < |s[1..]| ==> s[1..][p + 2] == s[p + 3];
      }
      NoYrUnchanged(s[1..], IsWordChar(s[0]));
    }
  }

  /** The `yr` rewrite is idempotent. */
  lemma ReplaceYrIdempotent(s: string)
    ensures ReplaceYr(ReplaceYr(s, false), false) == ReplaceYr(s, false)
  {
    NoYrLeft(s, false);
    NoYrUnchanged(ReplaceYr(s, false), false);
  }

  // ---------------------------------------------------------------------------
  // sanitize_sql
  // ---------------------------------------------------------------------------

  function SanitizeSql(sql: Option<string>): (r: Option<string>)
    ensures sql.None? || sql == Some([]) ==> r == sql
    ensures r.Some? <==> sql.Some?
    ensures r.Some? ==> forall p :: !WholeWordYrAt(r.value, p, false)
  {
    if sql.None? || sql.value == [] then sql
    else
      var s := RewriteExtractYear(sql.value);
      NoYrLeft(s, false);
      Some(ReplaceYr(s, false))
  }

  /** Text without a lower-case `y` holds no `yr` to rewrite. */
  lemma NoLowerYUnchanged(s: string, prevWord: bool)
    requires 'y' !in s
    ensures ReplaceYr(s, prevWord) == s
  {
    forall p | 0 <= p
      ensures !WholeWordYrAt(s, p, prevWord)
    {
      assert p < |s| ==> s[p] in s;
    }
    NoYrUnchanged(s, prevWord);
  }

  /** A plain column reference passes through unchanged. */
  lemma PlainSqlUnchanged(s: string)
    requires s != [] && 'y' !in s && !Contains(s, "(")
    ensures SanitizeSql(Some(s)) == Some(s)
  {
    RewriteWithoutParenUnchanged(s);
    NoLowerYUnchanged(s, false);
  }

  /** Without `(` no `EXTRACT(` can match. */
  lemma {:induction false} RewriteWithoutParenUnchanged(s: string)
    requires !Contains(s, "(")
    ensures RewriteExtractYear(s) == s
  {
    if s != [] {
      assert ExtractHead(s) ==> OccursAt(s, "(", 7);
      assert forall i :: OccursAt(s[1..], "(", i) ==> OccursAt(s, "(", i + 1);
      RewriteWithoutParenUnchanged(s[1..]);
    }
  }

  /** When the first rewrite leaves no lower-case `y`, the second changes
      nothing. */
  lemma SanitizeAfterRewrite(s: string, r: string)
    requires s != [] && RewriteExtractYear(s) == r && 'y' !in r
    ensures SanitizeSql(Some(s)) == Some(r)
  {
    NoLowerYUnchanged(r, false);
  }

  /** `sanitize_sql` is not idempotent: on nested `EXTRACT(YEAR FROM ...)`
      calls a second pass rewrites what the first left. */
  lemma SanitizeNotIdempotent(e: string, w: string)
    requires IsExtractHead(e) && IsWord(w) && 'y' !in e && 'y' !in w
    ensures SanitizeSql(Some(e + e + w + "))")) == Some(e + w + ")")
    ensures SanitizeSql(Some(e + w + ")")) == Some(w)
  {
    var once := e + w + ")";
    NestedExtractRewritten(e, e, w);
    assert once == e + w + ")" + [];
    ExtractYearReplaced(e, w, []);
    assert 'y' !in once;
    SanitizeAfterRewrite(e + e + w + "))", once);
    SanitizeAfterRewrite(once, w);
  }
}
