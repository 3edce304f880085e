/**
  `extract_sql`: pulling one SQL statement out of the model's raw output.

  The four regular expressions of agent.py:101-109 are fixed patterns and are
  written here as explicit scanners:
  - the fence spellings "``` sql", "``` SQL" and "``` Sql" become "```sql";
  - the first block opened by "```sql" (any letter case) and closed by "```"
    is taken, the shortest one being preferred;
  - otherwise every backtick is deleted;
  - every line holding only the word `sql` (with optional whitespace) is
    removed, and a leading "sql " is cut off.
*/
module Extraction {
  import opened Wrappers
  import opened Text

  // ---------------------------------------------------------------------------
  // Fence normalisation (agent.py:101)
  // ---------------------------------------------------------------------------

  function NormalizeFences(text: string): string
  {
    ReplaceAll(ReplaceAll(ReplaceAll(text, "``` sql", "```sql"), "``` SQL", "```sql"), "``` Sql", "```sql")
  }

  /** The three fence spellings the agent rewrites. */
  predicate IsFenceVariant(v: string)
  {
    v == "``` sql" || v == "``` SQL" || v == "``` Sql"
  }

  /** None of the three spellings starts inside a leading "```sql". */
  lemma NoVariantInsideOpener(z: string, pat: string)
    requires IsFenceVariant(pat)
    ensures forall i :: 0 <= i < 6 ==> !(pat <= ("```sql" + z)[i..])
  {
    var t := "```sql" + z;
    assert t[3] == 's' && t[4] == 'q' && t[5] == 'l';
    forall i | 0 <= i < 6
      ensures !(pat <= t[i..])
    {
      assert t[i..][0] == t[i];
      if i < 3 {
        assert t[i..][3 - i] == t[3];
      }
    }
  }

  /** A variant spelling starts no other occurrence of a spelling inside itself. */
  lemma NoVariantInsideVariant(v: string, z: string, pat: string)
    requires IsFenceVariant(v) && IsFenceVariant(pat) && v != pat
    ensures forall i :: 0 <= i < 7 ==> !(pat <= (v + z)[i..])
  {
    var t := v + z;
    assert t[3] == ' ' && t[4] == v[4] && t[5] == v[5] && t[6] == v[6];
    forall i | 0 <= i < 7
      ensures !(pat <= t[i..])
    {
      assert t[i..][0] == t[i];
      if i == 0 {
        assert t[i..][4] == t[4];
      } else if i < 3 {
        assert t[i..][3 - i] == t[3];
      }
    }
  }

  /** Replacing one spelling by "```sql" in front of the text. */
  lemma RewriteVariantAtFront(v: string, z: string, pat: string)
    requires IsFenceVariant(v) && IsFenceVariant(pat)
    ensures ReplaceAll(v + z, pat, "```sql") ==
      (if v == pat then "```sql" + ReplaceAll(z, pat, "```sql") else v + ReplaceAll(z, pat, "```sql"))
  {
    if v == pat {
      assert pat <= v + z;
      assert (v + z)[|pat|..] == z;
    } else {
      NoVariantInsideVariant(v, z, pat);
      ReplaceSkipsPrefix(v, z, pat, "```sql");
    }
  }

  lemma NormalizeOpenerFront(z: string)
    ensures NormalizeFences("```sql" + z) == "```sql" + NormalizeFences(z)
  {
    var o := "```sql";
    NoVariantInsideOpener(z, "``` sql");
    ReplaceSkipsPrefix(o, z, "``` sql", o);
    var z1 := ReplaceAll(z, "``` sql", o);
    NoVariantInsideOpener(z1, "``` SQL");
    ReplaceSkipsPrefix(o, z1, "``` SQL", o);
    var z2 := ReplaceAll(z1, "``` SQL", o);
    NoVariantInsideOpener(z2, "``` Sql");
    ReplaceSkipsPrefix(o, z2, "``` Sql", o);
  }

  /** A variant spelling at the front is normalised to "```sql", and the rest
      of the text is normalised on its own. */
  lemma NormalizeVariantFront(v: string, z: string)
    requires IsFenceVariant(v)
    ensures NormalizeFences(v + z) == "```sql" + NormalizeFences(z)
  {
    var o := "```sql";
    RewriteVariantAtFront(v, z, "``` sql");
    var z1 := ReplaceAll(z, "``` sql", o);
    if v == "``` sql" {
      NoVariantInsideOpener(z1, "``` SQL");
      ReplaceSkipsPrefix(o, z1, "``` SQL", o);
      var z2 := ReplaceAll(z1, "``` SQL", o);
      NoVariantInsideOpener(z2, "``` Sql");
      ReplaceSkipsPrefix(o, z2, "``` Sql", o);
    } else {
      RewriteVariantAtFront(v, z1, "``` SQL");
      var z2 := ReplaceAll(z1, "``` SQL", o);
      if v == "``` SQL" {
        NoVariantInsideOpener(z2, "``` Sql");
        ReplaceSkipsPrefix(o, z2, "``` Sql", o);
      } else {
        RewriteVariantAtFront(v, z2, "``` Sql");
      }
    }
  }

  // ---------------------------------------------------------------------------
  // The first ```sql ... ``` block (agent.py:102-104)
  // ---------------------------------------------------------------------------

  /** "```sql" in any letter case starts at position `i` of `t`. */
  predicate OpensAt(t: string, i: int)
  {
    0 <= i && i + 6 <= |t| && t[i] == '`' && t[i + 1] == '`' && t[i + 2] == '`'
    && CiEq(t[i + 3], 's') && CiEq(t[i + 4], 'q') && CiEq(t[i + 5], 'l')
  }

  /** A closing "```" starts at position `j` of `t`. */
  predicate ClosesAt(t: string, j: int)
  {
    0 <= j && j + 3 <= |t| && t[j] == '`' && t[j + 1] == '`' && t[j + 2] == '`'
  }

  /** The search pattern of agent.py:102 matches somewhere in `t`: an opener,
      and a closing "```" at or after its end. */
  predicate HasBlock(t: string)
  {
    exists i, j :: 0 <= i <= j <= |t| && OpensAt(t, i) && i + 6 <= j && ClosesAt(t, j)
  }

  /** The match the search finds: the leftmost opener and, the inner group
      being non-greedy, the first closing "```" after it. */
  predicate FirstBlock(t: string, i: int, j: int)
  {
    && OpensAt(t, i) && (forall i' :: 0 <= i' < i ==> !OpensAt(t, i'))
    && i + 6 <= j && ClosesAt(t, j)
    && (forall j' :: i + 6 <= j' < j ==> !ClosesAt(t, j'))
  }

  function FindOpener(t: string, from: nat): (r: Option<nat>)
    requires from <= |t|
    ensures r.Some? ==> from <= r.value <= |t| && OpensAt(t, r.value)
    ensures r.Some? ==> forall i :: from <= i < r.value ==> !OpensAt(t, i)
    ensures r.None? ==> forall i :: from <= i <= |t| ==> !OpensAt(t, i)
    decreases |t| - from
  {
    if OpensAt(t, from) then Some(from)
    else if from == |t| then None
    else FindOpener(t, from + 1)
  }

  /** `t.find("```", from)`, as an index or None. */
  function FindCloser(t: string, from: nat): (r: Option<nat>)
    requires from <= |t|
    ensures r.Some? ==> from <= r.value && ClosesAt(t, r.value)
    ensures r.Some? ==> forall j :: from <= j < r.value ==> !ClosesAt(t, j)
    ensures r.None? ==> forall j :: from <= j ==> !ClosesAt(t, j)
    decreases |t| - from
  {
    if ClosesAt(t, from) then Some(from)
    else if from == |t| then None
    else FindCloser(t, from + 1)
  }

  /** Where group 1 of a match with its opener at `i` starts: after the
      opener and the whitespace that `\s*` takes. */
  function GroupStart(t: string, i: nat): nat
    requires i + 6 <= |t|
  {
    i + 6 + LeadingSpace(t[i + 6..])
  }

  /** The whitespace after the opener stops before the closing backticks. */
  lemma GroupStartBound(t: string, i: nat, j: nat)
    requires FirstBlock(t, i, j)
    ensures GroupStart(t, i) <= j
  {
    var k := i + 6;
    forall p | k <= p < k + LeadingSpace(t[k..])
      ensures t[p] != '`'
    {
      assert t[k..][p - k] == t[p];
    }
  }

  lemma NoOpener(t: string)
    requires FindOpener(t, 0).None?
    ensures !HasBlock(t)
  {
  }

  lemma NoCloser(t: string, i: nat)
    requires FindOpener(t, 0) == Some(i) && i + 6 <= |t|
    requires FindCloser(t, i + 6).None?
    ensures !HasBlock(t)
  {
    forall i', j | 0 <= i' <= j <= |t| && OpensAt(t, i') && i' + 6 <= j
      ensures !ClosesAt(t, j)
    {
      assert i <= i';
    }
  }

  /** The opener and closer of the match the search of agent.py:102 finds. */
  function BlockSpan(t: string): (r: Option<(nat, nat)>)
    ensures r.Some? <==> HasBlock(t)
    ensures r.Some? ==> FirstBlock(t, r.value.0, r.value.1)
  {
    match FindOpener(t, 0)
    case None =>
      NoOpener(t);
      None
    case Some(i) =>
      match FindCloser(t, i + 6)
      case None =>
        NoCloser(t, i);
        None
      case Some(j) =>
        assert ClosesAt(t, j);
        Some((i, j))
  }

  /** Group 1 of that match, or None when the pattern does not match. */
  function FencedBlock(t: string): (r: Option<string>)
    ensures r.Some? <==> HasBlock(t)
  {
    match BlockSpan(t)
    case None => None
    case Some((i, j)) =>
      GroupStartBound(t, i, j);
      Some(t[GroupStart(t, i)..j])
  }

  /** Of the matches the pattern allows, the first block is unique. */
  lemma FirstBlockUnique(t: string, i: int, j: int, i': int, j': int)
    requires FirstBlock(t, i, j) && FirstBlock(t, i', j')
    ensures i == i' && j == j'
  {
  }

  // ---------------------------------------------------------------------------
  // Backtick removal (agent.py:106)
  // ---------------------------------------------------------------------------

  function RemoveBackticks(t: string): (r: string)
    ensures '`' !in r
    ensures forall c :: c in r ==> c in t
  {
    var r := ReplaceAll(ReplaceAll(t, "```", ""), "`", "");
    DeleteCharRemovesIt(ReplaceAll(t, "```", ""), '`');
    forall c | c in r
      ensures c in t
    {
      DeleteKeepsChars(ReplaceAll(t, "```", ""), "`", c);
      DeleteKeepsChars(t, "```", c);
    }
    r
  }

  // ---------------------------------------------------------------------------
  // Bare `sql` lines (agent.py:107 and agent.py:266)
  // ---------------------------------------------------------------------------

  predicate AllSpace(s: string)
  {
    forall i :: 0 <= i < |s| ==> IsSpace(s[i])
  }

  /** Index just past the run of whitespace that starts at `i`. */
  function SpaceEnd(s: string, i: nat): (j: nat)
    requires i <= |s|
    ensures i <= j <= |s|
    ensures forall k :: i <= k < j ==> IsSpace(s[k])
    ensures j == |s| || !IsSpace(s[j])
    decreases |s| - i
  {
    if i < |s| && IsSpace(s[i]) then SpaceEnd(s, i + 1) else i
  }

  /** Index of the last line feed in `s[i..j]`. */
  function LastNewlineIn(s: string, i: nat, j: nat): (r: Option<nat>)
    requires i <= j <= |s|
    ensures r.Some? ==> i <= r.value < j && s[r.value] == '\n'
    ensures r.Some? ==> forall k :: r.value < k < j ==> s[k] != '\n'
    ensures r.None? ==> forall k :: i <= k < j ==> s[k] != '\n'
    decreases j - i
  {
    if i == j then None
    else if s[j - 1] == '\n' then Some(j - 1)
    else LastNewlineIn(s, i, j - 1)
  }

  /** The word `sql`, in any case, at index `w`. */
  predicate SqlWordAt(s: string, w: nat)
  {
    w + 3 <= |s| && CiEq(s[w], 's') && CiEq(s[w + 1], 'q') && CiEq(s[w + 2], 'l')
  }

  /** `^\s*sql\s*\n` matches the first `e` characters of `s`, taking `w`
      whitespace characters before the word. */
  predicate SqlLineEndsAt(s: string, w: int, e: int)
  {
    && 0 <= w && w + 3 < e <= |s|
    && (forall i :: 0 <= i < w ==> IsSpace(s[i]))
    && SqlWordAt(s, w)
    && (forall i :: w + 3 <= i < e ==> IsSpace(s[i]))
    && s[e - 1] == '\n'
  }

  /** The match the engine picks when it starts at the front of `s`: the
      greedy `\s*` makes it the longest one. */
  ghost predicate LongestSqlLine(s: string, e: int)
  {
    SqlLineEndsAt(s, SpaceEnd(s, 0), e) && forall w, e' :: SqlLineEndsAt(s, w, e') ==> e' <= e
  }

  /** Any match of the pattern at the start of `s` takes the whole leading
      whitespace, then the word, then part of the whitespace after it. */
  lemma SqlLineShape(s: string, w: int, e: int)
    requires SqlLineEndsAt(s, w, e)
    ensures w == SpaceEnd(s, 0)
    ensures e <= SpaceEnd(s, w + 3)
  {
  }

  /** The end of the match of `^\s*sql\s*\n` at the start of `s`, if any.
      The greedy `\s*` after the word takes the whole run of whitespace and
      gives back characters until a line feed follows, so the match ends
      after the last line feed of that run. */
  function SqlLineMatch(s: string): (r: Option<nat>)
    ensures r.Some? ==> 4 <= r.value <= |s|
  {
    var w := SpaceEnd(s, 0);
    if !SqlWordAt(s, w) then None
    else
      match LastNewlineIn(s, w + 3, SpaceEnd(s, w + 3))
      case None => None
      case Some(m) => Some(m + 1)
  }

  /** A match `SqlLineMatch` reports is the one the engine picks. */
  lemma SqlLineMatchIsLongest(s: string)
    ensures SqlLineMatch(s).Some? ==> LongestSqlLine(s, SqlLineMatch(s).value)
  {
    if SqlLineMatch(s).Some? {
      forall w, e | SqlLineEndsAt(s, w, e)
        ensures e <= SqlLineMatch(s).value
      {
        SqlLineShape(s, w, e);
      }
    }
  }

  /** `SqlLineMatch` reports no match only when the pattern matches nowhere
      at the front. */
  lemma NoSqlLineMatch(s: string)
    ensures SqlLineMatch(s).None? ==> forall w, e :: !SqlLineEndsAt(s, w, e)
  {
    if SqlLineMatch(s).None? {
      forall w, e
        ensures !SqlLineEndsAt(s, w, e)
      {
        if SqlLineEndsAt(s, w, e) {
          SqlLineShape(s, w, e);
        }
      }
    }
  }

  /** `re.sub(r'^\s*sql\s*\n', '', s, flags=re.IGNORECASE | re.MULTILINE)`.
      `atStart` says whether `^` holds at the front of `s` (the start of the
      text, or just after a line feed). After a removal the scan goes on
      right after the removed line feed, where `^` holds again. */
  function RemoveSqlLines(s: string, atStart: bool): (r: string)
    ensures |r| <= |s|
    ensures forall c :: c in r ==> c in s
    decreases |s|
  {
    if s == [] then []
    else if atStart && SqlLineMatch(s).Some? then
      var e := SqlLineMatch(s).value;
      var r := RemoveSqlLines(s[e..], true);
      assert forall c :: c in s[e..] ==> c in s;
      r
    else
      var r := RemoveSqlLines(s[1..], s[0] == '\n');
      assert forall c :: c in s[1..] ==> c in s;
      [s[0]] + r
  }

  /** The same pattern without MULTILINE (agent.py:266): `^` holds only at the
      start, so at most the first line is removed. */
  function RemoveFirstSqlLine(s: string): (r: string)
    ensures SqlLineMatch(s).None? ==> r == s
    ensures SqlLineMatch(s).Some? ==> |r| + 4 <= |s| && s == s[..|s| - |r|] + r
  {
    match SqlLineMatch(s)
    case None => s
    case Some(e) => s[e..]
  }

  lemma RemoveFirstSqlLineKeepsChars(s: string, c: char)
    requires c in RemoveFirstSqlLine(s)
    ensures c in s
  {
    var r := RemoveFirstSqlLine(s);
    if r != s {
      var k :| 0 <= k < |r| && r[k] == c;
      assert s[|s| - |r| + k] == c;
    }
  }

  /** `sql.lower().startswith("sql ")`. Only `S`, `Q` and `L` lower-case to
      `s`, `q` and `l`, so the test is exact on the first four characters. */
  predicate StartsWithSqlSpace(s: string)
  {
    |s| >= 4 && (s[0] == 's' || s[0] == 'S') && (s[1] == 'q' || s[1] == 'Q')
    && (s[2] == 'l' || s[2] == 'L') && s[3] == ' '
  }

  /** The clean-up of agent.py:107-110 applied to the chosen text. */
  function CleanUp(sql: string): (r: string)
    ensures Stripped(r)
    ensures forall c :: c in r ==> c in sql
  {
    var s1 := RemoveSqlLines(sql, true);
    var s2 := if StartsWithSqlSpace(s1) then Strip(s1[4..]) else s1;
    forall c | c in Strip(s2)
      ensures c in sql
    {
      StripKeepsChars(s2, c);
      if StartsWithSqlSpace(s1) {
        StripKeepsChars(s1[4..], c);
        assert c in s1;
      }
    }
    Strip(s2)
  }

  // ---------------------------------------------------------------------------
  // extract_sql (agent.py:98-110)
  // ---------------------------------------------------------------------------

  function ExtractSql(text: Option<string>): (r: Option<string>)
    ensures r.None? <==> text == None || text == Some([])
    ensures r.Some? ==> Stripped(r.value)
  {
    if text.None? || text.value == [] then None
    else
      var t := NormalizeFences(text.value);
      var sql := match FencedBlock(t)
        case Some(g) => Strip(g)
        case None => Strip(RemoveBackticks(t));
      Some(CleanUp(sql))
  }

  /** The four fence spellings give the same result. */
  lemma FenceVariantsAgree(v: string, z: string)
    requires IsFenceVariant(v)
    ensures ExtractSql(Some(v + z)) == ExtractSql(Some("```sql" + z))
  {
    NormalizeVariantFront(v, z);
    NormalizeOpenerFront(z);
  }

  /** Text without a backtick in front of a spelling changes nothing either. */
  lemma FenceVariantsAgreeAfter(a: string, v: string, z: string)
    requires IsFenceVariant(v) && '`' !in a
    ensures ExtractSql(Some(a + v + z)) == ExtractSql(Some(a + "```sql" + z))
  {
    var o := "```sql";
    assert a + v + z == a + (v + z);
    assert a + o + z == a + (o + z);
    NormalizeAfterPlainText(a, v + z);
    NormalizeAfterPlainText(a, o + z);
    NormalizeVariantFront(v, z);
    NormalizeOpenerFront(z);
  }

  /** A front without backticks holds no part of a spelling, so it is left
      as it is. */
  lemma NormalizeAfterPlainText(a: string, x: string)
    requires '`' !in a
    ensures NormalizeFences(a + x) == a + NormalizeFences(x)
  {
    var o := "```sql";
    ReplaceAfterPlainText(a, x, "``` sql", o);
    var x1 := ReplaceAll(x, "``` sql", o);
    ReplaceAfterPlainText(a, x1, "``` SQL", o);
    var x2 := ReplaceAll(x1, "``` SQL", o);
    ReplaceAfterPlainText(a, x2, "``` Sql", o);
  }

  lemma {:induction false} ReplaceAfterPlainText(a: string, x: string, pat: string, rep: string)
    requires pat != [] && pat[0] == '`' && '`' !in a
    ensures ReplaceAll(a + x, pat, rep) == a + ReplaceAll(x, pat, rep)
    decreases |a|
  {
    if a == [] {
      assert a + x == x;
    } else {
      var s := a + x;
      assert s[0] == a[0] && a[0] != '`';
      assert !(pat <= s);
      assert s[1..] == a[1..] + x;
      ReplaceAfterPlainText(a[1..], x, pat, rep);
      assert [a[0]] + (a[1..] + ReplaceAll(x, pat, rep)) == a + ReplaceAll(x, pat, rep);
    }
  }

  /** Whitespace cut off the front is taken off the leading run. */
  lemma {:induction false} LeadingSpaceAfter(s: string, n: nat)
    requires n <= |s| && AllSpace(s[..n])
    ensures LeadingSpace(s[n..]) + n == LeadingSpace(s)
  {
    if n > 0 {
      assert s[..n][0] == s[0];
      assert s[1..][..n - 1] == s[..n][1..];
      assert s[1..][n - 1..] == s[n..];
      LeadingSpaceAfter(s[1..], n - 1);
    }
  }

  /** Cutting off leading whitespace does not change the stripped text. */
  lemma StripAfterSpace(s: string, n: nat)
    requires n <= |s| && AllSpace(s[..n])
    ensures Strip(s[n..]) == Strip(s)
  {
    LeadingSpaceAfter(s, n);
    var a, u := LeadingSpace(s), s[n..];
    assert u[a - n..] == s[a..];
    StripInTwoSteps(s);
    StripInTwoSteps(u);
  }

  /** A block framed by backtick-free text is the first block. */
  lemma FramedBlockIsFirst(t: string, a: string, g: string, z: string)
    requires t == a + "```sql" + g + "```" + z
    requires '`' !in a && '`' !in g
    ensures FirstBlock(t, |a|, |a| + 6 + |g|)
  {
    var i, j := |a|, |a| + 6 + |g|;
    assert t[i..i + 6] == "```sql";
    assert t[j..j + 3] == "```";
    assert forall i' :: 0 <= i' < i ==> t[i'] == a[i'];
    assert forall j' :: i + 6 <= j' < j ==> t[j'] == g[j' - i - 6];
  }

  /** The search returns the group of the first block. */
  lemma FirstBlockGroup(t: string, i: nat, j: nat)
    requires FirstBlock(t, i, j)
    ensures GroupStart(t, i) <= j
    ensures FencedBlock(t) == Some(t[GroupStart(t, i)..j])
  {
    assert HasBlock(t) by {
      assert 0 <= i <= j <= |t| && OpensAt(t, i) && i + 6 <= j && ClosesAt(t, j);
    }
    FirstBlockUnique(t, i, j, BlockSpan(t).value.0, BlockSpan(t).value.1);
    GroupStartBound(t, i, j);
  }

  /** Text between the leading whitespace of `u` and an end inside `g`,
      where `u` starts with `g`, strips like `g`. */
  lemma InteriorStrips(u: string, g: string)
    requires |g| <= |u| && u[..|g|] == g && LeadingSpace(u) <= |g|
    ensures Strip(u[LeadingSpace(u)..|g|]) == Strip(g)
  {
    var n := LeadingSpace(u);
    forall i | 0 <= i < n
      ensures IsSpace(g[..n][i])
    {
      assert g[i] == u[i];
    }
    assert u[n..|g|] == g[n..];
    StripAfterSpace(g, n);
  }

  /** The group of a block whose closer starts at `j` strips like the whole
      interior. */
  lemma GroupStrips(t: string, i: nat, j: nat)
    requires i + 6 <= j < |t| && t[j] == '`'
    ensures GroupStart(t, i) <= j
    ensures Strip(t[GroupStart(t, i)..j]) == Strip(t[i + 6..j])
  {
    var u, g := t[i + 6..], t[i + 6..j];
    assert u[..|g|] == g;
    assert u[|g|] == '`';
    assert LeadingSpace(u) <= |g|;
    assert t[GroupStart(t, i)..j] == u[LeadingSpace(u)..|g|];
    InteriorStrips(u, g);
  }

  /** The group of a framed first block strips like its interior. */
  lemma FramedBlockGroup(t: string, a: string, g: string, z: string)
    requires t == a + "```sql" + g + "```" + z
    requires '`' !in a && '`' !in g
    ensures FencedBlock(t).Some?
    ensures Strip(FencedBlock(t).value) == Strip(g)
  {
    var i, j := |a|, |a| + 6 + |g|;
    FramedBlockIsFirst(t, a, g, z);
    FirstBlockGroup(t, i, j);
    assert t[i + 6..j] == g;
    assert t[j] == '`';
    GroupStrips(t, i, j);
  }

  /** When the normalised text holds a block, whatever surrounds the first
      block is ignored: the result is the clean-up of its stripped interior. */
  lemma FirstBlockUsed(text: string, a: string, g: string, z: string)
    requires NormalizeFences(text) == a + "```sql" + g + "```" + z
    requires '`' !in a && '`' !in g
    ensures ExtractSql(Some(text)) == Some(CleanUp(Strip(g)))
  {
    assert text != [];
    FramedBlockGroup(NormalizeFences(text), a, g, z);
  }

  /** The general form: the result is the clean-up of the stripped group of
      the first block of the normalised text, wherever that block lies. */
  lemma FirstBlockUsedAt(text: string, i: nat, j: nat)
    requires FirstBlock(NormalizeFences(text), i, j)
    ensures var t := NormalizeFences(text);
            GroupStart(t, i) <= j && ExtractSql(Some(text)) == Some(CleanUp(Strip(t[GroupStart(t, i)..j])))
  {
    var t := NormalizeFences(text);
    FirstBlockGroup(t, i, j);
  }

  /** Without a block, the result holds no backtick. */
  lemma NoBlockNoBacktick(text: string)
    requires text != [] && !HasBlock(NormalizeFences(text))
    ensures '`' !in ExtractSql(Some(text)).value
  {
    var t := NormalizeFences(text);
    if '`' in ExtractSql(Some(text)).value {
      StripKeepsChars(RemoveBackticks(t), '`');
    }
  }

  /** The clean-up leaves a stripped one-line statement that does not start
      with "sql " as it is. */
  lemma CleanUpOfPlainLine(g: string)
    requires Stripped(g) && '\n' !in g && !StartsWithSqlSpace(g)
    ensures CleanUp(g) == g
  {
    NoNewlineNoSqlLine(g, true);
    StripOfStripped(g);
  }

  lemma PlainFenceNormalized(g: string)
    requires '`' !in g
    ensures NormalizeFences("```sql\n" + g + "\n```") == "```sql" + ("\n" + g + "\n") + "```"
  {
    var z := "\n" + g + "\n```";
    assert "```sql\n" + g + "\n```" == "```sql" + z;
    NormalizeOpenerFront(z);
    assert z[..|z| - 3] == "\n" + g + "\n";
    NormalizeOnlyTouchesBackticks(z);
    assert "```sql" + z == "```sql" + ("\n" + g + "\n") + "```";
  }

  /** A leading "sql " in front of a one-line statement is cut off, once. */
  lemma SqlPrefixDropped(g: string)
    requires Stripped(g) && '\n' !in g
    ensures CleanUp("sql " + g) == g
  {
    var s := "sql " + g;
    assert '\n' !in s;
    NoNewlineNoSqlLine(s, true);
    assert StartsWithSqlSpace(s);
    assert s[4..] == g;
    StripOfStripped(g);
  }

  /** A one-line statement in a plain fence comes back as it was written. */
  lemma OneLineBlockExtracted(g: string)
    requires Stripped(g) && '`' !in g && '\n' !in g && !StartsWithSqlSpace(g)
    ensures ExtractSql(Some("```sql\n" + g + "\n```")) == Some(g)
  {
    var text := "```sql\n" + g + "\n```";
    var inner := "\n" + g + "\n";
    PlainFenceNormalized(g);
    assert NormalizeFences(text) == [] + "```sql" + inner + "```" + [];
    assert '`' !in inner;
    FirstBlockUsed(text, [], inner, []);
    OneLineStrip(g);
    CleanUpOfPlainLine(g);
  }

  /** A pattern starting with a backtick does not occur in backtick-free text. */
  lemma NoBacktickNoPattern(g: string, pat: string)
    requires '`' !in g && pat != [] && pat[0] == '`'
    ensures !Contains(g, pat)
  {
    forall i | 0 <= i
      ensures !OccursAt(g, pat, i)
    {
      OccurrenceStartsWith(g, pat, i);
      assert i < |g| ==> g[i] in g;
    }
  }

  /** Text without backticks goes straight to the clean-up. */
  lemma UnfencedText(g: string)
    requires g != [] && '`' !in g
    ensures ExtractSql(Some(g)) == Some(CleanUp(Strip(g)))
  {
    NoBacktickNoPattern(g, "``` sql");
    ReplaceAbsent(g, "``` sql", "```sql");
    NoBacktickNoPattern(g, "``` SQL");
    ReplaceAbsent(g, "``` SQL", "```sql");
    NoBacktickNoPattern(g, "``` Sql");
    ReplaceAbsent(g, "``` Sql", "```sql");
    assert NormalizeFences(g) == g;
    forall i | 0 <= i <= |g|
      ensures !OpensAt(g, i)
    {
      assert i < |g| ==> g[i] in g;
    }
    NoBacktickNoPattern(g, "```");
    ReplaceAbsent(g, "```", "");
    NoBacktickNoPattern(g, "`");
    ReplaceAbsent(g, "`", "");
  }

  /** Extracting from a clean one-line statement returns it trimmed. */
  lemma CleanStatementUnchanged(g: string)
    requires g != [] && '`' !in g && '\n' !in g && !StartsWithSqlSpace(Strip(g))
    ensures ExtractSql(Some(g)) == Some(Strip(g))
  {
    UnfencedText(g);
    if '\n' in Strip(g) {
      StripKeepsChars(g, '\n');
    }
    CleanUpOfPlainLine(Strip(g));
  }

  /** One pass of extraction over a one-line statement preceded by "sql ". */
  lemma PrefixedStatementExtracted(g: string)
    requires g != [] && Stripped(g) && '`' !in g && '\n' !in g
    ensures ExtractSql(Some("sql " + g)) == Some(g)
  {
    var a := "sql " + g;
    assert '`' !in a && '\n' !in a;
    UnfencedText(a);
    StrippedAfterWord("sql ", g);
    StripOfStripped(a);
    SqlPrefixDropped(g);
  }

  lemma StrippedAfterWord(w: string, g: string)
    requires w != [] && w[0] == 's' && g != [] && Stripped(g)
    ensures Stripped(w + g)
  {
    assert (w + g)[0] == w[0];
    assert (w + g)[|w + g| - 1] == g[|g| - 1];
  }

  /** Extraction is not idempotent: a doubled "sql " prefix loses one copy
      per pass. */
  lemma ExtractionNotIdempotent()
    ensures ExtractSql(Some("sql sql x")) == Some("sql x")
    ensures ExtractSql(Some("sql x")) == Some("x")
  {
    var b, x := "sql x", "x";
    assert "sql sql x" == "sql " + b && b == "sql " + x;
    assert forall i :: 0 <= i < |b| ==> b[i] != '`' && b[i] != '\n';
    assert b[0] == 's' && b[|b| - 1] == 'x';
    PrefixedStatementExtracted(b);
    assert x[0] == 'x';
    PrefixedStatementExtracted(x);
  }

  /** An occurrence of a pattern starts with the pattern's first character. */
  lemma OccurrenceStartsWith(z: string, pat: string, i: int)
    requires pat != []
    ensures OccursAt(z, pat, i) ==> z[i] == pat[0]
  {
    if OccursAt(z, pat, i) {
      assert z[i..i + |pat|][0] == z[i];
    }
  }

  /** Normalisation changes nothing in a text whose only backticks are a
      closing "```" at its end. */
  lemma NormalizeOnlyTouchesBackticks(z: string)
    requires |z| >= 3 && z[|z| - 3..] == "```" && '`' !in z[..|z| - 3]
    ensures NormalizeFences(z) == z
  {
    forall pat | IsFenceVariant(pat)
      ensures !Contains(z, pat)
    {
      forall i | 0 <= i
        ensures !OccursAt(z, pat, i)
      {
        OccurrenceStartsWith(z, pat, i);
        assert i < |z| - 3 ==> z[..|z| - 3][i] == z[i];
      }
    }
    ReplaceAbsent(z, "``` sql", "```sql");
    ReplaceAbsent(z, "``` SQL", "```sql");
    ReplaceAbsent(z, "``` Sql", "```sql");
  }

  lemma OneLineStrip(g: string)
    requires Stripped(g)
    ensures Strip("\n" + g + "\n") == g
  {
    NewlineWrappedStrip("\n", g);
  }

  lemma NewlineWrappedStrip(x: string, g: string)
    requires |x| == 1 && x[0] == '\n' && Stripped(g)
    ensures Strip(x + g + x) == g
  {
    if g == [] {
      var s := x + g + x;
      assert s[1..] == x && s[1..][1..] == [];
      assert LeadingSpace(s) == 2;
    } else {
      assert x + g + x == x + (g + x);
      StripFrontSpace(x, g + x);
      StripBackSpace(g, x);
    }
  }

  lemma StripFrontSpace(x: string, t: string)
    requires |x| == 1 && IsSpace(x[0])
    ensures Strip(x + t) == Strip(t)
  {
    assert AllSpace((x + t)[..1]);
    StripAfterSpace(x + t, 1);
    assert (x + t)[1..] == t;
  }

  lemma StripBackSpace(g: string, x: string)
    requires |x| == 1 && IsSpace(x[0]) && g != [] && Stripped(g)
    ensures Strip(g + x) == g
  {
    var t := g + x;
    assert t[0] == g[0];
    assert LeadingSpace(t) == 0;
    assert t[..|t| - 1] == g;
    assert TrailingSpace(g) == 0;
    assert TrailingSpace(t) == 1;
    assert t[0..|t| - 1] == g;
  }

  /** A match always ends with a line feed. */
  lemma MatchNeedsNewline(s: string)
    ensures SqlLineMatch(s).Some? ==> '\n' in s
  {
    if SqlLineMatch(s).Some? {
      assert s[SqlLineMatch(s).value - 1] == '\n';
    }
  }

  /** A text without line feeds holds no `sql` line. */
  lemma {:induction false} NoNewlineNoSqlLine(s: string, atStart: bool)
    requires '\n' !in s
    ensures RemoveSqlLines(s, atStart) == s
    decreases |s|
  {
    if s != [] {
      MatchNeedsNewline(s);
      assert forall c :: c in s[1..] ==> c in s;
      NoNewlineNoSqlLine(s[1..], false);
    }
  }

  /** `n` lines each holding only `sql`. */
  function SqlLines(n: nat): (r: string)
    ensures |r| == 4 * n
  {
    if n == 0 then [] else "sql\n" + SqlLines(n - 1)
  }

  /** A bare "sql" line followed by a non-space is matched in full. */
  lemma BareSqlLineMatch(tail: string)
    requires tail == [] || !IsSpace(tail[0])
    ensures SqlLineMatch("sql\n" + tail) == Some(4)
  {
    var s := "sql\n" + tail;
    assert s[0] == 's' && s[3] == '\n';
    assert SpaceEnd(s, 0) == 0;
    assert SpaceEnd(s, 4) == 4 by {
      assert 4 < |s| ==> s[4] == tail[0];
    }
    assert SpaceEnd(s, 3) == 4;
    assert LastNewlineIn(s, 3, 4) == Some(3);
  }

  /** Every bare "sql" line of a run at the front is removed, not just the
      first; `BareSqlLineDroppedAfter` covers such a line after other text. */
  lemma {:induction false} BareSqlLinesRemoved(n: nat, rest: string)
    requires rest == [] || !IsSpace(rest[0])
    ensures RemoveSqlLines(SqlLines(n) + rest, true) == RemoveSqlLines(rest, true)
  {
    BareLinesRemoved(SqlLines(n), n, rest);
  }

  lemma {:induction false} BareLinesRemoved(lines: string, n: nat, rest: string)
    requires lines == SqlLines(n)
    requires rest == [] || !IsSpace(rest[0])
    ensures RemoveSqlLines(lines + rest, true) == RemoveSqlLines(rest, true)
    decreases n
  {
    if n > 0 {
      var tail := SqlLines(n - 1) + rest;
      SqlLinesFront(n, rest);
      BareLinesRemoved(SqlLines(n - 1), n - 1, rest);
      BareSqlLineDroppedBefore(lines + rest, tail, rest);
    } else {
      NoSqlLines(n, rest);
    }
  }

  lemma NoSqlLines(n: nat, rest: string)
    requires n == 0
    ensures SqlLines(n) + rest == rest
  {
  }

  lemma SqlLinesFront(n: nat, rest: string)
    requires n > 0 && (rest == [] || !IsSpace(rest[0]))
    ensures SqlLines(n) + rest == "sql\n" + (SqlLines(n - 1) + rest)
    ensures var tail := SqlLines(n - 1) + rest; tail == [] || !IsSpace(tail[0])
  {
    var tail := SqlLines(n - 1) + rest;
    if n - 1 > 0 {
      assert tail[0] == 's';
    }
  }

  lemma BareSqlLineDroppedBefore(s: string, tail: string, rest: string)
    requires s == "sql\n" + tail && (tail == [] || !IsSpace(tail[0]))
    requires RemoveSqlLines(tail, true) == RemoveSqlLines(rest, true)
    ensures RemoveSqlLines(s, true) == RemoveSqlLines(rest, true)
  {
    BareSqlLineDropped(tail);
  }

  lemma BareSqlLineDropped(tail: string)
    requires tail == [] || !IsSpace(tail[0])
    ensures RemoveSqlLines("sql\n" + tail, true) == RemoveSqlLines(tail, true)
  {
    BareSqlLineMatch(tail);
    assert ("sql\n" + tail)[4..] == tail;
  }

  // ---------------------------------------------------------------------------
  // Lines after other text
  // ---------------------------------------------------------------------------

  /** `a` ends a line whose last other character is not whitespace, so no
      match of the pattern inside `a` can run on past it; a lone line feed
      qualifies only where `^` does not hold at it. */
  predicate EndsLine(a: string, atStart: bool)
  {
    && |a| >= 1 && a[|a| - 1] == '\n'
    && (if |a| == 1 then !atStart else !IsSpace(a[|a| - 2]))
  }

  lemma {:induction false} SpaceEndAppend(a: string, b: string, i: nat)
    requires i <= |a| && (b == [] || !IsSpace(b[0]))
    ensures SpaceEnd(a + b, i) == SpaceEnd(a, i)
    decreases |a| - i
  {
    if i < |a| {
      assert (a + b)[i] == a[i];
      if IsSpace(a[i]) {
        SpaceEndAppend(a, b, i + 1);
      }
    } else if b != [] {
      assert (a + b)[i] == b[0];
    }
  }

  lemma {:induction false} LastNewlineAppend(a: string, b: string, i: nat, j: nat)
    requires i <= j <= |a|
    ensures LastNewlineIn(a + b, i, j) == LastNewlineIn(a, i, j)
    decreases j - i
  {
    if i < j {
      assert (a + b)[j - 1] == a[j - 1];
      LastNewlineAppend(a, b, i, j - 1);
    }
  }

  /** Text after a finished line does not change the match at the front. */
  lemma SqlLineMatchAppend(a: string, b: string)
    requires |a| >= 2 && EndsLine(a, true) && (b == [] || !IsSpace(b[0]))
    ensures SqlLineMatch(a + b) == SqlLineMatch(a)
  {
    var s := a + b;
    SpaceEndAppend(a, b, 0);
    var w := SpaceEnd(a, 0);
    assert w <= |a| - 2;
    var word := SqlWordAt(a, w);
    if w + 3 <= |a| {
      assert s[w] == a[w] && s[w + 1] == a[w + 1] && s[w + 2] == a[w + 2];
      SpaceEndAppend(a, b, w + 3);
      var m := LastNewlineIn(a, w + 3, SpaceEnd(a, w + 3));
      LastNewlineAppend(a, b, w + 3, SpaceEnd(a, w + 3));
      SqlLineMatchFrom(s, w, word, m);
      SqlLineMatchFrom(a, w, word, m);
    } else {
      assert s[w + 1] == '\n';
      SqlLineMatchFrom(s, w, false, None);
      SqlLineMatchFrom(a, w, false, None);
    }
  }

  /** `SqlLineMatch` from its parts: the word's position, whether the word
      is there, and the last line feed after it. */
  lemma SqlLineMatchFrom(s: string, w: nat, word: bool, m: Option<nat>)
    requires w == SpaceEnd(s, 0) && word == SqlWordAt(s, w)
    requires word ==> m == LastNewlineIn(s, w + 3, SpaceEnd(s, w + 3))
    ensures SqlLineMatch(s) == if !word || m.None? then None else Some(m.value + 1)
  {
  }

  /** Removing the lines from a text is removing them from a finished first
      part and, where `^` holds again, from the rest. */
  lemma {:induction false} RemoveSqlLinesAppend(a: string, b: string, atStart: bool)
    requires EndsLine(a, atStart) && (b == [] || !IsSpace(b[0]))
    ensures RemoveSqlLines(a + b, atStart) == RemoveSqlLines(a, atStart) + RemoveSqlLines(b, true)
    decreases |a|, 1
  {
    if |a| >= 2 {
      SqlLineMatchAppend(a, b);
    }
    if atStart && SqlLineMatch(a).Some? {
      AppendAtMatch(a, b, atStart, SqlLineMatch(a).value);
    } else {
      AppendCopyingFront(a, b, atStart);
    }
  }

  /** `RemoveSqlLinesAppend` where a line is removed at the front of `a`. */
  lemma {:induction false} AppendAtMatch(a: string, b: string, atStart: bool, e: nat)
    requires EndsLine(a, atStart) && (b == [] || !IsSpace(b[0]))
    requires atStart && SqlLineMatch(a) == Some(e) && SqlLineMatch(a + b) == Some(e)
    ensures RemoveSqlLines(a + b, atStart) == RemoveSqlLines(a, atStart) + RemoveSqlLines(b, true)
    decreases |a|, 0
  {
    RemovalAtMatch(a + b, atStart, e);
    RemovalAtMatch(a, atStart, e);
    if e < |a| {
      MatchEndsWithNewline(a);
      EndsLineAfterNewline(a, atStart, e);
      RemoveSqlLinesAppend(a[e..], b, true);
      DropAppend(a, b, e);
    } else {
      DropAllAppend(a, b, e);
    }
  }


  /** A removed line ends with its line feed. */
  lemma MatchEndsWithNewline(s: string)
    requires SqlLineMatch(s).Some?
    ensures s[SqlLineMatch(s).value - 1] == '\n'
  {
  }

  /** `RemoveSqlLinesAppend` where the front character of `a` is kept. */
  lemma {:induction false} AppendCopyingFront(a: string, b: string, atStart: bool)
    requires EndsLine(a, atStart) && (b == [] || !IsSpace(b[0]))
    requires !(atStart && SqlLineMatch(a).Some?) && !(atStart && SqlLineMatch(a + b).Some?)
    ensures RemoveSqlLines(a + b, atStart) == RemoveSqlLines(a, atStart) + RemoveSqlLines(b, true)
    decreases |a|, 0
  {
    RemovalCopiesFront(a + b, atStart);
    RemovalCopiesFront(a, atStart);
    DropAppend(a, b, 1);
    if |a| >= 2 {
      EndsLineAfterNewline(a, atStart, 1);
      RemoveSqlLinesAppend(a[1..], b, a[0] == '\n');
      ConsAssoc(a[0], RemoveSqlLines(a[1..], a[0] == '\n'), RemoveSqlLines(b, true));
    } else {
      DropAll(a, b, 1);
    }
  }

  /** A cut after a newline of a finished part leaves a finished part. The
      cut cannot fall just before the last newline, whose predecessor is not
      a space. */
  lemma EndsLineAfterNewline(a: string, atStart: bool, k: nat)
    requires EndsLine(a, atStart) && 0 < k < |a|
    requires k == 1 || a[k - 1] == '\n'
    ensures EndsLine(a[k..], a[k - 1] == '\n')
  {
    assert a[k..][|a| - k - 1] == a[|a| - 1];
    if |a| - k >= 2 {
      assert a[k..][|a| - k - 2] == a[|a| - 2];
    }
  }

  lemma DropAppend(a: string, b: string, k: nat)
    requires 0 < k <= |a|
    ensures (a + b)[0] == a[0]
    ensures (a + b)[k..] == a[k..] + b
  {
  }

  lemma ConsAssoc(c: char, x: string, z: string)
    ensures [c] + (x + z) == ([c] + x) + z
  {
  }

  lemma DropAllAppend(a: string, b: string, k: nat)
    requires k == |a|
    ensures RemoveSqlLines((a + b)[k..], true) == RemoveSqlLines(a[k..], true) + RemoveSqlLines(b, true)
  {
    assert (a + b)[k..] == b;
    assert a[k..] == [];
  }

  lemma DropAll(a: string, b: string, k: nat)
    requires k == |a|
    ensures a[k..] + b == b && RemoveSqlLines(a[k..], true) == []
  {
    assert a[k..] == [];
  }

  lemma RemovalAtMatch(s: string, atStart: bool, e: nat)
    requires s != [] && atStart && SqlLineMatch(s) == Some(e)
    ensures RemoveSqlLines(s, atStart) == RemoveSqlLines(s[e..], true)
  {
  }

  lemma RemovalCopiesFront(s: string, atStart: bool)
    requires s != [] && !(atStart && SqlLineMatch(s).Some?)
    ensures RemoveSqlLines(s, atStart) == [s[0]] + RemoveSqlLines(s[1..], s[0] == '\n')
  {
  }

  /** A bare "sql" line after a finished line is removed too. */
  lemma BareSqlLineDroppedAfter(a: string, tail: string, atStart: bool)
    requires |a| >= 2 && a[|a| - 1] == '\n' && !IsSpace(a[|a| - 2])
    requires tail == [] || !IsSpace(tail[0])
    ensures RemoveSqlLines(a + "sql\n" + tail, atStart) == RemoveSqlLines(a, atStart) + RemoveSqlLines(tail, true)
  {
    var b := "sql\n" + tail;
    assert a + "sql\n" + tail == a + b;
    assert b[0] == 's';
    RemoveSqlLinesAppend(a, b, atStart);
    BareSqlLineDropped(tail);
  }
}
