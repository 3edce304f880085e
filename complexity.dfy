/**
  The complexity classifier `detect_complexity` and the three-tier model
  routing of `run_ollama_with_routing`: a keyword score over the lower-cased
  question picks a level 1, 2 or 3, and each level names one model.
*/
module Complexity {
  import opened Text

  /** Cue words of simple questions. The classifier declares them but never
      consults them. */
  const Level1Keywords: seq<string> := ["list", "show", "find all", "count", "simple", "basic"]
  /** Structural cues, one point each. */
  const Level2Keywords: seq<string> := ["join", "group by", "sum", "average", "per", "between", "filter on", "nested"]
  /** Advanced cues, two points each. */
  const Level3Keywords: seq<string> := ["rank", "window", "partition", "recursive", "cte", "top", "advanced", "correlated"]

  /** How many entries of `keywords` occur as substrings of `q`. */
  function Hits(q: string, keywords: seq<string>): (n: nat)
    ensures n <= |keywords|
  {
    if keywords == [] then 0
    else Hits(q, keywords[..|keywords| - 1]) + (if Contains(q, keywords[|keywords| - 1]) then 1 else 0)
  }

  /** The classifier's score: one point per structural cue and two per advanced
      cue found in the lower-cased question. */
  function Score(question: string): nat
  {
    Hits(Lower(question), Level2Keywords) + 2 * Hits(Lower(question), Level3Keywords)
  }

  /** The thresholds that turn a score into a level. */
  function Level(score: nat): (level: int)
    ensures 1 <= level <= 3
    ensures level == 1 <==> score == 0
    ensures level == 2 <==> 1 <= score <= 3
    ensures level == 3 <==> score >= 4
  {
    if score == 0 then 1 else if score <= 3 then 2 else 3
  }

  /** `detect_complexity`, with its two scoring loops. */
  method DetectComplexity(question: string) returns (level: int)
    ensures level == Level(Score(question))
    ensures 1 <= level <= 3
  {
    var q := Lower(question);
    var score := 0;
    for i := 0 to |Level2Keywords|
      invariant score == Hits(q, Level2Keywords[..i])
    {
      assert Level2Keywords[..i + 1][..i] == Level2Keywords[..i];
      if Contains(q, Level2Keywords[i]) {
        score := score + 1;
      }
    }
    assert Level2Keywords[..|Level2Keywords|] == Level2Keywords;
    for i := 0 to |Level3Keywords|
      invariant score == Hits(q, Level2Keywords) + 2 * Hits(q, Level3Keywords[..i])
    {
      assert Level3Keywords[..i + 1][..i] == Level3Keywords[..i];
      if Contains(q, Level3Keywords[i]) {
        score := score + 2;
      }
    }
    assert Level3Keywords[..|Level3Keywords|] == Level3Keywords;
    if score == 0 {
      return 1;
    }
    if score <= 3 {
      return 2;
    }
    return 3;
  }

  /** The model each level is routed to. */
  function ModelFor(level: int): (model: string)
  {
    if level == 1 then "llama3"
    else if level == 2 then "llama3:instruct"
    else "llama3.1-70b"
  }

  /** The routing is one-to-one on the three levels. */
  lemma RoutingIsInjective(l1: int, l2: int)
    requires 1 <= l1 <= 3 && 1 <= l2 <= 3
    ensures ModelFor(l1) == ModelFor(l2) <==> l1 == l2
  {
    assert "llama3"[6..] == [];
    assert |"llama3:instruct"| != |"llama3.1-70b"|;
  }

  // ---------------------------------------------------------------------------
  // The score counts distinct keywords
  // ---------------------------------------------------------------------------

  predicate Distinct(keywords: seq<string>)
  {
    forall i, j :: 0 <= i < j < |keywords| ==> keywords[i] != keywords[j]
  }

  /** The set of entries of `keywords` that occur in `q`. */
  function Found(q: string, keywords: seq<string>): set<string>
  {
    set k | k in keywords && Contains(q, k)
  }

  lemma {:induction false} HitsCountsDistinct(q: string, keywords: seq<string>)
    requires Distinct(keywords)
    ensures Hits(q, keywords) == |Found(q, keywords)|
  {
    if keywords != [] {
      var init, last := keywords[..|keywords| - 1], keywords[|keywords| - 1];
      assert Distinct(init);
      HitsCountsDistinct(q, init);
      assert keywords == init + [last];
      assert last !in init;
      if Contains(q, last) {
        assert Found(q, keywords) == Found(q, init) + {last};
      } else {
        assert Found(q, keywords) == Found(q, init);
      }
    }
  }

  /** The score is the number of distinct structural cues in the lower-cased
      question plus twice the number of distinct advanced cues. */
  lemma ScoreIsDistinctCueCount(question: string)
    ensures Score(question) ==
      |Found(Lower(question), Level2Keywords)| + 2 * |Found(Lower(question), Level3Keywords)|
  {
    assert Distinct(Level2Keywords);
    assert Distinct(Level3Keywords);
    HitsCountsDistinct(Lower(question), Level2Keywords);
    HitsCountsDistinct(Lower(question), Level3Keywords);
  }

  /** Two distinct advanced cues are enough for level 3, whatever else the
      question holds. */
  lemma TwoAdvancedCuesAreHard(question: string, a: string, b: string)
    requires a in Level3Keywords && b in Level3Keywords && a != b
    requires Contains(Lower(question), a) && Contains(Lower(question), b)
    ensures Level(Score(question)) == 3
  {
    ScoreIsDistinctCueCount(question);
    assert {a, b} <= Found(Lower(question), Level3Keywords);
    assert |{a, b}| == 2;
    SubsetCard({a, b}, Found(Lower(question), Level3Keywords));
  }

  lemma SubsetCard(a: set<string>, b: set<string>)
    requires a <= b
    ensures |a| <= |b|
  {
    assert b == a + (b - a);
  }

  /** A question with no structural or advanced cue is level 1, and one with
      some cue is not. */
  lemma NoCueIsSimple(question: string)
    ensures Level(Score(question)) == 1 <==>
      (forall k :: k in Level2Keywords + Level3Keywords ==> !Contains(Lower(question), k))
  {
    ScoreIsDistinctCueCount(question);
    var q := Lower(question);
    if exists k :: k in Level2Keywords && Contains(q, k) {
      var k :| k in Level2Keywords && Contains(q, k);
      assert k in Found(q, Level2Keywords);
    }
    if exists k :: k in Level3Keywords && Contains(q, k) {
      var k :| k in Level3Keywords && Contains(q, k);
      assert k in Found(q, Level3Keywords);
    }
    if forall k :: k in Level2Keywords + Level3Keywords ==> !Contains(q, k) {
      assert Found(q, Level2Keywords) == {};
      assert Found(q, Level3Keywords) == {};
    }
  }
  // ---------------------------------------------------------------------------
  // Level-1 cue words never move the score
  // ---------------------------------------------------------------------------

  /** A string that lacks one character of `k` does not contain `k`. */
  lemma TooLongToOccur(s: string, k: string)
    requires |k| > |s|
    ensures !Contains(s, k)
  {
  }

  lemma CharMissing(s: string, k: string, c: char)
    requires c in k && c !in s
    ensures !Contains(s, k)
  {
    var j :| 0 <= j < |k| && k[j] == c;
    forall i | 0 <= i < |s|
      ensures !OccursAt(s, k, i)
    {
      if i + |k| <= |s| {
        assert s[i..i + |k|][j] == s[i + j];
      }
    }
  }

  /** An occurrence in `a + b` lies inside `a`, inside `b`, or straddles the
      seam, and then a proper suffix of `k` begins `b`. */
  lemma OccurrenceInAppend(a: string, b: string, k: string)
    ensures Contains(a + b, k) ==>
      Contains(a, k) || Contains(b, k) || exists p :: 0 < p < |k| && k[p..] <= b
  {
    if Contains(a + b, k) {
      var i :| OccursAt(a + b, k, i);
      var ab := a + b;
      assert forall j :: 0 <= j < |k| ==> k[j] == ab[i + j];
      if i + |k| <= |a| {
        assert a[i..i + |k|] == k;
        assert OccursAt(a, k, i);
      } else if i >= |a| {
        assert b[i - |a|..i - |a| + |k|] == k;
        assert OccursAt(b, k, i - |a|);
      } else {
        var p := |a| - i;
        assert k[p..] == b[..|k| - p];
        assert k[p..] <= b;
      }
    }
  }

  lemma OccurrenceSurvivesAppend(a: string, b: string, k: string)
    ensures Contains(a, k) ==> Contains(a + b, k)
  {
    if Contains(a, k) {
      var i :| OccursAt(a, k, i);
      assert (a + b)[i..i + |k|] == a[i..i + |k|];
      assert OccursAt(a + b, k, i);
    }
  }

  /** No scoring cue occurs inside a space followed by a level-1 cue word:
      the cue is longer, or one of its characters is missing there. */
  lemma ScoringCueNotInLevel1Word(k1: string, k: string)
    requires k1 in Level1Keywords && k in Level2Keywords + Level3Keywords
    ensures !Contains(" " + k1, k)
  {
    if k1 == "list" || k1 == "show" {
      NoCueInFourLetterWord(k1, k);
    } else if k1 == "find all" {
      NoCueInFindAll(k1, k);
    } else if k1 == "count" || k1 == "basic" {
      NoCueInFiveLetterWord(k1, k);
    } else {
      NoCueInSimple(k1, k);
    }
  }

  /** A space and a four-letter word that lacks j, u, p, r and c ("list",
      "show") hold no scoring cue: the short cues each have one of those
      letters, and the others are too long. */
  lemma NoCueInFourLetterWord(k1: string, k: string)
    requires |k1| == 4 && 'j' !in k1 && 'u' !in k1 && 'p' !in k1 && 'r' !in k1 && 'c' !in k1
    requires k in Level2Keywords + Level3Keywords
    ensures !Contains(" " + k1, k)
  {
    var w := " " + k1;
    assert forall c :: c in w ==> c == ' ' || c in k1;
    if k == "join" {
      CharMissing(w, k, 'j');
    } else if k == "sum" {
      CharMissing(w, k, 'u');
    } else if k == "per" || k == "top" {
      CharMissing(w, k, 'p');
    } else if k == "rank" {
      CharMissing(w, k, 'r');
    } else if k == "cte" {
      CharMissing(w, k, 'c');
    } else {
      TooLongToOccur(w, k);
    }
  }

  lemma NoCueInFindAll(k1: string, k: string)
    requires k1 == "find all" && k in Level2Keywords + Level3Keywords
    ensures !Contains(" " + k1, k)
  {
    assert " " + k1 == " find all";
    if k in Level2Keywords {
      NoStructuralCueInFindAll(k);
    } else {
      NoAdvancedCueInFindAll(k);
    }
  }

  lemma NoStructuralCueInFindAll(k: string)
    requires k in Level2Keywords
    ensures !Contains(" find all", k)
  {
    if k == "join" {
      CharMissing(" find all", k, 'j');
    } else if k == "group by" {
      CharMissing(" find all", k, 'g');
    } else if k == "sum" {
      CharMissing(" find all", k, 's');
    } else if k == "average" {
      CharMissing(" find all", k, 'v');
    } else if k == "per" {
      CharMissing(" find all", k, 'p');
    } else if k == "between" {
      CharMissing(" find all", k, 'b');
    } else if k == "filter on" {
      CharMissing(" find all", k, 't');
    } else {
      CharMissing(" find all", k, 'e');
    }
  }

  lemma NoAdvancedCueInFindAll(k: string)
    requires k in Level3Keywords
    ensures !Contains(" find all", k)
  {
    if k == "rank" {
      CharMissing(" find all", k, 'r');
    } else if k == "window" {
      CharMissing(" find all", k, 'w');
    } else if k == "partition" {
      CharMissing(" find all", k, 'p');
    } else if k == "recursive" {
      CharMissing(" find all", k, 'r');
    } else if k == "cte" {
      CharMissing(" find all", k, 'c');
    } else if k == "top" {
      CharMissing(" find all", k, 't');
    } else if k == "advanced" {
      CharMissing(" find all", k, 'v');
    } else {
      CharMissing(" find all", k, 'c');
    }
  }

  /** A space and a five-letter word that lacks j, m, p, e, r and w
      ("count", "basic") hold no scoring cue. */
  lemma NoCueInFiveLetterWord(k1: string, k: string)
    requires |k1| == 5 && 'j' !in k1 && 'm' !in k1 && 'p' !in k1 && 'e' !in k1 && 'r' !in k1 && 'w' !in k1
    requires k in Level2Keywords + Level3Keywords
    ensures !Contains(" " + k1, k)
  {
    var w := " " + k1;
    assert forall c :: c in w ==> c == ' ' || c in k1;
    if k == "join" {
      CharMissing(w, k, 'j');
    } else if k == "sum" {
      CharMissing(w, k, 'm');
    } else if k == "per" || k == "top" {
      CharMissing(w, k, 'p');
    } else if k == "nested" || k == "cte" {
      CharMissing(w, k, 'e');
    } else if k == "rank" {
      CharMissing(w, k, 'r');
    } else if k == "window" {
      CharMissing(w, k, 'w');
    } else {
      TooLongToOccur(w, k);
    }
  }

  lemma NoCueInSimple(k1: string, k: string)
    requires k1 == "simple" && k in Level2Keywords + Level3Keywords
    ensures !Contains(" " + k1, k)
  {
    assert " " + k1 == " simple";
    if k in Level2Keywords {
      NoStructuralCueInSimple(k);
    } else {
      NoAdvancedCueInSimple(k);
    }
  }

  lemma NoStructuralCueInSimple(k: string)
    requires k in Level2Keywords
    ensures !Contains(" simple", k)
  {
    if k == "join" {
      CharMissing(" simple", k, 'j');
    } else if k == "sum" {
      CharMissing(" simple", k, 'u');
    } else if k == "average" {
      CharMissing(" simple", k, 'a');
    } else if k == "per" {
      CharMissing(" simple", k, 'r');
    } else if k == "between" {
      CharMissing(" simple", k, 'b');
    } else if k == "nested" {
      CharMissing(" simple", k, 'n');
    }
  }

  lemma NoAdvancedCueInSimple(k: string)
    requires k in Level3Keywords
    ensures !Contains(" simple", k)
  {
    if k == "rank" {
      CharMissing(" simple", k, 'r');
    } else if k == "window" {
      CharMissing(" simple", k, 'w');
    } else if k == "cte" {
      CharMissing(" simple", k, 'c');
    } else if k == "top" {
      CharMissing(" simple", k, 't');
    }
  }

  /** No scoring cue straddles the end of a question and an appended space
      and level-1 word: the straddling part would begin with the space, and
      the two cues that hold a space go on with "by" and "on", with which no
      level-1 word begins. */
  lemma ScoringCueNotAcrossSeam(k1: string, k: string)
    requires k1 in Level1Keywords && k in Level2Keywords + Level3Keywords
    ensures forall p :: 0 < p < |k| ==> !(k[p..] <= " " + k1)
  {
    if k == "group by" || k == "filter on" {
      SpacedCueNotAcrossSeam(k1, k);
    } else {
      var b := " " + k1;
      SpaceOnlyInTwoCues(k);
      forall p | 0 < p < |k|
        ensures !(k[p..] <= b)
      {
        assert k[p] in k;
      }
    }
  }

  /** The two cues holding a space go on after it with "by" and "on". */
  lemma SpacedCueNotAcrossSeam(k1: string, k: string)
    requires k1 in Level1Keywords && (k == "group by" || k == "filter on")
    ensures forall p :: 0 < p < |k| ==> !(k[p..] <= " " + k1)
  {
    var b := " " + k1;
    assert k1[0] != 'o' && (k1[0] == 'b' ==> k1[1] == 'a');
    assert b[1] == k1[0] && b[2] == k1[1];
    forall p | 0 < p < |k|
      ensures !(k[p..] <= b)
    {
      if k == "group by" {
        assert k[p] == ' ' ==> p == 5;
        assert k[5..] == " by";
      } else {
        assert k[p] == ' ' ==> p == 6;
        assert k[6..] == " on";
      }
    }
  }

  lemma SpaceOnlyInTwoCues(k: string)
    requires k in Level2Keywords + Level3Keywords && k != "group by" && k != "filter on"
    ensures ' ' !in k
  {
  }

  lemma {:induction false} HitsAgree(q: string, q': string, keywords: seq<string>)
    requires forall k :: k in keywords ==> Contains(q, k) == Contains(q', k)
    ensures Hits(q, keywords) == Hits(q', keywords)
  {
    if keywords != [] {
      HitsAgree(q, q', keywords[..|keywords| - 1]);
    }
  }

  /** One scoring cue is found in `q` followed by a space and a level-1 word
      exactly when it is found in `q`. */
  lemma CueUnaffectedByLevel1Word(q: string, k1: string, k: string)
    requires k1 in Level1Keywords && k in Level2Keywords + Level3Keywords
    ensures Contains(q + " " + k1, k) == Contains(q, k)
  {
    var b := " " + k1;
    assert q + " " + k1 == q + b;
    ScoringCueNotInLevel1Word(k1, k);
    ScoringCueNotAcrossSeam(k1, k);
    OccurrenceInAppend(q, b, k);
    OccurrenceSurvivesAppend(q, b, k);
  }

  lemma Level1WordIsLowerCase(question: string, k1: string)
    requires k1 in Level1Keywords
    ensures Lower(question + " " + k1) == Lower(question) + " " + k1
  {
    var b := " " + k1;
    assert forall i :: 0 <= i < |b| ==> !('A' <= b[i] <= 'Z');
    assert question + " " + k1 == question + b;
    assert Lower(question) + " " + k1 == Lower(question) + b;
  }

  /** Appending a level-1 cue word (after a space) to a question never
      changes its score: the level-1 list plays no part in the classifier. */
  lemma Level1WordAddsNothing(question: string, k1: string)
    requires k1 in Level1Keywords
    ensures Score(question + " " + k1) == Score(question)
  {
    var q := Lower(question);
    Level1WordIsLowerCase(question, k1);
    forall k | k in Level2Keywords + Level3Keywords
      ensures Contains(q + " " + k1, k) == Contains(q, k)
    {
      CueUnaffectedByLevel1Word(q, k1, k);
    }
    HitsAgree(q + " " + k1, q, Level2Keywords);
    HitsAgree(q + " " + k1, q, Level3Keywords);
  }
}
