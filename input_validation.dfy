/** The question filter `is_valid_input` applied before a question reaches
    the generation loop. */
module InputValidation {
  import opened Text

  /** `re.search(r"[A-Za-z]", s)` succeeds. */
  function HasAsciiLetter(s: string): (r: bool)
    ensures r <==> exists i :: 0 <= i < |s| && IsAsciiLetter(s[i])
  {
    if s == [] then false
    else if IsAsciiLetter(s[0]) then true
    else
      var r := HasAsciiLetter(s[1..]);
      assert forall i :: 0 < i < |s| ==> s[i] == s[1..][i - 1];
      r
  }

  /** `is_valid_input`: the trimmed question is non-empty and at least three
      characters long, and the question holds an ASCII letter. The non-empty
      test is subsumed by the length test. */
  function IsValidInput(question: string): (ok: bool)
    ensures ok <==> |Strip(question)| >= 3 && exists i :: 0 <= i < |question| && IsAsciiLetter(question[i])
  {
    |Strip(question)| > 0 && HasAsciiLetter(question) && |Strip(question)| >= 3
  }

  /** A two-letter question is rejected before any attempt is made. */
  lemma TooShortRejected()
    ensures !IsValidInput("ok")
  {
    assert |Strip("ok")| <= 2;
  }

  /** A question made only of punctuation and digits is rejected whatever its length. */
  lemma NoLetterRejected(question: string)
    requires forall i :: 0 <= i < |question| ==> !IsAsciiLetter(question[i])
    ensures !IsValidInput(question)
  {
  }

  lemma ListCustomersAccepted()
    ensures IsValidInput("list all customers")
  {
    var q := "list all customers";
    assert !IsSpace(q[0]) && !IsSpace(q[|q| - 1]);
    StripOfStripped(q);
    assert IsAsciiLetter(q[0]);
  }
}
