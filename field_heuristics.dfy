/** The crawler's two field heuristics: `_find_age`, five regular expressions
    tried in priority order, and `_find_gender`, a vote between two lists of
    gendered tokens. */
module FieldHeuristics {
  import opened Wrappers
  import opened Text

  // ---------------------------------------------------------------------------
  // The five age patterns, searched as Python's `re.search(p, text, re.IGNORECASE)` does
  // ---------------------------------------------------------------------------

  /** The regular-expression class `\w` (its ASCII part). */
  predicate IsWordChar(c: char) {
    IsDigit(c) || ('a' <= c <= 'z') || ('A' <= c <= 'Z') || c == '_'
  }

  /** The class `[\s-]`. */
  predicate SpaceOrHyphen(c: char) { IsSpace(c) || c == '-' }

  /** The class `[:\s]`. */
  predicate ColonOrSpace(c: char) { c == ':' || IsSpace(c) }

  /** The lower-case literal `lit` occurs at index `i`, ignoring case. */
  predicate LiteralAt(s: string, i: nat, lit: string) {
    i + |lit| <= |s| && Lower(s[i..i + |lit|]) == lit
  }

  /** `\b` at index `p`, right after a word character. */
  predicate WordEndsAt(s: string, p: nat) {
    p >= |s| || !IsWordChar(s[p])
  }

  /** `\b` at index `i`, right before a word character. */
  predicate WordStartsAt(s: string, i: nat) {
    i == 0 || (i <= |s| && !IsWordChar(s[i - 1]))
  }

  /** A capture of `(\d+)`: a non-empty run of digits. */
  predicate IsGroup(g: Option<string>) {
    g.Some? ==> g.value != [] && AllDigits(g.value)
  }

  // In each pattern, a greedy repetition can never give back characters
  // usefully: the item after it excludes the repeated class (after `\d+`
  // comes `[\s-]`, `\s` or `y`; after `\s+` comes a digit or a letter), and
  // an optional letter (`d?`, `/?`, `s?`) is always followed by an item it
  // does not match. So the match attempt at a start index is deterministic,
  // with every run taken maximal, and that is how it is written below.

  /** `(\d+)[\s-]year[\s-]old`, attempted at index `i`; the result is group 1. */
  function YearOldAt(s: string, i: nat): (g: Option<string>)
    requires i <= |s|
    ensures IsGroup(g)
  {
    var j := RunEnd(s, i, IsDigit);
    if j > i && j < |s| && SpaceOrHyphen(s[j]) && LiteralAt(s, j + 1, "year")
       && j + 5 < |s| && SpaceOrHyphen(s[j + 5]) && LiteralAt(s, j + 6, "old")
    then Some(s[i..j]) else None
  }

  /** `aged?\s+(\d+)`, attempted at index `i`. */
  function AgedAt(s: string, i: nat): (g: Option<string>)
    requires i <= |s|
    ensures IsGroup(g)
  {
    if !LiteralAt(s, i, "age") then None
    else
      var a := if i + 3 < |s| && LowerChar(s[i + 3]) == 'd' then i + 4 else i + 3;
      var w := RunEnd(s, a, IsSpace);
      var j := RunEnd(s, w, IsDigit);
      if w > a && j > w then Some(s[w..j]) else None
  }

  /** `(\d+)[\s-]y/?o\b`, attempted at index `i`. */
  function YoAt(s: string, i: nat): (g: Option<string>)
    requires i <= |s|
    ensures IsGroup(g)
  {
    var j := RunEnd(s, i, IsDigit);
    if !(j > i && j + 1 < |s| && SpaceOrHyphen(s[j]) && LowerChar(s[j + 1]) == 'y') then None
    else
      var o := if j + 2 < |s| && s[j + 2] == '/' then j + 3 else j + 2;
      if o < |s| && LowerChar(s[o]) == 'o' && WordEndsAt(s, o + 1) then Some(s[i..j]) else None
  }

  /** `age[:\s]+(\d+)`, attempted at index `i`. */
  function AgeColonAt(s: string, i: nat): (g: Option<string>)
    requires i <= |s|
    ensures IsGroup(g)
  {
    if !LiteralAt(s, i, "age") then None
    else
      var w := RunEnd(s, i + 3, ColonOrSpace);
      var j := RunEnd(s, w, IsDigit);
      if w > i + 3 && j > w then Some(s[w..j]) else None
  }

  /** `\b(\d+)\s*years?\s+of\s+age`, attempted at index `i`. */
  function YearsOfAgeAt(s: string, i: nat): (g: Option<string>)
    requires i <= |s|
    ensures IsGroup(g)
  {
    var j := RunEnd(s, i, IsDigit);
    if !(j > i && WordStartsAt(s, i)) then None
    else
      var y := RunEnd(s, j, IsSpace);
      if !LiteralAt(s, y, "year") then None
      else
        var p := if y + 4 < |s| && LowerChar(s[y + 4]) == 's' then y + 5 else y + 4;
        var q := RunEnd(s, p, IsSpace);
        if !(q > p && LiteralAt(s, q, "of")) then None
        else
          var r := RunEnd(s, q + 2, IsSpace);
          if r > q + 2 && LiteralAt(s, r, "age") then Some(s[i..j]) else None
  }

  /** The number of age patterns. */
  const PatternCount := 5

  /** Pattern `k` of `_find_age`'s list, attempted at index `i`. */
  function MatchAt(k: nat, s: string, i: nat): (g: Option<string>)
    requires k < PatternCount && i <= |s|
    ensures IsGroup(g)
  {
    if k == 0 then YearOldAt(s, i)
    else if k == 1 then AgedAt(s, i)
    else if k == 2 then YoAt(s, i)
    else if k == 3 then AgeColonAt(s, i)
    else YearsOfAgeAt(s, i)
  }

  /** Pattern `k` attempted at every index of `s` (and nothing past its end). */
  function Attempt(k: nat, s: string): nat -> Option<string>
    requires k < PatternCount
  {
    (p: nat) => if p <= |s| then MatchAt(k, s, p) else None
  }

  /** The scan of `re.search`: the first of the attempts at `i, i + 1, .., n`
      that succeeds. */
  function FirstFrom(at: nat -> Option<string>, n: nat, i: nat): Option<string>
    requires i <= n
    decreases n - i
  {
    if at(i).Some? then at(i)
    else if i == n then None
    else FirstFrom(at, n, i + 1)
  }

  /** The scan finds nothing exactly when no attempt from `i` on succeeds. */
  lemma {:induction false} FirstNoneIff(at: nat -> Option<string>, n: nat, i: nat)
    requires i <= n
    ensures FirstFrom(at, n, i).None? <==> forall p :: i <= p <= n ==> at(p).None?
    decreases n - i
  {
    if at(i).None? && i < n {
      FirstNoneIff(at, n, i + 1);
      assert forall p :: i <= p <= n ==> at(p).None? <==> p == i || i + 1 <= p <= n ==> at(p).None?;
    }
  }

  /** A success of the scan is the leftmost successful attempt. */
  lemma {:induction false} FirstIsLeftmost(at: nat -> Option<string>, n: nat, i: nat)
    requires i <= n
    ensures FirstFrom(at, n, i).Some? ==>
      exists p :: i <= p <= n && at(p) == FirstFrom(at, n, i) &&
        forall q :: i <= q < p ==> at(q).None?
    decreases n - i
  {
    if at(i).None? && i < n && FirstFrom(at, n, i).Some? {
      FirstIsLeftmost(at, n, i + 1);
      var p :| i + 1 <= p <= n && at(p) == FirstFrom(at, n, i + 1) &&
        forall q :: i + 1 <= q < p ==> at(q).None?;
      assert forall q :: i <= q < p ==> at(q).None?;
    } else if at(i).Some? {
      assert at(i) == FirstFrom(at, n, i);
    }
  }

  /** `re.search(patterns[k], s, re.IGNORECASE).group(1)`, or None when there is no match. */
  function Search(k: nat, s: string): (g: Option<string>)
    requires k < PatternCount
    ensures IsGroup(g)
  {
    FirstIsLeftmost(Attempt(k, s), |s|, 0);
    FirstFrom(Attempt(k, s), |s|, 0)
  }

  /** The search fails exactly when the pattern matches at no start index, and
      otherwise returns the capture of the leftmost start index at which it matches. */
  lemma SearchIsLeftmost(k: nat, s: string)
    requires k < PatternCount
    ensures Search(k, s).None? <==> forall p :: 0 <= p <= |s| ==> MatchAt(k, s, p).None?
    ensures Search(k, s).Some? ==>
      exists p :: 0 <= p <= |s| && MatchAt(k, s, p) == Search(k, s) &&
        forall q :: 0 <= q < p ==> MatchAt(k, s, q).None?
  {
    var at := Attempt(k, s);
    FirstNoneIff(at, |s|, 0);
    FirstIsLeftmost(at, |s|, 0);
    assert forall p :: 0 <= p <= |s| ==> at(p) == MatchAt(k, s, p);
  }

  // ---------------------------------------------------------------------------
  // _find_age
  // ---------------------------------------------------------------------------

  /** The age pattern `k` proposes: the value of its first match, when `0 < age < 120`. */
  function Candidate(k: nat, text: string): (v: Option<nat>)
    requires k < PatternCount
    ensures v.Some? ==> 0 < v.value < 120
  {
    match Search(k, text)
    case None => None
    case Some(g) =>
      var age := DigitsValue(g);
      if 0 < age < 120 then Some(age) else None
  }

  /** What `_find_age` returns once patterns `0 .. k-1` have produced nothing. */
  function AgeFrom(text: string, k: nat): string
    requires k <= PatternCount
    decreases PatternCount - k
  {
    if k == PatternCount then ""
    else match Candidate(k, text)
      case Some(age) => NatToString(age)
      case None => AgeFrom(text, k + 1)
  }

  /** `_find_age(text)`. */
  function Age(text: string): string {
    AgeFrom(text, 0)
  }

  /** `_find_age`, as the source writes it: a loop over the patterns with an early return. */
  method FindAge(text: string) returns (age: string)
    ensures age == Age(text)
    ensures age == "" || exists n :: 0 < n < 120 && age == NatToString(n)
  {
    for k := 0 to PatternCount
      invariant AgeFrom(text, k) == Age(text)
    {
      var m := Search(k, text);
      if m.Some? {
        var value := DigitsValue(m.value);
        if 0 < value < 120 {
          AgeIsDecimal(text);
          return NatToString(value);
        }
      }
    }
    return "";
  }

  /** The age is `''` or the canonical decimal form of an integer in `(0, 120)`:
      one to three digits, no leading zero, and it reads back as that integer. */
  lemma AgeIsDecimal(text: string)
    ensures Age(text) == "" || exists n :: 0 < n < 120 && Age(text) == NatToString(n)
    ensures Age(text) != "" ==>
      1 <= |Age(text)| <= 3 && AllDigits(Age(text)) && Age(text)[0] != '0' &&
      0 < DigitsValue(Age(text)) < 120
  {
    AgePriority(text, 0);
    if Age(text) != "" {
      var j :| 0 <= j < PatternCount && Candidate(j, text).Some? &&
        Age(text) == NatToString(Candidate(j, text).value);
      SmallDecimal(Candidate(j, text).value);
    }
  }

  /** `str(n)` for `0 < n < 120` has one to three digits and reads back as `n`. */
  lemma SmallDecimal(n: nat)
    requires 0 < n < 120
    ensures 1 <= |NatToString(n)| <= 3 && NatToString(n)[0] != '0'
    ensures DigitsValue(NatToString(n)) == n
  {
    DecimalRoundTrip(n);
    if n >= 10 {
      assert |NatToString(n)| == |NatToString(n / 10)| + 1;
      if n >= 100 {
        assert |NatToString(n / 10)| == |NatToString(n / 100)| + 1;
      }
    }
  }

  /** The patterns are tried in their fixed order: the age comes from the
      first pattern whose first match is in range, and a pattern whose first
      match is out of range (or that does not match) passes to the next. */
  lemma {:induction false} AgePriority(text: string, k: nat)
    requires k <= PatternCount
    ensures AgeFrom(text, k) == "" <==> forall j :: k <= j < PatternCount ==> Candidate(j, text).None?
    ensures AgeFrom(text, k) != "" ==>
      exists j :: k <= j < PatternCount && Candidate(j, text).Some? &&
        AgeFrom(text, k) == NatToString(Candidate(j, text).value) &&
        forall i :: k <= i < j ==> Candidate(i, text).None?
    decreases PatternCount - k
  {
    if k < PatternCount && Candidate(k, text).None? {
      AgePriority(text, k + 1);
      if AgeFrom(text, k) != "" {
        var j :| k + 1 <= j < PatternCount && Candidate(j, text).Some? &&
          AgeFrom(text, k + 1) == NatToString(Candidate(j, text).value) &&
          forall i :: k + 1 <= i < j ==> Candidate(i, text).None?;
        assert forall i :: k <= i < j ==> Candidate(i, text).None?;
      }
    }
  }

  // ---------------------------------------------------------------------------
  // _find_gender
  // ---------------------------------------------------------------------------

  const MaleTokens: seq<string> := ["male patient", " man ", " boy ", " he ", " his "]
  const FemaleTokens: seq<string> := ["female patient", " woman ", " girl ", " she ", " her "]

  /** The sum of `t.count(token)` over the tokens. */
  function Score(t: string, tokens: seq<string>): nat
  {
    if tokens == [] then 0 else CountOf(t, tokens[0]) + Score(t, tokens[1..])
  }

  /** `_find_gender(text)`: the side with the strictly higher token count, `''` on a tie. */
  function FindGender(text: string): (g: string)
    ensures g == "Male" || g == "Female" || g == ""
    ensures g == "Male" <==> Score(Lower(text), MaleTokens) > Score(Lower(text), FemaleTokens)
    ensures g == "Female" <==> Score(Lower(text), FemaleTokens) > Score(Lower(text), MaleTokens)
    ensures g == "" <==> Score(Lower(text), MaleTokens) == Score(Lower(text), FemaleTokens)
  {
    var lower := Lower(text);
    var male := Score(lower, MaleTokens);
    var female := Score(lower, FemaleTokens);
    if male > female && male > 0 then "Male"
    else if female > male && female > 0 then "Female"
    else ""
  }

  /** A score is zero exactly when none of its (non-empty) tokens occurs. */
  lemma {:induction false} ScoreZeroIff(t: string, tokens: seq<string>)
    requires forall i :: 0 <= i < |tokens| ==> tokens[i] != []
    ensures Score(t, tokens) == 0 <==> forall i :: 0 <= i < |tokens| ==> !Contains(t, tokens[i])
    decreases |tokens|
  {
    if tokens != [] {
      CountZeroIff(t, tokens[0]);
      ScoreZeroIff(t, tokens[1..]);
      assert forall i :: 1 <= i < |tokens| ==> tokens[i] == tokens[1..][i - 1];
    }
  }

  /** A label is only ever given on evidence: some token of its own list occurs
      in the lower-cased text. */
  lemma GenderNeedsEvidence(text: string)
    ensures FindGender(text) == "Male" ==>
      exists i :: 0 <= i < |MaleTokens| && Contains(Lower(text), MaleTokens[i])
    ensures FindGender(text) == "Female" ==>
      exists i :: 0 <= i < |FemaleTokens| && Contains(Lower(text), FemaleTokens[i])
  {
    ScoreZeroIff(Lower(text), MaleTokens);
    ScoreZeroIff(Lower(text), FemaleTokens);
  }

  /** Every occurrence of the female token "female patient" also contains the
      male token "male patient", so that cue alone never decides the vote. */
  lemma FemalePatientIsAlsoMale(t: string)
    ensures Contains(t, "female patient") ==> Contains(t, "male patient")
  {
    ContainsIffOccurs(t, "female patient");
    ContainsIffOccurs(t, "male patient");
    if Contains(t, "female patient") {
      var i :| 0 <= i <= |t| && OccursAt(t, "female patient", i);
      assert t[i + 2..i + 14] == t[i..i + 14][2..];
      assert OccursAt(t, "male patient", i + 2);
    }
  }
}
