/** The parts of Python's `str` the crawler's text processing relies on:
    `isspace`, `strip`, `split`, `join`, `lower`, `in`, `count`, `replace`,
    slicing, and `int`/`str` on decimal numbers. */
module Text {

  // ---------------------------------------------------------------------------
  // Whitespace, stripping
  // ---------------------------------------------------------------------------

  /** Python's `str.isspace()` for one character: the set that `strip()`,
      `split()` and the regular-expression class `\s` share. */
  predicate IsSpace(c: char) {
    ('\U{9}' <= c <= '\U{D}') || ('\U{1C}' <= c <= '\U{20}') || c == '\U{85}' || c == '\U{A0}'
    || c == '\U{1680}' || ('\U{2000}' <= c <= '\U{200A}') || c == '\U{2028}' || c == '\U{2029}'
    || c == '\U{202F}' || c == '\U{205F}' || c == '\U{3000}'
  }

  predicate NotSpace(c: char) { !IsSpace(c) }

  /** No whitespace at either end. */
  predicate Trimmed(s: string) {
    s == [] || (!IsSpace(s[0]) && !IsSpace(s[|s| - 1]))
  }

  /** The end of the longest run of characters of one class that starts at `i`. */
  function RunEnd(s: string, i: nat, inClass: char -> bool): (j: nat)
    requires i <= |s|
    ensures i <= j <= |s|
    ensures forall k :: i <= k < j ==> inClass(s[k])
    ensures j == |s| || !inClass(s[j])
    decreases |s| - i
  {
    if i < |s| && inClass(s[i]) then RunEnd(s, i + 1, inClass) else i
  }

  /** `s.strip()`: drops whitespace from both ends, one character at a time. */
  function Strip(s: string): string
    decreases |s|
  {
    if s != [] && IsSpace(s[0]) then Strip(s[1..])
    else if s != [] && IsSpace(s[|s| - 1]) then Strip(s[..|s| - 1])
    else s
  }

  /** `strip()` leaves no whitespace at either end, and leaves nothing
      exactly when the string is all whitespace. */
  lemma {:induction false} StripSpec(s: string)
    ensures Trimmed(Strip(s))
    ensures Strip(s) == [] <==> forall k :: 0 <= k < |s| ==> IsSpace(s[k])
    decreases |s|
  {
    if s != [] && IsSpace(s[0]) {
      var t := s[1..];
      StripSpec(t);
      assert forall k :: 1 <= k < |s| ==> s[k] == t[k - 1];
    } else if s != [] && IsSpace(s[|s| - 1]) {
      var t := s[..|s| - 1];
      StripSpec(t);
      assert forall k :: 0 <= k < |t| ==> s[k] == t[k];
      assert !IsSpace(s[0]);
    } else if s != [] {
      assert !IsSpace(s[0]);
    }
  }

  /** Only whitespace before `i` and from `j` on. */
  predicate SpaceOutside(s: string, i: nat, j: nat) {
    i <= j <= |s| &&
    (forall k :: 0 <= k < i ==> IsSpace(s[k])) &&
    (forall k :: j <= k < |s| ==> IsSpace(s[k]))
  }

  /** What `strip()` keeps is one stretch of the string: everything before
      it and everything after it is whitespace. */
  lemma {:induction false} StripIsSlice(s: string)
    ensures exists i: nat, j: nat :: SpaceOutside(s, i, j) && Strip(s) == s[i..j]
    decreases |s|
  {
    if s != [] && IsSpace(s[0]) {
      var t := s[1..];
      StripIsSlice(t);
      var i: nat, j: nat :| SpaceOutside(t, i, j) && Strip(t) == t[i..j];
      DropOneOutside(s, i, j);
      assert t[i..j] == s[i + 1..j + 1];
    } else if s != [] && IsSpace(s[|s| - 1]) {
      var t := s[..|s| - 1];
      StripIsSlice(t);
      var i: nat, j: nat :| SpaceOutside(t, i, j) && Strip(t) == t[i..j];
      DropLastOutside(s, i, j);
      assert t[i..j] == s[i..j];
    } else {
      assert SpaceOutside(s, 0, |s|) && Strip(s) == s[0..|s|];
    }
  }

  lemma DropOneOutside(s: string, i: nat, j: nat)
    requires s != [] && IsSpace(s[0]) && SpaceOutside(s[1..], i, j)
    ensures SpaceOutside(s, i + 1, j + 1)
  {
    assert forall k :: 1 <= k < |s| ==> s[k] == s[1..][k - 1];
  }

  lemma DropLastOutside(s: string, i: nat, j: nat)
    requires s != [] && IsSpace(s[|s| - 1]) && SpaceOutside(s[..|s| - 1], i, j)
    ensures SpaceOutside(s, i, j)
  {
    assert forall k :: 0 <= k < |s| - 1 ==> s[k] == s[..|s| - 1][k];
  }

  // ---------------------------------------------------------------------------
  // split() and join()
  // ---------------------------------------------------------------------------

  /** A piece of `str.split()`'s result: non-empty, no whitespace. */
  predicate IsWord(w: string) {
    w != [] && forall k :: 0 <= k < |w| ==> !IsSpace(w[k])
  }

  /** `s.split()` with no separator: the maximal runs of non-whitespace, in order. */
  function Split(s: string): (ws: seq<string>)
    ensures forall i :: 0 <= i < |ws| ==> IsWord(ws[i])
    decreases |s|
  {
    if s == [] then []
    else if IsSpace(s[0]) then Split(s[1..])
    else
      var j := RunEnd(s, 0, NotSpace);
      assert j > 0;
      [s[..j]] + Split(s[j..])
  }

  /** `sep.join(ws)`. */
  function Join(ws: seq<string>, sep: string): string
  {
    if ws == [] then ""
    else if |ws| == 1 then ws[0]
    else ws[0] + sep + Join(ws[1..], sep)
  }

  /** `' '.join(s.split())`: collapses every whitespace run to one space and trims both ends. */
  function Normalize(s: string): string {
    Join(Split(s), " ")
  }

  /** The shape of a normalised string: the only whitespace is a single ' '
      with a non-whitespace character on each side. */
  predicate Normal(t: string) {
    forall i :: 0 <= i < |t| && IsSpace(t[i]) ==>
      t[i] == ' ' && 0 < i < |t| - 1 && !IsSpace(t[i + 1])
  }

  lemma {:induction false} JoinStartsWithFirst(ws: seq<string>, sep: string)
    requires ws != []
    ensures |Join(ws, sep)| >= |ws[0]| && Join(ws, sep)[..|ws[0]|] == ws[0]
  {
  }

  lemma {:induction false} JoinWordsNormal(ws: seq<string>)
    requires forall i :: 0 <= i < |ws| ==> IsWord(ws[i])
    ensures Normal(Join(ws, " "))
    ensures ws != [] ==> Join(ws, " ") != [] && !IsSpace(Join(ws, " ")[0])
    decreases |ws|
  {
    if |ws| == 1 {
      assert Join(ws, " ") == ws[0];
    } else if |ws| > 1 {
      var w := ws[0];
      var rest := Join(ws[1..], " ");
      JoinWordsNormal(ws[1..]);
      var t := Join(ws, " ");
      assert t == w + " " + rest;
      assert IsWord(w);
      assert forall k :: 0 <= k < |w| ==> t[k] == w[k];
      assert forall k :: 0 <= k < |rest| ==> t[|w| + 1 + k] == rest[k];
      forall i | 0 <= i < |t| && IsSpace(t[i])
        ensures t[i] == ' ' && 0 < i < |t| - 1 && !IsSpace(t[i + 1])
      {
        if i > |w| {
          assert t[i] == rest[i - |w| - 1];
        }
      }
      assert t[0] == w[0];
    }
  }

  /** Every result of Normalize has the normal shape (so it is trimmed and has no double spaces). */
  lemma NormalizeIsNormal(s: string)
    ensures Normal(Normalize(s)) && Trimmed(Normalize(s))
  {
    JoinWordsNormal(Split(s));
  }

  /** No whitespace anywhere. */
  predicate NoSpace(s: string) {
    forall k :: 0 <= k < |s| ==> !IsSpace(s[k])
  }

  lemma NoSpaceAppend(a: string, b: string)
    requires NoSpace(a) && NoSpace(b)
    ensures NoSpace(a + b)
  {
    assert forall k :: |a| <= k < |a + b| ==> (a + b)[k] == b[k - |a|];
  }

  /** A single word is left as it is by the clean-up. */
  lemma NormalizeWord(w: string)
    requires IsWord(w)
    ensures Normalize(w) == w
  {
    var j := RunEnd(w, 0, NotSpace);
    assert j == |w|;
    assert w[j..] == [] && w[..j] == w;
    assert Split(w) == [w];
  }

  /** Splitting a space-joined list of words gives the words back. */
  lemma {:induction false} SplitJoin(ws: seq<string>)
    requires forall i :: 0 <= i < |ws| ==> IsWord(ws[i])
    ensures Split(Join(ws, " ")) == ws
    decreases |ws|
  {
    if ws == [] {
    } else if |ws| == 1 {
      var w := ws[0];
      assert IsWord(w);
      var j := RunEnd(w, 0, NotSpace);
      assert j == |w|;
      assert w[j..] == [];
      assert w[..j] == w;
    } else {
      var w := ws[0];
      var rest := Join(ws[1..], " ");
      var s := Join(ws, " ");
      assert s == w + " " + rest;
      assert IsWord(w);
      assert s[0] == w[0];
      var j := RunEnd(s, 0, NotSpace);
      assert forall k :: 0 <= k < |w| ==> s[k] == w[k];
      assert s[|w|] == ' ';
      assert j == |w|;
      assert s[..j] == w;
      assert s[j..] == " " + rest;
      assert (" " + rest)[1..] == rest;
      SplitJoin(ws[1..]);
    }
  }

  /** `' '.join(s.split())` is idempotent. */
  lemma NormalizeIdempotent(s: string)
    ensures Normalize(Normalize(s)) == Normalize(s)
  {
    SplitJoin(Split(s));
  }

  lemma {:induction false} JoinAppend(a: seq<string>, b: seq<string>, sep: string)
    ensures Join(a + b, sep) ==
      if a == [] then Join(b, sep)
      else if b == [] then Join(a, sep)
      else Join(a, sep) + sep + Join(b, sep)
    decreases |a|
  {
    if a == [] {
      assert a + b == b;
    } else if b == [] {
      assert a + b == a;
    } else if |a| == 1 {
      assert (a + b)[0] == a[0] && (a + b)[1..] == b;
    } else {
      assert (a + b)[0] == a[0] && (a + b)[1..] == a[1..] + b;
      JoinAppend(a[1..], b, sep);
    }
  }

  /** The non-whitespace characters of `s`, in order. */
  function Unspaced(s: string): (r: string)
    ensures NoSpace(r)
    decreases |s|
  {
    if s == [] then []
    else (if IsSpace(s[0]) then [] else [s[0]]) + Unspaced(s[1..])
  }

  lemma {:induction false} UnspacedAppend(a: string, b: string)
    ensures Unspaced(a + b) == Unspaced(a) + Unspaced(b)
    decreases |a|
  {
    if a == [] {
      assert a + b == b;
    } else {
      assert (a + b)[0] == a[0] && (a + b)[1..] == a[1..] + b;
      UnspacedAppend(a[1..], b);
    }
  }

  lemma {:induction false} UnspacedNoSpace(w: string)
    requires NoSpace(w)
    ensures Unspaced(w) == w
    decreases |w|
  {
    if w != [] {
      UnspacedNoSpace(w[1..]);
    }
  }

  /** The pieces of `split()`, put back together with nothing between
      them, are exactly the non-whitespace characters of the string. */
  lemma {:induction false} SplitKeepsText(s: string)
    ensures Join(Split(s), "") == Unspaced(s)
    decreases |s|
  {
    if s == [] {
    } else if IsSpace(s[0]) {
      SplitKeepsText(s[1..]);
    } else {
      var j := RunEnd(s, 0, NotSpace);
      var w, rest := s[..j], s[j..];
      assert s == w + rest;
      SplitKeepsText(rest);
      JoinAppend([w], Split(rest), "");
      UnspacedAppend(w, rest);
      UnspacedNoSpace(w);
      assert Split(s) == [w] + Split(rest);
    }
  }

  /** A single word splits into itself. */
  lemma SplitWord(w: string)
    requires IsWord(w)
    ensures Split(w) == [w]
  {
    var j := RunEnd(w, 0, NotSpace);
    assert j == |w|;
    assert w[j..] == [] && w[..j] == w;
  }

  /** A word run that starts a string ends at the same place when more text
      follows, as long as that text starts with whitespace. */
  lemma RunEndBeforeSpace(a: string, c: char, b: string)
    requires a != [] && !IsSpace(a[0]) && IsSpace(c)
    ensures var s := a + [c] + b;
      RunEnd(s, 0, NotSpace) == RunEnd(a, 0, NotSpace) &&
      s[..RunEnd(a, 0, NotSpace)] == a[..RunEnd(a, 0, NotSpace)] &&
      s[RunEnd(a, 0, NotSpace)..] == a[RunEnd(a, 0, NotSpace)..] + [c] + b
  {
    var s := a + [c] + b;
    assert forall k :: 0 <= k < |a| ==> s[k] == a[k];
    assert s[|a|] == c;
  }

  /** `split()` breaks at every whitespace character: the pieces of
      `a + c + b` for a whitespace `c` are those of `a`, then those of `b`. */
  lemma {:induction false} SplitAtSpace(a: string, c: char, b: string)
    requires IsSpace(c)
    ensures Split(a + [c] + b) == Split(a) + Split(b)
    decreases |a|
  {
    var s := a + [c] + b;
    if a == [] {
      assert s[1..] == b;
    } else if IsSpace(a[0]) {
      assert s[1..] == a[1..] + [c] + b;
      SplitAtSpace(a[1..], c, b);
    } else {
      var ja := RunEnd(a, 0, NotSpace);
      RunEndBeforeSpace(a, c, b);
      SplitAtSpace(a[ja..], c, b);
    }
  }

  /** A word starts at `k`: a non-whitespace character at the start of the
      string or right after whitespace. */
  predicate WordStart(s: string, k: nat)
    requires k < |s|
  {
    !IsSpace(s[k]) && (k == 0 || IsSpace(s[k - 1]))
  }

  /** How many words start before position `n`. */
  function StartsBelow(s: string, n: nat): nat
    requires n <= |s|
  {
    if n == 0 then 0 else StartsBelow(s, n - 1) + (if WordStart(s, n - 1) then 1 else 0)
  }

  /** Cutting the string at a point that is not inside a word splits the
      count of word starts. */
  lemma {:induction false} StartsBelowCut(s: string, d: nat, n: nat)
    requires d + n <= |s|
    requires d < |s| && !IsSpace(s[d]) ==> d == 0 || IsSpace(s[d - 1])
    ensures StartsBelow(s, d + n) == StartsBelow(s, d) + StartsBelow(s[d..], n)
  {
    if n > 0 {
      StartsBelowCut(s, d, n - 1);
      assert WordStart(s, d + n - 1) == WordStart(s[d..], n - 1);
    }
  }

  /** Inside a word only its first character starts one. */
  lemma {:induction false} StartsBelowWord(s: string, n: nat)
    requires 0 < n <= |s|
    requires forall k :: 0 <= k < n ==> !IsSpace(s[k])
    ensures StartsBelow(s, n) == 1
  {
    if n > 1 {
      StartsBelowWord(s, n - 1);
    }
  }

  /** There is one piece of `split()` for every word start, so the pieces
      are the maximal runs of non-whitespace and none is cut in two. */
  lemma {:induction false} SplitCountsWords(s: string)
    ensures |Split(s)| == StartsBelow(s, |s|)
    decreases |s|
  {
    if s == [] {
    } else if IsSpace(s[0]) {
      SplitCountsWords(s[1..]);
      StartsBelowCut(s, 1, |s| - 1);
    } else {
      var j := RunEnd(s, 0, NotSpace);
      SplitCountsWords(s[j..]);
      StartsBelowCut(s, j, |s| - j);
      StartsBelowWord(s, j);
    }
  }

  // ---------------------------------------------------------------------------
  // ' '.join(filter(None, xs))
  // ---------------------------------------------------------------------------

  /** `filter(None, xs)` on a list of strings: drops the empty ones. */
  function NonEmpty(xs: seq<string>): seq<string>
    decreases |xs|
  {
    if xs == [] then []
    else NonEmpty(xs[..|xs| - 1]) + (if xs[|xs| - 1] == [] then [] else [xs[|xs| - 1]])
  }

  lemma {:induction false} NonEmptyEntries(xs: seq<string>)
    ensures forall i :: 0 <= i < |NonEmpty(xs)| ==> NonEmpty(xs)[i] != []
    decreases |xs|
  {
    if xs != [] {
      NonEmptyEntries(xs[..|xs| - 1]);
    }
  }

  /** Two pieces of joined text meet with one space; an empty piece adds nothing. */
  function Combine(x: string, y: string): string {
    if x == "" then y else if y == "" then x else x + " " + y
  }

  /** `' '.join(filter(None, xs))`, built entry by entry: each non-empty
      entry is joined to the text so far with one space. */
  function JoinNonEmpty(xs: seq<string>): string
    decreases |xs|
  {
    if xs == [] then "" else Combine(JoinNonEmpty(xs[..|xs| - 1]), xs[|xs| - 1])
  }

  /** The entry-by-entry join is the single-space join of the filtered list. */
  lemma {:induction false} JoinNonEmptyIsJoinOfFilter(xs: seq<string>)
    ensures JoinNonEmpty(xs) == Join(NonEmpty(xs), " ")
    decreases |xs|
  {
    if xs != [] {
      var init, x := xs[..|xs| - 1], xs[|xs| - 1];
      JoinNonEmptyIsJoinOfFilter(init);
      JoinAppend(NonEmpty(init), if x == [] then [] else [x], " ");
      if NonEmpty(init) != [] {
        NonEmptyEntries(init);
        JoinStartsWithFirst(NonEmpty(init), " ");
      }
    }
  }

  lemma CombineAssociative(x: string, y: string, z: string)
    ensures Combine(Combine(x, y), z) == Combine(x, Combine(y, z))
  {
    if x != "" && y != "" && z != "" {
      assert (x + " " + y) + " " + z == x + " " + (y + " " + z);
    }
  }

  lemma {:induction false} JoinNonEmptyAppend(a: seq<string>, b: seq<string>)
    ensures JoinNonEmpty(a + b) == Combine(JoinNonEmpty(a), JoinNonEmpty(b))
    decreases |b|
  {
    if b == [] {
      assert a + b == a;
    } else {
      var init := b[..|b| - 1];
      assert (a + b)[..|a + b| - 1] == a + init;
      assert (a + b)[|a + b| - 1] == b[|b| - 1];
      JoinNonEmptyAppend(a, init);
      CombineAssociative(JoinNonEmpty(a), JoinNonEmpty(init), b[|b| - 1]);
    }
  }

  lemma JoinNonEmptySingle(x: string)
    ensures JoinNonEmpty([x]) == x
  {
    assert [x][..0] == [];
  }

  /** The join is empty exactly when every entry is. */
  lemma {:induction false} JoinNonEmptyIsEmpty(xs: seq<string>)
    ensures JoinNonEmpty(xs) == "" <==> forall x :: x in xs ==> x == ""
    decreases |xs|
  {
    if xs != [] {
      var init := xs[..|xs| - 1];
      JoinNonEmptyIsEmpty(init);
      assert xs == init + [xs[|xs| - 1]];
      assert forall x :: x in xs <==> x in init || x == xs[|xs| - 1];
      var j, x := JoinNonEmpty(init), xs[|xs| - 1];
      assert JoinNonEmpty(xs) == Combine(j, x);
      if j == "" && x == "" {
        assert forall y :: y in xs ==> y == "";
      } else if x != "" {
        assert x in xs && JoinNonEmpty(xs) != "";
      } else {
        var y :| y in init && y != "";
        assert y in xs;
      }
    }
  }

  /** Joining trimmed strings gives a trimmed string. */
  lemma {:induction false} JoinNonEmptyTrimmed(xs: seq<string>)
    requires forall x :: x in xs ==> Trimmed(x)
    ensures Trimmed(JoinNonEmpty(xs))
    decreases |xs|
  {
    if xs != [] {
      var init, x := xs[..|xs| - 1], xs[|xs| - 1];
      assert forall y :: y in init ==> y in xs;
      assert x in xs;
      JoinNonEmptyTrimmed(init);
      var j := JoinNonEmpty(init);
      if j != "" && x != "" {
        assert (j + " " + x)[0] == j[0];
        assert (j + " " + x)[|j + " " + x| - 1] == x[|x| - 1];
      }
    }
  }

  // ---------------------------------------------------------------------------
  // lower(), `in`, count(), replace(), slicing
  // ---------------------------------------------------------------------------

  /** `c.lower()` for ASCII letters; other characters are left as they are. */
  function LowerChar(c: char): char {
    if 'A' <= c <= 'Z' then (c as int + 32) as char else c
  }

  /** `s.lower()`. */
  function Lower(s: string): (r: string)
    ensures |r| == |s|
    ensures forall i :: 0 <= i < |s| ==> r[i] == LowerChar(s[i])
    decreases |s|
  {
    if s == [] then [] else [LowerChar(s[0])] + Lower(s[1..])
  }

  /** `p` occurs in `s` starting at index `i`. */
  predicate OccursAt(s: string, p: string, i: nat) {
    i + |p| <= |s| && s[i..i + |p|] == p
  }

  /** Python's `p in s`. */
  predicate Contains(s: string, p: string)
    decreases |s|
  {
    |p| <= |s| && (s[..|p|] == p || (s != [] && Contains(s[1..], p)))
  }

  lemma {:induction false} ContainsIffOccurs(s: string, p: string)
    ensures Contains(s, p) <==> exists i :: 0 <= i <= |s| && OccursAt(s, p, i)
    decreases |s|
  {
    if |p| <= |s| && s[..|p|] == p {
      assert OccursAt(s, p, 0);
    } else if |p| <= |s| && s != [] {
      ContainsIffOccurs(s[1..], p);
      if Contains(s[1..], p) {
        var i :| 0 <= i <= |s[1..]| && OccursAt(s[1..], p, i);
        assert s[1..][i..i + |p|] == s[i + 1..i + 1 + |p|];
        assert OccursAt(s, p, i + 1);
      }
      if i :| 0 <= i <= |s| && OccursAt(s, p, i) {
        if i > 0 {
          assert s[1..][i - 1..i - 1 + |p|] == s[i..i + |p|];
          assert OccursAt(s[1..], p, i - 1);
        }
      }
    }
  }

  /** Python's `s.count(p)`: non-overlapping occurrences, scanning left to right. */
  function CountOf(s: string, p: string): nat
    decreases |s|
  {
    if |p| == 0 then |s| + 1
    else if |p| > |s| then 0
    else if s[..|p|] == p then 1 + CountOf(s[|p|..], p)
    else CountOf(s[1..], p)
  }

  /** A non-empty pattern is counted at least once exactly when it occurs. */
  lemma {:induction false} CountZeroIff(s: string, p: string)
    requires p != []
    ensures CountOf(s, p) == 0 <==> !Contains(s, p)
    decreases |s|
  {
    if |p| <= |s| && s[..|p|] != p {
      CountZeroIff(s[1..], p);
    }
  }

  /** The counted occurrences do not overlap: together they fit in `s`. */
  lemma {:induction false} CountNonOverlapping(s: string, p: string)
    requires p != []
    ensures CountOf(s, p) * |p| <= |s|
    decreases |s|
  {
    if |p| <= |s| {
      if s[..|p|] == p {
        var c := CountOf(s[|p|..], p);
        CountNonOverlapping(s[|p|..], p);
        assert CountOf(s, p) == c + 1;
        MulSucc(c, |p|);
      } else {
        CountNonOverlapping(s[1..], p);
      }
    }
  }

  lemma MulSucc(c: nat, n: nat)
    ensures (c + 1) * n == c * n + n
  {
  }

  /** `s.replace(a, b)` for single characters. */
  function ReplaceChar(s: string, a: char, b: char): (r: string)
    ensures |r| == |s|
    ensures forall i :: 0 <= i < |s| ==> r[i] == if s[i] == a then b else s[i]
    decreases |s|
  {
    if s == [] then [] else [if s[0] == a then b else s[0]] + ReplaceChar(s[1..], a, b)
  }

  /** `s[:n]`. */
  function Take(s: string, n: nat): (r: string)
    ensures |r| == if |s| <= n then |s| else n
    ensures r == s[..|r|]
  {
    if |s| <= n then s else s[..n]
  }

  // ---------------------------------------------------------------------------
  // Decimal numbers: int(digits) and str(n)
  // ---------------------------------------------------------------------------

  /** ASCII decimal digit. */
  predicate IsDigit(c: char) { '0' <= c <= '9' }

  predicate AllDigits(s: string) {
    forall k :: 0 <= k < |s| ==> IsDigit(s[k])
  }

  /** `int(ds)` for a string of decimal digits. */
  function DigitsValue(ds: string): nat
    requires AllDigits(ds)
    decreases |ds|
  {
    if ds == [] then 0
    else 10 * DigitsValue(ds[..|ds| - 1]) + (ds[|ds| - 1] as int - '0' as int)
  }

  /** `str(n)`: the canonical decimal form, no leading zero. */
  function NatToString(n: nat): (r: string)
    ensures r != [] && AllDigits(r)
    ensures n > 0 ==> r[0] != '0'
    ensures n < 10 ==> |r| == 1
    decreases n
  {
    if n < 10 then [('0' as int + n) as char]
    else NatToString(n / 10) + [('0' as int + n % 10) as char]
  }

  /** `int(str(n)) == n`. */
  lemma {:induction false} DecimalRoundTrip(n: nat)
    ensures DigitsValue(NatToString(n)) == n
    decreases n
  {
    if n >= 10 {
      var p := NatToString(n / 10);
      var r := NatToString(n);
      assert r == p + [('0' as int + n % 10) as char];
      assert r[..|r| - 1] == p;
      DecimalRoundTrip(n / 10);
    }
  }
}
