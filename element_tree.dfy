/** An XML element tree as `xml.etree.ElementTree` presents it, and the
    crawler's `extract_text_recursive`, which flattens an element to text. */
module ElementTree {
  import opened Wrappers
  import opened Text

  /** An element: optional leading text, ordered children, and the optional
      tail text that follows the element inside its parent. Tags and
      attributes play no part in flattening and are not modelled. */
  datatype Elem = Elem(text: Option<string>, children: seq<Elem>, tail: Option<string>)

  /** What `if t: texts.append(t.strip())` adds: nothing for `None` or `''`. */
  function TextPiece(t: Option<string>): seq<string> {
    if t.Some? && t.value != "" then [Strip(t.value)] else []
  }

  /** The `texts` list of `extract_text_recursive(e)` after its first `k`
      children: the stripped leading text, then for each child its own
      flattening and its stripped tail. */
  function Pieces(e: Elem, k: nat): seq<string>
    requires k <= |e.children|
    decreases e, k
  {
    if k == 0 then TextPiece(e.text)
    else Pieces(e, k - 1) + [Flat(e.children[k - 1])] + TextPiece(e.children[k - 1].tail)
  }

  /** `extract_text_recursive(e)`: `' '.join(filter(None, texts))`. */
  function Flat(e: Elem): string
    decreases e, |e.children| + 1
  {
    JoinNonEmpty(Pieces(e, |e.children|))
  }

  /** `extract_text_recursive`: the `texts` list, then
      `' '.join(filter(None, texts))`. */
  method ExtractTextRecursive(e: Elem) returns (r: string)
    ensures r == Flat(e)
    decreases e, 1
  {
    var texts := CollectTexts(e);
    r := JoinNonEmpty(texts);
  }

  /** The `texts` list of `extract_text_recursive`, built by appends: the
      stripped leading text, then per child its flattening (one recursive
      call) and its stripped tail. */
  method CollectTexts(e: Elem) returns (texts: seq<string>)
    ensures texts == Pieces(e, |e.children|)
    decreases e, 0
  {
    texts := TextPiece(e.text);
    for i := 0 to |e.children|
      invariant texts == Pieces(e, i)
    {
      var child := e.children[i];
      var sub := ExtractTextRecursive(child);
      texts := texts + [sub] + TextPiece(child.tail);
      PiecesStep(e, i);
    }
  }

  /** One more child: its flattening and its stripped tail join the list. */
  lemma PiecesStep(e: Elem, i: nat)
    requires i < |e.children|
    ensures Pieces(e, i + 1) == Pieces(e, i) + [Flat(e.children[i])] + TextPiece(e.children[i].tail)
  {
  }

  // ---------------------------------------------------------------------------
  // A reference definition: all text fragments of the subtree in document order
  // ---------------------------------------------------------------------------

  /** The stripped text fragments of `e`'s subtree, up to and including its
      `k`-th child, in document order (`e`'s own tail is not part of it). */
  function LeavesUpTo(e: Elem, k: nat): seq<string>
    requires k <= |e.children|
    decreases e, k
  {
    if k == 0 then TextPiece(e.text)
    else LeavesUpTo(e, k - 1) + Leaves(e.children[k - 1]) + TextPiece(e.children[k - 1].tail)
  }

  function Leaves(e: Elem): seq<string>
    decreases e, |e.children| + 1
  {
    LeavesUpTo(e, |e.children|)
  }

  lemma LeavesStep(e: Elem, i: nat)
    requires i < |e.children|
    ensures LeavesUpTo(e, i + 1) == LeavesUpTo(e, i) + Leaves(e.children[i]) + TextPiece(e.children[i].tail)
  {
  }

  /** Flattening is one single-space join of the subtree's non-empty stripped
      fragments, in document order: the nesting of the recursion leaves no trace. */
  lemma FlatIsJoinOfLeaves(e: Elem)
    ensures Flat(e) == JoinNonEmpty(Leaves(e))
  {
    PiecesAgreeWithLeaves(e, |e.children|);
  }

  lemma {:induction false} PiecesAgreeWithLeaves(e: Elem, k: nat)
    requires k <= |e.children|
    ensures JoinNonEmpty(Pieces(e, k)) == JoinNonEmpty(LeavesUpTo(e, k))
    decreases e, k
  {
    if k > 0 {
      var i := k - 1;
      var c := e.children[i];
      PiecesAgreeWithLeaves(e, i);
      PiecesAgreeWithLeaves(c, |c.children|);
      AgreeStep(e, i);
    }
  }

  lemma AgreeStep(e: Elem, i: nat)
    requires i < |e.children|
    requires JoinNonEmpty(Pieces(e, i)) == JoinNonEmpty(LeavesUpTo(e, i))
    requires JoinNonEmpty(Pieces(e.children[i], |e.children[i].children|)) ==
      JoinNonEmpty(LeavesUpTo(e.children[i], |e.children[i].children|))
    ensures JoinNonEmpty(Pieces(e, i + 1)) == JoinNonEmpty(LeavesUpTo(e, i + 1))
  {
    var c := e.children[i];
    PiecesStep(e, i);
    LeavesStep(e, i);
    JoinSameExtended(Pieces(e, i), LeavesUpTo(e, i), Flat(c), Leaves(c), TextPiece(c.tail));
  }

  /** Lists that join alike still join alike after one more entry, when that
      entry is itself the join of the fragments put in its place. */
  lemma JoinSameExtended(ps: seq<string>, ls: seq<string>, f: string, fs: seq<string>, tail: seq<string>)
    requires JoinNonEmpty(ps) == JoinNonEmpty(ls)
    requires f == JoinNonEmpty(fs)
    ensures JoinNonEmpty(ps + [f] + tail) == JoinNonEmpty(ls + fs + tail)
  {
    JoinNonEmptySingle(f);
    JoinNonEmptyAppend(ps + [f], tail);
    JoinNonEmptyAppend(ps, [f]);
    JoinNonEmptyAppend(ls + fs, tail);
    JoinNonEmptyAppend(ls, fs);
  }

  /** The flattening is empty exactly when every fragment of the subtree is
      blank (in particular for an element with no text and no children). */
  lemma FlatEmptyIff(e: Elem)
    ensures Flat(e) == "" <==> forall x :: x in Leaves(e) ==> x == ""
  {
    FlatIsJoinOfLeaves(e);
    JoinNonEmptyIsEmpty(Leaves(e));
  }

  /** The flattening never starts or ends with whitespace. */
  lemma {:induction false} FlatTrimmed(e: Elem)
    ensures Trimmed(Flat(e))
    decreases e, |e.children| + 1
  {
    PiecesTrimmed(e, |e.children|);
    JoinNonEmptyTrimmed(Pieces(e, |e.children|));
  }

  lemma TextPieceTrimmed(t: Option<string>)
    ensures forall x :: x in TextPiece(t) ==> Trimmed(x)
  {
    if t.Some? && t.value != "" {
      StripSpec(t.value);
    }
  }

  lemma AllTrimmedAppend(before: seq<string>, f: string, tail: seq<string>)
    requires forall x :: x in before ==> Trimmed(x)
    requires Trimmed(f)
    requires forall x :: x in tail ==> Trimmed(x)
    ensures forall x :: x in before + [f] + tail ==> Trimmed(x)
  {
  }

  lemma {:induction false} PiecesTrimmed(e: Elem, k: nat)
    requires k <= |e.children|
    ensures forall x :: x in Pieces(e, k) ==> Trimmed(x)
    decreases e, k
  {
    if k == 0 {
      TextPieceTrimmed(e.text);
    } else {
      var c := e.children[k - 1];
      PiecesTrimmed(e, k - 1);
      FlatTrimmed(c);
      TextPieceTrimmed(c.tail);
      AllTrimmedAppend(Pieces(e, k - 1), Flat(c), TextPiece(c.tail));
    }
  }
}
