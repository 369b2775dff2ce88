/** Insight-line extraction in `create_ppt` (app.py:98): the narrative text
    is split on "\n" and the pieces whose `strip()` is non-empty are kept,
    in order and untrimmed. */
module Insights {
  import opened Text

  const Newline: char := '\n'

  /** The filter of the list comprehension, `if ln.strip()`: a piece is
      kept when it has a non-whitespace character (`KeptIffStripNonEmpty`). */
  predicate Kept(ln: string)
    ensures Kept(ln) ==> ln != []
  {
    !IsBlank(ln)
  }

  /** `Kept` is exactly Python's truth test on `ln.strip()`. */
  lemma KeptIffStripNonEmpty(ln: string)
    ensures Kept(ln) <==> Strip(ln) != []
  {
    StripEmptyIffBlank(ln);
  }

  /** `[ln for ln in ps if ln.strip()]`. */
  function KeepNonBlank(ps: seq<string>): (ls: seq<string>)
    ensures |ls| <= |ps|
  {
    if ps == [] then []
    else
      var last := ps[|ps| - 1];
      KeepNonBlank(ps[..|ps| - 1]) + (if Kept(last) then [last] else [])
  }

  /** The positions of the kept pieces: ascending, each kept, and every
      kept position listed. */
  function KeptIndices(ps: seq<string>): (ix: seq<nat>)
    ensures forall k :: 0 <= k < |ix| ==> ix[k] < |ps| && Kept(ps[ix[k]])
    ensures forall k, l :: 0 <= k < l < |ix| ==> ix[k] < ix[l]
    ensures forall i :: 0 <= i < |ps| && Kept(ps[i]) ==> i in ix
  {
    if ps == [] then []
    else
      var n := |ps| - 1;
      var front := ps[..n];
      var ix' := KeptIndices(front);
      assert forall i :: 0 <= i < n ==> ps[i] == front[i];
      ix' + (if Kept(ps[n]) then [n] else [])
  }

  /** The comprehension's k-th result is the piece at the k-th kept
      position, character for character. */
  lemma {:induction false} KeepNonBlankAt(ps: seq<string>)
    ensures |KeepNonBlank(ps)| == |KeptIndices(ps)|
    ensures forall k :: 0 <= k < |KeptIndices(ps)| ==>
      KeepNonBlank(ps)[k] == ps[KeptIndices(ps)[k]]
  {
    if ps != [] {
      var n := |ps| - 1;
      var front := ps[..n];
      KeepNonBlankAt(front);
      var ls', ix' := KeepNonBlank(front), KeptIndices(front);
      var extra := if Kept(ps[n]) then [ps[n]] else [];
      var extraIx := if Kept(ps[n]) then [n] else [];
      assert KeepNonBlank(ps) == ls' + extra;
      assert KeptIndices(ps) == ix' + extraIx;
      forall k | 0 <= k < |ix'| ensures (ls' + extra)[k] == ps[(ix' + extraIx)[k]] {
        assert ps[ix'[k]] == front[ix'[k]];
      }
    }
  }

  /** The insight lines of a narrative (app.py:98). No line is blank and
      no line holds a line break. */
  function ExtractLines(text: string): (ls: seq<string>)
    ensures forall k :: 0 <= k < |ls| ==> !IsBlank(ls[k]) && Newline !in ls[k]
  {
    var ps := Split(text, Newline);
    SplitJoin(text, Newline);
    KeepNonBlankAt(ps);
    assert forall k :: 0 <= k < |KeptIndices(ps)| ==> Kept(ps[KeptIndices(ps)[k]]);
    KeepNonBlank(ps)
  }

  /** The lines are exactly the non-blank "\n"-pieces of the text, in their
      original order and untrimmed: line k is the piece at the k-th
      non-blank position, the positions ascend, and no non-blank piece is
      missed. */
  lemma ExtractLinesSpec(text: string)
    ensures var ps := Split(text, Newline); var ix := KeptIndices(ps);
      && |ExtractLines(text)| == |ix|
      && (forall k :: 0 <= k < |ix| ==> ExtractLines(text)[k] == ps[ix[k]])
      && (forall k, l :: 0 <= k < l < |ix| ==> ix[k] < ix[l])
      && (forall i :: 0 <= i < |ps| && !IsBlank(ps[i]) ==> i in ix)
  {
    var ps := Split(text, Newline);
    KeepNonBlankAt(ps);
  }

  /** There are no lines exactly when the whole text is whitespace. */
  lemma ExtractLinesEmptyIff(text: string)
    ensures ExtractLines(text) == [] <==> IsBlank(text)
  {
    var ps := Split(text, Newline);
    var ix := KeptIndices(ps);
    SplitJoin(text, Newline);
    BlankJoin(ps, Newline);
    KeepNonBlankAt(ps);
    if ExtractLines(text) != [] {
      assert Kept(ps[ix[0]]);
    }
  }

  /** When no piece is blank, every piece is a line. */
  lemma NoBlankPiecesKeepsAll(text: string)
    requires forall k :: 0 <= k < |Split(text, Newline)| ==> !IsBlank(Split(text, Newline)[k])
    ensures ExtractLines(text) == Split(text, Newline)
  {
    var ps := Split(text, Newline);
    NoBlankKeepsAll(ps);
  }

  lemma {:induction false} NoBlankKeepsAll(ps: seq<string>)
    requires forall k :: 0 <= k < |ps| ==> !IsBlank(ps[k])
    ensures KeepNonBlank(ps) == ps
  {
    if ps != [] {
      var n := |ps| - 1;
      NoBlankKeepsAll(ps[..n]);
      assert ps == ps[..n] + [ps[n]];
    }
  }

  /** The narrative handed to `create_ppt` has already been stripped
      (app.py:39). So, although lines are not trimmed, the first line cannot
      start and the last line cannot end with whitespace, and there are no
      lines exactly when the reply was blank. */
  lemma StrippedReplyLines(reply: string)
    ensures var ls := ExtractLines(Strip(reply));
      && (ls == [] <==> IsBlank(reply))
      && (ls != [] ==> !IsSpace(ls[0][0]) && !IsSpace(ls[|ls| - 1][|ls[|ls| - 1]| - 1]))
  {
    var t := Strip(reply);
    StripEmptyIffBlank(reply);
    ExtractLinesEmptyIff(t);
    if t != [] {
      TrimmedTextLines(t);
    }
  }

  /** Lines of a text that neither starts nor ends with whitespace. */
  lemma TrimmedTextLines(t: string)
    requires t != [] && !IsSpace(t[0]) && !IsSpace(t[|t| - 1])
    ensures var ls := ExtractLines(t);
      ls != [] && !IsSpace(ls[0][0]) && !IsSpace(ls[|ls| - 1][|ls[|ls| - 1]| - 1])
  {
    var ps := Split(t, Newline);
    var ix := KeptIndices(ps);
    KeepNonBlankAt(ps);
    FirstPiece(t);
    LastPiece(t);
    var n := |ps| - 1;
    assert Kept(ps[0]) && Kept(ps[n]);
    assert 0 in ix && n in ix;
    assert ix[0] == 0;
    assert ix[|ix| - 1] == n;
  }

  /** The first "\n"-piece of a text that starts with a non-whitespace
      character starts with that character. */
  lemma FirstPiece(t: string)
    requires t != [] && !IsSpace(t[0])
    ensures var ps := Split(t, Newline); ps[0] != [] && ps[0][0] == t[0]
  {
    var ps := Split(t, Newline);
    SplitJoin(t, Newline);
    JoinStartsWith(ps, Newline);
    if |ps| > 1 {
      assert Join(ps, Newline) == ps[0] + [Newline] + Join(ps[1..], Newline);
    }
  }

  /** The last "\n"-piece of a text that ends with a non-whitespace
      character ends with that character. */
  lemma LastPiece(t: string)
    requires t != [] && !IsSpace(t[|t| - 1])
    ensures var ps := Split(t, Newline); var last := ps[|ps| - 1];
      last != [] && last[|last| - 1] == t[|t| - 1]
  {
    var ps := Split(t, Newline);
    SplitJoin(t, Newline);
    var last := ps[|ps| - 1];
    if |ps| >= 2 {
      JoinEndsWith(ps, Newline);
      assert t[|t| - |last|..] == last;
    }
  }

  /** A reply with a blank line between bullets. */
  const ExampleText: string := "- up\n- seasonal\n\n- stable"

  /** A reply with a blank line between bullets: the blank line is dropped. */
  lemma ExampleReply()
    ensures ExtractLines(ExampleText) == ["- up", "- seasonal", "- stable"]
  {
    ExamplePieces();
    ExampleKept();
  }

  lemma ExamplePieces()
    ensures Split(ExampleText, Newline) == ["- up", "- seasonal", "", "- stable"]
  {
    var ps := ["- up", "- seasonal", "", "- stable"];
    assert Join(ps[3..], Newline) == "- stable";
    assert Join(ps[2..], Newline) == "\n- stable";
    assert Join(ps[1..], Newline) == "- seasonal\n\n- stable";
    assert Join(ps, Newline) == ExampleText;
    JoinSplit(ps, Newline);
  }

  lemma ExampleKept()
    ensures KeepNonBlank(["- up", "- seasonal", "", "- stable"]) == ["- up", "- seasonal", "- stable"]
  {
    var ps := ["- up", "- seasonal", "", "- stable"];
    assert !IsSpace(ps[0][0]) && !IsSpace(ps[1][0]) && !IsSpace(ps[3][0]);
    assert KeepNonBlank(ps[..1]) == [ps[0]] by {
      assert ps[..1][..0] == [];
    }
    assert KeepNonBlank(ps[..2]) == [ps[0], ps[1]] by {
      assert ps[..2][..1] == ps[..1];
    }
    assert KeepNonBlank(ps[..3]) == [ps[0], ps[1]] by {
      assert ps[..3][..2] == ps[..2];
    }
    assert ps[..4][..3] == ps[..3];
  }
}
