/** Questions about two bitmaps that do not build a third one. */
module BitmapQuery {
  import opened BitmapWords
  import opened BitmapEntries
  import opened BitmapList
  import opened BitmapMerge
  import opened BitmapInto

  /** A merge is empty exactly if its operation gives the empty set. */
  lemma EmptyMerge(op: Op, A: seq<Entry>, B: seq<Entry>)
    requires Normal(A) && Normal(B)
    ensures Merge(op, A, B) != [] <==> exists n: nat :: Apply(op, Has(A, n), Has(B, n))
  {
    hide Has, EntryHas, Normal, Apply;
    var r := Merge(op, A, B);
    MergeNormal(op, A, B);
    if r != [] {
      var n := FirstMember(r);
      MergeHas(op, A, B, n);
    }
    forall n: nat | Apply(op, Has(A, n), Has(B, n))
      ensures r != []
    {
      MergeHas(op, A, B, n);
      HasNone(n);
    }
  }

  lemma FirstMember(s: seq<Entry>) returns (n: nat)
    requires Normal(s) && s != []
    ensures Has(s, n)
  {
    n := EntryMember(s[0]);
  }

  /** What one step of the search at positions `i` and `j` can conclude. */
  lemma SearchStep(op: Op, A: seq<Entry>, i: nat, B: seq<Entry>, j: nat)
    requires Normal(A) && Normal(B) && i < |A| && j < |B| && (op.And? || op.AndCompl?)
    ensures Remaining(op, A, i, B, j) == NextPiece(op, A, i, B, j) + RemainingNext(op, A, i, B, j)
    ensures A[i].indx < B[j].indx ==> NextPiece(op, A, i, B, j) == if op.And? then [] else [A[i]]
    ensures B[j].indx < A[i].indx ==> NextPiece(op, A, i, B, j) == []
    ensures A[i].indx == B[j].indx ==>
      && |A[i].words| == |B[j].words| == ELEMENT_WORDS
      && (NextPiece(op, A, i, B, j) != [] <==> CombineWords(op, A[i].words, B[j].words) != ZERO_WORDS)
  {
    hide CombineWords, Merge;
    MergeAt(op, A, B, i, j);
  }

  lemma WordsZero(op: Op, a: seq<Word>, b: seq<Word>)
    requires |a| == |b| == ELEMENT_WORDS
    ensures CombineWords(op, a, b) == ZERO_WORDS <==> forall k :: 0 <= k < ELEMENT_WORDS ==> Combine(op, a[k], b[k]) == 0
  {
    hide Combine;
    var r := CombineWords(op, a, b);
    assert r[0] == Combine(op, a[0], b[0]) && r[1] == Combine(op, a[1], b[1]);
  }

  lemma Prepend(piece: seq<Entry>, rest: seq<Entry>)
    ensures piece != [] ==> piece + rest != []
    ensures piece == [] ==> piece + rest == rest
  {
  }

  lemma NoneLeft(A: seq<Entry>, i: nat, B: seq<Entry>, j: nat)
    requires i <= |A| && j <= |B| && (i == |A| || j == |B|)
    ensures Remaining(And, A, i, B, j) == []
    ensures Remaining(AndCompl, A, i, B, j) != [] <==> i < |A|
  {
    hide Merge;
    MergeEnds(And, A[i..]);
    MergeEnds(And, B[j..]);
    MergeEnds(AndCompl, A[i..]);
    MergeEnds(AndCompl, B[j..]);
    assert i == |A| ==> A[i..] == [];
    assert j == |B| ==> B[j..] == [];
  }

  lemma RemainingAll(op: Op, A: seq<Entry>, B: seq<Entry>)
    ensures Remaining(op, A, 0, B, 0) == Merge(op, A, B)
  {
    assert A[0..] == A && B[0..] == B;
  }

  /** Whether the two sets have a common member. */
  method BitmapIntersectP(a: Bitmap, b: Bitmap) returns (r: bool)
    requires Comparable(a) && Comparable(b) && Normal(a.Contents()) && Normal(b.Contents())
    ensures r <==> exists n: nat :: Has(a.Contents(), n) && Has(b.Contents(), n)
  {
    hide Comparable, ContentsOf, Has, Normal, Remaining, NextPiece, Merge, CombineWords, Combine;
    ghost var A, B := a.Contents(), b.Contents();
    ghost var i, j := 0, 0;
    EmptyMerge(And, A, B);
    RemainingAll(And, A, B);
    ComparableAt(a, 0);
    ComparableAt(b, 0);
    var a_elt, b_elt := a.first, b.first;
    while a_elt != null && b_elt != null
      invariant Comparable(a) && Comparable(b) && a.Contents() == A && b.Contents() == B
      invariant 0 <= i <= |a.elts| == |A| && 0 <= j <= |b.elts| == |B| && a_elt == At(a.elts, i) && b_elt == At(b.elts, j)
      invariant Remaining(And, A, i, B, j) == Merge(And, A, B)
      decreases |A| - i + |B| - j
    {
      ComparableAt(a, i);
      ComparableAt(b, j);
      SearchStep(And, A, i, B, j);
      Prepend(NextPiece(And, A, i, B, j), RemainingNext(And, A, i, B, j));
      if a_elt.indx < b_elt.indx {
        a_elt, i := a_elt.next, i + 1;
      } else if b_elt.indx < a_elt.indx {
        b_elt, j := b_elt.next, j + 1;
      } else {
        WordsZero(And, a_elt.bits, b_elt.bits);
        var ix := ELEMENT_WORDS;
        while ix != 0
          invariant 0 <= ix <= ELEMENT_WORDS == |a_elt.bits| == |b_elt.bits|
          invariant forall k :: ix <= k < ELEMENT_WORDS ==> Combine(And, a_elt.bits[k], b_elt.bits[k]) == 0
        {
          ix := ix - 1;
          if Combine(And, a_elt.bits[ix], b_elt.bits[ix]) != 0 {
            return true;
          }
        }
        a_elt, i := a_elt.next, i + 1;
        b_elt, j := b_elt.next, j + 1;
      }
    }
    NoneLeft(A, i, B, j);
    return false;
  }

  /** Whether the first set has a member that the second has not. */
  method BitmapIntersectComplP(a: Bitmap, b: Bitmap) returns (r: bool)
    requires Comparable(a) && Comparable(b) && Normal(a.Contents()) && Normal(b.Contents())
    ensures r <==> exists n: nat :: Has(a.Contents(), n) && !Has(b.Contents(), n)
  {
    hide Comparable, ContentsOf, Has, Normal, Remaining, NextPiece, Merge, CombineWords, Combine;
    ghost var A, B := a.Contents(), b.Contents();
    ghost var i, j := 0, 0;
    EmptyMerge(AndCompl, A, B);
    RemainingAll(AndCompl, A, B);
    ComparableAt(a, 0);
    ComparableAt(b, 0);
    var a_elt, b_elt := a.first, b.first;
    while a_elt != null && b_elt != null
      invariant Comparable(a) && Comparable(b) && a.Contents() == A && b.Contents() == B
      invariant 0 <= i <= |a.elts| == |A| && 0 <= j <= |b.elts| == |B| && a_elt == At(a.elts, i) && b_elt == At(b.elts, j)
      invariant Remaining(AndCompl, A, i, B, j) == Merge(AndCompl, A, B)
      decreases |A| - i + |B| - j
    {
      ComparableAt(a, i);
      ComparableAt(b, j);
      SearchStep(AndCompl, A, i, B, j);
      Prepend(NextPiece(AndCompl, A, i, B, j), RemainingNext(AndCompl, A, i, B, j));
      if a_elt.indx < b_elt.indx {
        return true;
      } else if b_elt.indx < a_elt.indx {
        b_elt, j := b_elt.next, j + 1;
      } else {
        WordsZero(AndCompl, a_elt.bits, b_elt.bits);
        var ix := ELEMENT_WORDS;
        while ix != 0
          invariant 0 <= ix <= ELEMENT_WORDS == |a_elt.bits| == |b_elt.bits|
          invariant forall k :: ix <= k < ELEMENT_WORDS ==> Combine(AndCompl, a_elt.bits[k], b_elt.bits[k]) == 0
        {
          ix := ix - 1;
          if Combine(AndCompl, a_elt.bits[ix], b_elt.bits[ix]) != 0 {
            return true;
          }
        }
        a_elt, i := a_elt.next, i + 1;
        b_elt, j := b_elt.next, j + 1;
      }
    }
    NoneLeft(A, i, B, j);
    return a_elt != null;
  }
}
