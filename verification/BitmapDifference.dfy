/** The merges with a complemented operand: `dst = a & ~b` and `dst = a | (b & ~kill)`. */
module BitmapDifference {
  import opened BitmapWords
  import opened BitmapEntries
  import opened BitmapList
  import opened BitmapMerge

  // ---- dst = a & ~b ----

  /** The result cannot be what `dst` was: at `p` one has another index, or is at its end. */
  lemma Differs(result: seq<Entry>, was: seq<Entry>, p: nat)
    requires p <= |result| && p <= |was| && (p < |result| || p < |was|)
    requires p < |result| && p < |was| ==> result[p] != was[p]
    ensures result != was
  {
  }

  /** The state of the loop, when `e` is the next entry of the result or, if it is empty, is left out. */
  ghost predicate Expecting(result: seq<Entry>, cur: seq<Entry>, p: nat, e: Entry, rest: seq<Entry>, was: seq<Entry>, changed: bool) {
    && Running(result, cur, p, (if e.words != ZERO_WORDS then [e] else []) + rest, was, changed)
    && From(rest, e.indx + 1) && Normal(was) && |e.words| == ELEMENT_WORDS
  }

  lemma OverSame(result: seq<Entry>, cur: seq<Entry>, p: nat, e: Entry, rest: seq<Entry>, was: seq<Entry>)
    requires Expecting(result, cur, p, e, rest, was, false) && p < |cur| && cur[p].indx == e.indx
    ensures e.words != ZERO_WORDS ==> Running(result, cur[p := e], p + 1, rest, was, cur[p].words != e.words)
    ensures e.words == ZERO_WORDS ==> cur[p].words != e.words && Running(result, cur[p := e], p, rest, was, true)
  {
    assert cur[p := e][..p] == cur[..p] && cur[p := e][..p + 1] == cur[..p] + [e];
    assert p < |result| ==> result[p] == if e.words != ZERO_WORDS then e else rest[0];
    if e.words == ZERO_WORDS || cur[p].words != e.words {
      Differs(result, was, p);
    } else {
      assert cur[p := e] == cur;
    }
  }

  /** Over an element with a smaller index, or once something has changed. */
  lemma OverOther(result: seq<Entry>, cur: seq<Entry>, p: nat, e: Entry, rest: seq<Entry>, was: seq<Entry>, changed: bool)
    requires Expecting(result, cur, p, e, rest, was, changed) && p < |cur| && (changed || cur[p].indx < e.indx)
    ensures e.words != ZERO_WORDS ==> Running(result, cur[p := e], p + 1, rest, was, true)
    ensures e.words == ZERO_WORDS ==> Running(result, cur[..p] + cur[p + 1..], p, rest, was, true)
  {
    assert cur[p := e][..p + 1] == cur[..p] + [e];
    assert p < |result| ==> result[p] == if e.words != ZERO_WORDS then e else rest[0];
    assert (cur[..p] + cur[p + 1..])[..p] == cur[..p];
    if !changed {
      Differs(result, was, p);
    }
  }

  /** In a new element, before one with a larger index. */
  lemma InNew(result: seq<Entry>, cur: seq<Entry>, p: nat, e: Entry, rest: seq<Entry>, was: seq<Entry>, changed: bool)
    requires Expecting(result, cur, p, e, rest, was, changed) && (p < |cur| ==> cur[p].indx > e.indx)
    ensures p <= |cur|
    ensures e.words != ZERO_WORDS ==> Running(result, cur[..p] + [e] + cur[p..], p + 1, rest, was, true)
    ensures e.words == ZERO_WORDS ==> Running(result, cur, p, rest, was, changed)
  {
    assert (cur[..p] + [e] + cur[p..])[..p + 1] == cur[..p] + [e];
    if e.words != ZERO_WORDS {
      assert result[p] == e;
      if !changed {
        Differs(result, was, p);
      }
    } else {
      assert [] + rest == rest;
    }
  }

  lemma ExpectingParts(result: seq<Entry>, cur: seq<Entry>, p: nat, e: Entry, rest: seq<Entry>, was: seq<Entry>, changed: bool)
    requires Expecting(result, cur, p, e, rest, was, changed)
    ensures p <= |cur| && |e.words| == ELEMENT_WORDS && (!changed ==> NonZero(cur))
  {
  }

  /** The matching case: writes the words over `elt` and notes whether they differ. */
  method ComplOver(dst: Bitmap, elt: Element, prev: Element?, indx: nat, words: seq<Word>, ghost p: nat,
                   ghost result: seq<Entry>, ghost rest: seq<Entry>, ghost was: seq<Entry>)
    returns (changed: bool, elt': Element?, prev': Element?, ghost p': nat)
    requires WriteAt(dst, p, prev, elt) && elt.indx == indx
    requires Expecting(result, dst.Contents(), p, Entry(indx, words), rest, was, false)
    modifies dst, dst.obstack, dst.Owned()
    ensures WriteAt(dst, p', prev', elt') && Running(result, dst.Contents(), p', rest, was, changed) && Conserved(dst)
  {
    hide dst.Linked, ContentsOf, Running, Expecting, NonZero;
    ghost var cur := dst.Contents();
    EntryAt(dst.elts, p);
    ExpectingParts(result, cur, p, Entry(indx, words), rest, was, false);
    OverSame(result, cur, p, Entry(indx, words), rest, was);
    WordsAt(cur, p);
    var bits;
    bits, changed := UpdateWords(elt.bits, words, false);
    Overwrite(dst, elt, indx, bits, p);
    elt', prev', p' := elt, prev, p;
    if words != ZERO_WORDS {
      WriteNext(dst, p, prev, elt);
      prev', elt', p' := elt, elt.next, p + 1;
    }
  }

  lemma WordsAt(s: seq<Entry>, p: nat)
    requires NonZero(s) && p < |s|
    ensures |s[p].words| == ELEMENT_WORDS
  {
  }

  /** A new element with the given words between `prev` and what follows it. */
  method InsertElement(dst: Bitmap, prev: Element?, ghost elt: Element?, indx: nat, words: seq<Word>, ghost p: nat) returns (node: Element)
    requires WriteAt(dst, p, prev, elt)
    modifies dst, dst.obstack, dst.Owned()
    ensures WriteAt(dst, p, prev, node) && Conserved(dst) && p <= |old(dst.Contents())|
    ensures dst.Contents() == old(dst.Contents())[..p] + [Entry(indx, words)] + old(dst.Contents())[p..]
    ensures dst.elts == old(dst.elts)[..p] + [node] + old(dst.elts)[p..]
    ensures old(dst.CursorOk()) ==> dst.CursorOk()
  {
    hide dst.Linked, ContentsOf;
    ghost var cur := dst.Contents();
    LinkedDistinct(dst);
    node := dst.InsertAfter(prev, indx, p);
    Overwrite(dst, node, indx, words, p);
    ghost var r := cur[..p] + [Entry(indx, ZERO_WORDS)] + cur[p..];
    assert r[p := Entry(indx, words)] == cur[..p] + [Entry(indx, words)] + cur[p..];
  }

  lemma StillIn(l: seq<Element>, p: nat, e: Element)
    requires p < |l| && e in l && e != l[p]
    ensures e in l[..p] + l[p + 1..]
  {
    var k :| 0 <= k < |l| && l[k] == e;
    assert (l[..p] + l[p + 1..])[if k < p then k else k - 1] == e;
  }

  /** Frees the element at `p`; the cursor stays on the list. */
  method RemoveElement(dst: Bitmap, elt: Element, ghost prev: Element?, ghost p: nat)
    requires WriteAt(dst, p, prev, elt)
    modifies dst, dst.obstack, dst.Owned()
    ensures WriteAt(dst, p, prev, After(dst, prev)) && dst.Owned() == old(dst.Owned()) && p < |old(dst.elts)|
    ensures p < |old(dst.Contents())| && dst.Contents() == old(dst.Contents())[..p] + old(dst.Contents())[p + 1..]
    ensures dst.elts == old(dst.elts)[..p] + old(dst.elts)[p + 1..]
    ensures old(dst.CursorOk()) ==> dst.CursorOk()
    ensures old(dst.current) != elt ==> dst.current == old(dst.current)
    ensures old(dst.current) == elt ==> dst.current == if p < |dst.elts| then dst.elts[p] else At(dst.elts, p - 1)
  {
    hide dst.Linked, ContentsOf;
    ghost var l := dst.elts;
    LinkedDistinct(dst);
    if dst.current != elt {
      StillIn(l, p, dst.current);
    }
    dst.ElementFree(elt, p);
    AfterAt(dst, prev, p);
  }

  lemma AfterAt(dst: Bitmap, prev: Element?, p: nat)
    requires dst.Linked() && p <= |dst.elts| && prev == At(dst.elts, p - 1)
    ensures After(dst, prev) == At(dst.elts, p)
  {
  }

  /** Overwrites the next element of the destination. */
  method OverwriteNext(dst: Bitmap, ghost prev: Element?, elt: Element, indx: nat, words: seq<Word>, ghost p: nat)
    requires WriteAt(dst, p, prev, elt)
    modifies dst, dst.obstack, dst.Owned()
    ensures WriteAt(dst, p, prev, elt) && Conserved(dst) && p < |old(dst.Contents())| && dst.elts == old(dst.elts)
    ensures dst.Contents() == old(dst.Contents())[p := Entry(indx, words)] && dst.Owned() == old(dst.Owned())
    ensures old(dst.CursorOk()) && old(elt.indx) == indx ==> dst.CursorOk()
  {
    hide dst.Linked, ContentsOf;
    Overwrite(dst, elt, indx, words, p);
  }

  lemma WriteHas(dst: Bitmap, p: nat, prev: Element?, elt: Element)
    requires WriteAt(dst, p, prev, elt)
    ensures p < |dst.elts| && dst.elts[p] == elt && After(dst, prev) == elt
  {
    AfterAt(dst, prev, p);
  }

  /** The other matching case: in a new element, or over an element that is no longer needed. */
  method ComplPlace(dst: Bitmap, elt: Element?, prev: Element?, indx: nat, words: seq<Word>, changed0: bool, ghost p: nat,
                    ghost result: seq<Entry>, ghost rest: seq<Entry>, ghost was: seq<Entry>)
    returns (changed: bool, elt': Element?, prev': Element?, ghost p': nat)
    requires WriteAt(dst, p, prev, elt) && (!changed0 ==> elt == null || elt.indx != indx)
    requires Expecting(result, dst.Contents(), p, Entry(indx, words), rest, was, changed0)
    modifies dst, dst.obstack, dst.Owned()
    ensures WriteAt(dst, p', prev', elt') && Running(result, dst.Contents(), p', rest, was, changed) && Conserved(dst)
  {
    hide dst.Linked, ContentsOf, Running, Expecting, NonZero, WriteAt, After, Nodes, dst.Owned;
    ghost var cur := dst.Contents();
    WriteParts(dst, p, prev, elt);
    EntryAt(dst.elts, p);
    var new_element := elt == null || elt.indx > indx;
    var node: Element;
    if new_element {
      InNew(result, cur, p, Entry(indx, words), rest, was, changed0);
      node := InsertElement(dst, prev, elt, indx, words, p);
      assert dst.Contents()[..p] + dst.Contents()[p + 1..] == cur;
    } else {
      OverOther(result, cur, p, Entry(indx, words), rest, was, changed0);
      node := elt;
      OverwriteNext(dst, prev, node, indx, words, p);
      assert dst.Contents()[..p] + dst.Contents()[p + 1..] == cur[..p] + cur[p + 1..];
    }
    if words != ZERO_WORDS {
      WriteHas(dst, p, prev, node);
      WriteNext(dst, p, prev, node);
      changed, prev', elt', p' := true, node, node.next, p + 1;
    } else {
      changed := changed0 || !new_element;
      RemoveElement(dst, node, prev, p);
      prev', elt', p' := prev, After(dst, prev), p;
    }
  }

  /** An element of `b` before the next one of `a` does not matter. */
  lemma SkipOne(A: seq<Entry>, i: nat, B: seq<Entry>, j: nat)
    requires i < |A| && j < |B| && B[j].indx < A[i].indx
    ensures Remaining(AndCompl, A, i, B, j) == Remaining(AndCompl, A, i, B, j + 1)
  {
    hide Merge;
    MergeAt(AndCompl, A, B, i, j);
  }

  /** Elements of `b` before the next one of `a` do not matter. */
  lemma {:induction false} SkipRemaining(A: seq<Entry>, i: nat, B: seq<Entry>, j: nat, j': nat)
    requires i < |A| && j <= j' <= |B| && forall k :: j <= k < j' ==> B[k].indx < A[i].indx
    ensures Remaining(AndCompl, A, i, B, j) == Remaining(AndCompl, A, i, B, j')
    decreases j' - j
  {
    hide Remaining;
    if j < j' {
      SkipOne(A, i, B, j);
      SkipRemaining(A, i, B, j + 1, j');
    }
  }

  lemma ReadAll(b: Bitmap, dst: Bitmap, s: seq<Entry>, j: nat, elt: Element?)
    requires ReadAt(b, dst, s, j, elt)
    ensures j <= |b.elts| == |s| && elt == At(b.elts, j)
    ensures forall k :: 0 <= k < |s| ==> b.elts[k].next == At(b.elts, k + 1) && b.elts[k].indx == s[k].indx
  {
    ContentsAt(b.elts);
  }

  lemma ReadLater(b: Bitmap, dst: Bitmap, s: seq<Entry>, j: nat, j': nat)
    requires ReadAt(b, dst, s, j, At(b.elts, j)) && j' <= |b.elts|
    ensures ReadAt(b, dst, s, j', At(b.elts, j'))
  {
  }

  lemma ComplPiece(A: seq<Entry>, i: nat, B: seq<Entry>, j: nat)
    requires Normal(A) && Normal(B) && i < |A| && j <= |B| && (j < |B| ==> B[j].indx >= A[i].indx)
    ensures j < |B| && B[j].indx == A[i].indx ==>
      && |A[i].words| == |B[j].words| == ELEMENT_WORDS
      && var w := CombineWords(AndCompl, A[i].words, B[j].words);
      && NextPiece(AndCompl, A, i, B, j) == (if w != ZERO_WORDS then [Entry(A[i].indx, w)] else [])
      && From(RemainingNext(AndCompl, A, i, B, j), A[i].indx + 1)
    ensures !(j < |B| && B[j].indx == A[i].indx) ==> NextPiece(AndCompl, A, i, B, j) == [A[i]]
    ensures Remaining(AndCompl, A, i, B, j) == NextPiece(AndCompl, A, i, B, j) + RemainingNext(AndCompl, A, i, B, j)
  {
    hide CombineWords, Merge;
    MergeAt(AndCompl, A, B, i, j);
    if j < |B| && B[j].indx == A[i].indx {
      TailNormal(A, i);
      TailNormal(B, j);
      MergeFrom(AndCompl, A[i + 1..], B[j + 1..], A[i].indx + 1);
    }
  }

  /** The write of one round, for the next elements `a_elt` and `b_elt`. */
  method ComplWrite(dst: Bitmap, elt: Element?, prev: Element?, a_elt: Element, b_elt: Element?, changed0: bool,
                    ghost p: nat, ghost A: seq<Entry>, ghost i: nat, ghost B: seq<Entry>, ghost j: nat,
                    ghost result: seq<Entry>, ghost was: seq<Entry>)
    returns (changed: bool, elt': Element?, prev': Element?, ghost p': nat)
    requires WriteAt(dst, p, prev, elt)
    requires Normal(A) && Normal(B) && i < |A| && A[i] == Entry(a_elt.indx, a_elt.bits)
    requires j <= |B| && (if j == |B| then b_elt == null else b_elt != null && B[j] == Entry(b_elt.indx, b_elt.bits))
    requires b_elt == null || b_elt.indx >= a_elt.indx
    requires Normal(was) && Running(result, dst.Contents(), p, Remaining(AndCompl, A, i, B, j), was, changed0)
    modifies dst, dst.obstack, dst.Owned()
    ensures WriteAt(dst, p', prev', elt') && Conserved(dst)
    ensures Running(result, dst.Contents(), p', RemainingNext(AndCompl, A, i, B, j), was, changed)
  {
    hide WriteAt, dst.Linked, ContentsOf, Ordered, NonZero, Running, From, Placed, Remaining, RemainingNext, NextPiece, CombineWords,
      Conserved;
    ghost var nodes, free, own := Nodes(dst.elts), dst.obstack.free, dst.Owned();
    ComplPiece(A, i, B, j);
    ghost var cur, rest := dst.Contents(), RemainingNext(AndCompl, A, i, B, j);
    RunNonZero(result, cur, p, Remaining(AndCompl, A, i, B, j), was, changed0);
    WordsAt(A, i);
    WriteParts(dst, p, prev, elt);
    if b_elt == null || b_elt.indx > a_elt.indx {
      RunStep(result, cur, p, Remaining(AndCompl, A, i, B, j), rest, A[i], was, changed0);
      changed := EltCopy(dst, elt, prev, a_elt, changed0, p);
      PlacedLength(cur, p, A[i]);
      WriteJoin(dst, p, prev);
      WriteNext(dst, p, prev, dst.elts[p]);
      prev' := After(dst, prev);
      elt', p' := prev'.next, p + 1;
    } else {
      var words, ior := ApplyWords(AndCompl, a_elt.bits, b_elt.bits);
      ghost var e := Entry(a_elt.indx, words);
      assert Expecting(result, cur, p, e, rest, was, changed0);
      label L:
      if !changed0 && elt != null && elt.indx == a_elt.indx {
        changed, elt', prev', p' := ComplOver(dst, elt, prev, a_elt.indx, words, p, result, rest, was);
      } else {
        changed, elt', prev', p' := ComplPlace(dst, elt, prev, a_elt.indx, words, changed0, p, result, rest, was);
      }
      ghost var now := ConservedParts@L(dst);
      ConservedStep(dst, own, now);
    }
  }

  /** One round of `BitmapAndCompl`'s loop, up to moving the operand pointers. */
  method ComplRound(dst: Bitmap, a: Bitmap, b: Bitmap, elt: Element?, prev: Element?, a_elt: Element, b_elt: Element?,
                    changed0: bool, ghost p: nat, ghost A: seq<Entry>, ghost i: nat, ghost B: seq<Entry>, ghost j: nat,
                    ghost result: seq<Entry>, ghost was: seq<Entry>)
    returns (changed: bool, elt': Element?, prev': Element?, ghost p': nat)
    requires WriteAt(dst, p, prev, elt) && ReadAt(a, dst, A, i, a_elt) && ReadAt(b, dst, B, j, b_elt)
    requires b_elt == null || b_elt.indx >= a_elt.indx
    requires i <= |A| && j <= |B| && Normal(was)
    requires Running(result, dst.Contents(), p, Remaining(AndCompl, A, i, B, j), was, changed0)
    modifies dst, dst.obstack, dst.Owned()
    ensures WriteAt(dst, p', prev', elt') && Conserved(dst)
    ensures ReadAt(a, dst, A, i, a_elt) && ReadAt(b, dst, B, j, b_elt)
    ensures Running(result, dst.Contents(), p', RemainingNext(AndCompl, A, i, B, j), was, changed)
  {
    hide ReadAt, Operand, WriteAt, dst.Linked, a.Readable, ContentsOf, Normal, NonZero, Running, Remaining, RemainingNext;
    ReadParts(a, dst, A, i, a_elt);
    ReadParts(b, dst, B, j, b_elt);
    changed, elt', prev', p' := ComplWrite(dst, elt, prev, a_elt, b_elt, changed0, p, A, i, B, j, result, was);
    ReadJoin(a, dst, A, i, a_elt);
    ReadJoin(b, dst, B, j, b_elt);
  }

  /** The body of `BitmapAndCompl`'s loop. */
  method ComplStep(dst: Bitmap, a: Bitmap, b: Bitmap, elt: Element?, prev: Element?, a_elt: Element, b_elt: Element?,
                   changed0: bool, ghost p: nat, ghost A: seq<Entry>, ghost i: nat, ghost B: seq<Entry>, ghost j0: nat,
                   ghost result: seq<Entry>, ghost was: seq<Entry>)
    returns (changed: bool, elt': Element?, prev': Element?, a_elt': Element?, b_elt': Element?, ghost p': nat, ghost i': nat, ghost j: nat)
    requires WriteAt(dst, p, prev, elt) && ReadAt(a, dst, A, i, a_elt) && ReadAt(b, dst, B, j0, b_elt)
    requires i <= |A| && j0 <= |B| && Normal(was)
    requires Running(result, dst.Contents(), p, Remaining(AndCompl, A, i, B, j0), was, changed0)
    modifies dst, dst.obstack, dst.Owned()
    ensures WriteAt(dst, p', prev', elt') && Conserved(dst)
    ensures ReadAt(a, dst, A, i', a_elt') && ReadAt(b, dst, B, j, b_elt') && i' == i + 1
    ensures i' <= |A| && j <= |B| && Running(result, dst.Contents(), p', Remaining(AndCompl, A, i', B, j), was, changed)
  {
    hide WriteAt, ReadAt, dst.Linked, Operand, ContentsOf, Running, Merge, Normal, MovesLeft, Remaining, RemainingNext, dst.Owned, Nodes,
      Conserved, a.Readable, NonZero, Moved, Piece, Placed, After;
    ReadParts(a, dst, A, i, a_elt);
    ReadAll(b, dst, B, j0, b_elt);
    b_elt', j := b_elt, j0;
    while b_elt' != null && b_elt'.indx < a_elt.indx
      invariant j0 <= j <= |b.elts| == |B| && b_elt' == At(b.elts, j)
      invariant forall k :: j0 <= k < j ==> B[k].indx < A[i].indx
      decreases |B| - j
    {
      b_elt' := b_elt'.next;
      j := j + 1;
    }
    ReadLater(b, dst, B, j0, j);
    SkipRemaining(A, i, B, j0, j);
    changed, elt', prev', p' := ComplRound(dst, a, b, elt, prev, a_elt, b_elt', changed0, p, A, i, B, j, result, was);
    BothMove(a, b, dst, A, i, a_elt, B, j, b_elt');
    ReadParts(b, dst, B, j, b_elt');
    ReadParts(a, dst, A, i, a_elt);
    FirstMoves(A, i, B, j);
    a_elt', b_elt' := Moved(a_elt, b_elt'), Moved(b_elt', a_elt);
    i', j := i + 1, j + MovesLeft(B, j, A, i);
  }

  /** `dst = a & ~b`: exactly the difference, and whether it differs from what `dst` held. */
  method BitmapAndCompl(dst: Bitmap, a: Bitmap, b: Bitmap) returns (changed: bool)
    requires dst.Valid() && Operand(a, dst) && Operand(b, dst)
    modifies dst, dst.obstack, dst.Owned()
    ensures dst.Valid() && dst.Contents() == Merge(AndCompl, old(a.Contents()), old(b.Contents()))
    ensures Computes(AndCompl, dst.Contents(), old(a.Contents()), old(b.Contents()))
    ensures changed <==> dst.Contents() != old(dst.Contents())
    ensures Conserved(dst)
  {
    hide WriteAt, ReadAt, dst.Linked, dst.Valid, Operand, ContentsOf, Running, Merge, Normal, Moved, MovesLeft, Remaining,
      dst.Owned, Nodes, Conserved, Computes;
    changed := false;
    ghost var A, B, was := a.Contents(), b.Contents(), dst.Contents();
    ghost var R := Merge(AndCompl, A, B);
    ReadStart(a, dst);
    ReadStart(b, dst);
    WriteStart(dst);
    MergeComputes(AndCompl, A, B);
    MergeNormal(AndCompl, A, B);
    if a == b {
      MergeSelf(AndCompl, A);
      EmptyIffNone(dst);
      changed := dst.first != null;
      ClearValid(dst);
      return;
    }
    ghost var i, j, p := 0, 0, 0;
    RunStart(AndCompl, A, B, was);
    ConservedStart(dst);
    var dst_elt, dst_prev := dst.first, null;
    var a_elt, b_elt := a.first, b.first;
    while a_elt != null
      invariant 0 <= i <= |A| && 0 <= j <= |B| && 0 <= p
      invariant WriteAt(dst, p, dst_prev, dst_elt) && ReadAt(a, dst, A, i, a_elt) && ReadAt(b, dst, B, j, b_elt)
      invariant Running(R, dst.Contents(), p, Remaining(AndCompl, A, i, B, j), was, changed) && Conserved(dst)
      decreases |A| - i
    {
      ghost var own := ConservedParts(dst);
      label L:
      changed, dst_elt, dst_prev, a_elt, b_elt, p, i, j :=
        ComplStep(dst, a, b, dst_elt, dst_prev, a_elt, b_elt, changed, p, A, i, B, j, R, was);
      ghost var now := ConservedParts@L(dst);
      ConservedStep(dst, own, now);
    }
    ReadParts(a, dst, A, i, a_elt);
    NoneRemain(A, B, j);
    ghost var own := ConservedParts(dst);
    changed := FinishDifference(dst, dst_elt, dst_prev, changed, p, R, was);
    ConservedStep(dst, own, dst.Owned());
  }

  lemma FirstMoves(A: seq<Entry>, i: nat, B: seq<Entry>, j: nat)
    requires i < |A| && j <= |B| && (j < |B| ==> A[i].indx <= B[j].indx)
    ensures MovesLeft(A, i, B, j) == 1
    ensures RemainingNext(AndCompl, A, i, B, j) == Remaining(AndCompl, A, i + 1, B, j + MovesLeft(B, j, A, i))
  {
  }

  lemma NoneRemain(A: seq<Entry>, B: seq<Entry>, j: nat)
    requires j <= |B|
    ensures Remaining(AndCompl, A, |A|, B, j) == []
  {
    hide Merge;
    assert A[|A|..] == [];
    MergeEnds(AndCompl, B[j..]);
  }

  lemma EmptyIffNone(dst: Bitmap)
    requires dst.Valid()
    ensures dst.first == null <==> dst.Contents() == []
  {
    ContentsAt(dst.elts);
  }

  /** Puts the cursor back to the start, and cuts off what is left of the destination. */
  method FinishDifference(dst: Bitmap, elt: Element?, ghost prev: Element?, changed0: bool, ghost p: nat,
                          ghost result: seq<Entry>, ghost was: seq<Entry>)
    returns (changed: bool)
    requires WriteAt(dst, p, prev, elt) && Running(result, dst.Contents(), p, [], was, changed0) && Normal(result)
    modifies dst, dst.obstack, dst.Owned()
    ensures dst.Valid() && dst.Contents() == result && changed == (result != was) && dst.Owned() == old(dst.Owned())
  {
    hide dst.Linked, ContentsOf, Normal, dst.Valid;
    changed := changed0;
    if elt != null {
      changed := true;
    }
    FinishMerge(dst, elt, prev, p, result);
  }

  lemma PlacedLength(s: seq<Entry>, p: nat, e: Entry)
    requires p <= |s|
    ensures |Placed(s, p, e)| > p
  {
  }

  lemma WriteParts(dst: Bitmap, p: nat, prev: Element?, elt: Element?)
    requires WriteAt(dst, p, prev, elt)
    ensures dst.Linked() && dst.CursorIn() && p <= |dst.elts| == |dst.Contents()|
    ensures prev == At(dst.elts, p - 1) && elt == At(dst.elts, p)
  {
  }

  lemma WriteJoin(dst: Bitmap, p: nat, prev: Element?)
    requires dst.Linked() && dst.CursorIn() && p < |dst.elts| == |dst.Contents()| && prev == At(dst.elts, p - 1)
    ensures WriteAt(dst, p, prev, dst.elts[p])
  {
  }

  // ---- dst = a | (b & ~kill) ----

  /** `a | (b & ~kill)`. */
  function Gen(A: seq<Entry>, B: seq<Entry>, K: seq<Entry>): seq<Entry> {
    Merge(Ior, A, Merge(AndCompl, B, K))
  }

  /** What is left of it at positions `i`, `j` and `k`. */
  ghost function GenLeft(A: seq<Entry>, i: nat, B: seq<Entry>, j: nat, K: seq<Entry>, k: nat): seq<Entry>
    requires i <= |A| && j <= |B| && k <= |K|
  {
    Merge(Ior, A[i..], Remaining(AndCompl, B, j, K, k))
  }

  lemma DifferenceFrom(B: seq<Entry>, j: nat, K: seq<Entry>, k: nat)
    requires Normal(B) && Normal(K) && j < |B| && k <= |K| && (k < |K| ==> K[k].indx >= B[j].indx)
    ensures From(Remaining(AndCompl, B, j, K, k), B[j].indx)
  {
    FromHere(B, j);
    if k < |K| {
      FromHere(K, k);
      FromLess(K[k..], K[k].indx, B[j].indx);
    } else {
      EmptyFrom(B[j].indx);
    }
    TailsNormal(B, j);
    TailsNormal(K, k);
    MergeFrom(AndCompl, B[j..], K[k..], B[j].indx);
  }

  /** The next element of `b` is killed, in part or altogether. */
  lemma GenKilled(A: seq<Entry>, i: nat, B: seq<Entry>, j: nat, K: seq<Entry>, k: nat)
    requires Normal(A) && Normal(B) && Normal(K) && i <= |A| && j < |B| && k < |K| && B[j].indx == K[k].indx
    requires i < |A| ==> A[i].indx >= B[j].indx
    ensures |B[j].words| == |K[k].words| == ELEMENT_WORDS
    ensures CombineWords(AndCompl, B[j].words, K[k].words) == ZERO_WORDS ==>
      GenLeft(A, i, B, j, K, k) == GenLeft(A, i, B, j + 1, K, k + 1)
    ensures CombineWords(AndCompl, B[j].words, K[k].words) != ZERO_WORDS ==>
      GenLeft(A, i, B, j, K, k) ==
      Piece(Ior, A[i..if i < |A| then i + 1 else i], [Entry(B[j].indx, CombineWords(AndCompl, B[j].words, K[k].words))]) +
      GenLeft(A, if i < |A| && A[i].indx == B[j].indx then i + 1 else i, B, j + 1, K, k + 1)
  {
    hide CombineWords, Merge;
    ComplPiece(B, j, K, k);
    var w := CombineWords(AndCompl, B[j].words, K[k].words);
    var rest := Remaining(AndCompl, B, j + 1, K, k + 1);
    assert RemainingNext(AndCompl, B, j, K, k) == rest;
    if w != ZERO_WORDS {
      var d := [Entry(B[j].indx, w)] + rest;
      assert Remaining(AndCompl, B, j, K, k) == d && d[1..] == rest;
      MergeAt(Ior, A, d, i, 0);
      assert d[0..] == d;
      HeadPiece(A, i, d);
    } else {
      assert Remaining(AndCompl, B, j, K, k) == [] + rest == rest;
    }
  }

  lemma HeadPiece(A: seq<Entry>, i: nat, d: seq<Entry>)
    requires i <= |A| && d != []
    ensures Piece(Ior, A[i..], d) == Piece(Ior, A[i..if i < |A| then i + 1 else i], [d[0]])
  {
    hide CombineWords;
  }

  /** The next element of `b` is left alone, or there is none, or `a` comes first. */
  lemma GenPlain(A: seq<Entry>, i: nat, B: seq<Entry>, j: nat, K: seq<Entry>, k: nat)
    requires Normal(A) && Normal(B) && Normal(K) && i <= |A| && j <= |B| && k <= |K| && (i < |A| || j < |B|)
    requires j < |B| && k < |K| ==> K[k].indx >= B[j].indx
    requires j < |B| && k < |K| && K[k].indx == B[j].indx ==> i < |A| && A[i].indx < B[j].indx
    ensures GenLeft(A, i, B, j, K, k) ==
      NextPiece(Ior, A, i, B, j) + GenLeft(A, i + MovesLeft(A, i, B, j), B, j + MovesLeft(B, j, A, i), K, k)
  {
    hide CombineWords, Merge;
    var d := Remaining(AndCompl, B, j, K, k);
    if j == |B| {
      assert B[j..] == [];
      MergeEnds(AndCompl, K[k..]);
      MergeAt(Ior, A, d, i, 0);
      assert d == [] == d[0..];
    } else {
      DifferenceFrom(B, j, K, k);
      if i < |A| && A[i].indx < B[j].indx {
        MergeAt(Ior, A, d, i, 0);
        assert d[0..] == d;
      } else {
        ComplPiece(B, j, K, k);
        var rest := Remaining(AndCompl, B, j + 1, K, k);
        assert RemainingNext(AndCompl, B, j, K, k) == rest;
        assert d == [B[j]] + rest && d[1..] == rest;
        MergeAt(Ior, A, d, i, 0);
        assert d[0..] == d;
        HeadPiece(A, i, d);
        HeadPiece(A, i, B[j..]);
      }
    }
  }

  /** Writes `a_elt | x` at `p` and moves the destination pointers on. */
  method IorPut(dst: Bitmap, elt: Element?, prev: Element?, a_elt: Element?, x: Element?, changed0: bool, ghost p: nat,
                ghost result: seq<Entry>, ghost rest: seq<Entry>, ghost was: seq<Entry>, ghost elts0: seq<Element>, ghost cursor: Element?)
    returns (changed: bool, elt': Element?, prev': Element?)
    requires WriteAt(dst, p, prev, elt) && Held(dst, elts0, cursor) && Normal(was) && TailKept(dst.Contents(), p, was)
    requires (a_elt != null || x != null) && NonZero(View(a_elt)) && NonZero(View(x))
    requires Running(result, dst.Contents(), p, Piece(Ior, View(a_elt), View(x)) + rest, was, changed0)
    modifies dst, dst.obstack, dst.Owned()
    ensures WriteAt(dst, p + 1, prev', elt') && Held(dst, elts0, cursor) && TailKept(dst.Contents(), p + 1, was)
    ensures Running(result, dst.Contents(), p + 1, rest, was, changed) && Conserved(dst)
  {
    hide dst.Linked, WriteAt, ContentsOf, Running, TailKept, NonZero, Normal, Placed, Piece, Held;
    ghost var cur, piece := dst.Contents(), Piece(Ior, View(a_elt), View(x));
    RunNonZero(result, cur, p, piece + rest, was, changed0);
    WriteParts(dst, p, prev, elt);
    HeldNow(dst, elts0, cursor);
    ghost var elts1, cursor1 := dst.elts, dst.current;
    changed := EltIor(dst, elt, prev, a_elt, x, changed0, p);
    HeldStep(dst, elts0, cursor, elts1, cursor1);
    assert piece == [piece[0]];
    RunStep(result, cur, p, piece + rest, rest, piece[0], was, changed0);
    PlacedLength(cur, p, piece[0]);
    WriteJoin(dst, p, prev);
    WriteNext(dst, p, prev, dst.elts[p]);
    prev' := After(dst, prev);
    elt' := prev'.next;
  }

  /** The next element of `b` that is partly or wholly killed: `tmp` gets what is left of it. */
  method KilledWords(b_elt: Element, kill_elt: Element) returns (tmp: Element, ior: Word)
    requires |b_elt.bits| == |kill_elt.bits| == ELEMENT_WORDS
    ensures fresh(tmp) && tmp.indx == b_elt.indx && tmp.bits == CombineWords(AndCompl, b_elt.bits, kill_elt.bits)
    ensures ior == 0 <==> tmp.bits == ZERO_WORDS
  {
    tmp := new Element();
    tmp.indx := b_elt.indx;
    tmp.bits, ior := ApplyWords(AndCompl, b_elt.bits, kill_elt.bits);
  }

  /** The three operands of `BitmapIorAndCompl`, read up to positions `i`, `j` and `k`. */
  ghost predicate ReadAll3(dst: Bitmap, a: Bitmap, b: Bitmap, kill: Bitmap, A: seq<Entry>, i: nat, a_elt: Element?,
                           B: seq<Entry>, j: nat, b_elt: Element?, K: seq<Entry>, k: nat, kill_elt: Element?)
    reads a`first, a`elts, Nodes(a.elts), b`first, b`elts, Nodes(b.elts), kill`first, kill`elts, Nodes(kill.elts)
    reads dst`elts, dst.obstack`free
  {
    && ReadAt(a, dst, A, i, a_elt) && ReadAt(b, dst, B, j, b_elt) && ReadAt(kill, dst, K, k, kill_elt)
    && i <= |A| && j <= |B| && k <= |K|
  }

  /** `IorPut` while the three operands are being read. */
  method GenPut(dst: Bitmap, a: Bitmap, b: Bitmap, kill: Bitmap, elt: Element?, prev: Element?, a_elt: Element?, x: Element?, changed0: bool,
                ghost A: seq<Entry>, ghost i: nat, ghost B: seq<Entry>, ghost j: nat, ghost b_elt: Element?, ghost K: seq<Entry>, ghost k: nat,
                ghost kill_elt: Element?, ghost p: nat, ghost result: seq<Entry>, ghost rest: seq<Entry>, ghost was: seq<Entry>,
                ghost elts0: seq<Element>, ghost cursor: Element?)
    returns (changed: bool, elt': Element?, prev': Element?)
    requires WriteAt(dst, p, prev, elt) && Held(dst, elts0, cursor) && Normal(was) && TailKept(dst.Contents(), p, was)
    requires (a_elt != null || x != null) && NonZero(View(a_elt)) && NonZero(View(x))
    requires Running(result, dst.Contents(), p, Piece(Ior, View(a_elt), View(x)) + rest, was, changed0)
    requires ReadAll3(dst, a, b, kill, A, i, a_elt, B, j, b_elt, K, k, kill_elt)
    modifies dst, dst.obstack, dst.Owned()
    ensures WriteAt(dst, p + 1, prev', elt') && Held(dst, elts0, cursor) && TailKept(dst.Contents(), p + 1, was)
    ensures Running(result, dst.Contents(), p + 1, rest, was, changed) && Conserved(dst)
    ensures ReadAll3(dst, a, b, kill, A, i, a_elt, B, j, b_elt, K, k, kill_elt)
  {
    hide dst.Linked, WriteAt, ReadAt, a.Readable, ContentsOf, Running, TailKept, NonZero, Normal, Placed, Piece, Held;
    ReadParts(a, dst, A, i, a_elt);
    ReadParts(b, dst, B, j, b_elt);
    ReadParts(kill, dst, K, k, kill_elt);
    changed, elt', prev' := IorPut(dst, elt, prev, a_elt, x, changed0, p, result, rest, was, elts0, cursor);
    ReadJoin(a, dst, A, i, a_elt);
    ReadJoin(b, dst, B, j, b_elt);
    ReadJoin(kill, dst, K, k, kill_elt);
  }

  lemma ReadView(a: Bitmap, dst: Bitmap, s: seq<Entry>, i: nat, elt: Element?)
    requires ReadAt(a, dst, s, i, elt)
    ensures i <= |s| && (elt == null <==> i == |s|) && Normal(s)
    ensures elt != null ==> s[i] == Entry(elt.indx, elt.bits) && |elt.bits| == ELEMENT_WORDS
  {
    EntryAt(a.elts, i);
  }

  /** The body of the loop when the next element of `b` is killed, in part or altogether. */
  method GenKilledStep(dst: Bitmap, a: Bitmap, b: Bitmap, kill: Bitmap, elt: Element?, prev: Element?, a_elt: Element?, b_elt: Element,
                       kill_elt: Element, changed0: bool, ghost A: seq<Entry>, ghost i: nat, ghost B: seq<Entry>, ghost j: nat,
                       ghost K: seq<Entry>, ghost k: nat, ghost p: nat, ghost result: seq<Entry>, ghost was: seq<Entry>,
                       ghost elts0: seq<Element>, ghost cursor: Element?)
    returns (changed: bool, elt': Element?, prev': Element?, kept: bool, ghost p': nat)
    requires WriteAt(dst, p, prev, elt) && Held(dst, elts0, cursor) && Normal(was) && TailKept(dst.Contents(), p, was)
    requires ReadAll3(dst, a, b, kill, A, i, a_elt, B, j, b_elt, K, k, kill_elt)
    requires i <= |A| && j <= |B| && k <= |K| && Running(result, dst.Contents(), p, GenLeft(A, i, B, j, K, k), was, changed0)
    requires b_elt.indx == kill_elt.indx && (a_elt == null || a_elt.indx >= b_elt.indx)
    modifies dst, dst.obstack, dst.Owned()
    ensures WriteAt(dst, p', prev', elt') && Held(dst, elts0, cursor) && TailKept(dst.Contents(), p', was) && Conserved(dst)
    ensures ReadAll3(dst, a, b, kill, A, i, a_elt, B, j, b_elt, K, k, kill_elt)
    ensures j < |B| && k < |K|
    ensures
      var m := if kept && i < |A| && A[i].indx == B[j].indx then i + 1 else i;
      Running(result, dst.Contents(), p', GenLeft(A, m, B, j + 1, K, k + 1), was, changed)
  {
    hide dst.Linked, WriteAt, ReadAt, a.Readable, ContentsOf, Running, TailKept, NonZero, Normal, Piece, Held, GenLeft, Conserved, ReadAll3,
      CombineWords;
    ghost var nodes, free, own := Nodes(dst.elts), dst.obstack.free, dst.Owned();
    ghost var na, nb, nk := Nodes(a.elts), Nodes(b.elts), Nodes(kill.elts);
    ReadViews(dst, a, b, kill, A, i, a_elt, B, j, b_elt, K, k, kill_elt);
    GenKilled(A, i, B, j, K, k);
    ghost var va := View(a_elt);
    var tmp, ior := KilledWords(b_elt, kill_elt);
    changed, elt', prev', kept, p' := changed0, elt, prev, ior != 0, p;
    label L:
    if kept {
      ghost var m := if i < |A| && A[i].indx == B[j].indx then i + 1 else i;
      ViewNonZero(tmp);
      assert View(a_elt) == va;
      changed, elt', prev' := GenPut(dst, a, b, kill, elt, prev, a_elt, tmp, changed0, A, i, B, j, b_elt, K, k, kill_elt, p, result,
        GenLeft(A, m, B, j + 1, K, k + 1), was, elts0, cursor);
      p' := p + 1;
      ghost var now := ConservedParts@L(dst);
      ConservedStep(dst, own, now);
    } else {
      ConservedStart(dst);
    }
  }

  lemma ViewNonZero(e: Element)
    requires |e.bits| == ELEMENT_WORDS && e.bits != ZERO_WORDS
    ensures NonZero(View(e))
  {
  }

  lemma ReadViews(dst: Bitmap, a: Bitmap, b: Bitmap, kill: Bitmap, A: seq<Entry>, i: nat, a_elt: Element?,
                  B: seq<Entry>, j: nat, b_elt: Element?, K: seq<Entry>, k: nat, kill_elt: Element?)
    requires ReadAll3(dst, a, b, kill, A, i, a_elt, B, j, b_elt, K, k, kill_elt)
    ensures i <= |A| && j <= |B| && k <= |K| && Normal(A) && Normal(B) && Normal(K)
    ensures (a_elt == null <==> i == |A|) && (b_elt == null <==> j == |B|) && (kill_elt == null <==> k == |K|)
    ensures a_elt != null ==> A[i] == Entry(a_elt.indx, a_elt.bits) && |a_elt.bits| == ELEMENT_WORDS
    ensures b_elt != null ==> B[j] == Entry(b_elt.indx, b_elt.bits) && |b_elt.bits| == ELEMENT_WORDS
    ensures kill_elt != null ==> K[k] == Entry(kill_elt.indx, kill_elt.bits) && |kill_elt.bits| == ELEMENT_WORDS
    ensures View(a_elt) == A[i..if i < |A| then i + 1 else i] && NonZero(View(a_elt)) && NonZero(View(b_elt))
    ensures a != dst && b != dst && kill != dst
  {
    ReadView(a, dst, A, i, a_elt);
    ReadView(b, dst, B, j, b_elt);
    ReadView(kill, dst, K, k, kill_elt);
  }

  /** The body of the loop when it takes the next elements of `a` and `b` as they are. */
  method GenPlainStep(dst: Bitmap, a: Bitmap, b: Bitmap, kill: Bitmap, elt: Element?, prev: Element?, a_elt: Element?, b_elt: Element?,
                      ghost kill_elt: Element?, changed0: bool, ghost A: seq<Entry>, ghost i: nat, ghost B: seq<Entry>, ghost j: nat,
                      ghost K: seq<Entry>, ghost k: nat, ghost p: nat, ghost result: seq<Entry>, ghost was: seq<Entry>,
                      ghost elts0: seq<Element>, ghost cursor: Element?)
    returns (changed: bool, elt': Element?, prev': Element?)
    requires WriteAt(dst, p, prev, elt) && Held(dst, elts0, cursor) && Normal(was) && TailKept(dst.Contents(), p, was)
    requires ReadAll3(dst, a, b, kill, A, i, a_elt, B, j, b_elt, K, k, kill_elt) && (a_elt != null || b_elt != null)
    requires i <= |A| && j <= |B| && k <= |K| && Running(result, dst.Contents(), p, GenLeft(A, i, B, j, K, k), was, changed0)
    requires j < |B| && k < |K| ==> K[k].indx >= B[j].indx
    requires j < |B| && k < |K| && K[k].indx == B[j].indx ==> i < |A| && A[i].indx < B[j].indx
    modifies dst, dst.obstack, dst.Owned()
    ensures WriteAt(dst, p + 1, prev', elt') && Held(dst, elts0, cursor) && TailKept(dst.Contents(), p + 1, was) && Conserved(dst)
    ensures ReadAll3(dst, a, b, kill, A, i, a_elt, B, j, b_elt, K, k, kill_elt)
    ensures Running(result, dst.Contents(), p + 1, GenLeft(A, i + MovesLeft(A, i, B, j), B, j + MovesLeft(B, j, A, i), K, k), was, changed)
  {
    hide dst.Linked, WriteAt, ReadAt, a.Readable, ContentsOf, Running, TailKept, NonZero, Normal, Piece, Held, GenLeft, Conserved, ReadAll3,
      MovesLeft;
    ReadViews(dst, a, b, kill, A, i, a_elt, B, j, b_elt, K, k, kill_elt);
    GenPlain(A, i, B, j, K, k);
    PlainPiece(dst, a, b, kill, A, i, a_elt, B, j, b_elt, K, k, kill_elt);
    changed, elt', prev' := GenPut(dst, a, b, kill, elt, prev, a_elt, b_elt, changed0, A, i, B, j, b_elt, K, k, kill_elt, p, result,
      GenLeft(A, i + MovesLeft(A, i, B, j), B, j + MovesLeft(B, j, A, i), K, k), was, elts0, cursor);
  }

  lemma PlainPiece(dst: Bitmap, a: Bitmap, b: Bitmap, kill: Bitmap, A: seq<Entry>, i: nat, a_elt: Element?,
                   B: seq<Entry>, j: nat, b_elt: Element?, K: seq<Entry>, k: nat, kill_elt: Element?)
    requires ReadAll3(dst, a, b, kill, A, i, a_elt, B, j, b_elt, K, k, kill_elt)
    ensures i <= |A| && j <= |B| && NextPiece(Ior, A, i, B, j) == Piece(Ior, View(a_elt), View(b_elt))
  {
    hide CombineWords;
    ReadParts(a, dst, A, i, a_elt);
    ReadParts(b, dst, B, j, b_elt);
    PieceView(Ior, a.elts, i, b.elts, j);
  }

  lemma GenSkip(A: seq<Entry>, i: nat, B: seq<Entry>, j: nat, K: seq<Entry>, k: nat, k': nat)
    requires i <= |A| && j < |B| && k <= k' <= |K| && forall m :: k <= m < k' ==> K[m].indx < B[j].indx
    ensures GenLeft(A, i, B, j, K, k) == GenLeft(A, i, B, j, K, k')
  {
    SkipRemaining(B, j, K, k, k');
  }

  lemma PlainMoves(dst: Bitmap, a: Bitmap, b: Bitmap, kill: Bitmap, A: seq<Entry>, i: nat, a_elt: Element?,
                   B: seq<Entry>, j: nat, b_elt: Element?, K: seq<Entry>, k: nat, kill_elt: Element?)
    requires ReadAll3(dst, a, b, kill, A, i, a_elt, B, j, b_elt, K, k, kill_elt) && (a_elt != null || b_elt != null)
    ensures i <= |A| && j <= |B| && k <= |K| && MovesLeft(A, i, B, j) + MovesLeft(B, j, A, i) >= 1
    ensures ReadAll3(dst, a, b, kill, A, i + MovesLeft(A, i, B, j), Moved(a_elt, b_elt), B, j + MovesLeft(B, j, A, i),
      Moved(b_elt, a_elt), K, k, kill_elt)
  {
    BothMove(a, b, dst, A, i, a_elt, B, j, b_elt);
  }

  /** The pointers after a killed element: past it in `b` and `kill`, and in `a` if it was merged there. */
  lemma KilledMoves(dst: Bitmap, a: Bitmap, b: Bitmap, kill: Bitmap, A: seq<Entry>, i: nat, a_elt: Element?,
                    B: seq<Entry>, j: nat, b_elt: Element, K: seq<Entry>, k: nat, kill_elt: Element)
    requires ReadAll3(dst, a, b, kill, A, i, a_elt, B, j, b_elt, K, k, kill_elt)
    ensures i <= |A| && j < |B| && k < |K|
    ensures ReadAll3(dst, a, b, kill, A, i, a_elt, B, j + 1, b_elt.next, K, k + 1, kill_elt.next)
    ensures a_elt != null ==> i < |A| && A[i].indx == a_elt.indx
    ensures a_elt != null ==> ReadAll3(dst, a, b, kill, A, i + 1, a_elt.next, B, j + 1, b_elt.next, K, k + 1, kill_elt.next)
    ensures a_elt == null ==> i == |A|
    ensures B[j].indx == b_elt.indx
  {
    hide ReadAt;
    ReadNext(b, dst, B, j, b_elt);
    ReadNext(kill, dst, K, k, kill_elt);
    ReadView(a, dst, A, i, a_elt);
    ReadView(b, dst, B, j, b_elt);
    if a_elt != null {
      ReadNext(a, dst, A, i, a_elt);
    }
  }

  lemma ReadKill(dst: Bitmap, a: Bitmap, b: Bitmap, kill: Bitmap, A: seq<Entry>, i: nat, a_elt: Element?,
                 B: seq<Entry>, j: nat, b_elt: Element?, K: seq<Entry>, k: nat, kill_elt: Element?)
    requires ReadAll3(dst, a, b, kill, A, i, a_elt, B, j, b_elt, K, k, kill_elt)
    ensures k <= |kill.elts| == |K| && kill_elt == At(kill.elts, k) && i <= |A| && j <= |B|
    ensures forall m :: 0 <= m < |K| ==> kill.elts[m].next == At(kill.elts, m + 1) && kill.elts[m].indx == K[m].indx
    ensures b_elt != null ==> j < |B| && B[j].indx == b_elt.indx
    ensures b_elt == null ==> j == |B|
    ensures a_elt != null ==> i < |A| && A[i].indx == a_elt.indx
  {
    ReadAll(kill, dst, K, k, kill_elt);
    ReadView(b, dst, B, j, b_elt);
    ReadView(a, dst, A, i, a_elt);
  }

  lemma KillLater(dst: Bitmap, a: Bitmap, b: Bitmap, kill: Bitmap, A: seq<Entry>, i: nat, a_elt: Element?,
                  B: seq<Entry>, j: nat, b_elt: Element?, K: seq<Entry>, k: nat, k': nat)
    requires ReadAll3(dst, a, b, kill, A, i, a_elt, B, j, b_elt, K, k, At(kill.elts, k)) && k' <= |kill.elts|
    ensures ReadAll3(dst, a, b, kill, A, i, a_elt, B, j, b_elt, K, k', At(kill.elts, k'))
    ensures k' < |kill.elts| ==> k' < |K| && K[k'].indx == kill.elts[k'].indx
  {
    ReadLater(kill, dst, K, k, k');
    ReadView(kill, dst, K, k', At(kill.elts, k'));
  }

  /** The body of `BitmapIorAndCompl`'s loop, once `kill` has caught up with `b`. */
  method GenStep(dst: Bitmap, a: Bitmap, b: Bitmap, kill: Bitmap, elt: Element?, prev: Element?, a_elt: Element?, b_elt: Element?,
                 kill_elt: Element?, changed0: bool, ghost A: seq<Entry>, ghost i: nat, ghost B: seq<Entry>, ghost j: nat,
                 ghost K: seq<Entry>, ghost k: nat, ghost p: nat, ghost result: seq<Entry>, ghost was: seq<Entry>,
                 ghost elts0: seq<Element>, ghost cursor: Element?)
    returns (changed: bool, elt': Element?, prev': Element?, a_elt': Element?, b_elt': Element?, kill_elt': Element?,
             ghost p': nat, ghost i': nat, ghost j': nat, ghost k': nat)
    requires b_elt != null ==> kill_elt == null || kill_elt.indx >= b_elt.indx
    requires WriteAt(dst, p, prev, elt) && Held(dst, elts0, cursor) && Normal(was) && TailKept(dst.Contents(), p, was)
    requires ReadAll3(dst, a, b, kill, A, i, a_elt, B, j, b_elt, K, k, kill_elt) && (a_elt != null || b_elt != null)
    requires i <= |A| && j <= |B| && k <= |K| && Running(result, dst.Contents(), p, GenLeft(A, i, B, j, K, k), was, changed0)
    modifies dst, dst.obstack, dst.Owned()
    ensures WriteAt(dst, p', prev', elt') && Held(dst, elts0, cursor) && TailKept(dst.Contents(), p', was) && Conserved(dst)
    ensures ReadAll3(dst, a, b, kill, A, i', a_elt', B, j', b_elt', K, k', kill_elt')
    ensures i <= i' <= |A| && j <= j' <= |B| && k' <= |K| && i + j < i' + j'
    ensures Running(result, dst.Contents(), p', GenLeft(A, i', B, j', K, k'), was, changed)
  {
    hide dst.Linked, WriteAt, ReadAt, a.Readable, ContentsOf, Running, TailKept, NonZero, Normal, Piece, Held, GenLeft, Conserved, ReadAll3,
      MovesLeft, Moved, dst.Owned, Nodes;
    ReadViews(dst, a, b, kill, A, i, a_elt, B, j, b_elt, K, k, kill_elt);
    if b_elt != null && kill_elt != null && kill_elt.indx == b_elt.indx && (a_elt == null || a_elt.indx >= b_elt.indx) {
      var kept;
      changed, elt', prev', kept, p' := GenKilledStep(dst, a, b, kill, elt, prev, a_elt, b_elt, kill_elt, changed0, A, i, B, j, K, k, p,
        result, was, elts0, cursor);
      KilledMoves(dst, a, b, kill, A, i, a_elt, B, j, b_elt, K, k, kill_elt);
      a_elt', i' := a_elt, i;
      if kept && a_elt != null && a_elt.indx == b_elt.indx {
        a_elt', i' := a_elt.next, i + 1;
      }
      b_elt', kill_elt' := b_elt.next, kill_elt.next;
      j', k' := j + 1, k + 1;
    } else {
      changed, elt', prev' := GenPlainStep(dst, a, b, kill, elt, prev, a_elt, b_elt, kill_elt, changed0, A, i, B, j, K, k, p,
        result, was, elts0, cursor);
      PlainMoves(dst, a, b, kill, A, i, a_elt, B, j, b_elt, K, k, kill_elt);
      a_elt', b_elt' := Moved(a_elt, b_elt), Moved(b_elt, a_elt);
      kill_elt', k' := kill_elt, k;
      i', j', p' := i + MovesLeft(A, i, B, j), j + MovesLeft(B, j, A, i), p + 1;
    }
  }

  /** The body of `BitmapIorAndCompl`'s loop. */
  method GenRound(dst: Bitmap, a: Bitmap, b: Bitmap, kill: Bitmap, elt: Element?, prev: Element?, a_elt: Element?, b_elt: Element?,
                  kill_elt: Element?, changed0: bool, ghost A: seq<Entry>, ghost i: nat, ghost B: seq<Entry>, ghost j: nat,
                  ghost K: seq<Entry>, ghost k: nat, ghost p: nat, ghost result: seq<Entry>, ghost was: seq<Entry>,
                  ghost elts0: seq<Element>, ghost cursor: Element?)
    returns (changed: bool, elt': Element?, prev': Element?, a_elt': Element?, b_elt': Element?, kill_elt': Element?,
             ghost p': nat, ghost i': nat, ghost j': nat, ghost k': nat)
    requires WriteAt(dst, p, prev, elt) && Held(dst, elts0, cursor) && Normal(was) && TailKept(dst.Contents(), p, was)
    requires ReadAll3(dst, a, b, kill, A, i, a_elt, B, j, b_elt, K, k, kill_elt) && (a_elt != null || b_elt != null)
    requires i <= |A| && j <= |B| && k <= |K| && Running(result, dst.Contents(), p, GenLeft(A, i, B, j, K, k), was, changed0)
    modifies dst, dst.obstack, dst.Owned()
    ensures WriteAt(dst, p', prev', elt') && Held(dst, elts0, cursor) && TailKept(dst.Contents(), p', was) && Conserved(dst)
    ensures ReadAll3(dst, a, b, kill, A, i', a_elt', B, j', b_elt', K, k', kill_elt')
    ensures i <= i' <= |A| && j <= j' <= |B| && k' <= |K| && i + j < i' + j'
    ensures Running(result, dst.Contents(), p', GenLeft(A, i', B, j', K, k'), was, changed)
  {
    hide dst.Linked, WriteAt, ReadAt, a.Readable, ContentsOf, Running, TailKept, NonZero, Normal, Piece, Held, GenLeft, Conserved, ReadAll3,
      MovesLeft, Moved, dst.Owned, Nodes;
    ReadKill(dst, a, b, kill, A, i, a_elt, B, j, b_elt, K, k, kill_elt);
    kill_elt', k' := kill_elt, k;
    if b_elt != null {
      while kill_elt' != null && kill_elt'.indx < b_elt.indx
        invariant k <= k' <= |kill.elts| == |K| && kill_elt' == At(kill.elts, k')
        invariant forall m :: k <= m < k' ==> K[m].indx < B[j].indx
        decreases |K| - k'
      {
        kill_elt' := kill_elt'.next;
        k' := k' + 1;
      }
      GenSkip(A, i, B, j, K, k, k');
    }
    KillLater(dst, a, b, kill, A, i, a_elt, B, j, b_elt, K, k, k');
    changed, elt', prev', a_elt', b_elt', kill_elt', p', i', j', k' := GenStep(dst, a, b, kill, elt, prev, a_elt, b_elt, kill_elt',
      changed0, A, i, B, j, K, k', p, result, was, elts0, cursor);
  }

  /** The loop of `BitmapIorAndCompl`. */
  method GenLoop(dst: Bitmap, a: Bitmap, b: Bitmap, kill: Bitmap)
    returns (changed: bool, dst_prev: Element?, dst_elt: Element?, ghost p: nat)
    requires dst.Valid() && Operand(a, dst) && Operand(b, dst) && Operand(kill, dst)
    modifies dst, dst.obstack, dst.Owned()
    ensures WriteAt(dst, p, dst_prev, dst_elt) && Conserved(dst) && Held(dst, old(dst.elts), old(dst.current))
    ensures Running(Gen(old(a.Contents()), old(b.Contents()), old(kill.Contents())), dst.Contents(), p, [], old(dst.Contents()), changed)
    ensures TailKept(dst.Contents(), p, old(dst.Contents()))
  {
    hide WriteAt, ReadAt, dst.Linked, dst.Valid, Operand, ContentsOf, Running, TailKept, Normal, dst.Owned, Nodes, Conserved, Held,
      ReadAll3, GenLeft, Gen;
    ghost var A, B, K, was := a.Contents(), b.Contents(), kill.Contents(), dst.Contents();
    ghost var R := Gen(A, B, K);
    ghost var i, j, k := 0, 0, 0;
    GenStart(dst, a, b, kill);
    ConservedStart(dst);
    changed, dst_prev, dst_elt, p := false, null, dst.first, 0;
    var a_elt, b_elt, kill_elt := a.first, b.first, kill.first;
    while a_elt != null || b_elt != null
      invariant 0 <= i <= |A| && 0 <= j <= |B| && 0 <= k <= |K|
      invariant WriteAt(dst, p, dst_prev, dst_elt) && ReadAll3(dst, a, b, kill, A, i, a_elt, B, j, b_elt, K, k, kill_elt)
      invariant Running(R, dst.Contents(), p, GenLeft(A, i, B, j, K, k), was, changed) && TailKept(dst.Contents(), p, was)
      invariant Conserved(dst) && Held(dst, old(dst.elts), old(dst.current))
      decreases |A| - i + |B| - j
    {
      ghost var own := ConservedParts(dst);
      label L:
      changed, dst_elt, dst_prev, a_elt, b_elt, kill_elt, p, i, j, k := GenRound(dst, a, b, kill, dst_elt, dst_prev, a_elt, b_elt, kill_elt,
        changed, A, i, B, j, K, k, p, R, was, old(dst.elts), old(dst.current));
      ghost var now := ConservedParts@L(dst);
      ConservedStep(dst, own, now);
    }
    ReadKill(dst, a, b, kill, A, i, a_elt, B, j, b_elt, K, k, kill_elt);
    ReadViews(dst, a, b, kill, A, i, a_elt, B, j, b_elt, K, k, kill_elt);
    GenEmpty(A, B, K, k);
  }

  lemma GenStart(dst: Bitmap, a: Bitmap, b: Bitmap, kill: Bitmap)
    requires dst.Valid() && Operand(a, dst) && Operand(b, dst) && Operand(kill, dst)
    ensures WriteAt(dst, 0, null, dst.first) && Held(dst, dst.elts, dst.current) && Normal(dst.Contents())
    ensures ReadAll3(dst, a, b, kill, a.Contents(), 0, a.first, b.Contents(), 0, b.first, kill.Contents(), 0, kill.first)
    ensures
      var A, B, K := a.Contents(), b.Contents(), kill.Contents();
      Running(Gen(A, B, K), dst.Contents(), 0, GenLeft(A, 0, B, 0, K, 0), dst.Contents(), false)
    ensures TailKept(dst.Contents(), 0, dst.Contents())
  {
    hide Merge, dst.Valid, Operand, ReadAt, WriteAt, ContentsOf, Normal;
    ReadStart(a, dst);
    ReadStart(b, dst);
    ReadStart(kill, dst);
    WriteStart(dst);
    var A, B, K := a.Contents(), b.Contents(), kill.Contents();
    assert A[0..] == A && B[0..] == B && K[0..] == K;
  }

  lemma GenEmpty(A: seq<Entry>, B: seq<Entry>, K: seq<Entry>, k: nat)
    requires k <= |K|
    ensures GenLeft(A, |A|, B, |B|, K, k) == []
  {
    hide Merge;
    assert A[|A|..] == [] && B[|B|..] == [];
    MergeEnds(AndCompl, K[k..]);
    MergeEnds(Ior, []);
  }

  lemma GenShortcuts(A: seq<Entry>, B: seq<Entry>, K: seq<Entry>)
    requires Normal(A) && Normal(B) && Normal(K)
    ensures B == K || B == [] ==> Gen(A, B, K) == A
    ensures K == [] ==> Gen(A, B, K) == Merge(Ior, A, B)
    ensures A == [] ==> Gen(A, B, K) == Merge(AndCompl, B, K)
  {
    hide Merge, Normal;
    MergeSelf(AndCompl, B);
    MergeEnds(AndCompl, B);
    MergeEnds(AndCompl, K);
    MergeEnds(Ior, A);
    MergeEnds(Ior, Merge(AndCompl, B, K));
  }

  /** `a | (b & ~kill)` as sets. */
  lemma GenHas(A: seq<Entry>, B: seq<Entry>, K: seq<Entry>, n: nat)
    requires Normal(A) && Normal(B) && Normal(K)
    ensures Normal(Gen(A, B, K))
    ensures Has(Gen(A, B, K), n) <==> Has(A, n) || (Has(B, n) && !Has(K, n))
  {
    hide Has, Normal, Merge;
    MergeNormal(AndCompl, B, K);
    MergeNormal(Ior, A, Merge(AndCompl, B, K));
    MergeHas(AndCompl, B, K, n);
    MergeHas(Ior, A, Merge(AndCompl, B, K), n);
  }

  /** The members are those of `A`, and those of `B` that are not in `K`. */
  ghost predicate GenComputes(s: seq<Entry>, A: seq<Entry>, B: seq<Entry>, K: seq<Entry>) {
    Normal(s) && forall n: nat :: Has(s, n) <==> Has(A, n) || (Has(B, n) && !Has(K, n))
  }

  lemma GenIsRight(A: seq<Entry>, B: seq<Entry>, K: seq<Entry>)
    requires Normal(A) && Normal(B) && Normal(K)
    ensures GenComputes(Gen(A, B, K), A, B, K)
  {
    hide Has, Normal, Gen;
    GenHas(A, B, K, 0);
    forall n: nat
      ensures Has(Gen(A, B, K), n) <==> Has(A, n) || (Has(B, n) && !Has(K, n))
    {
      GenHas(A, B, K, n);
    }
  }

  lemma ValidComparable(a: Bitmap)
    requires a.Valid()
    ensures Comparable(a)
  {
  }

  lemma OperandComparable(a: Bitmap, dst: Bitmap)
    requires Operand(a, dst)
    ensures Comparable(a) && (a.first == null <==> a.Contents() == []) && Normal(a.Contents())
  {
    ContentsAt(a.elts);
  }

  /** The general case of `BitmapIorAndCompl`. */
  method GenRun(dst: Bitmap, a: Bitmap, b: Bitmap, kill: Bitmap) returns (changed: bool)
    requires dst.Valid() && Operand(a, dst) && Operand(b, dst) && Operand(kill, dst)
    modifies dst, dst.obstack, dst.Owned()
    ensures dst.Linked() && dst.Contents() == Gen(old(a.Contents()), old(b.Contents()), old(kill.Contents()))
    ensures changed <==> dst.Contents() != old(dst.Contents())
    ensures dst.CursorOk() <==>
      !Stranded(old(dst.current), old(dst.elts), old(dst.Contents()), Gen(old(a.Contents()), old(b.Contents()), old(kill.Contents())))
    ensures Conserved(dst)
  {
    hide WriteAt, dst.Linked, dst.Valid, ContentsOf, Running, TailKept, Gen, dst.Owned, Nodes, Conserved, Held, Stranded, dst.CursorOk;
    ghost var was, result := dst.Contents(), Gen(a.Contents(), b.Contents(), kill.Contents());
    var dst_prev, dst_elt;
    ghost var p;
    CursorStart(dst);
    changed, dst_prev, dst_elt, p := GenLoop(dst, a, b, kill);
    ghost var own := ConservedParts(dst);
    changed := CutRest(dst, dst_prev, dst_elt, changed, p, result, was, old(dst.elts), old(dst.current));
    ConservedStep(dst, own, dst.Owned());
  }

  /** `dst` becomes a copy of `a` unless it is one already. */
  method CopyIfOther(dst: Bitmap, a: Bitmap) returns (changed: bool)
    requires dst.Valid() && Operand(a, dst)
    modifies dst, dst.obstack, dst.Owned()
    ensures dst.Valid() && dst.Contents() == old(a.Contents()) && Conserved(dst)
    ensures changed <==> dst.Contents() != old(dst.Contents())
  {
    hide dst.Linked, ContentsOf, dst.CursorOk, Normal;
    ghost var own, nodes, na := dst.Owned(), Nodes(dst.elts), Nodes(a.elts);
    ghost var A, was := a.Contents(), dst.Contents();
    ValidComparable(dst);
    OperandComparable(a, dst);
    var equal := BitmapEqualP(dst, a);
    changed := !equal;
    label L:
    if changed {
      BitmapCopy(dst, a);
      ghost var now := ConservedParts@L(dst);
      ConservedStep(dst, own, now);
    } else {
      ConservedStart(dst);
    }
  }

  /**
   * `dst = a | (b & ~kill)`, and whether it differs from what `dst` held. The cursor may be left on a freed
   * element, exactly as `Stranded` says, except in the cases that are reduced to a copy or to `a & ~b`.
   */
  method BitmapIorAndCompl(dst: Bitmap, a: Bitmap, b: Bitmap, kill: Bitmap) returns (changed: bool)
    requires dst.Valid() && Operand(a, dst) && Operand(b, dst) && Operand(kill, dst)
    modifies dst, dst.obstack, dst.Owned()
    ensures dst.Linked() && dst.Contents() == Gen(old(a.Contents()), old(b.Contents()), old(kill.Contents()))
    ensures GenComputes(dst.Contents(), old(a.Contents()), old(b.Contents()), old(kill.Contents()))
    ensures changed <==> dst.Contents() != old(dst.Contents())
    ensures dst.CursorOk() <==>
      || b == kill || old(b.Contents()) == [] || (old(a.Contents()) == [] && old(kill.Contents()) != [])
      || !Stranded(old(dst.current), old(dst.elts), old(dst.Contents()), Gen(old(a.Contents()), old(b.Contents()), old(kill.Contents())))
    ensures Conserved(dst)
  {
    hide dst.Linked, Operand, ContentsOf, Gen, Merge, Normal, dst.Owned, Nodes, Conserved, Stranded, dst.CursorOk, Computes,
      GenComputes;
    OperandComparable(a, dst);
    OperandComparable(b, dst);
    OperandComparable(kill, dst);
    GenIsRight(a.Contents(), b.Contents(), kill.Contents());
    GenShortcuts(a.Contents(), b.Contents(), kill.Contents());
    if b == kill || b.first == null {
      changed := CopyIfOther(dst, a);
    } else if kill.first == null {
      changed := BitmapIor(dst, a, b);
    } else if a.first == null {
      changed := BitmapAndCompl(dst, b, kill);
    } else {
      changed := GenRun(dst, a, b, kill);
    }
  }
}
