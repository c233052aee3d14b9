/** The merges that change their first operand in place. */
module BitmapInto {
  import opened BitmapWords
  import opened BitmapEntries
  import opened BitmapList
  import opened BitmapMerge
  import opened BitmapDifference

  /**
   * The first `p` entries of the bitmap are final, and the others are the original ones from `i` on;
   * with `rest` they make the result. What `changed` says so far is right.
   */
  ghost predicate Blended(result: seq<Entry>, cur: seq<Entry>, p: nat, A: seq<Entry>, i: nat, rest: seq<Entry>, changed: bool) {
    && Running(result, cur, p, rest, A, changed) && i <= |A| && cur[p..] == A[i..] && Normal(A)
    && (i < |A| ==> forall q :: 0 <= q < p ==> cur[q].indx < A[i].indx)
  }

  lemma KeepLeft(result: seq<Entry>, cur: seq<Entry>, p: nat, A: seq<Entry>, i: nat, rest: seq<Entry>, rest': seq<Entry>, changed: bool)
    requires Blended(result, cur, p, A, i, rest, changed) && i < |A| && rest == [A[i]] + rest'
    ensures Blended(result, cur, p + 1, A, i + 1, rest', changed)
  {
    assert cur[p] == cur[p..][0] == A[i];
    assert cur[p + 1..] == cur[p..][1..] && A[i + 1..] == A[i..][1..];
    assert cur[..p + 1] == cur[..p] + [A[i]];
  }

  lemma DropLeft(result: seq<Entry>, cur: seq<Entry>, p: nat, A: seq<Entry>, i: nat, rest: seq<Entry>, changed: bool)
    requires Blended(result, cur, p, A, i, rest, changed) && i < |A| && From(rest, A[i].indx + 1)
    ensures p < |cur| && cur[p] == A[i] && Blended(result, cur[..p] + cur[p + 1..], p, A, i + 1, rest, true)
  {
    assert cur[p] == cur[p..][0] == A[i];
    var cur' := cur[..p] + cur[p + 1..];
    assert cur'[p..] == cur[p + 1..] == cur[p..][1..] && A[i + 1..] == A[i..][1..];
    assert cur'[..p] == cur[..p];
    if !changed {
      Differs(result, A, p);
    }
  }

  lemma WriteLeft(result: seq<Entry>, cur: seq<Entry>, p: nat, A: seq<Entry>, i: nat, e: Entry, rest: seq<Entry>, rest': seq<Entry>, changed: bool)
    requires Blended(result, cur, p, A, i, rest, changed) && i < |A| && rest == [e] + rest' && e.indx == A[i].indx
    ensures p < |cur| && cur[p] == A[i] && Blended(result, cur[p := e], p + 1, A, i + 1, rest', changed || e != A[i])
  {
    assert cur[p] == cur[p..][0] == A[i];
    var cur' := cur[p := e];
    assert cur'[p + 1..] == cur[p + 1..] == cur[p..][1..] && A[i + 1..] == A[i..][1..];
    assert cur'[..p + 1] == cur[..p] + [e];
    assert result[p] == e;
    if !changed && e != A[i] {
      Differs(result, A, p);
    } else if e == A[i] {
      assert cur' == cur;
    }
  }

  lemma InsertRight(result: seq<Entry>, cur: seq<Entry>, p: nat, A: seq<Entry>, i: nat, e: Entry, rest: seq<Entry>, rest': seq<Entry>, changed: bool)
    requires Blended(result, cur, p, A, i, rest, changed) && rest == [e] + rest' && (i < |A| ==> e.indx < A[i].indx)
    ensures p <= |cur| && Blended(result, cur[..p] + [e] + cur[p..], p + 1, A, i, rest', true)
  {
    var cur' := cur[..p] + [e] + cur[p..];
    assert cur'[p + 1..] == cur[p..] && cur'[..p + 1] == cur[..p] + [e];
    assert result[p] == e;
    if !changed {
      assert p < |cur| ==> cur[p] == cur[p..][0] == A[i];
      Differs(result, A, p);
    }
  }

  lemma RestAbove(op: Op, A: seq<Entry>, i: nat, B: seq<Entry>, j: nat)
    requires Normal(A) && Normal(B) && i <= |A| && j <= |B| && (i < |A| || j < |B|)
    ensures Remaining(op, A, i, B, j) == NextPiece(op, A, i, B, j) + RemainingNext(op, A, i, B, j)
    ensures MovesLeft(A, i, B, j) == 1 ==> i < |A| && From(RemainingNext(op, A, i, B, j), A[i].indx + 1)
  {
    hide Merge, Piece;
    MergeAt(op, A, B, i, j);
    if MovesLeft(A, i, B, j) == 1 {
      TailNormal(A, i);
      var j' := j + MovesLeft(B, j, A, i);
      TailsNormal(B, j');
      if j < |B| {
        TailNormal(B, j);
        FromHere(B, j);
        if j' == j {
          FromLess(B[j..], B[j].indx, A[i].indx + 1);
        }
      } else {
        EmptyFrom(A[i].indx + 1);
        assert B[j'..] == [];
      }
      MergeFrom(op, A[i + 1..], B[j'..], A[i].indx + 1);
    }
  }

  lemma XorAndIsAndNot(a: Word, b: Word)
    ensures WordXor(a, WordAnd(a, b)) == WordAnd(a, WordNot(b))
    ensures WordAnd(a, b) == 0 <==> WordXor(a, WordAnd(a, b)) == a
  {
  }

  /** One word of an in-place merge; a change shows in `changed` or in `differs`. */
  method WordInto(op: Op, x: Word, y: Word, changed: Word, differs: bool) returns (w: Word, changed': Word, differs': bool)
    ensures w == Combine(op, x, y)
    ensures changed' != 0 || differs' <==> changed != 0 || differs || w != x
  {
    hide Combine, WordOr, WordXor, WordAnd, WordNot;
    changed', differs' := changed, differs;
    if op.AndCompl? {
      var cleared := WordAnd(x, y);
      w := WordXor(x, cleared);
      CombineAndCompl(x, y);
      OrZero(changed, cleared);
      changed' := WordOr(changed, cleared);
    } else {
      w := Combine(op, x, y);
      differs' := differs || w != x;
    }
  }

  /** The word loop of an in-place merge; `differs` tells whether any word changes. */
  method WordsInto(op: Op, a: seq<Word>, b: seq<Word>) returns (r: seq<Word>, ior: Word, differs: bool)
    requires |a| == |b| == ELEMENT_WORDS
    ensures r == CombineWords(op, a, b) && (ior == 0 <==> r == ZERO_WORDS) && differs == (r != a)
  {
    hide Combine, WordOr, WordXor, WordAnd, WordNot;
    r, ior := ZERO_WORDS, 0;
    var changed: Word := 0;
    differs := false;
    var ix := ELEMENT_WORDS;
    while ix != 0
      invariant 0 <= ix <= |r| == ELEMENT_WORDS
      invariant forall k :: ix <= k < ELEMENT_WORDS ==> r[k] == Combine(op, a[k], b[k])
      invariant ior == 0 <==> forall k :: ix <= k < ELEMENT_WORDS ==> r[k] == 0
      invariant (changed != 0 || differs) <==> exists k :: ix <= k < ELEMENT_WORDS && r[k] != a[k]
    {
      ix := ix - 1;
      var w: Word;
      w, changed, differs := WordInto(op, a[ix], b[ix], changed, differs);
      r := r[ix := w];
      OrZero(ior, w);
      ior := WordOr(ior, w);
    }
    differs := differs || changed != 0;
  }

  lemma CombineAndCompl(a: Word, b: Word)
    ensures Combine(AndCompl, a, b) == WordXor(a, WordAnd(a, b))
    ensures WordAnd(a, b) == 0 <==> WordXor(a, WordAnd(a, b)) == a
  {
    hide WordXor, WordAnd, WordNot;
    XorAndIsAndNot(a, b);
  }

  /** The bitmap that is changed in place, with its pointers. */
  ghost predicate IntoAt(a: Bitmap, p: nat, prev: Element?, elt: Element?)
    reads a, Nodes(a.elts), a.obstack, a.obstack.free
  {
    WriteAt(a, p, prev, elt) && a.CursorOk()
  }

  lemma IntoParts(a: Bitmap, p: nat, prev: Element?, elt: Element?)
    requires IntoAt(a, p, prev, elt)
    ensures WriteAt(a, p, prev, elt) && a.CursorOk() && p <= |a.elts| == |a.Contents()|
    ensures elt != null ==> p < |a.elts| && elt == a.elts[p] && a.Contents()[p] == Entry(elt.indx, elt.bits)
    ensures elt == null ==> p == |a.elts|
  {
    EntryAt(a.elts, p);
  }

  lemma BlendedParts(result: seq<Entry>, cur: seq<Entry>, p: nat, A: seq<Entry>, i: nat, rest: seq<Entry>, changed: bool)
    requires Blended(result, cur, p, A, i, rest, changed)
    ensures p <= |cur| && i <= |A| && |cur| - p == |A| - i && (p < |cur| ==> cur[p] == A[i])
  {
    assert p < |cur| ==> cur[p] == cur[p..][0] == A[i..][0];
  }

  /** Both operands have the next index: the merged words go over `elt`, which is freed if none is left. */
  method IntoMatch(op: Op, a: Bitmap, elt: Element, prev: Element?, words: seq<Word>, ior: Word, differs: bool, changed0: bool,
                   ghost p: nat, ghost A: seq<Entry>, ghost i: nat, ghost result: seq<Entry>, ghost rest: seq<Entry>)
    returns (changed: bool, elt': Element?, prev': Element?, ghost p': nat)
    requires IntoAt(a, p, prev, elt) && (ior == 0 <==> words == ZERO_WORDS)
    requires differs == (words != elt.bits) && |words| == ELEMENT_WORDS && From(rest, elt.indx + 1) && Normal(A)
    requires Blended(result, a.Contents(), p, A, i, (if ior != 0 then [Entry(elt.indx, words)] else []) + rest, changed0)
    modifies a, a.obstack, a.Owned()
    ensures IntoAt(a, p', prev', elt') && Conserved(a) && i < |A|
    ensures Blended(result, a.Contents(), p', A, i + 1, rest, changed)
  {
    hide WriteAt, After, Nodes, a.Owned, a.Linked, ContentsOf, Blended, From, a.CursorOk, Normal, Conserved;
    ghost var cur, own := a.Contents(), a.Owned();
    IntoParts(a, p, prev, elt);
    ghost var e := Entry(elt.indx, words);
    BlendedParts(result, cur, p, A, i, (if ior != 0 then [e] else []) + rest, changed0);
    changed := changed0 || differs;
    if ior != 0 {
      WriteLeft(result, cur, p, A, i, e, [e] + rest, rest, changed0);
    } else {
      assert [] + rest == rest;
      DropLeft(result, cur, p, A, i, rest, changed0);
      NormalAt(A, i);
    }
    OverwriteNext(a, prev, elt, elt.indx, words, p);
    if ior != 0 {
      WriteHas(a, p, prev, elt);
      WriteNext(a, p, prev, elt);
      prev', elt', p' := elt, elt.next, p + 1;
    } else {
      assert a.Contents()[..p] + a.Contents()[p + 1..] == cur[..p] + cur[p + 1..];
      RemoveElement(a, elt, prev, p);
      prev', elt', p' := prev, After(a, prev), p;
    }
    ConservedStart(a);
  }

  lemma NormalAt(A: seq<Entry>, i: nat)
    requires Normal(A) && i < |A|
    ensures A[i].words != ZERO_WORDS && |A[i].words| == ELEMENT_WORDS
  {
  }

  /** One round of an in-place merge, up to moving the pointer into `b`. */
  method IntoRound(op: Op, a: Bitmap, elt: Element?, prev: Element?, b_elt: Element?, changed0: bool, ghost p: nat,
                   ghost A: seq<Entry>, ghost i: nat, ghost B: seq<Entry>, ghost j: nat, ghost result: seq<Entry>)
    returns (changed: bool, elt': Element?, prev': Element?, ghost p': nat)
    requires IntoAt(a, p, prev, elt) && (elt != null || b_elt != null) && Normal(A) && Normal(B) && i <= |A| && j <= |B|
    requires if j == |B| then b_elt == null else b_elt != null && B[j] == Entry(b_elt.indx, b_elt.bits)
    requires Blended(result, a.Contents(), p, A, i, Remaining(op, A, i, B, j), changed0)
    modifies a, a.obstack, a.Owned()
    ensures IntoAt(a, p', prev', elt') && Conserved(a)
    ensures Blended(result, a.Contents(), p', A, i + MovesLeft(A, i, B, j), RemainingNext(op, A, i, B, j), changed)
  {
    hide WriteAt, After, Nodes, a.Owned, a.Linked, ContentsOf, Blended, From, a.CursorOk, Normal, Conserved, CombineWords, Remaining,
      RemainingNext;
    ghost var cur, nodes, free, own := a.Contents(), Nodes(a.elts), a.obstack.free, a.Owned();
    ghost var rest, rest' := Remaining(op, A, i, B, j), RemainingNext(op, A, i, B, j);
    IntoParts(a, p, prev, elt);
    BlendedParts(result, cur, p, A, i, rest, changed0);
    RestAbove(op, A, i, B, j);
    ConservedStart(a);
    changed, elt', prev', p' := changed0, elt, prev, p;
    if elt != null && b_elt != null && elt.indx == b_elt.indx {
      NormalAt(A, i);
      NormalAt(B, j);
      MatchPiece(op, A, i, B, j);
      changed, elt', prev', p' := IntoMatching(op, a, elt, prev, b_elt, changed0, p, A, i, result, rest');
    } else if elt != null && (b_elt == null || elt.indx < b_elt.indx) {
      LeftPiece(op, A, i, B, j);
      if KeepsLeft(op) {
        KeepLeft(result, cur, p, A, i, rest, rest', changed0);
        WriteHas(a, p, prev, elt);
        WriteNext(a, p, prev, elt);
        prev', elt', p' := elt, elt.next, p + 1;
      } else {
        assert [] + rest' == rest';
        DropLeft(result, cur, p, A, i, rest', changed0);
        RemoveElement(a, elt, prev, p);
        changed, elt' := true, After(a, prev);
        ConservedStart(a);
      }
    } else {
      RightPiece(op, A, i, B, j);
      if KeepsRight(op) {
        InsertRight(result, cur, p, A, i, B[j], rest, rest', changed0);
        var node := InsertElement(a, prev, elt, b_elt.indx, b_elt.bits, p);
        WriteHas(a, p, prev, node);
        WriteNext(a, p, prev, node);
        changed, prev', elt', p' := true, node, node.next, p + 1;
      } else {
        assert [] + rest' == rest';
      }
    }
  }

  lemma MatchPiece(op: Op, A: seq<Entry>, i: nat, B: seq<Entry>, j: nat)
    requires Normal(A) && Normal(B) && i < |A| && j < |B| && A[i].indx == B[j].indx
    ensures |A[i].words| == |B[j].words| == ELEMENT_WORDS && MovesLeft(A, i, B, j) == 1
    ensures
      var w := CombineWords(op, A[i].words, B[j].words);
      NextPiece(op, A, i, B, j) == if w != ZERO_WORDS then [Entry(A[i].indx, w)] else []
  {
    hide CombineWords;
  }

  lemma LeftPiece(op: Op, A: seq<Entry>, i: nat, B: seq<Entry>, j: nat)
    requires i < |A| && j <= |B| && (j < |B| ==> A[i].indx < B[j].indx)
    ensures NextPiece(op, A, i, B, j) == (if KeepsLeft(op) then [A[i]] else []) && MovesLeft(A, i, B, j) == 1
  {
  }

  lemma RightPiece(op: Op, A: seq<Entry>, i: nat, B: seq<Entry>, j: nat)
    requires i <= |A| && j < |B| && (i < |A| ==> B[j].indx < A[i].indx)
    ensures NextPiece(op, A, i, B, j) == (if KeepsRight(op) then [B[j]] else []) && MovesLeft(A, i, B, j) == 0
  {
  }

  /** The matching case of `IntoRound`. */
  method IntoMatching(op: Op, a: Bitmap, elt: Element, prev: Element?, b_elt: Element, changed0: bool,
                      ghost p: nat, ghost A: seq<Entry>, ghost i: nat, ghost result: seq<Entry>, ghost rest: seq<Entry>)
    returns (changed: bool, elt': Element?, prev': Element?, ghost p': nat)
    requires IntoAt(a, p, prev, elt) && |elt.bits| == |b_elt.bits| == ELEMENT_WORDS && Normal(A) && From(rest, elt.indx + 1)
    requires
      var w := CombineWords(op, elt.bits, b_elt.bits);
      Blended(result, a.Contents(), p, A, i, (if w != ZERO_WORDS then [Entry(elt.indx, w)] else []) + rest, changed0)
    modifies a, a.obstack, a.Owned()
    ensures IntoAt(a, p', prev', elt') && Conserved(a) && i < |A|
    ensures Blended(result, a.Contents(), p', A, i + 1, rest, changed)
  {
    hide WriteAt, IntoAt, a.Linked, ContentsOf, Blended, From, Normal, Conserved, CombineWords;
    ghost var cur, nodes, free, own := a.Contents(), Nodes(a.elts), a.obstack.free, a.Owned();
    var words, ior, differs := WordsInto(op, elt.bits, b_elt.bits);
    label L:
    changed, elt', prev', p' := IntoMatch(op, a, elt, prev, words, ior, differs, changed0, p, A, i, result, rest);
    ghost var now := ConservedParts@L(a);
    ConservedStep(a, own, now);
  }

  /** The body of the loops of the in-place merges. */
  method IntoStep(op: Op, a: Bitmap, b: Bitmap, elt: Element?, prev: Element?, b_elt: Element?, changed0: bool, ghost p: nat,
                  ghost A: seq<Entry>, ghost i: nat, ghost B: seq<Entry>, ghost j: nat, ghost result: seq<Entry>)
    returns (changed: bool, elt': Element?, prev': Element?, b_elt': Element?, ghost p': nat, ghost i': nat, ghost j': nat)
    requires IntoAt(a, p, prev, elt) && (elt != null || b_elt != null) && ReadAt(b, a, B, j, b_elt) && i <= |A| && j <= |B| && Normal(A)
    requires Blended(result, a.Contents(), p, A, i, Remaining(op, A, i, B, j), changed0)
    modifies a, a.obstack, a.Owned()
    ensures IntoAt(a, p', prev', elt') && Conserved(a) && ReadAt(b, a, B, j', b_elt')
    ensures i <= i' <= |A| && j <= j' <= |B| && i + j < i' + j'
    ensures Blended(result, a.Contents(), p', A, i', Remaining(op, A, i', B, j'), changed)
  {
    hide IntoAt, ReadAt, a.Linked, b.Readable, ContentsOf, Blended, Normal, NonZero, Remaining;
    IntoParts(a, p, prev, elt);
    BlendedParts(result, a.Contents(), p, A, i, Remaining(op, A, i, B, j), changed0);
    ReadParts(b, a, B, j, b_elt);
    var moves := b_elt != null && (elt == null || b_elt.indx <= elt.indx);
    i', j' := i + MovesLeft(A, i, B, j), j + MovesLeft(B, j, A, i);
    changed, elt', prev', p' := IntoRound(op, a, elt, prev, b_elt, changed0, p, A, i, B, j, result);
    ReadJoin(b, a, B, j, b_elt);
    b_elt' := b_elt;
    if moves {
      ReadNext(b, a, B, j, b_elt);
      b_elt' := b_elt.next;
    }
  }

  lemma IntoStart(op: Op, a: Bitmap, B: seq<Entry>)
    requires a.Valid()
    ensures IntoAt(a, 0, null, a.first) && Normal(a.Contents())
    ensures
      var A := a.Contents();
      Blended(Merge(op, A, B), A, 0, A, 0, Remaining(op, A, 0, B, 0), false)
  {
    hide Merge;
    WriteStart(a);
    var A := a.Contents();
    assert A[0..] == A && B[0..] == B;
  }

  lemma ValidAgain(a: Bitmap, p: nat, prev: Element?, elt: Element?)
    requires IntoAt(a, p, prev, elt) && Normal(a.Contents())
    ensures a.Valid()
  {
  }

  lemma LeftRemains(op: Op, A: seq<Entry>, i: nat, B: seq<Entry>, j: nat)
    requires i <= |A| && j <= |B|
    requires (j == |B| && KeepsLeft(op)) || (i == |A| && (j == |B| || !KeepsRight(op)))
    ensures Remaining(op, A, i, B, j) == A[i..]
  {
    hide Merge;
    if j == |B| {
      assert B[j..] == [];
      MergeEnds(op, A[i..]);
    } else {
      MergeEnds(op, B[j..]);
    }
    if i == |A| {
      assert A[i..] == [];
    }
  }

  /** What is left of `a` stays where it is. */
  lemma RestIsLeft(op: Op, result: seq<Entry>, cur: seq<Entry>, p: nat, A: seq<Entry>, i: nat, B: seq<Entry>, j: nat, changed: bool)
    requires i <= |A| && j <= |B| && Blended(result, cur, p, A, i, Remaining(op, A, i, B, j), changed)
    requires (j == |B| && KeepsLeft(op)) || (i == |A| && (j == |B| || !KeepsRight(op)))
    ensures cur == result && changed == (result != A)
  {
    hide Remaining, Normal;
    LeftRemains(op, A, i, B, j);
    assert cur == cur[..p] + cur[p..];
  }

  /** `a &= ~b`: exactly the difference, and whether `a` changes. */
  method BitmapAndComplInto(a: Bitmap, b: Bitmap) returns (changed: bool)
    requires a.Valid() && (b == a || Operand(b, a))
    modifies a, a.obstack, a.Owned()
    ensures a.Valid() && a.Contents() == Merge(AndCompl, old(a.Contents()), old(b.Contents())) && Conserved(a)
    ensures Computes(AndCompl, a.Contents(), old(a.Contents()), old(b.Contents()))
    ensures changed <==> a.Contents() != old(a.Contents())
  {
    hide IntoAt, ReadAt, a.Linked, a.Valid, Operand, ContentsOf, Blended, Merge, Normal, Remaining, a.Owned, Nodes, Conserved, Computes;
    ghost var A, B := a.Contents(), b.Contents();
    ghost var R := Merge(AndCompl, A, B);
    IntoStart(AndCompl, a, B);
    if a == b {
      MergeComputes(AndCompl, A, A);
      MergeSelf(AndCompl, A);
      EmptyIffNone(a);
      if a.first == null {
        ConservedStart(a);
        return false;
      } else {
        ClearValid(a);
        return true;
      }
    }
    ReadStart(b, a);
    MergeComputes(AndCompl, A, B);
    MergeNormal(AndCompl, A, B);
    ConservedStart(a);
    ghost var i, j, p := 0, 0, 0;
    var a_elt, b_elt, a_prev: Element? := a.first, b.first, null;
    changed := false;
    while a_elt != null && b_elt != null
      invariant 0 <= i <= |A| && 0 <= j <= |B| && 0 <= p && Conserved(a)
      invariant IntoAt(a, p, a_prev, a_elt) && ReadAt(b, a, B, j, b_elt)
      invariant Blended(R, a.Contents(), p, A, i, Remaining(AndCompl, A, i, B, j), changed)
      decreases |A| - i + |B| - j
    {
      ghost var own := ConservedParts(a);
      label L:
      changed, a_elt, a_prev, b_elt, p, i, j := IntoStep(AndCompl, a, b, a_elt, a_prev, b_elt, changed, p, A, i, B, j, R);
      ghost var now := ConservedParts@L(a);
      ConservedStep(a, own, now);
    }
    IntoParts(a, p, a_prev, a_elt);
    ReadParts(b, a, B, j, b_elt);
    BlendedParts(R, a.Contents(), p, A, i, Remaining(AndCompl, A, i, B, j), changed);
    RestIsLeft(AndCompl, R, a.Contents(), p, A, i, B, j, changed);
    ValidAgain(a, p, a_prev, a_elt);
  }

  /** `a |= b`: exactly the union, and whether `a` changes. */
  method BitmapIorInto(a: Bitmap, b: Bitmap) returns (changed: bool)
    requires a.Valid() && (b == a || Operand(b, a))
    modifies a, a.obstack, a.Owned()
    ensures a.Valid() && a.Contents() == Merge(Ior, old(a.Contents()), old(b.Contents())) && Conserved(a)
    ensures Computes(Ior, a.Contents(), old(a.Contents()), old(b.Contents()))
    ensures changed <==> a.Contents() != old(a.Contents())
  {
    hide IntoAt, ReadAt, a.Linked, a.Valid, Operand, ContentsOf, Blended, Merge, Normal, Remaining, a.Owned, Nodes, Conserved, Computes;
    ghost var A, B := a.Contents(), b.Contents();
    ghost var R := Merge(Ior, A, B);
    IntoStart(Ior, a, B);
    MergeSelf(Ior, A);
    if a == b {
      MergeComputes(Ior, A, A);
      ConservedStart(a);
      return false;
    }
    ReadStart(b, a);
    MergeComputes(Ior, A, B);
    MergeNormal(Ior, A, B);
    ConservedStart(a);
    ghost var i, j, p := 0, 0, 0;
    var a_elt, b_elt, a_prev: Element? := a.first, b.first, null;
    changed := false;
    while b_elt != null
      invariant 0 <= i <= |A| && 0 <= j <= |B| && 0 <= p && Conserved(a)
      invariant IntoAt(a, p, a_prev, a_elt) && ReadAt(b, a, B, j, b_elt)
      invariant Blended(R, a.Contents(), p, A, i, Remaining(Ior, A, i, B, j), changed)
      decreases |A| - i + |B| - j
    {
      ghost var own := ConservedParts(a);
      label L:
      changed, a_elt, a_prev, b_elt, p, i, j := IntoStep(Ior, a, b, a_elt, a_prev, b_elt, changed, p, A, i, B, j, R);
      ghost var now := ConservedParts@L(a);
      ConservedStep(a, own, now);
    }
    IntoParts(a, p, a_prev, a_elt);
    ReadParts(b, a, B, j, b_elt);
    BlendedParts(R, a.Contents(), p, A, i, Remaining(Ior, A, i, B, j), changed);
    RestIsLeft(Ior, R, a.Contents(), p, A, i, B, j, changed);
    ValidAgain(a, p, a_prev, a_elt);
  }

  /** `a ^= b`. */
  method BitmapXorInto(a: Bitmap, b: Bitmap)
    requires a.Valid() && (b == a || Operand(b, a))
    modifies a, a.obstack, a.Owned()
    ensures a.Valid() && a.Contents() == Merge(Xor, old(a.Contents()), old(b.Contents())) && Conserved(a)
    ensures Computes(Xor, a.Contents(), old(a.Contents()), old(b.Contents()))
  {
    hide IntoAt, ReadAt, a.Linked, a.Valid, Operand, ContentsOf, Blended, Merge, Normal, Remaining, a.Owned, Nodes, Conserved, Computes;
    ghost var A, B := a.Contents(), b.Contents();
    ghost var R := Merge(Xor, A, B);
    IntoStart(Xor, a, B);
    MergeSelf(Xor, A);
    if a == b {
      MergeComputes(Xor, A, A);
      ClearValid(a);
      return;
    }
    ReadStart(b, a);
    MergeComputes(Xor, A, B);
    MergeNormal(Xor, A, B);
    ConservedStart(a);
    ghost var i, j, p := 0, 0, 0;
    var a_elt, b_elt, a_prev: Element? := a.first, b.first, null;
    var touched := false;
    while b_elt != null
      invariant 0 <= i <= |A| && 0 <= j <= |B| && 0 <= p && Conserved(a)
      invariant IntoAt(a, p, a_prev, a_elt) && ReadAt(b, a, B, j, b_elt)
      invariant Blended(R, a.Contents(), p, A, i, Remaining(Xor, A, i, B, j), touched)
      decreases |A| - i + |B| - j
    {
      ghost var own := ConservedParts(a);
      label L:
      touched, a_elt, a_prev, b_elt, p, i, j := IntoStep(Xor, a, b, a_elt, a_prev, b_elt, touched, p, A, i, B, j, R);
      ghost var now := ConservedParts@L(a);
      ConservedStep(a, own, now);
    }
    IntoParts(a, p, a_prev, a_elt);
    ReadParts(b, a, B, j, b_elt);
    BlendedParts(R, a.Contents(), p, A, i, Remaining(Xor, A, i, B, j), touched);
    RestIsLeft(Xor, R, a.Contents(), p, A, i, B, j, touched);
    ValidAgain(a, p, a_prev, a_elt);
  }

  /** `a = ~a & b`. */
  method BitmapComplAndInto(a: Bitmap, b: Bitmap)
    requires a.Valid() && Operand(b, a)
    modifies a, a.obstack, a.Owned()
    ensures a.Valid() && a.Contents() == Merge(ComplAnd, old(a.Contents()), old(b.Contents())) && Conserved(a)
    ensures Computes(ComplAnd, a.Contents(), old(a.Contents()), old(b.Contents()))
  {
    hide IntoAt, ReadAt, a.Linked, a.Valid, Operand, ContentsOf, Blended, Merge, Normal, Remaining, a.Owned, Nodes, Conserved, Computes;
    ghost var A, B := a.Contents(), b.Contents();
    ghost var R := Merge(ComplAnd, A, B);
    IntoStart(ComplAnd, a, B);
    MergeSelf(ComplAnd, A);
    EmptyIffNone(a);
    OperandComparable(b, a);
    MergeEnds(ComplAnd, A);
    MergeEnds(ComplAnd, B);
    MergeComputes(ComplAnd, A, B);
    if a.first == null {
      BitmapCopy(a, b);
      return;
    }
    if b.first == null {
      ClearValid(a);
      return;
    }
    ReadStart(b, a);
    MergeComputes(ComplAnd, A, B);
    MergeNormal(ComplAnd, A, B);
    ConservedStart(a);
    ghost var i, j, p := 0, 0, 0;
    var a_elt, b_elt, a_prev: Element? := a.first, b.first, null;
    var touched := false;
    while a_elt != null || b_elt != null
      invariant 0 <= i <= |A| && 0 <= j <= |B| && 0 <= p && Conserved(a)
      invariant IntoAt(a, p, a_prev, a_elt) && ReadAt(b, a, B, j, b_elt)
      invariant Blended(R, a.Contents(), p, A, i, Remaining(ComplAnd, A, i, B, j), touched)
      decreases |A| - i + |B| - j
    {
      ghost var own := ConservedParts(a);
      label L:
      touched, a_elt, a_prev, b_elt, p, i, j := IntoStep(ComplAnd, a, b, a_elt, a_prev, b_elt, touched, p, A, i, B, j, R);
      ghost var now := ConservedParts@L(a);
      ConservedStep(a, own, now);
    }
    IntoParts(a, p, a_prev, a_elt);
    ReadParts(b, a, B, j, b_elt);
    BlendedParts(R, a.Contents(), p, A, i, Remaining(ComplAnd, A, i, B, j), touched);
    RestIsLeft(ComplAnd, R, a.Contents(), p, A, i, B, j, touched);
    ValidAgain(a, p, a_prev, a_elt);
  }

  /** `a &= b`. */
  method BitmapAndInto(a: Bitmap, b: Bitmap)
    requires a.Valid() && (b == a || Operand(b, a))
    modifies a, a.obstack, a.Owned()
    ensures a.Valid() && a.Contents() == Merge(And, old(a.Contents()), old(b.Contents())) && Conserved(a)
    ensures Computes(And, a.Contents(), old(a.Contents()), old(b.Contents()))
  {
    hide IntoAt, ReadAt, a.Linked, a.Valid, Operand, ContentsOf, Blended, Merge, Normal, Remaining, a.Owned, Nodes, Conserved, Computes;
    ghost var A, B := a.Contents(), b.Contents();
    ghost var R := Merge(And, A, B);
    IntoStart(And, a, B);
    MergeSelf(And, A);
    if a == b {
      MergeComputes(And, A, A);
      ConservedStart(a);
      return;
    }
    ReadStart(b, a);
    MergeComputes(And, A, B);
    MergeNormal(And, A, B);
    ConservedStart(a);
    ghost var i, j, p := 0, 0, 0;
    var a_elt, b_elt, a_prev: Element? := a.first, b.first, null;
    var touched := false;
    while a_elt != null && b_elt != null
      invariant 0 <= i <= |A| && 0 <= j <= |B| && 0 <= p && Conserved(a)
      invariant IntoAt(a, p, a_prev, a_elt) && ReadAt(b, a, B, j, b_elt)
      invariant Blended(R, a.Contents(), p, A, i, Remaining(And, A, i, B, j), touched)
      decreases |A| - i + |B| - j
    {
      ghost var own := ConservedParts(a);
      label L:
      touched, a_elt, a_prev, b_elt, p, i, j := IntoStep(And, a, b, a_elt, a_prev, b_elt, touched, p, A, i, B, j, R);
      ghost var now := ConservedParts@L(a);
      ConservedStep(a, own, now);
    }
    IntoParts(a, p, a_prev, a_elt);
    ReadParts(b, a, B, j, b_elt);
    BlendedParts(R, a.Contents(), p, A, i, Remaining(And, A, i, B, j), touched);
    ghost var own := ConservedParts(a);
    EitherEnds(A, i, B, j);
    CutSorted(a, a_elt, a_prev, p, A, i, R, touched);
    ConservedStep(a, own, a.Owned());
  }

  /** Removes the rest of a sorted list; the cursor moves only if it was there. */
  method CutSorted(a: Bitmap, elt: Element?, ghost prev: Element?, ghost p: nat, ghost A: seq<Entry>, ghost i: nat,
                   ghost result: seq<Entry>, ghost changed: bool)
    requires IntoAt(a, p, prev, elt) && Blended(result, a.Contents(), p, A, i, [], changed) && Normal(result)
    modifies a, a.obstack, a.Owned()
    ensures a.Valid() && a.Contents() == result && a.Owned() == old(a.Owned())
  {
    hide a.Linked, ContentsOf, Ordered, NonZero;
    ghost var l, cur := a.elts, a.Contents();
    LinkedDistinct(a);
    BlendedParts(result, cur, p, A, i, [], changed);
    if elt != null {
      RestSorted(result, cur, p, A, i, changed);
      ghost var c :| 0 <= c < |l| && l[c] == a.current;
      EntryAt(l, c);
      if p > 0 {
        EntryAt(l, p - 1);
      }
      assert c < p ==> l[c] == l[..p][c];
    }
    a.ClearFrom(elt, p);
    assert a.Contents() == result;
  }

  lemma RestSorted(result: seq<Entry>, cur: seq<Entry>, p: nat, A: seq<Entry>, i: nat, changed: bool)
    requires Blended(result, cur, p, A, i, [], changed) && i < |A| && Normal(result)
    ensures p <= |cur| && Ordered(cur[..p])
    ensures forall q, r :: 0 <= q < p <= r < |cur| ==> cur[q].indx < cur[r].indx
    ensures forall q :: 0 <= q < p ==> cur[q].indx <= cur[p - 1].indx
  {
    forall q, r | 0 <= q < p <= r < |cur|
      ensures cur[q].indx < cur[r].indx
    {
      assert cur[r] == cur[p..][r - p] == A[i + (r - p)];
    }
    assert result == cur[..p];
    assert forall q :: 0 <= q < p ==> result[q] == cur[q];
  }
}
