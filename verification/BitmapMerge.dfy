/** The merges that overwrite whatever list the destination bitmap held. */
module BitmapMerge {
  import opened BitmapWords
  import opened BitmapEntries
  import opened BitmapList

  // ---- the words of one element ----

  /** The word loop of a merge; `ior` tells whether any bit is left. */
  method ApplyWords(op: Op, a: seq<Word>, b: seq<Word>) returns (r: seq<Word>, ior: Word)
    requires |a| == |b| == ELEMENT_WORDS
    ensures r == CombineWords(op, a, b) && (ior == 0 <==> r == ZERO_WORDS)
  {
    hide Combine, WordOr;
    r, ior := ZERO_WORDS, 0;
    var ix := ELEMENT_WORDS;
    while ix != 0
      invariant 0 <= ix <= |r| == ELEMENT_WORDS
      invariant forall k :: ix <= k < ELEMENT_WORDS ==> r[k] == Combine(op, a[k], b[k])
      invariant ior == 0 <==> forall k :: ix <= k < ELEMENT_WORDS ==> r[k] == 0
    {
      ix := ix - 1;
      r := r[ix := Combine(op, a[ix], b[ix])];
      OrZero(ior, r[ix]);
      ior := WordOr(ior, r[ix]);
    }
  }

  lemma OrZero(a: Word, b: Word)
    ensures WordOr(a, b) == 0 <==> a == 0 && b == 0
  {
  }

  /** Writes the words that differ. */
  method UpdateWords(cur: seq<Word>, src: seq<Word>, changed0: bool) returns (r: seq<Word>, changed: bool)
    requires |cur| == |src| == ELEMENT_WORDS
    ensures r == src && changed == (changed0 || cur != src)
  {
    r, changed := cur, changed0;
    var ix := ELEMENT_WORDS;
    while ix != 0
      invariant 0 <= ix <= |r| == ELEMENT_WORDS
      invariant forall k :: 0 <= k < ELEMENT_WORDS ==> r[k] == if k < ix then cur[k] else src[k]
      invariant changed == (changed0 || cur[ix..] != src[ix..])
    {
      ix := ix - 1;
      assert cur[ix..] == [cur[ix]] + cur[ix + 1..] && src[ix..] == [src[ix]] + src[ix + 1..];
      if src[ix] != r[ix] {
        r := r[ix := src[ix]];
        changed := true;
      }
    }
  }

  // ---- conservation of elements ----

  /** Nothing that the bitmap or its free list held is lost, and what they gained is newly allocated. */
  twostate predicate Conserved(dst: Bitmap)
    reads dst`elts, dst.obstack`free
  {
    old(dst.Owned()) <= dst.Owned() && forall e :: e in dst.Owned() ==> e in old(dst.Owned()) || fresh(e)
  }

  twostate lemma ConservedStart(dst: Bitmap)
    requires dst.Owned() == old(dst.Owned())
    ensures Conserved(dst)
  {
  }

  twostate lemma ConservedStep(dst: Bitmap, new before: set<Element>, new now: set<Element>)
    requires old(dst.Owned()) <= before <= now
    requires now == dst.Owned()
    requires forall e :: e in before ==> e in old(dst.Owned()) || fresh(e)
    requires forall e :: e in now ==> e in before || fresh(e)
    ensures Conserved(dst)
  {
  }

  twostate lemma ConservedParts(dst: Bitmap) returns (now: set<Element>)
    requires Conserved(dst)
    ensures now == dst.Owned() && old(dst.Owned()) <= now
    ensures forall e :: e in now ==> e in old(dst.Owned()) || fresh(e)
  {
    now := dst.Owned();
  }

  /**
   * What an operation on `dst` guarantees is enough for every other bitmap of the obstack: its elements are still
   * neither in `dst` nor on the free list, so no later allocation can hand them out.
   */
  twostate lemma OthersKept(dst: Bitmap, other: Bitmap)
    requires old(other.Valid()) && old(Nodes(other.elts) !! dst.Owned()) && other != dst && other.obstack == dst.obstack
    requires dst.Linked() && Conserved(dst) && unchanged(other) && unchanged(old(Nodes(other.elts)))
    ensures other.Valid() && other.Contents() == old(other.Contents()) && Nodes(other.elts) !! dst.Owned()
  {
    hide Lists, ContentsOf, NextLinked, PrevLinked, Distinct, Normal;
    assert Nodes(other.elts) == old(Nodes(other.elts));
    assert other.Contents() == old(other.Contents());
    assert NextLinked(other.elts) && PrevLinked(other.elts);
  }

  // ---- writing one element of the destination ----

  function Placed(s: seq<Entry>, p: nat, e: Entry): seq<Entry>
    requires p <= |s|
  {
    if p < |s| then s[p := e] else s + [e]
  }

  /** Overwrites the element `elt`, which is `elts[p]`. */
  method Overwrite(dst: Bitmap, elt: Element, i: nat, words: seq<Word>, ghost p: nat)
    requires dst.Linked() && dst.CursorIn() && p < |dst.elts| && elt == dst.elts[p]
    modifies elt`indx, elt`bits
    ensures dst.Linked() && dst.CursorIn() && elt.indx == i
    ensures |old(dst.Contents())| == |dst.elts| && dst.Contents() == old(dst.Contents())[p := Entry(i, words)]
  {
    hide dst.Linked, ContentsOf;
    ghost var s := dst.Contents();
    ghost var nodes, free := Nodes(dst.elts), dst.obstack.free;
    LinkedDistinct(dst);
    ContentsAt(dst.elts);
    elt.indx := i;
    elt.bits := words;
    ContentsAt(dst.elts);
    assert dst.Contents() == s[p := Entry(i, words)];
  }

  lemma LinkedDistinct(dst: Bitmap)
    requires dst.Linked()
    ensures Distinct(dst.elts) && Nodes(dst.elts) !! dst.obstack.free
  {
  }

  /** Writes an element at `p`: over `elt`, or in a new element after `prev` when `elt` is null. */
  method Place(dst: Bitmap, elt: Element?, prev: Element?, i: nat, words: seq<Word>, ghost p: nat)
    requires dst.Linked() && dst.CursorIn() && p <= |dst.elts| && elt == At(dst.elts, p) && prev == At(dst.elts, p - 1)
    modifies dst, dst.obstack, dst.Owned()
    ensures dst.Linked() && dst.CursorIn() && old(dst.elts) <= dst.elts && p < |dst.elts|
    ensures |old(dst.Contents())| == |old(dst.elts)| && dst.Contents() == Placed(old(dst.Contents()), p, Entry(i, words))
    ensures |dst.Contents()| == |dst.elts|
    ensures Conserved(dst)
    ensures old(dst.current) != null ==> dst.current == old(dst.current)
  {
    hide dst.Linked, ContentsOf;
    if elt == null {
      ghost var l := dst.elts;
      var node := dst.InsertAfter(prev, i, p);
      assert l[..p] == l && l[p..] == [];
      assert dst.elts == l + [node];
      Overwrite(dst, node, i, words, p);
    } else {
      Overwrite(dst, elt, i, words, p);
    }
  }

  /** Inserts a copy of `src` after `prev`, or overwrites `elt`; tells whether anything has changed yet. */
  method EltCopy(dst: Bitmap, elt: Element?, prev: Element?, src: Element, changed0: bool, ghost p: nat) returns (changed: bool)
    requires dst.Linked() && dst.CursorIn() && p <= |dst.elts| && elt == At(dst.elts, p) && prev == At(dst.elts, p - 1)
    requires |src.bits| == ELEMENT_WORDS && (!changed0 ==> NonZero(dst.Contents()))
    modifies dst, dst.obstack, dst.Owned()
    ensures dst.Linked() && dst.CursorIn() && old(dst.elts) <= dst.elts
    ensures |old(dst.Contents())| == |old(dst.elts)|
    ensures dst.Contents() == Placed(old(dst.Contents()), p, old(Entry(src.indx, src.bits)))
    ensures |dst.Contents()| == |dst.elts|
    ensures changed == (changed0 || p >= |old(dst.elts)| || old(dst.Contents()[p]) != old(Entry(src.indx, src.bits)))
    ensures Conserved(dst)
    ensures old(dst.current) != null ==> dst.current == old(dst.current)
  {
    hide dst.Linked, ContentsOf;
    EntryAt(dst.elts, p);
    if !changed0 && elt != null && elt.indx == src.indx {
      var words;
      words, changed := UpdateWords(elt.bits, src.bits, changed0);
      Overwrite(dst, elt, elt.indx, words, p);
    } else {
      changed := true;
      Place(dst, elt, prev, src.indx, src.bits, p);
    }
  }

  lemma EntryAt(l: seq<Element>, p: nat)
    ensures |ContentsOf(l)| == |l|
    ensures p < |l| ==> ContentsOf(l)[p] == Entry(l[p].indx, l[p].bits)
  {
    ContentsAt(l);
  }

  /** An element pointer as a sequence of at most one entry. */
  ghost function View(e: Element?): seq<Entry>
    reads if e == null then {} else {e}
  {
    if e == null then [] else [Entry(e.indx, e.bits)]
  }

  /** Writes `a | b` like `EltCopy`; of two elements with different indices only the first counts. */
  method EltIor(dst: Bitmap, elt: Element?, prev: Element?, a: Element?, b: Element?, changed0: bool, ghost p: nat)
    returns (changed: bool)
    requires dst.Linked() && dst.CursorIn() && p <= |dst.elts| && elt == At(dst.elts, p) && prev == At(dst.elts, p - 1)
    requires (a != null || b != null) && NonZero(View(a)) && NonZero(View(b)) && (!changed0 ==> NonZero(dst.Contents()))
    modifies dst, dst.obstack, dst.Owned()
    ensures dst.Linked() && dst.CursorIn() && old(dst.elts) <= dst.elts
    ensures |old(dst.Contents())| == |old(dst.elts)| && |old(Piece(Ior, View(a), View(b)))| == 1
    ensures dst.Contents() == Placed(old(dst.Contents()), p, old(Piece(Ior, View(a), View(b))[0]))
    ensures |dst.Contents()| == |dst.elts|
    ensures changed == (changed0 || p >= |old(dst.elts)| || old(dst.Contents()[p]) != old(Piece(Ior, View(a), View(b))[0]))
    ensures Conserved(dst)
    ensures old(dst.current) != null ==> dst.current == old(dst.current)
  {
    hide dst.Linked, ContentsOf, CombineWords;
    EntryAt(dst.elts, p);
    if a != null && b != null && a.indx == b.indx {
      assert View(a)[0] == Entry(a.indx, a.bits) && View(b)[0] == Entry(b.indx, b.bits);
      IorNonZero(a.bits, b.bits);
      var words, ior := ApplyWords(Ior, a.bits, b.bits);
      if !changed0 && elt != null && elt.indx == a.indx {
        words, changed := UpdateWords(elt.bits, words, changed0);
        Overwrite(dst, elt, elt.indx, words, p);
      } else {
        changed := true;
        Place(dst, elt, prev, a.indx, words, p);
      }
    } else {
      var src := if b == null || (a != null && a.indx < b.indx) then a else b;
      assert View(src)[0] == Entry(src.indx, src.bits);
      changed := EltCopy(dst, elt, prev, src, changed0, p);
    }
  }

  lemma IorNonZero(v: seq<Word>, w: seq<Word>)
    requires |v| == |w| == ELEMENT_WORDS && v != ZERO_WORDS
    ensures CombineWords(Ior, v, w) != ZERO_WORDS
  {
    hide WordOr;
    OrZero(v[0], w[0]);
    OrZero(v[1], w[1]);
    assert v[0] != 0 || v[1] != 0;
    assert CombineWords(Ior, v, w)[0] == WordOr(v[0], w[0]) && CombineWords(Ior, v, w)[1] == WordOr(v[1], w[1]);
  }

  // ---- the state of a merge loop ----

  /** A list that a merge reads while it writes `dst`. */
  ghost predicate Operand(a: Bitmap, dst: Bitmap)
    reads a`first, a`elts, Nodes(a.elts), dst`elts, dst.obstack`free
  {
    a != dst && a.Readable() && Nodes(a.elts) !! dst.Owned() && Normal(a.Contents())
  }

  /**
   * The first `p` entries of the destination, followed by the merge of what is left, are the result;
   * what `changed` says about the destination so far is right.
   */
  ghost predicate Running(result: seq<Entry>, cur: seq<Entry>, p: nat, rest: seq<Entry>, was: seq<Entry>, changed: bool) {
    && p <= |cur| && result == cur[..p] + rest
    && (changed ==> result != was)
    && (!changed ==> cur == was)
  }

  /** The part of the destination that has not been overwritten is still there. */
  ghost predicate TailKept(cur: seq<Entry>, p: nat, was: seq<Entry>) {
    if p <= |was| then |cur| == |was| && cur[p..] == was[p..] else |cur| == p
  }

  /** What a merge still has to do at positions `i` and `j`. */
  ghost function Remaining(op: Op, A: seq<Entry>, i: nat, B: seq<Entry>, j: nat): seq<Entry>
    requires i <= |A| && j <= |B|
  {
    Merge(op, A[i..], B[j..])
  }

  ghost function NextPiece(op: Op, A: seq<Entry>, i: nat, B: seq<Entry>, j: nat): seq<Entry>
    requires i <= |A| && j <= |B|
  {
    Piece(op, A[i..], B[j..])
  }

  lemma RunStep(result: seq<Entry>, cur: seq<Entry>, p: nat, rest: seq<Entry>, rest': seq<Entry>, e: Entry, was: seq<Entry>, changed: bool)
    requires Running(result, cur, p, rest, was, changed) && rest == [e] + rest'
    ensures Running(result, Placed(cur, p, e), p + 1, rest', was, changed || p >= |cur| || cur[p] != e)
    ensures TailKept(cur, p, was) ==> TailKept(Placed(cur, p, e), p + 1, was)
  {
    assert result[p] == e;
    assert Placed(cur, p, e)[..p + 1] == cur[..p] + [e];
  }

  /** The heads of two lists as pointers. */
  lemma PieceView(op: Op, la: seq<Element>, i: nat, lb: seq<Element>, j: nat)
    requires i <= |la| && j <= |lb|
    ensures |ContentsOf(la)| == |la| && |ContentsOf(lb)| == |lb|
    ensures Piece(op, ContentsOf(la)[i..], ContentsOf(lb)[j..]) == Piece(op, View(At(la, i)), View(At(lb, j)))
    ensures Leads(ContentsOf(la)[i..], ContentsOf(lb)[j..]) == Leads(View(At(la, i)), View(At(lb, j)))
    ensures Leads(ContentsOf(lb)[j..], ContentsOf(la)[i..]) == Leads(View(At(lb, j)), View(At(la, i)))
  {
    hide CombineWords;
    EntryAt(la, i);
    EntryAt(lb, j);
  }

  /** A merge loop has read the first `i` elements of `a`, whose contents are `s`. */
  ghost predicate ReadAt(a: Bitmap, dst: Bitmap, s: seq<Entry>, i: nat, elt: Element?)
    reads a`first, a`elts, Nodes(a.elts), dst`elts, dst.obstack`free
  {
    Operand(a, dst) && a.Contents() == s && i <= |a.elts| == |s| && elt == At(a.elts, i)
  }

  /** A merge loop has written the first `p` elements of `dst`; `elt` is next and `prev` behind it. */
  ghost predicate WriteAt(dst: Bitmap, p: nat, prev: Element?, elt: Element?)
    reads dst, Nodes(dst.elts), dst.obstack, dst.obstack.free
  {
    && dst.Linked() && dst.CursorIn() && p <= |dst.elts| == |dst.Contents()|
    && prev == At(dst.elts, p - 1) && elt == At(dst.elts, p)
  }

  lemma ReadStart(a: Bitmap, dst: Bitmap)
    requires Operand(a, dst)
    ensures ReadAt(a, dst, a.Contents(), 0, a.first) && Normal(a.Contents())
  {
    ContentsAt(a.elts);
  }

  lemma ReadParts(a: Bitmap, dst: Bitmap, s: seq<Entry>, i: nat, elt: Element?)
    requires ReadAt(a, dst, s, i, elt)
    ensures a != dst && a.Readable() && Nodes(a.elts) !! dst.Owned() && a.Contents() == s && Normal(s)
    ensures i <= |a.elts| == |s| && elt == At(a.elts, i) && NonZero(View(elt))
    ensures elt != null ==> elt !in dst.Owned() && i < |s| && s[i] == Entry(elt.indx, elt.bits)
    ensures elt == null ==> i == |s|
  {
    EntryAt(a.elts, i);
  }

  lemma ReadJoin(a: Bitmap, dst: Bitmap, s: seq<Entry>, i: nat, elt: Element?)
    requires a != dst && a.Readable() && Nodes(a.elts) !! dst.Owned() && a.Contents() == s && Normal(s)
    requires i <= |a.elts| == |s| && elt == At(a.elts, i)
    ensures ReadAt(a, dst, s, i, elt)
  {
  }

  /** Following `next` in a list that is only read. */
  lemma ReadNext(a: Bitmap, dst: Bitmap, s: seq<Entry>, i: nat, elt: Element)
    requires ReadAt(a, dst, s, i, elt)
    ensures i < |s| && ReadAt(a, dst, s, i + 1, elt.next)
  {
  }

  lemma WriteStart(dst: Bitmap)
    requires dst.Valid()
    ensures WriteAt(dst, 0, null, dst.first) && Normal(dst.Contents())
  {
    ContentsAt(dst.elts);
  }

  /** The element at `dst_prev_pnext`: behind `prev`, or the first. */
  function After(dst: Bitmap, prev: Element?): Element?
    reads dst`first, if prev == null then {} else {prev}
  {
    if prev == null then dst.first else prev.next
  }

  /** The destination pointers move on: `prev` to the element just written, `elt` behind it. */
  lemma WriteNext(dst: Bitmap, p: nat, prev: Element?, elt: Element?)
    requires WriteAt(dst, p, prev, elt) && p < |dst.elts|
    ensures After(dst, prev) != null && WriteAt(dst, p + 1, After(dst, prev), After(dst, prev).next)
  {
  }

  lemma RunStart(op: Op, a: seq<Entry>, b: seq<Entry>, was: seq<Entry>)
    ensures Running(Merge(op, a, b), was, 0, Remaining(op, a, 0, b, 0), was, false) && TailKept(was, 0, was)
  {
    assert a[0..] == a && b[0..] == b;
  }

  /** Writes the union of the next elements of `a` and `b` at `p`. */
  method IorWrite(dst: Bitmap, a: Bitmap, b: Bitmap, elt: Element?, prev: Element?, a_elt: Element?, b_elt: Element?,
                  changed0: bool, ghost p: nat, ghost A: seq<Entry>, ghost i: nat, ghost B: seq<Entry>, ghost j: nat)
    returns (changed: bool)
    requires WriteAt(dst, p, prev, elt) && (!changed0 ==> NonZero(dst.Contents()))
    requires ReadAt(a, dst, A, i, a_elt) && ReadAt(b, dst, B, j, b_elt) && (a_elt != null || b_elt != null)
    modifies dst, dst.obstack, dst.Owned()
    ensures i <= |A| && j <= |B| && (i < |A| || j < |B|) && |NextPiece(Ior, A, i, B, j)| == 1 && p < |dst.elts|
    ensures p <= |old(dst.Contents())| && dst.Contents() == Placed(old(dst.Contents()), p, NextPiece(Ior, A, i, B, j)[0])
    ensures changed == (changed0 || p >= |old(dst.Contents())| || old(dst.Contents()[p]) != NextPiece(Ior, A, i, B, j)[0])
    ensures WriteAt(dst, p, prev, dst.elts[p]) && ReadAt(a, dst, A, i, a_elt) && ReadAt(b, dst, B, j, b_elt)
    ensures old(dst.elts) <= dst.elts
    ensures Conserved(dst)
    ensures old(dst.current) != null ==> dst.current == old(dst.current)
  {
    hide ReadAt, Operand, dst.Linked, a.Readable, ContentsOf, Normal, NonZero, Piece;
    ReadParts(a, dst, A, i, a_elt);
    ReadParts(b, dst, B, j, b_elt);
    PieceView(Ior, a.elts, i, b.elts, j);
    changed := EltIor(dst, elt, prev, a_elt, b_elt, changed0, p);
    ReadJoin(a, dst, A, i, a_elt);
    ReadJoin(b, dst, B, j, b_elt);
  }

  /** One step of the state of a merge whose next piece is a single entry, at positions `i` and `j`. */
  lemma RunMerge(op: Op, result: seq<Entry>, cur: seq<Entry>, p: nat, A: seq<Entry>, i: nat, B: seq<Entry>, j: nat,
                 was: seq<Entry>, changed: bool)
    requires i <= |A| && j <= |B| && (i < |A| || j < |B|) && |NextPiece(op, A, i, B, j)| == 1
    requires Running(result, cur, p, Remaining(op, A, i, B, j), was, changed)
    ensures p <= |cur| && MovesLeft(A, i, B, j) + MovesLeft(B, j, A, i) >= 1
    ensures
      var e := NextPiece(op, A, i, B, j)[0];
      && Running(result, Placed(cur, p, e), p + 1, RemainingNext(op, A, i, B, j), was, changed || p >= |cur| || cur[p] != e)
      && (TailKept(cur, p, was) ==> TailKept(Placed(cur, p, e), p + 1, was))
  {
    hide Merge, Piece, Running, TailKept;
    MergeAt(op, A, B, i, j);
    assert p <= |cur| by {
      RunBound(result, cur, p, Remaining(op, A, i, B, j), was, changed);
    }
    var e := NextPiece(op, A, i, B, j);
    var rest := Remaining(op, A, i + MovesLeft(A, i, B, j), B, j + MovesLeft(B, j, A, i));
    assert e == [e[0]];
    RunStep(result, cur, p, Remaining(op, A, i, B, j), rest, e[0], was, changed);
  }

  lemma RunBound(result: seq<Entry>, cur: seq<Entry>, p: nat, rest: seq<Entry>, was: seq<Entry>, changed: bool)
    requires Running(result, cur, p, rest, was, changed)
    ensures p <= |cur|
  {
  }

  ghost function RemainingNext(op: Op, A: seq<Entry>, i: nat, B: seq<Entry>, j: nat): seq<Entry>
    requires i <= |A| && j <= |B|
  {
    Remaining(op, A, i + MovesLeft(A, i, B, j), B, j + MovesLeft(B, j, A, i))
  }

  /** How far a merge moves in the first of two lists: past its next element, or not. */
  function MovesLeft(A: seq<Entry>, i: nat, B: seq<Entry>, j: nat): (m: nat)
    requires i <= |A| && j <= |B|
    ensures i + m <= |A|
  {
    if i < |A| && (j == |B| || A[i].indx <= B[j].indx) then 1 else 0
  }

  /** `a` moves on if it has the next index of the two. */
  function Moved(a: Element?, b: Element?): Element?
    reads if a == null then {} else {a}, if b == null then {} else {b}
  {
    if a != null && (b == null || a.indx <= b.indx) then a.next else a
  }

  lemma BothMove(a: Bitmap, b: Bitmap, dst: Bitmap, A: seq<Entry>, i: nat, a_elt: Element?, B: seq<Entry>, j: nat, b_elt: Element?)
    requires ReadAt(a, dst, A, i, a_elt) && ReadAt(b, dst, B, j, b_elt) && (a_elt != null || b_elt != null)
    ensures i <= |A| && j <= |B| && i < |A| + |B| - j && MovesLeft(A, i, B, j) + MovesLeft(B, j, A, i) >= 1
    ensures ReadAt(a, dst, A, i + MovesLeft(A, i, B, j), Moved(a_elt, b_elt))
    ensures ReadAt(b, dst, B, j + MovesLeft(B, j, A, i), Moved(b_elt, a_elt))
  {
    hide ReadAt, Operand, ContentsOf, a.Readable, NonZero;
    ReadParts(a, dst, A, i, a_elt);
    ReadParts(b, dst, B, j, b_elt);
    if a_elt != null {
      ReadNext(a, dst, A, i, a_elt);
    }
    if b_elt != null {
      ReadNext(b, dst, B, j, b_elt);
    }
  }

  /** The cursor stood behind the end of the result, on an element whose index the result does not exceed. */
  ghost predicate Stranded(cursor: Element?, l: seq<Element>, was: seq<Entry>, result: seq<Entry>) {
    |l| == |was| && exists c :: 0 <= c < |l| && l[c] == cursor && c >= |result| > 0 && was[c].indx <= result[|result| - 1].indx
  }

  lemma RunNonZero(result: seq<Entry>, cur: seq<Entry>, p: nat, rest: seq<Entry>, was: seq<Entry>, changed: bool)
    requires Running(result, cur, p, rest, was, changed) && Normal(was)
    ensures !changed ==> NonZero(cur)
    ensures p <= |cur|
  {
  }

  /** Cuts the destination after its first `p` elements if any are left. */
  method CutRest(dst: Bitmap, prev: Element?, elt: Element?, changed0: bool, ghost p: nat, ghost result: seq<Entry>,
                 ghost was: seq<Entry>, ghost elts0: seq<Element>, ghost cursor: Element?)
    returns (changed: bool)
    requires WriteAt(dst, p, prev, elt) && Running(result, dst.Contents(), p, [], was, changed0)
    requires TailKept(dst.Contents(), p, was) && |was| == |elts0| && Held(dst, elts0, cursor)
    requires (cursor == null <==> elts0 == []) && (cursor != null ==> cursor in elts0)
    modifies dst, dst.obstack, dst.Owned()
    ensures dst.Linked() && dst.Contents() == result && changed == (result != was)
    ensures dst.CursorOk() <==> !Stranded(cursor, elts0, was, result)
    ensures dst.Owned() == old(dst.Owned())
  {
    hide dst.Linked, ContentsOf, Stranded;
    changed := changed0;
    ghost var l := dst.elts;
    ContentsAt(l);
    LinkedDistinct(dst);
    if elt != null {
      changed := true;
      StrandedAt(cursor, elts0, was, result, l, p, dst.Contents());
      dst.ClearFrom(elt, p);
    } else {
      NotStranded(cursor, elts0, was, result);
    }
    if dst.current != null {
      dst.indx := dst.current.indx;
    }
  }

  lemma NotStranded(cursor: Element?, l: seq<Element>, was: seq<Entry>, result: seq<Entry>)
    requires |l| == |was| <= |result|
    ensures !Stranded(cursor, l, was, result)
  {
  }

  /** A cursor on the first element is never left outside. */
  lemma FirstNotStranded(l: seq<Element>, was: seq<Entry>, result: seq<Entry>)
    requires Distinct(l) && l != []
    ensures !Stranded(l[0], l, was, result)
  {
  }

  /** But with the cursor on the second of two elements, storing the union of {640} and {} there leaves it on a freed element. */
  lemma StrandedExample(e0: Element, e1: Element)
    ensures
      var was := [Entry(1, [1, 0]), Entry(2, [1, 0])];
      Stranded(e1, [e0, e1], was, Merge(Ior, [Entry(5, [1, 0])], []))
  {
    MergeEnds(Ior, [Entry(5, [1, 0])]);
    assert [e0, e1][1] == e1;
  }

  /** When a rest is cut: the cursor is left outside exactly if it is in the rest and not behind the last index kept. */
  lemma StrandedAt(cursor: Element?, elts0: seq<Element>, was: seq<Entry>, result: seq<Entry>, l: seq<Element>, p: nat, cur: seq<Entry>)
    requires p < |l| == |cur| && TailKept(cur, p, was) && |was| == |elts0| && elts0 <= l && Distinct(l) && result == cur[..p]
    requires forall k :: 0 <= k < |l| ==> cur[k] == Entry(l[k].indx, l[k].bits)
    requires cursor != null && cursor in elts0
    ensures l == elts0
    ensures Stranded(cursor, elts0, was, result) <==> p > 0 && cursor !in l[..p] && cursor.indx <= l[p - 1].indx
  {
  }

  lemma MergeEmpty(op: Op, a: seq<Entry>, b: seq<Entry>)
    ensures Remaining(op, a, |a|, b, |b|) == []
  {
    assert a[|a|..] == [] && b[|b|..] == [];
  }

  /** The destination has at most grown at its end, and its cursor has not moved. */
  ghost predicate Held(dst: Bitmap, elts: seq<Element>, cursor: Element?)
    reads dst`elts, dst`current
  {
    elts <= dst.elts && (cursor != null ==> dst.current == cursor)
  }

  lemma HeldStart(dst: Bitmap)
    ensures Held(dst, dst.elts, dst.current)
  {
  }

  lemma HeldNow(dst: Bitmap, elts: seq<Element>, cursor: Element?)
    requires Held(dst, elts, cursor)
    ensures elts <= dst.elts && (cursor != null ==> dst.current == cursor)
  {
  }

  lemma HeldStep(dst: Bitmap, elts: seq<Element>, cursor: Element?, elts1: seq<Element>, cursor1: Element?)
    requires elts <= elts1 <= dst.elts
    requires cursor != null ==> cursor1 == cursor
    requires cursor1 != null ==> dst.current == cursor1
    ensures Held(dst, elts, cursor)
  {
  }

  /** One round of `BitmapIor`'s loop, up to moving the pointers. */
  method IorStep(dst: Bitmap, a: Bitmap, b: Bitmap, elt: Element?, prev: Element?, a_elt: Element?, b_elt: Element?,
                 changed0: bool, ghost p: nat, ghost A: seq<Entry>, ghost i: nat, ghost B: seq<Entry>, ghost j: nat,
                 ghost result: seq<Entry>, ghost was: seq<Entry>, ghost elts0: seq<Element>, ghost cursor: Element?)
    returns (changed: bool)
    requires WriteAt(dst, p, prev, elt) && Held(dst, elts0, cursor) && Normal(was)
    requires ReadAt(a, dst, A, i, a_elt) && ReadAt(b, dst, B, j, b_elt) && (a_elt != null || b_elt != null)
    requires i <= |A| && j <= |B| && Running(result, dst.Contents(), p, Remaining(Ior, A, i, B, j), was, changed0)
    requires TailKept(dst.Contents(), p, was)
    modifies dst, dst.obstack, dst.Owned()
    ensures p < |dst.elts| && WriteAt(dst, p, prev, dst.elts[p]) && Conserved(dst) && Held(dst, elts0, cursor)
    ensures ReadAt(a, dst, A, i, a_elt) && ReadAt(b, dst, B, j, b_elt)
    ensures Running(result, dst.Contents(), p + 1, RemainingNext(Ior, A, i, B, j), was, changed)
    ensures TailKept(dst.Contents(), p + 1, was)
  {
    hide WriteAt, ReadAt, dst.Linked, ContentsOf, Running, TailKept, NonZero, Normal, MovesLeft, Placed, NextPiece, Remaining,
      dst.Owned, Nodes, Conserved, Held;
    ghost var cur := dst.Contents();
    RunNonZero(result, cur, p, Remaining(Ior, A, i, B, j), was, changed0);
    HeldNow(dst, elts0, cursor);
    ghost var elts1, cursor1 := dst.elts, dst.current;
    changed := IorWrite(dst, a, b, elt, prev, a_elt, b_elt, changed0, p, A, i, B, j);
    HeldStep(dst, elts0, cursor, elts1, cursor1);
    RunMerge(Ior, result, cur, p, A, i, B, j, was, changed0);
  }

  /** The loop of `BitmapIor`: writes the union over the elements of `dst`, leaving a rest to be cut. */
  method IorLoop(dst: Bitmap, a: Bitmap, b: Bitmap)
    returns (changed: bool, dst_prev: Element?, dst_elt: Element?, ghost p: nat)
    requires dst.Valid() && Operand(a, dst) && Operand(b, dst)
    modifies dst, dst.obstack, dst.Owned()
    ensures WriteAt(dst, p, dst_prev, dst_elt) && Conserved(dst) && Held(dst, old(dst.elts), old(dst.current))
    ensures Running(Merge(Ior, old(a.Contents()), old(b.Contents())), dst.Contents(), p, [], old(dst.Contents()), changed)
    ensures TailKept(dst.Contents(), p, old(dst.Contents()))
  {
    hide WriteAt, ReadAt, dst.Linked, dst.Valid, Operand, ContentsOf, Running, TailKept, Merge, Piece, NonZero, Normal, Moved,
      MovesLeft, After, Placed, NextPiece, Remaining, dst.Owned, Nodes, Conserved, Held;
    ghost var A, B, was := a.Contents(), b.Contents(), dst.Contents();
    ghost var R := Merge(Ior, A, B);
    ghost var i, j := 0, 0;
    ReadStart(a, dst);
    ReadStart(b, dst);
    WriteStart(dst);
    RunStart(Ior, A, B, was);
    ConservedStart(dst);
    HeldStart(dst);
    changed, dst_prev, dst_elt, p := false, null, dst.first, 0;
    var a_elt, b_elt := a.first, b.first;
    while a_elt != null || b_elt != null
      invariant 0 <= i <= |A| && 0 <= j <= |B|
      invariant WriteAt(dst, p, dst_prev, dst_elt) && ReadAt(a, dst, A, i, a_elt) && ReadAt(b, dst, B, j, b_elt)
      invariant Running(R, dst.Contents(), p, Remaining(Ior, A, i, B, j), was, changed) && TailKept(dst.Contents(), p, was)
      invariant Conserved(dst) && Held(dst, old(dst.elts), old(dst.current))
      decreases |A| - i + |B| - j
    {
      ghost var own := ConservedParts(dst);
      label L:
      changed := IorStep(dst, a, b, dst_elt, dst_prev, a_elt, b_elt, changed, p, A, i, B, j, R, was, old(dst.elts), old(dst.current));
      ghost var now := ConservedParts@L(dst);
      ConservedStep(dst, own, now);
      BothMove(a, b, dst, A, i, a_elt, B, j, b_elt);
      a_elt, b_elt := Moved(a_elt, b_elt), Moved(b_elt, a_elt);
      i, j := i + MovesLeft(A, i, B, j), j + MovesLeft(B, j, A, i);
      WriteNext(dst, p, dst_prev, dst.elts[p]);
      dst_prev := After(dst, dst_prev);
      dst_elt := dst_prev.next;
      p := p + 1;
    }
    ReadParts(a, dst, A, i, a_elt);
    ReadParts(b, dst, B, j, b_elt);
    MergeEmpty(Ior, A, B);
  }

  /** `dst = a | b`: exactly the union, and whether it differs from what `dst` held. */
  method BitmapIor(dst: Bitmap, a: Bitmap, b: Bitmap) returns (changed: bool)
    requires dst.Valid() && Operand(a, dst) && Operand(b, dst)
    modifies dst, dst.obstack, dst.Owned()
    ensures dst.Linked() && dst.Contents() == Merge(Ior, old(a.Contents()), old(b.Contents()))
    ensures Computes(Ior, dst.Contents(), old(a.Contents()), old(b.Contents()))
    ensures changed <==> dst.Contents() != old(dst.Contents())
    ensures dst.CursorOk() <==>
      !Stranded(old(dst.current), old(dst.elts), old(dst.Contents()), Merge(Ior, old(a.Contents()), old(b.Contents())))
    ensures Conserved(dst)
  {
    hide WriteAt, dst.Linked, dst.Valid, ContentsOf, Running, TailKept, Merge, dst.Owned, Nodes, Conserved, Held, Stranded, dst.CursorOk,
      Operand, Computes, Normal;
    ReadStart(a, dst);
    ReadStart(b, dst);
    MergeComputes(Ior, a.Contents(), b.Contents());
    ghost var was, result := dst.Contents(), Merge(Ior, a.Contents(), b.Contents());
    var dst_prev, dst_elt;
    ghost var p;
    CursorStart(dst);
    changed, dst_prev, dst_elt, p := IorLoop(dst, a, b);
    ghost var own := ConservedParts(dst);
    changed := CutRest(dst, dst_prev, dst_elt, changed, p, result, was, old(dst.elts), old(dst.current));
    ConservedStep(dst, own, dst.Owned());
  }

  lemma CursorStart(dst: Bitmap)
    requires dst.Valid()
    ensures (dst.current == null <==> dst.elts == []) && |dst.Contents()| == |dst.elts|
    ensures dst.current != null ==> dst.current in dst.elts
  {
    ContentsAt(dst.elts);
  }

  // ---- dst = a & b, dst = a ^ b ----

  /** The first `p` entries of the destination, followed by what is left to do, are the result. */
  ghost predicate Built(result: seq<Entry>, cur: seq<Entry>, p: nat, rest: seq<Entry>) {
    p <= |cur| && result == cur[..p] + rest
  }

  lemma BuiltStart(op: Op, a: seq<Entry>, b: seq<Entry>, was: seq<Entry>)
    ensures Built(Merge(op, a, b), was, 0, Remaining(op, a, 0, b, 0))
  {
    assert a[0..] == a && b[0..] == b;
  }

  /** Writing at `p` what the merge produces next; only a nonempty piece is kept. */
  lemma BuiltStep(op: Op, result: seq<Entry>, cur: seq<Entry>, p: nat, A: seq<Entry>, i: nat, B: seq<Entry>, j: nat, e: Entry)
    requires i <= |A| && j <= |B| && (i < |A| || j < |B|)
    requires Built(result, cur, p, Remaining(op, A, i, B, j))
    ensures p <= |cur|
    ensures NextPiece(op, A, i, B, j) == [] ==>
      Built(result, cur, p, RemainingNext(op, A, i, B, j)) && Built(result, Placed(cur, p, e), p, RemainingNext(op, A, i, B, j))
    ensures NextPiece(op, A, i, B, j) == [e] ==> Built(result, Placed(cur, p, e), p + 1, RemainingNext(op, A, i, B, j))
  {
    hide Merge, Piece;
    MergeAt(op, A, B, i, j);
    assert Placed(cur, p, e)[..p] == cur[..p] && Placed(cur, p, e)[..p + 1] == cur[..p] + [e];
  }

  /** The element that comes next in the merge: whether anything is written, and whether that is kept. */
  method NextElement(op: Op, a_elt: Element?, b_elt: Element?) returns (write: bool, keep: bool, indx: nat, words: seq<Word>)
    requires (a_elt != null || b_elt != null) && NonZero(View(a_elt)) && NonZero(View(b_elt))
    ensures Piece(op, View(a_elt), View(b_elt)) == if keep then [Entry(indx, words)] else []
    ensures keep ==> write
  {
    hide CombineWords;
    write, keep, indx, words := false, false, 0, ZERO_WORDS;
    if a_elt != null && b_elt != null && a_elt.indx == b_elt.indx {
      assert View(a_elt)[0] == Entry(a_elt.indx, a_elt.bits) && View(b_elt)[0] == Entry(b_elt.indx, b_elt.bits);
      var ior;
      words, ior := ApplyWords(op, a_elt.bits, b_elt.bits);
      write, keep, indx := true, ior != 0, a_elt.indx;
    } else if b_elt == null || (a_elt != null && a_elt.indx < b_elt.indx) {
      if KeepsLeft(op) {
        write, keep, indx, words := true, true, a_elt.indx, a_elt.bits;
      }
    } else if KeepsRight(op) {
      write, keep, indx, words := true, true, b_elt.indx, b_elt.bits;
    }
  }

  /** One round of the loops of `BitmapAnd` and `BitmapXor`, up to moving the operand pointers. */
  method MergeWrite(op: Op, dst: Bitmap, a: Bitmap, b: Bitmap, elt: Element?, prev: Element?, a_elt: Element?, b_elt: Element?,
                    ghost p: nat, ghost A: seq<Entry>, ghost i: nat, ghost B: seq<Entry>, ghost j: nat, ghost result: seq<Entry>)
    returns (elt': Element?, prev': Element?, ghost p': nat)
    requires WriteAt(dst, p, prev, elt) && ReadAt(a, dst, A, i, a_elt) && ReadAt(b, dst, B, j, b_elt)
    requires (a_elt != null || b_elt != null) && i <= |A| && j <= |B|
    requires Built(result, dst.Contents(), p, Remaining(op, A, i, B, j))
    modifies dst, dst.obstack, dst.Owned()
    ensures WriteAt(dst, p', prev', elt') && Conserved(dst)
    ensures ReadAt(a, dst, A, i, a_elt) && ReadAt(b, dst, B, j, b_elt)
    ensures Built(result, dst.Contents(), p', RemainingNext(op, A, i, B, j))
  {
    hide ReadAt, Operand, dst.Linked, a.Readable, ContentsOf, Normal, NonZero, Piece, Built, Placed, Remaining, RemainingNext;
    elt', prev', p' := elt, prev, p;
    ReadParts(a, dst, A, i, a_elt);
    ReadParts(b, dst, B, j, b_elt);
    PieceView(op, a.elts, i, b.elts, j);
    var write, keep, indx, words := NextElement(op, a_elt, b_elt);
    BuiltStep(op, result, dst.Contents(), p, A, i, B, j, Entry(indx, words));
    if write {
      Place(dst, elt, prev, indx, words, p);
      elt' := After(dst, prev);
      WriteNext(dst, p, prev, dst.elts[p]);
      if keep {
        prev' := elt';
        elt' := elt'.next;
        p' := p + 1;
      }
    }
    ReadJoin(a, dst, A, i, a_elt);
    ReadJoin(b, dst, B, j, b_elt);
  }

  lemma SortedEnds(s: seq<Entry>, p: nat)
    requires Ordered(s) && 0 < p <= |s|
    ensures s[0].indx <= s[p - 1].indx
  {
  }

  /** Puts the cursor back to the start and cuts the destination after its first `p` elements. */
  method FinishMerge(dst: Bitmap, elt: Element?, ghost prev: Element?, ghost p: nat, ghost result: seq<Entry>)
    requires WriteAt(dst, p, prev, elt) && Built(result, dst.Contents(), p, []) && Normal(result)
    modifies dst, dst.obstack, dst.Owned()
    ensures dst.Valid() && dst.Contents() == result && dst.Owned() == old(dst.Owned())
  {
    hide dst.Linked, ContentsOf, Ordered, NonZero;
    ghost var l := dst.elts;
    LinkedFirst(dst);
    if p > 0 {
      EntryAt(l, 0);
      EntryAt(l, p - 1);
      SortedEnds(result, p);
    }
    dst.current := dst.first;
    ghost var s := dst.Contents();
    dst.ClearFrom(elt, p);
    assert dst.Contents() == result;
    if dst.current != null {
      dst.indx := dst.current.indx;
    }
  }

  lemma LinkedFirst(dst: Bitmap)
    requires dst.Linked()
    ensures dst.first == At(dst.elts, 0)
  {
  }

  /** One round of `BitmapCopy`'s loop. */
  method CopyOne(to: Bitmap, from: Bitmap, from_ptr: Element, to_ptr: Element?, ghost s: seq<Entry>, ghost i: nat)
    returns (to_elt: Element)
    requires to.Linked() && to.CursorOk() && ReadAt(from, to, s, i, from_ptr) && i < |s|
    requires to_ptr == At(to.elts, |to.elts| - 1)
    modifies to, to.obstack, to.Owned()
    ensures to.Linked() && to.CursorOk() && to.Contents() == old(to.Contents()) + [s[i]] && Conserved(to)
    ensures ReadAt(from, to, s, i + 1, from_ptr.next) && to.elts == old(to.elts) + [to_elt]
  {
    hide ReadAt, Operand, to.Linked, from.Readable, ContentsOf, Normal, NonZero;
    ReadParts(from, to, s, i, from_ptr);
    LinkedDistinct(to);
    to_elt := to.Allocate(from_ptr.indx);
    to_elt.bits := from_ptr.bits;
    to.Append(to_elt, to_ptr);
    ReadJoin(from, to, s, i, from_ptr);
    ReadNext(from, to, s, i, from_ptr);
  }

  /** `to` becomes a copy of `from`. */
  method BitmapCopy(to: Bitmap, from: Bitmap)
    requires to.Valid() && Operand(from, to)
    modifies to, to.obstack, to.Owned()
    ensures to.Valid() && to.Contents() == old(from.Contents()) && Conserved(to)
  {
    hide ReadAt, Operand, to.Linked, ContentsOf, Normal, Conserved, Nodes, to.Owned, to.CursorOk;
    ghost var s := from.Contents();
    ReadStart(from, to);
    var from_ptr: Element?, to_ptr: Element? := from.first, null;
    ghost var i := 0;
    ReadParts(from, to, s, 0, from_ptr);
    ClearAll(to, from, s);
    while from_ptr != null
      invariant 0 <= i <= |s| && to.Linked() && to.CursorOk() && to.Contents() == s[..i] && Conserved(to)
      invariant ReadAt(from, to, s, i, from_ptr) && to_ptr == At(to.elts, |to.elts| - 1)
      decreases |s| - i
    {
      ReadParts(from, to, s, i, from_ptr);
      ghost var own := ConservedParts(to);
      label L:
      to_ptr := CopyOne(to, from, from_ptr, to_ptr, s, i);
      ghost var now := ConservedParts@L(to);
      ConservedStep(to, own, now);
      from_ptr := from_ptr.next;
      i := i + 1;
    }
    ReadParts(from, to, s, i, from_ptr);
    assert s[..i] == s;
  }

  /** Clears the destination before it is written. */
  method ClearAll(to: Bitmap, from: Bitmap, ghost s: seq<Entry>)
    requires to.Valid() && ReadAt(from, to, s, 0, from.first)
    modifies to, to.obstack, to.Owned()
    ensures to.Linked() && to.CursorOk() && to.Contents() == [] && to.elts == [] && Conserved(to)
    ensures ReadAt(from, to, s, 0, from.first)
  {
    hide ReadAt, Operand, to.Linked, from.Readable, ContentsOf, Normal, NonZero;
    ReadParts(from, to, s, 0, from.first);
    to.Clear();
    ReadJoin(from, to, s, 0, from.first);
  }

  /** `dst = a & b`. */
  method BitmapAnd(dst: Bitmap, a: Bitmap, b: Bitmap)
    requires dst.Valid() && Operand(a, dst) && Operand(b, dst)
    modifies dst, dst.obstack, dst.Owned()
    ensures dst.Valid() && dst.Contents() == Merge(And, old(a.Contents()), old(b.Contents()))
    ensures Computes(And, dst.Contents(), old(a.Contents()), old(b.Contents())) && Conserved(dst)
  {
    hide WriteAt, ReadAt, dst.Linked, dst.Valid, Operand, ContentsOf, Built, Merge, Normal, Moved, MovesLeft, Remaining,
      dst.Owned, Nodes, Conserved, Computes;
    ghost var A, B := a.Contents(), b.Contents();
    ghost var R := Merge(And, A, B);
    ReadStart(a, dst);
    ReadStart(b, dst);
    MergeComputes(And, A, B);
    MergeNormal(And, A, B);
    if a == b {
      MergeSelf(And, A);
      BitmapCopy(dst, a);
      return;
    }
    ghost var i, j, p := 0, 0, 0;
    WriteStart(dst);
    BuiltStart(And, A, B, dst.Contents());
    ConservedStart(dst);
    var dst_elt, dst_prev := dst.first, null;
    var a_elt, b_elt := a.first, b.first;
    while a_elt != null && b_elt != null
      invariant 0 <= i <= |A| && 0 <= j <= |B| && 0 <= p
      invariant WriteAt(dst, p, dst_prev, dst_elt) && ReadAt(a, dst, A, i, a_elt) && ReadAt(b, dst, B, j, b_elt)
      invariant Built(R, dst.Contents(), p, Remaining(And, A, i, B, j)) && Conserved(dst)
      decreases |A| - i + |B| - j
    {
      ghost var own := ConservedParts(dst);
      label L:
      dst_elt, dst_prev, p := MergeWrite(And, dst, a, b, dst_elt, dst_prev, a_elt, b_elt, p, A, i, B, j, R);
      ghost var now := ConservedParts@L(dst);
      ConservedStep(dst, own, now);
      BothMove(a, b, dst, A, i, a_elt, B, j, b_elt);
      a_elt, b_elt := Moved(a_elt, b_elt), Moved(b_elt, a_elt);
      i, j := i + MovesLeft(A, i, B, j), j + MovesLeft(B, j, A, i);
    }
    ReadParts(a, dst, A, i, a_elt);
    ReadParts(b, dst, B, j, b_elt);
    EitherEnds(A, i, B, j);
    ghost var own := ConservedParts(dst);
    FinishMerge(dst, dst_elt, dst_prev, p, R);
    ConservedStep(dst, own, dst.Owned());
  }

  lemma EitherEnds(a: seq<Entry>, i: nat, b: seq<Entry>, j: nat)
    requires i <= |a| && j <= |b| && (i == |a| || j == |b|)
    ensures Remaining(And, a, i, b, j) == []
  {
    hide Merge;
    MergeEnds(And, a[i..]);
    MergeEnds(And, b[j..]);
    assert i == |a| ==> a[i..] == [];
    assert j == |b| ==> b[j..] == [];
  }

  /** `dst = a ^ b`. */
  method BitmapXor(dst: Bitmap, a: Bitmap, b: Bitmap)
    requires dst.Valid() && Operand(a, dst) && Operand(b, dst)
    modifies dst, dst.obstack, dst.Owned()
    ensures dst.Valid() && dst.Contents() == Merge(Xor, old(a.Contents()), old(b.Contents()))
    ensures Computes(Xor, dst.Contents(), old(a.Contents()), old(b.Contents())) && Conserved(dst)
  {
    hide WriteAt, ReadAt, dst.Linked, dst.Valid, Operand, ContentsOf, Built, Merge, Normal, Moved, MovesLeft, Remaining,
      dst.Owned, Nodes, Conserved, Computes;
    ghost var A, B := a.Contents(), b.Contents();
    ghost var R := Merge(Xor, A, B);
    ReadStart(a, dst);
    ReadStart(b, dst);
    MergeComputes(Xor, A, B);
    MergeNormal(Xor, A, B);
    if a == b {
      MergeSelf(Xor, A);
      ClearValid(dst);
      return;
    }
    ghost var i, j, p := 0, 0, 0;
    WriteStart(dst);
    BuiltStart(Xor, A, B, dst.Contents());
    ConservedStart(dst);
    var dst_elt, dst_prev := dst.first, null;
    var a_elt, b_elt := a.first, b.first;
    while a_elt != null || b_elt != null
      invariant 0 <= i <= |A| && 0 <= j <= |B| && 0 <= p
      invariant WriteAt(dst, p, dst_prev, dst_elt) && ReadAt(a, dst, A, i, a_elt) && ReadAt(b, dst, B, j, b_elt)
      invariant Built(R, dst.Contents(), p, Remaining(Xor, A, i, B, j)) && Conserved(dst)
      decreases |A| - i + |B| - j
    {
      ghost var own := ConservedParts(dst);
      label L:
      dst_elt, dst_prev, p := MergeWrite(Xor, dst, a, b, dst_elt, dst_prev, a_elt, b_elt, p, A, i, B, j, R);
      ghost var now := ConservedParts@L(dst);
      ConservedStep(dst, own, now);
      BothMove(a, b, dst, A, i, a_elt, B, j, b_elt);
      a_elt, b_elt := Moved(a_elt, b_elt), Moved(b_elt, a_elt);
      i, j := i + MovesLeft(A, i, B, j), j + MovesLeft(B, j, A, i);
    }
    ReadParts(a, dst, A, i, a_elt);
    ReadParts(b, dst, B, j, b_elt);
    MergeEmpty(Xor, A, B);
    ghost var own := ConservedParts(dst);
    FinishMerge(dst, dst_elt, dst_prev, p, R);
    ConservedStep(dst, own, dst.Owned());
  }

  /** Clearing a bitmap. */
  method ClearValid(dst: Bitmap)
    requires dst.Valid()
    modifies dst, dst.obstack, dst.Owned()
    ensures dst.Valid() && dst.Contents() == [] && Conserved(dst)
  {
    hide dst.Linked, ContentsOf;
    dst.Clear();
  }

  // ---- comparison ----

  /** Both bitmaps as lists whose elements have their two words. */
  ghost predicate Comparable(a: Bitmap)
    reads a`first, a`elts, Nodes(a.elts)
  {
    a.Readable() && NonZero(a.Contents())
  }

  lemma ComparableAt(a: Bitmap, i: nat)
    requires Comparable(a)
    ensures |a.Contents()| == |a.elts| && a.first == At(a.elts, 0)
    ensures i < |a.elts| ==> a.elts[i].next == At(a.elts, i + 1) && a.Contents()[i] == Entry(a.elts[i].indx, a.elts[i].bits)
    ensures i < |a.elts| ==> |a.elts[i].bits| == ELEMENT_WORDS
  {
    EntryAt(a.elts, i);
  }

  /** Whether two bitmaps have the same contents. */
  method BitmapEqualP(a: Bitmap, b: Bitmap) returns (equal: bool)
    requires Comparable(a) && Comparable(b)
    ensures equal <==> a.Contents() == b.Contents()
  {
    hide Comparable, ContentsOf;
    ghost var i := 0;
    var a_elt, b_elt := a.first, b.first;
    ComparableAt(a, 0);
    ComparableAt(b, 0);
    while a_elt != null && b_elt != null
      invariant 0 <= i <= |a.elts| == |a.Contents()| && i <= |b.elts| == |b.Contents()|
      invariant a_elt == At(a.elts, i) && b_elt == At(b.elts, i)
      invariant Comparable(a) && Comparable(b) && a.Contents()[..i] == b.Contents()[..i]
      decreases |a.elts| - i
    {
      ComparableAt(a, i);
      ComparableAt(b, i);
      if a_elt.indx != b_elt.indx {
        return false;
      }
      var ix := ELEMENT_WORDS;
      while ix != 0
        invariant 0 <= ix <= ELEMENT_WORDS == |a_elt.bits| == |b_elt.bits|
        invariant forall k :: ix <= k < ELEMENT_WORDS ==> a_elt.bits[k] == b_elt.bits[k]
      {
        ix := ix - 1;
        if a_elt.bits[ix] != b_elt.bits[ix] {
          return false;
        }
      }
      assert a_elt.bits == b_elt.bits;
      a_elt, b_elt := a_elt.next, b_elt.next;
      i := i + 1;
    }
    equal := a_elt == null && b_elt == null;
    assert a.Contents()[..|a.Contents()|] == a.Contents() && b.Contents()[..|b.Contents()|] == b.Contents();
  }
}
