/** Setting and clearing ranges of bits. */
module BitmapRange {
  import opened BitmapWords
  import opened BitmapEntries
  import opened BitmapList
  import opened BitmapMerge
  import opened BitmapDifference
  import opened BitmapInto
  import opened BitmapBits

  // ---- masks ----

  /** The first and last word of an element that a range touches, and the bits of the range in them. */
  datatype Masks = Masks(firstWord: nat, firstMask: Word, lastWord: nat, lastMask: Word)

  predicate MasksOk(k: Masks) {
    k.firstWord <= k.lastWord < ELEMENT_WORDS
  }

  /** The bits of the range in word `w` of the element. */
  function MaskOf(k: Masks, w: nat): Word {
    if w == k.firstWord && w == k.lastWord then WordAnd(k.firstMask, k.lastMask)
    else if w == k.firstWord then k.firstMask
    else if w == k.lastWord then k.lastMask
    else 0
  }

  /** `~0`. */
  function AllOnes(): Word {
    WordNot(0)
  }

  lemma AllOnesBit(j: nat)
    requires j < WORD_BITS
    ensures Bit(AllOnes(), j)
  {
    hide Bit, WordNot;
    NotBit(0, j);
    ZeroHasNone(j);
  }

  /** The masks for element `i` and the range from `start` up to `end`. */
  function RangeMasks(i: nat, start: nat, end: nat): (k: Masks)
    requires start < end && i * ALL_BITS < end && start < (i + 1) * ALL_BITS
    ensures MasksOk(k)
  {
    var eltStart, eltEnd := i * ALL_BITS, i * ALL_BITS + ALL_BITS;
    var firstWord := if eltStart <= start then (start - eltStart) / WORD_BITS else 0;
    var firstMask := if eltStart <= start then WordNot(Mask(start % WORD_BITS)) else AllOnes();
    var lastWord := if eltEnd <= end then ELEMENT_WORDS - 1 else (end - eltStart) / WORD_BITS;
    var lastMask := if eltEnd <= end then AllOnes() else Mask(end % WORD_BITS);
    Masks(firstWord, firstMask, lastWord, lastMask)
  }

  lemma Aligned(i: nat, n: nat)
    requires i * ALL_BITS <= n < (i + 1) * ALL_BITS
    ensures n - i * ALL_BITS == (n - i * ALL_BITS) / WORD_BITS * WORD_BITS + n % WORD_BITS && n % WORD_BITS < WORD_BITS
    ensures n / ALL_BITS == i && n % ALL_BITS == n - i * ALL_BITS
  {
    var d := n - i * ALL_BITS;
    assert n == 64 * (2 * i + d / 64) + d % 64;
    Quotient(64, 2 * i + d / 64, d % 64, n);
    Quotient(128, i, d, n);
  }

  lemma FirstMaskBit(i: nat, start: nat, end: nat, b: nat)
    requires start < end && i * ALL_BITS < end && start < (i + 1) * ALL_BITS && b < WORD_BITS
    ensures
      var k := RangeMasks(i, start, end);
      Bit(k.firstMask, b) == (i * ALL_BITS + k.firstWord * WORD_BITS + b >= start)
  {
    hide Bit, WordNot, AllOnes, Mask;
    if i * ALL_BITS <= start {
      Aligned(i, start);
      MaskBit(start % WORD_BITS, b);
      NotBit(Mask(start % WORD_BITS), b);
    } else {
      AllOnesBit(b);
    }
  }

  lemma LastMaskBit(i: nat, start: nat, end: nat, b: nat)
    requires start < end && i * ALL_BITS < end && start < (i + 1) * ALL_BITS && b < WORD_BITS
    ensures
      var k := RangeMasks(i, start, end);
      Bit(k.lastMask, b) == (i * ALL_BITS + k.lastWord * WORD_BITS + b < end)
  {
    hide Bit, WordNot, AllOnes, Mask;
    if i * ALL_BITS + ALL_BITS <= end {
      AllOnesBit(b);
    } else {
      Aligned(i, end);
      MaskBit(end % WORD_BITS, b);
    }
  }

  /** Where the words before the first and behind the last one lie. */
  lemma OutsideWords(i: nat, start: nat, end: nat, w: nat, b: nat)
    requires start < end && i * ALL_BITS < end && start < (i + 1) * ALL_BITS && w < ELEMENT_WORDS && b < WORD_BITS
    ensures
      var k := RangeMasks(i, start, end);
      && (w < k.firstWord ==> i * ALL_BITS + w * WORD_BITS + b < start)
      && (w > k.firstWord ==> i * ALL_BITS + w * WORD_BITS + b >= start)
      && (w < k.lastWord ==> i * ALL_BITS + w * WORD_BITS + b < end)
      && (w > k.lastWord ==> i * ALL_BITS + w * WORD_BITS + b >= end)
  {
    hide WordNot, AllOnes, Mask;
    if i * ALL_BITS <= start {
      Aligned(i, start);
    }
    if i * ALL_BITS + ALL_BITS > end {
      Aligned(i, end);
    }
  }

  /** The masks have exactly the bits of the range. */
  lemma MaskBits(i: nat, start: nat, end: nat, w: nat, b: nat)
    requires start < end && i * ALL_BITS < end && start < (i + 1) * ALL_BITS && w < ELEMENT_WORDS && b < WORD_BITS
    ensures Bit(MaskOf(RangeMasks(i, start, end), w), b) == (start <= i * ALL_BITS + w * WORD_BITS + b < end)
  {
    hide Bit, WordAnd, RangeMasks;
    var k := RangeMasks(i, start, end);
    FirstMaskBit(i, start, end, b);
    LastMaskBit(i, start, end, b);
    OutsideWords(i, start, end, w, b);
    AndBit(k.firstMask, k.lastMask, b);
    ZeroHasNone(b);
  }

  lemma OrNothing(w: Word)
    ensures WordOr(w, 0) == w && WordAnd(w, WordNot(0)) == w
  {
  }

  lemma MaskAt(k: Masks)
    requires MasksOk(k)
    ensures k.firstWord == k.lastWord ==>
      MaskOf(k, k.firstWord) == WordAnd(k.firstMask, k.lastMask) && MaskOf(k, 1 - k.firstWord) == 0
    ensures k.firstWord != k.lastWord ==>
      k.firstWord == 0 && k.lastWord == 1 && MaskOf(k, 0) == k.firstMask && MaskOf(k, 1) == k.lastMask
  {
    hide WordAnd;
  }

  /** Turns the bits of the masks on. */
  method SetMasked(bits: seq<Word>, k: Masks) returns (r: seq<Word>)
    requires |bits| == ELEMENT_WORDS && MasksOk(k)
    ensures |r| == ELEMENT_WORDS && forall w :: 0 <= w < ELEMENT_WORDS ==> r[w] == WordOr(bits[w], MaskOf(k, w))
  {
    hide WordOr, WordAnd, WordNot, MaskOf;
    MaskAt(k);
    OrNothing(bits[0]);
    OrNothing(bits[1]);
    r := bits;
    if k.firstWord == k.lastWord {
      var mask := WordAnd(k.firstMask, k.lastMask);
      r := r[k.firstWord := WordOr(r[k.firstWord], mask)];
    } else {
      r := r[k.firstWord := WordOr(r[k.firstWord], k.firstMask)];
      r := r[k.lastWord := WordOr(r[k.lastWord], k.lastMask)];
    }
  }

  /** Turns the bits of the masks off. */
  method ClearMasked(bits: seq<Word>, k: Masks) returns (r: seq<Word>)
    requires |bits| == ELEMENT_WORDS && MasksOk(k)
    ensures |r| == ELEMENT_WORDS && forall w :: 0 <= w < ELEMENT_WORDS ==> r[w] == WordAnd(bits[w], WordNot(MaskOf(k, w)))
  {
    hide WordOr, WordAnd, WordNot, MaskOf;
    MaskAt(k);
    OrNothing(bits[0]);
    OrNothing(bits[1]);
    r := bits;
    if k.firstWord == k.lastWord {
      var mask := WordAnd(k.firstMask, k.lastMask);
      r := r[k.firstWord := WordAnd(r[k.firstWord], WordNot(mask))];
    } else {
      r := r[k.firstWord := WordAnd(r[k.firstWord], WordNot(k.firstMask))];
      r := r[k.lastWord := WordAnd(r[k.lastWord], WordNot(k.lastMask))];
    }
  }

  lemma SetWordsHave(bits: seq<Word>, r: seq<Word>, i: nat, start: nat, end: nat, j: nat)
    requires |bits| == |r| == ELEMENT_WORDS && j < ALL_BITS && start < end && i * ALL_BITS < end && start < (i + 1) * ALL_BITS
    requires forall w :: 0 <= w < ELEMENT_WORDS ==> r[w] == WordOr(bits[w], MaskOf(RangeMasks(i, start, end), w))
    ensures WordsHave(r, j) == (WordsHave(bits, j) || start <= i * ALL_BITS + j < end)
  {
    hide Bit, WordOr, MaskOf, RangeMasks;
    var w, b := j / WORD_BITS, j % WORD_BITS;
    MaskBits(i, start, end, w, b);
    OrBit(bits[w], MaskOf(RangeMasks(i, start, end), w), b);
  }

  lemma ClearWordsHave(bits: seq<Word>, r: seq<Word>, i: nat, start: nat, end: nat, j: nat)
    requires |bits| == |r| == ELEMENT_WORDS && j < ALL_BITS && start < end && i * ALL_BITS < end && start < (i + 1) * ALL_BITS
    requires forall w :: 0 <= w < ELEMENT_WORDS ==> r[w] == WordAnd(bits[w], WordNot(MaskOf(RangeMasks(i, start, end), w)))
    ensures WordsHave(r, j) == (WordsHave(bits, j) && !(start <= i * ALL_BITS + j < end))
  {
    hide Bit, WordAnd, WordNot, MaskOf, RangeMasks;
    var w, b := j / WORD_BITS, j % WORD_BITS;
    MaskBits(i, start, end, w, b);
    NotBit(MaskOf(RangeMasks(i, start, end), w), b);
    AndBit(bits[w], WordNot(MaskOf(RangeMasks(i, start, end), w)), b);
  }

  // ---- clearing ----

  /** `t` is `s` with the bits from `start` up to `end` all added, or all removed. */
  ghost predicate OneRange(s: seq<Entry>, t: seq<Entry>, start: nat, end: nat, on: bool) {
    Normal(t) && forall m: nat :: Has(t, m) <==> if start <= m < end then on else Has(s, m)
  }

  /**
   * `cur` is `was` without the bits of the range in elements before index `t`; the elements from position `c` on
   * are those with index `t` or more.
   */
  ghost predicate Clearing(was: seq<Entry>, cur: seq<Entry>, c: nat, t: nat, start: nat, end: nat) {
    && Normal(cur) && c <= |cur|
    && (forall k :: 0 <= k < |cur| ==> (cur[k].indx < t <==> k < c))
    && forall m: nat :: Has(cur, m) <==> Has(was, m) && !(start <= m < end && m / ALL_BITS < t)
  }

  lemma ClearingStart(s: seq<Entry>, c: nat, start: nat, end: nat)
    requires Normal(s) && c <= |s| && forall k :: 0 <= k < |s| ==> (s[k].indx < start / ALL_BITS <==> k < c)
    ensures Clearing(s, s, c, start / ALL_BITS, start, end)
  {
    hide Has;
  }

  lemma ClearingEnd(was: seq<Entry>, cur: seq<Entry>, c: nat, t: nat, start: nat, end: nat)
    requires Clearing(was, cur, c, t, start, end) && start < end && (c < |cur| ==> cur[c].indx > (end - 1) / ALL_BITS)
    ensures OneRange(was, cur, start, end, false)
  {
    hide Has, NonZero;
    forall m: nat
      ensures Has(cur, m) <==> if start <= m < end then false else Has(was, m)
    {
      if start <= m < end && m / ALL_BITS >= t {
        assert m / ALL_BITS <= (end - 1) / ALL_BITS;
        HasMissing(cur, m);
      }
    }
  }

  lemma ClearingRemove(was: seq<Entry>, cur: seq<Entry>, c: nat, t: nat, start: nat, end: nat)
    requires Clearing(was, cur, c, t, start, end) && c < |cur|
    requires forall m: nat :: m / ALL_BITS == cur[c].indx && Has(cur, m) ==> start <= m < end
    ensures Clearing(was, cur[..c] + cur[c + 1..], c, cur[c].indx + 1, start, end)
  {
    hide Has, NonZero;
    NormalRemove(cur, c);
    var x := cur[c].indx;
    var cur' := cur[..c] + cur[c + 1..];
    forall k | 0 <= k < |cur'|
      ensures cur'[k].indx < x + 1 <==> k < c
    {
      assert cur'[k] == if k < c then cur[k] else cur[k + 1];
    }
    forall m: nat
      ensures Has(cur[..c] + cur[c + 1..], m) <==> Has(was, m) && !(start <= m < end && m / ALL_BITS < x + 1)
    {
      HasRemove(cur, c, m);
      if t <= m / ALL_BITS < x {
        HasMissing(cur, m);
      }
    }
    assert forall m: nat :: Has(cur', m) <==> Has(was, m) && !(start <= m < end && m / ALL_BITS < x + 1);
  }

  lemma ClearingReplace(was: seq<Entry>, cur: seq<Entry>, c: nat, t: nat, start: nat, end: nat, e: Entry)
    requires Clearing(was, cur, c, t, start, end) && c < |cur| && e.indx == cur[c].indx
    requires |e.words| == ELEMENT_WORDS && e.words != ZERO_WORDS
    requires forall m: nat :: m / ALL_BITS == e.indx ==> (EntryHas(e, m) <==> Has(cur, m) && !(start <= m < end))
    ensures Clearing(was, cur[c := e], c + 1, cur[c].indx + 1, start, end)
  {
    hide Has, EntryHas, NonZero;
    NormalReplace(cur, c, e);
    var x := cur[c].indx;
    var cur' := cur[c := e];
    forall k | 0 <= k < |cur'|
      ensures cur'[k].indx < x + 1 <==> k < c + 1
    {
      assert cur'[k].indx == cur[k].indx;
    }
    forall m: nat
      ensures Has(cur[c := e], m) <==> Has(was, m) && !(start <= m < end && m / ALL_BITS < x + 1)
    {
      HasReplace(cur, c, e, m);
      if t <= m / ALL_BITS < x {
        HasMissing(cur, m);
      }
    }
    assert forall m: nat :: Has(cur', m) <==> Has(was, m) && !(start <= m < end && m / ALL_BITS < x + 1);
  }

  lemma PartClear(cur: seq<Entry>, c: nat, start: nat, end: nat, words: seq<Word>)
    requires Normal(cur) && c < |cur| && start < end && cur[c].indx * ALL_BITS < end && start < (cur[c].indx + 1) * ALL_BITS
    requires |cur[c].words| == |words| == ELEMENT_WORDS
    requires forall w :: 0 <= w < ELEMENT_WORDS ==>
      words[w] == WordAnd(cur[c].words[w], WordNot(MaskOf(RangeMasks(cur[c].indx, start, end), w)))
    ensures forall m: nat :: m / ALL_BITS == cur[c].indx ==> (EntryHas(Entry(cur[c].indx, words), m) <==> Has(cur, m) && !(start <= m < end))
  {
    hide Has, WordsHave, WordAnd, WordNot, MaskOf, RangeMasks, Normal;
    HasInElement(cur, c);
    forall m: nat | m / ALL_BITS == cur[c].indx
      ensures EntryHas(Entry(cur[c].indx, words), m) <==> Has(cur, m) && !(start <= m < end)
    {
      ClearWordsHave(cur[c].words, words, cur[c].indx, start, end, m % ALL_BITS);
      assert m == cur[c].indx * ALL_BITS + m % ALL_BITS;
    }
  }

  lemma ZeroClear(cur: seq<Entry>, c: nat, start: nat, end: nat)
    requires c < |cur|
    requires forall m: nat :: m / ALL_BITS == cur[c].indx ==> (EntryHas(Entry(cur[c].indx, ZERO_WORDS), m) <==> Has(cur, m) && !(start <= m < end))
    ensures forall m: nat :: m / ALL_BITS == cur[c].indx && Has(cur, m) ==> start <= m < end
  {
    hide Has, WordsHave;
    forall m: nat | m / ALL_BITS == cur[c].indx && Has(cur, m)
      ensures start <= m < end
    {
      ZeroWordsHave(m % ALL_BITS);
      assert EntryHas(Entry(cur[c].indx, ZERO_WORDS), m) <==> Has(cur, m) && !(start <= m < end);
    }
  }

  lemma ElementRange(i: nat, m: nat)
    requires m / ALL_BITS == i
    ensures i * ALL_BITS <= m < (i + 1) * ALL_BITS
  {
  }

  lemma LastElement(x: nat, end: nat)
    requires end > 0 && x <= (end - 1) / ALL_BITS
    ensures x * ALL_BITS < end
  {
  }

  lemma FirstElement(x: nat, start: nat)
    requires x >= start / ALL_BITS
    ensures start < (x + 1) * ALL_BITS
  {
  }

  /** The body of `BitmapClearRange`'s loop, for the element `elt`, which `next` follows. */
  method ClearElement(head: Bitmap, elt: Element, next: Element?, start: nat, end: nat,
                      ghost prev: Element?, ghost c: nat, ghost t: nat, ghost was: seq<Entry>)
    returns (ghost prev': Element?, ghost c': nat)
    requires IntoAt(head, c, prev, elt) && next == At(head.elts, c + 1)
    requires start < end && elt.indx <= (end - 1) / ALL_BITS && t >= start / ALL_BITS
    requires Clearing(was, head.Contents(), c, t, start, end)
    modifies head, head.obstack, head.Owned()
    ensures IntoAt(head, c', prev', next) && Conserved(head) && Clearing(was, head.Contents(), c', old(elt.indx) + 1, start, end)
    ensures old(elt.indx) >= t && |head.elts| - c' < old(|head.elts|) - c
  {
    hide WriteAt, After, Nodes, head.Owned, head.Linked, ContentsOf, Clearing, head.CursorOk, Normal, RangeMasks, MaskOf, WordAnd, WordNot,
      EntryHas, Has, Conserved;
    ghost var cur := head.Contents();
    IntoParts(head, c, prev, elt);
    ClearingParts(was, cur, c, t, start, end);
    LastElement(elt.indx, end);
    FirstElement(elt.indx, start);
    var eltStart := elt.indx * ALL_BITS;
    var eltEnd := eltStart + ALL_BITS;
    if eltStart >= start && eltEnd <= end {
      WholeElement(cur, c, start, end);
      ClearingRemove(was, cur, c, t, start, end);
      FreeElement(head, elt, next, prev, c);
      prev', c' := prev, c;
      ConservedStart(head);
    } else {
      prev', c' := ClearPart(head, elt, next, start, end, prev, c, t, was);
    }
  }

  /** Frees the element at `c`; `next` is then there. */
  method FreeElement(head: Bitmap, elt: Element, ghost next: Element?, ghost prev: Element?, ghost c: nat)
    requires IntoAt(head, c, prev, elt) && next == At(head.elts, c + 1)
    modifies head, head.obstack, head.Owned()
    ensures IntoAt(head, c, prev, next) && head.Owned() == old(head.Owned()) && c < |old(head.Contents())|
    ensures head.Contents() == old(head.Contents())[..c] + old(head.Contents())[c + 1..] && |head.elts| == old(|head.elts|) - 1
  {
    hide Nodes, head.Owned, head.Linked, ContentsOf, head.CursorOk;
    RemoveElement(head, elt, prev, c);
  }

  lemma ClearingParts(was: seq<Entry>, cur: seq<Entry>, c: nat, t: nat, start: nat, end: nat)
    requires Clearing(was, cur, c, t, start, end)
    ensures Normal(cur) && c <= |cur| && (c < |cur| ==> cur[c].indx >= t && |cur[c].words| == ELEMENT_WORDS)
  {
  }

  lemma WholeElement(cur: seq<Entry>, c: nat, start: nat, end: nat)
    requires c < |cur| && start <= cur[c].indx * ALL_BITS && cur[c].indx * ALL_BITS + ALL_BITS <= end
    ensures forall m: nat :: m / ALL_BITS == cur[c].indx && Has(cur, m) ==> start <= m < end
  {
    hide Has;
    forall m: nat | m / ALL_BITS == cur[c].indx
      ensures start <= m < end
    {
      ElementRange(cur[c].indx, m);
    }
  }

  /** Knocks out some bits of an element, and frees it if none is left. */
  method ClearPart(head: Bitmap, elt: Element, next: Element?, start: nat, end: nat,
                   ghost prev: Element?, ghost c: nat, ghost t: nat, ghost was: seq<Entry>)
    returns (ghost prev': Element?, ghost c': nat)
    requires IntoAt(head, c, prev, elt) && next == At(head.elts, c + 1)
    requires start < end && elt.indx * ALL_BITS < end && start < (elt.indx + 1) * ALL_BITS
    requires Clearing(was, head.Contents(), c, t, start, end)
    modifies head, head.obstack, head.Owned()
    ensures IntoAt(head, c', prev', next) && Conserved(head) && Clearing(was, head.Contents(), c', old(elt.indx) + 1, start, end)
    ensures |head.elts| - c' < old(|head.elts|) - c
  {
    hide WriteAt, After, head.Linked, ContentsOf, Clearing, head.CursorOk, Normal, RangeMasks, MaskOf, WordAnd, WordNot,
      EntryHas, Has, Conserved;
    ghost var cur, own, nodes, free := head.Contents(), head.Owned(), Nodes(head.elts), head.obstack.free;
    IntoParts(head, c, prev, elt);
    ClearingParts(was, cur, c, t, start, end);
    var words := ClearMasked(elt.bits, RangeMasks(elt.indx, start, end));
    PartClear(cur, c, start, end, words);
    var clear := true;
    if words[0] != 0 || words[1] != 0 {
      clear := false;
    }
    label L:
    if clear {
      assert words == ZERO_WORDS;
      ZeroClear(cur, c, start, end);
      ClearingRemove(was, cur, c, t, start, end);
    } else {
      ClearingReplace(was, cur, c, t, start, end, Entry(elt.indx, words));
    }
    prev', c' := StoreWords(head, elt, next, words, clear, prev, c);
    ghost var now := ConservedParts@L(head);
    ConservedStep(head, own, now);
  }

  /** Stores the words of an element, or frees it if they are zero. */
  method StoreWords(head: Bitmap, elt: Element, ghost next: Element?, words: seq<Word>, clear: bool, ghost prev: Element?, ghost c: nat)
    returns (ghost prev': Element?, ghost c': nat)
    requires IntoAt(head, c, prev, elt) && next == At(head.elts, c + 1)
    modifies head, head.obstack, head.Owned()
    ensures IntoAt(head, c', prev', next) && Conserved(head) && c < |old(head.Contents())|
    ensures |head.elts| - c' < old(|head.elts|) - c
    ensures clear ==> c' == c && head.Contents() == old(head.Contents())[..c] + old(head.Contents())[c + 1..]
    ensures !clear ==> c' == c + 1 && head.Contents() == old(head.Contents())[c := Entry(old(elt.indx), words)]
  {
    hide WriteAt, After, Nodes, head.Owned, head.Linked, ContentsOf, head.CursorOk, Conserved;
    ghost var cur := head.Contents();
    IntoParts(head, c, prev, elt);
    OverwriteNext(head, prev, elt, elt.indx, words, c);
    if clear {
      assert head.Contents()[..c] + head.Contents()[c + 1..] == cur[..c] + cur[c + 1..];
      FreeElement(head, elt, next, prev, c);
      prev', c' := prev, c;
    } else {
      WriteHas(head, c, prev, elt);
      WriteNext(head, c, prev, elt);
      NextOf(head, c);
      prev', c' := elt, c + 1;
    }
    ConservedStart(head);
  }

  lemma NextOf(head: Bitmap, c: nat)
    requires head.Linked() && c < |head.elts|
    ensures head.elts[c].next == At(head.elts, c + 1)
  {
  }

  lemma ClearPlace(s: seq<Entry>, c: nat, t: nat)
    requires Ordered(s) && c <= |s| && (c < |s| ==> s[c].indx >= t) && (c > 0 ==> s[c - 1].indx < t)
    ensures forall k :: 0 <= k < |s| ==> (s[k].indx < t <==> k < c)
  {
  }

  lemma OrderedNeighbours(s: seq<Entry>, c: nat)
    requires Ordered(s) && c < |s|
    ensures c > 0 ==> s[c - 1].indx < s[c].indx
    ensures c + 1 < |s| ==> s[c].indx < s[c + 1].indx
  {
  }

  /** The first element with index at least `t`, next to the place where the search for `t` ended. */
  method FirstFrom(head: Bitmap, found: Element?, t: nat, ghost c0: nat) returns (elt: Element?, ghost c: nat)
    requires head.Valid()
    requires found != null ==> c0 < |head.elts| && found == head.elts[c0] && found.indx == t
    requires found == null && head.elts != [] ==> head.CursorAt(c0) && head.NearestTo(c0, t)
    requires found == null ==> forall k :: 0 <= k < |head.elts| ==> head.elts[k].indx != t
    ensures c <= |head.elts| == |head.Contents()| && elt == At(head.elts, c)
    ensures forall k :: 0 <= k < |head.Contents()| ==> (head.Contents()[k].indx < t <==> k < c)
  {
    hide head.Linked, ContentsOf, Ordered, NonZero;
    c := c0;
    elt := found;
    ContentsAt(head.elts);
    if head.elts != [] {
      NextOf(head, c0);
      OrderedNeighbours(head.Contents(), c0);
    }
    if elt == null {
      if head.current != null {
        if head.indx < t {
          elt := head.current.next;
          c := c0 + 1;
        } else {
          elt := head.current;
        }
      } else {
        c := 0;
      }
    }
    ClearPlace(head.Contents(), c, t);
  }

  lemma IntoFromValid(head: Bitmap, c: nat)
    requires head.Valid() && c <= |head.elts|
    ensures IntoAt(head, c, At(head.elts, c - 1), At(head.elts, c)) && Normal(head.Contents())
    ensures |head.Contents()| == |head.elts|
  {
    ContentsAt(head.elts);
  }

  /** The loop of `BitmapClearRange`. */
  method ClearLoop(head: Bitmap, elt0: Element?, start: nat, end: nat, ghost c0: nat, ghost was: seq<Entry>)
    returns (elt: Element?, ghost prev: Element?, ghost c: nat, ghost t: nat)
    requires start < end && IntoAt(head, c0, At(head.elts, c0 - 1), elt0)
    requires Clearing(was, head.Contents(), c0, start / ALL_BITS, start, end)
    modifies head, head.obstack, head.Owned()
    ensures IntoAt(head, c, prev, elt) && Conserved(head) && Clearing(was, head.Contents(), c, t, start, end)
    ensures elt == null || elt.indx > (end - 1) / ALL_BITS
  {
    hide IntoAt, ContentsOf, Normal, head.Owned, Nodes, Conserved, Clearing, head.Linked, head.CursorIn;
    ConservedStart(head);
    elt, prev, c, t := elt0, At(head.elts, c0 - 1), c0, start / ALL_BITS;
    var first_index, last_index := start / ALL_BITS, (end - 1) / ALL_BITS;
    IntoParts(head, c, prev, elt);
    while elt != null && elt.indx <= last_index
      invariant 0 <= c <= |head.elts| && IntoAt(head, c, prev, elt) && Conserved(head) && t >= first_index
      invariant Clearing(was, head.Contents(), c, t, start, end)
      decreases |head.elts| - c
    {
      IntoNext(head, c, prev, elt);
      ghost var own := ConservedParts(head);
      ghost var x := elt.indx;
      var next_elt := elt.next;
      label L:
      prev, c := ClearElement(head, elt, next_elt, start, end, prev, c, t, was);
      ghost var now := ConservedParts@L(head);
      ConservedStep(head, own, now);
      elt, t := next_elt, x + 1;
      IntoParts(head, c, prev, elt);
    }
  }

  /** Removes the bits from `start` up to `start + count`. */
  method BitmapClearRange(head: Bitmap, start: nat, count: nat)
    requires head.Valid()
    modifies head, head.obstack, head.Owned()
    ensures head.Valid() && Conserved(head) && OneRange(old(head.Contents()), head.Contents(), start, start + count, false)
  {
    hide head.Valid, IntoAt, ContentsOf, Normal, head.Owned, Nodes, Conserved, Clearing, OneRange, head.Linked, head.CursorIn;
    ghost var was := head.Contents();
    ConservedStart(head);
    if count == 0 {
      EmptyRange(head, start, false);
      return;
    }
    var end_bit_plus1 := start + count;
    var elt;
    ghost var c, prev, t;
    elt, c := FindFirst(head, start);
    IntoFromValid(head, c);
    ClearingStart(was, c, start, end_bit_plus1);
    ConservedStart(head);
    ghost var own0 := ConservedParts(head);
    label L:
    elt, prev, c, t := ClearLoop(head, elt, start, end_bit_plus1, c, was);
    ghost var own := ConservedParts@L(head);
    IntoParts(head, c, prev, elt);
    ClearingEnd(was, head.Contents(), c, t, start, end_bit_plus1);
    ClearingParts(was, head.Contents(), c, t, start, end_bit_plus1);
    if elt != null {
      MoveCursor(head, elt, c);
    } else {
      ValidAgain(head, c, prev, elt);
    }
    ConservedStep(head, own0, head.Owned());
  }

  lemma EmptyRange(head: Bitmap, start: nat, on: bool)
    requires head.Valid()
    ensures OneRange(head.Contents(), head.Contents(), start, start, on)
  {
    hide Has;
  }

  lemma IntoNext(head: Bitmap, c: nat, prev: Element?, elt: Element)
    requires IntoAt(head, c, prev, elt)
    ensures elt.next == At(head.elts, c + 1)
  {
  }

  /** Puts the cursor on the element at `c`. */
  method MoveCursor(head: Bitmap, elt: Element, ghost c: nat)
    requires head.Linked() && Normal(head.Contents()) && c < |head.elts| && elt == head.elts[c]
    modifies head`current, head`indx
    ensures head.Valid() && head.Contents() == old(head.Contents())
  {
    hide head.Linked, ContentsOf, Normal;
    head.current := elt;
    head.indx := elt.indx;
  }

  /** The first element that a range starting at bit `start` can touch. */
  method FindFirst(head: Bitmap, start: nat) returns (elt: Element?, ghost c: nat)
    requires head.Valid()
    modifies head`current, head`indx
    ensures head.Valid() && head.Contents() == old(head.Contents())
    ensures c <= |head.elts| == |head.Contents()| && elt == At(head.elts, c) && Normal(head.Contents())
    ensures forall k :: 0 <= k < |head.Contents()| ==> (head.Contents()[k].indx < start / ALL_BITS <==> k < c)
  {
    hide head.Valid, ContentsOf, Normal, head.NearestTo, head.CursorAt;
    ghost var nodes, free, s := Nodes(head.elts), head.obstack.free, head.Contents();
    ValidNormal(head);
    ghost var c0;
    var found;
    found, c0 := Find(head, start);
    elt, c := FirstFrom(head, found, start / ALL_BITS, c0);
  }

  // ---- setting ----

  /**
   * `cur` is `was` with the bits of the range in elements before index `i`; the elements from position `c` on are
   * those with index `i` or more. Only the element at `c` may be empty, if `zero` says so.
   */
  ghost predicate Setting(was: seq<Entry>, cur: seq<Entry>, c: nat, i: nat, start: nat, end: nat, zero: bool) {
    && Ordered(cur) && c <= |cur|
    && (forall k :: 0 <= k < |cur| ==> |cur[k].words| == ELEMENT_WORDS)
    && (forall k :: 0 <= k < |cur| && (k != c || !zero) ==> cur[k].words != ZERO_WORDS)
    && (forall k :: 0 <= k < |cur| ==> (cur[k].indx < i <==> k < c))
    && forall m: nat :: Has(cur, m) <==> Has(was, m) || (start <= m < end && m / ALL_BITS < i)
  }

  lemma SettingStart(s: seq<Entry>, c: nat, start: nat, end: nat)
    requires Normal(s) && c < |s| && s[c].indx == start / ALL_BITS
    ensures Setting(s, s, c, start / ALL_BITS, start, end, false)
  {
    hide Has;
  }

  /** A new empty element adds nothing to the set. */
  lemma SettingInsert(was: seq<Entry>, cur: seq<Entry>, c: nat, i: nat, start: nat, end: nat)
    requires Setting(was, cur, c, i, start, end, false) && (c < |cur| ==> cur[c].indx != i)
    ensures Setting(was, cur[..c] + [Entry(i, ZERO_WORDS)] + cur[c..], c, i, start, end, true)
  {
    hide Has, WordsHave;
    var e := Entry(i, ZERO_WORDS);
    var cur' := cur[..c] + [e] + cur[c..];
    assert forall k :: 0 <= k < |cur'| ==> cur'[k] == if k < c then cur[k] else if k == c then e else cur[k - 1];
    forall m: nat
      ensures Has(cur', m) <==> Has(was, m) || (start <= m < end && m / ALL_BITS < i)
    {
      HasInsert(cur, c, e, m);
      ZeroWordsHave(m % ALL_BITS);
      if m / ALL_BITS == i {
        HasMissing(cur, m);
      }
    }
    assert Ordered(cur');
  }

  lemma SettingFirst(s: seq<Entry>, c: nat, start: nat, end: nat)
    requires Normal(s) && c <= |s| && forall k :: 0 <= k < |s| ==> s[k].indx != start / ALL_BITS
    requires Ordered(s[..c] + [Entry(start / ALL_BITS, ZERO_WORDS)] + s[c..])
    ensures Setting(s, s[..c] + [Entry(start / ALL_BITS, ZERO_WORDS)] + s[c..], c, start / ALL_BITS, start, end, true)
  {
    hide Has;
    var t := s[..c] + [Entry(start / ALL_BITS, ZERO_WORDS)] + s[c..];
    forall k | 0 <= k < |s|
      ensures s[k].indx < start / ALL_BITS <==> k < c
    {
      assert t[c].indx == start / ALL_BITS && t[if k < c then k else k + 1] == s[k];
    }
    forall m: nat
      ensures Has(s, m) <==> Has(s, m) || (start <= m < end && m / ALL_BITS < start / ALL_BITS)
    {
    }
    assert Setting(s, s, c, start / ALL_BITS, start, end, false);
    SettingInsert(s, s, c, start / ALL_BITS, start, end);
  }

  lemma SettingWrite(was: seq<Entry>, cur: seq<Entry>, c: nat, i: nat, start: nat, end: nat, zero: bool, words: seq<Word>)
    requires Setting(was, cur, c, i, start, end, zero) && c < |cur| && cur[c].indx == i
    requires start < end && i * ALL_BITS < end && start < (i + 1) * ALL_BITS && |words| == ELEMENT_WORDS
    requires forall j :: 0 <= j < ALL_BITS ==> (WordsHave(words, j) <==> WordsHave(cur[c].words, j) || start <= i * ALL_BITS + j < end)
    ensures Setting(was, cur[c := Entry(i, words)], c + 1, i + 1, start, end, false)
  {
    hide Has, WordsHave;
    var e := Entry(i, words);
    var cur' := cur[c := e];
    assert forall k :: 0 <= k < |cur'| ==> cur'[k].indx == cur[k].indx;
    forall m: nat
      ensures Has(cur', m) <==> Has(was, m) || (start <= m < end && m / ALL_BITS < i + 1)
    {
      HasReplace(cur, c, e, m);
      if m / ALL_BITS == i {
        HasAt(cur, c, m);
        assert m == i * ALL_BITS + m % ALL_BITS;
      }
    }
    var j := if start <= i * ALL_BITS then 0 else start - i * ALL_BITS;
    assert WordsHave(words, j);
    ZeroWordsHave(j);
  }

  lemma SettingEnd(was: seq<Entry>, cur: seq<Entry>, c: nat, i: nat, start: nat, end: nat)
    requires Setting(was, cur, c, i, start, end, false) && start < end && i == (end - 1) / ALL_BITS + 1
    ensures OneRange(was, cur, start, end, true)
  {
    hide Has;
    forall m: nat
      ensures Has(cur, m) <==> if start <= m < end then true else Has(was, m)
    {
      if start <= m < end {
        assert m / ALL_BITS <= (end - 1) / ALL_BITS;
      }
    }
  }

  lemma SettingParts(was: seq<Entry>, cur: seq<Entry>, c: nat, i: nat, start: nat, end: nat, zero: bool)
    requires Setting(was, cur, c, i, start, end, zero)
    ensures c <= |cur| && (c < |cur| ==> |cur[c].words| == ELEMENT_WORDS) && (!zero ==> Normal(cur))
  {
  }

  lemma MaskedHave(bits: seq<Word>, words: seq<Word>, i: nat, start: nat, end: nat)
    requires |bits| == |words| == ELEMENT_WORDS && start < end && i * ALL_BITS < end && start < (i + 1) * ALL_BITS
    requires forall w :: 0 <= w < ELEMENT_WORDS ==> words[w] == WordOr(bits[w], MaskOf(RangeMasks(i, start, end), w))
    ensures forall j :: 0 <= j < ALL_BITS ==> (WordsHave(words, j) <==> WordsHave(bits, j) || start <= i * ALL_BITS + j < end)
  {
    hide WordsHave, WordOr, MaskOf, RangeMasks;
    forall j | 0 <= j < ALL_BITS
      ensures WordsHave(words, j) <==> WordsHave(bits, j) || start <= i * ALL_BITS + j < end
    {
      SetWordsHave(bits, words, i, start, end, j);
    }
  }

  /** Sets the bits of the range in the element `elt` with index `i`. */
  method SetPart(head: Bitmap, elt: Element, prev: Element?, i: nat, start: nat, end: nat, ghost c: nat, ghost was: seq<Entry>, ghost zero: bool)
    returns (elt': Element?, prev': Element?)
    requires IntoAt(head, c, prev, elt) && elt.indx == i && start < end && i * ALL_BITS < end && start < (i + 1) * ALL_BITS
    requires Setting(was, head.Contents(), c, i, start, end, zero)
    modifies head, head.obstack, head.Owned()
    ensures IntoAt(head, c + 1, prev', elt') && Conserved(head) && Setting(was, head.Contents(), c + 1, i + 1, start, end, false)
    ensures prev' != null
  {
    hide WriteAt, After, head.Linked, ContentsOf, Setting, head.CursorOk, RangeMasks, MaskOf, WordOr, WordsHave, Conserved;
    ghost var cur, own, nodes, free := head.Contents(), head.Owned(), Nodes(head.elts), head.obstack.free;
    IntoParts(head, c, prev, elt);
    SettingParts(was, cur, c, i, start, end, zero);
    var words := SetMasked(elt.bits, RangeMasks(i, start, end));
    MaskedHave(elt.bits, words, i, start, end);
    SettingWrite(was, cur, c, i, start, end, zero, words);
    label L:
    OverwriteNext(head, prev, elt, i, words, c);
    WriteHas(head, c, prev, elt);
    WriteNext(head, c, prev, elt);
    prev', elt' := elt, elt.next;
    ghost var now := ConservedParts@L(head);
    ConservedStep(head, own, now);
  }

  /** The body of `BitmapSetRange`'s loop. */
  method SetElement(head: Bitmap, elt: Element?, prev: Element?, i: nat, start: nat, end: nat, ghost c: nat, ghost was: seq<Entry>, ghost zero: bool)
    returns (elt': Element?, prev': Element?)
    requires IntoAt(head, c, prev, elt) && start < end && i * ALL_BITS < end && start < (i + 1) * ALL_BITS
    requires Setting(was, head.Contents(), c, i, start, end, zero) && (zero ==> elt != null && elt.indx == i)
    modifies head, head.obstack, head.Owned()
    ensures IntoAt(head, c + 1, prev', elt') && Conserved(head) && Setting(was, head.Contents(), c + 1, i + 1, start, end, false)
    ensures prev' != null
  {
    hide WriteAt, After, head.Linked, ContentsOf, Setting, head.CursorOk, Conserved, Nodes, head.Owned;
    ghost var cur, own := head.Contents(), head.Owned();
    IntoParts(head, c, prev, elt);
    ConservedStart(head);
    if elt == null || elt.indx != i {
      SettingInsert(was, cur, c, i, start, end);
      var node := InsertElement(head, prev, elt, i, ZERO_WORDS, c);
      ghost var mid := ConservedParts(head);
      WriteHas(head, c, prev, node);
      NodeAt(head, c, i, cur);
      label L:
      elt', prev' := SetPart(head, node, prev, i, start, end, c, was, true);
      ghost var now := ConservedParts@L(head);
      ConservedStep(head, mid, now);
    } else {
      elt', prev' := SetPart(head, elt, prev, i, start, end, c, was, zero);
    }
  }

  lemma NodeAt(head: Bitmap, c: nat, i: nat, cur: seq<Entry>)
    requires c < |head.elts| && c <= |cur| && head.Contents() == cur[..c] + [Entry(i, ZERO_WORDS)] + cur[c..]
    ensures head.elts[c].indx == i
  {
    EntryAt(head.elts, c);
  }

  /** An empty element for a range that starts where there is none yet. */
  method AddEmpty(head: Bitmap, i: nat) returns (node: Element, ghost c: nat)
    requires head.Valid() && forall k :: 0 <= k < |head.elts| ==> head.elts[k].indx != i
    modifies head, head.obstack, head.Owned()
    ensures Conserved(head) && c <= |old(head.Contents())|
    ensures head.Contents() == old(head.Contents())[..c] + [Entry(i, ZERO_WORDS)] + old(head.Contents())[c..] && Ordered(head.Contents())
    ensures c < |head.elts| && IntoAt(head, c, node.prev, node) && node.indx == i
  {
    hide ContentsOf, head.Linked, Ordered;
    node := NewElement(head, i, ZERO_WORDS);
    ghost var free, n := head.obstack.free, |head.elts|;
    c := head.ElementLink(node);
    EntryAt(head.elts, c);
    FoundLinks(head, c);
  }

  /** The element where a range starts, new and empty if there was none. */
  method SetFirst(head: Bitmap, start: nat, end: nat) returns (elt: Element, prev: Element?, ghost c: nat, ghost zero: bool)
    requires head.Valid() && start < end
    modifies head, head.obstack, head.Owned()
    ensures IntoAt(head, c, prev, elt) && elt.indx == start / ALL_BITS && Conserved(head)
    ensures Setting(old(head.Contents()), head.Contents(), c, start / ALL_BITS, start, end, zero)
  {
    hide head.Valid, ContentsOf, Normal, head.NearestTo, head.CursorAt, Setting, Ordered;
    ghost var s, own, nodes, free := head.Contents(), head.Owned(), Nodes(head.elts), head.obstack.free;
    ValidNormal(head);
    var found;
    found, c := Find(head, start);
    if found == null {
      IndicesOf(head, start / ALL_BITS);
      label L:
      elt, c := AddEmpty(head, start / ALL_BITS);
      SettingFirst(s, c, start, end);
      zero := true;
      ghost var now := ConservedParts@L(head);
      ConservedStep(head, own, now);
    } else {
      elt, zero := found, false;
      SettingStart(s, c, start, end);
      IntoFromValid(head, c);
      PrevOf(head, c);
      ConservedStart(head);
    }
    prev := elt.prev;
  }

  lemma PrevOf(head: Bitmap, c: nat)
    requires head.Valid() && c < |head.elts|
    ensures head.elts[c].prev == At(head.elts, c - 1)
  {
  }

  /** Adds the bits from `start` up to `start + count`. */
  method BitmapSetRange(head: Bitmap, start: nat, count: nat)
    requires head.Valid()
    modifies head, head.obstack, head.Owned()
    ensures head.Valid() && Conserved(head) && OneRange(old(head.Contents()), head.Contents(), start, start + count, true)
  {
    hide head.Valid, IntoAt, ContentsOf, Normal, head.Owned, Nodes, Conserved, Setting, OneRange, head.Linked, head.CursorIn;
    ghost var was := head.Contents();
    ConservedStart(head);
    if count == 0 {
      EmptyRange(head, start, true);
      return;
    }
    var end_bit_plus1 := start + count;
    var elt: Element?, elt_prev: Element?;
    ghost var c, zero;
    elt, elt_prev, c, zero := SetFirst(head, start, end_bit_plus1);
    ghost var own0 := ConservedParts(head);
    label L:
    elt, elt_prev, c := SetLoop(head, elt, elt_prev, start, end_bit_plus1, c, was, zero);
    ghost var own := ConservedParts@L(head);
    SettingEnd(was, head.Contents(), c, (end_bit_plus1 - 1) / ALL_BITS + 1, start, end_bit_plus1);
    IntoParts(head, c, elt_prev, elt);
    SettingParts(was, head.Contents(), c, (end_bit_plus1 - 1) / ALL_BITS + 1, start, end_bit_plus1, false);
    IntoPrev(head, c, elt_prev, elt);
    if elt != null {
      MoveCursor(head, elt, c);
    } else {
      MoveCursor(head, elt_prev, c as int - 1);
    }
    ConservedStep(head, own0, head.Owned());
  }

  lemma IntoPrev(head: Bitmap, c: nat, prev: Element?, elt: Element?)
    requires IntoAt(head, c, prev, elt) && prev != null
    ensures 0 < c <= |head.elts| && prev == head.elts[c - 1] && head.Linked()
  {
  }

  /** The loop of `BitmapSetRange`. */
  method SetLoop(head: Bitmap, elt0: Element?, prev0: Element?, start: nat, end: nat, ghost c0: nat, ghost was: seq<Entry>, ghost zero0: bool)
    returns (elt: Element?, elt_prev: Element?, ghost c: nat)
    requires start < end && IntoAt(head, c0, prev0, elt0) && elt0 != null && elt0.indx == start / ALL_BITS
    requires Setting(was, head.Contents(), c0, start / ALL_BITS, start, end, zero0)
    modifies head, head.obstack, head.Owned()
    ensures IntoAt(head, c, elt_prev, elt) && Conserved(head) && elt_prev != null
    ensures Setting(was, head.Contents(), c, (end - 1) / ALL_BITS + 1, start, end, false)
  {
    hide IntoAt, ContentsOf, head.Owned, Nodes, Conserved, Setting, head.Linked, head.CursorIn;
    ConservedStart(head);
    elt, elt_prev, c := elt0, prev0, c0;
    ghost var zero := zero0;
    var first_index, last_index := start / ALL_BITS, (end - 1) / ALL_BITS;
    var i := first_index;
    while i <= last_index
      invariant first_index <= i <= last_index + 1 && 0 <= c && IntoAt(head, c, elt_prev, elt) && Conserved(head)
      invariant Setting(was, head.Contents(), c, i, start, end, zero)
      invariant zero ==> elt != null && elt.indx == i
      invariant i > first_index ==> elt_prev != null && !zero
    {
      LastElement(i, end);
      FirstElement(i, start);
      ghost var own := ConservedParts(head);
      label L:
      elt, elt_prev := SetElement(head, elt, elt_prev, i, start, end, c, was, zero);
      ghost var now := ConservedParts@L(head);
      ConservedStep(head, own, now);
      zero, c := false, c + 1;
      i := i + 1;
    }
  }
}
