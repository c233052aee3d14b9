/** The iterators over one bitmap, over `a & b` and over `a & ~b`. */
module BitmapIterator {
  import opened BitmapWords
  import opened BitmapEntries
  import opened BitmapList
  import opened BitmapMerge
  import opened BitmapBits

  // ---- positions in a list of cells ----

  /** The bit number of bit 0 of word `w`. */
  function WordStart(e: Entry, w: nat): nat {
    e.indx * ALL_BITS + w * WORD_BITS
  }

  /** Bit `n` of a word that has none beyond its width. */
  predicate BitFrom(word: Word, n: nat) {
    n < WORD_BITS && Bit(word, n)
  }

  /** `bits` is `word` shifted down by `s` places. */
  ghost predicate Shifted(bits: Word, word: Word, s: nat) {
    forall j :: 0 <= j < WORD_BITS ==> Bit(bits, j) == BitFrom(word, s + j)
  }

  lemma ShiftedAt(bits: Word, word: Word, s: nat, j: nat)
    requires Shifted(bits, word, s) && j < WORD_BITS
    ensures Bit(bits, j) == BitFrom(word, s + j)
  {
  }

  lemma ShiftAgain(bits: Word, word: Word, s: nat)
    requires Shifted(bits, word, s)
    ensures Shifted(bits >> 1, word, s + 1)
  {
    hide Bit;
    var half := bits >> 1;
    forall j | 0 <= j < WORD_BITS
      ensures Bit(half, j) == BitFrom(word, s + 1 + j)
    {
      ShiftBits(bits, j);
      if j + 1 < WORD_BITS {
        ShiftedAt(bits, word, s, j + 1);
      }
    }
  }

  lemma ShiftStart(word: Word, s: nat)
    requires s < WORD_BITS
    ensures Shifted(WordShr(word, s), word, s)
  {
    hide Bit, WordShr;
    forall j | 0 <= j < WORD_BITS
      ensures Bit(WordShr(word, s), j) == BitFrom(word, s + j)
    {
      ShrBit(word, s, j);
    }
  }

  /** `bits` is what is left of word `w` of the cell from bit number `bit` on. */
  ghost predicate InWord(e: Entry, w: nat, bits: Word, bit: nat) {
    && w < ELEMENT_WORDS == |e.words|
    && WordStart(e, w) <= bit <= WordStart(e, w) + WORD_BITS
    && Shifted(bits, e.words[w], bit - WordStart(e, w))
  }

  lemma MemberOfWord(e: Entry, w: nat, b: nat)
    requires w < ELEMENT_WORDS == |e.words| && b < WORD_BITS
    ensures EntryHas(e, WordStart(e, w) + b) <==> Bit(e.words[w], b)
  {
    hide Bit;
    var n := WordStart(e, w) + b;
    Quotient(128, e.indx, w * WORD_BITS + b, n);
    Quotient(64, w, b, w * WORD_BITS + b);
  }

  /** No member from `lo` up to `hi`. */
  ghost predicate NoneIn(cells: seq<Entry>, lo: nat, hi: nat) {
    forall n: nat :: lo <= n < hi ==> !Has(cells, n)
  }

  ghost predicate NoneFrom(cells: seq<Entry>, lo: nat) {
    forall n: nat :: lo <= n ==> !Has(cells, n)
  }

  lemma NoneJoin(cells: seq<Entry>, lo: nat, mid: nat, hi: nat)
    requires NoneIn(cells, lo, mid) && NoneIn(cells, mid, hi)
    ensures NoneIn(cells, lo, hi)
  {
    hide Has;
  }

  /** Whether a bit of the current word is a member. */
  lemma MemberHere(cells: seq<Entry>, k: nat, w: nat, b: nat)
    requires Ordered(cells) && k < |cells| && w < ELEMENT_WORDS == |cells[k].words| && b < WORD_BITS
    ensures Has(cells, WordStart(cells[k], w) + b) <==> Bit(cells[k].words[w], b)
  {
    hide Bit, Has, EntryHas;
    var n := WordStart(cells[k], w) + b;
    Quotient(128, cells[k].indx, w * WORD_BITS + b, n);
    HasAt(cells, k, n);
    MemberOfWord(cells[k], w, b);
  }

  /** A word without bits has no members. */
  lemma EmptyWord(cells: seq<Entry>, k: nat, w: nat)
    requires Ordered(cells) && k < |cells| && w < ELEMENT_WORDS == |cells[k].words| && cells[k].words[w] == 0
    ensures NoneIn(cells, WordStart(cells[k], w), WordStart(cells[k], w) + WORD_BITS)
  {
    hide Bit, Has;
    forall n: nat | WordStart(cells[k], w) <= n < WordStart(cells[k], w) + WORD_BITS
      ensures !Has(cells, n)
    {
      var b := n - WordStart(cells[k], w);
      MemberHere(cells, k, w, b);
      ZeroHasNone(b);
    }
  }

  /** Nothing is left in the word once `bits` is zero. */
  lemma RestEmpty(cells: seq<Entry>, k: nat, w: nat, bit: nat)
    requires Ordered(cells) && k < |cells| && InWord(cells[k], w, 0, bit)
    ensures NoneIn(cells, bit, WordStart(cells[k], w) + WORD_BITS)
  {
    hide Bit, Has, Shifted;
    var s := bit - WordStart(cells[k], w);
    forall n: nat | bit <= n < WordStart(cells[k], w) + WORD_BITS
      ensures !Has(cells, n)
    {
      MemberHere(cells, k, w, n - WordStart(cells[k], w));
      ZeroHasNone(n - bit);
      ShiftedAt(0, cells[k].words[w], s, n - bit);
    }
  }

  /** Between two cells there are no members, and none behind the last. */
  lemma Gap(cells: seq<Entry>, k: nat)
    requires Ordered(cells) && k < |cells|
    ensures k + 1 < |cells| ==> NoneIn(cells, WordStart(cells[k], ELEMENT_WORDS), WordStart(cells[k + 1], 0))
    ensures k + 1 == |cells| ==> NoneFrom(cells, WordStart(cells[k], ELEMENT_WORDS))
  {
    hide Has;
    var lo := WordStart(cells[k], ELEMENT_WORDS);
    forall n: nat | lo <= n && (k + 1 < |cells| ==> n < WordStart(cells[k + 1], 0))
      ensures !Has(cells, n)
    {
      assert n / ALL_BITS > cells[k].indx && (k + 1 < |cells| ==> n / ALL_BITS < cells[k + 1].indx);
      HasMissing(cells, n);
    }
  }

  /** Before the first cell there are no members. */
  lemma BeforeFirst(cells: seq<Entry>, k: nat, lo: nat)
    requires Ordered(cells) && k < |cells| && forall i :: 0 <= i < k ==> cells[i].indx < lo / ALL_BITS
    ensures lo / ALL_BITS <= cells[k].indx ==> NoneIn(cells, lo, WordStart(cells[k], 0))
  {
    hide Has;
    forall n: nat | lo <= n < WordStart(cells[k], 0)
      ensures !Has(cells, n)
    {
      assert lo / ALL_BITS <= n / ALL_BITS < cells[k].indx;
      HasMissing(cells, n);
    }
  }

  lemma NoneAfterAll(cells: seq<Entry>, lo: nat)
    requires forall i :: 0 <= i < |cells| ==> cells[i].indx < lo / ALL_BITS
    ensures NoneFrom(cells, lo)
  {
    hide Has;
    forall n: nat | lo <= n
      ensures !Has(cells, n)
    {
      assert lo / ALL_BITS <= n / ALL_BITS;
      HasMissing(cells, n);
    }
  }

  lemma ShiftWord(e: Entry, w: nat, bits: Word, bit: nat)
    requires InWord(e, w, bits, bit) && bit < WordStart(e, w) + WORD_BITS
    ensures InWord(e, w, bits >> 1, bit + 1)
  {
    hide Shifted;
    ShiftAgain(bits, e.words[w], bit - WordStart(e, w));
  }

  lemma NonZeroInside(e: Entry, w: nat, bits: Word, bit: nat)
    requires InWord(e, w, bits, bit) && bits != 0
    ensures bit < WordStart(e, w) + WORD_BITS
  {
    hide Bit, Shifted;
    var j := LowBit(bits);
    ShiftedAt(bits, e.words[w], bit - WordStart(e, w), j);
  }

  lemma EnterWord(e: Entry, w: nat)
    requires w < ELEMENT_WORDS == |e.words|
    ensures InWord(e, w, e.words[w], WordStart(e, w))
  {
    hide Shifted, WordShr;
    ShiftStart(e.words[w], 0);
    assert WordShr(e.words[w], 0) == e.words[w] by {
      ShrZero(e.words[w]);
    }
  }

  lemma ShrZero(w: Word)
    ensures WordShr(w, 0) == w
  {
  }

  lemma EmptyRange(cells: seq<Entry>, lo: nat)
    ensures NoneIn(cells, lo, lo)
  {
  }

  lemma StepNone(cells: seq<Entry>, lo: nat, bit: nat)
    requires NoneIn(cells, lo, bit) && !Has(cells, bit)
    ensures NoneIn(cells, lo, bit + 1)
  {
    hide Has;
  }

  lemma LowestIsMember(cells: seq<Entry>, k: nat, w: nat, bits: Word, bit: nat)
    requires Ordered(cells) && k < |cells| && InWord(cells[k], w, bits, bit) && bit < WordStart(cells[k], w) + WORD_BITS
    ensures Has(cells, bit) <==> bits & 1 != 0
  {
    hide Bit, Has, Shifted;
    LowBitTest(bits);
    ShiftedAt(bits, cells[k].words[w], bit - WordStart(cells[k], w), 0);
    MemberHere(cells, k, w, bit - WordStart(cells[k], w));
  }

  /** `start_bit` rounded up to a word boundary. */
  function RoundUp(bit: nat): nat {
    (bit + WORD_BITS - 1) / WORD_BITS * WORD_BITS
  }

  lemma RoundsToWordEnd(e: Entry, w: nat, bit: nat)
    requires WordStart(e, w) < bit <= WordStart(e, w) + WORD_BITS
    ensures RoundUp(bit) == WordStart(e, w) + WORD_BITS
  {
    var q := 2 * e.indx + w;
    assert WordStart(e, w) == 64 * q;
    Quotient(64, q + 1, bit - 1 - 64 * q, bit + 63);
  }

  // ---- the iterator ----

  /** The state of a running iteration; `bit_no` is kept by the loop that drives it. */
  datatype Iterator = Iterator(elt1: Element?, elt2: Element?, wordNo: nat, bits: Word)

  /** The shared element of zero bits that stands in for an empty list. */
  ghost predicate IsZeroBits(e: Element)
    reads e
  {
    e.next == null && e.indx == 0 && e.bits == ZERO_WORDS
  }

  /** The list of `map`, whose contents are `A`. */
  ghost predicate Source(map_: Bitmap, A: seq<Entry>)
    reads map_`first, map_`elts, Nodes(map_.elts)
  {
    map_.Readable() && map_.Contents() == A && Normal(A)
  }

  lemma SourceAt(map_: Bitmap, A: seq<Entry>, i: nat)
    requires Source(map_, A)
    ensures |A| == |map_.elts| && map_.first == At(map_.elts, 0) && Normal(A) && Ordered(A)
    ensures i < |A| ==> map_.elts[i].next == At(map_.elts, i + 1) && A[i] == Entry(map_.elts[i].indx, map_.elts[i].bits)
    ensures i < |A| ==> |A[i].words| == ELEMENT_WORDS
  {
    EntryAt(map_.elts, i);
  }

  /** A call reports `bit` as the first member from `from` on, or that there is none. */
  ghost predicate Reported(cells: seq<Entry>, from: nat, found: bool, bit: nat) {
    if found then from <= bit && Has(cells, bit) && NoneIn(cells, from, bit) else NoneFrom(cells, from)
  }

  // ---- one bitmap ----

  /** The iterator's pointer is at element `i` of the list, or on the element of zero bits behind its end. */
  ghost predicate SetPointer(elt: Element?, map_: Bitmap, A: seq<Entry>, i: nat)
    reads map_`first, map_`elts, Nodes(map_.elts), if elt == null then {} else {elt}
  {
    Source(map_, A) && elt != null && (if i < |A| then elt == At(map_.elts, i) else IsZeroBits(elt))
  }

  /**
   * What `bits` and `bit_no` say about the cell at `k`, when the members from `from` on are still to come. Behind the
   * last cell there are none, and `bit_no` says nothing.
   */
  ghost predicate OnCell(cells: seq<Entry>, k: nat, w: nat, bits: Word, bit: nat, from: nat) {
    && w < ELEMENT_WORDS && Ordered(cells)
    && if k < |cells| then from == bit && InWord(cells[k], w, bits, bit) && (bit == WordStart(cells[k], w) ==> bits != 0)
       else bits == 0 && NoneFrom(cells, from)
  }

  /** Looks for the next word that is not zero in the cell at `k`, from word `w` on. */
  ghost predicate AtWord(cells: seq<Entry>, k: nat, w: nat, bit: nat, from: nat) {
    && Ordered(cells) && w <= ELEMENT_WORDS
    && if k < |cells| then bit == WordStart(cells[k], w) && from <= bit && NoneIn(cells, from, bit) else NoneFrom(cells, from)
  }

  lemma LeaveWord(cells: seq<Entry>, k: nat, w: nat, bit: nat, from: nat)
    requires OnCell(cells, k, w, 0, bit, from)
    ensures AtWord(cells, k, w + 1, RoundUp(bit), from)
  {
    hide Has, Shifted, Ordered;
    if k < |cells| {
      RestEmpty(cells, k, w, bit);
      RoundsToWordEnd(cells[k], w, bit);
    }
  }

  lemma SkipWord(cells: seq<Entry>, k: nat, w: nat, bit: nat, from: nat)
    requires AtWord(cells, k, w, bit, from) && w < ELEMENT_WORDS
    requires k < |cells| ==> |cells[k].words| == ELEMENT_WORDS && cells[k].words[w] == 0
    ensures AtWord(cells, k, w + 1, bit + WORD_BITS, from)
  {
    hide Has, Ordered, NoneIn, NoneFrom;
    if k < |cells| {
      EmptyWord(cells, k, w);
      NoneJoin(cells, from, bit, bit + WORD_BITS);
    }
  }

  lemma NextCell(cells: seq<Entry>, k: nat, bit: nat, from: nat)
    requires AtWord(cells, k, ELEMENT_WORDS, bit, from) && k < |cells|
    ensures k + 1 < |cells| ==> AtWord(cells, k + 1, 0, cells[k + 1].indx * ALL_BITS, from)
    ensures k + 1 == |cells| ==> NoneFrom(cells, from)
  {
    hide Has, Ordered, NoneIn, NoneFrom;
    Gap(cells, k);
    CellOrder(cells, k);
    if k + 1 < |cells| {
      NoneJoin(cells, from, bit, WordStart(cells[k + 1], 0));
    } else {
      NoneTail(cells, from, bit);
    }
  }

  lemma CellOrder(cells: seq<Entry>, k: nat)
    requires Ordered(cells) && k < |cells|
    ensures k + 1 < |cells| ==> WordStart(cells[k], ELEMENT_WORDS) <= WordStart(cells[k + 1], 0)
  {
  }

  lemma NoneTail(cells: seq<Entry>, lo: nat, mid: nat)
    requires NoneIn(cells, lo, mid) && NoneFrom(cells, mid)
    ensures NoneFrom(cells, lo)
  {
    hide Has;
  }

  /** On the way to the lowest bit of a word: no member from `from` up to `bit`, and some bit is left. */
  ghost predicate Seeking(cells: seq<Entry>, k: nat, w: nat, bits: Word, bit: nat, from: nat) {
    && Ordered(cells) && k < |cells| && InWord(cells[k], w, bits, bit) && bits != 0
    && bit < WordStart(cells[k], w) + WORD_BITS && from <= bit && NoneIn(cells, from, bit)
  }

  lemma SeekHere(cells: seq<Entry>, k: nat, w: nat, bits: Word, bit: nat, from: nat)
    requires OnCell(cells, k, w, bits, bit, from) && bits != 0
    ensures Seeking(cells, k, w, bits, bit, from)
  {
    hide Has, Shifted, Ordered;
    EmptyRange(cells, from);
    NonZeroInside(cells[k], w, bits, bit);
  }

  /** A word that is not zero has been found. */
  lemma SeekWord(cells: seq<Entry>, k: nat, w: nat, bits: Word, bit: nat, from: nat)
    requires AtWord(cells, k, w, bit, from) && w < ELEMENT_WORDS && k < |cells| && |cells[k].words| == ELEMENT_WORDS
    requires bits == cells[k].words[w] && bits != 0
    ensures Seeking(cells, k, w, bits, bit, from)
  {
    hide Has, Shifted, Ordered;
    EnterWord(cells[k], w);
  }

  lemma SeekStep(cells: seq<Entry>, k: nat, w: nat, bits: Word, bit: nat, from: nat)
    requires Seeking(cells, k, w, bits, bit, from) && bits & 1 == 0
    ensures Seeking(cells, k, w, bits >> 1, bit + 1, from)
  {
    hide Has, Shifted, Ordered, NoneIn;
    LowestIsMember(cells, k, w, bits, bit);
    StepNone(cells, from, bit);
    ShiftWord(cells[k], w, bits, bit);
    HalfIsLess(bits);
    NonZeroInside(cells[k], w, bits >> 1, bit + 1);
  }

  lemma SeekEnd(cells: seq<Entry>, k: nat, w: nat, bits: Word, bit: nat, from: nat)
    requires Seeking(cells, k, w, bits, bit, from) && bits & 1 != 0
    ensures OnCell(cells, k, w, bits, bit, bit) && Reported(cells, from, true, bit)
  {
    hide Has, Shifted, Ordered;
    LowestIsMember(cells, k, w, bits, bit);
  }

  lemma SeekBound(cells: seq<Entry>, k: nat, w: nat, bits: Word, bit: nat, from: nat)
    requires Seeking(cells, k, w, bits, bit, from)
    ensures k < |cells| && w < ELEMENT_WORDS && bit < WordStart(cells[k], w) + WORD_BITS
  {
  }

  lemma NonZero1(bits: Word)
    requires bits & 1 != 0
    ensures bits != 0
  {
  }

  lemma SetPointerParts(elt: Element?, map_: Bitmap, A: seq<Entry>, i: nat)
    requires SetPointer(elt, map_, A, i)
    ensures elt != null && Source(map_, A) && |elt.bits| == ELEMENT_WORDS && Ordered(A)
    ensures i < |A| ==> i < |map_.elts| && elt == map_.elts[i] && A[i] == Entry(elt.indx, elt.bits)
    ensures i < |A| ==> elt.next == At(map_.elts, i + 1)
    ensures i >= |A| ==> elt.next == null && elt.bits == ZERO_WORDS
    ensures |A| == |map_.elts|
  {
    SourceAt(map_, A, i);
  }

  lemma AtWordBound(cells: seq<Entry>, k: nat, w: nat, bit: nat, from: nat)
    requires AtWord(cells, k, w, bit, from)
    ensures w <= ELEMENT_WORDS && (k >= |cells| ==> NoneFrom(cells, from))
  {
  }

  lemma ReportAllNone(cells: seq<Entry>, from: nat, bit: nat)
    requires NoneFrom(cells, from)
    ensures Reported(cells, from, false, bit)
  {
  }

  lemma OnCellBound(cells: seq<Entry>, k: nat, w: nat, bits: Word, bit: nat, from: nat)
    requires OnCell(cells, k, w, bits, bit, from)
    ensures w < ELEMENT_WORDS
  {
  }

  /** `bmp_iter_set`: advances to the next member. */
  method BmpIterSet(bi0: Iterator, bit_no: nat, ghost map_: Bitmap, ghost A: seq<Entry>, ghost i0: nat, ghost from: nat)
    returns (found: bool, bi: Iterator, bit: nat, ghost i: nat)
    requires SetPointer(bi0.elt1, map_, A, i0) && OnCell(A, i0, bi0.wordNo, bi0.bits, bit_no, from) && i0 <= |A|
    ensures Reported(A, from, found, bit)
    ensures found ==> SetPointer(bi.elt1, map_, A, i) && OnCell(A, i, bi.wordNo, bi.bits, bit, bit) && bi.bits & 1 != 0 && i < |A|
  {
    hide SetPointer, Seeking, Has, Reported, OnCell, AtWord, Source, ContentsOf, Normal;
    found, bi, bit, i := true, bi0, bit_no, i0;
    OnCellBound(A, i, bi.wordNo, bi.bits, bit, from);
    if bi.bits != 0 {
      SeekHere(A, i, bi.wordNo, bi.bits, bit, from);
    } else {
      LeaveWord(A, i, bi.wordNo, bit, from);
      bit := RoundUp(bit);
      bi := bi.(wordNo := bi.wordNo + 1);
      label Search: while true
        invariant SetPointer(bi.elt1, map_, A, i) && AtWord(A, i, bi.wordNo, bit, from) && 0 <= i <= |A| && bi.wordNo <= ELEMENT_WORDS
        decreases |A| - i, ELEMENT_WORDS - bi.wordNo
      {
        SetPointerParts(bi.elt1, map_, A, i);
        if bi.wordNo != ELEMENT_WORDS {
          bi := bi.(bits := bi.elt1.bits[bi.wordNo]);
          if bi.bits != 0 {
            SeekWord(A, i, bi.wordNo, bi.bits, bit, from);
            break Search;
          }
          SkipWord(A, i, bi.wordNo, bit, from);
          bit := bit + WORD_BITS;
          bi := bi.(wordNo := bi.wordNo + 1);
        } else {
          AtWordBound(A, i, ELEMENT_WORDS, bit, from);
          if i < |A| {
            NextCell(A, i, bit, from);
            SetPointerNext(bi.elt1, map_, A, i);
          }
          bi := bi.(elt1 := bi.elt1.next);
          if bi.elt1 == null {
            ReportAllNone(A, from, bit);
            return false, bi, bit, i;
          }
          i := i + 1;
          bit := bi.elt1.indx * ALL_BITS;
          bi := bi.(wordNo := 0);
        }
      }
    }
    SeekBound(A, i, bi.wordNo, bi.bits, bit, from);
    while bi.bits & 1 == 0
      invariant SetPointer(bi.elt1, map_, A, i) && Seeking(A, i, bi.wordNo, bi.bits, bit, from) && 0 <= i < |A|
      decreases WordStart(A[i], bi.wordNo) + WORD_BITS - bit
    {
      SeekBound(A, i, bi.wordNo, bi.bits, bit, from);
      SeekStep(A, i, bi.wordNo, bi.bits, bit, from);
      bi := bi.(bits := bi.bits >> 1);
      bit := bit + 1;
    }
    SeekEnd(A, i, bi.wordNo, bi.bits, bit, from);
  }

  lemma SetPointerNext(elt: Element?, map_: Bitmap, A: seq<Entry>, i: nat)
    requires SetPointer(elt, map_, A, i) && i < |A|
    ensures elt != null && (elt.next == null <==> i + 1 == |A|)
    ensures elt.next != null ==> SetPointer(elt.next, map_, A, i + 1) && elt.next.indx == A[i + 1].indx
  {
    SourceAt(map_, A, i);
    SourceAt(map_, A, i + 1);
  }

  lemma CellNext(cells: seq<Entry>, k: nat, w: nat, bits: Word, bit: nat)
    requires OnCell(cells, k, w, bits, bit, bit) && bits & 1 != 0
    ensures OnCell(cells, k, w, bits >> 1, bit + 1, bit + 1)
  {
    hide Shifted, Ordered;
    NonZero1(bits);
    if k < |cells| {
      NonZeroInside(cells[k], w, bits, bit);
      ShiftWord(cells[k], w, bits, bit);
    }
  }

  /** `bmp_iter_next`: steps past the member just reported. */
  method BmpIterNext(bi0: Iterator, bit_no: nat, ghost cells: seq<Entry>, ghost k: nat) returns (bi: Iterator, bit: nat)
    requires OnCell(cells, k, bi0.wordNo, bi0.bits, bit_no, bit_no) && bi0.bits & 1 != 0
    ensures OnCell(cells, k, bi.wordNo, bi.bits, bit, bit) && bit == bit_no + 1 && bi == bi0.(bits := bi.bits)
  {
    hide OnCell;
    CellNext(cells, k, bi0.wordNo, bi0.bits, bit_no);
    bi := bi0.(bits := bi0.bits >> 1);
    bit := bit_no + 1;
  }

  /** Where an iteration from `start` on begins in the cell at `k`. */
  function StartIn(e: Entry, start: nat): nat {
    if e.indx != start / ALL_BITS then e.indx * ALL_BITS else start
  }

  lemma StartWord(e: Entry, start: nat)
    requires start / ALL_BITS <= e.indx
    ensures start <= StartIn(e, start) && StartIn(e, start) / ALL_BITS == e.indx
    ensures WordStart(e, StartIn(e, start) / WORD_BITS % ELEMENT_WORDS) + StartIn(e, start) % WORD_BITS == StartIn(e, start)
  {
    var s := StartIn(e, start);
    Quotient(128, e.indx, s - e.indx * 128, s);
    WordOf(s);
  }

  /** What the initialisation sets up is right, including the extra step when no bit is left in the first word. */
  lemma EnterCell(cells: seq<Entry>, k: nat, start: nat, w: nat, bits: Word, bit: nat)
    requires Ordered(cells) && k < |cells| && |cells[k].words| == ELEMENT_WORDS && start / ALL_BITS <= cells[k].indx
    requires forall i :: 0 <= i < k ==> cells[i].indx < start / ALL_BITS
    requires w == StartIn(cells[k], start) / WORD_BITS % ELEMENT_WORDS
    requires bits == WordShr(cells[k].words[w], StartIn(cells[k], start) % WORD_BITS)
    requires bit == StartIn(cells[k], start) + if bits == 0 then 1 else 0
    ensures OnCell(cells, k, w, bits, bit, bit) && NoneIn(cells, start, bit) && start <= bit
  {
    hide Has, Shifted, NoneIn, Ordered, WordShr;
    var s := StartIn(cells[k], start);
    StartWord(cells[k], start);
    WordOf(s);
    ShiftStart(cells[k].words[w], s % WORD_BITS);
    BeforeFirst(cells, k, start);
    EmptyRange(cells, start);
    if bits == 0 {
      LowestIsMember(cells, k, w, bits, s);
      ShiftAgain(0, cells[k].words[w], s % WORD_BITS);
      StepNone(cells, start, s);
    }
  }

  lemma {:induction false} ShrOfZero(b: nat)
    requires b < WORD_BITS
    ensures WordShr(0, b) == 0
  {
    if b > 0 {
      ShrOfZero(b - 1);
    }
  }

  lemma StartPointer(map_: Bitmap, A: seq<Entry>, i: nat, elt: Element?, zeroBits: Element)
    requires Source(map_, A) && i <= |A| && elt == At(map_.elts, i) && IsZeroBits(zeroBits)
    ensures elt != null ==> SetPointer(elt, map_, A, i)
    ensures elt == null ==> SetPointer(zeroBits, map_, A, i)
    ensures elt != null <==> i < |A|
  {
    SourceAt(map_, A, i);
  }

  /** The first element of the list whose index is at least `t`. */
  method FirstAtLeast(map_: Bitmap, t: nat, ghost A: seq<Entry>) returns (elt: Element?, ghost i: nat)
    requires Source(map_, A)
    ensures i <= |A| == |map_.elts| && elt == At(map_.elts, i)
    ensures forall m :: 0 <= m < i ==> A[m].indx < t
    ensures elt != null ==> i < |A| && elt.indx == A[i].indx >= t
  {
    hide Source, ContentsOf;
    i := 0;
    SourceAll(map_, A);
    SourceAt(map_, A, 0);
    elt := map_.first;
    while elt != null && elt.indx < t
      invariant 0 <= i <= |A| == |map_.elts| && elt == At(map_.elts, i)
      invariant forall m :: 0 <= m < i ==> A[m].indx < t
      decreases |A| - i
    {
      elt := elt.next;
      i := i + 1;
    }
  }

  /** `bmp_iter_set_init`: stands before the first member from `start_bit` on. */
  method BmpIterSetInit(map_: Bitmap, start_bit0: nat, zeroBits: Element, ghost A: seq<Entry>)
    returns (bi: Iterator, bit_no: nat, ghost i: nat, ghost from: nat)
    requires Source(map_, A) && IsZeroBits(zeroBits)
    ensures SetPointer(bi.elt1, map_, A, i) && OnCell(A, i, bi.wordNo, bi.bits, bit_no, from) && i <= |A|
    ensures NoneIn(A, start_bit0, from) && start_bit0 <= from
  {
    hide Source, Has, NoneIn, NoneFrom, InWord, Shifted, Ordered, SetPointer, WordShr;
    i := 0;
    var start_bit := start_bit0;
    SourceAt(map_, A, 0);
    var elt1 := map_.first;
    while elt1 != null && elt1.indx < start_bit / ALL_BITS
      invariant Source(map_, A) && 0 <= i <= |A| == |map_.elts| && elt1 == At(map_.elts, i) && IsZeroBits(zeroBits) && Ordered(A)
      invariant forall k :: 0 <= k < i ==> A[k].indx < start_bit / ALL_BITS
      decreases |A| - i
    {
      SourceAt(map_, A, i);
      elt1 := elt1.next;
      i := i + 1;
    }
    SourceAt(map_, A, i);
    StartPointer(map_, A, i, elt1, zeroBits);
    if elt1 == null {
      elt1 := zeroBits;
    }
    SetPointerParts(elt1, map_, A, i);
    if elt1.indx != start_bit / ALL_BITS {
      start_bit := elt1.indx * ALL_BITS;
    }
    WordOf(start_bit);
    var wordNo := start_bit / WORD_BITS % ELEMENT_WORDS;
    var bits := WordShr(elt1.bits[wordNo], start_bit % WORD_BITS);
    bi := Iterator(elt1, null, wordNo, bits);
    bit_no := start_bit + if bits == 0 then 1 else 0;
    from := if i < |A| then bit_no else start_bit0;
    if i < |A| {
      EnterCell(A, i, start_bit0, wordNo, bits, bit_no);
    } else {
      NoneAfterAll(A, start_bit0);
      EmptyRange(A, start_bit0);
      ShrOfZero(start_bit % WORD_BITS);
    }
  }

  // ---- whole iterations ----

  /** The members from `min` up to `from`, each once and in increasing order. */
  ghost predicate Listed(seen: seq<nat>, cells: seq<Entry>, min: nat, from: nat) {
    && (forall x, y :: 0 <= x < y < |seen| ==> seen[x] < seen[y])
    && forall n: nat :: n in seen <==> min <= n < from && Has(cells, n)
  }

  /** All the members from `min` on, each once and in increasing order. */
  ghost predicate AllListed(seen: seq<nat>, cells: seq<Entry>, min: nat) {
    && (forall x, y :: 0 <= x < y < |seen| ==> seen[x] < seen[y])
    && forall n: nat :: n in seen <==> min <= n && Has(cells, n)
  }

  lemma ListedStart(cells: seq<Entry>, min: nat, from: nat)
    requires NoneIn(cells, min, from)
    ensures Listed([], cells, min, from)
  {
    hide Has;
  }

  lemma ListedStep(seen: seq<nat>, cells: seq<Entry>, min: nat, from: nat, bit: nat)
    requires Listed(seen, cells, min, from) && Reported(cells, from, true, bit) && min <= from
    ensures Listed(seen + [bit], cells, min, bit + 1)
  {
    hide Has;
    var seen' := seen + [bit];
    forall n: nat
      ensures n in seen' <==> min <= n < bit + 1 && Has(cells, n)
    {
      assert n in seen' <==> n in seen || n == bit;
      assert from <= n < bit ==> !Has(cells, n);
    }
    forall x, y | 0 <= x < y < |seen'|
      ensures seen'[x] < seen'[y]
    {
      assert seen[x] in seen;
    }
  }

  lemma ListedEnd(seen: seq<nat>, cells: seq<Entry>, min: nat, from: nat, bit: nat)
    requires Listed(seen, cells, min, from) && Reported(cells, from, false, bit) && min <= from
    ensures AllListed(seen, cells, min)
  {
    hide Has;
  }

  lemma SourceOf(map_: Bitmap)
    requires Comparable(map_) && Normal(map_.Contents())
    ensures Source(map_, map_.Contents())
  {
  }

  lemma NormalOrdered(cells: seq<Entry>)
    requires Normal(cells)
    ensures Ordered(cells)
  {
  }

  /** A number no member reaches. */
  function TopOf(cells: seq<Entry>): nat {
    if cells == [] then 0 else (cells[|cells| - 1].indx + 1) * ALL_BITS
  }

  lemma BelowTop(cells: seq<Entry>, n: nat)
    requires Ordered(cells) && Has(cells, n)
    ensures n < TopOf(cells)
  {
    hide WordsHave;
    var i :| 0 <= i < |cells| && EntryHas(cells[i], n);
    assert cells[i].indx <= cells[|cells| - 1].indx;
  }

  lemma ReportedBelow(cells: seq<Entry>, from: nat, found: bool, bit: nat)
    requires Ordered(cells) && Reported(cells, from, found, bit)
    ensures found ==> from <= bit < TopOf(cells)
  {
    hide Has;
    if found {
      BelowTop(cells, bit);
    }
  }

  /** The numbers an `EXECUTE_IF_SET_IN_BITMAP` loop visits. */
  method ExecuteIfSetInBitmap(map_: Bitmap, min: nat, zeroBits: Element) returns (seen: seq<nat>)
    requires Comparable(map_) && Normal(map_.Contents()) && IsZeroBits(zeroBits)
    ensures AllListed(seen, map_.Contents(), min)
  {
    hide Has, NoneIn, NoneFrom, Ordered, OnCell, Listed, AllListed, Reported, SetPointer, Source, Comparable, Normal, ContentsOf;
    ghost var A := map_.Contents();
    SourceOf(map_);
    ghost var nodes := Nodes(map_.elts);
    var bi, found;
    var bit_no: nat;
    ghost var i: nat, from: nat;
    bi, bit_no, i, from := BmpIterSetInit(map_, min, zeroBits, A);
    ListedStart(A, min, from);
    seen := [];
    assert map_.Contents() == A;
    found, bi, bit_no, i := BmpIterSet(bi, bit_no, map_, A, i, from);
    NormalOrdered(A);
    ReportedBelow(A, from, found, bit_no);
    while found
      invariant map_.Contents() == A && min <= from
      invariant Listed(seen, A, min, from) && Reported(A, from, found, bit_no)
      invariant found ==> SetPointer(bi.elt1, map_, A, i) && OnCell(A, i, bi.wordNo, bi.bits, bit_no, bit_no) && bi.bits & 1 != 0 && i < |A|
      invariant found ==> bit_no < TopOf(A)
      decreases if found then TopOf(A) - bit_no else 0
    {
      ListedStep(seen, A, min, from, bit_no);
      seen := seen + [bit_no];
      bi, bit_no := BmpIterNext(bi, bit_no, A, i);
      from := bit_no;
      found, bi, bit_no, i := BmpIterSet(bi, bit_no, map_, A, i, from);
      ReportedBelow(A, from, found, bit_no);
    }
    ListedEnd(seen, A, min, from, bit_no);
  }

  // ---- two bitmaps: the cells that an iteration over a & b or a & ~b visits ----

  /**
   * The elements of `a & b`, or of `a & ~b`, that an iteration looks at. Unlike a merge it also visits elements
   * whose words turn out to be zero.
   */
  function Cells(op: Op, A: seq<Entry>, B: seq<Entry>): seq<Entry>
    requires op.And? || op.AndCompl?
    decreases |A| + |B|
  {
    if A == [] then [] else
    if B == [] then (if op.AndCompl? then A else []) else
    if B[0].indx < A[0].indx then Cells(op, A, B[1..]) else
    if A[0].indx < B[0].indx then (if op.AndCompl? then [A[0]] else []) + Cells(op, A[1..], B) else
    [Entry(A[0].indx, CellWords(op, A[0], B[0]))] + Cells(op, A[1..], B[1..])
  }

  function CellWords(op: Op, a: Entry, b: Entry): seq<Word> {
    if |a.words| == |b.words| == ELEMENT_WORDS then CombineWords(op, a.words, b.words) else ZERO_WORDS
  }

  /** Two words each and strictly increasing indices. */
  ghost predicate CellsOk(cells: seq<Entry>) {
    Ordered(cells) && forall k :: 0 <= k < |cells| ==> |cells[k].words| == ELEMENT_WORDS
  }

  lemma {:induction false} CellsFrom(op: Op, A: seq<Entry>, B: seq<Entry>, t: nat)
    requires (op.And? || op.AndCompl?) && Normal(A) && Normal(B) && From(A, t)
    ensures From(Cells(op, A, B), t) && CellsOk(Cells(op, A, B))
    decreases |A| + |B|
  {
    hide CombineWords;
    if A != [] && B != [] {
      if B[0].indx < A[0].indx {
        TailsNormal(B, 1);
        CellsFrom(op, A, B[1..], t);
      } else {
        TailNormal(A, 0);
        TailsNormal(B, 1);
        FromTail(A, t);
        var B' := if A[0].indx < B[0].indx then B else B[1..];
        CellsFrom(op, A[1..], B', t);
        CellsFrom(op, A[1..], B', A[0].indx + 1);
        CellsJoin(Cells(op, A, B), Cells(op, A[1..], B'), A[0].indx);
      }
    }
  }

  lemma CellsJoin(cells: seq<Entry>, rest: seq<Entry>, t: nat)
    requires CellsOk(rest) && From(rest, t + 1)
    requires cells == rest || (cells != [] && cells == [cells[0]] + rest && cells[0].indx == t && |cells[0].words| == ELEMENT_WORDS)
    ensures CellsOk(cells)
  {
  }

  /** The cells stand for the set that the operation makes of the two sets. */
  lemma {:induction false} CellsHas(op: Op, A: seq<Entry>, B: seq<Entry>, n: nat)
    requires (op.And? || op.AndCompl?) && Normal(A) && Normal(B)
    ensures Has(Cells(op, A, B), n) <==> Apply(op, Has(A, n), Has(B, n))
    decreases |A| + |B|
  {
    hide Has, EntryHas, Normal, CellWords;
    HasNone(n);
    if A != [] && B != [] {
      HeadHas(A, n);
      HeadHas(B, n);
      if B[0].indx < A[0].indx {
        CellsHas(op, A, B[1..], n);
        CellsHasSkip(A, B, n);
      } else if A[0].indx < B[0].indx {
        CellsHas(op, A[1..], B, n);
        HasConcat([A[0]], Cells(op, A[1..], B), n);
        HasOne(A[0], n);
        CellsHasSkip(B, A, n);
        assert [] + Cells(op, A[1..], B) == Cells(op, A[1..], B);
        EntryHasIndex(A[0], n);
      } else {
        CellsHas(op, A[1..], B[1..], n);
        var e := Entry(A[0].indx, CellWords(op, A[0], B[0]));
        HasConcat([e], Cells(op, A[1..], B[1..]), n);
        HasOne(e, n);
        CellHas(op, A, B, n);
        EntryHasIndex(A[0], n);
        EntryHasIndex(B[0], n);
        EntryHasIndex(e, n);
      }
    }
  }

  lemma EntryHasIndex(e: Entry, n: nat)
    ensures EntryHas(e, n) ==> n / ALL_BITS == e.indx
  {
  }

  lemma CellsHasSkip(A: seq<Entry>, B: seq<Entry>, n: nat)
    requires Normal(A) && A != [] && B != [] && B[0].indx < A[0].indx
    ensures n / ALL_BITS == B[0].indx ==> !Has(A, n)
  {
    hide Has;
    HeadHas(A, n);
  }

  lemma CellHas(op: Op, A: seq<Entry>, B: seq<Entry>, n: nat)
    requires (op.And? || op.AndCompl?) && Normal(A) && Normal(B) && A != [] && B != [] && A[0].indx == B[0].indx
    ensures n / ALL_BITS == A[0].indx ==>
      (EntryHas(Entry(A[0].indx, CellWords(op, A[0], B[0])), n) <==> Apply(op, EntryHas(A[0], n), EntryHas(B[0], n)))
  {
    hide CombineWords, WordsHave;
    NormalAt0(A);
    NormalAt0(B);
    CombineHas(op, A[0].words, B[0].words, n % ALL_BITS);
  }

  lemma NormalAt0(A: seq<Entry>)
    requires Normal(A) && A != []
    ensures |A[0].words| == ELEMENT_WORDS
  {
  }

  // ---- a & ~b ----

  /** The cell at positions `i` and `j` of `a & ~b`. */
  function ComplCell(A: seq<Entry>, i: nat, B: seq<Entry>, j: nat): Entry
    requires i < |A| && j <= |B|
  {
    if j < |B| && B[j].indx == A[i].indx then Entry(A[i].indx, CellWords(AndCompl, A[i], B[j])) else A[i]
  }

  lemma CellsStepCompl(A: seq<Entry>, i: nat, B: seq<Entry>, j: nat)
    requires Ordered(A) && i < |A| && j <= |B| && (j < |B| ==> B[j].indx >= A[i].indx)
    ensures Cells(AndCompl, A[i..], B[j..]) == [ComplCell(A, i, B, j)] + Cells(AndCompl, A[i + 1..], B[j..])
  {
    hide CellWords;
    assert A[i..][1..] == A[i + 1..];
    if j < |B| {
      assert B[j..][1..] == B[j + 1..];
    } else {
      assert A[i..] == [A[i]] + A[i + 1..];
    }
  }

  lemma {:induction false} CellsSkip(op: Op, A: seq<Entry>, i: nat, B: seq<Entry>, j: nat, j': nat)
    requires (op.And? || op.AndCompl?) && i < |A| && j <= j' <= |B| && forall m :: j <= m < j' ==> B[m].indx < A[i].indx
    ensures Cells(op, A[i..], B[j..]) == Cells(op, A[i..], B[j'..])
    decreases j' - j
  {
    hide CellWords;
    if j < j' {
      assert B[j..][1..] == B[j + 1..];
      CellsSkip(op, A, i, B, j + 1, j');
    }
  }

  /** What the pointers of an iteration over `a & ~b` stand for. */
  ghost predicate ComplAt(elt1: Element?, elt2: Element?, map1: Bitmap, map2: Bitmap, A: seq<Entry>, B: seq<Entry>, cells: seq<Entry>,
                          i: nat, j: nat, k: nat)
    reads map1`first, map1`elts, Nodes(map1.elts), map2`first, map2`elts, Nodes(map2.elts), if elt1 == null then {} else {elt1}
  {
    && SetPointer(elt1, map1, A, i) && Source(map2, B) && i <= |A| && j <= |B| && k <= |cells| && elt2 == At(map2.elts, j)
    && (i < |A| && j < |B| ==> B[j].indx >= A[i].indx) && CellsOk(cells)
    && if i < |A| then cells[k..] == Cells(AndCompl, A[i..], B[j..]) else k == |cells|
  }

  lemma ComplHere(elt1: Element?, elt2: Element?, map1: Bitmap, map2: Bitmap, A: seq<Entry>, B: seq<Entry>, cells: seq<Entry>,
                  i: nat, j: nat, k: nat, w: nat)
    requires ComplAt(elt1, elt2, map1, map2, A, B, cells, i, j, k) && w < ELEMENT_WORDS
    ensures i <= |A| && elt1 != null && |elt1.bits| == ELEMENT_WORDS && (elt2 != null ==> |elt2.bits| == ELEMENT_WORDS)
    ensures i < |A| <==> k < |cells|
    ensures k < |cells| ==> elt1.indx == cells[k].indx && |cells[k].words| == ELEMENT_WORDS
    ensures
      var word := if elt2 != null && elt2.indx == elt1.indx then WordAnd(elt1.bits[w], WordNot(elt2.bits[w])) else elt1.bits[w];
      word == if k < |cells| then cells[k].words[w] else 0
  {
    hide WordAnd, WordNot;
    SetPointerParts(elt1, map1, A, i);
    SourceAt(map2, B, j);
    if i < |A| {
      CellsStepCompl(A, i, B, j);
      assert cells[k] == cells[k..][0] == ComplCell(A, i, B, j);
    } else if elt2 != null {
      AndOfZero(WordNot(elt2.bits[w]));
    }
  }

  lemma AndOfZero(x: Word)
    ensures WordAnd(0, x) == 0 && WordAnd(x, 0) == 0
  {
  }

  /** The pointers after the step to the next element of `a` and the elements of `b` that are skipped. */
  lemma ComplMove(elt1: Element, elt2: Element?, map1: Bitmap, map2: Bitmap, A: seq<Entry>, B: seq<Entry>, cells: seq<Entry>,
                  i: nat, j: nat, k: nat, j': nat)
    requires ComplAt(elt1, elt2, map1, map2, A, B, cells, i, j, k) && i < |A| && elt1.next != null
    requires j <= j' <= |map2.elts| && forall m :: j <= m < j' ==> map2.elts[m].indx < elt1.next.indx
    requires j' < |map2.elts| ==> map2.elts[j'].indx >= elt1.next.indx
    ensures k + 1 < |cells| && cells[k + 1].indx == elt1.next.indx
    ensures ComplAt(elt1.next, At(map2.elts, j'), map1, map2, A, B, cells, i + 1, j', k + 1)
  {
    hide CellWords, Cells;
    SetPointerNext(elt1, map1, A, i);
    SourceAll(map2, B);
    CellsStepCompl(A, i, B, j);
    assert cells[k..][1..] == cells[k + 1..];
    CellsSkip(AndCompl, A, i + 1, B, j, j');
    CellsStepCompl(A, i + 1, B, j');
    assert cells[k + 1] == cells[k + 1..][0] == ComplCell(A, i + 1, B, j');
  }

  lemma SourceAll(map_: Bitmap, A: seq<Entry>)
    requires Source(map_, A)
    ensures |A| == |map_.elts| && Ordered(A)
    ensures forall k :: 0 <= k < |A| ==> map_.elts[k].next == At(map_.elts, k + 1) && map_.elts[k].indx == A[k].indx
  {
    ContentsAt(map_.elts);
  }

  lemma ComplLast(elt1: Element, elt2: Element?, map1: Bitmap, map2: Bitmap, A: seq<Entry>, B: seq<Entry>, cells: seq<Entry>,
                  i: nat, j: nat, k: nat)
    requires ComplAt(elt1, elt2, map1, map2, A, B, cells, i, j, k)
    ensures elt1.next == null <==> k + 1 >= |cells|
    ensures elt1.next == null && i < |A| ==> k + 1 == |cells|
    ensures j <= |map2.elts| && elt2 == At(map2.elts, j)
    ensures forall m :: 0 <= m < |map2.elts| ==> map2.elts[m].next == At(map2.elts, m + 1)
  {
    hide CellWords;
    SetPointerParts(elt1, map1, A, i);
    SourceAll(map2, B);
    if i < |A| {
      CellsStepCompl(A, i, B, j);
      SetPointerNext(elt1, map1, A, i);
      if i + 1 == |A| {
        assert Cells(AndCompl, A[i + 1..], B[j..]) == [];
        assert |cells[k..]| == 1;
      } else {
        NonEmptyCells(A, i + 1, B, j);
        assert |cells[k..]| >= 2;
      }
    }
  }

  lemma {:induction false} NonEmptyCells(A: seq<Entry>, i: nat, B: seq<Entry>, j: nat)
    requires i < |A| && j <= |B|
    ensures Cells(AndCompl, A[i..], B[j..]) != []
    decreases |B| - j
  {
    hide CellWords;
    if j < |B| {
      assert B[j..][1..] == B[j + 1..];
      NonEmptyCells(A, i, B, j + 1);
    }
  }

  /** Leaves an element whose words are all done, for the next element of `a`; or nothing is left. */
  method NextCompl(bi0: Iterator, bit_no: nat, ghost map1: Bitmap, ghost map2: Bitmap, ghost A: seq<Entry>, ghost B: seq<Entry>,
                   ghost cells: seq<Entry>, ghost i: nat, ghost j: nat, ghost k: nat, ghost from: nat)
    returns (more: bool, bi: Iterator, bit: nat, ghost j': nat)
    requires ComplAt(bi0.elt1, bi0.elt2, map1, map2, A, B, cells, i, j, k) && AtWord(cells, k, ELEMENT_WORDS, bit_no, from)
    ensures !more ==> Reported(cells, from, false, bit)
    ensures more ==> ComplAt(bi.elt1, bi.elt2, map1, map2, A, B, cells, i + 1, j', k + 1) && AtWord(cells, k + 1, 0, bit, from)
    ensures more ==> bi.wordNo == 0 && i < |A|
  {
    hide ComplAt, Has, Reported, AtWord, ContentsOf, Normal, Cells, WordAnd, WordNot, Ordered, NoneFrom, Nodes, Source;
    more, bi, bit, j' := true, bi0, bit_no, j;
    AtWordBound(cells, k, ELEMENT_WORDS, bit, from);
    ComplHere(bi.elt1, bi.elt2, map1, map2, A, B, cells, i, j, k, 0);
    ComplLast(bi.elt1, bi.elt2, map1, map2, A, B, cells, i, j, k);
    ComplSource(bi.elt1, bi.elt2, map1, map2, A, B, cells, i, j, k);
    if k < |cells| {
      NextCell(cells, k, bit, from);
    }
    var elt1 := bi.elt1.next;
    if elt1 == null {
      ReportAllNone(cells, from, bit);
      return false, bi, bit, j';
    }
    var elt2 := bi.elt2;
    while elt2 != null && elt2.indx < elt1.indx
      invariant j <= j' <= |map2.elts| && elt2 == At(map2.elts, j')
      invariant forall m :: j <= m < j' ==> map2.elts[m].indx < elt1.indx
      decreases |map2.elts| - j'
    {
      elt2 := elt2.next;
      j' := j' + 1;
    }
    ComplMove(bi.elt1, bi.elt2, map1, map2, A, B, cells, i, j, k, j');
    bit := elt1.indx * ALL_BITS;
    bi := Iterator(elt1, elt2, 0, bi.bits);
  }

  lemma ComplSource(elt1: Element?, elt2: Element?, map1: Bitmap, map2: Bitmap, A: seq<Entry>, B: seq<Entry>, cells: seq<Entry>,
                    i: nat, j: nat, k: nat)
    requires ComplAt(elt1, elt2, map1, map2, A, B, cells, i, j, k)
    ensures Source(map2, B) && i <= |A|
  {
  }

  /** Looks for the next word of `a & ~b` that is not zero. */
  method SeekCompl(bi0: Iterator, bit_no: nat, ghost map1: Bitmap, ghost map2: Bitmap, ghost A: seq<Entry>, ghost B: seq<Entry>,
                   ghost cells: seq<Entry>, ghost i0: nat, ghost j0: nat, ghost k0: nat, ghost from: nat)
    returns (found: bool, bi: Iterator, bit: nat, ghost i: nat, ghost j: nat, ghost k: nat)
    requires ComplAt(bi0.elt1, bi0.elt2, map1, map2, A, B, cells, i0, j0, k0)
    requires AtWord(cells, k0, bi0.wordNo, bit_no, from) && bi0.wordNo <= ELEMENT_WORDS
    ensures !found ==> Reported(cells, from, false, bit)
    ensures found ==> ComplAt(bi.elt1, bi.elt2, map1, map2, A, B, cells, i, j, k) && Seeking(cells, k, bi.wordNo, bi.bits, bit, from)
  {
    hide ComplAt, Seeking, Has, Reported, AtWord, ContentsOf, Normal, Cells, WordAnd, WordNot, Ordered, NoneFrom, Nodes;
    found, bi, bit, i, j, k := true, bi0, bit_no, i0, j0, k0;
    ComplSource(bi.elt1, bi.elt2, map1, map2, A, B, cells, i, j, k);
    while true
      invariant ComplAt(bi.elt1, bi.elt2, map1, map2, A, B, cells, i, j, k) && AtWord(cells, k, bi.wordNo, bit, from)
      invariant i <= |A| && bi.wordNo <= ELEMENT_WORDS
      decreases |A| - i, ELEMENT_WORDS - bi.wordNo
    {
      if bi.wordNo != ELEMENT_WORDS {
        ComplHere(bi.elt1, bi.elt2, map1, map2, A, B, cells, i, j, k, bi.wordNo);
        var bits := bi.elt1.bits[bi.wordNo];
        if bi.elt2 != null && bi.elt2.indx == bi.elt1.indx {
          bits := WordAnd(bits, WordNot(bi.elt2.bits[bi.wordNo]));
        }
        bi := bi.(bits := bits);
        if bi.bits != 0 {
          SeekWord(cells, k, bi.wordNo, bi.bits, bit, from);
          return;
        }
        SkipWord(cells, k, bi.wordNo, bit, from);
        bit := bit + WORD_BITS;
        bi := bi.(wordNo := bi.wordNo + 1);
      } else {
        found, bi, bit, j := NextCompl(bi, bit, map1, map2, A, B, cells, i, j, k, from);
        if !found {
          return;
        }
        i, k := i + 1, k + 1;
        ComplSource(bi.elt1, bi.elt2, map1, map2, A, B, cells, i, j, k);
      }
    }
  }

  /** `bmp_iter_and_compl`: advances to the next member of `a & ~b`. */
  method BmpIterAndCompl(bi0: Iterator, bit_no: nat, ghost map1: Bitmap, ghost map2: Bitmap, ghost A: seq<Entry>, ghost B: seq<Entry>,
                         ghost cells: seq<Entry>, ghost i0: nat, ghost j0: nat, ghost k0: nat, ghost from: nat)
    returns (found: bool, bi: Iterator, bit: nat, ghost i: nat, ghost j: nat, ghost k: nat)
    requires ComplAt(bi0.elt1, bi0.elt2, map1, map2, A, B, cells, i0, j0, k0)
    requires OnCell(cells, k0, bi0.wordNo, bi0.bits, bit_no, from)
    ensures Reported(cells, from, found, bit)
    ensures found ==> ComplAt(bi.elt1, bi.elt2, map1, map2, A, B, cells, i, j, k) && OnCell(cells, k, bi.wordNo, bi.bits, bit, bit)
    ensures found ==> bi.bits & 1 != 0
  {
    hide ComplAt, Seeking, Has, Reported, OnCell, AtWord, Source, ContentsOf, Normal, Cells, WordAnd, WordNot, Ordered, NoneFrom, Nodes,
      IsZeroBits;
    found, bi, bit, i, j, k := true, bi0, bit_no, i0, j0, k0;
    OnCellBound(cells, k, bi.wordNo, bi.bits, bit, from);
    ComplHere(bi.elt1, bi.elt2, map1, map2, A, B, cells, i, j, k, 0);
    if bi.bits != 0 {
      SeekHere(cells, k, bi.wordNo, bi.bits, bit, from);
    } else {
      LeaveWord(cells, k, bi.wordNo, bit, from);
      bit := RoundUp(bit);
      bi := bi.(wordNo := bi.wordNo + 1);
      found, bi, bit, i, j, k := SeekCompl(bi, bit, map1, map2, A, B, cells, i, j, k, from);
      if !found {
        return;
      }
    }
    SeekBound(cells, k, bi.wordNo, bi.bits, bit, from);
    while bi.bits & 1 == 0
      invariant ComplAt(bi.elt1, bi.elt2, map1, map2, A, B, cells, i, j, k) && Seeking(cells, k, bi.wordNo, bi.bits, bit, from)
      invariant k < |cells|
      decreases WordStart(cells[k], bi.wordNo) + WORD_BITS - bit
    {
      SeekBound(cells, k, bi.wordNo, bi.bits, bit, from);
      SeekStep(cells, k, bi.wordNo, bi.bits, bit, from);
      bi := bi.(bits := bi.bits >> 1);
      bit := bit + 1;
    }
    SeekEnd(cells, k, bi.wordNo, bi.bits, bit, from);
  }

  /** Iterating over `a & ~b` visits every element of `a`. */
  lemma {:induction false} ComplIndices(A: seq<Entry>, B: seq<Entry>)
    requires Ordered(A)
    ensures |Cells(AndCompl, A, B)| == |A| && forall m :: 0 <= m < |A| ==> Cells(AndCompl, A, B)[m].indx == A[m].indx
    decreases |A| + |B|
  {
    hide CellWords;
    if A != [] && B != [] {
      if B[0].indx < A[0].indx {
        ComplIndices(A, B[1..]);
      } else {
        OrderedTail(A);
        ComplIndices(A[1..], if A[0].indx < B[0].indx then B else B[1..]);
      }
    }
  }

  lemma {:induction false} ComplSuffix(A: seq<Entry>, B: seq<Entry>, i: nat)
    requires Ordered(A) && i < |A|
    ensures |Cells(AndCompl, A, B)| == |A| && Cells(AndCompl, A, B)[i..] == Cells(AndCompl, A[i..], B)
    decreases |A| + |B|
  {
    hide CellWords;
    ComplIndices(A, B);
    if i == 0 {
      assert A[0..] == A;
    } else if B != [] {
      if B[0].indx < A[0].indx {
        ComplSuffix(A, B[1..], i);
      } else {
        OrderedTail(A);
        assert A[1..][i - 1..] == A[i..];
        ComplSuffix(A[1..], if A[0].indx < B[0].indx then B else B[1..], i - 1);
      }
    }
  }

  /** Where the cells from `start` on begin. */
  lemma ComplStart(A: seq<Entry>, i: nat, B: seq<Entry>, j: nat, start: nat)
    requires Normal(A) && Normal(B) && i <= |A| && j <= |B|
    requires forall m :: 0 <= m < i ==> A[m].indx < start / ALL_BITS
    requires i < |A| ==> forall m :: 0 <= m < j ==> B[m].indx < A[i].indx
    ensures CellsOk(Cells(AndCompl, A, B)) && |Cells(AndCompl, A, B)| == |A|
    ensures forall m :: 0 <= m < i ==> Cells(AndCompl, A, B)[m].indx < start / ALL_BITS
    ensures i < |A| ==> Cells(AndCompl, A, B)[i].indx == A[i].indx
    ensures i < |A| ==> Cells(AndCompl, A, B)[i..] == Cells(AndCompl, A[i..], B[j..])
  {
    hide CellWords, Cells;
    CellsFromZero(AndCompl, A, B);
    ComplIndices(A, B);
    if i < |A| {
      ComplSuffix(A, B, i);
      assert B[0..] == B;
      CellsSkip(AndCompl, A, i, B, 0, j);
    }
  }

  lemma CellsFromZero(op: Op, A: seq<Entry>, B: seq<Entry>)
    requires (op.And? || op.AndCompl?) && Normal(A) && Normal(B)
    ensures CellsOk(Cells(op, A, B))
  {
    CellsFrom(op, A, B, 0);
  }

  /** `bmp_iter_and_compl_init`. */
  method BmpIterAndComplInit(map1: Bitmap, map2: Bitmap, start_bit0: nat, zeroBits: Element, ghost A: seq<Entry>, ghost B: seq<Entry>)
    returns (bi: Iterator, bit_no: nat, ghost i: nat, ghost j: nat, ghost from: nat)
    requires Source(map1, A) && Source(map2, B) && IsZeroBits(zeroBits) && Normal(A) && Normal(B)
    ensures ComplAt(bi.elt1, bi.elt2, map1, map2, A, B, Cells(AndCompl, A, B), i, j, i)
    ensures OnCell(Cells(AndCompl, A, B), i, bi.wordNo, bi.bits, bit_no, from)
    ensures NoneIn(Cells(AndCompl, A, B), start_bit0, from) && start_bit0 <= from
  {
    hide Source, NoneIn, SetPointer, Normal, Cells, OnCell, ComplAt, CellsOk;
    ghost var nodes1, nodes2 := Nodes(map1.elts), Nodes(map2.elts);
    SourceAll(map2, B);
    var first: Element?, elt2: Element?;
    first, i := FirstAtLeast(map1, start_bit0 / ALL_BITS, A);
    StartPointer(map1, A, i, first, zeroBits);
    var elt1 := if first == null then zeroBits else first;
    elt2, j := FirstAtLeast(map2, elt1.indx, B);
    ComplBegins(elt1, elt2, map1, map2, A, B, i, j, start_bit0);
    bi, bit_no, from := EnterCompl(elt1, elt2, map1, map2, start_bit0, A, B, i, j);
  }

  lemma ComplBegins(elt1: Element, elt2: Element?, map1: Bitmap, map2: Bitmap, A: seq<Entry>, B: seq<Entry>, i: nat, j: nat, start: nat)
    requires SetPointer(elt1, map1, A, i) && Source(map2, B) && Normal(A) && Normal(B)
    requires i <= |A| && j <= |B| && |B| == |map2.elts| && elt2 == At(map2.elts, j)
    requires forall m :: 0 <= m < i ==> A[m].indx < start / ALL_BITS
    requires forall m :: 0 <= m < j ==> B[m].indx < elt1.indx
    requires j < |B| ==> map2.elts[j].indx >= elt1.indx
    ensures ComplAt(elt1, elt2, map1, map2, A, B, Cells(AndCompl, A, B), i, j, i)
    ensures CellsOk(Cells(AndCompl, A, B)) && |Cells(AndCompl, A, B)| == |A|
    ensures forall m :: 0 <= m < i ==> Cells(AndCompl, A, B)[m].indx < start / ALL_BITS
    ensures i < |A| ==> elt1.indx == A[i].indx
  {
    hide Cells, Normal, Source, CellsOk, SetPointer;
    SetPointerParts(elt1, map1, A, i);
    SourceAll(map2, B);
    ComplStart(A, i, B, j, start);
  }

  /** The word of the first element that holds the start bit, shifted to it, or the element's first word. */
  method EnterCompl(elt1: Element, elt2: Element?, ghost map1: Bitmap, ghost map2: Bitmap, start_bit0: nat, ghost A: seq<Entry>,
                    ghost B: seq<Entry>, ghost i: nat, ghost j: nat)
    returns (bi: Iterator, bit_no: nat, ghost from: nat)
    requires Normal(A) && Normal(B) && ComplAt(elt1, elt2, map1, map2, A, B, Cells(AndCompl, A, B), i, j, i)
    requires CellsOk(Cells(AndCompl, A, B)) && |Cells(AndCompl, A, B)| == |A|
    requires forall m :: 0 <= m < i && m < |A| ==> Cells(AndCompl, A, B)[m].indx < start_bit0 / ALL_BITS
    requires i < |A| ==> elt1.indx >= start_bit0 / ALL_BITS
    ensures ComplAt(bi.elt1, bi.elt2, map1, map2, A, B, Cells(AndCompl, A, B), i, j, i)
    ensures OnCell(Cells(AndCompl, A, B), i, bi.wordNo, bi.bits, bit_no, from)
    ensures NoneIn(Cells(AndCompl, A, B), start_bit0, from) && start_bit0 <= from
  {
    hide Has, NoneIn, NoneFrom, InWord, Shifted, Ordered, WordShr, Normal, Cells, WordAnd, WordNot, OnCell, ComplAt, SetPointer;
    ghost var cells := Cells(AndCompl, A, B);
    var start_bit := start_bit0;
    if elt1.indx != start_bit / ALL_BITS {
      start_bit := elt1.indx * ALL_BITS;
    }
    WordOf(start_bit);
    var wordNo := start_bit / WORD_BITS % ELEMENT_WORDS;
    ComplHere(elt1, elt2, map1, map2, A, B, cells, i, j, i, wordNo);
    var bits := elt1.bits[wordNo];
    if elt2 != null && elt1.indx == elt2.indx {
      bits := WordAnd(bits, WordNot(elt2.bits[wordNo]));
    }
    bits := WordShr(bits, start_bit % WORD_BITS);
    bi := Iterator(elt1, elt2, wordNo, bits);
    bit_no := start_bit + if bits == 0 then 1 else 0;
    from := if i < |A| then bit_no else start_bit0;
    if i < |A| {
      EnterCell(cells, i, start_bit0, wordNo, bits, bit_no);
    } else {
      EnterNone(cells, start_bit0, wordNo, bits, start_bit % WORD_BITS, bit_no);
    }
  }

  lemma EnterNone(cells: seq<Entry>, start: nat, w: nat, bits: Word, b: nat, bit: nat)
    requires Ordered(cells) && w < ELEMENT_WORDS && b < WORD_BITS && bits == WordShr(0, b)
    requires forall i :: 0 <= i < |cells| ==> cells[i].indx < start / ALL_BITS
    ensures OnCell(cells, |cells|, w, bits, bit, start) && NoneIn(cells, start, start)
  {
    NoneAfterAll(cells, start);
    EmptyRange(cells, start);
    ShrOfZero(b);
  }

  /** The members of `a & ~b` (or of `a & b`) from `min` on, each once and in increasing order. */
  ghost predicate AllOf(seen: seq<nat>, op: Op, A: seq<Entry>, B: seq<Entry>, min: nat) {
    && (forall x, y :: 0 <= x < y < |seen| ==> seen[x] < seen[y])
    && forall n: nat :: n in seen <==> min <= n && Apply(op, Has(A, n), Has(B, n))
  }

  lemma AllOfCells(seen: seq<nat>, op: Op, A: seq<Entry>, B: seq<Entry>, min: nat)
    requires (op.And? || op.AndCompl?) && Normal(A) && Normal(B) && AllListed(seen, Cells(op, A, B), min)
    ensures AllOf(seen, op, A, B, min)
  {
    hide Has, Cells, Normal, Apply;
    forall n: nat
      ensures n in seen <==> min <= n && Apply(op, Has(A, n), Has(B, n))
    {
      CellsHas(op, A, B, n);
    }
  }

  /** The numbers an `EXECUTE_IF_AND_COMPL_IN_BITMAP` loop visits. */
  method ExecuteIfAndComplInBitmap(map1: Bitmap, map2: Bitmap, min: nat, zeroBits: Element) returns (seen: seq<nat>)
    requires Comparable(map1) && Normal(map1.Contents()) && Comparable(map2) && Normal(map2.Contents()) && IsZeroBits(zeroBits)
    ensures AllOf(seen, AndCompl, map1.Contents(), map2.Contents(), min)
  {
    hide Has, NoneIn, NoneFrom, Ordered, OnCell, Listed, AllListed, Reported, ComplAt, Source, Comparable, Normal, ContentsOf, Cells, AllOf;
    ghost var A, B := map1.Contents(), map2.Contents();
    SourceOf(map1);
    SourceOf(map2);
    ghost var nodes1, nodes2, cells := Nodes(map1.elts), Nodes(map2.elts), Cells(AndCompl, A, B);
    var bi, found;
    var bit_no: nat;
    ghost var i: nat, j: nat, k: nat, from: nat;
    bi, bit_no, i, j, from := BmpIterAndComplInit(map1, map2, min, zeroBits, A, B);
    ListedStart(cells, min, from);
    seen := [];
    CellsFromZero(AndCompl, A, B);
    found, bi, bit_no, i, j, k := BmpIterAndCompl(bi, bit_no, map1, map2, A, B, cells, i, j, i, from);
    ReportedBelow(cells, from, found, bit_no);
    while found
      invariant map1.Contents() == A && map2.Contents() == B && min <= from && Ordered(cells)
      invariant Listed(seen, cells, min, from) && Reported(cells, from, found, bit_no)
      invariant found ==> ComplAt(bi.elt1, bi.elt2, map1, map2, A, B, cells, i, j, k) && OnCell(cells, k, bi.wordNo, bi.bits, bit_no, bit_no)
      invariant found ==> bi.bits & 1 != 0 && from <= bit_no < TopOf(cells)
      decreases if found then TopOf(cells) - bit_no else 0
    {
      ListedStep(seen, cells, min, from, bit_no);
      seen := seen + [bit_no];
      bi, bit_no := BmpIterNext(bi, bit_no, cells, k);
      from := bit_no;
      found, bi, bit_no, i, j, k := BmpIterAndCompl(bi, bit_no, map1, map2, A, B, cells, i, j, k, from);
      ReportedBelow(cells, from, found, bit_no);
    }
    ListedEnd(seen, cells, min, from, bit_no);
    AllOfCells(seen, AndCompl, A, B, min);
  }

  // ---- a & b ----

  /** Both pointers are on elements, and the cells from `k` on are those of the two rests. */
  ghost predicate AndFree(elt1: Element?, elt2: Element?, map1: Bitmap, map2: Bitmap, A: seq<Entry>, B: seq<Entry>, cells: seq<Entry>,
                          i: nat, j: nat, k: nat)
    reads map1`first, map1`elts, Nodes(map1.elts), map2`first, map2`elts, Nodes(map2.elts)
  {
    && Source(map1, A) && Source(map2, B) && CellsOk(cells) && k <= |cells| && i < |A| && j < |B|
    && elt1 != null && elt1 == At(map1.elts, i) && elt2 != null && elt2 == At(map2.elts, j)
    && cells[k..] == Cells(And, A[i..], B[j..])
  }

  /** The same when the element of `a` at `i` has been dealt with. */
  ghost predicate AndNext(elt1: Element?, elt2: Element?, map1: Bitmap, map2: Bitmap, A: seq<Entry>, B: seq<Entry>, cells: seq<Entry>,
                          i: nat, j: nat, k: nat)
    reads map1`first, map1`elts, Nodes(map1.elts), map2`first, map2`elts, Nodes(map2.elts)
  {
    && Source(map1, A) && Source(map2, B) && CellsOk(cells) && k <= |cells| && i < |A| && j < |B|
    && elt1 != null && elt1 == At(map1.elts, i) && elt2 != null && elt2 == At(map2.elts, j)
    && cells[k..] == Cells(And, A[i + 1..], B[j..])
  }

  /** The iteration is on a common index, or before one, or on the element of zero bits with nothing to come. */
  ghost predicate AndAt(elt1: Element?, elt2: Element?, map1: Bitmap, map2: Bitmap, A: seq<Entry>, B: seq<Entry>, cells: seq<Entry>,
                        i: nat, j: nat, k: nat)
    reads map1`first, map1`elts, Nodes(map1.elts), map2`first, map2`elts, Nodes(map2.elts), if elt1 == null then {} else {elt1}
    reads if elt2 == null then {} else {elt2}
  {
    || (AndFree(elt1, elt2, map1, map2, A, B, cells, i, j, k) && elt1.indx <= elt2.indx)
    || (k == |cells| && CellsOk(cells) && elt1 != null && elt1 == elt2 && IsZeroBits(elt1) && Source(map1, A))
  }

  /** No member from `from` on before the cell at `k`. */
  ghost predicate GapBefore(cells: seq<Entry>, k: nat, from: nat) {
    if k < |cells| then from <= WordStart(cells[k], 0) && NoneIn(cells, from, WordStart(cells[k], 0)) else NoneFrom(cells, from)
  }

  lemma AndHere(elt1: Element?, elt2: Element?, map1: Bitmap, map2: Bitmap, A: seq<Entry>, B: seq<Entry>, cells: seq<Entry>,
                i: nat, j: nat, k: nat, w: nat)
    requires AndAt(elt1, elt2, map1, map2, A, B, cells, i, j, k) && w < ELEMENT_WORDS
    ensures elt1 != null && elt2 != null && |elt1.bits| == |elt2.bits| == ELEMENT_WORDS && k <= |cells| && Ordered(cells)
    ensures elt1.indx == elt2.indx ==> (k < |cells| ==> elt1.indx == cells[k].indx && |cells[k].words| == ELEMENT_WORDS)
    ensures elt1.indx == elt2.indx ==> WordAnd(elt1.bits[w], elt2.bits[w]) == if k < |cells| then cells[k].words[w] else 0
    ensures elt1.indx != elt2.indx ==> AndNext(elt1, elt2, map1, map2, A, B, cells, i, j, k)
    ensures elt1.indx == elt2.indx && k < |cells| ==> AndNext(elt1, elt2, map1, map2, A, B, cells, i, j, k + 1)
    ensures elt1.indx == elt2.indx && k >= |cells| ==> elt1.next == null
  {
    hide WordAnd, Cells;
    if AndFree(elt1, elt2, map1, map2, A, B, cells, i, j, k) && elt1.indx <= elt2.indx {
      SourceAt(map1, A, i);
      SourceAt(map2, B, j);
      if elt1.indx == elt2.indx {
        AndMatch(A, i, B, j);
        assert cells[k] == cells[k..][0];
        assert cells[k + 1..] == cells[k..][1..];
      } else {
        AndDrop(A, i, B, j);
      }
    } else {
      AndOfZero(0);
    }
  }

  lemma AndMatch(A: seq<Entry>, i: nat, B: seq<Entry>, j: nat)
    requires Ordered(A) && i < |A| && j < |B| && A[i].indx == B[j].indx
    ensures Cells(And, A[i..], B[j..]) == [Entry(A[i].indx, CellWords(And, A[i], B[j]))] + Cells(And, A[i + 1..], B[j..])
  {
    hide CellWords;
    assert A[i..][1..] == A[i + 1..] && B[j..][1..] == B[j + 1..];
  }

  lemma AndDrop(A: seq<Entry>, i: nat, B: seq<Entry>, j: nat)
    requires i < |A| && j < |B| && A[i].indx < B[j].indx
    ensures Cells(And, A[i..], B[j..]) == Cells(And, A[i + 1..], B[j..])
  {
    hide CellWords;
    assert A[i..][1..] == A[i + 1..];
  }

  /** The step to the next element of `a`. */
  lemma AndStepA(elt1: Element?, elt2: Element?, map1: Bitmap, map2: Bitmap, A: seq<Entry>, B: seq<Entry>, cells: seq<Entry>,
                 i: nat, j: nat, k: nat)
    requires AndNext(elt1, elt2, map1, map2, A, B, cells, i, j, k)
    ensures i < |A| && j < |B| && elt1 != null && elt2 != null && k <= |cells|
    ensures if elt1.next == null then k == |cells| else AndFree(elt1.next, elt2, map1, map2, A, B, cells, i + 1, j, k) && i + 1 < |A|
  {
    hide Cells;
    SourceAt(map1, A, i);
    if elt1.next == null {
      assert A[i + 1..] == [];
      CellsOfNone(B[j..], A);
      assert |cells[k..]| == 0;
    }
  }

  lemma CellsOfNone(B: seq<Entry>, A: seq<Entry>)
    ensures Cells(And, [], B) == [] && Cells(And, A, []) == []
  {
  }

  lemma AndLower(elt1: Element?, elt2: Element?, map1: Bitmap, map2: Bitmap, A: seq<Entry>, B: seq<Entry>, cells: seq<Entry>,
                 i: nat, j: nat, k: nat)
    requires AndFree(elt1, elt2, map1, map2, A, B, cells, i, j, k) && elt1.indx < elt2.indx
    ensures AndNext(elt1, elt2, map1, map2, A, B, cells, i, j, k)
  {
    hide Cells;
    SourceAt(map1, A, i);
    SourceAt(map2, B, j);
    AndDrop(A, i, B, j);
  }

  /** The step to the next element of `b`. */
  lemma AndStepB(elt1: Element?, elt2: Element?, map1: Bitmap, map2: Bitmap, A: seq<Entry>, B: seq<Entry>, cells: seq<Entry>,
                 i: nat, j: nat, k: nat)
    requires AndFree(elt1, elt2, map1, map2, A, B, cells, i, j, k) && elt2.indx < elt1.indx
    ensures elt2.next == null ==> k == |cells|
    ensures elt2.next != null ==> AndFree(elt1, elt2.next, map1, map2, A, B, cells, i, j + 1, k) && j + 1 < |B|
  {
    hide CellWords;
    SourceAt(map1, A, i);
    SourceAt(map2, B, j);
    assert B[j..][1..] == B[j + 1..];
    if elt2.next == null {
      assert B[j + 1..] == [];
      CellsOfNone([], A[i..]);
      assert |cells[k..]| == 0;
    }
  }

  lemma AndArrive(elt1: Element?, elt2: Element?, map1: Bitmap, map2: Bitmap, A: seq<Entry>, B: seq<Entry>, cells: seq<Entry>,
                  i: nat, j: nat, k: nat, from: nat)
    requires AndFree(elt1, elt2, map1, map2, A, B, cells, i, j, k) && elt1.indx == elt2.indx && GapBefore(cells, k, from)
    ensures AndAt(elt1, elt2, map1, map2, A, B, cells, i, j, k) && k < |cells| && AtWord(cells, k, 0, elt1.indx * ALL_BITS, from)
  {
    hide CellWords, NoneIn, Has;
    SourceAt(map1, A, i);
    SourceAt(map2, B, j);
    AndMatch(A, i, B, j);
    assert cells[k] == cells[k..][0];
  }

  lemma AndParts(elt1: Element?, elt2: Element?, map1: Bitmap, map2: Bitmap, A: seq<Entry>, B: seq<Entry>, cells: seq<Entry>,
                 i: nat, j: nat, k: nat)
    requires AndFree(elt1, elt2, map1, map2, A, B, cells, i, j, k)
    ensures elt1 != null && elt2 != null && i < |A| && j < |B|
  {
  }

  lemma GapNone(cells: seq<Entry>, k: nat, from: nat)
    requires GapBefore(cells, k, from) && k >= |cells|
    ensures NoneFrom(cells, from)
  {
  }

  lemma NoneGap(cells: seq<Entry>, k: nat, from: nat)
    requires NoneFrom(cells, from) && k >= |cells|
    ensures GapBefore(cells, k, from)
  {
  }

  lemma GapAfter(cells: seq<Entry>, k: nat, bit: nat, from: nat)
    requires AtWord(cells, k, ELEMENT_WORDS, bit, from) && k < |cells|
    ensures GapBefore(cells, k + 1, from)
  {
    hide Has, NoneIn, NoneFrom, Ordered;
    NextCell(cells, k, bit, from);
    if k + 1 < |cells| {
      AtWordStart(cells, k + 1, cells[k + 1].indx * ALL_BITS, from);
    }
  }

  lemma AtWordStart(cells: seq<Entry>, k: nat, bit: nat, from: nat)
    requires AtWord(cells, k, 0, bit, from) && k < |cells|
    ensures GapBefore(cells, k, from)
  {
    hide Has, NoneIn, NoneFrom, Ordered;
  }

  /** What is known about `bits` and `bit_no` of an iteration over `a & b`. */
  ghost predicate AndBits(elt1: Element?, elt2: Element?, cells: seq<Entry>, k: nat, w: nat, bits: Word, bit: nat, from: nat)
    reads if elt1 == null then {} else {elt1}, if elt2 == null then {} else {elt2}
  {
    && elt1 != null && elt2 != null
    && if elt1.indx == elt2.indx then OnCell(cells, k, w, bits, bit, from)
       else w == ELEMENT_WORDS - 1 && bits == 0 && GapBefore(cells, k, from)
  }

  lemma AndBitsParts(elt1: Element?, elt2: Element?, cells: seq<Entry>, k: nat, w: nat, bits: Word, bit: nat, from: nat)
    requires AndBits(elt1, elt2, cells, k, w, bits, bit, from)
    ensures elt1 != null && elt2 != null && w < ELEMENT_WORDS && (bits != 0 ==> elt1.indx == elt2.indx)
    ensures elt1.indx == elt2.indx ==> OnCell(cells, k, w, bits, bit, from)
    ensures elt1.indx != elt2.indx ==> w == ELEMENT_WORDS - 1 && GapBefore(cells, k, from)
  {
    hide NoneFrom, Ordered, InWord;
  }

  /** `bmp_iter_and`: advances to the next member of `a & b`. */
  method BmpIterAnd(bi0: Iterator, bit_no: nat, ghost map1: Bitmap, ghost map2: Bitmap, ghost A: seq<Entry>, ghost B: seq<Entry>,
                    ghost cells: seq<Entry>, ghost i0: nat, ghost j0: nat, ghost k0: nat, ghost from: nat)
    returns (found: bool, bi: Iterator, bit: nat, ghost i: nat, ghost j: nat, ghost k: nat)
    requires AndAt(bi0.elt1, bi0.elt2, map1, map2, A, B, cells, i0, j0, k0)
    requires AndBits(bi0.elt1, bi0.elt2, cells, k0, bi0.wordNo, bi0.bits, bit_no, from)
    ensures Reported(cells, from, found, bit)
    ensures found ==> AndAt(bi.elt1, bi.elt2, map1, map2, A, B, cells, i, j, k) && bi.elt1 != null && bi.elt2 != null
    ensures found ==> bi.elt1.indx == bi.elt2.indx && OnCell(cells, k, bi.wordNo, bi.bits, bit, bit) && bi.bits & 1 != 0
  {
    hide AndAt, AndFree, AndNext, Seeking, Has, Reported, OnCell, AtWord, Source, ContentsOf, Normal, Cells, WordAnd, Ordered, GapBefore,
      NoneFrom, AndBits;
    found, bi, bit, i, j, k := true, bi0, bit_no, i0, j0, k0;
    AndBitsParts(bi.elt1, bi.elt2, cells, k, bi.wordNo, bi.bits, bit, from);
    if bi.bits != 0 {
      SeekHere(cells, k, bi.wordNo, bi.bits, bit, from);
    } else {
      if bi.elt1.indx == bi.elt2.indx {
        LeaveWord(cells, k, bi.wordNo, bit, from);
      }
      bit := RoundUp(bit);
      bi := bi.(wordNo := bi.wordNo + 1);
      label Search: while true
        invariant AndAt(bi.elt1, bi.elt2, map1, map2, A, B, cells, i, j, k) && bi.elt1 != null && bi.elt2 != null && 0 <= i && 0 <= j && 0 <= k
        invariant bi.wordNo <= ELEMENT_WORDS
        invariant bi.elt1.indx == bi.elt2.indx ==> AtWord(cells, k, bi.wordNo, bit, from)
        invariant bi.elt1.indx != bi.elt2.indx ==> bi.wordNo == ELEMENT_WORDS && GapBefore(cells, k, from)
        decreases |A| - i, ELEMENT_WORDS - bi.wordNo
      {
        if bi.wordNo != ELEMENT_WORDS {
          AndHere(bi.elt1, bi.elt2, map1, map2, A, B, cells, i, j, k, bi.wordNo);
          bi := bi.(bits := WordAnd(bi.elt1.bits[bi.wordNo], bi.elt2.bits[bi.wordNo]));
          if bi.bits != 0 {
            SeekWord(cells, k, bi.wordNo, bi.bits, bit, from);
            break Search;
          }
          SkipWord(cells, k, bi.wordNo, bit, from);
          bit := bit + WORD_BITS;
          bi := bi.(wordNo := bi.wordNo + 1);
        } else {
          AndHere(bi.elt1, bi.elt2, map1, map2, A, B, cells, i, j, k, 0);
          if bi.elt1.indx == bi.elt2.indx {
            AtWordBound(cells, k, ELEMENT_WORDS, bit, from);
            if k < |cells| {
              GapAfter(cells, k, bit, from);
              k := k + 1;
            } else {
              NoneGap(cells, k, from);
            }
          }
          label Align: while true
            invariant 0 <= i && 0 <= j && 0 <= k && bi.elt1 != null && bi.elt2 != null && GapBefore(cells, k, from)
            invariant AndNext(bi.elt1, bi.elt2, map1, map2, A, B, cells, i, j, k) || (bi.elt1.next == null && k >= |cells|)
            decreases |A| - i
          {
            if AndNext(bi.elt1, bi.elt2, map1, map2, A, B, cells, i, j, k) {
              AndStepA(bi.elt1, bi.elt2, map1, map2, A, B, cells, i, j, k);
            }
            bi := bi.(elt1 := bi.elt1.next);
            if bi.elt1 == null {
              GapNone(cells, k, from);
              ReportAllNone(cells, from, bit);
              return false, bi, bit, i, j, k;
            }
            i := i + 1;
            if bi.elt1.indx < bi.elt2.indx {
              AndLower(bi.elt1, bi.elt2, map1, map2, A, B, cells, i, j, k);
              continue Align;
            }
            while bi.elt2.indx < bi.elt1.indx
              invariant AndFree(bi.elt1, bi.elt2, map1, map2, A, B, cells, i, j, k) && GapBefore(cells, k, from)
              invariant bi.elt1 != null && bi.elt2 != null && 0 <= j && 0 <= i < |A|
              decreases |B| - j
            {
              AndParts(bi.elt1, bi.elt2, map1, map2, A, B, cells, i, j, k);
              AndStepB(bi.elt1, bi.elt2, map1, map2, A, B, cells, i, j, k);
              bi := bi.(elt2 := bi.elt2.next);
              if bi.elt2 == null {
                GapNone(cells, k, from);
                ReportAllNone(cells, from, bit);
                return false, bi, bit, i, j, k;
              }
              j := j + 1;
            }
            if bi.elt1.indx == bi.elt2.indx {
              break Align;
            }
            AndLower(bi.elt1, bi.elt2, map1, map2, A, B, cells, i, j, k);
          }
          AndArrive(bi.elt1, bi.elt2, map1, map2, A, B, cells, i, j, k, from);
          bit := bi.elt1.indx * ALL_BITS;
          bi := bi.(wordNo := 0);
        }
      }
    }
    SeekBound(cells, k, bi.wordNo, bi.bits, bit, from);
    while bi.bits & 1 == 0
      invariant AndAt(bi.elt1, bi.elt2, map1, map2, A, B, cells, i, j, k) && Seeking(cells, k, bi.wordNo, bi.bits, bit, from)
      invariant 0 <= k < |cells| && bi.elt1 != null && bi.elt2 != null && bi.elt1.indx == bi.elt2.indx
      decreases WordStart(cells[k], bi.wordNo) + WORD_BITS - bit
    {
      SeekBound(cells, k, bi.wordNo, bi.bits, bit, from);
      SeekStep(cells, k, bi.wordNo, bi.bits, bit, from);
      bi := bi.(bits := bi.bits >> 1);
      bit := bit + 1;
    }
    SeekEnd(cells, k, bi.wordNo, bi.bits, bit, from);
  }

  /** The cells of `a & b` behind the first `i` elements of `a`. */
  lemma {:induction false} AndSuffix(A: seq<Entry>, B: seq<Entry>, i: nat, t: nat) returns (k: nat)
    requires Ordered(A) && i <= |A| && forall m :: 0 <= m < i ==> A[m].indx < t
    ensures k <= |Cells(And, A, B)| && Cells(And, A, B)[k..] == Cells(And, A[i..], B)
    ensures forall m :: 0 <= m < k ==> Cells(And, A, B)[m].indx < t
    decreases |A| + |B|
  {
    k := 0;
    AndUnfolds(A, B);
    hide CellWords, Cells, Ordered;
    if i == 0 {
      assert A[0..] == A;
    } else if B == [] {
      AndUnfolds(A[i..], B);
    } else if B[0].indx < A[0].indx {
      k := AndSuffix(A, B[1..], i, t);
      AndDrops(A, i, B);
    } else {
      OrderedTail(A);
      assert A[1..][i - 1..] == A[i..];
      if A[0].indx < B[0].indx {
        k := AndSuffix(A[1..], B, i - 1, t);
      } else {
        k := AndSuffix(A[1..], B[1..], i - 1, t);
        AndDrops(A, i, B);
        k := k + 1;
      }
    }
  }

  /** The first cell of `a & b`, if it has one. */
  lemma AndUnfolds(A: seq<Entry>, B: seq<Entry>)
    ensures A == [] || B == [] ==> Cells(And, A, B) == []
    ensures A != [] && B != [] ==>
              Cells(And, A, B) == if B[0].indx < A[0].indx then Cells(And, A, B[1..])
                                  else if A[0].indx < B[0].indx then Cells(And, A[1..], B)
                                  else [Entry(A[0].indx, CellWords(And, A[0], B[0]))] + Cells(And, A[1..], B[1..])
  {
    hide CellWords;
  }

  /** An element of `b` that is not behind the first of `a` meets none of those further on. */
  lemma AndDrops(A: seq<Entry>, i: nat, B: seq<Entry>)
    requires Ordered(A) && 0 < i <= |A| && B != [] && B[0].indx <= A[0].indx
    ensures Cells(And, A[i..], B[1..]) == Cells(And, A[i..], B)
  {
    AndUnfolds(A[i..], B);
    AndUnfolds(A[i..], B[1..]);
    hide Cells;
    if i < |A| {
      assert A[0].indx < A[i].indx;
    }
  }

  /** Where the cells from `start` on begin. */
  lemma AndStart(A: seq<Entry>, i: nat, B: seq<Entry>, j: nat, start: nat) returns (k: nat)
    requires Normal(A) && Normal(B) && i <= |A| && j <= |B|
    requires forall m :: 0 <= m < i ==> A[m].indx < start / ALL_BITS
    requires i < |A| ==> A[i].indx >= start / ALL_BITS && forall m :: 0 <= m < j ==> B[m].indx < A[i].indx
    ensures CellsOk(Cells(And, A, B)) && k <= |Cells(And, A, B)|
    ensures forall m :: 0 <= m < k ==> Cells(And, A, B)[m].indx < start / ALL_BITS
    ensures i < |A| ==> Cells(And, A, B)[k..] == Cells(And, A[i..], B[j..])
    ensures i == |A| || j == |B| ==> k == |Cells(And, A, B)|
    ensures k < |Cells(And, A, B)| ==> Cells(And, A, B)[k].indx >= start / ALL_BITS
  {
    hide CellWords, Cells;
    CellsFromZero(And, A, B);
    k := AndSuffix(A, B, i, start / ALL_BITS);
    if i < |A| {
      assert B[0..] == B;
      CellsSkip(And, A, i, B, 0, j);
      TailsNormal(A, i);
      TailsNormal(B, j);
      FromHere(A, i);
      CellsFrom(And, A[i..], B[j..], A[i].indx);
      if j == |B| {
        assert B[j..] == [];
        CellsOfNone([], A[i..]);
        assert |Cells(And, A, B)[k..]| == 0;
      }
      if k < |Cells(And, A, B)| {
        assert Cells(And, A, B)[k] == Cells(And, A, B)[k..][0];
      }
    } else {
      assert A[i..] == [];
      CellsOfNone(B, []);
      assert |Cells(And, A, B)[k..]| == 0;
    }
  }

  lemma AndPointers(elt1: Element?, elt2: Element?, map1: Bitmap, map2: Bitmap, A: seq<Entry>, B: seq<Entry>, cells: seq<Entry>,
                    i: nat, j: nat, k: nat, zeroBits: Element)
    requires Source(map1, A) && Source(map2, B) && IsZeroBits(zeroBits) && CellsOk(cells) && k <= |cells|
    requires i <= |A| == |map1.elts| && j <= |B| == |map2.elts| && elt1 == At(map1.elts, i)
    requires elt2 == if elt1 == null then null else At(map2.elts, j)
    requires elt2 != null ==> elt1.indx <= elt2.indx && cells[k..] == Cells(And, A[i..], B[j..])
    requires elt2 == null ==> k == |cells|
    ensures elt2 == null ==> AndAt(zeroBits, zeroBits, map1, map2, A, B, cells, i, j, k)
    ensures elt2 != null ==> elt1 != null && AndAt(elt1, elt2, map1, map2, A, B, cells, i, j, k)
  {
    hide Source, Cells, CellsOk;
  }

  /** `bmp_iter_and_init`. */
  method BmpIterAndInit(map1: Bitmap, map2: Bitmap, start_bit: nat, zeroBits: Element, ghost A: seq<Entry>, ghost B: seq<Entry>)
    returns (bi: Iterator, bit_no: nat, ghost i: nat, ghost j: nat, ghost k: nat, ghost from: nat)
    requires Source(map1, A) && Source(map2, B) && IsZeroBits(zeroBits) && Normal(A) && Normal(B)
    ensures AndAt(bi.elt1, bi.elt2, map1, map2, A, B, Cells(And, A, B), i, j, k)
    ensures AndBits(bi.elt1, bi.elt2, Cells(And, A, B), k, bi.wordNo, bi.bits, bit_no, from)
    ensures NoneIn(Cells(And, A, B), start_bit, from) && start_bit <= from
  {
    hide Source, NoneIn, Normal, Cells, AndAt, AndBits, CellsOk;
    ghost var cells, nodes1, nodes2 := Cells(And, A, B), Nodes(map1.elts), Nodes(map2.elts);
    var elt1: Element?, elt2: Element? := null, null;
    SourceAll(map2, B);
    elt1, i := FirstAtLeast(map1, start_bit / ALL_BITS, A);
    j := 0;
    if elt1 != null {
      elt2, j := FirstAtLeast(map2, elt1.indx, B);
    }
    k := AndStart(A, i, B, j, start_bit);
    AndPointers(elt1, elt2, map1, map2, A, B, cells, i, j, k, zeroBits);
    if elt2 == null {
      elt1, elt2 := zeroBits, zeroBits;
    }
    bi, bit_no, from := EnterAnd(elt1, elt2, map1, map2, start_bit, A, B, cells, i, j, k);
  }

  /** The second half of `bmp_iter_and_init`, once the elements have been found. */
  method EnterAnd(elt1: Element, elt2: Element, ghost map1: Bitmap, ghost map2: Bitmap, start_bit0: nat, ghost A: seq<Entry>,
                  ghost B: seq<Entry>, ghost cells: seq<Entry>, ghost i: nat, ghost j: nat, ghost k: nat)
    returns (bi: Iterator, bit_no: nat, ghost from: nat)
    requires AndAt(elt1, elt2, map1, map2, A, B, cells, i, j, k) && k <= |cells|
    requires forall m :: 0 <= m < k ==> cells[m].indx < start_bit0 / ALL_BITS
    requires k < |cells| ==> cells[k].indx >= start_bit0 / ALL_BITS
    requires elt1.indx != elt2.indx ==> elt1.indx >= start_bit0 / ALL_BITS
    ensures bi.elt1 == elt1 && bi.elt2 == elt2 && AndBits(elt1, elt2, cells, k, bi.wordNo, bi.bits, bit_no, from)
    ensures AndAt(elt1, elt2, map1, map2, A, B, cells, i, j, k)
    ensures NoneIn(cells, start_bit0, from) && start_bit0 <= from
  {
    hide AndAt, Has, NoneIn, NoneFrom, InWord, Shifted, Ordered, WordShr, WordAnd, OnCell;
    AndHere(elt1, elt2, map1, map2, A, B, cells, i, j, k, 0);
    var start_bit, wordNo, bits := start_bit0, 0, 0;
    if elt1.indx == elt2.indx {
      if elt1.indx != start_bit / ALL_BITS {
        start_bit := elt1.indx * ALL_BITS;
      }
      WordOf(start_bit);
      wordNo := start_bit / WORD_BITS % ELEMENT_WORDS;
      AndHere(elt1, elt2, map1, map2, A, B, cells, i, j, k, wordNo);
      bits := WordShr(WordAnd(elt1.bits[wordNo], elt2.bits[wordNo]), start_bit % WORD_BITS);
      bit_no := start_bit + if bits == 0 then 1 else 0;
      from := if k < |cells| then bit_no else start_bit0;
      if k < |cells| {
        EnterCell(cells, k, start_bit0, wordNo, bits, bit_no);
      } else {
        EnterNone(cells, start_bit0, wordNo, bits, start_bit % WORD_BITS, bit_no);
      }
    } else {
      wordNo, bits := ELEMENT_WORDS - 1, 0;
      bit_no := start_bit + if bits == 0 then 1 else 0;
      from := start_bit0;
      EmptyRange(cells, start_bit0);
      AndAhead(elt1, elt2, map1, map2, A, B, cells, i, j, k);
      GapStart(cells, k, start_bit0);
    }
    bi := Iterator(elt1, elt2, wordNo, bits);
  }

  lemma GapStart(cells: seq<Entry>, k: nat, start: nat)
    requires Ordered(cells) && k <= |cells| && forall m :: 0 <= m < k ==> cells[m].indx < start / ALL_BITS
    ensures k < |cells| && cells[k].indx > start / ALL_BITS ==> GapBefore(cells, k, start)
    ensures k == |cells| ==> GapBefore(cells, k, start)
  {
    hide NoneIn, NoneFrom, Has, Ordered;
    if k < |cells| {
      BeforeFirst(cells, k, start);
    } else {
      NoneAfterAll(cells, start);
    }
  }

  /** Before a common index, the next cell is behind the current element of `a`. */
  lemma AndAhead(elt1: Element?, elt2: Element?, map1: Bitmap, map2: Bitmap, A: seq<Entry>, B: seq<Entry>, cells: seq<Entry>,
                 i: nat, j: nat, k: nat)
    requires AndNext(elt1, elt2, map1, map2, A, B, cells, i, j, k)
    ensures elt1 != null && (k < |cells| ==> cells[k].indx > elt1.indx)
  {
    hide Cells;
    SourceAt(map1, A, i);
    SourceAt(map2, B, j);
    TailNormal(A, i);
    TailsNormal(B, j);
    CellsFrom(And, A[i + 1..], B[j..], A[i].indx + 1);
    if k < |cells| {
      assert cells[k] == cells[k..][0];
    }
  }

  /** The numbers an `EXECUTE_IF_AND_IN_BITMAP` loop visits. */
  method ExecuteIfAndInBitmap(map1: Bitmap, map2: Bitmap, min: nat, zeroBits: Element) returns (seen: seq<nat>)
    requires Comparable(map1) && Normal(map1.Contents()) && Comparable(map2) && Normal(map2.Contents()) && IsZeroBits(zeroBits)
    ensures AllOf(seen, And, map1.Contents(), map2.Contents(), min)
  {
    hide Has, NoneIn, NoneFrom, Ordered, OnCell, Listed, AllListed, Reported, AndAt, AndBits, Source, Comparable, Normal, ContentsOf, Cells,
      AllOf;
    ghost var A, B := map1.Contents(), map2.Contents();
    SourceOf(map1);
    SourceOf(map2);
    ghost var nodes1, nodes2, cells := Nodes(map1.elts), Nodes(map2.elts), Cells(And, A, B);
    var bi, found;
    var bit_no: nat;
    ghost var i: nat, j: nat, k: nat, from: nat;
    bi, bit_no, i, j, k, from := BmpIterAndInit(map1, map2, min, zeroBits, A, B);
    ListedStart(cells, min, from);
    seen := [];
    CellsFromZero(And, A, B);
    found, bi, bit_no, i, j, k := BmpIterAnd(bi, bit_no, map1, map2, A, B, cells, i, j, k, from);
    ReportedBelow(cells, from, found, bit_no);
    while found
      invariant map1.Contents() == A && map2.Contents() == B && min <= from && Ordered(cells)
      invariant Listed(seen, cells, min, from) && Reported(cells, from, found, bit_no)
      invariant found ==> AndAt(bi.elt1, bi.elt2, map1, map2, A, B, cells, i, j, k) && OnCell(cells, k, bi.wordNo, bi.bits, bit_no, bit_no)
      invariant found ==> bi.elt1 != null && bi.elt2 != null && bi.elt1.indx == bi.elt2.indx
      invariant found ==> bi.bits & 1 != 0 && from <= bit_no < TopOf(cells)
      decreases if found then TopOf(cells) - bit_no else 0
    {
      ListedStep(seen, cells, min, from, bit_no);
      seen := seen + [bit_no];
      bi, bit_no := BmpIterNext(bi, bit_no, cells, k);
      from := bit_no;
      AndBitsHere(bi.elt1, bi.elt2, cells, k, bi.wordNo, bi.bits, bit_no);
      found, bi, bit_no, i, j, k := BmpIterAnd(bi, bit_no, map1, map2, A, B, cells, i, j, k, from);
      ReportedBelow(cells, from, found, bit_no);
    }
    ListedEnd(seen, cells, min, from, bit_no);
    AllOfCells(seen, And, A, B, min);
  }

  lemma AndBitsHere(elt1: Element?, elt2: Element?, cells: seq<Entry>, k: nat, w: nat, bits: Word, bit: nat)
    requires elt1 != null && elt2 != null && elt1.indx == elt2.indx && OnCell(cells, k, w, bits, bit, bit)
    ensures AndBits(elt1, elt2, cells, k, w, bits, bit, bit)
  {
    hide OnCell;
  }
}
