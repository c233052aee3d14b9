/** Single bits and ranges of bits. */
module BitmapBits {
  import opened BitmapWords
  import opened BitmapEntries
  import opened BitmapList
  import opened BitmapMerge
  import opened BitmapDifference

  // ---- the set after a change to one element ----

  lemma HasAt(s: seq<Entry>, p: nat, m: nat)
    requires Ordered(s) && p < |s| && m / ALL_BITS == s[p].indx
    ensures Has(s, m) <==> EntryHas(s[p], m)
  {
    hide WordsHave;
  }

  lemma HasMissing(s: seq<Entry>, m: nat)
    requires forall i :: 0 <= i < |s| ==> s[i].indx != m / ALL_BITS
    ensures !Has(s, m)
  {
    hide WordsHave;
  }

  lemma HasReplace(s: seq<Entry>, p: nat, e: Entry, m: nat)
    requires Ordered(s) && p < |s| && e.indx == s[p].indx
    ensures Has(s[p := e], m) <==> if m / ALL_BITS == e.indx then EntryHas(e, m) else Has(s, m)
  {
    hide WordsHave;
    if m / ALL_BITS == e.indx {
      HasAt(s[p := e], p, m);
    } else {
      assert forall i :: 0 <= i < |s| ==> EntryHas(s[p := e][i], m) == EntryHas(s[i], m);
    }
  }

  lemma HasInsert(s: seq<Entry>, p: nat, e: Entry, m: nat)
    requires p <= |s| && forall i :: 0 <= i < |s| ==> s[i].indx != e.indx
    ensures Has(s[..p] + [e] + s[p..], m) <==> if m / ALL_BITS == e.indx then EntryHas(e, m) else Has(s, m)
  {
    hide Has, WordsHave;
    HasConcat(s[..p] + [e], s[p..], m);
    HasConcat(s[..p], [e], m);
    HasConcat(s[..p], s[p..], m);
    assert s[..p] + s[p..] == s;
    HasOne(e, m);
    if m / ALL_BITS == e.indx {
      HasMissing(s, m);
    }
  }

  lemma HasRemove(s: seq<Entry>, p: nat, m: nat)
    requires Ordered(s) && p < |s|
    ensures Has(s[..p] + s[p + 1..], m) <==> m / ALL_BITS != s[p].indx && Has(s, m)
  {
    hide Has, WordsHave;
    HasConcat(s[..p], s[p + 1..], m);
    HasConcat(s[..p] + [s[p]], s[p + 1..], m);
    HasConcat(s[..p], [s[p]], m);
    HasOne(s[p], m);
    assert s[..p] + [s[p]] + s[p + 1..] == s;
    if m / ALL_BITS == s[p].indx {
      HasMissing(s[..p], m);
      HasMissing(s[p + 1..], m);
    }
  }

  lemma NormalReplace(s: seq<Entry>, p: nat, e: Entry)
    requires Normal(s) && p < |s| && e.indx == s[p].indx && |e.words| == ELEMENT_WORDS && e.words != ZERO_WORDS
    ensures Normal(s[p := e])
  {
  }

  lemma NormalRemove(s: seq<Entry>, p: nat)
    requires Normal(s) && p < |s|
    ensures Normal(s[..p] + s[p + 1..])
  {
  }

  // ---- one bit of an element ----

  lemma WordOf(n: nat)
    ensures n / WORD_BITS % ELEMENT_WORDS == n % ALL_BITS / WORD_BITS && n % WORD_BITS == n % ALL_BITS % WORD_BITS
    ensures n / WORD_BITS % ELEMENT_WORDS < ELEMENT_WORDS && n % WORD_BITS < WORD_BITS
  {
    var q, r := n / 128, n % 128;
    var h, l := r / 64, r % 64;
    assert n == 64 * (2 * q + h) + l && 0 <= h < 2 && 0 <= l < 64;
    Quotient(64, 2 * q + h, l, n);
    Quotient(2, q, h, 2 * q + h);
  }

  lemma Multiple(d: int, x: int)
    requires d >= 0
    ensures x >= 1 ==> d * x >= d
    ensures x <= -1 ==> d * x <= 0 - d
  {
  }

  lemma Quotient(d: nat, q: nat, r: nat, n: nat)
    requires n == d * q + r && r < d
    ensures n / d == q && n % d == r
  {
    assert d * (n / d) + n % d == n;
    assert d * (q - n / d) == n % d - r;
    Multiple(d, q - n / d);
  }

  lemma SameBit(j: nat, k: nat)
    requires j < ALL_BITS && k < ALL_BITS && j / WORD_BITS == k / WORD_BITS && j % WORD_BITS == k % WORD_BITS
    ensures j == k
  {
  }

  /** `bits[word_num] |= 1 << bit_num`. */
  lemma SetWords(ws: seq<Word>, n: nat, j: nat)
    requires |ws| == ELEMENT_WORDS && j < ALL_BITS
    ensures
      var k := n / WORD_BITS % ELEMENT_WORDS;
      WordsHave(ws[k := WordOr(ws[k], OneShl(n % WORD_BITS))], j) == (WordsHave(ws, j) || j == n % ALL_BITS)
  {
    hide Bit, OneShl, WordOr;
    WordOf(n);
    var k := n / WORD_BITS % ELEMENT_WORDS;
    OrBit(ws[k], OneShl(n % WORD_BITS), j % WORD_BITS);
    OneShlBit(n % WORD_BITS, j % WORD_BITS);
    if j / WORD_BITS == k && j % WORD_BITS == n % WORD_BITS {
      SameBit(j, n % ALL_BITS);
    }
  }

  /** `bits[word_num] &= ~(1 << bit_num)`. */
  lemma ClearWords(ws: seq<Word>, n: nat, j: nat)
    requires |ws| == ELEMENT_WORDS && j < ALL_BITS
    ensures
      var k := n / WORD_BITS % ELEMENT_WORDS;
      WordsHave(ws[k := WordAnd(ws[k], WordNot(OneShl(n % WORD_BITS)))], j) == (WordsHave(ws, j) && j != n % ALL_BITS)
  {
    hide Bit, OneShl, WordAnd, WordNot;
    WordOf(n);
    var k := n / WORD_BITS % ELEMENT_WORDS;
    AndBit(ws[k], WordNot(OneShl(n % WORD_BITS)), j % WORD_BITS);
    NotBit(OneShl(n % WORD_BITS), j % WORD_BITS);
    OneShlBit(n % WORD_BITS, j % WORD_BITS);
    if j / WORD_BITS == k && j % WORD_BITS == n % WORD_BITS {
      SameBit(j, n % ALL_BITS);
    }
  }

  lemma TestWords(ws: seq<Word>, n: nat)
    requires |ws| == ELEMENT_WORDS
    ensures
      var k := n / WORD_BITS % ELEMENT_WORDS;
      (WordShr(ws[k], n % WORD_BITS) & 1 != 0) == WordsHave(ws, n % ALL_BITS)
  {
    hide Bit, WordShr;
    WordOf(n);
    var k := n / WORD_BITS % ELEMENT_WORDS;
    ShrBit(ws[k], n % WORD_BITS, 0);
    LowBitTest(WordShr(ws[k], n % WORD_BITS));
  }

  // ---- single bits ----

  lemma NonZeroWord(ws: seq<Word>, k: nat)
    requires |ws| == ELEMENT_WORDS && k < ELEMENT_WORDS && ws[k] != 0
    ensures ws != ZERO_WORDS
  {
  }

  lemma SetNonZero(w: Word, b: nat)
    requires b < WORD_BITS
    ensures WordOr(w, OneShl(b)) != 0
  {
    hide OneShl, WordOr, Single;
    OneShlSingle(b);
    SingleNonZero(OneShl(b));
    OrZero(w, OneShl(b));
  }

  /** `Contents` with the given words in the element at `p`, which has the index of bit `n`. */
  ghost predicate IsChange(s: seq<Entry>, t: seq<Entry>, e: Entry) {
    Normal(t) && forall m: nat :: Has(t, m) <==> if m / ALL_BITS == e.indx then EntryHas(e, m) else Has(s, m)
  }

  lemma ReplaceChange(s: seq<Entry>, p: nat, e: Entry)
    requires Normal(s) && p < |s| && e.indx == s[p].indx && |e.words| == ELEMENT_WORDS && e.words != ZERO_WORDS
    ensures IsChange(s, s[p := e], e)
  {
    hide Has, EntryHas;
    NormalReplace(s, p, e);
    forall m: nat
      ensures Has(s[p := e], m) <==> if m / ALL_BITS == e.indx then EntryHas(e, m) else Has(s, m)
    {
      HasReplace(s, p, e, m);
    }
  }

  lemma RemoveChange(s: seq<Entry>, p: nat)
    requires Normal(s) && p < |s|
    ensures IsChange(s, s[..p] + s[p + 1..], Entry(s[p].indx, ZERO_WORDS))
  {
    hide Has, WordsHave;
    NormalRemove(s, p);
    forall m: nat
      ensures Has(s[..p] + s[p + 1..], m) <==> m / ALL_BITS != s[p].indx && Has(s, m)
      ensures !WordsHave(ZERO_WORDS, m % ALL_BITS)
    {
      HasRemove(s, p, m);
      ZeroWordsHave(m % ALL_BITS);
    }
  }

  lemma InsertChange(s: seq<Entry>, p: nat, e: Entry)
    requires Normal(s) && p <= |s| && |e.words| == ELEMENT_WORDS && e.words != ZERO_WORDS
    requires forall i :: 0 <= i < |s| ==> s[i].indx != e.indx
    requires Ordered(s[..p] + [e] + s[p..])
    ensures IsChange(s, s[..p] + [e] + s[p..], e)
  {
    hide Has, EntryHas;
    forall m: nat
      ensures Has(s[..p] + [e] + s[p..], m) <==> if m / ALL_BITS == e.indx then EntryHas(e, m) else Has(s, m)
    {
      HasInsert(s, p, e, m);
    }
  }

  /** `t` is `s` with bit `n` added, or removed. */
  ghost predicate OneBit(s: seq<Entry>, t: seq<Entry>, n: nat, on: bool) {
    Normal(t) && forall m: nat :: Has(t, m) <==> if m == n then on else Has(s, m)
  }

  lemma ChangeIsSet(s: seq<Entry>, t: seq<Entry>, n: nat, was: seq<Word>, words: seq<Word>)
    requires IsChange(s, t, Entry(n / ALL_BITS, words)) && |was| == ELEMENT_WORDS
    requires forall m: nat :: m / ALL_BITS == n / ALL_BITS ==> (Has(s, m) <==> WordsHave(was, m % ALL_BITS))
    requires var k := n / WORD_BITS % ELEMENT_WORDS; words == was[k := WordOr(was[k], OneShl(n % WORD_BITS))]
    ensures OneBit(s, t, n, true)
  {
    hide Has, WordsHave, OneShl, WordOr, Normal;
    forall m: nat
      ensures Has(t, m) <==> if m == n then true else Has(s, m)
    {
      SetWords(was, n, m % ALL_BITS);
    }
  }

  lemma ChangeIsClear(s: seq<Entry>, t: seq<Entry>, n: nat, was: seq<Word>, words: seq<Word>)
    requires IsChange(s, t, Entry(n / ALL_BITS, words)) && |was| == ELEMENT_WORDS
    requires forall m: nat :: m / ALL_BITS == n / ALL_BITS ==> (Has(s, m) <==> WordsHave(was, m % ALL_BITS))
    requires var k := n / WORD_BITS % ELEMENT_WORDS; words == was[k := WordAnd(was[k], WordNot(OneShl(n % WORD_BITS)))]
    ensures OneBit(s, t, n, false)
  {
    hide Has, WordsHave, OneShl, WordAnd, WordNot, Normal;
    forall m: nat
      ensures Has(t, m) <==> if m == n then false else Has(s, m)
    {
      ClearWords(was, n, m % ALL_BITS);
    }
  }

  /** What the set has in the range of one element. */
  lemma HasInElement(s: seq<Entry>, p: nat)
    requires Normal(s) && p < |s|
    ensures |s[p].words| == ELEMENT_WORDS
    ensures forall m: nat :: m / ALL_BITS == s[p].indx ==> (Has(s, m) <==> WordsHave(s[p].words, m % ALL_BITS))
  {
    hide Has, WordsHave;
    forall m: nat | m / ALL_BITS == s[p].indx
      ensures Has(s, m) <==> WordsHave(s[p].words, m % ALL_BITS)
    {
      HasAt(s, p, m);
    }
  }

  lemma HasNoElement(s: seq<Entry>, t: nat)
    requires forall i :: 0 <= i < |s| ==> s[i].indx != t
    ensures forall m: nat :: m / ALL_BITS == t ==> (Has(s, m) <==> WordsHave(ZERO_WORDS, m % ALL_BITS))
  {
    hide Has, WordsHave;
    forall m: nat | m / ALL_BITS == t
      ensures Has(s, m) <==> WordsHave(ZERO_WORDS, m % ALL_BITS)
    {
      HasMissing(s, m);
      ZeroWordsHave(m % ALL_BITS);
    }
  }

  /** An element that the cursor is on. */
  lemma Found(head: Bitmap, c: nat)
    requires head.Valid() && c < |head.elts|
    ensures |head.Contents()| == |head.elts| && Normal(head.Contents()) && head.Linked() && head.CursorOk()
    ensures head.Contents()[c] == Entry(head.elts[c].indx, head.elts[c].bits)
    ensures WriteAt(head, c, At(head.elts, c - 1), head.elts[c])
  {
    EntryAt(head.elts, c);
  }

  /** Replaces the words of the element at `c`, which must not become zero. */
  method Rewrite(head: Bitmap, ptr: Element, words: seq<Word>, ghost c: nat)
    requires head.Valid() && c < |head.elts| && ptr == head.elts[c] && |words| == ELEMENT_WORDS && words != ZERO_WORDS
    modifies ptr`bits
    ensures head.Valid() && c < |old(head.Contents())| && head.Contents() == old(head.Contents())[c := Entry(ptr.indx, words)]
  {
    hide head.Linked, ContentsOf, Ordered;
    ghost var nodes, free := Nodes(head.elts), head.obstack.free;
    Found(head, c);
    LinkedDistinct(head);
    ghost var s := head.Contents();
    ContentsAt(head.elts);
    ptr.bits := words;
    ContentsAt(head.elts);
    assert head.Contents() == s[c := Entry(ptr.indx, words)];
    NormalReplace(s, c, Entry(ptr.indx, words));
  }

  /** A new element with the given words, not yet in the list. */
  method NewElement(head: Bitmap, i: nat, words: seq<Word>) returns (node: Element)
    requires head.Valid() && forall k :: 0 <= k < |head.elts| ==> head.elts[k].indx != i
    modifies head.obstack, head.obstack.free
    ensures head.Valid() && head.Contents() == old(head.Contents()) && node.indx == i && node.bits == words
    ensures node !in head.elts && node !in head.obstack.free && head.obstack.free == old(head.obstack.free) - {node}
    ensures node in old(head.obstack.free) || fresh(node)
    ensures forall k :: 0 <= k < |head.elts| ==> head.elts[k].indx != i
  {
    hide ContentsOf, Normal, head.Linked;
    LinkedDistinct(head);
    node := head.Allocate(i);
    node.bits := words;
  }

  /** Adds an element with index `i`, which no element of the list has. */
  method AddElement(head: Bitmap, i: nat, words: seq<Word>) returns (node: Element, ghost p: nat)
    requires head.Valid() && |words| == ELEMENT_WORDS && words != ZERO_WORDS
    requires forall k :: 0 <= k < |head.elts| ==> head.elts[k].indx != i
    modifies head, head.obstack, head.Owned()
    ensures head.Valid() && Conserved(head) && IsChange(old(head.Contents()), head.Contents(), Entry(i, words))
    ensures p < |head.elts| && node == head.elts[p] && node.indx == i && head.current == node
  {
    hide ContentsOf, head.Linked, Ordered;
    ghost var s := head.Contents();
    IndicesOf(head, i);
    node := NewElement(head, i, words);
    ghost var free := head.obstack.free;
    p := head.ElementLink(node);
    assert head.elts[p] == node;
    InsertChange(s, p, Entry(i, words));
  }

  lemma IndicesOf(head: Bitmap, i: nat)
    requires forall k :: 0 <= k < |head.elts| ==> head.elts[k].indx != i
    ensures forall k :: 0 <= k < |head.Contents()| ==> head.Contents()[k].indx != i
  {
    ContentsAt(head.elts);
  }

  /** `FindBit` for a bitmap between operations. */
  method Find(head: Bitmap, bit: nat) returns (ptr: Element?, ghost c: nat)
    requires head.Valid()
    modifies head`current, head`indx
    ensures head.Valid() && head.Contents() == old(head.Contents()) && |head.Contents()| == |head.elts|
    ensures ptr != null ==>
      c < |head.elts| && ptr == head.elts[c] && ptr.indx == bit / ALL_BITS && head.Contents()[c] == Entry(ptr.indx, ptr.bits)
    ensures ptr == null ==> forall k :: 0 <= k < |head.elts| ==> head.elts[k].indx != bit / ALL_BITS
    ensures ptr == null && head.elts != [] ==> head.CursorAt(c) && head.NearestTo(c, bit / ALL_BITS)
  {
    hide head.Linked, ContentsOf;
    ptr, c := head.FindBit(bit);
    EntryAt(head.elts, c);
  }

  lemma SetChange(s: seq<Entry>, t: seq<Entry>, c: nat, n: nat, words: seq<Word>)
    requires Normal(s) && c < |s| && s[c].indx == n / ALL_BITS && IsChange(s, t, Entry(n / ALL_BITS, words))
    requires |s[c].words| == ELEMENT_WORDS ==>
      var k := n / WORD_BITS % ELEMENT_WORDS; words == s[c].words[k := WordOr(s[c].words[k], OneShl(n % WORD_BITS))]
    ensures OneBit(s, t, n, true)
  {
    hide Has, WordsHave, OneShl, WordOr, Ordered, NonZero;
    HasInElement(s, c);
    ChangeIsSet(s, t, n, s[c].words, words);
  }

  lemma ClearChange(s: seq<Entry>, t: seq<Entry>, c: nat, n: nat, words: seq<Word>)
    requires Normal(s) && c < |s| && s[c].indx == n / ALL_BITS && IsChange(s, t, Entry(n / ALL_BITS, words))
    requires |s[c].words| == ELEMENT_WORDS ==>
      var k := n / WORD_BITS % ELEMENT_WORDS; words == s[c].words[k := WordAnd(s[c].words[k], WordNot(OneShl(n % WORD_BITS)))]
    ensures OneBit(s, t, n, false)
  {
    hide Has, WordsHave, OneShl, WordAnd, WordNot, Ordered, NonZero;
    HasInElement(s, c);
    ChangeIsClear(s, t, n, s[c].words, words);
  }

  lemma AbsentSet(s: seq<Entry>, t: seq<Entry>, n: nat, words: seq<Word>)
    requires forall i :: 0 <= i < |s| ==> s[i].indx != n / ALL_BITS
    requires IsChange(s, t, Entry(n / ALL_BITS, words))
    requires var k := n / WORD_BITS % ELEMENT_WORDS; words == ZERO_WORDS[k := WordOr(0, OneShl(n % WORD_BITS))]
    ensures OneBit(s, t, n, true)
  {
    hide Has, WordsHave, OneShl, WordOr;
    HasNoElement(s, n / ALL_BITS);
    ChangeIsSet(s, t, n, ZERO_WORDS, words);
  }

  lemma OrWithZero(w: Word)
    ensures WordOr(0, w) == w
  {
  }

  lemma WordsLength(s: seq<Entry>, c: nat)
    requires Normal(s) && c < |s|
    ensures |s[c].words| == ELEMENT_WORDS && s[c].words != ZERO_WORDS
  {
  }

  /** Sets bit `bit`. */
  method BitmapSetBit(head: Bitmap, bit: nat)
    requires head.Valid()
    modifies head, head.obstack, head.Owned()
    ensures head.Valid() && Conserved(head) && OneBit(old(head.Contents()), head.Contents(), bit, true)
  {
    hide head.Valid, ContentsOf, IsChange, OneBit, OneShl, WordOr, Normal, head.NearestTo;
    ghost var s, own, nodes, free := head.Contents(), head.Owned(), Nodes(head.elts), head.obstack.free;
    ValidNormal(head);
    var word_num, bit_num := bit / WORD_BITS % ELEMENT_WORDS, bit % WORD_BITS;
    var bit_val := OneShl(bit_num);
    ghost var c, p;
    var ptr;
    ptr, c := Find(head, bit);
    SetNonZero(0, bit_num);
    OrWithZero(bit_val);
    if ptr == null {
      IndicesOf(head, bit / ALL_BITS);
      var words := ZERO_WORDS[word_num := bit_val];
      NonZeroWord(words, word_num);
      label L:
      ptr, p := AddElement(head, bit / ALL_BITS, words);
      AbsentSet(s, head.Contents(), bit, words);
      ghost var now := ConservedParts@L(head);
      ConservedStep(head, own, now);
    } else {
      WordsLength(s, c);
      SetNonZero(ptr.bits[word_num], bit_num);
      var words := ptr.bits[word_num := WordOr(ptr.bits[word_num], bit_val)];
      NonZeroWord(words, word_num);
      ReplaceChange(s, c, Entry(bit / ALL_BITS, words));
      InOwned(head, c);
      Rewrite(head, ptr, words, c);
      SetChange(s, head.Contents(), c, bit, words);
      ConservedStart(head);
    }
  }

  lemma InOwned(head: Bitmap, c: nat)
    requires c < |head.elts|
    ensures head.elts[c] in head.Owned()
  {
  }

  lemma ValidNormal(head: Bitmap)
    requires head.Valid()
    ensures Normal(head.Contents())
  {
  }

  /** Clears bit `bit`; an element that becomes empty is freed. */
  method BitmapClearBit(head: Bitmap, bit: nat)
    requires head.Valid()
    modifies head, head.obstack, head.Owned()
    ensures head.Valid() && Conserved(head) && OneBit(old(head.Contents()), head.Contents(), bit, false)
  {
    hide head.Valid, ContentsOf, IsChange, OneBit, OneShl, WordAnd, WordNot, Normal, head.NearestTo;
    ghost var s, own, nodes, free := head.Contents(), head.Owned(), Nodes(head.elts), head.obstack.free;
    ValidNormal(head);
    ghost var c;
    var ptr;
    ptr, c := Find(head, bit);
    if ptr != null {
      WordsLength(s, c);
      var bit_num, word_num := bit % WORD_BITS, bit / WORD_BITS % ELEMENT_WORDS;
      var words := ptr.bits[word_num := WordAnd(ptr.bits[word_num], WordNot(OneShl(bit_num)))];
      InOwned(head, c);
      if words[0] == 0 && words[1] == 0 {
        assert words == ZERO_WORDS;
        RemoveChange(s, c);
        FreeZero(head, ptr, words, c);
      } else {
        ReplaceChange(s, c, Entry(bit / ALL_BITS, words));
        Rewrite(head, ptr, words, c);
      }
      ClearChange(s, head.Contents(), c, bit, words);
      ConservedStart(head);
    } else {
      IndicesOf(head, bit / ALL_BITS);
      NothingToClear(s, bit);
      ConservedStart(head);
    }
  }

  lemma NothingToClear(s: seq<Entry>, n: nat)
    requires Normal(s) && forall i :: 0 <= i < |s| ==> s[i].indx != n / ALL_BITS
    ensures OneBit(s, s, n, false)
  {
    hide Has;
    HasMissing(s, n);
  }

  /** Stores the zero words and frees the element. */
  method FreeZero(head: Bitmap, ptr: Element, words: seq<Word>, ghost c: nat)
    requires head.Valid() && c < |head.elts| && ptr == head.elts[c] && words == ZERO_WORDS
    modifies head, head.obstack, head.Owned()
    ensures head.Valid() && c < |old(head.Contents())| && head.Owned() == old(head.Owned())
    ensures head.Contents() == old(head.Contents())[..c] + old(head.Contents())[c + 1..]
  {
    hide head.Linked, ContentsOf, head.CursorOk, Normal;
    ghost var s := head.Contents();
    Found(head, c);
    var prev := ptr.prev;
    FoundLinks(head, c);
    OverwriteNext(head, prev, ptr, ptr.indx, words, c);
    assert head.Contents()[..c] + head.Contents()[c + 1..] == s[..c] + s[c + 1..];
    RemoveElement(head, ptr, prev, c);
    NormalRemove(s, c);
  }

  lemma FoundLinks(head: Bitmap, c: nat)
    requires head.Linked() && c < |head.elts|
    ensures head.elts[c].prev == At(head.elts, c - 1) && head.elts[c].next == At(head.elts, c + 1)
  {
  }

  /** Whether bit `bit` is set. */
  method BitmapBitP(head: Bitmap, bit: nat) returns (r: bool)
    requires head.Valid()
    modifies head`current, head`indx
    ensures head.Valid() && head.Contents() == old(head.Contents())
    ensures r <==> Has(head.Contents(), bit)
  {
    hide head.Valid, ContentsOf, Has, Normal, WordsHave, WordShr, head.NearestTo;
    ValidNormal(head);
    ghost var c;
    var ptr;
    ptr, c := Find(head, bit);
    if ptr == null {
      IndicesOf(head, bit / ALL_BITS);
      HasMissing(head.Contents(), bit);
      return false;
    }
    WordsLength(head.Contents(), c);
    HasInElement(head.Contents(), c);
    TestWords(ptr.bits, bit);
    var bit_num, word_num := bit % WORD_BITS, bit / WORD_BITS % ELEMENT_WORDS;
    r := WordShr(ptr.bits[word_num], bit_num) & 1 != 0;
  }
}
