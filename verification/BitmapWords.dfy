/** The bit words of a bitmap element, for a 64-bit `long`. */
module BitmapWords {

  type Word = bv64
  const WORD_BITS: nat := 64
  const ELEMENT_WORDS: nat := 2
  const ALL_BITS: nat := 128
  const ZERO_WORDS: seq<Word> := [0, 0]

  /** `1 << j` for a bit number `j`. */
  function OneShl(j: nat): Word
    requires j < WORD_BITS
  {
    ShiftedOne(j as bv6)
  }

  function ShiftedOne(k: bv6): Word {
    (1 as Word) << k
  }

  /** Bit `j` of the word is set. */
  predicate Bit(w: Word, j: nat)
    requires j < WORD_BITS
  {
    Meets(w, OneShl(j))
  }

  predicate Meets(w: Word, p: Word) {
    w & p != 0
  }

  function WordAnd(a: Word, b: Word): Word { a & b }
  function WordOr(a: Word, b: Word): Word { a | b }
  function WordXor(a: Word, b: Word): Word { a ^ b }
  function WordNot(a: Word): Word { !a }

  predicate Single(p: Word) {
    p != 0 && p & (p - 1) == 0
  }

  lemma OneShlSingle(j: nat)
    requires j < WORD_BITS
    ensures Single(OneShl(j))
  {
  }

  lemma OneShlNext(j: nat)
    requires j < WORD_BITS - 1
    ensures OneShl(j + 1) == OneShl(j) << 1
  {
    hide ShiftedOne;
    NextAmount(j);
    ShiftedTwice(j as bv6);
  }

  lemma NextAmount(j: nat)
    requires j < WORD_BITS - 1
    ensures (j + 1) as bv6 == (j as bv6) + 1
    ensures j as bv6 < 63
  {
    var k := j as bv6;
    SmallAmount(j);
    AmountOf(j);
    AmountAfter(k);
    AmountBack(k + 1);
  }

  lemma SmallAmount(j: nat)
    requires j < WORD_BITS - 1
    ensures j as bv6 < 63
  {}

  lemma AmountOf(j: nat)
    requires j < WORD_BITS
    ensures (j as bv6) as nat == j
  {}

  lemma AmountAfter(k: bv6)
    requires k < 63
    ensures (k + 1) as nat == k as nat + 1
  {}

  lemma AmountBack(k: bv6)
    ensures (k as nat) as bv6 == k
  {}

  lemma ShiftedTwice(k: bv6)
    requires k < 63
    ensures ShiftedOne(k + 1) == ShiftedOne(k) << 1
  {
  }

  lemma SingleNonZero(p: Word)
    requires Single(p)
    ensures p != 0
  {
  }

  lemma SingleAnd(a: Word, b: Word, p: Word)
    requires Single(p)
    ensures Meets(a & b, p) == (Meets(a, p) && Meets(b, p))
  {
  }

  lemma SingleXor(a: Word, b: Word, p: Word)
    requires Single(p)
    ensures Meets(a ^ b, p) == (Meets(a, p) != Meets(b, p))
  {
  }

  lemma OrAnd(a: Word, b: Word, p: Word)
    ensures Meets(a | b, p) == (Meets(a, p) || Meets(b, p))
  {
    assert (a | b) & p == (a & p) | (b & p);
  }

  lemma SingleNot(a: Word, p: Word)
    requires Single(p)
    ensures Meets(!a, p) == !Meets(a, p)
  {
  }

  // The bits of the bitwise operations.

  lemma AndBit(a: Word, b: Word, j: nat)
    requires j < WORD_BITS
    ensures Bit(WordAnd(a, b), j) == (Bit(a, j) && Bit(b, j))
  {
    hide OneShl, Single, Meets;
    OneShlSingle(j);
    SingleAnd(a, b, OneShl(j));
  }

  lemma OrBit(a: Word, b: Word, j: nat)
    requires j < WORD_BITS
    ensures Bit(WordOr(a, b), j) == (Bit(a, j) || Bit(b, j))
  {
    hide OneShl, Single, Meets;
    OneShlSingle(j);
    OrAnd(a, b, OneShl(j));
  }

  lemma XorBit(a: Word, b: Word, j: nat)
    requires j < WORD_BITS
    ensures Bit(WordXor(a, b), j) == (Bit(a, j) != Bit(b, j))
  {
    hide OneShl, Single, Meets;
    OneShlSingle(j);
    SingleXor(a, b, OneShl(j));
  }

  lemma NotBit(a: Word, j: nat)
    requires j < WORD_BITS
    ensures Bit(WordNot(a), j) == !Bit(a, j)
  {
    hide OneShl, Single, Meets;
    OneShlSingle(j);
    SingleNot(a, OneShl(j));
  }

  lemma ShiftedUp(w: Word, p: Word)
    requires p << 1 != 0 && Single(p)
    ensures Meets(w << 1, p << 1) == Meets(w, p)
  {
  }

  lemma ShiftedUpLow(w: Word)
    ensures !Meets(w << 1, 1)
    ensures !Meets(1, w << 1)
  {
  }

  lemma OneShlZero()
    ensures OneShl(0) == 1 && Meets(1, 1)
  {
  }

  /** `w <<= 1` moves every bit one place up. */
  lemma ShiftUpBits(w: Word, j: nat)
    requires j < WORD_BITS
    ensures Bit(w << 1, j) == (j > 0 && Bit(w, j - 1))
  {
    hide OneShl, Single, Meets;
    if j == 0 {
      OneShlZero();
      ShiftedUpLow(w);
    } else {
      OneShlNext(j - 1);
      OneShlSingle(j - 1);
      OneShlSingle(j);
      SingleNonZero(OneShl(j));
      ShiftedUp(w, OneShl(j - 1));
    }
  }

  lemma BitOfOne(j: nat)
    requires j < WORD_BITS
    ensures Bit(1, j) == (j == 0)
  {
    hide OneShl, Single, Meets;
    OneShlZero();
    if j > 0 {
      OneShlNext(j - 1);
      ShiftedUpLow(OneShl(j - 1));
    }
  }

  /** `1 << k` has just bit `k`. */
  lemma {:induction false} OneShlBit(k: nat, j: nat)
    requires k < WORD_BITS && j < WORD_BITS
    ensures Bit(OneShl(k), j) == (j == k)
  {
    hide OneShl, Bit;
    if k == 0 {
      OneShlZero();
      BitOfOne(j);
    } else {
      OneShlNext(k - 1);
      ShiftUpBits(OneShl(k - 1), j);
      if j > 0 {
        OneShlBit(k - 1, j - 1);
      }
    }
  }

  lemma MaskGrows(p: Word)
    requires Single(p)
    ensures (p << 1) - 1 == (p - 1) | p
  {
  }

  /** `(1 << k) - 1` has just the bits below `k`. */
  lemma {:induction false} MaskBit(k: nat, j: nat)
    requires k < WORD_BITS && j < WORD_BITS
    ensures Bit(Mask(k), j) == (j < k)
  {
    hide OneShl, Bit, Mask;
    if k == 0 {
      MaskZero();
      ZeroHasNone(j);
    } else {
      MaskStep(k);
      MaskBit(k - 1, j);
      OneShlBit(k - 1, j);
      OrBit(Mask(k - 1), OneShl(k - 1), j);
    }
  }

  /** The bits below `k`. */
  function Mask(k: nat): Word
    requires k < WORD_BITS
  {
    OneShl(k) - 1
  }

  lemma MaskZero()
    ensures Mask(0) == 0
  {
    hide OneShl;
    OneShlZero();
  }

  lemma MaskStep(k: nat)
    requires 0 < k < WORD_BITS
    ensures Mask(k) == WordOr(Mask(k - 1), OneShl(k - 1))
  {
    hide OneShl, Single;
    OneShlNext(k - 1);
    OneShlSingle(k - 1);
    MaskGrows(OneShl(k - 1));
  }

  lemma HalfIsLess(w: Word)
    requires w != 0
    ensures w >> 1 < w
    ensures w & 1 == 0 ==> w >> 1 != 0
  {
  }

  lemma BitZero(w: Word)
    ensures Bit(w, 0) == (w & 1 != 0)
  {
  }

  /** A word that is not zero has a lowest bit. */
  lemma {:induction false} LowBit(w: Word) returns (j: nat)
    requires w != 0
    ensures j < WORD_BITS && Bit(w, j)
    decreases w
  {
    hide Bit;
    HalfIsLess(w);
    BitZero(w);
    if w & 1 != 0 {
      j := 0;
    } else {
      j := LowBit(w >> 1);
      ShiftBits(w, j);
      j := j + 1;
    }
  }

  lemma ZeroHasNone(j: nat)
    requires j < WORD_BITS
    ensures !Bit(0, j)
  {
    hide OneShl;
  }

  lemma ShiftedSingle(w: Word, p: Word)
    requires Single(p) && p << 1 != 0
    ensures Meets(w >> 1, p) == Meets(w, p << 1)
  {
  }

  lemma ShiftedLast(w: Word)
    ensures !Meets(w >> 1, 0x8000_0000_0000_0000)
  {
  }

  lemma LastBit(w: Word)
    ensures !Bit(w >> 1, WORD_BITS - 1)
  {
    assert OneShl(63) == 0x8000_0000_0000_0000;
    hide OneShl, Meets;
    ShiftedLast(w);
  }

  /** `w >>= 1` moves every bit one place down. */
  lemma ShiftBits(w: Word, j: nat)
    requires j < WORD_BITS
    ensures Bit(w >> 1, j) == (j + 1 < WORD_BITS && Bit(w, j + 1))
  {
    hide OneShl, Single, Meets;
    if j + 1 < WORD_BITS {
      OneShlSingle(j);
      OneShlNext(j);
      OneShlSingle(j + 1);
      SingleNonZero(OneShl(j + 1));
      ShiftedSingle(w, OneShl(j));
    } else {
      LastBit(w);
    }
  }

  /** `w >> b`, one place at a time. */
  function WordShr(w: Word, b: nat): Word
    requires b < WORD_BITS
  {
    if b == 0 then w else WordShr(w, b - 1) >> 1
  }

  /** `w >> b` moves every bit `b` places down. */
  lemma {:induction false} ShrBit(w: Word, b: nat, j: nat)
    requires b < WORD_BITS && j < WORD_BITS
    ensures Bit(WordShr(w, b), j) == (b + j < WORD_BITS && Bit(w, b + j))
  {
    hide Bit;
    if b > 0 {
      ShiftBits(WordShr(w, b - 1), j);
      if j + 1 < WORD_BITS {
        ShrBit(w, b - 1, j + 1);
      }
    }
  }

  lemma LowBitTest(w: Word)
    ensures (w & 1 != 0) == Bit(w, 0)
  {
    BitZero(w);
  }
}
