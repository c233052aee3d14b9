/** The contents of a sparse bitmap as a value: the set it stands for and the merges of two of them. */
module BitmapEntries {
  import opened BitmapWords

  /** One element of a bitmap as a value. */
  datatype Entry = Entry(indx: nat, words: seq<Word>)

  datatype Op = And | AndCompl | Ior | Xor | ComplAnd

  /** Strictly increasing indices. */
  ghost predicate Ordered(s: seq<Entry>) {
    forall i, j :: 0 <= i < j < |s| ==> s[i].indx < s[j].indx
  }

  /** Two words, not all zero. */
  ghost predicate NonZero(s: seq<Entry>) {
    forall i :: 0 <= i < |s| ==> |s[i].words| == ELEMENT_WORDS && s[i].words != ZERO_WORDS
  }

  /** Every index is at least `t`. */
  ghost predicate From(s: seq<Entry>, t: nat) {
    forall i :: 0 <= i < |s| ==> t <= s[i].indx
  }

  /** Ordered and without empty elements: the form every bitmap operation has to keep. */
  ghost predicate Normal(s: seq<Entry>) {
    Ordered(s) && NonZero(s)
  }

  predicate WordsHave(ws: seq<Word>, j: nat)
    requires j < ALL_BITS
  {
    |ws| == ELEMENT_WORDS && Bit(ws[j / WORD_BITS], j % WORD_BITS)
  }

  predicate EntryHas(e: Entry, n: nat) {
    e.indx == n / ALL_BITS && WordsHave(e.words, n % ALL_BITS)
  }

  /** `n` is in the set that `s` stands for. */
  ghost predicate Has(s: seq<Entry>, n: nat) {
    exists i :: 0 <= i < |s| && EntryHas(s[i], n)
  }

  lemma HasConcat(s: seq<Entry>, t: seq<Entry>, n: nat)
    ensures Has(s + t, n) <==> Has(s, n) || Has(t, n)
  {
    hide EntryHas;
    if Has(s, n) {
      var i :| 0 <= i < |s| && EntryHas(s[i], n);
      assert EntryHas((s + t)[i], n);
    }
    if Has(t, n) {
      var i :| 0 <= i < |t| && EntryHas(t[i], n);
      assert EntryHas((s + t)[|s| + i], n);
    }
  }

  lemma HasOne(e: Entry, n: nat)
    ensures Has([e], n) <==> EntryHas(e, n)
  {
    hide EntryHas;
    if EntryHas(e, n) {
      assert EntryHas([e][0], n);
    }
  }

  lemma HasCons(s: seq<Entry>, n: nat)
    requires s != []
    ensures Has(s, n) <==> EntryHas(s[0], n) || Has(s[1..], n)
  {
    hide Has, EntryHas;
    assert s == [s[0]] + s[1..];
    HasConcat([s[0]], s[1..], n);
    HasOne(s[0], n);
  }

  lemma HasFrom(s: seq<Entry>, t: nat, n: nat)
    requires From(s, t) && n / ALL_BITS < t
    ensures !Has(s, n)
  {
  }

  lemma OrderedTail(s: seq<Entry>)
    requires Ordered(s) && s != []
    ensures Ordered(s[1..]) && From(s, s[0].indx) && From(s[1..], s[0].indx + 1)
  {
  }

  lemma OrderedCons(e: Entry, s: seq<Entry>)
    requires Ordered(s) && From(s, e.indx + 1)
    ensures Ordered([e] + s)
  {
  }

  lemma FromTail(s: seq<Entry>, t: nat)
    requires From(s, t) && s != []
    ensures From(s[1..], t)
  {
  }

  lemma FromLess(s: seq<Entry>, t: nat, u: nat)
    requires From(s, t) && u <= t
    ensures From(s, u)
  {
  }

  lemma TailNormal(s: seq<Entry>, i: nat)
    requires Normal(s) && i < |s|
    ensures Normal(s[i + 1..]) && From(s[i + 1..], s[i].indx + 1)
  {
  }

  lemma FromHere(s: seq<Entry>, i: nat)
    requires Normal(s) && i < |s|
    ensures From(s[i..], s[i].indx)
  {
  }

  lemma TailsNormal(s: seq<Entry>, i: nat)
    requires Normal(s) && i <= |s|
    ensures Normal(s[i..])
  {
  }

  // ---- words ----

  function Apply(op: Op, a: bool, b: bool): bool {
    match op
    case And => a && b
    case AndCompl => a && !b
    case Ior => a || b
    case Xor => a != b
    case ComplAnd => !a && b
  }

  function Combine(op: Op, a: Word, b: Word): Word {
    match op
    case And => WordAnd(a, b)
    case AndCompl => WordAnd(a, WordNot(b))
    case Ior => WordOr(a, b)
    case Xor => WordXor(a, b)
    case ComplAnd => WordXor(b, WordAnd(a, b))
  }

  lemma CombineBit(op: Op, a: Word, b: Word, j: nat)
    requires j < WORD_BITS
    ensures Bit(Combine(op, a, b), j) == Apply(op, Bit(a, j), Bit(b, j))
  {
    hide Bit, WordAnd, WordOr, WordXor, WordNot;
    match op
    case And => AndBit(a, b, j);
    case AndCompl => NotBit(b, j); AndBit(a, WordNot(b), j);
    case Ior => OrBit(a, b, j);
    case Xor => XorBit(a, b, j);
    case ComplAnd => AndBit(a, b, j); XorBit(b, WordAnd(a, b), j);
  }

  function CombineWords(op: Op, a: seq<Word>, b: seq<Word>): (r: seq<Word>)
    requires |a| == |b| == ELEMENT_WORDS
    ensures |r| == ELEMENT_WORDS
  {
    [Combine(op, a[0], b[0]), Combine(op, a[1], b[1])]
  }

  lemma CombineHas(op: Op, a: seq<Word>, b: seq<Word>, j: nat)
    requires |a| == |b| == ELEMENT_WORDS && j < ALL_BITS
    ensures WordsHave(CombineWords(op, a, b), j) == Apply(op, WordsHave(a, j), WordsHave(b, j))
  {
    hide Bit, Combine, Apply;
    CombineBit(op, a[j / WORD_BITS], b[j / WORD_BITS], j % WORD_BITS);
  }

  lemma ZeroWordsHave(j: nat)
    requires j < ALL_BITS
    ensures !WordsHave(ZERO_WORDS, j)
  {
    hide Bit;
    ZeroHasNone(j % WORD_BITS);
  }

  /** An element that is not all zero has a member. */
  lemma EntryMember(e: Entry) returns (n: nat)
    requires |e.words| == ELEMENT_WORDS && e.words != ZERO_WORDS
    ensures EntryHas(e, n)
  {
    hide Bit;
    var w := if e.words[0] != 0 then 0 else 1;
    var j := LowBit(e.words[w]);
    n := e.indx * ALL_BITS + w * WORD_BITS + j;
  }

  // ---- merges ----

  predicate KeepsLeft(op: Op) {
    op.AndCompl? || op.Ior? || op.Xor?
  }

  predicate KeepsRight(op: Op) {
    op.Ior? || op.Xor? || op.ComplAnd?
  }

  /** `a` has the next index of the two. */
  predicate Leads(a: seq<Entry>, b: seq<Entry>) {
    a != [] && (b == [] || a[0].indx <= b[0].indx)
  }

  function Rest(a: seq<Entry>, b: seq<Entry>): seq<Entry> {
    if Leads(a, b) then a[1..] else a
  }

  /** What the next index contributes. */
  function Piece(op: Op, a: seq<Entry>, b: seq<Entry>): seq<Entry> {
    if Leads(a, b) && Leads(b, a) then
      (if |a[0].words| == |b[0].words| == ELEMENT_WORDS && CombineWords(op, a[0].words, b[0].words) != ZERO_WORDS
       then [Entry(a[0].indx, CombineWords(op, a[0].words, b[0].words))] else [])
    else if Leads(a, b) then if KeepsLeft(op) then [a[0]] else []
    else if Leads(b, a) then if KeepsRight(op) then [b[0]] else []
    else []
  }

  function Merge(op: Op, a: seq<Entry>, b: seq<Entry>): seq<Entry>
    decreases |a| + |b|
  {
    if a == [] && b == [] then [] else Piece(op, a, b) + Merge(op, Rest(a, b), Rest(b, a))
  }

  /** The index a merge deals with next. */
  function NextIndex(a: seq<Entry>, b: seq<Entry>): nat
    requires a != [] || b != []
  {
    if Leads(a, b) then a[0].indx else b[0].indx
  }

  lemma RestFrom(a: seq<Entry>, b: seq<Entry>)
    requires Normal(a) && Normal(b) && (a != [] || b != [])
    ensures Normal(Rest(a, b)) && From(Rest(a, b), NextIndex(a, b) + 1)
    ensures From(a, NextIndex(a, b)) && From(b, NextIndex(a, b))
  {
    hide Ordered, From;
    if a != [] {
      OrderedTail(a);
      FromLess(a, a[0].indx, NextIndex(a, b));
      if !Leads(a, b) {
        FromLess(a, a[0].indx, NextIndex(a, b) + 1);
      }
    }
    if b != [] {
      OrderedTail(b);
      FromLess(b, b[0].indx, NextIndex(a, b));
    }
    EmptyFrom(NextIndex(a, b));
    EmptyFrom(NextIndex(a, b) + 1);
  }

  lemma EmptyFrom(t: nat)
    ensures From([], t) && Ordered([])
  {
  }

  lemma {:induction false} MergeFrom(op: Op, a: seq<Entry>, b: seq<Entry>, t: nat)
    requires Normal(a) && Normal(b) && From(a, t) && From(b, t)
    ensures From(Merge(op, a, b), t)
    decreases |a| + |b|
  {
    hide Normal, CombineWords;
    if a != [] || b != [] {
      RestFrom(a, b);
      RestFrom(b, a);
      assert NextIndex(a, b) == NextIndex(b, a);
      assert t <= NextIndex(a, b);
      FromLess(Rest(a, b), NextIndex(a, b) + 1, t);
      FromLess(Rest(b, a), NextIndex(a, b) + 1, t);
      MergeFrom(op, Rest(a, b), Rest(b, a), t);
    }
  }

  lemma PieceNormal(op: Op, a: seq<Entry>, b: seq<Entry>)
    requires Normal(a) && Normal(b) && (a != [] || b != [])
    ensures |Piece(op, a, b)| <= 1 && NonZero(Piece(op, a, b))
    ensures Piece(op, a, b) != [] ==> Piece(op, a, b)[0].indx == NextIndex(a, b)
  {
    hide Ordered, CombineWords;
  }

  lemma NormalJoin(p: seq<Entry>, s: seq<Entry>, t: nat)
    requires |p| <= 1 && NonZero(p) && (p != [] ==> p[0].indx == t) && Normal(s) && From(s, t + 1)
    ensures Normal(p + s)
  {
    if p != [] {
      OrderedCons(p[0], s);
      assert p + s == [p[0]] + s;
    } else {
      assert p + s == s;
    }
  }

  /** Merging keeps the form: ordered and without empty elements. */
  lemma {:induction false} MergeNormal(op: Op, a: seq<Entry>, b: seq<Entry>)
    requires Normal(a) && Normal(b)
    ensures Normal(Merge(op, a, b))
    decreases |a| + |b|
  {
    hide Normal, From, NonZero, Piece;
    if a != [] || b != [] {
      RestFrom(a, b);
      RestFrom(b, a);
      assert NextIndex(a, b) == NextIndex(b, a);
      MergeFrom(op, Rest(a, b), Rest(b, a), NextIndex(a, b) + 1);
      MergeNormal(op, Rest(a, b), Rest(b, a));
      PieceNormal(op, a, b);
      NormalJoin(Piece(op, a, b), Merge(op, Rest(a, b), Rest(b, a)), NextIndex(a, b));
    }
  }

  /** What the next index contributes to the set. */
  lemma PieceHas(op: Op, a: seq<Entry>, b: seq<Entry>, n: nat)
    requires Normal(a) && Normal(b) && (a != [] || b != []) && n / ALL_BITS == NextIndex(a, b)
    ensures Has(Piece(op, a, b), n) <==> Apply(op, Leads(a, b) && EntryHas(a[0], n), Leads(b, a) && EntryHas(b[0], n))
  {
    hide Has, WordsHave, Ordered, CombineWords;
    if Piece(op, a, b) != [] {
      HasOne(Piece(op, a, b)[0], n);
    } else {
      HasNone(n);
    }
    if Leads(a, b) && Leads(b, a) {
      CombineHas(op, a[0].words, b[0].words, n % ALL_BITS);
      ZeroWordsHave(n % ALL_BITS);
    }
  }

  lemma HasNone(n: nat)
    ensures !Has([], n)
  {
  }

  lemma RestHas(a: seq<Entry>, b: seq<Entry>, n: nat)
    requires Normal(a) && Normal(b) && (a != [] || b != [])
    ensures n / ALL_BITS == NextIndex(a, b) ==> !Has(Rest(a, b), n) && (Has(a, n) <==> Leads(a, b) && EntryHas(a[0], n))
    ensures n / ALL_BITS != NextIndex(a, b) ==> (Has(a, n) <==> Has(Rest(a, b), n))
  {
    hide Has, WordsHave, Ordered, From, NonZero;
    RestFrom(a, b);
    if n / ALL_BITS == NextIndex(a, b) {
      HasFrom(Rest(a, b), NextIndex(a, b) + 1, n);
    }
    if Leads(a, b) {
      HasCons(a, n);
    }
  }

  /** A merge computes its set operation: `n` is in the result just when the operation says so. */
  lemma {:induction false} MergeHas(op: Op, a: seq<Entry>, b: seq<Entry>, n: nat)
    requires Normal(a) && Normal(b)
    ensures Has(Merge(op, a, b), n) <==> Apply(op, Has(a, n), Has(b, n))
    decreases |a| + |b|
  {
    hide Has, EntryHas, Normal;
    if a != [] || b != [] {
      RestFrom(a, b);
      RestFrom(b, a);
      RestHas(a, b, n);
      RestHas(b, a, n);
      assert NextIndex(a, b) == NextIndex(b, a);
      MergeHas(op, Rest(a, b), Rest(b, a), n);
      HasConcat(Piece(op, a, b), Merge(op, Rest(a, b), Rest(b, a)), n);
      if n / ALL_BITS == NextIndex(a, b) {
        PieceHas(op, a, b, n);
      } else {
        PieceElsewhere(op, a, b, n);
      }
    } else {
      HasNone(n);
    }
  }

  lemma PieceElsewhere(op: Op, a: seq<Entry>, b: seq<Entry>, n: nat)
    requires (a != [] || b != []) && n / ALL_BITS != NextIndex(a, b)
    ensures !Has(Piece(op, a, b), n)
  {
    hide WordsHave, CombineWords;
  }

  /** `s` is in normal form and stands for the set that `op` makes of the sets of `a` and `b`. */
  ghost predicate Computes(op: Op, s: seq<Entry>, a: seq<Entry>, b: seq<Entry>) {
    Normal(s) && forall n: nat :: Has(s, n) <==> Apply(op, Has(a, n), Has(b, n))
  }

  lemma MergeComputes(op: Op, a: seq<Entry>, b: seq<Entry>)
    requires Normal(a) && Normal(b)
    ensures Computes(op, Merge(op, a, b), a, b)
  {
    hide Has, Normal, Apply;
    MergeNormal(op, a, b);
    forall n: nat
      ensures Has(Merge(op, a, b), n) <==> Apply(op, Has(a, n), Has(b, n))
    {
      MergeHas(op, a, b, n);
    }
  }

  // ---- equal sets have equal contents ----

  ghost predicate SameSet(a: seq<Entry>, b: seq<Entry>) {
    forall n: nat :: Has(a, n) <==> Has(b, n)
  }

  lemma WordsEqual(v: seq<Word>, w: seq<Word>)
    requires |v| == |w| == ELEMENT_WORDS
    requires forall j :: 0 <= j < ALL_BITS ==> (WordsHave(v, j) <==> WordsHave(w, j))
    ensures v == w
  {
    hide WordsHave, CombineWords;
    var x := CombineWords(Xor, v, w);
    if x != ZERO_WORDS {
      var n := EntryMember(Entry(0, x));
      CombineHas(Xor, v, w, n % ALL_BITS);
    } else {
      XorZero(v, w);
    }
  }

  lemma XorZero(v: seq<Word>, w: seq<Word>)
    requires |v| == |w| == ELEMENT_WORDS && CombineWords(Xor, v, w) == ZERO_WORDS
    ensures v == w
  {
    hide WordXor;
    var r := CombineWords(Xor, v, w);
    assert r[0] == 0 && r[1] == 0;
    XorZeroWord(v[0], w[0]);
    XorZeroWord(v[1], w[1]);
  }

  lemma XorZeroWord(v: Word, w: Word)
    requires WordXor(v, w) == 0
    ensures v == w
  {
  }

  lemma HeadHas(s: seq<Entry>, n: nat)
    requires Normal(s) && s != []
    ensures n / ALL_BITS == s[0].indx ==> (Has(s, n) <==> EntryHas(s[0], n)) && !Has(s[1..], n)
    ensures n / ALL_BITS != s[0].indx ==> (Has(s, n) <==> Has(s[1..], n))
    ensures n / ALL_BITS < s[0].indx ==> !Has(s, n)
    ensures Normal(s[1..])
  {
    hide Has, WordsHave, Ordered, From;
    OrderedTail(s);
    HasCons(s, n);
    if n / ALL_BITS <= s[0].indx {
      HasFrom(s[1..], s[0].indx + 1, n);
    }
  }

  /** A first index that only `a` has gives a member that only `a` has. */
  lemma LeadMember(a: seq<Entry>, b: seq<Entry>) returns (n: nat)
    requires Normal(a) && Normal(b) && a != [] && (b == [] || a[0].indx < b[0].indx)
    ensures Has(a, n) && !Has(b, n)
  {
    n := EntryMember(a[0]);
    hide Has, WordsHave, Ordered;
    HeadHas(a, n);
    if b == [] {
      HasNone(n);
    } else {
      HeadHas(b, n);
    }
  }

  lemma HeadsEqual(a: seq<Entry>, b: seq<Entry>)
    requires Normal(a) && Normal(b) && SameSet(a, b) && a != [] && b != [] && a[0].indx == b[0].indx
    ensures a[0] == b[0] && SameSet(a[1..], b[1..]) && Normal(a[1..]) && Normal(b[1..])
  {
    hide Has, WordsHave, Ordered;
    var t := a[0].indx;
    forall j | 0 <= j < ALL_BITS
      ensures WordsHave(a[0].words, j) <==> WordsHave(b[0].words, j)
    {
      var n := t * ALL_BITS + j;
      assert n / ALL_BITS == t && n % ALL_BITS == j;
      HeadHas(a, n);
      HeadHas(b, n);
      assert Has(a, n) <==> Has(b, n);
    }
    WordsEqual(a[0].words, b[0].words);
    forall n: nat
      ensures Has(a[1..], n) <==> Has(b[1..], n)
    {
      HeadHas(a, n);
      HeadHas(b, n);
      assert Has(a, n) <==> Has(b, n);
    }
    HeadHas(a, 0);
    HeadHas(b, 0);
  }

  /** The form is canonical: two contents that stand for the same set are the same. */
  lemma {:induction false} Canonical(a: seq<Entry>, b: seq<Entry>)
    requires Normal(a) && Normal(b) && SameSet(a, b)
    ensures a == b
  {
    hide Has, Normal;
    if a != [] && b != [] && a[0].indx == b[0].indx {
      HeadsEqual(a, b);
      Canonical(a[1..], b[1..]);
      assert a == [a[0]] + a[1..] && b == [b[0]] + b[1..];
    } else if Leads(a, b) {
      var n := LeadMember(a, b);
      assert false;
    } else if Leads(b, a) {
      var n := LeadMember(b, a);
      assert false;
    }
  }

  // ---- steps and shortcuts of the merge loops ----

  lemma {:induction false} MergeEnds(op: Op, a: seq<Entry>)
    ensures Merge(op, a, []) == if KeepsLeft(op) then a else []
    ensures Merge(op, [], a) == if KeepsRight(op) then a else []
  {
    hide CombineWords;
    if a != [] {
      MergeEnds(op, a[1..]);
      assert a == [a[0]] + a[1..];
      assert Rest(a, []) == a[1..] && Rest([], a) == [];
      assert Piece(op, a, []) == if KeepsLeft(op) then [a[0]] else [];
      assert Piece(op, [], a) == if KeepsRight(op) then [a[0]] else [];
    }
  }

  /** What the merges answer when both operands are the same bitmap. */
  lemma MergeSelf(op: Op, a: seq<Entry>)
    requires Normal(a)
    ensures Merge(op, a, a) == if op.And? || op.Ior? then a else []
  {
    hide Has, Normal;
    var r := if op.And? || op.Ior? then a else [];
    MergeNormal(op, a, a);
    EmptyNormal();
    forall n: nat
      ensures Has(Merge(op, a, a), n) <==> Has(r, n)
    {
      MergeHas(op, a, a, n);
      HasNone(n);
    }
    Canonical(Merge(op, a, a), r);
  }

  lemma EmptyNormal()
    ensures Normal([])
  {
  }

  /** One step of a merge at positions `i` and `j`. */
  lemma MergeAt(op: Op, a: seq<Entry>, b: seq<Entry>, i: nat, j: nat)
    requires i <= |a| && j <= |b| && (i < |a| || j < |b|)
    ensures
      var l := Leads(a[i..], b[j..]);
      var r := Leads(b[j..], a[i..]);
      Merge(op, a[i..], b[j..]) ==
      Piece(op, a[i..], b[j..]) + Merge(op, a[if l then i + 1 else i..], b[if r then j + 1 else j..])
  {
    hide Piece;
    if i < |a| {
      assert a[i..][1..] == a[i + 1..];
    }
    if j < |b| {
      assert b[j..][1..] == b[j + 1..];
    }
  }
}
