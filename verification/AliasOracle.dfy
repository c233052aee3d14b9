/** The decision procedure that tells whether two memory references can conflict. */
module AliasOracle {
  import opened Options
  import opened AddressRtx

  // ---- addresses with side effects ----

  /** The address of the reference after `nRefs` earlier ones to `addr`, each of `size` bytes. */
  function AddrSideEffectEval(addr: Rtx, size: int, nRefs: nat): Rtx {
    match addr
    case PreInc(m, a) => WithOffset(m, a, (nRefs + 1) * size)
    case PreDec(m, a) => WithOffset(m, a, -(nRefs as int + 1) * size)
    case PostInc(m, a) => WithOffset(m, a, nRefs * size)
    case PostDec(m, a) => WithOffset(m, a, -(nRefs as int) * size)
    case _ => addr
  }

  function WithOffset(m: nat, a: Rtx, offset: int): Rtx {
    CanonRtx(if offset != 0 then Plus(m, a, ConstInt(offset)) else a)
  }

  predicate SideEffect(x: Rtx) {
    x.PreInc? || x.PreDec? || x.PostInc? || x.PostDec?
  }

  /** The offset that a reference through `x` adds to its register. */
  function Step(x: Rtx, size: int): int {
    if x.PreInc? || x.PostInc? then size else if x.PreDec? || x.PostDec? then -size else 0
  }

  /** What the register has been changed by after `n` references through `x`. */
  function Moved(x: Rtx, size: int, n: nat): int {
    if n == 0 then 0 else Moved(x, size, n - 1) + Step(x, size)
  }

  /** Coordinate `k` of the address that the `(n + 1)`th reference through `x` accesses. */
  function Accessed(x: Rtx, size: int, n: nat, k: Coord, env: Env): int {
    At(if SideEffect(x) then x.a else x, k, env) +
    if !k.Off? then 0 else Moved(x, size, n) + if x.PreInc? || x.PreDec? then Step(x, size) else 0
  }

  lemma {:induction false} MovedTimes(x: Rtx, size: int, n: nat)
    ensures Moved(x, size, n) == n * Step(x, size)
  {
    if n > 0 {
      MovedTimes(x, size, n - 1);
    }
  }

  /** An address without side effects, or one step around it. */
  predicate Addressable(x: Rtx) {
    if SideEffect(x) then Plain(x.a) else Plain(x)
  }

  lemma WithOffsetSame(m: nat, a: Rtx, offset: int, env: Env)
    requires Plain(a) && Respects(a, env)
    ensures Same(a, WithOffset(m, a, offset), offset, env)
  {
    var sum := Plus(m, a, ConstInt(offset));
    AddedSame(m, a, offset, env);
    hide CanonRtx, At, Plain, Respects;
    if offset != 0 {
      CanonSame(sum, env);
      SameTrans(a, sum, CanonRtx(sum), offset, env);
    } else {
      CanonSame(a, env);
    }
  }

  /** `AddrSideEffectEval` gives the address of any reference of a series. */
  lemma SideEffectsEvaluated(x: Rtx, size: int, n: nat, env: Env)
    requires Addressable(x) && Respects(x, env)
    ensures
      var r := AddrSideEffectEval(x, size, n);
      Plain(r) && Respects(r, env) && forall k :: At(r, k, env) == Accessed(x, size, n, k, env)
  {
    hide CanonRtx, WithOffset;
    MovedTimes(x, size, n);
    if SideEffect(x) {
      var offset := n * Step(x, size) + if x.PreInc? || x.PreDec? then Step(x, size) else 0;
      Offsets(x, size, n, offset);
      WithOffsetSame(x.mode, x.a, offset, env);
    }
  }

  lemma Offsets(x: Rtx, size: int, n: nat, offset: int)
    requires SideEffect(x) && offset == n * Step(x, size) + if x.PreInc? || x.PreDec? then Step(x, size) else 0
    ensures AddrSideEffectEval(x, size, n) == WithOffset(x.mode, x.a, offset)
  {
    hide WithOffset;
    assert (n + 1) * size == n * size + size;
    assert -(n as int + 1) * size == n * (-size) - size;
    assert -(n as int) * size == n * (-size);
  }

  // ---- the decision procedure ----

  /** What the comparison of two addresses starts with: the address a reference really accesses. */
  function Strip(x: Rtx, size: int): Rtx {
    if x.High? then x.a else if x.LoSum? then x.b else AddrSideEffectEval(x, size, 0)
  }

  lemma StripLess(x: Rtx, size: int)
    ensures Strip(x, size) == x || Size(Strip(x, size)) < Size(x)
  {
  }

  /** Division as the host does it, toward zero. What it does with a divisor of zero is left out; zero stands for it. */
  function Truncated(a: int, k: int): int {
    if k == 0 then 0 else if (a >= 0) == (k > 0) then Abs(a) / Abs(k) else -(Abs(a) / Abs(k))
  }

  function Abs(a: int): nat {
    if a < 0 then -a else a
  }

  /** Two ranges of `xsize` and `ysize` bytes, the second `c` bytes behind the first, have a byte in common. */
  predicate Overlapping(xsize: int, ysize: int, c: int) {
    (c >= 0 && xsize > c) || (c < 0 && ysize + c > 0)
  }

  /** The answer of the procedure, and whether all divisions on the way to it were exact, by a positive factor. */
  datatype Verdict = Verdict(conflict: bool, exact: bool)

  const CONFLICT := Verdict(true, true)

  function Decide(xsize: int, x0: Rtx, ysize: int, y0: Rtx, c: int): Verdict
    decreases Size(x0) + Size(y0), Wraps(x0) + Wraps(y0)
  {
    var x, y := Strip(x0, xsize), Strip(y0, ysize);
    StripLess(x0, xsize);
    StripLess(y0, ysize);
    if RtxEqualForMemrefP(x, y) then Verdict(xsize <= 0 || ysize <= 0 || Overlapping(xsize, ysize, c), true)
    else if x.Plus? && y.Plus? then
      if RtxEqualForMemrefP(x.b, y.b) then Decide(xsize, x.a, ysize, y.a, c)
      else if RtxEqualForMemrefP(x.a, y.a) then Decide(xsize, x.b, ysize, y.b, c)
      else if x.b.ConstInt? then
        if y.b.ConstInt? then Decide(xsize, x.a, ysize, y.a, c - x.b.val + y.b.val)
        else Decide(xsize, x.a, ysize, y, c - x.b.val)
      else if y.b.ConstInt? then Decide(xsize, x, ysize, y.a, c + y.b.val)
      else CONFLICT
    else if x.Plus? && x.b.ConstInt? then Decide(xsize, x.a, ysize, y, c - x.b.val)
    else if y.Plus? then
      if y.b.ConstInt? then Decide(xsize, x, ysize, y.a, c + y.b.val) else CONFLICT
    else if x.Mult? && y.Mult? then
      var x1, y1 := CanonRtx(x.b), CanonRtx(y.b);
      var xa, ya := CanonRtx(x.a), CanonRtx(y.a);
      if !RtxEqualForMemrefP(x1, y1) then CONFLICT
      else if RtxEqualForMemrefP(xa, ya) then Verdict(xsize == 0 || ysize == 0 || Overlapping(xsize, ysize, c), true)
      else if !x1.ConstInt? then CONFLICT
      else
        var k := x1.val;
        var v := Decide(Truncated(xsize, k), xa, Truncated(ysize, k), ya, Truncated(c, k));
        Verdict(v.conflict, v.exact && ExactScale(xsize, ysize, c, k))
    else if x.And? && x.b.ConstInt? then
      Decide(if y.And? || ysize < -x.b.val then -1 else xsize, CanonRtx(x.a), ysize, y, c)
    else if y.And? && y.b.ConstInt? then
      Decide(xsize, x, if x.And? || xsize < -y.b.val then -1 else ysize, CanonRtx(y.a), c)
    else if ConstantP(x) then
      if x.ConstInt? && y.ConstInt? then
        Verdict(xsize <= 0 || ysize <= 0 || Overlapping(xsize, ysize, c + y.val - x.val), true)
      else if x.Const? then
        WrapsLess(x);
        if y.Const? then WrapsLess(y); Decide(xsize, CanonRtx(x.a), ysize, CanonRtx(y.a), c)
        else Decide(xsize, CanonRtx(x.a), ysize, y, c)
      else if y.Const? then
        WrapsLess(y);
        Decide(xsize, x, ysize, CanonRtx(y.a), c)
      else if ConstantP(y) then
        Verdict(xsize <= 0 || ysize <= 0 || (RtxEqualForMemrefP(x, y) && Overlapping(xsize, ysize, c)), true)
      else CONFLICT
    else CONFLICT
  }

  /** Dividing the sizes and the distance by `k` loses nothing. */
  predicate ExactScale(xsize: int, ysize: int, c: int, k: int) {
    k > 0 && xsize % k == 0 && ysize % k == 0 && c % k == 0
  }

  /** Whether references of `xsize` bytes at `x` and of `ysize` bytes at `y + c` may access the same memory. */
  predicate MemrefsConflictP(xsize: int, x: Rtx, ysize: int, y: Rtx, c: int) {
    Decide(xsize, x, ysize, y, c).conflict
  }

  // ---- soundness ----

  /** Under `env`, the byte ranges [x, x + xsize) and [y + c, y + c + ysize) lie in the same object and overlap. */
  ghost predicate Touch(xsize: int, x: Rtx, ysize: int, y: Rtx, c: int, env: Env) {
    && (forall k: Coord :: !k.Off? ==> At(x, k, env) == At(y, k, env))
    && At(x, Off, env) < At(y, Off, env) + c + ysize
    && At(y, Off, env) + c < At(x, Off, env) + xsize
  }

  predicate Part(x: Rtx) {
    x.High? || x.LoSum?
  }

  lemma StripPlain(x: Rtx, size: int, env: Env)
    requires Plain(x) && Respects(x, env)
    ensures Plain(Strip(x, size)) && Respects(Strip(x, size), env) && !Part(Strip(x, size)) && Equal(Strip(x, size), x, env)
  {
  }

  lemma TouchEqual(xsize: int, x: Rtx, x': Rtx, ysize: int, y: Rtx, y': Rtx, c: int, env: Env)
    requires Equal(x, x', env) && Equal(y, y', env)
    ensures Touch(xsize, x, ysize, y, c, env) <==> Touch(xsize, x', ysize, y', c, env)
  {
    hide At;
  }

  lemma CanonEqual(x: Rtx, env: Env)
    requires Plain(x) && Respects(x, env)
    ensures Plain(CanonRtx(x)) && Respects(CanonRtx(x), env) && Equal(CanonRtx(x), x, env)
  {
    hide CanonRtx, At;
    CanonSame(x, env);
  }

  lemma EqualSelf(x: Rtx, env: Env)
    ensures Equal(x, x, env)
  {
  }

  /** The same address: only the sizes and the distance matter. */
  lemma TouchSame(xsize: int, x: Rtx, ysize: int, y: Rtx, c: int, env: Env)
    requires Equal(x, y, env) && !Overlapping(xsize, ysize, c)
    ensures !Touch(xsize, x, ysize, y, c, env)
  {
    hide At;
  }

  lemma TouchRight(xsize: int, x: Rtx, ysize: int, y: Rtx, c: int, env: Env)
    requires x.Plus? && y.Plus? && Equal(x.b, y.b, env)
    ensures Touch(xsize, x, ysize, y, c, env) <==> Touch(xsize, x.a, ysize, y.a, c, env)
  {
    SumAt(x, env);
    SumAt(y, env);
    hide At;
  }

  lemma TouchLeft(xsize: int, x: Rtx, ysize: int, y: Rtx, c: int, env: Env)
    requires x.Plus? && y.Plus? && Equal(x.a, y.a, env)
    ensures Touch(xsize, x, ysize, y, c, env) <==> Touch(xsize, x.b, ysize, y.b, c, env)
  {
    SumAt(x, env);
    SumAt(y, env);
    hide At;
  }

  lemma SumAt(x: Rtx, env: Env)
    requires x.Plus?
    ensures forall k :: At(x, k, env) == At(x.a, k, env) + At(x.b, k, env)
  {
  }

  lemma ConstAt(x: Rtx, env: Env)
    requires x.ConstInt?
    ensures forall k: Coord :: At(x, k, env) == if k.Off? then x.val else 0
  {
  }

  lemma TouchConstX(xsize: int, x: Rtx, ysize: int, y: Rtx, c: int, env: Env)
    requires x.Plus? && x.b.ConstInt?
    ensures Touch(xsize, x, ysize, y, c, env) <==> Touch(xsize, x.a, ysize, y, c - x.b.val, env)
  {
    SumAt(x, env);
    ConstAt(x.b, env);
    hide At;
  }

  lemma TouchConstY(xsize: int, x: Rtx, ysize: int, y: Rtx, c: int, env: Env)
    requires y.Plus? && y.b.ConstInt?
    ensures Touch(xsize, x, ysize, y, c, env) <==> Touch(xsize, x, ysize, y.a, c + y.b.val, env)
  {
    SumAt(y, env);
    ConstAt(y.b, env);
    hide At;
  }

  /** Scaling by an exact factor. */
  lemma TouchScaled(xsize: int, x: Rtx, ysize: int, y: Rtx, c: int, k: int, env: Env)
    requires x.Mult? && y.Mult? && Equal(x.b, ConstInt(k), env) && Equal(y.b, ConstInt(k), env) && ExactScale(xsize, ysize, c, k)
    ensures Touch(xsize, x, ysize, y, c, env) <==>
      Touch(Truncated(xsize, k), x.a, Truncated(ysize, k), y.a, Truncated(c, k), env)
  {
    ScaledAt(x, k, env);
    ScaledAt(y, k, env);
    TruncatedExact(xsize, k);
    TruncatedExact(ysize, k);
    TruncatedExact(c, k);
    hide At, Truncated;
    if Touch(xsize, x, ysize, y, c, env) {
      forall i: Coord | !i.Off?
        ensures At(x.a, i, env) == At(y.a, i, env)
      {
        Cancel(At(x.a, i, env), At(y.a, i, env), k);
      }
      ScaledRanges(At(x.a, Off, env), At(y.a, Off, env), Truncated(xsize, k), Truncated(ysize, k), Truncated(c, k), k);
    }
    if Touch(Truncated(xsize, k), x.a, Truncated(ysize, k), y.a, Truncated(c, k), env) {
      RangesScaled(At(x.a, Off, env), At(y.a, Off, env), Truncated(xsize, k), Truncated(ysize, k), Truncated(c, k), k);
      assert forall i: Coord :: !i.Off? ==> At(x.a, i, env) == At(y.a, i, env);
    }
  }

  lemma RangesScaled(p: int, q: int, m: int, n: int, d: int, k: int)
    requires k > 0 && p < q + d + n && q + d < p + m
    ensures p * k < q * k + d * k + n * k && q * k + d * k < p * k + m * k
  {
    assert q * k + d * k + n * k == (q + d + n) * k;
    assert q * k + d * k == (q + d) * k && p * k + m * k == (p + m) * k;
    LessScaled(p, q + d + n, k);
    LessScaled(q + d, p + m, k);
  }

  lemma LessScaled(p: int, q: int, k: int)
    requires k > 0 && p < q
    ensures p * k < q * k
  {
    assert q * k == p * k + (q - p) * k;
    ScaledBounds(q - p, k);
  }

  lemma ScaledRanges(p: int, q: int, m: int, n: int, d: int, k: int)
    requires k > 0 && p * k < q * k + d * k + n * k && q * k + d * k < p * k + m * k
    ensures p < q + d + n && q + d < p + m
  {
    assert q * k + d * k + n * k == (q + d + n) * k;
    assert q * k + d * k == (q + d) * k && p * k + m * k == (p + m) * k;
    ScaledLess(p, q + d + n, k);
    ScaledLess(q + d, p + m, k);
  }

  lemma ScaledAt(x: Rtx, k: int, env: Env)
    requires x.Mult? && Equal(x.b, ConstInt(k), env)
    ensures forall i :: At(x, i, env) == At(x.a, i, env) * k
  {
    assert At(x.b, Off, env) == At(ConstInt(k), Off, env) == k;
    forall i: Coord
      ensures At(x, i, env) == At(x.a, i, env) * k
    {
      assert At(x.b, i, env) == At(ConstInt(k), i, env);
    }
  }

  lemma TruncatedExact(a: int, k: int)
    requires k > 0 && a % k == 0
    ensures a == Truncated(a, k) * k
  {
    var q := a / k;
    assert a == q * k;
    if a < 0 {
      Negate(q, k);
      DivUnique(-a, k, -q);
      Negate(-q, k);
    }
  }

  lemma Negate(q: int, k: int)
    ensures (-q) * k == -(q * k)
  {
  }

  lemma DivUnique(n: int, k: int, q: int)
    requires k > 0 && n == q * k
    ensures n / k == q
  {
    assert n == (n / k) * k + n % k;
    assert (q - n / k) * k == n % k;
    ScaledBounds(q - n / k, k);
  }

  lemma ScaledBounds(x: int, k: int)
    requires k > 0
    ensures x >= 1 ==> x * k >= k
    ensures x <= -1 ==> x * k <= -k
  {
  }

  lemma Cancel(p: int, q: int, k: int)
    requires k > 0 && p * k == q * k
    ensures p == q
  {
  }

  lemma ScaledLess(p: int, q: int, k: int)
    requires k > 0
    ensures p * k < q * k ==> p < q
  {
  }

  /** Two different constants that are not both numbers are in different objects. */
  lemma ConstantsApart(x: Rtx, y: Rtx, env: Env)
    requires (x.ConstInt? || x.SymbolRef? || x.LabelRef?) && (y.ConstInt? || y.SymbolRef? || y.LabelRef?) && x != y
    requires !(x.ConstInt? && y.ConstInt?)
    ensures exists k: Coord :: !k.Off? && At(x, k, env) != At(y, k, env)
  {
    var z := if x.ConstInt? then y else x;
    var k := if z.SymbolRef? then Sym(z.sym) else Lab(z.label_);
    assert At(x, k, env) != At(y, k, env);
  }

  lemma ScaleKeepsSizes(xsize: int, ysize: int, c: int, k: int)
    requires xsize > 0 && ysize > 0 && ExactScale(xsize, ysize, c, k)
    ensures Truncated(xsize, k) > 0 && Truncated(ysize, k) > 0
  {
    TruncatedExact(xsize, k);
    TruncatedExact(ysize, k);
    ScaledLess(0, Truncated(xsize, k), k);
    ScaledLess(0, Truncated(ysize, k), k);
  }

  lemma PlainParts(x: Rtx, env: Env)
    requires Plain(x) && Respects(x, env)
    ensures !x.And? && !SideEffect(x)
    ensures x.Plus? || x.Mult? ==> Plain(x.a) && Plain(x.b) && Respects(x.a, env) && Respects(x.b, env)
    ensures x.Const? ==> Plain(x.a) && Respects(x.a, env)
  {
  }

  /** A plain address that is not a part of another one is compared as it is. */
  lemma StripStays(x: Rtx, size: int)
    requires !Part(x) && !SideEffect(x)
    ensures Strip(x, size) == x
  {
  }

  lemma DecideStripped(xsize: int, x0: Rtx, ysize: int, y0: Rtx, c: int)
    requires var x := Strip(x0, xsize); !Part(x) && !SideEffect(x)
    requires var y := Strip(y0, ysize); !Part(y) && !SideEffect(y)
    ensures Decide(xsize, x0, ysize, y0, c) == Decide(xsize, Strip(x0, xsize), ysize, Strip(y0, ysize), c)
  {
    hide CanonRtx, RtxEqualForMemrefP, Overlapping, Strip;
    StripStays(Strip(x0, xsize), xsize);
    StripStays(Strip(y0, ysize), ysize);
  }

  /** If the procedure denies a conflict, and all its divisions were exact, the two ranges are disjoint. */
  lemma {:induction false} DecideSound(xsize: int, x0: Rtx, ysize: int, y0: Rtx, c: int, env: Env)
    requires xsize > 0 && ysize > 0 && Plain(x0) && Plain(y0) && Respects(x0, env) && Respects(y0, env)
    requires Decide(xsize, x0, ysize, y0, c) == Verdict(false, true)
    ensures !Touch(xsize, x0, ysize, y0, c, env)
    decreases Size(x0) + Size(y0), Wraps(x0) + Wraps(y0), 2
  {
    hide CanonRtx, RtxEqualForMemrefP, At, Respects, Plain, Touch, Equal, Overlapping, Strip, Decide;
    var x, y := Strip(x0, xsize), Strip(y0, ysize);
    StripLess(x0, xsize);
    StripLess(y0, ysize);
    StripPlain(x0, xsize, env);
    StripPlain(y0, ysize, env);
    TouchEqual(xsize, x, x0, ysize, y, y0, c, env);
    PlainParts(x, env);
    PlainParts(y, env);
    DecideStripped(xsize, x0, ysize, y0, c);
    if RtxEqualForMemrefP(x, y) {
      SoundSame(xsize, x, ysize, y, c, env);
    } else if x.Plus? || y.Plus? {
      SoundPlus(xsize, x, ysize, y, c, env);
    } else {
      SoundOther(xsize, x, ysize, y, c, env);
    }
  }

  lemma SoundSame(xsize: int, x: Rtx, ysize: int, y: Rtx, c: int, env: Env)
    requires Plain(x) && Plain(y) && Respects(x, env) && Respects(y, env) && !Part(x) && !Part(y)
    requires RtxEqualForMemrefP(x, y) && Decide(xsize, x, ysize, y, c) == Verdict(false, true)
    ensures !Touch(xsize, x, ysize, y, c, env)
  {
    hide CanonRtx, RtxEqualForMemrefP, At, Respects, Plain, Touch, Overlapping;
    PlainParts(x, env);
    PlainParts(y, env);
    StripStays(x, xsize);
    StripStays(y, ysize);
    EqualSound(x, y, env);
    TouchSame(xsize, x, ysize, y, c, env);
  }

  lemma {:induction false} SoundPlus(xsize: int, x: Rtx, ysize: int, y: Rtx, c: int, env: Env)
    requires xsize > 0 && ysize > 0 && Plain(x) && Plain(y) && Respects(x, env) && Respects(y, env) && !Part(x) && !Part(y)
    requires (x.Plus? || y.Plus?) && !RtxEqualForMemrefP(x, y) && Decide(xsize, x, ysize, y, c) == Verdict(false, true)
    ensures !Touch(xsize, x, ysize, y, c, env)
    decreases Size(x) + Size(y), Wraps(x) + Wraps(y), 1
  {
    hide CanonRtx, RtxEqualForMemrefP, At, Respects, Plain, Touch, Equal, Overlapping;
    PlainParts(x, env);
    PlainParts(y, env);
    StripStays(x, xsize);
    StripStays(y, ysize);
    hide Strip;
    if x.Plus? && y.Plus? {
      if RtxEqualForMemrefP(x.b, y.b) {
        EqualSound(x.b, y.b, env);
        TouchRight(xsize, x, ysize, y, c, env);
        DecideSound(xsize, x.a, ysize, y.a, c, env);
      } else if RtxEqualForMemrefP(x.a, y.a) {
        EqualSound(x.a, y.a, env);
        TouchLeft(xsize, x, ysize, y, c, env);
        DecideSound(xsize, x.b, ysize, y.b, c, env);
      } else if x.b.ConstInt? {
        TouchConstX(xsize, x, ysize, y, c, env);
        if y.b.ConstInt? {
          TouchConstY(xsize, x.a, ysize, y, c - x.b.val, env);
          DecideSound(xsize, x.a, ysize, y.a, c - x.b.val + y.b.val, env);
        } else {
          DecideSound(xsize, x.a, ysize, y, c - x.b.val, env);
        }
      } else {
        TouchConstY(xsize, x, ysize, y, c, env);
        DecideSound(xsize, x, ysize, y.a, c + y.b.val, env);
      }
    } else if x.Plus? && x.b.ConstInt? {
      TouchConstX(xsize, x, ysize, y, c, env);
      DecideSound(xsize, x.a, ysize, y, c - x.b.val, env);
    } else if y.Plus? {
      TouchConstY(xsize, x, ysize, y, c, env);
      DecideSound(xsize, x, ysize, y.a, c + y.b.val, env);
    }
  }

  lemma {:induction false} SoundOther(xsize: int, x: Rtx, ysize: int, y: Rtx, c: int, env: Env)
    requires xsize > 0 && ysize > 0 && Plain(x) && Plain(y) && Respects(x, env) && Respects(y, env) && !Part(x) && !Part(y)
    requires !x.Plus? && !y.Plus? && !RtxEqualForMemrefP(x, y) && Decide(xsize, x, ysize, y, c) == Verdict(false, true)
    ensures !Touch(xsize, x, ysize, y, c, env)
    decreases Size(x) + Size(y), Wraps(x) + Wraps(y), 1
  {
    hide CanonRtx, RtxEqualForMemrefP, At, Respects, Plain, Touch, Equal, Overlapping, Truncated, ExactScale;
    PlainParts(x, env);
    PlainParts(y, env);
    StripStays(x, xsize);
    StripStays(y, ysize);
    hide Strip;
    if x.Mult? && y.Mult? {
      SoundMult(xsize, x, ysize, y, c, env);
    } else if x.Const? || y.Const? {
      SoundConst(xsize, x, ysize, y, c, env);
    } else {
      SoundNumbers(xsize, x, ysize, y, c, env);
    }
  }

  lemma {:induction false} SoundMult(xsize: int, x: Rtx, ysize: int, y: Rtx, c: int, env: Env)
    requires xsize > 0 && ysize > 0 && Plain(x) && Plain(y) && Respects(x, env) && Respects(y, env)
    requires x.Mult? && y.Mult? && !RtxEqualForMemrefP(x, y) && Decide(xsize, x, ysize, y, c) == Verdict(false, true)
    ensures !Touch(xsize, x, ysize, y, c, env)
    decreases Size(x) + Size(y), Wraps(x) + Wraps(y), 0
  {
    hide CanonRtx, RtxEqualForMemrefP, At, Respects, Plain, Touch, Equal, Overlapping, Truncated, ExactScale;
    PlainParts(x, env);
    PlainParts(y, env);
    StripStays(x, xsize);
    StripStays(y, ysize);
    hide Strip;
    var xa, ya, x1, y1 := CanonRtx(x.a), CanonRtx(y.a), CanonRtx(x.b), CanonRtx(y.b);
    CanonEqual(x.a, env);
    CanonEqual(y.a, env);
    CanonEqual(x.b, env);
    CanonEqual(y.b, env);
    EqualSound(x1, y1, env);
    if RtxEqualForMemrefP(xa, ya) {
      EqualSound(xa, ya, env);
      ProductsEqual(x, y, xa, ya, x1, y1, env);
      TouchSame(xsize, x, ysize, y, c, env);
    } else {
      var k := x1.val;
      FactorsEqual(x, y, x1, y1, env);
      TouchScaled(xsize, x, ysize, y, c, k, env);
      ScaleKeepsSizes(xsize, ysize, c, k);
      DecideSound(Truncated(xsize, k), xa, Truncated(ysize, k), ya, Truncated(c, k), env);
      TouchEqual(Truncated(xsize, k), xa, x.a, Truncated(ysize, k), ya, y.a, Truncated(c, k), env);
    }
  }

  lemma ProductsEqual(x: Rtx, y: Rtx, xa: Rtx, ya: Rtx, x1: Rtx, y1: Rtx, env: Env)
    requires x.Mult? && y.Mult? && Equal(xa, x.a, env) && Equal(ya, y.a, env) && Equal(x1, x.b, env) && Equal(y1, y.b, env)
    requires Equal(xa, ya, env) && Equal(x1, y1, env)
    ensures Equal(x, y, env)
  {
    assert Equal(x.a, y.a, env) && Equal(x.b, y.b, env) by {
      hide At;
    }
    MultEqual(x, y, env);
  }

  lemma FactorsEqual(x: Rtx, y: Rtx, x1: Rtx, y1: Rtx, env: Env)
    requires x.Mult? && y.Mult? && Equal(x1, x.b, env) && Equal(y1, y.b, env) && Equal(x1, y1, env) && x1.ConstInt?
    ensures Equal(x.b, ConstInt(x1.val), env) && Equal(y.b, ConstInt(x1.val), env)
  {
    hide At;
  }

  lemma {:induction false} SoundConst(xsize: int, x: Rtx, ysize: int, y: Rtx, c: int, env: Env)
    requires xsize > 0 && ysize > 0 && Plain(x) && Plain(y) && Respects(x, env) && Respects(y, env) && !Part(x) && !Part(y)
    requires !x.Plus? && !y.Plus? && !(x.Mult? && y.Mult?) && (x.Const? || y.Const?)
    requires !RtxEqualForMemrefP(x, y) && Decide(xsize, x, ysize, y, c) == Verdict(false, true)
    ensures !Touch(xsize, x, ysize, y, c, env)
    decreases Size(x) + Size(y), Wraps(x) + Wraps(y), 0
  {
    hide CanonRtx, RtxEqualForMemrefP, At, Respects, Plain, Touch, Equal, Overlapping;
    PlainParts(x, env);
    PlainParts(y, env);
    StripStays(x, xsize);
    StripStays(y, ysize);
    hide Strip;
    var x', y' := if x.Const? then CanonRtx(x.a) else x, if y.Const? then CanonRtx(y.a) else y;
    WrapEqual(x, env);
    WrapEqual(y, env);
    TouchEqual(xsize, x', x, ysize, y', y, c, env);
    if x.Const? {
      WrapsLess(x);
    }
    if y.Const? {
      WrapsLess(y);
    }
    DecideSound(xsize, x', ysize, y', c, env);
  }

  lemma WrapEqual(x: Rtx, env: Env)
    requires Plain(x) && Respects(x, env)
    ensures
      var x' := if x.Const? then CanonRtx(x.a) else x;
      Plain(x') && Respects(x', env) && Equal(x', x, env)
  {
    hide CanonRtx;
    EqualSelf(x, env);
    if x.Const? {
      CanonEqual(x.a, env);
      assert forall k :: At(x, k, env) == At(x.a, k, env);
    }
  }

  lemma SoundNumbers(xsize: int, x: Rtx, ysize: int, y: Rtx, c: int, env: Env)
    requires xsize > 0 && ysize > 0 && Plain(x) && Plain(y) && !Part(x) && !Part(y)
    requires !x.Plus? && !y.Plus? && !(x.Mult? && y.Mult?) && !x.Const? && !y.Const?
    requires !RtxEqualForMemrefP(x, y) && Decide(xsize, x, ysize, y, c) == Verdict(false, true)
    ensures !Touch(xsize, x, ysize, y, c, env)
  {
    hide CanonRtx, Respects;
    if x.ConstInt? && y.ConstInt? {
    } else {
      hide At, RtxEqualForMemrefP;
      assert x != y by {
        EqualsItself(x);
      }
      ConstantsApart(x, y, env);
    }
  }

  lemma EqualsItself(x: Rtx)
    ensures RtxEqualForMemrefP(x, x)
  {
  }

  /** Byte `i` of the reference through `x` and byte `j` of the one through `y`, moved by `c`, are different bytes. */
  ghost predicate DifferentBytes(x: Rtx, xsize: int, i: int, y: Rtx, ysize: int, j: int, env: Env) {
    exists k: Coord ::
      Accessed(x, xsize, 0, k, env) + (if k.Off? then i else 0) != Accessed(y, ysize, 0, k, env) + (if k.Off? then j else 0)
  }

  /** The references that the procedure is asked about: plain addresses, or one side effect around one. */
  predicate Reference(x: Rtx, size: int) {
    Addressable(x) && !Part(Strip(x, size))
  }

  /**
   * The oracle is right: if it denies a conflict, no byte of the first reference is a byte of the second one, whatever
   * the registers hold, provided the sizes are known and every division on the way was exact.
   */
  lemma MemrefsConflictSound(xsize: int, x: Rtx, ysize: int, y: Rtx, c: int, env: Env, i: int, j: int)
    requires 0 <= i < xsize && 0 <= j < ysize && Reference(x, xsize) && Reference(y, ysize)
    requires Respects(x, env) && Respects(y, env)
    requires !MemrefsConflictP(xsize, x, ysize, y, c) && Decide(xsize, x, ysize, y, c).exact
    ensures DifferentBytes(x, xsize, i, y, ysize, j + c, env)
  {
    hide CanonRtx, RtxEqualForMemrefP, Decide, At;
    StripAccess(x, xsize, env);
    StripAccess(y, ysize, env);
    var x', y' := Strip(x, xsize), Strip(y, ysize);
    PlainParts(x', env);
    PlainParts(y', env);
    hide Strip, Accessed, Plain, Respects, Reference;
    DecideStripped(xsize, x, ysize, y, c);
    DecideSound(xsize, x', ysize, y', c, env);
    var k := ApartAt(xsize, x', ysize, y', c, env, i, j);
    assert Accessed(x, xsize, 0, k, env) == At(x', k, env) && Accessed(y, ysize, 0, k, env) == At(y', k, env);
  }

  /** A coordinate in which two bytes differ. */
  lemma ApartAt(xsize: int, x: Rtx, ysize: int, y: Rtx, c: int, env: Env, i: int, j: int) returns (k: Coord)
    requires 0 <= i < xsize && 0 <= j < ysize && !Touch(xsize, x, ysize, y, c, env)
    ensures At(x, k, env) + (if k.Off? then i else 0) != At(y, k, env) + (if k.Off? then j + c else 0)
  {
    hide At;
    if forall k: Coord :: !k.Off? ==> At(x, k, env) == At(y, k, env) {
      k := Off;
    } else {
      k :| !k.Off? && At(x, k, env) != At(y, k, env);
    }
  }

  lemma StripAccess(x: Rtx, size: int, env: Env)
    requires Reference(x, size) && Respects(x, env)
    ensures Plain(Strip(x, size)) && Respects(Strip(x, size), env) && !Part(Strip(x, size))
    ensures forall k :: At(Strip(x, size), k, env) == Accessed(x, size, 0, k, env)
  {
    if SideEffect(x) {
      SideEffectsEvaluated(x, size, 0, env);
    } else {
      StripPlain(x, size, env);
      PlainParts(x, env);
      assert forall k :: Accessed(x, size, 0, k, env) == At(x, k, env);
    }
  }

  // ---- when a conflict is no false alarm ----

  /** An address constant or a number: the same under every assignment. */
  predicate Fixed(x: Rtx) {
    x.ConstInt? || x.SymbolRef? || x.LabelRef?
  }

  predicate Scaled(x: Rtx) {
    x.Mult? && x.b.ConstInt?
  }

  /**
   * What offsets are counted from: a register, a symbol, a label, an index, the sum of two of these, or a multiple of
   * such a base. Any number stands for the base of the addresses that are numbers.
   */
  predicate Base(b: Rtx) {
    && Plain(b) && !Part(b) && !b.Const?
    && (b.Plus? ==> !b.a.Plus? && !b.b.ConstInt?)
    && (Scaled(b) ==> Base(b.a) && CanonRtx(b.a) == b.a)
  }

  /** `x` is the base with constants added, also below a factor. */
  predicate Offset(x: Rtx, b: Rtx) {
    || x == b
    || (x.ConstInt? && b.ConstInt?)
    || (x.Plus? && x.b.ConstInt? && Offset(x.a, b))
    || (x.Const? && Fixed(b) && Offset(x.a, b))
    || (Scaled(x) && Scaled(b) && x.b == b.b && Offset(x.a, b.a))
  }

  /** The difference of two addresses counted from these bases is known: one base, or two fixed ones. */
  predicate Comparable(b: Rtx, b': Rtx) {
    Base(b) && Base(b') && (b == b' || (Fixed(b) && Fixed(b')))
  }

  lemma {:induction false} OffsetPlain(x: Rtx, b: Rtx)
    requires Base(b) && Offset(x, b)
    ensures Plain(x) && !Part(x) && !SideEffect(x) && !x.And?
  {
    if x == b || x.ConstInt? {
    } else if x.Mult? {
      OffsetPlain(x.a, b.a);
    } else {
      OffsetPlain(x.a, b);
    }
  }

  /** Only the base itself can be a sum that does not end with a constant, or neither a sum, a number nor a factor. */
  lemma OffsetForms(x: Rtx, b: Rtx)
    requires Base(b) && Offset(x, b)
    ensures x.Plus? && x.b.ConstInt? ==> Offset(x.a, b)
    ensures x.Plus? && !x.b.ConstInt? ==> x == b
    ensures x.Const? ==> Fixed(b) && Offset(x.a, b)
    ensures x.Mult? ==> x == b || (Scaled(x) && Scaled(b) && x.b == b.b && Offset(x.a, b.a))
    ensures !x.Plus? && !x.Const? && !x.Mult? ==> x == b || (x.ConstInt? && b.ConstInt?)
  {
  }

  /** Offsets from a canonical base are canonical. */
  lemma {:induction false} OffsetCanon(x: Rtx, b: Rtx)
    requires Base(b) && Offset(x, b) && CanonRtx(b) == b
    ensures CanonRtx(x) == x
  {
    if x != b && x.Plus? {
      OffsetForms(x, b);
      OffsetCanon(x.a, b);
    }
  }

  lemma TouchOverlaps(xsize: int, x: Rtx, ysize: int, y: Rtx, c: int, env: Env)
    requires xsize > 0 && ysize > 0 && Equal(x, y, env)
    ensures Touch(xsize, x, ysize, y, c, env) <==> Overlapping(xsize, ysize, c)
  {
    hide At;
    assert At(x, Off, env) == At(y, Off, env);
  }

  /** The verdict is exact for a base that is no multiple, and an exact verdict is right in both directions. */
  ghost predicate Right(xsize: int, x: Rtx, ysize: int, y: Rtx, c: int, exact: bool, env: Env) {
    var v := Decide(xsize, x, ysize, y, c);
    (exact ==> v.exact) && (v.exact ==> (v.conflict <==> Touch(xsize, x, ysize, y, c, env)))
  }

  /** Offsets from one base conflict exactly if they touch, and those from two different fixed bases never do either. */
  lemma {:induction false} OffsetsRight(
    xsize: int, x: Rtx, ysize: int, y: Rtx, c: int, b: Rtx, b': Rtx, env: Env
  )
    requires xsize > 0 && ysize > 0 && Comparable(b, b') && Offset(x, b) && Offset(y, b')
    requires Respects(x, env) && Respects(y, env)
    ensures Right(xsize, x, ysize, y, c, !Scaled(b), env)
    decreases Size(x) + Size(y), Wraps(x) + Wraps(y), 2
  {
    hide CanonRtx, RtxEqualForMemrefP, At, Respects, Plain, Touch, Equal, Overlapping, Strip, Decide, Base, Offset, Right;
    OffsetPlain(x, b);
    OffsetPlain(y, b');
    if RtxEqualForMemrefP(x, y) {
      SameRight(xsize, x, ysize, y, c, !Scaled(b), env);
    } else if x.Plus? && y.Plus? {
      SumsRight(xsize, x, ysize, y, c, b, b', env);
    } else if x.Plus? || y.Plus? {
      SumRight(xsize, x, ysize, y, c, b, b', env);
    } else if x.Const? || y.Const? {
      ConstRight(xsize, x, ysize, y, c, b, b', env);
    } else if x.Mult? && y.Mult? {
      MultRight(xsize, x, ysize, y, c, b, b', env);
    } else {
      FixedRight(xsize, x, ysize, y, c, b, b', env);
    }
  }

  lemma SameRight(xsize: int, x: Rtx, ysize: int, y: Rtx, c: int, exact: bool, env: Env)
    requires xsize > 0 && ysize > 0 && Plain(x) && Plain(y) && !Part(x) && !Part(y) && !SideEffect(x) && !SideEffect(y)
    requires Respects(x, env) && Respects(y, env) && RtxEqualForMemrefP(x, y)
    ensures Right(xsize, x, ysize, y, c, exact, env)
  {
    hide CanonRtx, RtxEqualForMemrefP, At, Respects, Plain, Touch, Equal, Overlapping;
    StripStays(x, xsize);
    StripStays(y, ysize);
    EqualSound(x, y, env);
    TouchOverlaps(xsize, x, ysize, y, c, env);
  }

  lemma {:induction false} SumsRight(
    xsize: int, x: Rtx, ysize: int, y: Rtx, c: int, b: Rtx, b': Rtx, env: Env
  )
    requires xsize > 0 && ysize > 0 && Comparable(b, b') && Offset(x, b) && Offset(y, b')
    requires Respects(x, env) && Respects(y, env) && x.Plus? && y.Plus? && !RtxEqualForMemrefP(x, y)
    ensures Right(xsize, x, ysize, y, c, !Scaled(b), env)
    decreases Size(x) + Size(y), Wraps(x) + Wraps(y), 1
  {
    OffsetPlain(x, b);
    OffsetPlain(y, b');
    OffsetForms(x, b);
    OffsetForms(y, b');
    PlainParts(x, env);
    PlainParts(y, env);
    TermsDiffer(x, y, b, b');
    hide CanonRtx, RtxEqualForMemrefP, At, Respects, Plain, Touch, Equal, Overlapping, Base, Offset;
    StripStays(x, xsize);
    StripStays(y, ysize);
    hide Strip;
    if RtxEqualForMemrefP(x.b, y.b) {
      EqualSound(x.b, y.b, env);
      TouchRight(xsize, x, ysize, y, c, env);
      OffsetsRight(xsize, x.a, ysize, y.a, c, b, b', env);
    } else if RtxEqualForMemrefP(x.a, y.a) {
      EqualSound(x.a, y.a, env);
      TouchLeft(xsize, x, ysize, y, c, env);
      NumbersRight(xsize, x.b, ysize, y.b, c, env);
    } else if x.b.ConstInt? {
      TouchConstX(xsize, x, ysize, y, c, env);
      if y.b.ConstInt? {
        TouchConstY(xsize, x.a, ysize, y, c - x.b.val, env);
        OffsetsRight(xsize, x.a, ysize, y.a, c - x.b.val + y.b.val, b, b', env);
      } else {
        OffsetsRight(xsize, x.a, ysize, y, c - x.b.val, b, b', env);
      }
    } else {
      TouchConstY(xsize, x, ysize, y, c, env);
      OffsetsRight(xsize, x, ysize, y.a, c + y.b.val, b, b', env);
    }
  }

  /** If two sums have a term in common, both end with a constant; at least one of two different sums always does. */
  lemma TermsDiffer(x: Rtx, y: Rtx, b: Rtx, b': Rtx)
    requires Comparable(b, b') && Offset(x, b) && Offset(y, b') && x.Plus? && y.Plus? && !RtxEqualForMemrefP(x, y)
    ensures x.b.ConstInt? || y.b.ConstInt?
    ensures RtxEqualForMemrefP(x.b, y.b) || RtxEqualForMemrefP(x.a, y.a) ==> x.b.ConstInt? && y.b.ConstInt?
  {
    OffsetForms(x, b);
    OffsetForms(y, b');
    if x == y {
      EqualsItself(x);
    }
  }

  lemma NumbersRight(xsize: int, x: Rtx, ysize: int, y: Rtx, c: int, env: Env)
    requires xsize > 0 && ysize > 0 && x.ConstInt? && y.ConstInt?
    ensures Right(xsize, x, ysize, y, c, true, env)
  {
    ConstAt(x, env);
    ConstAt(y, env);
    hide At;
    assert RtxEqualForMemrefP(x, y) <==> x == y;
  }

  lemma {:induction false} SumRight(
    xsize: int, x: Rtx, ysize: int, y: Rtx, c: int, b: Rtx, b': Rtx, env: Env
  )
    requires xsize > 0 && ysize > 0 && Comparable(b, b') && Offset(x, b) && Offset(y, b')
    requires Respects(x, env) && Respects(y, env) && (x.Plus? <==> !y.Plus?) && !RtxEqualForMemrefP(x, y)
    ensures Right(xsize, x, ysize, y, c, !Scaled(b), env)
    decreases Size(x) + Size(y), Wraps(x) + Wraps(y), 1
  {
    OffsetPlain(x, b);
    OffsetPlain(y, b');
    OffsetForms(x, b);
    OffsetForms(y, b');
    PlainParts(x, env);
    PlainParts(y, env);
    assert !b.Plus?;
    hide CanonRtx, RtxEqualForMemrefP, At, Respects, Plain, Touch, Equal, Overlapping, Base, Offset;
    StripStays(x, xsize);
    StripStays(y, ysize);
    hide Strip;
    if x.Plus? {
      TouchConstX(xsize, x, ysize, y, c, env);
      OffsetsRight(xsize, x.a, ysize, y, c - x.b.val, b, b', env);
    } else {
      TouchConstY(xsize, x, ysize, y, c, env);
      OffsetsRight(xsize, x, ysize, y.a, c + y.b.val, b, b', env);
    }
  }

  lemma {:induction false} ConstRight(
    xsize: int, x: Rtx, ysize: int, y: Rtx, c: int, b: Rtx, b': Rtx, env: Env
  )
    requires xsize > 0 && ysize > 0 && Comparable(b, b') && Offset(x, b) && Offset(y, b')
    requires Respects(x, env) && Respects(y, env) && !x.Plus? && !y.Plus? && (x.Const? || y.Const?)
    requires !RtxEqualForMemrefP(x, y)
    ensures Right(xsize, x, ysize, y, c, !Scaled(b), env)
    decreases Size(x) + Size(y), Wraps(x) + Wraps(y), 1
  {
    OffsetPlain(x, b);
    OffsetPlain(y, b');
    OffsetForms(x, b);
    OffsetForms(y, b');
    var x', y' := if x.Const? then x.a else x, if y.Const? then y.a else y;
    if x.Const? {
      OffsetCanon(x.a, b);
      WrapsLess(x);
    }
    if y.Const? {
      OffsetCanon(y.a, b');
      WrapsLess(y);
    }
    WrapEqual(x, env);
    WrapEqual(y, env);
    hide CanonRtx, RtxEqualForMemrefP, At, Respects, Plain, Touch, Equal, Overlapping, Base, Offset;
    StripStays(x, xsize);
    StripStays(y, ysize);
    hide Strip;
    TouchEqual(xsize, x', x, ysize, y', y, c, env);
    OffsetsRight(xsize, x', ysize, y', c, b, b', env);
  }

  /** Both factors are the one of the base, and what is multiplied is canonical. */
  lemma FactorsMatch(x: Rtx, y: Rtx, b: Rtx, b': Rtx)
    requires Comparable(b, b') && Offset(x, b) && Offset(y, b') && x.Mult? && y.Mult? && !RtxEqualForMemrefP(x, y)
    ensures Scaled(b) && x.b == y.b == b.b && Offset(x.a, b.a) && Offset(y.a, b.a) && Comparable(b.a, b.a)
    ensures CanonRtx(x.a) == x.a && CanonRtx(y.a) == y.a
  {
    hide CanonRtx;
    OffsetForms(x, b);
    OffsetForms(y, b');
    if x == y {
      EqualsItself(x);
    }
    OffsetCanon(x.a, b.a);
    OffsetCanon(y.a, b.a);
  }

  lemma {:induction false} MultRight(
    xsize: int, x: Rtx, ysize: int, y: Rtx, c: int, b: Rtx, b': Rtx, env: Env
  )
    requires xsize > 0 && ysize > 0 && Comparable(b, b') && Offset(x, b) && Offset(y, b')
    requires Respects(x, env) && Respects(y, env) && x.Mult? && y.Mult? && !RtxEqualForMemrefP(x, y)
    ensures Right(xsize, x, ysize, y, c, !Scaled(b), env)
    decreases Size(x) + Size(y), Wraps(x) + Wraps(y), 1
  {
    hide RtxEqualForMemrefP, At, Respects, Plain, Touch, Equal, Overlapping, Truncated, ExactScale, Base, Offset, Comparable;
    FactorsMatch(x, y, b, b');
    PlainProducts(x, y, b, b', env);
    EqualsItself(x.b);
    assert CanonRtx(x.b) == x.b;
    hide CanonRtx;
    StripStays(x, xsize);
    StripStays(y, ysize);
    hide Strip;
    var k := x.b.val;
    EqualSelf(x.b, env);
    if RtxEqualForMemrefP(x.a, y.a) {
      EqualSound(x.a, y.a, env);
      MultEqual(x, y, env);
      TouchOverlaps(xsize, x, ysize, y, c, env);
    } else if ExactScale(xsize, ysize, c, k) {
      TouchScaled(xsize, x, ysize, y, c, k, env);
      ScaleKeepsSizes(xsize, ysize, c, k);
      OffsetsRight(Truncated(xsize, k), x.a, Truncated(ysize, k), y.a, Truncated(c, k), b.a, b.a, env);
    }
  }

  lemma PlainProducts(x: Rtx, y: Rtx, b: Rtx, b': Rtx, env: Env)
    requires Comparable(b, b') && Offset(x, b) && Offset(y, b') && x.Mult? && y.Mult?
    requires Respects(x, env) && Respects(y, env)
    ensures Plain(x.a) && Plain(y.a) && Respects(x.a, env) && Respects(y.a, env)
  {
    hide Offset, Base;
    OffsetPlain(x, b);
    OffsetPlain(y, b');
    hide Offset;
  }

  lemma FixedRight(
    xsize: int, x: Rtx, ysize: int, y: Rtx, c: int, b: Rtx, b': Rtx, env: Env
  )
    requires xsize > 0 && ysize > 0 && Comparable(b, b') && Offset(x, b) && Offset(y, b')
    requires !x.Plus? && !y.Plus? && !x.Const? && !y.Const? && !(x.Mult? && y.Mult?) && !RtxEqualForMemrefP(x, y)
    ensures Right(xsize, x, ysize, y, c, !Scaled(b), env)
  {
    OffsetForms(x, b);
    OffsetForms(y, b');
    if x == y {
      EqualsItself(x);
    }
    assert Fixed(x) && Fixed(y);
    if x.ConstInt? && y.ConstInt? {
      NumbersRight(xsize, x, ysize, y, c, env);
    } else {
      hide At;
      ConstantsApart(x, y, env);
    }
  }

  /** Some byte of the first reference is a byte of the second one, moved by `c`. */
  ghost predicate ShareByte(xsize: int, x: Rtx, ysize: int, y: Rtx, c: int, env: Env) {
    exists i, j :: 0 <= i < xsize && 0 <= j < ysize && SameByte(xsize, x, i, ysize, y, j, c, env)
  }

  ghost predicate SameByte(xsize: int, x: Rtx, i: int, ysize: int, y: Rtx, j: int, c: int, env: Env) {
    !DifferentBytes(x, xsize, i, y, ysize, j + c, env)
  }

  lemma SharedBytes(xsize: int, x: Rtx, ysize: int, y: Rtx, c: int, env: Env)
    requires xsize > 0 && ysize > 0 && Reference(x, xsize) && Reference(y, ysize) && Respects(x, env) && Respects(y, env)
    ensures ShareByte(xsize, x, ysize, y, c, env) <==> Touch(xsize, Strip(x, xsize), ysize, Strip(y, ysize), c, env)
  {
    hide At, Accessed, Plain, Touch, SameByte;
    StripAccess(x, xsize, env);
    StripAccess(y, ysize, env);
    var x', y' := Strip(x, xsize), Strip(y, ysize);
    hide Strip, Reference, Respects;
    if Touch(xsize, x', ysize, y', c, env) {
      var i, j := ByteShared(xsize, x, x', ysize, y, y', c, env);
    } else {
      forall i, j | 0 <= i < xsize && 0 <= j < ysize
        ensures !SameByte(xsize, x, i, ysize, y, j, c, env)
      {
        NoByteShared(xsize, x, x', i, ysize, y, y', j, c, env);
      }
    }
  }

  lemma ByteShared(xsize: int, x: Rtx, x': Rtx, ysize: int, y: Rtx, y': Rtx, c: int, env: Env) returns (i: int, j: int)
    requires xsize > 0 && ysize > 0 && Touch(xsize, x', ysize, y', c, env)
    requires forall k :: At(x', k, env) == Accessed(x, xsize, 0, k, env)
    requires forall k :: At(y', k, env) == Accessed(y, ysize, 0, k, env)
    ensures 0 <= i < xsize && 0 <= j < ysize && SameByte(xsize, x, i, ysize, y, j, c, env)
  {
    hide At, Accessed;
    var p, q := At(x', Off, env), At(y', Off, env) + c;
    i, j := if p < q then q - p else 0, if p < q then 0 else p - q;
    forall k: Coord
      ensures Accessed(x, xsize, 0, k, env) + (if k.Off? then i else 0) ==
        Accessed(y, ysize, 0, k, env) + (if k.Off? then j + c else 0)
    {
      assert At(x', k, env) == Accessed(x, xsize, 0, k, env) && At(y', k, env) == Accessed(y, ysize, 0, k, env);
    }
  }

  lemma NoByteShared(xsize: int, x: Rtx, x': Rtx, i: int, ysize: int, y: Rtx, y': Rtx, j: int, c: int, env: Env)
    requires 0 <= i < xsize && 0 <= j < ysize && !Touch(xsize, x', ysize, y', c, env)
    requires forall k :: At(x', k, env) == Accessed(x, xsize, 0, k, env)
    requires forall k :: At(y', k, env) == Accessed(y, ysize, 0, k, env)
    ensures !SameByte(xsize, x, i, ysize, y, j, c, env)
  {
    hide At, Accessed, Touch;
    var k := ApartAt(xsize, x', ysize, y', c, env, i, j);
    assert Accessed(x, xsize, 0, k, env) == At(x', k, env) && Accessed(y, ysize, 0, k, env) == At(y', k, env);
  }

  /**
   * Nor does the oracle see conflicts that are none where the distance of the two references is known: for offsets from
   * one base, and for fixed addresses, it tells of a conflict exactly if the references share a byte, under every
   * assignment. Below a factor this takes divisions that are exact.
   */
  lemma MemrefsConflictExact(xsize: int, x: Rtx, ysize: int, y: Rtx, c: int, b: Rtx, b': Rtx, env: Env)
    requires xsize > 0 && ysize > 0 && Reference(x, xsize) && Reference(y, ysize) && Respects(x, env) && Respects(y, env)
    requires Comparable(b, b') && Offset(Strip(x, xsize), b) && Offset(Strip(y, ysize), b')
    requires Scaled(b) ==> Decide(xsize, x, ysize, y, c).exact
    ensures MemrefsConflictP(xsize, x, ysize, y, c) <==> ShareByte(xsize, x, ysize, y, c, env)
  {
    hide CanonRtx, At, Decide, Offset, Base, Touch, ShareByte;
    SharedBytes(xsize, x, ysize, y, c, env);
    StripAccess(x, xsize, env);
    StripAccess(y, ysize, env);
    var x', y' := Strip(x, xsize), Strip(y, ysize);
    OffsetPlain(x', b);
    OffsetPlain(y', b');
    hide Strip, Reference, Respects, Plain, Comparable;
    DecideStripped(xsize, x, ysize, y, c);
    OffsetsRight(xsize, x', ysize, y', c, b, b', env);
  }

  /**
   * References to different symbols, to different labels, to a symbol and a label, or to one of them and a number never
   * conflict.
   */
  lemma ObjectsApart(xsize: int, x: Rtx, ysize: int, y: Rtx, c: int, b: Rtx, b': Rtx)
    requires xsize > 0 && ysize > 0 && Fixed(b) && Fixed(b') && b != b' && !(b.ConstInt? && b'.ConstInt?)
    requires Offset(Strip(x, xsize), b) && Offset(Strip(y, ysize), b')
    ensures !MemrefsConflictP(xsize, x, ysize, y, c)
  {
    hide Decide, Offset, Strip;
    OffsetPlain(Strip(x, xsize), b);
    OffsetPlain(Strip(y, ysize), b');
    DecideStripped(xsize, x, ysize, y, c);
    FixedApart(xsize, Strip(x, xsize), ysize, Strip(y, ysize), c, b, b');
  }

  lemma FixedApart(xsize: int, x: Rtx, ysize: int, y: Rtx, c: int, b: Rtx, b': Rtx)
    requires xsize > 0 && ysize > 0 && Fixed(b) && Fixed(b') && b != b' && !(b.ConstInt? && b'.ConstInt?)
    requires Offset(x, b) && Offset(y, b')
    ensures !Decide(xsize, x, ysize, y, c).conflict
  {
    hide Decide, At, Offset, Respects, CanonRtx;
    assert Comparable(b, b');
    hide Comparable, Base;
    var env: Env := (n, k) => 0;
    FixedAt(x, b, env);
    FixedAt(y, b', env);
    ConstantsApart(b, b', env);
    assert !Touch(xsize, x, ysize, y, c, env);
    hide Touch;
    OffsetsRight(xsize, x, ysize, y, c, b, b', env);
  }

  lemma {:induction false} FixedAt(x: Rtx, b: Rtx, env: Env)
    requires Fixed(b) && Offset(x, b)
    ensures Respects(x, env) && forall k: Coord :: !k.Off? ==> At(x, k, env) == At(b, k, env)
  {
    if x != b && !x.ConstInt? {
      FixedAt(x.a, b, env);
    }
  }

  // ---- when all divisions are exact ----

  /**
   * The constants of an address are multiples of `m`, and so is every constant factor a divisor of it: what is under the
   * factor has to be a multiple of the rest of `m`.
   */
  predicate Granular(x: Rtx, m: int)
    requires m >= 1
  {
    match x
    case Reg(_, _, known) => known.Some? ==> Granular(known.value, m)
    case ConstInt(v) => v % m == 0
    case SymbolRef(_) => true
    case LabelRef(_) => true
    case Plus(_, a, b) => Granular(a, m) && Granular(b, m)
    case Mult(_, a, b) =>
      var k := CanonRtx(b);
      k.ConstInt? ==> k.val >= 1 && m % k.val == 0 && m / k.val >= 1 && Granular(a, m / k.val)
    case And(_, _, _) => false
    case High(_, a) => Granular(a, m)
    case LoSum(_, a, b) => Granular(a, m) && Granular(b, m)
    case Const(_, a) => Granular(a, m)
    case PreInc(_, a) => Granular(a, m)
    case PreDec(_, a) => Granular(a, m)
    case PostInc(_, a) => Granular(a, m)
    case PostDec(_, a) => Granular(a, m)
  }

  lemma MultiplesAdd(a: int, b: int, m: int)
    requires m >= 1 && a % m == 0 && b % m == 0
    ensures (a + b) % m == 0 && (-a) % m == 0 && (a - b) % m == 0
  {
    var p, q := a / m, b / m;
    assert a == p * m && b == q * m;
    assert a + b == (p + q) * m && a - b == (p - q) * m && -a == -p * m;
    TimesMultiple(p + q, m);
    TimesMultiple(p - q, m);
    TimesMultiple(-p, m);
  }

  lemma TimesMultiple(q: int, m: int)
    requires m >= 1
    ensures q * m % m == 0
  {
    Multiples(q * m, q, m);
  }

  lemma {:induction false} PlusConstantGranular(x: Rtx, c: int, m: int)
    requires m >= 1 && Granular(x, m) && c % m == 0
    ensures Granular(PlusConstant(x, c), m)
    decreases x, 1
  {
    if c != 0 {
      PlusLoopGranular(x, c, false, m);
    }
  }

  lemma {:induction false} PlusLoopGranular(x: Rtx, c: int, all: bool, m: int)
    requires m >= 1 && Granular(x, m) && c % m == 0
    ensures Granular(PlusLoop(x, c, all), m)
    decreases x, 0
  {
    match x
    case ConstInt(v) => MultiplesAdd(v, c, m);
    case Const(_, e) => PlusLoopGranular(e, c, true, m);
    case Plus(_, a, b) =>
      if b.ConstInt? {
        MultiplesAdd(c, b.val, m);
        PlusLoopGranular(a, c + b.val, all, m);
      } else if ConstantP(b) {
        PlusConstantGranular(b, c, m);
      } else {
        AddToTermGranular(a, c, m);
        AddToTermGranular(b, c, m);
      }
    case _ =>
  }

  lemma {:induction false} AddToTermGranular(x: Rtx, c: int, m: int)
    requires m >= 1 && Granular(x, m) && c % m == 0
    ensures AddToTerm(x, c).Some? ==> Granular(AddToTerm(x, c).value, m)
    decreases x, 2
  {
    PlusConstantGranular(x, c, m);
    if x.Plus? && !(ConstantP(x.a) && ConstantP(x.b)) {
      AddToTermGranular(x.a, c, m);
      AddToTermGranular(x.b, c, m);
    }
  }

  lemma {:induction false} CanonGranular(x: Rtx, m: int)
    requires m >= 1 && Granular(x, m)
    ensures Granular(CanonRtx(x), m)
  {
    hide PlusConstant;
    if x.Reg? && x.known.Some? {
      CanonGranular(x.known.value, m);
    } else if x.Plus? {
      CanonGranular(x.a, m);
      CanonGranular(x.b, m);
      var x0, x1 := CanonRtx(x.a), CanonRtx(x.b);
      if x0.ConstInt? {
        PlusConstantGranular(x1, x0.val, m);
      } else if x1.ConstInt? {
        PlusConstantGranular(x0, x1.val, m);
      }
    }
  }

  lemma StripGranular(x: Rtx, size: int, m: int)
    requires m >= 1 && Granular(x, m) && size % m == 0
    ensures Granular(Strip(x, size), m)
  {
    hide CanonRtx;
    if SideEffect(x) {
      MultiplesAdd(size, 0, m);
      var offset := if x.PreInc? then size else if x.PreDec? then -size else 0;
      Offsets(x, size, 0, offset);
      CanonGranular(if offset != 0 then Plus(x.mode, x.a, ConstInt(offset)) else x.a, m);
    }
  }

  /** The sizes, the distance and both addresses are multiples of the same `m`. */
  predicate AllGranular(xsize: int, x: Rtx, ysize: int, y: Rtx, c: int, m: int) {
    m >= 1 && Granular(x, m) && Granular(y, m) && xsize % m == 0 && ysize % m == 0 && c % m == 0
  }

  /** With such an `m` every division on the way is exact. */
  lemma {:induction false} GranularExact(xsize: int, x0: Rtx, ysize: int, y0: Rtx, c: int, m: int)
    requires AllGranular(xsize, x0, ysize, y0, c, m)
    ensures Decide(xsize, x0, ysize, y0, c).exact
    decreases Size(x0) + Size(y0), Wraps(x0) + Wraps(y0), 1
  {
    hide CanonRtx, RtxEqualForMemrefP, Overlapping, Decide, Strip;
    var x, y := Strip(x0, xsize), Strip(y0, ysize);
    StripLess(x0, xsize);
    StripLess(y0, ysize);
    StripGranular(x0, xsize, m);
    StripGranular(y0, ysize, m);
    if x.Plus? && y.Plus? {
      GranularSums(xsize, x0, ysize, y0, c, m);
    } else if x.Plus? || y.Plus? {
      GranularSum(xsize, x0, ysize, y0, c, m);
    } else {
      GranularOther(xsize, x0, ysize, y0, c, m);
    }
  }

  lemma TermsGranular(x: Rtx, m: int)
    requires m >= 1 && Granular(x, m)
    ensures x.Plus? ==> Granular(x.a, m) && Granular(x.b, m) && (x.b.ConstInt? ==> x.b.val % m == 0)
  {
  }

  /** Nor does it matter which constant term has been moved to the distance. */
  lemma TermsAllGranular(xsize: int, x: Rtx, ysize: int, y: Rtx, c: int, m: int)
    requires AllGranular(xsize, x, ysize, y, c, m)
    ensures x.Plus? && x.b.ConstInt? ==> AllGranular(xsize, x.a, ysize, y, c - x.b.val, m)
    ensures y.Plus? && y.b.ConstInt? ==> AllGranular(xsize, x, ysize, y.a, c + y.b.val, m)
    ensures x.Plus? && y.Plus? ==> AllGranular(xsize, x.a, ysize, y.a, c, m) && AllGranular(xsize, x.b, ysize, y.b, c, m)
  {
    TermsGranular(x, m);
    TermsGranular(y, m);
    hide Granular;
    if x.Plus? && x.b.ConstInt? {
      MultiplesAdd(c, x.b.val, m);
    }
    if y.Plus? && y.b.ConstInt? {
      MultiplesAdd(c, y.b.val, m);
    }
  }

  lemma {:induction false} GranularSums(xsize: int, x0: Rtx, ysize: int, y0: Rtx, c: int, m: int)
    requires AllGranular(xsize, x0, ysize, y0, c, m)
    requires AllGranular(xsize, Strip(x0, xsize), ysize, Strip(y0, ysize), c, m)
    requires Strip(x0, xsize).Plus? && Strip(y0, ysize).Plus?
    ensures Decide(xsize, x0, ysize, y0, c).exact
    decreases Size(x0) + Size(y0), Wraps(x0) + Wraps(y0), 0
  {
    hide CanonRtx, RtxEqualForMemrefP, Overlapping;
    var x, y := Strip(x0, xsize), Strip(y0, ysize);
    StripLess(x0, xsize);
    StripLess(y0, ysize);
    TermsAllGranular(xsize, x, ysize, y, c, m);
    hide Strip, AllGranular;
    if RtxEqualForMemrefP(x, y) {
    } else if RtxEqualForMemrefP(x.b, y.b) {
      GranularExact(xsize, x.a, ysize, y.a, c, m);
    } else if RtxEqualForMemrefP(x.a, y.a) {
      GranularExact(xsize, x.b, ysize, y.b, c, m);
    } else if x.b.ConstInt? && y.b.ConstInt? {
      TermsAllGranular(xsize, x.a, ysize, y, c - x.b.val, m);
      GranularExact(xsize, x.a, ysize, y.a, c - x.b.val + y.b.val, m);
    } else if x.b.ConstInt? {
      GranularExact(xsize, x.a, ysize, y, c - x.b.val, m);
    } else if y.b.ConstInt? {
      GranularExact(xsize, x, ysize, y.a, c + y.b.val, m);
    }
  }

  lemma {:induction false} GranularSum(xsize: int, x0: Rtx, ysize: int, y0: Rtx, c: int, m: int)
    requires AllGranular(xsize, x0, ysize, y0, c, m)
    requires AllGranular(xsize, Strip(x0, xsize), ysize, Strip(y0, ysize), c, m)
    requires Strip(x0, xsize).Plus? != Strip(y0, ysize).Plus?
    ensures Decide(xsize, x0, ysize, y0, c).exact
    decreases Size(x0) + Size(y0), Wraps(x0) + Wraps(y0), 0
  {
    hide CanonRtx, RtxEqualForMemrefP, Overlapping;
    var x, y := Strip(x0, xsize), Strip(y0, ysize);
    StripLess(x0, xsize);
    StripLess(y0, ysize);
    TermsAllGranular(xsize, x, ysize, y, c, m);
    hide Strip, AllGranular;
    if RtxEqualForMemrefP(x, y) {
    } else if x.Plus? && x.b.ConstInt? {
      GranularExact(xsize, x.a, ysize, y, c - x.b.val, m);
    } else if y.Plus? && y.b.ConstInt? {
      GranularExact(xsize, x, ysize, y.a, c + y.b.val, m);
    }
  }

  lemma {:induction false} GranularOther(xsize: int, x0: Rtx, ysize: int, y0: Rtx, c: int, m: int)
    requires AllGranular(xsize, x0, ysize, y0, c, m)
    requires AllGranular(xsize, Strip(x0, xsize), ysize, Strip(y0, ysize), c, m)
    requires !Strip(x0, xsize).Plus? && !Strip(y0, ysize).Plus?
    ensures Decide(xsize, x0, ysize, y0, c).exact
    decreases Size(x0) + Size(y0), Wraps(x0) + Wraps(y0), 0
  {
    hide CanonRtx, RtxEqualForMemrefP, Overlapping, Truncated, ExactScale;
    var x, y := Strip(x0, xsize), Strip(y0, ysize);
    StripLess(x0, xsize);
    StripLess(y0, ysize);
    hide Strip;
    if RtxEqualForMemrefP(x, y) {
    } else if x.Mult? && y.Mult? {
      var x1, y1 := CanonRtx(x.b), CanonRtx(y.b);
      if RtxEqualForMemrefP(x1, y1) && x1.ConstInt? {
        EqualConstants(x1, y1);
        var k := x1.val;
        CanonGranular(x.a, m / k);
        CanonGranular(y.a, m / k);
        GranularDivides(xsize, ysize, c, m, k);
        GranularExact(Truncated(xsize, k), CanonRtx(x.a), Truncated(ysize, k), CanonRtx(y.a), Truncated(c, k), m / k);
      }
    } else if x.Const? || (y.Const? && ConstantP(x)) {
      if x.Const? {
        WrapsLess(x);
        CanonGranular(x.a, m);
      }
      if y.Const? {
        WrapsLess(y);
        CanonGranular(y.a, m);
      }
      GranularExact(xsize, if x.Const? then CanonRtx(x.a) else x, ysize, if y.Const? then CanonRtx(y.a) else y, c, m);
    }
  }

  lemma EqualConstants(x: Rtx, y: Rtx)
    requires RtxEqualForMemrefP(x, y) && x.ConstInt?
    ensures y == x
  {
  }

  lemma GranularDivides(xsize: int, ysize: int, c: int, m: int, k: int)
    requires m >= 1 && k >= 1 && m % k == 0 && m / k >= 1 && xsize % m == 0 && ysize % m == 0 && c % m == 0
    ensures ExactScale(xsize, ysize, c, k)
    ensures Truncated(xsize, k) % (m / k) == 0 && Truncated(ysize, k) % (m / k) == 0 && Truncated(c, k) % (m / k) == 0
  {
    hide Truncated;
    DividedMultiple(xsize, m, k);
    DividedMultiple(ysize, m, k);
    DividedMultiple(c, m, k);
  }

  lemma DividedMultiple(a: int, m: int, k: int)
    requires m >= 1 && k >= 1 && m % k == 0 && m / k >= 1 && a % m == 0
    ensures a % k == 0 && Truncated(a, k) % (m / k) == 0
  {
    var n, q := m / k, a / m;
    assert m == n * k && a == q * m;
    assert a == (q * n) * k;
    Multiples(a, q * n, k);
    hide Truncated;
    TruncatedExact(a, k);
    Cancel(Truncated(a, k), q * n, k);
    TimesMultiple(q, n);
  }

  /**
   * The oracle is right for all references that are multiples of a common `m`, which a caller can check beforehand: no
   * byte of one is a byte of the other when it denies a conflict.
   */
  lemma MemrefsConflictGranular(xsize: int, x: Rtx, ysize: int, y: Rtx, c: int, m: int, env: Env, i: int, j: int)
    requires 0 <= i < xsize && 0 <= j < ysize && Reference(x, xsize) && Reference(y, ysize)
    requires Respects(x, env) && Respects(y, env) && AllGranular(xsize, x, ysize, y, c, m)
    requires !MemrefsConflictP(xsize, x, ysize, y, c)
    ensures DifferentBytes(x, xsize, i, y, ysize, j + c, env)
  {
    hide Decide, Granular, Reference, DifferentBytes;
    GranularExact(xsize, x, ysize, y, c, m);
    MemrefsConflictSound(xsize, x, ysize, y, c, env, i, j);
  }

  // ---- sizes that are not known ----

  lemma {:induction false} PlusConstantPlain(x: Rtx, c: int)
    requires Plain(x)
    ensures Plain(PlusConstant(x, c))
    decreases x, 1
  {
    if c != 0 {
      PlusLoopPlain(x, c, false);
    }
  }

  lemma {:induction false} PlusLoopPlain(x: Rtx, c: int, all: bool)
    requires Plain(x)
    ensures Plain(PlusLoop(x, c, all))
    decreases x, 0
  {
    match x
    case Const(_, e) => PlusLoopPlain(e, c, true);
    case Plus(_, a, b) =>
      if b.ConstInt? {
        PlusLoopPlain(a, c + b.val, all);
      } else if ConstantP(b) {
        PlusConstantPlain(b, c);
      } else {
        AddToTermPlain(a, c);
        AddToTermPlain(b, c);
      }
    case _ =>
  }

  lemma {:induction false} AddToTermPlain(x: Rtx, c: int)
    requires Plain(x)
    ensures AddToTerm(x, c).Some? ==> Plain(AddToTerm(x, c).value)
    decreases x, 2
  {
    PlusConstantPlain(x, c);
    if x.Plus? && !(ConstantP(x.a) && ConstantP(x.b)) {
      AddToTermPlain(x.a, c);
      AddToTermPlain(x.b, c);
    }
  }

  lemma {:induction false} CanonPlain(x: Rtx)
    requires Plain(x)
    ensures Plain(CanonRtx(x))
  {
    hide PlusConstant;
    if x.Reg? && x.known.Some? {
      CanonPlain(x.known.value);
    } else if x.Plus? {
      CanonPlain(x.a);
      CanonPlain(x.b);
      var x0, x1 := CanonRtx(x.a), CanonRtx(x.b);
      if x0.ConstInt? {
        PlusConstantPlain(x1, x0.val);
      } else if x1.ConstInt? {
        PlusConstantPlain(x0, x1.val);
      }
    }
  }

  lemma PlainOperands(x: Rtx, size: int)
    requires Plain(x)
    ensures Plain(Strip(x, size)) && !Strip(x, size).And? && !Part(Strip(x, size)) && !SideEffect(Strip(x, size))
    ensures var s := Strip(x, size); (s.Plus? || s.Mult? ==> Plain(s.a) && Plain(s.b)) && (s.Const? ==> Plain(s.a))
  {
  }

  /** A reference of unknown size, given as zero, conflicts with everything. */
  lemma {:induction false} UnknownSizeConflicts(xsize: int, x0: Rtx, ysize: int, y0: Rtx, c: int)
    requires (xsize == 0 || ysize == 0) && Plain(x0) && Plain(y0)
    ensures Decide(xsize, x0, ysize, y0, c).conflict
    decreases Size(x0) + Size(y0), Wraps(x0) + Wraps(y0), 1
  {
    hide CanonRtx, RtxEqualForMemrefP, Plain, Overlapping, Decide, Strip;
    var x, y := Strip(x0, xsize), Strip(y0, ysize);
    StripLess(x0, xsize);
    StripLess(y0, ysize);
    PlainOperands(x0, xsize);
    PlainOperands(y0, ysize);
    DecideStripped(xsize, x0, ysize, y0, c);
    if x.Plus? || y.Plus? {
      UnknownSum(xsize, x, ysize, y, c);
    } else {
      UnknownOther(xsize, x, ysize, y, c);
    }
  }

  lemma {:induction false} UnknownSum(xsize: int, x: Rtx, ysize: int, y: Rtx, c: int)
    requires (xsize == 0 || ysize == 0) && Plain(x) && Plain(y) && !Part(x) && !Part(y) && (x.Plus? || y.Plus?)
    requires !SideEffect(x) && !SideEffect(y)
    ensures Decide(xsize, x, ysize, y, c).conflict
    decreases Size(x) + Size(y), Wraps(x) + Wraps(y), 0
  {
    hide CanonRtx, RtxEqualForMemrefP, Overlapping;
    StripStays(x, xsize);
    StripStays(y, ysize);
    hide Strip;
    if !RtxEqualForMemrefP(x, y) {
      if x.Plus? && y.Plus? {
        if RtxEqualForMemrefP(x.b, y.b) {
          UnknownSizeConflicts(xsize, x.a, ysize, y.a, c);
        } else if RtxEqualForMemrefP(x.a, y.a) {
          UnknownSizeConflicts(xsize, x.b, ysize, y.b, c);
        } else if x.b.ConstInt? && y.b.ConstInt? {
          UnknownSizeConflicts(xsize, x.a, ysize, y.a, c - x.b.val + y.b.val);
        } else if x.b.ConstInt? {
          UnknownSizeConflicts(xsize, x.a, ysize, y, c - x.b.val);
        } else if y.b.ConstInt? {
          UnknownSizeConflicts(xsize, x, ysize, y.a, c + y.b.val);
        }
      } else if x.Plus? && x.b.ConstInt? {
        UnknownSizeConflicts(xsize, x.a, ysize, y, c - x.b.val);
      } else if y.Plus? && y.b.ConstInt? {
        UnknownSizeConflicts(xsize, x, ysize, y.a, c + y.b.val);
      } else if y.Plus? {
      } else {
        assert !y.And? && !ConstantP(x);
      }
    }
  }

  lemma {:induction false} UnknownOther(xsize: int, x: Rtx, ysize: int, y: Rtx, c: int)
    requires (xsize == 0 || ysize == 0) && Plain(x) && Plain(y) && !Part(x) && !Part(y) && !x.Plus? && !y.Plus?
    requires !SideEffect(x) && !SideEffect(y)
    ensures Decide(xsize, x, ysize, y, c).conflict
    decreases Size(x) + Size(y), Wraps(x) + Wraps(y), 0
  {
    hide CanonRtx, RtxEqualForMemrefP, Overlapping, ExactScale, Truncated;
    StripStays(x, xsize);
    StripStays(y, ysize);
    hide Strip;
    if RtxEqualForMemrefP(x, y) {
    } else if x.Mult? && y.Mult? {
      if CanonRtx(x.b).ConstInt? {
        var k := CanonRtx(x.b).val;
        CanonPlain(x.a);
        CanonPlain(y.a);
        TruncatedZero(k);
        UnknownSizeConflicts(Truncated(xsize, k), CanonRtx(x.a), Truncated(ysize, k), CanonRtx(y.a), Truncated(c, k));
      }
    } else if x.Const? || (y.Const? && ConstantP(x)) {
      if x.Const? {
        WrapsLess(x);
        CanonPlain(x.a);
      }
      if y.Const? {
        WrapsLess(y);
        CanonPlain(y.a);
      }
      UnknownSizeConflicts(xsize, if x.Const? then CanonRtx(x.a) else x, ysize, if y.Const? then CanonRtx(y.a) else y, c);
    }
  }

  lemma TruncatedZero(k: int)
    ensures Truncated(0, k) == 0
  {
  }

  // ---- divisions that are not exact ----

  /** The ranges [k * d, k * d + xsize) and [c, c + ysize) overlap. */
  predicate ScaledOverlap(d: int, k: int, xsize: int, ysize: int, c: int) {
    k * d < c + ysize && c < k * d + xsize
  }

  /** The ranges [d, d + xsize / k) and [c / k, c / k + ysize / k) overlap, with the divisions of the procedure. */
  predicate DividedOverlap(d: int, k: int, xsize: int, ysize: int, c: int) {
    ScaledOverlap(d, 1, Truncated(xsize, k), Truncated(ysize, k), Truncated(c, k))
  }

  /**
   * The scaled comparison misses no overlap exactly if the factor is positive and the divisions are exact. With a
   * negative factor the divided sizes are negative, and no two ranges of such sizes overlap.
   */
  lemma DivisionExactIff(k: int, xsize: int, ysize: int, c: int)
    requires k != 0 && xsize >= Abs(k) && ysize >= Abs(k)
    ensures ExactScale(xsize, ysize, c, k) <==>
      forall d: int :: ScaledOverlap(d, k, xsize, ysize, c) ==> DividedOverlap(d, k, xsize, ysize, c)
  {
    if ExactScale(xsize, ysize, c, k) {
      forall d: int | ScaledOverlap(d, k, xsize, ysize, c)
        ensures DividedOverlap(d, k, xsize, ysize, c)
      {
        ExactDivision(d, k, xsize, ysize, c);
      }
    } else {
      if k > 0 {
        var d := MissedOverlap(k, xsize, ysize, c);
      } else {
        var d := NegativeMisses(k, xsize, ysize, c);
      }
    }
  }

  lemma NegativeMisses(k: int, xsize: int, ysize: int, c: int) returns (d: int)
    requires k < 0 && xsize >= Abs(k) && ysize >= Abs(k)
    ensures ScaledOverlap(d, k, xsize, ysize, c) && !DividedOverlap(d, k, xsize, ysize, c)
  {
    var n := -k;
    d := -(c / n);
    assert n * (c / n) + c % n == c;
    assert k * d == n * (c / n) by {
      assert -n * -(c / n) == n * (c / n);
    }
    assert Truncated(xsize, k) <= 0 && Truncated(ysize, k) <= 0;
  }

  lemma ExactDivision(d: int, k: int, xsize: int, ysize: int, c: int)
    requires ExactScale(xsize, ysize, c, k) && ScaledOverlap(d, k, xsize, ysize, c)
    ensures DividedOverlap(d, k, xsize, ysize, c)
  {
    hide Truncated;
    TruncatedExact(xsize, k);
    TruncatedExact(ysize, k);
    TruncatedExact(c, k);
    ScaledRanges(d, 0, Truncated(xsize, k), Truncated(ysize, k), Truncated(c, k), k);
  }

  /** What truncating division leaves over. */
  function Left(a: int, k: int): int {
    a - Truncated(a, k) * k
  }

  lemma LeftRange(a: int, k: int)
    requires k >= 1
    ensures a >= 0 ==> 0 <= Left(a, k) < k
    ensures a < 0 ==> -k < Left(a, k) <= 0
    ensures Left(a, k) == 0 <==> a % k == 0
    ensures a >= k ==> Truncated(a, k) >= 1
  {
    var n := Abs(a);
    assert n == (n / k) * k + n % k;
    Negate(n / k, k);
    if a % k == 0 {
      TruncatedExact(a, k);
    } else if Left(a, k) == 0 {
      Multiples(a, Truncated(a, k), k);
    }
    if a >= k {
      ScaledBounds(n / k, k);
      assert n / k >= 1;
    }
  }

  lemma Multiples(a: int, q: int, k: int)
    requires k >= 1 && a == q * k
    ensures a % k == 0
  {
    assert a == (a / k) * k + a % k;
    assert (q - a / k) * k == a % k;
    ScaledBounds(q - a / k, k);
  }

  /** If a division is not exact, the first distance that the divided ranges no longer cover can still be an overlap. */
  lemma MissedOverlap(k: int, xsize: int, ysize: int, c: int) returns (d: int)
    requires k >= 1 && xsize >= k && ysize >= k && !ExactScale(xsize, ysize, c, k)
    ensures ScaledOverlap(d, k, xsize, ysize, c) && !DividedOverlap(d, k, xsize, ysize, c)
  {
    hide Truncated;
    LeftRange(xsize, k);
    LeftRange(ysize, k);
    LeftRange(c, k);
    var p, m, q := Truncated(xsize, k), Truncated(ysize, k), Truncated(c, k);
    var s, t, r := Left(xsize, k), Left(ysize, k), Left(c, k);
    assert xsize == p * k + s && ysize == m * k + t && c == q * k + r;
    ScaledBounds(p, k);
    ScaledBounds(m, k);
    d := if r + t > 0 then q + m else q - p;
    assert k * (q + m) == q * k + m * k && k * (q - p) == q * k - p * k;
  }

  const SAMPLE_REG: Rtx := Reg(PMODE, 7, None)
  const SAMPLE_NEXT: Rtx := Plus(PMODE, SAMPLE_REG, ConstInt(1))

  lemma SampleInner()
    ensures Decide(1, SAMPLE_NEXT, 1, SAMPLE_REG, 0) == Verdict(false, true)
  {
    assert Decide(1, SAMPLE_REG, 1, SAMPLE_REG, -1) == Verdict(false, true);
    assert !RtxEqualForMemrefP(SAMPLE_NEXT, SAMPLE_REG);
  }

  lemma SampleOuter()
    ensures Decide(4, Mult(PMODE, SAMPLE_NEXT, ConstInt(4)), 4, Mult(PMODE, SAMPLE_REG, ConstInt(4)), 3).conflict ==
      Decide(1, SAMPLE_NEXT, 1, SAMPLE_REG, 0).conflict
  {
    hide CanonRtx, RtxEqualForMemrefP, Truncated, Overlapping, ExactScale;
    SampleFacts();
  }

  lemma SampleFacts()
    ensures !RtxEqualForMemrefP(SAMPLE_NEXT, SAMPLE_REG) && RtxEqualForMemrefP(ConstInt(4), ConstInt(4))
    ensures !RtxEqualForMemrefP(Mult(PMODE, SAMPLE_NEXT, ConstInt(4)), Mult(PMODE, SAMPLE_REG, ConstInt(4)))
    ensures CanonRtx(SAMPLE_NEXT) == SAMPLE_NEXT && CanonRtx(SAMPLE_REG) == SAMPLE_REG && CanonRtx(ConstInt(4)) == ConstInt(4)
    ensures Truncated(4, 4) == 1 && Truncated(3, 4) == 0
  {
    assert CanonRtx(SAMPLE_NEXT) == SAMPLE_NEXT && CanonRtx(SAMPLE_REG) == SAMPLE_REG && CanonRtx(ConstInt(4)) == ConstInt(4);
    assert !RtxEqualForMemrefP(SAMPLE_NEXT, SAMPLE_REG) && !RtxEqualForMemrefP(ConstInt(4), SAMPLE_REG);
  }

  lemma NextTouches(a: Rtx, b: Rtx, env: Env)
    requires forall k: Coord :: At(a, k, env) == At(b, k, env) + if k.Off? then 1 else 0
    ensures Touch(4, Mult(PMODE, a, ConstInt(4)), 4, Mult(PMODE, b, ConstInt(4)), 3, env)
  {
    var x, y := Mult(PMODE, a, ConstInt(4)), Mult(PMODE, b, ConstInt(4));
    EqualSelf(ConstInt(4), env);
    ScaledAt(x, 4, env);
    ScaledAt(y, 4, env);
    hide At;
    assert At(a, Off, env) == At(b, Off, env) + 1;
    forall k: Coord | !k.Off?
      ensures At(x, k, env) == At(y, k, env)
    {
      assert At(a, k, env) == At(b, k, env);
    }
  }

  /** Such a miss reaches the answer: the bytes 4r+4..4r+7 and 4r+3..4r+6 are taken not to conflict. */
  lemma TruncationMissesConflict(env: Env)
    ensures
      var x, y := Mult(PMODE, SAMPLE_NEXT, ConstInt(4)), Mult(PMODE, SAMPLE_REG, ConstInt(4));
      !MemrefsConflictP(4, x, 4, y, 3) && Touch(4, x, 4, y, 3, env)
  {
    hide Decide, Touch;
    SampleInner();
    SampleOuter();
    SumAt(SAMPLE_NEXT, env);
    ConstAt(ConstInt(1), env);
    hide At;
    NextTouches(SAMPLE_NEXT, SAMPLE_REG, env);
  }
}
