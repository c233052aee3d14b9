/** What the decision procedure says about addresses that an AND aligns. */
module AliasMasks {
  import opened Options
  import opened AddressRtx
  import opened AliasOracle

  // ---- sizes that are indeterminate ----

  /** A plain address without factors. */
  predicate Unscaled(x: Rtx) {
    match x
    case Reg(_, _, known) => known.Some? ==> Unscaled(known.value)
    case ConstInt(_) => true
    case SymbolRef(_) => true
    case LabelRef(_) => true
    case Plus(_, a, b) => Unscaled(a) && Unscaled(b)
    case LoSum(_, a, b) => Unscaled(a) && Unscaled(b) && !b.High? && !b.LoSum?
    case High(_, a) => Unscaled(a) && !a.High? && !a.LoSum?
    case Const(_, a) => Unscaled(a)
    case _ => false
  }

  /** Such an address, or one that an AND with a constant aligns. */
  predicate Aligned(x: Rtx) {
    if x.And? then Unscaled(x.a) && x.b.ConstInt? else Unscaled(x)
  }

  lemma {:induction false} PlusConstantUnscaled(x: Rtx, c: int)
    requires Unscaled(x)
    ensures Unscaled(PlusConstant(x, c))
    decreases x, 1
  {
    if c != 0 {
      PlusLoopUnscaled(x, c, false);
    }
  }

  lemma {:induction false} PlusLoopUnscaled(x: Rtx, c: int, all: bool)
    requires Unscaled(x)
    ensures Unscaled(PlusLoop(x, c, all))
    decreases x, 0
  {
    match x
    case Const(_, e) => PlusLoopUnscaled(e, c, true);
    case Plus(_, a, b) =>
      if b.ConstInt? {
        PlusLoopUnscaled(a, c + b.val, all);
      } else if ConstantP(b) {
        PlusConstantUnscaled(b, c);
      } else {
        AddToTermUnscaled(a, c);
        AddToTermUnscaled(b, c);
      }
    case _ =>
  }

  lemma {:induction false} AddToTermUnscaled(x: Rtx, c: int)
    requires Unscaled(x)
    ensures AddToTerm(x, c).Some? ==> Unscaled(AddToTerm(x, c).value)
    decreases x, 2
  {
    PlusConstantUnscaled(x, c);
    if x.Plus? && !(ConstantP(x.a) && ConstantP(x.b)) {
      AddToTermUnscaled(x.a, c);
      AddToTermUnscaled(x.b, c);
    }
  }

  lemma {:induction false} CanonUnscaled(x: Rtx)
    requires Unscaled(x)
    ensures Unscaled(CanonRtx(x))
  {
    hide PlusConstant;
    if x.Reg? && x.known.Some? {
      CanonUnscaled(x.known.value);
    } else if x.Plus? {
      CanonUnscaled(x.a);
      CanonUnscaled(x.b);
      var x0, x1 := CanonRtx(x.a), CanonRtx(x.b);
      if x0.ConstInt? {
        PlusConstantUnscaled(x1, x0.val);
      } else if x1.ConstInt? {
        PlusConstantUnscaled(x0, x1.val);
      }
    }
  }

  lemma {:induction false} UnscaledPlain(x: Rtx)
    requires Unscaled(x)
    ensures Plain(x)
  {
    match x
    case Reg(_, _, known) => if known.Some? { UnscaledPlain(known.value); }
    case Plus(_, a, b) => UnscaledPlain(a); UnscaledPlain(b);
    case LoSum(_, a, b) => UnscaledPlain(a); UnscaledPlain(b);
    case High(_, a) => UnscaledPlain(a);
    case Const(_, a) => UnscaledPlain(a);
    case _ =>
  }

  lemma UnscaledForms(x: Rtx)
    requires Unscaled(x)
    ensures !x.And? && !x.Mult? && !SideEffect(x)
    ensures x.Plus? ==> Unscaled(x.a) && Unscaled(x.b)
    ensures x.Const? ==> Unscaled(x.a)
    ensures x.High? ==> Unscaled(x.a) && !Part(x.a)
    ensures x.LoSum? ==> Unscaled(x.b) && !Part(x.b)
  {}

  lemma UnscaledStrip(x: Rtx, size: int)
    requires Unscaled(x)
    ensures var s := Strip(x, size);
      Unscaled(s) && !Part(s) && !SideEffect(s) && !s.Mult? && !s.And? && (s.Plus? ==> Unscaled(s.a) && Unscaled(s.b)) && (s.Const? ==> Unscaled(s.a))
  {
    hide Unscaled, WithOffset;
    UnscaledForms(x);
    UnscaledForms(Strip(x, size));
  }

  lemma StripAligned(x: Rtx, size: int)
    requires Aligned(x)
    ensures Aligned(Strip(x, size)) && !Part(Strip(x, size)) && !SideEffect(Strip(x, size)) && !Strip(x, size).Mult?
    ensures var s := Strip(x, size); (s.Plus? ==> Unscaled(s.a) && Unscaled(s.b)) && (s.Const? || s.And? ==> Unscaled(s.a))
  {
    hide Unscaled, WithOffset;
    if !x.And? {
      UnscaledStrip(x, size);
      hide Strip;
      UnscaledAligned(Strip(x, size));
    }
  }

  /** A reference that may go beyond its size, given as a negative size, conflicts with everything. */
  lemma {:induction false} IndeterminateConflicts(xsize: int, x0: Rtx, ysize: int, y0: Rtx, c: int)
    requires (xsize < 0 || ysize < 0) && Aligned(x0) && Aligned(y0)
    ensures Decide(xsize, x0, ysize, y0, c).conflict
    decreases Size(x0) + Size(y0), Wraps(x0) + Wraps(y0), 2
  {
    hide CanonRtx, RtxEqualForMemrefP, Aligned, Unscaled, Overlapping, Decide, Strip;
    var x, y := Strip(x0, xsize), Strip(y0, ysize);
    StripLess(x0, xsize);
    StripLess(y0, ysize);
    StripAligned(x0, xsize);
    StripAligned(y0, ysize);
    DecideStripped(xsize, x0, ysize, y0, c);
    if x.Plus? || y.Plus? {
      IndeterminateSum(xsize, x, ysize, y, c);
    } else {
      IndeterminateOther(xsize, x, ysize, y, c);
    }
  }

  lemma TermsAligned(x: Rtx)
    requires Aligned(x)
    ensures x.Plus? ==> Aligned(x.a) && Aligned(x.b)
    ensures x.Const? || x.And? ==> Unscaled(x.a) && Aligned(CanonRtx(x.a)) && (x.And? ==> x.b.ConstInt?)
    ensures !x.Mult? && !SideEffect(x)
  {
    if x.Plus? {
      UnscaledAligned(x.a);
      UnscaledAligned(x.b);
    }
    if x.Const? || x.And? {
      CanonUnscaled(x.a);
      UnscaledAligned(CanonRtx(x.a));
    }
  }

  lemma UnscaledAligned(x: Rtx)
    requires Unscaled(x)
    ensures Aligned(x)
  {}

  lemma {:induction false} IndeterminateSums(xsize: int, x: Rtx, ysize: int, y: Rtx, c: int)
    requires (xsize < 0 || ysize < 0) && Aligned(x) && Aligned(y) && x.Plus? && y.Plus?
    ensures Decide(xsize, x, ysize, y, c).conflict
    decreases Size(x) + Size(y), Wraps(x) + Wraps(y), 0
  {
    TermsAligned(x);
    TermsAligned(y);
    hide CanonRtx, RtxEqualForMemrefP, Overlapping, Aligned, Unscaled;
    StripStays(x, xsize);
    StripStays(y, ysize);
    hide Strip;
    if RtxEqualForMemrefP(x, y) {
    } else if RtxEqualForMemrefP(x.b, y.b) {
      IndeterminateConflicts(xsize, x.a, ysize, y.a, c);
    } else if RtxEqualForMemrefP(x.a, y.a) {
      IndeterminateConflicts(xsize, x.b, ysize, y.b, c);
    } else if x.b.ConstInt? && y.b.ConstInt? {
      IndeterminateConflicts(xsize, x.a, ysize, y.a, c - x.b.val + y.b.val);
    } else if x.b.ConstInt? {
      IndeterminateConflicts(xsize, x.a, ysize, y, c - x.b.val);
    } else if y.b.ConstInt? {
      IndeterminateConflicts(xsize, x, ysize, y.a, c + y.b.val);
    }
  }

  lemma {:induction false} IndeterminateSum(xsize: int, x: Rtx, ysize: int, y: Rtx, c: int)
    requires (xsize < 0 || ysize < 0) && Aligned(x) && Aligned(y) && !Part(x) && !Part(y) && (x.Plus? || y.Plus?)
    ensures Decide(xsize, x, ysize, y, c).conflict
    decreases Size(x) + Size(y), Wraps(x) + Wraps(y), 1
  {
    if x.Plus? && y.Plus? {
      IndeterminateSums(xsize, x, ysize, y, c);
    } else if !RtxEqualForMemrefP(x, y) && !(y.Plus? && y.b.ConstInt?) && (x.Plus? ==> !x.b.ConstInt?) {
      TermsAligned(x);
      TermsAligned(y);
      hide CanonRtx, RtxEqualForMemrefP, Overlapping, Aligned, Unscaled;
      if y.Plus? {
        StripStays(x, xsize);
        StripStays(y, ysize);
        hide Strip;
      } else {
        hide Decide, Strip;
        IndeterminateMask(xsize, x, ysize, y, c);
      }
    } else {
      IndeterminateTerm(xsize, x, ysize, y, c);
    }
  }

  lemma {:induction false} IndeterminateTerm(xsize: int, x: Rtx, ysize: int, y: Rtx, c: int)
    requires (xsize < 0 || ysize < 0) && Aligned(x) && Aligned(y) && !Part(x) && !Part(y) && (x.Plus? <==> !y.Plus?)
    requires RtxEqualForMemrefP(x, y) || (y.Plus? && y.b.ConstInt?) || (x.Plus? && x.b.ConstInt?)
    ensures Decide(xsize, x, ysize, y, c).conflict
    decreases Size(x) + Size(y), Wraps(x) + Wraps(y), 0
  {
    TermsAligned(x);
    TermsAligned(y);
    hide CanonRtx, RtxEqualForMemrefP, Overlapping, Aligned, Unscaled;
    StripStays(x, xsize);
    StripStays(y, ysize);
    hide Strip;
    if !RtxEqualForMemrefP(x, y) {
      if x.Plus? {
        IndeterminateConflicts(xsize, x.a, ysize, y, c - x.b.val);
      } else {
        IndeterminateConflicts(xsize, x, ysize, y.a, c + y.b.val);
      }
    }
  }

  lemma {:induction false} IndeterminateMask(xsize: int, x: Rtx, ysize: int, y: Rtx, c: int)
    requires (xsize < 0 || ysize < 0) && Aligned(x) && Aligned(y) && !Part(x) && !Part(y)
    requires !y.Plus? && (x.Plus? ==> !x.b.ConstInt?) && (x.And? || y.And? || x.Plus?) && !RtxEqualForMemrefP(x, y)
    ensures Decide(xsize, x, ysize, y, c).conflict
    decreases Size(x) + Size(y), Wraps(x) + Wraps(y), 0
  {
    TermsAligned(x);
    TermsAligned(y);
    hide RtxEqualForMemrefP, Overlapping, Aligned, Unscaled;
    StripStays(x, xsize);
    StripStays(y, ysize);
    hide Strip;
    if x.And? {
      IndeterminateConflicts(if y.And? || ysize < -x.b.val then -1 else xsize, CanonRtx(x.a), ysize, y, c);
    } else if y.And? {
      IndeterminateConflicts(xsize, x, if x.And? || xsize < -y.b.val then -1 else ysize, CanonRtx(y.a), c);
    }
  }

  lemma {:induction false} IndeterminateOther(xsize: int, x: Rtx, ysize: int, y: Rtx, c: int)
    requires (xsize < 0 || ysize < 0) && Aligned(x) && Aligned(y) && !Part(x) && !Part(y) && !x.Plus? && !y.Plus?
    ensures Decide(xsize, x, ysize, y, c).conflict
    decreases Size(x) + Size(y), Wraps(x) + Wraps(y), 1
  {
    TermsAligned(x);
    TermsAligned(y);
    if x.Const? {
      WrapsLess(x);
    }
    if y.Const? {
      WrapsLess(y);
    }
    hide CanonRtx, RtxEqualForMemrefP, Overlapping, Aligned, Unscaled;
    StripStays(x, xsize);
    StripStays(y, ysize);
    hide Strip;
    if !RtxEqualForMemrefP(x, y) {
      if x.And? || y.And? {
        IndeterminateMask(xsize, x, ysize, y, c);
      } else if x.Const? || (y.Const? && ConstantP(x)) {
        IndeterminateConflicts(xsize, if x.Const? then CanonRtx(x.a) else x, ysize, if y.Const? then CanonRtx(y.a) else y, c);
      }
    }
  }

  // ---- what an AND makes of an address ----

  /** An AND with the negative of `k`, which rounds an address down to a multiple of `k`. */
  predicate Mask(x: Rtx, k: int) {
    x.And? && Unscaled(x.a) && x.b == ConstInt(-k) && k >= 1
  }

  lemma MaskParts(x: Rtx, k: int, size: int, env: Env)
    requires Mask(x, k)
    ensures Strip(x, size) == x && Aligned(CanonRtx(x.a)) && Size(CanonRtx(x.a)) < Size(x)
    ensures Respects(x, env) ==> Plain(CanonRtx(x.a)) && Respects(CanonRtx(x.a), env) && Equal(CanonRtx(x.a), x, env)
  {
    UnscaledPlain(x.a);
    CanonUnscaled(x.a);
    UnscaledAligned(CanonRtx(x.a));
    if Respects(x, env) {
      CanonEqual(x.a, env);
      assert forall i :: At(x, i, env) == At(x.a, i, env);
    }
  }

  /** A smaller reference always conflicts with what is rounded down. */
  lemma {:induction false} FirstConflicts(xsize: int, x: Rtx, k: int, ysize: int, y0: Rtx, c: int)
    requires Mask(x, k) && Unscaled(y0) && ysize < k
    ensures MemrefsConflictP(xsize, x, ysize, y0, c)
    decreases Size(y0)
  {
    hide CanonRtx, RtxEqualForMemrefP, Unscaled, Overlapping, Decide, Strip;
    var y := Strip(y0, ysize);
    MaskParts(x, k, xsize, (n, i) => 0);
    StripLess(y0, ysize);
    UnscaledStrip(y0, ysize);
    DecideStripped(xsize, x, ysize, y0, c);
    FirstStep(xsize, x, k, ysize, y, c);
    if y.Plus? && y.b.ConstInt? {
      FirstConflicts(xsize, x, k, ysize, y.a, c + y.b.val);
    } else if !y.Plus? {
      UnscaledAligned(y);
      IndeterminateConflicts(-1, CanonRtx(x.a), ysize, y, c);
    }
  }

  /** What the procedure does when its first address is rounded down. */
  lemma FirstStep(xsize: int, x: Rtx, k: int, ysize: int, y: Rtx, c: int)
    requires Mask(x, k) && !y.And? && !Part(y) && !SideEffect(y) && Size(CanonRtx(x.a)) < Size(x)
    ensures Decide(xsize, x, ysize, y, c) ==
      if y.Plus? then (if y.b.ConstInt? then Decide(xsize, x, ysize, y.a, c + y.b.val) else CONFLICT)
      else Decide(if ysize < k then -1 else xsize, CanonRtx(x.a), ysize, y, c)
  {
    assert !RtxEqualForMemrefP(x, y);
    hide CanonRtx, RtxEqualForMemrefP, Overlapping, Unscaled;
    StripStays(y, ysize);
  }

  lemma SecondStep(xsize: int, x: Rtx, ysize: int, y: Rtx, k: int, c: int)
    requires Mask(y, k) && !x.And? && !x.Mult? && !Part(x) && !SideEffect(x) && Size(CanonRtx(y.a)) < Size(y)
    ensures Decide(xsize, x, ysize, y, c) ==
      if x.Plus? && x.b.ConstInt? then Decide(xsize, x.a, ysize, y, c - x.b.val)
      else Decide(xsize, x, if xsize < k then -1 else ysize, CanonRtx(y.a), c)
  {
    assert !RtxEqualForMemrefP(x, y);
    hide CanonRtx, RtxEqualForMemrefP, Overlapping, Unscaled;
    StripStays(x, xsize);
  }

  lemma {:induction false} SecondConflicts(xsize: int, x0: Rtx, ysize: int, y: Rtx, k: int, c: int)
    requires Mask(y, k) && Unscaled(x0) && xsize < k
    ensures MemrefsConflictP(xsize, x0, ysize, y, c)
    decreases Size(x0)
  {
    hide CanonRtx, RtxEqualForMemrefP, Unscaled, Overlapping, Decide, Strip;
    var x := Strip(x0, xsize);
    MaskParts(y, k, ysize, (n, i) => 0);
    StripLess(x0, xsize);
    UnscaledStrip(x0, xsize);
    DecideStripped(xsize, x0, ysize, y, c);
    SecondStep(xsize, x, ysize, y, k, c);
    if x.Plus? && x.b.ConstInt? {
      SecondConflicts(xsize, x.a, ysize, y, k, c - x.b.val);
    } else {
      UnscaledAligned(x);
      IndeterminateConflicts(xsize, x, -1, CanonRtx(y.a), c);
    }
  }

  /** Two different addresses that are both rounded down always conflict. */
  lemma BothConflict(xsize: int, x: Rtx, k: int, ysize: int, y: Rtx, m: int, c: int)
    requires Mask(x, k) && Mask(y, m) && !RtxEqualForMemrefP(x, y)
    ensures MemrefsConflictP(xsize, x, ysize, y, c)
  {
    MaskParts(x, k, xsize, (n, i) => 0);
    MaskParts(y, m, ysize, (n, i) => 0);
    hide CanonRtx, RtxEqualForMemrefP, Overlapping;
    StripStays(x, xsize);
    StripStays(y, ysize);
    IndeterminateConflicts(-1, CanonRtx(x.a), ysize, y, c);
  }

  /** A reference that is not smaller is compared with the address before it is rounded down. */
  lemma {:induction false} FirstSound(xsize: int, x: Rtx, k: int, ysize: int, y0: Rtx, c: int, env: Env)
    requires xsize > 0 && Mask(x, k) && Unscaled(y0) && ysize >= k && Respects(x, env) && Respects(y0, env)
    requires Decide(xsize, x, ysize, y0, c) == Verdict(false, true)
    ensures !Touch(xsize, x, ysize, y0, c, env)
    decreases Size(y0)
  {
    hide CanonRtx, RtxEqualForMemrefP, Unscaled, Overlapping, Decide, Strip, At, Respects, Touch, Equal;
    var y := Strip(y0, ysize);
    MaskParts(x, k, xsize, env);
    StripLess(y0, ysize);
    UnscaledStrip(y0, ysize);
    UnscaledPlain(y0);
    StripPlain(y0, ysize, env);
    EqualSelf(x, env);
    TouchEqual(xsize, x, x, ysize, y, y0, c, env);
    DecideStripped(xsize, x, ysize, y0, c);
    FirstStep(xsize, x, k, ysize, y, c);
    PlainParts(y, env);
    if y.Plus? {
      TouchConstY(xsize, x, ysize, y, c, env);
      FirstSound(xsize, x, k, ysize, y.a, c + y.b.val, env);
    } else {
      DecideSound(xsize, CanonRtx(x.a), ysize, y, c, env);
      EqualSelf(y, env);
      TouchEqual(xsize, CanonRtx(x.a), x, ysize, y, y, c, env);
    }
  }

  lemma {:induction false} SecondSound(xsize: int, x0: Rtx, ysize: int, y: Rtx, k: int, c: int, env: Env)
    requires ysize > 0 && Mask(y, k) && Unscaled(x0) && xsize >= k && Respects(x0, env) && Respects(y, env)
    requires Decide(xsize, x0, ysize, y, c) == Verdict(false, true)
    ensures !Touch(xsize, x0, ysize, y, c, env)
    decreases Size(x0)
  {
    hide CanonRtx, RtxEqualForMemrefP, Unscaled, Overlapping, Decide, Strip, At, Respects, Touch, Equal;
    var x := Strip(x0, xsize);
    MaskParts(y, k, ysize, env);
    StripLess(x0, xsize);
    UnscaledStrip(x0, xsize);
    UnscaledPlain(x0);
    StripPlain(x0, xsize, env);
    EqualSelf(y, env);
    TouchEqual(xsize, x, x0, ysize, y, y, c, env);
    DecideStripped(xsize, x0, ysize, y, c);
    SecondStep(xsize, x, ysize, y, k, c);
    PlainParts(x, env);
    if x.Plus? && x.b.ConstInt? {
      TouchConstX(xsize, x, ysize, y, c, env);
      SecondSound(xsize, x.a, ysize, y, k, c - x.b.val, env);
    } else {
      DecideSound(xsize, x, ysize, CanonRtx(y.a), c, env);
      EqualSelf(x, env);
      TouchEqual(xsize, x, x, ysize, CanonRtx(y.a), y, c, env);
    }
  }

  /** For offsets from one base, or fixed addresses, there is a conflict exactly if it touches the address before rounding. */
  lemma {:induction false} FirstExact(xsize: int, x: Rtx, k: int, ysize: int, y: Rtx, c: int, b: Rtx, b': Rtx, env: Env)
    requires xsize > 0 && Mask(x, k) && ysize >= k && Respects(x, env) && Respects(y, env) && Unscaled(y)
    requires Comparable(b, b') && !Scaled(b) && Offset(CanonRtx(x.a), b) && Offset(y, b') && !b.Plus?
    ensures MemrefsConflictP(xsize, x, ysize, y, c) <==> Touch(xsize, x, ysize, y, c, env)
    decreases Size(y)
  {
    hide CanonRtx, RtxEqualForMemrefP, Unscaled, Overlapping, Decide, Strip, At, Respects, Touch, Equal, Offset, Base;
    MaskParts(x, k, xsize, env);
    OffsetPlain(y, b');
    OffsetForms(y, b');
    PlainParts(y, env);
    FirstStep(xsize, x, k, ysize, y, c);
    if y.Plus? {
      UnscaledForms(y);
      TouchConstY(xsize, x, ysize, y, c, env);
      FirstExact(xsize, x, k, ysize, y.a, c + y.b.val, b, b', env);
    } else {
      OffsetsRight(xsize, CanonRtx(x.a), ysize, y, c, b, b', env);
      EqualSelf(y, env);
      TouchEqual(xsize, CanonRtx(x.a), x, ysize, y, y, c, env);
    }
  }

  lemma {:induction false} SecondExact(xsize: int, x: Rtx, ysize: int, y: Rtx, k: int, c: int, b: Rtx, b': Rtx, env: Env)
    requires ysize > 0 && Mask(y, k) && xsize >= k && Respects(x, env) && Respects(y, env) && Unscaled(x)
    requires Comparable(b, b') && !Scaled(b) && Offset(x, b) && Offset(CanonRtx(y.a), b')
    ensures MemrefsConflictP(xsize, x, ysize, y, c) <==> Touch(xsize, x, ysize, y, c, env)
    decreases Size(x)
  {
    hide CanonRtx, RtxEqualForMemrefP, Unscaled, Overlapping, Decide, Strip, At, Respects, Touch, Equal, Offset, Base;
    MaskParts(y, k, ysize, env);
    OffsetPlain(x, b);
    OffsetForms(x, b);
    PlainParts(x, env);
    UnscaledForms(x);
    SecondStep(xsize, x, ysize, y, k, c);
    if x.Plus? && x.b.ConstInt? {
      UnscaledForms(x);
      TouchConstX(xsize, x, ysize, y, c, env);
      SecondExact(xsize, x.a, ysize, y, k, c - x.b.val, b, b', env);
    } else {
      OffsetsRight(xsize, x, ysize, CanonRtx(y.a), c, b, b', env);
      EqualSelf(x, env);
      TouchEqual(xsize, x, x, ysize, CanonRtx(y.a), y, c, env);
    }
  }

  // ---- bytes ----

  /** Coordinate `i` of an address rounded down to a multiple of `k`; the objects are aligned, so that only the offset changes. */
  function RoundedAt(x: Rtx, k: int, i: Coord, env: Env): int
    requires k >= 1
  {
    if i.Off? then At(x, Off, env) - At(x, Off, env) % k else At(x, i, env)
  }

  /** A range that starts at a multiple of `k` and is some `k` long meets no block of `k` that it does not touch inside. */
  lemma BlocksApart(p: int, q: int, k: int, xsize: int, ysize: int)
    requires k >= 1 && 0 < xsize <= k && q % k == 0 && ysize % k == 0 && ysize >= k
    requires p >= q + ysize || p + xsize <= q
    ensures p - p % k >= q + ysize || p - p % k + xsize <= q
  {
    var m, n, l := p / k, q / k, ysize / k;
    assert p == m * k + p % k && q == n * k && ysize == l * k;
    if p >= q + ysize {
      assert (n + l) * k == q + ysize;
      LeastMultiple(m, n + l, k, p);
    } else {
      LeastMultiple(n - 1, m, k, q - 1);
      assert (n - m) * k == q - m * k;
    }
  }

  lemma LeastMultiple(m: int, n: int, k: int, p: int)
    requires k >= 1 && m * k <= p < m * k + k && n * k <= p
    ensures n <= m
  {
    if n > m {
      assert n * k == m * k + (n - m) * k;
      ScaledBounds(n - m, k);
    }
  }

  /**
   * The oracle is right about an address that is rounded down: a denied conflict means that no byte of the rounded reference,
   * which is no larger than what it is rounded to, is one of a larger reference that is aligned as the procedure assumes.
   */
  lemma MaskedSound(xsize: int, x: Rtx, k: int, ysize: int, y: Rtx, c: int, env: Env, i: int, j: int)
    requires Mask(x, k) && Unscaled(y) && Respects(x, env) && Respects(y, env)
    requires 0 <= i < xsize <= k && 0 <= j < ysize && ysize % k == 0 && (At(y, Off, env) + c) % k == 0
    requires Decide(xsize, x, ysize, y, c) == Verdict(false, true)
    ensures exists d: Coord ::
      RoundedAt(x, k, d, env) + (if d.Off? then i else 0) != At(y, d, env) + (if d.Off? then j + c else 0)
  {
    hide Decide, At, Respects, Unscaled;
    if ysize < k {
      FirstConflicts(xsize, x, k, ysize, y, c);
    }
    FirstSound(xsize, x, k, ysize, y, c, env);
    if forall d: Coord :: !d.Off? ==> At(x, d, env) == At(y, d, env) {
      BlocksApart(At(x, Off, env), At(y, Off, env) + c, k, xsize, ysize);
      assert RoundedAt(x, k, Off, env) + i != At(y, Off, env) + j + c;
    } else {
      var d: Coord :| !d.Off? && At(x, d, env) != At(y, d, env);
      assert RoundedAt(x, k, d, env) == At(x, d, env);
    }
  }
}
