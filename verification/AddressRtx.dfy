/** Address expressions, their canonical form and their equality for the alias oracle. */
module AddressRtx {
  import opened Options

  /**
   * The RTL that occurs in addresses. A register carries the unchanging value that the analysis knows for it, if any.
   * Constants and the address constants have one mode each, the others a mode that has to match.
   */
  datatype Rtx =
    | Reg(mode: nat, regno: nat, known: Option<Rtx>)
    | ConstInt(val: int)
    | SymbolRef(sym: nat)
    | LabelRef(label_: nat)
    | Plus(mode: nat, a: Rtx, b: Rtx)
    | Mult(mode: nat, a: Rtx, b: Rtx)
    | And(mode: nat, a: Rtx, b: Rtx)
    | High(mode: nat, a: Rtx)
    | LoSum(mode: nat, a: Rtx, b: Rtx)
    | Const(mode: nat, a: Rtx)
    | PreInc(mode: nat, a: Rtx)
    | PreDec(mode: nat, a: Rtx)
    | PostInc(mode: nat, a: Rtx)
    | PostDec(mode: nat, a: Rtx)

  predicate ConstantP(x: Rtx) {
    x.ConstInt? || x.SymbolRef? || x.LabelRef? || x.Const? || x.High?
  }

  // ---- measures for the recursions over canonical forms ----

  /** `CONST` adds nothing, so that folding a constant into a symbol does not make an expression larger. */
  function Size(x: Rtx): (s: nat)
    ensures s >= 1
  {
    match x
    case Reg(_, _, known) => if known.Some? then Size(known.value) + 1 else 1
    case ConstInt(_) => 1
    case SymbolRef(_) => 1
    case LabelRef(_) => 1
    case Plus(_, a, b) => Size(a) + Size(b) + 2
    case Mult(_, a, b) => Size(a) + Size(b) + 2
    case And(_, a, b) => Size(a) + Size(b) + 2
    case LoSum(_, a, b) => Size(a) + Size(b) + 2
    case High(_, a) => Size(a) + 1
    case Const(_, a) => Size(a)
    case PreInc(_, a) => Size(a) + 5
    case PreDec(_, a) => Size(a) + 5
    case PostInc(_, a) => Size(a) + 5
    case PostDec(_, a) => Size(a) + 5
  }

  /** The `CONST`s around an expression. */
  function Wraps(x: Rtx): nat {
    if x.Const? then Wraps(x.a) + 1 else 0
  }

  // ---- canonical form ----

  const VOID_MODE: nat := 0
  const PMODE: nat := 1

  function ModeOf(x: Rtx): nat {
    if x.ConstInt? then VOID_MODE else if x.SymbolRef? || x.LabelRef? then PMODE else x.mode
  }

  /** The sum of `x` and the constant `c`. */
  function PlusConstant(x: Rtx, c: int): (r: Rtx)
    ensures Size(r) <= Size(x) + 3
    decreases x, 1
  {
    if c == 0 then x else PlusLoop(x, c, false)
  }

  /** `all` is set once the sum is known to be constant altogether and needs a `CONST`. */
  function PlusLoop(x: Rtx, c: int, all: bool): (r: Rtx)
    ensures Size(r) <= Size(x) + 3
    decreases x, 0
  {
    match x
    case ConstInt(v) => ConstInt(v + c)
    case Const(_, e) => PlusLoop(e, c, true)
    case SymbolRef(_) => Finish(x, c, true)
    case LabelRef(_) => Finish(x, c, true)
    case Plus(m, a, b) =>
      if b.ConstInt? then PlusLoop(a, c + b.val, all) else
      if ConstantP(b) then Finish(Plus(m, a, PlusConstant(b, c)), 0, all) else
      var t := AddToTerm(a, c);
      var u := AddToTerm(b, c);
      if t.Some? then Finish(Plus(m, t.value, b), 0, all) else
      if u.Some? then Finish(Plus(m, a, u.value), 0, all) else Finish(x, c, all)
    case _ => Finish(x, c, all)
  }

  function Finish(x: Rtx, c: int, all: bool): (r: Rtx)
    ensures Size(r) <= Size(x) + if c != 0 then 3 else 0
  {
    var sum := if c != 0 then Plus(ModeOf(x), x, ConstInt(c)) else x;
    if sum.SymbolRef? || sum.LabelRef? || !all then sum else Const(ModeOf(x), sum)
  }

  /** Adds `c` to the first constant term of a sum, if it has one. */
  function AddToTerm(x: Rtx, c: int): (r: Option<Rtx>)
    ensures r.Some? ==> Size(r.value) <= Size(x) + 3
    decreases x, 2
  {
    if x.ConstInt? || x.SymbolRef? || x.LabelRef? || x.Const? then Some(PlusConstant(x, c)) else
    if !x.Plus? then None else
    if ConstantP(x.a) && ConstantP(x.b) then Some(PlusConstant(x, c)) else
    var t := AddToTerm(x.a, c);
    var u := AddToTerm(x.b, c);
    if t.Some? then Some(Plus(x.mode, t.value, x.b)) else
    if u.Some? then Some(Plus(x.mode, x.a, u.value)) else None
  }

  /** The canonical version of an address: registers replaced by what is known of them, constants folded. */
  function CanonRtx(x: Rtx): (r: Rtx)
    ensures r == x || Size(r) < Size(x)
  {
    match x
    case Reg(_, _, known) => if known.Some? then CanonRtx(known.value) else x
    case Plus(m, a, b) =>
      var x0, x1 := CanonRtx(a), CanonRtx(b);
      if x0 != a || x1 != b then
        (if x0.ConstInt? then PlusConstant(x1, x0.val)
         else if x1.ConstInt? then PlusConstant(x0, x1.val)
         else Plus(m, x0, x1))
      else x
    case _ => x
  }

  // ---- what an address stands for ----

  /** An address is an offset together with a multiple of every symbol and every label. */
  datatype Coord = Off | Sym(sym: nat) | Lab(label_: nat)

  type Env = (nat, Coord) -> int

  /**
   * Coordinate `k` of the value of `x` when the registers have the values of `env`. HIGH and LO_SUM stand for the whole
   * address they are a part of: that taking them off keeps the value is so by this definition, and not a result.
   */
  function At(x: Rtx, k: Coord, env: Env): int {
    match x
    case Reg(_, n, _) => env(n, k)
    case ConstInt(v) => if k.Off? then v else 0
    case SymbolRef(s) => if k == Sym(s) then 1 else 0
    case LabelRef(l) => if k == Lab(l) then 1 else 0
    case Plus(_, a, b) => At(a, k, env) + At(b, k, env)
    case Mult(_, a, b) =>
      if k.Off? then At(a, Off, env) * At(b, Off, env)
      else At(a, Off, env) * At(b, k, env) + At(a, k, env) * At(b, Off, env)
    case And(_, a, _) => At(a, k, env)
    case High(_, a) => At(a, k, env)
    case LoSum(_, _, b) => At(b, k, env)
    case Const(_, a) => At(a, k, env)
    case PreInc(_, a) => At(a, k, env)
    case PreDec(_, a) => At(a, k, env)
    case PostInc(_, a) => At(a, k, env)
    case PostDec(_, a) => At(a, k, env)
  }

  /** The registers have the values that are known of them. */
  ghost predicate Respects(x: Rtx, env: Env) {
    match x
    case Reg(_, n, known) => known.Some? ==> Respects(known.value, env) && forall k :: env(n, k) == At(known.value, k, env)
    case ConstInt(_) => true
    case SymbolRef(_) => true
    case LabelRef(_) => true
    case Plus(_, a, b) => Respects(a, env) && Respects(b, env)
    case Mult(_, a, b) => Respects(a, env) && Respects(b, env)
    case And(_, a, b) => Respects(a, env) && Respects(b, env)
    case LoSum(_, a, b) => Respects(a, env) && Respects(b, env)
    case High(_, a) => Respects(a, env)
    case Const(_, a) => Respects(a, env)
    case PreInc(_, a) => Respects(a, env)
    case PreDec(_, a) => Respects(a, env)
    case PostInc(_, a) => Respects(a, env)
    case PostDec(_, a) => Respects(a, env)
  }

  /**
   * No `AND` and no side effects, also not in known values; `HIGH` and `LO_SUM` are not applied to each other.
   */
  predicate Plain(x: Rtx) {
    match x
    case Reg(_, _, known) => known.Some? ==> Plain(known.value)
    case ConstInt(_) => true
    case SymbolRef(_) => true
    case LabelRef(_) => true
    case Plus(_, a, b) => Plain(a) && Plain(b)
    case Mult(_, a, b) => Plain(a) && Plain(b)
    case LoSum(_, a, b) => Plain(a) && Plain(b) && !b.High? && !b.LoSum?
    case High(_, a) => Plain(a) && !a.High? && !a.LoSum?
    case Const(_, a) => Plain(a)
    case _ => false
  }

  /** What the canonical form keeps: the value, and being a plain address. */
  ghost predicate Same(x: Rtx, y: Rtx, c: int, env: Env) {
    && (forall k :: At(y, k, env) == At(x, k, env) + if k.Off? then c else 0)
    && Respects(y, env) && Plain(y)
  }

  lemma {:induction false} PlusConstantSame(x: Rtx, c: int, env: Env)
    requires Plain(x) && Respects(x, env)
    ensures Same(x, PlusConstant(x, c), c, env)
    decreases x, 1
  {
    if c != 0 {
      PlusLoopSame(x, c, false, env);
    }
  }

  lemma FinishSame(x: Rtx, c: int, all: bool, env: Env)
    requires Plain(x) && Respects(x, env)
    ensures Same(x, Finish(x, c, all), c, env)
  {
    hide At, Plain, Respects;
    var sum := if c != 0 then Plus(ModeOf(x), x, ConstInt(c)) else x;
    if c != 0 {
      AddedSame(ModeOf(x), x, c, env);
    }
    assert Same(x, sum, c, env);
    WrappedSame(ModeOf(x), sum, env);
    SameTrans(x, sum, Const(ModeOf(x), sum), c, env);
  }

  lemma AddedSame(m: nat, x: Rtx, c: int, env: Env)
    requires Plain(x) && Respects(x, env)
    ensures Same(x, Plus(m, x, ConstInt(c)), c, env)
  {
    var n := ConstInt(c);
    assert Plain(n) && Respects(n, env) && forall k: Coord :: At(n, k, env) == if k.Off? then c else 0;
  }

  lemma WrappedSame(m: nat, x: Rtx, env: Env)
    requires Plain(x) && Respects(x, env)
    ensures Same(x, Const(m, x), 0, env)
  {}

  lemma {:induction false} PlusLoopSame(x: Rtx, c: int, all: bool, env: Env)
    requires Plain(x) && Respects(x, env)
    ensures Same(x, PlusLoop(x, c, all), c, env)
    decreases x, 0
  {
    match x
    case ConstInt(v) =>
    case Const(_, e) => PlusLoopSame(e, c, true, env);
    case SymbolRef(_) => FinishSame(x, c, true, env);
    case LabelRef(_) => FinishSame(x, c, true, env);
    case Plus(m, a, b) =>
      if b.ConstInt? {
        PlusLoopSame(a, c + b.val, all, env);
      } else if ConstantP(b) {
        PlusConstantSame(b, c, env);
        FinishSame(Plus(m, a, PlusConstant(b, c)), 0, all, env);
      } else {
        AddToTermSame(a, c, env);
        AddToTermSame(b, c, env);
        var t, u := AddToTerm(a, c), AddToTerm(b, c);
        if t.Some? {
          FinishSame(Plus(m, t.value, b), 0, all, env);
        } else if u.Some? {
          FinishSame(Plus(m, a, u.value), 0, all, env);
        } else {
          FinishSame(x, c, all, env);
        }
      }
    case _ => FinishSame(x, c, all, env);
  }

  lemma {:induction false} AddToTermSame(x: Rtx, c: int, env: Env)
    requires Plain(x) && Respects(x, env)
    ensures AddToTerm(x, c).Some? ==> Same(x, AddToTerm(x, c).value, c, env)
    decreases x, 2
  {
    if x.ConstInt? || x.SymbolRef? || x.LabelRef? || x.Const? || (x.Plus? && ConstantP(x.a) && ConstantP(x.b)) {
      PlusConstantSame(x, c, env);
    } else if x.Plus? {
      AddToTermSame(x.a, c, env);
      AddToTermSame(x.b, c, env);
    }
  }

  lemma SameTrans(x: Rtx, y: Rtx, z: Rtx, d: int, env: Env)
    requires forall k :: At(y, k, env) == At(x, k, env) + if k.Off? then d else 0
    requires Same(y, z, 0, env)
    ensures Same(x, z, d, env)
  {
    hide At;
  }

  lemma SumSame(x: Rtx, c: int, r: Rtx, m: nat, env: Env)
    requires Same(x, r, c, env)
    ensures Same(Plus(m, x, ConstInt(c)), r, 0, env) && Same(Plus(m, ConstInt(c), x), r, 0, env)
  {
  }

  /** Canonicalising an address does not change what it stands for. */
  lemma {:induction false} CanonSame(x: Rtx, env: Env)
    requires Plain(x) && Respects(x, env)
    ensures Same(x, CanonRtx(x), 0, env)
  {
    hide PlusConstant;
    if x.Reg? && x.known.Some? {
      CanonSame(x.known.value, env);
    } else if x.Plus? {
      CanonSame(x.a, env);
      CanonSame(x.b, env);
      CanonSum(x, CanonRtx(x.a), CanonRtx(x.b), env);
    }
  }

  lemma CanonSum(x: Rtx, x0: Rtx, x1: Rtx, env: Env)
    requires x.Plus? && Plain(x) && Respects(x, env) && x0 == CanonRtx(x.a) && x1 == CanonRtx(x.b)
    requires Same(x.a, x0, 0, env) && Same(x.b, x1, 0, env)
    ensures Same(x, CanonRtx(x), 0, env)
  {
    hide PlusConstant;
    var y := Plus(x.mode, x0, x1);
    assert forall k :: At(y, k, env) == At(x0, k, env) + At(x1, k, env) == At(x, k, env);
    assert Respects(y, env) && Plain(y);
    if x0.ConstInt? {
      PlusConstantSame(x1, x0.val, env);
      SumSame(x1, x0.val, PlusConstant(x1, x0.val), x.mode, env);
      SameTrans(x, y, PlusConstant(x1, x0.val), 0, env);
    } else if x1.ConstInt? {
      PlusConstantSame(x0, x1.val, env);
      SumSame(x0, x1.val, PlusConstant(x0, x1.val), x.mode, env);
      SameTrans(x, y, PlusConstant(x0, x1.val), 0, env);
    }
  }

  // ---- folding ----

  /** A register, symbol or label with any number of constants added. */
  predicate Nest(x: Rtx, b: Rtx) {
    && (b.Reg? || b.SymbolRef? || b.LabelRef?)
    && (x == b || (x.Plus? && x.b.ConstInt? && Nest(x.a, b)) || (x.Const? && Nest(x.a, b)))
  }

  function Constants(x: Rtx): int {
    if x.Plus? && x.b.ConstInt? then Constants(x.a) + x.b.val else if x.Const? then Constants(x.a) else 0
  }

  /** All that is added is one constant that is not zero. */
  predicate Folded(r: Rtx, b: Rtx, c: int) {
    var sum := if r.Const? then r.a else r;
    sum == if c == 0 then b else Plus(ModeOf(b), b, ConstInt(c))
  }

  /** Adding a constant folds it with all the others. */
  lemma {:induction false} PlusConstantFolds(x: Rtx, b: Rtx, c: int)
    requires Nest(x, b) && c != 0
    ensures Folded(PlusConstant(x, c), b, Constants(x) + c)
  {
    PlusLoopFolds(x, b, c, false);
  }

  lemma {:induction false} PlusLoopFolds(x: Rtx, b: Rtx, c: int, all: bool)
    requires Nest(x, b)
    ensures Folded(PlusLoop(x, c, all), b, Constants(x) + c)
  {
    if x != b {
      if x.Plus? {
        PlusLoopFolds(x.a, b, c + x.b.val, all);
      } else {
        PlusLoopFolds(x.a, b, c, true);
      }
    }
  }

  // ---- no known value is left ----

  /** No term of the sum is a register whose value is known. */
  predicate Replaced(x: Rtx) {
    match x
    case Reg(_, _, known) => known.None?
    case Plus(_, a, b) => Replaced(a) && Replaced(b)
    case _ => true
  }

  lemma {:induction false} PlusConstantReplaced(x: Rtx, c: int)
    requires Replaced(x)
    ensures Replaced(PlusConstant(x, c))
    decreases x, 1
  {
    if c != 0 {
      PlusLoopReplaced(x, c, false);
    }
  }

  lemma {:induction false} PlusLoopReplaced(x: Rtx, c: int, all: bool)
    requires all || Replaced(x)
    ensures Replaced(PlusLoop(x, c, all))
    ensures all ==> ConstantP(PlusLoop(x, c, all))
    decreases x, 0
  {
    match x
    case Const(_, e) => PlusLoopReplaced(e, c, true);
    case Plus(_, a, b) =>
      if b.ConstInt? {
        PlusLoopReplaced(a, c + b.val, all);
      } else if !all {
        PlusConstantReplaced(b, c);
        AddToTermReplaced(a, c);
        AddToTermReplaced(b, c);
      }
    case _ =>
  }

  lemma {:induction false} AddToTermReplaced(x: Rtx, c: int)
    requires Replaced(x)
    ensures AddToTerm(x, c).Some? ==> Replaced(AddToTerm(x, c).value)
    decreases x, 2
  {
    if x.ConstInt? || x.SymbolRef? || x.LabelRef? || x.Const? || (x.Plus? && ConstantP(x.a) && ConstantP(x.b)) {
      PlusConstantReplaced(x, c);
    } else if x.Plus? {
      AddToTermReplaced(x.a, c);
      AddToTermReplaced(x.b, c);
    }
  }

  /** What is known of a register has been put in its place, and there is nothing left to do. */
  lemma {:induction false} CanonReplaces(x: Rtx)
    ensures Replaced(CanonRtx(x)) && CanonRtx(CanonRtx(x)) == CanonRtx(x)
  {
    hide PlusConstant;
    if x.Reg? && x.known.Some? {
      CanonReplaces(x.known.value);
    } else if x.Plus? {
      CanonReplaces(x.a);
      CanonReplaces(x.b);
      var x0, x1 := CanonRtx(x.a), CanonRtx(x.b);
      PlusConstantReplaced(x1, if x0.ConstInt? then x0.val else 0);
      PlusConstantReplaced(x0, if x1.ConstInt? then x1.val else 0);
    }
    ReplacedCanon(CanonRtx(x));
  }

  lemma {:induction false} ReplacedCanon(x: Rtx)
    requires Replaced(x)
    ensures CanonRtx(x) == x
  {
    if x.Plus? {
      ReplacedCanon(x.a);
      ReplacedCanon(x.b);
    }
  }

  // ---- equality ----

  lemma WrapsLess(x: Rtx)
    requires x.Const?
    ensures Size(CanonRtx(x.a)) < Size(x) || (CanonRtx(x.a) == x.a && Wraps(x.a) < Wraps(x))
  {
  }

  /** Two canonical addresses look identical. */
  predicate RtxEqualForMemrefP(x: Rtx, y: Rtx)
    decreases Size(x), Wraps(x), 1
  {
    if x == y then true else
    match (x, y)
    case (Reg(m, n, _), Reg(m', n', _)) => m == m' && n == n'
    case (Plus(m, a, b), Plus(m', a', b')) =>
      && m == m'
      && ((RtxEqualForMemrefP(a, a') && RtxEqualForMemrefP(b, b')) || (RtxEqualForMemrefP(a, b') && RtxEqualForMemrefP(b, a')))
    case (Mult(m, a, b), Mult(m', a', b')) => m == m' && EqualCommuted(x, a, b, a', b')
    case (And(m, a, b), And(m', a', b')) => m == m' && EqualCommuted(x, a, b, a', b')
    case (LoSum(m, a, b), LoSum(m', a', b')) =>
      && m == m'
      && RtxEqualForMemrefP(CanonRtx(b), CanonRtx(b'))
      && RtxEqualForMemrefP(CanonRtx(a), CanonRtx(a'))
    case (High(m, a), High(m', a')) => m == m' && RtxEqualForMemrefP(CanonRtx(a), CanonRtx(a'))
    case (Const(m, a), Const(m', a')) => WrapsLess(x); m == m' && RtxEqualForMemrefP(CanonRtx(a), CanonRtx(a'))
    case (PreInc(m, a), PreInc(m', a')) => m == m' && RtxEqualForMemrefP(CanonRtx(a), CanonRtx(a'))
    case (PreDec(m, a), PreDec(m', a')) => m == m' && RtxEqualForMemrefP(CanonRtx(a), CanonRtx(a'))
    case (PostInc(m, a), PostInc(m', a')) => m == m' && RtxEqualForMemrefP(CanonRtx(a), CanonRtx(a'))
    case (PostDec(m, a), PostDec(m', a')) => m == m' && RtxEqualForMemrefP(CanonRtx(a), CanonRtx(a'))
    case _ => false
  }

  /** The operands of a commutative operation match in one order or the other. */
  predicate EqualCommuted(x: Rtx, a: Rtx, b: Rtx, a': Rtx, b': Rtx)
    requires Size(a) + Size(b) < Size(x)
    decreases Size(x), 0, 0
  {
    || (RtxEqualForMemrefP(CanonRtx(a), CanonRtx(a')) && RtxEqualForMemrefP(CanonRtx(b), CanonRtx(b')))
    || (RtxEqualForMemrefP(CanonRtx(a), CanonRtx(b')) && RtxEqualForMemrefP(CanonRtx(b), CanonRtx(a')))
  }

  ghost predicate Equal(x: Rtx, y: Rtx, env: Env) {
    forall k :: At(x, k, env) == At(y, k, env)
  }

  /** Equal addresses have equal values, whatever the registers hold. */
  lemma {:induction false} EqualSound(x: Rtx, y: Rtx, env: Env)
    requires Plain(x) && Plain(y) && Respects(x, env) && Respects(y, env)
    requires RtxEqualForMemrefP(x, y)
    ensures Equal(x, y, env)
    decreases Size(x), Wraps(x), 1
  {
    hide CanonRtx, Equal, At;
    EqualParts(x, y, env);
    if x != y {
      match x
      case Plus(_, a, b) =>
        if RtxEqualForMemrefP(a, y.a) && RtxEqualForMemrefP(b, y.b) {
          EqualSound(a, y.a, env);
          EqualSound(b, y.b, env);
        } else {
          EqualSound(a, y.b, env);
          EqualSound(b, y.a, env);
        }
      case Mult(_, a, b) => MultSound(x, y, env);
      case LoSum(_, a, b) => EqualCanon(b, y.b, env);
      case High(_, a) => EqualCanon(a, y.a, env);
      case Const(_, a) =>
        WrapsLess(x);
        EqualCanon(a, y.a, env);
      case _ =>
    }
  }

  /** Equality follows from that of the operands. */
  lemma EqualParts(x: Rtx, y: Rtx, env: Env)
    ensures x == y ==> Equal(x, y, env)
    ensures x.Reg? && y.Reg? && x.regno == y.regno ==> Equal(x, y, env)
    ensures x.Plus? && y.Plus? && Equal(x.a, y.a, env) && Equal(x.b, y.b, env) ==> Equal(x, y, env)
    ensures x.Plus? && y.Plus? && Equal(x.a, y.b, env) && Equal(x.b, y.a, env) ==> Equal(x, y, env)
    ensures x.LoSum? && y.LoSum? && Equal(x.b, y.b, env) ==> Equal(x, y, env)
    ensures ((x.High? && y.High?) || (x.Const? && y.Const?)) && Equal(x.a, y.a, env) ==> Equal(x, y, env)
  {
    if x.Plus? && y.Plus? {
      SumEqual(x, y, env);
    } else {
      if x.LoSum? || x.High? || x.Const? {
        var x' := if x.LoSum? then x.b else x.a;
        assert forall k :: At(x, k, env) == At(x', k, env);
      }
      if y.LoSum? || y.High? || y.Const? {
        var y' := if y.LoSum? then y.b else y.a;
        assert forall k :: At(y, k, env) == At(y', k, env);
      }
    }
  }

  lemma SumEqual(x: Rtx, y: Rtx, env: Env)
    requires x.Plus? && y.Plus?
    ensures Equal(x.a, y.a, env) && Equal(x.b, y.b, env) ==> Equal(x, y, env)
    ensures Equal(x.a, y.b, env) && Equal(x.b, y.a, env) ==> Equal(x, y, env)
  {
    assert forall k :: At(x, k, env) == At(x.a, k, env) + At(x.b, k, env);
    assert forall k :: At(y, k, env) == At(y.a, k, env) + At(y.b, k, env);
    hide At;
  }

  lemma {:induction false} EqualCanon(x: Rtx, y: Rtx, env: Env)
    requires Plain(x) && Plain(y) && Respects(x, env) && Respects(y, env)
    requires RtxEqualForMemrefP(CanonRtx(x), CanonRtx(y))
    ensures Equal(x, y, env)
    decreases Size(CanonRtx(x)), Wraps(CanonRtx(x)), 2
  {
    hide At, CanonRtx, RtxEqualForMemrefP, Respects, Plain;
    CanonSame(x, env);
    CanonSame(y, env);
    EqualSound(CanonRtx(x), CanonRtx(y), env);
  }

  lemma {:induction false} MultSound(x: Rtx, y: Rtx, env: Env)
    requires x.Mult? && y.Mult? && Plain(x) && Plain(y) && Respects(x, env) && Respects(y, env)
    requires RtxEqualForMemrefP(x, y) && x != y
    ensures Equal(x, y, env)
    decreases Size(x), 0, 0
  {
    hide CanonRtx, Equal, At;
    if RtxEqualForMemrefP(CanonRtx(x.a), CanonRtx(y.a)) && RtxEqualForMemrefP(CanonRtx(x.b), CanonRtx(y.b)) {
      EqualCanon(x.a, y.a, env);
      EqualCanon(x.b, y.b, env);
      MultEqual(x, y, env);
    } else {
      EqualCanon(x.a, y.b, env);
      EqualCanon(x.b, y.a, env);
      var z := Mult(y.mode, y.b, y.a);
      MultEqual(x, z, env);
      MultSwap(y, z, env);
      EqualTrans(x, z, y, env);
    }
  }

  lemma EqualTrans(x: Rtx, y: Rtx, z: Rtx, env: Env)
    requires Equal(x, y, env) && Equal(y, z, env)
    ensures Equal(x, z, env)
  {
    hide At;
  }

  lemma MultEqual(x: Rtx, y: Rtx, env: Env)
    requires x.Mult? && y.Mult? && Equal(x.a, y.a, env) && Equal(x.b, y.b, env)
    ensures Equal(x, y, env)
  {
    forall k
      ensures At(x, k, env) == At(y, k, env)
    {
      assert At(x.a, Off, env) == At(y.a, Off, env) && At(x.b, Off, env) == At(y.b, Off, env);
      assert At(x.a, k, env) == At(y.a, k, env) && At(x.b, k, env) == At(y.b, k, env);
    }
  }

  lemma MultSwap(y: Rtx, z: Rtx, env: Env)
    requires y.Mult? && z == Mult(y.mode, y.b, y.a)
    ensures Equal(z, y, env)
  {
    forall k
      ensures At(z, k, env) == At(y, k, env)
    {
    }
  }

  // ---- equality without canonical forms ----

  /** No register with a known value. */
  predicate Unknown(x: Rtx) {
    match x
    case Reg(_, _, known) => known.None?
    case ConstInt(_) => true
    case SymbolRef(_) => true
    case LabelRef(_) => true
    case Plus(_, a, b) => Unknown(a) && Unknown(b)
    case Mult(_, a, b) => Unknown(a) && Unknown(b)
    case And(_, a, b) => Unknown(a) && Unknown(b)
    case LoSum(_, a, b) => Unknown(a) && Unknown(b)
    case High(_, a) => Unknown(a)
    case Const(_, a) => Unknown(a)
    case PreInc(_, a) => Unknown(a)
    case PreDec(_, a) => Unknown(a)
    case PostInc(_, a) => Unknown(a)
    case PostDec(_, a) => Unknown(a)
  }

  lemma {:induction false} UnknownCanon(x: Rtx)
    requires Unknown(x)
    ensures CanonRtx(x) == x
  {
    if x.Plus? {
      UnknownCanon(x.a);
      UnknownCanon(x.b);
    }
  }

  /** The operands of sums, products and ANDs in a fixed order, given any order of expressions. */
  function Sorted(x: Rtx, less: (Rtx, Rtx) -> bool): Rtx {
    match x
    case Plus(m, a, b) => var p, q := Sorted(a, less), Sorted(b, less); if less(q, p) then Plus(m, q, p) else Plus(m, p, q)
    case Mult(m, a, b) => var p, q := Sorted(a, less), Sorted(b, less); if less(q, p) then Mult(m, q, p) else Mult(m, p, q)
    case And(m, a, b) => var p, q := Sorted(a, less), Sorted(b, less); if less(q, p) then And(m, q, p) else And(m, p, q)
    case LoSum(m, a, b) => LoSum(m, Sorted(a, less), Sorted(b, less))
    case High(m, a) => High(m, Sorted(a, less))
    case Const(m, a) => Const(m, Sorted(a, less))
    case PreInc(m, a) => PreInc(m, Sorted(a, less))
    case PreDec(m, a) => PreDec(m, Sorted(a, less))
    case PostInc(m, a) => PostInc(m, Sorted(a, less))
    case PostDec(m, a) => PostDec(m, Sorted(a, less))
    case _ => x
  }

  /** Of two different expressions exactly one comes first. */
  ghost predicate Total(less: (Rtx, Rtx) -> bool) {
    forall x: Rtx, y: Rtx :: x != y ==> less(x, y) != less(y, x)
  }

  /** Without known values, addresses are found equal exactly if they differ only in the order of such operands. */
  lemma {:induction false} EqualIffSorted(x: Rtx, y: Rtx, less: (Rtx, Rtx) -> bool)
    requires Unknown(x) && Unknown(y) && Total(less)
    ensures RtxEqualForMemrefP(x, y) <==> Sorted(x, less) == Sorted(y, less)
    decreases x
  {
    hide Total, RtxEqualForMemrefP, Sorted;
    if BothPairs(x, y) {
      EqualIffSorted(x.a, y.a, less);
      EqualIffSorted(x.b, y.b, less);
      EqualIffSorted(x.a, y.b, less);
      EqualIffSorted(x.b, y.a, less);
      PairsIff(x, y, less);
    } else if x.LoSum? && y.LoSum? {
      EqualIffSorted(x.a, y.a, less);
      EqualIffSorted(x.b, y.b, less);
      LoSumsIff(x, y, less);
    } else if Inner(x) && Inner(y) {
      EqualIffSorted(x.a, y.a, less);
      InnerIff(x, y, less);
    } else {
      LeavesIff(x, y, less);
    }
  }

  predicate BothPairs(x: Rtx, y: Rtx) {
    (x.Plus? && y.Plus?) || (x.Mult? && y.Mult?) || (x.And? && y.And?)
  }

  function Kind(x: Rtx): nat {
    match x
    case High(_, _) => 1
    case Const(_, _) => 2
    case PreInc(_, _) => 3
    case PreDec(_, _) => 4
    case PostInc(_, _) => 5
    case PostDec(_, _) => 6
    case _ => 0
  }

  lemma PairsIff(x: Rtx, y: Rtx, less: (Rtx, Rtx) -> bool)
    requires Unknown(x) && Unknown(y) && Total(less) && BothPairs(x, y)
    requires RtxEqualForMemrefP(x.a, y.a) <==> Sorted(x.a, less) == Sorted(y.a, less)
    requires RtxEqualForMemrefP(x.b, y.b) <==> Sorted(x.b, less) == Sorted(y.b, less)
    requires RtxEqualForMemrefP(x.a, y.b) <==> Sorted(x.a, less) == Sorted(y.b, less)
    requires RtxEqualForMemrefP(x.b, y.a) <==> Sorted(x.b, less) == Sorted(y.a, less)
    ensures RtxEqualForMemrefP(x, y) <==> Sorted(x, less) == Sorted(y, less)
  {
    EqualPairs(x, y);
    SortedPairs(Sorted(x.a, less), Sorted(x.b, less), Sorted(y.a, less), Sorted(y.b, less), less);
    hide Total, RtxEqualForMemrefP, Unknown;
  }

  lemma LeavesIff(x: Rtx, y: Rtx, less: (Rtx, Rtx) -> bool)
    requires Unknown(x) && Unknown(y) && !BothPairs(x, y) && !(x.LoSum? && y.LoSum?) && !(Inner(x) && Inner(y))
    ensures RtxEqualForMemrefP(x, y) <==> Sorted(x, less) == Sorted(y, less)
  {
    hide CanonRtx;
  }

  lemma InnerIff(x: Rtx, y: Rtx, less: (Rtx, Rtx) -> bool)
    requires Unknown(x) && Unknown(y) && Inner(x) && Inner(y)
    requires RtxEqualForMemrefP(x.a, y.a) <==> Sorted(x.a, less) == Sorted(y.a, less)
    ensures RtxEqualForMemrefP(x, y) <==> Sorted(x, less) == Sorted(y, less)
  {
    EqualInner(x, y);
    SortedInner(x, less);
    SortedInner(y, less);
    InnerSame(Sorted(x, less), Sorted(y, less));
    hide RtxEqualForMemrefP, Unknown, Sorted, Kind, Inner;
  }

  lemma SortedInner(x: Rtx, less: (Rtx, Rtx) -> bool)
    requires Inner(x)
    ensures var s := Sorted(x, less); Inner(s) && Kind(s) == Kind(x) && s.mode == x.mode && s.a == Sorted(x.a, less)
  {}

  lemma InnerSame(x: Rtx, y: Rtx)
    requires Inner(x) && Inner(y)
    ensures x == y <==> Kind(x) == Kind(y) && x.mode == y.mode && x.a == y.a
  {}

  lemma LoSumsIff(x: Rtx, y: Rtx, less: (Rtx, Rtx) -> bool)
    requires Unknown(x) && Unknown(y) && x.LoSum? && y.LoSum?
    requires RtxEqualForMemrefP(x.a, y.a) <==> Sorted(x.a, less) == Sorted(y.a, less)
    requires RtxEqualForMemrefP(x.b, y.b) <==> Sorted(x.b, less) == Sorted(y.b, less)
    ensures RtxEqualForMemrefP(x, y) <==> Sorted(x, less) == Sorted(y, less)
  {
    EqualLoSums(x, y);
    hide RtxEqualForMemrefP, Unknown;
  }

  predicate Inner(x: Rtx) {
    x.High? || x.Const? || x.PreInc? || x.PreDec? || x.PostInc? || x.PostDec?
  }

  lemma SortedPairs(p: Rtx, q: Rtx, p': Rtx, q': Rtx, less: (Rtx, Rtx) -> bool)
    requires Total(less)
    ensures (if less(q, p) then (q, p) else (p, q)) == (if less(q', p') then (q', p') else (p', q')) <==>
      (p == p' && q == q') || (p == q' && q == p')
  {
  }

  lemma EqualPairs(x: Rtx, y: Rtx)
    requires Unknown(x) && Unknown(y) && BothPairs(x, y)
    ensures RtxEqualForMemrefP(x, y) <==>
      && x.mode == y.mode
      && ((RtxEqualForMemrefP(x.a, y.a) && RtxEqualForMemrefP(x.b, y.b)) || (RtxEqualForMemrefP(x.a, y.b) && RtxEqualForMemrefP(x.b, y.a)))
  {
    hide CanonRtx;
    UnknownCanon(x.a);
    UnknownCanon(x.b);
    UnknownCanon(y.a);
    UnknownCanon(y.b);
  }

  lemma EqualLoSums(x: Rtx, y: Rtx)
    requires Unknown(x) && Unknown(y) && x.LoSum? && y.LoSum?
    ensures RtxEqualForMemrefP(x, y) <==> x.mode == y.mode && RtxEqualForMemrefP(x.a, y.a) && RtxEqualForMemrefP(x.b, y.b)
  {
    hide CanonRtx;
    UnknownCanon(x.a);
    UnknownCanon(x.b);
    UnknownCanon(y.a);
    UnknownCanon(y.b);
  }

  lemma EqualInner(x: Rtx, y: Rtx)
    requires Unknown(x) && Unknown(y) && Inner(x) && Inner(y)
    ensures RtxEqualForMemrefP(x, y) <==> Kind(x) == Kind(y) && x.mode == y.mode && RtxEqualForMemrefP(x.a, y.a)
  {
    hide CanonRtx;
    UnknownCanon(x.a);
    UnknownCanon(y.a);
  }
}
