/** Which automatic increment, if any, an addition and a memory reference can be merged into. */
module AutoIncTable {
  /** What is known of the second operand of an addition or an address, against the size of the access. */
  datatype IncState = IncZero | NegSize | PosSize | NegAny | PosAny | IncReg

  /** Whether the addition stands before or after the reference, and whether it adds to its own result. */
  datatype Form = PreAdd | PreInc | PostAdd | PostInc

  datatype GenForm =
    | Nothing
    | SimplePreInc | SimplePostInc | SimplePreDec | SimplePostDec
    | DispPre | DispPost
    | RegPre | RegPost

  /** The automatic increments a machine has. */
  datatype Target = Target(preInc: bool, postInc: bool, preDec: bool, postDec: bool,
                           preModifyDisp: bool, postModifyDisp: bool, preModifyReg: bool, postModifyReg: bool)

  function SetIncState(val: int, size: nat): IncState {
    if val == 0 then IncZero
    else if val < 0 then if val == 0 - size then NegSize else NegAny
    else if val == size then PosSize else PosAny
  }

  // ---- the table, by what it is for ----

  function StateNumber(s: IncState): (n: nat)
    ensures n < 6
  {
    match s case IncZero => 0 case NegSize => 1 case PosSize => 2 case NegAny => 3 case PosAny => 4 case IncReg => 5
  }

  function FormNumber(f: Form): (n: nat)
    ensures n < 4
  {
    match f case PreAdd => 0 case PreInc => 1 case PostAdd => 2 case PostInc => 3
  }

  predicate IsPre(f: Form) {
    f.PreAdd? || f.PreInc?
  }

  /** The state of the opposite constant. */
  predicate Opposite(s: IncState, t: IncState) {
    match s
    case NegSize => t.PosSize?
    case PosSize => t.NegSize?
    case NegAny => t.PosAny?
    case PosAny => t.NegAny?
    case _ => false
  }

  /** The reference is to where the register points once it has been incremented. */
  predicate RefersAfter(inc: IncState, mem: IncState, f: Form) {
    !inc.IncZero? && if IsPre(f) then mem.IncZero? else mem == inc
  }

  /** The reference is to where the register points before it is incremented. */
  predicate RefersBefore(inc: IncState, mem: IncState, f: Form) {
    !inc.IncZero? && if IsPre(f) then Opposite(inc, mem) else mem.IncZero?
  }

  /** The increment before an access that a machine would use; a simple one if it can. */
  function BestPre(t: Target, inc: IncState): GenForm {
    match inc
    case IncZero => Nothing
    case PosSize => if t.preInc then SimplePreInc else if t.preModifyDisp then DispPre else Nothing
    case NegSize => if t.preDec then SimplePreDec else if t.preModifyDisp then DispPre else Nothing
    case IncReg => if t.preModifyReg then RegPre else Nothing
    case _ => if t.preModifyDisp then DispPre else Nothing
  }

  function BestPost(t: Target, inc: IncState): GenForm {
    match inc
    case IncZero => Nothing
    case PosSize => if t.postInc then SimplePostInc else if t.postModifyDisp then DispPost else Nothing
    case NegSize => if t.postDec then SimplePostDec else if t.postModifyDisp then DispPost else Nothing
    case IncReg => if t.postModifyReg then RegPost else Nothing
    case _ => if t.postModifyDisp then DispPost else Nothing
  }

  /** What the table should say, reasoned from where the reference points. */
  function Decision(t: Target, inc: IncState, mem: IncState, f: Form): GenForm {
    if RefersAfter(inc, mem, f) then BestPre(t, inc)
    else if RefersBefore(inc, mem, f) then BestPost(t, inc)
    else Nothing
  }

  predicate Sized(table: array3<GenForm>) {
    table.Length0 == 6 && table.Length1 == 6 && table.Length2 == 4
  }

  function Entry(table: array3<GenForm>, inc: IncState, mem: IncState, f: Form): GenForm
    requires Sized(table)
    reads table
  {
    table[StateNumber(inc), StateNumber(mem), FormNumber(f)]
  }

  ghost predicate Filled(table: array3<GenForm>, t: Target)
    reads table
  {
    Sized(table) && forall inc, mem, f :: Entry(table, inc, mem, f) == Decision(t, inc, mem, f)
  }

  /** Sets the two entries for additions before the reference, or the two for additions after it. */
  method SetPair(table: array3<GenForm>, inc: IncState, mem: IncState, pre: bool, value: GenForm)
    requires Sized(table)
    modifies table
    ensures forall i, m, f :: Entry(table, i, m, f) ==
              if i == inc && m == mem && IsPre(f) == pre then value else old(Entry(table, i, m, f))
  {
    var i, m := StateNumber(inc), StateNumber(mem);
    if pre {
      table[i, m, FormNumber(PreAdd)] := value;
      table[i, m, FormNumber(PreInc)] := value;
    } else {
      table[i, m, FormNumber(PostAdd)] := value;
      table[i, m, FormNumber(PostInc)] := value;
    }
  }

  /** Sets what the increments before an access can serve: no offset before it, the same offset after it. */
  method SetPre(table: array3<GenForm>, inc: IncState, value: GenForm)
    requires Sized(table) && !inc.IncZero?
    modifies table
    ensures forall i, m, f :: Entry(table, i, m, f) ==
              if i == inc && RefersAfter(i, m, f) then value else old(Entry(table, i, m, f))
  {
    SetPair(table, inc, IncZero, true, value);
    SetPair(table, inc, inc, false, value);
  }

  /** Sets what the increments after an access can serve: the opposite offset before it, no offset after it. */
  method SetPost(table: array3<GenForm>, inc: IncState, opposite: IncState, value: GenForm)
    requires Sized(table) && Opposite(inc, opposite)
    modifies table
    ensures forall i, m, f :: Entry(table, i, m, f) ==
              if i == inc && RefersBefore(i, m, f) then value else old(Entry(table, i, m, f))
  {
    SetPair(table, inc, IncZero, false, value);
    SetPair(table, inc, opposite, true, value);
  }

  predicate OfSize(inc: IncState) {
    inc.PosSize? || inc.NegSize?
  }

  /** The entries for additions of the size of the access; the simple increments are preferred. */
  method InitSized(t: Target) returns (table: array3<GenForm>)
    ensures fresh(table) && Sized(table)
    ensures forall inc, mem, f :: Entry(table, inc, mem, f) == if OfSize(inc) then Decision(t, inc, mem, f) else Nothing
  {
    hide RefersAfter, RefersBefore, Entry;
    table := NewTable();
    RefersOnce();
    if t.preInc || t.preModifyDisp {
      SetPre(table, PosSize, if t.preInc then SimplePreInc else DispPre);
    }
    if t.postInc || t.postModifyDisp {
      SetPost(table, PosSize, NegSize, if t.postInc then SimplePostInc else DispPost);
    }
    if t.preDec || t.preModifyDisp {
      SetPre(table, NegSize, if t.preDec then SimplePreDec else DispPre);
    }
    if t.postDec || t.postModifyDisp {
      SetPost(table, NegSize, PosSize, if t.postDec then SimplePostDec else DispPost);
    }
  }

  /** Fills the table for the increments the machine has. */
  method InitDecisionTable(t: Target) returns (table: array3<GenForm>)
    ensures fresh(table) && Filled(table, t)
  {
    hide RefersAfter, RefersBefore, Entry;
    table := InitSized(t);
    RefersOnce();
    if t.preModifyDisp {
      SetPre(table, PosAny, DispPre);
      SetPre(table, NegAny, DispPre);
    }
    if t.postModifyDisp {
      SetPost(table, PosAny, NegAny, DispPost);
      SetPost(table, NegAny, PosAny, DispPost);
    }
    if t.preModifyReg {
      SetPre(table, IncReg, RegPre);
    }
    if t.postModifyReg {
      SetPair(table, IncReg, IncZero, false, RegPost);
    }
  }

  method NewTable() returns (table: array3<GenForm>)
    ensures fresh(table) && Sized(table) && forall inc, mem, f :: Entry(table, inc, mem, f) == Nothing
  {
    table := new GenForm[6, 6, 4]((i, j, k) => Nothing);
  }

  lemma RefersOnce()
    ensures forall inc, mem, f :: !(RefersAfter(inc, mem, f) && RefersBefore(inc, mem, f))
    ensures forall mem, f :: !RefersAfter(IncZero, mem, f) && !RefersBefore(IncZero, mem, f)
    ensures forall mem, f :: RefersBefore(IncReg, mem, f) <==> mem == IncZero && !IsPre(f)
  {}

  // ---- what an entry means ----

  /** What is added: a constant or what a register holds. */
  datatype Operand = Const(val: int) | InReg(reg: nat)

  function StateOf(o: Operand, size: nat): IncState {
    if o.Const? then SetIncState(o.val, size) else IncReg
  }

  /** An address: a register and what is added to it, or one that is also incremented by that, before or after the access. */
  datatype Address =
    | Plain(reg: nat, amount: Operand)
    | Pre(reg: nat, amount: Operand)
    | Post(reg: nat, amount: Operand)

  /** The address that a form generates. */
  function NewAddress(gen: GenForm, reg: nat, size: nat, inc: Operand): Address {
    match gen
    case Nothing => Plain(reg, Const(0))
    case SimplePreInc => Pre(reg, Const(size))
    case SimplePostInc => Post(reg, Const(size))
    case SimplePreDec => Pre(reg, Const(0 - size))
    case SimplePostDec => Post(reg, Const(0 - size))
    case DispPre | RegPre => Pre(reg, inc)
    case DispPost | RegPost => Post(reg, inc)
  }

  /** Where an access goes, and what is left in the register, when `x` is in it before and `y` is what is added. */
  function Accessed(a: Address, x: int, y: int): int {
    if a.Post? then x else x + y
  }

  function LeftIn(a: Address, x: int, y: int): int {
    if a.Plain? then x else x + y
  }

  /** The offset of the reference is none, or the constant added or its opposite, or the register added. */
  predicate Fits(inc: Operand, off: Operand) {
    || off == Const(0)
    || (off.Const? && inc.Const? && (off.val == inc.val || off.val == 0 - inc.val))
    || (off.InReg? && off == inc)
  }

  /** `y` can be the value of the operand. */
  predicate Holds(o: Operand, y: int) {
    o.Const? ==> y == o.val
  }

  /** With operands that fit an entry accesses the same address and adds the same amount. */
  lemma DecisionMeans(t: Target, inc: Operand, off: Operand, size: nat, f: Form, reg: nat, x: int, y: int, z: int)
    requires Fits(inc, off) && Holds(inc, y) && Holds(off, z) && (off == inc ==> z == y)
    requires Decision(t, StateOf(inc, size), StateOf(off, size), f) != Nothing
    ensures var a := NewAddress(Decision(t, StateOf(inc, size), StateOf(off, size), f), reg, size, inc);
            var w := if a.amount == inc then y else if a.amount.Const? then a.amount.val else 0;
            && !a.Plain? && a.reg == reg && (a.amount.Const? || a.amount == inc) && LeftIn(a, x, w) == x + y
            && Accessed(a, x, w) == (if IsPre(f) then x + y else x) + z
  {}

  /** Without that match the states alone are not enough: only the sign of a constant is in them. */
  lemma StatesAreNotEnough()
    ensures var t := Target(false, false, false, false, true, true, false, false);
            && Decision(t, SetIncState(8, 4), SetIncState(-12, 4), PreInc) == DispPost
            && Accessed(NewAddress(DispPost, 0, 4, Const(8)), 100, 8) != 100 + 8 - 12
  {}
}
