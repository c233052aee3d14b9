/** The instructions of a block, what they do, and the four ways an addition may join a memory reference. */
module AutoIncBlock {
  import opened AutoIncTable

  datatype Ref = Ref(addr: Address, size: nat)

  /**
   * An addition, a move, or any other instruction: its memory references in order, the other registers it uses, and the
   * registers it sets.
   */
  datatype Insn =
    | Add(uid: nat, res: nat, src: nat, inc: Operand)
    | Move(uid: nat, res: nat, src: nat)
    | Other(uid: nat, refs: seq<Ref>, uses: set<nat>, defs: set<nat>, jump: bool)

  // ---- registers in an instruction ----

  predicate InOperand(o: Operand, r: nat) {
    o == InReg(r)
  }

  predicate InAddress(a: Address, r: nat) {
    a.reg == r || InOperand(a.amount, r)
  }

  predicate InRefs(refs: seq<Ref>, r: nat) {
    exists k :: 0 <= k < |refs| && InAddress(refs[k].addr, r)
  }

  predicate Increments(refs: seq<Ref>, r: nat) {
    exists k :: 0 <= k < |refs| && refs[k].addr.reg == r && !refs[k].addr.Plain?
  }

  predicate Uses(insn: Insn, r: nat) {
    match insn
    case Add(_, _, src, inc) => r == src || InOperand(inc, r)
    case Move(_, _, src) => r == src
    case Other(_, refs, uses, _, _) => r in uses || InRefs(refs, r)
  }

  predicate Defs(insn: Insn, r: nat) {
    match insn
    case Add(_, res, _, _) => r == res
    case Move(_, res, _) => r == res
    case Other(_, refs, _, defs, _) => r in defs || Increments(refs, r)
  }

  predicate Mentions(insn: Insn, r: nat) {
    Uses(insn, r) || Defs(insn, r)
  }

  // ---- what instructions do ----

  type Regs = map<nat, int>

  /** The registers, the memory, and the addresses accessed so far. */
  datatype State = State(regs: Regs, mem: map<int, int>, trace: seq<int>)

  /**
   * What the other instructions compute: the value each gives a register it sets, and the memory it leaves, from its
   * number, the registers it uses, the addresses it accesses and the memory before.
   */
  datatype Machine = Machine(value: (nat, nat, Regs, seq<int>, map<int, int>) -> int,
                             memory: (nat, Regs, seq<int>, map<int, int>) -> map<int, int>)

  function Get(regs: Regs, r: nat): int {
    if r in regs then regs[r] else 0
  }

  function Value(o: Operand, regs: Regs): int {
    if o.Const? then o.val else Get(regs, o.reg)
  }

  function Set(s: State, r: nat, v: int): State {
    s.(regs := s.regs[r := v])
  }

  function AccessedIn(a: Address, regs: Regs): int {
    Accessed(a, Get(regs, a.reg), Value(a.amount, regs))
  }

  function LeftBy(a: Address, regs: Regs): int {
    LeftIn(a, Get(regs, a.reg), Value(a.amount, regs))
  }

  /** The addresses accessed, and the registers left; all references read the registers before the instruction. */
  function Addresses(refs: seq<Ref>, regs: Regs): seq<int> {
    if refs == [] then [] else [AccessedIn(refs[0].addr, regs)] + Addresses(refs[1..], regs)
  }

  function Touched(refs: seq<Ref>, regs: Regs, left: Regs): Regs {
    if refs == [] then left
    else
      var a := refs[0].addr;
      Touched(refs[1..], regs, if a.Plain? then left else left[a.reg := LeftBy(a, regs)])
  }

  function Inputs(uses: set<nat>, regs: Regs): Regs {
    map r | r in uses :: Get(regs, r)
  }

  function Outcome(m: Machine, uid: nat, defs: set<nat>, inputs: Regs, addrs: seq<int>, regs: Regs, s: State): State {
    State(map r | r in regs.Keys + defs :: if r in defs then m.value(uid, r, inputs, addrs, s.mem) else regs[r],
          m.memory(uid, inputs, addrs, s.mem), s.trace + addrs)
  }

  function Step(m: Machine, insn: Insn, s: State): State {
    match insn
    case Add(_, res, src, inc) => Set(s, res, Get(s.regs, src) + Value(inc, s.regs))
    case Move(_, res, src) => Set(s, res, Get(s.regs, src))
    case Other(uid, refs, uses, defs, _) =>
      Outcome(m, uid, defs, Inputs(uses, s.regs), Addresses(refs, s.regs), Touched(refs, s.regs, s.regs), s)
  }

  function Run(m: Machine, insns: seq<Insn>, s: State): State {
    if insns == [] then s else Run(m, insns[1..], Step(m, insns[0], s))
  }

  lemma {:induction false} RunApart(m: Machine, a: seq<Insn>, b: seq<Insn>, s: State)
    ensures Run(m, a + b, s) == Run(m, b, Run(m, a, s))
  {
    if a == [] {
      assert a + b == b;
    } else {
      assert (a + b)[1..] == a[1..] + b;
      RunApart(m, a[1..], b, Step(m, a[0], s));
    }
  }

  lemma RunOne(m: Machine, insn: Insn, s: State)
    ensures Run(m, [insn], s) == Step(m, insn, s)
  {}

  // ---- what an instruction does not mention does not matter ----

  lemma AddressUntouched(a: Address, regs: Regs, r: nat, v: int)
    requires !InAddress(a, r)
    ensures AccessedIn(a, regs[r := v]) == AccessedIn(a, regs) && LeftBy(a, regs[r := v]) == LeftBy(a, regs)
  {}

  lemma {:induction false} RefsUntouched(refs: seq<Ref>, regs: Regs, left: Regs, r: nat, v: int, w: int)
    requires !InRefs(refs, r)
    ensures Addresses(refs, regs[r := v]) == Addresses(refs, regs)
    ensures Touched(refs, regs[r := v], left[r := w]) == Touched(refs, regs, left)[r := w]
  {
    if refs != [] {
      var a := refs[0].addr;
      AddressUntouched(a, regs, r, v);
      assert a.reg != r;
      var next := if a.Plain? then left else left[a.reg := LeftBy(a, regs)];
      assert (if a.Plain? then left[r := w] else left[r := w][a.reg := LeftBy(a, regs)]) == next[r := w];
      forall k | 0 <= k < |refs[1..]|
        ensures !InAddress(refs[1..][k].addr, r)
      {
        assert refs[1..][k] == refs[k + 1];
      }
      RefsUntouched(refs[1..], regs, next, r, v, w);
    }
  }

  lemma OutcomeUntouched(m: Machine, uid: nat, defs: set<nat>, inputs: Regs, addrs: seq<int>, regs: Regs, s: State, a: nat, v: int, w: int)
    requires a !in defs
    ensures Outcome(m, uid, defs, inputs, addrs, regs[a := w], Set(s, a, v))
            == Set(Outcome(m, uid, defs, inputs, addrs, regs, s), a, w)
  {
    var regs1 := Outcome(m, uid, defs, inputs, addrs, regs[a := w], Set(s, a, v)).regs;
    assert regs1 == Set(Outcome(m, uid, defs, inputs, addrs, regs, s), a, w).regs;
  }

  lemma InputsUntouched(uses: set<nat>, regs: Regs, a: nat, v: int)
    requires a !in uses
    ensures Inputs(uses, regs[a := v]) == Inputs(uses, regs)
  {}

  lemma StepUntouched(m: Machine, insn: Insn, s: State, a: nat, v: int)
    requires !Mentions(insn, a)
    ensures Step(m, insn, Set(s, a, v)) == Set(Step(m, insn, s), a, v)
  {
    hide Outcome, Addresses, Touched, Inputs, InRefs, Increments;
    if insn.Other? {
      RefsUntouched(insn.refs, s.regs, s.regs, a, v, v);
      InputsUntouched(insn.uses, s.regs, a, v);
      OutcomeUntouched(m, insn.uid, insn.defs, Inputs(insn.uses, s.regs), Addresses(insn.refs, s.regs),
                       Touched(insn.refs, s.regs, s.regs), s, a, v, v);
    }
  }

  /** Instructions that do not mention a register run the same whatever it holds, and leave it. */
  lemma {:induction false} RunUntouched(m: Machine, insns: seq<Insn>, s: State, a: nat, v: int)
    requires forall k :: 0 <= k < |insns| ==> !Mentions(insns[k], a)
    ensures Run(m, insns, Set(s, a, v)) == Set(Run(m, insns, s), a, v)
  {
    if insns != [] {
      StepUntouched(m, insns[0], s, a, v);
      RunUntouched(m, insns[1..], Step(m, insns[0], s), a, v);
    }
  }

  lemma {:induction false} RefsKeep(refs: seq<Ref>, regs: Regs, left: Regs, a: nat)
    requires !Increments(refs, a)
    ensures Get(Touched(refs, regs, left), a) == Get(left, a)
  {
    if refs != [] {
      forall k | 0 <= k < |refs[1..]|
        ensures refs[1..][k].addr.reg != a || refs[1..][k].addr.Plain?
      {
        assert refs[1..][k] == refs[k + 1];
      }
      var b := refs[0].addr;
      RefsKeep(refs[1..], regs, if b.Plain? then left else left[b.reg := LeftBy(b, regs)], a);
    }
  }

  lemma StepKeeps(m: Machine, insn: Insn, s: State, a: nat)
    requires !Defs(insn, a)
    ensures Get(Step(m, insn, s).regs, a) == Get(s.regs, a)
  {
    if insn.Other? {
      RefsKeep(insn.refs, s.regs, s.regs, a);
    }
  }

  lemma {:induction false} RunKeeps(m: Machine, insns: seq<Insn>, s: State, a: nat)
    requires forall k :: 0 <= k < |insns| ==> !Defs(insns[k], a)
    ensures Get(Run(m, insns, s).regs, a) == Get(s.regs, a)
  {
    if insns != [] {
      StepKeeps(m, insns[0], s, a);
      RunKeeps(m, insns[1..], Step(m, insns[0], s), a);
    }
  }

  // ---- changing one address ----

  /** The register stands in the instruction once, in the plain address of reference `k`. */
  predicate OnlyIn(insn: Insn, k: nat, r: nat) {
    && insn.Other? && k < |insn.refs| && insn.refs[k].addr.Plain? && InAddress(insn.refs[k].addr, r)
    && insn.refs[k].addr != Plain(r, InReg(r))
    && r !in insn.uses && r !in insn.defs
    && forall j :: 0 <= j < |insn.refs| && j != k ==> !InAddress(insn.refs[j].addr, r)
  }

  function WithAddress(insn: Insn, k: nat, a: Address): Insn
    requires insn.Other? && k < |insn.refs|
  {
    insn.(refs := insn.refs[k := insn.refs[k].(addr := a)])
  }

  /** With `regs'` instead of `regs` the new address is where the plain one was, and it leaves `z` in its register. */
  predicate Replaces(plain: Address, regs: Regs, new': Address, regs': Regs, z: int) {
    !new'.Plain? && AccessedIn(new', regs') == AccessedIn(plain, regs) && LeftBy(new', regs') == z
  }

  lemma {:induction false} RefsReplaced(refs: seq<Ref>, k: nat, new': Address, regs: Regs, left: Regs, y: int, left': Regs, z: int)
    requires k < |refs| && refs[k].addr.Plain? && Replaces(refs[k].addr, regs, new', regs[new'.reg := y], z)
    requires forall j :: 0 <= j < |refs| && j != k ==> !InAddress(refs[j].addr, new'.reg)
    requires left'[new'.reg := z] == left[new'.reg := z]
    ensures var refs' := refs[k := refs[k].(addr := new')];
            && Addresses(refs', regs[new'.reg := y]) == Addresses(refs, regs)
            && Touched(refs', regs[new'.reg := y], left') == Touched(refs, regs, left)[new'.reg := z]
  {
    var refs', b := refs[k := refs[k].(addr := new')], new'.reg;
    forall j | 0 <= j < |refs[1..]|
      ensures refs[1..][j] == refs[j + 1]
    {}
    if k == 0 {
      assert refs'[1..] == refs[1..];
      RefsUntouched(refs[1..], regs, left, b, y, z);
    } else {
      var first := refs[0].addr;
      AddressUntouched(first, regs, b, y);
      assert refs'[1..] == refs[1..][k - 1 := refs[k].(addr := new')];
      var next := if first.Plain? then left else left[first.reg := LeftBy(first, regs)];
      var next' := if first.Plain? then left' else left'[first.reg := LeftBy(first, regs)];
      assert next'[b := z] == next[b := z] by {
        assert first.reg != b;
        assert !first.Plain? ==> next'[b := z] == left'[b := z][first.reg := LeftBy(first, regs)];
        assert !first.Plain? ==> next[b := z] == left[b := z][first.reg := LeftBy(first, regs)];
      }
      RefsReplaced(refs[1..], k - 1, new', regs, next, y, next', z);
    }
  }

  /** With the other address the instruction does the same, and leaves `z` in the register it increments. */
  lemma StepReplaced(m: Machine, insn: Insn, k: nat, new': Address, s: State, y: int, z: int)
    requires insn.Other? && k < |insn.refs| && insn.refs[k].addr.Plain?
    requires OnlyIn(insn, k, new'.reg) || !Mentions(insn, new'.reg)
    requires Replaces(insn.refs[k].addr, s.regs, new', s.regs[new'.reg := y], z)
    ensures Step(m, WithAddress(insn, k, new'), Set(s, new'.reg, y)) == Set(Step(m, insn, s), new'.reg, z)
  {
    hide Outcome, Addresses, Touched;
    var b := new'.reg;
    assert b !in insn.uses && b !in insn.defs;
    assert forall j :: 0 <= j < |insn.refs| && j != k ==> !InAddress(insn.refs[j].addr, b);
    assert s.regs[b := y][b := z] == s.regs[b := z];
    RefsReplaced(insn.refs, k, new', s.regs, s.regs, y, s.regs[b := y], z);
    InputsUntouched(insn.uses, s.regs, b, y);
    OutcomeUntouched(m, insn.uid, insn.defs, Inputs(insn.uses, s.regs), Addresses(insn.refs, s.regs),
                     Touched(insn.refs, s.regs, s.regs), s, b, y, z);
  }

  // ---- the four merges ----

  /** The two run alike, from every state of every machine. */
  ghost predicate Same(a: seq<Insn>, b: seq<Insn>) {
    forall m, s :: Run(m, a, s) == Run(m, b, s)
  }

  lemma SameWithin(before: seq<Insn>, a: seq<Insn>, b: seq<Insn>, after: seq<Insn>)
    requires Same(a, b)
    ensures Same(before + a + after, before + b + after)
  {
    hide Run;
    forall m, s
      ensures Run(m, before + a + after, s) == Run(m, before + b + after, s)
    {
      RunApart(m, before + a, after, s);
      RunApart(m, before, a, s);
      RunApart(m, before + b, after, s);
      RunApart(m, before, b, s);
    }
  }

  lemma RunThree(m: Machine, a: seq<Insn>, b: seq<Insn>, c: seq<Insn>, s: State)
    ensures Run(m, a + b + c, s) == Run(m, c, Run(m, b, Run(m, a, s)))
  {
    RunApart(m, a + b, c, s);
    RunApart(m, a, b, s);
  }

  /** What a plain address adds to one of its registers. */
  function OffsetFrom(plain: Address, base: nat): Operand {
    if plain.reg == base then plain.amount else InReg(plain.reg)
  }

  /** The addition gives the sum of `base` and `inc`, in one order or the other. */
  predicate AddsTo(add: Insn, base: nat, inc: Operand) {
    add.Add? && ((add.src == base && add.inc == inc) || (add.inc == InReg(base) && inc == InReg(add.src)))
  }

  function AmountOf(new': Address, inc: Operand, y: int): int {
    if new'.amount == inc then y else if new'.amount.Const? then new'.amount.val else 0
  }

  /**
   * An increment by `inc` that goes where base + `off` goes: with the base not yet incremented, when the addition comes
   * before (`pre`) or after the reference.
   */
  ghost predicate Merges(off: Operand, new': Address, inc: Operand, pre: bool) {
    && !new'.Plain? && (new'.amount.Const? || new'.amount == inc)
    && forall x, y, z :: Holds(inc, y) && Holds(off, z) && (off == inc ==> z == y) ==> MergesAt(new', inc, pre, x, y, z)
  }

  predicate MergesAt(new': Address, inc: Operand, pre: bool, x: int, y: int, z: int) {
    var w := AmountOf(new', inc, y);
    Accessed(new', x, w) == (if pre then x + y else x) + z && LeftIn(new', x, w) == x + y
  }

  lemma MergesIncrements(off: Operand, new': Address, inc: Operand, pre: bool)
    requires Merges(off, new', inc, pre)
    ensures !new'.Plain? && (new'.amount.Const? || new'.amount == inc)
  {}

  lemma MergedAccess(plain: Address, base: nat, new': Address, inc: Operand, pre: bool, regs: Regs, regs': Regs, x: int, y: int)
    requires plain.Plain? && InAddress(plain, base) && plain != Plain(base, InReg(base))
    requires Merges(OffsetFrom(plain, base), new', inc, pre) && Holds(inc, y)
    requires Get(regs, base) == (if pre then x + y else x) && Get(regs', new'.reg) == x
    requires Value(inc, regs') == y && (OffsetFrom(plain, base) == inc ==> Value(inc, regs) == y)
    ensures Replaces(plain, regs, new', regs', x + y)
  {
    var off := OffsetFrom(plain, base);
    var z := Value(off, regs);
    assert Holds(off, z) && (off == inc ==> z == y);
    assert MergesAt(new', inc, pre, x, y, z);
  }

  ghost predicate NoMention(insns: seq<Insn>, r: nat) {
    forall k :: 0 <= k < |insns| ==> !Mentions(insns[k], r)
  }

  /** Nothing here sets a register that is added. */
  ghost predicate Leaves(insns: seq<Insn>, inc: Operand) {
    inc.InReg? ==> forall k :: 0 <= k < |insns| ==> !Defs(insns[k], inc.reg)
  }

  lemma LeavesValue(m: Machine, insns: seq<Insn>, s: State, inc: Operand)
    requires Leaves(insns, inc)
    ensures Value(inc, Run(m, insns, s).regs) == Value(inc, s.regs)
  {
    if inc.InReg? {
      RunKeeps(m, insns, s, inc.reg);
    }
  }

  lemma SetTwice(s: State, a: nat, v: int, w: int)
    ensures Set(Set(s, a, v), a, w) == Set(s, a, w)
  {}

  lemma AdditionSets(m: Machine, add: Insn, base: nat, inc: Operand, s: State)
    requires AddsTo(add, base, inc)
    ensures Run(m, [add], s) == Set(s, add.res, Get(s.regs, base) + Value(inc, s.regs))
  {
    RunOne(m, add, s);
  }

  lemma MoveSets(m: Machine, move: Insn, s: State)
    requires move.Move?
    ensures Run(m, [move], s) == Set(s, move.res, Get(s.regs, move.src))
  {
    RunOne(m, move, s);
  }

  lemma LeftAlone(m: Machine, mem: Insn, k: nat, s: State, a: nat)
    requires OnlyIn(mem, k, a) && a in s.regs
    ensures Set(Step(m, mem, s), a, Get(s.regs, a)) == Step(m, mem, s)
  {
    OnlyInKeeps(m, mem, k, s, a);
    assert a in Step(m, mem, s).regs by {
      TouchedKeys(mem.refs, s.regs, s.regs);
    }
  }

  lemma OnlyInKeeps(m: Machine, mem: Insn, k: nat, s: State, a: nat)
    requires OnlyIn(mem, k, a)
    ensures Get(Step(m, mem, s).regs, a) == Get(s.regs, a)
  {
    StepKeeps(m, mem, s, a);
  }

  lemma {:induction false} TouchedKeys(refs: seq<Ref>, regs: Regs, left: Regs)
    ensures left.Keys <= Touched(refs, regs, left).Keys
  {
    if refs != [] {
      var a := refs[0].addr;
      TouchedKeys(refs[1..], regs, if a.Plain? then left else left[a.reg := LeftBy(a, regs)]);
    }
  }

  /** With the sum in the register and the plain address, or without it and the increment, the reference is the same. */
  lemma MemAlike(m: Machine, mem: Insn, k: nat, new': Address, inc: Operand, t: State, a: nat, x: int, y: int)
    requires OnlyIn(mem, k, a) && new'.reg == a && Merges(OffsetFrom(mem.refs[k].addr, a), new', inc, true)
    requires Holds(inc, y) && Value(inc, t.regs[a := x]) == y
    ensures Run(m, [mem], Set(t, a, x + y)) == Run(m, [WithAddress(mem, k, new')], Set(t, a, x))
  {
    hide Step, Run, Merges;
    var u := Set(t, a, x + y);
    SetTwice(t, a, x + y, x);
    assert u.regs[a := x] == t.regs[a := x];
    MergedAccess(mem.refs[k].addr, a, new', inc, true, u.regs, t.regs[a := x], x, y);
    StepReplaced(m, mem, k, new', u, x, x + y);
    RunOne(m, mem, u);
    RunOne(m, WithAddress(mem, k, new'), Set(t, a, x));
    LeftAlone(m, mem, k, u, a);
  }

  lemma IncValueKept(m: Machine, mid: seq<Insn>, s: State, a: nat, inc: Operand)
    requires NoMention(mid, a) && Leaves(mid, inc)
    ensures var t := Run(m, mid, s);
            Get(t.regs, a) == Get(s.regs, a) && Value(inc, t.regs) == Value(inc, s.regs)
  {
    RunKeeps(m, mid, s, a);
    LeavesValue(m, mid, s, inc);
  }

  /** a <- b + c; ...; *(a + d) is a <- b; ...; *(a += c). */
  lemma PreAddSame(add: Insn, mid: seq<Insn>, mem: Insn, k: nat, new': Address, uid: nat)
    requires add.Add? && add.inc.Const? && add.src != add.res && NoMention(mid, add.res) && OnlyIn(mem, k, add.res)
    requires new'.reg == add.res && Merges(OffsetFrom(mem.refs[k].addr, add.res), new', add.inc, true)
    ensures Same([add] + mid + [mem], [Move(uid, add.res, add.src)] + mid + [WithAddress(mem, k, new')])
  {
    hide Step, Run, Mentions, WithAddress, Merges;
    var a, b, c, move, mem' := add.res, add.src, add.inc.val, Move(uid, add.res, add.src), WithAddress(mem, k, new');
    forall m, s
      ensures Run(m, [add] + mid + [mem], s) == Run(m, [move] + mid + [mem'], s)
    {
      var x := Get(s.regs, b);
      RunThree(m, [add], mid, [mem], s);
      RunThree(m, [move], mid, [mem'], s);
      AdditionSets(m, add, b, add.inc, s);
      MoveSets(m, move, s);
      RunUntouched(m, mid, s, a, x + c);
      RunUntouched(m, mid, s, a, x);
      MemAlike(m, mem, k, new', add.inc, Run(m, mid, s), a, x, c);
    }
  }

  lemma {:induction false} RefsPresent(refs: seq<Ref>, regs: Regs, left: Regs, a: nat)
    ensures Addresses(refs, regs[a := Get(regs, a)]) == Addresses(refs, regs)
    ensures Increments(refs, a) ==> Touched(refs, regs[a := Get(regs, a)], left[a := Get(regs, a)]) == Touched(refs, regs, left)
    ensures Touched(refs, regs[a := Get(regs, a)], left) == Touched(refs, regs, left)
  {
    if refs != [] {
      var first, regs1 := refs[0].addr, regs[a := Get(regs, a)];
      assert AccessedIn(first, regs1) == AccessedIn(first, regs) && LeftBy(first, regs1) == LeftBy(first, regs);
      var next := if first.Plain? then left else left[first.reg := LeftBy(first, regs)];
      RefsPresent(refs[1..], regs, next, a);
      if Increments(refs, a) {
        var k :| 0 <= k < |refs| && refs[k].addr.reg == a && !refs[k].addr.Plain?;
        var v := Get(regs, a);
        if first.reg == a && !first.Plain? {
          assert left[a := v][a := LeftBy(first, regs)] == next;
        } else {
          assert refs[1..][k - 1] == refs[k];
          assert !first.Plain? ==> left[a := v][first.reg := LeftBy(first, regs)] == next[a := v];
        }
      }
    }
  }

  /** Whether a register is listed before it is incremented makes no difference. */
  lemma StepPresent(m: Machine, insn: Insn, s: State, a: nat)
    requires insn.Other? && Increments(insn.refs, a)
    ensures Step(m, insn, Set(s, a, Get(s.regs, a))) == Step(m, insn, s)
  {
    hide Addresses, Touched;
    RefsPresent(insn.refs, s.regs, s.regs, a);
    assert Inputs(insn.uses, s.regs[a := Get(s.regs, a)]) == Inputs(insn.uses, s.regs);
  }

  lemma NewAddressIncrements(mem: Insn, k: nat, new': Address)
    requires mem.Other? && k < |mem.refs| && !new'.Plain?
    ensures WithAddress(mem, k, new').Other? && Increments(WithAddress(mem, k, new').refs, new'.reg)
  {
    assert WithAddress(mem, k, new').refs[k].addr == new';
  }

  lemma MemPresent(m: Machine, mem: Insn, k: nat, new': Address, s: State)
    requires mem.Other? && k < |mem.refs| && !new'.Plain?
    ensures Run(m, [WithAddress(mem, k, new')], Set(s, new'.reg, Get(s.regs, new'.reg))) == Run(m, [WithAddress(mem, k, new')], s)
  {
    hide Step, Run, WithAddress, Increments;
    var mem', a := WithAddress(mem, k, new'), new'.reg;
    NewAddressIncrements(mem, k, new');
    StepPresent(m, mem', s, a);
    RunOne(m, mem', s);
    RunOne(m, mem', Set(s, a, Get(s.regs, a)));
  }

  /** The reference that increments its register leaves the sum there. */
  lemma MemIncrements(m: Machine, mem: Insn, k: nat, new': Address, inc: Operand, s: State, a: nat)
    requires OnlyIn(mem, k, a) && new'.reg == a && Merges(OffsetFrom(mem.refs[k].addr, a), new', inc, false)
    ensures Run(m, [WithAddress(mem, k, new')], s) == Set(Step(m, mem, s), a, Get(s.regs, a) + Value(inc, s.regs))
  {
    MergesIncrements(OffsetFrom(mem.refs[k].addr, a), new', inc, false);
    hide Step, Run, WithAddress, Merges;
    var x, y := Get(s.regs, a), Value(inc, s.regs);
    MemPresent(m, mem, k, new', s);
    RunOne(m, WithAddress(mem, k, new'), Set(s, a, x));
    assert Value(inc, s.regs[a := x]) == y;
    MergedAccess(mem.refs[k].addr, a, new', inc, false, s.regs, s.regs[a := x], x, y);
    StepReplaced(m, mem, k, new', s, x, x + y);
  }

  lemma OnlyInOther(mem: Insn, k: nat, a: nat)
    requires OnlyIn(mem, k, a)
    ensures mem.Other? && k < |mem.refs| && mem.refs[k].addr.Plain?
  {}

  lemma ValueHolds(o: Operand, regs: Regs)
    ensures Holds(o, Value(o, regs))
  {}

  lemma ValueSame(o: Operand, regs: Regs, a: nat)
    ensures Value(o, regs[a := Get(regs, a)]) == Value(o, regs)
  {}

  /** The addition may as well come behind instructions that leave it alone. */
  lemma AddBehind(m: Machine, add: Insn, inc: Operand, mid: seq<Insn>, s: State)
    requires add.Add? && AddsTo(add, add.res, inc) && NoMention(mid, add.res) && Leaves(mid, inc)
    ensures var t := Run(m, mid, s); Run(m, mid, Run(m, [add], s)) == Set(t, add.res, Get(t.regs, add.res) + Value(inc, t.regs))
  {
    hide Step, Run, Mentions, Leaves, AddsTo, Value, Get, Set;
    var v := Get(s.regs, add.res) + Value(inc, s.regs);
    AdditionSets(m, add, add.res, inc, s);
    RunUntouched(m, mid, s, add.res, v);
    IncValueKept(m, mid, s, add.res, inc);
  }

  /** The reference behind the addition, and the reference that increments. */
  lemma MemJoins(m: Machine, inc: Operand, mem: Insn, k: nat, new': Address, t: State, a: nat)
    requires OnlyIn(mem, k, a) && new'.reg == a && Merges(OffsetFrom(mem.refs[k].addr, a), new', inc, true)
    ensures Run(m, [mem], Set(t, a, Get(t.regs, a) + Value(inc, t.regs))) == Run(m, [WithAddress(mem, k, new')], t)
  {
    MergesIncrements(OffsetFrom(mem.refs[k].addr, a), new', inc, true);
    OnlyInOther(mem, k, a);
    ValueHolds(inc, t.regs);
    hide Step, Run, WithAddress, Merges, OnlyIn, Value, OffsetFrom, Holds;
    ValueSame(inc, t.regs, a);
    MemAlike(m, mem, k, new', inc, t, a, Get(t.regs, a), Value(inc, t.regs));
    MemPresent(m, mem, k, new', t);
  }

  lemma PreIncRun(m: Machine, add: Insn, inc: Operand, mid: seq<Insn>, mem: Insn, k: nat, new': Address, s: State)
    requires add.Add? && AddsTo(add, add.res, inc) && NoMention(mid, add.res) && Leaves(mid, inc) && OnlyIn(mem, k, add.res)
    requires new'.reg == add.res && Merges(OffsetFrom(mem.refs[k].addr, add.res), new', inc, true)
    ensures Run(m, [add] + mid + [mem], s) == Run(m, mid + [WithAddress(mem, k, new')], s)
  {
    OnlyInOther(mem, k, add.res);
    hide Step, Run, NoMention, Merges, Leaves, OnlyIn, WithAddress, AddsTo, OffsetFrom, Value, Get, Set;
    RunThree(m, [add], mid, [mem], s);
    RunApart(m, mid, [WithAddress(mem, k, new')], s);
    AddBehind(m, add, inc, mid, s);
    MemJoins(m, inc, mem, k, new', Run(m, mid, s), add.res);
  }

  /** a += c; ...; *(a + d) is ...; *(a += c), for a constant or a register that is left alone. */
  lemma PreIncSame(add: Insn, inc: Operand, mid: seq<Insn>, mem: Insn, k: nat, new': Address)
    requires add.Add? && AddsTo(add, add.res, inc) && NoMention(mid, add.res) && Leaves(mid, inc) && OnlyIn(mem, k, add.res)
    requires new'.reg == add.res && Merges(OffsetFrom(mem.refs[k].addr, add.res), new', inc, true)
    ensures Same([add] + mid + [mem], mid + [WithAddress(mem, k, new')])
  {
    OnlyInOther(mem, k, add.res);
    hide Step, Run, NoMention, Merges, Leaves, OnlyIn, WithAddress, AddsTo, OffsetFrom;
    forall m, s
      ensures Run(m, [add] + mid + [mem], s) == Run(m, mid + [WithAddress(mem, k, new')], s)
    {
      PreIncRun(m, add, inc, mid, mem, k, new', s);
    }
  }

  lemma KeptBehind(m: Machine, mem: Insn, mid: seq<Insn>, base: nat, s: State)
    requires !Defs(mem, base) && forall j :: 0 <= j < |mid| ==> !Defs(mid[j], base)
    ensures Get(Run(m, mid, Step(m, mem, s)).regs, base) == Get(s.regs, base)
  {
    StepKeeps(m, mem, s, base);
    RunKeeps(m, mid, Step(m, mem, s), base);
  }

  lemma ValueBehind(m: Machine, mem: Insn, mid: seq<Insn>, inc: Operand, s: State)
    requires Leaves([mem] + mid, inc)
    ensures Value(inc, Run(m, mid, Step(m, mem, s)).regs) == Value(inc, s.regs)
  {
    if inc.InReg? {
      var all := [mem] + mid;
      assert all[0] == mem;
      assert forall j :: 0 <= j < |mid| ==> all[j + 1] == mid[j];
      KeptBehind(m, mem, mid, inc.reg, s);
    }
  }

  /** The addition after the reference finds what the reference would have left. */
  lemma MemThenAdd(m: Machine, mem: Insn, mid: seq<Insn>, base: nat, add: Insn, inc: Operand, s: State)
    requires AddsTo(add, base, inc) && Leaves([mem] + mid, inc) && !Defs(mem, base)
    requires forall j :: 0 <= j < |mid| ==> !Defs(mid[j], base)
    ensures Run(m, [mem] + mid + [add], s)
            == Set(Run(m, mid, Step(m, mem, s)), add.res, Get(s.regs, base) + Value(inc, s.regs))
  {
    hide Step, Run, Leaves, Defs, Value;
    RunThree(m, [mem], mid, [add], s);
    RunOne(m, mem, s);
    KeptBehind(m, mem, mid, base, s);
    ValueBehind(m, mem, mid, inc, s);
    AdditionSets(m, add, base, inc, Run(m, mid, Step(m, mem, s)));
  }

  /** *(a + d); ...; a += c is *(a += c); ... */
  lemma PostIncSame(add: Insn, inc: Operand, mid: seq<Insn>, mem: Insn, k: nat, new': Address)
    requires add.Add? && AddsTo(add, add.res, inc) && NoMention(mid, add.res) && Leaves([mem] + mid, inc) && OnlyIn(mem, k, add.res)
    requires new'.reg == add.res && Merges(OffsetFrom(mem.refs[k].addr, add.res), new', inc, false)
    ensures Same([mem] + mid + [add], [WithAddress(mem, k, new')] + mid)
  {
    MergesIncrements(OffsetFrom(mem.refs[k].addr, add.res), new', inc, false);
    hide Step, Run, WithAddress, Merges, Leaves, OnlyIn, Mentions;
    var a, mem' := add.res, WithAddress(mem, k, new');
    OnlyInNotSet(mem, k, a);
    NoMentionNoDef(mid, a);
    forall m, s
      ensures Run(m, [mem] + mid + [add], s) == Run(m, [mem'] + mid, s)
    {
      var x, y := Get(s.regs, a), Value(inc, s.regs);
      MemThenAdd(m, mem, mid, a, add, inc, s);
      RunApart(m, [mem'], mid, s);
      MemIncrements(m, mem, k, new', inc, s, a);
      RunUntouched(m, mid, Step(m, mem, s), a, x + y);
    }
  }

  lemma OnlyInNotSet(mem: Insn, k: nat, a: nat)
    requires OnlyIn(mem, k, a)
    ensures !Defs(mem, a)
  {}

  lemma NoMentionNoDef(insns: seq<Insn>, a: nat)
    requires NoMention(insns, a)
    ensures forall j :: 0 <= j < |insns| ==> !Defs(insns[j], a)
  {}

  /** *(a + d); ...; b <- a + c is b <- a; *(b += c); ... */
  lemma PostAddSame(add: Insn, base: nat, inc: Operand, mid: seq<Insn>, mem: Insn, k: nat, new': Address, uid: nat)
    requires AddsTo(add, base, inc) && base != add.res && inc != InReg(add.res) && NoMention(mid, add.res)
    requires OnlyIn(mem, k, base) && !Mentions(mem, add.res) && Leaves([mem] + mid, inc)
    requires forall j :: 0 <= j < |mid| ==> !Defs(mid[j], base)
    requires new'.reg == add.res && Merges(OffsetFrom(mem.refs[k].addr, base), new', inc, false)
    ensures Same([mem] + mid + [add], [Move(uid, add.res, base), WithAddress(mem, k, new')] + mid)
  {
    hide Step, Run, WithAddress, Merges, Leaves, Increments, Mentions, Defs;
    var b, move, mem' := add.res, Move(uid, add.res, base), WithAddress(mem, k, new');
    OnlyInNotSet(mem, k, base);
    forall m, s
      ensures Run(m, [mem] + mid + [add], s) == Run(m, [move, mem'] + mid, s)
    {
      var x, y := Get(s.regs, base), Value(inc, s.regs);
      MemThenAdd(m, mem, mid, base, add, inc, s);
      assert [move, mem'] + mid == [move] + [mem'] + mid;
      RunThree(m, [move], [mem'], mid, s);
      MoveSets(m, move, s);
      RunOne(m, mem', Set(s, b, x));
      assert Value(inc, s.regs[b := x]) == y;
      MergedAccess(mem.refs[k].addr, base, new', inc, false, s.regs, s.regs[b := x], x, y);
      StepReplaced(m, mem, k, new', s, x, x + y);
      RunUntouched(m, mid, Step(m, mem, s), b, x + y);
    }
  }
}
