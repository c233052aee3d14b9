/** Definitions of branch target registers and the places they reach, by gen and kill sets. */
module ReachingDefs {
  const NUM_FIXED_BLOCKS: nat := 2
  const ENTRY_BLOCK: nat := 0

  datatype CallKind = NoCall | Call | SibCall

  /** An instruction, with its number, as far as it touches branch target registers. */
  datatype Insn =
    | Def(uid: nat, reg: nat)
    | Blockage(uid: nat)
    | SingleUse(uid: nat, reg: nat, call: CallKind)
    | ManyUses(uid: nat, refs: set<nat>, stores: set<nat>, call: CallKind)
    | NoUse(uid: nat, call: CallKind)

  datatype Block = Block(insns: seq<Insn>, preds: seq<nat>)

  /** The blocks, the registers that may be allocated, and those a call clobbers. */
  datatype Code = Code(blocks: seq<Block>, btrs: set<nat>, callUsed: set<nat>)

  ghost predicate InsnAt(f: Code, i: nat, k: nat) {
    NUM_FIXED_BLOCKS <= i < |f.blocks| && k < |f.blocks[i].insns|
  }

  ghost predicate SameUid(f: Code, i: nat, k: nat, j: nat, l: nat) {
    InsnAt(f, i, k) && InsnAt(f, j, l) && f.blocks[i].insns[k].uid == f.blocks[j].insns[l].uid
  }

  ghost predicate OwnRegister(f: Code, insn: Insn) {
    insn.Def? || insn.SingleUse? ==> insn.reg in f.btrs
  }

  /** Instructions have different numbers, definitions set allocatable registers, edges leave no exit. */
  ghost predicate Valid(f: Code) {
    && |f.blocks| >= NUM_FIXED_BLOCKS
    && (forall i: nat, k: nat :: InsnAt(f, i, k) ==> OwnRegister(f, f.blocks[i].insns[k]))
    && (forall i: nat, k: nat, j: nat, l: nat :: SameUid(f, i, k, j, l) ==> i == j && k == l)
    && (forall i, e :: 0 <= i < |f.blocks| && 0 <= e < |f.blocks[i].preds| ==> IsSource(f, f.blocks[i].preds[e]))
  }

  ghost predicate IsSource(f: Code, b: nat) {
    b == ENTRY_BLOCK || NUM_FIXED_BLOCKS <= b < |f.blocks|
  }

  ghost predicate IsDefAt(f: Code, d: nat, r: nat, i: nat, k: nat) {
    InsnAt(f, i, k) && f.blocks[i].insns[k] == Def(d, r)
  }

  ghost predicate IsDef(f: Code, d: nat, r: nat) {
    exists i: nat, k: nat :: IsDefAt(f, d, r, i, k)
  }

  // ---- what one instruction does to the definitions that are live ----

  function Clobbered(f: Code, call: CallKind): (regs: set<nat>)
  {
    match call
    case NoCall => {}
    case Call => f.btrs * f.callUsed
    case SibCall => f.btrs - f.callUsed
  }

  /** The registers an instruction overwrites. */
  function Overwritten(f: Code, insn: Insn): set<nat> {
    match insn
    case Def(_, reg) => {reg}
    case Blockage(_) => f.btrs
    case SingleUse(_, _, call) => Clobbered(f, call)
    case ManyUses(_, _, stores, call) => f.btrs * stores + Clobbered(f, call)
    case NoUse(_, call) => Clobbered(f, call)
  }

  ghost predicate DefsOverwritten(f: Code, d: nat, regs: set<nat>) {
    exists r: nat :: r in regs && IsDef(f, d, r)
  }

  /** Those of some definitions whose register is not among `regs`. */
  ghost function Without(f: Code, defs: set<nat>, regs: set<nat>): set<nat> {
    set d | d in defs && !DefsOverwritten(f, d, regs)
  }

  ghost function After(f: Code, insn: Insn, before: set<nat>): set<nat> {
    Without(f, before, Overwritten(f, insn)) + if insn.Def? then {insn.uid} else {}
  }

  /** The definitions live after some instructions, in order. */
  ghost function AfterAll(f: Code, insns: seq<Insn>, before: set<nat>): set<nat> {
    if insns == [] then before
    else After(f, insns[|insns| - 1], AfterAll(f, insns[..|insns| - 1], before))
  }

  ghost function Written(f: Code, insns: seq<Insn>): set<nat> {
    if insns == [] then {} else Written(f, insns[..|insns| - 1]) + Overwritten(f, insns[|insns| - 1])
  }

  lemma DefsOverwrittenPlus(f: Code, d: nat, a: set<nat>, b: set<nat>)
    ensures DefsOverwritten(f, d, a + b) <==> DefsOverwritten(f, d, a) || DefsOverwritten(f, d, b)
  {
    if DefsOverwritten(f, d, a) {
      var r :| r in a && IsDef(f, d, r);
      assert r in a + b;
    }
    if DefsOverwritten(f, d, b) {
      var r :| r in b && IsDef(f, d, r);
      assert r in a + b;
    }
  }

  /** A whole block acts by one set it adds and one set it takes away. */
  lemma {:induction false} BlockActs(f: Code, insns: seq<Insn>, before: set<nat>)
    ensures AfterAll(f, insns, before) == Without(f, before, Written(f, insns)) + AfterAll(f, insns, {})
  {
    hide DefsOverwritten;
    if insns == [] {
      forall d ensures !DefsOverwritten(f, d, {}) { NothingOverwritten(f, d); }
    } else {
      var init, last := insns[..|insns| - 1], insns[|insns| - 1];
      BlockActs(f, init, before);
      forall d ensures DefsOverwritten(f, d, Written(f, insns))
                       <==> DefsOverwritten(f, d, Written(f, init)) || DefsOverwritten(f, d, Overwritten(f, last))
      {
        DefsOverwrittenPlus(f, d, Written(f, init), Overwritten(f, last));
      }
    }
  }

  lemma NothingOverwritten(f: Code, d: nat)
    ensures !DefsOverwritten(f, d, {})
  {}

  // ---- paths ----

  /** Blocks that follow one another along edges, none of them the entry or the exit. */
  ghost predicate Path(f: Code, p: seq<nat>) {
    && |p| > 0
    && (forall k :: 0 <= k < |p| ==> NUM_FIXED_BLOCKS <= p[k] < |f.blocks|)
    && (forall k :: 0 <= k < |p| - 1 ==> p[k] in f.blocks[p[k + 1]].preds)
  }

  /** The definitions made along a path and still live at its end, instruction by instruction. */
  ghost function Carried(f: Code, p: seq<nat>): set<nat>
    requires forall k :: 0 <= k < |p| ==> 0 <= p[k] < |f.blocks|
  {
    if p == [] then {}
    else AfterAll(f, f.blocks[p[|p| - 1]].insns, Carried(f, p[..|p| - 1]))
  }

  ghost predicate CarriedTo(f: Code, p: seq<nat>, i: nat, d: nat) {
    Path(f, p) && p[|p| - 1] == i && d in Carried(f, p)
  }

  /** Some path carries definition `d` to the end of block `i`. */
  ghost predicate ReachesEnd(f: Code, i: nat, d: nat) {
    exists p :: CarriedTo(f, p, i, d)
  }

  /** Some path carries definition `d` to the start of block `i`. */
  ghost predicate ReachesStart(f: Code, i: nat, d: nat)
    requires i < |f.blocks|
  {
    exists q :: q in f.blocks[i].preds && q >= NUM_FIXED_BLOCKS && ReachesEnd(f, q, d)
  }

  // ---- gen and kill ----

  /** All the definitions of register `r` seen by the time the scan stands before instruction `k` of block `i`. */
  ghost predicate SeenDef(f: Code, d: nat, r: nat, i: nat, k: nat) {
    exists j: nat, l: nat :: IsDefAt(f, d, r, j, l) && (j < i || (j == i && l < k))
  }

  /** Each register has its definitions seen so far. */
  ghost predicate DefsetsAre(f: Code, defset: seq<set<nat>>, i: nat, k: nat) {
    forall r: nat, d :: r < |defset| ==> (d in defset[r] <==> SeenDef(f, d, r, i, k))
  }

  ghost predicate GenKill(f: Code, gen: seq<set<nat>>, kill: seq<set<nat>>) {
    && |gen| == |kill| == |f.blocks|
    && (forall i :: NUM_FIXED_BLOCKS <= i < |f.blocks| ==> gen[i] == AfterAll(f, f.blocks[i].insns, {}))
    && (forall i, d :: NUM_FIXED_BLOCKS <= i < |f.blocks| && (exists r: nat :: IsDef(f, d, r))
          ==> (d in kill[i] <==> DefsOverwritten(f, d, Written(f, f.blocks[i].insns))))
  }

  ghost predicate OnlyDefs(f: Code, defs: set<nat>) {
    forall d :: d in defs ==> exists r: nat :: IsDef(f, d, r)
  }

  /** What gen and kill do to a set of definitions is what the block's instructions do. */
  lemma BlockTransfer(f: Code, gen: seq<set<nat>>, kill: seq<set<nat>>, i: nat, before: set<nat>)
    requires GenKill(f, gen, kill) && NUM_FIXED_BLOCKS <= i < |f.blocks| && OnlyDefs(f, before)
    ensures AfterAll(f, f.blocks[i].insns, before) == gen[i] + (before - kill[i])
  {
    hide AfterAll, Written, DefsOverwritten, IsDef;
    BlockActs(f, f.blocks[i].insns, before);
  }

  // ---- out, by iteration ----

  ghost function Incoming(outs: seq<set<nat>>, preds: seq<nat>): set<nat> {
    if preds == [] then {}
    else
      var b := preds[|preds| - 1];
      Incoming(outs, preds[..|preds| - 1]) + if NUM_FIXED_BLOCKS <= b < |outs| then outs[b] else {}
  }

  lemma {:induction false} IncomingHas(outs: seq<set<nat>>, preds: seq<nat>, d: nat)
    ensures d in Incoming(outs, preds) <==> exists b :: b in preds && NUM_FIXED_BLOCKS <= b < |outs| && d in outs[b]
  {
    if preds != [] {
      var init, last := preds[..|preds| - 1], preds[|preds| - 1];
      IncomingHas(outs, init, d);
      assert preds == init + [last];
    }
  }

  ghost function Transfer(f: Code, outs: seq<set<nat>>, gen: seq<set<nat>>, kill: seq<set<nat>>, i: nat): set<nat>
    requires |outs| == |gen| == |kill| == |f.blocks| && i < |f.blocks|
  {
    gen[i] + (Incoming(outs, f.blocks[i].preds) - kill[i])
  }

  ghost predicate AllReach(f: Code, outs: seq<set<nat>>) {
    && |outs| == |f.blocks|
    && forall i, d :: NUM_FIXED_BLOCKS <= i < |outs| && d in outs[i] ==> ReachesEnd(f, i, d)
  }

  /** Every set is part of what the next round would make of it. */
  ghost predicate Inflates(f: Code, outs: seq<set<nat>>, gen: seq<set<nat>>, kill: seq<set<nat>>) {
    && |outs| == |gen| == |kill| == |f.blocks|
    && forall i :: NUM_FIXED_BLOCKS <= i < |outs| ==> outs[i] <= Transfer(f, outs, gen, kill, i)
  }

  lemma {:induction false} CarriedDefs(f: Code, p: seq<nat>)
    requires Path(f, p)
    ensures OnlyDefs(f, Carried(f, p))
  {
    var before := if |p| == 1 then {} else Carried(f, p[..|p| - 1]);
    if |p| > 1 {
      CarriedDefs(f, p[..|p| - 1]);
    } else {
      assert p[..0] == [];
    }
    AfterAllDefs(f, p[|p| - 1], |f.blocks[p[|p| - 1]].insns|, before);
    var insns := f.blocks[p[|p| - 1]].insns;
    assert insns[..|insns|] == insns;
  }

  lemma {:induction false} AfterAllDefs(f: Code, i: nat, k: nat, before: set<nat>)
    requires NUM_FIXED_BLOCKS <= i < |f.blocks| && k <= |f.blocks[i].insns| && OnlyDefs(f, before)
    ensures OnlyDefs(f, AfterAll(f, f.blocks[i].insns[..k], before))
  {
    if k > 0 {
      AfterAllDefs(f, i, k - 1, before);
      var insns := f.blocks[i].insns[..k];
      assert insns[..k - 1] == f.blocks[i].insns[..k - 1];
      var last := insns[k - 1];
      assert AfterAll(f, insns, before) == After(f, last, AfterAll(f, insns[..k - 1], before));
      if last.Def? {
        assert IsDefAt(f, last.uid, last.reg, i, k - 1);
        assert IsDef(f, last.uid, last.reg);
      }
    }
  }

  lemma GenReaches(f: Code, gen: seq<set<nat>>, kill: seq<set<nat>>, i: nat, d: nat)
    requires GenKill(f, gen, kill) && NUM_FIXED_BLOCKS <= i < |f.blocks| && d in gen[i]
    ensures ReachesEnd(f, i, d)
  {
    assert [i][..0] == [];
    assert CarriedTo(f, [i], i, d);
  }

  lemma CarriedFurther(f: Code, gen: seq<set<nat>>, kill: seq<set<nat>>, q: nat, i: nat, d: nat)
    requires GenKill(f, gen, kill) && NUM_FIXED_BLOCKS <= i < |f.blocks| && q in f.blocks[i].preds
    requires ReachesEnd(f, q, d) && d !in kill[i]
    ensures ReachesEnd(f, i, d)
  {
    hide AfterAll, DefsOverwritten, Written, GenKill;
    var p :| CarriedTo(f, p, q, d);
    CarriedDefs(f, p);
    BlockTransfer(f, gen, kill, i, Carried(f, p));
    assert (p + [i])[..|p|] == p;
    assert CarriedTo(f, p + [i], i, d);
  }

  /** One block's step adds only definitions that reach its end. */
  lemma StepReaches(f: Code, outs: seq<set<nat>>, gen: seq<set<nat>>, kill: seq<set<nat>>, i: nat)
    requires GenKill(f, gen, kill) && AllReach(f, outs) && NUM_FIXED_BLOCKS <= i < |f.blocks|
    ensures AllReach(f, outs[i := Transfer(f, outs, gen, kill, i)])
  {
    hide ReachesEnd, AfterAll, DefsOverwritten, Written, IsDef;
    forall d | d in Transfer(f, outs, gen, kill, i)
      ensures ReachesEnd(f, i, d)
    {
      if d in gen[i] {
        GenReaches(f, gen, kill, i, d);
      } else {
        IncomingHas(outs, f.blocks[i].preds, d);
        var b :| b in f.blocks[i].preds && NUM_FIXED_BLOCKS <= b < |outs| && d in outs[b];
        CarriedFurther(f, gen, kill, b, i, d);
      }
    }
  }

  lemma {:induction false} IncomingGrows(outs: seq<set<nat>>, outs': seq<set<nat>>, preds: seq<nat>)
    requires |outs| == |outs'| && forall i :: NUM_FIXED_BLOCKS <= i < |outs| ==> outs[i] <= outs'[i]
    ensures Incoming(outs, preds) <= Incoming(outs', preds)
  {
    if preds != [] {
      IncomingGrows(outs, outs', preds[..|preds| - 1]);
    }
  }

  lemma StepInflates(f: Code, outs: seq<set<nat>>, gen: seq<set<nat>>, kill: seq<set<nat>>, i: nat)
    requires Inflates(f, outs, gen, kill) && NUM_FIXED_BLOCKS <= i < |f.blocks|
    ensures var outs' := outs[i := Transfer(f, outs, gen, kill, i)];
            Inflates(f, outs', gen, kill) && outs[i] <= outs'[i]
  {
    var outs' := outs[i := Transfer(f, outs, gen, kill, i)];
    forall j | NUM_FIXED_BLOCKS <= j < |outs|
      ensures outs'[j] <= Transfer(f, outs', gen, kill, j)
    {
      IncomingGrows(outs, outs', f.blocks[j].preds);
    }
  }

  /** A set of sets that no step changes holds whatever any path carries. */
  lemma {:induction false} FixpointHoldsPaths(f: Code, outs: seq<set<nat>>, gen: seq<set<nat>>, kill: seq<set<nat>>,
                                              p: seq<nat>, d: nat)
    requires GenKill(f, gen, kill) && |outs| == |f.blocks|
    requires forall i :: NUM_FIXED_BLOCKS <= i < |outs| ==> outs[i] == Transfer(f, outs, gen, kill, i)
    requires Path(f, p) && d in Carried(f, p)
    ensures d in outs[p[|p| - 1]]
  {
    hide AfterAll, DefsOverwritten, Written, OnlyDefs, IsDef;
    var i, init := p[|p| - 1], p[..|p| - 1];
    if |p| == 1 {
      assert p[..0] == [];
      NoDefs(f);
      BlockTransfer(f, gen, kill, i, {});
    } else {
      assert Path(f, init);
      CarriedDefs(f, init);
      BlockTransfer(f, gen, kill, i, Carried(f, init));
      if d !in gen[i] {
        FixpointHoldsPaths(f, outs, gen, kill, init, d);
        IncomingHas(outs, f.blocks[i].preds, d);
      }
    }
  }

  lemma NoDefs(f: Code)
    ensures OnlyDefs(f, {})
  {}

  // ---- the iteration stops ----

  ghost function Pairs(outs: seq<set<nat>>): set<(nat, nat)> {
    set i: nat, d: nat | NUM_FIXED_BLOCKS <= i < |outs| && d in outs[i] :: (i, d)
  }

  /** More pairs than these there cannot be. */
  ghost function AllPairs(f: Code): set<(nat, nat)> {
    set i: nat, b: nat, k: nat | i < |f.blocks| && b < |f.blocks| && k < |f.blocks[b].insns| :: (i, f.blocks[b].insns[k].uid)
  }

  lemma PairsBounded(f: Code, outs: seq<set<nat>>)
    requires AllReach(f, outs)
    ensures Pairs(outs) <= AllPairs(f)
  {
    forall i: nat, d: nat | NUM_FIXED_BLOCKS <= i < |outs| && d in outs[i]
      ensures (i, d) in AllPairs(f)
    {
      var p :| CarriedTo(f, p, i, d);
      CarriedDefs(f, p);
      var r: nat :| IsDef(f, d, r);
      var b: nat, k: nat :| IsDefAt(f, d, r, b, k);
    }
  }

  /** The definitions live at the end of some predecessor of block `i`, the entry aside. */
  method UnionOfPreds(f: Code, out: array<set<nat>>, i: nat) returns (before: set<nat>)
    requires i < |f.blocks| == out.Length
    ensures before == Incoming(out[..], f.blocks[i].preds)
  {
    before := {};
    var preds := f.blocks[i].preds;
    assert preds[..|preds|] == preds;
    for e := 0 to |preds|
      invariant before == Incoming(out[..], preds[..e])
    {
      assert preds[..e + 1][..e] == preds[..e];
      var b := preds[e];
      if NUM_FIXED_BLOCKS <= b < out.Length {
        before := before + out[b];
      }
    }
  }

  ghost predicate Settled(f: Code, outs: seq<set<nat>>, gen: seq<set<nat>>, kill: seq<set<nat>>, upto: nat) {
    && |outs| == |gen| == |kill| == |f.blocks|
    && forall i :: NUM_FIXED_BLOCKS <= i < |outs| && i < upto ==> outs[i] == Transfer(f, outs, gen, kill, i)
  }

  lemma GenKillSizes(f: Code, gen: seq<set<nat>>, kill: seq<set<nat>>)
    requires GenKill(f, gen, kill)
    ensures |gen| == |kill| == |f.blocks|
  {}

  lemma GensReach(f: Code, outs: seq<set<nat>>, gen: seq<set<nat>>, kill: seq<set<nat>>)
    requires GenKill(f, gen, kill) && |outs| == |f.blocks|
    requires forall i :: NUM_FIXED_BLOCKS <= i < |outs| ==> outs[i] == gen[i]
    ensures AllReach(f, outs) && Inflates(f, outs, gen, kill)
  {
    forall i, d | NUM_FIXED_BLOCKS <= i < |outs| && d in outs[i]
      ensures ReachesEnd(f, i, d)
    {
      GenReaches(f, gen, kill, i, d);
    }
  }

  lemma TransferIs(f: Code, outs: seq<set<nat>>, gen: seq<set<nat>>, kill: seq<set<nat>>, i: nat, before: set<nat>)
    requires |outs| == |gen| == |kill| == |f.blocks| && i < |f.blocks|
    requires before == Incoming(outs, f.blocks[i].preds)
    ensures Transfer(f, outs, gen, kill, i) == gen[i] + (before - kill[i])
  {}

  lemma StepSettles(f: Code, outs: seq<set<nat>>, gen: seq<set<nat>>, kill: seq<set<nat>>, i: nat)
    requires Settled(f, outs, gen, kill, i) && NUM_FIXED_BLOCKS <= i < |f.blocks|
    ensures outs[i] == Transfer(f, outs, gen, kill, i) ==> Settled(f, outs, gen, kill, i + 1)
  {
    hide Transfer;
  }

  lemma Unsettled(f: Code, outs: seq<set<nat>>, gen: seq<set<nat>>, kill: seq<set<nat>>)
    requires |outs| == |gen| == |kill| == |f.blocks|
    ensures Settled(f, outs, gen, kill, NUM_FIXED_BLOCKS)
  {}

  lemma StepGrows(outs: seq<set<nat>>, i: nat, next: set<nat>)
    requires NUM_FIXED_BLOCKS <= i < |outs| && outs[i] <= next
    ensures Pairs(outs) <= Pairs(outs[i := next])
    ensures next != outs[i] ==> Pairs(outs) < Pairs(outs[i := next])
  {
    if next != outs[i] {
      var d :| d in next && d !in outs[i];
      assert (i, d) in Pairs(outs[i := next]) && (i, d) !in Pairs(outs);
    }
  }

  lemma FewerLeft(f: Code, outs: seq<set<nat>>, outs': seq<set<nat>>)
    requires AllReach(f, outs') && Pairs(outs) < Pairs(outs')
    ensures |AllPairs(f) - Pairs(outs')| < |AllPairs(f) - Pairs(outs)|
  {
    hide Pairs, AllPairs;
    PairsBounded(f, outs');
    Smaller(AllPairs(f) - Pairs(outs'), AllPairs(f) - Pairs(outs), Pairs(outs') - Pairs(outs));
  }

  lemma Smaller<T>(a: set<T>, b: set<T>, more: set<T>)
    requires b == a + more && a * more == {} && more != {}
    ensures |a| < |b|
  {
    assert |b| == |a| + |more|;
  }

  lemma Fixpoint(f: Code, outs: seq<set<nat>>, gen: seq<set<nat>>, kill: seq<set<nat>>)
    requires GenKill(f, gen, kill) && AllReach(f, outs) && Settled(f, outs, gen, kill, |f.blocks|)
    ensures forall i: nat, d :: NUM_FIXED_BLOCKS <= i < |f.blocks| ==> (d in outs[i] <==> ReachesEnd(f, i, d))
  {
    hide GenKill, Transfer, Carried;
    forall i: nat, d | NUM_FIXED_BLOCKS <= i < |f.blocks| && ReachesEnd(f, i, d)
      ensures d in outs[i]
    {
      var p :| CarriedTo(f, p, i, d);
      FixpointHoldsPaths(f, outs, gen, kill, p, d);
    }
  }

  /** Iterating the blocks until nothing grows finds exactly what some path carries to each block's end. */
  method ComputeOut(f: Code, out: array<set<nat>>, gen: array<set<nat>>, kill: array<set<nat>>)
    requires Valid(f) && out.Length == |f.blocks| && out != gen && out != kill
    requires GenKill(f, gen[..], kill[..])
    modifies out
    ensures forall i: nat, d :: NUM_FIXED_BLOCKS <= i < |f.blocks| ==> (d in out[i] <==> ReachesEnd(f, i, d))
  {
    hide GenKill, AllReach, Inflates, Transfer, Pairs, AllPairs, ReachesEnd, Incoming, Settled;
    ghost var gens, kills := gen[..], kill[..];
    GenKillSizes(f, gens, kills);
    for i := NUM_FIXED_BLOCKS to |f.blocks|
      invariant gen[..] == gens && kill[..] == kills
      invariant forall j :: NUM_FIXED_BLOCKS <= j < |f.blocks| && j < i ==> out[j] == gens[j]
    {
      out[i] := gen[i];
    }
    GensReach(f, out[..], gens, kills);
    var changed := true;
    while changed
      invariant gen[..] == gens && kill[..] == kills
      invariant AllReach(f, out[..]) && Inflates(f, out[..], gens, kills)
      invariant !changed ==> Settled(f, out[..], gens, kills, |f.blocks|)
      decreases |AllPairs(f) - Pairs(out[..])|, changed
    {
      changed := false;
      ghost var start := out[..];
      Unsettled(f, start, gens, kills);
      for i := NUM_FIXED_BLOCKS to |f.blocks|
        invariant gen[..] == gens && kill[..] == kills
        invariant AllReach(f, out[..]) && Inflates(f, out[..], gens, kills)
        invariant !changed ==> out[..] == start && Settled(f, start, gens, kills, i)
        invariant changed ==> Pairs(start) < Pairs(out[..])
      {
        ghost var outs := out[..];
        var before := UnionOfPreds(f, out, i);
        var next := gen[i] + (before - kill[i]);
        TransferIs(f, outs, gens, kills, i, before);
        StepReaches(f, outs, gens, kills, i);
        StepInflates(f, outs, gens, kills, i);
        if !changed {
          StepSettles(f, outs, gens, kills, i);
        }
        StepGrows(outs, i, next);
        if next != out[i] {
          changed := true;
        }
        out[i] := next;
        assert out[..] == outs[i := next];
      }
      if changed {
        FewerLeft(f, start, out[..]);
      }
    }
    Fixpoint(f, out[..], gens, kills);
  }

  // ---- the sets themselves ----

  lemma OneRegister(f: Code, d: nat, r: nat, r': nat)
    requires Valid(f) && IsDef(f, d, r) && IsDef(f, d, r')
    ensures r == r'
  {
    var i: nat, k: nat :| IsDefAt(f, d, r, i, k);
    var j: nat, l: nat :| IsDefAt(f, d, r', j, l);
    assert SameUid(f, i, k, j, l);
  }

  ghost predicate AllSeen(f: Code, defs: set<nat>, i: nat, k: nat) {
    forall d :: d in defs ==> exists r: nat :: SeenDef(f, d, r, i, k)
  }

  /** Taking away the definitions seen so far takes away all it should, when only those are there. */
  lemma WithoutSeen(f: Code, defs: set<nat>, regs: set<nat>, defset: seq<set<nat>>, i: nat, k: nat, left: set<nat>)
    requires Valid(f) && AllSeen(f, defs, i, k) && DefsetsAre(f, defset, i, k)
    requires forall r :: r in regs ==> r < |defset|
    requires forall d :: d in left <==> d in defs && !exists r :: r in regs && r < |defset| && d in defset[r]
    ensures left == Without(f, defs, regs)
  {
    forall d | d in defs
      ensures d in left <==> !DefsOverwritten(f, d, regs)
    {
      var r': nat :| SeenDef(f, d, r', i, k);
      SeenIsDef(f, d, r', i, k);
      if DefsOverwritten(f, d, regs) {
        var r: nat :| r in regs && IsDef(f, d, r);
        OneRegister(f, d, r, r');
        assert d in defset[r];
      } else if r :| r in regs && r < |defset| && d in defset[r] {
        SeenIsDef(f, d, r, i, k);
      }
    }
  }

  lemma SeenIsDef(f: Code, d: nat, r: nat, i: nat, k: nat)
    requires SeenDef(f, d, r, i, k)
    ensures IsDef(f, d, r)
  {
    var j: nat, l: nat :| IsDefAt(f, d, r, j, l) && (j < i || (j == i && l < k));
  }

  lemma SeenNext(f: Code, d: nat, r: nat, i: nat, k: nat)
    requires InsnAt(f, i, k)
    ensures SeenDef(f, d, r, i, k + 1) <==> SeenDef(f, d, r, i, k) || f.blocks[i].insns[k] == Def(d, r)
  {
    if f.blocks[i].insns[k] == Def(d, r) {
      assert IsDefAt(f, d, r, i, k);
    }
    if SeenDef(f, d, r, i, k) {
      var j: nat, l: nat :| IsDefAt(f, d, r, j, l) && (j < i || (j == i && l < k));
      assert j < i || (j == i && l < k + 1);
    }
    if SeenDef(f, d, r, i, k + 1) {
      var j: nat, l: nat :| IsDefAt(f, d, r, j, l) && (j < i || (j == i && l < k + 1));
      assert j < i || (j == i && l < k) || (j == i && l == k);
    }
  }

  lemma SeenNextBlock(f: Code, d: nat, r: nat, i: nat)
    requires NUM_FIXED_BLOCKS <= i < |f.blocks|
    ensures SeenDef(f, d, r, i + 1, 0) <==> SeenDef(f, d, r, i, |f.blocks[i].insns|)
  {
    var n := |f.blocks[i].insns|;
    if SeenDef(f, d, r, i, n) {
      var j: nat, l: nat :| IsDefAt(f, d, r, j, l) && (j < i || (j == i && l < n));
      assert j < i + 1;
    }
    if SeenDef(f, d, r, i + 1, 0) {
      var j: nat, l: nat :| IsDefAt(f, d, r, j, l) && (j < i + 1 || (j == i + 1 && l < 0));
      assert j < i || (j == i && l < n);
    }
  }

  /** One by one, the definitions of some registers leave the set and the registers are noted as written. */
  method NoteBtrSets(f: Code, regs: set<nat>, defset: array<set<nat>>, gen: array<set<nat>>,
                     written: array<set<nat>>, i: nat)
    requires gen.Length == written.Length && i < gen.Length && defset != gen && gen != written && defset != written
    requires forall r :: r in f.btrs ==> r < defset.Length
    modifies gen, written
    ensures gen[..] == old(gen[..])[i := gen[i]] && written[..] == old(written[..])[i := written[i]]
    ensures written[i] == old(written[i]) + regs * f.btrs
    ensures forall d :: d in gen[i] <==>
                d in old(gen[i]) && !exists r :: r in regs * f.btrs && r < defset.Length && d in defset[r]
  {
    for regno := 0 to defset.Length
      invariant gen[..] == old(gen[..])[i := gen[i]] && written[..] == old(written[..])[i := written[i]]
      invariant forall r :: r in written[i] <==> r in old(written[i]) || (r in regs * f.btrs && r < regno)
      invariant forall d :: d in gen[i] <==>
                  d in old(gen[i]) && !exists r :: r in regs * f.btrs && r < regno && d in defset[r]
    {
      if regno in regs && regno in f.btrs {
        written[i] := written[i] + {regno};
        gen[i] := gen[i] - defset[regno];
      }
    }
  }

  /** One instruction's step, in the terms of the scan. */
  lemma StepGen(f: Code, defset: seq<set<nat>>, i: nat, k: nat, gen: set<nat>, left: set<nat>)
    requires Valid(f) && InsnAt(f, i, k) && DefsetsAre(f, defset, i, k)
    requires forall r :: r in f.btrs ==> r < |defset|
    requires gen == AfterAll(f, f.blocks[i].insns[..k], {}) && AllSeen(f, gen, i, k)
    requires forall d :: d in left <==>
               d in gen && !exists r :: r in Overwritten(f, f.blocks[i].insns[k]) && r < |defset| && d in defset[r]
    ensures var insn := f.blocks[i].insns[k];
            var next := left + if insn.Def? then {insn.uid} else {};
            next == AfterAll(f, f.blocks[i].insns[..k + 1], {}) && AllSeen(f, next, i, k + 1)
  {
    hide AfterAll, DefsetsAre, SeenDef, DefsOverwritten;
    var insns, insn := f.blocks[i].insns, f.blocks[i].insns[k];
    WithoutSeen(f, gen, Overwritten(f, insn), defset, i, k, left);
    AfterNext(f, insns, k, {});
    var later := k + 1;
    forall d | d in gen
      ensures exists r: nat :: SeenDef(f, d, r, i, later)
    {
      var r: nat :| SeenDef(f, d, r, i, k);
      SeenNext(f, d, r, i, k);
      assert SeenDef(f, d, r, i, later);
    }
    if insn.Def? {
      SeenNext(f, insn.uid, insn.reg, i, k);
    }
  }

  lemma AfterNext(f: Code, insns: seq<Insn>, k: nat, before: set<nat>)
    requires k < |insns|
    ensures AfterAll(f, insns[..k + 1], before) == After(f, insns[k], AfterAll(f, insns[..k], before))
    ensures Written(f, insns[..k + 1]) == Written(f, insns[..k]) + Overwritten(f, insns[k])
  {
    assert insns[..k + 1][..k] == insns[..k];
  }

  lemma StepDefsets(f: Code, defset: seq<set<nat>>, i: nat, k: nat, defset': seq<set<nat>>)
    requires InsnAt(f, i, k) && DefsetsAre(f, defset, i, k) && |defset'| == |defset|
    requires var insn := f.blocks[i].insns[k];
             if insn.Def? then insn.reg < |defset| && defset' == defset[insn.reg := defset[insn.reg] + {insn.uid}]
             else defset' == defset
    ensures DefsetsAre(f, defset', i, k + 1)
  {
    forall r: nat, d | r < |defset'|
      ensures d in defset'[r] <==> SeenDef(f, d, r, i, k + 1)
    {
      if d >= 0 {
        SeenNext(f, d, r, i, k);
      }
    }
  }

  lemma NextBlockDefsets(f: Code, defset: seq<set<nat>>, i: nat)
    requires NUM_FIXED_BLOCKS <= i < |f.blocks| && DefsetsAre(f, defset, i, |f.blocks[i].insns|)
    ensures DefsetsAre(f, defset, i + 1, 0)
  {
    hide SeenDef;
    forall r: nat, d | r < |defset|
      ensures d in defset[r] <==> SeenDef(f, d, r, i + 1, 0)
    {
      SeenNextBlock(f, d, r, i);
    }
  }

  /** A call that leaves the function clobbers the registers other calls save. */
  method CallClobbers(f: Code, call: CallKind) returns (regs: set<nat>)
    ensures regs * f.btrs == Clobbered(f, call)
  {
    match call
    case NoCall => regs := {};
    case Call => regs := f.callUsed;
    case SibCall => regs := f.btrs - f.callUsed;
  }

  /** The scan of one instruction: its registers leave the set, and a definition joins it. */
  method ScanInsn(f: Code, i: nat, k: nat, defset: array<set<nat>>, gen: array<set<nat>>, written: array<set<nat>>)
    requires Valid(f) && InsnAt(f, i, k) && |f.blocks| == gen.Length == written.Length
    requires defset != gen && gen != written && defset != written
    requires forall r :: r in f.btrs ==> r < defset.Length
    requires DefsetsAre(f, defset[..], i, k)
    requires gen[i] == AfterAll(f, f.blocks[i].insns[..k], {}) && AllSeen(f, gen[i], i, k)
    modifies defset, gen, written
    ensures gen[..] == old(gen[..])[i := gen[i]] && written[..] == old(written[..])[i := written[i]]
    ensures gen[i] == AfterAll(f, f.blocks[i].insns[..k + 1], {}) && AllSeen(f, gen[i], i, k + 1)
    ensures written[i] == old(written[i]) + Overwritten(f, f.blocks[i].insns[k])
    ensures DefsetsAre(f, defset[..], i, k + 1)
  {
    hide AfterAll, DefsetsAre, SeenDef, DefsOverwritten;
    var insn := f.blocks[i].insns[k];
    ghost var sets, had := defset[..], gen[i];
    if insn.Def? {
      assert OwnRegister(f, insn);
      written[i] := written[i] + {insn.reg};
      gen[i] := gen[i] - defset[insn.reg];
      StepGen(f, sets, i, k, had, gen[i]);
      gen[i] := gen[i] + {insn.uid};
      defset[insn.reg] := defset[insn.reg] + {insn.uid};
    } else if insn.Blockage? {
      written[i] := written[i] + f.btrs;
      gen[i] := {};
      StepBlockage(f, sets, i, k, had);
    } else {
      if insn.ManyUses? {
        NoteBtrSets(f, insn.stores, defset, gen, written, i);
      }
      var regs := CallClobbers(f, insn.call);
      NoteBtrSets(f, regs, defset, gen, written, i);
      StepGen(f, sets, i, k, had, gen[i]);
    }
    StepDefsets(f, sets, i, k, defset[..]);
  }

  /** The scan of one block: what its instructions add and overwrite, whatever comes in. */
  method ScanBlock(f: Code, i: nat, defset: array<set<nat>>, gen: array<set<nat>>, written: array<set<nat>>)
    requires Valid(f) && NUM_FIXED_BLOCKS <= i < |f.blocks| == gen.Length == written.Length
    requires defset != gen && gen != written && defset != written
    requires forall r :: r in f.btrs ==> r < defset.Length
    requires DefsetsAre(f, defset[..], i, 0)
    modifies defset, gen, written
    ensures gen[..] == old(gen[..])[i := AfterAll(f, f.blocks[i].insns, {})]
    ensures written[..] == old(written[..])[i := Written(f, f.blocks[i].insns)]
    ensures DefsetsAre(f, defset[..], i + 1, 0)
  {
    hide AfterAll, Written, DefsetsAre, SeenDef, DefsOverwritten, AllSeen, Overwritten, Valid;
    var insns := f.blocks[i].insns;
    gen[i] := {};
    written[i] := {};
    EmptyScan(f, i);
    assert insns[..0] == [];
    for k := 0 to |insns|
      invariant gen[..] == old(gen[..])[i := gen[i]] && written[..] == old(written[..])[i := written[i]]
      invariant gen[i] == AfterAll(f, insns[..k], {}) && AllSeen(f, gen[i], i, k)
      invariant written[i] == Written(f, insns[..k])
      invariant DefsetsAre(f, defset[..], i, k)
    {
      AfterNext(f, insns, k, {});
      ScanInsn(f, i, k, defset, gen, written);
    }
    assert insns[..|insns|] == insns;
    NextBlockDefsets(f, defset[..], i);
  }

  lemma EmptyScan(f: Code, i: nat)
    ensures AfterAll(f, [], {}) == {} && Written(f, []) == {} && AllSeen(f, {}, i, 0)
  {}

  lemma StepBlockage(f: Code, defset: seq<set<nat>>, i: nat, k: nat, gen: set<nat>)
    requires Valid(f) && InsnAt(f, i, k) && f.blocks[i].insns[k].Blockage? && DefsetsAre(f, defset, i, k)
    requires forall r :: r in f.btrs ==> r < |defset|
    requires gen == AfterAll(f, f.blocks[i].insns[..k], {}) && AllSeen(f, gen, i, k)
    ensures AfterAll(f, f.blocks[i].insns[..k + 1], {}) == {} && AllSeen(f, {}, i, k + 1)
  {
    hide AfterAll, SeenDef, DefsOverwritten;
    forall d | d in gen
      ensures exists r :: r in f.btrs && r < |defset| && d in defset[r]
    {
      var r: nat :| SeenDef(f, d, r, i, k);
      SeenInBtrs(f, d, r, i, k);
      assert r in f.btrs && r < |defset| && d in defset[r];
    }
    StepGen(f, defset, i, k, gen, {});
  }

  lemma SeenInBtrs(f: Code, d: nat, r: nat, i: nat, k: nat)
    requires Valid(f) && SeenDef(f, d, r, i, k)
    ensures r in f.btrs
  {
    var j: nat, l: nat :| IsDefAt(f, d, r, j, l) && (j < i || (j == i && l < k));
  }

  ghost predicate Scanned(f: Code, gen: seq<set<nat>>, written: seq<set<nat>>, upto: nat) {
    && |gen| == |written| == |f.blocks|
    && forall i :: NUM_FIXED_BLOCKS <= i < |f.blocks| && i < upto
         ==> gen[i] == AfterAll(f, f.blocks[i].insns, {}) && written[i] == Written(f, f.blocks[i].insns)
  }

  /** All definitions by register, and what each block adds and overwrites. */
  method ComputeDefsUsesAndGen(f: Code, defset: array<set<nat>>, gen: array<set<nat>>, written: array<set<nat>>)
    requires Valid(f) && |f.blocks| == gen.Length == written.Length
    requires defset != gen && gen != written && defset != written
    requires forall r :: r in f.btrs ==> r < defset.Length
    requires forall r :: 0 <= r < defset.Length ==> defset[r] == {}
    modifies defset, gen, written
    ensures Scanned(f, gen[..], written[..], |f.blocks|)
    ensures forall r: nat, d :: r < defset.Length ==> (d in defset[r] <==> IsDef(f, d, r))
  {
    hide AfterAll, Written, DefsetsAre;
    NoneSeen(f, defset[..]);
    for i := NUM_FIXED_BLOCKS to |f.blocks|
      invariant DefsetsAre(f, defset[..], i, 0)
      invariant Scanned(f, gen[..], written[..], i)
    {
      ScanBlock(f, i, defset, gen, written);
    }
    AllDefsSeen(f, defset[..]);
  }

  lemma NoneSeen(f: Code, defset: seq<set<nat>>)
    requires forall r :: 0 <= r < |defset| ==> defset[r] == {}
    ensures DefsetsAre(f, defset, NUM_FIXED_BLOCKS, 0)
  {
    forall d, r ensures !SeenDef(f, d, r, NUM_FIXED_BLOCKS, 0) {}
  }

  lemma AllDefsSeen(f: Code, defset: seq<set<nat>>)
    requires DefsetsAre(f, defset, |f.blocks|, 0)
    ensures forall r: nat, d :: r < |defset| ==> (d in defset[r] <==> IsDef(f, d, r))
  {
    forall r: nat, d | r < |defset|
      ensures SeenDef(f, d, r, |f.blocks|, 0) <==> IsDef(f, d, r)
    {
      if IsDef(f, d, r) {
        var j: nat, l: nat :| IsDefAt(f, d, r, j, l);
        assert j < |f.blocks|;
      }
      if SeenDef(f, d, r, |f.blocks|, 0) {
        SeenIsDef(f, d, r, |f.blocks|, 0);
      }
    }
  }

  /** A block kills the definitions of every register it overwrites. */
  method ComputeKill(f: Code, kill: array<set<nat>>, defset: array<set<nat>>, written: array<set<nat>>, ghost gen: seq<set<nat>>)
    requires Valid(f) && |f.blocks| == kill.Length == written.Length && kill != defset && kill != written
    requires forall r :: r in f.btrs ==> r < defset.Length
    requires forall r: nat, d :: r < defset.Length ==> (d in defset[r] <==> IsDef(f, d, r))
    requires Scanned(f, gen, written[..], |f.blocks|)
    modifies kill
    ensures GenKill(f, gen, kill[..])
  {
    hide AfterAll, Written, IsDef, DefsOverwritten, Scanned;
    var i := NUM_FIXED_BLOCKS;
    while i < |f.blocks|
      invariant NUM_FIXED_BLOCKS <= i <= |f.blocks|
      invariant defset[..] == old(defset[..]) && written[..] == old(written[..])
      invariant forall j, d :: NUM_FIXED_BLOCKS <= j < i ==> (d in kill[j] <==> KilledBy(f, defset[..], written[j], d, defset.Length))
    {
      kill[i] := {};
      for regno := 0 to defset.Length
        invariant defset[..] == old(defset[..]) && written[..] == old(written[..])
        invariant forall j, d :: NUM_FIXED_BLOCKS <= j < i ==> (d in kill[j] <==> KilledBy(f, defset[..], written[j], d, defset.Length))
        invariant forall d :: d in kill[i] <==> KilledBy(f, defset[..], written[i], d, regno)
      {
        if regno in f.btrs && regno in written[i] {
          kill[i] := kill[i] + defset[regno];
        }
      }
      i := i + 1;
    }
    KillsAll(f, gen, kill[..], defset[..], written[..]);
  }

  ghost predicate KilledBy(f: Code, defset: seq<set<nat>>, written: set<nat>, d: nat, upto: nat) {
    exists r :: r in f.btrs && r in written && r < |defset| && r < upto && d in defset[r]
  }

  lemma {:induction false} WrittenBtrs(f: Code, i: nat, k: nat)
    requires Valid(f) && NUM_FIXED_BLOCKS <= i < |f.blocks| && k <= |f.blocks[i].insns|
    ensures Written(f, f.blocks[i].insns[..k]) <= f.btrs
  {
    if k > 0 {
      WrittenBtrs(f, i, k - 1);
      AfterNext(f, f.blocks[i].insns, k - 1, {});
      assert InsnAt(f, i, k - 1);
    }
  }

  lemma KillsAll(f: Code, gen: seq<set<nat>>, kill: seq<set<nat>>, defset: seq<set<nat>>, written: seq<set<nat>>)
    requires Valid(f) && Scanned(f, gen, written, |f.blocks|) && |kill| == |f.blocks|
    requires forall r :: r in f.btrs ==> r < |defset|
    requires forall r: nat, d :: r < |defset| ==> (d in defset[r] <==> IsDef(f, d, r))
    requires forall j, d :: NUM_FIXED_BLOCKS <= j < |f.blocks| ==>
               (d in kill[j] <==> KilledBy(f, defset, written[j], d, |defset|))
    ensures GenKill(f, gen, kill)
  {
    hide AfterAll, Written, IsDef;
    forall i, d | NUM_FIXED_BLOCKS <= i < |f.blocks|
      ensures d in kill[i] <==> d >= 0 && DefsOverwritten(f, d, Written(f, f.blocks[i].insns))
    {
      WrittenBtrs(f, i, |f.blocks[i].insns|);
      var insns := f.blocks[i].insns;
      assert insns[..|insns|] == insns;
      if d >= 0 && DefsOverwritten(f, d, written[i]) {
        var r :| r in written[i] && IsDef(f, d, r);
        assert r in f.btrs && r < |defset| && d in defset[r];
      }
    }
  }
}
