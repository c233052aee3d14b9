/** Each use of a branch target register is attached to the definitions that reach it. */
module BtrUses {
  import opened ReachingDefs

  // ---- what reaches an instruction ----

  /** A path, possibly empty, brings definition `d` to instruction `k` of block `i`. */
  ghost predicate ReachesInsn(f: Code, i: nat, k: nat, d: nat)
    requires i < |f.blocks| && k <= |f.blocks[i].insns|
  {
    d in AfterAll(f, f.blocks[i].insns[..k], {})
    || (ReachesStart(f, i, d) && !DefsOverwritten(f, d, Written(f, f.blocks[i].insns[..k])))
  }

  ghost predicate OutsExact(f: Code, outs: seq<set<nat>>) {
    && |outs| == |f.blocks|
    && forall i: nat, d :: NUM_FIXED_BLOCKS <= i < |f.blocks| ==> (d in outs[i] <==> ReachesEnd(f, i, d))
  }

  ghost predicate CarriedInto(f: Code, p: seq<nat>, i: nat, k: nat, d: nat)
    requires i < |f.blocks| && k <= |f.blocks[i].insns|
  {
    && (p == [] || (Path(f, p) && p[|p| - 1] in f.blocks[i].preds))
    && d in AfterAll(f, f.blocks[i].insns[..k], Carried(f, p))
  }

  /** Said path by path: the instructions along one path, and then those of the block, leave `d` live. */
  lemma ReachesByPath(f: Code, i: nat, k: nat, d: nat)
    requires i < |f.blocks| && k <= |f.blocks[i].insns|
    ensures ReachesInsn(f, i, k, d) <==> exists p :: CarriedInto(f, p, i, k, d)
  {
    hide AfterAll, Written, DefsOverwritten;
    var insns := f.blocks[i].insns[..k];
    if ReachesInsn(f, i, k, d) {
      if d in AfterAll(f, insns, {}) {
        assert CarriedInto(f, [], i, k, d);
      } else {
        var q: nat :| q in f.blocks[i].preds && q >= NUM_FIXED_BLOCKS && ReachesEnd(f, q, d);
        var p :| CarriedTo(f, p, q, d);
        BlockActs(f, insns, Carried(f, p));
        assert CarriedInto(f, p, i, k, d);
      }
    }
    if p :| CarriedInto(f, p, i, k, d) {
      BlockActs(f, insns, Carried(f, p));
      if p != [] && d in Carried(f, p) {
        assert CarriedTo(f, p, p[|p| - 1], d);
      }
    }
  }

  lemma StartByOuts(f: Code, outs: seq<set<nat>>, i: nat, d: nat)
    requires OutsExact(f, outs) && i < |f.blocks|
    ensures d in Incoming(outs, f.blocks[i].preds) <==> ReachesStart(f, i, d)
  {
    IncomingHas(outs, f.blocks[i].preds, d);
    if ReachesStart(f, i, d) {
      var q: nat :| q in f.blocks[i].preds && q >= NUM_FIXED_BLOCKS && ReachesEnd(f, q, d);
      assert q < |outs| && d in outs[q];
    }
    if b: nat :| b in f.blocks[i].preds && NUM_FIXED_BLOCKS <= b < |outs| && d in outs[b] {
      assert ReachesEnd(f, b, d);
    }
  }

  lemma ReachingByOuts(f: Code, outs: seq<set<nat>>, i: nat, k: nat, d: nat)
    requires OutsExact(f, outs) && i < |f.blocks| && k <= |f.blocks[i].insns|
    ensures d in AfterAll(f, f.blocks[i].insns[..k], Incoming(outs, f.blocks[i].preds)) <==> ReachesInsn(f, i, k, d)
  {
    hide AfterAll, Written, DefsOverwritten, ReachesStart;
    BlockActs(f, f.blocks[i].insns[..k], Incoming(outs, f.blocks[i].preds));
    StartByOuts(f, outs, i, d);
  }

  // ---- what the linking pass takes to reach it ----

  /** The registers whose definitions the linking pass drops at an instruction. */
  function Dropped(f: Code, insn: Insn): set<nat> {
    match insn
    case Def(_, reg) => {reg}
    case Blockage(_) => {}
    case SingleUse(_, _, call) => if call.NoCall? then {} else f.btrs * f.callUsed
    case ManyUses(_, _, _, call) => if call.NoCall? then {} else f.btrs * f.callUsed
    case NoUse(_, call) => if call.NoCall? then {} else f.btrs * f.callUsed
  }

  ghost function Tracked(f: Code, insns: seq<Insn>, before: set<nat>): set<nat> {
    if insns == [] then before
    else
      var last := insns[|insns| - 1];
      Without(f, Tracked(f, insns[..|insns| - 1], before), Dropped(f, last))
      + if last.Def? then {last.uid} else {}
  }

  function UsedRegs(f: Code, insn: Insn): set<nat> {
    match insn
    case SingleUse(_, reg, _) => {reg}
    case ManyUses(_, refs, _, _) => f.btrs * refs
    case _ => {}
  }

  predicate IsUser(insn: Insn) {
    insn.SingleUse? || insn.ManyUses?
  }

  /** The definitions the pass attaches to the use at instruction `k` of block `i`. */
  ghost function Attached(f: Code, outs: seq<set<nat>>, i: nat, k: nat): set<nat>
    requires i < |f.blocks| && k < |f.blocks[i].insns|
  {
    set d | d in Tracked(f, f.blocks[i].insns[..k], Incoming(outs, f.blocks[i].preds))
            && DefsOverwritten(f, d, UsedRegs(f, f.blocks[i].insns[k]))
  }

  lemma DefsOverwrittenFewer(f: Code, d: nat, a: set<nat>, b: set<nat>)
    requires a <= b && DefsOverwritten(f, d, a)
    ensures DefsOverwritten(f, d, b)
  {}

  /** The pass misses no definition, as long as no call has left the function before. */
  lemma {:induction false} TrackedCovers(f: Code, insns: seq<Insn>, before: set<nat>, tracked: set<nat>)
    requires before <= tracked
    requires forall k :: 0 <= k < |insns| ==> Dropped(f, insns[k]) <= Overwritten(f, insns[k])
    ensures AfterAll(f, insns, before) <= Tracked(f, insns, tracked)
  {
    hide DefsOverwritten;
    if insns != [] {
      var init, last := insns[..|insns| - 1], insns[|insns| - 1];
      TrackedCovers(f, init, before, tracked);
      forall d | DefsOverwritten(f, d, Dropped(f, last))
        ensures DefsOverwritten(f, d, Overwritten(f, last))
      {
        DefsOverwrittenFewer(f, d, Dropped(f, last), Overwritten(f, last));
      }
    }
  }

  lemma DropsNoMore(f: Code, insn: Insn)
    requires insn.Def? || insn.Blockage? || !insn.call.SibCall?
    ensures Dropped(f, insn) <= Overwritten(f, insn)
  {}

  // ---- when the two agree ----

  /** What one of the two passes drops at an instruction, and what it leaves of the definitions. */
  function Drops(f: Code, insn: Insn, linking: bool): set<nat> {
    if linking then Dropped(f, insn) else Overwritten(f, insn)
  }

  ghost function Left(f: Code, insns: seq<Insn>, before: set<nat>, linking: bool): set<nat> {
    if linking then Tracked(f, insns, before) else AfterAll(f, insns, before)
  }

  /** The pass drops the definitions of `r` somewhere, and no definition of it follows. */
  predicate Gone(f: Code, insns: seq<Insn>, r: nat, linking: bool) {
    insns != []
    && var last := insns[|insns| - 1];
       !(last.Def? && last.reg == r) && (r in Drops(f, last, linking) || Gone(f, insns[..|insns| - 1], r, linking))
  }

  /** The last definition of `r`, or without one what there is before the instructions. */
  function Offered(insns: seq<Insn>, r: nat, before: set<nat>): set<nat> {
    if insns == [] then before
    else
      var last := insns[|insns| - 1];
      if last.Def? && last.reg == r then {last.uid} else Offered(insns[..|insns| - 1], r, before)
  }

  ghost predicate DefsOfCode(f: Code, insns: seq<Insn>) {
    forall k :: 0 <= k < |insns| && insns[k].Def? ==> IsDef(f, insns[k].uid, insns[k].reg)
  }

  lemma LeftNext(f: Code, insns: seq<Insn>, before: set<nat>, linking: bool)
    requires insns != []
    ensures var last := insns[|insns| - 1];
            Left(f, insns, before, linking)
            == Without(f, Left(f, insns[..|insns| - 1], before, linking), Drops(f, last, linking)) + if last.Def? then {last.uid} else {}
  {}

  lemma OneOverwritten(f: Code, d: nat, r: nat, regs: set<nat>)
    requires Valid(f) && IsDef(f, d, r)
    ensures DefsOverwritten(f, d, regs) <==> r in regs
  {
    hide IsDef;
    if r': nat :| r' in regs && IsDef(f, d, r') {
      OneRegister(f, d, r, r');
    }
  }

  /** Of one register a pass leaves what is offered, or nothing. */
  lemma {:induction false} LeftExact(f: Code, insns: seq<Insn>, before: set<nat>, linking: bool, r: nat, d: nat)
    requires Valid(f) && DefsOfCode(f, insns) && IsDef(f, d, r)
    ensures d in Left(f, insns, before, linking) <==> !Gone(f, insns, r, linking) && d in Offered(insns, r, before)
  {
    hide IsDef, DefsOverwritten, Valid;
    if insns != [] {
      var init, last := insns[..|insns| - 1], insns[|insns| - 1];
      LeftExact(f, init, before, linking, r, d);
      LeftNext(f, insns, before, linking);
      hide Left;
      OneOverwritten(f, d, r, Drops(f, last, linking));
      if last.Def? && last.uid == d {
        OneRegister(f, d, r, last.reg);
      }
    }
  }

  ghost predicate LeftAlike(f: Code, insns: seq<Insn>, before: set<nat>, r: nat) {
    forall d :: IsDef(f, d, r) ==> (d in Left(f, insns, before, true) <==> d in Left(f, insns, before, false))
  }

  /** From given definitions the passes leave the same of a register if both or neither drop them, or there are none. */
  lemma AlikeExactly(f: Code, insns: seq<Insn>, before: set<nat>, r: nat)
    requires Valid(f) && DefsOfCode(f, insns)
    ensures LeftAlike(f, insns, before, r) <==>
            || Gone(f, insns, r, true) == Gone(f, insns, r, false)
            || forall d :: IsDef(f, d, r) ==> d !in Offered(insns, r, before)
  {
    hide Left, Gone, Offered, IsDef, Valid, DefsOfCode;
    forall d | IsDef(f, d, r)
      ensures d in Left(f, insns, before, true) <==> !Gone(f, insns, r, true) && d in Offered(insns, r, before)
      ensures d in Left(f, insns, before, false) <==> !Gone(f, insns, r, false) && d in Offered(insns, r, before)
    {
      LeftExact(f, insns, before, true, r, d);
      LeftExact(f, insns, before, false, r, d);
    }
  }

  lemma {:induction false} OfferedOne(f: Code, insns: seq<Insn>, r: nat, d: nat)
    requires DefsOfCode(f, insns) && IsDef(f, d, r)
    ensures exists e :: e in Offered(insns, r, {d}) && IsDef(f, e, r)
  {
    hide IsDef;
    if insns == [] {
      assert d in Offered(insns, r, {d});
    } else {
      var last := insns[|insns| - 1];
      if last.Def? && last.reg == r {
        assert last.uid in Offered(insns, r, {d});
      } else {
        OfferedOne(f, insns[..|insns| - 1], r, d);
      }
    }
  }

  /**
   * For a register with a definition: whatever reaches the first of some instructions, the linking pass leaves the
   * definitions that are live behind the last, if and only if it drops the register exactly when that is overwritten.
   */
  lemma AlikeFromAll(f: Code, insns: seq<Insn>, r: nat)
    requires Valid(f) && DefsOfCode(f, insns) && exists d :: IsDef(f, d, r)
    ensures (forall before :: OnlyDefs(f, before) ==> LeftAlike(f, insns, before, r))
            <==> Gone(f, insns, r, true) == Gone(f, insns, r, false)
  {
    hide Left, LeftAlike, Gone, Offered, IsDef, Valid, DefsOfCode;
    forall before
      ensures LeftAlike(f, insns, before, r) <==>
              Gone(f, insns, r, true) == Gone(f, insns, r, false) || forall d :: IsDef(f, d, r) ==> d !in Offered(insns, r, before)
    {
      AlikeExactly(f, insns, before, r);
    }
    if Gone(f, insns, r, true) != Gone(f, insns, r, false) {
      var d :| IsDef(f, d, r);
      OfferedOne(f, insns, r, d);
      assert OnlyDefs(f, {d}) && !LeftAlike(f, insns, {d}, r);
    }
  }

  /** The definition reaches the use, by some path, and sets a register that is used. */
  ghost predicate ReachesUse(f: Code, i: nat, k: nat, d: nat)
    requires i < |f.blocks| && k < |f.blocks[i].insns|
  {
    ReachesInsn(f, i, k, d) && DefsOverwritten(f, d, UsedRegs(f, f.blocks[i].insns[k]))
  }

  /** A definition of `r` stands in the block before instruction `k`, or reaches the start of the block. */
  ghost predicate Comes(f: Code, i: nat, k: nat, r: nat)
    requires InsnAt(f, i, k)
  {
    || (exists l :: 0 <= l < k && f.blocks[i].insns[l].Def? && f.blocks[i].insns[l].reg == r)
    || (exists d :: IsDef(f, d, r) && ReachesStart(f, i, d))
  }

  /** Before the use the linking pass drops just what is overwritten of the registers used that have a definition there. */
  ghost predicate DropsRight(f: Code, i: nat, k: nat)
    requires InsnAt(f, i, k)
  {
    var insns := f.blocks[i].insns;
    forall r :: r in UsedRegs(f, insns[k]) && Comes(f, i, k, r) ==> Gone(f, insns[..k], r, true) == Gone(f, insns[..k], r, false)
  }

  ghost predicate AttachedReaches(f: Code, outs: seq<set<nat>>, i: nat, k: nat)
    requires i < |f.blocks| && k < |f.blocks[i].insns|
  {
    forall d :: d in Attached(f, outs, i, k) <==> ReachesUse(f, i, k, d)
  }

  /** What is attached to a use is what reaches it if and only if the pass drops what it should before the use. */
  lemma AttachedExact(f: Code, outs: seq<set<nat>>, i: nat, k: nat)
    requires Valid(f) && OutsExact(f, outs) && InsnAt(f, i, k)
    ensures AttachedReaches(f, outs, i, k) <==> DropsRight(f, i, k)
  {
    hide IsDef, OutsExact, Gone, Valid, ReachesStart, Left, Comes, Attached, ReachesUse;
    var insns, before := f.blocks[i].insns, Incoming(outs, f.blocks[i].preds);
    InCode(f, i, k);
    forall r
      ensures LeftAlike(f, insns[..k], before, r)
              <==> (Comes(f, i, k, r) ==> Gone(f, insns[..k], r, true) == Gone(f, insns[..k], r, false))
    {
      AlikeExactly(f, insns[..k], before, r);
      SomeComes(f, outs, i, k, r);
    }
    ByRegister(f, outs, i, k);
  }

  lemma InCode(f: Code, i: nat, k: nat)
    requires InsnAt(f, i, k)
    ensures DefsOfCode(f, f.blocks[i].insns[..k])
  {
    var insns := f.blocks[i].insns[..k];
    forall l | 0 <= l < |insns| && insns[l].Def?
      ensures IsDef(f, insns[l].uid, insns[l].reg)
    {
      assert IsDefAt(f, insns[l].uid, insns[l].reg, i, l);
    }
  }

  lemma {:induction false} OfferedComes(f: Code, outs: seq<set<nat>>, i: nat, k: nat, n: nat, r: nat)
    requires Valid(f) && OutsExact(f, outs) && InsnAt(f, i, k) && n <= k
    ensures (exists d :: IsDef(f, d, r) && d in Offered(f.blocks[i].insns[..n], r, Incoming(outs, f.blocks[i].preds)))
            <==> || (exists l :: 0 <= l < n && f.blocks[i].insns[l].Def? && f.blocks[i].insns[l].reg == r)
                 || (exists d :: IsDef(f, d, r) && ReachesStart(f, i, d))
  {
    hide IsDef, OutsExact, Valid, ReachesStart;
    var insns, before := f.blocks[i].insns, Incoming(outs, f.blocks[i].preds);
    if n == 0 {
      forall d ensures d in before <==> ReachesStart(f, i, d) {
        StartByOuts(f, outs, i, d);
      }
    } else {
      var last := insns[n - 1];
      assert insns[..n][..n - 1] == insns[..n - 1];
      if last.Def? && last.reg == r {
        InCode(f, i, k);
        assert insns[..k][n - 1] == last;
        assert last.uid in Offered(insns[..n], r, before);
      } else {
        OfferedComes(f, outs, i, k, n - 1, r);
      }
    }
  }

  lemma SomeComes(f: Code, outs: seq<set<nat>>, i: nat, k: nat, r: nat)
    requires Valid(f) && OutsExact(f, outs) && InsnAt(f, i, k)
    ensures (forall d :: IsDef(f, d, r) ==> d !in Offered(f.blocks[i].insns[..k], r, Incoming(outs, f.blocks[i].preds)))
            <==> !Comes(f, i, k, r)
  {
    hide IsDef, OutsExact, Valid, ReachesStart, Offered;
    OfferedComes(f, outs, i, k, k, r);
  }

  /** Attached and reaching are compared register by register. */
  lemma ByRegister(f: Code, outs: seq<set<nat>>, i: nat, k: nat)
    requires Valid(f) && OutsExact(f, outs) && InsnAt(f, i, k)
    ensures AttachedReaches(f, outs, i, k) <==>
            forall r :: r in UsedRegs(f, f.blocks[i].insns[k]) ==>
              LeftAlike(f, f.blocks[i].insns[..k], Incoming(outs, f.blocks[i].preds), r)
  {
    hide IsDef, OutsExact, Valid, ReachesInsn, Tracked, AfterAll, UsedRegs;
    var insns, before, regs := f.blocks[i].insns, Incoming(outs, f.blocks[i].preds), UsedRegs(f, f.blocks[i].insns[k]);
    forall d ensures d in AfterAll(f, insns[..k], before) <==> ReachesInsn(f, i, k, d) {
      ReachingByOuts(f, outs, i, k, d);
    }
    if AttachedReaches(f, outs, i, k) {
      forall r, d | r in regs && IsDef(f, d, r)
        ensures d in Left(f, insns[..k], before, true) <==> d in Left(f, insns[..k], before, false)
      {
        assert DefsOverwritten(f, d, regs);
        assert d in Attached(f, outs, i, k) <==> ReachesUse(f, i, k, d);
      }
    }
  }

  /** Without that, nothing that reaches the use is missed, unless a call has left the function before it. */
  lemma AttachedCovers(f: Code, outs: seq<set<nat>>, i: nat, k: nat, d: nat)
    requires OutsExact(f, outs) && i < |f.blocks| && k < |f.blocks[i].insns|
    requires forall l :: 0 <= l < k ==> var x := f.blocks[i].insns[l]; x.Def? || x.Blockage? || !x.call.SibCall?
    ensures ReachesUse(f, i, k, d) ==> d in Attached(f, outs, i, k)
  {
    hide AfterAll, Tracked, DefsOverwritten, ReachesInsn, OutsExact;
    ReachingByOuts(f, outs, i, k, d);
    var insns := f.blocks[i].insns[..k];
    forall l | 0 <= l < |insns|
      ensures Dropped(f, insns[l]) <= Overwritten(f, insns[l])
    {
      assert insns[l] == f.blocks[i].insns[l];
      DropsNoMore(f, insns[l]);
    }
    var before := Incoming(outs, f.blocks[i].preds);
    TrackedCovers(f, insns, before, before);
  }

  // ---- the lists of uses ----

  /** A definition, with the list of its uses threaded through the uses themselves. */
  class BtrDef {
    const uid: nat
    var hasAmbiguousUse: bool
    var otherUsesAfterUse: bool
    var uses: BtrUser?

    constructor (uid: nat)
      ensures this.uid == uid && !hasAmbiguousUse && !otherUsesAfterUse && uses == null
    {
      this.uid := uid;
      hasAmbiguousUse := false;
      otherUsesAfterUse := false;
      uses := null;
    }
  }

  /** A use; `single` when it is the only reference to such a register in its instruction. */
  class BtrUser {
    const uid: nat
    const single: bool
    const otherUseThisBlock: bool
    var nReachingDefs: nat
    var firstReachingDef: int
    var next: BtrUser?

    constructor (uid: nat, single: bool, otherUseThisBlock: bool, next: BtrUser?)
      ensures this.uid == uid && this.single == single && this.otherUseThisBlock == otherUseThisBlock
      ensures nReachingDefs == 0 && firstReachingDef == -1 && this.next == next
    {
      this.uid := uid;
      this.single := single;
      this.otherUseThisBlock := otherUseThisBlock;
      nReachingDefs := 0;
      firstReachingDef := -1;
      this.next := next;
    }
  }

  type Defs = map<nat, BtrDef>
  type Users = map<nat, BtrUser>

  ghost predicate Numbered(defs: Defs, users: Users) {
    && (forall d :: d in defs ==> defs[d].uid == d)
    && (forall u :: u in users ==> users[u].uid == u)
  }

  /** The contents of a definition, and of a use. */
  datatype DefState = DefState(ambiguous: bool, after: bool, uses: BtrUser?)
  datatype UserState = UserState(count: nat, first: int, next: BtrUser?)

  ghost function DefStates(defs: Defs): map<nat, DefState>
    reads defs.Values
  {
    map d | d in defs :: DefState(defs[d].hasAmbiguousUse, defs[d].otherUsesAfterUse, defs[d].uses)
  }

  ghost function UserStates(users: Users): map<nat, UserState>
    reads users.Values
  {
    map u | u in users :: UserState(users[u].nReachingDefs, users[u].firstReachingDef, users[u].next)
  }

  // ---- what the lists hold ----

  /** The uses linked so far, latest first, that definition `d` reaches. */
  ghost function UsesOf(order: seq<nat>, reach: map<nat, set<nat>>, d: nat): (uses: seq<nat>)
    requires forall k :: 0 <= k < |order| ==> order[k] in reach
    ensures forall u :: u in uses <==> u in order && d in reach[u]
  {
    if order == [] then []
    else
      var last := order[|order| - 1];
      (if d in reach[last] then [last] else []) + UsesOf(order[..|order| - 1], reach, d)
  }

  /** Some use linked so far is reached by `d` and either by others too, or is not its instruction's only reference. */
  ghost predicate Ambiguous(users: Users, order: seq<nat>, reach: map<nat, set<nat>>, d: nat)
    requires forall k :: 0 <= k < |order| ==> order[k] in reach && order[k] in users
  {
    exists k :: 0 <= k < |order| && d in reach[order[k]] && (!users[order[k]].single || |reach[order[k]]| > 1)
  }

  ghost predicate FollowedBy(users: Users, order: seq<nat>, reach: map<nat, set<nat>>, d: nat)
    requires forall k :: 0 <= k < |order| ==> order[k] in reach && order[k] in users
  {
    exists k :: 0 <= k < |order| && d in reach[order[k]] && users[order[k]].otherUseThisBlock
  }

  /** From `head` on, the links run through exactly these uses. */
  ghost predicate IsList(head: BtrUser?, uses: seq<nat>, users: Users, us: map<nat, UserState>) {
    if uses == [] then head == null
    else
      && uses[0] in users && uses[0] in us && head == users[uses[0]]
      && IsList(us[uses[0]].next, uses[1..], users, us)
  }

  ghost predicate IsLeast(first: int, defs: set<nat>) {
    if defs == {} then first == -1 else first in defs && forall d :: d in defs ==> first <= d
  }

  ghost predicate Linked(defs: Defs, users: Users, ds: map<nat, DefState>, us: map<nat, UserState>,
                         order: seq<nat>, reach: map<nat, set<nat>>)
  {
    && ds.Keys == defs.Keys && us.Keys == users.Keys
    && (forall k :: 0 <= k < |order| ==> order[k] in reach && order[k] in users)
    && (forall d :: d in ds ==>
          && ds[d].ambiguous == Ambiguous(users, order, reach, d)
          && ds[d].after == FollowedBy(users, order, reach, d)
          && (!ds[d].ambiguous ==> IsList(ds[d].uses, UsesOf(order, reach, d), users, us)))
    && (forall u :: u in us && u in order ==> us[u].count == |reach[u]| && IsLeast(us[u].first, reach[u]))
    && (forall u :: u in us && u !in order ==> us[u].count == 0 && us[u].first == -1)
  }

  // ---- linking one use ----

  /** The definitions from `ds` on and the use after `done` of its reaching definitions have been taken. */
  ghost predicate Midway(ds: map<nat, DefState>, us: map<nat, UserState>, ds': map<nat, DefState>,
                         us': map<nat, UserState>, user: BtrUser, done: set<nat>)
  {
    && ds'.Keys == ds.Keys && us'.Keys == us.Keys && user.uid in us && done <= ds.Keys
    && (forall d :: d in ds && d !in done ==> ds'[d] == ds[d])
    && (forall u :: u in us && u != user.uid ==> us'[u] == us[u])
    && us'[user.uid].count == |done| && IsLeast(us'[user.uid].first, done)
    && (forall d :: d in done ==>
          && ds'[d].ambiguous == (ds[d].ambiguous || !user.single || |done| > 1)
          && ds'[d].after == (ds[d].after || user.otherUseThisBlock)
          && (|done| == 1 ==> ds'[d].uses == user && us'[user.uid].next == ds[d].uses))
  }

  lemma {:induction false} ListKept(head: BtrUser?, uses: seq<nat>, users: Users, us: map<nat, UserState>, us': map<nat, UserState>)
    requires IsList(head, uses, users, us)
    requires forall u :: u in uses && u in us ==> u in us' && us'[u].next == us[u].next
    ensures IsList(head, uses, users, us')
  {
    if uses != [] {
      assert forall u :: u in uses[1..] ==> u in uses;
      ListKept(us[uses[0]].next, uses[1..], users, us, us');
    }
  }

  lemma {:induction false} UsesOfMore(order: seq<nat>, reach: map<nat, set<nat>>, u: nat, defs: set<nat>, d: nat)
    requires forall k :: 0 <= k < |order| ==> order[k] in reach
    requires u !in order
    ensures UsesOf(order + [u], reach[u := defs], d)
            == if d in defs then [u] + UsesOf(order, reach, d) else UsesOf(order, reach, d)
  {
    assert (order + [u])[..|order|] == order;
    UsesOfSame(order, reach, reach[u := defs], d);
  }

  lemma {:induction false} UsesOfSame(order: seq<nat>, reach: map<nat, set<nat>>, reach': map<nat, set<nat>>, d: nat)
    requires forall k :: 0 <= k < |order| ==> order[k] in reach && order[k] in reach' && reach[order[k]] == reach'[order[k]]
    ensures UsesOf(order, reach, d) == UsesOf(order, reach', d)
  {
    if order != [] {
      UsesOfSame(order[..|order| - 1], reach, reach', d);
    }
  }

  lemma FlagsMore(users: Users, order: seq<nat>, reach: map<nat, set<nat>>, u: nat, defs: set<nat>, d: nat)
    requires forall k :: 0 <= k < |order| ==> order[k] in reach && order[k] in users
    requires u !in order && u in users
    ensures Ambiguous(users, order + [u], reach[u := defs], d)
            <==> Ambiguous(users, order, reach, d) || (d in defs && (!users[u].single || |defs| > 1))
    ensures FollowedBy(users, order + [u], reach[u := defs], d)
            <==> FollowedBy(users, order, reach, d) || (d in defs && users[u].otherUseThisBlock)
  {
    var order', reach' := order + [u], reach[u := defs];
    assert forall k :: 0 <= k < |order| ==> order'[k] == order[k] && reach'[order'[k]] == reach[order[k]];
    assert order'[|order|] == u && reach'[u] == defs;
    if Ambiguous(users, order, reach, d) {
      var k :| 0 <= k < |order| && d in reach[order[k]] && (!users[order[k]].single || |reach[order[k]]| > 1);
      assert d in reach'[order'[k]];
    }
    if FollowedBy(users, order, reach, d) {
      var k :| 0 <= k < |order| && d in reach[order[k]] && users[order[k]].otherUseThisBlock;
      assert d in reach'[order'[k]];
    }
  }

  lemma LinkedMore(defs: Defs, users: Users, ds: map<nat, DefState>, us: map<nat, UserState>, order: seq<nat>,
                   reach: map<nat, set<nat>>, ds': map<nat, DefState>, us': map<nat, UserState>, user: BtrUser, found: set<nat>)
    requires Numbered(defs, users) && Linked(defs, users, ds, us, order, reach)
    requires user.uid in users && users[user.uid] == user && user.uid !in order && found <= defs.Keys
    requires Midway(ds, us, ds', us', user, found)
    ensures Linked(defs, users, ds', us', order + [user.uid], reach[user.uid := found])
  {
    hide IsList, Ambiguous, FollowedBy, UsesOf, IsLeast;
    var u := user.uid;
    var order', reach' := order + [u], reach[u := found];
    forall d | d in ds'
      ensures ds'[d].ambiguous == Ambiguous(users, order', reach', d)
      ensures ds'[d].after == FollowedBy(users, order', reach', d)
      ensures !ds'[d].ambiguous ==> IsList(ds'[d].uses, UsesOf(order', reach', d), users, us')
    {
      FlagsMore(users, order, reach, u, found, d);
      UsesOfMore(order, reach, u, found, d);
      if !ds'[d].ambiguous {
        ListMore(users, ds, us, order, reach, ds', us', user, found, d);
      }
    }
  }

  lemma ListMore(users: Users, ds: map<nat, DefState>, us: map<nat, UserState>, order: seq<nat>,
                 reach: map<nat, set<nat>>, ds': map<nat, DefState>, us': map<nat, UserState>, user: BtrUser, found: set<nat>, d: nat)
    requires forall k :: 0 <= k < |order| ==> order[k] in reach && order[k] in users
    requires user.uid in users && users[user.uid] == user && user.uid !in order && d in ds
    requires Midway(ds, us, ds', us', user, found) && !ds'[d].ambiguous
    requires IsList(ds[d].uses, UsesOf(order, reach, d), users, us)
    ensures IsList(ds'[d].uses, if d in found then [user.uid] + UsesOf(order, reach, d) else UsesOf(order, reach, d), users, us')
  {
    hide UsesOf, IsLeast;
    var uses := UsesOf(order, reach, d);
    ListKept(ds[d].uses, uses, users, us, us');
    if d in found {
      AtLeastOne(found, d);
      assert ([user.uid] + uses)[1..] == uses;
    }
  }

  lemma AtLeastOne(found: set<nat>, d: nat)
    requires d in found
    ensures |found| >= 1
  {
    assert found == (found - {d}) + {d};
  }

  method Least(defs: set<nat>) returns (d: nat)
    requires defs != {}
    ensures d in defs && forall e :: e in defs ==> d <= e
  {
    d :| d in defs;
    var left := defs - {d};
    while left != {}
      invariant d in defs && d !in left && left <= defs
      invariant forall e :: e in defs && e !in left ==> d <= e
      decreases left
    {
      var e :| e in left;
      left := left - {e};
      if e < d {
        d := e;
      }
    }
  }

  /** The fields of the use and the definitions after one more reaching definition. */
  ghost predicate TakenFields(user: BtrUser, uid: nat, defs: Defs, users: Users, ds: map<nat, DefState>, us: map<nat, UserState>)
    requires uid in defs
    reads user, defs.Values, users.Values
  {
    && ds.Keys == defs.Keys && us.Keys == users.Keys && user.uid in us
    && user.nReachingDefs == us[user.uid].count + 1
    && user.firstReachingDef == (if us[user.uid].first == -1 then uid else us[user.uid].first)
    && user.next == ds[uid].uses && defs[uid].uses == user
    && defs[uid].hasAmbiguousUse == (ds[uid].ambiguous || !user.single || us[user.uid].first != -1)
    && defs[uid].otherUsesAfterUse == (ds[uid].after || user.otherUseThisBlock)
    && (forall d :: d in defs && d != uid ==>
          && defs[d].uses == ds[d].uses && defs[d].otherUsesAfterUse == ds[d].after
          && defs[d].hasAmbiguousUse == (ds[d].ambiguous || d == us[user.uid].first))
    && (forall u :: u in users && u != user.uid ==>
          && users[u].nReachingDefs == us[u].count
          && users[u].firstReachingDef == us[u].first && users[u].next == us[u].next)
  }

  lemma TakenStates(user: BtrUser, uid: nat, defs: Defs, users: Users, ds: map<nat, DefState>, us: map<nat, UserState>)
    requires uid in defs && user.uid in users && users[user.uid] == user
    requires TakenFields(user, uid, defs, users, ds, us)
    ensures Taken(ds, us, DefStates(defs), UserStates(users), user, uid)
  {}

  /** Takes the next definition found, larger than all those done. */
  method TakeNext(user: BtrUser, uid: nat, defs: Defs, ghost users: Users,
                  ghost ds: map<nat, DefState>, ghost us: map<nat, UserState>, ghost done: set<nat>)
    requires Numbered(defs, users) && uid in defs && user.uid in users && users[user.uid] == user
    requires uid !in done && forall d :: d in done ==> d < uid
    requires Midway(ds, us, DefStates(defs), UserStates(users), user, done)
    modifies user, defs.Values
    ensures Midway(ds, us, DefStates(defs), UserStates(users), user, done + {uid})
  {
    hide Taken, Midway;
    ghost var ds1, us1 := DefStates(defs), UserStates(users);
    FirstTaken(ds, us, ds1, us1, user, done);
    TakeDef(user, uid, defs);
    TakenStates(user, uid, defs, users, ds1, us1);
    OneTaken(ds, us, ds1, us1, DefStates(defs), UserStates(users), user, done, uid);
  }

  /** The definitions of a set taken so far are the least ones. */
  ghost predicate InOrder(found: set<nat>, left: set<nat>, done: set<nat>) {
    left !! done && left + done == found && forall d, e :: d in done && e in left ==> d < e
  }

  lemma NoneInOrder(found: set<nat>)
    ensures InOrder(found, found, {})
  {}

  lemma AllInOrder(found: set<nat>, left: set<nat>, done: set<nat>)
    requires InOrder(found, left, done)
    ensures left == {} ==> done == found
  {}

  lemma NextInOrder(found: set<nat>, left: set<nat>, done: set<nat>, uid: nat)
    requires InOrder(found, left, done) && uid in left && forall e :: e in left ==> uid <= e
    ensures InOrder(found, left - {uid}, done + {uid})
    ensures uid !in done && uid in found && forall d :: d in done ==> d < uid
  {}

  /** Puts one use on the list of one definition; a second definition makes the first ambiguous too. */
  method TakeDef(user: BtrUser, uid: nat, defs: Defs)
    requires uid in defs && forall d :: d in defs ==> defs[d].uid == d
    requires user.firstReachingDef == -1 || (user.firstReachingDef in defs && user.firstReachingDef != uid)
    modifies user, defs.Values
    ensures user.nReachingDefs == old(user.nReachingDefs) + 1
    ensures user.firstReachingDef == if old(user.firstReachingDef) == -1 then uid else old(user.firstReachingDef)
    ensures user.next == old(defs[uid].uses) && defs[uid].uses == user
    ensures defs[uid].hasAmbiguousUse
            == (old(defs[uid].hasAmbiguousUse) || !user.single || old(user.firstReachingDef) != -1)
    ensures defs[uid].otherUsesAfterUse == (old(defs[uid].otherUsesAfterUse) || user.otherUseThisBlock)
    ensures forall d :: d in defs && d != uid ==>
              && defs[d].uses == old(defs[d].uses) && defs[d].otherUsesAfterUse == old(defs[d].otherUsesAfterUse)
              && defs[d].hasAmbiguousUse == (old(defs[d].hasAmbiguousUse) || d == old(user.firstReachingDef))
  {
    var def := defs[uid];
    user.nReachingDefs := user.nReachingDefs + 1;
    if !user.single {
      def.hasAmbiguousUse := true;
    }
    if user.firstReachingDef != -1 {
      def.hasAmbiguousUse := true;
      defs[user.firstReachingDef].hasAmbiguousUse := true;
    } else {
      user.firstReachingDef := uid;
    }
    if user.otherUseThisBlock {
      def.otherUsesAfterUse := true;
    }
    user.next := def.uses;
    def.uses := user;
  }

  /** Puts one use on the lists of the definitions found to reach it, in the order of their numbers. */
  method LinkUse(user: BtrUser, found: set<nat>, defs: Defs, ghost users: Users)
    requires Numbered(defs, users) && found <= defs.Keys && user.uid in users && users[user.uid] == user
    requires user.nReachingDefs == 0 && user.firstReachingDef == -1
    modifies user, defs.Values
    ensures Midway(old(DefStates(defs)), old(UserStates(users)), DefStates(defs), UserStates(users), user, found)
  {
    hide Midway, InOrder, Numbered;
    ghost var ds, us := DefStates(defs), UserStates(users);
    var left := found;
    ghost var done: set<nat> := {};
    NoneTaken(ds, us, user);
    NoneInOrder(found);
    while left != {}
      invariant InOrder(found, left, done)
      invariant Midway(ds, us, DefStates(defs), UserStates(users), user, done)
      decreases left
    {
      var uid := Least(left);
      NextInOrder(found, left, done, uid);
      left := left - {uid};
      TakeNext(user, uid, defs, users, ds, us, done);
      done := done + {uid};
    }
    AllInOrder(found, left, done);
  }

  lemma NoneTaken(ds: map<nat, DefState>, us: map<nat, UserState>, user: BtrUser)
    requires user.uid in us && us[user.uid].count == 0 && us[user.uid].first == -1
    ensures Midway(ds, us, ds, us, user, {})
  {}

  lemma FirstTaken(ds: map<nat, DefState>, us: map<nat, UserState>, ds1: map<nat, DefState>, us1: map<nat, UserState>,
                   user: BtrUser, done: set<nat>)
    requires Midway(ds, us, ds1, us1, user, done)
    ensures user.uid in us1 && (us1[user.uid].first == -1 || us1[user.uid].first in done)
    ensures (us1[user.uid].first == -1 <==> done == {}) && done <= ds.Keys == ds1.Keys
  {}

  /** The states after one more reaching definition. */
  ghost predicate Taken(ds1: map<nat, DefState>, us1: map<nat, UserState>, ds2: map<nat, DefState>, us2: map<nat, UserState>,
                        user: BtrUser, uid: nat)
    requires user.uid in us1 && uid in ds1
  {
    var s := us1[user.uid];
    && ds2.Keys == ds1.Keys && us2.Keys == us1.Keys
    && (forall u :: u in us1 && u != user.uid ==> us2[u] == us1[u])
    && us2[user.uid] == UserState(s.count + 1, if s.first == -1 then uid else s.first, ds1[uid].uses)
    && ds2[uid] == DefState(ds1[uid].ambiguous || !user.single || s.first != -1, ds1[uid].after || user.otherUseThisBlock, user)
    && (forall d :: d in ds1 && d != uid ==>
          ds2[d] == DefState(ds1[d].ambiguous || d == s.first, ds1[d].after, ds1[d].uses))
  }

  lemma OneTaken(ds: map<nat, DefState>, us: map<nat, UserState>, ds1: map<nat, DefState>, us1: map<nat, UserState>,
                 ds2: map<nat, DefState>, us2: map<nat, UserState>, user: BtrUser, done: set<nat>, uid: nat)
    requires Midway(ds, us, ds1, us1, user, done)
    requires user.uid in us1 && uid in ds1 && uid !in done && forall d :: d in done ==> d < uid
    requires Taken(ds1, us1, ds2, us2, user, uid)
    ensures Midway(ds, us, ds2, us2, user, done + {uid})
  {
    hide IsLeast;
    LeastOfMore(us1[user.uid].first, done, uid);
  }

  lemma LeastOfMore(first: int, done: set<nat>, uid: nat)
    requires IsLeast(first, done) && uid !in done && forall d :: d in done ==> d < uid
    ensures |done + {uid}| == |done| + 1 && (first == -1 <==> done == {})
    ensures IsLeast(if first == -1 then uid else first, done + {uid})
    ensures |done| == 1 ==> forall d :: d in done ==> d == first
    ensures forall d :: d in done ==> |done| >= 1
  {
    if done != {} {
      AtLeastOne(done, first);
      if |done| == 1 {
        OnlyMember(done, first);
      }
    }
  }

  lemma OnlyMember(s: set<nat>, first: int)
    requires |s| == 1 && first in s
    ensures forall d :: d in s ==> d == first
  {
    assert |s - {first}| == 0;
    assert forall d :: d in s && d != first ==> d in s - {first};
  }

  // ---- linking all uses ----

  ghost predicate IsUse(f: Code, u: nat, i: nat, k: nat) {
    InsnAt(f, i, k) && IsUser(f.blocks[i].insns[k]) && f.blocks[i].insns[k].uid == u
  }

  /** There is a record for each definition and each use, and for nothing else. */
  ghost predicate Recorded(f: Code, defs: Defs, users: Users) {
    && Numbered(defs, users)
    && (forall d :: d in defs <==> exists r: nat :: IsDef(f, d, r))
    && (forall i: nat, k: nat, u :: IsUse(f, u, i, k) ==> u in users && users[u].single == f.blocks[i].insns[k].SingleUse?)
  }

  ghost predicate Before(j: nat, l: nat, i: nat, k: nat) {
    j < i || (j == i && l < k)
  }

  /** Just the uses before instruction `k` of block `i` are linked, with what reaches them. */
  ghost predicate LinkedUpTo(f: Code, outs: seq<set<nat>>, order: seq<nat>, reach: map<nat, set<nat>>, i: nat, k: nat) {
    && (forall j: nat, l: nat, u :: IsUse(f, u, j, l) && Before(j, l, i, k) ==>
          u in order && u in reach && reach[u] == Attached(f, outs, j, l))
    && (forall u :: u in order ==> exists j: nat, l: nat :: IsUse(f, u, j, l) && Before(j, l, i, k))
  }

  lemma NotLinkedYet(f: Code, outs: seq<set<nat>>, order: seq<nat>, reach: map<nat, set<nat>>, i: nat, k: nat)
    requires Valid(f) && InsnAt(f, i, k) && LinkedUpTo(f, outs, order, reach, i, k)
    ensures f.blocks[i].insns[k].uid !in order
  {
    var u := f.blocks[i].insns[k].uid;
    if u in order {
      var j: nat, l: nat :| IsUse(f, u, j, l) && Before(j, l, i, k);
      assert SameUid(f, j, l, i, k);
      assert false;
    }
  }

  lemma LinkedPast(f: Code, outs: seq<set<nat>>, order: seq<nat>, reach: map<nat, set<nat>>, i: nat, k: nat)
    requires Valid(f) && InsnAt(f, i, k) && LinkedUpTo(f, outs, order, reach, i, k)
    requires !IsUser(f.blocks[i].insns[k])
    ensures LinkedUpTo(f, outs, order, reach, i, k + 1)
  {
    var later := k + 1;
    forall u | u in order
      ensures exists j: nat, l: nat :: IsUse(f, u, j, l) && Before(j, l, i, later)
    {
      var j: nat, l: nat :| IsUse(f, u, j, l) && Before(j, l, i, k);
      assert Before(j, l, i, later);
    }
    forall j: nat, l: nat, u | IsUse(f, u, j, l) && Before(j, l, i, k + 1)
      ensures Before(j, l, i, k)
    {}
  }

  lemma LinkedOneMore(f: Code, outs: seq<set<nat>>, order: seq<nat>, reach: map<nat, set<nat>>, i: nat, k: nat)
    requires Valid(f) && InsnAt(f, i, k) && LinkedUpTo(f, outs, order, reach, i, k)
    requires IsUser(f.blocks[i].insns[k])
    ensures var u := f.blocks[i].insns[k].uid;
            LinkedUpTo(f, outs, order + [u], reach[u := Attached(f, outs, i, k)], i, k + 1)
  {
    hide Attached;
    var u, later := f.blocks[i].insns[k].uid, k + 1;
    NotLinkedYet(f, outs, order, reach, i, k);
    forall v | v in order + [u]
      ensures exists j: nat, l: nat :: IsUse(f, v, j, l) && Before(j, l, i, later)
    {
      if v == u {
        assert IsUse(f, u, i, k) && Before(i, k, i, later);
      } else {
        var j: nat, l: nat :| IsUse(f, v, j, l) && Before(j, l, i, k);
        assert Before(j, l, i, later);
      }
    }
    forall j: nat, l: nat, v | IsUse(f, v, j, l) && Before(j, l, i, k + 1)
      ensures Before(j, l, i, k) || (j == i && l == k)
    {}
  }

  lemma LinkedNextBlock(f: Code, outs: seq<set<nat>>, order: seq<nat>, reach: map<nat, set<nat>>, i: nat)
    requires NUM_FIXED_BLOCKS <= i < |f.blocks| && LinkedUpTo(f, outs, order, reach, i, |f.blocks[i].insns|)
    ensures LinkedUpTo(f, outs, order, reach, i + 1, 0)
  {
    var n, next := |f.blocks[i].insns|, i + 1;
    forall u | u in order
      ensures exists j: nat, l: nat :: IsUse(f, u, j, l) && Before(j, l, next, 0)
    {
      var j: nat, l: nat :| IsUse(f, u, j, l) && Before(j, l, i, n);
      assert Before(j, l, next, 0);
    }
    forall j: nat, l: nat, u | IsUse(f, u, j, l) && Before(j, l, i + 1, 0)
      ensures Before(j, l, i, n)
    {}
  }

  lemma NoneLinked(f: Code, outs: seq<set<nat>>)
    ensures LinkedUpTo(f, outs, [], map[], NUM_FIXED_BLOCKS, 0)
  {}

  // ---- the definitions tracked along a block ----

  ghost predicate DefsetsExact(f: Code, defset: seq<set<nat>>) {
    && (forall r :: r in f.btrs ==> r < |defset|)
    && (forall r: nat, d :: r < |defset| ==> (d in defset[r] <==> IsDef(f, d, r)))
  }

  lemma TrackedNext(f: Code, insns: seq<Insn>, k: nat, before: set<nat>)
    requires k < |insns|
    ensures Tracked(f, insns[..k + 1], before)
            == Without(f, Tracked(f, insns[..k], before), Dropped(f, insns[k]))
               + if insns[k].Def? then {insns[k].uid} else {}
  {
    assert insns[..k + 1][..k] == insns[..k];
  }

  /** Takes the definitions of some registers away, register by register. */
  method DropDefs(f: Code, tracked: set<nat>, regs: set<nat>, defset: array<set<nat>>) returns (left: set<nat>)
    requires DefsetsExact(f, defset[..]) && regs <= f.btrs
    ensures left == Without(f, tracked, regs)
  {
    left := tracked;
    for regno := 0 to defset.Length
      invariant forall d :: d in left <==> d in tracked && !exists r: nat :: r in regs && r < regno && IsDef(f, d, r)
    {
      if regno in regs {
        left := left - defset[regno];
      }
    }
    forall d | d in tracked
      ensures d in left <==> !DefsOverwritten(f, d, regs)
    {}
  }

  /** Those of the definitions tracked that set some of the registers. */
  method DefsOf(f: Code, tracked: set<nat>, regs: set<nat>, defset: array<set<nat>>) returns (found: set<nat>)
    requires DefsetsExact(f, defset[..]) && regs <= f.btrs
    ensures found == set d | d in tracked && DefsOverwritten(f, d, regs)
  {
    found := {};
    for regno := 0 to defset.Length
      invariant forall d :: d in found <==> d in tracked && exists r: nat :: r in regs && r < regno && IsDef(f, d, r)
    {
      if regno in regs {
        found := found + tracked * defset[regno];
      }
    }
  }

  lemma FoundIsAttached(f: Code, outs: seq<set<nat>>, i: nat, k: nat, tracked: set<nat>, found: set<nat>)
    requires InsnAt(f, i, k) && tracked == Tracked(f, f.blocks[i].insns[..k], Incoming(outs, f.blocks[i].preds))
    requires found == set d | d in tracked && DefsOverwritten(f, d, UsedRegs(f, f.blocks[i].insns[k]))
    ensures found == Attached(f, outs, i, k)
    ensures forall d :: d in found ==> exists r: nat :: IsDef(f, d, r)
  {
    hide Tracked;
    forall d | d in found
      ensures exists r: nat :: IsDef(f, d, r)
    {
      var r: nat :| r in UsedRegs(f, f.blocks[i].insns[k]) && IsDef(f, d, r);
    }
  }

  lemma KnownUse(f: Code, defs: Defs, users: Users, i: nat, k: nat)
    requires Valid(f) && Recorded(f, defs, users) && InsnAt(f, i, k)
    ensures IsUser(f.blocks[i].insns[k]) ==>
              var u := f.blocks[i].insns[k].uid; u in users && users[u].uid == u && UsedRegs(f, f.blocks[i].insns[k]) <= f.btrs
    ensures f.blocks[i].insns[k].Def? ==> f.blocks[i].insns[k].reg in f.btrs
  {
    assert OwnRegister(f, f.blocks[i].insns[k]);
    if IsUser(f.blocks[i].insns[k]) {
      assert IsUse(f, f.blocks[i].insns[k].uid, i, k);
    }
  }

  lemma NotYetCounted(defs: Defs, users: Users, order: seq<nat>, reach: map<nat, set<nat>>, user: BtrUser)
    requires Linked(defs, users, DefStates(defs), UserStates(users), order, reach)
    requires user.uid in users && users[user.uid] == user && user.uid !in order
    ensures user.nReachingDefs == 0 && user.firstReachingDef == -1
  {}

  method LinkFound(f: Code, defs: Defs, users: Users, user: BtrUser, found: set<nat>, ghost tracked: set<nat>,
                   ghost outs: seq<set<nat>>, ghost order: seq<nat>, ghost reach: map<nat, set<nat>>, ghost i: nat, ghost k: nat)
    requires Valid(f) && InsnAt(f, i, k) && Recorded(f, defs, users) && IsUser(f.blocks[i].insns[k])
    requires var u := f.blocks[i].insns[k].uid; u in users && users[u] == user && user.uid == u
    requires tracked == Tracked(f, f.blocks[i].insns[..k], Incoming(outs, f.blocks[i].preds))
    requires found == set d | d in tracked && DefsOverwritten(f, d, UsedRegs(f, f.blocks[i].insns[k]))
    requires Linked(defs, users, DefStates(defs), UserStates(users), order, reach)
    requires LinkedUpTo(f, outs, order, reach, i, k)
    modifies user, defs.Values
    ensures Linked(defs, users, DefStates(defs), UserStates(users), order + [user.uid], reach[user.uid := found])
    ensures LinkedUpTo(f, outs, order + [user.uid], reach[user.uid := found], i, k + 1)
  {
    hide Linked, LinkedUpTo, Tracked, Attached, Recorded, Midway, DefsOverwritten;
    ghost var ds, us := DefStates(defs), UserStates(users);
    NotLinkedYet(f, outs, order, reach, i, k);
    FoundIsAttached(f, outs, i, k, tracked, found);
    FoundRecorded(f, defs, users, found);
    NotYetCounted(defs, users, order, reach, user);
    LinkUse(user, found, defs, users);
    LinkedMore(defs, users, ds, us, order, reach, DefStates(defs), UserStates(users), user, found);
    LinkedOneMore(f, outs, order, reach, i, k);
  }

  /** Links the use at instruction `k`, if it is one, and then drops and adds definitions. */
  method LinkInsn(f: Code, defs: Defs, users: Users, defset: array<set<nat>>, i: nat, k: nat, tracked: set<nat>,
                  ghost outs: seq<set<nat>>, ghost order: seq<nat>, ghost reach: map<nat, set<nat>>)
    returns (tracked': set<nat>, ghost order': seq<nat>, ghost reach': map<nat, set<nat>>)
    requires Valid(f) && InsnAt(f, i, k) && Recorded(f, defs, users) && DefsetsExact(f, defset[..])
    requires tracked == Tracked(f, f.blocks[i].insns[..k], Incoming(outs, f.blocks[i].preds))
    requires Linked(defs, users, DefStates(defs), UserStates(users), order, reach) && LinkedUpTo(f, outs, order, reach, i, k)
    modifies defs.Values, users.Values
    ensures Linked(defs, users, DefStates(defs), UserStates(users), order', reach') && LinkedUpTo(f, outs, order', reach', i, k + 1)
    ensures tracked' == Tracked(f, f.blocks[i].insns[..k + 1], Incoming(outs, f.blocks[i].preds))
  {
    hide Linked, LinkedUpTo, Tracked, Attached, Recorded, DefsetsExact, Midway, DefsOverwritten, Dropped;
    var insn := f.blocks[i].insns[k];
    order', reach' := order, reach;
    KnownUse(f, defs, users, i, k);
    TrackedNext(f, f.blocks[i].insns, k, Incoming(outs, f.blocks[i].preds));
    if IsUser(insn) {
      var found := DefsOf(f, tracked, UsedRegs(f, insn), defset);
      LinkFound(f, defs, users, users[insn.uid], found, tracked, outs, order, reach, i, k);
      order', reach' := order + [insn.uid], reach[insn.uid := found];
    } else {
      LinkedPast(f, outs, order, reach, i, k);
    }
    DroppedBtrs(f, i, k);
    tracked' := DropDefs(f, tracked, Dropped(f, insn), defset);
    if insn.Def? {
      tracked' := tracked' + {insn.uid};
    }
  }

  /** Links every use to the definitions that reach it, block by block and instruction by instruction. */
  method LinkBtrUses(f: Code, defs: Defs, users: Users, out: array<set<nat>>, defset: array<set<nat>>)
    returns (ghost order: seq<nat>, ghost reach: map<nat, set<nat>>)
    requires Valid(f) && Recorded(f, defs, users) && out.Length == |f.blocks| && DefsetsExact(f, defset[..])
    requires Linked(defs, users, DefStates(defs), UserStates(users), [], map[])
    modifies defs.Values, users.Values
    ensures Linked(defs, users, DefStates(defs), UserStates(users), order, reach)
    ensures LinkedUpTo(f, out[..], order, reach, |f.blocks|, 0)
  {
    hide Linked, LinkedUpTo, Tracked, Attached, Recorded, DefsetsExact, Midway, DefsOverwritten, Dropped;
    ghost var outs := out[..];
    order, reach := [], map[];
    NoneLinked(f, outs);
    for i := NUM_FIXED_BLOCKS to |f.blocks|
      invariant Linked(defs, users, DefStates(defs), UserStates(users), order, reach)
      invariant LinkedUpTo(f, outs, order, reach, i, 0)
    {
      var insns := f.blocks[i].insns;
      var tracked := UnionOfPreds(f, out, i);
      ghost var before := tracked;
      TrackedNone(f, insns, before);
      for k := 0 to |insns|
        invariant Linked(defs, users, DefStates(defs), UserStates(users), order, reach)
        invariant LinkedUpTo(f, outs, order, reach, i, k)
        invariant tracked == Tracked(f, insns[..k], before)
      {
        tracked, order, reach := LinkInsn(f, defs, users, defset, i, k, tracked, outs, order, reach);
      }
      assert insns[..|insns|] == insns;
      LinkedNextBlock(f, outs, order, reach, i);
    }
  }

  lemma TrackedNone(f: Code, insns: seq<Insn>, before: set<nat>)
    ensures Tracked(f, insns[..0], before) == before
  {}

  lemma FoundRecorded(f: Code, defs: Defs, users: Users, found: set<nat>)
    requires Recorded(f, defs, users) && forall d :: d in found ==> exists r: nat :: IsDef(f, d, r)
    ensures Numbered(defs, users) && found <= defs.Keys
  {}

  lemma DroppedBtrs(f: Code, i: nat, k: nat)
    requires Valid(f) && InsnAt(f, i, k)
    ensures Dropped(f, f.blocks[i].insns[k]) <= f.btrs
  {
    assert OwnRegister(f, f.blocks[i].insns[k]);
  }

  // ---- what the webs say ----

  /** No definition but `d` reaches the use at instruction `k` of block `i`, and that is the instruction's only reference. */
  ghost predicate SoleDef(f: Code, i: nat, k: nat, d: nat)
    requires InsnAt(f, i, k)
  {
    && f.blocks[i].insns[k].SingleUse?
    && forall e :: ReachesUse(f, i, k, e) ==> e == d
  }

  /**
   * A definition left unambiguous lists exactly the uses it reaches, and reaches each of them alone, of the uses before
   * which the pass drops what it should.
   */
  lemma UnambiguousWeb(f: Code, defs: Defs, users: Users, ds: map<nat, DefState>, us: map<nat, UserState>, order: seq<nat>,
                       reach: map<nat, set<nat>>, outs: seq<set<nat>>, d: nat)
    requires Valid(f) && Recorded(f, defs, users) && OutsExact(f, outs)
    requires Linked(defs, users, ds, us, order, reach) && LinkedUpTo(f, outs, order, reach, |f.blocks|, 0)
    requires d in ds && !ds[d].ambiguous
    ensures IsList(ds[d].uses, UsesOf(order, reach, d), users, us)
    ensures forall i: nat, k: nat, u :: IsUse(f, u, i, k) && DropsRight(f, i, k) ==>
              && (u in UsesOf(order, reach, d) <==> ReachesUse(f, i, k, d))
              && (ReachesUse(f, i, k, d) ==> SoleDef(f, i, k, d))
  {
    hide ReachesUse, IsList, DropsRight, OutsExact, Attached, IsDef;
    forall i: nat, k: nat, u | IsUse(f, u, i, k) && DropsRight(f, i, k)
      ensures u in UsesOf(order, reach, d) <==> ReachesUse(f, i, k, d)
      ensures ReachesUse(f, i, k, d) ==> SoleDef(f, i, k, d)
    {
      UseReached(f, outs, order, reach, i, k, u);
      if ReachesUse(f, i, k, d) {
        SoleOfList(users, order, reach, u, d);
      }
    }
  }

  lemma UseReached(f: Code, outs: seq<set<nat>>, order: seq<nat>, reach: map<nat, set<nat>>, i: nat, k: nat, u: nat)
    requires Valid(f) && OutsExact(f, outs) && LinkedUpTo(f, outs, order, reach, |f.blocks|, 0) && IsUse(f, u, i, k)
    requires DropsRight(f, i, k)
    ensures u in order && u in reach && forall e :: e in reach[u] <==> ReachesUse(f, i, k, e)
  {
    hide ReachesUse, DropsRight, OutsExact, Attached;
    assert Before(i, k, |f.blocks|, 0);
    AttachedExact(f, outs, i, k);
  }

  lemma SoleOfList(users: Users, order: seq<nat>, reach: map<nat, set<nat>>, u: nat, d: nat)
    requires forall k :: 0 <= k < |order| ==> order[k] in reach && order[k] in users
    requires u in order && d in reach[u] && !Ambiguous(users, order, reach, d)
    ensures users[u].single && forall e :: e in reach[u] ==> e == d
  {
    var k :| 0 <= k < |order| && order[k] == u;
    AtLeastOne(reach[u], d);
    OnlyMember(reach[u], d);
  }

  /** Definition 0 of register 0, a blockage, and a use of the register. */
  function BlockageCode(): Code {
    Code([Block([], []), Block([], []), Block([Def(0, 0), Blockage(1), SingleUse(2, 0, NoCall)], [ENTRY_BLOCK])], {0}, {})
  }

  /** A blockage kills the definition, yet the definition is still attached to the use after it. */
  lemma BlockageMissed(outs: seq<set<nat>>)
    requires OutsExact(BlockageCode(), outs)
    ensures 0 in Attached(BlockageCode(), outs, 2, 2) && !ReachesUse(BlockageCode(), 2, 2, 0)
    ensures !Gone(BlockageCode(), BlockageCode().blocks[2].insns[..2], 0, true)
    ensures Gone(BlockageCode(), BlockageCode().blocks[2].insns[..2], 0, false)
  {
    var f := BlockageCode();
    var insns := f.blocks[2].insns;
    var def, blockage := insns[0], insns[1];
    var before := Incoming(outs, f.blocks[2].preds);
    assert IsDefAt(f, 0, 0, 2, 0);
    assert IsDef(f, 0, 0);
    assert 0 in Overwritten(f, blockage);
    assert insns[..1][..0] == [] && insns[..2][..1] == insns[..1] && insns[..1] == [def] && insns[..2] == [def, blockage];
    TrackedNext(f, insns, 0, before);
    TrackedNext(f, insns, 1, before);
    NothingOverwritten(f, 0);
    assert 0 in Tracked(f, insns[..2], before);
    assert DefsOverwritten(f, 0, UsedRegs(f, insns[2]));
    AfterNext(f, insns, 1, {});
    assert DefsOverwritten(f, 0, Overwritten(f, blockage));
    assert 0 !in AfterAll(f, insns[..2], {});
    assert 0 in Written(f, insns[..2]);
    assert DefsOverwritten(f, 0, Written(f, insns[..2]));
  }

  // ---- from instructions to webs ----

  method ReachingSets(f: Code, registers: nat) returns (out: array<set<nat>>, defset: array<set<nat>>)
    requires Valid(f) && forall r :: r in f.btrs ==> r < registers
    ensures fresh(out) && fresh(defset) && out.Length == |f.blocks|
    ensures OutsExact(f, out[..]) && DefsetsExact(f, defset[..])
  {
    hide Scanned, GenKill, ReachesEnd, IsDef;
    var n := |f.blocks|;
    defset := new set<nat>[registers](r => {});
    var gen := new set<nat>[n](i => {});
    var written := new set<nat>[n](i => {});
    ComputeDefsUsesAndGen(f, defset, gen, written);
    var kill := new set<nat>[n](i => {});
    ComputeKill(f, kill, defset, written, gen[..]);
    out := new set<nat>[n](i => {});
    ComputeOut(f, out, gen, kill);
  }

  /** Gen, kill and out sets, and then the lists: what holds of every function at the end. */
  method BuildBtrDefUseWebs(f: Code, defs: Defs, users: Users, registers: nat)
    returns (ghost outs: seq<set<nat>>, ghost order: seq<nat>, ghost reach: map<nat, set<nat>>)
    requires Valid(f) && Recorded(f, defs, users) && forall r :: r in f.btrs ==> r < registers
    requires Linked(defs, users, DefStates(defs), UserStates(users), [], map[])
    modifies defs.Values, users.Values
    ensures OutsExact(f, outs)
    ensures Linked(defs, users, DefStates(defs), UserStates(users), order, reach)
    ensures LinkedUpTo(f, outs, order, reach, |f.blocks|, 0)
  {
    hide Linked, LinkedUpTo, Recorded, OutsExact, DefsetsExact;
    var out, defset := ReachingSets(f, registers);
    outs := out[..];
    order, reach := LinkBtrUses(f, defs, users, out, defset);
  }
}
