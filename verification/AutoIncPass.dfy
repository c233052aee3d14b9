/** The backward scan of a block that merges additions of constants and of registers into memory references. */
module AutoIncPass {
  import opened AutoIncTable
  import opened AutoIncBlock

  // ---- the block behind the scan ----

  function PosOf(rest: seq<Insn>, u: nat): (p: nat)
    ensures p <= |rest| && (p < |rest| ==> rest[p].uid == u)
    ensures forall k :: 0 <= k < p ==> rest[k].uid != u
  {
    if rest == [] then 0 else if rest[0].uid == u then 0 else 1 + PosOf(rest[1..], u)
  }

  predicate HasPlain(insn: Insn, r: nat) {
    insn.Other? && exists k :: 0 <= k < |insn.refs| && insn.refs[k].addr.Plain? && InAddress(insn.refs[k].addr, r)
  }

  predicate Bumps(insn: Insn, r: nat) {
    insn.Other? && Increments(insn.refs, r)
  }

  predicate IsJump(insn: Insn) {
    insn.Other? && insn.jump
  }

  predicate IsCopy(insn: Insn) {
    insn.Move? && insn.res != insn.src
  }

  /** No instruction before the one at `k` mentions the register, or none sets it. */
  ghost predicate Unmentioned(insns: seq<Insn>, k: nat, r: nat) {
    forall j :: 0 <= j < k && j < |insns| ==> !Mentions(insns[j], r)
  }

  ghost predicate Undefined(insns: seq<Insn>, k: nat, r: nat) {
    forall j :: 0 <= j < k && j < |insns| ==> !Defs(insns[j], r)
  }

  ghost predicate Distinct(insns: seq<Insn>) {
    forall j, k :: 0 <= j < k < |insns| ==> insns[j].uid != insns[k].uid
  }

  /** The instruction found for a register, if any. */
  datatype Next = NoInsn | At(uid: nat)

  function Found(rest: seq<Insn>, n: Next): nat {
    if n.At? then PosOf(rest, n.uid) else |rest|
  }

  /** A next use that may be merged is really the first to mention the register. */
  ghost predicate UseOk(rest: seq<Insn>, use: Next, inc: Next, r: nat) {
    use.At? ==>
      var k := PosOf(rest, use.uid);
      && k < |rest| && !IsJump(rest[k])
      && (HasPlain(rest[k], r) ==> Unmentioned(rest, k, r) && inc == NoInsn)
      && (rest[k].Add? ==> Uses(rest[k], r) && Unmentioned(rest, k, r))
  }

  /** A use before any definition does not come before the next use; a move may stand in front of its reference. */
  ghost predicate UseSeen(rest: seq<Insn>, use: Next, r: nat, k: nat)
    requires k < |rest|
  {
    Uses(rest[k], r) && (Bumps(rest[k], r) ==> HasPlain(rest[k], r)) && !IsJump(rest[k]) && Undefined(rest, k, r) ==>
      var p := Found(rest, use);
      p < |rest| && (p <= k || (IsCopy(rest[k]) && p == k + 1 && rest[p].Other?))
  }

  ghost predicate UsesSeen(rest: seq<Insn>, use: Next, r: nat) {
    forall k :: 0 <= k < |rest| ==> UseSeen(rest, use, r, k)
  }

  /** A next addition is one to the register as it is now. */
  ghost predicate IncOk(rest: seq<Insn>, inc: Next, r: nat) {
    inc.At? ==>
      var k := PosOf(rest, inc.uid);
      k < |rest| && rest[k].Add? && Uses(rest[k], r) && Undefined(rest, k, r)
  }

  /** A next definition by an addition is the first. */
  ghost predicate DefOk(rest: seq<Insn>, def: Next, r: nat) {
    def.At? ==>
      var k := PosOf(rest, def.uid);
      k < |rest| && (rest[k].Add? ==> rest[k].res == r && Undefined(rest, k, r))
  }

  /** A definition does not come before the next definition; a move may stand in front of its reference. */
  ghost predicate DefSeen(rest: seq<Insn>, def: Next, r: nat, k: nat)
    requires k < |rest|
  {
    Defs(rest[k], r) && !IsJump(rest[k]) ==>
      var p := Found(rest, def);
      p < |rest| && (p <= k || (IsCopy(rest[k]) && p == k + 1 && rest[p].Other?))
  }

  ghost predicate DefsSeen(rest: seq<Insn>, def: Next, r: nat) {
    forall k :: 0 <= k < |rest| ==> DefSeen(rest, def, r, k)
  }

  /** The three entries of a register. */
  datatype NextRefs = NextRefs(use: Next, inc: Next, def: Next)

  ghost predicate DefRight(rest: seq<Insn>, def: Next, r: nat) {
    DefOk(rest, def, r) && DefsSeen(rest, def, r)
  }

  ghost predicate EntryOk(rest: seq<Insn>, e: NextRefs, r: nat) {
    UseOk(rest, e.use, e.inc, r) && UsesSeen(rest, e.use, r) && IncOk(rest, e.inc, r) && DefRight(rest, e.def, r)
  }

  // ---- one more instruction in front ----

  lemma PosOfFront(x: Insn, rest: seq<Insn>, u: nat)
    ensures PosOf([x] + rest, u) == if x.uid == u then 0 else 1 + PosOf(rest, u)
  {
    assert ([x] + rest)[1..] == rest;
  }

  /** The instructions after `x` are numbered one further on. */
  lemma Behind(x: Insn, rest: seq<Insn>, k: nat, r: nat)
    ensures Unmentioned([x] + rest, k + 1, r) <==> !Mentions(x, r) && Unmentioned(rest, k, r)
    ensures Undefined([x] + rest, k + 1, r) <==> !Defs(x, r) && Undefined(rest, k, r)
  {
    hide Mentions, Defs;
    var all := [x] + rest;
    assert all[0] == x;
    if Unmentioned(all, k + 1, r) {
      forall j | 0 <= j < k && j < |rest|
        ensures !Mentions(rest[j], r)
      {
        assert all[j + 1] == rest[j];
      }
    }
    if Undefined(all, k + 1, r) {
      forall j | 0 <= j < k && j < |rest|
        ensures !Defs(rest[j], r)
      {
        assert all[j + 1] == rest[j];
      }
    }
  }

  ghost predicate Fresh(x: Insn, rest: seq<Insn>) {
    forall k :: 0 <= k < |rest| ==> rest[k].uid != x.uid
  }

  lemma PosBehind(x: Insn, rest: seq<Insn>, n: Next)
    requires Fresh(x, rest)
    ensures Found(rest, n) < |rest| ==> Found([x] + rest, n) == Found(rest, n) + 1
  {
    if n.At? {
      PosOfFront(x, rest, n.uid);
    }
  }

  lemma UseBehind(x: Insn, rest: seq<Insn>, use: Next, inc: Next, r: nat)
    requires UseOk(rest, use, inc, r) && !Mentions(x, r) && Fresh(x, rest)
    ensures UseOk([x] + rest, use, inc, r)
  {
    hide Mentions, HasPlain;
    PosBehind(x, rest, use);
    Behind(x, rest, Found(rest, use), r);
  }

  lemma SeenBehind(x: Insn, rest: seq<Insn>, use: Next, r: nat)
    requires UsesSeen(rest, use, r) && !Uses(x, r) && !Defs(x, r) && Fresh(x, rest)
    ensures UsesSeen([x] + rest, use, r)
  {
    hide Uses, Defs;
    var all := [x] + rest;
    PosBehind(x, rest, use);
    forall k | 0 <= k < |all|
      ensures UseSeen(all, use, r, k)
    {
      if k > 0 {
        assert UseSeen(rest, use, r, k - 1);
        Behind(x, rest, k - 1, r);
      }
    }
  }

  lemma IncBehind(x: Insn, rest: seq<Insn>, inc: Next, r: nat)
    requires IncOk(rest, inc, r) && !Defs(x, r) && Fresh(x, rest)
    ensures IncOk([x] + rest, inc, r)
  {
    hide Defs;
    PosBehind(x, rest, inc);
    Behind(x, rest, Found(rest, inc), r);
  }

  lemma DefBehind(x: Insn, rest: seq<Insn>, def: Next, r: nat)
    requires DefRight(rest, def, r) && !Defs(x, r) && Fresh(x, rest)
    ensures DefRight([x] + rest, def, r)
  {
    hide Defs;
    var all := [x] + rest;
    PosBehind(x, rest, def);
    Behind(x, rest, Found(rest, def), r);
    forall k | 0 <= k < |all|
      ensures DefSeen(all, def, r, k)
    {
      if k > 0 {
        assert DefSeen(rest, def, r, k - 1);
      }
    }
  }

  /** An instruction that does not mention the register leaves its entries right. */
  lemma EntryBehind(x: Insn, rest: seq<Insn>, e: NextRefs, r: nat)
    requires EntryOk(rest, e, r) && !Mentions(x, r) && Fresh(x, rest)
    ensures EntryOk([x] + rest, e, r)
  {
    hide Uses, Defs, UseOk, UsesSeen, IncOk, DefRight;
    UseBehind(x, rest, e.use, e.inc, r);
    SeenBehind(x, rest, e.use, r);
    IncBehind(x, rest, e.inc, r);
    DefBehind(x, rest, e.def, r);
  }

  /** What the scan notes for a register an instruction sets, or only uses. */
  function Noted(x: Insn, inc: bool, e: NextRefs, r: nat): NextRefs {
    NextRefs(if Uses(x, r) then At(x.uid) else if Defs(x, r) then NoInsn else e.use,
          if Uses(x, r) then if inc then At(x.uid) else NoInsn else if Defs(x, r) then NoInsn else e.inc,
          if Defs(x, r) then At(x.uid) else e.def)
  }

  /** The entries are right once they are noted; for a register the instruction sets, whatever they were before. */
  lemma EntryNoted(x: Insn, rest: seq<Insn>, inc: bool, e: NextRefs, r: nat)
    requires Fresh(x, rest) && !IsJump(x) && (inc ==> x.Add?)
    requires Defs(x, r) || (DefRight(rest, e.def, r) && (Uses(x, r) || EntryOk(rest, e, r)))
    ensures EntryOk([x] + rest, Noted(x, inc, e, r), r)
  {
    hide UseOk, UsesSeen, IncOk, DefRight;
    if !Mentions(x, r) {
      EntryBehind(x, rest, e, r);
    } else {
      var e' := Noted(x, inc, e, r);
      NotedUse(x, rest, inc, e, r);
      NotedSeen(x, rest, inc, e, r);
      NotedInc(x, rest, inc, e, r);
      if Defs(x, r) {
        NotedDef(x, rest, r);
      } else {
        DefBehind(x, rest, e.def, r);
      }
    }
  }

  lemma NotedDef(x: Insn, rest: seq<Insn>, r: nat)
    requires Defs(x, r)
    ensures DefRight([x] + rest, At(x.uid), r)
  {
    hide Defs;
    PosOfFront(x, rest, x.uid);
    assert x.Add? ==> x.res == r by {
      AddDefines(x, r);
    }
  }

  lemma AddDefines(x: Insn, r: nat)
    ensures x.Add? && Defs(x, r) ==> x.res == r
  {}

  lemma NotedUse(x: Insn, rest: seq<Insn>, inc: bool, e: NextRefs, r: nat)
    requires Mentions(x, r) && !IsJump(x) && (inc ==> x.Add?)
    ensures UseOk([x] + rest, Noted(x, inc, e, r).use, Noted(x, inc, e, r).inc, r)
  {
    PosOfFront(x, rest, x.uid);
  }

  lemma NotedSeen(x: Insn, rest: seq<Insn>, inc: bool, e: NextRefs, r: nat)
    requires Mentions(x, r) && Fresh(x, rest)
    ensures UsesSeen([x] + rest, Noted(x, inc, e, r).use, r)
  {
    hide Uses, Defs;
    PosOfFront(x, rest, x.uid);
    var all := [x] + rest;
    forall k | 0 <= k < |all|
      ensures UseSeen(all, Noted(x, inc, e, r).use, r, k)
    {
      if !Uses(x, r) && k > 0 {
        assert Defs(all[0], r) && !Undefined(all, k, r);
      }
    }
  }

  lemma NotedInc(x: Insn, rest: seq<Insn>, inc: bool, e: NextRefs, r: nat)
    requires Mentions(x, r) && (inc ==> x.Add?)
    ensures IncOk([x] + rest, Noted(x, inc, e, r).inc, r)
  {
    PosOfFront(x, rest, x.uid);
  }

  // ---- one address replaced ----

  /** The block with one plain address of instruction `k` made an increment of the same register. */
  ghost predicate Merged(rest: seq<Insn>, k: nat, ref: nat, new': Address, rest': seq<Insn>) {
    && k < |rest| && OnlyIn(rest[k], ref, new'.reg) && !new'.Plain?
    && rest[k].refs[ref].addr.reg == new'.reg && rest[k].refs[ref].addr.amount.Const?
    && rest' == rest[k := WithAddress(rest[k], ref, new')]
  }

  lemma OtherRefs(insn: Insn, ref: nat, new': Address, r: nat)
    requires insn.Other? && ref < |insn.refs| && !InAddress(insn.refs[ref].addr, r) && new'.reg != r && !new'.Plain?
    ensures var insn' := WithAddress(insn, ref, new');
            && Uses(insn', r) == (Uses(insn, r) || new'.amount == InReg(r))
            && Defs(insn', r) == Defs(insn, r) && HasPlain(insn', r) == HasPlain(insn, r) && Bumps(insn', r) == Bumps(insn, r)
  {
    var refs' := WithAddress(insn, ref, new').refs;
    assert forall j :: 0 <= j < |refs'| && j != ref ==> refs'[j] == insn.refs[j];
    assert refs'[ref].addr == new';
    if InRefs(insn.refs, r) {
      var j :| 0 <= j < |insn.refs| && InAddress(insn.refs[j].addr, r);
      assert InAddress(refs'[j].addr, r);
    }
    if InRefs(refs', r) {
      var j :| 0 <= j < |refs'| && InAddress(refs'[j].addr, r);
      assert j != ref ==> InAddress(insn.refs[j].addr, r);
    }
    if Increments(insn.refs, r) {
      var j :| 0 <= j < |insn.refs| && insn.refs[j].addr.reg == r && !insn.refs[j].addr.Plain?;
      assert refs'[j].addr.reg == r;
    }
    if HasPlain(insn, r) {
      var j :| 0 <= j < |insn.refs| && insn.refs[j].addr.Plain? && InAddress(insn.refs[j].addr, r);
      assert InAddress(refs'[j].addr, r);
    }
  }

  /** The register incremented is used and set there, and in no plain address; one that is added is used. */
  lemma OwnRegister(insn: Insn, ref: nat, new': Address)
    requires insn.Other? && ref < |insn.refs| && insn.refs[ref].addr.Plain? && !new'.Plain?
    requires OnlyIn(insn, ref, new'.reg) || !Mentions(insn, new'.reg)
    ensures var insn' := WithAddress(insn, ref, new');
            && Uses(insn', new'.reg) && Defs(insn', new'.reg) && !HasPlain(insn', new'.reg) && Bumps(insn', new'.reg)
            && (new'.amount.InReg? ==> Uses(insn', new'.amount.reg))
  {
    var refs' := WithAddress(insn, ref, new').refs;
    assert refs'[ref].addr == new';
    assert forall j :: 0 <= j < |refs'| && j != ref ==> refs'[j] == insn.refs[j];
  }

  lemma {:induction false} PosOfSame(rest: seq<Insn>, rest': seq<Insn>, u: nat)
    requires |rest'| == |rest| && forall k :: 0 <= k < |rest| ==> rest'[k].uid == rest[k].uid
    ensures PosOf(rest', u) == PosOf(rest, u)
  {
    if rest != [] {
      PosOfSame(rest[1..], rest'[1..], u);
    }
  }

  lemma FoundSame(rest: seq<Insn>, k: nat, ref: nat, new': Address, rest': seq<Insn>, n: Next)
    requires Merged(rest, k, ref, new', rest')
    ensures Found(rest', n) == Found(rest, n)
  {
    if n.At? {
      PosOfSame(rest, rest', n.uid);
    }
  }

  /** What a register sees of an instruction is the same, but for a use as what is added. */
  ghost predicate Alike(x: Insn, y: Insn, r: nat) {
    && Defs(x, r) == Defs(y, r) && HasPlain(x, r) == HasPlain(y, r) && Bumps(x, r) == Bumps(y, r)
    && x.Add? == y.Add? && IsCopy(x) == IsCopy(y) && x.Other? == y.Other? && IsJump(x) == IsJump(y) && (x.Add? ==> x == y)
  }

  lemma MergedAlike(rest: seq<Insn>, k: nat, ref: nat, new': Address, rest': seq<Insn>, r: nat)
    requires Merged(rest, k, ref, new', rest') && r != new'.reg
    ensures |rest'| == |rest| && forall j :: 0 <= j < |rest| ==> Alike(rest'[j], rest[j], r)
    ensures forall j :: 0 <= j < |rest| ==> Uses(rest'[j], r) == (Uses(rest[j], r) || (j == k && new'.amount == InReg(r)))
  {
    OtherRefs(rest[k], ref, new', r);
  }

  lemma DefMerged(rest: seq<Insn>, k: nat, ref: nat, new': Address, rest': seq<Insn>, def: Next, r: nat)
    requires Merged(rest, k, ref, new', rest') && DefRight(rest, def, r) && r != new'.reg
    ensures DefRight(rest', def, r)
  {
    hide Uses, Defs, HasPlain, OnlyIn;
    MergedAlike(rest, k, ref, new', rest', r);
    FoundSame(rest, k, ref, new', rest', def);
    forall j | 0 <= j < |rest'|
      ensures DefSeen(rest', def, r, j)
    {
      assert DefSeen(rest, def, r, j);
    }
  }

  lemma IncMerged(rest: seq<Insn>, k: nat, ref: nat, new': Address, rest': seq<Insn>, inc: Next, r: nat)
    requires Merged(rest, k, ref, new', rest') && IncOk(rest, inc, r) && r != new'.reg
    ensures IncOk(rest', inc, r)
  {
    hide Uses, Defs, HasPlain, OnlyIn;
    MergedAlike(rest, k, ref, new', rest', r);
    FoundSame(rest, k, ref, new', rest', inc);
  }

  /** For another register nothing has changed. */
  lemma EntryMerged(rest: seq<Insn>, k: nat, ref: nat, new': Address, rest': seq<Insn>, e: NextRefs, r: nat)
    requires Merged(rest, k, ref, new', rest') && EntryOk(rest, e, r) && r != new'.reg && new'.amount != InReg(r)
    ensures EntryOk(rest', e, r)
  {
    hide Uses, Defs, HasPlain, OnlyIn, Bumps;
    MergedAlike(rest, k, ref, new', rest', r);
    FoundSame(rest, k, ref, new', rest', e.use);
    DefMerged(rest, k, ref, new', rest', e.def, r);
    IncMerged(rest, k, ref, new', rest', e.inc, r);
    forall j | 0 <= j < |rest'|
      ensures UseSeen(rest', e.use, r, j)
    {
      assert UseSeen(rest, e.use, r, j);
    }
  }

  /** The register now added is used next at the reference, if it is neither used nor set before that. */
  lemma EntryAdded(rest: seq<Insn>, k: nat, ref: nat, new': Address, rest': seq<Insn>, e: NextRefs, inc: Next, r: nat)
    requires Merged(rest, k, ref, new', rest') && EntryOk(rest, e, r) && r != new'.reg && new'.amount == InReg(r)
    requires Distinct(rest) && !IsJump(rest[k]) && Undefined(rest, k, r) && k <= Found(rest, e.use)
    requires inc == NoInsn || inc == e.inc
    ensures EntryOk(rest', NextRefs(At(rest[k].uid), inc, e.def), r)
  {
    hide Uses, Defs, HasPlain, OnlyIn, Bumps, IsJump;
    MergedAlike(rest, k, ref, new', rest', r);
    FirstOf(rest, k);
    FoundSame(rest, k, ref, new', rest', At(rest[k].uid));
    DefMerged(rest, k, ref, new', rest', e.def, r);
    IncMerged(rest, k, ref, new', rest', e.inc, r);
    PlainUses(rest[k], r);
    assert UseSeen(rest, e.use, r, k);
    forall j | 0 <= j < |rest'|
      ensures UseSeen(rest', At(rest[k].uid), r, j)
    {
      BumpsDefines(rest[j], r);
      assert UseSeen(rest, e.use, r, j);
    }
  }

  lemma PlainUses(x: Insn, r: nat)
    ensures HasPlain(x, r) ==> Uses(x, r)
  {}

  /** The register now incremented has a definition there and no use that could be merged. */
  lemma EntryIncremented(rest: seq<Insn>, k: nat, ref: nat, new': Address, rest': seq<Insn>, use: Next)
    requires Merged(rest, k, ref, new', rest') && Distinct(rest) && Unmentioned(rest, k, new'.reg) && !IsJump(rest[k])
    requires use == NoInsn || use == At(rest[k].uid)
    ensures EntryOk(rest', NextRefs(use, NoInsn, At(rest[k].uid)), new'.reg)
  {
    hide Uses, Defs, HasPlain, Bumps, OnlyIn;
    var a := new'.reg;
    MergedOwn(rest, k, ref, new', rest');
    FirstOf(rest, k);
    FoundSame(rest, k, ref, new', rest', At(rest[k].uid));
    forall j | 0 <= j < |rest'|
      ensures UseSeen(rest', use, a, j)
      ensures DefSeen(rest', At(rest[k].uid), a, j)
    {
      assert j < k ==> !Mentions(rest[j], a) && rest'[j] == rest[j];
      assert j > k ==> !Undefined(rest', j, a);
    }
  }

  lemma MergedOwn(rest: seq<Insn>, k: nat, ref: nat, new': Address, rest': seq<Insn>)
    requires Merged(rest, k, ref, new', rest')
    ensures |rest'| == |rest| && Defs(rest'[k], new'.reg) && rest'[k].Other?
    ensures IsJump(rest'[k]) == IsJump(rest[k]) && Bumps(rest'[k], new'.reg) && !HasPlain(rest'[k], new'.reg)
    ensures forall j :: 0 <= j < |rest| && j != k ==> rest'[j] == rest[j]
  {
    OwnRegister(rest[k], ref, new');
  }

  lemma FirstOf(rest: seq<Insn>, j: nat)
    requires j < |rest| && Distinct(rest)
    ensures PosOf(rest, rest[j].uid) == j
  {
    FirstIsPos(rest, rest[j].uid, j);
  }

  lemma {:induction false} FirstIsPos(rest: seq<Insn>, u: nat, p: nat)
    requires p < |rest| && rest[p].uid == u && forall k :: 0 <= k < p ==> rest[k].uid != u
    ensures PosOf(rest, u) == p
  {}

  // ---- one addition removed ----

  function Without(rest: seq<Insn>, j: nat): seq<Insn>
    requires j < |rest|
  {
    rest[..j] + rest[j + 1..]
  }

  lemma {:induction false} PosOfWithout(rest: seq<Insn>, j: nat, u: nat)
    requires j < |rest| && PosOf(rest, u) < |rest| && PosOf(rest, u) != j
    ensures PosOf(Without(rest, j), u) == if PosOf(rest, u) < j then PosOf(rest, u) else PosOf(rest, u) - 1
  {
    var p, rest' := PosOf(rest, u), Without(rest, j);
    var p' := if p < j then p else p - 1;
    assert rest'[p'] == rest[p];
    forall k | 0 <= k < p'
      ensures rest'[k].uid != u
    {
      assert rest'[k] == rest[if k < j then k else k + 1];
    }
    FirstIsPos(rest', u, p');
  }

  lemma WithoutAlike(rest: seq<Insn>, j: nat, k: nat, r: nat)
    requires j < |rest| && k <= |rest|
    ensures !Mentions(rest[j], r) && Unmentioned(rest, k, r) ==> Unmentioned(Without(rest, j), if k <= j then k else k - 1, r)
    ensures !Defs(rest[j], r) ==>
              (Undefined(rest, k, r) <==> Undefined(Without(rest, j), if k <= j then k else k - 1, r))
  {
    hide Mentions, Defs;
    var rest', k' := Without(rest, j), if k <= j then k else k - 1;
    forall i | 0 <= i < k' && i < |rest'|
      ensures rest'[i] == rest[if i < j then i else i + 1]
    {}
    if !Defs(rest[j], r) && Undefined(rest', k', r) {
      forall i | 0 <= i < k && i < |rest|
        ensures !Defs(rest[i], r)
      {
        if i != j {
          assert rest'[if i < j then i else i - 1] == rest[i];
        }
      }
    }
  }

  lemma DefWithout(rest: seq<Insn>, j: nat, def: Next, r: nat)
    requires j < |rest| && rest[j].Add? && DefRight(rest, def, r) && rest[j].res != r && Distinct(rest)
    ensures DefRight(Without(rest, j), def, r)
  {
    var rest' := Without(rest, j);
    if def.At? {
      var k := PosOf(rest, def.uid);
      assert k != j;
      PosOfWithout(rest, j, def.uid);
      WithoutAlike(rest, j, k, r);
    }
    hide Defs;
    forall k' | 0 <= k' < |rest'|
      ensures DefSeen(rest', def, r, k')
    {
      var k := if k' < j then k' else k' + 1;
      assert rest'[k'] == rest[k];
      assert DefSeen(rest, def, r, k);
    }
  }

  /** The registers the addition does not mention keep their entries. */
  lemma EntryWithout(rest: seq<Insn>, j: nat, e: NextRefs, r: nat)
    requires j < |rest| && rest[j].Add? && EntryOk(rest, e, r) && !Mentions(rest[j], r) && Distinct(rest)
    ensures EntryOk(Without(rest, j), e, r)
  {
    hide Without, DefRight, UsesSeen, UseOk;
    DefWithout(rest, j, e.def, r);
    UseWithout(rest, j, e.use, e.inc, r);
    SeenWithout(rest, j, e.use, e.inc, r);
    IncWithout(rest, j, e.inc, r);
  }

  lemma IncWithout(rest: seq<Insn>, j: nat, inc: Next, r: nat)
    requires j < |rest| && rest[j].Add? && IncOk(rest, inc, r) && !Mentions(rest[j], r)
    ensures IncOk(Without(rest, j), inc, r)
  {
    if inc.At? {
      var k := PosOf(rest, inc.uid);
      assert k != j;
      PosOfWithout(rest, j, inc.uid);
      WithoutAlike(rest, j, k, r);
    }
  }

  lemma UseWithout(rest: seq<Insn>, j: nat, use: Next, inc: Next, r: nat)
    requires j < |rest| && rest[j].Add? && UseOk(rest, use, inc, r) && !Mentions(rest[j], r)
    ensures UseOk(Without(rest, j), use, inc, r)
  {
    hide HasPlain;
    if use.At? {
      var k := PosOf(rest, use.uid);
      UseNotGone(rest, j, use, inc, r);
      PosOfWithout(rest, j, use.uid);
      WithoutAlike(rest, j, k, r);
    }
  }

  lemma UseNotGone(rest: seq<Insn>, j: nat, use: Next, inc: Next, r: nat)
    requires j < |rest| && rest[j].Add? && UseOk(rest, use, inc, r) && !Mentions(rest[j], r)
    ensures use.At? ==> PosOf(rest, use.uid) != j
  {}

  lemma SeenWithout(rest: seq<Insn>, j: nat, use: Next, inc: Next, r: nat)
    requires j < |rest| && rest[j].Add? && !Mentions(rest[j], r)
    requires UseOk(rest, use, inc, r) && UsesSeen(rest, use, r)
    ensures UsesSeen(Without(rest, j), use, r)
  {
    UseNotGone(rest, j, use, inc, r);
    hide Uses, UseOk;
    var rest' := Without(rest, j);
    if use.At? && Found(rest, use) < |rest| {
      PosOfWithout(rest, j, use.uid);
    }
    forall k' | 0 <= k' < |rest'|
      ensures UseSeen(rest', use, r, k')
    {
      var k := if k' < j then k' else k' + 1;
      assert rest'[k'] == rest[k];
      assert UseSeen(rest, use, r, k);
      WithoutAlike(rest, j, k, r);
    }
  }

  // ---- reading an addition ----

  /** An addition as its form, the register it is to and what is added. */
  datatype Parsed = Parsed(form: Form, reg0: nat, reg1: Operand)

  /** Machines that cannot modify an address by a register do not look for additions of registers. */
  predicate Parses(t: Target, insn: Insn) {
    insn.Add? && (insn.inc.Const? || t.preModifyReg || t.postModifyReg)
  }

  function Parse(add: Insn, beforeMem: bool): (p: Parsed)
    requires add.Add?
    ensures AddsTo(add, p.reg0, p.reg1) && (IsPre(p.form) <==> beforeMem)
    ensures p.form.PreInc? || p.form.PostInc? <==> p.reg0 == add.res
  {
    if add.src == add.res then Parsed(if beforeMem then PreInc else PostInc, add.src, add.inc)
    else if add.inc == InReg(add.res) then Parsed(if beforeMem then PreInc else PostInc, add.res, InReg(add.src))
    else Parsed(if beforeMem then PreAdd else PostAdd, add.src, add.inc)
  }

  /** An addition of a register to its own result. */
  predicate RegisterIncrement(insn: Insn) {
    insn.Add? && Parse(insn, true).reg0 == insn.res && Parse(insn, true).reg1.InReg?
  }

  // ---- looking for a partner ----

  /** Whether a new address is valid and cheap enough at a reference, for an addition. */
  type Acceptance = (Insn, nat, Address, Insn) -> bool

  /** The address that would be tried. */
  function TriedAddress(t: Target, inc: Operand, off: Operand, size: nat, form: Form, reg: nat): Address {
    NewAddress(Decision(t, StateOf(inc, size), StateOf(off, size), form), reg, size, inc)
  }

  /** The machine has an increment for this, and the new address is accepted. */
  predicate Accepted(t: Target, accepts: Acceptance, mem: Insn, ref: nat, add: Insn, inc: Operand, off: Operand, size: nat, form: Form, reg: nat) {
    && Decision(t, StateOf(inc, size), StateOf(off, size), form) != Nothing
    && accepts(mem, ref, TriedAddress(t, inc, off, size, form, reg), add)
  }

  method TryMerge(table: array3<GenForm>, ghost t: Target, accepts: Acceptance, mem: Insn, ref: nat, add: Insn, inc: Operand, off: Operand,
                  size: nat, form: Form, reg: nat)
    returns (ok: bool, addr: Address)
    requires Filled(table, t)
    ensures ok <==> Accepted(t, accepts, mem, ref, add, inc, off, size, form, reg)
    ensures addr == TriedAddress(t, inc, off, size, form, reg) && addr.reg == reg
    ensures ok && Fits(inc, off) ==> Merges(off, addr, inc, IsPre(form))
  {
    hide Decision, StateOf, NewAddress, Merges, Fits;
    var i, m := StateOf(inc, size), StateOf(off, size);
    var gen := Entry(table, i, m, form);
    hide Filled;
    addr := NewAddress(gen, reg, size, inc);
    NewRegister(gen, reg, size, inc);
    ok := gen != Nothing && accepts(mem, ref, addr, add);
    assert addr == TriedAddress(t, inc, off, size, form, reg);
    assert ok <==> Accepted(t, accepts, mem, ref, add, inc, off, size, form, reg);
    hide TriedAddress, Accepted, IsPre;
    if ok && Fits(inc, off) {
      AcceptedMerges(t, accepts, mem, ref, add, inc, off, size, form, reg);
    }
  }

  lemma AcceptedMerges(t: Target, accepts: Acceptance, mem: Insn, ref: nat, add: Insn, inc: Operand, off: Operand, size: nat, form: Form, reg: nat)
    requires Accepted(t, accepts, mem, ref, add, inc, off, size, form, reg) && Fits(inc, off)
    ensures Merges(off, TriedAddress(t, inc, off, size, form, reg), inc, IsPre(form))
  {
    hide Decision, StateOf, NewAddress, Merges, Fits, IsPre;
    EntryMerges(t, inc, off, size, form, reg);
  }

  lemma NewRegister(gen: GenForm, reg: nat, size: nat, inc: Operand)
    ensures NewAddress(gen, reg, size, inc).reg == reg
  {}

  lemma EntryMerges(t: Target, inc: Operand, off: Operand, size: nat, form: Form, reg: nat)
    requires Fits(inc, off) && Decision(t, StateOf(inc, size), StateOf(off, size), form) != Nothing
    ensures Merges(off, NewAddress(Decision(t, StateOf(inc, size), StateOf(off, size), form), reg, size, inc), inc, IsPre(form))
  {
    var addr := NewAddress(Decision(t, StateOf(inc, size), StateOf(off, size), form), reg, size, inc);
    DecisionMeans(t, inc, off, size, form, reg, 0, if inc.Const? then inc.val else 0, if off.Const? then off.val else 0);
    hide Decision, StateOf, NewAddress;
    forall x, y, z | Holds(inc, y) && Holds(off, z) && (off == inc ==> z == y)
      ensures MergesAt(addr, inc, IsPre(form), x, y, z)
    {
      DecisionMeans(t, inc, off, size, form, reg, x, y, z);
    }
  }

  /** The register in a plain address by itself, with an offset that fits what is added to it. */
  predicate Matches(a: Address, r: nat, inc: Operand) {
    a.Plain? && a.reg == r && Fits(inc, a.amount)
  }

  /** Besides the base of reference `k` the register stands nowhere in the instruction. */
  predicate OnlyBase(insn: Insn, k: nat, r: nat) {
    && insn.Other? && k < |insn.refs| && insn.refs[k].addr.Plain? && insn.refs[k].addr.reg == r
    && r !in insn.uses && r !in insn.defs
    && forall j :: 0 <= j < |insn.refs| && j != k ==> !InAddress(insn.refs[j].addr, r)
  }

  function Combine(value: int, tem: int): int {
    if value == 0 then tem else if tem != 0 then 1 else value
  }

  /** -1 when the register stands in the instruction just once, in an address that fits; 0 when nowhere; else 1. */
  method FindAddress(insn: Insn, r: nat, inc: Operand) returns (value: int, ref: nat)
    ensures value == -1 ==> OnlyBase(insn, ref, r) && Matches(insn.refs[ref].addr, r, inc)
    ensures value != -1 ==> forall k: nat :: OnlyBase(insn, k, r) ==> !Matches(insn.refs[k].addr, r, inc)
    ensures value == 0 <==> !Mentions(insn, r)
  {
    value, ref := 0, 0;
    if !insn.Other? {
      value := if Mentions(insn, r) then 1 else 0;
      return;
    }
    for i := 0 to |insn.refs|
      invariant value == 0 <==> forall k :: 0 <= k < i ==> !InAddress(insn.refs[k].addr, r)
      invariant value == -1 ==> ref < i && Matches(insn.refs[ref].addr, r, inc)
                                && forall k :: 0 <= k < i && k != ref ==> !InAddress(insn.refs[k].addr, r)
      invariant value != 0 && value != -1 ==>
                  forall k: nat :: k < |insn.refs| && OnlyBase(insn, k, r) ==> !Matches(insn.refs[k].addr, r, inc)
    {
      var tem := 0;
      if Matches(insn.refs[i].addr, r, inc) {
        tem := -1;
        if value == 0 {
          ref := i;
        }
      } else if InAddress(insn.refs[i].addr, r) {
        tem := 1;
      }
      value := Combine(value, tem);
    }
    value := Combine(value, if r in insn.uses then 1 else 0);
    value := Combine(value, if r in insn.defs then 1 else 0);
  }

  ghost predicate TableOk(rest: seq<Insn>, next: seq<NextRefs>) {
    forall r: nat :: r < |next| ==> EntryOk(rest, next[r], r)
  }

  ghost predicate JumpLast(insns: seq<Insn>) {
    forall k :: 0 <= k < |insns| - 1 ==> !IsJump(insns[k])
  }

  predicate OperandBelow(o: Operand, n: nat) {
    o.InReg? ==> o.reg < n
  }

  predicate AddressBelow(a: Address, n: nat) {
    a.reg < n && OperandBelow(a.amount, n)
  }

  predicate RegsBelow(insn: Insn, n: nat) {
    match insn
    case Add(_, res, src, inc) => res < n && src < n && OperandBelow(inc, n)
    case Move(_, res, src) => res < n && src < n
    case Other(_, refs, uses, defs, _) =>
      (forall r :: r in uses ==> r < n) && (forall r :: r in defs ==> r < n)
      && forall k :: 0 <= k < |refs| ==> AddressBelow(refs[k].addr, n)
  }

  /** The next instruction noted stands before the one at `j`. */
  predicate Earlier(rest: seq<Insn>, n: Next, j: nat) {
    n.At? && j > PosOf(rest, n.uid)
  }

  /** Where the next use of the result of an addition is, if the way there is free for what is added. */
  function UseCandidate(p: Parsed, res: nat, rest: seq<Insn>, next: seq<NextRefs>): (k: nat)
    requires res < |next| && OperandBelow(p.reg1, |next|)
    ensures k <= |rest|
  {
    if !(p.form.PreInc? || p.reg1.Const?) || next[res].use == NoInsn then |rest|
    else
      var k := PosOf(rest, next[res].use.uid);
      if p.reg1.InReg? && (Earlier(rest, next[p.reg1.reg].use, k) || Earlier(rest, next[p.reg1.reg].def, k)) then |rest| else k
  }

  /** The addition at `j` and the register of the reference that is taken for its operand. */
  datatype Candidate = NoCandidate | Candidate(j: nat, parsed: Parsed, memReg: nat, off: Operand)

  /** Nothing between the reference and the addition at `j` mentions its result, nor does the reference. */
  predicate ResultFree(mem: Insn, rest: seq<Insn>, next: seq<NextRefs>, j: nat)
    requires j < |rest| && rest[j].Add? && rest[j].res < |next|
  {
    var e, here := next[rest[j].res], At(rest[j].uid);
    e.def == here && !(e.use != here && Earlier(rest, e.use, j)) && !Mentions(mem, rest[j].res)
  }

  /** The addition at `j` for a reference to *(reg0 + off). */
  function FindForConst(reg0: nat, off: int, rest: seq<Insn>, next: seq<NextRefs>, j: nat, p: Parsed): Candidate
    requires OperandBelow(p.reg1, |next|) && p.reg0 < |next|
  {
    if off != 0 then
      if p.reg1.Const? && off != p.reg1.val && off != 0 - p.reg1.val then NoCandidate else Candidate(j, p, reg0, Const(off))
    else if p.reg1.Const? then Candidate(j, p, reg0, Const(0))
    else if p.form.PostAdd? && Earlier(rest, next[p.reg1.reg].use, j) then NoCandidate
    else
      var q := if p.form.PostAdd? && p.reg0 != reg0 then Parsed(p.form, p.reg1.reg, InReg(p.reg0)) else p;
      if Earlier(rest, next[q.reg1.reg].def, j) then NoCandidate else Candidate(j, q, reg0, Const(0))
  }

  /** The addition at `j` for a reference to *(reg0 + r); `back` is what is found for *(r + reg0). */
  function FindForReg(reg0: nat, r: nat, rest: seq<Insn>, next: seq<NextRefs>, j: nat, p: Parsed, back: Candidate): Candidate
    requires OperandBelow(p.reg1, |next|) && p.reg0 < |next| && r < |next|
  {
    if p.form.PostAdd? then
      if p.reg0 == reg0 then
        if p.reg1 != InReg(r) then back
        else if Earlier(rest, next[r].def, j) then NoCandidate else Candidate(j, p, reg0, InReg(r))
      else if r != p.reg0 then back
      else if Earlier(rest, next[r].def, j) then NoCandidate else Candidate(j, p, r, InReg(reg0))
    else if p.reg1 != InReg(r) then back
    else if Earlier(rest, next[r].def, j) then NoCandidate else Candidate(j, p, reg0, InReg(r))
  }

  /** What the addition at `j` sets or adds is set by the reference, or its result is needed before it. */
  predicate Conflicts(mem: Insn, rest: seq<Insn>, next: seq<NextRefs>, j: nat, p: Parsed)
    requires j < |rest| && rest[j].Add? && rest[j].res < |next|
  {
    || Defs(mem, p.reg0) || Defs(mem, rest[j].res) || (p.reg1.InReg? && Defs(mem, p.reg1.reg))
    || (p.form.PostAdd? && !ResultFree(mem, rest, next, j))
  }

  /**
   * Looks for an addition behind the reference to *(reg0 + reg1) that may be merged into it; `firstTry` when the two
   * have not yet been taken in the other order.
   */
  function FindInc(mem: Insn, ref: nat, reg0: nat, reg1: Operand, rest: seq<Insn>, next: seq<NextRefs>, t: Target, firstTry: bool): (c: Candidate)
    requires reg0 < |next| && OperandBelow(reg1, |next|) && forall k :: 0 <= k < |rest| ==> RegsBelow(rest[k], |next|)
    ensures c.Candidate? ==> c.j < |rest| && rest[c.j].Add?
    decreases firstTry
  {
    if !OnlyIn(mem, ref, reg0) || next[reg0].inc == NoInsn then NoCandidate else
    var j := PosOf(rest, next[reg0].inc.uid);
    if j == |rest| then NoCandidate else
    var back := if firstTry && reg1.InReg? then FindInc(mem, ref, reg1.reg, InReg(reg0), rest, next, t, false) else NoCandidate;
    if !Parses(t, rest[j]) then back else
    var p := Parse(rest[j], false);
    assert RegsBelow(rest[j], |next|);
    if Conflicts(mem, rest, next, j, p) || (reg1.InReg? && !OnlyIn(mem, ref, reg1.reg)) then NoCandidate else
    var c := if reg1.Const? then FindForConst(reg0, reg1.val, rest, next, j, p) else FindForReg(reg0, reg1.reg, rest, next, j, p, back);
    if c != back && p.form.PostInc? && next[p.reg0].use != At(rest[j].uid) then NoCandidate else c
  }

  /** The register that is incremented when a candidate is merged. */
  function IncrementedReg(c: Candidate, res: nat): nat
    requires c.Candidate?
  {
    if c.parsed.form.PostAdd? then res else c.memReg
  }

  // ---- what a candidate promises ----

  /** *(reg0 + reg1), in one order or the other. */
  predicate Stands(a: Address, reg0: nat, reg1: Operand) {
    a == Plain(reg0, reg1) || (a.Plain? && reg1 == InReg(a.reg) && a.amount == InReg(reg0))
  }

  /** Neither the reference nor anything before the addition at `j` sets a register that is added. */
  ghost predicate Untouched(mem: Insn, rest: seq<Insn>, j: nat, o: Operand) {
    o.InReg? ==> !Defs(mem, o.reg) && Undefined(rest, j, o.reg)
  }

  /** The operands of the addition are the same at the reference, and its result is not needed in between. */
  ghost predicate CandidateOk(mem: Insn, ref: nat, rest: seq<Insn>, c: Candidate)
    requires c.Candidate?
  {
    var p := c.parsed;
    && c.j < |rest| && rest[c.j].Add? && AddsTo(rest[c.j], p.reg0, p.reg1) && !IsPre(p.form)
    && Unmentioned(rest, c.j, rest[c.j].res) && (p.form.PostInc? <==> p.reg0 == rest[c.j].res)
    && Untouched(mem, rest, c.j, InReg(p.reg0)) && Untouched(mem, rest, c.j, p.reg1)
    && (p.form.PostAdd? ==> !Mentions(mem, rest[c.j].res) && p.reg1 != InReg(rest[c.j].res))
  }

  lemma NextIncIs(rest: seq<Insn>, e: NextRefs, r: nat)
    requires EntryOk(rest, e, r) && e.inc.At?
    ensures var k := PosOf(rest, e.inc.uid); k < |rest| && rest[k].Add? && Uses(rest[k], r) && Undefined(rest, k, r)
  {}

  lemma NextUseIs(rest: seq<Insn>, e: NextRefs, r: nat, j: nat)
    requires EntryOk(rest, e, r) && j < |rest| && rest[j].Add? && e.use == At(rest[j].uid) && Distinct(rest)
    ensures Unmentioned(rest, j, r)
  {
    FirstOf(rest, j);
  }

  /** What is not defined earlier than the addition, as far as was noted, is not defined earlier. */
  lemma NotEarlier(rest: seq<Insn>, def: Next, r: nat, j: nat)
    requires DefRight(rest, def, r) && !Earlier(rest, def, j) && j < |rest| && rest[j].Add? && JumpLast(rest)
    ensures Undefined(rest, j, r)
  {
    hide Defs, IsJump;
    forall k | 0 <= k < j
      ensures !Defs(rest[k], r)
    {
      assert DefSeen(rest, def, r, k);
    }
  }

  /** The result of an addition is not mentioned before it, if it is defined next there and not used earlier. */
  lemma ResultUnmentioned(rest: seq<Insn>, e: NextRefs, j: nat, b: nat)
    requires EntryOk(rest, e, b) && j < |rest| && rest[j].Add? && rest[j].res == b && !Uses(rest[j], b)
    requires JumpLast(rest) && Distinct(rest)
    requires e.def == At(rest[j].uid) && (e.use.At? && e.use != At(rest[j].uid) ==> j <= PosOf(rest, e.use.uid))
    ensures Unmentioned(rest, j, b)
  {
    hide Uses, Defs, UseOk, IncOk, HasPlain, Distinct, IsJump, Bumps;
    FirstOf(rest, j);
    NotEarlier(rest, e.def, b, j);
    forall k | 0 <= k < j
      ensures !Mentions(rest[k], b)
    {
      BumpsDefines(rest[k], b);
      assert Undefined(rest, k, b);
      assert UseSeen(rest, e.use, b, k);
      UseNotAt(rest, e, j, b);
    }
  }

  lemma BumpsDefines(x: Insn, r: nat)
    ensures Bumps(x, r) ==> Defs(x, r)
  {}

  /** An addition that does not use the register is not its next use. */
  lemma UseNotAt(rest: seq<Insn>, e: NextRefs, j: nat, b: nat)
    requires EntryOk(rest, e, b) && j < |rest| && rest[j].Add? && !Uses(rest[j], b) && Distinct(rest)
    ensures e.use != At(rest[j].uid)
  {
    FirstOf(rest, j);
  }

  lemma ParsedUses(add: Insn, r: nat)
    requires add.Add?
    ensures var p := Parse(add, false); Uses(add, r) <==> p.reg0 == r || p.reg1 == InReg(r)
    ensures var p := Parse(add, false); p.form.PostAdd? ==> !Uses(add, add.res)
  {}

  lemma DefOfEntry(rest: seq<Insn>, e: NextRefs, r: nat)
    requires EntryOk(rest, e, r)
    ensures DefRight(rest, e.def, r)
  {}

  /** What is known once the next addition that uses `reg0` has been looked at. */
  ghost predicate Gathered(mem: Insn, rest: seq<Insn>, next: seq<NextRefs>, reg0: nat, j: nat, p: Parsed) {
    && j < |rest| && rest[j].Add? && p == Parse(rest[j], false) && Uses(rest[j], reg0) && Undefined(rest, j, reg0)
    && (forall r: nat :: r < |next| && !Earlier(rest, next[r].def, j) ==> Undefined(rest, j, r))
    && (p.reg0 < |next| && next[p.reg0].use == At(rest[j].uid) ==> Unmentioned(rest, j, p.reg0))
    && (rest[j].res < |next| && p.form.PostAdd? && ResultFree(mem, rest, next, j) ==> Unmentioned(rest, j, rest[j].res))
  }

  lemma Gather(mem: Insn, rest: seq<Insn>, next: seq<NextRefs>, reg0: nat)
    requires reg0 < |next| && next[reg0].inc.At? && forall k :: 0 <= k < |rest| ==> RegsBelow(rest[k], |next|)
    requires TableOk(rest, next) && JumpLast(rest) && Distinct(rest)
    ensures var j := PosOf(rest, next[reg0].inc.uid);
            j < |rest| && rest[j].Add? && Gathered(mem, rest, next, reg0, j, Parse(rest[j], false))
  {
    hide EntryOk, Uses, Parse, Mentions;
    assert EntryOk(rest, next[reg0], reg0);
    NextIncIs(rest, next[reg0], reg0);
    var j := PosOf(rest, next[reg0].inc.uid);
    var p := Parse(rest[j], false);
    forall r: nat | r < |next| && !Earlier(rest, next[r].def, j)
      ensures Undefined(rest, j, r)
    {
      assert EntryOk(rest, next[r], r);
      DefOfEntry(rest, next[r], r);
      NotEarlier(rest, next[r].def, r, j);
    }
    if p.reg0 < |next| && next[p.reg0].use == At(rest[j].uid) {
      assert EntryOk(rest, next[p.reg0], p.reg0);
      NextUseIs(rest, next[p.reg0], p.reg0, j);
    }
    var res := rest[j].res;
    if res < |next| && p.form.PostAdd? && ResultFree(mem, rest, next, j) {
      assert EntryOk(rest, next[res], res);
      ParsedUses(rest[j], res);
      ResultUnmentioned(rest, next[res], j, res);
    }
  }

  /** Nothing that is added is set by the reference or between it and the addition. */
  ghost predicate Quiet(mem: Insn, rest: seq<Insn>, j: nat, p: Parsed) {
    && Untouched(mem, rest, j, InReg(p.reg0)) && Untouched(mem, rest, j, p.reg1)
    && j < |rest| && rest[j].Add? && Unmentioned(rest, j, rest[j].res)
    && (p.form.PostAdd? ==> !Mentions(mem, rest[j].res))
  }

  lemma QuietIsOk(mem: Insn, ref: nat, rest: seq<Insn>, c: Candidate)
    requires c.Candidate? && Quiet(mem, rest, c.j, c.parsed)
    requires var p := Parse(rest[c.j], false);
             c.parsed == p || (p.form.PostAdd? && p.reg1.InReg? && c.parsed == Parsed(p.form, p.reg1.reg, InReg(p.reg0)))
    ensures CandidateOk(mem, ref, rest, c)
  {}

  /** Each candidate that fits the reference can be merged, if the register taken from the reference is the right one. */
  ghost predicate Right(mem: Insn, ref: nat, rest: seq<Insn>, c: Candidate, t: Target) {
    c.Candidate? ==>
      && c.j < |rest| && Parses(t, rest[c.j]) && !IsPre(c.parsed.form)
      && (Fits(c.parsed.reg1, c.off) || (c.off.Const? && c.off.val != 0 && c.parsed.reg1.InReg?))
      && mem.Other? && ref < |mem.refs| && Stands(mem.refs[ref].addr, c.memReg, c.off) && OnlyIn(mem, ref, c.memReg)
      && (Fits(c.parsed.reg1, c.off) ==> CandidateOk(mem, ref, rest, c))
      && (c.memReg != c.parsed.reg0 && Fits(c.parsed.reg1, c.off) ==>
            c.off.Const? && c.parsed.form.PostInc? && c.parsed.reg1 == InReg(c.memReg) && RegisterIncrement(rest[c.j]))
  }

  lemma CandidateSound(mem: Insn, ref: nat, reg0: nat, reg1: Operand, rest: seq<Insn>, next: seq<NextRefs>, t: Target, firstTry: bool)
    requires mem.Other? && ref < |mem.refs| && Stands(mem.refs[ref].addr, reg0, reg1)
    requires reg0 < |next| && OperandBelow(reg1, |next|) && forall k :: 0 <= k < |rest| ==> RegsBelow(rest[k], |next|)
    requires TableOk(rest, next) && JumpLast(rest) && Distinct(rest)
    ensures Right(mem, ref, rest, FindInc(mem, ref, reg0, reg1, rest, next, t, firstTry), t)
    decreases firstTry
  {
    hide Right, OnlyIn, Parse, Uses, Defs, TableOk, Gathered, RegsBelow, ResultFree, Parses, Earlier;
    if firstTry && reg1.InReg? {
      CandidateSound(mem, ref, reg1.reg, InReg(reg0), rest, next, t, false);
    }
    if OnlyIn(mem, ref, reg0) && next[reg0].inc != NoInsn {
      Gather(mem, rest, next, reg0);
      var j := PosOf(rest, next[reg0].inc.uid);
      DirectSound(mem, ref, reg0, reg1, rest, next, t, firstTry, j);
    } else {
      NoneRight(mem, ref, rest, t);
    }
  }

  lemma NoneRight(mem: Insn, ref: nat, rest: seq<Insn>, t: Target)
    ensures Right(mem, ref, rest, NoCandidate, t)
  {}

  /** The candidate of one try, unless it is the one of the other. */
  lemma DirectSound(mem: Insn, ref: nat, reg0: nat, reg1: Operand, rest: seq<Insn>, next: seq<NextRefs>, t: Target, firstTry: bool, j: nat)
    requires mem.Other? && ref < |mem.refs| && Stands(mem.refs[ref].addr, reg0, reg1) && OnlyIn(mem, ref, reg0)
    requires reg0 < |next| && OperandBelow(reg1, |next|) && forall k :: 0 <= k < |rest| ==> RegsBelow(rest[k], |next|)
    requires next[reg0].inc.At? && j == PosOf(rest, next[reg0].inc.uid) && j < |rest| && rest[j].Add?
    requires Gathered(mem, rest, next, reg0, j, Parse(rest[j], false))
    requires firstTry && reg1.InReg? ==> Right(mem, ref, rest, FindInc(mem, ref, reg1.reg, InReg(reg0), rest, next, t, false), t)
    ensures Right(mem, ref, rest, FindInc(mem, ref, reg0, reg1, rest, next, t, firstTry), t)
  {
    NoneRight(mem, ref, rest, t);
    var p := Parse(rest[j], false);
    assert RegsBelow(rest[j], |next|);
    hide Right, OnlyIn, Parse, Uses, Defs, Gathered, RegsBelow, Parses, Earlier, Conflicts, FindForConst, FindForReg, Stands;
    if !Parses(t, rest[j]) || Conflicts(mem, rest, next, j, p) || (reg1.InReg? && !OnlyIn(mem, ref, reg1.reg)) {
    } else if reg1.Const? {
      if !(p.form.PostInc? && next[p.reg0].use != At(rest[j].uid)) {
        ConstSound(mem, ref, reg0, reg1.val, rest, next, j, p, t);
      }
    } else {
      var back := if firstTry then FindInc(mem, ref, reg1.reg, InReg(reg0), rest, next, t, false) else NoCandidate;
      RegSound(mem, ref, reg0, reg1.reg, rest, next, j, p, back, t);
    }
  }

  lemma ConstSound(mem: Insn, ref: nat, reg0: nat, off: int, rest: seq<Insn>, next: seq<NextRefs>, j: nat, p: Parsed, t: Target)
    requires mem.Other? && ref < |mem.refs| && Stands(mem.refs[ref].addr, reg0, Const(off)) && OnlyIn(mem, ref, reg0)
    requires j < |rest| && Parses(t, rest[j])
    requires Gathered(mem, rest, next, reg0, j, p) && rest[j].res < |next| && OperandBelow(p.reg1, |next|) && p.reg0 < |next|
    requires !Conflicts(mem, rest, next, j, p) && (p.form.PostInc? ==> next[p.reg0].use == At(rest[j].uid))
    ensures Right(mem, ref, rest, FindForConst(reg0, off, rest, next, j, p), t)
  {
    var c := FindForConst(reg0, off, rest, next, j, p);
    ParsedUses(rest[j], reg0);
    if c.Candidate? && Fits(c.parsed.reg1, c.off) {
      hide OnlyIn, Uses, Earlier, Stands, ResultFree, Mentions;
      assert Quiet(mem, rest, j, c.parsed);
      hide Quiet, Gathered, Conflicts;
      QuietIsOk(mem, ref, rest, c);
      IncrementParsed(rest[j]);
    }
  }

  lemma IncrementParsed(add: Insn)
    requires add.Add?
    ensures var p := Parse(add, false);
            (p.form.PostInc? <==> p.reg0 == add.res) && (p.form.PostInc? && p.reg1.InReg? ==> RegisterIncrement(add))
  {}

  lemma RegSound(mem: Insn, ref: nat, reg0: nat, r: nat, rest: seq<Insn>, next: seq<NextRefs>, j: nat, p: Parsed, back: Candidate,
                 t: Target)
    requires mem.Other? && ref < |mem.refs| && Stands(mem.refs[ref].addr, reg0, InReg(r)) && OnlyIn(mem, ref, reg0) && OnlyIn(mem, ref, r)
    requires j < |rest| && Parses(t, rest[j])
    requires Gathered(mem, rest, next, reg0, j, p) && rest[j].res < |next| && OperandBelow(p.reg1, |next|) && p.reg0 < |next|
    requires !Conflicts(mem, rest, next, j, p) && r < |next| && Right(mem, ref, rest, back, t)
    ensures var c := FindForReg(reg0, r, rest, next, j, p, back);
            c == back || (p.form.PostInc? && next[p.reg0].use != At(rest[j].uid)) || Right(mem, ref, rest, c, t)
  {
    var c := FindForReg(reg0, r, rest, next, j, p, back);
    ParsedUses(rest[j], reg0);
    OnlyInStands(mem, ref, reg0, r);
    if c != back && c.Candidate? && !(p.form.PostInc? && next[p.reg0].use != At(rest[j].uid)) {
      hide OnlyIn, Uses, Earlier, ResultFree, Mentions;
      assert Quiet(mem, rest, j, c.parsed);
      hide Quiet, Gathered, Conflicts;
      QuietIsOk(mem, ref, rest, c);
      IncrementParsed(rest[j]);
    }
  }

  lemma OnlyInStands(mem: Insn, ref: nat, reg0: nat, r: nat)
    requires mem.Other? && ref < |mem.refs| && Stands(mem.refs[ref].addr, reg0, InReg(r)) && OnlyIn(mem, ref, reg0)
    ensures r != reg0 && Stands(mem.refs[ref].addr, r, InReg(reg0))
  {}

  // ---- what is found when nothing has been merged ----

  /** The entries of a register as the scan notes them, instruction by instruction from the end. */
  function EntryOf(rest: seq<Insn>, t: Target, r: nat): NextRefs {
    if rest == [] then NextRefs(NoInsn, NoInsn, NoInsn)
    else if IsJump(rest[0]) then EntryOf(rest[1..], t, r)
    else Noted(rest[0], Parses(t, rest[0]), EntryOf(rest[1..], t, r), r)
  }

  /** The table is the one that a scan of just these instructions leaves. */
  ghost predicate Exact(rest: seq<Insn>, t: Target, next: seq<NextRefs>) {
    forall r: nat :: r < |next| ==> next[r] == EntryOf(rest, t, r)
  }

  /** The first instruction but a jump that mentions the register, or sets it; the length if there is none. */
  function FirstMention(rest: seq<Insn>, r: nat): (k: nat)
    ensures k <= |rest| && (k < |rest| ==> Mentions(rest[k], r) && !IsJump(rest[k]))
    ensures forall i :: 0 <= i < k ==> IsJump(rest[i]) || !Mentions(rest[i], r)
  {
    if rest == [] then 0 else if !IsJump(rest[0]) && Mentions(rest[0], r) then 0 else 1 + FirstMention(rest[1..], r)
  }

  function FirstDef(rest: seq<Insn>, r: nat): (k: nat)
    ensures k <= |rest| && (k < |rest| ==> Defs(rest[k], r) && !IsJump(rest[k]))
    ensures forall i :: 0 <= i < k ==> IsJump(rest[i]) || !Defs(rest[i], r)
  {
    if rest == [] then 0 else if !IsJump(rest[0]) && Defs(rest[0], r) then 0 else 1 + FirstDef(rest[1..], r)
  }

  /** A register's entries are its first mention, if that is a use, and its first definition. */
  lemma {:induction false} EntryIs(rest: seq<Insn>, t: Target, r: nat)
    ensures var e, k, d := EntryOf(rest, t, r), FirstMention(rest, r), FirstDef(rest, r);
            && e.use == (if k < |rest| && Uses(rest[k], r) then At(rest[k].uid) else NoInsn)
            && e.inc == (if k < |rest| && Uses(rest[k], r) && Parses(t, rest[k]) then At(rest[k].uid) else NoInsn)
            && e.def == (if d < |rest| then At(rest[d].uid) else NoInsn)
  {
    hide Uses, Defs, Parses;
    if rest != [] {
      EntryIs(rest[1..], t, r);
    }
  }

  /** Seen from the addition at `j`, with nothing merged: what is noted is what stands there. */
  lemma ExactAt(rest: seq<Insn>, t: Target, next: seq<NextRefs>, j: nat, r: nat)
    requires Exact(rest, t, next) && Distinct(rest) && JumpLast(rest) && j < |rest| && rest[j].Add? && r < |next|
    ensures next[r].use == At(rest[j].uid) <==> Uses(rest[j], r) && Unmentioned(rest, j, r)
    ensures next[r].inc == At(rest[j].uid) <==> Uses(rest[j], r) && Unmentioned(rest, j, r) && Parses(t, rest[j])
    ensures next[r].def == At(rest[j].uid) <==> Defs(rest[j], r) && Undefined(rest, j, r)
    ensures Earlier(rest, next[r].def, j) <==> !Undefined(rest, j, r)
    ensures Undefined(rest, j, r) ==> (Earlier(rest, next[r].use, j) <==> !Unmentioned(rest, j, r))
    ensures Unmentioned(rest, j, r) ==> !Earlier(rest, next[r].use, j)
  {
    EntryIs(rest, t, r);
    var k, d := FirstMention(rest, r), FirstDef(rest, r);
    FirstOf(rest, j);
    if k < |rest| {
      FirstOf(rest, k);
    }
    if d < |rest| {
      FirstOf(rest, d);
    }
    NoJumpBefore(rest, j);
    hide Uses, Defs, Parses, IsJump, Distinct, JumpLast;
  }

  lemma NoJumpBefore(rest: seq<Insn>, j: nat)
    requires JumpLast(rest) && j < |rest| && rest[j].Add?
    ensures forall i :: 0 <= i <= j ==> !IsJump(rest[i])
  {}

  /** An entry of additions names the first mention, which is an addition the machine looks for. */
  lemma ExactInc(rest: seq<Insn>, t: Target, next: seq<NextRefs>, r: nat)
    requires Exact(rest, t, next) && Distinct(rest) && r < |next| && next[r].inc.At?
    ensures var j := PosOf(rest, next[r].inc.uid); j < |rest| && Parses(t, rest[j]) && rest[j].Add? && next[r].inc == At(rest[j].uid)
  {
    EntryIs(rest, t, r);
    FirstOf(rest, FirstMention(rest, r));
  }

  /** The addition at `j` is the first mention of `r`, which stands in the reference alone. */
  ghost predicate NextAddition(mem: Insn, ref: nat, r: nat, rest: seq<Insn>, t: Target, j: nat) {
    OnlyIn(mem, ref, r) && j < |rest| && Parses(t, rest[j]) && Uses(rest[j], r) && Unmentioned(rest, j, r)
  }

  /** The reference sets nothing the addition needs or gives; a result in another register is free, one that is incremented unused. */
  ghost predicate Movable(mem: Insn, rest: seq<Insn>, j: nat, p: Parsed)
    requires j < |rest| && rest[j].Add?
  {
    && !Defs(mem, p.reg0) && !Defs(mem, rest[j].res) && (p.reg1.InReg? ==> !Defs(mem, p.reg1.reg))
    && (p.form.PostAdd? ==> Unmentioned(rest, j, rest[j].res) && !Mentions(mem, rest[j].res))
  }

  /** The offset of the reference matches; when a register is added, that is still the same at the reference. */
  ghost predicate OffsetMatches(r0: nat, off: int, rest: seq<Insn>, j: nat, p: Parsed) {
    if p.reg1.Const? then off == 0 || off == p.reg1.val || off == 0 - p.reg1.val
    else if off != 0 then true
    else if p.form.PostAdd? && p.reg0 != r0 then Undefined(rest, j, p.reg0)
    else Undefined(rest, j, p.reg1.reg) && (p.form.PostAdd? ==> Unmentioned(rest, j, p.reg1.reg))
  }

  /** *(r0 + off) and the addition at `j` behind it are for each other. */
  ghost predicate JoinsConst(mem: Insn, ref: nat, r0: nat, off: int, rest: seq<Insn>, t: Target, j: nat) {
    && NextAddition(mem, ref, r0, rest, t, j)
    && var p := Parse(rest[j], false);
       Movable(mem, rest, j, p) && OffsetMatches(r0, off, rest, j, p) && (p.form.PostInc? ==> Unmentioned(rest, j, p.reg0))
  }

  /** Where an addition of two registers was found by the second of them, that is taken as its base. */
  function AsFound(add: Insn, r0: nat, off: int): Parsed
    requires add.Add?
  {
    var p := Parse(add, false);
    if off == 0 && p.reg1.InReg? && p.form.PostAdd? && p.reg0 != r0 then Parsed(p.form, p.reg1.reg, InReg(p.reg0)) else p
  }

  ghost predicate Ready(rest: seq<Insn>, t: Target, next: seq<NextRefs>) {
    Exact(rest, t, next) && Distinct(rest) && JumpLast(rest) && forall k :: 0 <= k < |rest| ==> RegsBelow(rest[k], |next|)
  }

  lemma AddRegs(add: Insn, n: nat)
    requires add.Add? && RegsBelow(add, n)
    ensures var p := Parse(add, false); p.reg0 < n && OperandBelow(p.reg1, n) && add.res < n
    ensures var p := Parse(add, false); Defs(add, add.res) && (p.form.PostInc? ==> Uses(add, p.reg0)) && (p.form.PostInc? || p.form.PostAdd?)
    ensures var p := Parse(add, false); p.form.PostAdd? ==> !Uses(add, add.res)
    ensures var p := Parse(add, false); forall r: nat :: Uses(add, r) <==> r == p.reg0 || p.reg1 == InReg(r)
  {}

  lemma ConflictsExact(mem: Insn, rest: seq<Insn>, next: seq<NextRefs>, t: Target, j: nat)
    requires Ready(rest, t, next) && j < |rest| && rest[j].Add?
    ensures rest[j].res < |next| && (Conflicts(mem, rest, next, j, Parse(rest[j], false)) <==> !Movable(mem, rest, j, Parse(rest[j], false)))
  {
    AddRegs(rest[j], |next|);
    var b := rest[j].res;
    ExactAt(rest, t, next, j, b);
    hide Uses, Defs, Ready, Earlier, Parse;
    if Unmentioned(rest, j, b) {
      UnmentionedUndefined(rest, j, b);
    }
  }

  lemma FoundConst(r0: nat, off: int, rest: seq<Insn>, next: seq<NextRefs>, t: Target, j: nat)
    requires Ready(rest, t, next) && j < |rest| && rest[j].Add? && r0 < |next| && Uses(rest[j], r0) && Unmentioned(rest, j, r0)
    requires OperandBelow(Parse(rest[j], false).reg1, |next|) && Parse(rest[j], false).reg0 < |next|
    ensures FindForConst(r0, off, rest, next, j, Parse(rest[j], false))
            == if OffsetMatches(r0, off, rest, j, Parse(rest[j], false)) then Candidate(j, AsFound(rest[j], r0, off), r0, Const(off)) else NoCandidate
  {
    AddRegs(rest[j], |next|);
    var p := Parse(rest[j], false);
    ExactAt(rest, t, next, j, p.reg0);
    if p.reg1.InReg? {
      ExactAt(rest, t, next, j, p.reg1.reg);
      if Unmentioned(rest, j, p.reg1.reg) {
        UnmentionedUndefined(rest, j, p.reg1.reg);
      }
    }
    hide Uses, Defs, Ready, Earlier, Parse;
  }

  /** A candidate is found for *(r0 + off) if and only if some addition behind it is for it, and it is that one. */
  lemma FindsConst(mem: Insn, ref: nat, r0: nat, off: int, rest: seq<Insn>, next: seq<NextRefs>, t: Target, firstTry: bool)
    requires Ready(rest, t, next) && r0 < |next|
    ensures var c := FindInc(mem, ref, r0, Const(off), rest, next, t, firstTry);
            && (c.Candidate? <==> exists j: nat :: JoinsConst(mem, ref, r0, off, rest, t, j))
            && forall j: nat :: JoinsConst(mem, ref, r0, off, rest, t, j) ==> c == Candidate(j, AsFound(rest[j], r0, off), r0, Const(off))
  {
    hide OnlyIn, Uses, Defs, Parses, Parse, Exact, RegsBelow, Distinct, JumpLast, FindForConst, Conflicts, Movable, OffsetMatches, Unmentioned, AsFound;
    forall j: nat | NextAddition(mem, ref, r0, rest, t, j)
      ensures next[r0].inc == At(rest[j].uid) && PosOf(rest, rest[j].uid) == j
    {
      ParsesAdd(t, rest[j]);
      ExactAt(rest, t, next, j, r0);
      FirstOf(rest, j);
    }
    if OnlyIn(mem, ref, r0) && next[r0].inc.At? {
      ExactInc(rest, t, next, r0);
      var j := PosOf(rest, next[r0].inc.uid);
      ExactAt(rest, t, next, j, r0);
      assert NextAddition(mem, ref, r0, rest, t, j);
      ConflictsExact(mem, rest, next, t, j);
      AddRegs(rest[j], |next|);
      FoundConst(r0, off, rest, next, t, j);
      ExactAt(rest, t, next, j, Parse(rest[j], false).reg0);
      assert FindInc(mem, ref, r0, Const(off), rest, next, t, firstTry)
             == if JoinsConst(mem, ref, r0, off, rest, t, j) then Candidate(j, AsFound(rest[j], r0, off), r0, Const(off)) else NoCandidate;
    }
  }

  /** The addition is of the two registers of the reference, the first being the one that is incremented if any is. */
  ghost predicate SamePair(r0: nat, r1: nat, p: Parsed) {
    (p.reg0 == r0 && p.reg1 == InReg(r1)) || (p.form.PostAdd? && p.reg0 == r1 && p.reg1 == InReg(r0))
  }

  /** The addition at `j` is the first mention of `r0`, and both registers of the reference can be moved to it. */
  ghost predicate PairAt(mem: Insn, ref: nat, r0: nat, r1: nat, rest: seq<Insn>, t: Target, j: nat) {
    NextAddition(mem, ref, r0, rest, t, j) && OnlyIn(mem, ref, r1) && Movable(mem, rest, j, Parse(rest[j], false))
  }

  /** *(r0 + r1) and the addition at `j` behind it are for each other, found by `r0`. */
  ghost predicate JoinsPair(mem: Insn, ref: nat, r0: nat, r1: nat, rest: seq<Insn>, t: Target, j: nat) {
    && PairAt(mem, ref, r0, r1, rest, t, j)
    && var p := Parse(rest[j], false);
       SamePair(r0, r1, p) && Undefined(rest, j, r1) && (p.form.PostInc? ==> Unmentioned(rest, j, p.reg0))
  }

  /** The addition found by `r0` is not of these two registers: then the other is tried. */
  ghost predicate TurnsRound(mem: Insn, ref: nat, r0: nat, r1: nat, rest: seq<Insn>, t: Target) {
    exists j: nat :: PairAt(mem, ref, r0, r1, rest, t, j) && !SamePair(r0, r1, Parse(rest[j], false))
  }

  lemma FoundPair(r0: nat, r1: nat, rest: seq<Insn>, next: seq<NextRefs>, t: Target, j: nat, back: Candidate)
    requires Ready(rest, t, next) && j < |rest| && rest[j].Add? && r0 < |next| && r1 < |next| && r0 != r1 && Uses(rest[j], r0)
    requires OperandBelow(Parse(rest[j], false).reg1, |next|) && Parse(rest[j], false).reg0 < |next|
    ensures var p := Parse(rest[j], false);
            FindForReg(r0, r1, rest, next, j, p, back)
            == if !SamePair(r0, r1, p) then back else if Undefined(rest, j, r1) then Candidate(j, p, p.reg0, InReg(if p.reg0 == r0 then r1 else r0))
               else NoCandidate
  {
    AddRegs(rest[j], |next|);
    ExactAt(rest, t, next, j, r1);
    hide Uses, Defs, Ready, Earlier, Parse;
  }

  /** The addition at `j`, with the register that is its first operand as the base of the reference. */
  function PairFound(rest: seq<Insn>, r0: nat, r1: nat, j: nat): (c: Candidate)
    requires j < |rest| && rest[j].Add?
    ensures c.Candidate?
  {
    var p := Parse(rest[j], false);
    Candidate(j, p, p.reg0, InReg(if p.reg0 == r0 then r1 else r0))
  }

  /** One try by one register. */
  lemma FindsOnce(mem: Insn, ref: nat, r0: nat, r1: nat, rest: seq<Insn>, next: seq<NextRefs>, t: Target, firstTry: bool, j: nat)
    requires Ready(rest, t, next) && r0 < |next| && r1 < |next| && r0 != r1 && PairAt(mem, ref, r0, r1, rest, t, j)
    ensures var back := if firstTry then FindInc(mem, ref, r1, InReg(r0), rest, next, t, false) else NoCandidate;
            FindInc(mem, ref, r0, InReg(r1), rest, next, t, firstTry)
            == if JoinsPair(mem, ref, r0, r1, rest, t, j) then PairFound(rest, r0, r1, j)
               else if SamePair(r0, r1, Parse(rest[j], false)) then NoCandidate else back
  {
    ParsesAdd(t, rest[j]);
    FirstOf(rest, j);
    ExactAt(rest, t, next, j, r0);
    ConflictsExact(mem, rest, next, t, j);
    AddRegs(rest[j], |next|);
    ExactAt(rest, t, next, j, Parse(rest[j], false).reg0);
    var back := if firstTry then FindInc(mem, ref, r1, InReg(r0), rest, next, t, false) else NoCandidate;
    FoundPair(r0, r1, rest, next, t, j, back);
    hide OnlyIn, Uses, Defs, Parses, Parse, Exact, RegsBelow, Distinct, JumpLast, FindForReg, Conflicts, Movable, Unmentioned, SamePair;
  }

  lemma NothingNext(mem: Insn, ref: nat, r0: nat, r1: nat, rest: seq<Insn>, next: seq<NextRefs>, t: Target, firstTry: bool)
    requires Ready(rest, t, next) && r0 < |next| && r1 < |next| && forall j: nat :: !PairAt(mem, ref, r0, r1, rest, t, j)
    ensures FindInc(mem, ref, r0, InReg(r1), rest, next, t, firstTry) == NoCandidate
  {
    if OnlyIn(mem, ref, r0) && next[r0].inc.At? {
      ExactInc(rest, t, next, r0);
      var j := PosOf(rest, next[r0].inc.uid);
      ExactAt(rest, t, next, j, r0);
      ConflictsExact(mem, rest, next, t, j);
      hide OnlyIn, Uses, Defs, Parses, Parse, Exact, RegsBelow, Distinct, JumpLast, FindForReg, Conflicts, Movable, Unmentioned;
      assert !PairAt(mem, ref, r0, r1, rest, t, j);
    }
  }

  lemma PairOnce(mem: Insn, ref: nat, r0: nat, r1: nat, rest: seq<Insn>, next: seq<NextRefs>, t: Target, i: nat, j: nat)
    requires Ready(rest, t, next) && r0 < |next| && PairAt(mem, ref, r0, r1, rest, t, i) && PairAt(mem, ref, r0, r1, rest, t, j)
    ensures i == j
  {
    hide Movable, OnlyIn, Parse, Parses;
    UsesMentions(rest[i], r0);
    UsesMentions(rest[j], r0);
  }

  lemma UsesMentions(x: Insn, r: nat)
    requires Uses(x, r)
    ensures Mentions(x, r)
  {}

  /**
   * For *(r0 + r1) a candidate is found if and only if an addition found by `r0` is for it or, when the one found by `r0`
   * is not of these two registers, one found by `r1`.
   */
  lemma FindsPair(mem: Insn, ref: nat, r0: nat, r1: nat, rest: seq<Insn>, next: seq<NextRefs>, t: Target)
    requires Ready(rest, t, next) && r0 < |next| && r1 < |next| && r0 != r1
    ensures FindInc(mem, ref, r0, InReg(r1), rest, next, t, true).Candidate? <==>
            || (exists j: nat :: JoinsPair(mem, ref, r0, r1, rest, t, j))
            || (TurnsRound(mem, ref, r0, r1, rest, t) && exists j: nat :: JoinsPair(mem, ref, r1, r0, rest, t, j))
    ensures forall j: nat :: JoinsPair(mem, ref, r0, r1, rest, t, j) ==>
              FindInc(mem, ref, r0, InReg(r1), rest, next, t, true) == PairFound(rest, r0, r1, j)
    ensures forall j: nat :: TurnsRound(mem, ref, r0, r1, rest, t) && JoinsPair(mem, ref, r1, r0, rest, t, j) ==>
              FindInc(mem, ref, r0, InReg(r1), rest, next, t, true) == PairFound(rest, r1, r0, j)
  {
    hide PairAt, SamePair, FindInc, Ready, PairFound;
    FindsLast(mem, ref, r1, r0, rest, next, t);
    if j: nat :| PairAt(mem, ref, r0, r1, rest, t, j) {
      FindsOnce(mem, ref, r0, r1, rest, next, t, true, j);
      forall i: nat | PairAt(mem, ref, r0, r1, rest, t, i)
        ensures i == j
      {
        PairOnce(mem, ref, r0, r1, rest, next, t, i, j);
      }
      JoinsIsSame(mem, ref, r0, r1, rest, t, j);
    } else {
      NothingNext(mem, ref, r0, r1, rest, next, t, true);
    }
  }

  lemma JoinsIsSame(mem: Insn, ref: nat, r0: nat, r1: nat, rest: seq<Insn>, t: Target, j: nat)
    requires PairAt(mem, ref, r0, r1, rest, t, j)
    ensures j < |rest| && rest[j].Add? && (JoinsPair(mem, ref, r0, r1, rest, t, j) ==> SamePair(r0, r1, Parse(rest[j], false)))
  {
    ParsesAdd(t, rest[j]);
  }

  lemma FindsLast(mem: Insn, ref: nat, r0: nat, r1: nat, rest: seq<Insn>, next: seq<NextRefs>, t: Target)
    requires Ready(rest, t, next) && r0 < |next| && r1 < |next| && r0 != r1
    ensures FindInc(mem, ref, r0, InReg(r1), rest, next, t, false).Candidate? <==> exists j: nat :: JoinsPair(mem, ref, r0, r1, rest, t, j)
    ensures forall j: nat :: JoinsPair(mem, ref, r0, r1, rest, t, j) ==>
              j < |rest| && rest[j].Add? && FindInc(mem, ref, r0, InReg(r1), rest, next, t, false) == PairFound(rest, r0, r1, j)
  {
    hide PairAt, SamePair, FindInc, Ready;
    if j: nat :| PairAt(mem, ref, r0, r1, rest, t, j) {
      FindsOnce(mem, ref, r0, r1, rest, next, t, false, j);
      forall i: nat | PairAt(mem, ref, r0, r1, rest, t, i)
        ensures i == j
      {
        PairOnce(mem, ref, r0, r1, rest, next, t, i, j);
      }
    } else {
      NothingNext(mem, ref, r0, r1, rest, next, t, false);
    }
  }

  /** The first mention of the result, if it is a use that the way is free to for a register added. */
  ghost predicate UseFree(p: Parsed, res: nat, rest: seq<Insn>, k: nat) {
    && k < |rest| && k == FirstMention(rest, res) && Uses(rest[k], res) && (p.form.PreInc? || p.reg1.Const?)
    && (p.reg1.InReg? ==> FirstDef(rest, p.reg1.reg) >= k
                          && (FirstMention(rest, p.reg1.reg) >= k || !Uses(rest[FirstMention(rest, p.reg1.reg)], p.reg1.reg)))
  }

  /** A use of the result is found before a reference if and only if it is the first mention and the way there is free. */
  lemma UseIsFound(p: Parsed, res: nat, rest: seq<Insn>, next: seq<NextRefs>, t: Target)
    requires Ready(rest, t, next) && res < |next| && OperandBelow(p.reg1, |next|)
    ensures var k := UseCandidate(p, res, rest, next); k < |rest| <==> UseFree(p, res, rest, FirstMention(rest, res))
    ensures var k := UseCandidate(p, res, rest, next); k < |rest| ==> k == FirstMention(rest, res)
  {
    EntryIs(rest, t, res);
    MentionPos(rest, FirstMention(rest, res));
    if p.reg1.InReg? {
      EntryIs(rest, t, p.reg1.reg);
      MentionPos(rest, FirstMention(rest, p.reg1.reg));
      MentionPos(rest, FirstDef(rest, p.reg1.reg));
    }
    hide Uses, Defs, Parses, IsJump, Distinct, JumpLast, RegsBelow;
  }

  lemma MentionPos(rest: seq<Insn>, k: nat)
    requires Distinct(rest)
    ensures k < |rest| ==> PosOf(rest, rest[k].uid) == k
  {
    if k < |rest| {
      FirstOf(rest, k);
    }
  }

  // ---- the block as a whole ----

  function Adds(insns: seq<Insn>): nat {
    if insns == [] then 0 else (if insns[0].Add? then 1 else 0) + Adds(insns[1..])
  }

  lemma {:induction false} AddsApart(a: seq<Insn>, b: seq<Insn>)
    ensures Adds(a + b) == Adds(a) + Adds(b)
  {
    if a == [] {
      assert a + b == b;
    } else {
      assert (a + b)[1..] == a[1..] + b;
      AddsApart(a[1..], b);
    }
  }

  /** Numbers are distinct and below the next free one, registers in range, and only the last instruction jumps. */
  ghost predicate Block(insns: seq<Insn>, registers: nat, nextUid: nat) {
    && Distinct(insns) && JumpLast(insns)
    && forall k :: 0 <= k < |insns| ==> insns[k].uid < nextUid && RegsBelow(insns[k], registers)
  }

  /** The part not yet scanned, and the part behind. */
  ghost predicate Scanning(before: seq<Insn>, rest: seq<Insn>, next: seq<NextRefs>, nextUid: nat) {
    Block(before + rest, |next|, nextUid) && TableOk(rest, next)
  }

  lemma BlockParts(before: seq<Insn>, x: Insn, rest: seq<Insn>, registers: nat, nextUid: nat)
    requires Block(before + [x] + rest, registers, nextUid)
    ensures Distinct(rest) && JumpLast(rest) && Fresh(x, rest) && RegsBelow(x, registers) && x.uid < nextUid
    ensures forall k :: 0 <= k < |rest| ==> RegsBelow(rest[k], registers) && rest[k].uid < nextUid
    ensures forall k :: 0 <= k < |before| ==> before[k].uid != x.uid && before[k].uid < nextUid && RegsBelow(before[k], registers)
    ensures rest != [] ==> !IsJump(x)
    ensures forall j, k :: 0 <= j < |before| && 0 <= k < |rest| ==> before[j].uid != rest[k].uid
    ensures Distinct(before) && forall k :: 0 <= k < |before| ==> !IsJump(before[k])
  {
    hide RegsBelow, IsJump;
    var all, n := before + [x] + rest, |before|;
    assert forall k :: 0 <= k < n ==> all[k] == before[k];
    assert all[n] == x;
    assert forall k :: 0 <= k < |rest| ==> all[n + 1 + k] == rest[k];
  }

  lemma BlockFrom(before: seq<Insn>, rest: seq<Insn>, registers: nat, nextUid: nat)
    requires Distinct(before) && Distinct(rest) && JumpLast(rest) && forall k :: 0 <= k < |before| ==> !IsJump(before[k])
    requires forall j, k :: 0 <= j < |before| && 0 <= k < |rest| ==> before[j].uid != rest[k].uid
    requires forall k :: 0 <= k < |before| ==> before[k].uid < nextUid && RegsBelow(before[k], registers)
    requires forall k :: 0 <= k < |rest| ==> rest[k].uid < nextUid && RegsBelow(rest[k], registers)
    ensures Block(before + rest, registers, nextUid)
  {
    hide RegsBelow, IsJump;
    var all, n := before + rest, |before|;
    assert forall k :: 0 <= k < n ==> all[k] == before[k];
    assert forall k :: n <= k < |all| ==> all[k] == rest[k - n];
  }

  /** Notes what an instruction sets, and then what it uses. */
  method NoteInsn(x: Insn, inc: bool, next: array<NextRefs>)
    modifies next
    ensures forall r: nat :: r < next.Length ==> next[r] == Noted(x, inc, old(next[r]), r)
  {
    for r := 0 to next.Length
      invariant forall q: nat :: q < r ==>
                  next[q] == if Defs(x, q) then NextRefs(NoInsn, NoInsn, At(x.uid)) else old(next[q])
      invariant forall q: nat :: r <= q < next.Length ==> next[q] == old(next[q])
    {
      if Defs(x, r) {
        next[r] := NextRefs(NoInsn, NoInsn, At(x.uid));
      }
    }
    for r := 0 to next.Length
      invariant forall q: nat :: q < r ==> next[q] == Noted(x, inc, old(next[q]), q)
      invariant forall q: nat :: r <= q < next.Length ==>
                  next[q] == if Defs(x, q) then NextRefs(NoInsn, NoInsn, At(x.uid)) else old(next[q])
    {
      if Uses(x, r) {
        next[r] := next[r].(use := At(x.uid), inc := if inc then At(x.uid) else NoInsn);
      }
    }
  }

  /** An instruction left as it is goes behind the scan. */
  lemma ScannedOne(before: seq<Insn>, x: Insn, rest: seq<Insn>, inc: bool, next: seq<NextRefs>, next': seq<NextRefs>, nextUid: nat)
    requires Block(before + [x] + rest, |next|, nextUid) && TableOk(rest, next) && |next'| == |next|
    requires !IsJump(x) && (inc ==> x.Add?)
    requires forall r: nat :: r < |next| ==> next'[r] == Noted(x, inc, next[r], r)
    ensures Scanning(before, [x] + rest, next', nextUid)
  {
    hide EntryOk, DefRight, Noted, Block, IsJump, Uses, Defs, RegsBelow;
    assert before + [x] + rest == before + ([x] + rest);
    BlockParts(before, x, rest, |next|, nextUid);
    forall r: nat | r < |next'|
      ensures EntryOk([x] + rest, next'[r], r)
    {
      EntryDef(rest, next[r], r);
      EntryNoted(x, rest, inc, next[r], r);
    }
  }

  lemma EntryDef(rest: seq<Insn>, e: NextRefs, r: nat)
    requires EntryOk(rest, e, r)
    ensures DefRight(rest, e.def, r)
  {}

  // ---- additions of one register to another ----

  /** An addition of another register to its own result. */
  predicate AddsAnother(x: Insn) {
    RegisterIncrement(x) && Parse(x, true).reg1 != InReg(x.res)
  }

  function Added(x: Insn): nat
    requires AddsAnother(x)
  {
    Parse(x, true).reg1.reg
  }

  predicate PlainOn(x: Insn, r: nat) {
    x.Other? && exists k :: 0 <= k < |x.refs| && x.refs[k].addr == Plain(r, Const(0))
  }

  /** An addition to another register gives `r`. */
  predicate Gives(x: Insn, r: nat) {
    x.Add? && x.res == r && Parse(x, true).form.PreAdd?
  }

  /** *b ... a += b. */
  predicate TakesAdded(x: Insn, y: Insn) {
    AddsAnother(y) && PlainOn(x, Added(y))
  }

  /** a += b ... *a ... b <- c + d. */
  predicate GivesAdded(x: Insn, y: Insn, z: Insn) {
    AddsAnother(x) && PlainOn(y, x.res) && Gives(z, Added(x))
  }

  /** Neither pattern stands in the block, on a machine that merges such additions behind or before a reference. */
  ghost predicate Safe(t: Target, insns: seq<Insn>) {
    && (t.postModifyReg ==> forall i, j :: 0 <= i < j < |insns| ==> !TakesAdded(insns[i], insns[j]))
    && (t.preModifyReg ==> forall i, j, k :: 0 <= i < j < k < |insns| ==> !GivesAdded(insns[i], insns[j], insns[k]))
  }

  /** Additions are the same, and plain references are some of what they were. */
  ghost predicate Narrower(y: Insn, x: Insn) {
    (y.Add? ==> y == x) && forall r :: PlainOn(y, r) ==> PlainOn(x, r)
  }

  lemma SafeNarrowed(t: Target, a: seq<Insn>, b: seq<Insn>)
    requires Safe(t, a) && |b| == |a| && forall i :: 0 <= i < |a| ==> Narrower(b[i], a[i])
    ensures Safe(t, b)
  {
    hide PlainOn, Gives, RegisterIncrement, Parse;
    forall i, j | 0 <= i < j < |b|
      ensures t.postModifyReg ==> !TakesAdded(b[i], b[j])
    {
      assert t.postModifyReg ==> !TakesAdded(a[i], a[j]);
      GivesIsAdd(b[j], 0);
    }
    forall i, j, k | 0 <= i < j < k < |b|
      ensures t.preModifyReg ==> !GivesAdded(b[i], b[j], b[k])
    {
      assert t.preModifyReg ==> !GivesAdded(a[i], a[j], a[k]);
      GivesIsAdd(b[i], 0);
      if AddsAnother(b[i]) {
        GivesIsAdd(b[k], Added(b[i]));
      }
    }
  }

  lemma GivesIsAdd(x: Insn, r: nat)
    ensures Gives(x, r) || RegisterIncrement(x) ==> x.Add?
  {}

  lemma SafeDropped(t: Target, before: seq<Insn>, x: Insn, rest: seq<Insn>)
    requires Safe(t, before + [x] + rest)
    ensures Safe(t, before + rest)
  {
    hide TakesAdded, GivesAdded;
    var a, b, n := before + [x] + rest, before + rest, |before|;
    assert forall i :: 0 <= i < |b| ==> b[i] == a[if i < n then i else i + 1];
    forall i, j | 0 <= i < j < |b|
      ensures t.postModifyReg ==> !TakesAdded(b[i], b[j])
    {
      assert t.postModifyReg ==> !TakesAdded(a[if i < n then i else i + 1], a[if j < n then j else j + 1]);
    }
    forall i, j, k | 0 <= i < j < k < |b|
      ensures t.preModifyReg ==> !GivesAdded(b[i], b[j], b[k])
    {
      assert t.preModifyReg ==>
          !GivesAdded(a[if i < n then i else i + 1], a[if j < n then j else j + 1], a[if k < n then k else k + 1]);
    }
  }

  /** A move makes no difference. */
  lemma SafeInserted(t: Target, before: seq<Insn>, move: Insn, rest: seq<Insn>)
    requires Safe(t, before + rest) && move.Move?
    ensures Safe(t, before + [move] + rest)
  {
    MoveIsSafe(move);
    hide TakesAdded, GivesAdded;
    var a, b, n := before + rest, before + [move] + rest, |before|;
    assert b[n] == move && forall i :: 0 <= i < |b| && i != n ==> b[i] == a[if i < n then i else i - 1];
    forall i, j | 0 <= i < j < |b|
      ensures t.postModifyReg ==> !TakesAdded(b[i], b[j])
    {
      if i != n && j != n {
        assert t.postModifyReg ==> !TakesAdded(a[if i < n then i else i - 1], a[if j < n then j else j - 1]);
      }
    }
    forall i, j, k | 0 <= i < j < k < |b|
      ensures t.preModifyReg ==> !GivesAdded(b[i], b[j], b[k])
    {
      if i != n && j != n && k != n {
        assert t.preModifyReg ==>
            !GivesAdded(a[if i < n then i else i - 1], a[if j < n then j else j - 1], a[if k < n then k else k - 1]);
      }
    }
  }

  lemma MoveIsSafe(move: Insn)
    requires move.Move?
    ensures forall x :: !TakesAdded(x, move) && !TakesAdded(move, x)
    ensures forall x, y :: !GivesAdded(move, x, y) && !GivesAdded(x, move, y) && !GivesAdded(x, y, move)
  {}

  lemma AddressNarrower(insn: Insn, ref: nat, new': Address)
    requires insn.Other? && ref < |insn.refs| && !new'.Plain?
    ensures Narrower(WithAddress(insn, ref, new'), insn)
  {
    var insn' := WithAddress(insn, ref, new');
    forall r | PlainOn(insn', r)
      ensures PlainOn(insn, r)
    {
      var k :| 0 <= k < |insn'.refs| && insn'.refs[k].addr == Plain(r, Const(0));
      assert insn.refs[k] == insn'.refs[k];
    }
  }

  lemma SafeReplaced(t: Target, before: seq<Insn>, rest: seq<Insn>, k: nat, x: Insn)
    requires Safe(t, before + rest) && k < |rest| && Narrower(x, rest[k])
    ensures Safe(t, before + rest[k := x])
  {
    hide Safe, Narrower;
    var a, b := before + rest, before + rest[k := x];
    assert forall i :: 0 <= i < |a| && i != |before| + k ==> b[i] == a[i];
    SelfNarrower();
    SafeNarrowed(t, a, b);
  }

  lemma SelfNarrower()
    ensures forall x :: Narrower(x, x)
  {}

  // ---- overlooked moves ----

  /** The next definition noted stands behind this one. */
  ghost predicate Overlooked(rest: seq<Insn>, def: Next, r: nat, k: nat)
    requires k < |rest|
  {
    Defs(rest[k], r) && !IsJump(rest[k]) && k < Found(rest, def)
  }

  /** No addition of `r` in front gives a register that the reference at `p` is based on. */
  ghost predicate NotAdded(before: seq<Insn>, rest: seq<Insn>, p: nat, r: nat) {
    p < |rest| && forall i :: 0 <= i < |before| && AddsAnother(before[i]) && Added(before[i]) == r ==> !PlainOn(rest[p], before[i].res)
  }

  ghost predicate Harmless(t: Target, before: seq<Insn>, rest: seq<Insn>, def: Next, r: nat) {
    t.preModifyReg ==>
      forall k :: 0 <= k < |rest| && Overlooked(rest, def, r, k) ==> NotAdded(before, rest, Found(rest, def), r)
  }

  ghost predicate AllHarmless(t: Target, before: seq<Insn>, rest: seq<Insn>, next: seq<NextRefs>) {
    forall r: nat :: r < |next| ==> Harmless(t, before, rest, next[r].def, r)
  }

  lemma HarmlessLess(t: Target, before: seq<Insn>, x: Insn, rest: seq<Insn>, def: Next, r: nat)
    requires Harmless(t, before + [x], rest, def, r)
    ensures Harmless(t, before, rest, def, r)
  {
    hide Defs, AddsAnother, PlainOn, Added;
    var all := before + [x];
    assert forall i :: 0 <= i < |before| ==> all[i] == before[i];
    forall k | t.preModifyReg && 0 <= k < |rest| && Overlooked(rest, def, r, k)
      ensures NotAdded(before, rest, Found(rest, def), r)
    {
      assert NotAdded(all, rest, Found(rest, def), r);
    }
  }

  lemma HarmlessBehind(t: Target, before: seq<Insn>, x: Insn, rest: seq<Insn>, def: Next, r: nat)
    requires Harmless(t, before, rest, def, r) && !Defs(x, r) && Fresh(x, rest) && DefRight(rest, def, r)
    ensures Harmless(t, before, [x] + rest, def, r)
  {
    hide Defs, AddsAnother, PlainOn, Added;
    var all := [x] + rest;
    PosBehind(x, rest, def);
    assert all[0] == x && forall k :: 0 < k < |all| ==> all[k] == rest[k - 1];
    forall k | t.preModifyReg && 0 <= k < |all| && Overlooked(all, def, r, k)
      ensures NotAdded(before, all, Found(all, def), r)
    {
      assert DefSeen(rest, def, r, k - 1);
      assert Overlooked(rest, def, r, k - 1);
    }
  }

  lemma HarmlessFirst(t: Target, before: seq<Insn>, x: Insn, rest: seq<Insn>, r: nat)
    ensures Harmless(t, before, [x] + rest, At(x.uid), r)
  {
    PosOfFront(x, rest, x.uid);
  }

  lemma HarmlessMerged(t: Target, before: seq<Insn>, rest: seq<Insn>, k: nat, ref: nat, new': Address, rest': seq<Insn>, def: Next, r: nat)
    requires Harmless(t, before, rest, def, r) && Merged(rest, k, ref, new', rest') && r != new'.reg
    ensures Harmless(t, before, rest', def, r)
  {
    MemIsOther(rest[k], ref, new'.reg);
    MergedAlike(rest, k, ref, new', rest', r);
    FoundSame(rest, k, ref, new', rest', def);
    AddressNarrower(rest[k], ref, new');
    hide Defs, AddsAnother, PlainOn, Added, WithAddress, OnlyIn;
    forall j | t.preModifyReg && 0 <= j < |rest'| && Overlooked(rest', def, r, j)
      ensures NotAdded(before, rest', Found(rest', def), r)
    {
      assert Overlooked(rest, def, r, j);
    }
  }

  lemma HarmlessWithout(t: Target, before: seq<Insn>, rest: seq<Insn>, j: nat, def: Next, r: nat)
    requires Harmless(t, before, rest, def, r) && j < |rest| && rest[j].Add? && rest[j].res != r
    requires DefRight(rest, def, r)
    ensures Harmless(t, before, Without(rest, j), def, r)
  {
    var rest' := Without(rest, j);
    if def.At? {
      assert PosOf(rest, def.uid) != j;
      PosOfWithout(rest, j, def.uid);
    }
    hide Defs, AddsAnother, PlainOn, Added;
    forall k' | t.preModifyReg && 0 <= k' < |rest'| && Overlooked(rest', def, r, k')
      ensures NotAdded(before, rest', Found(rest', def), r)
    {
      var k := if k' < j then k' else k' + 1;
      assert rest'[k'] == rest[k];
      assert DefSeen(rest, def, r, k);
      assert Overlooked(rest, def, r, k);
      assert NotAdded(before, rest, Found(rest, def), r);
    }
  }

  // ---- an addition before the reference ----

  lemma ClearSlice(rest: seq<Insn>, k: nat, r: nat)
    requires k <= |rest| && Unmentioned(rest, k, r)
    ensures NoMention(rest[..k], r)
  {
    hide Mentions;
  }

  lemma MergedSlices(rest: seq<Insn>, k: nat, ref: nat, new': Address, rest': seq<Insn>)
    requires Merged(rest, k, ref, new', rest')
    ensures rest == rest[..k] + [rest[k]] + rest[k + 1..]
    ensures rest' == rest[..k] + [WithAddress(rest[k], ref, new')] + rest[k + 1..]
  {}

  /** Where an addition is before the reference it joins: it is to its own result, or of a constant. */
  predicate JoinsBefore(add: Insn) {
    add.Add? && (Parse(add, true).form.PreInc? || add.inc.Const?)
  }

  lemma BeforeSame(before: seq<Insn>, add: Insn, rest: seq<Insn>, k: nat, ref: nat, new': Address, rest': seq<Insn>, uid: nat)
    requires JoinsBefore(add) && Merged(rest, k, ref, new', rest') && new'.reg == add.res && Unmentioned(rest, k, add.res)
    requires Merges(rest[k].refs[ref].addr.amount, new', Parse(add, true).reg1, true) && Leaves(rest[..k], Parse(add, true).reg1)
    ensures var moved := if Parse(add, true).form.PreInc? then rest' else [Move(uid, add.res, add.src)] + rest';
            Same(before + [add] + rest, before + moved)
  {
    hide Same, Merges, WithAddress, OnlyIn, Leaves;
    var mid, tail, mem := rest[..k], rest[k + 1..], rest[k];
    var mem' := WithAddress(mem, ref, new') by { MemIsOther(mem, ref, new'.reg); }
    MergedSlices(rest, k, ref, new', rest');
    ClearSlice(rest, k, add.res);
    assert before + [add] + rest == before + ([add] + mid + [mem]) + tail;
    if Parse(add, true).form.PreInc? {
      PreIncSame(add, Parse(add, true).reg1, mid, mem, ref, new');
      SameWithin(before, [add] + mid + [mem], mid + [mem'], tail);
      assert before + rest' == before + (mid + [mem']) + tail;
    } else {
      var move := Move(uid, add.res, add.src);
      PreAddSame(add, mid, mem, ref, new', uid);
      SameWithin(before, [add] + mid + [mem], [move] + mid + [mem'], tail);
      assert before + ([move] + rest') == before + ([move] + mid + [mem']) + tail;
    }
  }

  lemma MemIsOther(mem: Insn, ref: nat, r: nat)
    requires OnlyIn(mem, ref, r)
    ensures mem.Other? && ref < |mem.refs| && mem.refs[ref].addr.Plain? && InAddress(mem.refs[ref].addr, r)
    ensures Mentions(mem, r) && HasPlain(mem, r)
  {}

  lemma BlockBefore(before: seq<Insn>, add: Insn, rest: seq<Insn>, k: nat, ref: nat, new': Address, rest': seq<Insn>,
                    registers: nat, nextUid: nat)
    requires Block(before + [add] + rest, registers, nextUid) && add.Add?
    requires Merged(rest, k, ref, new', rest') && AddressBelow(new', registers)
    ensures Block(before + rest', registers, nextUid)
    ensures Block(before + ([Move(nextUid, add.res, add.src)] + rest'), registers, nextUid + 1)
  {
    hide Block, RegsBelow, IsJump, Merged;
    BlockParts(before, add, rest, registers, nextUid);
    MoveRegs(add, Move(nextUid, add.res, add.src), registers);
    MergedBlock(rest, k, ref, new', rest', registers);
    BlockFrom(before, rest', registers, nextUid);
    var move := Move(nextUid, add.res, add.src);
    MoveNotJump(move);
    MoveRegs(add, move, registers);
    FrontBlock(move, rest', registers, nextUid + 1);
    BlockFrom(before, [move] + rest', registers, nextUid + 1);
  }

  lemma MoveRegs(add: Insn, move: Insn, registers: nat)
    requires add.Add? && move.Move? && move.res == add.res && move.src == add.src && RegsBelow(add, registers)
    ensures RegsBelow(move, registers) && add.res < registers && add.src < registers
  {}

  lemma MergedBlock(rest: seq<Insn>, k: nat, ref: nat, new': Address, rest': seq<Insn>, registers: nat)
    requires Merged(rest, k, ref, new', rest') && Distinct(rest) && JumpLast(rest) && AddressBelow(new', registers)
    requires forall j :: 0 <= j < |rest| ==> RegsBelow(rest[j], registers)
    ensures Distinct(rest') && JumpLast(rest') && |rest'| == |rest|
    ensures forall j :: 0 <= j < |rest| ==> rest'[j].uid == rest[j].uid && RegsBelow(rest'[j], registers)
  {
    assert RegsBelow(rest[k], registers);
    assert forall j :: 0 <= j < |rest| ==> IsJump(rest'[j]) == IsJump(rest[j]);
  }

  lemma {:induction false} MergedAdds(rest: seq<Insn>, k: nat, ref: nat, new': Address, rest': seq<Insn>)
    requires Merged(rest, k, ref, new', rest')
    ensures Adds(rest') == Adds(rest)
  {
    hide Adds;
    var mem' := WithAddress(rest[k], ref, new');
    MergedSlices(rest, k, ref, new', rest');
    AddsApart(rest[..k] + [rest[k]], rest[k + 1..]);
    AddsApart(rest[..k], [rest[k]]);
    AddsApart(rest[..k] + [mem'], rest[k + 1..]);
    AddsApart(rest[..k], [mem']);
    AddsOne(rest[k]);
    AddsOne(mem');
  }

  lemma AddsOne(x: Insn)
    ensures Adds([x]) == if x.Add? then 1 else 0
  {
    assert Adds([x][1..]) == 0;
  }

  /** The reference that is the next use of the result does not come after another mention of it. */
  lemma NextUseFree(rest: seq<Insn>, e: NextRefs, k: nat, ref: nat, a: nat)
    requires EntryOk(rest, e, a) && e.use.At? && k == PosOf(rest, e.use.uid) && k < |rest| && OnlyIn(rest[k], ref, a)
    ensures Unmentioned(rest, k, a) && e.inc == NoInsn && !IsJump(rest[k])
  {
    MemIsOther(rest[k], ref, a);
  }

  /** Up to the reference a register that is added is not set, nor used, as far as was noted. */
  ghost predicate WayFree(o: Operand, rest: seq<Insn>, k: nat, next: seq<NextRefs>) {
    o.InReg? ==> o.reg < |next| && Undefined(rest, k, o.reg) && k <= Found(rest, next[o.reg].use)
  }

  /** The next use is now the reference, and the next addition is as before or none. */
  ghost predicate NowUsed(e: NextRefs, uid: nat, e': NextRefs) {
    e'.use == At(uid) && e'.def == e.def && (e'.inc == NoInsn || e'.inc == e.inc)
  }

  /** The entries after the addition has joined the reference behind it. */
  lemma TableBefore(a: nat, inc: Operand, rest: seq<Insn>, k: nat, ref: nat, new': Address, rest': seq<Insn>,
                    next: seq<NextRefs>, next': seq<NextRefs>)
    requires TableOk(rest, next) && |next'| == |next| && Distinct(rest) && a < |next|
    requires Merged(rest, k, ref, new', rest') && new'.reg == a && Unmentioned(rest, k, a) && !IsJump(rest[k])
    requires (new'.amount == inc || (new'.amount.Const? && inc.Const?)) && WayFree(inc, rest, k, next)
    requires next'[a] == NextRefs(if inc == InReg(a) then At(rest[k].uid) else NoInsn, NoInsn, At(rest[k].uid))
    requires inc.InReg? && inc.reg != a ==> NowUsed(next[inc.reg], rest[k].uid, next'[inc.reg])
    requires forall r: nat :: r < |next| && r != a && inc != InReg(r) ==> next'[r] == next[r]
    ensures TableOk(rest', next')
  {
    hide EntryOk, Merged, Unmentioned, Undefined, Found, IsJump;
    EntryIncremented(rest, k, ref, new', rest', next'[a].use);
    forall r: nat | r < |next'|
      ensures EntryOk(rest', next'[r], r)
    {
      if r == a {
      } else if inc == InReg(r) {
        EntryAdded(rest, k, ref, new', rest', next[r], next'[r].inc, r);
      } else {
        EntryMerged(rest, k, ref, new', rest', next[r], r);
      }
    }
  }

  /** The entries after a move has taken the place of the addition. */
  lemma TableBeforeMove(add: Insn, rest: seq<Insn>, k: nat, ref: nat, new': Address, rest': seq<Insn>,
                        next: seq<NextRefs>, next': seq<NextRefs>, uid: nat)
    requires TableOk(rest, next) && |next'| == |next| && add.Add? && add.src != add.res && add.src < |next| && add.res < |next|
    requires Merged(rest, k, ref, new', rest') && new'.reg == add.res && new'.amount.Const?
    requires Fresh(Move(uid, add.res, add.src), rest')
    requires next' == next[add.res := NextRefs(NoInsn, NoInsn, At(uid))][add.src := next[add.src].(use := At(uid))]
    ensures TableOk([Move(uid, add.res, add.src)] + rest', next')
  {
    hide EntryOk, Merged, Noted;
    var move := Move(uid, add.res, add.src);
    forall r: nat | r < |next'|
      ensures EntryOk([move] + rest', next'[r], r)
    {
      if r == add.res {
        MoveDefines(move, rest', next[r]);
      } else {
        EntryMerged(rest, k, ref, new', rest', next[r], r);
        if r == add.src {
          MoveUses(move, rest', next[r]);
        } else {
          EntryBehind(move, rest', next[r], r);
        }
      }
    }
  }

  lemma MoveDefines(move: Insn, rest: seq<Insn>, e: NextRefs)
    requires move.Move? && move.src != move.res && Fresh(move, rest)
    ensures EntryOk([move] + rest, NextRefs(NoInsn, NoInsn, At(move.uid)), move.res)
  {
    hide EntryOk;
    EntryNoted(move, rest, false, e, move.res);
  }

  lemma MoveUses(move: Insn, rest: seq<Insn>, e: NextRefs)
    requires move.Move? && move.src != move.res && Fresh(move, rest) && EntryOk(rest, e, move.src)
    ensures EntryOk([move] + rest, e.(use := At(move.uid)), move.src)
  {
    hide UseOk, UsesSeen, IncOk, DefOk;
    var r := move.src;
    PosOfFront(move, rest, move.uid);
    NotedSeen(move, rest, false, e, r);
    IncBehind(move, rest, e.inc, r);
    DefBehind(move, rest, e.def, r);
    MoveIsUse(move, rest, e.inc, r);
  }

  lemma MoveIsUse(move: Insn, rest: seq<Insn>, inc: Next, r: nat)
    requires move.Move?
    ensures UseOk([move] + rest, At(move.uid), inc, r)
  {
    PosOfFront(move, rest, move.uid);
  }

  lemma HarmlessBefore(t: Target, before: seq<Insn>, add: Insn, rest: seq<Insn>, k: nat, ref: nat, new': Address, rest': seq<Insn>,
                       next: seq<NextRefs>, next': seq<NextRefs>)
    requires AllHarmless(t, before + [add], rest, next) && |next'| == |next| && Distinct(rest)
    requires Merged(rest, k, ref, new', rest') && Unmentioned(rest, k, new'.reg) && new'.reg < |next|
    requires next'[new'.reg].def == At(rest[k].uid)
    requires forall r: nat :: r < |next| && r != new'.reg ==> next'[r].def == next[r].def
    ensures AllHarmless(t, before, rest', next')
  {
    hide Harmless, Merged, Unmentioned;
    forall r: nat | r < |next'|
      ensures Harmless(t, before, rest', next'[r].def, r)
    {
      if r == new'.reg {
        HarmlessIncremented(t, before, rest, k, ref, new', rest');
      } else {
        HarmlessLess(t, before, add, rest, next[r].def, r);
        HarmlessMerged(t, before, rest, k, ref, new', rest', next[r].def, r);
      }
    }
  }

  lemma HarmlessIncremented(t: Target, before: seq<Insn>, rest: seq<Insn>, k: nat, ref: nat, new': Address, rest': seq<Insn>)
    requires Merged(rest, k, ref, new', rest') && Unmentioned(rest, k, new'.reg) && Distinct(rest)
    ensures Harmless(t, before, rest', At(rest[k].uid), new'.reg)
  {
    MergedOwn(rest, k, ref, new', rest');
    FirstOf(rest, k);
    FoundSame(rest, k, ref, new', rest', At(rest[k].uid));
    hide Uses, Defs, OnlyIn, WithAddress;
    assert forall j :: 0 <= j < k ==> !Mentions(rest[j], new'.reg);
  }

  lemma HarmlessBeforeMove(t: Target, before: seq<Insn>, add: Insn, rest: seq<Insn>, k: nat, ref: nat, new': Address, rest': seq<Insn>,
                           next: seq<NextRefs>, next': seq<NextRefs>, move: Insn)
    requires AllHarmless(t, before + [add], rest, next) && |next'| == |next| && TableOk(rest, next)
    requires Merged(rest, k, ref, new', rest') && new'.reg < |next| && move.Move? && move.res == new'.reg && Fresh(move, rest')
    requires next'[new'.reg].def == At(move.uid)
    requires forall r: nat :: r < |next| && r != new'.reg ==> next'[r].def == next[r].def
    ensures AllHarmless(t, before, [move] + rest', next')
  {
    hide Harmless, Merged, Fresh, EntryOk, DefRight, Defs;
    forall r: nat | r < |next'|
      ensures Harmless(t, before, [move] + rest', next'[r].def, r)
    {
      if r == new'.reg {
        HarmlessFirst(t, before, move, rest', r);
      } else {
        HarmlessLess(t, before, add, rest, next[r].def, r);
        HarmlessMerged(t, before, rest, k, ref, new', rest', next[r].def, r);
        EntryDef(rest, next[r], r);
        DefMerged(rest, k, ref, new', rest', next[r].def, r);
        MentionsMove(move, r);
        HarmlessBehind(t, before, move, rest', next[r].def, r);
      }
    }
  }

  /** Neither pattern is left, and no move that is overlooked stands where one would have been. */
  ghost predicate Guarded(t: Target, before: seq<Insn>, rest: seq<Insn>, next: seq<NextRefs>) {
    Safe(t, before + rest) && AllHarmless(t, before, rest, next)
  }

  lemma SafeBefore(t: Target, before: seq<Insn>, add: Insn, rest: seq<Insn>, k: nat, ref: nat, new': Address, rest': seq<Insn>, move: Insn)
    requires Safe(t, before + [add] + rest) && Merged(rest, k, ref, new', rest') && move.Move?
    ensures Safe(t, before + rest') && Safe(t, before + ([move] + rest'))
  {
    MemIsOther(rest[k], ref, new'.reg);
    AddressNarrower(rest[k], ref, new');
    hide Safe, Narrower, WithAddress, OnlyIn;
    SafeDropped(t, before, add, rest);
    SafeReplaced(t, before, rest, k, rest'[k]);
    SafeInserted(t, before, move, rest');
    assert before + [move] + rest' == before + ([move] + rest');
  }

  lemma FreeLeaves(o: Operand, rest: seq<Insn>, k: nat, next: seq<NextRefs>)
    requires WayFree(o, rest, k, next) && k <= |rest|
    ensures Leaves(rest[..k], o)
  {
    hide Defs;
  }

  lemma AddressFits(new': Address, off: Operand, inc: Operand, registers: nat)
    requires Merges(off, new', inc, true) && OperandBelow(inc, registers) && new'.reg < registers
    ensures AddressBelow(new', registers) && (new'.amount == inc || (new'.amount.Const? && inc.Const?))
  {
    MergesIncrements(off, new', inc, true);
    AmountIsAdded(off, new', inc, true);
  }

  lemma ConstJoins(add: Insn, registers: nat)
    requires JoinsBefore(add) && RegsBelow(add, registers)
    ensures OperandBelow(Parse(add, true).reg1, registers) && add.res < registers && add.src < registers
    ensures !Parse(add, true).form.PreInc? ==> Parse(add, true).reg1.Const? && add.src != add.res
  {}

  /** The addition joins the reference behind it; a move stays when it was to another register. */
  method MergeBefore(ghost t: Target, ghost before: seq<Insn>, add: Insn, rest: seq<Insn>, k: nat, ref: nat, new': Address,
                     next: array<NextRefs>, nextUid: nat)
    returns (rest': seq<Insn>, nextUid': nat)
    requires Block(before + [add] + rest, next.Length, nextUid) && TableOk(rest, next[..]) && JoinsBefore(add)
    requires add.res < next.Length && next[add.res].use.At? && k == PosOf(rest, next[add.res].use.uid) && k < |rest|
    requires OnlyIn(rest[k], ref, add.res) && new'.reg == add.res
    requires rest[k].refs[ref].addr == Plain(add.res, rest[k].refs[ref].addr.amount) && rest[k].refs[ref].addr.amount.Const?
    requires Merges(rest[k].refs[ref].addr.amount, new', Parse(add, true).reg1, true)
    requires WayFree(Parse(add, true).reg1, rest, k, next[..]) && Guarded(t, before + [add], rest, next[..])
    modifies next
    ensures Scanning(before, rest', next[..], nextUid') && nextUid <= nextUid' && Guarded(t, before, rest', next[..])
    ensures Same(before + [add] + rest, before + rest') && Adds(rest') == Adds(rest)
  {
    hide Block, TableOk, EntryOk, OnlyIn, Merges, Unmentioned, Same, Adds, RegsBelow, Safe, AllHarmless, WayFree, JoinsBefore, Parse, Leaves,
      IsJump;
    ghost var entries := next[..];
    BlockParts(before, add, rest, next.Length, nextUid);
    ConstJoins(add, next.Length);
    EntryAt(rest, entries, add.res);
    NextUseFree(rest, entries[add.res], k, ref, add.res);
    MemIsOther(rest[k], ref, add.res);
    var inc := Parse(add, true).reg1;
    var mem' := WithAddress(rest[k], ref, new');
    var move := Move(nextUid, add.res, add.src);
    rest' := rest[k := mem'];
    ghost var merged := rest';
    nextUid' := nextUid;
    MergesIncrements(rest[k].refs[ref].addr.amount, new', inc, true);
    AddressFits(new', rest[k].refs[ref].addr.amount, inc, next.Length);
    FreeLeaves(inc, rest, k, entries);
    BeforeSame(before, add, rest, k, ref, new', merged, nextUid);
    BlockBefore(before, add, rest, k, ref, new', merged, next.Length, nextUid);
    SafeBefore(t, before, add, rest, k, ref, new', merged, move);
    MergedAdds(rest, k, ref, new', merged);
    if Parse(add, true).form.PreInc? {
      next[add.res] := next[add.res].(use := NoInsn, def := At(rest[k].uid));
      NoteAdded(inc, rest[k].uid, add.uid, next);
      TableBefore(add.res, inc, rest, k, ref, new', rest', entries, next[..]);
      HarmlessBefore(t, before, add, rest, k, ref, new', rest', entries, next[..]);
    } else {
      next[add.res] := next[add.res].(use := NoInsn, def := At(nextUid));
      next[add.src] := next[add.src].(use := At(nextUid));
      NoteAdded(inc, rest[k].uid, add.uid, next);
      MoveFresh(rest, rest', move);
      rest', nextUid' := [move] + rest', nextUid + 1;
      TableBeforeMove(add, rest, k, ref, new', merged, entries, next[..], nextUid);
      HarmlessBeforeMove(t, before, add, rest, k, ref, new', merged, entries, next[..], move);
      AddsApart([move], merged);
      AddsOne(move);
    }
  }

  lemma MoveFresh(rest: seq<Insn>, rest': seq<Insn>, move: Insn)
    requires |rest'| == |rest| && forall j :: 0 <= j < |rest| ==> rest'[j].uid == rest[j].uid && rest[j].uid < move.uid
    ensures Fresh(move, rest')
  {}

  lemma EntryAt(rest: seq<Insn>, next: seq<NextRefs>, r: nat)
    requires TableOk(rest, next) && r < |next|
    ensures EntryOk(rest, next[r], r)
  {}

  // ---- an addition after the reference ----

  /** The addition at `j` behind the reference may be made there, as an increment of its result. */
  ghost predicate MayMerge(mem: Insn, ref: nat, rest: seq<Insn>, c: Candidate, addr: Address) {
    && c.Candidate? && CandidateOk(mem, ref, rest, c) && OnlyIn(mem, ref, c.parsed.reg0) && addr.reg == rest[c.j].res
    && Merges(OffsetFrom(mem.refs[ref].addr, c.parsed.reg0), addr, c.parsed.reg1, false)
  }

  lemma LeavesSlice(mem: Insn, rest: seq<Insn>, j: nat, inc: Operand)
    requires j <= |rest| && Untouched(mem, rest, j, inc)
    ensures Leaves([mem] + rest[..j], inc)
  {
    hide Defs;
    var all := [mem] + rest[..j];
    assert all[0] == mem;
    assert forall k :: 0 < k < |all| ==> all[k] == rest[k - 1];
  }

  /** What stands in the place of the reference, of what is between, and of the addition at `j`. */
  function JoinedBehind(mem: Insn, ref: nat, rest: seq<Insn>, c: Candidate, new': Address, uid: nat): seq<Insn>
    requires mem.Other? && ref < |mem.refs| && c.Candidate? && c.j < |rest| && rest[c.j].Add?
  {
    (if c.parsed.form.PostInc? then [] else [Move(uid, rest[c.j].res, c.parsed.reg0)]) + [WithAddress(mem, ref, new')] + rest[..c.j]
  }

  lemma JoinedSame(mem: Insn, ref: nat, rest: seq<Insn>, c: Candidate, new': Address, uid: nat)
    requires MayMerge(mem, ref, rest, c, new') && mem.Other? && ref < |mem.refs|
    ensures Same([mem] + rest[..c.j] + [rest[c.j]], JoinedBehind(mem, ref, rest, c, new', uid))
  {
    hide Same, Merges, WithAddress, OnlyIn, Mentions, Defs, Leaves;
    var j, base, inc := c.j, c.parsed.reg0, c.parsed.reg1;
    var add, mid, mem' := rest[j], rest[..j], WithAddress(mem, ref, new');
    ClearSlice(rest, j, add.res);
    LeavesSlice(mem, rest, j, inc);
    if c.parsed.form.PostInc? {
      PostIncSame(add, inc, mid, mem, ref, new');
      assert JoinedBehind(mem, ref, rest, c, new', uid) == [mem'] + mid;
    } else {
      PostAddSame(add, base, inc, mid, mem, ref, new', uid);
      assert JoinedBehind(mem, ref, rest, c, new', uid) == [Move(uid, add.res, base), mem'] + mid;
    }
  }

  lemma AfterSame(before: seq<Insn>, mem: Insn, ref: nat, rest: seq<Insn>, c: Candidate, new': Address, uid: nat)
    requires MayMerge(mem, ref, rest, c, new') && mem.Other? && ref < |mem.refs|
    ensures var add, mem' := rest[c.j], WithAddress(mem, ref, new');
            Same(before + [mem] + rest,
                 before + ((if c.parsed.form.PostInc? then [mem'] else [Move(uid, add.res, c.parsed.reg0), mem']) + Without(rest, c.j)))
  {
    hide Same, MayMerge, WithAddress;
    MayMergeParts(mem, ref, rest, c, new');
    var j := c.j;
    var add, mid, tail, mem' := rest[j], rest[..j], rest[j + 1..], WithAddress(mem, ref, new');
    var joined := JoinedBehind(mem, ref, rest, c, new', uid);
    JoinedSame(mem, ref, rest, c, new', uid);
    SameWithin(before, [mem] + mid + [add], joined, tail);
    assert before + [mem] + rest == before + ([mem] + mid + [add]) + tail;
    if c.parsed.form.PostInc? {
      assert before + ([mem'] + Without(rest, j)) == before + joined + tail;
    } else {
      assert before + ([Move(uid, add.res, c.parsed.reg0), mem'] + Without(rest, j)) == before + joined + tail;
    }
  }

  lemma WithoutBlock(rest: seq<Insn>, j: nat)
    requires j < |rest| && Distinct(rest) && JumpLast(rest)
    ensures Distinct(Without(rest, j)) && JumpLast(Without(rest, j))
    ensures forall k :: 0 <= k < |Without(rest, j)| ==> Without(rest, j)[k] in rest
  {
    var rest' := Without(rest, j);
    assert forall k :: 0 <= k < |rest'| ==> rest'[k] == rest[if k < j then k else k + 1];
  }

  lemma NewAddressBlock(mem: Insn, ref: nat, new': Address, registers: nat)
    requires mem.Other? && ref < |mem.refs| && RegsBelow(mem, registers) && AddressBelow(new', registers)
    ensures RegsBelow(WithAddress(mem, ref, new'), registers) && IsJump(WithAddress(mem, ref, new')) == IsJump(mem)
  {}

  lemma BlockAfter(before: seq<Insn>, mem: Insn, mem': Insn, rest: seq<Insn>, j: nat, registers: nat, nextUid: nat, move: Insn)
    requires Block(before + [mem] + rest, registers, nextUid) && j < |rest|
    requires mem'.uid == mem.uid && RegsBelow(mem', registers) && !IsJump(mem')
    requires move.Move? && move.uid == nextUid && RegsBelow(move, registers)
    ensures Fresh(mem', Without(rest, j)) && Fresh(move, [mem'] + Without(rest, j))
    ensures Block(before + ([mem'] + Without(rest, j)), registers, nextUid)
    ensures Block(before + ([move, mem'] + Without(rest, j)), registers, nextUid + 1)
  {
    hide Block, RegsBelow, IsJump;
    BlockParts(before, mem, rest, registers, nextUid);
    WithoutBlock(rest, j);
    var rest1 := Without(rest, j);
    forall k | 0 <= k < |rest1|
      ensures rest1[k].uid < nextUid && rest1[k].uid != mem.uid && RegsBelow(rest1[k], registers)
      ensures forall i :: 0 <= i < |before| ==> before[i].uid != rest1[k].uid
    {
      var i :| 0 <= i < |rest| && rest[i] == rest1[k];
    }
    var all := [mem'] + rest1;
    FrontBlock(mem', rest1, registers, nextUid);
    BlockFrom(before, all, registers, nextUid);
    assert [move, mem'] + rest1 == [move] + all;
    MoveNotJump(move);
    FrontBlock(move, all, registers, nextUid + 1);
    BlockFrom(before, [move] + all, registers, nextUid + 1);
  }

  lemma MoveNotJump(move: Insn)
    requires move.Move?
    ensures !IsJump(move)
  {}

  lemma FrontBlock(x: Insn, rest: seq<Insn>, registers: nat, nextUid: nat)
    requires Distinct(rest) && JumpLast(rest) && Fresh(x, rest) && !IsJump(x) && x.uid < nextUid && RegsBelow(x, registers)
    requires forall k :: 0 <= k < |rest| ==> rest[k].uid < nextUid && RegsBelow(rest[k], registers)
    ensures Distinct([x] + rest) && JumpLast([x] + rest)
    ensures forall k :: 0 <= k < |[x] + rest| ==> ([x] + rest)[k].uid < nextUid && RegsBelow(([x] + rest)[k], registers)
    ensures forall k :: 0 <= k < |[x] + rest| ==> ([x] + rest)[k] == x || (k > 0 && ([x] + rest)[k] == rest[k - 1])
  {
    hide RegsBelow, IsJump;
    var all := [x] + rest;
    assert all[0] == x && forall k :: 0 < k < |all| ==> all[k] == rest[k - 1];
  }

  lemma {:induction false} WithoutAdds(rest: seq<Insn>, j: nat)
    requires j < |rest| && rest[j].Add?
    ensures Adds(Without(rest, j)) + 1 == Adds(rest)
  {
    hide Adds;
    assert rest == rest[..j] + [rest[j]] + rest[j + 1..];
    AddsApart(rest[..j] + [rest[j]], rest[j + 1..]);
    AddsApart(rest[..j], [rest[j]]);
    AddsApart(rest[..j], rest[j + 1..]);
    AddsOne(rest[j]);
  }

  /** The entries after the addition, to the same register, has joined the reference in front of it. */
  lemma TableAfter(mem': Insn, rest: seq<Insn>, c: Candidate, next: seq<NextRefs>, next1: seq<NextRefs>, next': seq<NextRefs>)
    requires TableOk(rest, next) && |next'| == |next| == |next1| && Distinct(rest)
    requires c.Candidate? && c.j < |rest| && AddsTo(rest[c.j], c.parsed.reg0, c.parsed.reg1) && c.parsed.reg0 == rest[c.j].res
    requires Fresh(mem', Without(rest, c.j)) && !IsJump(mem') && Defs(mem', rest[c.j].res)
    requires c.parsed.reg1.InReg? ==> Uses(mem', c.parsed.reg1.reg)
    requires forall r: nat :: r < |next| && r != rest[c.j].res ==>
               next1[r].def == next[r].def && (c.parsed.reg1 != InReg(r) ==> next1[r] == next[r])
    requires forall r: nat :: r < |next| ==> next'[r] == Noted(mem', false, next1[r], r)
    ensures TableOk([mem'] + Without(rest, c.j), next')
  {
    hide EntryOk, DefRight, Noted, Without, Fresh, IsJump, Uses, Defs, Mentions;
    forall r: nat | r < |next'|
      ensures EntryOk([mem'] + Without(rest, c.j), next'[r], r)
    {
      AddMentions(rest[c.j], c.parsed.reg0, c.parsed.reg1, r);
      if r != rest[c.j].res {
        EntryDef(rest, next[r], r);
        DefWithout(rest, c.j, next[r].def, r);
        if c.parsed.reg1 != InReg(r) {
          EntryWithout(rest, c.j, next[r], r);
        }
      }
      EntryNoted(mem', Without(rest, c.j), false, next1[r], r);
    }
  }

  lemma AddMentions(add: Insn, base: nat, inc: Operand, r: nat)
    requires AddsTo(add, base, inc)
    ensures Mentions(add, r) <==> r == base || inc == InReg(r) || r == add.res
    ensures Defs(add, r) <==> r == add.res
  {}

  lemma MentionsMove(x: Insn, r: nat)
    requires x.Move?
    ensures Uses(x, r) <==> r == x.src
    ensures Defs(x, r) <==> r == x.res
  {}

  /** The entries after the addition, to another register, has left a move in front of the reference. */
  lemma TableAfterMove(move: Insn, mem': Insn, rest: seq<Insn>, c: Candidate, next: seq<NextRefs>, next1: seq<NextRefs>, next': seq<NextRefs>)
    requires TableOk(rest, next) && |next'| == |next| == |next1| && Distinct(rest)
    requires c.Candidate? && c.j < |rest| && AddsTo(rest[c.j], c.parsed.reg0, c.parsed.reg1) && c.parsed.reg0 != rest[c.j].res
    requires c.parsed.reg0 < |next| && move.Move? && move.src == c.parsed.reg0 && move.res == rest[c.j].res < |next|
    requires c.parsed.reg1 != InReg(move.res)
    requires mem'.Other? && !mem'.jump && Fresh(mem', Without(rest, c.j)) && Fresh(move, [mem'] + Without(rest, c.j))
    requires Uses(mem', move.res) && Defs(mem', move.res) && !HasPlain(mem', move.res)
    requires !Defs(mem', move.src) && !HasPlain(mem', move.src)
    requires c.parsed.reg1.InReg? ==> Uses(mem', c.parsed.reg1.reg)
    requires forall r: nat :: r < |next| && r != move.res && r != move.src ==>
               next1[r].def == next[r].def && (c.parsed.reg1 != InReg(r) ==> next1[r] == next[r])
    requires next1[move.src].use == At(mem'.uid) && next1[move.src].def == next[move.src].def
    requires next1[move.src].inc == NoInsn || (next1[move.src].inc == next[move.src].inc != At(rest[c.j].uid))
    requires forall r: nat :: r < |next| ==> next'[r] == Noted(mem', false, next1[r], r)
    ensures TableOk([move] + ([mem'] + Without(rest, c.j)), next')
  {
    hide EntryOk, DefRight, IncOk, Without, Fresh, HasPlain, Uses, Defs, Mentions;
    var rest1 := Without(rest, c.j);
    forall r: nat | r < |next'|
      ensures EntryOk([move] + ([mem'] + rest1), next'[r], r)
    {
      AddMentions(rest[c.j], c.parsed.reg0, c.parsed.reg1, r);
      MentionsMove(move, r);
      if r == move.res {
        MoveInFront(move, mem', rest1, r);
      } else {
        EntryDef(rest, next[r], r);
        DefWithout(rest, c.j, next[r].def, r);
        if r == move.src {
          IncLeft(rest, c.j, next[r], next1[r].inc, r);
          NoIncOk(rest1, r);
          MoveFromRef(move, mem', rest1, if Uses(mem', r) then NoInsn else next1[r].inc, next[r].def);
        } else {
          if c.parsed.reg1 != InReg(r) {
            EntryWithout(rest, c.j, next[r], r);
          }
          EntryNoted(mem', rest1, false, next1[r], r);
          MentionsMove(move, r);
          NotMentioned(move, r);
          EntryBehind(move, [mem'] + rest1, next'[r], r);
        }
      }
    }
  }

  lemma NotMentioned(x: Insn, r: nat)
    requires !Uses(x, r) && !Defs(x, r)
    ensures !Mentions(x, r)
  {}

  lemma NoIncOk(rest: seq<Insn>, r: nat)
    ensures IncOk(rest, NoInsn, r)
  {}

  /** Another addition that uses the register is still there. */
  lemma IncLeft(rest: seq<Insn>, j: nat, e: NextRefs, inc: Next, r: nat)
    requires j < |rest| && rest[j].Add? && EntryOk(rest, e, r) && !Defs(rest[j], r) && Distinct(rest)
    requires inc == NoInsn || (inc == e.inc != At(rest[j].uid))
    ensures IncOk(Without(rest, j), inc, r)
  {
    hide Defs, Uses, UseOk, UsesSeen, DefRight;
    if inc.At? {
      var k := PosOf(rest, inc.uid);
      FirstOf(rest, j);
      assert k != j;
      PosOfWithout(rest, j, inc.uid);
      WithoutAlike(rest, j, k, r);
    }
  }

  lemma MoveInFront(move: Insn, mem': Insn, rest: seq<Insn>, b: nat)
    requires move.Move? && move.res == b && move.src != b && mem'.Other? && !mem'.jump && !HasPlain(mem', b)
    requires Fresh(move, [mem'] + rest)
    ensures EntryOk([move] + ([mem'] + rest), NextRefs(At(mem'.uid), NoInsn, At(mem'.uid)), b)
  {
    hide Bumps;
    var all := [move] + ([mem'] + rest);
    assert ([mem'] + rest)[0] == mem' && all[1] == mem' && all[0] == move;
    PosOfFront(move, [mem'] + rest, mem'.uid);
    PosOfFront(mem', rest, mem'.uid);
    forall k | 0 <= k < |all|
      ensures UseSeen(all, At(mem'.uid), b, k)
      ensures DefSeen(all, At(mem'.uid), b, k)
    {
      if k > 0 {
        assert !Undefined(all, k, b);
      }
    }
  }

  lemma MoveFromRef(move: Insn, mem': Insn, rest: seq<Insn>, inc: Next, def: Next)
    requires move.Move? && move.res != move.src && mem'.Other? && !mem'.jump
    requires !Defs(mem', move.src) && !HasPlain(mem', move.src)
    requires IncOk(rest, inc, move.src) && DefRight(rest, def, move.src)
    requires Fresh(move, [mem'] + rest) && Fresh(mem', rest)
    ensures EntryOk([move] + ([mem'] + rest), NextRefs(At(mem'.uid), inc, def), move.src)
  {
    hide Bumps, DefRight;
    var all, a := [move] + ([mem'] + rest), move.src;
    assert ([mem'] + rest)[0] == mem' && all[1] == mem' && all[0] == move;
    PosOfFront(move, [mem'] + rest, mem'.uid);
    PosOfFront(mem', rest, mem'.uid);
    IncBehind(mem', rest, inc, a);
    IncBehind(move, [mem'] + rest, inc, a);
    DefBehind(mem', rest, def, a);
    DefBehind(move, [mem'] + rest, def, a);
    forall k | 0 <= k < |all|
      ensures UseSeen(all, At(mem'.uid), a, k)
    {}
  }

  lemma NotedDefs(x: Insn, b: nat, next: seq<NextRefs>, next1: seq<NextRefs>, next': seq<NextRefs>)
    requires |next'| == |next| == |next1| && Defs(x, b)
    requires forall r: nat :: r < |next| ==> next'[r] == Noted(x, false, next1[r], r)
    requires forall r: nat :: r < |next| && r != b ==> next1[r].def == next[r].def
    ensures forall r: nat :: r < |next| ==> next'[r].def == if Defs(x, r) then At(x.uid) else next[r].def
  {
    hide Defs, Uses;
  }

  lemma HarmlessAfter(t: Target, before: seq<Insn>, mem: Insn, mem': Insn, rest: seq<Insn>, j: nat,
                      next: seq<NextRefs>, next': seq<NextRefs>)
    requires AllHarmless(t, before + [mem], rest, next) && |next'| == |next| && TableOk(rest, next) && Distinct(rest)
    requires j < |rest| && rest[j].Add? && Fresh(mem', Without(rest, j)) && Defs(mem', rest[j].res)
    requires forall r: nat :: r < |next| ==> next'[r].def == if Defs(mem', r) then At(mem'.uid) else next[r].def
    ensures AllHarmless(t, before, [mem'] + Without(rest, j), next')
  {
    hide Harmless, Fresh, EntryOk, DefRight, Defs, Without;
    forall r: nat | r < |next'|
      ensures Harmless(t, before, [mem'] + Without(rest, j), next'[r].def, r)
    {
      if Defs(mem', r) {
        HarmlessFirst(t, before, mem', Without(rest, j), r);
      } else {
        HarmlessLess(t, before, mem, rest, next[r].def, r);
        EntryDef(rest, next[r], r);
        DefWithout(rest, j, next[r].def, r);
        HarmlessWithout(t, before, rest, j, next[r].def, r);
        HarmlessBehind(t, before, mem', Without(rest, j), next[r].def, r);
      }
    }
  }

  /** The move in front of the reference is overlooked, but nothing in front adds its result and gives the reference's base. */
  lemma HarmlessAfterMove(t: Target, before: seq<Insn>, mem: Insn, ref: nat, new': Address, rest: seq<Insn>, c: Candidate,
                          next: seq<NextRefs>, next': seq<NextRefs>, move: Insn)
    requires Guarded(t, before + [mem], rest, next) && |next'| == |next| && TableOk(rest, next) && Distinct(rest)
    requires mem.Other? && ref < |mem.refs| && MayMerge(mem, ref, rest, c, new') && c.parsed.form.PostAdd?
    requires move.Move? && move.res == rest[c.j].res < |next|
    requires var mem' := WithAddress(mem, ref, new');
             && Fresh(mem', Without(rest, c.j)) && Fresh(move, [mem'] + Without(rest, c.j)) && Defs(mem', move.res)
             && forall r: nat :: r < |next| ==> next'[r].def == if Defs(mem', r) then At(mem'.uid) else next[r].def
    ensures AllHarmless(t, before, [move] + ([WithAddress(mem, ref, new')] + Without(rest, c.j)), next')
  {
    MayMergeParts(mem, ref, rest, c, new');
    hide Harmless, Fresh, EntryOk, DefRight, Defs, Without, MayMerge, WithAddress, AllHarmless, Safe;
    var mem' := WithAddress(mem, ref, new');
    var rest1 := [mem'] + Without(rest, c.j);
    HarmlessAfter(t, before, mem, mem', rest, c.j, next, next');
    forall r: nat | r < |next'|
      ensures Harmless(t, before, [move] + rest1, next'[r].def, r)
    {
      if r == move.res {
        HarmlessMove(t, before, mem, ref, new', rest, c, move);
      } else {
        assert Harmless(t, before, rest1, next'[r].def, r) by { HarmlessAt(t, before, rest1, next', r); }
        if Defs(mem', r) {
          NotedDef(mem', Without(rest, c.j), r);
        } else {
          EntryAt(rest, next, r);
          EntryDef(rest, next[r], r);
          DefWithout(rest, c.j, next[r].def, r);
          DefBehind(mem', Without(rest, c.j), next[r].def, r);
        }
        MentionsMove(move, r);
        HarmlessBehind(t, before, move, rest1, next'[r].def, r);
      }
    }
    AllAreHarmless(t, before, [move] + rest1, next');
  }

  lemma HarmlessAt(t: Target, before: seq<Insn>, rest: seq<Insn>, next: seq<NextRefs>, r: nat)
    requires AllHarmless(t, before, rest, next) && r < |next|
    ensures Harmless(t, before, rest, next[r].def, r)
  {}

  lemma AllAreHarmless(t: Target, before: seq<Insn>, rest: seq<Insn>, next: seq<NextRefs>)
    requires forall r: nat :: r < |next| ==> Harmless(t, before, rest, next[r].def, r)
    ensures AllHarmless(t, before, rest, next)
  {}

  lemma HarmlessMove(t: Target, before: seq<Insn>, mem: Insn, ref: nat, new': Address, rest: seq<Insn>, c: Candidate, move: Insn)
    requires Safe(t, before + [mem] + rest) && mem.Other? && ref < |mem.refs|
    requires MayMerge(mem, ref, rest, c, new') && c.parsed.form.PostAdd?
    requires move.Move? && move.res == rest[c.j].res && Fresh(move, [WithAddress(mem, ref, new')] + Without(rest, c.j))
    ensures Harmless(t, before, [move] + ([WithAddress(mem, ref, new')] + Without(rest, c.j)), At(mem.uid), move.res)
  {
    var mem', b := WithAddress(mem, ref, new'), move.res;
    var block, all := before + [mem] + rest, [move] + ([mem'] + Without(rest, c.j));
    GivesResult(mem, ref, rest, c, new');
    MayMergeParts(mem, ref, rest, c, new');
    MergesIncrements(OffsetFrom(mem.refs[ref].addr, c.parsed.reg0), new', c.parsed.reg1, false);
    AddressNarrower(mem, ref, new');
    hide Safe, MayMerge, WithAddress, PlainOn, Gives, AddsAnother, Added, Defs;
    assert all[0] == move && all[1] == mem';
    assert ([mem'] + Without(rest, c.j))[0] == mem';
    PosOfFront(move, [mem'] + Without(rest, c.j), mem.uid);
    PosOfFront(mem', Without(rest, c.j), mem.uid);
    assert Found(all, At(mem.uid)) == 1;
    if t.preModifyReg {
      forall i | 0 <= i < |before| && AddsAnother(before[i]) && Added(before[i]) == b
        ensures !PlainOn(mem', before[i].res)
      {
        NoPattern(t, block, i, |before|, |before| + 1 + c.j);
        assert block[i] == before[i] && block[|before|] == mem && block[|before| + 1 + c.j] == rest[c.j];
      }
    }
  }

  lemma NoPattern(t: Target, block: seq<Insn>, i: nat, j: nat, k: nat)
    requires Safe(t, block) && t.preModifyReg && i < j < k < |block|
    ensures !GivesAdded(block[i], block[j], block[k])
  {}

  lemma GivesResult(mem: Insn, ref: nat, rest: seq<Insn>, c: Candidate, new': Address)
    requires MayMerge(mem, ref, rest, c, new') && c.parsed.form.PostAdd?
    ensures Gives(rest[c.j], rest[c.j].res)
  {}

  lemma SafeAfter(t: Target, before: seq<Insn>, mem: Insn, ref: nat, new': Address, rest: seq<Insn>, j: nat, move: Insn)
    requires Safe(t, before + [mem] + rest) && mem.Other? && ref < |mem.refs| && !new'.Plain? && j < |rest| && move.Move?
    ensures var rest' := [WithAddress(mem, ref, new')] + Without(rest, j);
            Safe(t, before + rest') && Safe(t, before + ([move] + rest'))
  {
    AddressNarrower(mem, ref, new');
    hide Safe, Narrower, WithAddress;
    var mem', all := WithAddress(mem, ref, new'), [mem] + rest;
    var rest' := [mem'] + Without(rest, j);
    assert before + [mem] + rest == before + all;
    SafeReplaced(t, before, all, 0, mem');
    var head, tail := before + [mem'] + rest[..j], rest[j + 1..];
    assert before + all[0 := mem'] == head + [rest[j]] + tail;
    SafeDropped(t, head, rest[j], tail);
    assert head + tail == before + rest';
    SafeInserted(t, before, move, rest');
    assert before + [move] + rest' == before + ([move] + rest');
  }

  /** What the merged reference and the move are, and that they stay in the block's limits. */
  lemma ReadyAfter(mem: Insn, ref: nat, rest: seq<Insn>, c: Candidate, new': Address, registers: nat, move: Insn)
    requires mem.Other? && ref < |mem.refs| && !mem.jump && MayMerge(mem, ref, rest, c, new')
    requires RegsBelow(mem, registers) && forall k :: 0 <= k < |rest| ==> RegsBelow(rest[k], registers)
    requires move.Move? && move.res == rest[c.j].res && move.src == c.parsed.reg0
    ensures var add, mem' := rest[c.j], WithAddress(mem, ref, new');
            && add.Add? && add.res < registers && move.src < registers && OperandBelow(c.parsed.reg1, registers)
            && RegsBelow(move, registers) && mem'.Other? && mem'.uid == mem.uid && !mem'.jump && !IsJump(mem')
            && RegsBelow(mem', registers) && Uses(mem', add.res) && Defs(mem', add.res) && !HasPlain(mem', add.res)
            && (c.parsed.reg1.InReg? ==> Uses(mem', c.parsed.reg1.reg))
            && (c.parsed.form.PostAdd? ==> !Defs(mem', move.src) && !HasPlain(mem', move.src))
  {
    var add := rest[c.j];
    var mem' := WithAddress(mem, ref, new');
    assert RegsBelow(add, registers);
    MergesIncrements(OffsetFrom(mem.refs[ref].addr, c.parsed.reg0), new', c.parsed.reg1, false);
    AmountIsAdded(OffsetFrom(mem.refs[ref].addr, c.parsed.reg0), new', c.parsed.reg1, false);
    MemIsOther(mem, ref, c.parsed.reg0);
    OwnRegister(mem, ref, new');
    NewAddressBlock(mem, ref, new', registers);
    if c.parsed.form.PostAdd? {
      BaseGone(mem, ref, new', c.parsed.reg0);
    }
  }

  /** When a register is added, the increment is by that register. */
  lemma AmountIsAdded(off: Operand, new': Address, inc: Operand, pre: bool)
    requires Merges(off, new', inc, pre)
    ensures inc.InReg? ==> new'.amount == inc
  {
    if inc.InReg? {
      hide MergesAt;
      var z := if off.Const? then off.val else 0;
      assert MergesAt(new', inc, pre, 0, z, z);
      assert MergesAt(new', inc, pre, 0, z + 1, if off == inc then z + 1 else z);
      TwoAmounts(new', inc, pre, z, z, if off == inc then z + 1 else z);
    }
  }

  lemma TwoAmounts(new': Address, inc: Operand, pre: bool, y: int, z: int, z': int)
    requires !new'.Plain? && (new'.amount.Const? || new'.amount == inc)
    requires MergesAt(new', inc, pre, 0, y, z) && MergesAt(new', inc, pre, 0, y + 1, z')
    ensures new'.amount == inc
  {}

  /** The register whose only place was taken is not set any more, nor in a plain address. */
  lemma BaseGone(mem: Insn, ref: nat, new': Address, base: nat)
    requires mem.Other? && ref < |mem.refs| && OnlyIn(mem, ref, base) && new'.reg != base && !new'.Plain?
    ensures var mem' := WithAddress(mem, ref, new'); !Defs(mem', base) && !HasPlain(mem', base)
  {
    var refs' := WithAddress(mem, ref, new').refs;
    assert forall j :: 0 <= j < |refs'| && j != ref ==> refs'[j] == mem.refs[j];
  }

  lemma MayMergeParts(mem: Insn, ref: nat, rest: seq<Insn>, c: Candidate, new': Address)
    requires MayMerge(mem, ref, rest, c, new')
    ensures c.Candidate? && c.j < |rest| && rest[c.j].Add? && AddsTo(rest[c.j], c.parsed.reg0, c.parsed.reg1)
    ensures c.parsed.form.PostInc? <==> c.parsed.reg0 == rest[c.j].res
    ensures c.parsed.form.PostInc? || c.parsed.form.PostAdd?
    ensures c.parsed.form.PostAdd? ==> c.parsed.reg1 != InReg(rest[c.j].res)
    ensures new'.reg == rest[c.j].res && !new'.Plain?
  {}

  /** The addition behind joins the reference; when it was to another register, that register is used instead. */
  method MergeAfter(ghost t: Target, ghost before: seq<Insn>, mem: Insn, ref: nat, rest: seq<Insn>, c: Candidate, new': Address,
                    next: array<NextRefs>, nextUid: nat)
    returns (rest': seq<Insn>, nextUid': nat)
    requires Block(before + [mem] + rest, next.Length, nextUid) && TableOk(rest, next[..])
    requires mem.Other? && !mem.jump && ref < |mem.refs| && MayMerge(mem, ref, rest, c, new')
    requires Guarded(t, before + [mem], rest, next[..])
    modifies next
    ensures Scanning(before, rest', next[..], nextUid') && nextUid <= nextUid' && Guarded(t, before, rest', next[..])
    ensures Same(before + [mem] + rest, before + rest') && Adds(rest') < Adds(rest)
  {
    hide Safe, AllHarmless, Block, TableOk, MayMerge, Same, Adds, WithAddress, Noted, Uses, Defs, Mentions, HasPlain, RegsBelow, Fresh, AddsTo, IsJump,
      Distinct, JumpLast;
    ghost var entries := next[..];
    MayMergeParts(mem, ref, rest, c, new');
    var j, base, inc := c.j, c.parsed.reg0, c.parsed.reg1;
    var add := rest[j];
    var mem' := WithAddress(mem, ref, new');
    var move := Move(nextUid, add.res, base);
    BlockParts(before, mem, rest, next.Length, nextUid);
    ReadyAfter(mem, ref, rest, c, new', next.Length, move);
    AfterSame(before, mem, ref, rest, c, new', nextUid);
    BlockAfter(before, mem, mem', rest, j, next.Length, nextUid, move);
    WithoutAdds(rest, j);
    AddsOne(mem');
    AddsApart([mem'], Without(rest, j));
    SafeAfter(t, before, mem, ref, new', rest, j, move);
    nextUid' := nextUid;
    if c.parsed.form.PostInc? {
      if next[add.res].use == next[add.res].inc {
        next[add.res] := next[add.res].(inc := NoInsn);
      }
      next[add.res] := next[add.res].(use := NoInsn, def := At(mem.uid));
      NoteAdded(inc, mem.uid, add.uid, next);
      ghost var entries1 := next[..];
      NoteInsn(mem', false, next);
      rest' := [mem'] + Without(rest, j);
      TableAfter(mem', rest, c, entries, entries1, next[..]);
      NotedDefs(mem', add.res, entries, entries1, next[..]);
      HarmlessAfter(t, before, mem, mem', rest, j, entries, next[..]);
    } else {
      next[add.res] := next[add.res].(use := NoInsn, def := At(mem.uid));
      next[base] := next[base].(use := At(mem.uid));
      if next[base].use == next[base].inc || next[base].inc == At(add.uid) {
        next[base] := next[base].(inc := NoInsn);
      }
      NoteAdded(inc, mem.uid, add.uid, next);
      ghost var entries1 := next[..];
      NoteInsn(mem', false, next);
      rest', nextUid' := [move, mem'] + Without(rest, j), nextUid + 1;
      assert [move, mem'] + Without(rest, j) == [move] + ([mem'] + Without(rest, j));
      TableAfterMove(move, mem', rest, c, entries, entries1, next[..]);
      NotedDefs(mem', add.res, entries, entries1, next[..]);
      HarmlessAfterMove(t, before, mem, ref, new', rest, c, entries, next[..], move);
      AddsOne(move);
      AddsApart([move], [mem'] + Without(rest, j));
    }
  }

  /** A register that is now added in the address at `uid` is used there next. */
  method NoteAdded(inc: Operand, uid: nat, gone: nat, next: array<NextRefs>)
    requires OperandBelow(inc, next.Length)
    modifies next
    ensures forall r: nat :: r < next.Length && inc != InReg(r) ==> next[r] == old(next[r])
    ensures inc.InReg? ==> next[inc.reg].def == old(next[inc.reg].def) && next[inc.reg].use == At(uid)
    ensures inc.InReg? ==> next[inc.reg].inc == NoInsn || (next[inc.reg].inc == old(next[inc.reg].inc) && next[inc.reg].inc != At(gone))
  {
    if inc.InReg? {
      next[inc.reg] := next[inc.reg].(use := At(uid));
      if next[inc.reg].use == next[inc.reg].inc || next[inc.reg].inc == At(gone) {
        next[inc.reg] := next[inc.reg].(inc := NoInsn);
      }
    }
  }

  // ---- the scan ----

  /** A constant offset is not merged with an addition of a register. */
  lemma OffsetFits(t: Target, inc: Operand, off: Operand, size: nat, f: Form)
    requires Decision(t, StateOf(inc, size), StateOf(off, size), f) != Nothing && !IsPre(f)
    requires Fits(inc, off) || (off.Const? && off.val != 0 && inc.InReg?)
    ensures Fits(inc, off)
  {}

  lemma RightMerges(mem: Insn, ref: nat, rest: seq<Insn>, c: Candidate, t: Target, size: nat, addr: Address)
    requires c.Candidate? && Right(mem, ref, rest, c, t) && IncrementedReg(c, rest[c.j].res) == rest[c.j].res
    requires Decision(t, StateOf(c.parsed.reg1, size), StateOf(c.off, size), c.parsed.form) != Nothing
    requires Fits(c.parsed.reg1, c.off) ==> Merges(c.off, addr, c.parsed.reg1, IsPre(c.parsed.form))
    requires addr.reg == IncrementedReg(c, rest[c.j].res)
    ensures MayMerge(mem, ref, rest, c, addr)
  {
    OffsetFits(t, c.parsed.reg1, c.off, size, c.parsed.form);
    OffsetIs(mem.refs[ref].addr, c.memReg, c.off, mem, ref);
  }

  lemma OffsetIs(a: Address, r: nat, off: Operand, mem: Insn, ref: nat)
    requires OnlyIn(mem, ref, r) && mem.refs[ref].addr == a && Stands(a, r, off)
    ensures OffsetFrom(a, r) == off
  {}

  /** Where neither pattern stands, the register incremented is the result of the addition. */
  lemma ResultTaken(mem: Insn, ref: nat, rest: seq<Insn>, c: Candidate, t: Target, size: nat)
    requires c.Candidate? && Right(mem, ref, rest, c, t) && Safe(t, [mem] + rest)
    requires Decision(t, StateOf(c.parsed.reg1, size), StateOf(c.off, size), c.parsed.form) != Nothing
    ensures IncrementedReg(c, rest[c.j].res) == rest[c.j].res
  {
    OffsetFits(t, c.parsed.reg1, c.off, size, c.parsed.form);
    var add, block := rest[c.j], [mem] + rest;
    if c.parsed.form.PostInc? && c.memReg != add.res {
      assert mem.refs[ref].addr == Plain(c.memReg, Const(0));
      assert block[0] == mem && block[1 + c.j] == add && TakesAdded(block[0], block[1 + c.j]);
      assert false;
    }
  }

  /** The candidate for reference `ref`, if there is one, is accepted. */
  ghost predicate MergesBehind(mem: Insn, ref: nat, rest: seq<Insn>, c: Candidate, t: Target, accepts: Acceptance) {
    && mem.Other? && ref < |mem.refs| && c.Candidate? && c.j < |rest| && rest[c.j].Add?
    && Accepted(t, accepts, mem, ref, rest[c.j], c.parsed.reg1, c.off, mem.refs[ref].size, c.parsed.form, IncrementedReg(c, rest[c.j].res))
  }

  ghost predicate NoneBehind(mem: Insn, upto: nat, rest: seq<Insn>, next: seq<NextRefs>, t: Target, accepts: Acceptance)
    requires RegsBelow(mem, |next|) && forall k :: 0 <= k < |rest| ==> RegsBelow(rest[k], |next|)
  {
    mem.Other? ==>
      forall ref: nat :: ref < upto && ref < |mem.refs| && mem.refs[ref].addr.Plain? ==>
        var a := mem.refs[ref].addr;
        AddressBelow(a, |next|) && !MergesBehind(mem, ref, rest, FindInc(mem, ref, a.reg, a.amount, rest, next, t, true), t, accepts)
  }

  /** Tries the plain addresses of an instruction one after the other, until one can be merged with an addition. */
  method FindMem(insn: Insn, rest: seq<Insn>, next: array<NextRefs>, table: array3<GenForm>, t: Target, accepts: Acceptance)
    returns (ok: bool, ref: nat, c: Candidate, addr: Address)
    requires RegsBelow(insn, next.Length)
    requires Filled(table, t) && TableOk(rest, next[..]) && JumpLast(rest) && Distinct(rest)
    requires forall k :: 0 <= k < |rest| ==> RegsBelow(rest[k], next.Length)
    ensures ok ==> insn.Other? && ref < |insn.refs|
    ensures ok && Safe(t, [insn] + rest) ==> MayMerge(insn, ref, rest, c, addr)
    ensures !ok && insn.Other? ==> NoneBehind(insn, |insn.refs|, rest, next[..], t, accepts)
  {
    hide Filled, TableOk, MayMerge, FindInc, Right, Safe, Decision, StateOf, Merges, JumpLast, Distinct, Accepted;
    ok, ref, c, addr := false, 0, NoCandidate, Plain(0, Const(0));
    if insn.Other? {
      for i := 0 to |insn.refs|
        invariant NoneBehind(insn, i, rest, next[..], t, accepts)
      {
        var a := insn.refs[i].addr;
        if a.Plain? {
          assert AddressBelow(a, next.Length);
          c := FindInc(insn, i, a.reg, a.amount, rest, next[..], t, true);
          CandidateSound(insn, i, a.reg, a.amount, rest, next[..], t, true);
          if c.Candidate? {
            var reg := IncrementedReg(c, rest[c.j].res);
            ok, addr := TryMerge(table, t, accepts, insn, i, rest[c.j], c.parsed.reg1, c.off, insn.refs[i].size, c.parsed.form, reg);
            if ok {
              if Safe(t, [insn] + rest) {
                AcceptedIs(t, accepts, insn, i, rest[c.j], c.parsed.reg1, c.off, insn.refs[i].size, c.parsed.form, reg);
                ResultTaken(insn, i, rest, c, t, insn.refs[i].size);
                RightMerges(insn, i, rest, c, t, insn.refs[i].size, addr);
              }
              return true, i, c, addr;
            }
          }
        }
      }
    }
    return false, ref, c, addr;
  }

  lemma AcceptedIs(t: Target, accepts: Acceptance, mem: Insn, ref: nat, add: Insn, inc: Operand, off: Operand, size: nat, form: Form, reg: nat)
    requires Accepted(t, accepts, mem, ref, add, inc, off, size, form, reg)
    ensures Decision(t, StateOf(inc, size), StateOf(off, size), form) != Nothing
  {}

  /** The next use of the result of an addition, if there is one that the addition fits, accepts it. */
  ghost predicate MergesInFront(add: Insn, rest: seq<Insn>, k: nat, ref: nat, t: Target, accepts: Acceptance) {
    && add.Add? && k < |rest|
    && var p := Parse(add, true);
       && OnlyBase(rest[k], ref, add.res) && Matches(rest[k].refs[ref].addr, add.res, p.reg1)
       && var mem := rest[k].refs[ref];
          Accepted(t, accepts, rest[k], ref, add, p.reg1, mem.addr.amount, mem.size, p.form, add.res)
  }

  ghost predicate NoneInFront(add: Insn, rest: seq<Insn>, next: seq<NextRefs>, t: Target, accepts: Acceptance)
    requires RegsBelow(add, |next|)
  {
    add.Add? ==>
      add.res < |next| && OperandBelow(Parse(add, true).reg1, |next|)
      && forall ref: nat :: !MergesInFront(add, rest, UseCandidate(Parse(add, true), add.res, rest, next), ref, t, accepts)
  }

  /** Tries to merge an addition into the next use of its result. */
  method FindUse(add: Insn, rest: seq<Insn>, next: array<NextRefs>, table: array3<GenForm>, ghost t: Target, accepts: Acceptance)
    returns (ok: bool, k: nat, ref: nat, addr: Address)
    requires add.Add? && RegsBelow(add, next.Length) && Filled(table, t) && TableOk(rest, next[..])
    ensures ok ==> k < |rest| && k == UseCandidate(Parse(add, true), add.res, rest, next[..])
    ensures ok ==> OnlyBase(rest[k], ref, add.res) && addr.reg == add.res && rest[k].refs[ref].addr.amount.Const?
    ensures ok ==> Merges(rest[k].refs[ref].addr.amount, addr, Parse(add, true).reg1, true)
    ensures ok && Parse(add, true).reg1.InReg? ==> t.preModifyReg && rest[k].refs[ref].addr.amount == Const(0)
    ensures !ok ==> NoneInFront(add, rest, next[..], t, accepts)
  {
    hide Filled, TableOk, UseCandidate, Merges, OnlyBase, Parse, Accepted, Matches;
    ok, k, ref, addr := false, 0, 0, Plain(0, Const(0));
    var p := Parse(add, true);
    ParsedBelow(add, next.Length);
    k := UseCandidate(p, add.res, rest, next[..]);
    if k == |rest| {
      return;
    }
    var value;
    value, ref := FindAddress(rest[k], add.res, p.reg1);
    if value == -1 {
      BaseIsPlain(rest[k], ref, add.res);
      var mem := rest[k].refs[ref];
      ok, addr := TryMerge(table, t, accepts, rest[k], ref, add, p.reg1, mem.addr.amount, mem.size, p.form, add.res);
      OnlyPlace(rest[k], ref, add.res);
      MatchesFits(mem.addr, add.res, p.reg1);
      if ok {
        AcceptedIs(t, accepts, rest[k], ref, add, p.reg1, mem.addr.amount, mem.size, p.form, add.res);
        NoRegisterBefore(t, p.reg1, mem.addr.amount, mem.size, p.form);
      }
    }
  }

  lemma OnlyPlace(insn: Insn, k: nat, r: nat)
    requires OnlyBase(insn, k, r)
    ensures forall j: nat :: OnlyBase(insn, j, r) ==> j == k
  {}

  lemma MatchesFits(a: Address, r: nat, inc: Operand)
    ensures Matches(a, r, inc) ==> Fits(inc, a.amount)
  {}

  lemma ParsedBelow(add: Insn, n: nat)
    requires add.Add? && RegsBelow(add, n)
    ensures var p := Parse(add, true); OperandBelow(p.reg1, n) && add.res < n && IsPre(p.form)
  {}

  lemma BaseIsPlain(insn: Insn, k: nat, r: nat)
    requires OnlyBase(insn, k, r)
    ensures insn.Other? && k < |insn.refs| && insn.refs[k].addr.Plain? && insn.refs[k].addr.reg == r
  {}

  /** Before the reference only constant offsets are merged. */
  lemma NoRegisterBefore(t: Target, inc: Operand, off: Operand, size: nat, f: Form)
    requires Decision(t, StateOf(inc, size), StateOf(off, size), f) != Nothing && IsPre(f)
    ensures off.Const? && (inc.InReg? ==> t.preModifyReg)
  {}

  lemma UseCandidateIs(p: Parsed, res: nat, rest: seq<Insn>, next: seq<NextRefs>)
    requires res < |next| && OperandBelow(p.reg1, |next|) && UseCandidate(p, res, rest, next) < |rest|
    ensures next[res].use.At? && UseCandidate(p, res, rest, next) == PosOf(rest, next[res].use.uid)
    ensures p.form.PreInc? || p.reg1.Const?
    ensures p.reg1.InReg? ==> UseCandidate(p, res, rest, next) <= Found(rest, next[p.reg1.reg].use)
    ensures p.reg1.InReg? ==> UseCandidate(p, res, rest, next) <= Found(rest, next[p.reg1.reg].def)
  {}

  lemma BaseIsOnly(insn: Insn, k: nat, r: nat)
    requires OnlyBase(insn, k, r) && insn.refs[k].addr.amount.Const?
    ensures OnlyIn(insn, k, r) && insn.refs[k].addr == Plain(r, insn.refs[k].addr.amount)
  {}

  /** The scan stands between `insns[..i]` and `rest`: the two together still do what the block did. */
  ghost predicate Sound(block: seq<Insn>, i: nat, rest: seq<Insn>, next: seq<NextRefs>, nextUid: nat)
    requires i <= |block|
  {
    Scanning(block[..i], rest, next, nextUid) && Same(block, block[..i] + rest)
  }

  lemma SameTwice(a: seq<Insn>, b: seq<Insn>, c: seq<Insn>)
    requires Same(a, b) && Same(b, c)
    ensures Same(a, c)
  {
    hide Run;
    forall m, s
      ensures Run(m, a, s) == Run(m, c, s)
    {
      assert Run(m, a, s) == Run(m, b, s);
    }
  }

  /** Nothing is noted of a jump: it is the last instruction, and the table is still empty. */
  lemma JumpScanned(before: seq<Insn>, jump: Insn, rest: seq<Insn>, next: seq<NextRefs>, nextUid: nat)
    requires Block(before + [jump] + rest, |next|, nextUid) && TableOk(rest, next) && IsJump(jump)
    ensures Scanning(before, [jump] + rest, next, nextUid)
  {
    hide Uses, Defs, HasPlain;
    BlockParts(before, jump, rest, |next|, nextUid);
    assert rest == [];
    assert before + [jump] + rest == before + ([jump] + rest);
    forall r: nat | r < |next|
      ensures EntryOk([jump] + rest, next[r], r)
    {
      assert EntryOk(rest, next[r], r);
    }
  }

  /** One step of the scan: the instruction before the part scanned joins it, or is merged into it. */
  method ScanInsn(block: seq<Insn>, i: nat, rest: seq<Insn>, next: array<NextRefs>, table: array3<GenForm>, t: Target, accepts: Acceptance,
                  nextUid: nat)
    returns (rest': seq<Insn>, nextUid': nat, success: bool)
    requires 0 < i <= |block| && Filled(table, t) && Sound(block, i, rest, next[..], nextUid)
    requires Guarded(t, block[..i], rest, next[..])
    modifies next
    ensures nextUid <= nextUid' && Sound(block, i - 1, rest', next[..], nextUid') && Guarded(t, block[..i - 1], rest', next[..])
    ensures Adds(rest') <= Adds(rest) + (if block[i - 1].Add? then 1 else 0)
    ensures success ==> Adds(rest') < Adds(rest) + (if block[i - 1].Add? then 1 else 0)
    ensures !success ==> rest' == [block[i - 1]] + rest && (Exact(rest, t, old(next[..])) ==> Exact(rest', t, next[..]))
    ensures !success ==> InRange(block[i - 1], rest, next.Length) && NoMerge(block[i - 1], rest, old(next[..]), t, accepts)
  {
    hide Block, TableOk, EntryOk, MayMerge, Filled, Same, Adds, OnlyIn, OnlyBase, JumpLast, Distinct, RegsBelow, Safe, Merges, Parses,
      UseCandidate, Parse, AllHarmless, WayFree, JoinsBefore;
    var insn := block[i - 1];
    ghost var before, entries := block[..i - 1], next[..];
    assert block[..i] == before + [insn];
    BlockParts(before, insn, rest, next.Length, nextUid);
    AddsApart([insn], rest);
    AddsOne(insn);
    success, nextUid' := false, nextUid;
    if Parses(t, insn) {
      ParsesAdd(t, insn);
      var k, ref, addr;
      success, k, ref, addr := FindUse(insn, rest, next, table, t, accepts);
      if success {
        UseReady(t, before, insn, rest, next[..], k, ref);
        rest', nextUid' := MergeBefore(t, before, insn, rest, k, ref, addr, next, nextUid);
        SameTwice(block, before + [insn] + rest, before + rest');
        return;
      }
    } else if !IsJump(insn) {
      var ref, c, addr;
      assert before + [insn] + rest == before + ([insn] + rest);
      SafePart(t, before, [insn] + rest);
      success, ref, c, addr := FindMem(insn, rest, next, table, t, accepts);
      if success {
        NotJump(insn);
        rest', nextUid' := MergeAfter(t, before, insn, ref, rest, c, addr, next, nextUid);
        SameTwice(block, before + [insn] + rest, before + rest');
        return;
      }
    }
    rest' := [insn] + rest;
    assert before + [insn] + rest == before + rest';
    if IsJump(insn) {
      JumpScanned(before, insn, rest, entries, nextUid);
      HarmlessJump(t, before, insn, rest, entries, nextUid);
      ExactJump(insn, rest, t, entries);
    } else {
      var inc := Parses(t, insn);
      ParsesAdd(t, insn);
      NoteInsn(insn, inc, next);
      ScannedOne(before, insn, rest, inc, entries, next[..], nextUid);
      HarmlessScanned(t, before, insn, rest, entries, next[..]);
      ExactMore(insn, rest, t, entries, next[..]);
    }
  }

  ghost predicate InRange(insn: Insn, rest: seq<Insn>, registers: nat) {
    RegsBelow(insn, registers) && forall k :: 0 <= k < |rest| ==> RegsBelow(rest[k], registers)
  }

  /** The instruction is merged with nothing: as an addition before its next use, or as a reference with one behind it. */
  ghost predicate NoMerge(insn: Insn, rest: seq<Insn>, next: seq<NextRefs>, t: Target, accepts: Acceptance)
    requires InRange(insn, rest, |next|)
  {
    if Parses(t, insn) then NoneInFront(insn, rest, next, t, accepts)
    else insn.Other? && !insn.jump ==> NoneBehind(insn, |insn.refs|, rest, next, t, accepts)
  }

  lemma ExactMore(x: Insn, rest: seq<Insn>, t: Target, next: seq<NextRefs>, next': seq<NextRefs>)
    requires |next'| == |next| && !IsJump(x)
    requires forall r: nat :: r < |next| ==> next'[r] == Noted(x, Parses(t, x), next[r], r)
    ensures Exact(rest, t, next) ==> Exact([x] + rest, t, next')
  {
    hide Noted, IsJump, Parses;
    assert ([x] + rest)[1..] == rest && ([x] + rest)[0] == x;
  }

  lemma ExactJump(x: Insn, rest: seq<Insn>, t: Target, next: seq<NextRefs>)
    requires IsJump(x)
    ensures Exact(rest, t, next) ==> Exact([x] + rest, t, next)
  {
    hide Noted, IsJump;
    assert ([x] + rest)[1..] == rest && ([x] + rest)[0] == x;
  }

  lemma NotJump(insn: Insn)
    requires insn.Other? && !IsJump(insn)
    ensures !insn.jump
  {}

  lemma ParsesAdd(t: Target, insn: Insn)
    ensures Parses(t, insn) ==> insn.Add?
  {}

  lemma SafePart(t: Target, before: seq<Insn>, rest: seq<Insn>)
    requires Safe(t, before + rest)
    ensures Safe(t, rest)
    decreases |before|
  {
    if before == [] {
      assert before + rest == rest;
    } else {
      assert before + rest == [] + [before[0]] + (before[1..] + rest);
      SafeDropped(t, [], before[0], before[1..] + rest);
      assert [] + (before[1..] + rest) == before[1..] + rest;
      SafePart(t, before[1..], rest);
    }
  }

  lemma HarmlessScanned(t: Target, before: seq<Insn>, x: Insn, rest: seq<Insn>, next: seq<NextRefs>, next': seq<NextRefs>)
    requires AllHarmless(t, before + [x], rest, next) && |next'| == |next| && TableOk(rest, next) && Fresh(x, rest)
    requires forall r: nat :: r < |next| ==> next'[r].def == if Defs(x, r) then At(x.uid) else next[r].def
    ensures AllHarmless(t, before, [x] + rest, next')
  {
    hide Harmless, Fresh, EntryOk, DefRight, Defs;
    forall r: nat | r < |next'|
      ensures Harmless(t, before, [x] + rest, next'[r].def, r)
    {
      if Defs(x, r) {
        HarmlessFirst(t, before, x, rest, r);
      } else {
        HarmlessLess(t, before, x, rest, next[r].def, r);
        EntryDef(rest, next[r], r);
        HarmlessBehind(t, before, x, rest, next[r].def, r);
      }
    }
  }

  lemma HarmlessJump(t: Target, before: seq<Insn>, jump: Insn, rest: seq<Insn>, next: seq<NextRefs>, nextUid: nat)
    requires Block(before + [jump] + rest, |next|, nextUid) && IsJump(jump)
    ensures AllHarmless(t, before, [jump] + rest, next)
  {
    hide Defs;
    BlockParts(before, jump, rest, |next|, nextUid);
    assert rest == [];
  }

  /** An addition of another register finds its way free of that register: no overlooked move stands there. */
  lemma WayIsFree(t: Target, before: seq<Insn>, add: Insn, rest: seq<Insn>, next: seq<NextRefs>, k: nat)
    requires AllHarmless(t, before + [add], rest, next) && TableOk(rest, next) && JumpLast(rest) && t.preModifyReg
    requires AddsAnother(add) && Added(add) < |next| && k < |rest| && PlainOn(rest[k], add.res)
    requires k <= Found(rest, next[Added(add)].def)
    ensures Undefined(rest, k, Added(add))
  {
    var r := Added(add);
    EntryAt(rest, next, r);
    EntryDef(rest, next[r], r);
    HarmlessAt(t, before + [add], rest, next, r);
    hide Defs, PlainOn, AddsAnother, Added, IsJump, DefOk;
    assert (before + [add])[|before|] == add;
    forall j | 0 <= j < k
      ensures !Defs(rest[j], r)
    {
      assert DefSeen(rest, next[r].def, r, j);
      assert !Overlooked(rest, next[r].def, r, j);
    }
  }

  lemma AddedIs(add: Insn)
    requires RegisterIncrement(add)
    ensures AddsAnother(add) ==> Parse(add, true).reg1 == InReg(Added(add))
    ensures !AddsAnother(add) ==> Parse(add, true).reg1 == InReg(add.res)
  {}

  lemma IncrementIs(add: Insn)
    requires add.Add?
    ensures Parse(add, true).form.PreInc? && Parse(add, true).reg1.InReg? ==> RegisterIncrement(add)
    ensures Parse(add, true).form.PreInc? || Parse(add, true).reg1.Const? ==> JoinsBefore(add)
  {}

  lemma UnmentionedUndefined(rest: seq<Insn>, k: nat, r: nat)
    requires Unmentioned(rest, k, r)
    ensures Undefined(rest, k, r)
  {}

  /** What the merge before a reference needs to know of the addition. */
  lemma UseReady(t: Target, before: seq<Insn>, add: Insn, rest: seq<Insn>, next: seq<NextRefs>, k: nat, ref: nat)
    requires AllHarmless(t, before + [add], rest, next) && TableOk(rest, next) && JumpLast(rest)
    requires add.Add? && RegsBelow(add, |next|) && k == UseCandidate(Parse(add, true), add.res, rest, next) && k < |rest|
    requires OnlyBase(rest[k], ref, add.res) && rest[k].refs[ref].addr.amount.Const?
    requires Parse(add, true).reg1.InReg? ==> t.preModifyReg && rest[k].refs[ref].addr.amount == Const(0)
    ensures JoinsBefore(add) && add.res < |next| && next[add.res].use.At? && k == PosOf(rest, next[add.res].use.uid)
    ensures OnlyIn(rest[k], ref, add.res) && rest[k].refs[ref].addr == Plain(add.res, rest[k].refs[ref].addr.amount)
    ensures WayFree(Parse(add, true).reg1, rest, k, next)
  {
    ParsedBelow(add, |next|);
    BaseIsOnly(rest[k], ref, add.res);
    MemIsOther(rest[k], ref, add.res);
    hide RegsBelow, OnlyBase, OnlyIn, TableOk, AllHarmless, Parse, UseCandidate, AddsAnother, RegisterIncrement, JoinsBefore, Found,
      EntryOk, JumpLast, HasPlain, Unmentioned, Undefined, Added;
    var p := Parse(add, true);
    UseCandidateIs(p, add.res, rest, next);
    IncrementIs(add);
    if p.reg1.InReg? {
      AddedIs(add);
      EntryAt(rest, next, add.res);
      if AddsAnother(add) {
        assert PlainOn(rest[k], add.res);
        WayIsFree(t, before, add, rest, next, k);
      } else {
        NextUseFree(rest, next[add.res], k, ref, add.res);
        UnmentionedUndefined(rest, k, add.res);
      }
    }
  }

  lemma ScanStarts(block: seq<Insn>, next: seq<NextRefs>, nextUid: nat)
    requires Block(block, |next|, nextUid) && forall r :: 0 <= r < |next| ==> next[r] == NextRefs(NoInsn, NoInsn, NoInsn)
    ensures Sound(block, |block|, [], next, nextUid)
  {
    assert block[..|block|] + [] == block;
  }

  lemma ScanEnds(block: seq<Insn>, rest: seq<Insn>, next: seq<NextRefs>, nextUid: nat)
    requires Sound(block, 0, rest, next, nextUid)
    ensures Block(rest, |next|, nextUid) && Same(block, rest)
  {
    assert block[..0] + rest == rest;
  }

  lemma GuardStarts(t: Target, block: seq<Insn>, next: seq<NextRefs>)
    requires Safe(t, block)
    ensures Guarded(t, block[..|block|], [], next)
  {
    assert block[..|block|] + [] == block;
  }

  lemma GuardEnds(t: Target, block: seq<Insn>, rest: seq<Insn>, next: seq<NextRefs>)
    requires Guarded(t, block[..0], rest, next)
    ensures Safe(t, rest)
  {
    assert block[..0] + rest == rest;
  }

  lemma {:induction false} AddsUpTo(block: seq<Insn>, i: nat)
    requires 0 < i <= |block|
    ensures Adds(block[..i]) == Adds(block[..i - 1]) + if block[i - 1].Add? then 1 else 0
  {
    assert block[..i] == block[..i - 1] + [block[i - 1]];
    AddsApart(block[..i - 1], [block[i - 1]]);
    AddsOne(block[i - 1]);
  }

  /**
   * Merges additions into memory references, from the end of the block to its start, and again for as long as that
   * succeeds. From every state of every machine the block still accesses the same addresses in the same order and
   * leaves the same registers and memory, unless it holds *b before a += b, or *a between a += b and b <- c + d, on a
   * machine that modifies addresses by registers behind or before the access.
   */
  method MergeInBlock(block: seq<Insn>, registers: nat, table: array3<GenForm>, t: Target, accepts: Acceptance, nextUid: nat)
    returns (block': seq<Insn>, nextUid': nat)
    requires Block(block, registers, nextUid) && Filled(table, t) && Safe(t, block)
    ensures Block(block', registers, nextUid') && nextUid <= nextUid'
    ensures Same(block, block') && NothingLeft(block', 0, registers, t, accepts)
    decreases Adds(block)
  {
    hide NothingLeft, Exact, NoMerge, InRange, Block, Filled, Same, Adds, Sound, Guarded, Safe;
    var next := new NextRefs[registers](r => NextRefs(NoInsn, NoInsn, NoInsn));
    var i: nat, successes: nat := |block|, 0;
    block', nextUid' := [], nextUid;
    ScanStarts(block, next[..], nextUid);
    GuardStarts(t, block, next[..]);
    NoneScanned(block, registers, t, accepts, next[..]);
    AddsNone(block);
    while i > 0
      invariant i <= |block| && nextUid <= nextUid' && Filled(table, t)
      invariant Sound(block, i, block', next[..], nextUid') && Guarded(t, block[..i], block', next[..])
      invariant Adds(block[..i]) + Adds(block') <= Adds(block)
      invariant successes > 0 ==> Adds(block[..i]) + Adds(block') < Adds(block)
      invariant successes == 0 ==> block' == block[i..] && Exact(block', t, next[..]) && NothingLeft(block, i, registers, t, accepts)
    {
      var success;
      AddsUpTo(block, i);
      ghost var rest, entries := block', next[..];
      block', nextUid', success := ScanInsn(block, i, block', next, table, t, accepts, nextUid');
      if successes == 0 && !success {
        assert block[i - 1..] == [block[i - 1]] + block[i..];
        OneMoreLeft(block, i, rest, entries, registers, t, accepts);
      }
      if success {
        successes := successes + 1;
      }
      i := i - 1;
    }
    ScanEnds(block, block', next[..], nextUid');
    GuardEnds(t, block, block', next[..]);
    if successes > 0 {
      ghost var scanned := block';
      block', nextUid' := MergeInBlock(block', registers, table, t, accepts, nextUid');
      SameTwice(block, scanned, block');
    }
  }

  /** The table that a scan of these instructions leaves. */
  function TableOf(rest: seq<Insn>, t: Target, registers: nat): (next: seq<NextRefs>)
    ensures |next| == registers && forall r: nat :: r < registers ==> next[r] == EntryOf(rest, t, r)
  {
    seq(registers, r requires 0 <= r < registers => EntryOf(rest, t, r))
  }

  /** From instruction `i` on the scan of the block finds nothing to merge. */
  ghost predicate NothingLeft(block: seq<Insn>, i: nat, registers: nat, t: Target, accepts: Acceptance) {
    forall k: nat :: i <= k < |block| ==> NothingAt(block, k, registers, t, accepts)
  }

  ghost predicate NothingAt(block: seq<Insn>, k: nat, registers: nat, t: Target, accepts: Acceptance) {
    && k < |block| && InRange(block[k], block[k + 1..], registers)
    && NoMerge(block[k], block[k + 1..], TableOf(block[k + 1..], t, registers), t, accepts)
  }

  lemma NoneScanned(block: seq<Insn>, registers: nat, t: Target, accepts: Acceptance, next: seq<NextRefs>)
    requires |next| == registers && forall r :: 0 <= r < |next| ==> next[r] == NextRefs(NoInsn, NoInsn, NoInsn)
    ensures NothingLeft(block, |block|, registers, t, accepts) && Exact([], t, next) && block[|block|..] == []
  {}

  lemma OneMoreLeft(block: seq<Insn>, i: nat, rest: seq<Insn>, next: seq<NextRefs>, registers: nat, t: Target, accepts: Acceptance)
    requires 0 < i <= |block| && rest == block[i..] && Exact(rest, t, next) && |next| == registers
    requires InRange(block[i - 1], rest, registers) && NoMerge(block[i - 1], rest, next, t, accepts)
    requires NothingLeft(block, i, registers, t, accepts)
    ensures NothingLeft(block, i - 1, registers, t, accepts)
  {
    hide NoMerge, InRange;
    assert TableOf(rest, t, registers) == next;
    assert NothingAt(block, i - 1, registers, t, accepts);
  }

  /** Where nothing is left, an addition that is for a reference with a constant offset in front of it is not accepted there. */
  lemma NoneLeftBehind(block: seq<Insn>, registers: nat, t: Target, accepts: Acceptance, k: nat, ref: nat, r0: nat, off: int, j: nat, nextUid: nat)
    requires Block(block, registers, nextUid) && NothingLeft(block, 0, registers, t, accepts) && k < |block|
    requires block[k].Other? && !block[k].jump && ref < |block[k].refs| && block[k].refs[ref].addr == Plain(r0, Const(off))
    requires JoinsConst(block[k], ref, r0, off, block[k + 1..], t, j)
    ensures var add, p := block[k + 1 + j], AsFound(block[k + 1 + j], r0, off);
            !Accepted(t, accepts, block[k], ref, add, p.reg1, Const(off), block[k].refs[ref].size, p.form,
                      if p.form.PostAdd? then add.res else r0)
  {
    var rest := block[k + 1..];
    var next := TableOf(rest, t, registers);
    BlockTail(block, k, registers, nextUid);
    assert NothingAt(block, k, registers, t, accepts);
    assert RegsBelow(block[k], registers) && AddressBelow(block[k].refs[ref].addr, registers);
    hide FindInc, Accepted, JoinsConst, AsFound, Exact, Distinct, JumpLast, RegsBelow, Block, EntryOf;
    FindsConst(block[k], ref, r0, off, rest, next, t, true);
    JoinsAdds(block[k], ref, r0, off, rest, t, j);
    assert !MergesBehind(block[k], ref, rest, FindInc(block[k], ref, r0, Const(off), rest, next, t, true), t, accepts);
  }

  lemma JoinsAdds(mem: Insn, ref: nat, r0: nat, off: int, rest: seq<Insn>, t: Target, j: nat)
    requires JoinsConst(mem, ref, r0, off, rest, t, j)
    ensures j < |rest| && rest[j].Add? && !Parses(t, mem)
  {}

  lemma BlockTail(block: seq<Insn>, k: nat, registers: nat, nextUid: nat)
    requires Block(block, registers, nextUid) && k < |block|
    ensures var rest := block[k + 1..];
            RegsBelow(block[k], registers) && Distinct(rest) && JumpLast(rest) && forall i :: 0 <= i < |rest| ==> RegsBelow(rest[i], registers)
  {
    hide RegsBelow, IsJump;
    var rest := block[k + 1..];
    assert forall i :: 0 <= i < |rest| ==> rest[i] == block[k + 1 + i];
  }

  /** Nor is an addition accepted at a reference behind it that is its next use and that it fits. */
  lemma NoneLeftInFront(block: seq<Insn>, registers: nat, t: Target, accepts: Acceptance, i: nat, k: nat, ref: nat, nextUid: nat)
    requires Block(block, registers, nextUid) && NothingLeft(block, 0, registers, t, accepts) && i < |block| && Parses(t, block[i])
    requires UseFree(Parse(block[i], true), block[i].res, block[i + 1..], k)
    requires OnlyBase(block[i + 1 + k], ref, block[i].res) && Matches(block[i + 1 + k].refs[ref].addr, block[i].res, Parse(block[i], true).reg1)
    ensures var add, p, mem := block[i], Parse(block[i], true), block[i + 1 + k].refs[ref];
            !Accepted(t, accepts, block[i + 1 + k], ref, add, p.reg1, mem.addr.amount, mem.size, p.form, add.res)
  {
    var rest := block[i + 1..];
    var next := TableOf(rest, t, registers);
    BlockTail(block, i, registers, nextUid);
    assert NothingAt(block, i, registers, t, accepts);
    ParsedBelow(block[i], registers);
    hide Accepted, Exact, Distinct, JumpLast, RegsBelow, Block, EntryOf, UseCandidate, Parse, OnlyBase, Matches, UseFree;
    UseFreeIs(Parse(block[i], true), block[i].res, rest, k);
    UseIsFound(Parse(block[i], true), block[i].res, rest, next, t);
    assert !MergesInFront(block[i], rest, k, ref, t, accepts);
  }

  lemma UseFreeIs(p: Parsed, res: nat, rest: seq<Insn>, k: nat)
    requires UseFree(p, res, rest, k)
    ensures k < |rest| && k == FirstMention(rest, res)
  {}

  lemma AddsNone(block: seq<Insn>)
    ensures Adds(block[..|block|]) + Adds([]) == Adds(block)
  {
    assert block[..|block|] == block;
  }

  /** The pass over all the blocks of a function, with the table made for the machine. */
  method MergeInBlocks(blocks: seq<seq<Insn>>, registers: nat, t: Target, accepts: Acceptance, nextUid: nat) returns (blocks': seq<seq<Insn>>)
    requires forall b :: 0 <= b < |blocks| ==> Block(blocks[b], registers, nextUid) && Safe(t, blocks[b])
    ensures |blocks'| == |blocks| && forall b :: 0 <= b < |blocks| ==> Same(blocks[b], blocks'[b])
    ensures forall b :: 0 <= b < |blocks| ==> NothingLeft(blocks'[b], 0, registers, t, accepts)
  {
    hide Block, Same, Filled, Safe, NothingLeft;
    var table := InitDecisionTable(t);
    blocks' := [];
    var uid := nextUid;
    for b := 0 to |blocks|
      invariant |blocks'| == b && nextUid <= uid && Filled(table, t)
      invariant forall c :: 0 <= c < b ==> Same(blocks[c], blocks'[c]) && NothingLeft(blocks'[c], 0, registers, t, accepts)
    {
      BlockLater(blocks[b], registers, nextUid, uid);
      var block;
      block, uid := MergeInBlock(blocks[b], registers, table, t, accepts, uid);
      blocks' := blocks' + [block];
    }
  }

  lemma BlockLater(block: seq<Insn>, registers: nat, uid: nat, later: nat)
    requires Block(block, registers, uid) && uid <= later
    ensures Block(block, registers, later)
  {
    hide RegsBelow;
  }

  // ---- when a merge keeps the meaning ----

  /**
   * What is merged behind a reference runs alike if and only if the register incremented, which is the one taken from
   * the reference for an addition to its own result, is the result of the addition.
   */
  lemma BehindExact(mem: Insn, ref: nat, rest: seq<Insn>, c: Candidate, t: Target, size: nat, uid: nat)
    requires c.Candidate? && Right(mem, ref, rest, c, t)
    requires Decision(t, StateOf(c.parsed.reg1, size), StateOf(c.off, size), c.parsed.form) != Nothing
    ensures var add := rest[c.j];
            var gen := Decision(t, StateOf(c.parsed.reg1, size), StateOf(c.off, size), c.parsed.form);
            var addr := NewAddress(gen, IncrementedReg(c, add.res), size, c.parsed.reg1);
            Same([mem] + rest[..c.j] + [add], JoinedBehind(mem, ref, rest, c, addr, uid)) <==> IncrementedReg(c, add.res) == add.res
  {
    var add := rest[c.j];
    var gen := Decision(t, StateOf(c.parsed.reg1, size), StateOf(c.off, size), c.parsed.form);
    var addr := NewAddress(gen, IncrementedReg(c, add.res), size, c.parsed.reg1);
    OffsetFits(t, c.parsed.reg1, c.off, size, c.parsed.form);
    EntryMerges(t, c.parsed.reg1, c.off, size, c.parsed.form, IncrementedReg(c, add.res));
    if IncrementedReg(c, add.res) == add.res {
      RightMerges(mem, ref, rest, c, t, size, addr);
      JoinedSame(mem, ref, rest, c, addr, uid);
    } else {
      assert addr == Post(c.memReg, c.parsed.reg1);
      hide Right, Decision;
      assert CandidateOk(mem, ref, rest, c) && c.parsed.reg1 == InReg(c.memReg) by { RightIs(mem, ref, rest, c, t); }
      OtherIncremented(mem, ref, rest, c);
      assert JoinedBehind(mem, ref, rest, c, addr, uid) == [WithAddress(mem, ref, addr)] + rest[..c.j];
    }
  }

  lemma RightIs(mem: Insn, ref: nat, rest: seq<Insn>, c: Candidate, t: Target)
    requires c.Candidate? && Right(mem, ref, rest, c, t) && Fits(c.parsed.reg1, c.off)
    requires IncrementedReg(c, rest[c.j].res) != rest[c.j].res
    ensures CandidateOk(mem, ref, rest, c) && c.parsed.reg1 == InReg(c.memReg) && c.parsed.form.PostInc? && c.off.Const?
    ensures mem.Other? && ref < |mem.refs|
  {}

  /** When the register added is incremented instead, the result of the addition is not: it shows when it was zero. */
  lemma OtherIncremented(mem: Insn, ref: nat, rest: seq<Insn>, c: Candidate)
    requires c.Candidate? && CandidateOk(mem, ref, rest, c) && c.parsed.form.PostInc?
    requires c.parsed.reg1 == InReg(c.memReg) && c.memReg != rest[c.j].res && mem.Other? && ref < |mem.refs|
    ensures !Same([mem] + rest[..c.j] + [rest[c.j]], [WithAddress(mem, ref, Post(c.memReg, c.parsed.reg1))] + rest[..c.j])
  {
    var r, add, mid := c.memReg, rest[c.j], rest[..c.j];
    var b, mem' := add.res, WithAddress(mem, ref, Post(r, InReg(r)));
    var s := State(map[r := 1, b := 0], map[], []);
    ClearSlice(rest, c.j, b);
    LeavesSlice(mem, rest, c.j, InReg(r));
    NoMentionNoDef(mid, b);
    ReplacedDefs(mem, ref, Post(r, InReg(r)), b);
    hide Same, Step, Run, Defs, Mentions, WithAddress, Leaves;
    MemThenAdd(IDLE, mem, mid, b, add, InReg(r), s);
    RunApart(IDLE, [mem'], mid, s);
    RunOne(IDLE, mem', s);
    KeptBehind(IDLE, mem', mid, b, s);
    RunsDiffer([mem] + mid + [add], [mem'] + mid, s, b);
  }

  lemma ReplacedDefs(mem: Insn, ref: nat, new': Address, b: nat)
    requires mem.Other? && ref < |mem.refs| && !Defs(mem, b) && new'.reg != b
    ensures !Defs(WithAddress(mem, ref, new'), b)
  {
    var mem' := WithAddress(mem, ref, new');
    assert forall k :: 0 <= k < |mem.refs| && k != ref ==> mem'.refs[k] == mem.refs[k];
  }

  lemma RunsDiffer(a: seq<Insn>, b: seq<Insn>, s: State, r: nat)
    requires Get(Run(IDLE, a, s).regs, r) != Get(Run(IDLE, b, s).regs, r)
    ensures !Same(a, b)
  {
    hide Run;
  }

  /**
   * An addition of another register that is merged before a reference runs alike if and only if the move in front of
   * that reference, if there is one, does not set the register added: that move may have been overlooked.
   */
  lemma BeforeExact(add: Insn, rest: seq<Insn>, next: seq<NextRefs>, k: nat, ref: nat, new': Address)
    requires AddsAnother(add) && RegsBelow(add, |next|) && TableOk(rest, next) && JumpLast(rest)
    requires k == UseCandidate(Parse(add, true), add.res, rest, next) && k < |rest|
    requires OnlyBase(rest[k], ref, add.res) && rest[k].refs[ref].addr.amount.Const? && new'.reg == add.res
    requires Merges(rest[k].refs[ref].addr.amount, new', Parse(add, true).reg1, true)
    ensures Same([add] + rest[..k] + [rest[k]], rest[..k] + [WithAddress(rest[k], ref, new')])
            <==> !(k > 0 && rest[k - 1].Move? && rest[k - 1].res == Added(add))
  {
    var r, a, mid, mem := Added(add), add.res, rest[..k], rest[k];
    ParsedBelow(add, |next|);
    AddedIs(add);
    UseCandidateIs(Parse(add, true), a, rest, next);
    BaseIsOnly(mem, ref, a);
    NextUseFree(rest, next[a], k, ref, a);
    ClearSlice(rest, k, a);
    UpToMove(rest, next[r], r, k);
    IncrementAdds(add);
    hide Same, Merges, OnlyIn, OnlyBase, Mentions, Uses, Defs, TableOk, EntryOk, UseCandidate, AddsAnother, Parse, Added, RegsBelow;
    if k > 0 && rest[k - 1].Move? && rest[k - 1].res == r {
      assert mid == rest[..k - 1] + [rest[k - 1]];
      ClearSlice(rest, k - 1, r);
      MoveDiffers(add, r, rest[..k - 1], rest[k - 1], mem, ref, new');
    } else {
      assert Leaves(mid, InReg(r));
      PreIncSame(add, InReg(r), mid, mem, ref, new');
    }
  }

  lemma IncrementAdds(add: Insn)
    requires AddsAnother(add)
    ensures add.Add? && AddsTo(add, add.res, InReg(Added(add))) && Added(add) != add.res
  {}

  /** A register that is not noted before the reference is mentioned, if at all, by a move just in front of it. */
  lemma UpToMove(rest: seq<Insn>, e: NextRefs, r: nat, k: nat)
    requires EntryOk(rest, e, r) && k < |rest| && JumpLast(rest) && rest[k].Other?
    requires k <= Found(rest, e.use) && k <= Found(rest, e.def)
    ensures forall j :: 0 <= j < k && Defs(rest[j], r) ==> j == k - 1 && IsCopy(rest[j])
    ensures k > 0 ==> Unmentioned(rest, k - 1, r)
  {
    hide Uses, Defs, IsJump, UseOk, IncOk, DefOk, HasPlain, Bumps;
    forall j | 0 <= j < k && Defs(rest[j], r)
      ensures j == k - 1 && IsCopy(rest[j])
    {
      assert DefSeen(rest, e.def, r, j);
    }
    forall j | 0 <= j < k - 1
      ensures !Mentions(rest[j], r)
    {
      assert UseSeen(rest, e.use, r, j);
      BumpsDefines(rest[j], r);
    }
  }

  lemma SumBefore(add: Insn, r: nat, mid: seq<Insn>, mem: Insn, ref: nat, s: State)
    requires add.Add? && AddsTo(add, add.res, InReg(r)) && NoMention(mid, add.res) && OnlyIn(mem, ref, add.res)
    ensures Get(Run(IDLE, [add] + mid + [mem], s).regs, add.res) == Get(s.regs, add.res) + Get(s.regs, r)
  {
    NoMentionNoDef(mid, add.res);
    hide Step, Run, OnlyIn, Defs, Mentions;
    var s1 := Run(IDLE, [add], s);
    RunThree(IDLE, [add], mid, [mem], s);
    AdditionSets(IDLE, add, add.res, InReg(r), s);
    RunKeeps(IDLE, mid, s1, add.res);
    OnlyInKeeps(IDLE, mem, ref, Run(IDLE, mid, s1), add.res);
    RunOne(IDLE, mem, Run(IDLE, mid, s1));
  }

  /** Behind the move its result holds what its source held, whatever it was before. */
  lemma BehindMove(a: nat, r: nat, front: seq<Insn>, move: Insn, s: State, v: int)
    requires IsCopy(move) && move.res == r != a && NoMention(front, r) && NoMention(front + [move], a)
    ensures var t := Run(IDLE, [move], Run(IDLE, front, Set(s, r, v)));
            Get(t.regs, r) == Get(Run(IDLE, front, s).regs, move.src) && Get(t.regs, a) == Get(s.regs, a)
  {
    assert forall j :: 0 <= j < |front| ==> (front + [move])[j] == front[j];
    hide Step, Run, Defs, Mentions;
    RunUntouched(IDLE, front, s, r, v);
    MoveSets(IDLE, move, Set(Run(IDLE, front, s), r, v));
    NoMentionNoDef(front, a);
    RunKeeps(IDLE, front, s, a);
  }

  lemma SumLeft(a: nat, r: nat, mem: Insn, ref: nat, new': Address, t: State)
    requires r != a && OnlyIn(mem, ref, a) && Get(t.regs, a) == 0
    requires new'.reg == a && Merges(OffsetFrom(mem.refs[ref].addr, a), new', InReg(r), true)
    ensures Get(Run(IDLE, [WithAddress(mem, ref, new')], t).regs, a) == Get(t.regs, r)
  {
    MergesIncrements(OffsetFrom(mem.refs[ref].addr, a), new', InReg(r), true);
    OnlyInOther(mem, ref, a);
    hide Step, Run, OnlyIn, Merges, WithAddress;
    var w := Get(t.regs, r);
    MemAlike(IDLE, mem, ref, new', InReg(r), t, a, 0, w);
    MemPresent(IDLE, mem, ref, new', t);
    RunOne(IDLE, mem, Set(t, a, w));
    OnlyInKeeps(IDLE, mem, ref, Set(t, a, w), a);
  }

  lemma SumBehind(a: nat, r: nat, front: seq<Insn>, move: Insn, mem: Insn, ref: nat, new': Address, s: State, v: int)
    requires IsCopy(move) && move.res == r != a && NoMention(front, r) && NoMention(front + [move], a) && OnlyIn(mem, ref, a)
    requires new'.reg == a && Merges(OffsetFrom(mem.refs[ref].addr, a), new', InReg(r), true) && Get(s.regs, a) == 0
    ensures Get(Run(IDLE, front + [move] + [WithAddress(mem, ref, new')], Set(s, r, v)).regs, a)
            == Get(Run(IDLE, front, s).regs, move.src)
  {
    OnlyInOther(mem, ref, a);
    hide Step, Run, OnlyIn, Mentions, Merges, WithAddress, IsCopy;
    RunThree(IDLE, front, [move], [WithAddress(mem, ref, new')], Set(s, r, v));
    BehindMove(a, r, front, move, s, v);
    SumLeft(a, r, mem, ref, new', Run(IDLE, [move], Run(IDLE, front, Set(s, r, v))));
  }

  /** The sum of what the register held at the addition is not what it would be behind the move. */
  lemma MoveDiffers(add: Insn, r: nat, front: seq<Insn>, move: Insn, mem: Insn, ref: nat, new': Address)
    requires add.Add? && AddsTo(add, add.res, InReg(r)) && r != add.res && IsCopy(move) && move.res == r
    requires NoMention(front, r) && NoMention(front + [move], add.res) && OnlyIn(mem, ref, add.res)
    requires new'.reg == add.res && Merges(OffsetFrom(mem.refs[ref].addr, add.res), new', InReg(r), true)
    ensures !Same([add] + (front + [move]) + [mem], front + [move] + [WithAddress(mem, ref, new')])
  {
    var a, mid, zero := add.res, front + [move], State(map[], map[], []);
    var w := Get(Run(IDLE, front, Set(zero, a, 0)).regs, move.src);
    var s := Set(Set(zero, a, 0), r, w + 1);
    SumBefore(add, r, mid, mem, ref, s);
    SumBehind(a, r, front, move, mem, ref, new', Set(zero, a, 0), w + 1);
    RunsDiffer([add] + mid + [mem], mid + [WithAddress(mem, ref, new')], s, a);
  }

  // ---- additions of a register to its own result ----

  const IDLE: Machine := Machine((uid: nat, r: nat, inputs: Regs, addrs: seq<int>, mem: map<int, int>) => 0,
                                 (uid: nat, inputs: Regs, addrs: seq<int>, mem: map<int, int>) => mem)

  /** What the scan has noted of one instruction. */
  function NotedOnly(x: Insn, inc: bool, registers: nat): (next: seq<NextRefs>)
    ensures |next| == registers
    ensures forall r: nat :: r < registers ==> next[r] == Noted(x, inc, NextRefs(NoInsn, NoInsn, NoInsn), r)
  {
    seq(registers, r requires 0 <= r < registers => Noted(x, inc, NextRefs(NoInsn, NoInsn, NoInsn), r))
  }

  const MEM_1: Insn := Other(0, [Ref(Plain(1, Const(0)), 4)], {}, {}, false)
  const ADD_1: Insn := Add(1, 2, 2, InReg(1))

  lemma PostCandidate(t: Target)
    requires t.postModifyReg
    ensures RegisterIncrement(ADD_1) && Parses(t, ADD_1) && forall k :: 0 <= k < |[ADD_1]| ==> RegsBelow([ADD_1][k], 3)
    ensures FindInc(MEM_1, 0, 1, Const(0), [ADD_1], NotedOnly(ADD_1, true, 3), t, true)
            == Candidate(0, Parsed(PostInc, 2, InReg(1)), 1, Const(0))
  {
    var next := NotedOnly(ADD_1, true, 3);
    assert next[1] == NextRefs(At(1), At(1), NoInsn) && next[2] == NextRefs(At(1), At(1), At(1));
    assert PosOf([ADD_1], 1) == 0;
    assert OnlyIn(MEM_1, 0, 1);
    assert Parse(ADD_1, false) == Parsed(PostInc, 2, InReg(1));
    assert !Increments(MEM_1.refs, 1) && !Increments(MEM_1.refs, 2);
    assert !Conflicts(MEM_1, [ADD_1], next, 0, Parse(ADD_1, false));
  }

  /**
   * *r1; r2 += r1 is made *(r1 += r1): the addition is found by the register it adds, and that register is incremented
   * instead of its result.
   */
  lemma PostRegisterMisses(t: Target)
    requires t.postModifyReg
    ensures forall k :: 0 <= k < |[ADD_1]| ==> RegsBelow([ADD_1][k], 3)
    ensures var c := FindInc(MEM_1, 0, 1, Const(0), [ADD_1], NotedOnly(ADD_1, true, 3), t, true);
            && c.Candidate?
            && var gen := Decision(t, StateOf(c.parsed.reg1, 4), StateOf(c.off, 4), c.parsed.form);
               && gen != Nothing
               && !Same([MEM_1, ADD_1], [WithAddress(MEM_1, 0, NewAddress(gen, IncrementedReg(c, 2), 4, c.parsed.reg1))])
  {
    PostCandidate(t);
    hide FindInc, NotedOnly;
    PostDiffers();
  }

  lemma PostDiffers()
    ensures !Same([MEM_1, ADD_1], [WithAddress(MEM_1, 0, Post(1, InReg(1)))])
  {
    var mem' := WithAddress(MEM_1, 0, Post(1, InReg(1)));
    var s := State(map[1 := 1, 2 := 0], map[], []);
    RunBoth(IDLE, MEM_1, ADD_1, s);
    RunOne(IDLE, mem', s);
    assert mem' == Other(0, [Ref(Post(1, InReg(1)), 4)], {}, {}, false);
    OneRef(0, Plain(1, Const(0)), s);
    OneRef(0, Post(1, InReg(1)), s);
    assert Get(Run(IDLE, [MEM_1, ADD_1], s).regs, 2) == 1;
    assert Get(Run(IDLE, [mem'], s).regs, 2) == 0;
  }

  /** What a reference leaves in the registers. */
  function LeftAfter(a: Address, regs: Regs, left: Regs): Regs {
    if a.Plain? then left else left[a.reg := LeftBy(a, regs)]
  }

  lemma OneRef(uid: nat, a: Address, s: State)
    ensures Step(IDLE, Other(uid, [Ref(a, 4)], {}, {}, false), s)
            == State(LeftAfter(a, s.regs, s.regs), s.mem, s.trace + [AccessedIn(a, s.regs)])
  {
    var refs := [Ref(a, 4)];
    assert refs[1..] == [];
    assert Addresses(refs, s.regs) == [AccessedIn(a, s.regs)];
    assert Touched(refs, s.regs, s.regs) == LeftAfter(a, s.regs, s.regs);
    var regs := Touched(refs, s.regs, s.regs);
    assert (map r | r in regs.Keys + {} :: regs[r]) == regs;
  }

  lemma TwoRefs(uid: nat, a: Address, b: Address, s: State)
    ensures Step(IDLE, Other(uid, [Ref(a, 4), Ref(b, 4)], {}, {}, false), s)
            == State(LeftAfter(b, s.regs, LeftAfter(a, s.regs, s.regs)), s.mem,
                     s.trace + [AccessedIn(a, s.regs), AccessedIn(b, s.regs)])
  {
    var refs := [Ref(a, 4), Ref(b, 4)];
    assert refs[1..] == [Ref(b, 4)] && refs[1..][1..] == [];
    assert Addresses(refs[1..], s.regs) == [AccessedIn(b, s.regs)];
    assert Addresses(refs, s.regs) == [AccessedIn(a, s.regs), AccessedIn(b, s.regs)];
    var left := LeftAfter(a, s.regs, s.regs);
    assert Touched(refs[1..], s.regs, left) == LeftAfter(b, s.regs, left);
    var regs := Touched(refs, s.regs, s.regs);
    assert (map r | r in regs.Keys + {} :: regs[r]) == regs;
  }

  const MEM_2: Insn := Other(0, [Ref(Plain(1, InReg(4)), 4), Ref(Plain(3, Const(0)), 4)], {}, {}, false)
  const ADD_2: Insn := Add(1, 2, 1, InReg(4))
  const MERGED_2: Insn := Other(0, [Ref(Pre(2, InReg(4)), 4), Ref(Plain(3, Const(0)), 4)], {}, {}, false)
  const INC_2: Insn := Add(2, 3, 3, InReg(2))
  const MOVE_2: Insn := Move(5, 2, 1)

  lemma FirstMerge(t: Target)
    requires t.preModifyReg
    ensures forall k :: 0 <= k < |[ADD_2]| ==> RegsBelow([ADD_2][k], 5)
    ensures FindInc(MEM_2, 0, 1, InReg(4), [ADD_2], NotedOnly(ADD_2, true, 5), t, true)
            == Candidate(0, Parsed(PostAdd, 1, InReg(4)), 1, InReg(4))
    ensures Decision(t, IncReg, IncReg, PostAdd) == RegPre && MERGED_2 == WithAddress(MEM_2, 0, Pre(2, InReg(4)))
  {
    var next := NotedOnly(ADD_2, true, 5);
    assert next[1] == NextRefs(At(1), At(1), NoInsn) && next[2] == NextRefs(NoInsn, NoInsn, At(1));
    assert next[4] == NextRefs(At(1), At(1), NoInsn);
    assert PosOf([ADD_2], 1) == 0;
    assert !Increments(MEM_2.refs, 1) && !Increments(MEM_2.refs, 2) && !Increments(MEM_2.refs, 4);
    assert !InRefs(MEM_2.refs, 2);
    assert OnlyIn(MEM_2, 0, 1) && OnlyIn(MEM_2, 0, 4);
    assert !Conflicts(MEM_2, [ADD_2], next, 0, Parse(ADD_2, false));
    assert MERGED_2.refs == WithAddress(MEM_2, 0, Pre(2, InReg(4))).refs;
  }

  /** After that merge the entry for the result of the move still names the reference as its next definition. */
  lemma SecondCandidate(next: seq<NextRefs>)
    requires |next| == 5 && forall r: nat :: r < 5 && Mentions(MERGED_2, r) ==> next[r] == Noted(MERGED_2, false, next[r], r)
    ensures UseCandidate(Parse(INC_2, true), 3, [MOVE_2, MERGED_2], next) == 1 && OnlyBase(MERGED_2, 1, 3)
  {
    assert MERGED_2.refs[0].addr == Pre(2, InReg(4)) && MERGED_2.refs[1].addr == Plain(3, Const(0));
    assert InRefs(MERGED_2.refs, 2) && InRefs(MERGED_2.refs, 3) && Increments(MERGED_2.refs, 2);
    assert Mentions(MERGED_2, 2) && Mentions(MERGED_2, 3);
    assert [MOVE_2, MERGED_2][1..] == [MERGED_2];
    assert PosOf([MERGED_2], 0) == 0;
    assert PosOf([MOVE_2, MERGED_2], 0) == 1;
  }

  /**
   * r3 += r2; *(r1 + r4), *r3; r2 <- r1 + r4 is first made r3 += r2; r2 <- r1; *(r2 += r4), *r3 and then
   * r2 <- r1; *(r2 += r4), *(r3 += r2): the move in front of the reference is overlooked.
   */
  lemma PreRegisterMisses(t: Target)
    requires t.preModifyReg
    ensures RegisterIncrement(INC_2) && Parses(t, INC_2) && Decision(t, IncReg, IncZero, PreInc) == RegPre
    ensures !Same([INC_2, MEM_2, ADD_2], [MOVE_2, WithAddress(MERGED_2, 1, Pre(3, InReg(2)))])
  {
    var s := State(map[1 := 10, 2 := 5, 3 := 0, 4 := 0], map[], []);
    TraceBefore(s);
    TraceAfter(s);
    assert [10, 5][1] != [10, 10][1];
  }

  lemma TraceBefore(s: State)
    requires s == State(map[1 := 10, 2 := 5, 3 := 0, 4 := 0], map[], [])
    ensures Run(IDLE, [INC_2, MEM_2, ADD_2], s).trace == [10, 5]
  {
    var s1 := Step(IDLE, INC_2, s);
    assert [INC_2, MEM_2, ADD_2][1..] == [MEM_2, ADD_2];
    RunBoth(IDLE, MEM_2, ADD_2, s1);
    TwoRefs(0, Plain(1, InReg(4)), Plain(3, Const(0)), s1);
  }

  lemma TraceAfter(s: State)
    requires s == State(map[1 := 10, 2 := 5, 3 := 0, 4 := 0], map[], [])
    ensures Run(IDLE, [MOVE_2, WithAddress(MERGED_2, 1, Pre(3, InReg(2)))], s).trace == [10, 10]
  {
    var mem' := WithAddress(MERGED_2, 1, Pre(3, InReg(2)));
    assert mem' == Other(0, [Ref(Pre(2, InReg(4)), 4), Ref(Pre(3, InReg(2)), 4)], {}, {}, false);
    RunBoth(IDLE, MOVE_2, mem', s);
    TwoRefs(0, Pre(2, InReg(4)), Pre(3, InReg(2)), Step(IDLE, MOVE_2, s));
  }

  lemma RunBoth(m: Machine, a: Insn, b: Insn, s: State)
    ensures Run(m, [a, b], s) == Step(m, b, Step(m, a, s))
  {
    assert [a, b][1..] == [b];
    RunOne(m, b, Step(m, a, s));
  }
}
