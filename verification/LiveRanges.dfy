/** The blocks a branch target definition is live in, and the registers that are live there too. */
module LiveRanges {
  const ENTRY_BLOCK: nat := 0

  /** The predecessors of each block. */
  type Graph = seq<seq<nat>>

  ghost predicate Valid(g: Graph) {
    |g| > 0 && forall b, e :: 0 <= b < |g| && 0 <= e < |g[b]| ==> g[b][e] < |g|
  }

  // ---- walks and dominance ----

  ghost predicate Walk(g: Graph, p: seq<nat>, a: nat, b: nat) {
    && |p| > 0 && p[0] == a && p[|p| - 1] == b
    && (forall k :: 0 <= k < |p| ==> p[k] < |g|)
    && (forall k :: 0 <= k < |p| - 1 ==> p[k] in g[p[k + 1]])
  }

  /** Every way from the entry to `b` passes through `a`; nothing is asked where there is none. */
  ghost predicate Dominates(g: Graph, a: nat, b: nat) {
    forall p :: Walk(g, p, ENTRY_BLOCK, b) ==> a in p
  }

  ghost predicate DomsExact(g: Graph, doms: seq<set<nat>>) {
    && |doms| == |g|
    && forall a: nat, b: nat :: b < |g| ==> (a in doms[b] <==> a < |g| && Dominates(g, a, b))
  }

  lemma WalkJoin(g: Graph, p: seq<nat>, q: seq<nat>, a: nat, b: nat, c: nat)
    requires Walk(g, p, a, b) && Walk(g, q, b, c)
    ensures Walk(g, p + q[1..], a, c)
    ensures forall x :: x in p + q[1..] ==> x in p || x in q
  {
    var r := p + q[1..];
    forall k | 0 <= k < |r| - 1
      ensures r[k] in g[r[k + 1]]
    {
      if k >= |p| - 1 {
        assert r[k] == q[k - (|p| - 1)] && r[k + 1] == q[k + 1 - (|p| - 1)];
      }
    }
  }

  lemma DominatesTrans(g: Graph, a: nat, b: nat, c: nat)
    requires Dominates(g, a, b) && Dominates(g, b, c)
    ensures Dominates(g, a, c)
  {
    forall p | Walk(g, p, ENTRY_BLOCK, c)
      ensures a in p
    {
      var k :| 0 <= k < |p| && p[k] == b;
      var q := p[..k + 1];
      assert Walk(g, q, ENTRY_BLOCK, b);
      var j :| 0 <= j < |q| && q[j] == a;
      assert p[j] == a;
    }
  }

  // ---- live ranges ----

  /** One block dominates the range, and the range holds all the ways from it to each of its blocks. */
  ghost predicate LiveRange(g: Graph, range: set<nat>, head: nat) {
    && head in range
    && (forall b :: b in range ==> b < |g| && Dominates(g, head, b))
    && (forall b, e :: b in range && b < |g| && b != head && 0 <= e < |g[b]| ==> g[b][e] in range)
  }

  /** No way from the definition to a block of its range leaves the range. */
  lemma {:induction false} WaysStayInside(g: Graph, range: set<nat>, head: nat, p: seq<nat>, b: nat)
    requires LiveRange(g, range, head) && Walk(g, p, head, b) && b in range
    requires forall k :: 0 < k < |p| ==> p[k] != head
    ensures forall x :: x in p ==> x in range
  {
    if |p| > 1 {
      var last := |p| - 1;
      assert p[last - 1] in g[p[last]];
      var q := p[..last];
      assert Walk(g, q, head, p[last - 1]);
      WaysStayInside(g, range, head, q, p[last - 1]);
      assert p == q + [b];
    }
  }

  // ---- blocks between a range and a target ----

  /** A way from `b` to the target whose blocks before the target, after `b`, are outside `base`. */
  ghost predicate Leads(g: Graph, base: set<nat>, q: seq<nat>, b: nat, target: nat) {
    Walk(g, q, b, target) && forall k :: 1 <= k < |q| - 1 ==> q[k] !in base
  }

  ghost predicate CanLead(g: Graph, base: set<nat>, b: nat, target: nat) {
    exists q :: Leads(g, base, q, b, target)
  }

  /** `b` lies between: outside `base`, on a way to the target that stays outside up to the target. */
  ghost predicate Between(g: Graph, base: set<nat>, b: nat, target: nat) {
    b !in base && CanLead(g, base, b, target)
  }

  lemma LeadsBack(g: Graph, base: set<nat>, q: seq<nat>, b: nat, target: nat, a: nat)
    requires Valid(g) && Leads(g, base, q, b, target) && a in g[b] && (b !in base || |q| == 1)
    ensures Leads(g, base, [a] + q, a, target)
  {
    var r := [a] + q;
    assert a < |g| by {
      var e :| 0 <= e < |g[b]| && g[b][e] == a;
    }
    forall k | 0 <= k < |r| - 1
      ensures r[k] in g[r[k + 1]]
    {
      if k > 0 {
        assert r[k] == q[k - 1] && r[k + 1] == q[k];
      }
    }
  }

  /** Whatever lies between is dominated by what dominates the target from inside `base`. */
  lemma BetweenDominated(g: Graph, base: set<nat>, b: nat, target: nat, x: nat)
    requires Between(g, base, b, target) && x in base && target != x && Dominates(g, x, target)
    ensures Dominates(g, x, b)
  {
    var q :| Leads(g, base, q, b, target);
    forall p | Walk(g, p, ENTRY_BLOCK, b)
      ensures x in p
    {
      WalkJoin(g, p, q, ENTRY_BLOCK, b, target);
      assert x !in q;
    }
  }

  /** A set closed towards predecessors outside `base`, with the target's own, holds all that lies between. */
  lemma {:induction false} ClosedHoldsBetween(g: Graph, base: set<nat>, range: set<nat>, q: seq<nat>, b: nat, target: nat)
    requires Leads(g, base, q, b, target) && |q| > 1
    requires forall e :: 0 <= e < |g[target]| ==> g[target][e] in range
    requires forall c, e :: c in range && c !in base && c < |g| && 0 <= e < |g[c]| ==> g[c][e] in range
    ensures b in range
  {
    var next := q[1];
    assert b in g[next];
    if |q| > 2 {
      assert Leads(g, base, q[1..], next, target);
      ClosedHoldsBetween(g, base, range, q[1..], next, target);
      assert next !in base;
    }
  }

  // ---- growing a range ----

  /** The registers live in each block, and at its end. */
  datatype Liveness = Liveness(inBlock: seq<set<nat>>, atEnd: seq<set<nat>>)

  ghost predicate LiveIn(live: Liveness, b: nat, r: nat) {
    && b < |live.inBlock| && b < |live.atEnd|
    && (r in live.inBlock[b] || r in live.atEnd[b])
  }

  /** `regs'` is `regs` with all that is live in the blocks added to `base`. */
  ghost predicate RegsAdded(live: Liveness, base: set<nat>, range: set<nat>, regs: set<nat>, regs': set<nat>) {
    forall r :: r in regs' <==> r in regs || exists b: nat :: b in range && b !in base && LiveIn(live, b, r)
  }

  /** The worklist and the range so far: what is still owed is on the worklist, and all of it lies between. */
  ghost predicate Growing(g: Graph, base: set<nat>, range: set<nat>, worklist: seq<nat>, target: nat) {
    && base <= range
    && (forall b: nat :: b in range && b !in base ==> b < |g| && Between(g, base, b, target))
    && (forall k :: 0 <= k < |worklist| ==> worklist[k] < |g| && CanLead(g, base, worklist[k], target))
    && (forall b: nat, e :: b in range && b !in base && b < |g| && 0 <= e < |g[b]| ==> g[b][e] in range || g[b][e] in worklist)
  }

  lemma GrowingSkips(g: Graph, base: set<nat>, range: set<nat>, worklist: seq<nat>, target: nat)
    requires Growing(g, base, range, worklist, target) && worklist != [] && worklist[|worklist| - 1] in range
    ensures Growing(g, base, range, worklist[..|worklist| - 1], target)
  {
    var rest, bb := worklist[..|worklist| - 1], worklist[|worklist| - 1];
    assert worklist == rest + [bb];
    assert forall k :: 0 <= k < |rest| ==> rest[k] == worklist[k];
  }

  lemma GrowingAdds(g: Graph, base: set<nat>, range: set<nat>, worklist: seq<nat>, target: nat, preds: seq<nat>)
    requires Valid(g) && Growing(g, base, range, worklist, target) && worklist != []
    requires var bb := worklist[|worklist| - 1];
             && bb !in range && (forall x :: x in preds ==> x in g[bb])
             && (forall e :: 0 <= e < |g[bb]| ==> g[bb][e] in range + {bb} || g[bb][e] in preds)
    ensures var bb := worklist[|worklist| - 1];
            Growing(g, base, range + {bb}, worklist[..|worklist| - 1] + preds, target)
  {
    var rest, bb := worklist[..|worklist| - 1], worklist[|worklist| - 1];
    assert worklist == rest + [bb];
    var q :| Leads(g, base, q, bb, target);
    var worklist' := rest + preds;
    forall k | 0 <= k < |worklist'|
      ensures worklist'[k] < |g| && CanLead(g, base, worklist'[k], target)
    {
      if k < |rest| {
        assert worklist'[k] == worklist[k];
      } else {
        var x := worklist'[k];
        assert x in preds;
        LeadsBack(g, base, q, bb, target, x);
        assert Leads(g, base, [x] + q, x, target) && x == ([x] + q)[0];
      }
    }
  }

  lemma RegsMore(live: Liveness, base: set<nat>, range: set<nat>, regs: set<nat>, regs1: set<nat>, bb: nat)
    requires RegsAdded(live, base, range, regs, regs1) && base <= range && bb !in range
    requires bb < |live.inBlock| == |live.atEnd|
    ensures RegsAdded(live, base, range + {bb}, regs, regs1 + live.inBlock[bb] + live.atEnd[bb])
  {
    var range', regs2 := range + {bb}, regs1 + live.inBlock[bb] + live.atEnd[bb];
    forall r
      ensures r in regs2 <==> r in regs || exists b: nat :: b in range' && b !in base && LiveIn(live, b, r)
    {
      if r in regs1 && r !in regs {
        var b: nat :| b in range && b !in base && LiveIn(live, b, r);
        assert b in range';
      }
      if r in live.inBlock[bb] || r in live.atEnd[bb] {
        assert LiveIn(live, bb, r);
      }
    }
  }

  /** Adds all that lies between the range and the blocks on the worklist. */
  method GrowRange(g: Graph, live: Liveness, base: set<nat>, regs: set<nat>, start: seq<nat>, ghost target: nat)
    returns (range: set<nat>, regs': set<nat>)
    requires Valid(g) && |live.inBlock| == |live.atEnd| == |g|
    requires Growing(g, base, base, start, target)
    ensures Growing(g, base, range, [], target)
    ensures base <= range && forall k :: 0 <= k < |start| ==> start[k] in range
    ensures (forall k :: 0 <= k < |start| ==> start[k] in base) ==> range == base
    ensures RegsAdded(live, base, range, regs, regs')
  {
    hide Growing, RegsAdded, Between, Leads, CanLead;
    var worklist: seq<nat> := start;
    range, regs' := base, regs;
    NoRegsAdded(live, base, regs);
    GrowingBlocks(g, base, range, worklist, target);
    while worklist != []
      invariant Growing(g, base, range, worklist, target)
      invariant base <= range && forall b: nat :: b in range && b !in base ==> b < |g|
      invariant forall k :: 0 <= k < |worklist| ==> worklist[k] < |g|
      invariant forall k :: 0 <= k < |start| ==> start[k] in range || start[k] in worklist
      invariant (forall k :: 0 <= k < |start| ==> start[k] in base) ==>
                  range == base && forall k :: 0 <= k < |worklist| ==> worklist[k] in base
      invariant RegsAdded(live, base, range, regs, regs')
      decreases |BlocksBelow(|g|) - range|, |worklist|
    {
      var bb: nat := worklist[|worklist| - 1];
      ghost var before: seq<nat> := worklist;
      assert worklist == worklist[..|worklist| - 1] + [bb];
      worklist := worklist[..|worklist| - 1];
      if bb !in range {
        RegsMore(live, base, range, regs, regs', bb);
        FewerLeft(g, range, bb);
        ghost var range0 := range;
        range := range + {bb};
        regs' := regs' + live.inBlock[bb] + live.atEnd[bb];
        var preds := NewPreds(g[bb], range);
        GrowingAdds(g, base, range0, before, target, preds);
        worklist := worklist + preds;
        GrowingBlocks(g, base, range, worklist, target);
      } else {
        GrowingSkips(g, base, range, before, target);
      }
    }
  }

  lemma GrowingBlocks(g: Graph, base: set<nat>, range: set<nat>, worklist: seq<nat>, target: nat)
    requires Growing(g, base, range, worklist, target)
    ensures base <= range && forall b: nat :: b in range && b !in base ==> b < |g|
    ensures forall k :: 0 <= k < |worklist| ==> worklist[k] < |g|
  {}

  lemma NoRegsAdded(live: Liveness, base: set<nat>, regs: set<nat>)
    ensures RegsAdded(live, base, base, regs, regs)
  {}

  ghost function BlocksBelow(n: nat): (blocks: set<nat>)
    ensures forall b: nat :: b in blocks <==> b < n
  {
    if n == 0 then {} else BlocksBelow(n - 1) + {n - 1}
  }

  lemma FewerLeft(g: Graph, range: set<nat>, bb: nat)
    requires bb < |g| && bb !in range
    ensures |BlocksBelow(|g|) - (range + {bb})| < |BlocksBelow(|g|) - range|
  {
    var now, later := BlocksBelow(|g|) - range, BlocksBelow(|g|) - (range + {bb});
    assert now == later + {bb} && bb !in later;
  }

  /** The predecessors not yet in the range. */
  method NewPreds(preds: seq<nat>, range: set<nat>) returns (r: seq<nat>)
    ensures forall x :: x in r ==> x in preds
    ensures forall e :: 0 <= e < |preds| ==> preds[e] in range || preds[e] in r
  {
    r := [];
    for e := 0 to |preds|
      invariant forall x :: x in r ==> x in preds
      invariant forall k :: 0 <= k < e ==> preds[k] in range || preds[k] in r
    {
      if preds[e] !in range {
        r := r + [preds[e]];
      }
    }
  }

  // ---- one more block ----

  /** The blocks gained when the added block is below the head: it, and what lies between. */
  ghost predicate GainsBelow(g: Graph, range: set<nat>, added: nat, b: nat) {
    added !in range && Between(g, range, b, added)
  }

  /** The blocks gained when the added block is above the head: it, and what lies between it and the head. */
  ghost predicate GainsAbove(g: Graph, range: set<nat>, head: nat, added: nat, b: nat) {
    b == added || Between(g, range + {added}, b, head)
  }

  lemma StartBelow(g: Graph, range: set<nat>, added: nat)
    requires added < |g|
    ensures Growing(g, range, range, [added], added)
    ensures added !in range ==> GainsBelow(g, range, added, added)
  {
    assert Leads(g, range, [added], added, added);
  }

  lemma StartAbove(g: Graph, range: set<nat>, head: nat, added: nat)
    requires Valid(g) && head < |g|
    ensures Growing(g, range + {added}, range + {added}, g[head], head)
  {
    var base := range + {added};
    forall k | 0 <= k < |g[head]|
      ensures g[head][k] < |g| && CanLead(g, base, g[head][k], head)
    {
      assert Leads(g, base, [g[head][k], head], g[head][k], head);
    }
  }

  lemma ClosedAll(g: Graph, base: set<nat>, range: set<nat>, target: nat, b: nat)
    requires Growing(g, base, range, [], target) && Between(g, base, b, target)
    requires target < |g| && b != target && forall e :: 0 <= e < |g[target]| ==> g[target][e] in range
    ensures b in range
  {
    var q :| Leads(g, base, q, b, target);
    ClosedHoldsBetween(g, base, range, q, b, target);
  }

  lemma GrownBelow(g: Graph, range: set<nat>, range': set<nat>, head: nat, added: nat)
    requires Growing(g, range, range', [], added) && added in range' && added < |g|
    requires added in range ==> range' == range
    requires head in range && added != head && Dominates(g, head, added)
    ensures forall b: nat :: b in range' <==> b in range || GainsBelow(g, range, added, b)
    ensures LiveRange(g, range, head) ==> LiveRange(g, range', head)
  {
    hide Between, Leads, Dominates;
    if added !in range {
      forall b: nat | Between(g, range, b, added)
        ensures b in range'
      {
        if b != added {
          ClosedAll(g, range, range', added, b);
        }
      }
      forall b: nat | b in range' && b !in range
        ensures Dominates(g, head, b)
      {
        BetweenDominated(g, range, b, added, head);
      }
    }
  }

  lemma GrownAbove(g: Graph, range: set<nat>, range': set<nat>, head: nat, added: nat)
    requires Growing(g, range + {added}, range', [], head) && head < |g| && added < |g|
    requires forall e :: 0 <= e < |g[head]| ==> g[head][e] in range'
    requires head in range && added != head && Dominates(g, added, head)
    ensures forall b: nat :: b in range' <==> b in range || GainsAbove(g, range, head, added, b)
    ensures LiveRange(g, range, head) ==> LiveRange(g, range', added)
  {
    hide Between, Leads, Dominates;
    var base := range + {added};
    forall b: nat | Between(g, base, b, head)
      ensures b in range'
    {
      BetweenOutside(g, base, b, head);
      ClosedAll(g, base, range', head, b);
    }
    if LiveRange(g, range, head) {
      forall b: nat | b in range'
        ensures b < |g| && Dominates(g, added, b)
      {
        if b == added {
          DominatesItself(g, added);
        } else if b in range {
          DominatesTrans(g, added, head, b);
        } else {
          BetweenDominated(g, base, b, head, added);
        }
      }
    }
  }

  lemma BetweenOutside(g: Graph, base: set<nat>, b: nat, target: nat)
    requires Between(g, base, b, target)
    ensures b !in base
  {}

  lemma DominatesItself(g: Graph, a: nat)
    ensures Dominates(g, a, a)
  {}

  /** The registers added besides those of the blocks gained: what the order of head and added block asks for. */
  ghost function ExtraRegs(live: Liveness, head: nat, added: nat, full: bool, below: bool): set<nat>
    requires head < |live.inBlock| == |live.atEnd| && added < |live.inBlock|
  {
    if below then if added == head && full then live.inBlock[added] else {}
    else live.inBlock[head] + live.atEnd[added] + if full then live.inBlock[added] else {}
  }

  /**
   * Makes a range hold one more block, below or above its head, with all that lies between, and keeps the set of
   * registers live in it. Below its old head the range keeps that head; otherwise the added block is the new one.
   */
  method AugmentLiveRange(g: Graph, live: Liveness, doms: seq<set<nat>>, range: set<nat>, regs: set<nat>,
                          head: nat, added: nat, full: bool)
    returns (range': set<nat>, regs': set<nat>)
    requires Valid(g) && DomsExact(g, doms) && |live.inBlock| == |live.atEnd| == |g|
    requires head < |g| && added < |g| && head in range
    requires head in doms[added] || added in doms[head]
    ensures range <= range' && added in range'
    ensures head in doms[added] && added == head ==> range' == range
    ensures head in doms[added] && added != head ==>
              forall b: nat :: b in range' <==> b in range || GainsBelow(g, range, added, b)
    ensures head !in doms[added] ==> forall b: nat :: b in range' <==> b in range || GainsAbove(g, range, head, added, b)
    ensures LiveRange(g, range, head) ==> LiveRange(g, range', if head in doms[added] then head else added)
    ensures RegsAdded(live, if head in doms[added] then range else range + {added}, range',
                      regs + ExtraRegs(live, head, added, full, head in doms[added]), regs')
  {
    hide Growing, RegsAdded, Between, Leads, CanLead, Dominates, LiveRange, GainsBelow, GainsAbove;
    var worklist: seq<nat>;
    range', regs' := range, regs;
    if head in doms[added] {
      if added == head {
        if full {
          regs' := regs' + live.inBlock[added];
        }
        NoRegsAdded(live, range, regs');
        assert regs' == regs + ExtraRegs(live, head, added, full, true);
        return;
      }
      StartBelow(g, range, added);
      worklist := [added];
      assert worklist[0] == added;
      assert regs + {} == regs;
      range', regs' := GrowRange(g, live, range', regs', worklist, added);
      GrownBelow(g, range, range', head, added);
    } else {
      regs' := regs' + live.inBlock[head];
      range' := range' + {added};
      regs' := regs' + live.atEnd[added];
      if full {
        regs' := regs' + live.inBlock[added];
      }
      assert regs' == regs + ExtraRegs(live, head, added, full, false);
      StartAbove(g, range, head, added);
      worklist := g[head];
      range', regs' := GrowRange(g, live, range', regs', worklist, head);
      DominatesAtAll(g, doms, head, added);
      GrownAbove(g, range, range', head, added);
    }
  }

  lemma DominatesAtAll(g: Graph, doms: seq<set<nat>>, head: nat, added: nat)
    requires DomsExact(g, doms) && head < |g| && added < |g| && head !in doms[added]
    ensures added != head
  {
    DominatesItself(g, head);
  }

  // ---- one definition ----

  /** A use: its block, and whether it is the jump that ends the definition's own block. */
  datatype Use = Use(bb: nat, endsBlock: bool)

  /** A definition with its uses, its register, and the blocks it is live in once they are known. */
  class Web {
    var bb: nat
    var btr: nat
    var cost: nat
    var uses: seq<Use>
    var otherUsesBeforeDef: bool
    var otherUsesAfterUse: bool
    var ownEnd: bool
    var hasRange: bool
    var liveRange: set<nat>

    constructor (bb: nat, btr: nat, cost: nat, uses: seq<Use>, before: bool, after: bool)
      ensures this.bb == bb && this.btr == btr && this.cost == cost && this.uses == uses && !hasRange && !ownEnd
      ensures otherUsesBeforeDef == before && otherUsesAfterUse == after
    {
      this.bb, this.btr, this.cost, this.uses := bb, btr, cost, uses;
      otherUsesBeforeDef, otherUsesAfterUse := before, after;
      ownEnd, hasRange, liveRange := false, false, {};
    }
  }

  ghost predicate UsesDominated(g: Graph, uses: seq<Use>, bb: nat) {
    forall k :: 0 <= k < |uses| ==> uses[k].bb < |g| && Dominates(g, bb, uses[k].bb)
  }

  /** Each register of `regs` is live in the range, or at the end of one of its blocks. */
  ghost predicate OnlyLive(live: Liveness, range: set<nat>, regs: set<nat>) {
    forall r :: r in regs ==> exists b: nat :: b in range && LiveIn(live, b, r)
  }

  /** Whatever is live at the end of a block of the range other than its head is in `regs`. */
  ghost predicate CoversEnds(live: Liveness, range: set<nat>, head: nat, regs: set<nat>) {
    forall b: nat, r :: b in range && b != head && b < |live.atEnd| && r in live.atEnd[b] ==> r in regs
  }

  /** What is live in the block of the definition is all taken, or what is live at its end, when others may share it. */
  function OwnBlock(live: Liveness, bb: nat, full: bool): set<nat>
    requires bb < |live.inBlock| == |live.atEnd|
  {
    if full then live.inBlock[bb] else live.atEnd[bb]
  }

  lemma OnlyLiveMore(live: Liveness, base: set<nat>, range: set<nat>, regs: set<nat>, added: set<nat>, b: nat, regs2: set<nat>)
    requires OnlyLive(live, base, regs) && base <= range && b in range && b < |live.inBlock| == |live.atEnd|
    requires added <= live.inBlock[b] + live.atEnd[b] && RegsAdded(live, base, range, regs + added, regs2)
    ensures OnlyLive(live, range, regs2)
  {
    forall r | r in regs2
      ensures exists b: nat :: b in range && LiveIn(live, b, r)
    {
      if r in added {
        assert LiveIn(live, b, r);
      }
    }
  }

  lemma OnlyLiveBlock(live: Liveness, range: set<nat>, regs: set<nat>, b: nat, more: set<nat>)
    requires OnlyLive(live, range, regs) && b in range && b < |live.inBlock| == |live.atEnd|
    requires more <= live.inBlock[b] + live.atEnd[b]
    ensures OnlyLive(live, range, regs + more)
  {
    assert forall r :: r in more ==> LiveIn(live, b, r);
  }

  lemma CoversEndsMore(live: Liveness, base: set<nat>, range: set<nat>, head: nat, regs: set<nat>, regs1: set<nat>, regs2: set<nat>)
    requires CoversEnds(live, base, head, regs) && regs <= regs1 && RegsAdded(live, base, range, regs1, regs2)
    requires |live.inBlock| == |live.atEnd|
    ensures CoversEnds(live, range, head, regs2)
  {
    forall b: nat, r | b in range && b != head && b < |live.atEnd| && r in live.atEnd[b]
      ensures r in regs2
    {
      if b !in base {
        assert LiveIn(live, b, r);
      }
    }
  }

  /** Whatever is live in a block of the range other than its head is in `regs`. */
  ghost predicate Covers(live: Liveness, range: set<nat>, head: nat, regs: set<nat>) {
    forall b: nat, r :: b in range && b != head && b < |live.inBlock| && r in live.inBlock[b] ==> r in regs
  }

  lemma CoversMore(live: Liveness, base: set<nat>, range: set<nat>, head: nat, regs: set<nat>, regs1: set<nat>, regs2: set<nat>)
    requires Covers(live, base, head, regs) && regs <= regs1 && RegsAdded(live, base, range, regs1, regs2)
    requires |live.inBlock| == |live.atEnd|
    ensures Covers(live, range, head, regs2) && regs1 <= regs2
  {
    forall b: nat, r | b in range && b != head && b < |live.inBlock| && r in live.inBlock[b]
      ensures r in regs2
    {
      if b !in base {
        assert LiveIn(live, b, r);
      }
    }
  }

  lemma OneBlock(g: Graph, live: Liveness, bb: nat, regs: set<nat>)
    requires bb < |g|
    ensures LiveRange(g, {bb}, bb) && Covers(live, {bb}, bb, regs)
  {
    DominatesItself(g, bb);
  }

  lemma DominatedIn(g: Graph, doms: seq<set<nat>>, a: nat, b: nat)
    requires DomsExact(g, doms) && a < |g| && b < |g| && Dominates(g, a, b)
    ensures a in doms[b]
  {}

  lemma LiveRangeBlocks(g: Graph, live: Liveness, range: set<nat>, head: nat)
    requires LiveRange(g, range, head)
    ensures head in range && (forall b :: b in range ==> b < |g|) && Covers(live, range - range, head, {})
  {}

  lemma CoversBlock(live: Liveness, range: set<nat>, left: set<nat>, head: nat, regs: set<nat>, b: nat, more: set<nat>)
    requires Covers(live, range - left, head, regs)
    requires b != head && b < |live.inBlock| ==> live.inBlock[b] <= more
    ensures Covers(live, range - (left - {b}), head, regs + more)
  {}

  lemma CoversSplit(live: Liveness, range: set<nat>, head: nat, regs: set<nat>, own: set<nat>)
    requires Covers(live, range, head, regs)
    ensures Covers(live, range, head, regs - own + own)
  {}

  lemma OwnOnlyLive(live: Liveness, bb: nat, regs: set<nat>)
    requires bb < |live.inBlock| == |live.atEnd| && regs <= live.inBlock[bb] + live.atEnd[bb]
    ensures OnlyLive(live, {bb}, regs) && CoversEnds(live, {bb}, bb, regs)
  {
    assert forall r :: r in regs ==> LiveIn(live, bb, r);
  }

  lemma NoneOnlyLive(live: Liveness, range: set<nat>)
    ensures OnlyLive(live, range, {})
  {}

  lemma OnlyLiveFewer(live: Liveness, range: set<nat>, regs: set<nat>, fewer: set<nat>)
    requires OnlyLive(live, range, regs) && fewer <= regs
    ensures OnlyLive(live, range, fewer)
  {}

  lemma CoversEndsLess(live: Liveness, range: set<nat>, head: nat, regs: set<nat>, more: set<nat>)
    requires regs <= more
    ensures CoversEnds(live, range, head, regs) ==> CoversEnds(live, range, head, more)
  {}

  /** The blocks a definition and its uses span, all dominated by the definition, and the registers live there. */
  method BtrDefLiveRange(g: Graph, live: Liveness, doms: seq<set<nat>>, web: Web, exclusive: bool)
    returns (regs: set<nat>)
    requires Valid(g) && DomsExact(g, doms) && |live.inBlock| == |live.atEnd| == |g|
    requires web.bb < |g| && UsesDominated(g, web.uses, web.bb)
    requires web.hasRange ==> LiveRange(g, web.liveRange, web.bb) && forall k :: 0 <= k < |web.uses| ==> web.uses[k].bb in web.liveRange
    modifies web`liveRange, web`hasRange
    ensures web.hasRange && LiveRange(g, web.liveRange, web.bb)
    ensures old(web.hasRange) ==> web.liveRange == old(web.liveRange)
    ensures forall k :: 0 <= k < |web.uses| ==> web.uses[k].bb in web.liveRange
    ensures var own := if web.otherUsesBeforeDef || web.otherUsesAfterUse then {} else {web.btr};
            && own !! regs && Covers(live, web.liveRange, web.bb, regs + own) && OnlyLive(live, web.liveRange, regs)
            && OwnBlock(live, web.bb, exclusive) <= regs + own
            && (!old(web.hasRange) ==>
                  && CoversEnds(live, web.liveRange, web.bb, regs + own)
                  && forall k :: 0 <= k < |web.uses| && web.uses[k].bb == web.bb && !web.uses[k].endsBlock ==>
                       live.inBlock[web.bb] <= regs + own)
  {
    hide LiveRange, RegsAdded, Covers, CoversEnds, OnlyLive, Dominates, GainsBelow, GainsAbove;
    if !web.hasRange {
      var range := {web.bb};
      regs := if exclusive then live.inBlock[web.bb] else live.atEnd[web.bb];
      OneBlock(g, live, web.bb, regs);
      OwnOnlyLive(live, web.bb, regs);
      for k := 0 to |web.uses|
        invariant LiveRange(g, range, web.bb) && web.bb in range && Covers(live, range, web.bb, regs)
        invariant OnlyLive(live, range, regs) && CoversEnds(live, range, web.bb, regs) && OwnBlock(live, web.bb, exclusive) <= regs
        invariant forall j :: 0 <= j < k && web.uses[j].bb == web.bb && !web.uses[j].endsBlock ==> live.inBlock[web.bb] <= regs
        invariant forall j :: 0 <= j < k ==> web.uses[j].bb in range
        invariant web.bb == old(web.bb) && web.uses == old(web.uses)
      {
        ghost var range0, regs0 := range, regs;
        var use := web.uses[k];
        DominatedIn(g, doms, web.bb, use.bb);
        range, regs := AugmentLiveRange(g, live, doms, range, regs, web.bb, use.bb, exclusive || !use.endsBlock);
        ghost var extra := ExtraRegs(live, web.bb, use.bb, exclusive || !use.endsBlock, true);
        CoversMore(live, range0, range, web.bb, regs0, regs0 + extra, regs);
        CoversEndsMore(live, range0, range, web.bb, regs0, regs0 + extra, regs);
        OnlyLiveMore(live, range0, range, regs0, extra, use.bb, regs);
      }
      web.liveRange, web.hasRange := range, true;
    } else {
      regs := {};
      var left := web.liveRange;
      LiveRangeBlocks(g, live, web.liveRange, web.bb);
      NoneOnlyLive(live, web.liveRange);
      while left != {}
        invariant web.liveRange == old(web.liveRange) && web.hasRange
        invariant left <= web.liveRange && Covers(live, web.liveRange - left, web.bb, regs) && OnlyLive(live, web.liveRange, regs)
        invariant web.bb in left || OwnBlock(live, web.bb, exclusive) <= regs
        decreases left
      {
        var b :| b in left;
        var more := if !exclusive && b == web.bb then live.atEnd[b] else live.inBlock[b];
        CoversBlock(live, web.liveRange, left, web.bb, regs, b, more);
        OnlyLiveBlock(live, web.liveRange, regs, b, more);
        regs := regs + more;
        left := left - {b};
      }
      assert web.liveRange - {} == web.liveRange;
    }
    if !web.otherUsesBeforeDef && !web.otherUsesAfterUse {
      CoversSplit(live, web.liveRange, web.bb, regs, {web.btr});
      OnlyLiveFewer(live, web.liveRange, regs, regs - {web.btr});
      assert regs <= regs - {web.btr} + {web.btr};
      CoversEndsLess(live, web.liveRange, web.bb, regs, regs - {web.btr} + {web.btr});
      regs := regs - {web.btr};
    } else {
      assert regs + {} == regs;
    }
  }

  // ---- moving a definition ----

  /** The first register in the order of allocation that is not used, or -1. */
  method ChooseBtr(order: seq<nat>, allBtrs: set<nat>, used: set<nat>) returns (btr: int)
    requires forall r :: r in allBtrs ==> r in order
    ensures btr == -1 <==> allBtrs <= used
    ensures btr != -1 ==> btr in allBtrs - used
    ensures btr != -1 ==> exists k :: 0 <= k < |order| && order[k] == btr && forall j :: 0 <= j < k ==> order[j] !in allBtrs - used
  {
    if !(allBtrs <= used) {
      for i := 0 to |order|
        invariant forall j :: 0 <= j < i ==> order[j] !in allBtrs - used
      {
        if order[i] in allBtrs && order[i] !in used {
          return order[i];
        }
      }
    }
    btr := -1;
  }

  function View(inBlock: array<set<nat>>, atEnd: array<set<nat>>): Liveness
    reads inBlock, atEnd
  {
    Liveness(inBlock[..], atEnd[..])
  }

  /** A block where the definition or one of its uses stands, and where the register may be live for others too. */
  function AtEdge(bb: nat, uses: seq<Use>, before: bool, after: bool, b: nat): (edge: bool)
    ensures edge <==> (before && b == bb) || (after && exists k :: 0 <= k < |uses| && uses[k].bb == b)
  {
    (before && b == bb) || (after && exists k :: 0 <= k < |uses| && uses[k].bb == b)
  }

  /** The register is no longer live in the blocks of the range, but for those at its edge with other uses. */
  ghost function Cleared(live: set<nat>, range: set<nat>, bb: nat, btr: nat, uses: seq<Use>, before: bool, after: bool, b: nat): set<nat> {
    if b in range && !AtEdge(bb, uses, before, after, b) then live - {btr} else live
  }

  method ClearBtrFromLiveRange(web: Web, inBlock: array<set<nat>>, atEnd: array<set<nat>>)
    requires inBlock != atEnd && inBlock.Length == atEnd.Length && web.bb < inBlock.Length
    requires forall b :: b in web.liveRange ==> b < inBlock.Length
    modifies inBlock, atEnd
    ensures forall b: nat :: b < inBlock.Length ==>
              inBlock[b] == Cleared(old(inBlock[b]), web.liveRange, web.bb, web.btr, web.uses,
                                    web.otherUsesBeforeDef, web.otherUsesAfterUse, b)
    ensures forall b: nat :: b < atEnd.Length ==>
              var cleared := Cleared(old(atEnd[b]), web.liveRange, web.bb, web.btr, web.uses,
                                     web.otherUsesBeforeDef, web.otherUsesAfterUse, b);
              atEnd[b] == if web.ownEnd && b == web.bb then cleared - {web.btr} else cleared
  {
    for b := 0 to inBlock.Length
      invariant forall c: nat :: c < inBlock.Length ==>
                  inBlock[c] == (if c < b then Cleared(old(inBlock[c]), web.liveRange, web.bb, web.btr, web.uses,
                                                       web.otherUsesBeforeDef, web.otherUsesAfterUse, c)
                                 else old(inBlock[c]))
      invariant forall c: nat :: c < atEnd.Length ==>
                  atEnd[c] == (if c < b then Cleared(old(atEnd[c]), web.liveRange, web.bb, web.btr, web.uses,
                                                     web.otherUsesBeforeDef, web.otherUsesAfterUse, c)
                               else old(atEnd[c]))
    {
      if b in web.liveRange {
        if (!web.otherUsesBeforeDef && !web.otherUsesAfterUse)
           || !AtEdge(web.bb, web.uses, web.otherUsesBeforeDef, web.otherUsesAfterUse, b) {
          inBlock[b] := inBlock[b] - {web.btr};
          atEnd[b] := atEnd[b] - {web.btr};
        }
      }
    }
    if web.ownEnd {
      atEnd[web.bb] := atEnd[web.bb] - {web.btr};
    }
  }

  method AddBtrToLiveRange(web: Web, inBlock: array<set<nat>>, atEnd: array<set<nat>>)
    requires inBlock != atEnd && inBlock.Length == atEnd.Length && web.bb < inBlock.Length
    requires forall b :: b in web.liveRange ==> b < inBlock.Length
    modifies inBlock, atEnd, web`ownEnd
    ensures web.ownEnd
    ensures forall b: nat :: b < inBlock.Length ==>
              inBlock[b] == old(inBlock[b]) + if b in web.liveRange then {web.btr} else {}
    ensures forall b: nat :: b < atEnd.Length ==>
              atEnd[b] == old(atEnd[b]) + if b in web.liveRange || b == web.bb then {web.btr} else {}
  {
    for b := 0 to inBlock.Length
      invariant forall c: nat :: c < inBlock.Length ==>
                  inBlock[c] == old(inBlock[c]) + if c < b && c in web.liveRange then {web.btr} else {}
      invariant forall c: nat :: c < atEnd.Length ==>
                  atEnd[c] == old(atEnd[c]) + if c < b && c in web.liveRange then {web.btr} else {}
    {
      if b in web.liveRange {
        inBlock[b] := inBlock[b] + {web.btr};
        atEnd[b] := atEnd[b] + {web.btr};
      }
    }
    atEnd[web.bb] := atEnd[web.bb] + {web.btr};
    web.ownEnd := true;
  }

  /**
   * Once the definition's own marks are gone, `btr` is live in no block of the range but its head, nor at the end of the
   * head or of a block that is new in the range.
   */
  ghost predicate FreeFor(web: Web, live: Liveness, range: set<nat>, head: nat, btr: nat)
    reads web
  {
    && (forall b: nat :: b in range && b != head && b < |live.inBlock| ==>
          btr !in Cleared(live.inBlock[b], web.liveRange, web.bb, web.btr, web.uses,
                          web.otherUsesBeforeDef, web.otherUsesAfterUse, b))
    && (forall b: nat :: b in range && (b == head || b !in web.liveRange) && b < |live.atEnd| ==> btr !in live.atEnd[b])
  }

  /** Whatever is live in the range is in `regs`, but for the definition's own register where that may be taken again. */
  ghost predicate Known(web: Web, live: Liveness, range: set<nat>, regs: set<nat>)
    reads web
  {
    forall b: nat, r :: b in range && b != web.bb && b < |live.inBlock| && r in live.inBlock[b] ==>
      r in regs || (r == web.btr && ((!web.otherUsesBeforeDef && !web.otherUsesAfterUse)
                                     || (web.bb < |live.inBlock| && r in live.inBlock[web.bb])))
  }

  lemma KnownAtFirst(web: Web, live: Liveness, regs: set<nat>)
    requires var own := if web.otherUsesBeforeDef || web.otherUsesAfterUse then {} else {web.btr};
             Covers(live, web.liveRange, web.bb, regs + own)
    ensures Known(web, live, web.liveRange, regs)
  {}

  /**
   * A register not in the set after the range has grown upwards is free for the whole range, and at the end of each block
   * that is new in it; at the end of the others too when the set was made together with the range.
   */
  lemma ChosenIsFree(g: Graph, web: Web, live: Liveness, regs: set<nat>, range: set<nat>, regs1: set<nat>, regs2: set<nat>,
                     added: nat, full: bool, btr: nat)
    requires Known(web, live, web.liveRange, regs) && web.bb < |live.inBlock| == |live.atEnd| && added < |live.inBlock|
    requires regs1 == regs + ExtraRegs(live, web.bb, added, full, false)
    requires RegsAdded(live, web.liveRange + {added}, range, regs1, regs2)
    requires btr !in regs2
    ensures FreeFor(web, live, range, added, btr)
    ensures forall b: nat, r :: b in range && b != added && b < |live.inBlock| && r in live.inBlock[b] ==>
              r in regs2 || (r == web.btr && b in web.liveRange && !web.otherUsesBeforeDef && !web.otherUsesAfterUse)
    ensures forall b: nat, r :: b in range && (b == added || b !in web.liveRange) && b < |live.atEnd| && r in live.atEnd[b] ==> r in regs2
    ensures CoversEnds(live, web.liveRange, web.bb, regs + {web.btr}) ==>
              forall b: nat, r :: b in range && b != web.bb && b < |live.atEnd| && r in live.atEnd[b] ==> r in regs2 || r == web.btr
  {
    forall b: nat, r | b in range && (b == added || b !in web.liveRange) && b < |live.atEnd| && r in live.atEnd[b]
      ensures r in regs2
    {
      if b == added {
        assert r in regs1;
      } else {
        assert LiveIn(live, b, r);
      }
    }
    if CoversEnds(live, web.liveRange, web.bb, regs + {web.btr}) {
      forall b: nat, r | b in range && b != web.bb && b < |live.atEnd| && r in live.atEnd[b]
        ensures r in regs2 || r == web.btr
      {
        if b in web.liveRange {
          assert r in regs + {web.btr};
          assert r in regs ==> r in regs1;
        }
      }
    }
    forall b: nat, r | b in range && b != added && b < |live.inBlock| && r in live.inBlock[b]
      ensures r in regs2 || (r == web.btr && b in web.liveRange && !web.otherUsesBeforeDef && !web.otherUsesAfterUse)
    {
      if b !in web.liveRange {
        assert LiveIn(live, b, r);
      } else if b != web.bb {
        assert r in regs || r == web.btr;
      }
    }
  }

  /** Puts the definition into block `newBb` with register `btr`, which must be free for the whole new range. */
  method MoveBtrDef(web: Web, newBb: nat, btr: nat, range: set<nat>, cost: nat, inBlock: array<set<nat>>, atEnd: array<set<nat>>)
    requires inBlock != atEnd && inBlock.Length == atEnd.Length && web.bb < inBlock.Length && newBb < inBlock.Length
    requires newBb in range && web.liveRange <= range && forall b :: b in range ==> b < inBlock.Length
    requires FreeFor(web, View(inBlock, atEnd), range, newBb, btr)
    modifies web, inBlock, atEnd
    ensures web.bb == newBb && web.btr == btr && web.cost == cost && web.liveRange == range
    ensures web.hasRange == old(web.hasRange) && web.uses == old(web.uses)
    ensures web.otherUsesAfterUse == old(web.otherUsesAfterUse)
    ensures web.otherUsesBeforeDef == (btr in old(ClearedView(web, View(inBlock, atEnd), newBb)))
    ensures forall b: nat :: b < inBlock.Length ==>
              inBlock[b] == old(ClearedView(web, View(inBlock, atEnd), b)) + if b in range then {btr} else {}
    ensures forall b: nat :: b < atEnd.Length ==>
              atEnd[b] == old(ClearedEnd(web, View(inBlock, atEnd), b)) + if b in range then {btr} else {}
  {
    ClearBtrFromLiveRange(web, inBlock, atEnd);
    web.btr := btr;
    web.bb := newBb;
    web.cost := cost;
    web.liveRange := range;
    web.otherUsesBeforeDef := btr in inBlock[newBb];
    AddBtrToLiveRange(web, inBlock, atEnd);
  }

  ghost function ClearedView(web: Web, live: Liveness, b: nat): set<nat>
    requires b < |live.inBlock|
    reads web
  {
    Cleared(live.inBlock[b], web.liveRange, web.bb, web.btr, web.uses, web.otherUsesBeforeDef, web.otherUsesAfterUse, b)
  }

  ghost function ClearedEnd(web: Web, live: Liveness, b: nat): set<nat>
    requires b < |live.atEnd|
    reads web
  {
    Cleared(live.atEnd[b], web.liveRange, web.bb, web.btr, web.uses, web.otherUsesBeforeDef, web.otherUsesAfterUse, b)
    - if web.ownEnd && b == web.bb then {web.btr} else {}
  }

  /** After a move the set of registers known to be live is still right for the new range. */
  lemma KnownAfter(web: Web, live: Liveness, cleared: seq<set<nat>>, live': Liveness, range: set<nat>, own: nat,
                   noOther: bool, range': set<nat>, regs: set<nat>)
    requires web.bb in range' && web.bb < |live.inBlock| == |cleared| == |live'.inBlock|
    requires forall b: nat :: b < |cleared| ==> cleared[b] <= live.inBlock[b]
    requires forall b: nat :: b < |cleared| && b in range && noOther ==> own !in cleared[b]
    requires forall b: nat :: b < |cleared| ==> live'.inBlock[b] == cleared[b] + if b in range' then {web.btr} else {}
    requires forall b: nat, r :: b in range' && b != web.bb && b < |live.inBlock| && r in live.inBlock[b] ==>
               r in regs || (r == own && b in range && noOther)
    ensures Known(web, live', range', regs)
  {}

  ghost predicate IdomsExact(g: Graph, doms: seq<set<nat>>, idom: seq<int>) {
    && |idom| == |doms| == |g|
    && forall b: nat :: b < |g| && idom[b] != -1 ==> 0 <= idom[b] < |g| && idom[b] in doms[b] && b !in doms[idom[b]]
  }

  /** `try` is another dominator of the definition's block. */
  ghost predicate Above(g: Graph, doms: seq<set<nat>>, try: int, bb: nat) {
    |doms| == |g| && (try == -1 || (0 <= try < |g| && bb < |g| && try in doms[bb] && bb !in doms[try]))
  }

  lemma NextAbove(g: Graph, doms: seq<set<nat>>, idom: seq<int>, try: int, bb: nat)
    requires DomsExact(g, doms) && IdomsExact(g, doms, idom) && 0 <= try < |g| && bb < |g|
    requires Above(g, doms, try, bb) || try == bb
    ensures Above(g, doms, idom[try], bb)
    ensures idom[try] != -1 ==> |doms[idom[try]]| < |doms[try]|
  {
    var up := idom[try];
    if up != -1 {
      if try != bb {
        DominatesTrans(g, up, try, bb);
        if bb in doms[up] {
          DominatesTrans(g, bb, up, try);
        }
      }
      forall a | a in doms[up]
        ensures a in doms[try]
      {
        DominatesTrans(g, a, up, try);
      }
      DominatesItself(g, try);
      Smaller(doms[up], doms[try], try);
    }
  }

  lemma Smaller(a: set<nat>, b: set<nat>, x: nat)
    requires a <= b && x in b && x !in a
    ensures |a| < |b|
  {
    assert b == a + (b - a) && x in b - a;
    assert |b| == |a| + |b - a|;
  }

  lemma TryIsBlock(g: Graph, doms: seq<set<nat>>, try: int, bb: nat)
    requires Above(g, doms, try, bb) && try != -1
    ensures 0 <= try < |g| && |doms| == |g| && bb < |g| && try in doms[bb] && bb !in doms[try]
  {}

  lemma AboveTwice(g: Graph, doms: seq<set<nat>>, try: nat, bb: nat, below: nat)
    requires DomsExact(g, doms) && try < |g| && bb < |g| && below < |g|
    requires try in doms[bb] && bb !in doms[try] && Dominates(g, bb, below)
    ensures Dominates(g, try, below) && try != below
  {
    DominatesTrans(g, try, bb, below);
  }

  lemma UsesStayDominated(g: Graph, doms: seq<set<nat>>, uses: seq<Use>, try: nat, bb: nat)
    requires DomsExact(g, doms) && bb < |g| && try in doms[bb] && UsesDominated(g, uses, bb)
    ensures UsesDominated(g, uses, try)
  {
    forall k | 0 <= k < |uses|
      ensures Dominates(g, try, uses[k].bb)
    {
      DominatesTrans(g, try, bb, uses[k].bb);
    }
  }

  /** The move, with a register the grown range leaves free. */
  method MoveUp(g: Graph, web: Web, try: nat, btr: nat, range: set<nat>, ghost regs0: set<nat>, ghost regs: set<nat>,
                ghost full: bool, cost: nat, inBlock: array<set<nat>>, atEnd: array<set<nat>>)
    requires inBlock != atEnd && inBlock.Length == atEnd.Length == |g| && web.bb < |g| && try < |g|
    requires LiveRange(g, range, try) && web.liveRange <= range
    requires Known(web, View(inBlock, atEnd), web.liveRange, regs0) && btr !in regs
    requires RegsAdded(View(inBlock, atEnd), web.liveRange + {try}, range,
                       regs0 + ExtraRegs(View(inBlock, atEnd), web.bb, try, full, false), regs)
    modifies web, inBlock, atEnd
    ensures web.bb == try && web.btr == btr && web.cost == cost && web.liveRange == range
    ensures web.hasRange == old(web.hasRange) && web.uses == old(web.uses)
    ensures Known(web, View(inBlock, atEnd), range, regs)
    ensures forall b: nat :: b in range && b < |g| ==> btr in inBlock[b] && btr in atEnd[b]
    ensures forall b: nat :: b < |g| ==> inBlock[b] <= old(inBlock[b]) + {btr} && atEnd[b] <= old(atEnd[b]) + {btr}
  {
    hide Known, RegsAdded, FreeFor;
    ghost var live, had, own := View(inBlock, atEnd), web.liveRange, web.btr;
    ghost var noOther := !web.otherUsesBeforeDef && !web.otherUsesAfterUse;
    LiveRangeBlocks(g, live, range, try);
    ChosenIsFree(g, web, live, regs0, range, regs0 + ExtraRegs(live, web.bb, try, full, false), regs, try, full, btr);
    ghost var cleared := ClearedViews(web, live);
    ClearedParts(web, live, cleared);
    MoveBtrDef(web, try, btr, range, cost, inBlock, atEnd);
    KnownAfter(web, live, cleared, View(inBlock, atEnd), had, own, noOther, range, regs);
  }

  ghost function ClearedViews(web: Web, live: Liveness): (cleared: seq<set<nat>>)
    reads web
    ensures |cleared| == |live.inBlock| && forall b: nat :: b < |cleared| ==> cleared[b] == ClearedView(web, live, b)
  {
    seq(|live.inBlock|, b requires 0 <= b < |live.inBlock| reads web => ClearedView(web, live, b))
  }

  lemma ClearedParts(web: Web, live: Liveness, cleared: seq<set<nat>>)
    requires |cleared| == |live.inBlock| && forall b: nat :: b < |cleared| ==> cleared[b] == ClearedView(web, live, b)
    ensures forall b: nat :: b < |cleared| ==> cleared[b] <= live.inBlock[b]
    ensures forall b: nat :: b < |cleared| && b in web.liveRange && !web.otherUsesBeforeDef && !web.otherUsesAfterUse
              ==> web.btr !in cleared[b]
  {}

  // ---- which dominators a definition is moved to ----

  /** The `n`th dominator above `b`, or -1. */
  ghost function Up(idom: seq<int>, b: int, n: nat): int {
    if n == 0 then b
    else
      var u := Up(idom, b, n - 1);
      if 0 <= u < |idom| then idom[u] else -1
  }

  /** The dominators up to the `n`th are all below the entry. */
  ghost predicate Tried(idom: seq<int>, b: nat, n: nat) {
    forall m: nat :: 1 <= m <= n ==> Up(idom, b, m) != -1 && Up(idom, b, m) != ENTRY_BLOCK
  }

  /** A block without complex edges that is cheaper, or as cheap when the definition is used too near. */
  predicate Wanted(freq: seq<nat>, complexSuccs: seq<bool>, b: int, cost: nat, near: bool) {
    0 <= b < |freq| == |complexSuccs| && !complexSuccs[b] && (freq[b] < cost || (freq[b] == cost && near))
  }

  ghost predicate NoneWanted(idom: seq<int>, freq: seq<nat>, complexSuccs: seq<bool>, b: nat, cost: nat, near: bool) {
    forall n: nat :: n >= 1 && Tried(idom, b, n) ==> !Wanted(freq, complexSuccs, Up(idom, b, n), cost, near)
  }

  /** The `n`th dominator above `b` is the lowest that is wanted. */
  ghost predicate NextWanted(idom: seq<int>, freq: seq<nat>, complexSuccs: seq<bool>, b: nat, cost: nat, near: bool, n: nat) {
    && n >= 1 && Tried(idom, b, n) && Wanted(freq, complexSuccs, Up(idom, b, n), cost, near)
    && NotBelow(idom, freq, complexSuccs, b, cost, near, n)
  }

  ghost predicate NotBelow(idom: seq<int>, freq: seq<nat>, complexSuccs: seq<bool>, b: nat, cost: nat, near: bool, n: nat) {
    forall m: nat :: 1 <= m < n ==> !Wanted(freq, complexSuccs, Up(idom, b, m), cost, near)
  }

  /** From one home to the next the definition goes to the lowest dominator that is wanted; a near use counts for the first. */
  ghost predicate Stage(idom: seq<int>, freq: seq<nat>, complexSuccs: seq<bool>, near: bool, minCost: nat, from: nat, to: nat) {
    && from < |freq| && freq[from] >= minCost
    && exists n: nat :: NextWanted(idom, freq, complexSuccs, from, freq[from], near, n) && Up(idom, from, n) == to
  }

  ghost predicate Route(idom: seq<int>, freq: seq<nat>, complexSuccs: seq<bool>, near: bool, minCost: nat, homes: seq<nat>) {
    homes != [] && forall i: nat :: i < |homes| - 1 ==> Stage(idom, freq, complexSuccs, near && i == 0, minCost, homes[i], homes[i + 1])
  }

  /** A block of the range grown up to `added` that `r` is live in, or at the end of. */
  ghost predicate LiveInGrown(g: Graph, live: Liveness, range: set<nat>, head: nat, added: nat, c: nat, r: nat) {
    (c in range || GainsAbove(g, range, head, added, c)) && LiveIn(live, c, r)
  }

  /** Each register is live in the range grown up to `added`, or the definition has held it on its way. */
  ghost predicate AllTaken(g: Graph, live: Liveness, range: set<nat>, head: nat, added: nat, allBtrs: set<nat>, held: seq<nat>) {
    forall r :: r in allBtrs ==> r in held || exists c: nat :: LiveInGrown(g, live, range, head, added, c, r)
  }

  /** The definition stays where it is: cheap enough, no dominator wanted, or no register left for the lowest wanted. */
  ghost predicate Stays(g: Graph, idom: seq<int>, freq: seq<nat>, complexSuccs: seq<bool>, live: Liveness, range: set<nat>, bb: nat,
                        near: bool, minCost: nat, allBtrs: set<nat>, held: seq<nat>)
    requires bb < |freq|
  {
    || freq[bb] < minCost || NoneWanted(idom, freq, complexSuccs, bb, freq[bb], near)
    || exists n: nat :: Refused(g, idom, freq, complexSuccs, live, range, bb, near, allBtrs, held, n)
  }

  ghost predicate Refused(g: Graph, idom: seq<int>, freq: seq<nat>, complexSuccs: seq<bool>, live: Liveness, range: set<nat>, bb: nat,
                          near: bool, allBtrs: set<nat>, held: seq<nat>, n: nat)
    requires bb < |freq|
  {
    && NextWanted(idom, freq, complexSuccs, bb, freq[bb], near, n) && Up(idom, bb, n) >= 0
    && AllTaken(g, live, range, bb, Up(idom, bb, n), allBtrs, held)
  }

  /** The blocks the definition has been moved to, and its registers there. */
  ghost predicate OnWay(idom: seq<int>, freq: seq<nat>, complexSuccs: seq<bool>, near: bool, minCost: nat, allBtrs: set<nat>,
                        homes: seq<nat>, held: seq<nat>)
  {
    Route(idom, freq, complexSuccs, near, minCost, homes) && |held| == |homes| - 1 && forall r :: r in held ==> r in allBtrs
  }

  /** What is marked now was marked at first, or is a register the definition has held. */
  ghost predicate Within(live0: Liveness, live: Liveness, held: seq<nat>) {
    && |live.inBlock| == |live0.inBlock| && |live.atEnd| == |live0.atEnd|
    && (forall b: nat, r :: b < |live.inBlock| && r in live.inBlock[b] ==> r in live0.inBlock[b] || r in held)
    && (forall b: nat, r :: b < |live.atEnd| && r in live.atEnd[b] ==> r in live0.atEnd[b] || r in held)
  }

  /** Each register found live in the range was live there at first, or the definition has held it. */
  ghost predicate Sourced(live0: Liveness, range: set<nat>, regs: set<nat>, held: seq<nat>) {
    forall r :: r in regs ==> r in held || exists c: nat :: c in range && LiveIn(live0, c, r)
  }

  lemma SourcedMore(live0: Liveness, live: Liveness, range: set<nat>, regs: set<nat>, held: seq<nat>, head: nat, added: nat, full: bool,
                    range': set<nat>, regs': set<nat>)
    requires Sourced(live0, range, regs, held) && Within(live0, live, held) && |live.inBlock| == |live.atEnd|
    requires head < |live.inBlock| && added < |live.inBlock| && head in range && range <= range' && added in range'
    requires RegsAdded(live, range + {added}, range', regs + ExtraRegs(live, head, added, full, false), regs')
    ensures Sourced(live0, range', regs', held)
  {
    forall r | r in regs' && r !in held
      ensures exists c: nat :: c in range' && LiveIn(live0, c, r)
    {
      if r in regs {
        var c: nat :| c in range && LiveIn(live0, c, r);
        assert c in range';
      } else if r in ExtraRegs(live, head, added, full, false) {
        assert LiveIn(live, head, r) || LiveIn(live, added, r);
        assert LiveIn(live0, head, r) || LiveIn(live0, added, r);
      } else {
        var b: nat :| b in range' && b !in range + {added} && LiveIn(live, b, r);
        assert LiveIn(live0, b, r);
      }
    }
  }

  lemma WithinMore(live0: Liveness, live: Liveness, live': Liveness, held: seq<nat>, btr: nat)
    requires Within(live0, live, held) && |live'.inBlock| == |live.inBlock| && |live'.atEnd| == |live.atEnd|
    requires forall b: nat :: b < |live.inBlock| ==> live'.inBlock[b] <= live.inBlock[b] + {btr}
    requires forall b: nat :: b < |live.atEnd| ==> live'.atEnd[b] <= live.atEnd[b] + {btr}
    ensures Within(live0, live', held + [btr])
  {
    assert forall r :: r in held ==> r in held + [btr];
  }

  lemma SourcedHeld(live0: Liveness, range: set<nat>, regs: set<nat>, held: seq<nat>, btr: nat)
    requires Sourced(live0, range, regs, held)
    ensures Sourced(live0, range, regs, held + [btr])
  {}

  lemma RouteMore(idom: seq<int>, freq: seq<nat>, complexSuccs: seq<bool>, near: bool, minCost: nat, homes: seq<nat>, n: nat, to: nat)
    requires Route(idom, freq, complexSuccs, near, minCost, homes)
    requires Last(homes) < |freq| && freq[Last(homes)] >= minCost
    requires NextWanted(idom, freq, complexSuccs, Last(homes), freq[Last(homes)], near && |homes| == 1, n) && Up(idom, Last(homes), n) == to
    ensures Route(idom, freq, complexSuccs, near, minCost, homes + [to])
  {
    hide NextWanted;
    var homes' := homes + [to];
    forall i: nat | i < |homes'| - 1
      ensures Stage(idom, freq, complexSuccs, near && i == 0, minCost, homes'[i], homes'[i + 1])
    {
      assert homes'[i] == homes[i];
      if i < |homes| - 1 {
        assert homes'[i + 1] == homes[i + 1];
      }
    }
  }

  function Last(s: seq<nat>): nat
    requires s != []
  {
    s[|s| - 1]
  }

  lemma TakenBy(g: Graph, live0: Liveness, range: set<nat>, head: nat, added: nat, range': set<nat>, regs: set<nat>, allBtrs: set<nat>, held: seq<nat>)
    requires Sourced(live0, range', regs, held) && allBtrs <= regs
    requires forall b: nat :: b in range' <==> b in range || GainsAbove(g, range, head, added, b)
    ensures AllTaken(g, live0, range, head, added, allBtrs, held)
  {
    hide GainsAbove, LiveIn;
    forall r | r in allBtrs && r !in held
      ensures exists c: nat :: LiveInGrown(g, live0, range, head, added, c, r)
    {
      var c: nat :| c in range' && LiveIn(live0, c, r);
      assert LiveInGrown(g, live0, range, head, added, c, r);
    }
  }

  /** Nothing above the entry is looked at. */
  lemma EndOfWay(idom: seq<int>, freq: seq<nat>, complexSuccs: seq<bool>, b: nat, cost: nat, near: bool, n: nat, try: int)
    requires WayUp(idom, freq, complexSuccs, b, cost, near, n, try) && (try == -1 || try == ENTRY_BLOCK)
    ensures NoneWanted(idom, freq, complexSuccs, b, cost, near)
  {
    hide Up;
  }

  lemma OnlyLiveSourced(live: Liveness, range: set<nat>, regs: set<nat>)
    requires OnlyLive(live, range, regs)
    ensures Sourced(live, range, regs, []) && Within(live, live, [])
  {}

  /** Moves the definition to `try`, if a register is free for the range grown up to it. */
  method TryMove(g: Graph, doms: seq<set<nat>>, web: Web, try: nat, range: set<nat>, regs: set<nat>, exclusive: bool, order: seq<nat>,
                 allBtrs: set<nat>, cost: nat, inBlock: array<set<nat>>, atEnd: array<set<nat>>, ghost live0: Liveness, ghost held: seq<nat>)
    returns (ok: bool, range': set<nat>, regs': set<nat>)
    requires Valid(g) && DomsExact(g, doms) && try < |g| && web.bb < |g| && try in doms[web.bb] && web.bb !in doms[try]
    requires inBlock != atEnd && inBlock.Length == atEnd.Length == |g| && forall r :: r in allBtrs ==> r in order
    requires range == web.liveRange && LiveRange(g, range, web.bb) && UsesDominated(g, web.uses, web.bb)
    requires Known(web, View(inBlock, atEnd), range, regs) && Sourced(live0, range, regs, held) && Within(live0, View(inBlock, atEnd), held)
    requires forall k :: 0 <= k < |web.uses| ==> web.uses[k].bb in range
    modifies web, inBlock, atEnd
    ensures web.uses == old(web.uses) && web.hasRange == old(web.hasRange)
    ensures ok ==> web.bb == try && web.btr in allBtrs && web.cost == cost && web.liveRange == range' && LiveRange(g, range', try)
                   && UsesDominated(g, web.uses, try) && (forall k :: 0 <= k < |web.uses| ==> web.uses[k].bb in range')
    ensures ok ==> Known(web, View(inBlock, atEnd), range', regs') && Sourced(live0, range', regs', held + [web.btr])
                   && Within(live0, View(inBlock, atEnd), held + [web.btr])
    ensures ok ==> forall b: nat :: b in range' && b < |g| ==> web.btr in inBlock[b] && web.btr in atEnd[b]
    ensures !ok ==> web.bb == old(web.bb) && web.btr == old(web.btr) && web.cost == old(web.cost) && web.liveRange == range
                    && inBlock[..] == old(inBlock[..]) && atEnd[..] == old(atEnd[..])
                    && AllTaken(g, live0, range, web.bb, try, allBtrs, held)
  {
    hide LiveRange, RegsAdded, Dominates, GainsBelow, GainsAbove, Known, FreeFor, UsesDominated, Sourced, Within, AllTaken, DomsExact;
    var live := View(inBlock, atEnd);
    LiveRangeBlocks(g, live, range, web.bb);
    range', regs' := AugmentLiveRange(g, live, doms, range, regs, web.bb, try, exclusive);
    SourcedMore(live0, live, range, regs, held, web.bb, try, exclusive, range', regs');
    var btr := ChooseBtr(order, allBtrs, regs');
    ok := btr != -1;
    if ok {
      UsesStayDominated(g, doms, web.uses, try, web.bb);
      MoveUp(g, web, try, btr, range', regs, regs', exclusive, cost, inBlock, atEnd);
      WithinMore(live0, live, View(inBlock, atEnd), held, btr);
      SourcedHeld(live0, range', regs', held, btr);
    } else {
      TakenBy(g, live0, range, web.bb, try, range', regs', allBtrs, held);
    }
  }

  /**
   * Moves a definition up its dominators, as long as that gets cheaper and a register is free for the longer range.
   * True when the definition was moved and may be moved again.
   */
  method MigrateBtrDef(g: Graph, doms: seq<set<nat>>, idom: seq<int>, freq: seq<nat>, complexSuccs: seq<bool>, web: Web,
                       minCost: nat, migratable: bool, usedNearDef: bool, exclusive: bool, order: seq<nat>, allBtrs: set<nat>,
                       inBlock: array<set<nat>>, atEnd: array<set<nat>>)
    returns (again: bool, ghost homes: seq<nat>, ghost held: seq<nat>)
    requires Valid(g) && DomsExact(g, doms) && IdomsExact(g, doms, idom) && |freq| == |complexSuccs| == |g|
    requires inBlock != atEnd && inBlock.Length == atEnd.Length == |g| && forall r :: r in allBtrs ==> r in order
    requires web.bb < |g| && web.cost == freq[web.bb] && UsesDominated(g, web.uses, web.bb)
    requires web.hasRange ==> LiveRange(g, web.liveRange, web.bb) && forall k :: 0 <= k < |web.uses| ==> web.uses[k].bb in web.liveRange
    modifies web, inBlock, atEnd
    ensures web.uses == old(web.uses) && web.bb < |g| && web.cost == freq[web.bb] <= old(web.cost)
    ensures UsesDominated(g, web.uses, web.bb) && Dominates(g, web.bb, old(web.bb))
    ensures web.hasRange ==> LiveRange(g, web.liveRange, web.bb) && forall k :: 0 <= k < |web.uses| ==> web.uses[k].bb in web.liveRange
    ensures web.bb != old(web.bb) ==> web.hasRange && web.btr in allBtrs
                                      && forall b: nat :: b in web.liveRange && b < |g| ==> web.btr in inBlock[b] && web.btr in atEnd[b]
    ensures web.bb == old(web.bb) ==> web.btr == old(web.btr) && inBlock[..] == old(inBlock[..]) && atEnd[..] == old(atEnd[..])
    ensures Route(idom, freq, complexSuccs, usedNearDef, minCost, homes) && homes[0] == old(web.bb) && Last(homes) == web.bb
    ensures |held| == |homes| - 1 && (forall r :: r in held ==> r in allBtrs) && (held != [] ==> Last(held) == web.btr)
    ensures migratable && web.uses != [] ==>
              Stays(g, idom, freq, complexSuccs, old(View(inBlock, atEnd)), web.liveRange, web.bb, usedNearDef && held == [], minCost, allBtrs, held)
    ensures !migratable || web.uses == [] ==> held == []
    ensures again <==> held != [] && (web.cost < minCost || NoneWanted(idom, freq, complexSuccs, web.bb, web.cost, false))
  {
    hide LiveRange, RegsAdded, Covers, CoversEnds, OnlyLive, Dominates, GainsBelow, GainsAbove, Known, FreeFor, UsesDominated, Above,
      Sourced, Within, Route, AllTaken, NoneWanted, NextWanted, NotBelow, Wanted, Up, DomsExact, IdomsExact, OnWay, Tried, WayUp, Refused;
    DominatesItself(g, web.bb);
    homes, held := [web.bb], [];
    OnWayFirst(idom, freq, complexSuccs, usedNearDef, minCost, allBtrs, web.bb);
    if !migratable || web.uses == [] {
      OnWayParts(idom, freq, complexSuccs, usedNearDef, minCost, allBtrs, homes, held);
      return false, homes, held;
    }
    ghost var live0 := View(inBlock, atEnd);
    var regs := BtrDefLiveRange(g, View(inBlock, atEnd), doms, web, exclusive);
    KnownAtFirst(web, View(inBlock, atEnd), regs);
    OnlyLiveSourced(live0, web.liveRange, regs);
    var range := web.liveRange;
    var nearDef, defFreq := usedNearDef, freq[web.bb];
    var giveUp, moved := false, false;
    IdomOfBlock(g, doms, idom, web.bb);
    var try := idom[web.bb];
    ghost var n: nat := 1;
    NextAbove(g, doms, idom, web.bb, web.bb);
    FirstUp(idom, freq, complexSuccs, web.bb, web.cost, nearDef);
    while !giveUp && try != -1 && try != ENTRY_BLOCK && web.cost >= minCost
      invariant Above(g, doms, try, web.bb) && web.bb < |g|
      invariant giveUp || (range == web.liveRange && Known(web, View(inBlock, atEnd), range, regs))
      invariant web.hasRange && LiveRange(g, web.liveRange, web.bb)
      invariant defFreq == web.cost == freq[web.bb] <= old(web.cost)
      invariant web.uses == old(web.uses) && UsesDominated(g, web.uses, web.bb) && Dominates(g, web.bb, old(web.bb))
      invariant forall k :: 0 <= k < |web.uses| ==> web.uses[k].bb in web.liveRange
      invariant moved ==> web.bb != old(web.bb) && web.btr in allBtrs
                          && forall b: nat :: b in web.liveRange && b < |g| ==> web.btr in inBlock[b] && web.btr in atEnd[b]
      invariant !moved ==> web.bb == old(web.bb) && web.btr == old(web.btr)
                           && inBlock[..] == old(inBlock[..]) && atEnd[..] == old(atEnd[..])
      invariant OnWay(idom, freq, complexSuccs, usedNearDef, minCost, allBtrs, homes, held)
      invariant homes != [] && homes[0] == old(web.bb) && Last(homes) == web.bb && (held != [] ==> Last(held) == web.btr)
      invariant moved == (held != []) && nearDef == (usedNearDef && held == [])
      invariant !giveUp ==> Sourced(live0, range, regs, held) && Within(live0, View(inBlock, atEnd), held)
      invariant !giveUp ==> WayUp(idom, freq, complexSuccs, web.bb, web.cost, nearDef, n, try)
      invariant giveUp ==> web.cost >= minCost && Refused(g, idom, freq, complexSuccs, live0, web.liveRange, web.bb, nearDef, allBtrs, held, n)
      decreases if 0 <= try < |doms| then 1 + |doms[try]| else 0
    {
      TryIsBlock(g, doms, try, web.bb);
      IdomOfBlock(g, doms, idom, try);
      LiveRangeBlocks(g, View(inBlock, atEnd), web.liveRange, web.bb);
      if !complexSuccs[try] && (freq[try] < defFreq || (freq[try] == defFreq && nearDef)) {
        TryWanted(idom, freq, complexSuccs, web.bb, web.cost, nearDef, n, try);
        AboveTwice(g, doms, try, web.bb, old(web.bb));
        var ok;
        ok, range, regs := TryMove(g, doms, web, try, range, regs, exclusive, order, allBtrs, freq[try], inBlock, atEnd, live0, held);
        if ok {
          OnWayMoved(idom, freq, complexSuccs, usedNearDef, minCost, allBtrs, homes, held, n, try, web.btr);
          homes, held, n := homes + [try], held + [web.btr], 1;
          nearDef, moved, defFreq := false, true, freq[web.bb];
          FirstUp(idom, freq, complexSuccs, web.bb, web.cost, false);
        } else {
          RefusedBy(g, idom, freq, complexSuccs, live0, web.liveRange, web.bb, nearDef, allBtrs, held, n, try);
          giveUp := true;
        }
      } else {
        TryUnwanted(idom, freq, complexSuccs, web.bb, web.cost, nearDef, n, try);
        n := n + 1;
      }
      NextAbove(g, doms, idom, try, web.bb);
      try := idom[try];
    }
    if !giveUp && web.cost >= minCost {
      EndOfWay(idom, freq, complexSuccs, web.bb, web.cost, nearDef, n, try);
    }
    if giveUp {
      RefusedIsWanted(g, idom, freq, complexSuccs, live0, web.liveRange, web.bb, nearDef, allBtrs, held, n);
    }
    OnWayParts(idom, freq, complexSuccs, usedNearDef, minCost, allBtrs, homes, held);
    again := moved && !giveUp;
  }

  lemma OnWayFirst(idom: seq<int>, freq: seq<nat>, complexSuccs: seq<bool>, near: bool, minCost: nat, allBtrs: set<nat>, bb: nat)
    ensures OnWay(idom, freq, complexSuccs, near, minCost, allBtrs, [bb], [])
  {}

  lemma OnWayParts(idom: seq<int>, freq: seq<nat>, complexSuccs: seq<bool>, near: bool, minCost: nat, allBtrs: set<nat>, homes: seq<nat>,
                   held: seq<nat>)
    requires OnWay(idom, freq, complexSuccs, near, minCost, allBtrs, homes, held)
    ensures Route(idom, freq, complexSuccs, near, minCost, homes) && |held| == |homes| - 1 && forall r :: r in held ==> r in allBtrs
  {}

  lemma OnWayMoved(idom: seq<int>, freq: seq<nat>, complexSuccs: seq<bool>, near: bool, minCost: nat, allBtrs: set<nat>, homes: seq<nat>,
                   held: seq<nat>, n: nat, to: nat, btr: nat)
    requires OnWay(idom, freq, complexSuccs, near, minCost, allBtrs, homes, held) && btr in allBtrs
    requires homes != [] && Last(homes) < |freq| && freq[Last(homes)] >= minCost
    requires NextWanted(idom, freq, complexSuccs, Last(homes), freq[Last(homes)], near && held == [], n) && Up(idom, Last(homes), n) == to
    ensures OnWay(idom, freq, complexSuccs, near, minCost, allBtrs, homes + [to], held + [btr])
  {
    hide Route, NextWanted;
    RouteMore(idom, freq, complexSuccs, near, minCost, homes, n, to);
  }


  lemma IdomOfBlock(g: Graph, doms: seq<set<nat>>, idom: seq<int>, b: nat)
    requires IdomsExact(g, doms, idom) && b < |g|
    ensures |idom| == |g| && (idom[b] == -1 || 0 <= idom[b] < |g|)
  {}

  /** The search stands at the `n`th dominator above `b`; none below it is wanted. */
  ghost predicate WayUp(idom: seq<int>, freq: seq<nat>, complexSuccs: seq<bool>, b: nat, cost: nat, near: bool, n: nat, try: int) {
    n >= 1 && try == Up(idom, b, n) && NotBelow(idom, freq, complexSuccs, b, cost, near, n) && Tried(idom, b, n - 1)
  }

  lemma FirstUp(idom: seq<int>, freq: seq<nat>, complexSuccs: seq<bool>, b: nat, cost: nat, near: bool)
    requires b < |idom|
    ensures WayUp(idom, freq, complexSuccs, b, cost, near, 1, idom[b])
  {
    assert Up(idom, b, 0) == b;
  }

  lemma TryWanted(idom: seq<int>, freq: seq<nat>, complexSuccs: seq<bool>, b: nat, cost: nat, near: bool, n: nat, try: nat)
    requires WayUp(idom, freq, complexSuccs, b, cost, near, n, try) && try != ENTRY_BLOCK
    requires try < |freq| == |complexSuccs| && !complexSuccs[try] && (freq[try] < cost || (freq[try] == cost && near))
    ensures NextWanted(idom, freq, complexSuccs, b, cost, near, n) && Up(idom, b, n) == try
  {
    hide Up;
  }

  lemma TryUnwanted(idom: seq<int>, freq: seq<nat>, complexSuccs: seq<bool>, b: nat, cost: nat, near: bool, n: nat, try: nat)
    requires WayUp(idom, freq, complexSuccs, b, cost, near, n, try) && try != ENTRY_BLOCK && try < |idom|
    requires try < |freq| == |complexSuccs| && (complexSuccs[try] || !(freq[try] < cost || (freq[try] == cost && near)))
    ensures WayUp(idom, freq, complexSuccs, b, cost, near, n + 1, idom[try])
  {
    assert Up(idom, b, n + 1) == idom[try];
    hide Up;
  }

  lemma RefusedBy(g: Graph, idom: seq<int>, freq: seq<nat>, complexSuccs: seq<bool>, live: Liveness, range: set<nat>, bb: nat,
                  near: bool, allBtrs: set<nat>, held: seq<nat>, n: nat, try: nat)
    requires bb < |freq| && NextWanted(idom, freq, complexSuccs, bb, freq[bb], near, n) && Up(idom, bb, n) == try
    requires AllTaken(g, live, range, bb, try, allBtrs, held)
    ensures Refused(g, idom, freq, complexSuccs, live, range, bb, near, allBtrs, held, n)
  {}

  lemma RefusedIsWanted(g: Graph, idom: seq<int>, freq: seq<nat>, complexSuccs: seq<bool>, live: Liveness, range: set<nat>, bb: nat,
                        near: bool, allBtrs: set<nat>, held: seq<nat>, n: nat)
    requires bb < |freq| && Refused(g, idom, freq, complexSuccs, live, range, bb, near, allBtrs, held, n)
    ensures !NoneWanted(idom, freq, complexSuccs, bb, freq[bb], near)
  {}
}
