/**
 * Connecting the traces: every trace is appended once, through `aux`, to the order that starts with
 * trace 0; with hot/cold partitioning the traces of one partition come before those of the other.
 */
module TraceConnection {
  import opened Options
  import opened BlockChains
  import opened BlockReorder

  /** A trace laid out as the chain `c`. */
  ghost predicate TraceIs(tr: Trace, c: seq<Block>, aux: map<Block, Block>) {
    c != [] && tr.first == c[0] && tr.last == Last(c) && Link(aux, c)
  }

  /** No block is waiting; the traces are chains that share no block and hold every visited block. */
  ghost predicate Settled(f0: Flow, s: State, lay: Layout) {
    && Core(f0, s.flow, s.marks.visited.Keys, s.bbd, lay.origin, {}) && s.bbd.heap == {} && s.bbd.newHeap == {}
    && |s.traces| == |lay.chains| && ChainsOk(lay.chains, lay.owner) && lay.owner.Keys == s.marks.visited.Keys
    && (forall k :: 0 <= k < |s.traces| ==> TraceIs(s.traces[k], lay.chains[k], s.marks.aux))
    && (forall b :: b in s.bbd.startOfTrace ==>
          s.bbd.startOfTrace[b] < |s.traces| && s.traces[s.bbd.startOfTrace[b]].first == b)
    && (forall k :: 0 <= k < |s.traces| ==> StartKnown(s.traces[k], s.bbd, k))
  }

  /** The recorded end of a trace is its end as long as the trace is not connected. */
  ghost predicate EndsFree(traces: seq<Trace>, bbd: Bbd, connected: seq<bool>)
    requires |connected| == |traces|
  {
    && (forall b :: b in bbd.endOfTrace ==>
          bbd.endOfTrace[b] < |traces| && (!connected[bbd.endOfTrace[b]] ==> traces[bbd.endOfTrace[b]].last == b))
    && (forall k :: 0 <= k < |traces| && !connected[k] ==> EndKnown(traces[k], bbd, k))
  }

  /** In `order`, the last block of each trace links to the first block of the next. */
  ghost predicate Joined(chains: seq<seq<Block>>, aux: map<Block, Block>, order: seq<nat>) {
    && (forall i :: 0 <= i < |order| ==> order[i] < |chains| && chains[order[i]] != [])
    && (forall i :: 0 <= i < |order| - 1 ==>
          Last(chains[order[i]]) in aux && aux[Last(chains[order[i]])] == chains[order[i + 1]][0])
    && (order != [] ==> Last(chains[Last(order)]) !in aux)
  }

  ghost predicate FreeLasts(chains: seq<seq<Block>>, aux: map<Block, Block>, connected: seq<bool>)
    requires |connected| == |chains|
  {
    forall k :: 0 <= k < |chains| && !connected[k] ==> chains[k] != [] && Last(chains[k]) !in aux
  }

  /** The traces in `order` and in `pre`, no trace twice, are the connected ones. */
  ghost predicate Ordered(order: seq<nat>, pre: seq<nat>, connected: seq<bool>) {
    && Distinct(order + pre)
    && (forall k: nat :: k in order + pre <==> k < |connected| && connected[k])
  }

  /** The loop invariant of the connection phase. */
  ghost predicate Conn(f0: Flow, s: State, lay: Layout, connected: seq<bool>, order: seq<nat>, pre: seq<nat>) {
    && Settled(f0, s, lay) && |connected| == |s.traces|
    && EndsFree(s.traces, s.bbd, connected) && FreeLasts(lay.chains, s.marks.aux, connected)
    && Ordered(order, pre, connected)
    && Joined(lay.chains, s.marks.aux, order) && Joined(lay.chains, s.marks.aux, pre)
  }

  /** The blocks of the traces in `order`, one trace after the other. */
  ghost function Flat(chains: seq<seq<Block>>, order: seq<nat>): seq<Block>
    requires forall i :: 0 <= i < |order| ==> order[i] < |chains|
  {
    if order == [] then [] else Flat(chains, order[..|order| - 1]) + chains[Last(order)]
  }

  /** Linking the open end of trace `u` to the block `d`. */
  lemma JoinKeepsTraces(chains: seq<seq<Block>>, owner: map<Block, nat>, traces: seq<Trace>, aux: map<Block, Block>, u: nat, d: Block)
    requires |traces| == |chains| && u < |chains| && ChainsOk(chains, owner)
    requires forall k :: 0 <= k < |traces| ==> TraceIs(traces[k], chains[k], aux)
    ensures forall k :: 0 <= k < |traces| ==> TraceIs(traces[k], chains[k], aux[Last(chains[u]) := d])
  {
    var l := Last(chains[u]);
    assert l in chains[u];
    forall k | 0 <= k < |traces|
      ensures TraceIs(traces[k], chains[k], aux[l := d])
    {
      assert TraceIs(traces[k], chains[k], aux);
      if k == u {
        LinkFrameButLast(aux, aux[l := d], chains[k]);
      } else {
        assert owner[l] == u;
        assert l !in chains[k];
        LinkFrame(aux, aux[l := d], chains[k]);
      }
    }
  }

  lemma LastsDiffer(chains: seq<seq<Block>>, owner: map<Block, nat>, u: nat, k: nat)
    requires ChainsOk(chains, owner) && u < |chains| && k < |chains| && u != k
    ensures chains[u] != [] && chains[k] != [] && Last(chains[u]) != Last(chains[k])
  {
    var a, b := Last(chains[u]), Last(chains[k]);
    assert a in chains[u] && b in chains[k];
    assert owner[a] == u && owner[b] == k;
  }

  lemma JoinKeepsOrder(chains: seq<seq<Block>>, owner: map<Block, nat>, aux: map<Block, Block>, order: seq<nat>, u: nat, d: Block)
    requires ChainsOk(chains, owner) && u < |chains| && Joined(chains, aux, order) && u !in order
    ensures Joined(chains, aux[Last(chains[u]) := d], order)
  {
    forall i | 0 <= i < |order|
      ensures chains[u] != [] && Last(chains[order[i]]) != Last(chains[u])
    {
      assert order[i] in order;
      LastsDiffer(chains, owner, u, order[i]);
    }
  }

  /** Putting the trace `u` in front of `pre`. */
  lemma PrependJoined(chains: seq<seq<Block>>, owner: map<Block, nat>, aux: map<Block, Block>, pre: seq<nat>, u: nat)
    requires ChainsOk(chains, owner) && u < |chains| && Joined(chains, aux, pre) && pre != [] && u !in pre
    ensures Joined(chains, aux[Last(chains[u]) := chains[pre[0]][0]], [u] + pre)
  {
    JoinKeepsOrder(chains, owner, aux, pre, u, chains[pre[0]][0]);
    var aux', p := aux[Last(chains[u]) := chains[pre[0]][0]], [u] + pre;
    forall i | 0 <= i < |p| - 1
      ensures Last(chains[p[i]]) in aux' && aux'[Last(chains[p[i]])] == chains[p[i + 1]][0]
    {
      if i > 0 {
        assert p[i] == pre[i - 1] && p[i + 1] == pre[i];
      }
    }
    assert Last(p) == Last(pre);
  }

  /** Linking the end of `order` to the start of `pre`. */
  lemma AppendJoined(chains: seq<seq<Block>>, owner: map<Block, nat>, aux: map<Block, Block>, order: seq<nat>, pre: seq<nat>)
    requires ChainsOk(chains, owner) && Joined(chains, aux, order) && Joined(chains, aux, pre)
    requires order != [] && pre != [] && Distinct(order + pre)
    ensures Joined(chains, aux[Last(chains[Last(order)]) := chains[pre[0]][0]], order + pre)
  {
    var u, o := Last(order), order + pre;
    var aux' := aux[Last(chains[u]) := chains[pre[0]][0]];
    forall i | 0 <= i < |o| && i != |order| - 1
      ensures chains[o[i]] != [] && Last(chains[o[i]]) != Last(chains[u])
    {
      assert o[|order| - 1] == u && o[i] != o[|order| - 1];
      assert o[i] < |chains| by { assert o[i] == if i < |order| then order[i] else pre[i - |order|]; }
      LastsDiffer(chains, owner, u, o[i]);
    }
    forall i | 0 <= i < |o| - 1
      ensures Last(chains[o[i]]) in aux' && aux'[Last(chains[o[i]])] == chains[o[i + 1]][0]
    {
      if i < |order| - 1 {
        assert o[i] == order[i] && o[i + 1] == order[i + 1];
      } else if i >= |order| {
        assert o[i] == pre[i - |order|] && o[i + 1] == pre[i - |order| + 1];
      }
    }
    assert Last(o) == Last(pre) == o[|o| - 1];
  }

  lemma OrderedAdd(order: seq<nat>, pre: seq<nat>, connected: seq<bool>, u: nat)
    requires Ordered(order, pre, connected) && u < |connected| && !connected[u]
    ensures Ordered(order, [u] + pre, connected[u := true]) && u !in order && u !in pre
  {
    assert u !in order + pre;
    assert order + ([u] + pre) == order + [u] + pre;
    InsertKeepsDistinct(order, u, pre);
    assert u !in order && u !in pre by {
      assert forall x :: x in order ==> x in order + pre;
      assert forall x :: x in pre ==> x in order + pre;
    }
  }

  lemma OrderedShift(order: seq<nat>, pre: seq<nat>, connected: seq<bool>)
    requires Ordered(order, pre, connected)
    ensures Ordered(order + pre, [], connected)
  {
    assert order + pre + [] == order + pre;
  }

  lemma FreeLastsJoin(chains: seq<seq<Block>>, owner: map<Block, nat>, aux: map<Block, Block>, connected: seq<bool>,
                      connected': seq<bool>, u: nat, d: Block)
    requires ChainsOk(chains, owner) && |connected| == |connected'| == |chains| && u < |chains| && connected'[u]
    requires FreeLasts(chains, aux, connected)
    requires forall k :: 0 <= k < |chains| && !connected'[k] ==> !connected[k]
    ensures FreeLasts(chains, aux[Last(chains[u]) := d], connected')
  {
    forall k | 0 <= k < |chains| && !connected'[k]
      ensures chains[k] != [] && Last(chains[k]) !in aux[Last(chains[u]) := d]
    {
      LastsDiffer(chains, owner, u, k);
    }
  }

  lemma SettledJoin(f0: Flow, s: State, lay: Layout, u: nat, d: Block)
    requires Settled(f0, s, lay) && u < |s.traces|
    ensures s.traces[u].last == Last(lay.chains[u])
    ensures Settled(f0, s.(marks := s.marks.(aux := s.marks.aux[s.traces[u].last := d])), lay)
  {
    hide Core;
    assert TraceIs(s.traces[u], lay.chains[u], s.marks.aux);
    JoinKeepsTraces(lay.chains, lay.owner, s.traces, s.marks.aux, u, d);
  }

  lemma ConnFacts(f0: Flow, s: State, lay: Layout, connected: seq<bool>, order: seq<nat>, pre: seq<nat>)
    requires Conn(f0, s, lay, connected, order, pre)
    ensures |s.traces| == |lay.chains| == |connected| && ChainsOk(lay.chains, lay.owner)
    ensures forall k: nat :: k < |s.traces| ==>
              lay.chains[k] != [] && s.traces[k].first == lay.chains[k][0] && s.traces[k].last == Last(lay.chains[k])
    ensures forall k: nat :: k in order || k in pre ==> k < |connected| && connected[k]
  {
    hide Core, ChainsOk, Joined, EndsFree, FreeLasts;
    assert forall k: nat :: k < |s.traces| ==> TraceIs(s.traces[k], lay.chains[k], s.marks.aux);
    assert forall k: nat :: k in order || k in pre ==> k in order + pre;
  }

  /** Connecting trace `u` in front of the traces in `pre`. */
  lemma PrependConn(f0: Flow, s: State, lay: Layout, connected: seq<bool>, order: seq<nat>, pre: seq<nat>, u: nat)
    requires Conn(f0, s, lay, connected, order, pre) && pre != [] && u < |connected| && !connected[u]
    ensures |s.traces| == |lay.chains| == |connected| && pre[0] < |connected|
    ensures var aux := s.marks.aux[s.traces[u].last := s.traces[pre[0]].first];
      Conn(f0, s.(marks := s.marks.(aux := aux)), lay, connected[u := true], order, [u] + pre)
  {
    hide Settled, Ordered, FreeLasts, Joined, ChainsOk;
    ConnFacts(f0, s, lay, connected, order, pre);
    assert pre[0] in pre;
    var d := s.traces[pre[0]].first;
    SettledJoin(f0, s, lay, u, d);
    OrderedAdd(order, pre, connected, u);
    FreeLastsJoin(lay.chains, lay.owner, s.marks.aux, connected, connected[u := true], u, d);
    JoinKeepsOrder(lay.chains, lay.owner, s.marks.aux, order, u, d);
    PrependJoined(lay.chains, lay.owner, s.marks.aux, pre, u);
  }

  /** Appending the traces in `pre` to the order. */
  lemma AppendConn(f0: Flow, s: State, lay: Layout, connected: seq<bool>, order: seq<nat>, pre: seq<nat>)
    requires Conn(f0, s, lay, connected, order, pre) && pre != [] && order != []
    ensures |s.traces| == |lay.chains| == |connected| && pre[0] < |connected| && Last(order) < |connected|
    ensures var aux := s.marks.aux[s.traces[Last(order)].last := s.traces[pre[0]].first];
      Conn(f0, s.(marks := s.marks.(aux := aux)), lay, connected, order + pre, [])
  {
    assert Distinct(order + pre);
    hide Settled, Ordered, FreeLasts, ChainsOk, EndsFree;
    ConnFacts(f0, s, lay, connected, order, pre);
    assert pre[0] in pre && Last(order) in order;
    var u, d := Last(order), s.traces[pre[0]].first;
    SettledJoin(f0, s, lay, u, d);
    OrderedShift(order, pre, connected);
    FreeLastsJoin(lay.chains, lay.owner, s.marks.aux, connected, connected, u, d);
    AppendJoined(lay.chains, lay.owner, s.marks.aux, order, pre);
  }

  /** Starting a new run of traces with `t`. */
  lemma StartRun(f0: Flow, s: State, lay: Layout, connected: seq<bool>, order: seq<nat>, t: nat)
    requires Conn(f0, s, lay, connected, order, []) && t < |connected| && !connected[t]
    ensures Conn(f0, s, lay, connected[t := true], order, [t])
  {
    hide Settled, Ordered;
    assert |lay.chains| == |connected| by { ConnFacts(f0, s, lay, connected, order, []); }
    OrderedAdd(order, [], connected, t);
    assert [t] + [] == [t];
  }

  ghost function Unconnected(connected: seq<bool>): set<nat> {
    set k: nat | k < |connected| && !connected[k]
  }

  ghost predicate Uniform(part: map<Block, Partition>, chains: seq<seq<Block>>) {
    forall k :: 0 <= k < |chains| ==> SamePartition(part, chains[k])
  }

  /** The traces numbered in `ks` lie in partition `p`. */
  ghost predicate InPart(part: map<Block, Partition>, chains: seq<seq<Block>>, ks: seq<nat>, p: Partition) {
    forall k :: k in ks ==> k < |chains| && chains[k] != [] && chains[k][0] in part && part[chains[k][0]] == p
  }

  /** Edge `j` of `src` falls from the end of an unconnected trace into the block `first`. */
  predicate Fallthru(s: State, connected: seq<bool>, src: Block, j: nat, first: Block, cur: Partition)
    requires |connected| == |s.traces|
  {
    && src in s.flow.succs && src != ENTRY && j < |s.flow.succs[src]|
    && s.flow.succs[src][j].dest == first && s.flow.succs[src][j].canFallthru && !s.flow.succs[src][j].complex
    && src in s.bbd.endOfTrace && s.bbd.endOfTrace[src] < |s.traces| && !connected[s.bbd.endOfTrace[src]]
    && src in s.flow.partition && s.flow.partition[src] == cur
  }

  /** Edge `j` of `src` falls into the first block of an unconnected trace. */
  predicate FallsInto(s: State, connected: seq<bool>, src: Block, j: nat, cur: Partition)
    requires |connected| == |s.traces|
  {
    && src in s.flow.succs && j < |s.flow.succs[src]|
    && s.flow.succs[src][j].canFallthru && !s.flow.succs[src][j].complex
    && Links(s, connected, s.flow.succs[src][j].dest, cur)
  }

  /** `d` starts an unconnected trace of partition `cur`. */
  predicate Links(s: State, connected: seq<bool>, d: Block, cur: Partition)
    requires |connected| == |s.traces|
  {
    && d != EXIT && d in s.bbd.startOfTrace && s.bbd.startOfTrace[d] < |s.traces| && !connected[s.bbd.startOfTrace[d]]
    && d in s.flow.partition && s.flow.partition[d] == cur
  }

  // ---- falling from one trace into another ----

  predicate FallsTo(e: Edge, d: Block) {
    e.dest == d && e.canFallthru && !e.complex
  }

  /** The end of trace `a` may fall through into the start of trace `b`. */
  ghost predicate TraceFalls(s: State, a: nat, b: nat) {
    && a < |s.traces| && b < |s.traces| && s.traces[a].last in s.flow.succs
    && exists j :: 0 <= j < |s.flow.succs[s.traces[a].last]| && FallsTo(s.flow.succs[s.traces[a].last][j], s.traces[b].first)
  }

  /** The partition that trace `k` starts in. */
  function FirstPartition(s: State, k: nat): Partition
    requires k < |s.traces|
  {
    if s.traces[k].first in s.flow.partition then s.flow.partition[s.traces[k].first] else Unpartitioned
  }

  /** The partition that trace `k` ends in. */
  function LastPartition(s: State, k: nat): Partition
    requires k < |s.traces|
  {
    if s.traces[k].last in s.flow.partition then s.flow.partition[s.traces[k].last] else Unpartitioned
  }

  /** Trace `i` of the order falls into none of the traces of partition `cur` that come later or are not in the order. */
  ghost predicate Stuck(s: State, order: seq<nat>, i: nat, cur: Partition)
    requires i < |order|
  {
    forall u: nat :: u < |s.traces| && u !in order[..i + 1] && FirstPartition(s, u) == cur ==> !TraceFalls(s, order[i], u)
  }

  /** Trace `i` of the order falls into the next one, if it could fall into any that was left. */
  ghost predicate Fits(s: State, order: seq<nat>, i: nat, cur: Partition)
    requires i < |order|
  {
    (i + 1 < |order| && TraceFalls(s, order[i], order[i + 1])) || Stuck(s, order, i, cur)
  }

  ghost predicate TraceKept(s: State, s': State, k: nat) {
    && k < |s.traces| && k < |s'.traces| && s'.traces[k] == s.traces[k]
    && s.traces[k].last in s.flow.succs && s.traces[k].last in s'.flow.succs
    && s'.flow.succs[s.traces[k].last] == s.flow.succs[s.traces[k].last]
    && LastPartition(s', k) == LastPartition(s, k)
  }

  /** The traces not yet connected stand as they were, and all start where they did. */
  ghost predicate Untouched(s: State, s': State, connected: seq<bool>) {
    && |s'.traces| == |s.traces| == |connected|
    && (forall k: nat :: k < |connected| && !connected[k] ==> TraceKept(s, s', k))
    && (forall k: nat :: k < |connected| ==> s'.traces[k].first == s.traces[k].first && FirstPartition(s', k) == FirstPartition(s, k))
  }

  lemma KeptFalls(s: State, s': State, a: nat, b: nat)
    requires TraceKept(s, s', a) && |s'.traces| == |s.traces| && b < |s.traces| && s'.traces[b].first == s.traces[b].first
    ensures TraceFalls(s', a, b) <==> TraceFalls(s, a, b)
  {}

  lemma UntouchedTwice(s: State, s1: State, s2: State, connected: seq<bool>, connected': seq<bool>)
    requires Untouched(s, s1, connected) && Untouched(s1, s2, connected') && |connected'| == |connected|
    requires forall k :: 0 <= k < |connected| && connected[k] ==> connected'[k]
    ensures Untouched(s, s2, connected')
  {
    forall k: nat | k < |connected'| && !connected'[k]
      ensures TraceKept(s, s2, k)
    {
      assert TraceKept(s, s1, k) && TraceKept(s1, s2, k);
    }
  }

  lemma UntouchedLess(s: State, s': State, connected: seq<bool>, connected': seq<bool>)
    requires Untouched(s, s', connected) && |connected'| == |connected|
    requires forall k :: 0 <= k < |connected| && connected[k] ==> connected'[k]
    ensures Untouched(s, s', connected')
  {
    hide TraceKept;
  }

  /** Only links have changed. */
  lemma UntouchedLinks(f0: Flow, s: State, lay: Layout, connected: seq<bool>, order: seq<nat>, pre: seq<nat>, s': State)
    requires Conn(f0, s, lay, connected, order, pre) && s'.flow == s.flow && s'.traces == s.traces
    ensures Untouched(s, s', connected)
  {
    forall k: nat | k < |connected|
      ensures s.traces[k].last in s.flow.succs
    {
      LastVisited(f0, s, lay, k);
    }
  }

  lemma FitsLonger(s: State, order: seq<nat>, more: seq<nat>, i: nat, cur: Partition)
    requires i < |order| && Fits(s, order, i, cur) && (i == |order| - 1 ==> Stuck(s, order, i, cur))
    ensures Fits(s, order + more, i, cur)
  {
    hide TraceFalls;
    assert (order + more)[..i + 1] == order[..i + 1];
  }

  /** Without an edge to fall along, the last trace of the order is stuck. */
  lemma NoFallStuck(f0: Flow, s: State, s': State, lay: Layout, connected: seq<bool>, order: seq<nat>, t: nat, cur: Partition)
    requires Conn(f0, s', lay, connected, order, []) && order != [] && Last(order) == t && |connected| == |s'.traces|
    requires Untouched(s, s', connected) && TraceKept(s, s', t)
    requires forall j: nat :: j < |s'.flow.succs[s'.traces[t].last]| ==> !FallsInto(s', connected, s'.traces[t].last, j, cur)
    ensures Stuck(s, order, |order| - 1, cur)
  {
    hide Conn, TraceFalls, TraceKept, FallsInto, StartKnown, Untouched;
    FirstsKnown(f0, s', lay, connected, order);
    StartsKnown(f0, s', lay, connected, order);
    OthersLeft(f0, s', lay, connected, order);
    UntouchedStarts(s, s', connected);
    KeptLast(s, s', t);
    assert order[..|order|] == order;
    forall u: nat | u < |s.traces| && u !in order && FirstPartition(s, u) == cur
      ensures !TraceFalls(s, t, u)
    {
      KeptFalls(s, s', t, u);
      NotAlong(s', connected, t, u, cur);
    }
  }

  lemma UntouchedStarts(s: State, s': State, connected: seq<bool>)
    requires Untouched(s, s', connected)
    ensures |s'.traces| == |s.traces| == |connected|
    ensures forall k: nat :: k < |connected| ==> s'.traces[k].first == s.traces[k].first && FirstPartition(s', k) == FirstPartition(s, k)
  {}

  lemma KeptLast(s: State, s': State, t: nat)
    requires TraceKept(s, s', t)
    ensures t < |s.traces| && t < |s'.traces| && s'.traces[t].last in s'.flow.succs && s'.traces[t] == s.traces[t]
  {}

  lemma NotAlong(s: State, connected: seq<bool>, t: nat, u: nat, cur: Partition)
    requires |connected| == |s.traces| && t < |s.traces| && u < |s.traces| && !connected[u] && s.traces[t].last in s.flow.succs
    requires StartKnown(s.traces[u], s.bbd, u) && s.traces[u].first != EXIT && s.traces[u].first in s.flow.partition
    requires FirstPartition(s, u) == cur
    requires forall j: nat :: j < |s.flow.succs[s.traces[t].last]| ==> !FallsInto(s, connected, s.traces[t].last, j, cur)
    ensures !TraceFalls(s, t, u)
  {
    var last := s.traces[t].last;
    forall j: nat | j < |s.flow.succs[last]|
      ensures !FallsTo(s.flow.succs[last][j], s.traces[u].first)
    {
      assert !FallsInto(s, connected, last, j, cur);
    }
  }

  lemma OthersLeft(f0: Flow, s: State, lay: Layout, connected: seq<bool>, order: seq<nat>)
    requires Conn(f0, s, lay, connected, order, [])
    ensures |s.traces| == |connected| && forall u: nat :: u < |connected| ==> (u in order <==> connected[u])
  {
    hide Settled, Joined, FreeLasts, EndsFree;
    assert order + [] == order;
  }

  lemma StartsKnown(f0: Flow, s: State, lay: Layout, connected: seq<bool>, order: seq<nat>)
    requires Conn(f0, s, lay, connected, order, [])
    ensures forall k :: 0 <= k < |s.traces| ==> StartKnown(s.traces[k], s.bbd, k) && s.traces[k].first != EXIT
  {
    FirstsKnown(f0, s, lay, connected, order);
    hide Reachable, Frontier, Joined, FreeLasts, EndsFree, Ordered, Link, ChainsOk, CopiesOk;
    assert EXIT !in s.flow.succs;
  }

  /** No trace of partition `cur` that is left falls into trace `t`. */
  ghost predicate NoneFallsInto(s: State, connected: seq<bool>, t: nat, cur: Partition)
    requires |connected| == |s.traces|
  {
    forall u: nat :: u < |connected| && !connected[u] && LastPartition(s, u) == cur ==> !TraceFalls(s, u, t)
  }

  lemma NoFallthru(f0: Flow, s: State, lay: Layout, connected: seq<bool>, order: seq<nat>, pre: seq<nat>, t: nat, cur: Partition)
    requires Conn(f0, s, lay, connected, order, pre) && |connected| == |s.traces| && t < |s.traces|
    requires forall src: Block, j: nat :: src in s.flow.succs && j < |s.flow.succs[src]| ==>
               !Fallthru(s, connected, src, j, s.traces[t].first, cur)
    ensures NoneFallsInto(s, connected, t, cur)
  {
    forall u: nat | u < |connected| && !connected[u] && LastPartition(s, u) == cur
      ensures !TraceFalls(s, u, t)
    {
      var last := s.traces[u].last;
      LastKnown(f0, s, lay, connected, order, pre, u);
      forall j: nat | j < |s.flow.succs[last]|
        ensures !FallsTo(s.flow.succs[last][j], s.traces[t].first)
      {
        assert !Fallthru(s, connected, last, j, s.traces[t].first, cur);
      }
    }
  }

  lemma LastKnown(f0: Flow, s: State, lay: Layout, connected: seq<bool>, order: seq<nat>, pre: seq<nat>, u: nat)
    requires Conn(f0, s, lay, connected, order, pre) && u < |connected| && !connected[u]
    ensures u < |s.traces| && EndKnown(s.traces[u], s.bbd, u)
    ensures var b := s.traces[u].last; b in s.flow.succs && b in s.flow.partition && b != ENTRY
  {
    LastVisited(f0, s, lay, u);
    CoreBlocks(f0, s.flow, s.marks.visited.Keys, s.bbd, lay.origin, {});
    hide Core, ChainsOk, Joined, FreeLasts, Ordered, Link;
  }

  /** Strings unconnected traces together in front of trace `t`. */
  method FindPredecessors(ghost f0: Flow, s: State, ghost lay: Layout, connected: seq<bool>, ghost order: seq<nat>,
                          t: nat, cur: Partition)
    returns (s': State, connected': seq<bool>, t2: nat, ghost pre: seq<nat>)
    requires Conn(f0, s, lay, connected, order, [t]) && |connected| == |s.traces|
    ensures Conn(f0, s', lay, connected', order, pre) && pre != [] && pre[0] == t2 && Last(pre) == t
    ensures s'.flow == s.flow && s'.bbd == s.bbd && s'.traces == s.traces && s'.marks.visited == s.marks.visited
    ensures |connected'| == |connected| && forall k :: 0 <= k < |connected| && connected[k] ==> connected'[k]
    ensures Uniform(s.flow.partition, lay.chains) && InPart(s.flow.partition, lay.chains, [t], cur) ==>
              InPart(s.flow.partition, lay.chains, pre, cur)
    ensures t == 0 ==> pre == [0]
    ensures forall i :: 0 <= i < |pre| - 1 ==> TraceFalls(s, pre[i], pre[i + 1])
    ensures t2 == 0 || NoneFallsInto(s, connected', t2, cur)
  {
    hide Conn, TraceFalls, NoneFallsInto;
    s', connected', t2, pre := s, connected, t, [t];
    var more := true;
    while t2 > 0 && more
      invariant Conn(f0, s', lay, connected', order, pre) && pre != [] && pre[0] == t2 && Last(pre) == t
      invariant s'.flow == s.flow && s'.bbd == s.bbd && s'.traces == s.traces && s'.marks.visited == s.marks.visited
      invariant |connected'| == |connected| && forall k :: 0 <= k < |connected| && connected[k] ==> connected'[k]
      invariant Uniform(s.flow.partition, lay.chains) && InPart(s.flow.partition, lay.chains, [t], cur) ==>
                  InPart(s.flow.partition, lay.chains, pre, cur)
      invariant t == 0 ==> pre == [0]
      invariant forall i :: 0 <= i < |pre| - 1 ==> TraceFalls(s, pre[i], pre[i + 1])
      invariant !more ==> NoneFallsInto(s, connected', t2, cur)
      decreases more, Unconnected(connected')
    {
      ConnFacts(f0, s', lay, connected', order, pre);
      assert t2 in pre;
      if src: Block, j: nat :| src in s'.flow.succs && j < |s'.flow.succs[src]|
                               && Fallthru(s', connected', src, j, s'.traces[t2].first, cur) {
        var u := s'.bbd.endOfTrace[src];
        EndIs(f0, s', lay, connected', order, pre, src);
        PrependConn(f0, s', lay, connected', order, pre, u);
        s' := s'.(marks := s'.marks.(aux := s'.marks.aux[src := s'.traces[t2].first]));
        assert u in Unconnected(connected');
        FallsAlong(s, u, t2, j);
        ghost var was := pre;
        connected', t2, pre := connected'[u := true], u, [u] + pre;
        assert forall i :: 0 < i < |pre| ==> pre[i] == was[i - 1];
        assert u !in Unconnected(connected');
      } else {
        NoFallthru(f0, s', lay, connected', order, pre, t2, cur);
        NoneFallsSame(s, s', connected', t2, cur);
        more := false;
      }
    }
  }

  lemma FallsAlong(s: State, a: nat, b: nat, j: nat)
    requires a < |s.traces| && b < |s.traces| && s.traces[a].last in s.flow.succs && j < |s.flow.succs[s.traces[a].last]|
    requires FallsTo(s.flow.succs[s.traces[a].last][j], s.traces[b].first)
    ensures TraceFalls(s, a, b)
  {}

  lemma NoneFallsSame(s: State, s': State, connected: seq<bool>, t: nat, cur: Partition)
    requires s'.flow == s.flow && s'.traces == s.traces && |connected| == |s.traces| && NoneFallsInto(s', connected, t, cur)
    ensures NoneFallsInto(s, connected, t, cur)
  {
    forall u: nat | u < |connected| && !connected[u] && LastPartition(s, u) == cur
      ensures !TraceFalls(s, u, t)
    {
      assert LastPartition(s', u) == cur && !TraceFalls(s', u, t);
    }
  }

  lemma EndIs(f0: Flow, s: State, lay: Layout, connected: seq<bool>, order: seq<nat>, pre: seq<nat>, b: Block)
    requires Conn(f0, s, lay, connected, order, pre) && b in s.bbd.endOfTrace
    ensures |connected| == |s.traces| == |lay.chains| && s.bbd.endOfTrace[b] < |s.traces|
    ensures !connected[s.bbd.endOfTrace[b]] ==>
              s.traces[s.bbd.endOfTrace[b]].last == b && b in lay.chains[s.bbd.endOfTrace[b]]
  {
    hide Core, ChainsOk, Joined, FreeLasts, Ordered, Link;
    var k := s.bbd.endOfTrace[b];
    if !connected[k] {
      assert TraceIs(s.traces[k], lay.chains[k], s.marks.aux);
    }
  }

  lemma StartIs(f0: Flow, s: State, lay: Layout, connected: seq<bool>, order: seq<nat>, pre: seq<nat>, b: Block)
    requires Conn(f0, s, lay, connected, order, pre) && b in s.bbd.startOfTrace
    ensures |connected| == |s.traces| == |lay.chains| && s.bbd.startOfTrace[b] < |s.traces|
    ensures var c := lay.chains[s.bbd.startOfTrace[b]]; s.traces[s.bbd.startOfTrace[b]].first == b && c != [] && c[0] == b
  {
    hide Core, ChainsOk, Joined, FreeLasts, Ordered, Link;
    var k := s.bbd.startOfTrace[b];
    assert TraceIs(s.traces[k], lay.chains[k], s.marks.aux);
  }

  /** Connecting trace `u` after the last trace of the order. */
  lemma LinkNext(f0: Flow, s: State, lay: Layout, connected: seq<bool>, order: seq<nat>, d: Block)
    requires Conn(f0, s, lay, connected, order, []) && order != []
    requires d in s.bbd.startOfTrace && s.bbd.startOfTrace[d] < |connected| && !connected[s.bbd.startOfTrace[d]]
    ensures |s.traces| == |connected| && Last(order) < |connected|
    ensures var u := s.bbd.startOfTrace[d];
      && s.traces[u].first == d
      && Conn(f0, s.(marks := s.marks.(aux := s.marks.aux[s.traces[Last(order)].last := d])), lay, connected[u := true], order + [u], [])
  {
    hide Conn;
    StartIs(f0, s, lay, connected, order, [], d);
    StartRun(f0, s, lay, connected, order, s.bbd.startOfTrace[d]);
    AppendConn(f0, s, lay, connected[s.bbd.startOfTrace[d] := true], order, [s.bbd.startOfTrace[d]]);
  }

  lemma DestVisited(f0: Flow, s: State, lay: Layout, b: Block, j: nat)
    requires Settled(f0, s, lay) && b in s.marks.visited && b in s.flow.succs && j < |s.flow.succs[b]|
    ensures s.flow.succs[b][j].dest == EXIT
      || (s.flow.succs[b][j].dest in s.marks.visited && s.flow.succs[b][j].dest in s.flow.succs)
  {
    hide ChainsOk, Link, Reachable;
  }

  lemma LastVisited(f0: Flow, s: State, lay: Layout, k: nat)
    requires Settled(f0, s, lay) && k < |s.traces|
    ensures var b := s.traces[k].last;
      b in s.marks.visited && b in s.flow.succs && k < |lay.chains| && lay.chains[k] != [] && b == Last(lay.chains[k])
  {
    hide Link, Reachable, Frontier, GraphInv;
    assert TraceIs(s.traces[k], lay.chains[k], s.marks.aux);
    assert Last(lay.chains[k]) in lay.chains[k];
  }

  /** Linking a fresh copy `x` in behind the last trace of the order. */
  lemma CopyConn(f0: Flow, s: State, lay: Layout, connected: seq<bool>, order: seq<nat>, t: nat,
                 flow: Flow, x: Block, origin: map<Block, Block>)
    requires Conn(f0, s, lay, connected, order, []) && order != [] && Last(order) == t
    requires x !in s.marks.visited && Core(f0, flow, s.marks.visited.Keys + {x}, s.bbd, origin, {})
    ensures |s.traces| == |lay.chains| == |connected| && t < |connected| && lay.chains[t] != []
    ensures var aux, last := CopyLinked(s.marks.aux, s.traces[t].last, x), s.traces[t].last;
      Conn(f0, State(flow, Marks(aux, s.marks.visited[x := t]), s.bbd, s.traces[t := s.traces[t].(last := x)]),
           Layout(lay.chains[t := lay.chains[t] + [x]], lay.owner[x := t], origin), connected, order, [])
  {
    hide Core, ChainsOk, Joined, FreeLasts, Link, Distinct;
    ConnFacts(f0, s, lay, connected, order, []);
    assert t in order && order + [] == order;
    assert |s.traces| == |lay.chains| && connected[t] && x !in lay.owner;
    var last, c, aux' := s.traces[t].last, lay.chains[t], CopyLinked(s.marks.aux, s.traces[t].last, x);
    var visited, traces, chains := s.marks.visited[x := t], s.traces[t := s.traces[t].(last := x)], lay.chains[t := c + [x]];
    assert visited.Keys == s.marks.visited.Keys + {x} && lay.owner[x := t].Keys == visited.Keys;
    assert TraceIs(s.traces[t], c, s.marks.aux);
    CopyChain(lay.chains, lay.owner, s.marks.aux, aux', order, t, x);
    CopyTraces(s.traces, traces, lay.chains, chains, lay.owner, s.marks.aux, aux', t, x);
    CopyJoined(lay.chains, lay.owner, s.marks.aux, aux', order, t, x);
    CopyFreeLasts(lay.chains, lay.owner, s.marks.aux, aux', connected, t, x);
    assert Joined(chains, aux', []) by { EmptyJoined(chains, aux'); }
    CopyStarts(s.traces, traces, s.bbd, connected, t, x);
  }

  lemma EmptyJoined(chains: seq<seq<Block>>, aux: map<Block, Block>)
    ensures Joined(chains, aux, [])
  {
  }

  lemma CopyStarts(traces: seq<Trace>, traces': seq<Trace>, bbd: Bbd, connected: seq<bool>, t: nat, x: Block)
    requires t < |traces| == |connected| && connected[t] && traces' == traces[t := traces[t].(last := x)]
    requires EndsFree(traces, bbd, connected)
    requires forall b :: b in bbd.startOfTrace ==> bbd.startOfTrace[b] < |traces| && traces[bbd.startOfTrace[b]].first == b
    requires forall k :: 0 <= k < |traces| ==> StartKnown(traces[k], bbd, k)
    ensures EndsFree(traces', bbd, connected) && forall k :: 0 <= k < |traces'| ==> StartKnown(traces'[k], bbd, k)
    ensures forall b :: b in bbd.startOfTrace ==> bbd.startOfTrace[b] < |traces'| && traces'[bbd.startOfTrace[b]].first == b
  {
  }

  lemma CopyChain(chains: seq<seq<Block>>, owner: map<Block, nat>, aux: map<Block, Block>, aux': map<Block, Block>,
                  order: seq<nat>, t: nat, x: Block)
    requires ChainsOk(chains, owner) && t < |chains| && x !in owner && chains[t] != [] && Link(aux, chains[t])
    requires Joined(chains, aux, order) && order != [] && Last(order) == t && aux' == CopyLinked(aux, Last(chains[t]), x)
    ensures ChainsOk(chains[t := chains[t] + [x]], owner[x := t]) && Link(aux', chains[t] + [x])
  {
    var c := chains[t];
    assert forall b :: b in c ==> b in owner;
    assert c + [] == c && c + [x] + [] == c + [x];
    InsertKeepsDistinct(c, x, []);
    CopyLinkedKeepsLink(aux, c, x, []);
    InsertInChain(chains, owner, t, c + [x], x);
  }

  lemma CopyTraces(traces: seq<Trace>, traces': seq<Trace>, chains: seq<seq<Block>>, chains': seq<seq<Block>>,
                   owner: map<Block, nat>, aux: map<Block, Block>, aux': map<Block, Block>, t: nat, x: Block)
    requires |traces| == |chains| && t < |chains| && ChainsOk(chains, owner) && x !in owner
    requires forall k :: 0 <= k < |traces| ==> TraceIs(traces[k], chains[k], aux)
    requires traces' == traces[t := traces[t].(last := x)] && chains' == chains[t := chains[t] + [x]]
    requires aux' == CopyLinked(aux, traces[t].last, x) && Link(aux', chains[t] + [x])
    ensures forall k :: 0 <= k < |traces'| ==> TraceIs(traces'[k], chains'[k], aux')
  {
    assert TraceIs(traces[t], chains[t], aux);
    assert Last(chains[t]) in chains[t];
    forall k | 0 <= k < |traces'|
      ensures TraceIs(traces'[k], chains'[k], aux')
    {
      assert TraceIs(traces[k], chains[k], aux);
      if k != t {
        assert forall b :: b in chains[k] ==> b in owner && owner[b] == k;
        LinkFrame(aux, aux', chains[k]);
      }
    }
  }

  lemma CopyJoined(chains: seq<seq<Block>>, owner: map<Block, nat>, aux: map<Block, Block>, aux': map<Block, Block>,
                   order: seq<nat>, t: nat, x: Block)
    requires ChainsOk(chains, owner) && t < |chains| && x !in owner && Distinct(order)
    requires Joined(chains, aux, order) && order != [] && Last(order) == t
    requires aux' == CopyLinked(aux, Last(chains[t]), x)
    ensures Joined(chains[t := chains[t] + [x]], aux', order)
  {
    var chains' := chains[t := chains[t] + [x]];
    forall i | 0 <= i < |order| - 1
      ensures Last(chains'[order[i]]) in aux' && aux'[Last(chains'[order[i]])] == chains'[order[i + 1]][0]
    {
      assert order[i] != order[|order| - 1];
      LastsDiffer(chains, owner, t, order[i]);
      assert Last(chains[order[i]]) in chains[order[i]];
      assert Last(chains[order[i]]) != x;
    }
    assert Last(chains[t]) in chains[t];
    assert Last(chains'[t]) == x;
  }

  lemma CopyFreeLasts(chains: seq<seq<Block>>, owner: map<Block, nat>, aux: map<Block, Block>, aux': map<Block, Block>,
                      connected: seq<bool>, t: nat, x: Block)
    requires ChainsOk(chains, owner) && t < |chains| == |connected| && x !in owner && connected[t]
    requires FreeLasts(chains, aux, connected)
    requires chains[t] != [] && aux' == CopyLinked(aux, Last(chains[t]), x)
    ensures FreeLasts(chains[t := chains[t] + [x]], aux', connected)
  {
    forall k | 0 <= k < |chains| && !connected[k]
      ensures chains[k] != [] && Last(chains[k]) !in aux'
    {
      LastsDiffer(chains, owner, t, k);
      assert Last(chains[k]) in chains[k];
    }
  }

  /** Edge `e` leads to a block worth duplicating behind the current trace. */
  predicate Copyable(s: State, connected: seq<bool>, e: Edge, cur: Partition)
    requires |connected| == |s.traces|
  {
    && e.dest != EXIT && e.canFallthru && !e.complex && e.dest in s.flow.succs
    && (|| (e.dest in s.bbd.startOfTrace && s.bbd.startOfTrace[e.dest] < |s.traces| && s.traces[s.bbd.startOfTrace[e.dest]].length == 1)
        || (exists i :: 0 <= i < |s.flow.succs[e.dest]|
              && (s.flow.succs[e.dest][i].dest == EXIT || FallsInto(s, connected, e.dest, i, cur))))
  }

  /** Behind the block there is an edge to try whose block makes up a trace, or leads to the exit: a copy of it may end a run. */
  predicate MayEnd(s: State, b: Block)
    requires b in s.flow.succs
  {
    exists i: nat :: i < |s.flow.succs[b]| && EndsRun(s, s.flow.succs[b][i])
  }

  predicate Tried(s: State, e: Edge) {
    e.dest != EXIT && e.canFallthru && !e.complex && e.dest in s.flow.succs
  }

  predicate EndsRun(s: State, e: Edge) {
    && Tried(s, e)
    && (|| (e.dest in s.bbd.startOfTrace && s.bbd.startOfTrace[e.dest] < |s.traces| && s.traces[s.bbd.startOfTrace[e.dest]].length == 1)
        || (exists i :: 0 <= i < |s.flow.succs[e.dest]| && s.flow.succs[e.dest][i].dest == EXIT))
  }

  /** No edge behind the block is copyable, or one that is has not been worth it. */
  ghost predicate NoneCopied(w: Weights, s: State, connected: seq<bool>, b: Block, cur: Partition)
    requires |connected| == |s.traces| && b in s.flow.succs
  {
    || (forall j: nat :: j < |s.flow.succs[b]| ==> !Copyable(s, connected, s.flow.succs[b][j], cur))
    || exists j: nat :: j < |s.flow.succs[b]| && Copyable(s, connected, s.flow.succs[b][j], cur) && !w.connecting(s.flow, b, j)
  }

  /** A run ends with a copy, or where no copy has been worth it; no copies are made with partitioning. */
  ghost predicate Finished(w: Weights, s: State, s': State, connected: seq<bool>, t: nat, cur: Partition, partitioning: bool) {
    partitioning
    || (t < |s.traces| && t < |s'.traces| == |connected|
        && (s'.traces[t].last != s.traces[t].last
            || (s'.traces[t].last in s'.flow.succs && NoneCopied(w, s', connected, s'.traces[t].last, cur))))
  }

  /** Appends the unconnected trace that starts with `d` to the order. */
  method ConnectTo(ghost f0: Flow, s: State, ghost lay: Layout, connected: seq<bool>, ghost order: seq<nat>,
                   lastTrace: nat, d: Block, cur: Partition)
    returns (s': State, connected': seq<bool>, u: nat)
    requires Conn(f0, s, lay, connected, order, []) && order != [] && Last(order) == lastTrace && lastTrace < |connected| == |s.traces|
    requires Links(s, connected, d, cur)
    ensures Conn(f0, s', lay, connected', order + [u], [])
    ensures |connected'| == |connected| && Unconnected(connected') < Unconnected(connected)
    ensures forall k :: 0 <= k < |connected| && connected[k] ==> connected'[k]
    ensures s'.flow == s.flow && s'.bbd == s.bbd && s'.traces == s.traces && s'.marks.visited == s.marks.visited
    ensures u < |s.traces| && d in s.flow.partition && s.flow.partition[d] == cur
    ensures |lay.chains| == |s.traces| && lay.chains[u] != [] && lay.chains[u][0] == d
    ensures !connected[u] && connected' == connected[u := true] && s.traces[u].first == d
  {
    hide Conn;
    u := s.bbd.startOfTrace[d];
    LinkNext(f0, s, lay, connected, order, d);
    StartIs(f0, s, lay, connected, order, [], d);
    s' := s.(marks := s.marks.(aux := s.marks.aux[s.traces[lastTrace].last := s.traces[u].first]));
    connected' := connected[u := true];
    assert u in Unconnected(connected) && u !in Unconnected(connected');
  }

  /** Duplicates the block edge `j` leads to behind trace `t`, and goes on with a trace that follows it, if one is chosen. */
  method CopyAndConnect(ghost f0: Flow, s: State, ghost lay: Layout, connected: seq<bool>, ghost order: seq<nat>,
                        t: nat, j: nat, cur: Partition)
    returns (s': State, ghost lay': Layout, connected': seq<bool>, lastTrace: nat, ghost order': seq<nat>, more: bool)
    requires Conn(f0, s, lay, connected, order, []) && order != [] && Last(order) == t && t < |connected| == |s.traces|
    requires s.traces[t].last in s.flow.succs && j < |s.flow.succs[s.traces[t].last]|
    requires Copyable(s, connected, s.flow.succs[s.traces[t].last][j], cur)
    ensures Conn(f0, s', lay', connected', order', []) && order <= order' && Last(order') == lastTrace
    ensures |connected'| == |connected| && (more ==> Unconnected(connected') < Unconnected(connected))
    ensures forall k :: 0 <= k < |connected| && connected[k] ==> connected'[k]
    ensures |s'.traces| == |s.traces| && forall k :: 0 <= k < |s.traces| ==> s'.traces[k].first == s.traces[k].first
    ensures s'.bbd == s.bbd && Untouched(s, s', connected) && order' == (if more then order + [lastTrace] else order)
    ensures more ==> lastTrace < |connected| && !connected[lastTrace]
    ensures forall k :: 0 <= k < |s.traces| && k != t ==> s'.traces[k] == s.traces[k]
    ensures s'.traces[t].last == s.flow.last && s.flow.last !in s.flow.succs
    ensures !more ==> MayEnd(s, s.traces[t].last)
  {
    hide Conn, Core, Settled, Untouched;
    var last := s.traces[t].last;
    var es := s.flow.succs[last];
    var next: Option<Block> := None;
    var takeNext := *;
    if takeNext || !MayEnd(s, last) {
      if i: nat, i2: nat :| i < |es| && Tried(s, es[i]) && i2 < |s.flow.succs[es[i].dest]| && FallsInto(s, connected, es[i].dest, i2, cur) {
        next := Some(s.flow.succs[es[i].dest][i2].dest);
      }
    }
    CopyFacts(f0, s, lay, connected, order, t, j);
    OthersLeft(f0, s, lay, connected, order);
    assert t in order;
    var flow, marks, newBb; ghost var origin;
    flow, marks, newBb, origin := CopyBb(f0, s.flow, s.marks, s.bbd, lay.origin, es[j].dest, last, j, last, t);
    assert marks.visited.Keys == s.marks.visited.Keys + {newBb};
    CopyConn(f0, s, lay, connected, order, t, flow, newBb, origin);
    s' := State(flow, marks, s.bbd, s.traces[t := s.traces[t].(last := newBb)]);
    lay' := Layout(lay.chains[t := lay.chains[t] + [newBb]], lay.owner[newBb := t], origin);
    UntouchedCopy(f0, s, lay, connected, order, t, j, newBb, s');
    ghost var copied := s';
    connected', lastTrace, order', more := connected, t, order, false;
    if next.Some? {
      more := true;
      assert Links(s', connected, next.value, cur);
      s', connected', lastTrace := ConnectTo(f0, s', lay', connected, order, t, next.value, cur);
      order' := order + [lastTrace];
      UntouchedSame(s, copied, s', connected);
    }
  }

  lemma UntouchedSame(s: State, s1: State, s': State, connected: seq<bool>)
    requires Untouched(s, s1, connected) && s'.flow == s1.flow && s'.traces == s1.traces
    ensures Untouched(s, s', connected)
  {
    forall k: nat | k < |connected| && !connected[k]
      ensures TraceKept(s, s', k)
    {
      assert TraceKept(s, s1, k);
    }
    assert forall k: nat :: k < |connected| ==> FirstPartition(s', k) == FirstPartition(s1, k);
  }

  lemma TracesApart(f0: Flow, s: State, lay: Layout, connected: seq<bool>, order: seq<nat>, t: nat)
    requires Conn(f0, s, lay, connected, order, []) && t < |connected|
    ensures |s.traces| == |connected| && s.flow.last !in s.flow.partition && s.flow.last !in s.flow.succs
    ensures forall k: nat :: k < |connected| ==>
              s.traces[k].last in s.flow.succs && s.traces[k].first in s.flow.partition && (k != t ==> s.traces[k].last != s.traces[t].last)
  {
    ConnFacts(f0, s, lay, connected, order, []);
    FirstsKnown(f0, s, lay, connected, order);
    SettledCore(f0, s, lay, connected, order);
    hide Conn, Settled, Core, ChainsOk;
    forall k: nat | k < |connected|
      ensures s.traces[k].last in s.flow.succs && (k != t ==> s.traces[k].last != s.traces[t].last)
    {
      LastVisited(f0, s, lay, k);
      if k != t {
        LastsDiffer(lay.chains, lay.owner, k, t);
      }
    }
  }

  lemma SettledCore(f0: Flow, s: State, lay: Layout, connected: seq<bool>, order: seq<nat>)
    requires Conn(f0, s, lay, connected, order, [])
    ensures Settled(f0, s, lay) && s.flow.last !in s.flow.partition && s.flow.last !in s.flow.succs
  {
    CoreBlocks(f0, s.flow, s.marks.visited.Keys, s.bbd, lay.origin, {});
    hide Core, ChainsOk, Joined, FreeLasts, Ordered, EndsFree;
  }

  /** A copy behind trace `t` changes only the edges of that trace's last block. */
  lemma UntouchedCopy(f0: Flow, s: State, lay: Layout, connected: seq<bool>, order: seq<nat>, t: nat, j: nat, x: Block, s': State)
    requires Conn(f0, s, lay, connected, order, []) && t < |connected| == |s.traces| && connected[t]
    requires s.traces[t].last in s.flow.succs && j < |s.flow.succs[s.traces[t].last]|
    requires var d := s.flow.succs[s.traces[t].last][j].dest;
             d in s.flow.succs && d in s.flow.partition && s'.flow == Duplicated(s.flow, d, s.traces[t].last, j)
    requires x == s.flow.last && s'.traces == s.traces[t := s.traces[t].(last := x)]
    ensures Untouched(s, s', connected)
  {
    hide Conn, TraceKept;
    TracesApart(f0, s, lay, connected, order, t);
    forall k: nat | k < |connected| && !connected[k]
      ensures TraceKept(s, s', k)
    {
      KeptByCopy(s, s', t, j, k);
    }
  }

  lemma KeptByCopy(s: State, s': State, t: nat, j: nat, k: nat)
    requires k < |s.traces| == |s'.traces| && t < |s.traces| && s'.traces[k] == s.traces[k]
    requires s.traces[t].last in s.flow.succs && j < |s.flow.succs[s.traces[t].last]|
    requires var d := s.flow.succs[s.traces[t].last][j].dest;
             d in s.flow.succs && d in s.flow.partition && s'.flow == Duplicated(s.flow, d, s.traces[t].last, j)
    requires s.traces[k].last in s.flow.succs && s.traces[k].last != s.traces[t].last && s.traces[k].last != s.flow.last
    requires s.flow.last !in s.flow.partition
    ensures TraceKept(s, s', k)
  {}

  lemma CopyFacts(f0: Flow, s: State, lay: Layout, connected: seq<bool>, order: seq<nat>, t: nat, j: nat)
    requires Conn(f0, s, lay, connected, order, []) && t < |connected| == |s.traces|
    requires s.traces[t].last in s.flow.succs && j < |s.flow.succs[s.traces[t].last]|
    ensures Core(f0, s.flow, s.marks.visited.Keys, s.bbd, lay.origin, {})
    ensures s.traces[t].last in s.marks.visited && s.flow.last !in s.flow.partition
    ensures var d := s.flow.succs[s.traces[t].last][j].dest; d == EXIT || (d in s.marks.visited && d in s.flow.succs)
  {
    LastVisited(f0, s, lay, t);
    DestVisited(f0, s, lay, s.traces[t].last, j);
    hide Frontier, HeapsInv, ChainsOk, Joined, Reachable;
  }

  /** Trace `i` of the order falls into the next one, or it has got a copy at its end. */
  ghost predicate StrungAt(s: State, s': State, order: seq<nat>, i: nat) {
    && i + 1 < |order| && order[i] < |s.traces| && order[i] < |s'.traces|
    && (TraceFalls(s, order[i], order[i + 1]) || s'.traces[order[i]].last != s.traces[order[i]].last)
  }

  ghost predicate Strung(s: State, s': State, order: seq<nat>, from: nat) {
    forall i: nat :: from <= i < |order| - 1 ==> StrungAt(s, s', order, i)
  }

  /** Trace by trace what falls into what has been followed; the last trace is as it was, or stuck. */
  ghost predicate Succeeding(s: State, connected: seq<bool>, order: seq<nat>, t: nat, cur: Partition,
                             s': State, connected': seq<bool>, order': seq<nat>, more: bool)
  {
    && order != [] && order <= order' && |s'.traces| == |s.traces| == |connected| == |connected'|
    && Untouched(s, s', connected') && (if more then TraceKept(s, s', Last(order')) else Stuck(s, order', |order'| - 1, cur))
    && (Last(order') == t || (Last(order') < |connected| && !connected[Last(order')]))
    && (forall i :: |order| - 1 <= i < |order'| - 1 ==> Fits(s, order', i, cur))
    && (forall k :: 0 <= k < |s.traces| && connected[k] && k != t ==> s'.traces[k] == s.traces[k])
    && Strung(s, s', order', |order| - 1)
  }

  lemma SucceedFirst(f0: Flow, s: State, lay: Layout, connected: seq<bool>, order: seq<nat>, t: nat, cur: Partition)
    requires Conn(f0, s, lay, connected, order, []) && order != [] && Last(order) == t && |connected| == |s.traces|
    ensures Succeeding(s, connected, order, t, cur, s, connected, order, true)
  {
    UntouchedLinks(f0, s, lay, connected, order, [], s);
    KeptAtFirst(f0, s, lay, connected, order, t);
    hide Conn;
  }

  lemma FallsDest(s: State, connected: seq<bool>, src: Block, j: nat, cur: Partition)
    requires |connected| == |s.traces| && FallsInto(s, connected, src, j, cur)
    ensures src in s.flow.succs && j < |s.flow.succs[src]| && Links(s, connected, s.flow.succs[src][j].dest, cur)
    ensures FallsTo(s.flow.succs[src][j], s.flow.succs[src][j].dest)
  {}

  lemma SucceedFall(s: State, connected: seq<bool>, order: seq<nat>, t: nat, cur: Partition, s1: State, connected1: seq<bool>,
                    order1: seq<nat>, u: nat, j: nat, s': State)
    requires Succeeding(s, connected, order, t, cur, s1, connected1, order1, true) && Distinct(order1)
    requires forall i :: 0 <= i < |order1| ==> order1[i] < |connected1|
    requires u < |s1.traces| && !connected1[u] && s'.flow == s1.flow && s'.traces == s1.traces
    requires forall k :: 0 <= k < |connected| && connected[k] ==> connected1[k]
    requires var last := s1.traces[Last(order1)].last;
             last in s1.flow.succs && j < |s1.flow.succs[last]| && FallsTo(s1.flow.succs[last][j], s1.traces[u].first)
    ensures Succeeding(s, connected, order, t, cur, s', connected1[u := true], order1 + [u], true)
  {
    UntouchedStarts(s, s1, connected1);
    FallsAlong(s1, Last(order1), u, j);
    KeptFalls(s, s1, Last(order1), u);
    KeptNext(s, s1, s', connected1, connected1[u := true], u);
    hide TraceFalls, Stuck, Fits, Untouched, TraceKept, Strung;
    FitsOneMore(s, order, order1, u, cur);
    StrungOneMore(s, s1, order1, u, |order| - 1, s');
  }

  lemma SucceedStuck(f0: Flow, s: State, connected: seq<bool>, order: seq<nat>, t: nat, cur: Partition,
                     s': State, lay: Layout, connected': seq<bool>, order': seq<nat>)
    requires Succeeding(s, connected, order, t, cur, s', connected', order', true) && Conn(f0, s', lay, connected', order', [])
    requires Last(order') < |s'.traces| && s'.traces[Last(order')].last in s'.flow.succs
    requires var last := s'.traces[Last(order')].last;
             forall j: nat :: j < |s'.flow.succs[last]| ==> !FallsInto(s', connected', last, j, cur)
    ensures Succeeding(s, connected, order, t, cur, s', connected', order', false)
  {
    hide Conn, TraceFalls, Stuck, Fits, Untouched, TraceKept, Strung, FallsInto;
    NoFallStuck(f0, s, s', lay, connected', order', Last(order'), cur);
  }

  lemma SucceedCopy(s: State, connected: seq<bool>, order: seq<nat>, t: nat, cur: Partition, s1: State, connected1: seq<bool>,
                    order1: seq<nat>, s': State, connected': seq<bool>, order': seq<nat>, more: bool)
    requires Succeeding(s, connected, order, t, cur, s1, connected1, order1, true)
    requires Succeeding(s, connected, order, t, cur, s1, connected1, order1, false) && Distinct(order1)
    requires forall i :: 0 <= i < |order1| ==> order1[i] < |connected1|
    requires Untouched(s1, s', connected1) && |connected'| == |connected1|
    requires forall k :: 0 <= k < |connected1| && connected1[k] ==> connected'[k]
    requires forall k :: 0 <= k < |connected| && connected[k] ==> connected1[k]
    requires order' != [] && order' == if more then order1 + [Last(order')] else order1
    requires more ==> Last(order') < |connected1| && !connected1[Last(order')]
    requires |s'.traces| == |s1.traces| && forall k :: 0 <= k < |s1.traces| && k != Last(order1) ==> s'.traces[k] == s1.traces[k]
    requires Last(order1) < |s1.traces| && s'.traces[Last(order1)].last == s1.flow.last && s1.flow.last !in s1.flow.succs
    ensures Succeeding(s, connected, order, t, cur, s', connected', order', more)
    ensures s'.traces[Last(order1)].last != s.traces[Last(order1)].last
  {
    UntouchedTwice(s, s1, s', connected1, connected1);
    UntouchedLess(s, s', connected1, connected');
    KeptLast(s, s1, Last(order1));
    hide TraceFalls, Stuck, Fits, Untouched, TraceKept, Strung;
    StrungKept(s, s1, order1, |order| - 1, s');
    if more {
      var u := Last(order');
      KeptOf(s, s', connected1, u);
      FitsOneMore(s, order, order1, u, cur);
      StrungOneMore(s, s', order1, u, |order| - 1, s');
    }
  }

  lemma SucceedLast(s: State, connected: seq<bool>, order: seq<nat>, t: nat, cur: Partition, s': State, connected': seq<bool>, order': seq<nat>)
    requires Succeeding(s, connected, order, t, cur, s', connected', order', false)
    ensures Untouched(s, s', connected') && Stuck(s, order', |order'| - 1, cur) && Strung(s, s', order', |order| - 1)
    ensures forall i :: |order| - 1 <= i < |order'| ==> Fits(s, order', i, cur)
    ensures forall k :: 0 <= k < |s.traces| && connected[k] && k != t ==> s'.traces[k] == s.traces[k]
  {
    hide TraceFalls, Untouched, Strung;
    StuckFits(s, order', |order'| - 1, cur);
  }

  lemma KeptAtFirst(f0: Flow, s: State, lay: Layout, connected: seq<bool>, order: seq<nat>, t: nat)
    requires Conn(f0, s, lay, connected, order, []) && order != [] && Last(order) == t
    ensures TraceKept(s, s, t)
  {
    ConnFacts(f0, s, lay, connected, order, []);
    assert t in order;
    LastVisited(f0, s, lay, t);
  }

  lemma KeptOf(s: State, s': State, connected: seq<bool>, k: nat)
    requires Untouched(s, s', connected) && k < |connected| && !connected[k]
    ensures TraceKept(s, s', k)
  {}

  lemma KeptNext(s: State, s1: State, s': State, connected: seq<bool>, connected': seq<bool>, u: nat)
    requires Untouched(s, s1, connected) && s'.flow == s1.flow && s'.traces == s1.traces
    requires u < |connected| && !connected[u] && connected' == connected[u := true]
    ensures Untouched(s, s', connected') && TraceKept(s, s', u)
  {
    UntouchedSame(s, s1, s', connected);
    UntouchedLess(s, s', connected, connected');
    KeptOf(s, s', connected, u);
  }

  /** One more trace behind one that falls into it, or that falls into none left. */
  lemma FitsOneMore(s: State, order: seq<nat>, order1: seq<nat>, u: nat, cur: Partition)
    requires order != [] && order <= order1 && forall i :: |order| - 1 <= i < |order1| - 1 ==> Fits(s, order1, i, cur)
    requires TraceFalls(s, Last(order1), u) || Stuck(s, order1, |order1| - 1, cur)
    ensures forall i :: |order| - 1 <= i < |order1| ==> Fits(s, order1 + [u], i, cur)
  {
    hide TraceFalls;
    forall i | |order| - 1 <= i < |order1|
      ensures Fits(s, order1 + [u], i, cur)
    {
      var order2 := order1 + [u];
      assert order2[..i + 1] == order1[..i + 1] && order2[i] == order1[i];
      if i < |order1| - 1 {
        assert Fits(s, order1, i, cur) && order2[i + 1] == order1[i + 1];
      } else {
        assert order2[i + 1] == u && order1[i] == Last(order1);
      }
    }
  }

  lemma StuckFits(s: State, order: seq<nat>, i: nat, cur: Partition)
    requires i < |order| && Stuck(s, order, i, cur)
    ensures Fits(s, order, i, cur)
  {}

  lemma InPartOneMore(part: map<Block, Partition>, chains: seq<seq<Block>>, ks: seq<nat>, u: nat, p: Partition)
    requires InPart(part, chains, ks, p) && u < |chains| && chains[u] != [] && chains[u][0] in part && part[chains[u][0]] == p
    ensures InPart(part, chains, ks + [u], p)
  {}

  lemma OrderDistinct(f0: Flow, s: State, lay: Layout, connected: seq<bool>, order: seq<nat>)
    requires Conn(f0, s, lay, connected, order, [])
    ensures Distinct(order) && |s.traces| == |connected| && forall i :: 0 <= i < |order| ==> order[i] < |connected|
  {
    hide Settled, Joined, FreeLasts, EndsFree;
    assert order + [] == order;
    assert forall i :: 0 <= i < |order| ==> order[i] in order;
  }

  /** Only the last trace of the order has changed its end. */
  lemma StrungKept(s: State, s': State, order: seq<nat>, from: nat, s'': State)
    requires order != [] && Strung(s, s', order, from) && |s''.traces| == |s'.traces| == |s.traces| && Distinct(order)
    requires forall k :: 0 <= k < |s'.traces| && k != Last(order) ==> s''.traces[k] == s'.traces[k]
    ensures Strung(s, s'', order, from)
  {
    hide TraceFalls;
    forall i: nat | from <= i < |order| - 1
      ensures StrungAt(s, s'', order, i)
    {
      assert StrungAt(s, s', order, i) && order[i] != order[|order| - 1];
    }
  }

  lemma PartOneMore(partitioning: bool, part: map<Block, Partition>, chains: seq<seq<Block>>, order: seq<nat>, order1: seq<nat>, u: nat, p: Partition)
    requires order <= order1 && (partitioning ==> InPart(part, chains, order1[|order|..], p))
    requires partitioning ==> u < |chains| && chains[u] != [] && chains[u][0] in part && part[chains[u][0]] == p
    ensures partitioning ==> InPart(part, chains, (order1 + [u])[|order|..], p)
  {
    assert (order1 + [u])[|order|..] == order1[|order|..] + [u];
    if partitioning {
      InPartOneMore(part, chains, order1[|order|..], u, p);
    }
  }

  lemma StrungOneMore(s: State, s': State, order: seq<nat>, u: nat, from: nat, s'': State)
    requires order != [] && Strung(s, s', order, from) && |s''.traces| == |s'.traces| == |s.traces|
    requires forall i :: from <= i < |order| - 1 ==> order[i] < |s'.traces| && (s''.traces[order[i]].last == s'.traces[order[i]].last)
    requires Last(order) < |s.traces| && (TraceFalls(s, Last(order), u) || s''.traces[Last(order)].last != s.traces[Last(order)].last)
    ensures Strung(s, s'', order + [u], from)
  {
    hide TraceFalls;
    var order2 := order + [u];
    forall i: nat | from <= i < |order2| - 1
      ensures StrungAt(s, s'', order2, i)
    {
      assert order2[i] == order[i];
      if i < |order| - 1 {
        assert StrungAt(s, s', order, i) && order2[i + 1] == order[i + 1];
      }
    }
  }

  /** Appends further traces behind the last one of the order, `t`, as long as there is one to fall into. */
  method FindSuccessors(w: Weights, ghost f0: Flow, s: State, ghost lay: Layout, connected: seq<bool>, ghost order: seq<nat>,
                        t: nat, cur: Partition, partitioning: bool)
    returns (s': State, ghost lay': Layout, connected': seq<bool>, lastTrace: nat, ghost order': seq<nat>)
    requires Conn(f0, s, lay, connected, order, []) && order != [] && Last(order) == t && |connected| == |s.traces|
    ensures Conn(f0, s', lay', connected', order', []) && order <= order' && Last(order') == lastTrace
    ensures |connected'| == |connected| && forall k :: 0 <= k < |connected| && connected[k] ==> connected'[k]
    ensures partitioning ==> lay' == lay && s'.flow == s.flow
    ensures partitioning ==> InPart(s.flow.partition, lay.chains, order'[|order|..], cur)
    ensures |s'.traces| == |s.traces| && forall k :: 0 <= k < |s.traces| ==> s'.traces[k].first == s.traces[k].first
    ensures s'.bbd == s.bbd && Untouched(s, s', connected')
    ensures forall i :: |order| - 1 <= i < |order'| ==> Fits(s, order', i, cur)
    ensures Stuck(s, order', |order'| - 1, cur)
    ensures forall k :: 0 <= k < |s.traces| && connected[k] && k != t ==> s'.traces[k] == s.traces[k]
    ensures Strung(s, s', order', |order| - 1) && Finished(w, s, s', connected', lastTrace, cur, partitioning)
  {
    hide Conn, Core, Settled, Untouched, TraceKept, FallsInto, Copyable, Succeeding;
    s', lay', connected', lastTrace, order' := s, lay, connected, t, order;
    SucceedFirst(f0, s, lay, connected, order, t, cur);
    var more := true;
    while more
      invariant Conn(f0, s', lay', connected', order', []) && order <= order' && Last(order') == lastTrace
      invariant |connected'| == |connected| && forall k :: 0 <= k < |connected| && connected[k] ==> connected'[k]
      invariant partitioning ==> lay' == lay && s'.flow == s.flow
      invariant partitioning ==> InPart(s.flow.partition, lay.chains, order'[|order|..], cur)
      invariant |s'.traces| == |s.traces| && forall k :: 0 <= k < |s.traces| ==> s'.traces[k].first == s.traces[k].first
      invariant s'.bbd == s.bbd && Succeeding(s, connected, order, t, cur, s', connected', order', more)
      invariant !more ==> Finished(w, s, s', connected', lastTrace, cur, partitioning)
      decreases more, Unconnected(connected')
    {
      OrderDistinct(f0, s', lay', connected', order');
      ConnFacts(f0, s', lay', connected', order', []);
      assert lastTrace in order';
      var last := s'.traces[lastTrace].last;
      SettledLast(f0, s', lay', connected', order', lastTrace);
      ghost var s1, order1, connected1 := s', order', connected';
      if j: nat :| j < |s'.flow.succs[last]| && FallsInto(s', connected', last, j, cur) {
        FallsDest(s', connected', last, j, cur);
        s', connected', lastTrace := ConnectTo(f0, s', lay', connected', order', lastTrace, s'.flow.succs[last][j].dest, cur);
        order' := order' + [lastTrace];
        SucceedFall(s, connected, order, t, cur, s1, connected1, order1, lastTrace, j, s');
        hide InPart;
        PartOneMore(partitioning, s.flow.partition, lay.chains, order, order1, lastTrace, cur);
      } else {
        more := false;
        SucceedStuck(f0, s, connected, order, t, cur, s', lay', connected', order');
        if !partitioning {
          if j: nat :| j < |s'.flow.succs[last]| && Copyable(s', connected', s'.flow.succs[last][j], cur) {
            if w.connecting(s'.flow, last, j) {
              s', lay', connected', lastTrace, order', more := CopyAndConnect(f0, s', lay', connected', order', lastTrace, j, cur);
              SucceedCopy(s, connected, order, t, cur, s1, connected1, order1, s', connected', order', more);
            }
          }
        }
      }
    }
    SucceedLast(s, connected, order, t, cur, s', connected', order');
  }

  lemma SettledLast(f0: Flow, s: State, lay: Layout, connected: seq<bool>, order: seq<nat>, k: nat)
    requires Conn(f0, s, lay, connected, order, []) && k < |s.traces|
    ensures s.traces[k].last in s.flow.succs
  {
    LastVisited(f0, s, lay, k);
  }

  function Opposite(p: Partition): Partition {
    if p == Hot then Cold else Hot
  }

  lemma FirstsKnown(f0: Flow, s: State, lay: Layout, connected: seq<bool>, order: seq<nat>)
    requires Conn(f0, s, lay, connected, order, [])
    ensures |s.traces| == |lay.chains|
    ensures forall k :: 0 <= k < |s.traces| ==>
              && lay.chains[k] != [] && s.traces[k].first == lay.chains[k][0]
              && s.traces[k].first in s.marks.visited && s.traces[k].first in s.flow.partition
  {
    hide Reachable, Frontier, Joined, FreeLasts, EndsFree, Ordered, Link;
    forall k | 0 <= k < |s.traces|
      ensures lay.chains[k] != [] && s.traces[k].first == lay.chains[k][0]
      ensures s.traces[k].first in s.marks.visited && s.traces[k].first in s.flow.partition
    {
      assert TraceIs(s.traces[k], lay.chains[k], s.marks.aux);
      assert lay.chains[k][0] in lay.chains[k];
    }
  }

  lemma InPartConcat(part: map<Block, Partition>, chains: seq<seq<Block>>, a: seq<nat>, b: seq<nat>, p: Partition)
    requires InPart(part, chains, a, p) && InPart(part, chains, b, p)
    ensures InPart(part, chains, a + b, p)
  {
  }

  /** The traces that may fall into trace `i` of the order, and were left when it was put there, are strung behind it. */
  ghost predicate Headed(s: State, order: seq<nat>, i: nat, cur: Partition) {
    i < |order| && (order[i] == 0 || exists e: nat :: i < e <= |order| && StrungOut(s, order, i, e) && NoneOutside(s, order, i, e, cur))
  }

  ghost predicate StrungOut(s: State, order: seq<nat>, i: nat, e: nat) {
    e <= |order| && forall m: nat :: i <= m < e - 1 ==> TraceFalls(s, order[m], order[m + 1])
  }

  ghost predicate NoneOutside(s: State, order: seq<nat>, i: nat, e: nat, cur: Partition)
    requires i < e <= |order|
  {
    forall u: nat :: u < |s.traces| && u !in order[..e] && LastPartition(s, u) == cur ==> !TraceFalls(s, u, order[i])
  }

  lemma InOrder(f0: Flow, s: State, lay: Layout, connected: seq<bool>, order: seq<nat>, pre: seq<nat>)
    requires Conn(f0, s, lay, connected, order, pre)
    ensures forall u: nat :: u in order + pre <==> u < |connected| && connected[u]
  {
    hide Settled, Joined, FreeLasts, EndsFree;
  }

  /** The traces `pre` are strung together, and headed by one that no other trace left falls into. */
  ghost predicate AddsFront(s: State, order: seq<nat>, pre: seq<nat>, cur: Partition) {
    Headed(s, order + pre, |order|, cur) && StrungOut(s, order + pre, |order|, |order + pre|)
  }

  lemma HeadOf(f0: Flow, s: State, s': State, lay: Layout, connected: seq<bool>, order: seq<nat>, pre: seq<nat>, cur: Partition)
    requires pre != [] && |connected| == |s.traces| && (pre[0] == 0 || NoneFallsInto(s, connected, pre[0], cur))
    requires forall i :: 0 <= i < |pre| - 1 ==> TraceFalls(s, pre[i], pre[i + 1])
    requires Conn(f0, s', lay, connected, order, pre)
    ensures AddsFront(s, order, pre, cur)
  {
    hide Conn, TraceFalls;
    var all := order + pre;
    InOrder(f0, s', lay, connected, order, pre);
    forall i | |order| <= i < |all| - 1
      ensures TraceFalls(s, all[i], all[i + 1])
    {
      assert all[i] == pre[i - |order|] && all[i + 1] == pre[i - |order| + 1];
    }
    assert all[..|all|] == all;
    if pre[0] != 0 {
      assert StrungOut(s, all, |order|, |all|) && NoneOutside(s, all, |order|, |all|, cur);
    }
  }

  lemma HeadedLonger(s: State, order: seq<nat>, more: seq<nat>, i: nat, cur: Partition)
    requires i < |order| && Headed(s, order, i, cur)
    ensures Headed(s, order + more, i, cur)
  {
    hide TraceFalls;
    var all := order + more;
    if order[i] != 0 {
      var e: nat :| i < e <= |order| && StrungOut(s, order, i, e) && NoneOutside(s, order, i, e, cur);
      assert all[..e] == order[..e] && forall m :: 0 <= m < |order| ==> all[m] == order[m];
      assert StrungOut(s, all, i, e) && NoneOutside(s, all, i, e, cur);
    }
  }

  /** Connects trace `t`, the traces strung in front of it, and the traces that follow. */
  method ConnectRun(w: Weights, ghost f0: Flow, s: State, ghost lay: Layout, connected: seq<bool>, ghost order: seq<nat>,
                    lastTrace: int, t: nat, cur: Partition, partitioning: bool)
    returns (s': State, ghost lay': Layout, connected': seq<bool>, lastTrace': nat, ghost order': seq<nat>)
    requires Conn(f0, s, lay, connected, order, []) && t < |connected| == |s.traces| && !connected[t]
    requires lastTrace == if order == [] then -1 else Last(order)
    requires partitioning ==> Uniform(s.flow.partition, lay.chains) && FirstPartition(s, t) == cur
    ensures Conn(f0, s', lay', connected', order', []) && order <= order' && order' != [] && Last(order') == lastTrace'
    ensures |connected'| == |connected| && connected'[t] && forall k :: 0 <= k < |connected| && connected[k] ==> connected'[k]
    ensures partitioning ==> lay' == lay && s'.flow == s.flow && InPart(s.flow.partition, lay.chains, order'[|order|..], cur)
    ensures |s'.traces| == |s.traces| && forall k :: 0 <= k < |s.traces| ==> s'.traces[k].first == s.traces[k].first
    ensures s'.bbd == s.bbd && (t == 0 && order == [] ==> order'[0] == 0)
    ensures Untouched(s, s', connected') && forall k :: 0 <= k < |s.traces| && connected[k] ==> s'.traces[k] == s.traces[k]
    ensures RunFits(s, order', |order|, cur) && |order| < |order'| && Headed(s, order', |order|, cur) && Strung(s, s', order', |order|)
  {
    hide Conn, InPart, Uniform, Headed, TraceFalls, Untouched, Strung, Stuck, Fits;
    ghost var pre;
    s', connected', pre := ConnectFront(f0, s, lay, connected, order, lastTrace, t, cur, partitioning);
    ghost var order1, s1, connected1 := order + pre, s', connected';
    assert Last(order1) == t;
    s', lay', connected', lastTrace', order' := FindSuccessors(w, f0, s', lay, connected', order1, t, cur, partitioning);
    assert order' == order1 + order'[|order1|..];
    HeadedLonger(s, order1, order'[|order1|..], |order|, cur);
    RunTogether(s, s1, s', connected', order, order1, order', cur);
    assert order'[|order|..] == pre + order'[|order1|..];
    if partitioning {
      InPartConcat(s.flow.partition, lay.chains, pre, order'[|order1|..], cur);
    }
    assert order'[0] == order1[0];
  }

  /** From `from` on every trace of the order falls into the next if it can, and the last falls into none left. */
  ghost predicate RunFits(s: State, order: seq<nat>, from: nat, cur: Partition) {
    order != [] && Stuck(s, order, |order| - 1, cur) && forall i: nat :: from <= i < |order| ==> Fits(s, order, i, cur)
  }

  /** Only the links are different. */
  ghost predicate SameTraces(s: State, s1: State) {
    s1.flow == s.flow && s1.traces == s.traces
  }

  lemma SameFits(s: State, s1: State, order: seq<nat>, i: nat, cur: Partition)
    requires SameTraces(s, s1) && i < |order|
    ensures Fits(s1, order, i, cur) <==> Fits(s, order, i, cur)
    ensures Stuck(s1, order, i, cur) <==> Stuck(s, order, i, cur)
  {
    SameFalls(s, s1);
    hide TraceFalls;
    assert forall u: nat :: u < |s.traces| ==> FirstPartition(s1, u) == FirstPartition(s, u);
  }

  lemma SameFalls(s: State, s1: State)
    requires SameTraces(s, s1)
    ensures forall a: nat, b: nat :: TraceFalls(s1, a, b) <==> TraceFalls(s, a, b)
  {}

  lemma SameUntouched(s: State, s1: State, s': State, connected: seq<bool>)
    requires SameTraces(s, s1) && Untouched(s1, s', connected)
    ensures Untouched(s, s', connected)
  {
    forall k: nat | k < |connected| && !connected[k]
      ensures TraceKept(s, s', k)
    {
      assert TraceKept(s1, s', k);
    }
    assert forall k: nat :: k < |connected| ==> FirstPartition(s1, k) == FirstPartition(s, k);
  }

  lemma RunTogether(s: State, s1: State, s': State, connected: seq<bool>, order: seq<nat>, order1: seq<nat>, order': seq<nat>, cur: Partition)
    requires SameTraces(s, s1) && |order| < |order1| && order1 <= order' && Untouched(s1, s', connected)
    requires forall i :: |order| <= i < |order1| - 1 ==> TraceFalls(s, order1[i], order1[i + 1])
    requires forall i :: |order1| - 1 <= i < |order'| ==> Fits(s1, order', i, cur)
    requires Stuck(s1, order', |order'| - 1, cur) && Strung(s1, s', order', |order1| - 1)
    ensures RunFits(s, order', |order|, cur) && Strung(s, s', order', |order|) && Untouched(s, s', connected)
  {
    hide TraceFalls, Stuck, Untouched;
    SameUntouched(s, s1, s', connected);
    UntouchedStarts(s, s', connected);
    SameFalls(s, s1);
    SameFits(s, s1, order', |order'| - 1, cur);
    forall i: nat | |order| <= i < |order'|
      ensures Fits(s, order', i, cur)
      ensures i < |order'| - 1 ==> StrungAt(s, s', order', i)
    {
      SameFits(s, s1, order', i, cur);
      if i < |order1| - 1 {
        assert order'[i] == order1[i] && order'[i + 1] == order1[i + 1] && TraceFalls(s, order'[i], order'[i + 1]);
        FallsInRange(s, order'[i], order'[i + 1]);
      } else if i < |order'| - 1 {
        assert StrungAt(s1, s', order', i);
      }
    }
  }

  lemma FallsInRange(s: State, a: nat, b: nat)
    requires TraceFalls(s, a, b)
    ensures a < |s.traces| && b < |s.traces|
  {}

  ghost predicate StillConnected(connected: seq<bool>, connected': seq<bool>) {
    |connected'| == |connected| && forall k :: 0 <= k < |connected| && connected[k] ==> connected'[k]
  }

  /** Appends trace `t`, with the traces strung in front of it, to the order. */
  method ConnectFront(ghost f0: Flow, s: State, ghost lay: Layout, connected: seq<bool>, ghost order: seq<nat>,
                      lastTrace: int, t: nat, cur: Partition, partitioning: bool)
    returns (s': State, connected': seq<bool>, ghost pre: seq<nat>)
    requires lastTrace == if order == [] then -1 else Last(order)
    requires t < |connected| == |s.traces| && !connected[t]
    requires partitioning ==> Uniform(s.flow.partition, lay.chains) && FirstPartition(s, t) == cur
    requires Conn(f0, s, lay, connected, order, [])
    ensures pre != [] && Last(pre) == t && (t == 0 ==> pre == [0])
    ensures StillConnected(connected, connected') && connected'[t]
    ensures Conn(f0, s', lay, connected', order + pre, [])
    ensures s'.flow == s.flow && s'.traces == s.traces && s'.bbd == s.bbd
    ensures partitioning ==> InPart(s.flow.partition, lay.chains, pre, cur)
    ensures AddsFront(s, order, pre, cur)
  {
    hide Conn, Uniform, TraceFalls, NoneFallsInto, AddsFront;
    FirstsKnown(f0, s, lay, connected, order);
    StartRun(f0, s, lay, connected, order, t);
    assert partitioning ==> InPart(s.flow.partition, lay.chains, [t], cur);
    hide InPart;
    connected' := connected[t := true];
    var t2;
    s', connected', t2, pre := FindPredecessors(f0, s, lay, connected', order, t, cur);
    ConnFacts(f0, s', lay, connected', order, pre);
    assert pre[0] in pre && (order != [] ==> Last(order) in order);
    HeadOf(f0, s, s', lay, connected', order, pre, cur);
    if lastTrace >= 0 {
      AppendConn(f0, s', lay, connected', order, pre);
      s' := s'.(marks := s'.marks.(aux := s'.marks.aux[s'.traces[lastTrace].last := s'.traces[t2].first]));
    } else {
      FirstRun(f0, s', lay, connected', pre);
      assert order + pre == pre;
    }
  }

  lemma FirstRun(f0: Flow, s: State, lay: Layout, connected: seq<bool>, pre: seq<nat>)
    requires Conn(f0, s, lay, connected, [], pre)
    ensures Conn(f0, s, lay, connected, pre, [])
  {
    hide Settled, EndsFree, FreeLasts;
    assert [] + pre == pre && pre + [] == pre;
  }

  // ---- what the order as a whole follows ----

  /** The partition being connected when trace `k` is. */
  function CurrentPartition(s: State, partitioning: bool, k: nat): Partition
    requires k < |s.traces|
  {
    FirstPartition(s, if partitioning then k else 0)
  }

  ghost predicate PlacedAt(s: State, s': State, order: seq<nat>, i: nat, partitioning: bool) {
    && i < |order| && order[i] < |s.traces|
    && var cur := CurrentPartition(s, partitioning, order[i]);
       Fits(s, order, i, cur) && (Headed(s, order, i, cur) || (i > 0 && StrungAt(s, s', order, i - 1)))
  }

  /** Every trace of the order was put there for what falls into it or what it falls into. */
  ghost predicate Placed(s: State, s': State, order: seq<nat>, partitioning: bool) {
    && (forall i: nat :: i < |order| ==> PlacedAt(s, s', order, i, partitioning))
    && (order != [] ==> Last(order) < |s.traces| && Stuck(s, order, |order| - 1, CurrentPartition(s, partitioning, Last(order))))
  }

  lemma KeptFits(s: State, s1: State, connected: seq<bool>, order: seq<nat>, i: nat, cur: Partition)
    requires Untouched(s, s1, connected) && i < |order| && order[i] < |connected| && !connected[order[i]]
    requires forall k :: 0 <= k < |order| ==> order[k] < |connected|
    ensures Fits(s1, order, i, cur) <==> Fits(s, order, i, cur)
    ensures Stuck(s1, order, i, cur) <==> Stuck(s, order, i, cur)
  {
    hide TraceFalls;
    KeptFallsAll(s, s1, connected, order[i]);
  }

  lemma KeptFallsAll(s: State, s1: State, connected: seq<bool>, a: nat)
    requires Untouched(s, s1, connected) && a < |connected| && !connected[a]
    ensures forall b: nat :: b < |connected| ==> (TraceFalls(s1, a, b) <==> TraceFalls(s, a, b))
    ensures s1.traces[a] == s.traces[a] && LastPartition(s1, a) == LastPartition(s, a)
  {
    forall b: nat | b < |connected|
      ensures TraceFalls(s1, a, b) <==> TraceFalls(s, a, b)
    {
      KeptFalls(s, s1, a, b);
    }
  }

  lemma KeptHeaded(s: State, s1: State, connected: seq<bool>, order: seq<nat>, i: nat, cur: Partition)
    requires Untouched(s, s1, connected) && i < |order| && Headed(s1, order, i, cur)
    requires forall k :: 0 <= k < |order| ==> order[k] < |connected| && (k >= i ==> !connected[order[k]])
    requires forall u: nat :: u < |connected| && u !in order[..i] ==> !connected[u]
    ensures Headed(s, order, i, cur)
  {
    hide TraceFalls;
    if order[i] != 0 {
      var e: nat :| i < e <= |order| && StrungOut(s1, order, i, e) && NoneOutside(s1, order, i, e, cur);
      forall m: nat | i <= m < e - 1
        ensures TraceFalls(s, order[m], order[m + 1])
      {
        KeptFallsAll(s, s1, connected, order[m]);
      }
      forall u: nat | u < |s.traces| && u !in order[..e] && LastPartition(s, u) == cur
        ensures !TraceFalls(s, u, order[i])
      {
        assert order[..i] <= order[..e];
        assert u !in order[..i];
        KeptFallsAll(s, s1, connected, u);
      }
      assert StrungOut(s, order, i, e) && NoneOutside(s, order, i, e, cur);
    }
  }

  lemma KeptStrung(s: State, s1: State, s': State, connected: seq<bool>, order: seq<nat>, i: nat)
    requires Untouched(s, s1, connected) && |s'.traces| == |s1.traces| && StrungAt(s1, s', order, i)
    requires order[i] < |connected| && !connected[order[i]] && order[i + 1] < |connected|
    ensures StrungAt(s, s', order, i)
  {
    hide TraceFalls;
    KeptFallsAll(s, s1, connected, order[i]);
  }

  /** One more run behind the order. */
  lemma PlacedRun(s: State, s1: State, s': State, order: seq<nat>, order': seq<nat>, connected: seq<bool>, partitioning: bool, cur: Partition)
    requires Placed(s, s1, order, partitioning) && Untouched(s, s1, connected) && order <= order' && |order| < |order'|
    requires RunFits(s1, order', |order|, cur) && Headed(s1, order', |order|, cur) && Strung(s1, s', order', |order|)
    requires |s'.traces| == |s1.traces| && forall k :: 0 <= k < |connected| && connected[k] ==> s'.traces[k] == s1.traces[k]
    requires forall u: nat :: u < |connected| ==> (u in order <==> connected[u])
    requires Distinct(order') && forall k :: 0 <= k < |order'| ==> order'[k] < |connected|
    requires forall k :: |order| <= k < |order'| ==> CurrentPartition(s, partitioning, order'[k]) == cur
    ensures Placed(s, s', order', partitioning)
  {
    NewLeft(connected, order, order');
    hide TraceFalls, Untouched, Distinct, Headed, RunFits, PlacedAt, Strung, Fits, Stuck;
    forall i: nat | i < |order'|
      ensures PlacedAt(s, s', order', i, partitioning)
    {
      if i < |order| {
        UntouchedStarts(s, s1, connected);
        PlacedLonger(s, s1, s', order, order', i, connected, partitioning);
      } else {
        PlacedNew(s, s1, s', order, order', i, connected, partitioning, cur);
      }
    }
    LastStuck(s, s1, order, order', connected, cur);
  }

  lemma LastStuck(s: State, s1: State, order: seq<nat>, order': seq<nat>, connected: seq<bool>, cur: Partition)
    requires Untouched(s, s1, connected) && RunFits(s1, order', |order|, cur) && |order| < |order'|
    requires forall k :: 0 <= k < |order'| ==> order'[k] < |connected| && (k >= |order| ==> !connected[order'[k]])
    ensures Stuck(s, order', |order'| - 1, cur)
  {
    hide TraceFalls, Untouched, Fits, Stuck;
    KeptFits(s, s1, connected, order', |order'| - 1, cur);
  }

  lemma PlacedNew(s: State, s1: State, s': State, order: seq<nat>, order': seq<nat>, i: nat, connected: seq<bool>, partitioning: bool, cur: Partition)
    requires Untouched(s, s1, connected) && order <= order' && |order| <= i < |order'| && |s'.traces| == |s1.traces| == |s.traces|
    requires RunFits(s1, order', |order|, cur) && Headed(s1, order', |order|, cur) && Strung(s1, s', order', |order|)
    requires forall u: nat :: u < |connected| ==> (u in order <==> connected[u])
    requires forall k :: 0 <= k < |order'| ==> order'[k] < |connected| == |s.traces| && (k >= |order| ==> !connected[order'[k]])
    requires CurrentPartition(s, partitioning, order'[i]) == cur
    ensures PlacedAt(s, s', order', i, partitioning)
  {
    hide TraceFalls, Untouched, Headed, Stuck, Fits;
    KeptFits(s, s1, connected, order', i, cur);
    assert order'[..|order|] == order;
    if i == |order| {
      KeptHeaded(s, s1, connected, order', i, cur);
    } else {
      assert StrungAt(s1, s', order', i - 1);
      KeptStrung(s, s1, s', connected, order', i - 1);
    }
  }

  lemma NewLeft(connected: seq<bool>, order: seq<nat>, order': seq<nat>)
    requires forall u: nat :: u < |connected| ==> (u in order <==> connected[u])
    requires order <= order' && Distinct(order') && forall k :: 0 <= k < |order'| ==> order'[k] < |connected|
    ensures forall k :: |order| <= k < |order'| ==> !connected[order'[k]]
  {
    forall k | |order| <= k < |order'|
      ensures order'[k] !in order
    {
      assert forall i :: 0 <= i < |order| ==> order[i] == order'[i] && order'[i] != order'[k];
    }
  }

  lemma PlacedLonger(s: State, s1: State, s': State, order: seq<nat>, order': seq<nat>, i: nat, connected: seq<bool>, partitioning: bool)
    requires Placed(s, s1, order, partitioning) && order <= order' && i < |order| && |s'.traces| == |s1.traces| == |s.traces| == |connected|
    requires forall k :: 0 <= k < |connected| && connected[k] ==> s'.traces[k] == s1.traces[k]
    requires forall u: nat :: u < |connected| ==> (u in order <==> connected[u])
    ensures PlacedAt(s, s', order', i, partitioning)
  {
    assert PlacedAt(s, s1, order, i, partitioning);
    var cur, more := CurrentPartition(s, partitioning, order[i]), order'[|order|..];
    assert order' == order + more && order'[i] == order[i];
    hide TraceFalls, Headed, Stuck;
    FitsLonger(s, order, more, i, cur);
    if Headed(s, order, i, cur) {
      HeadedLonger(s, order, more, i, cur);
    } else {
      assert order[i - 1] in order && order'[i - 1] == order[i - 1];
    }
  }

  /** Trace `i` of the order may fall into the later trace `k`, of the partition being connected. */
  ghost predicate CouldFollow(s: State, order: seq<nat>, i: nat, k: nat, partitioning: bool) {
    && i < k < |order| && order[i] < |s.traces| && order[k] < |s.traces| && TraceFalls(s, order[i], order[k])
    && FirstPartition(s, order[k]) == CurrentPartition(s, partitioning, order[i])
  }

  /** A trace that may fall into a later one falls into the next one. */
  ghost predicate Follows(s: State, order: seq<nat>, partitioning: bool) {
    forall i: nat, k: nat :: CouldFollow(s, order, i, k, partitioning) ==> TraceFalls(s, order[i], order[i + 1])
  }

  /** Trace `i` of the order is neither fallen into from the one before, nor put behind a copy made there. */
  ghost predicate StartsRun(s: State, s': State, order: seq<nat>, i: nat) {
    i < |order| && (i == 0 || !StrungAt(s, s', order, i - 1))
  }

  /** The later trace `k`, of the partition being connected, may fall into trace `i`, which starts a run and is not the first. */
  ghost predicate CouldLead(s: State, s': State, order: seq<nat>, i: nat, k: nat, partitioning: bool) {
    && i < k < |order| && order[i] < |s.traces| && order[k] < |s.traces| && TraceFalls(s, order[k], order[i])
    && LastPartition(s, order[k]) == CurrentPartition(s, partitioning, order[i])
    && order[i] != 0 && StartsRun(s, s', order, i)
  }

  /** From a trace that starts a run the way is all falls up to any later one that may fall into it. */
  ghost predicate Leads(s: State, s': State, order: seq<nat>, partitioning: bool) {
    forall i: nat, k: nat :: CouldLead(s, s', order, i, k, partitioning) ==> StrungOut(s, order, i, k + 1)
  }

  lemma PlacedFollows(s: State, s': State, order: seq<nat>, partitioning: bool)
    requires Placed(s, s', order, partitioning) && Distinct(order)
    ensures Follows(s, order, partitioning) && Leads(s, s', order, partitioning)
  {
    hide TraceFalls, Headed;
    forall i: nat, k: nat | CouldFollow(s, order, i, k, partitioning)
      ensures TraceFalls(s, order[i], order[i + 1])
    {
      assert PlacedAt(s, s', order, i, partitioning);
      assert order[k] !in order[..i + 1];
    }
    forall i: nat, k: nat | CouldLead(s, s', order, i, k, partitioning)
      ensures StrungOut(s, order, i, k + 1)
    {
      assert PlacedAt(s, s', order, i, partitioning);
      HeadedLeads(s, order, i, k, CurrentPartition(s, partitioning, order[i]));
    }
  }

  lemma HeadedLeads(s: State, order: seq<nat>, i: nat, k: nat, cur: Partition)
    requires i < k < |order| && Distinct(order) && order[i] != 0 && order[k] < |s.traces| && Headed(s, order, i, cur)
    requires TraceFalls(s, order[k], order[i]) && LastPartition(s, order[k]) == cur
    ensures StrungOut(s, order, i, k + 1)
  {
    hide TraceFalls;
    var e: nat :| i < e <= |order| && StrungOut(s, order, i, e) && NoneOutside(s, order, i, e, cur);
    NotBefore(order, e);
  }

  lemma NotBefore(order: seq<nat>, e: nat)
    requires Distinct(order) && e <= |order|
    ensures forall k :: e <= k < |order| ==> order[k] !in order[..e]
  {}

  /** One run: `s0` is the state before the first. */
  method PlaceRun(w: Weights, ghost f0: Flow, ghost s0: State, s: State, ghost lay: Layout, connected: seq<bool>, ghost order: seq<nat>,
                  lastTrace: int, t: nat, cur: Partition, partitioning: bool)
    returns (s': State, ghost lay': Layout, connected': seq<bool>, lastTrace': nat, ghost order': seq<nat>)
    requires Conn(f0, s, lay, connected, order, []) && t < |connected| == |s.traces| == |s0.traces| && !connected[t]
    requires lastTrace == if order == [] then -1 else Last(order)
    requires partitioning ==> Uniform(s.flow.partition, lay.chains) && FirstPartition(s, t) == cur && s.flow == s0.flow
    requires !partitioning ==> cur == FirstPartition(s0, 0)
    requires forall k :: 0 <= k < |s.traces| ==> s.traces[k].first == s0.traces[k].first
    requires Placed(s0, s, order, partitioning) && Untouched(s0, s, connected)
    ensures Conn(f0, s', lay', connected', order', []) && order <= order' && order' != [] && Last(order') == lastTrace'
    ensures |connected'| == |connected| && connected'[t] && forall k :: 0 <= k < |connected| && connected[k] ==> connected'[k]
    ensures partitioning ==> lay' == lay && s'.flow == s.flow && InPart(s.flow.partition, lay.chains, order'[|order|..], cur)
    ensures |s'.traces| == |s.traces| && forall k :: 0 <= k < |s.traces| ==> s'.traces[k].first == s.traces[k].first
    ensures s'.bbd == s.bbd && (t == 0 && order == [] ==> order'[0] == 0)
    ensures Placed(s0, s', order', partitioning) && Untouched(s0, s', connected')
  {
    hide Conn, InPart, Uniform, Placed, Untouched, RunFits, Headed, Strung;
    OthersLeft(f0, s, lay, connected, order);
    s', lay', connected', lastTrace', order' := ConnectRun(w, f0, s, lay, connected, order, lastTrace, t, cur, partitioning);
    OrderDistinct(f0, s', lay', connected', order');
    RunPartition(f0, s0, s', lay', connected', order, order', partitioning, cur);
    PlacedRun(s0, s, s', order, order', connected, partitioning, cur);
    UntouchedTwice(s0, s, s', connected, connected');
  }

  /** The run joins what the pass has connected so far. */
  lemma PassInPart(part: map<Block, Partition>, chains: seq<seq<Block>>, was: seq<nat>, order: seq<nat>, first: bool, switch: nat, p: Partition)
    requires was <= order && InPart(part, chains, order[|was|..], if first then p else Opposite(p))
    requires first ==> InPart(part, chains, was, p)
    requires !first ==> switch <= |was| && InPart(part, chains, was[..switch], p) && InPart(part, chains, was[switch..], Opposite(p))
    ensures first ==> InPart(part, chains, order, p)
    ensures !first ==> InPart(part, chains, order[..switch], p) && InPart(part, chains, order[switch..], Opposite(p))
  {
    hide InPart;
    if first {
      assert order == was + order[|was|..];
      InPartConcat(part, chains, was, order[|was|..], p);
    } else {
      assert order[switch..] == was[switch..] + order[|was|..] && order[..switch] == was[..switch];
      InPartConcat(part, chains, was[switch..], order[|was|..], Opposite(p));
    }
  }

  method ConnectTraces(w: Weights, ghost f0: Flow, s: State, ghost lay: Layout, partitioning: bool)
    returns (s': State, ghost lay': Layout, ghost order: seq<nat>, ghost switch: nat)
    requires s.traces != [] && Conn(f0, s, lay, seq(|s.traces|, _ => false), [], [])
    requires partitioning ==> Uniform(s.flow.partition, lay.chains)
    requires partitioning ==> forall b :: b in s.flow.partition && b in s.marks.visited ==> s.flow.partition[b] in {Hot, Cold}
    ensures Conn(f0, s', lay', seq(|s.traces|, _ => true), order, []) && order != [] && order[0] == 0
    ensures |s'.traces| == |s.traces| && s'.traces[0].first == s.traces[0].first && s'.bbd == s.bbd
    ensures Follows(s, order, partitioning) && Leads(s, s', order, partitioning)
    ensures partitioning ==>
      && lay' == lay && s'.flow == s.flow && switch <= |order|
      && InPart(s.flow.partition, lay.chains, order[..switch], FirstPartition(s, 0))
      && InPart(s.flow.partition, lay.chains, order[switch..], Opposite(FirstPartition(s, 0)))
  {
    hide Conn, InPart, Uniform, Placed, Untouched, Follows, Leads;
    var lastTrace: int := -1;
    var n, pass := |s.traces|, 1;
    var cur := FirstPartition(s, 0);
    ghost var p := cur;
    var connected := seq(n, _ => false);
    FirstsKnown(f0, s, lay, connected, []);
    assert partitioning ==> forall k :: 0 <= k < n ==> FirstPartition(s, k) in {Hot, Cold};
    var twoPasses := DifferentPartitions(s, partitioning);
    var i := 0;
    s', lay', order, switch := s, lay, [], 0;
    EmptyInPart(s.flow.partition, lay.chains, p);
    NonePlaced(f0, s, lay, connected, partitioning);
    while i < n || (twoPasses && pass == 1)
      invariant 0 <= i <= n && Conn(f0, s', lay', connected, order, []) && |connected| == n == |s'.traces|
      invariant forall k :: 0 <= k < n ==> s'.traces[k].first == s.traces[k].first
      invariant s'.bbd == s.bbd && (partitioning ==> lay' == lay && s'.flow == s.flow)
      invariant Placed(s, s', order, partitioning) && Untouched(s, s', connected) && (!partitioning ==> !twoPasses)
      invariant lastTrace == if order == [] then -1 else Last(order)
      invariant if i == 0 && pass == 1 then order == [] && (forall k :: 0 <= k < n ==> !connected[k]) else order != [] && order[0] == 0
      invariant pass == 1 || (pass == 2 && twoPasses)
      invariant cur == if pass == 1 then p else Opposite(p)
      invariant forall k :: 0 <= k < i ==> connected[k] || (twoPasses && FirstPartition(s, k) != cur)
      invariant pass == 2 ==> forall k :: 0 <= k < n ==> connected[k] || FirstPartition(s, k) != p
      invariant partitioning && pass == 1 ==> InPart(s.flow.partition, lay.chains, order, p)
      invariant partitioning && pass == 2 ==> switch <= |order| && InPart(s.flow.partition, lay.chains, order[..switch], p)
      invariant partitioning && pass == 2 ==> switch <= |order| && InPart(s.flow.partition, lay.chains, order[switch..], Opposite(p))
      decreases 2 - pass, n - i
    {
      var t := i;
      if i >= n {
        i, t, pass, cur, switch := 0, 0, 2, Opposite(cur), |order|;
        assert order[..switch] == order && order[switch..] == [];
        EmptyInPart(s.flow.partition, lay.chains, Opposite(p));
      }
      assert partitioning ==> FirstPartition(s', t) == FirstPartition(s, t);
      if !connected[t] && !(twoPasses && FirstPartition(s', t) != cur) {
        ghost var was := order;
        s', lay', connected, lastTrace, order := PlaceRun(w, f0, s, s', lay', connected, order, lastTrace, t, cur, partitioning);
        if partitioning {
          PassInPart(s.flow.partition, lay.chains, was, order, pass == 1, switch, p);
        }
      }
      i := i + 1;
    }
    if pass == 1 {
      switch := |order|;
      assert order[..switch] == order && order[switch..] == [];
      EmptyInPart(s.flow.partition, lay.chains, Opposite(p));
    }
    assert connected == seq(n, _ => true);
    OrderDistinct(f0, s', lay', connected, order);
    PlacedFollows(s, s', order, partitioning);
  }

  lemma NonePlaced(f0: Flow, s: State, lay: Layout, connected: seq<bool>, partitioning: bool)
    requires Conn(f0, s, lay, connected, [], [])
    ensures Placed(s, s, [], partitioning) && Untouched(s, s, connected)
  {
    UntouchedLinks(f0, s, lay, connected, [], [], s);
  }

  lemma RunPartition(f0: Flow, s: State, s': State, lay: Layout, connected: seq<bool>, order: seq<nat>, order': seq<nat>,
                     partitioning: bool, cur: Partition)
    requires Conn(f0, s', lay, connected, order', []) && |s.traces| == |s'.traces| == |connected| && order <= order' && s.traces != []
    requires forall k :: 0 <= k < |s.traces| ==> s'.traces[k].first == s.traces[k].first
    requires forall i :: 0 <= i < |order'| ==> order'[i] < |connected|
    requires partitioning ==> InPart(s.flow.partition, lay.chains, order'[|order|..], cur)
    requires !partitioning ==> cur == FirstPartition(s, 0)
    ensures forall k :: |order| <= k < |order'| ==> CurrentPartition(s, partitioning, order'[k]) == cur
  {
    ConnFacts(f0, s', lay, connected, order', []);
    hide Conn;
    forall k | |order| <= k < |order'|
      ensures CurrentPartition(s, partitioning, order'[k]) == cur
    {
      assert order'[k] == order'[|order|..][k - |order|] && order'[k] in order'[|order|..];
    }
  }

  lemma EmptyInPart(part: map<Block, Partition>, chains: seq<seq<Block>>, p: Partition)
    ensures InPart(part, chains, [], p)
  {
  }

  /** With partitioning, whether some trace starts in another partition than the first. */
  method DifferentPartitions(s: State, partitioning: bool) returns (r: bool)
    requires s.traces != []
    ensures r <==> partitioning && exists k :: 0 <= k < |s.traces| && FirstPartition(s, k) != FirstPartition(s, 0)
  {
    r := false;
    if partitioning {
      var i := 0;
      while i < |s.traces| && !r
        invariant 0 <= i <= |s.traces|
        invariant r <==> exists k :: 0 <= k < i && FirstPartition(s, k) != FirstPartition(s, 0)
      {
        r := FirstPartition(s, i) != FirstPartition(s, 0);
        i := i + 1;
      }
    }
  }

  lemma {:induction false} FlatIsChain(chains: seq<seq<Block>>, owner: map<Block, nat>, aux: map<Block, Block>, order: seq<nat>)
    requires ChainsOk(chains, owner) && Distinct(order) && order != []
    requires forall i :: 0 <= i < |order| ==> order[i] < |chains|
    requires forall i :: 0 <= i < |order| ==> Link(aux, chains[order[i]])
    requires forall i :: 0 <= i < |order| - 1 ==>
               Last(chains[order[i]]) in aux && aux[Last(chains[order[i]])] == chains[order[i + 1]][0]
    ensures var f := Flat(chains, order);
      && f != [] && f[0] == chains[order[0]][0] && Last(f) == Last(chains[Last(order)])
      && Link(aux, f) && Distinct(f)
      && (forall b :: b in f <==> b in owner && owner[b] in order)
    decreases |order|
  {
    hide Distinct, Link, ChainsOk;
    var k, init := Last(order), order[..|order| - 1];
    var c := chains[k];
    assert order == init + [k];
    ChainOf(chains, owner, k);
    if init == [] {
      assert Flat(chains, init) == [];
      assert Flat(chains, order) == c;
    } else {
      assert forall i :: 0 <= i < |init| ==> init[i] == order[i];
      DistinctInit(order);
      FlatIsChain(chains, owner, aux, init);
      var g := Flat(chains, init);
      assert order[|order| - 2] == Last(init);
      LinkAppend(aux, g, c);
      DistinctConcat(g, c);
      assert Flat(chains, order) == g + c;
    }
  }

  lemma DistinctInit(order: seq<nat>)
    requires Distinct(order) && order != []
    ensures Distinct(order[..|order| - 1]) && Last(order) !in order[..|order| - 1]
  {
  }

  lemma ChainOf(chains: seq<seq<Block>>, owner: map<Block, nat>, k: nat)
    requires ChainsOk(chains, owner) && k < |chains|
    ensures chains[k] != [] && Distinct(chains[k])
    ensures forall b :: b in chains[k] <==> b in owner && owner[b] == k
  {
  }

  lemma {:induction false} FlatConcat(chains: seq<seq<Block>>, a: seq<nat>, b: seq<nat>)
    requires forall i :: 0 <= i < |a| ==> a[i] < |chains|
    requires forall i :: 0 <= i < |b| ==> b[i] < |chains|
    ensures Flat(chains, a + b) == Flat(chains, a) + Flat(chains, b)
    decreases |b|
  {
    if b == [] {
      assert a + b == a;
    } else {
      var b' := b[..|b| - 1];
      assert (a + b)[..|a + b| - 1] == a + b' && Last(a + b) == Last(b);
      FlatConcat(chains, a, b');
      assert Flat(chains, a + b) == Flat(chains, a + b') + chains[Last(b)];
      assert Flat(chains, b) == Flat(chains, b') + chains[Last(b)];
      hide Flat;
    }
  }

  lemma {:induction false} FlatInPart(part: map<Block, Partition>, chains: seq<seq<Block>>, order: seq<nat>, p: Partition)
    requires Uniform(part, chains) && InPart(part, chains, order, p)
    requires forall i :: 0 <= i < |order| ==> order[i] < |chains|
    ensures forall b :: b in Flat(chains, order) ==> b in part && part[b] == p
    decreases |order|
  {
    if order != [] {
      var init := order[..|order| - 1];
      FlatInPart(part, chains, init, p);
      assert Last(order) in order;
      assert SamePartition(part, chains[Last(order)]);
    }
  }

  /** How often two neighbours in `ps` differ. */
  ghost function Switches(ps: seq<Partition>): nat {
    if |ps| < 2 then 0 else Switches(ps[..|ps| - 1]) + if ps[|ps| - 1] != ps[|ps| - 2] then 1 else 0
  }

  function PartitionsOf(part: map<Block, Partition>, c: seq<Block>): seq<Partition>
    requires forall b :: b in c ==> b in part
  {
    seq(|c|, i requires 0 <= i < |c| => assert c[i] in c; part[c[i]])
  }

  lemma {:induction false} OneSwitch(ps: seq<Partition>, m: nat, p: Partition, q: Partition)
    requires m <= |ps| && (forall i :: 0 <= i < m ==> ps[i] == p) && (forall i :: m <= i < |ps| ==> ps[i] == q)
    ensures Switches(ps) <= (if 0 < m < |ps| then 1 else 0)
    decreases |ps|
  {
    if |ps| >= 2 {
      OneSwitch(ps[..|ps| - 1], if m == |ps| then m - 1 else m, p, q);
    }
  }

  /** The check made on the final layout: an error is two or more changes of partition. */
  method VerifyHotColdBlockGrouping(ps: seq<Partition>) returns (err: bool)
    requires forall i :: 0 <= i < |ps| ==> ps[i] != Unpartitioned
    ensures err <==> Switches(ps) > 1
  {
    err := false;
    var switchedSections, current := false, Unpartitioned;
    for i := 0 to |ps|
      invariant current == if i == 0 then Unpartitioned else if err then current else ps[i - 1]
      invariant current == Unpartitioned ==> i == 0
      invariant err <==> Switches(ps[..i]) > 1
      invariant switchedSections <==> Switches(ps[..i]) > 0
    {
      assert ps[..i + 1][..i] == ps[..i];
      if current == Unpartitioned {
        current := ps[i];
      }
      if ps[i] != current {
        if switchedSections {
          err := true;
        } else {
          switchedSections, current := true, ps[i];
        }
      }
    }
    assert ps[..|ps|] == ps;
  }

  lemma IdleConn(f0: Flow, next: Block, s: State, lay: Layout, connected: seq<bool>)
    requires Idle(f0, next, s, lay, {}) && s.bbd.heap == {} && s.bbd.newHeap == {} && |s.traces| == |lay.chains|
    requires |connected| == |s.traces| && forall k :: 0 <= k < |connected| ==> !connected[k]
    ensures Conn(f0, s, lay, connected, [], []) && Uniform(s.flow.partition, lay.chains)
  {
    hide Core, ChainsOk, Link;
    forall k | 0 <= k < |s.traces|
      ensures TraceIs(s.traces[k], lay.chains[k], s.marks.aux) && Last(lay.chains[k]) !in s.marks.aux
      ensures SamePartition(s.flow.partition, lay.chains[k])
    {
      assert TraceInv(s.traces[k], lay.chains[k], s.marks.aux, s.flow.partition);
    }
  }

  /** The final layout: what following `aux` from the first block of the first trace visits. */
  ghost predicate IsLayout(f0: Flow, s: State, origin: map<Block, Block>, layout: seq<Block>) {
    && layout != [] && s.traces != [] && layout[0] == s.traces[0].first
    && Link(s.marks.aux, layout) && Last(layout) !in s.marks.aux
    && Distinct(layout)
    && (forall b :: b in f0.succs ==> (b in layout <==> Reachable(f0.succs, b)))
    && (forall b :: b in layout && b !in f0.succs ==>
          f0.last <= b < s.flow.last && b in origin && Reachable(f0.succs, origin[b]))
    && (forall b :: f0.last <= b < s.flow.last ==> b in layout)
    && (forall b, j :: b in layout && b in s.flow.succs && 0 <= j < |s.flow.succs[b]| ==>
          s.flow.succs[b][j].dest == EXIT || s.flow.succs[b][j].dest in layout)
  }

  /** What the core invariant says about visited blocks once the heaps are empty. */
  ghost predicate Covers(f0: Flow, f: Flow, origin: map<Block, Block>, visited: set<Block>) {
    && (forall b :: b in f0.succs ==> (b in visited <==> Reachable(f0.succs, b)))
    && (forall b :: b in visited && b !in f0.succs ==> f0.last <= b < f.last && b in origin && Reachable(f0.succs, origin[b]))
    && (forall b :: f0.last <= b < f.last ==> b in visited)
    && (forall b :: b in visited ==> b in f.succs && b in f.partition)
    && (forall b, j :: b in visited && b in f.succs && 0 <= j < |f.succs[b]| ==>
          f.succs[b][j].dest == EXIT || f.succs[b][j].dest in visited)
  }

  lemma CoreCovers(f0: Flow, f: Flow, visited: set<Block>, bbd: Bbd, origin: map<Block, Block>)
    requires Core(f0, f, visited, bbd, origin, {}) && bbd.heap == {} && bbd.newHeap == {}
    ensures Covers(f0, f, origin, visited)
  {
    hide CopiesOk, Reachable;
    forall b | b in f0.succs
      ensures b in visited <==> Reachable(f0.succs, b)
    {
      if Reachable(f0.succs, b) {
        ReachableVisited(f0, f, visited, bbd, origin, b);
      }
    }
    NewBlocksVisited(f0, f, visited, bbd, origin);
    CoreBlocks(f0, f, visited, bbd, origin, {});
    forall b | b in visited && b !in f0.succs
      ensures f0.last <= b < f.last && b in origin && Reachable(f0.succs, origin[b])
    {
      assert b in f.succs;
      assert origin[b] in visited;
    }
    assert forall b, j :: b in visited && b in f.succs && 0 <= j < |f.succs[b]| ==> Seen(visited, bbd, f.succs[b][j].dest);
  }

  lemma NewBlocksVisited(f0: Flow, f: Flow, visited: set<Block>, bbd: Bbd, origin: map<Block, Block>)
    requires Core(f0, f, visited, bbd, origin, {})
    ensures forall b :: f0.last <= b < f.last ==> b in visited
  {
    hide Reachable, Frontier, HeapsInv;
    forall b | f0.last <= b < f.last
      ensures b in visited
    {
      assert b in f.partition;
    }
  }

  lemma ReachableVisited(f0: Flow, f: Flow, visited: set<Block>, bbd: Bbd, origin: map<Block, Block>, b: Block)
    requires Core(f0, f, visited, bbd, origin, {}) && bbd.heap == {} && bbd.newHeap == {} && Reachable(f0.succs, b)
    ensures b in visited
  {
    hide CopiesOk, CrossingMarked, HeapsInv;
    var p :| IsPath(f0.succs, p) && |p| > 1 && Last(p) == b;
    ClosedContainsPath(f0.succs, visited, p);
  }

  lemma ConnLayout(f0: Flow, s: State, lay: Layout, order: seq<nat>)
    requires Conn(f0, s, lay, seq(|s.traces|, _ => true), order, []) && order != [] && order[0] == 0
    ensures forall i :: 0 <= i < |order| ==> order[i] < |lay.chains|
    ensures IsLayout(f0, s, lay.origin, Flat(lay.chains, order))
    ensures forall b :: b in Flat(lay.chains, order) ==> b in s.flow.partition
  {
    hide Core, Reachable, Link, ChainsOk, Distinct, Covers;
    var all := seq(|s.traces|, _ => true);
    assert order + [] == order;
    ConnFacts(f0, s, lay, all, order, []);
    forall i | 0 <= i < |order|
      ensures order[i] < |lay.chains| && Link(s.marks.aux, lay.chains[order[i]])
    {
      assert order[i] in order;
      assert TraceIs(s.traces[order[i]], lay.chains[order[i]], s.marks.aux);
    }
    FlatIsChain(lay.chains, lay.owner, s.marks.aux, order);
    AllInLayout(lay.chains, lay.owner, s.marks.visited, order);
    CoreCovers(f0, s.flow, s.marks.visited.Keys, s.bbd, lay.origin);
    CoversLayout(f0, s, lay.origin, Flat(lay.chains, order));
  }

  lemma CoversLayout(f0: Flow, s: State, origin: map<Block, Block>, layout: seq<Block>)
    requires Covers(f0, s.flow, origin, s.marks.visited.Keys) && forall b :: b in layout <==> b in s.marks.visited
    requires layout != [] && s.traces != [] && layout[0] == s.traces[0].first
    requires Link(s.marks.aux, layout) && Last(layout) !in s.marks.aux && Distinct(layout)
    ensures IsLayout(f0, s, origin, layout)
    ensures forall b :: b in layout ==> b in s.flow.partition
  {
    hide Reachable, Link, Distinct;
  }

  lemma AllInLayout(chains: seq<seq<Block>>, owner: map<Block, nat>, visited: map<Block, nat>, order: seq<nat>)
    requires ChainsOk(chains, owner) && owner.Keys == visited.Keys
    requires forall k: nat :: k < |chains| ==> k in order
    ensures forall b :: b in visited <==> b in owner && owner[b] in order
  {
    forall b | b in visited
      ensures b in owner && owner[b] in order
    {
      assert owner[b] < |chains|;
    }
  }

  lemma PartitionsKnown(f0: Flow, next: Block, s: State, lay: Layout)
    requires Idle(f0, next, s, lay, {})
    requires forall b :: b in f0.succs && b != ENTRY ==> b in f0.partition && f0.partition[b] in {Hot, Cold}
    ensures forall b :: b in s.flow.partition && b in s.marks.visited ==> s.flow.partition[b] in {Hot, Cold}
  {
    hide ChainsOk, OwnersVisited, Complete, EndsInv, Frontier, GraphInv, HeapsInv, Reachable;
    VisitedRoots(f0, s.flow, s.marks.visited.Keys, s.bbd, lay.origin);
    forall b | b in s.flow.partition && b in s.marks.visited
      ensures s.flow.partition[b] in {Hot, Cold}
    {
      assert s.flow.partition[b] == f0.partition[Root(lay.origin, b)];
    }
  }

  lemma VisitedRoots(f0: Flow, f: Flow, visited: set<Block>, bbd: Bbd, origin: map<Block, Block>)
    requires Core(f0, f, visited, bbd, origin, {})
    ensures forall b :: b in visited ==> Root(origin, b) != ENTRY
  {
    hide Reachable, Frontier, CopiesOk;
    forall b | b in visited
      ensures Root(origin, b) != ENTRY
    {
      if b in origin {
        assert origin[b] in visited;
      }
    }
  }

  lemma LayoutSwitches(part: map<Block, Partition>, chains: seq<seq<Block>>, order: seq<nat>, m: nat, p: Partition)
    requires Uniform(part, chains) && (forall i :: 0 <= i < |order| ==> order[i] < |chains|) && m <= |order|
    requires InPart(part, chains, order[..m], p) && InPart(part, chains, order[m..], Opposite(p)) && p in {Hot, Cold}
    requires forall b :: b in Flat(chains, order) ==> b in part
    ensures forall b :: b in Flat(chains, order) ==> part[b] != Unpartitioned
    ensures Switches(PartitionsOf(part, Flat(chains, order))) <= 1
  {
    hide Uniform, InPart, Flat;
    var a, b := order[..m], order[m..];
    assert order == a + b;
    FlatConcat(chains, a, b);
    FlatInPart(part, chains, a, p);
    FlatInPart(part, chains, b, Opposite(p));
    TwoParts(part, Flat(chains, a), Flat(chains, b), p);
  }

  lemma TwoParts(part: map<Block, Partition>, a: seq<Block>, b: seq<Block>, p: Partition)
    requires p in {Hot, Cold}
    requires forall x :: x in a ==> x in part && part[x] == p
    requires forall x :: x in b ==> x in part && part[x] == Opposite(p)
    ensures forall x :: x in a + b ==> x in part && part[x] != Unpartitioned
    ensures Switches(PartitionsOf(part, a + b)) <= 1
  {
    var f := a + b;
    var ps := PartitionsOf(part, f);
    forall i | 0 <= i < |ps|
      ensures ps[i] == if i < |a| then p else Opposite(p)
    {
      assert f[i] in f && f[i] == if i < |a| then a[i] else b[i - |a|];
      assert if i < |a| then a[i] in a else b[i - |a|] in b;
    }
    OneSwitch(ps, |a|, p, Opposite(p));
  }

  /** Reorders the blocks of the function: collects the traces, then connects them. */
  method ReorderBasicBlocks(w: Weights, f0: Flow, next: Block, partitioning: bool)
    returns (s: State, ghost origin: map<Block, Block>, ghost layout: seq<Block>)
    requires Initial(f0)
    requires partitioning ==> forall b :: b in f0.succs && b != ENTRY ==> b in f0.partition && f0.partition[b] in {Hot, Cold}
    ensures IsLayout(f0, s, origin, layout)
    ensures SingleEntry(f0, next) ==> layout[0] == next
    ensures forall b :: b in layout ==> b in s.flow.partition
    ensures partitioning ==>
      (forall b :: b in layout ==> s.flow.partition[b] != Unpartitioned) && Switches(PartitionsOf(s.flow.partition, layout)) <= 1
  {
    hide Idle, Conn, Core, IsLayout, InPart, Uniform, AllStopped, Follows, Leads, SingleEntry;
    ghost var lay, order, switch;
    var t;
    t, lay := FindTraces(w, f0, next);
    EntryKept(f0, next, t, lay);
    IdleConn(f0, next, t, lay, seq(|t.traces|, _ => false));
    if partitioning {
      PartitionsKnown(f0, next, t, lay);
    }
    FirstsKnown(f0, t, lay, seq(|t.traces|, _ => false), []);
    s, lay, order, switch := ConnectTraces(w, f0, t, lay, partitioning);
    ConnLayout(f0, s, lay, order);
    origin, layout := lay.origin, Flat(lay.chains, order);
    LayoutStart(f0, s, lay.origin, layout);
    if partitioning {
      LayoutSwitches(s.flow.partition, lay.chains, order, switch, FirstPartition(t, 0));
    }
  }

  lemma EntryKept(f0: Flow, next: Block, s: State, lay: Layout)
    requires Idle(f0, next, s, lay, {}) && s.traces != []
    ensures SingleEntry(f0, next) ==> s.traces[0].first == next
  {
    hide Core;
  }

  lemma LayoutStart(f0: Flow, s: State, origin: map<Block, Block>, layout: seq<Block>)
    requires IsLayout(f0, s, origin, layout)
    ensures layout != [] && s.traces != [] && layout[0] == s.traces[0].first
  {
    hide Reachable, Link, Distinct;
  }
}
