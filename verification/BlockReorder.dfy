/**
 * Greedy basic-block reordering: traces are collected in rounds, then connected through `aux`.
 * What weights and sizes decide is given as functions, and the keys of the heaps are left open: every theorem
 * holds whatever these functions are and in whichever order the blocks leave the heaps.
 */
module BlockReorder {
  import opened Options
  import opened BlockChains

  const ENTRY: Block := 0
  const EXIT: Block := 1
  const N_ROUNDS: nat := 5

  datatype Partition = Unpartitioned | Hot | Cold
  datatype Edge = Edge(dest: Block, canFallthru: bool, complex: bool, crossing: bool)
  datatype Trace = Trace(first: Block, last: Block, round: nat, length: nat)
  type Succs = map<Block, seq<Edge>>

  /** The flow graph: successor edges, hot/cold partition and the first unused block index. */
  datatype Flow = Flow(succs: Succs, partition: map<Block, Partition>, last: Block)

  /** Per-block pass data; a block missing from `aux` has a null link, one missing from `visited` has 0. */
  datatype Marks = Marks(aux: map<Block, Block>, visited: map<Block, nat>)

  /** The two heaps and the trace numbers recorded for the ends of finished traces. */
  datatype Bbd = Bbd(heap: set<Block>, newHeap: set<Block>, startOfTrace: map<Block, nat>, endOfTrace: map<Block, nat>)

  /** What the pass updates; passed in and out of each step. */
  datatype State = State(flow: Flow, marks: Marks, bbd: Bbd, traces: seq<Trace>)

  /** Proof bookkeeping: the blocks of each trace in order, the trace of each block, what a copy stems from. */
  datatype Layout = Layout(chains: seq<seq<Block>>, owner: map<Block, nat>, origin: map<Block, Block>)

  /**
   * What probabilities, frequencies, counts and sizes decide about a block, and about the edge of a block with a given
   * number; they may change with the flow graph, as blocks are duplicated.
   */
  datatype Weights = Weights(
    endsInCall: Block -> bool,
    likely: (Flow, nat, Block, nat) -> bool,     // the edge is probable, frequent and counted enough for the round
    better: (Flow, Block, nat, nat) -> bool,     // the first edge is better than the second
    copied: (Flow, Block, bool) -> bool,         // the block should be duplicated; code may grow
    growing: bool,                               // loop headers may be duplicated at the cost of size
    copiedHeader: (Flow, Block) -> bool,         // the block is small and ends in a conditional jump
    manyIterations: (Flow, Block, nat) -> bool,  // the loop closed by the edge runs often
    detour: (Flow, Block, nat, nat) -> bool,     // the first edge leads to a frequent block with no other predecessor
    later: (Flow, nat, Block) -> bool,           // the block is not hot enough for the round
    connecting: (Flow, Block, nat) -> bool       // the edge is worth a copy of its block to connect traces
  )

  ghost predicate WellFormed(g: Succs, n: nat) {
    && ENTRY in g && EXIT !in g && EXIT < n
    && (forall b :: b in g ==> b < n)
    && (forall b, j :: b in g && 0 <= j < |g[b]| ==>
          g[b][j].dest == EXIT || (g[b][j].dest in g && g[b][j].dest != ENTRY))
  }

  ghost predicate HasEdge(g: Succs, a: Block, b: Block) {
    a in g && exists j :: 0 <= j < |g[a]| && g[a][j].dest == b
  }

  ghost predicate IsPath(g: Succs, p: seq<Block>) {
    p != [] && p[0] == ENTRY && forall i :: 0 <= i < |p| - 1 ==> HasEdge(g, p[i], p[i + 1])
  }

  /** Some path of `g` leads from the entry to the ordinary block `b`. */
  ghost predicate Reachable(g: Succs, b: Block) {
    b != EXIT && exists p :: IsPath(g, p) && |p| > 1 && Last(p) == b
  }

  ghost function Dests(es: seq<Edge>): set<Block> {
    set e | e in es :: e.dest
  }

  lemma ReachStep(g: Succs, b: Block, j: nat)
    requires b in g && j < |g[b]| && g[b][j].dest != EXIT
    requires b == ENTRY || Reachable(g, b)
    ensures Reachable(g, g[b][j].dest)
  {
    var d := g[b][j].dest;
    var p: seq<Block>;
    if b == ENTRY {
      p := [ENTRY];
    } else {
      p :| IsPath(g, p) && |p| > 1 && Last(p) == b;
    }
    assert HasEdge(g, b, d);
    var q := p + [d];
    forall i | 0 <= i < |q| - 1
      ensures HasEdge(g, q[i], q[i + 1])
    {
      if i < |p| - 1 {
        assert HasEdge(g, p[i], p[i + 1]);
      }
    }
    assert IsPath(g, q) && Last(q) == d;
  }

  /** A set of blocks closed under the edges of `g` holds every reachable block. */
  lemma {:induction false} ClosedContainsPath(g: Succs, s: set<Block>, p: seq<Block>)
    requires IsPath(g, p) && |p| > 1
    requires EXIT !in g
    requires forall b, j :: (b in s || b == ENTRY) && b in g && 0 <= j < |g[b]| ==> g[b][j].dest == EXIT || g[b][j].dest in s
    ensures Last(p) == EXIT || Last(p) in s
    decreases |p|
  {
    var q := p[..|p| - 1];
    assert HasEdge(g, p[|p| - 2], p[|p| - 1]);
    if |p| > 2 {
      forall i | 0 <= i < |q| - 1
        ensures HasEdge(g, q[i], q[i + 1])
      {
        assert HasEdge(g, p[i], p[i + 1]);
      }
      ClosedContainsPath(g, s, q);
    }
  }

  /** The chains are nonempty, hold each block once, and `owner` maps a block to its chain. */
  ghost predicate ChainsOk(chains: seq<seq<Block>>, owner: map<Block, nat>) {
    && (forall k :: 0 <= k < |chains| ==> chains[k] != [] && Distinct(chains[k]))
    && (forall k, b :: 0 <= k < |chains| && b in chains[k] ==> b in owner && owner[b] == k)
    && (forall b :: b in owner ==> owner[b] < |chains| && b in chains[owner[b]])
  }

  ghost predicate SamePartition(part: map<Block, Partition>, c: seq<Block>) {
    c != [] && c[0] in part && forall b :: b in c ==> b in part && part[b] == part[c[0]]
  }

  /** An edge between blocks of different partitions carries the crossing flag. */
  ghost predicate CrossingMarked(g: Succs, part: map<Block, Partition>)
    requires g.Keys <= part.Keys
    requires forall b, j :: b in g && 0 <= j < |g[b]| ==> g[b][j].dest == EXIT || g[b][j].dest in g
  {
    forall b, j :: b in g && b != ENTRY && 0 <= j < |g[b]| ==>
      g[b][j].dest == EXIT || g[b][j].crossing || part[g[b][j].dest] == part[b]
  }

  /** The original block that `b` is or stems from. */
  ghost function Root(origin: map<Block, Block>, b: Block): Block {
    if b in origin then origin[b] else b
  }

  /**
   * `f` differs from the original flow graph `f0` only by duplicated blocks and by edges that leave
   * visited blocks; `origin` maps a duplicate to the block it stems from.
   */
  ghost predicate GraphInv(f0: Flow, f: Flow, visited: set<Block>, origin: map<Block, Block>) {
    && WellFormed(f0.succs, f0.last) && WellFormed(f.succs, f.last) && f0.last <= f.last
    && f.partition.Keys == f.succs.Keys && CrossingMarked(f.succs, f.partition)
    && (forall b :: b in f0.succs ==> b in f.succs && b < f0.last && (b !in visited ==> f.succs[b] == f0.succs[b]))
    && (forall b :: b in f.succs && b !in f0.succs ==> f0.last <= b && b in visited && b in origin)
    && (forall b :: b in origin ==> f0.last <= b && origin[b] in f0.succs && origin[b] in visited)
  }

  /** The flow graph after block `f.last` was made a duplicate of `orig` that edge `j` of `src` now enters. */
  function Duplicated(f: Flow, orig: Block, src: Block, j: nat): Flow
    requires orig in f.succs && orig in f.partition && src in f.succs && j < |f.succs[src]|
  {
    var edge := f.succs[src][j].(dest := f.last);
    Flow(f.succs[src := f.succs[src][j := edge]][f.last := f.succs[orig]],
         f.partition[f.last := f.partition[orig]], f.last + 1)
  }

  /** Every new block is a duplicate and lies in the partition of the block it stems from. */
  ghost predicate CopiesOk(f0: Flow, f: Flow, origin: map<Block, Block>) {
    && f0.partition.Keys == f0.succs.Keys && f.partition.Keys == f.succs.Keys
    && (forall b :: f0.last <= b < f.last ==> b in f.partition)
    && (forall b {:trigger f.partition[b]} :: b in f.partition ==>
          Root(origin, b) in f0.succs && f.partition[b] == f0.partition[Root(origin, b)])
  }

  lemma DuplicateKeepsCopies(f0: Flow, f: Flow, origin: map<Block, Block>, orig: Block, src: Block, j: nat)
    requires CopiesOk(f0, f, origin) && f0.last <= f.last && f.last !in f.succs
    requires orig in f.succs && src in f.succs && j < |f.succs[src]|
    ensures CopiesOk(f0, Duplicated(f, orig, src, j), origin[f.last := Root(origin, orig)])
  {
    assert f.partition[orig] == f0.partition[Root(origin, orig)];
  }

  lemma DuplicateKeepsGraph(f0: Flow, f: Flow, visited: set<Block>, origin: map<Block, Block>,
                            orig: Block, src: Block, j: nat)
    requires GraphInv(f0, f, visited, origin)
    requires orig in f.succs && orig != ENTRY && orig in visited
    requires src in f.succs && src != ENTRY && src in visited && j < |f.succs[src]| && f.succs[src][j].dest == orig
    ensures GraphInv(f0, Duplicated(f, orig, src, j), visited + {f.last}, origin[f.last := Root(origin, orig)])
  {
    var f' := Duplicated(f, orig, src, j);
    var g': Succs := f'.succs;
    forall b: Block, i: int | b in g' && 0 <= i < |g'[b]|
      ensures g'[b][i].dest == EXIT || (g'[b][i].dest in g' && g'[b][i].dest != ENTRY)
      ensures b == ENTRY || g'[b][i].dest == EXIT || g'[b][i].crossing || f'.partition[g'[b][i].dest] == f'.partition[b]
    {
      var b0 := if b == f.last then orig else b;
      assert i < |f.succs[b0]|;
    }
  }

  ghost predicate Seen(visited: set<Block>, bbd: Bbd, d: Block) {
    d == EXIT || d in visited || d in bbd.heap || d in bbd.newHeap
  }

  /** Every successor in `g` of the entry or of a visited block was seen or is in `extra`. */
  ghost predicate Frontier(g: Succs, visited: set<Block>, bbd: Bbd, extra: set<Block>) {
    forall b, j :: (b in visited || b == ENTRY) && b in g && 0 <= j < |g[b]| ==>
      Seen(visited, bbd, g[b][j].dest) || g[b][j].dest in extra
  }

  /** The heaps hold reachable blocks that no trace has taken; visited original blocks are reachable. */
  ghost predicate HeapsInv(f0: Flow, f: Flow, visited: set<Block>, bbd: Bbd) {
    && bbd.heap !! bbd.newHeap
    && (forall b :: b in bbd.heap || b in bbd.newHeap ==>
          b in f0.succs && b != ENTRY && b !in visited && Reachable(f0.succs, b))
    && (forall b :: b in visited ==> b in f.succs && b != ENTRY && (b in f0.succs ==> Reachable(f0.succs, b)))
  }

  /** A trace is a chain linked by `aux` whose blocks lie in one partition. */
  ghost predicate TraceInv(tr: Trace, c: seq<Block>, aux: map<Block, Block>, part: map<Block, Partition>) {
    c != [] && tr.first == c[0] && Link(aux, c) && Last(c) !in aux && SamePartition(part, c)
  }

  /** The function has one entry edge and it leads to `next`. */
  ghost predicate SingleEntry(f0: Flow, next: Block) {
    ENTRY in f0.succs && |f0.succs[ENTRY]| == 1 && f0.succs[ENTRY][0].dest == next
  }

  ghost predicate OwnersVisited(owner: map<Block, nat>, visited: map<Block, nat>, pending: set<Block>) {
    && owner.Keys == visited.Keys + pending && pending !! visited.Keys
    && (forall b :: b in visited ==> visited[b] == owner[b] + 1)
  }

  /** The part of the invariant of trace collection that speaks of blocks and edges. */
  ghost predicate Core(f0: Flow, f: Flow, visited: set<Block>, bbd: Bbd, origin: map<Block, Block>, extra: set<Block>) {
    && GraphInv(f0, f, visited, origin) && CopiesOk(f0, f, origin)
    && HeapsInv(f0, f, visited, bbd)
    && Frontier(f.succs, visited, bbd, extra) && Frontier(f0.succs, visited, bbd, extra)
  }

  lemma CoreBlocks(f0: Flow, f: Flow, visited: set<Block>, bbd: Bbd, origin: map<Block, Block>, extra: set<Block>)
    requires Core(f0, f, visited, bbd, origin, extra)
    ensures forall b :: b in visited ==> b in f.succs && b in f.partition && b != ENTRY
    ensures forall b :: b in f0.succs ==> b in f.succs
    ensures f.last !in visited && f.last !in f.partition && f.last !in f.succs && f0.last <= f.last && f.last != ENTRY
  {
    hide Frontier, Reachable, CopiesOk;
  }

  lemma DuplicateKeepsFrontier(f: Flow, visited: set<Block>, bbd: Bbd, orig: Block, src: Block, j: nat)
    requires Frontier(f.succs, visited, bbd, {}) && orig in f.succs && orig in visited && orig in f.partition
    requires src in f.succs && j < |f.succs[src]|
    ensures Frontier(Duplicated(f, orig, src, j).succs, visited + {f.last}, bbd, {})
  {
    var f' := Duplicated(f, orig, src, j);
    forall b: Block, i: int | (b in visited + {f.last} || b == ENTRY) && b in f'.succs && 0 <= i < |f'.succs[b]|
      ensures Seen(visited + {f.last}, bbd, f'.succs[b][i].dest)
    {
      var b0 := if b == f.last then orig else b;
      assert i < |f.succs[b0]| && Seen(visited, bbd, f.succs[b0][i].dest);
    }
  }

  lemma DuplicateKeepsCore(f0: Flow, f: Flow, visited: set<Block>, bbd: Bbd, origin: map<Block, Block>,
                           orig: Block, src: Block, j: nat)
    requires Core(f0, f, visited, bbd, origin, {})
    requires orig in f.succs && orig in visited && src in f.succs && src in visited
    requires j < |f.succs[src]| && f.succs[src][j].dest == orig
    ensures orig in f.partition
    ensures Core(f0, Duplicated(f, orig, src, j), visited + {f.last}, bbd, origin[f.last := Root(origin, orig)], {})
  {
    hide Frontier, CopiesOk, GraphInv, Reachable;
    CoreBlocks(f0, f, visited, bbd, origin, {});
    DuplicateKeepsGraph(f0, f, visited, origin, orig, src, j);
    DuplicateKeepsCopies(f0, f, origin, orig, src, j);
    DuplicateKeepsFrontier(f, visited, bbd, orig, src, j);
    var f' := Duplicated(f, orig, src, j);
    FrontierOriginal(f0, visited, bbd, f.last);
    assert HeapsInv(f0, f', visited + {f.last}, bbd);
  }

  lemma FrontierOriginal(f0: Flow, visited: set<Block>, bbd: Bbd, x: Block)
    requires Frontier(f0.succs, visited, bbd, {}) && x !in f0.succs && x != ENTRY
    ensures Frontier(f0.succs, visited + {x}, bbd, {})
  {
  }

  ghost predicate EndsInv(traces: seq<Trace>, bbd: Bbd, done: nat)
    requires done <= |traces|
  {
    && (forall b :: b in bbd.startOfTrace ==> bbd.startOfTrace[b] < done && traces[bbd.startOfTrace[b]].first == b)
    && (forall b :: b in bbd.endOfTrace ==> bbd.endOfTrace[b] < done && traces[bbd.endOfTrace[b]].last == b)
    && (forall k :: 0 <= k < done ==> StartKnown(traces[k], bbd, k) && EndKnown(traces[k], bbd, k))
  }

  predicate StartKnown(tr: Trace, bbd: Bbd, k: nat) {
    tr.first in bbd.startOfTrace && bbd.startOfTrace[tr.first] == k
  }

  predicate EndKnown(tr: Trace, bbd: Bbd, k: nat) {
    tr.last in bbd.endOfTrace && bbd.endOfTrace[tr.last] == k
  }

  lemma EndsDiffer(chains: seq<seq<Block>>, owner: map<Block, nat>, i: nat, k: nat)
    requires ChainsOk(chains, owner) && i < |chains| && k < |chains| && i != k
    ensures chains[i] != [] && chains[k] != [] && chains[i][0] != chains[k][0] && Last(chains[i]) != Last(chains[k])
  {
    var a, b, c, d := chains[i][0], chains[k][0], Last(chains[i]), Last(chains[k]);
    assert a in chains[i] && b in chains[k] && c in chains[i] && d in chains[k];
    assert owner[a] == owner[c] == i && owner[b] == owner[d] == k;
  }

  /** The first `done` traces are complete. */
  ghost predicate Complete(traces: seq<Trace>, chains: seq<seq<Block>>, aux: map<Block, Block>,
                           part: map<Block, Partition>, done: nat)
    requires done <= |traces| == |chains|
  {
    forall k :: 0 <= k < done ==> TraceInv(traces[k], chains[k], aux, part) && traces[k].last == Last(chains[k])
  }

  /** Traces before `k` are complete; the blocks of trace `k`, the last one, are all visited. */
  ghost predicate Tail(part: map<Block, Partition>, m: Marks, bbd: Bbd, traces: seq<Trace>, lay: Layout, k: nat) {
    && |traces| == |lay.chains| == k + 1
    && ChainsOk(lay.chains, lay.owner) && OwnersVisited(lay.owner, m.visited, {})
    && Complete(traces, lay.chains, m.aux, part, k) && EndsInv(traces, bbd, k)
    && traces[k].first == lay.chains[k][0] && SamePartition(part, lay.chains[k])
    && m.aux.Keys <= m.visited.Keys
  }

  ghost predicate LoopAtTail(g: Succs, aux: map<Block, Block>, c: seq<Block>, h: nat, bb: Block, header: Block) {
    && h < |c| && c[h] == header && Last(c) == bb && Distinct(c) && Link(aux, c) && bb in aux && aux[bb] == header
    && (forall i :: 0 <= i < |c| - 1 ==> HasEdge(g, c[i], c[i + 1]))
  }

  lemma ChainMembers(chains: seq<seq<Block>>, owner: map<Block, nat>, visited: map<Block, nat>, k: nat)
    requires ChainsOk(chains, owner) && OwnersVisited(owner, visited, {}) && k < |chains|
    ensures chains[k] != [] && Distinct(chains[k])
    ensures forall b :: b in chains[k] ==> b in visited && b in owner && owner[b] == k
  {
  }

  /** The other traces stay complete when only links of blocks of chain `k` change. */
  lemma OthersComplete(part: map<Block, Partition>, part': map<Block, Partition>, aux: map<Block, Block>,
                       aux': map<Block, Block>, traces: seq<Trace>, traces': seq<Trace>,
                       chains: seq<seq<Block>>, owner: map<Block, nat>, k: nat, d: seq<Block>)
    requires |traces| == |chains| == |traces'| == k + 1 && traces'[..k] == traces[..k]
    requires ChainsOk(chains, owner) && Complete(traces, chains, aux, part, k)
    requires forall b :: b in part ==> b in part' && part'[b] == part[b]
    requires forall b :: b in owner && b !in chains[k] ==> (b in aux <==> b in aux') && (b in aux ==> aux'[b] == aux[b])
    ensures Complete(traces', chains[k := d], aux', part', k)
  {
    forall i | 0 <= i < k
      ensures TraceInv(traces'[i], chains[i], aux', part') && traces'[i].last == Last(chains[i])
    {
      var c := chains[i];
      assert traces'[i] == traces[i] && TraceInv(traces[i], c, aux, part);
      forall b | b in c
        ensures b in owner && b !in chains[k]
      {
        assert owner[b] == i;
      }
      LinkFrame(aux, aux', c);
    }
  }

  lemma ReplaceChain(chains: seq<seq<Block>>, owner: map<Block, nat>, k: nat, r: seq<Block>)
    requires ChainsOk(chains, owner) && k < |chains| && r != [] && Distinct(r)
    requires forall b :: b in r <==> b in chains[k]
    ensures ChainsOk(chains[k := r], owner)
  {
  }

  lemma InsertInChain(chains: seq<seq<Block>>, owner: map<Block, nat>, k: nat, d: seq<Block>, x: Block)
    requires ChainsOk(chains, owner) && k < |chains| && d != [] && Distinct(d) && x !in owner
    requires forall b :: b in d <==> b == x || b in chains[k]
    ensures ChainsOk(chains[k := d], owner[x := k])
  {
  }

  /** Replacing the last chain by another order of its blocks. */
  lemma ReorderKeepsTail(part: map<Block, Partition>, m: Marks, bbd: Bbd, traces: seq<Trace>, lay: Layout, k: nat,
                         r: seq<Block>, aux': map<Block, Block>)
    requires Tail(part, m, bbd, traces, lay, k)
    requires r != [] && Distinct(r) && (forall b :: b in r <==> b in lay.chains[k])
    requires Link(aux', r) && Last(r) !in aux' && aux'.Keys <= m.visited.Keys
    requires forall b :: b !in r ==> (b in m.aux <==> b in aux') && (b in m.aux ==> aux'[b] == m.aux[b])
    ensures Tail(part, m.(aux := aux'), bbd, traces[k := traces[k].(first := r[0])], lay.(chains := lay.chains[k := r]), k)
    ensures TraceInv(traces[k].(first := r[0]), r, aux', part)
  {
    hide ChainsOk, OwnersVisited, Complete, Link, Distinct;
    ChainMembers(lay.chains, lay.owner, m.visited, k);
    assert r[0] in r && lay.chains[k][0] in lay.chains[k];
    ReplaceChain(lay.chains, lay.owner, k, r);
    OthersComplete(part, part, m.aux, aux', traces, traces[k := traces[k].(first := r[0])], lay.chains, lay.owner, k, r);
  }

  /** Leaving the loop at the tail as it is. */
  lemma CutKeepsTail(part: map<Block, Partition>, m: Marks, bbd: Bbd, traces: seq<Trace>, lay: Layout, k: nat)
    requires Tail(part, m, bbd, traces, lay, k) && Link(m.aux, lay.chains[k])
    ensures var c := lay.chains[k]; var aux' := m.aux - {Last(c)};
      Tail(part, m.(aux := aux'), bbd, traces, lay, k) && TraceInv(traces[k], c, aux', part)
  {
    var c := lay.chains[k];
    assert Last(c) in c;
    Cut(m.aux, c);
    assert traces[k := traces[k].(first := c[0])] == traces;
    assert lay.(chains := lay.chains[k := c]) == lay;
    hide ChainsOk, OwnersVisited, Complete, Link, Distinct, EndsInv;
    ReorderKeepsTail(part, m, bbd, traces, lay, k, c, m.aux - {Last(c)});
  }

  /** Rotating the loop at the tail so that it ends in `c[e]`. */
  lemma RotateKeepsTail(g: Succs, part: map<Block, Partition>, m: Marks, bbd: Bbd, traces: seq<Trace>, lay: Layout, k: nat,
                        c: seq<Block>, h: nat, e: nat, first': Block, aux': map<Block, Block>)
    requires Tail(part, m, bbd, traces, lay, k) && lay.chains[k] == c
    requires h <= e < |c| && LoopAtTail(g, m.aux, c, h, Last(c), c[h])
    requires c[e] in m.aux && aux' == RotatedLinks(m.aux, c, h, e) - {c[e]}
    requires first' == if h == 0 then m.aux[c[e]] else traces[k].first
    ensures Tail(part, m.(aux := aux'), bbd, traces[k := traces[k].(first := first')],
                 lay.(chains := lay.chains[k := Rotated(c, h, e)]), k)
    ensures TraceInv(traces[k].(first := first'), Rotated(c, h, e), aux', part) && Last(Rotated(c, h, e)) == c[e]
  {
    assert traces[k].first == c[0];
    assert m.aux.Keys <= m.visited.Keys;
    RotatedKeepsChain(m.aux, c, h, e);
    RotatedLinksFrame(m.aux, c, h, e);
    hide Tail, Link, Distinct;
    ReorderKeepsTail(part, m, bbd, traces, lay, k, Rotated(c, h, e), aux');
  }

  /** Linking the fresh block `x` into the last chain. */
  lemma InsertKeepsTail(part: map<Block, Partition>, m: Marks, bbd: Bbd, traces: seq<Trace>, lay: Layout, k: nat,
                        a: seq<Block>, b: seq<Block>, x: Block, p: Partition, origin: map<Block, Block>)
    requires Tail(part, m, bbd, traces, lay, k) && a != [] && lay.chains[k] == a + b
    requires Link(m.aux, a + b) && Last(a + b) !in m.aux
    requires x !in part && x !in m.visited && part[a[0]] == p
    ensures var d, aux' := a + [x] + b, CopyLinked(m.aux, Last(a), x);
      && Tail(part[x := p], Marks(aux', m.visited[x := k + 1]), bbd, traces,
              Layout(lay.chains[k := d], lay.owner[x := k], origin), k)
      && TraceInv(traces[k], d, aux', part[x := p])
  {
    hide ChainsOk, Complete, Link, Distinct, OwnersVisited, EndsInv;
    var c, d, aux' := a + b, a + [x] + b, CopyLinked(m.aux, Last(a), x);
    assert Last(a) == c[|a| - 1] && d[0] == c[0];
    assert Last(c) == (if b == [] then Last(a) else Last(b)) && Last(d) == if b == [] then x else Last(b);
    ChainMembers(lay.chains, lay.owner, m.visited, k);
    OwnerInsert(lay.owner, m.visited, k, x);
    InsertKeepsDistinct(a, x, b);
    CopyLinkedKeepsLink(m.aux, a, x, b);
    InsertInChain(lay.chains, lay.owner, k, d, x);
    OthersComplete(part, part[x := p], m.aux, aux', traces, traces, lay.chains, lay.owner, k, d);
  }

  lemma OwnerInsert(owner: map<Block, nat>, visited: map<Block, nat>, k: nat, x: Block)
    requires OwnersVisited(owner, visited, {}) && x !in visited
    ensures x !in owner && OwnersVisited(owner[x := k], visited[x := k + 1], {})
  {
  }

  lemma RotateLoopFacts(f0: Flow, f: Flow, m: Marks, bbd: Bbd, traces: seq<Trace>, lay: Layout, k: nat,
                        h: nat, bb: Block, header: Block)
    requires Core(f0, f, m.visited.Keys, bbd, lay.origin, {}) && Tail(f.partition, m, bbd, traces, lay, k)
    requires LoopAtTail(f.succs, m.aux, lay.chains[k], h, bb, header)
    ensures |lay.chains| == k + 1
    ensures var c := lay.chains[k];
      && h < |c| && c[h] == header && Last(c) == bb && Distinct(c) && Link(m.aux, c) && bb in m.aux && m.aux[bb] == header
      && (forall b :: b in c ==> b in f.succs)
      && |traces| == k + 1 && (header == traces[k].first <==> h == 0)
  {
    ChainMembers(lay.chains, lay.owner, m.visited, k);
  }

  lemma RotateTailFacts(f0: Flow, f: Flow, m: Marks, bbd: Bbd, traces: seq<Trace>, lay: Layout, k: nat,
                        h: nat, e: nat, header: Block)
    requires Core(f0, f, m.visited.Keys, bbd, lay.origin, {}) && Tail(f.partition, m, bbd, traces, lay, k)
    requires var c := lay.chains[k]; 0 < h <= e < |c| && LoopAtTail(f.succs, m.aux, c, h, Last(c), header)
    ensures var c := lay.chains[k]; var prev := c[h - 1];
      && |traces| == k + 1 && traces[k].first == c[0] && c[h] == header && Distinct(c) && Link(m.aux, c)
      && c[e] in m.aux && prev != c[e] && prev in m.visited && prev in f.succs && header in m.visited && header in f.succs
      && header in f.partition && c[0] in f.partition && f.partition[header] == f.partition[c[0]]
      && (|f.succs[prev]| == 1 ==> f.succs[prev][0].dest == header)
      && f.last !in m.visited && f.last !in f.partition && f.last != c[e] && f.last != prev
  {
    hide Core, HasEdge, Complete, EndsInv;
    var c := lay.chains[k];
    CoreBlocks(f0, f, m.visited.Keys, bbd, lay.origin, {});
    ChainMembers(lay.chains, lay.owner, m.visited, k);
    assert c[h - 1] in c && c[h] in c && c[e] in c && c[0] in c;
    assert HasEdge(f.succs, c[h - 1], c[h]);
    if |f.succs[c[h - 1]]| == 1 {
      OnlySuccessor(f.succs, c[h - 1], c[h]);
    }
    assert e < |c| - 1 ==> c[e] in m.aux;
  }

  lemma OnlySuccessor(g: Succs, a: Block, b: Block)
    requires HasEdge(g, a, b) && |g[a]| == 1
    ensures g[a][0].dest == b
  {
  }

  lemma InsertTailFacts(part: map<Block, Partition>, m: Marks, bbd: Bbd, traces: seq<Trace>, lay: Layout, k: nat,
                        a: seq<Block>, b: seq<Block>)
    requires Tail(part, m, bbd, traces, lay, k) && k < |traces| == |lay.chains| && lay.chains[k] == a + b && a != []
    requires TraceInv(traces[k], a + b, m.aux, part)
    ensures Link(m.aux, a + b) && Last(a + b) !in m.aux && a[0] in part
  {
    assert a[0] == (a + b)[0];
  }

  /** Trace `k` is under construction and `bb`, not yet marked visited, is its last block. */
  ghost predicate Pending(f0: Flow, f: Flow, m: Marks, bbd: Bbd, traces: seq<Trace>, lay: Layout, k: nat, bb: Block) {
    && |traces| == |lay.chains| == k + 1
    && ChainsOk(lay.chains, lay.owner) && OwnersVisited(lay.owner, m.visited, {bb})
    && Complete(traces, lay.chains, m.aux, f.partition, k) && EndsInv(traces, bbd, k)
    && traces[k].first == lay.chains[k][0] && SamePartition(f.partition, lay.chains[k])
    && m.aux.Keys <= m.visited.Keys && Edged(f.succs, m.aux, lay.chains[k]) && Last(lay.chains[k]) == bb
    && bb in f0.succs && bb !in m.visited && bb != ENTRY && bb != EXIT && Reachable(f0.succs, bb)
  }

  /** A chain whose links are edges of `g`. */
  ghost predicate Edged(g: Succs, aux: map<Block, Block>, c: seq<Block>) {
    && Link(aux, c)
    && (forall i :: 0 <= i < |c| - 1 ==> HasEdge(g, c[i], c[i + 1]))
  }

  lemma MarkKeepsTail(f0: Flow, f: Flow, m: Marks, bbd: Bbd, traces: seq<Trace>, lay: Layout, k: nat, bb: Block)
    requires Pending(f0, f, m, bbd, traces, lay, k, bb)
    ensures Tail(f.partition, m.(visited := m.visited[bb := k + 1]), bbd, traces, lay, k)
    ensures Edged(f.succs, m.aux, lay.chains[k]) && Last(lay.chains[k]) == bb && bb !in m.aux
    ensures bb in f0.succs && bb !in m.visited && bb != ENTRY && bb != EXIT && Reachable(f0.succs, bb)
  {
    hide Complete, Reachable, Edged, EndsInv;
    assert bb in lay.chains[k] && lay.owner[bb] == k;
  }

  /** Growing the last chain by the block `d`. */
  lemma ExtendKeepsPending(f0: Flow, f: Flow, m: Marks, bbd: Bbd, traces: seq<Trace>, lay: Layout, k: nat, bb: Block, d: Block)
    requires Tail(f.partition, m, bbd, traces, lay, k) && Edged(f.succs, m.aux, lay.chains[k]) && Last(lay.chains[k]) == bb
    requires bb in f.partition && d in f.partition && f.partition[d] == f.partition[bb] && HasEdge(f.succs, bb, d)
    requires d in f0.succs && d !in m.visited && d != ENTRY && d != EXIT && Reachable(f0.succs, d)
    ensures Pending(f0, f, m.(aux := m.aux[bb := d]), bbd, traces,
                    lay.(chains := lay.chains[k := lay.chains[k] + [d]], owner := lay.owner[d := k]), k, d)
  {
    hide Complete, Reachable, HasEdge, EndsInv, OwnersVisited;
    var c, aux' := lay.chains[k], m.aux[bb := d];
    ChainMembers(lay.chains, lay.owner, m.visited, k);
    assert bb in c;
    OwnerPending(lay.owner, m.visited, k, d);
    InsertKeepsDistinct(c, d, []);
    assert c + [d] + [] == c + [d];
    InsertInChain(lay.chains, lay.owner, k, c + [d], d);
    hide ChainsOk;
    OthersComplete(f.partition, f.partition, m.aux, aux', traces, traces, lay.chains, lay.owner, k, c + [d]);
    LinkFrameButLast(m.aux, aux', c);
    LinkAppend(aux', c, [d]);
    forall i | 0 <= i < |c + [d]| - 1
      ensures HasEdge(f.succs, (c + [d])[i], (c + [d])[i + 1])
    {
      assert i < |c| - 1 ==> HasEdge(f.succs, c[i], c[i + 1]);
    }
    assert SamePartition(f.partition, c + [d]);
  }

  lemma OwnerPending(owner: map<Block, nat>, visited: map<Block, nat>, k: nat, d: Block)
    requires OwnersVisited(owner, visited, {}) && d !in visited
    ensures d !in owner && OwnersVisited(owner[d := k], visited, {d})
  {
  }

  /** The back link that closes the loop at the tail. */
  lemma CloseLoop(g: Succs, part: map<Block, Partition>, m: Marks, bbd: Bbd, traces: seq<Trace>, lay: Layout, k: nat, bb: Block,
                  d: Block) returns (h: nat)
    requires Tail(part, m, bbd, traces, lay, k) && Edged(g, m.aux, lay.chains[k]) && Last(lay.chains[k]) == bb
    requires d in m.visited && m.visited[d] == k + 1
    ensures var m' := m.(aux := m.aux[bb := d]);
      Tail(part, m', bbd, traces, lay, k) && LoopAtTail(g, m'.aux, lay.chains[k], h, bb, d)
    ensures d in lay.chains[k] && (h == 0 ==> traces[k].first == d)
  {
    hide Complete, HasEdge, EndsInv;
    var c, aux' := lay.chains[k], m.aux[bb := d];
    assert lay.owner[d] == k;
    h :| 0 <= h < |c| && c[h] == d;
    ChainMembers(lay.chains, lay.owner, m.visited, k);
    hide OwnersVisited, ChainsOk;
    assert bb in c && bb in m.visited;
    LinkFrameButLast(m.aux, aux', c);
    OthersComplete(part, part, m.aux, aux', traces, traces, lay.chains, lay.owner, k, c);
    assert lay.chains[k := c] == lay.chains;
  }

  /** No trace is under construction. */
  ghost predicate Idle(f0: Flow, next: Block, s: State, lay: Layout, extra: set<Block>) {
    && Core(f0, s.flow, s.marks.visited.Keys, s.bbd, lay.origin, extra)
    && |s.traces| == |lay.chains|
    && ChainsOk(lay.chains, lay.owner) && OwnersVisited(lay.owner, s.marks.visited, {})
    && Complete(s.traces, lay.chains, s.marks.aux, s.flow.partition, |s.traces|) && EndsInv(s.traces, s.bbd, |s.traces|)
    && s.marks.aux.Keys <= s.marks.visited.Keys
    && (SingleEntry(f0, next) ==> if s.traces == [] then s.bbd.heap + s.bbd.newHeap + extra <= {next} else s.traces[0].first == next)
  }

  /** A block about to be visited, and its successors. */
  ghost function Ahead(f0: Flow, bb: Block): set<Block> {
    {bb} + if bb in f0.succs then Dests(f0.succs[bb]) else {}
  }

  /** Trace `k` is finished but for recording its last block `bb`. */
  ghost predicate Ended(f0: Flow, next: Block, s: State, lay: Layout, k: nat, bb: Block) {
    && Core(f0, s.flow, s.marks.visited.Keys, s.bbd, lay.origin, {})
    && Tail(s.flow.partition, s.marks, s.bbd, s.traces, lay, k)
    && TraceInv(s.traces[k], lay.chains[k], s.marks.aux, s.flow.partition) && Last(lay.chains[k]) == bb
    && (SingleEntry(f0, next) ==> s.traces[0].first == next)
  }

  /** Trace `k` goes on with the unvisited block `bb`. */
  ghost predicate Growing(f0: Flow, next: Block, s: State, lay: Layout, k: nat, bb: Block) {
    && Core(f0, s.flow, s.marks.visited.Keys, s.bbd, lay.origin, Ahead(f0, bb))
    && Pending(f0, s.flow, s.marks, s.bbd, s.traces, lay, k, bb)
    && (SingleEntry(f0, next) ==> s.traces[0].first == next)
  }

  /** `bb`, the last block of trace `k`, is marked and its successors are in the heaps, save `extra`. */
  ghost predicate Marked(f0: Flow, next: Block, s: State, lay: Layout, k: nat, bb: Block, extra: set<Block>) {
    && Core(f0, s.flow, s.marks.visited.Keys, s.bbd, lay.origin, extra)
    && Tail(s.flow.partition, s.marks, s.bbd, s.traces, lay, k)
    && Edged(s.flow.succs, s.marks.aux, lay.chains[k]) && Last(lay.chains[k]) == bb && bb !in s.marks.aux
    && bb in f0.succs && bb in s.flow.succs && bb in s.flow.partition && bb in s.marks.visited
    && s.flow.succs[bb] == f0.succs[bb] && bb != ENTRY && Reachable(f0.succs, bb)
    && (SingleEntry(f0, next) ==> s.traces[0].first == next)
  }

  lemma StartTrace(f0: Flow, next: Block, s: State, lay: Layout, start: Block, round: nat)
    requires Idle(f0, next, s, lay, {start})
    requires start in f0.succs && start !in s.marks.visited && start != ENTRY && start != EXIT && Reachable(f0.succs, start)
    ensures Growing(f0, next, s.(traces := s.traces + [Trace(start, start, round, 0)]),
                    lay.(chains := lay.chains + [[start]], owner := lay.owner[start := |s.traces|]), |s.traces|, start)
  {
    hide Reachable, Core, OwnersVisited, ChainsOk;
    var k, traces := |s.traces|, s.traces + [Trace(start, start, round, 0)];
    var chains := lay.chains + [[start]];
    UnvisitedInGraph(f0, s.flow, s.marks.visited.Keys, s.bbd, lay.origin, {start}, start);
    CoreExtra(f0, s.flow, s.marks.visited.Keys, s.bbd, lay.origin, {start}, Ahead(f0, start));
    OwnerPending(lay.owner, s.marks.visited, k, start);
    AddChain(lay.chains, lay.owner, start);
    forall i | 0 <= i < k
      ensures TraceInv(traces[i], chains[i], s.marks.aux, s.flow.partition) && traces[i].last == Last(chains[i])
    {
      assert TraceInv(s.traces[i], lay.chains[i], s.marks.aux, s.flow.partition);
    }
  }

  lemma UnvisitedInGraph(f0: Flow, f: Flow, visited: set<Block>, bbd: Bbd, origin: map<Block, Block>, extra: set<Block>, bb: Block)
    requires Core(f0, f, visited, bbd, origin, extra)
    ensures bb in f0.succs ==> bb in f.succs && bb in f.partition
    ensures bb in f.succs && bb !in visited ==> bb in f0.succs
  {
    hide Frontier, HeapsInv, Reachable;
  }

  lemma AddChain(chains: seq<seq<Block>>, owner: map<Block, nat>, b: Block)
    requires ChainsOk(chains, owner) && b !in owner
    ensures ChainsOk(chains + [[b]], owner[b := |chains|])
  {
  }

  lemma MarkGrowing(f0: Flow, next: Block, s: State, lay: Layout, k: nat, bb: Block, marks: Marks, bbd: Bbd)
    requires Growing(f0, next, s, lay, k, bb)
    requires marks == s.marks.(visited := s.marks.visited[bb := k + 1])
    requires bbd == s.bbd.(heap := s.bbd.heap - {bb}, newHeap := s.bbd.newHeap - {bb})
    ensures bb !in s.marks.visited && bb in f0.succs && |s.traces| == k + 1
    ensures Marked(f0, next, State(s.flow, marks, bbd, s.traces), lay, k, bb, Dests(f0.succs[bb]))
  {
    hide Core, Tail, Edged, Reachable;
    MarkKeepsCore(f0, s.flow, s.marks.visited.Keys, s.bbd, lay.origin, bb);
    assert marks.visited.Keys == s.marks.visited.Keys + {bb};
    MarkKeepsTail(f0, s.flow, s.marks, s.bbd, s.traces, lay, k, bb);
    TailSameEnds(s.flow.partition, marks, s.bbd, bbd, s.traces, s.traces, lay, k);
  }

  /** Neither the heaps nor the length of the trace matter to the links. */
  lemma TailSameEnds(part: map<Block, Partition>, m: Marks, bbd: Bbd, bbd': Bbd, traces: seq<Trace>, traces': seq<Trace>,
                     lay: Layout, k: nat)
    requires Tail(part, m, bbd, traces, lay, k)
    requires bbd'.startOfTrace == bbd.startOfTrace && bbd'.endOfTrace == bbd.endOfTrace
    requires |traces'| == |traces| && traces'[..k] == traces[..k] && traces'[k].first == traces[k].first
    ensures Tail(part, m, bbd', traces', lay, k)
  {
    hide ChainsOk, OwnersVisited, TraceInv;
  }

  lemma PushMarked(f0: Flow, next: Block, s: State, lay: Layout, k: nat, bb: Block, bbd: Bbd, length: nat, best: Option<nat>)
    requires bb in f0.succs && Marked(f0, next, s, lay, k, bb, Dests(f0.succs[bb])) && |s.traces| == k + 1
    requires best.Some? ==> best.value < |s.flow.succs[bb]|
    requires bbd.heap !! bbd.newHeap && bbd.startOfTrace == s.bbd.startOfTrace && bbd.endOfTrace == s.bbd.endOfTrace
    requires bbd.heap + bbd.newHeap == s.bbd.heap + s.bbd.newHeap
               + Unselected(s.flow.succs[bb], |s.flow.succs[bb]|, best, s.marks.visited.Keys)
    ensures Marked(f0, next, s.(bbd := bbd, traces := s.traces[k := s.traces[k].(length := length)]), lay, k, bb,
                   if best.Some? then {s.flow.succs[bb][best.value].dest} else {})
  {
    hide Core, Tail, Edged, Reachable;
    PushKeepsCore(f0, s.flow, s.marks.visited.Keys, s.bbd, bbd, lay.origin, bb, best);
    TailSameEnds(s.flow.partition, s.marks, s.bbd, bbd, s.traces, s.traces[k := s.traces[k].(length := length)], lay, k);
  }

  lemma MarkedFacts(f0: Flow, next: Block, s: State, lay: Layout, k: nat, bb: Block, extra: set<Block>)
    requires Marked(f0, next, s, lay, k, bb, extra)
    ensures bb in s.flow.succs && bb in s.flow.partition && s.bbd.heap !! s.bbd.newHeap && bb in s.marks.visited
    ensures |s.traces| == k + 1 == |lay.chains|
  {
    hide GraphInv, Frontier, Reachable, ChainsOk, Complete, OwnersVisited, Edged;
  }

  lemma LoopFacts(f0: Flow, next: Block, s: State, lay: Layout, k: nat, bb: Block, d: Block)
    requires Marked(f0, next, s, lay, k, bb, {d}) && d in s.marks.visited && |lay.chains| == k + 1
    ensures Marked(f0, next, s, lay, k, bb, {})
    ensures Core(f0, s.flow, s.marks.visited.Keys, s.bbd, lay.origin, {}) && Tail(s.flow.partition, s.marks, s.bbd, s.traces, lay, k)
    ensures var c := lay.chains[k];
      && Edged(s.flow.succs, s.marks.aux, c) && Link(s.marks.aux, c) && Last(c) == bb && bb !in s.marks.aux
      && c != [] && c[0] in s.flow.partition && s.flow.partition[c[0]] == s.flow.partition[bb]
    ensures SingleEntry(f0, next) ==> |s.traces| == k + 1 && s.traces[0].first == next
    ensures bb in s.marks.visited && d in s.flow.succs && d in s.flow.partition && s.flow.last !in s.marks.visited && s.flow.last !in s.flow.partition
  {
    hide Reachable, HasEdge;
    CoreExtra(f0, s.flow, s.marks.visited.Keys, s.bbd, lay.origin, {d}, {});
    hide Frontier, Complete, EndsInv;
    assert Last(lay.chains[k]) in lay.chains[k];
  }

  lemma RotatedEnds(f0: Flow, next: Block, s: State, s': State, lay: Layout, k: nat, h: nat, bb: Block, d: Block)
    requires Core(f0, s'.flow, s'.marks.visited.Keys, s'.bbd, lay.origin, {})
    requires Tail(s'.flow.partition, s'.marks, s'.bbd, s'.traces, lay, k) && |lay.chains| == |s'.traces| == |s.traces| == k + 1
    requires TraceInv(s'.traces[k], lay.chains[k], s'.marks.aux, s'.flow.partition) && Last(lay.chains[k]) == bb
    requires s'.traces[..k] == s.traces[..k] && (h > 0 ==> s'.traces[k].first == s.traces[k].first)
    requires h == 0 ==> s.traces[k].first == d
    requires d != next && (SingleEntry(f0, next) ==> s.traces[0].first == next)
    ensures Ended(f0, next, s', lay, k, bb)
  {
    hide Core, Tail, TraceInv, SingleEntry;
    if k > 0 {
      assert s'.traces[..k][0] == s.traces[..k][0];
    }
  }

  lemma CopiedEnds(f0: Flow, next: Block, s: State, s': State, lay: Layout, k: nat, bb: Block)
    requires Core(f0, s.flow, s.marks.visited.Keys, s.bbd, lay.origin, {})
    requires Tail(s.flow.partition, s.marks, s.bbd, s.traces, lay, k) && |lay.chains| == |s.traces| == k + 1
    requires TraceInv(s.traces[k], lay.chains[k], s.marks.aux, s.flow.partition) && Last(lay.chains[k]) == bb
    requires SingleEntry(f0, next) ==> s.traces[0].first == next
    requires s' == s.(traces := s.traces[k := s.traces[k].(length := s.traces[k].length + 1)])
    ensures Ended(f0, next, s', lay, k, bb)
  {
    hide Core, Tail, SingleEntry;
    TailSameEnds(s.flow.partition, s.marks, s.bbd, s.bbd, s.traces, s'.traces, lay, k);
  }

  /** Edge `i` leads to a block whose only successor is where edge `best` leads. */
  predicate Detour(f: Flow, visited: map<Block, nat>, bb: Block, i: nat, best: nat)
    requires bb in f.succs && i < |f.succs[bb]| && best < |f.succs[bb]|
  {
    var e := f.succs[bb][i];
    && i != best && e.canFallthru && !e.complex && e.dest !in visited && !e.crossing
    && e.dest in f.succs && |f.succs[e.dest]| == 1
    && var e2 := f.succs[e.dest][0]; e2.canFallthru && !e2.complex && e2.dest == f.succs[bb][best].dest
  }

  lemma FollowGrowing(f0: Flow, next: Block, s: State, lay: Layout, k: nat, bb: Block, j: nat, i: nat)
    requires bb in s.flow.succs && i < |s.flow.succs[bb]| && j < |s.flow.succs[bb]| && bb in s.flow.partition
    requires |s.traces| == k + 1 == |lay.chains|
    requires Marked(f0, next, s, lay, k, bb, {s.flow.succs[bb][j].dest})
    requires Selectable(s.flow, s.marks.visited, bb, j, k + 1) && s.flow.succs[bb][j].dest !in s.marks.visited
    requires i == j || Detour(s.flow, s.marks.visited, bb, i, j)
    ensures var d := s.flow.succs[bb][i].dest;
      Growing(f0, next, s.(marks := s.marks.(aux := s.marks.aux[bb := d])),
              lay.(chains := lay.chains[k := lay.chains[k] + [d]], owner := lay.owner[d := k]), k, d)
  {
    hide Tail, Edged, Reachable, Frontier, HeapsInv;
    var d := s.flow.succs[bb][i].dest;
    FollowFacts(f0, s.flow, s.marks.visited, lay.origin, bb, i, j, k + 1);
    ReachStep(f0.succs, bb, i);
    assert HasEdge(s.flow.succs, bb, d);
    hide GraphInv, HasEdge;
    assert s.flow.succs[bb][j].dest in Ahead(f0, d) by {
      if i != j {
        assert f0.succs[d][0] in f0.succs[d];
      }
    }
    CoreExtra(f0, s.flow, s.marks.visited.Keys, s.bbd, lay.origin, {s.flow.succs[bb][j].dest}, Ahead(f0, d));
    hide Core;
    ExtendKeepsPending(f0, s.flow, s.marks, s.bbd, s.traces, lay, k, bb, d);
  }

  lemma FollowFacts(f0: Flow, f: Flow, visited: map<Block, nat>, origin: map<Block, Block>, bb: Block, i: nat, j: nat, n: nat)
    requires GraphInv(f0, f, visited.Keys, origin) && bb in f.succs && bb in f.partition && bb != ENTRY
    requires i < |f.succs[bb]| && j < |f.succs[bb]|
    requires Selectable(f, visited, bb, j, n) && f.succs[bb][j].dest !in visited
    requires i == j || Detour(f, visited, bb, i, j)
    ensures var d := f.succs[bb][i].dest;
      d in f0.succs && d !in visited && d != ENTRY && d != EXIT && d in f.partition && f.partition[d] == f.partition[bb]
      && f.succs[d] == f0.succs[d]
  {
  }

  lemma MarkedEnds(f0: Flow, next: Block, s: State, lay: Layout, k: nat, bb: Block)
    requires Marked(f0, next, s, lay, k, bb, {})
    ensures Ended(f0, next, s, lay, k, bb)
  {
    hide Core, Reachable, HasEdge, ChainsOk, Complete, OwnersVisited, EndsInv;
  }

  lemma EndTrace(f0: Flow, next: Block, s: State, lay: Layout, k: nat, bb: Block)
    requires Ended(f0, next, s, lay, k, bb) && |s.traces| == k + 1
    ensures |lay.chains| == k + 1
    ensures Idle(f0, next, State(s.flow, s.marks, s.bbd.(startOfTrace := s.bbd.startOfTrace[s.traces[k].first := k],
                                 endOfTrace := s.bbd.endOfTrace[bb := k]), s.traces[k := s.traces[k].(last := bb)]), lay, {})
  {
    hide ChainsOk, OwnersVisited, Link, Core;
    var bbd := s.bbd.(startOfTrace := s.bbd.startOfTrace[s.traces[k].first := k], endOfTrace := s.bbd.endOfTrace[bb := k]);
    var traces := s.traces[k := s.traces[k].(last := bb)];
    SameHeaps(f0, s.flow, s.marks.visited.Keys, s.bbd, bbd, lay.origin, {});
    forall i | 0 <= i < k + 1
      ensures TraceInv(traces[i], lay.chains[i], s.marks.aux, s.flow.partition) && traces[i].last == Last(lay.chains[i])
    {
      assert TraceInv(s.traces[i], lay.chains[i], s.marks.aux, s.flow.partition);
    }
    forall i | 0 <= i < k + 1
      ensures StartKnown(traces[i], bbd, i) && EndKnown(traces[i], bbd, i)
    {
      if i < k {
        EndsDiffer(lay.chains, lay.owner, i, k);
        assert TraceInv(s.traces[i], lay.chains[i], s.marks.aux, s.flow.partition) && StartKnown(s.traces[i], s.bbd, i);
      }
    }
  }

  lemma SameHeaps(f0: Flow, f: Flow, visited: set<Block>, bbd: Bbd, bbd': Bbd, origin: map<Block, Block>, extra: set<Block>)
    requires Core(f0, f, visited, bbd, origin, extra) && bbd'.heap == bbd.heap && bbd'.newHeap == bbd.newHeap
    ensures Core(f0, f, visited, bbd', origin, extra)
  {
    hide GraphInv, Reachable;
    FrontierGrows(f.succs, visited, bbd, bbd', extra, extra);
    FrontierGrows(f0.succs, visited, bbd, bbd', extra, extra);
  }

  /** Taking `bb` out of the heap, to start a trace with it or to put it off. */
  lemma Extract(f0: Flow, next: Block, s: State, lay: Layout, bb: Block)
    requires Idle(f0, next, s, lay, {}) && bb in s.bbd.heap
    ensures bb in f0.succs && bb !in s.marks.visited && bb != ENTRY && bb != EXIT && Reachable(f0.succs, bb)
    ensures Idle(f0, next, s.(bbd := s.bbd.(heap := s.bbd.heap - {bb})), lay, {bb})
    ensures Idle(f0, next, s.(bbd := s.bbd.(heap := s.bbd.heap - {bb}, newHeap := s.bbd.newHeap + {bb})), lay, {})
  {
    hide GraphInv, ChainsOk, OwnersVisited, Complete, EndsInv, Reachable, CopiesOk, Frontier;
    InHeap(f0, next, s, lay, bb);
    var bbd1, bbd2 := s.bbd.(heap := s.bbd.heap - {bb}), s.bbd.(heap := s.bbd.heap - {bb}, newHeap := s.bbd.newHeap + {bb});
    EndsKept(s.traces, s.bbd, bbd1, |s.traces|);
    EndsKept(s.traces, s.bbd, bbd2, |s.traces|);
    FrontierTaken(f0.succs, s.marks.visited.Keys, s.bbd, bbd1, bbd2, bb);
    FrontierTaken(s.flow.succs, s.marks.visited.Keys, s.bbd, bbd1, bbd2, bb);
  }

  lemma InHeap(f0: Flow, next: Block, s: State, lay: Layout, bb: Block)
    requires Idle(f0, next, s, lay, {}) && bb in s.bbd.heap
    ensures bb in f0.succs && bb !in s.marks.visited && bb != ENTRY && bb != EXIT && Reachable(f0.succs, bb)
  {
    hide ChainsOk, OwnersVisited, Complete, EndsInv, CopiesOk, Frontier, GraphInv, IsPath;
  }

  lemma EndsKept(traces: seq<Trace>, bbd: Bbd, bbd': Bbd, done: nat)
    requires done <= |traces| && EndsInv(traces, bbd, done)
    requires bbd'.startOfTrace == bbd.startOfTrace && bbd'.endOfTrace == bbd.endOfTrace
    ensures EndsInv(traces, bbd', done)
  {
  }

  lemma FrontierTaken(g: Succs, visited: set<Block>, bbd: Bbd, bbd1: Bbd, bbd2: Bbd, bb: Block)
    requires Frontier(g, visited, bbd, {})
    requires bbd1.newHeap == bbd.newHeap && bbd1.heap == bbd.heap - {bb} == bbd2.heap && bbd2.newHeap == bbd.newHeap + {bb}
    ensures Frontier(g, visited, bbd1, {bb}) && Frontier(g, visited, bbd2, {})
  {
  }

  lemma NewHeapTakesOver(f0: Flow, next: Block, s: State, lay: Layout)
    requires Idle(f0, next, s, lay, {}) && s.bbd.heap == {}
    ensures Idle(f0, next, s.(bbd := s.bbd.(heap := s.bbd.newHeap, newHeap := {})), lay, {})
  {
    hide ChainsOk, OwnersVisited, Complete, Reachable, GraphInv;
    var bbd := s.bbd.(heap := s.bbd.newHeap, newHeap := {});
    FrontierGrows(s.flow.succs, s.marks.visited.Keys, s.bbd, bbd, {}, {});
    FrontierGrows(f0.succs, s.marks.visited.Keys, s.bbd, bbd, {}, {});
  }

  lemma InitialIdle(f0: Flow, next: Block, s: State, lay: Layout)
    requires Initial(f0)
    requires s == State(f0, Marks(map[], map[]), Bbd(set i | 0 <= i < |f0.succs[ENTRY]| :: f0.succs[ENTRY][i].dest, {}, map[], map[]), [])
    requires lay == Layout([], map[], map[])
    ensures Idle(f0, next, s, lay, {})
  {
    forall b | b in s.bbd.heap
      ensures b in f0.succs && b != ENTRY && Reachable(f0.succs, b)
    {
      var j: nat :| j < |f0.succs[ENTRY]| && f0.succs[ENTRY][j].dest == b;
      ReachStep(f0.succs, ENTRY, j);
    }
    hide Reachable;
  }

  /** An edge that may extend the trace numbered `n` beyond `bb`. */
  predicate Selectable(f: Flow, visited: map<Block, nat>, bb: Block, j: nat, n: nat)
    requires bb in f.succs && j < |f.succs[bb]| && bb in f.partition
  {
    var e := f.succs[bb][j];
    && e.dest != EXIT && e.canFallthru
    && e.dest in f.partition && f.partition[e.dest] == f.partition[bb]
    && (e.dest in visited ==> visited[e.dest] == n)
  }

  /** Edge `j` may be selected: the fallthrough of a call, or an ordinary edge that is likely enough. */
  predicate Suitable(w: Weights, f: Flow, visited: map<Block, nat>, bb: Block, j: nat, n: nat, round: nat)
    requires bb in f.succs && j < |f.succs[bb]| && bb in f.partition
  {
    Selectable(f, visited, bb, j, n) && (w.endsInCall(bb) || (!f.succs[bb][j].complex && w.likely(f, round, bb, j)))
  }

  /** A call prefers each fallthrough to those before it. */
  predicate Beats(w: Weights, f: Flow, bb: Block, i: nat, j: nat) {
    w.endsInCall(bb) || w.better(f, bb, i, j)
  }

  /** Of the first `upto` edges, `j` is suitable, beats one in front of it if there is any, and is not beaten behind. */
  ghost predicate BestUpTo(w: Weights, f: Flow, visited: map<Block, nat>, bb: Block, j: nat, n: nat, round: nat, upto: nat)
    requires bb in f.succs && upto <= |f.succs[bb]| && bb in f.partition
  {
    && j < upto && Suitable(w, f, visited, bb, j, n, round)
    && (forall i: nat :: j < i < upto && Suitable(w, f, visited, bb, i, n, round) ==> !Beats(w, f, bb, i, j))
    && ((exists i: nat :: i < j && Suitable(w, f, visited, bb, i, n, round)) ==>
          exists i: nat :: i < j && Suitable(w, f, visited, bb, i, n, round) && Beats(w, f, bb, j, i))
  }

  /** The best edge of the block, which leads to a block better not duplicated, or to one better duplicated. */
  ghost predicate Best(w: Weights, f: Flow, visited: map<Block, nat>, bb: Block, j: nat, n: nat, round: nat, copied: bool) {
    && bb in f.succs && bb in f.partition
    && BestUpTo(w, f, visited, bb, j, n, round, |f.succs[bb]|) && w.copied(f, f.succs[bb][j].dest, false) == copied
  }

  /** No edge is suitable, or the best one leads to a block better duplicated. */
  ghost predicate DeadEnd(w: Weights, f: Flow, visited: map<Block, nat>, bb: Block, n: nat, round: nat) {
    && bb in f.succs && bb in f.partition
    && ((forall j: nat :: j < |f.succs[bb]| ==> !Suitable(w, f, visited, bb, j, n, round))
        || exists j: nat :: Best(w, f, visited, bb, j, n, round, true))
  }

  // ---- where traces stop ----

  /** What the first `n` traces have taken of the blocks there were at first. */
  ghost function Taken(f0: Flow, visited: map<Block, nat>, n: nat): map<Block, nat> {
    map b | b in visited && b in f0.succs && visited[b] <= n :: visited[b]
  }

  /**
   * The trace numbered `n` stopped growing at `b`, when the flow graph was `f` and it and the traces before it had taken
   * what they have: nothing could follow `b`, which is its last block, or the best edge led back to a block taken.
   */
  ghost predicate StopsAt(w: Weights, f0: Flow, f: Flow, taken: map<Block, nat>, c: seq<Block>, b: Block, n: nat, round: nat) {
    && b in c && b in f0.succs && b in f.succs && f.succs[b] == f0.succs[b]
    && ((b == Last(c) && DeadEnd(w, f, taken, b, n, round)) || LeadsBack(w, f, taken, b, n, round))
  }

  ghost predicate LeadsBack(w: Weights, f: Flow, taken: map<Block, nat>, b: Block, n: nat, round: nat) {
    b in f.succs && exists j: nat :: j < |f.succs[b]| && f.succs[b][j].dest in taken && Best(w, f, taken, b, j, n, round, false)
  }

  ghost predicate Stopped(w: Weights, f0: Flow, visited: map<Block, nat>, c: seq<Block>, n: nat, round: nat) {
    c != [] && exists f: Flow, b: Block :: StopsAt(w, f0, f, Taken(f0, visited, n), c, b, n, round)
  }

  /** Each trace went on as long as it could. */
  ghost predicate AllStopped(w: Weights, f0: Flow, s: State, lay: Layout) {
    |s.traces| == |lay.chains|
    && forall k :: 0 <= k < |s.traces| ==> Stopped(w, f0, s.marks.visited, lay.chains[k], k + 1, s.traces[k].round)
  }

  /** The trace numbered `n` has taken further blocks. */
  ghost predicate Grown(visited: map<Block, nat>, visited': map<Block, nat>, n: nat) {
    && (forall b :: b in visited ==> b in visited' && visited'[b] == visited[b])
    && (forall b :: b in visited' && b !in visited ==> visited'[b] == n)
  }

  /** All of these are new copies. */
  ghost predicate GrownByCopies(f0: Flow, visited: map<Block, nat>, visited': map<Block, nat>, n: nat) {
    Grown(visited, visited', n) && forall b :: b in visited' && b !in visited ==> b !in f0.succs
  }

  lemma GrownTaken(f0: Flow, visited: map<Block, nat>, visited': map<Block, nat>, n: nat, m: nat)
    requires Grown(visited, visited', n) && (m < n || GrownByCopies(f0, visited, visited', n))
    ensures Taken(f0, visited', m) == Taken(f0, visited, m)
  {}

  lemma GrownTwice(a: map<Block, nat>, b: map<Block, nat>, c: map<Block, nat>, n: nat)
    requires Grown(a, b, n) && Grown(b, c, n)
    ensures Grown(a, c, n)
  {}

  /** Traces that are finished stay so. */
  lemma StillStopped(w: Weights, f0: Flow, s: State, lay: Layout, s': State, lay': Layout, n: nat)
    requires AllStopped(w, f0, s, lay) && |s.traces| < n && Grown(s.marks.visited, s'.marks.visited, n)
    requires |s.traces| <= |s'.traces| && s'.traces[..|s.traces|] == s.traces
    requires |lay.chains| <= |lay'.chains| && lay'.chains[..|lay.chains|] == lay.chains
    ensures forall k :: 0 <= k < |s.traces| ==> Stopped(w, f0, s'.marks.visited, lay'.chains[k], k + 1, s'.traces[k].round)
  {
    hide StopsAt, Grown, Taken;
    forall k | 0 <= k < |s.traces|
      ensures Stopped(w, f0, s'.marks.visited, lay'.chains[k], k + 1, s'.traces[k].round)
    {
      GrownTaken(f0, s.marks.visited, s'.marks.visited, n, k + 1);
      assert s'.traces[k] == s.traces[k] && lay'.chains[k] == lay.chains[k];
    }
  }

  /** What leads to a suitable block is the same as far as the traces up to now have taken it. */
  lemma TakenSuits(w: Weights, f0: Flow, f: Flow, visited: map<Block, nat>, bb: Block, n: nat, round: nat)
    requires WellFormed(f0.succs, f0.last) && bb in f0.succs && bb in f.succs && f.succs[bb] == f0.succs[bb] && bb in f.partition
    requires forall b :: b in visited ==> visited[b] <= n
    ensures DeadEnd(w, f, visited, bb, n, round) <==> DeadEnd(w, f, Taken(f0, visited, n), bb, n, round)
    ensures forall j: nat, c: bool :: Best(w, f, visited, bb, j, n, round, c) <==> Best(w, f, Taken(f0, visited, n), bb, j, n, round, c)
  {
    var taken := Taken(f0, visited, n);
    forall j: nat | j < |f.succs[bb]|
      ensures Suitable(w, f, visited, bb, j, n, round) <==> Suitable(w, f, taken, bb, j, n, round)
    {
      assert f0.succs[bb][j].dest == EXIT || f0.succs[bb][j].dest in f0.succs;
    }
    forall j: nat, c: bool
      ensures Best(w, f, visited, bb, j, n, round, c) <==> Best(w, f, taken, bb, j, n, round, c)
    {
    }
  }

  ghost function Unselected(es: seq<Edge>, n: nat, best: Option<nat>, visited: set<Block>): set<Block>
    requires n <= |es|
  {
    set j | 0 <= j < n && best != Some(j) && es[j].dest != EXIT && es[j].dest !in visited :: es[j].dest
  }

  lemma MarkKeepsCore(f0: Flow, f: Flow, visited: set<Block>, bbd: Bbd, origin: map<Block, Block>, bb: Block)
    requires bb in f0.succs && bb !in visited && bb != ENTRY && bb != EXIT && Reachable(f0.succs, bb)
    requires Core(f0, f, visited, bbd, origin, {bb} + Dests(f0.succs[bb]))
    ensures bb in f.succs && bb in f.partition && f.succs[bb] == f0.succs[bb]
    ensures Core(f0, f, visited + {bb}, bbd.(heap := bbd.heap - {bb}, newHeap := bbd.newHeap - {bb}), origin, Dests(f0.succs[bb]))
  {
    hide Reachable, CopiesOk;
  }

  lemma PushKeepsCore(f0: Flow, f: Flow, visited: set<Block>, bbd: Bbd, bbd': Bbd, origin: map<Block, Block>, bb: Block, best: Option<nat>)
    requires bb in f0.succs && bb in f.succs && bb in visited && f.succs[bb] == f0.succs[bb]
    requires Core(f0, f, visited, bbd, origin, Dests(f0.succs[bb]))
    requires best.Some? ==> best.value < |f.succs[bb]|
    requires bbd'.heap !! bbd'.newHeap
    requires bbd'.heap + bbd'.newHeap == bbd.heap + bbd.newHeap + Unselected(f.succs[bb], |f.succs[bb]|, best, visited)
    ensures Core(f0, f, visited, bbd', origin, if best.Some? then {f.succs[bb][best.value].dest} else {})
  {
    var extra := if best.Some? then {f.succs[bb][best.value].dest} else {};
    var es, pushed := f.succs[bb], Unselected(f.succs[bb], |f.succs[bb]|, best, visited);
    assert Reachable(f0.succs, bb);
    forall d | d in pushed
      ensures d in f0.succs && d != ENTRY && d !in visited && Reachable(f0.succs, d)
    {
      var j: nat :| j < |es| && best != Some(j) && es[j].dest != EXIT && es[j].dest !in visited && es[j].dest == d;
      ReachStep(f0.succs, bb, j);
    }
    hide Reachable, GraphInv;
    forall d | d in Dests(es)
      ensures Seen(visited, bbd', d) || d in extra
    {
      var j: nat :| j < |es| && es[j].dest == d;
      if best != Some(j) && d != EXIT && d !in visited {
        assert d in pushed;
        assert d in bbd'.heap + bbd'.newHeap;
      }
    }
    FrontierGrows(f.succs, visited, bbd, bbd', Dests(es), extra);
    FrontierGrows(f0.succs, visited, bbd, bbd', Dests(es), extra);
    HeapsGrow(f0, f, visited, bbd, bbd', pushed);
  }

  lemma FrontierGrows(g: Succs, visited: set<Block>, bbd: Bbd, bbd': Bbd, extra: set<Block>, extra': set<Block>)
    requires Frontier(g, visited, bbd, extra)
    requires bbd.heap + bbd.newHeap <= bbd'.heap + bbd'.newHeap
    requires forall d :: d in extra ==> Seen(visited, bbd', d) || d in extra'
    ensures Frontier(g, visited, bbd', extra')
  {
    forall b, j | (b in visited || b == ENTRY) && b in g && 0 <= j < |g[b]|
      ensures Seen(visited, bbd', g[b][j].dest) || g[b][j].dest in extra'
    {
      var d := g[b][j].dest;
      assert Seen(visited, bbd, d) || d in extra;
      assert d in bbd.heap || d in bbd.newHeap ==> d in bbd'.heap + bbd'.newHeap;
    }
  }

  lemma HeapsGrow(f0: Flow, f: Flow, visited: set<Block>, bbd: Bbd, bbd': Bbd, pushed: set<Block>)
    requires HeapsInv(f0, f, visited, bbd) && bbd'.heap !! bbd'.newHeap
    requires bbd'.heap + bbd'.newHeap == bbd.heap + bbd.newHeap + pushed
    requires forall d :: d in pushed ==> d in f0.succs && d != ENTRY && d !in visited && Reachable(f0.succs, d)
    ensures HeapsInv(f0, f, visited, bbd')
  {
    hide Reachable;
    forall b | b in bbd'.heap || b in bbd'.newHeap
      ensures b in f0.succs && b != ENTRY && b !in visited && Reachable(f0.succs, b)
    {
      assert b in bbd.heap + bbd.newHeap + pushed;
    }
  }

  /** What waits outside the heaps may be described by a larger set, or by a smaller one if it was seen. */
  lemma CoreExtra(f0: Flow, f: Flow, visited: set<Block>, bbd: Bbd, origin: map<Block, Block>, extra: set<Block>, extra': set<Block>)
    requires Core(f0, f, visited, bbd, origin, extra)
    requires forall d :: d in extra ==> d in visited || d in extra'
    ensures Core(f0, f, visited, bbd, origin, extra')
  {
    hide GraphInv, HeapsInv;
    FrontierGrows(f.succs, visited, bbd, bbd, extra, extra');
    FrontierGrows(f0.succs, visited, bbd, bbd, extra, extra');
  }

  /**
   * Duplicates `orig`, redirects edge `j` of `src` to the copy and links the copy in after `after`;
   * `n` is what the copy's `visited` field is set to.
   */
  method CopyBb(ghost f0: Flow, flow: Flow, marks: Marks, ghost bbd: Bbd, ghost origin: map<Block, Block>,
                orig: Block, src: Block, j: nat, after: Block, n: nat)
    returns (flow': Flow, marks': Marks, newBb: Block, ghost origin': map<Block, Block>)
    requires Core(f0, flow, marks.visited.Keys, bbd, origin, {})
    requires orig in marks.visited && orig in flow.succs && src in marks.visited && src in flow.succs
    requires j < |flow.succs[src]| && flow.succs[src][j].dest == orig
    ensures Core(f0, flow', marks'.visited.Keys, bbd, origin', {})
    ensures newBb == flow.last && newBb !in flow.succs && newBb !in marks.visited && newBb >= f0.last
    ensures orig in flow.partition && flow' == Duplicated(flow, orig, src, j)
    ensures marks' == Marks(CopyLinked(marks.aux, after, newBb), marks.visited[newBb := n])
    ensures origin' == origin[newBb := Root(origin, orig)]
  {
    hide Core;
    CoreBlocks(f0, flow, marks.visited.Keys, bbd, origin, {});
    DuplicateKeepsCore(f0, flow, marks.visited.Keys, bbd, origin, orig, src, j);
    newBb, origin' := flow.last, origin[flow.last := Root(origin, orig)];
    flow' := Duplicated(flow, orig, src, j);
    var aux := marks.aux;
    aux := if after in aux then aux[newBb := aux[after]] else aux - {newBb};
    aux := aux[after := newBb];
    marks' := Marks(aux, marks.visited[newBb := n]);
    assert marks'.visited.Keys == marks.visited.Keys + {newBb};
  }

  method MarkVisited(marks: Marks, bbd: Bbd, bb: Block, n: nat) returns (marks': Marks, bbd': Bbd)
    ensures marks' == marks.(visited := marks.visited[bb := n])
    ensures bbd' == bbd.(heap := bbd.heap - {bb}, newHeap := bbd.newHeap - {bb})
  {
    marks' := marks.(visited := marks.visited[bb := n]);
    bbd' := bbd;
    if bb in bbd.heap {
      bbd' := bbd'.(heap := bbd.heap - {bb});
    }
    if bb in bbd.newHeap {
      bbd' := bbd'.(newHeap := bbd.newHeap - {bb});
    }
  }

  /** The best suitable edge, unless the block it leads to is better duplicated later. */
  method SelectSuccessor(w: Weights, flow: Flow, visited: map<Block, nat>, bb: Block, n: nat, round: nat) returns (best: Option<nat>)
    requires bb in flow.succs && bb in flow.partition
    ensures best.Some? ==> best.value < |flow.succs[bb]| && Selectable(flow, visited, bb, best.value, n)
    ensures best.Some? ==> Best(w, flow, visited, bb, best.value, n, round, false)
    ensures best.None? ==> DeadEnd(w, flow, visited, bb, n, round)
  {
    hide Selectable, Beats;
    best := None;
    var es := flow.succs[bb];
    for j := 0 to |es|
      invariant best.None? ==> forall i: nat :: i < j ==> !Suitable(w, flow, visited, bb, i, n, round)
      invariant best.Some? ==> BestUpTo(w, flow, visited, bb, best.value, n, round, j)
    {
      if Suitable(w, flow, visited, bb, j, n, round) && (best.None? || Beats(w, flow, bb, j, best.value)) {
        best := Some(j);
      }
    }
    if best.Some? && w.copied(flow, es[best.value].dest, false) {
      assert Best(w, flow, visited, bb, best.value, n, round, true);
      best := None;
    }
  }

  predicate Later(w: Weights, f: Flow, round: nat, d: Block) {
    w.later(f, round, d)
  }

  /** The edge is unlikely, and its block not hot enough for any but the last round. */
  predicate PutsOff(w: Weights, f: Flow, bb: Block, j: nat, round: nat, rounds: nat)
    requires bb in f.succs && j < |f.succs[bb]|
  {
    var e := f.succs[bb][j];
    round + 1 < rounds && (!e.canFallthru || e.complex || !w.likely(f, round, bb, j)) && Later(w, f, round, e.dest)
  }

  /** Edge `j` is the first that brings its block into a heap. */
  predicate Brings(f: Flow, visited: map<Block, nat>, bbd: Bbd, bb: Block, best: Option<nat>, j: nat)
    requires bb in f.succs
  {
    var es := f.succs[bb];
    && j < |es| && best != Some(j) && (forall i: nat :: i < j && es[i].dest == es[j].dest ==> best == Some(i))
    && es[j].dest != EXIT && es[j].dest !in visited && es[j].dest !in bbd.heap && es[j].dest !in bbd.newHeap
  }

  /** Every unvisited successor of `bb`, other than along the selected edge, enters a heap. */
  method PushSuccessors(w: Weights, flow: Flow, visited: map<Block, nat>, bbd: Bbd, bb: Block, best: Option<nat>, round: nat, rounds: nat)
    returns (bbd': Bbd)
    requires bb in flow.succs && bbd.heap !! bbd.newHeap
    ensures bbd'.heap !! bbd'.newHeap && bbd.heap <= bbd'.heap && bbd.newHeap <= bbd'.newHeap
    ensures bbd'.heap + bbd'.newHeap ==
              bbd.heap + bbd.newHeap + Unselected(flow.succs[bb], |flow.succs[bb]|, best, visited.Keys)
    ensures forall j: nat :: Brings(flow, visited, bbd, bb, best, j) ==>
              (flow.succs[bb][j].dest in bbd'.newHeap <==> PutsOff(w, flow, bb, j, round, rounds))
    ensures forall d :: d in bbd'.newHeap && d !in bbd.newHeap ==> round + 1 < rounds && Later(w, flow, round, d)
    ensures bbd'.startOfTrace == bbd.startOfTrace && bbd'.endOfTrace == bbd.endOfTrace
  {
    var es := flow.succs[bb];
    bbd' := bbd;
    for i := 0 to |es|
      invariant bbd'.heap !! bbd'.newHeap && bbd.heap <= bbd'.heap && bbd.newHeap <= bbd'.newHeap
      invariant bbd'.heap + bbd'.newHeap == bbd.heap + bbd.newHeap + Unselected(es, i, best, visited.Keys)
      invariant forall j: nat :: j < i && Brings(flow, visited, bbd, bb, best, j) ==>
                  es[j].dest in bbd'.heap + bbd'.newHeap && (es[j].dest in bbd'.newHeap <==> PutsOff(w, flow, bb, j, round, rounds))
      invariant forall d :: d in bbd'.newHeap && d !in bbd.newHeap ==> round + 1 < rounds && Later(w, flow, round, d)
      invariant bbd'.startOfTrace == bbd.startOfTrace && bbd'.endOfTrace == bbd.endOfTrace
    {
      hide PutsOff, Brings, Unselected;
      var d := es[i].dest;
      ghost var was := bbd';
      BringsUnvisited(flow, visited, bbd, bb, best, i);
      UnselectedNext(es, i, best, visited.Keys);
      if best != Some(i) && d != EXIT && d !in visited {
        if d !in bbd'.heap && d !in bbd'.newHeap {
          PutsOffLater(w, flow, bb, i, round, rounds);
          if PutsOff(w, flow, bb, i, round, rounds) {
            bbd' := bbd'.(newHeap := bbd'.newHeap + {d});
          } else {
            bbd' := bbd'.(heap := bbd'.heap + {d});
          }
        } else {
          BroughtBefore(flow, visited, bbd, was, bb, best, i);
        }
      }
    }
  }

  lemma BringsUnvisited(f: Flow, visited: map<Block, nat>, bbd: Bbd, bb: Block, best: Option<nat>, i: nat)
    requires bb in f.succs && i < |f.succs[bb]|
    ensures Brings(f, visited, bbd, bb, best, i) ==> best != Some(i) && f.succs[bb][i].dest != EXIT && f.succs[bb][i].dest !in visited
  {}

  lemma UnselectedNext(es: seq<Edge>, i: nat, best: Option<nat>, visited: set<Block>)
    requires i < |es|
    ensures var d := es[i].dest;
      Unselected(es, i + 1, best, visited) ==
      Unselected(es, i, best, visited) + if best != Some(i) && d != EXIT && d !in visited then {d} else {}
  {}

  lemma PutsOffLater(w: Weights, f: Flow, bb: Block, j: nat, round: nat, rounds: nat)
    requires bb in f.succs && j < |f.succs[bb]|
    ensures PutsOff(w, f, bb, j, round, rounds) ==> round + 1 < rounds && Later(w, f, round, f.succs[bb][j].dest)
  {}

  lemma BroughtBefore(f: Flow, visited: map<Block, nat>, bbd: Bbd, bbd': Bbd, bb: Block, best: Option<nat>, i: nat)
    requires bb in f.succs && i < |f.succs[bb]|
    requires bbd'.heap + bbd'.newHeap == bbd.heap + bbd.newHeap + Unselected(f.succs[bb], i, best, visited.Keys)
    requires f.succs[bb][i].dest in bbd'.heap + bbd'.newHeap
    ensures !Brings(f, visited, bbd, bb, best, i)
  {
  }

  /** An edge along which control may fall out of the trace numbered `n`. */
  predicate FallsOut(e: Edge, visited: map<Block, nat>, n: nat) {
    e.dest != EXIT && !(e.dest in visited && visited[e.dest] == n) && e.canFallthru && !e.complex
  }

  /** An edge to a block that no trace has taken yet, or that starts one. */
  predicate ToStart(e: Edge, s: State) {
    e.dest !in s.marks.visited || e.dest in s.bbd.startOfTrace
  }

  /** Some edge of the block falls out of the trace; a preferred one leads where a trace may start. */
  ghost predicate EndsTrace(s: State, b: Block, n: nat, preferred: bool) {
    b in s.flow.succs
    && exists j :: 0 <= j < |s.flow.succs[b]| && FallsOut(s.flow.succs[b][j], s.marks.visited, n) && (preferred ==> ToStart(s.flow.succs[b][j], s))
  }

  ghost predicate SomeEndsTrace(s: State, c: seq<Block>, from: nat, to: nat, n: nat, preferred: bool) {
    exists i :: from <= i < to && i < |c| && EndsTrace(s, c[i], n, preferred)
  }

  /** Some block of the loop `c[h..]` has an edge that falls out of the trace. */
  ghost predicate LoopEnds(s: State, c: seq<Block>, h: nat, n: nat, preferred: bool) {
    SomeEndsTrace(s, c, h, |c|, n, preferred)
  }

  /** The choice among some blocks: none just when there is no choice, and a preferred one when there is one. */
  ghost predicate Chosen(s: State, best: Option<Block>, c: seq<Block>, from: nat, to: nat, n: nat, preferred: bool) {
    && (best.Some? <==> SomeEndsTrace(s, c, from, to, n, false))
    && (best.Some? ==> EndsTrace(s, best.value, n, preferred))
    && (preferred <==> SomeEndsTrace(s, c, from, to, n, true))
  }

  ghost predicate EndsUpTo(s: State, b: Block, n: nat, preferred: bool, upto: nat) {
    b in s.flow.succs
    && exists j :: 0 <= j < |s.flow.succs[b]| && j < upto && FallsOut(s.flow.succs[b][j], s.marks.visited, n)
                   && (preferred ==> ToStart(s.flow.succs[b][j], s))
  }

  /** The best edge so far against those of one more block; a preferred one gives way only to another. */
  method BestOf(s: State, bb: Block, best0: Option<Block>, preferred0: bool, n: nat) returns (best: Option<Block>, preferred: bool)
    requires bb in s.flow.succs && (preferred0 ==> best0.Some?)
    ensures (best == best0 && preferred == preferred0) || (best == Some(bb) && EndsTrace(s, bb, n, preferred))
    ensures best.Some? <==> best0.Some? || EndsTrace(s, bb, n, false)
    ensures preferred <==> preferred0 || EndsTrace(s, bb, n, true)
    ensures preferred ==> best.Some?
  {
    best, preferred := best0, preferred0;
    var es := s.flow.succs[bb];
    for j := 0 to |es|
      invariant (best == best0 && preferred == preferred0) || (best == Some(bb) && EndsUpTo(s, bb, n, preferred, j))
      invariant best.Some? <==> best0.Some? || EndsUpTo(s, bb, n, false, j)
      invariant preferred <==> preferred0 || EndsUpTo(s, bb, n, true, j)
      invariant preferred ==> best.Some?
    {
      var e := es[j];
      if e.dest != EXIT && !(e.dest in s.marks.visited && s.marks.visited[e.dest] == n) && e.canFallthru && !e.complex {
        var starts, better := e.dest !in s.marks.visited || e.dest in s.bbd.startOfTrace, *;
        if preferred {
          if starts && better {
            best := Some(bb);
          }
        } else if starts {
          preferred, best := true, Some(bb);
        } else if best.None? || better {
          best := Some(bb);
        }
      }
    }
  }

  /** Walks the loop `c[h..]` and picks the block whose best edge leaves the trace, if there is one. */
  method FindLoopEnd(s: State, ghost c: seq<Block>, ghost h: nat, header: Block, n: nat)
    returns (best: Option<Block>, ghost m: nat, ghost preferred: bool)
    requires h < |c| && c[h] == header && Distinct(c) && Link(s.marks.aux, c)
    requires Last(c) in s.marks.aux && s.marks.aux[Last(c)] == header
    requires forall b :: b in c ==> b in s.flow.succs
    ensures best.Some? <==> LoopEnds(s, c, h, n, false)
    ensures best.Some? ==> best.value in c[h..] && EndsTrace(s, best.value, n, LoopEnds(s, c, h, n, true))
    ensures best.Some? ==> h <= m < |c| && c[m] == best.value
    ensures Chosen(s, best, c, h, |c|, n, preferred)
  {
    hide EndsTrace;
    best, m := None, 0;
    var bb, prefers, more := header, false, true;
    ghost var i := h;
    while more
      invariant h <= i < |c| && (more ==> bb == c[i])
      invariant best.Some? ==> h <= m < |c| && c[m] == best.value
      invariant Chosen(s, best, c, h, if more then i else |c|, n, prefers) && (prefers ==> best.Some?)
      decreases more, |c| - i
    {
      assert bb in c;
      ghost var best0, prefers0 := best, prefers;
      best, prefers := BestOf(s, bb, best, prefers, n);
      ChosenNext(s, best0, best, c, h, i, n, prefers0, prefers);
      if best != best0 {
        m := i;
      }
      assert s.marks.aux[bb] == if i == |c| - 1 then header else c[i + 1];
      bb := s.marks.aux[bb];
      more := bb != header;
      if more {
        i := i + 1;
      }
    }
    preferred := prefers;
  }

  lemma ChosenNext(s: State, best0: Option<Block>, best: Option<Block>, c: seq<Block>, h: nat, i: nat, n: nat, preferred0: bool, preferred: bool)
    requires h <= i < |c| && Chosen(s, best0, c, h, i, n, preferred0)
    requires (best == best0 && preferred == preferred0) || (best == Some(c[i]) && EndsTrace(s, c[i], n, preferred))
    requires best.Some? <==> best0.Some? || EndsTrace(s, c[i], n, false)
    requires preferred <==> preferred0 || EndsTrace(s, c[i], n, true)
    ensures Chosen(s, best, c, h, i + 1, n, preferred)
  {
    hide EndsTrace;
    OneMoreEnds(s, c, h, i, n, false);
    OneMoreEnds(s, c, h, i, n, true);
  }

  lemma OneMoreEnds(s: State, c: seq<Block>, h: nat, i: nat, n: nat, preferred: bool)
    requires h <= i < |c|
    ensures SomeEndsTrace(s, c, h, i + 1, n, preferred) <==> SomeEndsTrace(s, c, h, i, n, preferred) || EndsTrace(s, c[i], n, preferred)
  {
    hide EndsTrace;
    if EndsTrace(s, c[i], n, preferred) {
      assert h <= i < i + 1;
    }
    if SomeEndsTrace(s, c, h, i, n, preferred) {
      var q :| h <= q < i && q < |c| && EndsTrace(s, c[q], n, preferred);
      assert q < i + 1;
    }
  }

  /** The block of the chain `c` that links to `header`. */
  method FindBefore(aux: map<Block, Block>, ghost c: seq<Block>, ghost h: nat, first: Block, header: Block) returns (prev: Block)
    requires 0 < h < |c| && c[h] == header && c[0] == first && Distinct(c) && Link(aux, c)
    ensures prev == c[h - 1]
  {
    prev := first;
    ghost var i := 0;
    while aux[prev] != header
      invariant 0 <= i < h && prev == c[i]
      decreases h - i
    {
      prev := aux[prev];
      i := i + 1;
    }
    assert c[i + 1] == header;
  }

  /** The chain with its loop from `h` on turned round behind block `m`, and `extra` in front of the loop. */
  ghost function Turned(c: seq<Block>, h: nat, m: nat, extra: seq<Block>): seq<Block>
    requires h <= m < |c|
  {
    c[..h] + extra + c[m + 1..] + c[h..m + 1]
  }

  /** Turning keeps every block of the chain, as often as it stood there, and adds just the extra ones. */
  lemma TurnedKeeps(c: seq<Block>, h: nat, m: nat, extra: seq<Block>)
    requires h <= m < |c|
    ensures multiset(Turned(c, h, m, extra)) == multiset(c) + multiset(extra)
  {
    assert c == c[..h] + c[h..m + 1] + c[m + 1..];
  }

  /** One block has become one more: a copy of `header`, visited by the trace `k`. */
  ghost predicate Copied(s: State, lay: Layout, k: nat, header: Block, s': State, lay': Layout) {
    && s.flow.last !in s.marks.visited && s.flow.last !in s.flow.succs
    && s'.marks.visited == s.marks.visited[s.flow.last := k + 1]
    && lay'.origin == lay.origin[s.flow.last := Root(lay.origin, header)]
    && k < |lay'.chains| && k < |lay.chains| && lay'.chains == lay.chains[k := lay'.chains[k]]
  }

  /** No block is new, and only the order of the chain `k` may have changed. */
  ghost predicate NotCopied(s: State, lay: Layout, k: nat, s': State, lay': Layout) {
    && s'.flow == s.flow && s'.marks.visited == s.marks.visited && lay'.origin == lay.origin
    && k < |lay'.chains| && k < |lay.chains| && lay'.chains == lay.chains[k := lay'.chains[k]]
  }

  /** The last chain is the old one turned round, with a copy of the header in front of its loop or without. */
  ghost predicate KeepsBlocks(s: State, lay: Layout, k: nat, h: nat, header: Block, s': State, lay': Layout) {
    k < |lay.chains| && k < |lay'.chains| &&
    exists m :: h <= m < |lay.chains[k]|
      && ((NotCopied(s, lay, k, s', lay') && lay'.chains[k] == Turned(lay.chains[k], h, m, []))
          || (Copied(s, lay, k, header, s', lay') && lay'.chains[k] == Turned(lay.chains[k], h, m, [s.flow.last])))
  }

  lemma KeepsTurned(s: State, lay: Layout, k: nat, h: nat, m: nat, header: Block, s': State, lay': Layout)
    requires k < |lay.chains| && NotCopied(s, lay, k, s', lay') && h <= m < |lay.chains[k]|
    requires lay'.chains[k] == Rotated(lay.chains[k], h, m)
             || (m == |lay.chains[k]| - 1 && lay'.chains[k] == lay.chains[k])
    ensures KeepsBlocks(s, lay, k, h, header, s', lay')
  {
    var c := lay.chains[k];
    assert Turned(c, h, m, []) == Rotated(c, h, m);
    assert m == |c| - 1 ==> c == Turned(c, h, m, []);
  }

  lemma KeepsCopied(s: State, lay: Layout, k: nat, h: nat, m: nat, header: Block, s': State, lay': Layout)
    requires k < |lay.chains| && Copied(s, lay, k, header, s', lay') && h <= m < |lay.chains[k]|
    requires var c := lay.chains[k]; lay'.chains[k] == c[..h] + [s.flow.last] + (c[m + 1..] + c[h..m + 1])
    ensures KeepsBlocks(s, lay, k, h, header, s', lay')
  {
    var c := lay.chains[k];
    assert c[..h] + [s.flow.last] + (c[m + 1..] + c[h..m + 1]) == Turned(c, h, m, [s.flow.last]);
  }

  /** The block in front of the loop goes nowhere else, and the header is worth a copy. */
  ghost predicate CopiesHeader(w: Weights, s: State, c: seq<Block>, h: nat)
    requires h < |c|
  {
    h > 0 && c[h - 1] in s.flow.succs && |s.flow.succs[c[h - 1]]| == 1 && w.copiedHeader(s.flow, c[h])
  }

  /**
   * Rotates the loop at the tail of the last trace: `header` is its first block and `bb` its last,
   * which links back to the header. The trace keeps its blocks; at most one copy of the header joins them.
   */
  method RotateLoop(w: Weights, ghost f0: Flow, s: State, ghost lay: Layout, k: nat, ghost h: nat, bb: Block, header: Block)
    returns (s': State, ghost lay': Layout, lastBb: Block)
    requires Core(f0, s.flow, s.marks.visited.Keys, s.bbd, lay.origin, {})
    requires Tail(s.flow.partition, s.marks, s.bbd, s.traces, lay, k)
    requires LoopAtTail(s.flow.succs, s.marks.aux, lay.chains[k], h, bb, header)
    ensures Core(f0, s'.flow, s'.marks.visited.Keys, s'.bbd, lay'.origin, {})
    ensures Tail(s'.flow.partition, s'.marks, s'.bbd, s'.traces, lay', k)
    ensures TraceInv(s'.traces[k], lay'.chains[k], s'.marks.aux, s'.flow.partition) && Last(lay'.chains[k]) == lastBb
    ensures |s'.traces| == |lay'.chains| == k + 1 == |s.traces| && s.marks.visited.Keys <= s'.marks.visited.Keys
    ensures s'.bbd == s.bbd && s'.traces[..k] == s.traces[..k] && (h > 0 ==> s'.traces[k].first == s.traces[k].first)
    ensures s'.traces[k].round == s.traces[k].round
    ensures KeepsBlocks(s, lay, k, h, header, s', lay')
    ensures lastBb in lay.chains[k][h..]
    ensures LoopEnds(s, lay.chains[k], h, k + 1, false) ==> EndsTrace(s, lastBb, k + 1, LoopEnds(s, lay.chains[k], h, k + 1, true))
    ensures !LoopEnds(s, lay.chains[k], h, k + 1, false) ==> lastBb == bb && lay' == lay
    ensures s.flow.last in s'.marks.visited <==> LoopEnds(s, lay.chains[k], h, k + 1, false) && CopiesHeader(w, s, lay.chains[k], h)
  {
    hide Core, Tail, TraceInv, LoopAtTail, Distinct, Link, KeepsBlocks, EndsTrace, SomeEndsTrace;
    RotateLoopFacts(f0, s.flow, s.marks, s.bbd, s.traces, lay, k, h, bb, header);
    CoreBlocks(f0, s.flow, s.marks.visited.Keys, s.bbd, lay.origin, {});
    ghost var c := lay.chains[k];
    var best; ghost var m, preferred;
    best, m, preferred := FindLoopEnd(s, c, h, header, k + 1);
    if best.None? {
      CutKeepsTail(s.flow.partition, s.marks, s.bbd, s.traces, lay, k);
      lastBb, lay' := bb, lay;
      s' := s.(marks := s.marks.(aux := s.marks.aux - {bb}));
      KeepsTurned(s, lay, k, h, |c| - 1, header, s', lay');
    } else {
      lastBb := best.value;
      ghost var aux1 := RotatedLinks(s.marks.aux, c, h, m) - {lastBb};
      ghost var lay1, m1 := lay.(chains := lay.chains[k := Rotated(c, h, m)]), s.marks.(aux := aux1);
      if header == s.traces[k].first {
        var first := s.marks.aux[lastBb];
        RotateKeepsTail(s.flow.succs, s.flow.partition, s.marks, s.bbd, s.traces, lay, k, c, h, m, first, aux1);
        s' := s.(traces := s.traces[k := s.traces[k].(first := first)], marks := s.marks.(aux := s.marks.aux - {lastBb}));
        lay' := lay1;
        KeepsTurned(s, lay, k, h, m, header, s', lay');
      } else {
        assert Rotated(c, h, m) == c[..h] + (c[m + 1..] + c[h..m + 1]);
        RotateTailFacts(f0, s.flow, s.marks, s.bbd, s.traces, lay, k, h, m, header);
        var prev := FindBefore(s.marks.aux, c, h, s.traces[k].first, header);
        RotateKeepsTail(s.flow.succs, s.flow.partition, s.marks, s.bbd, s.traces, lay, k, c, h, m, s.traces[k].first, aux1);
        assert s.traces[k := s.traces[k].(first := s.traces[k].first)] == s.traces;
        var marks := s.marks.(aux := s.marks.aux[prev := s.marks.aux[lastBb]]);
        if |s.flow.succs[prev]| == 1 && w.copiedHeader(s.flow, header) {
          s', lay' := CopyHeader(f0, s.(marks := marks), lay, k, c[..h], c[m + 1..] + c[h..m + 1], lastBb, prev, header);
          KeepsCopied(s, lay, k, h, m, header, s', lay');
        } else {
          s' := s.(marks := marks.(aux := marks.aux - {lastBb}));
          lay' := lay1;
          KeepsTurned(s, lay, k, h, m, header, s', lay');
        }
      }
    }
  }

  method CopyHeader(ghost f0: Flow, s: State, ghost lay: Layout, k: nat, ghost a: seq<Block>, ghost b: seq<Block>,
                    lastBb: Block, prev: Block, header: Block)
    returns (s': State, ghost lay': Layout)
    requires Core(f0, s.flow, s.marks.visited.Keys, s.bbd, lay.origin, {})
    requires |lay.chains| == |s.traces| == k + 1 && a != [] && b != [] && Last(a) == prev && Last(b) == lastBb && prev != lastBb
    requires header in s.marks.visited && header in s.flow.succs && prev in s.marks.visited && prev in s.flow.succs
    requires |s.flow.succs[prev]| == 1 && s.flow.succs[prev][0].dest == header && prev in s.marks.aux
    requires header in s.flow.partition && a[0] in s.flow.partition && s.flow.partition[a[0]] == s.flow.partition[header]
    requires s.flow.last !in s.marks.visited && s.flow.last !in s.flow.partition && s.flow.last != lastBb
    requires Tail(s.flow.partition, s.marks.(aux := s.marks.aux - {lastBb}), s.bbd, s.traces, lay.(chains := lay.chains[k := a + b]), k)
    requires TraceInv(s.traces[k], a + b, s.marks.aux - {lastBb}, s.flow.partition)
    ensures Core(f0, s'.flow, s'.marks.visited.Keys, s'.bbd, lay'.origin, {})
    ensures Tail(s'.flow.partition, s'.marks, s'.bbd, s'.traces, lay', k)
    ensures TraceInv(s'.traces[k], lay'.chains[k], s'.marks.aux, s'.flow.partition) && Last(lay'.chains[k]) == lastBb
    ensures s'.bbd == s.bbd && s'.traces == s.traces && |lay'.chains| == k + 1
    ensures s.marks.visited.Keys <= s'.marks.visited.Keys
    ensures Copied(s, lay, k, header, s', lay') && lay'.chains[k] == a + [s.flow.last] + b
  {
    hide Core, Tail, TraceInv, Link;
    ghost var m1, lay1 := s.marks.(aux := s.marks.aux - {lastBb}), lay.(chains := lay.chains[k := a + b]);
    InsertTailFacts(s.flow.partition, m1, s.bbd, s.traces, lay1, k, a, b);
    var flow, marks, newBb; ghost var origin;
    flow, marks, newBb, origin := CopyBb(f0, s.flow, s.marks, s.bbd, lay.origin, header, prev, 0, prev, k + 1);
    CopyThenCut(s.marks.aux, prev, newBb, lastBb);
    InsertKeepsTail(s.flow.partition, m1, s.bbd, s.traces, lay1, k, a, b, newBb, s.flow.partition[header], origin);
    LastOf(a, [newBb], b);
    ghost var d := a + [newBb] + b;
    assert lay1.chains[k := d] == lay.chains[k := d];
    lay' := Layout(lay.chains[k := d], lay.owner[newBb := k], origin);
    s' := s.(flow := flow, marks := marks.(aux := marks.aux - {lastBb}));
  }

  /** The trace `k` has gone on, or its blocks were turned round and joined by copies; the others stayed. */
  ghost predicate Extends(s: State, lay: Layout, s': State, lay': Layout, k: nat) {
    && k < |s.traces| && k < |lay.chains| && k < |s'.traces| && k < |lay'.chains|
    && lay'.chains[..k] == lay.chains[..k] && s'.traces[..k] == s.traces[..k] && s'.traces[k].round == s.traces[k].round
    && (forall b :: b in lay.chains[k] ==> b in lay'.chains[k])
    && Grown(s.marks.visited, s'.marks.visited, k + 1)
  }

  lemma ExtendsTwice(s: State, lay: Layout, s1: State, lay1: Layout, s': State, lay': Layout, k: nat)
    requires Extends(s, lay, s1, lay1, k) && Extends(s1, lay1, s', lay', k)
    ensures Extends(s, lay, s', lay', k)
  {}

  /** The loop of the trace from position `h` on has been turned round, and ends where control may best leave it. */
  ghost predicate TurnedAt(w: Weights, s: State, lay: Layout, k: nat, h: nat, bb: Block, s': State, lay': Layout, lastBb: Block) {
    && k < |lay.chains| && h < |lay.chains[k]|
    && var c := lay.chains[k];
    && KeepsBlocks(s, lay, k, h, c[h], s', lay') && lastBb in c[h..]
    && (LoopEnds(s, c, h, k + 1, false) ==> EndsTrace(s, lastBb, k + 1, LoopEnds(s, c, h, k + 1, true)))
    && (!LoopEnds(s, c, h, k + 1, false) ==> lastBb == bb && lay' == lay)
    && (s.flow.last in s'.marks.visited <==> LoopEnds(s, c, h, k + 1, false) && CopiesHeader(w, s, c, h))
  }

  predicate Rotates(w: Weights, next: Block, s: State, bb: Block, j: nat)
    requires bb in s.flow.succs && j < |s.flow.succs[bb]|
  {
    s.flow.succs[bb][j].dest != bb && w.manyIterations(s.flow, bb, j) && s.flow.succs[bb][j].dest != next
  }

  predicate CopiesAtEnd(w: Weights, s: State, bb: Block, j: nat)
    requires bb in s.flow.succs && j < |s.flow.succs[bb]|
  {
    && s.flow.succs[bb][j].dest != bb && !w.manyIterations(s.flow, bb, j)
    && |s.flow.succs[bb]| == 1 && w.copied(s.flow, s.flow.succs[bb][j].dest, w.growing)
  }

  /** How a trace ends whose best edge `j` leads back: its loop is rotated, its header copied, or nothing is done. */
  ghost predicate EndsAtLoop(w: Weights, next: Block, s: State, lay: Layout, k: nat, bb: Block, j: nat, s': State, lay': Layout, lastBb: Block)
    requires bb in s.flow.succs && j < |s.flow.succs[bb]| && k < |lay.chains|
  {
    if Rotates(w, next, s, bb, j) then
      exists h: nat :: h < |lay.chains[k]| && lay.chains[k][h] == s.flow.succs[bb][j].dest
                       && TurnedAt(w, s, lay, k, h, bb, s', lay', lastBb)
    else if CopiesAtEnd(w, s, bb, j) then
      && lastBb == s.flow.last && |lay'.chains| == k + 1 && lay'.chains[k] == lay.chains[k] + [lastBb]
      && bb in s'.flow.succs && bb in s.flow.succs && s'.flow.succs[bb] == [s.flow.succs[bb][0].(dest := lastBb)]
    else s' == s && lay' == lay && lastBb == bb
  }

  lemma TurnedExtends(f0: Flow, s: State, lay: Layout, k: nat, h: nat, header: Block, s': State, lay': Layout)
    requires KeepsBlocks(s, lay, k, h, header, s', lay') && k + 1 == |s.traces| == |lay.chains| == |s'.traces|
    requires s'.traces[..k] == s.traces[..k] && s'.traces[k].round == s.traces[k].round && s.flow.last !in f0.succs
    ensures Extends(s, lay, s', lay', k) && GrownByCopies(f0, s.marks.visited, s'.marks.visited, k + 1)
  {
    var m :| h <= m < |lay.chains[k]|
      && ((NotCopied(s, lay, k, s', lay') && lay'.chains[k] == Turned(lay.chains[k], h, m, []))
          || (Copied(s, lay, k, header, s', lay') && lay'.chains[k] == Turned(lay.chains[k], h, m, [s.flow.last])));
    var c := lay.chains[k];
    assert c == c[..h] + c[h..m + 1] + c[m + 1..];
  }

  /** The links do not matter for the way a loop is turned. */
  lemma TurnedWithoutLinks(w: Weights, s: State, aux: map<Block, Block>, lay: Layout, k: nat, h: nat, bb: Block, s': State, lay': Layout, lastBb: Block)
    requires TurnedAt(w, s.(marks := s.marks.(aux := aux)), lay, k, h, bb, s', lay', lastBb)
    ensures TurnedAt(w, s, lay, k, h, bb, s', lay', lastBb)
  {
    var t := s.(marks := s.marks.(aux := aux));
    EndsAlike(s, t);
    hide EndsTrace, Turned;
  }

  lemma EndsAlike(s: State, t: State)
    requires t.flow == s.flow && t.marks.visited == s.marks.visited && t.bbd == s.bbd
    ensures forall b: Block, n: nat, preferred: bool :: EndsTrace(t, b, n, preferred) <==> EndsTrace(s, b, n, preferred)
  {
    assert forall e: Edge :: ToStart(e, t) <==> ToStart(e, s);
  }

  lemma NotOriginal(f0: Flow, s: State, lay: Layout)
    requires Core(f0, s.flow, s.marks.visited.Keys, s.bbd, lay.origin, {})
    ensures s.flow.last !in f0.succs
  {
    hide Frontier, Reachable, CopiesOk, HeapsInv;
  }

  /** The chosen edge `j` leads back into the trace: rotate the loop, copy its header, or just stop. */
  method EndAtLoop(w: Weights, ghost f0: Flow, next: Block, s: State, ghost lay: Layout, k: nat, bb: Block, j: nat)
    returns (s': State, ghost lay': Layout, lastBb: Block)
    requires bb in s.flow.succs && j < |s.flow.succs[bb]| && bb in s.flow.partition && |s.traces| == k + 1 == |lay.chains|
    requires Marked(f0, next, s, lay, k, bb, {s.flow.succs[bb][j].dest})
    requires Selectable(s.flow, s.marks.visited, bb, j, k + 1) && s.flow.succs[bb][j].dest in s.marks.visited
    ensures Ended(f0, next, s', lay', k, lastBb)
    ensures s'.bbd == s.bbd && |s'.traces| == k + 1 == |lay'.chains| && s.marks.visited.Keys <= s'.marks.visited.Keys
    ensures EndsAtLoop(w, next, s, lay, k, bb, j, s', lay', lastBb)
    ensures Extends(s, lay, s', lay', k) && GrownByCopies(f0, s.marks.visited, s'.marks.visited, k + 1)
  {
    hide Marked, Ended, Core, Tail, TraceInv, LoopAtTail, KeepsBlocks, LoopEnds, EndsTrace, Extends, GrownByCopies;
    var d := s.flow.succs[bb][j].dest;
    LoopFacts(f0, next, s, lay, k, bb, d);
    MarkedEnds(f0, next, s, lay, k, bb);
    NotOriginal(f0, s, lay);
    s', lay', lastBb := s, lay, bb;
    StaysHere(f0, s, lay, k);
    if d != bb {
      if w.manyIterations(s.flow, bb, j) {
        if d != next {
          ghost var h := CloseLoop(s.flow.succs, s.flow.partition, s.marks, s.bbd, s.traces, lay, k, bb, d);
          var t := s.(marks := s.marks.(aux := s.marks.aux[bb := d]));
          s', lay', lastBb := RotateLoop(w, f0, t, lay, k, h, bb, d);
          RotatedEnds(f0, next, s, s', lay', k, h, lastBb, d);
          TurnedHere(w, f0, s, t, lay, k, h, bb, d, s', lay', lastBb);
        }
      } else if |s.flow.succs[bb]| == 1 && w.copied(s.flow, d, w.growing) {
        var flow, marks; ghost var origin;
        flow, marks, lastBb, origin := CopyBb(f0, s.flow, s.marks, s.bbd, lay.origin, d, bb, j, bb, k + 1);
        ghost var c := lay.chains[k];
        assert c + [] == c && c + [lastBb] + [] == c + [lastBb];
        InsertKeepsTail(s.flow.partition, s.marks, s.bbd, s.traces, lay, k, c, [], lastBb, s.flow.partition[d], origin);
        lay' := Layout(lay.chains[k := c + [lastBb]], lay.owner[lastBb := k], origin);
        s' := State(flow, marks, s.bbd, s.traces[k := s.traces[k].(length := s.traces[k].length + 1)]);
        CopiedEnds(f0, next, State(flow, marks, s.bbd, s.traces), s', lay', k, lastBb);
        CopiedHere(f0, s, lay, k, lastBb, s', lay');
      }
    }
  }

  lemma StaysHere(f0: Flow, s: State, lay: Layout, k: nat)
    requires |s.traces| == k + 1 == |lay.chains|
    ensures Extends(s, lay, s, lay, k) && GrownByCopies(f0, s.marks.visited, s.marks.visited, k + 1)
  {}

  lemma CopiedHere(f0: Flow, s: State, lay: Layout, k: nat, x: Block, s': State, lay': Layout)
    requires |s.traces| == k + 1 == |lay.chains| == |lay'.chains| && x !in f0.succs && x !in s.marks.visited
    requires s'.marks.visited == s.marks.visited[x := k + 1] && lay'.chains == lay.chains[k := lay.chains[k] + [x]]
    requires s'.traces == s.traces[k := s.traces[k].(length := s.traces[k].length + 1)]
    ensures Extends(s, lay, s', lay', k) && GrownByCopies(f0, s.marks.visited, s'.marks.visited, k + 1)
  {}

  lemma TurnedHere(w: Weights, f0: Flow, s: State, t: State, lay: Layout, k: nat, h: nat, bb: Block, d: Block, s': State, lay': Layout, lastBb: Block)
    requires t == s.(marks := s.marks.(aux := s.marks.aux[bb := d])) && s.flow.last !in f0.succs
    requires k + 1 == |s.traces| == |lay.chains| == |s'.traces|
    requires LoopAtTail(t.flow.succs, t.marks.aux, lay.chains[k], h, bb, d)
    requires s'.traces[..k] == t.traces[..k] && s'.traces[k].round == t.traces[k].round
    requires h < |lay.chains[k]| && lay.chains[k][h] == d ==> TurnedAt(w, t, lay, k, h, bb, s', lay', lastBb)
    ensures h < |lay.chains[k]| && lay.chains[k][h] == d && TurnedAt(w, s, lay, k, h, bb, s', lay', lastBb)
    ensures Extends(s, lay, s', lay', k) && GrownByCopies(f0, s.marks.visited, s'.marks.visited, k + 1)
  {
    hide KeepsBlocks, LoopEnds, EndsTrace, HasEdge, Link, Distinct, Extends, GrownByCopies;
    TurnedWithoutLinks(w, s, t.marks.aux, lay, k, h, bb, s', lay', lastBb);
    TurnedExtends(f0, s, lay, k, h, d, s', lay');
  }

  /** The best edge `best` is given up for edge `i`, which makes a short detour. */
  predicate Detours(w: Weights, f: Flow, visited: map<Block, nat>, bb: Block, i: nat, best: nat)
    requires bb in f.succs && i < |f.succs[bb]| && best < |f.succs[bb]|
  {
    Detour(f, visited, bb, i, best) && w.detour(f, bb, i, best)
  }

  /** The block that comes behind `bb`: where the first detour leads, or else the best edge. */
  ghost predicate ComesNext(w: Weights, f: Flow, visited: map<Block, nat>, bb: Block, best: nat, d: Block)
    requires bb in f.succs && best < |f.succs[bb]|
  {
    || (d == f.succs[bb][best].dest && forall i: nat :: i < |f.succs[bb]| ==> !Detours(w, f, visited, bb, i, best))
    || exists i: nat :: i < |f.succs[bb]| && d == f.succs[bb][i].dest && Detours(w, f, visited, bb, i, best)
                        && forall i': nat :: i' < i ==> !Detours(w, f, visited, bb, i', best)
  }

  method FindDetour(w: Weights, f: Flow, visited: map<Block, nat>, bb: Block, best: nat) returns (i: nat)
    requires bb in f.succs && best < |f.succs[bb]|
    ensures i < |f.succs[bb]| && (i == best || Detour(f, visited, bb, i, best))
    ensures ComesNext(w, f, visited, bb, best, f.succs[bb][i].dest)
  {
    hide Detour;
    i := 0;
    while i < |f.succs[bb]| && !Detours(w, f, visited, bb, i, best)
      invariant i <= |f.succs[bb]| && forall i': nat :: i' < i ==> !Detours(w, f, visited, bb, i', best)
    {
      i := i + 1;
    }
    if i == |f.succs[bb]| {
      i := best;
    }
  }

  /** The chosen edge `j` leads to an unvisited block; a short detour to that block may be taken first. */
  method FollowEdge(w: Weights, ghost f0: Flow, next: Block, s: State, ghost lay: Layout, k: nat, bb: Block, j: nat)
    returns (s': State, ghost lay': Layout, d: Block)
    requires bb in s.flow.succs && j < |s.flow.succs[bb]| && bb in s.flow.partition && |s.traces| == k + 1 == |lay.chains|
    requires Marked(f0, next, s, lay, k, bb, {s.flow.succs[bb][j].dest})
    requires Selectable(s.flow, s.marks.visited, bb, j, k + 1) && s.flow.succs[bb][j].dest !in s.marks.visited
    ensures Growing(f0, next, s', lay', k, d)
    ensures s'.bbd == s.bbd && |s'.traces| == k + 1 == |lay'.chains| && s'.marks.visited == s.marks.visited
    ensures ComesNext(w, s.flow, s.marks.visited, bb, j, d) && Extends(s, lay, s', lay', k)
  {
    hide Marked, Growing, ComesNext, Detour, Selectable;
    var best := FindDetour(w, s.flow, s.marks.visited, bb, j);
    d := s.flow.succs[bb][best].dest;
    s' := s.(marks := s.marks.(aux := s.marks.aux[bb := d]));
    lay' := lay.(chains := lay.chains[k := lay.chains[k] + [d]], owner := lay.owner[d := k]);
    FollowGrowing(f0, next, s, lay, k, bb, j, best);
  }

  /** The trace stops at its last block `bb`: nothing follows, or the best edge leads back. */
  lemma StopsHere(w: Weights, f0: Flow, next: Block, s: State, lay: Layout, k: nat, bb: Block, extra: set<Block>, round: nat,
                  visited': map<Block, nat>, c': seq<Block>)
    requires Marked(f0, next, s, lay, k, bb, extra) && |lay.chains| == k + 1
    requires GrownByCopies(f0, s.marks.visited, visited', k + 1) && bb in c'
    requires if Last(c') == bb then DeadEnd(w, s.flow, s.marks.visited, bb, k + 1, round) || LeadsBack(w, s.flow, s.marks.visited, bb, k + 1, round)
             else LeadsBack(w, s.flow, s.marks.visited, bb, k + 1, round)
    ensures Stopped(w, f0, visited', c', k + 1, round)
  {
    hide Marked, DeadEnd, Best, GrownByCopies, LeadsBack, Taken, WellFormed;
    StopFacts(f0, next, s, lay, k, bb, extra);
    var n, f, taken := k + 1, s.flow, Taken(f0, s.marks.visited, k + 1);
    CopiesTaken(f0, s.marks.visited, visited', n);
    TakenSuits(w, f0, f, s.marks.visited, bb, n, round);
    if LeadsBack(w, f, s.marks.visited, bb, n, round) {
      BackTaken(w, f0, f, s.marks.visited, bb, n, round);
    }
    assert StopsAt(w, f0, f, taken, c', bb, n, round);
  }

  lemma BackTaken(w: Weights, f0: Flow, f: Flow, visited: map<Block, nat>, bb: Block, n: nat, round: nat)
    requires WellFormed(f0.succs, f0.last) && bb in f0.succs && bb in f.succs && f.succs[bb] == f0.succs[bb] && bb in f.partition
    requires forall b :: b in visited ==> visited[b] <= n
    requires LeadsBack(w, f, visited, bb, n, round)
    ensures LeadsBack(w, f, Taken(f0, visited, n), bb, n, round)
  {
    TakenSuits(w, f0, f, visited, bb, n, round);
    hide Best, Taken, WellFormed, DeadEnd;
    var j: nat :| j < |f.succs[bb]| && f.succs[bb][j].dest in visited && Best(w, f, visited, bb, j, n, round, false);
    BestTaken(w, f0, f, visited, bb, j, n, round);
  }

  lemma CopiesTaken(f0: Flow, visited: map<Block, nat>, visited': map<Block, nat>, n: nat)
    requires GrownByCopies(f0, visited, visited', n)
    ensures Taken(f0, visited', n) == Taken(f0, visited, n)
  {
    GrownTaken(f0, visited, visited', n, n);
  }

  lemma BestTaken(w: Weights, f0: Flow, f: Flow, visited: map<Block, nat>, bb: Block, j: nat, n: nat, round: nat)
    requires WellFormed(f0.succs, f0.last) && bb in f0.succs && bb in f.succs && f.succs[bb] == f0.succs[bb]
    requires Best(w, f, visited, bb, j, n, round, false) && j < |f.succs[bb]| && f.succs[bb][j].dest in visited
    ensures f.succs[bb][j].dest in Taken(f0, visited, n)
  {
    assert Suitable(w, f, visited, bb, j, n, round);
  }

  lemma StopFacts(f0: Flow, next: Block, s: State, lay: Layout, k: nat, bb: Block, extra: set<Block>)
    requires Marked(f0, next, s, lay, k, bb, extra) && |lay.chains| == k + 1
    ensures WellFormed(f0.succs, f0.last) && bb in f0.succs && bb in s.flow.succs && s.flow.succs[bb] == f0.succs[bb] && bb in s.flow.partition
    ensures forall b :: b in s.marks.visited ==> s.marks.visited[b] <= k + 1
  {
    hide Frontier, Reachable, Complete, EndsInv, Edged, HeapsInv, CopiesOk;
  }

  /** What a turn of the loop that grows trace `k` does, once `bb` is marked and the state is `t`. */
  ghost predicate Turn(w: Weights, next: Block, t: State, lay: Layout, k: nat, bb: Block, round: nat, s': State, lay': Layout, bb': Block, more: bool) {
    bb in t.flow.succs && k < |lay.chains|
    && if more then
         exists j: nat :: j < |t.flow.succs[bb]| && Best(w, t.flow, t.marks.visited, bb, j, k + 1, round, false)
                          && t.flow.succs[bb][j].dest !in t.marks.visited && ComesNext(w, t.flow, t.marks.visited, bb, j, bb')
       else
         || (DeadEnd(w, t.flow, t.marks.visited, bb, k + 1, round) && s' == t && lay' == lay && bb' == bb)
         || exists j: nat :: j < |t.flow.succs[bb]| && Best(w, t.flow, t.marks.visited, bb, j, k + 1, round, false)
                             && t.flow.succs[bb][j].dest in t.marks.visited && EndsAtLoop(w, next, t, lay, k, bb, j, s', lay', bb')
  }

  /**
   * One turn of the loop that grows trace `k`: visits `bb`, sends its other successors to the heaps and
   * either follows the best edge to the next block or ends the trace.
   */
  method TraceStep(w: Weights, ghost f0: Flow, next: Block, s: State, ghost lay: Layout, k: nat, bb: Block, round: nat, rounds: nat)
    returns (s': State, ghost lay': Layout, bb': Block, more: bool, ghost t: State)
    requires Growing(f0, next, s, lay, k, bb) && |s.traces| == k + 1 == |lay.chains|
    ensures if more then Growing(f0, next, s', lay', k, bb') else Ended(f0, next, s', lay', k, bb')
    ensures |s'.traces| == k + 1 == |lay'.chains| && bb in f0.succs && bb !in s.marks.visited
    ensures bb in s'.marks.visited && s.marks.visited.Keys <= s'.marks.visited.Keys
    ensures round + 1 >= rounds && s.bbd.newHeap == {} ==> s'.bbd.newHeap == {}
    ensures t.flow == s.flow && t.marks == s.marks.(visited := s.marks.visited[bb := k + 1])
    ensures Turn(w, next, t, lay, k, bb, round, s', lay', bb', more)
    ensures Extends(s, lay, s', lay', k) && (!more ==> Stopped(w, f0, s'.marks.visited, lay'.chains[k], k + 1, round))
    ensures forall d :: d in s'.bbd.newHeap && d !in s.bbd.newHeap ==> Later(w, s.flow, round, d)
  {
    hide Growing, Ended, Marked, Seen, Best, DeadEnd, ComesNext, EndsAtLoop, Stopped, Grown, GrownByCopies;
    var marks, bbd := MarkVisited(s.marks, s.bbd, bb, k + 1);
    MarkGrowing(f0, next, s, lay, k, bb, marks, bbd);
    MarkedFacts(f0, next, State(s.flow, marks, bbd, s.traces), lay, k, bb, Dests(f0.succs[bb]));
    var best := SelectSuccessor(w, s.flow, marks.visited, bb, k + 1, round);
    var bbd2 := PushSuccessors(w, s.flow, marks.visited, bbd, bb, best, round, rounds);
    ghost var extra := if best.Some? then {s.flow.succs[bb][best.value].dest} else {};
    var length := s.traces[k].length + 1;
    PushMarked(f0, next, State(s.flow, marks, bbd, s.traces), lay, k, bb, bbd2, length, best);
    t := State(s.flow, marks, bbd2, s.traces[k := s.traces[k].(length := length)]);
    MarkExtends(s, lay, t, k, bb);
    BbMarked(f0, next, t, lay, k, bb, extra);
    if best.None? {
      s', lay', bb', more := State(s.flow, marks, bbd2, s.traces[k := s.traces[k].(length := length)]), lay, bb, false;
      MarkedEnds(f0, next, t, lay, k, bb);
      NoCopies(f0, t.marks.visited, k + 1);
      StopsHere(w, f0, next, t, lay, k, bb, extra, round, t.marks.visited, lay.chains[k]);
    } else {
      var d := s.flow.succs[bb][best.value].dest;
      s' := State(s.flow, marks, bbd2, s.traces[k := s.traces[k].(length := length)]);
      if d in marks.visited {
        more := false;
        s', lay', bb' := EndAtLoop(w, f0, next, s', lay, k, bb, best.value);
        assert LeadsBack(w, t.flow, t.marks.visited, bb, k + 1, round);
        StopsHere(w, f0, next, t, lay, k, bb, extra, round, s'.marks.visited, lay'.chains[k]);
      } else {
        more := true;
        s', lay', bb' := FollowEdge(w, f0, next, s', lay, k, bb, best.value);
      }
      ExtendsTwice(s, lay, t, lay, s', lay', k);
    }
  }

  lemma MarkExtends(s: State, lay: Layout, t: State, k: nat, bb: Block)
    requires |s.traces| == k + 1 == |lay.chains| && bb !in s.marks.visited && t.marks.visited == s.marks.visited[bb := k + 1]
    requires |t.traces| == k + 1 && t.traces[..k] == s.traces[..k] && t.traces[k].round == s.traces[k].round
    ensures Extends(s, lay, t, lay, k)
  {}

  lemma BbMarked(f0: Flow, next: Block, t: State, lay: Layout, k: nat, bb: Block, extra: set<Block>)
    requires Marked(f0, next, t, lay, k, bb, extra) && |lay.chains| == k + 1
    ensures bb in lay.chains[k] && Last(lay.chains[k]) == bb
  {
    hide GraphInv, Frontier, Reachable, Complete, OwnersVisited, EndsInv, Core, HasEdge;
    assert lay.chains[k] != [];
  }

  lemma NoCopies(f0: Flow, visited: map<Block, nat>, n: nat)
    ensures GrownByCopies(f0, visited, visited, n)
  {}

  /** Of the blocks of the trace, one is hot enough for the round when the trace is started with it. */
  ghost predicate Ripe(w: Weights, c: seq<Block>, round: nat, rounds: nat) {
    exists f: Flow, b: Block :: b in c && !(round + 1 < rounds && Later(w, f, round, b))
  }

  /** Every block there has been found not hot enough for the round. */
  ghost predicate AllLater(w: Weights, heap: set<Block>, round: nat) {
    forall b :: b in heap ==> exists f: Flow :: Later(w, f, round, b)
  }

  /** Grows a trace from `start`, which was just taken out of the heap. */
  method BuildTrace(w: Weights, ghost f0: Flow, next: Block, s: State, ghost lay: Layout, start: Block, round: nat, rounds: nat)
    returns (s': State, ghost lay': Layout)
    requires Idle(f0, next, s, lay, {start}) && |s.traces| == |lay.chains|
    requires start in f0.succs && start !in s.marks.visited && start != ENTRY && start != EXIT && Reachable(f0.succs, start)
    requires AllStopped(w, f0, s, lay)
    ensures Idle(f0, next, s', lay', {})
    ensures start in s'.marks.visited && s.marks.visited.Keys <= s'.marks.visited.Keys
    ensures round + 1 >= rounds && s.bbd.newHeap == {} ==> s'.bbd.newHeap == {}
    ensures s'.traces != [] && |s'.traces| == |lay'.chains| == |s.traces| + 1 && AllStopped(w, f0, s', lay')
    ensures s'.traces[..|s.traces|] == s.traces && lay'.chains[..|s.traces|] == lay.chains
    ensures s'.traces[|s.traces|].round == round && start in lay'.chains[|s.traces|]
    ensures AllLater(w, s.bbd.newHeap, round) ==> AllLater(w, s'.bbd.newHeap, round)
  {
    hide Growing, Ended, Idle, Reachable, Stopped, Grown, Turn, Later;
    var k, bb, more := |s.traces|, start, true;
    StartTrace(f0, next, s, lay, start, round);
    s' := s.(traces := s.traces + [Trace(start, start, round, 0)]);
    lay' := lay.(chains := lay.chains + [[start]], owner := lay.owner[start := k]);
    ghost var s1, lay1 := s', lay';
    NoneGrown(s'.marks.visited, k + 1);
    while more
      invariant if more then Growing(f0, next, s', lay', k, bb) else Ended(f0, next, s', lay', k, bb)
      invariant |s'.traces| == k + 1 == |lay'.chains| && s.marks.visited.Keys <= s'.marks.visited.Keys
      invariant start in s'.marks.visited || (more && bb == start)
      invariant round + 1 >= rounds && s.bbd.newHeap == {} ==> s'.bbd.newHeap == {}
      invariant Extends(s1, lay1, s', lay', k)
      invariant !more ==> Stopped(w, f0, s'.marks.visited, lay'.chains[k], k + 1, round)
      invariant AllLater(w, s.bbd.newHeap, round) ==> AllLater(w, s'.bbd.newHeap, round)
      decreases more, f0.succs.Keys - s'.marks.visited.Keys
    {
      ghost var s2, lay2, t := s', lay', s';
      s', lay', bb, more, t := TraceStep(w, f0, next, s', lay', k, bb, round, rounds);
      ExtendsTwice(s1, lay1, s2, lay2, s', lay', k);
    }
    EndTrace(f0, next, s', lay', k, bb);
    var bbd := s'.bbd.(startOfTrace := s'.bbd.startOfTrace[s'.traces[k].first := k], endOfTrace := s'.bbd.endOfTrace[bb := k]);
    s' := s'.(traces := s'.traces[k := s'.traces[k].(last := bb)], bbd := bbd);
    assert lay1.chains[..k] == lay.chains && s1.traces[..k] == s.traces && lay1.chains[k] == [start];
    StillStopped(w, f0, s, lay, s', lay', k + 1);
  }

  lemma NoneGrown(visited: map<Block, nat>, n: nat)
    ensures Grown(visited, visited, n)
  {}

  /** One round: every block in the heap starts a trace or is put off to the next round. */
  method FindTraces1Round(w: Weights, ghost f0: Flow, next: Block, s: State, ghost lay: Layout, round: nat, rounds: nat)
    returns (s': State, ghost lay': Layout)
    requires Idle(f0, next, s, lay, {}) && |s.traces| == |lay.chains| && s.bbd.newHeap == {} && AllStopped(w, f0, s, lay)
    ensures Idle(f0, next, s', lay', {}) && |s'.traces| == |lay'.chains| && s'.bbd.newHeap == {} && AllStopped(w, f0, s', lay')
    ensures round + 1 >= rounds ==> s'.bbd.heap == {}
    ensures s.traces != [] || s.bbd.heap != {} ==> s'.traces != [] || s'.bbd.heap != {}
    ensures |s.traces| <= |s'.traces| && AllLater(w, s'.bbd.heap, round)
    ensures forall k :: |s.traces| <= k < |s'.traces| ==> s'.traces[k].round == round && Ripe(w, lay'.chains[k], round, rounds)
  {
    hide Idle, Reachable, AllStopped, Ripe, Later;
    s', lay' := s, lay;
    while s'.bbd.heap != {}
      invariant Idle(f0, next, s', lay', {}) && |s'.traces| == |lay'.chains| && AllStopped(w, f0, s', lay')
      invariant round + 1 >= rounds ==> s'.bbd.newHeap == {}
      invariant s.traces != [] || s.bbd.heap != {} ==> s'.traces != [] || s'.bbd.heap != {} || s'.bbd.newHeap != {}
      invariant |s.traces| <= |s'.traces| && AllLater(w, s'.bbd.newHeap, round)
      invariant forall k :: |s.traces| <= k < |s'.traces| ==> s'.traces[k].round == round && Ripe(w, lay'.chains[k], round, rounds)
      decreases f0.succs.Keys - s'.marks.visited.Keys, s'.bbd.heap
    {
      var bb :| bb in s'.bbd.heap;
      Extract(f0, next, s', lay', bb);
      ghost var s1, lay1 := s', lay';
      if round + 1 < rounds && Later(w, s'.flow, round, bb) {
        s' := s'.(bbd := s'.bbd.(heap := s'.bbd.heap - {bb}, newHeap := s'.bbd.newHeap + {bb}));
        StoppedAlike(w, f0, s1, lay', s');
      } else {
        ghost var f := s'.flow;
        s' := s'.(bbd := s'.bbd.(heap := s'.bbd.heap - {bb}));
        StoppedAlike(w, f0, s1, lay', s');
        s', lay' := BuildTrace(w, f0, next, s', lay', bb, round, rounds);
        RipeWith(w, lay'.chains[|s1.traces|], round, rounds, f, bb);
        StillRipe(w, s1, lay1, s', lay', |s.traces|, round, rounds);
      }
    }
    NewHeapTakesOver(f0, next, s', lay');
    ghost var s2 := s';
    s' := s'.(bbd := s'.bbd.(heap := s'.bbd.newHeap, newHeap := {}));
    StoppedAlike(w, f0, s2, lay', s');
  }

  lemma StoppedAlike(w: Weights, f0: Flow, s: State, lay: Layout, s': State)
    requires AllStopped(w, f0, s, lay) && s'.traces == s.traces && s'.marks == s.marks
    ensures AllStopped(w, f0, s', lay)
  {
    hide Stopped;
  }

  lemma RipeWith(w: Weights, c: seq<Block>, round: nat, rounds: nat, f: Flow, b: Block)
    requires b in c && !(round + 1 < rounds && Later(w, f, round, b))
    ensures Ripe(w, c, round, rounds)
  {
    var t := Later(w, f, round, b);
  }

  lemma StillRipe(w: Weights, s: State, lay: Layout, s': State, lay': Layout, from: nat, round: nat, rounds: nat)
    requires |s.traces| == |lay.chains| && |s'.traces| == |lay'.chains| == |s.traces| + 1
    requires s'.traces[..|s.traces|] == s.traces && lay'.chains[..|s.traces|] == lay.chains
    requires s'.traces[|s.traces|].round == round && Ripe(w, lay'.chains[|s.traces|], round, rounds)
    requires forall k :: from <= k < |s.traces| ==> s.traces[k].round == round && Ripe(w, lay.chains[k], round, rounds)
    ensures forall k :: from <= k < |s'.traces| ==> s'.traces[k].round == round && Ripe(w, lay'.chains[k], round, rounds)
  {
    hide Ripe;
    forall k | from <= k < |s'.traces|
      ensures s'.traces[k].round == round && Ripe(w, lay'.chains[k], round, rounds)
    {
      if k < |s.traces| {
        assert s'.traces[k] == s.traces[k] && lay'.chains[k] == lay.chains[k];
      }
    }
  }

  /** The state before the pass: no links, no marks, nothing in the heaps. */
  ghost predicate Initial(f0: Flow) {
    && WellFormed(f0.succs, f0.last) && f0.partition.Keys == f0.succs.Keys && CrossingMarked(f0.succs, f0.partition)
    && |f0.succs[ENTRY]| > 0 && (forall j :: 0 <= j < |f0.succs[ENTRY]| ==> f0.succs[ENTRY][j].dest != EXIT)
  }

  method FindTraces(w: Weights, f0: Flow, next: Block) returns (s: State, ghost lay: Layout)
    requires Initial(f0)
    ensures Idle(f0, next, s, lay, {}) && |s.traces| == |lay.chains| && s.traces != []
    ensures s.bbd.heap == {} && s.bbd.newHeap == {} && AllStopped(w, f0, s, lay)
  {
    hide Idle, Stopped;
    var heap: set<Block> := {};
    var entryEdges := f0.succs[ENTRY];
    for j := 0 to |entryEdges|
      invariant heap == set i | 0 <= i < j :: entryEdges[i].dest
    {
      heap := heap + {entryEdges[j].dest};
    }
    s := State(f0, Marks(map[], map[]), Bbd(heap, {}, map[], map[]), []);
    lay := Layout([], map[], map[]);
    InitialIdle(f0, next, s, lay);
    assert entryEdges[0].dest in heap;
    var rounds := N_ROUNDS - 1;
    for i := 0 to rounds
      invariant Idle(f0, next, s, lay, {}) && |s.traces| == |lay.chains| && s.bbd.newHeap == {}
      invariant i == rounds ==> s.bbd.heap == {}
      invariant (s.traces != [] || s.bbd.heap != {}) && AllStopped(w, f0, s, lay)
    {
      s, lay := FindTraces1Round(w, f0, next, s, lay, i, rounds);
    }
  }
}
