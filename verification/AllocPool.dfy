/** A pool of equally large elements, taken from blocks and kept on two free lists. */
module AllocPool {
  // ---- sizes ----

  /** The size of a pointer, which is all that a list header holds. */
  const POINTER_SIZE: nat := 8

  function AlignEight(x: nat): (r: nat)
    ensures x <= r < x + 8 && r % 8 == 0
  {
    (x + 7) / 8 * 8
  }

  const HEADER_SIZE: nat := AlignEight(POINTER_SIZE)

  // ---- memory ----

  /** One block of memory, known by its identity and its size in bytes. */
  class Chunk {
    const size: nat

    constructor (size: nat)
      ensures this.size == size
    {
      this.size := size;
    }
  }

  /** An element, by the block it is in and where it starts there. */
  datatype Slot = Slot(chunk: Chunk, offset: nat)

  datatype Link = End | To(slot: Slot)

  datatype Next = NoBlock | Block(chunk: Chunk)

  /** What the blocks hold as far as the pool writes it: the list of blocks at their heads, and links in free elements. */
  class Memory {
    var next: map<Chunk, Next>
    var link: map<Slot, Link>
    ghost var outstanding: set<Chunk>

    constructor ()
      ensures outstanding == {}
    {
      next, link, outstanding := map[], map[], {};
    }

    method Allocate(size: nat) returns (c: Chunk)
      modifies this
      ensures fresh(c) && c.size == size && outstanding == old(outstanding) + {c}
      ensures next == old(next) && link == old(link)
    {
      c := new Chunk(size);
      outstanding := outstanding + {c};
    }

    method Free(c: Chunk)
      requires c in outstanding
      modifies this
      ensures outstanding == old(outstanding) - {c}
      ensures next == old(next) && link == old(link)
    {
      outstanding := outstanding - {c};
    }
  }

  /** From `head` on, the links run through these elements and end there. */
  ghost predicate Threaded(head: Link, slots: seq<Slot>, link: map<Slot, Link>)
    decreases slots
  {
    if slots == [] then head == End
    else head == To(slots[0]) && slots[0] in link && Threaded(link[slots[0]], slots[1..], link)
  }

  ghost predicate Chained(head: Next, chunks: seq<Chunk>, next: map<Chunk, Next>)
    decreases chunks
  {
    if chunks == [] then head == NoBlock
    else head == Block(chunks[0]) && chunks[0] in next && Chained(next[chunks[0]], chunks[1..], next)
  }

  lemma {:induction false} ThreadedStill(head: Link, slots: seq<Slot>, link: map<Slot, Link>, s: Slot, to: Link)
    requires Threaded(head, slots, link) && s !in slots
    ensures Threaded(head, slots, link[s := to])
    decreases slots
  {
    if slots != [] {
      ThreadedStill(link[slots[0]], slots[1..], link, s, to);
    }
  }

  lemma {:induction false} ChainedStill(head: Next, chunks: seq<Chunk>, next: map<Chunk, Next>, c: Chunk, to: Next)
    requires Chained(head, chunks, next) && c !in chunks
    ensures Chained(head, chunks, next[c := to])
    decreases chunks
  {
    if chunks != [] {
      ChainedStill(next[chunks[0]], chunks[1..], next, c, to);
    }
  }

  lemma ThreadedMore(head: Link, slots: seq<Slot>, link: map<Slot, Link>, s: Slot)
    requires Threaded(head, slots, link) && s !in slots
    ensures Threaded(To(s), [s] + slots, link[s := head])
  {
    ThreadedStill(head, slots, link, s, head);
    assert ([s] + slots)[1..] == slots;
  }

  lemma ChainedMore(head: Next, chunks: seq<Chunk>, next: map<Chunk, Next>, c: Chunk)
    requires Chained(head, chunks, next) && c !in chunks
    ensures Chained(Block(c), [c] + chunks, next[c := head])
  {
    ChainedStill(head, chunks, next, c, head);
    assert ([c] + chunks)[1..] == chunks;
  }

  function Offset(eltSize: nat, i: nat): nat {
    HEADER_SIZE + i * eltSize
  }

  /** Different elements of a block are a whole element apart, and each lies inside the block. */
  lemma Apart(eltSize: nat, i: nat, j: nat, num: nat)
    requires i < j < num
    ensures Offset(eltSize, i) + eltSize <= Offset(eltSize, j)
    ensures Offset(eltSize, j) + eltSize <= eltSize * num + HEADER_SIZE
  {
    Times(i + 1, j, eltSize);
    Times(j + 1, num, eltSize);
  }

  lemma Times(a: nat, b: nat, s: nat)
    requires a <= b
    ensures a * s <= b * s
  {}

  lemma OffsetsDiffer(eltSize: nat, i: nat, j: nat)
    requires eltSize > 0 && Offset(eltSize, i) == Offset(eltSize, j)
    ensures i == j
  {
    if i < j {
      Apart(eltSize, i, j, j + 1);
    } else if j < i {
      Apart(eltSize, j, i, i + 1);
    }
  }

  /** The elements of one block from the `first` on. */
  ghost function Elements(c: Chunk, eltSize: nat, first: nat, num: nat): set<Slot> {
    set i | first <= i < num :: Slot(c, Offset(eltSize, i))
  }

  ghost function AllElements(chunks: seq<Chunk>, eltSize: nat, num: nat): set<Slot> {
    if chunks == [] then {} else Elements(chunks[0], eltSize, 0, num) + AllElements(chunks[1..], eltSize, num)
  }

  lemma {:induction false} ElementsOf(chunks: seq<Chunk>, eltSize: nat, num: nat, s: Slot)
    requires s in AllElements(chunks, eltSize, num)
    ensures s.chunk in chunks && exists i :: 0 <= i < num && s.offset == Offset(eltSize, i)
  {
    if s !in Elements(chunks[0], eltSize, 0, num) {
      ElementsOf(chunks[1..], eltSize, num, s);
    }
  }

  /** Just the next one is taken off the elements of a block. */
  lemma FirstElement(c: Chunk, eltSize: nat, first: nat, num: nat)
    requires first < num && eltSize > 0
    ensures Elements(c, eltSize, first, num) == {Slot(c, Offset(eltSize, first))} + Elements(c, eltSize, first + 1, num)
    ensures Slot(c, Offset(eltSize, first)) !in Elements(c, eltSize, first + 1, num)
  {
    hide Offset;
    if Slot(c, Offset(eltSize, first)) in Elements(c, eltSize, first + 1, num) {
      var i :| first + 1 <= i < num && Offset(eltSize, i) == Offset(eltSize, first);
      OffsetsDiffer(eltSize, i, first);
    }
  }

  lemma NextOffset(eltSize: nat, i: nat)
    ensures Offset(eltSize, i) + eltSize == Offset(eltSize, i + 1)
  {}

  lemma NewBlockElements(c: Chunk, chunks: seq<Chunk>, eltSize: nat, num: nat)
    requires c !in chunks
    ensures AllElements([c] + chunks, eltSize, num) == Elements(c, eltSize, 0, num) + AllElements(chunks, eltSize, num)
    ensures Elements(c, eltSize, 0, num) !! AllElements(chunks, eltSize, num)
  {
    assert ([c] + chunks)[1..] == chunks;
    forall s | s in AllElements(chunks, eltSize, num)
      ensures s.chunk != c
    {
      ElementsOf(chunks, eltSize, num, s);
    }
  }

  ghost function Members(slots: seq<Slot>): set<Slot> {
    set s | s in slots
  }

  /** Elements in use, on the list of returned ones, and never used yet: all there are, and each just once. */
  ghost predicate Parted(all: set<Slot>, live: set<Slot>, returned: seq<Slot>, virgin: set<Slot>) {
    && all == live + Members(returned) + virgin
    && live !! Members(returned) && live !! virgin && Members(returned) !! virgin
    && (forall j, k :: 0 <= j < k < |returned| ==> returned[j] != returned[k])
  }

  /** What the counters say: the free elements, and the elements in all blocks, in use or free. */
  ghost predicate Counted(blocks: nat, total: nat, free: nat, perBlock: nat, chunks: nat, returned: nat, virgin: nat, live: nat) {
    && blocks == chunks && total == blocks * perBlock && free == returned + virgin && live + free == total
  }

  lemma CountedBlock(blocks: nat, total: nat, free: nat, perBlock: nat, chunks: nat, returned: nat, live: nat)
    requires Counted(blocks, total, free, perBlock, chunks, returned, 0, live)
    ensures Counted(blocks + 1, total + perBlock, free + perBlock, perBlock, chunks + 1, returned, perBlock, live)
  {}

  /** Different blocks of the right size. */
  ghost predicate Blocks(chunks: seq<Chunk>, size: nat) {
    && (forall j, k :: 0 <= j < k < |chunks| ==> chunks[j] != chunks[k])
    && (forall c :: c in chunks ==> c.size == size)
  }

  lemma BlocksMore(chunks: seq<Chunk>, size: nat, c: Chunk)
    requires Blocks(chunks, size) && c !in chunks && c.size == size
    ensures Blocks([c] + chunks, size)
  {}

  /** Just the blocks not among those left have been given back. */
  ghost predicate GivenBack(outstanding: set<Chunk>, outstanding': set<Chunk>, chunks: seq<Chunk>, left: seq<Chunk>) {
    && outstanding' == outstanding - (set c | c in chunks && c !in left)
    && forall c :: c in left ==> c in chunks && c in outstanding
  }

  lemma NoneGivenBack(outstanding: set<Chunk>, chunks: seq<Chunk>)
    requires forall c :: c in chunks ==> c in outstanding
    ensures GivenBack(outstanding, outstanding, chunks, chunks)
  {}

  lemma OneGivenBack(outstanding: set<Chunk>, outstanding': set<Chunk>, chunks: seq<Chunk>, left: seq<Chunk>, size: nat)
    requires GivenBack(outstanding, outstanding', chunks, left) && left != [] && Blocks(left, size)
    ensures left[0] in outstanding' && Blocks(left[1..], size)
    ensures GivenBack(outstanding, outstanding' - {left[0]}, chunks, left[1..])
  {
    assert left == [left[0]] + left[1..];
    assert left[0] !in left[1..];
  }

  lemma AllGivenBack(outstanding: set<Chunk>, outstanding': set<Chunk>, chunks: seq<Chunk>, left: seq<Chunk>)
    requires GivenBack(outstanding, outstanding', chunks, left)
    ensures left == [] ==> outstanding' == outstanding - set c | c in chunks
  {}

  class Pool {
    const eltSize: nat
    const eltsPerBlock: nat
    const blockSize: nat
    var returnedFreeList: Link
    var virginFreeList: Link
    var virginEltsRemaining: nat
    var eltsAllocated: nat
    var eltsFree: nat
    var blocksAllocated: nat
    var blockList: Next
    ghost var chunks: seq<Chunk>
    ghost var returned: seq<Slot>
    ghost var live: set<Slot>

    /** The elements never handed out yet: the last ones of the newest block. */
    ghost function Virgin(): set<Slot>
      reads this
    {
      if chunks == [] || virginEltsRemaining > eltsPerBlock then {}
      else Elements(chunks[0], eltSize, eltsPerBlock - virginEltsRemaining, eltsPerBlock)
    }

    ghost predicate Sized() {
      eltsPerBlock > 0 && eltSize >= POINTER_SIZE && eltSize % 8 == 0 && blockSize == eltSize * eltsPerBlock + HEADER_SIZE
    }

    /** Where the next element never handed out is. */
    ghost predicate VirginOk()
      reads this
    {
      && virginEltsRemaining <= eltsPerBlock && (chunks == [] ==> virginEltsRemaining == 0)
      && (virginEltsRemaining > 0 ==> virginFreeList == To(Slot(chunks[0], Offset(eltSize, eltsPerBlock - virginEltsRemaining))))
    }

    /** The blocks, their elements and their number, as far as no free list is concerned. */
    ghost predicate Parts(next: map<Chunk, Next>)
      reads this
    {
      && Blocks(chunks, blockSize) && Chained(blockList, chunks, next)
      && Counted(blocksAllocated, eltsAllocated, eltsFree, eltsPerBlock, |chunks|, |returned|, virginEltsRemaining, |live|)
      && Parted(AllElements(chunks, eltSize, eltsPerBlock), live, returned, Virgin())
    }

    ghost predicate Valid(m: Memory)
      reads this, m
    {
      && Sized() && VirginOk() && Parts(m.next) && (forall c :: c in chunks ==> c in m.outstanding)
      && Threaded(returnedFreeList, returned, m.link)
    }

    /** A pool of elements of at least `size` bytes, `num` to a block, and no block yet. */
    constructor (size: nat, num: nat, m: Memory)
      requires num > 0
      ensures Valid(m) && live == {} && chunks == [] && eltsPerBlock == num
      ensures eltSize >= size && eltSize >= POINTER_SIZE && eltSize % 8 == 0
      ensures eltSize < (if size < POINTER_SIZE then POINTER_SIZE else size) + 8
    {
      var elt := AlignEight(if size < POINTER_SIZE then POINTER_SIZE else size);
      eltSize, eltsPerBlock, blockSize := elt, num, elt * num + HEADER_SIZE;
      returnedFreeList, virginFreeList, virginEltsRemaining := End, End, 0;
      eltsAllocated, eltsFree, blocksAllocated, blockList := 0, 0, 0, NoBlock;
      chunks, returned, live := [], [], {};
    }

    /** Puts a new block at the head of the list; its elements have never been handed out. */
    method NewBlock(m: Memory)
      requires Valid(m) && virginEltsRemaining == 0
      modifies this, m
      ensures Valid(m) && |chunks| > 0 && chunks == [chunks[0]] + old(chunks) && chunks[0] !in old(m.outstanding)
      ensures m.outstanding == old(m.outstanding) + {chunks[0]} && m.link == old(m.link)
      ensures virginEltsRemaining == eltsPerBlock && returned == old(returned) && live == old(live)
      ensures eltsFree == old(eltsFree) + eltsPerBlock && eltsAllocated == old(eltsAllocated) + eltsPerBlock
      ensures blocksAllocated == old(blocksAllocated) + 1
    {
      hide Elements, AllElements, Parted, Threaded, Chained, Offset, Counted, Blocks, Virgin, VirginOk;
      var c := m.Allocate(blockSize);
      WithBlock(this, m.next, c);
      m.next := m.next[c := blockList];
      blockList := Block(c);
      chunks := [c] + chunks;
      virginFreeList := To(Slot(c, HEADER_SIZE));
      virginEltsRemaining := eltsPerBlock;
      eltsAllocated := eltsAllocated + eltsPerBlock;
      eltsFree := eltsFree + eltsPerBlock;
      blocksAllocated := blocksAllocated + 1;
      NewVirgin(this, c);
    }

    /** Takes the first of the elements never handed out and makes it the only one on the returned list. */
    method TakeVirgin(m: Memory)
      requires Valid(m) && returned == [] && virginEltsRemaining > 0
      modifies this, m
      ensures Valid(m) && |returned| == 1 && live == old(live) && chunks == old(chunks)
      ensures virginEltsRemaining == old(virginEltsRemaining) - 1 && m.outstanding == old(m.outstanding)
      ensures eltsFree == old(eltsFree) && eltsAllocated == old(eltsAllocated) && blocksAllocated == old(blocksAllocated)
    {
      hide Elements, AllElements, Parted, Offset, Threaded, Chained, Blocks;
      ghost var first := eltsPerBlock - virginEltsRemaining;
      ghost var all := AllElements(chunks, eltSize, eltsPerBlock);
      var slot := virginFreeList.slot;
      FirstElement(chunks[0], eltSize, first, eltsPerBlock);
      NextOffset(eltSize, first);
      PartedTakes(all, live, Virgin(), Elements(chunks[0], eltSize, first + 1, eltsPerBlock), slot);
      ThreadedOne(slot, m.link);
      m.link := m.link[slot := End];
      returnedFreeList := To(slot);
      virginFreeList := To(Slot(slot.chunk, slot.offset + eltSize));
      virginEltsRemaining := virginEltsRemaining - 1;
      returned := [slot];
    }

    /** Puts one element on the empty returned list, from a new block if need be. */
    method FillReturned(m: Memory)
      requires Valid(m) && returned == []
      modifies this, m
      ensures Valid(m) && |returned| == 1 && live == old(live)
      ensures if old(virginEltsRemaining) == 0
              then chunks != [] && chunks == [chunks[0]] + old(chunks) && chunks[0] !in old(m.outstanding)
                   && m.outstanding == old(m.outstanding) + {chunks[0]} && eltsAllocated == old(eltsAllocated) + eltsPerBlock
                   && blocksAllocated == old(blocksAllocated) + 1
              else chunks == old(chunks) && m.outstanding == old(m.outstanding) && eltsAllocated == old(eltsAllocated)
                   && blocksAllocated == old(blocksAllocated)
      ensures eltsFree == old(eltsFree) + (eltsAllocated - old(eltsAllocated))
      ensures virginEltsRemaining + 1 == if old(virginEltsRemaining) == 0 then eltsPerBlock else old(virginEltsRemaining)
    {
      hide Valid;
      if virginEltsRemaining == 0 {
        NewBlock(m);
        PerBlock(this, m);
      }
      TakeVirgin(m);
    }

    /** Takes the first of the returned elements. */
    method TakeReturned(m: Memory) returns (slot: Slot)
      requires Valid(m) && returned != []
      modifies this
      ensures Valid(m) && slot == old(returned[0]) && slot !in old(live) && live == old(live) + {slot}
      ensures returned == old(returned[1..]) && chunks == old(chunks) && virginEltsRemaining == old(virginEltsRemaining)
      ensures eltsFree + 1 == old(eltsFree) && eltsAllocated == old(eltsAllocated) && blocksAllocated == old(blocksAllocated)
    {
      hide Elements, AllElements, Parted, Offset, Chained, Blocks, Threaded, Counted;
      WithoutHead(this, m);
      slot := returnedFreeList.slot;
      returnedFreeList := m.link[slot];
      eltsFree := eltsFree - 1;
      live := live + {slot};
      returned := returned[1..];
    }

    /** An element that is not in use; from now on it is, and no other element changes its state. */
    method PoolAlloc(m: Memory) returns (slot: Slot)
      requires Valid(m)
      modifies this, m
      ensures Valid(m) && slot !in old(live) && live == old(live) + {slot}
      ensures old(returned) != [] ==> slot == old(returned[0]) && returned == old(returned[1..])
      ensures old(returned) == [] ==> returned == []
      ensures if old(returned) == [] && old(virginEltsRemaining) == 0
              then chunks != [] && chunks == [chunks[0]] + old(chunks) && chunks[0] !in old(m.outstanding)
                   && m.outstanding == old(m.outstanding) + {chunks[0]} && eltsAllocated == old(eltsAllocated) + eltsPerBlock
                   && blocksAllocated == old(blocksAllocated) + 1
              else chunks == old(chunks) && m.outstanding == old(m.outstanding) && eltsAllocated == old(eltsAllocated)
                   && blocksAllocated == old(blocksAllocated)
      ensures eltsFree + 1 == old(eltsFree) + (eltsAllocated - old(eltsAllocated))
      ensures if old(returned) != [] then virginEltsRemaining == old(virginEltsRemaining)
              else virginEltsRemaining + 1 == if old(virginEltsRemaining) == 0 then eltsPerBlock else old(virginEltsRemaining)
    {
      hide Valid;
      HeadEnds(this, m);
      if returnedFreeList.End? {
        FillReturned(m);
      }
      slot := TakeReturned(m);
    }

    /** An element in use is put back, at the head of the returned ones. */
    method PoolFree(ptr: Slot, m: Memory)
      requires Valid(m) && ptr in live
      modifies this, m
      ensures Valid(m) && live == old(live) - {ptr} && returned == [ptr] + old(returned) && chunks == old(chunks)
      ensures eltsFree == old(eltsFree) + 1 && eltsAllocated == old(eltsAllocated) && m.outstanding == old(m.outstanding)
      ensures virginEltsRemaining == old(virginEltsRemaining) && blocksAllocated == old(blocksAllocated)
    {
      hide Elements, AllElements, Parted, Offset, Chained, Threaded, Blocks;
      ghost var all := AllElements(chunks, eltSize, eltsPerBlock);
      PartedFree(all, live, returned, Virgin(), ptr);
      ThreadedMore(returnedFreeList, returned, m.link, ptr);
      m.link := m.link[ptr := returnedFreeList];
      returnedFreeList := To(ptr);
      eltsFree := eltsFree + 1;
      live := live - {ptr};
      returned := [ptr] + returned;
    }

    /** All the blocks go back to the system, each just once, and the pool is as it was made. */
    method EmptyAllocPool(m: Memory)
      requires Valid(m)
      modifies this, m
      ensures Valid(m) && live == {} && returned == [] && chunks == []
      ensures m.outstanding == old(m.outstanding) - set c | c in old(chunks)
      ensures eltsFree == 0 && eltsAllocated == 0 && blocksAllocated == 0 && virginEltsRemaining == 0
    {
      hide Parted, Threaded, Counted, VirginOk, Blocks, GivenBack;
      OldChunks(m);
      NoneGivenBack(m.outstanding, chunks);
      var block := blockList;
      ghost var left := chunks;
      while block != NoBlock
        invariant blockList == old(blockList) && chunks == old(chunks) && m.next == old(m.next)
        invariant Chained(block, left, m.next) && Blocks(left, blockSize)
        invariant GivenBack(old(m.outstanding), m.outstanding, chunks, left)
        decreases |left|
      {
        var nextBlock := m.next[block.chunk];
        OneGivenBack(old(m.outstanding), m.outstanding, chunks, left, blockSize);
        m.Free(block.chunk);
        block := nextBlock;
        left := left[1..];
      }
      AllGivenBack(old(m.outstanding), m.outstanding, chunks, left);
      Reset(m);
    }

    method Reset(m: Memory)
      requires Sized()
      modifies this
      ensures Valid(m) && live == {} && returned == [] && chunks == []
      ensures eltsFree == 0 && eltsAllocated == 0 && blocksAllocated == 0 && virginEltsRemaining == 0
    {
      hide Parts;
      returnedFreeList, virginFreeList, virginEltsRemaining := End, End, 0;
      eltsAllocated, eltsFree, blocksAllocated, blockList := 0, 0, 0, NoBlock;
      chunks, returned, live := [], [], {};
      NoParts(this, m.next);
    }

    lemma OldChunks(m: Memory)
      requires Valid(m)
      ensures forall c :: c in chunks ==> c in m.outstanding
    {}
  }

  /** Gives the pool up when none of its elements is in use, and only then. */
  method FreeAllocPoolIfEmpty(pool: Pool, m: Memory) returns (r: Pool?)
    requires pool.Valid(m)
    modifies pool, m
    ensures r == null <==> old(pool.live) == {}
    ensures r == null ==> m.outstanding == old(m.outstanding) - set c | c in old(pool.chunks)
    ensures r != null ==> r == pool && pool.Valid(m) && pool.live == old(pool.live) && m.outstanding == old(m.outstanding)
  {
    NoneLive(pool, m);
    hide Pool.Valid;
    if pool.eltsFree == pool.eltsAllocated {
      pool.EmptyAllocPool(m);
      r := null;
    } else {
      r := pool;
    }
  }

  // ---- what the invariant gives ----

  lemma ThreadedEnds(head: Link, slots: seq<Slot>, link: map<Slot, Link>)
    requires Threaded(head, slots, link)
    ensures head == End <==> slots == []
  {}

  lemma ThreadedOne(s: Slot, link: map<Slot, Link>)
    ensures Threaded(To(s), [s], link[s := End])
  {}

  lemma ThreadHead(head: Link, slots: seq<Slot>, link: map<Slot, Link>)
    requires Threaded(head, slots, link) && slots != []
    ensures head == To(slots[0]) && slots[0] in link && Threaded(link[slots[0]], slots[1..], link)
  {}

  /** The lists, the elements and the counts when the first returned element is in use. */
  lemma WithoutHead(pool: Pool, m: Memory)
    requires pool.Valid(m) && pool.returned != []
    ensures var r, all := pool.returned, AllElements(pool.chunks, pool.eltSize, pool.eltsPerBlock);
            && pool.returnedFreeList == To(r[0]) && r[0] in m.link && Threaded(m.link[r[0]], r[1..], m.link)
            && Parted(all, pool.live + {r[0]}, r[1..], pool.Virgin()) && r[0] !in pool.live && pool.eltsFree > 0
            && Counted(pool.blocksAllocated, pool.eltsAllocated, pool.eltsFree - 1, pool.eltsPerBlock, |pool.chunks|,
                       |r[1..]|, pool.virginEltsRemaining, |pool.live + {r[0]}|)
  {
    hide Elements, AllElements, Parted, Offset, Chained, Blocks, Threaded, Pool.Virgin, Pool.VirginOk;
    ThreadHead(pool.returnedFreeList, pool.returned, m.link);
    PartedAlloc(AllElements(pool.chunks, pool.eltSize, pool.eltsPerBlock), pool.live, pool.returned, pool.Virgin());
  }

  lemma HeadEnds(pool: Pool, m: Memory)
    requires pool.Valid(m)
    ensures pool.returnedFreeList == End <==> pool.returned == []
  {
    ThreadedEnds(pool.returnedFreeList, pool.returned, m.link);
  }

  lemma PerBlock(pool: Pool, m: Memory)
    requires pool.Valid(m)
    ensures pool.eltsPerBlock > 0
  {}

  /** An element in use lies in one of the blocks, with its whole length. */
  lemma LiveInside(pool: Pool, m: Memory, s: Slot)
    requires pool.Valid(m) && s in pool.live
    ensures s.chunk in pool.chunks && s.chunk.size == pool.blockSize
    ensures HEADER_SIZE <= s.offset && s.offset + pool.eltSize <= pool.blockSize
  {
    hide Offset;
    assert s in AllElements(pool.chunks, pool.eltSize, pool.eltsPerBlock);
    ElementsOf(pool.chunks, pool.eltSize, pool.eltsPerBlock, s);
    var i :| 0 <= i < pool.eltsPerBlock && s.offset == Offset(pool.eltSize, i);
    InBlock(pool.eltSize, i, pool.eltsPerBlock);
  }

  lemma InBlock(eltSize: nat, i: nat, num: nat)
    requires i < num
    ensures HEADER_SIZE <= Offset(eltSize, i) && Offset(eltSize, i) + eltSize <= eltSize * num + HEADER_SIZE
  {
    Times(i + 1, num, eltSize);
  }

  /** Two elements in use are in different blocks, or one ends before the other starts. */
  lemma LiveApart(pool: Pool, m: Memory, s: Slot, u: Slot)
    requires pool.Valid(m) && s in pool.live && u in pool.live && s != u
    ensures s.chunk != u.chunk || s.offset + pool.eltSize <= u.offset || u.offset + pool.eltSize <= s.offset
  {
    hide Offset, Elements, AllElements;
    var size, num := pool.eltSize, pool.eltsPerBlock;
    assert s in AllElements(pool.chunks, size, num) && u in AllElements(pool.chunks, size, num);
    ElementsOf(pool.chunks, size, num, s);
    ElementsOf(pool.chunks, size, num, u);
    var i :| 0 <= i < num && s.offset == Offset(size, i);
    var j :| 0 <= j < num && u.offset == Offset(size, j);
    if i < j {
      Apart(size, i, j, num);
    } else if j < i {
      Apart(size, j, i, num);
    }
  }

  /** Nothing is in use exactly when as many elements are free as there are. */
  lemma NoneLive(pool: Pool, m: Memory)
    requires pool.Valid(m)
    ensures pool.live == {} <==> pool.eltsFree == pool.eltsAllocated
  {}

  lemma NoneVirgin(pool: Pool)
    requires pool.virginEltsRemaining == 0
    ensures pool.Virgin() == {}
  {}

  /** The lists, the elements and the counts with one more block at the head. */
  lemma WithBlock(pool: Pool, next: map<Chunk, Next>, c: Chunk)
    requires pool.Parts(next) && pool.virginEltsRemaining == 0 && c !in pool.chunks && c.size == pool.blockSize
    ensures var chunks, size, num := pool.chunks, pool.eltSize, pool.eltsPerBlock;
            && Chained(Block(c), [c] + chunks, next[c := pool.blockList]) && Blocks([c] + chunks, pool.blockSize)
            && Parted(AllElements([c] + chunks, size, num), pool.live, pool.returned, Elements(c, size, 0, num))
            && Counted(pool.blocksAllocated + 1, pool.eltsAllocated + num, pool.eltsFree + num, num, |[c] + chunks|,
                       |pool.returned|, num, |pool.live|)
  {
    hide Elements, AllElements, Parted, Chained, Counted, Blocks;
    var chunks, size, num := pool.chunks, pool.eltSize, pool.eltsPerBlock;
    NoneVirgin(pool);
    NewBlockElements(c, chunks, size, num);
    PartedMore(AllElements(chunks, size, num), pool.live, pool.returned, Elements(c, size, 0, num));
    ChainedMore(pool.blockList, chunks, next, c);
    BlocksMore(chunks, pool.blockSize, c);
    CountedBlock(pool.blocksAllocated, pool.eltsAllocated, pool.eltsFree, num, |chunks|, |pool.returned|, |pool.live|);
  }

  lemma NoParts(pool: Pool, next: map<Chunk, Next>)
    requires pool.chunks == [] && pool.returned == [] && pool.live == {} && pool.blockList == NoBlock
    requires pool.blocksAllocated == pool.eltsAllocated == pool.eltsFree == pool.virginEltsRemaining == 0
    ensures pool.Parts(next)
  {}

  lemma NewVirgin(pool: Pool, c: Chunk)
    requires pool.chunks != [] && pool.chunks[0] == c && pool.virginEltsRemaining == pool.eltsPerBlock
    requires pool.virginFreeList == To(Slot(c, HEADER_SIZE))
    ensures pool.VirginOk() && pool.Virgin() == Elements(c, pool.eltSize, 0, pool.eltsPerBlock)
  {
    hide Elements;
  }

  lemma PartedMore(all: set<Slot>, live: set<Slot>, returned: seq<Slot>, more: set<Slot>)
    requires Parted(all, live, returned, {}) && more !! all
    ensures Parted(more + all, live, returned, more)
  {}

  lemma PartedTakes(all: set<Slot>, live: set<Slot>, virgin: set<Slot>, rest: set<Slot>, slot: Slot)
    requires Parted(all, live, [], virgin) && virgin == {slot} + rest && slot !in rest
    ensures Parted(all, live, [slot], rest) && slot in all
  {
    assert Members([slot]) == {slot};
  }

  lemma PartedAlloc(all: set<Slot>, live: set<Slot>, returned: seq<Slot>, virgin: set<Slot>)
    requires Parted(all, live, returned, virgin) && returned != []
    ensures Parted(all, live + {returned[0]}, returned[1..], virgin)
    ensures returned[0] !in live && |live + {returned[0]}| == |live| + 1
  {
    assert returned == [returned[0]] + returned[1..];
    assert Members(returned) == {returned[0]} + Members(returned[1..]);
  }

  lemma PartedFree(all: set<Slot>, live: set<Slot>, returned: seq<Slot>, virgin: set<Slot>, slot: Slot)
    requires Parted(all, live, returned, virgin) && slot in live
    ensures Parted(all, live - {slot}, [slot] + returned, virgin)
    ensures |live - {slot}| == |live| - 1 && slot !in returned
  {
    assert Members([slot] + returned) == {slot} + Members(returned);
    assert live == (live - {slot}) + {slot};
  }
}
