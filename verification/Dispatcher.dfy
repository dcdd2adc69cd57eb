/** GlobalDispatch of Allocators/SlabMultiDispatcher.h: superblocks cut into slab-sized blocks that are
    handed out from the back of a stack, and the tables of size classes. */
module Dispatcher {
  import opened Common
  import opened Indices
  import SC = SlabCache
  import SlabCacheObject

  const SUPERBLOCK_SIZE: nat := 0x10_0000
  const SLAB_SIZE: nat := 0x4000
  const INIT_SUPERBLOCKS: nat := 4
  const NUM_CACHES: nat := 8
  const SMALLEST_CACHE: nat := 64
  const LARGEST_CACHE: nat := 8192
  const BLOCKS_PER_SUPERBLOCK: nat := 64

  // ----- the tables

  /** buildCaches: startSz and its doublings up to LARGEST_CACHE. */
  function Doublings(i: nat): seq<nat>
    requires i > 0
    decreases LARGEST_CACHE - i
  {
    if i > LARGEST_CACHE then [] else [i] + Doublings(2 * i)
  }

  function BlocksPer(sizes: seq<nat>): (r: seq<nat>)
    requires forall k :: 0 <= k < |sizes| ==> sizes[k] > 0
    ensures |r| == |sizes|
    ensures forall k :: 0 <= k < |r| ==> r[k] == SLAB_SIZE / sizes[k]
  {
    seq(|sizes|, k requires 0 <= k < |sizes| => SLAB_SIZE / sizes[k])
  }

  const CACHE_SIZES: seq<nat> := [64, 128, 256, 512, 1024, 2048, 4096, 8192]
  const BLOCKS_PER_SLAB: seq<nat> := [256, 128, 64, 32, 16, 8, 4, 2]

  lemma Doubling(i: nat)
    requires i > 0
    ensures Doublings(i) == if i > LARGEST_CACHE then [] else [i] + Doublings(2 * i)
  {}

  lemma Classes()
    ensures Doublings(64) == CACHE_SIZES
  {
    hide Doublings;
    Doubling(64);
    Doubling(128);
    Doubling(256);
    Doubling(512);
    Doubling(1024);
    Doubling(2048);
    Doubling(4096);
    Doubling(8192);
    Doubling(16384);
  }

  /** The tables the loops build; each class fills a slab exactly and has at least two blocks. */
  lemma Tables()
    ensures Doublings(SMALLEST_CACHE) == CACHE_SIZES && BlocksPer(CACHE_SIZES) == BLOCKS_PER_SLAB
    ensures |CACHE_SIZES| == NUM_CACHES == |BLOCKS_PER_SLAB|
    ensures forall k :: 0 <= k < NUM_CACHES ==> CACHE_SIZES[k] * BLOCKS_PER_SLAB[k] == SLAB_SIZE && BLOCKS_PER_SLAB[k] >= 2
    ensures forall j, k :: 0 <= j < k < NUM_CACHES ==> CACHE_SIZES[j] < CACHE_SIZES[k]
  {
    hide Doublings;
    Classes();
  }

  method BuildCaches(startSz: nat) returns (v: seq<nat>)
    requires startSz > 0
    ensures v == Doublings(startSz)
  {
    v := [];
    var i := startSz;
    while i <= LARGEST_CACHE
      invariant i > 0 && v + Doublings(i) == Doublings(startSz)
      decreases LARGEST_CACHE - i
    {
      v := v + [i];
      i := 2 * i;
    }
  }

  method BuildBlocksPer(sizes: seq<nat>) returns (v: seq<nat>)
    requires forall k :: 0 <= k < |sizes| ==> sizes[k] > 0
    ensures v == BlocksPer(sizes)
  {
    v := [];
    for i := 0 to |sizes|
      invariant |v| == i && forall k :: 0 <= k < i ==> v[k] == SLAB_SIZE / sizes[k]
    {
      v := v + [SLAB_SIZE / sizes[i]];
    }
  }

  type FreeIndicies = seq<(nat, seq<nat>)>

  /** buildIndicies: for each class its size and the full stack of its indices. */
  function IndexTable(): (r: FreeIndicies)
    ensures |r| == NUM_CACHES
    ensures forall k :: 0 <= k < NUM_CACHES ==> r[k] == (CACHE_SIZES[k], SC.IndexStack(SLAB_SIZE / CACHE_SIZES[k]))
  {
    Tables();
    seq(NUM_CACHES, k requires 0 <= k < NUM_CACHES => (CACHE_SIZES[k], SC.IndexStack(SLAB_SIZE / CACHE_SIZES[k])))
  }

  method BuildIndicies() returns (av: FreeIndicies)
    ensures av == IndexTable()
  {
    Tables();
    av := [];
    for i := 0 to NUM_CACHES
      invariant |av| == i && forall k :: 0 <= k < i ==> av[k] == IndexTable()[k]
    {
      var stack := SlabCacheObject.BuildIndices(SLAB_SIZE / CACHE_SIZES[i]);
      av := av + [(CACHE_SIZES[i], stack)];
    }
  }

  /** The loop of getIndicies; None is the exception. */
  method LookUp(av: FreeIndicies, blockSz: nat) returns (r: Option<seq<nat>>)
    ensures r.None? <==> forall k :: 0 <= k < |av| ==> av[k].0 < blockSz
    ensures forall k :: 0 <= k < |av| && av[k].0 >= blockSz && (forall j :: 0 <= j < k ==> av[j].0 < blockSz)
                        ==> r == Some(av[k].1)
  {
    for i := 0 to |av|
      invariant forall k :: 0 <= k < i ==> av[k].0 < blockSz
    {
      if av[i].0 >= blockSz {
        return Some(av[i].1);
      }
    }
    r := None;
  }

  /** For every class the stack that a new slab gets is the one for exactly the blocks it has. */
  method ClassIndices(i: nat) returns (r: seq<nat>)
    requires i < NUM_CACHES
    ensures r == SC.IndexStack(BLOCKS_PER_SLAB[i])
  {
    Tables();
    var av := BuildIndicies();
    var found := LookUp(av, CACHE_SIZES[i]);
    assert av[i].0 >= CACHE_SIZES[i];
    assert forall j :: 0 <= j < i ==> av[j].0 < CACHE_SIZES[i];
    assert BlocksPer(CACHE_SIZES)[i] == SLAB_SIZE / CACHE_SIZES[i];
    r := found.value;
  }

  /** The size and block count of one of the classes. */
  predicate InClass(count: nat, blockSize: nat) {
    exists i :: 0 <= i < NUM_CACHES && InClassAt(count, blockSize, i)
  }

  predicate InClassAt(count: nat, blockSize: nat, i: nat)
    requires i < NUM_CACHES
  {
    count == BLOCKS_PER_SLAB[i] && blockSize == CACHE_SIZES[i]
  }

  // ----- the blocks

  /** Where the n-th call of operator new for a superblock puts it. */
  type Supply = nat -> int

  ghost predicate SupplyOk(supply: Supply) {
    forall i: nat, j: nat :: i != j ==> supply(i) + SUPERBLOCK_SIZE <= supply(j) || supply(j) + SUPERBLOCK_SIZE <= supply(i)
  }

  function BlockAt(supply: Supply, j: nat): int {
    supply(j / BLOCKS_PER_SUPERBLOCK) + (j % BLOCKS_PER_SUPERBLOCK) * SLAB_SIZE
  }

  /** The blocks of the first n superblocks. */
  function AllBlocks(supply: Supply, n: nat): (r: seq<int>)
    ensures |r| == BLOCKS_PER_SUPERBLOCK * n
    ensures forall j :: 0 <= j < |r| ==> r[j] == BlockAt(supply, j)
  {
    seq(BLOCKS_PER_SUPERBLOCK * n, j requires 0 <= j => BlockAt(supply, j))
  }

  predicate BlocksApart(a: int, b: int) {
    a + SLAB_SIZE <= b || b + SLAB_SIZE <= a
  }

  predicate InBlock(b: int, a: int) {
    b <= a < b + SLAB_SIZE
  }

  predicate InSuperblock(supply: Supply, i: nat, a: int) {
    supply(i) <= a < supply(i) + SUPERBLOCK_SIZE
  }

  /** The blocks tile the superblocks: an address of a superblock is in one of them, and any other is in none. */
  lemma BlocksTileIff(supply: Supply, n: nat, a: int)
    ensures (exists i: nat :: i < n && InSuperblock(supply, i, a))
            <==> exists b :: b in AllBlocks(supply, n) && InBlock(b, a)
  {
    var all := AllBlocks(supply, n);
    if i: nat :| i < n && InSuperblock(supply, i, a) {
      var k := (a - supply(i)) / SLAB_SIZE;
      BlockPlace(supply, i, k);
      assert all[BLOCKS_PER_SUPERBLOCK * i + k] in all;
      assert InBlock(all[BLOCKS_PER_SUPERBLOCK * i + k], a);
    }
    if b :| b in all && InBlock(b, a) {
      var j :| 0 <= j < |all| && all[j] == b;
      assert InSuperblock(supply, j / BLOCKS_PER_SUPERBLOCK, a);
    }
  }

  lemma TwoBlocks(supply: Supply, j: nat, k: nat)
    requires SupplyOk(supply) && j != k
    ensures BlocksApart(BlockAt(supply, j), BlockAt(supply, k))
  {
    var a, b := j / BLOCKS_PER_SUPERBLOCK, k / BLOCKS_PER_SUPERBLOCK;
    if a == b {
      assert j % BLOCKS_PER_SUPERBLOCK != k % BLOCKS_PER_SUPERBLOCK;
    } else {
      assert supply(a) + SUPERBLOCK_SIZE <= supply(b) || supply(b) + SUPERBLOCK_SIZE <= supply(a);
    }
  }

  /** What is handed out: no block twice, and no two that overlap. */
  ghost predicate HandedOk(handed: multiset<int>) {
    && (forall b :: handed[b] <= 1)
    && (forall a, b :: a in handed && b in handed && a != b ==> BlocksApart(a, b))
  }

  /** Blocks on the stack and blocks handed out are together the blocks of all superblocks, each once. */
  ghost predicate Accounted(supply: Supply, n: nat, blocks: seq<int>, handed: multiset<int>) {
    multiset(blocks) + handed == multiset(AllBlocks(supply, n))
  }

  lemma HandedOutOnce(supply: Supply, n: nat, blocks: seq<int>, handed: multiset<int>)
    requires SupplyOk(supply) && Accounted(supply, n, blocks, handed)
    ensures HandedOk(handed)
    ensures forall b :: b in blocks ==> b !in handed
    ensures Distinct(blocks)
  {
    var all := AllBlocks(supply, n);
    forall j: nat, k: nat | j != k
      ensures BlocksApart(BlockAt(supply, j), BlockAt(supply, k))
    {
      TwoBlocks(supply, j, k);
    }
    assert Distinct(all) by {
      forall j, k | 0 <= j < k < |all|
        ensures all[j] != all[k]
      {
        assert BlocksApart(BlockAt(supply, j), BlockAt(supply, k));
      }
    }
    hide BlockAt, AllBlocks;
    DistinctIff(all);
    assert forall b :: multiset(blocks)[b] + handed[b] == multiset(all)[b];
    DistinctIff(blocks);
    assert forall b :: b in blocks <==> multiset(blocks)[b] > 0;
    forall a, b | a in handed && b in handed && a != b
      ensures BlocksApart(a, b)
    {
      assert a in multiset(all) && b in multiset(all);
      var j :| 0 <= j < |all| && all[j] == a;
      var k :| 0 <= k < |all| && all[k] == b;
    }
  }

  class GlobalDispatch {
    const supply: Supply
    var blocks: seq<int>
    var totalSBlocks: nat
    const availible: FreeIndicies
    ghost var handed: multiset<int>   // given out by getBlock and not returned

    ghost predicate Valid()
      reads this
    {
      SupplyOk(supply) && Accounted(supply, totalSBlocks, blocks, handed) && availible == IndexTable()
    }

    constructor (supply: Supply)
      requires SupplyOk(supply)
      ensures Valid() && handed == multiset{} && totalSBlocks == INIT_SUPERBLOCKS && this.supply == supply
    {
      this.supply := supply;
      blocks, totalSBlocks, handed := [], 0, multiset{};
      var table := BuildIndicies();
      availible := table;
      new;
      RequestMem(INIT_SUPERBLOCKS);
    }

    /** getIndicies: a new slab of a class gets the stack of exactly the blocks it has. */
    method GetIndicies(blockSz: nat) returns (r: Option<seq<nat>>)
      requires Valid()
      ensures forall count: nat :: InClass(count, blockSz) ==> r == Some(SC.IndexStack(count))
    {
      Tables();
      r := LookUp(availible, blockSz);
      forall count: nat | InClass(count, blockSz)
        ensures r == Some(SC.IndexStack(count))
      {
        var i :| 0 <= i < NUM_CACHES && InClassAt(count, blockSz, i);
        assert availible[i].0 >= blockSz;
        assert forall j :: 0 <= j < i ==> availible[j].0 < blockSz;
        assert BlocksPer(CACHE_SIZES)[i] == SLAB_SIZE / CACHE_SIZES[i];
      }
    }

    /** The inner loop of requestMem: one superblock cut up from its start. */
    method CutUp(mem: int)
      modifies this`blocks
      ensures blocks == old(blocks) + Cut(mem)
    {
      var idx := 0;
      ghost var k := 0;
      while idx < SUPERBLOCK_SIZE
        invariant idx == SLAB_SIZE * k && k <= BLOCKS_PER_SUPERBLOCK
        invariant blocks == old(blocks) + Cut(mem)[..k]
      {
        assert Cut(mem)[..k + 1] == Cut(mem)[..k] + [mem + idx];
        blocks := blocks + [mem + idx];
        idx, k := idx + SLAB_SIZE, k + 1;
      }
      assert Cut(mem)[..k] == Cut(mem);
    }

    /** requestMem. */
    method RequestMem(sblocks: nat)
      requires Valid()
      modifies this`blocks, this`totalSBlocks
      ensures Valid() && totalSBlocks == old(totalSBlocks) + sblocks
      ensures blocks == old(blocks) + More(supply, old(totalSBlocks), sblocks)
    {
      hide Accounted, SupplyOk, Cut, More;
      MoreStep(supply, totalSBlocks, 0);
      for i := 0 to sblocks
        invariant totalSBlocks == old(totalSBlocks) && handed == old(handed)
        invariant Accounted(supply, totalSBlocks + i, blocks, handed)
        invariant blocks == old(blocks) + More(supply, totalSBlocks, i)
      {
        OneMoreSuperblock(supply, totalSBlocks + i, blocks, handed);
        MoreStep(supply, totalSBlocks, i);
        CutUp(supply(totalSBlocks + i));
      }
      totalSBlocks := totalSBlocks + sblocks;
    }

    /** getBlock: the back of the stack, refilled first if it is empty. */
    method GetBlock() returns (mem: int)
      requires Valid()
      modifies this
      ensures Valid() && handed == old(handed) + multiset{mem} && mem !in old(handed)
      ensures forall b :: b in old(handed) ==> BlocksApart(b, mem)
      ensures totalSBlocks == old(totalSBlocks) + if old(blocks) == [] then INIT_SUPERBLOCKS else 0
      ensures old(blocks) != [] ==> blocks + [mem] == old(blocks)
    {
      if blocks == [] {
        RequestMem(INIT_SUPERBLOCKS);
      }
      ghost var before := blocks;
      HandedOutOnce(supply, totalSBlocks, blocks, handed);
      mem := blocks[|blocks| - 1];
      blocks := blocks[..|blocks| - 1];
      assert before == blocks + [mem];
      handed := handed + multiset{mem};
      HandedOutOnce(supply, totalSBlocks, blocks, handed);
    }

    /** returnBlock. */
    method ReturnBlock(block: int)
      requires Valid() && block in handed
      modifies this
      ensures Valid() && handed == old(handed) - multiset{block} && blocks == old(blocks) + [block]
    {
      blocks := blocks + [block];
      handed := handed - multiset{block};
    }
  }

  lemma BlockPlace(supply: Supply, i: nat, k: nat)
    requires k < BLOCKS_PER_SUPERBLOCK
    ensures BlockAt(supply, BLOCKS_PER_SUPERBLOCK * i + k) == supply(i) + SLAB_SIZE * k
  {
    var j := BLOCKS_PER_SUPERBLOCK * i + k;
    assert j / BLOCKS_PER_SUPERBLOCK == i && j % BLOCKS_PER_SUPERBLOCK == k;
  }

  /** The blocks of one superblock. */
  function Cut(mem: int): (r: seq<int>)
    ensures |r| == BLOCKS_PER_SUPERBLOCK
  {
    seq(BLOCKS_PER_SUPERBLOCK, k requires 0 <= k => mem + SLAB_SIZE * k)
  }

  /** The blocks of k superblocks, from number n on. */
  function More(supply: Supply, n: nat, k: nat): (r: seq<int>)
    ensures |r| == BLOCKS_PER_SUPERBLOCK * k
  {
    if k == 0 then [] else More(supply, n, k - 1) + Cut(supply(n + k - 1))
  }

  lemma MoreStep(supply: Supply, n: nat, k: nat)
    ensures More(supply, n, 0) == []
    ensures More(supply, n, k + 1) == More(supply, n, k) + Cut(supply(n + k))
  {}

  lemma OneMoreSuperblock(supply: Supply, n: nat, blocks: seq<int>, handed: multiset<int>)
    requires Accounted(supply, n, blocks, handed)
    ensures Accounted(supply, n + 1, blocks + Cut(supply(n)), handed)
  {
    var more := AllBlocks(supply, n + 1);
    forall k | 0 <= k < BLOCKS_PER_SUPERBLOCK
      ensures more[BLOCKS_PER_SUPERBLOCK * n + k] == Cut(supply(n))[k]
    {
      BlockPlace(supply, n, k);
    }
    assert more == AllBlocks(supply, n) + Cut(supply(n));
  }
}
