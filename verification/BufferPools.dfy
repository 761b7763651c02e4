/** The size-class buffers of mem.c. Blocks are numbered; a block from a pool has a pool header in front
    of it, a block from malloc has not. */
module BufferPools {
  import opened Bytes

  const NULL: int := -1
  const LARGEST: nat := 32768

  // ------------------------------------------------------------------ size classes

  /** short_buffer_sizes, indexed by (size - 1) >> 6 below 16. */
  function ShortSize(t: nat): nat
  {
    if t < 1 then 64 else if t < 2 then 128 else if t < 4 then 256 else if t < 8 then 512 else 1024
  }

  /** long_buffer_sizes, indexed by (size - 1) >> 11 below 16. */
  function LongSize(t: nat): nat
  {
    if t < 1 then 2048 else if t < 2 then 4096 else if t < 4 then 8192 else if t < 8 then 16384 else 32768
  }

  /** short_buffers and long_buffers as indices into Pools. */
  function ShortPool(t: nat): (p: nat)
    ensures p < 5
  {
    if t < 1 then 0 else if t < 2 then 1 else if t < 4 then 2 else if t < 8 then 3 else 4
  }

  function LongPool(t: nat): (p: nat)
    ensures 5 <= p < 10
  {
    if t < 1 then 5 else if t < 2 then 6 else if t < 4 then 7 else if t < 8 then 8 else 9
  }

  /** The item size of a pool without its header: 64 << p. */
  function PoolSize(p: nat): nat
  {
    if p == 0 then 64 else 2 * PoolSize(p - 1)
  }

  /** ci_buffer_real_size, and what ci_buffer_alloc2 reserves: the class of a size, or the size itself
      beyond the largest class. */
  function ClassOf(n: nat): (c: nat)
    requires n >= 1
    ensures c >= n
    ensures c > LARGEST <==> n > LARGEST
  {
    var t := (n - 1) / 64;
    if t < 16 then ShortSize(t) else if t < 512 then LongSize(t / 32) else n
  }

  /** The pool a size is served from. */
  function PoolOf(n: nat): (p: nat)
    requires 1 <= n <= LARGEST
    ensures p < 10
  {
    var t := (n - 1) / 64;
    if t < 16 then ShortPool(t) else LongPool(t / 32)
  }

  lemma PoolSizes()
    ensures PoolSize(0) == 64 && PoolSize(1) == 128 && PoolSize(2) == 256 && PoolSize(3) == 512 && PoolSize(4) == 1024
    ensures PoolSize(5) == 2048 && PoolSize(6) == 4096 && PoolSize(7) == 8192 && PoolSize(8) == 16384 && PoolSize(9) == 32768
  {
  }

  /** The class of a size is the least 64 * 2^p not below it, and it is the item size of its pool. */
  lemma ClassIsLeast(n: nat)
    requires 1 <= n <= LARGEST
    ensures ClassOf(n) == PoolSize(PoolOf(n))
    ensures forall p :: 0 <= p < 10 && PoolSize(p) >= n ==> PoolSize(p) >= ClassOf(n)
  {
    PoolSizes();
    hide PoolSize;
    forall p | 0 <= p < 10 && PoolSize(p) >= n ensures PoolSize(p) >= ClassOf(n) {
      assert p == 0 || p == 1 || p == 2 || p == 3 || p == 4 || p == 5 || p == 6 || p == 7 || p == 8 || p == 9;
    }
  }

  /** Classes are fixed points and keep the order of sizes. */
  lemma ClassOrder(m: nat, n: nat)
    requires 1 <= m <= n
    ensures ClassOf(m) <= ClassOf(n) && ClassOf(ClassOf(n)) == ClassOf(n)
  {
    assert (m - 1) / 64 <= (n - 1) / 64 && (m - 1) / 64 / 32 <= (n - 1) / 64 / 32;
  }

  // ------------------------------------------------------------------ blocks and free lists

  /** A block ever obtained from malloc: with a pool header or without, its recorded size, its bytes (all
      of its capacity), and whether a caller owns it. */
  datatype Block = Block(pooled: bool, id: nat, data: seq<Byte>, live: bool)

  /** Sizes whose (size - 1) >> 6 is a non-negative int. */
  predicate Sized(n: nat) { 1 <= n <= 0x20_0000_0000 }

  /** Some free list holds block x. */
  predicate OnFree(pools: seq<seq<nat>>, x: nat)
  {
    exists p, i :: 0 <= p < |pools| && 0 <= i < |pools[p]| && pools[p][i] == x
  }

  /** No block is on a free list twice. */
  predicate NoTwice(pools: seq<seq<nat>>)
  {
    forall p, i, q, j ::
      (0 <= p < |pools| && 0 <= i < |pools[p]| && 0 <= q < |pools| && 0 <= j < |pools[q]| && pools[p][i] == pools[q][j]) ==>
        p == q && i == j
  }

  /** What free list p may hold: blocks that nobody owns, from a pool, and large enough for its class. */
  predicate Fits(blocks: seq<Block>, p: nat, x: nat)
  {
    x < |blocks| && blocks[x].pooled && !blocks[x].live && |blocks[x].data| >= PoolSize(p)
  }

  /** An owned block has room for the class of its recorded size, and that size tells where it came from. */
  predicate Owned(b: Block)
  {
    b.live ==> Sized(b.id) && |b.data| >= ClassOf(b.id) && (b.pooled <==> b.id <= LARGEST)
  }

  predicate Good(blocks: seq<Block>, pools: seq<seq<nat>>)
  {
    && |pools| == 10 && NoTwice(pools)
    && (forall p, i :: 0 <= p < 10 && 0 <= i < |pools[p]| ==> Fits(blocks, p, pools[p][i]))
    && (forall x :: 0 <= x < |blocks| ==> Owned(blocks[x]))
    && (forall x :: 0 <= x < |blocks| && blocks[x].pooled && !blocks[x].live ==> OnFree(pools, x))
  }

  /** All blocks but x are as they were. */
  predicate SameBut(was: seq<Block>, now: seq<Block>, x: nat)
  {
    |was| <= |now| && forall y :: 0 <= y < |was| && y != x ==> now[y] == was[y]
  }

  lemma GoodNew(blocks: seq<Block>, pools: seq<seq<nat>>, b: Block)
    requires Good(blocks, pools) && Owned(b) && b.live
    ensures Good(blocks + [b], pools)
  {
    hide PoolSize, NoTwice, Owned, OnFree;
  }

  lemma GoodPop(blocks: seq<Block>, pools: seq<seq<nat>>, p: nat, b: Block)
    requires Good(blocks, pools) && p < 10 && pools[p] != [] && Owned(b) && b.live && b.pooled
    ensures pools[p][0] < |blocks| && Good(blocks[pools[p][0] := b], pools[p := pools[p][1..]])
  {
    var x, pools' := pools[p][0], pools[p := pools[p][1..]];
    hide PoolSize, Owned;
    assert NoTwice(pools');
    forall y | 0 <= y < |blocks| && y != x && blocks[y].pooled && !blocks[y].live ensures OnFree(pools', y) {
      var q, i :| 0 <= q < 10 && 0 <= i < |pools[q]| && pools[q][i] == y;
      assert q == p ==> i > 0;
      assert pools'[q][if q == p then i - 1 else i] == y;
    }
  }

  lemma PushNoTwice(pools: seq<seq<nat>>, p: nat, x: nat)
    requires NoTwice(pools) && p < |pools| && !OnFree(pools, x)
    ensures NoTwice(pools[p := [x] + pools[p]])
  {
    var pools' := pools[p := [x] + pools[p]];
    forall q, i | 0 <= q < |pools| && 0 <= i < |pools'[q]| && !(q == p && i == 0)
      ensures pools'[q][i] == pools[q][if q == p then i - 1 else i] != x
    {
    }
  }

  lemma GoodPush(blocks: seq<Block>, pools: seq<seq<nat>>, p: nat, x: nat)
    requires Good(blocks, pools) && p < 10 && x < |blocks| && blocks[x].live && blocks[x].pooled && |blocks[x].data| >= PoolSize(p)
    ensures Good(blocks[x := blocks[x].(live := false)], pools[p := [x] + pools[p]])
  {
    var blocks', pools' := blocks[x := blocks[x].(live := false)], pools[p := [x] + pools[p]];
    hide PoolSize, Owned;
    assert !OnFree(pools, x);
    PushNoTwice(pools, p, x);
    hide NoTwice, OnFree;
    forall y | 0 <= y < |blocks| && blocks'[y].pooled && !blocks'[y].live ensures OnFree(pools', y) {
      PushOnFree(pools, p, x, y);
    }
    forall q, i | 0 <= q < 10 && 0 <= i < |pools'[q]| ensures Fits(blocks', q, pools'[q][i]) {
      assert (q == p && i == 0) || pools'[q][i] == pools[q][if q == p then i - 1 else i];
    }
  }

  lemma PushOnFree(pools: seq<seq<nat>>, p: nat, x: nat, y: nat)
    requires p < |pools| && (y == x || OnFree(pools, y))
    ensures OnFree(pools[p := [x] + pools[p]], y)
  {
    var pools' := pools[p := [x] + pools[p]];
    if y == x {
      assert pools'[p][0] == y;
    } else {
      var q, i :| 0 <= q < |pools| && 0 <= i < |pools[q]| && pools[q][i] == y;
      assert pools'[q][if q == p then i + 1 else i] == y;
    }
  }

  lemma GoodGone(blocks: seq<Block>, pools: seq<seq<nat>>, x: nat)
    requires Good(blocks, pools) && x < |blocks| && blocks[x].live && !blocks[x].pooled
    ensures Good(blocks[x := blocks[x].(live := false)], pools)
  {
    hide PoolSize, NoTwice, OnFree;
  }

  lemma GoodSet(blocks: seq<Block>, pools: seq<seq<nat>>, x: nat, b: Block)
    requires Good(blocks, pools) && x < |blocks| && blocks[x].live && Owned(b) && b.live && b.pooled == blocks[x].pooled
    ensures Good(blocks[x := b], pools)
  {
    hide PoolSize, NoTwice, OnFree, Owned;
  }

  /** Why such a shrink is wrong: freeing a block without a pool header by a small recorded size puts it on
      a free list, which then holds a block that no pool can hand out. */
  lemma ShrunkIsMisplaced(blocks: seq<Block>, pools: seq<seq<nat>>, x: nat)
    requires |pools| == 10 && x < |blocks| && !blocks[x].pooled && 1 <= blocks[x].id <= LARGEST
    ensures !Good(blocks[x := blocks[x].(live := false)],
                  pools[PoolOf(blocks[x].id) := [x] + pools[PoolOf(blocks[x].id)]])
  {
    var p := PoolOf(blocks[x].id);
    assert pools[p := [x] + pools[p]][p][0] == x;
    assert !Fits(blocks[x := blocks[x].(live := false)], p, x);
  }

  // ------------------------------------------------------------------ the operations

  /** New memory holds anything. */
  method Garbage(n: nat) returns (data: seq<Byte>)
    ensures |data| == n
  {
    assert |seq(n, _ => 0 as Byte)| == n;
    data :| |data| == n;
  }

  class Buffers {
    var blocks: seq<Block>
    var pools: seq<seq<nat>>    // free lists, most recently freed first

    constructor ()
      ensures Valid() && blocks == []
    {
      blocks, pools := [], [[], [], [], [], [], [], [], [], [], []];
    }

    ghost predicate Valid()
      reads this
    {
      Good(blocks, pools)
    }

    /** b is a buffer that a caller owns. */
    ghost predicate Live(b: int)
      reads `blocks
    {
      0 <= b < |blocks| && blocks[b].live
    }

    /** pool_allocator_alloc and the header of the buffer: the first free block of the pool, or a new one. */
    method PoolAlloc(p: nat, id: nat) returns (x: nat)
      requires Valid() && p < 10 && Sized(id) && id <= LARGEST && ClassOf(id) <= PoolSize(p)
      modifies this
      ensures Valid() && Live(x) && blocks[x].id == id && |blocks[x].data| >= PoolSize(p)
      ensures SameBut(old(blocks), blocks, x) && !old(Live(x))
    {
      hide NoTwice, OnFree, PoolSize, ClassOf;
      if pools[p] != [] {
        x := pools[p][0];
        assert Fits(blocks, p, x);
        var b := blocks[x].(id := id, live := true);
        GoodPop(blocks, pools, p, b);
        blocks, pools := blocks[x := b], pools[p := pools[p][1..]];
      } else {
        x := |blocks|;
        var data := Garbage(PoolSize(p));
        var b := Block(true, id, data, true);
        GoodNew(blocks, pools, b);
        blocks := blocks + [b];
      }
    }

    /** ci_buffer_alloc2. sized: the caller wants to know the allocated size; ok: malloc succeeds for a
        size beyond the largest class. */
    method Alloc(size: nat, sized: bool, ok: bool) returns (b: int, capacity: nat)
      requires Valid() && Sized(size)
      modifies this
      ensures Valid() && capacity == ClassOf(size)
      ensures b == NULL <==> size > LARGEST && !ok
      ensures b == NULL ==> blocks == old(blocks) && pools == old(pools)
      ensures b != NULL ==> Live(b) && !old(Live(b)) && SameBut(old(blocks), blocks, b)
      ensures b != NULL ==> blocks[b].id == (if sized then capacity else size) && |blocks[b].data| >= ClassOf(size) >= size
    {
      capacity := ClassOf(size);
      var id := if sized then capacity else size;
      if size <= LARGEST {
        ClassIsLeast(size);
        ClassOrder(size, size);
        b := PoolAlloc(PoolOf(size), id);
      } else if ok {
        var data := Garbage(size);
        var block := Block(false, id, data, true);
        GoodNew(blocks, pools, block);
        b := |blocks|;
        blocks := blocks + [block];
      } else {
        b := NULL;
      }
    }

    /** ci_buffer_free. */
    method Free(b: int)
      requires Valid() && (b == NULL || Live(b))
      modifies this
      ensures Valid()
      ensures b == NULL ==> blocks == old(blocks) && pools == old(pools)
      ensures b != NULL ==> |blocks| == |old(blocks)| && !Live(b) && SameBut(old(blocks), blocks, b)
      ensures b != NULL && old(blocks)[b].id > LARGEST ==> pools == old(pools)
      ensures b != NULL && old(blocks)[b].id <= LARGEST ==>
                var p := PoolOf(old(blocks)[b].id); pools == old(pools)[p := [b as nat] + old(pools)[p]]
    {
      if b == NULL {
        return;
      }
      assert Owned(blocks[b]);
      var id := blocks[b].id;
      var block := blocks[b].(live := false);
      if id <= LARGEST {
        ClassIsLeast(id);
        var p := PoolOf(id);
        GoodPush(blocks, pools, p, b);
        blocks, pools := blocks[b := block], pools[p := [b] + pools[p]];
      } else {
        GoodGone(blocks, pools, b);
        blocks := blocks[b := block];
      }
    }

    /** The memcpy of ci_buffer_realloc2. */
    method CopyBytes(to: nat, from: nat, n: nat)
      requires Valid() && Live(to) && Live(from) && n <= |blocks[from].data| && n <= |blocks[to].data|
      modifies `blocks
      ensures Valid() && |blocks| == |old(blocks)| && SameBut(old(blocks), blocks, to)
      ensures Live(to) && blocks[to].id == old(blocks[to].id) && |blocks[to].data| == |old(blocks[to].data)|
      ensures blocks[to].data[..n] == old(blocks[from].data)[..n]
    {
      var block := blocks[to].(data := blocks[from].data[..n] + blocks[to].data[n..]);
      assert Owned(blocks[to]);
      GoodSet(blocks, pools, to, block);
      blocks := blocks[to := block];
    }

    /** ci_buffer_realloc2. Every byte that both sizes cover survives and every other buffer is left
        alone; the books stay right exactly when a buffer that malloc returned is not shrunk into a
        pool's range. */
    method Realloc(b: int, size: nat, sized: bool, ok: bool) returns (r: int, capacity: nat)
      requires Valid() && Sized(size) && (b == NULL || Live(b))
      modifies this
      ensures Valid() <==> !(b != NULL && !sized && old(blocks)[b].id > LARGEST && size <= LARGEST)
      ensures r == NULL <==> size > LARGEST && !ok && (b == NULL || size > ClassOf(old(blocks)[b].id))
      ensures r == b <==> if b == NULL then r == NULL else size <= ClassOf(old(blocks)[b].id)
      ensures r == NULL ==> blocks == old(blocks) && pools == old(pools)
      ensures r != NULL ==> Live(r) && (r == b || !old(Live(r))) && size <= blocks[r].id <= capacity <= |blocks[r].data|
      ensures r != NULL ==> blocks[r].id == if sized then capacity else size
      ensures r != NULL && b != NULL ==>
                var n := Min(old(blocks)[b].id, size); n <= |blocks[r].data| && blocks[r].data[..n] == old(blocks)[b].data[..n]
      ensures r != NULL && r != b && b != NULL ==> !Live(b)
      ensures |old(blocks)| <= |blocks| && forall c :: old(Live(c)) && c != b ==> blocks[c] == old(blocks)[c]
    {
      if b == NULL {
        r, capacity := Alloc(size, sized, ok);
        return;
      }
      assert Owned(blocks[b]);
      var id := blocks[b].id;
      var current := ClassOf(id);
      if size > current {
        r, capacity := Alloc(size, sized, ok);
        if r != NULL {
          CopyBytes(r, b, id);
          Free(b);
        }
      } else {
        r, capacity := b, current;
        var block := blocks[b].(id := if sized then current else size);
        ClassOrder(size, current);
        ClassOrder(id, id);
        if sized || id <= LARGEST || size > LARGEST {
          GoodSet(blocks, pools, b, block);
        }
        blocks := blocks[b := block];
      }
    }
  }
}
