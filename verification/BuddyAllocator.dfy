/**
 The buddy allocator in memory: block headers are overlaid on the arena, the free lists are threaded
 through them, and one array holds the list heads. Memory is indexed by address and 0 is the null pointer.
 The lock is not modelled: every method is one critical section.
 */
module BuddyAllocator {
  import opened Wrappers
  import opened Arith
  import opened Bytes
  import opened BuddySpec

  /** The pointer stored for position `i` of a list: null past its end. */
  function At(l: seq<nat>, i: nat): nat {
    if i < |l| then l[i] else 0
  }

  /** The `size` and `next` fields of a block header. */
  function SizeOf(m: seq<byte>, block: nat): nat
    requires block + HEADER <= |m|
  {
    Load64(m, block)
  }

  function NextOf(m: seq<byte>, block: nat): nat
    requires block + HEADER <= |m|
  {
    Load64(m, block + 8)
  }

  ghost predicate InMemory(m: seq<byte>, h: Heap) {
    && 0 < h.base && h.base + ARENA + HEADER <= |m| <= WORD_LIMIT
    && (forall a :: a in h.tile ==> a + HEADER <= |m|)
  }

  ghost predicate Sized(m: seq<byte>, h: Heap)
    requires InMemory(m, h)
  {
    forall a :: a in h.tile ==> SizeOf(m, a) == Pow2(h.tile[a])
  }

  ghost predicate Headed(heads: seq<nat>, h: Heap) {
    && |heads| == |h.free| == MAX_POWER + 1
    && (forall k :: 0 <= k <= MAX_POWER ==> heads[MAX_POWER - k] == At(h.free[k], 0))
  }

  ghost predicate Threaded(m: seq<byte>, l: seq<nat>) {
    && (forall i :: 0 <= i < |l| ==> l[i] + HEADER <= |m|)
    && (forall i {:trigger NextOf(m, l[i])} :: 0 <= i < |l| ==> NextOf(m, l[i]) == At(l, i + 1))
  }

  /** `heads` and the headers in `m` spell out the lists and sizes of `h`. */
  ghost predicate Stored(m: seq<byte>, heads: seq<nat>, h: Heap) {
    && InMemory(m, h) && Sized(m, h) && Headed(heads, h)
    && (forall k :: 0 <= k <= MAX_POWER ==> Threaded(m, h.free[k]))
  }

  /** Blocks in use and memory outside the arena hold the same bytes in `m'` as in `m`. */
  ghost predicate Kept(m: seq<byte>, m': seq<byte>, base: nat, live: map<nat, nat>) {
    && |m'| == |m|
    && (forall x :: 0 <= x < |m| && !(base <= x < base + ARENA) ==> m'[x] == m[x])
    && (forall a, x :: a in live && a <= x < a + Pow2(live[a]) && x < |m| ==> m'[x] == m[x])
  }

  /** The header of block `a` may have changed between `m` and `m'`, nothing else. */
  ghost predicate OnlyHeader(m: seq<byte>, m': seq<byte>, a: nat) {
    |m'| == |m| && forall x :: 0 <= x < |m| && !(a <= x < a + 16) ==> m'[x] == m[x]
  }

  lemma HeaderFrame(m: seq<byte>, m': seq<byte>, a: nat, b: nat)
    requires OnlyHeader(m, m', a) && b + HEADER <= |m| && (b + HEADER <= a || a + HEADER <= b)
    ensures SizeOf(m', b) == SizeOf(m, b) && NextOf(m', b) == NextOf(m, b)
  {
    LoadFrame(m, m', b);
    LoadFrame(m, m', b + 8);
  }

  /** Blocks are at least a header apart. */
  lemma HeadersApart(h: Heap, a: nat, b: nat)
    requires Shape(h) && Disjoint(h) && a in h.tile && b in h.tile && a != b
    ensures b + HEADER <= a || a + HEADER <= b
  {
    Pow2Values();
    Pow2Monotone(5, h.tile[a]);
    Pow2Monotone(5, h.tile[b]);
  }

  /** Writing the header of a block that is not in use disturbs no block in use. */
  lemma HeaderKept(m: seq<byte>, m': seq<byte>, h: Heap, a: nat)
    requires Tiled(h) && a in h.tile && a !in Live(h) && OnlyHeader(m, m', a)
    ensures Kept(m, m', h.base, Live(h))
  {
    Pow2Values();
    Pow2Monotone(5, h.tile[a]);
  }

  lemma KeptTrans(m: seq<byte>, m': seq<byte>, m'': seq<byte>, base: nat, live: map<nat, nat>)
    requires Kept(m, m', base, live) && Kept(m', m'', base, live)
    ensures Kept(m, m'', base, live)
  {
  }

  /** All blocks of `h` other than those in `changed` have the same header in `m'` as in `m`. */
  ghost predicate HeadersKept(m: seq<byte>, m': seq<byte>, h: Heap, changed: set<nat>)
    requires forall a :: a in h.tile ==> a + HEADER <= |m|
  {
    && |m'| == |m|
    && (forall c :: c in h.tile && c !in changed ==>
          SizeOf(m', c) == SizeOf(m, c) && NextOf(m', c) == NextOf(m, c))
  }

  lemma HeaderWritten(m: seq<byte>, m': seq<byte>, h: Heap, a: nat)
    requires Shape(h) && Disjoint(h) && a in h.tile && OnlyHeader(m, m', a)
    requires forall c :: c in h.tile ==> c + HEADER <= |m|
    ensures HeadersKept(m, m', h, {a})
  {
    forall c | c in h.tile && c != a
      ensures SizeOf(m', c) == SizeOf(m, c) && NextOf(m', c) == NextOf(m, c)
    {
      HeadersApart(h, a, c);
      HeaderFrame(m, m', a, c);
    }
  }

  lemma ThreadedKept(m: seq<byte>, m': seq<byte>, l: seq<nat>)
    requires Threaded(m, l) && |m'| == |m|
    requires forall i :: 0 <= i < |l| ==> NextOf(m', l[i]) == NextOf(m, l[i])
    ensures Threaded(m', l)
  {
  }

  lemma ThreadedTail(m: seq<byte>, l: seq<nat>)
    requires l != [] && Threaded(m, l)
    ensures Threaded(m, l[1..])
  {
    assert forall i :: 0 <= i < |l| - 1 ==> l[1..][i] == l[i + 1];
  }

  lemma ThreadedCons(m: seq<byte>, a: nat, l: seq<nat>)
    requires Threaded(m, l) && a + HEADER <= |m| && NextOf(m, a) == At(l, 0)
    ensures Threaded(m, [a] + l)
  {
    assert forall i :: 1 <= i <= |l| ==> ([a] + l)[i] == l[i - 1];
  }

  /** A list none of whose blocks is in `changed` is still threaded. */
  lemma ListKept(m: seq<byte>, m': seq<byte>, h: Heap, changed: set<nat>, k: nat, from: nat)
    requires InMemory(m, h) && Shape(h) && Listed(h) && HeadersKept(m, m', h, changed)
    requires k <= MAX_POWER && from <= |h.free[k]| && Threaded(m, h.free[k][from..])
    requires forall i :: from <= i < |h.free[k]| ==> h.free[k][i] !in changed
    ensures Threaded(m', h.free[k][from..])
  {
    var l := h.free[k][from..];
    forall i | 0 <= i < |l| ensures NextOf(m', l[i]) == NextOf(m, l[i]) {
      assert l[i] == h.free[k][from + i];
    }
    ThreadedKept(m, m', l);
  }

  ghost predicate SplitWritten(m: seq<byte>, m': seq<byte>, h: Heap, k: nat)
    requires InMemory(m, h) && |h.free| == MAX_POWER + 1 && 1 <= k <= MAX_POWER && h.free[k] != []
  {
    var a, half := h.free[k][0], Pow2(k - 1);
    && HeadersKept(m, m', h, {a}) && a + half + HEADER <= |m|
    && SizeOf(m', a) == half && NextOf(m', a) == a + half
    && SizeOf(m', a + half) == half && NextOf(m', a + half) == At(h.free[k - 1], 0)
  }

  lemma ThreadedHalves(m: seq<byte>, a: nat, b: nat, l: seq<nat>)
    requires Threaded(m, l) && a + HEADER <= |m| && b + HEADER <= |m|
    requires NextOf(m, a) == b && NextOf(m, b) == At(l, 0)
    ensures Threaded(m, [a, b] + l)
  {
    ThreadedCons(m, b, l);
    ThreadedCons(m, a, [b] + l);
    assert [a, b] + l == [a] + ([b] + l);
  }

  lemma ThreadedSplit(m: seq<byte>, m': seq<byte>, h: Heap, k: nat, q: nat)
    requires Shape(h) && Listed(h) && InMemory(m, h) && 6 <= k <= MAX_POWER && h.free[k] != []
    requires SplitWritten(m, m', h, k) && q <= MAX_POWER && Threaded(m, h.free[q])
    ensures Threaded(m', Split(h, k).free[q])
  {
    hide Threaded, NextOf, SizeOf;
    var a, b := h.free[k][0], h.free[k][0] + Pow2(k - 1);
    var l := h.free[q];
    if q == k {
      ThreadedTail(m, l);
      ListKept(m, m', h, {a}, q, 1);
    } else {
      assert l[0..] == l;
      ListKept(m, m', h, {a}, q, 0) by {
        forall i | 0 <= i < |l| ensures l[i] != a {
          assert h.tile[l[i]] == q && h.tile[a] == k;
        }
      }
      if q == k - 1 {
        ThreadedHalves(m', a, b, l);
      }
    }
  }

  lemma SizedSplit(m: seq<byte>, m': seq<byte>, h: Heap, k: nat)
    requires Shape(h) && InMemory(m, h) && Sized(m, h) && 6 <= k <= MAX_POWER && h.free[k] != []
    requires SplitWritten(m, m', h, k)
    ensures InMemory(m', Split(h, k)) && Sized(m', Split(h, k))
  {
    var h' := Split(h, k);
    var a, b := h.free[k][0], h.free[k][0] + Pow2(k - 1);
    forall c | c in h'.tile ensures c + HEADER <= |m'| && SizeOf(m', c) == Pow2(h'.tile[c]) {
      if c != a && c != b {
        assert c in h.tile && c !in {a};
      }
    }
  }

  lemma HeadedSplit(heads: seq<nat>, h: Heap, k: nat)
    requires Headed(heads, h) && 1 <= k <= MAX_POWER && h.free[k] != []
    ensures Headed(heads[MAX_POWER - k := At(h.free[k], 1)][MAX_POWER - k + 1 := h.free[k][0]], Split(h, k))
  {
  }

  lemma StoredSplit(m: seq<byte>, m': seq<byte>, heads: seq<nat>, h: Heap, k: nat)
    requires Shape(h) && Listed(h) && Stored(m, heads, h) && 6 <= k <= MAX_POWER && h.free[k] != []
    requires SplitWritten(m, m', h, k)
    ensures Stored(m', heads[MAX_POWER - k := At(h.free[k], 1)][MAX_POWER - k + 1 := h.free[k][0]], Split(h, k))
  {
    SizedSplit(m, m', h, k);
    HeadedSplit(heads, h, k);
    forall q | 0 <= q <= MAX_POWER ensures Threaded(m', Split(h, k).free[q]) {
      ThreadedSplit(m, m', h, k, q);
    }
  }

  lemma InitialStored(m: seq<byte>, m': seq<byte>, heads: seq<nat>, base: nat)
    requires 0 < base && base + ARENA + HEADER <= |m| <= WORD_LIMIT && OnlyHeader(m, m', base)
    requires SizeOf(m', base) == ARENA && NextOf(m', base) == 0
    requires |heads| == MAX_POWER + 1 && heads[0] == base && forall i :: 1 <= i <= MAX_POWER ==> heads[i] == 0
    ensures Stored(m', heads, Initial(base)) && Kept(m, m', base, map[])
  {
    hide SizeOf, NextOf;
    Pow2Values();
    var h := Initial(base);
    assert h.free[MAX_POWER] == [base];
    assert forall k :: 0 <= k < MAX_POWER ==> h.free[k] == [];
  }

  ghost predicate InUse(h: Heap, a: nat) {
    Shape(h) && a in Live(h)
  }

  /** Block `a` has been freed, and no byte of the other blocks in use has changed. */
  ghost predicate Released(m: seq<byte>, m': seq<byte>, h: Heap, h': Heap, a: nat) {
    && Inv(h) && InUse(h, a) && h.tile[a] <= MAX_POWER && h' == Free(h, a) && Inv(h')
    && Kept(m, m', h.base, Live(h'))
  }

  lemma ReleasedLive(m: seq<byte>, m': seq<byte>, h: Heap, h': Heap, a: nat)
    requires Released(m, m', h, h', a)
    ensures Inv(h') && h'.base == h.base && Live(h') == Live(h) - {a} && Kept(m, m', h.base, Live(h'))
  {
    FreeCorrect(h, a);
  }

  /** What becomes of a request to move block `a`, by whether the allocation succeeds. */
  ghost predicate ReallocOutcome(m: seq<byte>, m': seq<byte>, h: Heap, h': Heap, a: nat, bytes: nat, newPtr: nat,
                                 fault: bool) {
    && Inv(h) && InUse(h, a) && RequestOrder(bytes) <= MAX_POWER
    && var p := Malloc(h, RequestOrder(bytes)).1;
       && (fault <==> p.None? && bytes > 0)
       && (p.None? ==> newPtr == 0)
       && (fault ==> m' == m && h' == h)
       && (p.None? && !fault ==> Released(m, m', h, h', a))
       && (p.Some? ==> newPtr >= HEADER && Reallocated(m, m', h, h', a, newPtr - HEADER, bytes))
  }

  /** The pointers `kfree` and `krealloc` turn away. */
  predicate Ignored(base: nat, ptr: nat) {
    ptr < base || ptr > base + ARENA
  }

  /**
   The address just past the arena passes that test although no block starts a header before it: to free it would
   write the link field of a header that lies inside the last block of the arena, beyond that block's own link.
   */
  lemma PastTheEnd(h: Heap)
    requires Inv(h)
    ensures var block := h.base + ARENA - HEADER;
      && !Ignored(h.base, block + HEADER) && block !in h.tile
      && exists a :: a in h.tile && a + 16 <= block + 8 && block + HEADER == a + Pow2(h.tile[a])
  {
    hide Listed, BuddyFree, NoOverlap, Pow2;
    var end := h.base + ARENA;
    assert Covered(h.tile, end - 1);
    var a :| a in h.tile && a <= end - 1 < a + Pow2(h.tile[a]);
    forall c | c in h.tile ensures c + 32 <= c + Pow2(h.tile[c]) <= end {
      Pow2Values();
      Pow2Monotone(5, h.tile[c]);
    }
  }

  /** Of the page addresses outside the arena's frames, the one just past them is the only one not turned away. */
  lemma IgnoredIff(base: nat, page: nat)
    requires base % 4096 == 0 && page % 4096 == 0 && (page + 4096 <= base || base + ARENA <= page)
    ensures Ignored(base, page) <==> page != base + ARENA
  {
  }

  /** A place a pointer is stored in: a slot of the bucket array or the link field of a block. */
  datatype Place = Slot(index: nat) | LinkOf(block: nat)

  class BuddyAllocator {
    var mem: seq<byte>
    const bucketList: array<nat>
    const baseAddr: nat
    ghost var heap: Heap

    ghost predicate Represented()
      reads this, bucketList
    {
      && Tiled(heap) && heap.base == baseAddr
      && bucketList.Length == MAX_POWER + 1
      && Stored(mem, bucketList[..], heap)
    }

    ghost predicate Valid()
      reads this, bucketList
    {
      Represented() && Inv(heap)
    }

    constructor (memory: seq<byte>, firstBlock: nat)
      requires 0 < firstBlock && firstBlock + ARENA + HEADER <= |memory| <= WORD_LIMIT
      ensures Valid() && fresh(bucketList) && baseAddr == firstBlock
      ensures heap == Initial(firstBlock)
      ensures Kept(memory, mem, baseAddr, map[])
    {
      hide Stored, Kept, NoOverlap, NoGap, OnlyHeader, SizeOf, NextOf;
      bucketList := new nat[MAX_POWER + 1](_ => 0);
      baseAddr := firstBlock;
      mem := memory;
      heap := Initial(firstBlock);
      new;
      bucketList[0] := firstBlock;
      PutHeader(firstBlock, ARENA, 0);
      InitialInv(firstBlock);
      InitialStored(memory, mem, bucketList[..], firstBlock);
    }

    // `block->size = size; block->next = next;`
    method PutHeader(block: nat, size: nat, next: nat)
      requires block + HEADER <= |mem| && size < WORD_LIMIT && next < WORD_LIMIT
      modifies this`mem
      ensures OnlyHeader(old(mem), mem, block)
      ensures SizeOf(mem, block) == size && NextOf(mem, block) == next
    {
      mem := Store64(mem, block, size);
      LoadStored(old(mem), block, size);
      var sized := mem;
      mem := Store64(mem, block + 8, next);
      LoadStored(sized, block + 8, next);
      LoadFrame(sized, mem, block);
    }

    method PutLink(block: nat, next: nat)
      requires block + HEADER <= |mem| && next < WORD_LIMIT
      modifies this`mem
      ensures OnlyHeader(old(mem), mem, block)
      ensures SizeOf(mem, block) == SizeOf(old(mem), block) && NextOf(mem, block) == next
    {
      mem := Store64(mem, block + 8, next);
      LoadStored(old(mem), block + 8, next);
      LoadFrame(old(mem), mem, block);
    }

    /**
     Takes the first block off the list of `order` and puts its two halves on the list below.
     The guard of `split_block` on `order` can never hold, so its callers keep `order` in range.
     */
    method SplitBlock(order: nat) returns (ok: bool)
      requires Represented() && 6 <= order <= MAX_POWER
      modifies this`mem, this`heap, bucketList
      ensures Represented()
      ensures ok == (old(heap).free[order] != [])
      ensures heap == if ok then Split(old(heap), order) else old(heap)
      ensures !ok ==> mem == old(mem) && bucketList[..] == old(bucketList[..])
      ensures Kept(old(mem), mem, baseAddr, Live(old(heap)))
    {
      hide Tiled, Stored, Kept, Split, Live;
      var index: nat := MAX_POWER - order;
      ListHead(mem, bucketList[..], heap, order);
      if bucketList[index] == 0 {
        NothingWritten(mem, heap);
        return false;
      }
      var block := bucketList[index];
      ghost var h := heap;
      ghost var heads: seq<nat> := bucketList[..];
      ListHead(mem, heads, h, order - 1);
      SplitRoom(mem, heads, h, order);
      bucketList[index] := NextOf(mem, block);
      var half := Pow2(order) / 2;
      var block2 := block + half;
      PutHeader(block2, half, bucketList[index + 1]);
      ghost var m1 := mem;
      PutHeader(block, half, block2);
      bucketList[index + 1] := block;
      heap := Split(h, order);
      SplitDone(old(mem), m1, mem, heads, h, order);
      assert bucketList[..] == heads[index := At(h.free[order], 1)][index + 1 := block];
      return true;
    }

    /** `i` steps along the list of `order`; null one step past its end. */
    method Advance(order: nat, i: nat) returns (curr: nat)
      requires Represented() && order <= MAX_POWER && i <= |heap.free[order]|
      ensures curr == At(heap.free[order], i)
      ensures curr == 0 <==> i == |heap.free[order]|
    {
      hide Tiled, Stored, NextOf, Live;
      ListHead(mem, bucketList[..], heap, order);
      ghost var m, heads, h: Heap, l := mem, bucketList[..], heap, heap.free[order];
      curr := bucketList[MAX_POWER - order];
      var n := i;
      while n > 0
        invariant 0 <= n <= i && curr == At(l, i - n)
      {
        ListNode(m, heads, h, order, i - n);
        curr := NextOf(mem, curr);
        n := n - 1;
      }
      if i < |l| {
        ListNode(m, heads, h, order, i);
      }
    }

    /**
     The position, on the list of `order`, of the buddy of the block at position `i`; -1 if there is none.
     Walking one step past the last block finds nothing.
     */
    method FindBuddy(order: nat, i: nat) returns (r: int)
      requires Represented() && order <= MAX_POWER && i <= |heap.free[order]|
      ensures r == if order > 4 && i < |heap.free[order]|
                   then Position(heap.free[order], Buddy(heap.free[order][i], order))
                   else -1
    {
      hide Tiled, Stored, NextOf, Live, Buddy, Position;
      ListHead(mem, bucketList[..], heap, order);
      if order <= 4 {
        return -1;
      }
      var index: nat := MAX_POWER - order;
      if bucketList[index] == 0 {
        return -1;
      }
      ghost var m, heads, h: Heap, l := mem, bucketList[..], heap, heap.free[order];
      var curr := Advance(order, i);
      if curr == 0 {
        return -1;
      }
      var buddy := Buddy(curr, order);
      curr := bucketList[index];
      var j: nat := 0;
      while curr != 0
        invariant j <= |l| && curr == At(l, j) && buddy !in l[..j]
        decreases |l| - j
      {
        if curr == buddy {
          PositionIs(l, buddy, j);
          return j;
        }
        ListNode(m, heads, h, order, j);
        curr := NextOf(mem, curr);
        j := j + 1;
      }
      if j < |l| {
        ListNode(m, heads, h, order, j);
      }
      assert l[..j] == l;
      PositionNone(l, buddy);
      return -1;
    }

    method Assign(p: Place, v: nat)
      requires p.Slot? ==> p.index < bucketList.Length
      requires p.LinkOf? ==> p.block + HEADER <= |mem|
      requires v < WORD_LIMIT
      modifies this`mem, bucketList
      ensures p.Slot? ==> mem == old(mem) && bucketList[..] == old(bucketList[..])[p.index := v]
      ensures p.LinkOf? ==>
        && bucketList[..] == old(bucketList[..]) && OnlyHeader(old(mem), mem, p.block)
        && SizeOf(mem, p.block) == SizeOf(old(mem), p.block) && NextOf(mem, p.block) == v
    {
      match p
      case Slot(index) => bucketList[index] := v;
      case LinkOf(block) => PutLink(block, v);
    }

    /**
     The inner loop of a merge: walks `buddy` steps down the list, taking `curr` out when it passes it.
     Ends on the buddy, with `p` the place that points at it.
     */
    method WalkToBuddy(order: nat, curr: nat, buddy: nat) returns (p: Place, buddyBlock: nat)
      requires Represented() && order < MAX_POWER && 1 <= buddy < |heap.free[order]|
      requires curr == heap.free[order][0]
      modifies bucketList
      ensures buddyBlock == heap.free[order][buddy]
      ensures p == if buddy == 1 then Slot(MAX_POWER - order) else LinkOf(heap.free[order][buddy - 1])
      ensures bucketList.Length == MAX_POWER + 1
      ensures bucketList[..] == old(bucketList[..])[MAX_POWER - order := heap.free[order][1]]
    {
      hide Tiled, Stored, NextOf, Live;
      var index: nat := MAX_POWER - order;
      ghost var heads: seq<nat> := bucketList[..];
      ghost var m, h := mem, heap;
      ListHead(m, heads, h, order);
      ghost var l := heap.free[order];
      p, buddyBlock := Slot(index), bucketList[index];
      var n := buddy;
      while n > 0
        invariant 0 <= n <= buddy && bucketList.Length == MAX_POWER + 1
        invariant buddyBlock == l[buddy - n]
        invariant p == if buddy - n < 2 then Slot(index) else LinkOf(l[buddy - n - 1])
        invariant n == buddy ==> bucketList[..] == heads
        invariant n < buddy ==> bucketList[..] == heads[index := l[1]]
      {
        ghost var d := buddy - n;
        ListNode(m, heads, h, order, d);
        if d > 0 {
          ListNode(m, heads, h, order, d - 1);
          DistinctFromHead(h, order, d);
        }
        var at := if p.Slot? then bucketList[p.index] else NextOf(mem, p.block);
        assert at == l[d];
        if at == curr {
          bucketList[index] := NextOf(mem, buddyBlock);
          buddyBlock := NextOf(mem, buddyBlock);
        } else {
          p := LinkOf(buddyBlock);
          buddyBlock := NextOf(mem, buddyBlock);
        }
        n := n - 1;
      }
    }

    /** Takes the head of a list and the block `buddy` steps down out of the list. */
    method Unlink(order: nat, curr: nat, buddy: nat) returns (buddyBlock: nat)
      requires Represented() && order < MAX_POWER && 1 <= buddy < |heap.free[order]|
      requires curr == heap.free[order][0]
      modifies this`mem, bucketList
      ensures buddyBlock == heap.free[order][buddy]
      ensures UnlinkWrites(old(mem), mem, heap.free[order], buddy)
      ensures bucketList.Length == MAX_POWER + 1
      ensures bucketList[..] == old(bucketList[..])[MAX_POWER - order := At(Rest(heap.free[order], buddy), 0)]
    {
      hide Tiled, Stored, NextOf, SizeOf, OnlyHeader, Live;
      ghost var heads: seq<nat> := bucketList[..];
      ghost var m, h := mem, heap;
      ListHead(m, heads, h, order);
      ghost var l := heap.free[order];
      ListNode(m, heads, h, order, buddy - 1);
      ListNode(m, heads, h, order, buddy);
      if buddy + 1 < |l| {
        ListNode(m, heads, h, order, buddy + 1);
      }
      var p: Place;
      p, buddyBlock := WalkToBuddy(order, curr, buddy);
      RestHead(l, buddy);
      Assign(p, NextOf(mem, buddyBlock));
      assert bucketList[..] == heads[MAX_POWER - order := At(Rest(l, buddy), 0)];
    }

    /**
     The body of the merging branch: unlinks `block` and the buddy found at position `buddy`, moves on along
     the list, and puts the lower of the two on the list above with twice the size.
     */
    method MergeAt(order: nat, block: nat, buddy: nat) returns (curr: nat)
      requires Represented() && 5 <= order && Mergeable(heap, order, buddy)
      requires block == heap.free[order][0]
      modifies this`mem, this`heap, bucketList
      ensures Represented() && heap == Merge(old(heap), order, buddy)
      ensures Kept(old(mem), mem, baseAddr, Live(old(heap))) && Live(heap) == Live(old(heap))
      ensures curr == At(heap.free[order], 0)
    {
      hide Tiled, Stored, NextOf, SizeOf, OnlyHeader, Live, UnlinkWrites, Kept, Rest;
      ghost var heads: seq<nat> := bucketList[..];
      ghost var m, h := mem, heap;
      var index: nat := MAX_POWER - order;
      ListHead(m, heads, h, order + 1);
      MergeRoom(m, heads, h, order, buddy);
      ghost var l := heap.free[order];
      var buddyBlock := Unlink(order, block, buddy);
      ghost var m1 := mem;
      UnlinkedNext(m, m1, heads, h, order, buddy);
      curr := NextOf(mem, block);
      if curr == buddyBlock {
        curr := NextOf(mem, curr);
      }
      var merged := if buddyBlock > block then block else buddyBlock;
      assert merged == Min(l[0], l[buddy]);
      PutHeader(merged, Pow2(order + 1), bucketList[index - 1]);
      bucketList[index - 1] := merged;
      heap := Merge(h, order, buddy);
      MergeDone(m, m1, mem, heads, h, order, buddy);
      MergeFields(h, order, buddy);
      assert bucketList[..] == heads[index := At(Rest(l, buddy), 0)][index - 1 := merged];
    }

    /** One round of the walk: merges `curr` with its buddy, if it has one, and moves on. */
    method Visit(order: nat, curr: nat, i: nat, merged: bool, ghost h: Heap, ghost m: seq<byte>)
      returns (curr': nat, merged': bool)
      requires Represented() && Walking(h, m, heap, mem, order, curr, i, merged) && curr != 0
      modifies this`mem, this`heap, bucketList
      ensures Represented() && Walking(h, m, heap, mem, order, curr', i + 1, merged')
      ensures |heap.free| == MAX_POWER + 1
      ensures merged ==> merged'
      ensures merged == merged' ==> heap == old(heap) && i <= |heap.free[order]|
    {
      hide Tiled, Shape, Disjoint, Covering, Listed, Stored, NextOf, Live, Kept, HeadOnly, Merge, BuddyFree, HeadBuddy;
      hide Walking, Mergeable, Inv, Position, Buddy;
      WalkBounds(h, m, heap, mem, bucketList[..], order, curr, i, merged);
      var buddy := FindBuddy(order, i);
      if buddy >= 0 {
        OnlyTheHead(h, m, heap, mem, order, curr, i, merged, buddy);
        curr' := MergeAt(order, curr, buddy);
        WalkMerged(h, m, heap, mem, order, curr', buddy);
        merged' := true;
      } else {
        WalkOn(h, m, heap, mem, bucketList[..], order, curr, i, merged);
        curr' := NextOf(mem, curr);
        merged' := merged;
      }
    }

    /**
     One pass over the list of `order`. `curr` and `i` walk it as in `try_to_merge`: after a merge `i`
     runs one ahead of the position of `curr` on the shortened list.
     */
    method TryToMerge(order: nat) returns (merged: bool)
      requires Represented() && 5 <= order < MAX_POWER && HeadOnly(heap, order)
      modifies this`mem, this`heap, bucketList
      ensures Represented()
      ensures merged == (HeadBuddy(old(heap), order) > 0)
      ensures heap == if merged then Merge(old(heap), order, HeadBuddy(old(heap), order)) else old(heap)
      ensures Kept(old(mem), mem, baseAddr, Live(old(heap)))
      ensures Live(heap) == Live(old(heap))
      ensures if merged then HeadOnly(heap, order + 1) else Inv(heap)
    {
      hide Tiled, Stored, Walking, Inv, HeadOnly, Merge, Kept, Live, HeadBuddy;
      ghost var h, m := heap, mem;
      merged := false;
      var i: nat := 0;
      WalkStart(mem, bucketList[..], heap, order);
      var curr := bucketList[MAX_POWER - order];
      while curr != 0
        invariant Represented() && Walking(h, m, heap, mem, order, curr, i, merged) && |heap.free| == MAX_POWER + 1
        decreases !merged, |heap.free[order]| + 1 - i
      {
        curr, merged := Visit(order, curr, i, merged, h, m);
        i := i + 1;
      }
      WalkEnd(h, m, heap, mem, bucketList[..], order, i, merged);
    }

    /** Splits the smallest block above `order` until the list of `order` is not empty; false if there is none. */
    method Refill(order: nat) returns (ok: bool)
      requires Represented() && 5 <= order < MAX_POWER && heap.free[order] == []
      modifies this`mem, this`heap, bucketList
      ensures Represented()
      ensures ok == (FirstFit(old(heap), order) <= MAX_POWER)
      ensures heap == if ok then SplitDown(old(heap), FirstFit(old(heap), order), order) else old(heap)
      ensures !ok ==> mem == old(mem) && bucketList[..] == old(bucketList[..])
      ensures Kept(old(mem), mem, baseAddr, Live(old(heap)))
    {
      hide Shape, Disjoint, Covering, Listed, Stored, Kept, Split, Live, HeadOnly;
      ghost var h, m := heap, mem;
      NothingWritten(m, h);
      FirstFitSkips(h, order, order + 1);
      var t: nat := order + 1;
      while true
        invariant order < t <= MAX_POWER && Represented() && heap == h && mem == m
        invariant bucketList[..] == old(bucketList[..])
        invariant |h.free| == MAX_POWER + 1 && FirstFit(h, order) == FirstFit(h, t)
        decreases MAX_POWER - t
      {
        FirstFitSkips(h, t, t + 1);
        ok := SplitBlock(t);
        t := t + 1;
        if ok {
          break;
        }
        if t > MAX_POWER {
          return false;
        }
      }
      ghost var top: nat := t - 1;
      SplitFields(h, top);
      SplitTiled(h, top);
      SplitLive(h, top);
      t := t - 1;
      t := t - 1;
      while t > order
        invariant order <= t < MAX_POWER && Represented() && |heap.free| == MAX_POWER + 1 && heap.free[t] != []
        invariant SplitDown(heap, t, order) == SplitDown(h, top, order)
        invariant Kept(m, mem, baseAddr, Live(h)) && SameLive(h, heap)
      {
        SplitFields(heap, t);
        SplitTiled(heap, t);
        SplitLive(heap, t);
        ghost var m1 := mem;
        var again := SplitBlock(t);
        KeptTrans(m, m1, mem, baseAddr, Live(h));
        t := t - 1;
      }
    }

    /** Takes the first block off the list of `order`; its link is cleared, its size stays. */
    method TakeHead(order: nat) returns (block: nat)
      requires Represented() && order <= MAX_POWER && heap.free[order] != []
      modifies this`mem, this`heap, bucketList
      ensures Represented()
      ensures block == old(heap).free[order][0] && heap == Pop(old(heap), order)
      ensures Kept(old(mem), mem, baseAddr, Live(old(heap)))
    {
      hide Tiled, Stored, Kept, Live, OnlyHeader, SizeOf, NextOf;
      ghost var h, m, heads: seq<nat> := heap, mem, bucketList[..];
      var index: nat := MAX_POWER - order;
      ListHead(m, heads, h, order);
      block := bucketList[index];
      bucketList[index] := NextOf(mem, block);
      PutLink(block, 0);
      heap := Pop(h, order);
      PopDone(m, mem, heads, h, order);
      assert bucketList[..] == heads[index := At(h.free[order], 1)];
    }

    /**
     Allocation. The order is searched upwards from 4; a request that needs the whole arena must find it
     unsplit, since the search for a block to split starts one list beyond the array.
     */
    method Kmalloc(bytes: nat) returns (ptr: nat)
      requires Valid() && Legal(heap, Alloc(bytes))
      modifies this`mem, this`heap, bucketList
      ensures Valid()
      ensures heap == Malloc(old(heap), RequestOrder(bytes)).0
      ensures var p := Malloc(old(heap), RequestOrder(bytes)).1; ptr == if p.Some? then p.value + HEADER else 0
      ensures ptr != 0 ==> (ptr - baseAddr) % 32 == 24
      ensures ptr == 0 ==> mem == old(mem) && bucketList[..] == old(bucketList[..])
      ensures Kept(old(mem), mem, baseAddr, Live(old(heap)))
    {
      hide Tiled, Stored, Kept, Live, Malloc, SplitDown, Pop, HeadOnly, FirstFit, BuddyFree;
      ghost var h, m := heap, mem;
      var order: nat := 4;
      Pow2Values();
      while Pow2(order) < bytes + HEADER
        invariant 4 <= order && OrderFor(bytes + HEADER, order) == RequestOrder(bytes)
        decreases bytes + HEADER - Pow2(order)
      {
        order := order + 1;
      }
      MallocSteps(h, bytes, order);
      var index: nat := MAX_POWER - order;
      ListHead(m, bucketList[..], h, order);
      NothingWritten(m, h);
      if bucketList[index] == 0 {
        var ok := Refill(order);
        if !ok {
          return 0;
        }
      }
      ghost var m1 := mem;
      var block := TakeHead(order);
      MallocKept(m, m1, mem, h, order);
      MallocGranular(h, order);
      ptr := block + HEADER;
    }

    ghost predicate InRange(ptr: nat)
      reads this
    {
      !Ignored(baseAddr, ptr)
    }

    /** Puts a block in use at the head of the list of its order, read off its size field. */
    method PushFree(block: nat) returns (order: nat)
      requires Valid() && block in Live(heap)
      modifies this`mem, this`heap, bucketList
      ensures Represented() && order == old(heap).tile[block]
      ensures heap == Push(old(heap), block) && 5 <= order <= MAX_POWER && HeadOnly(heap, order)
      ensures Kept(old(mem), mem, baseAddr, Live(heap))
    {
      hide Tiled, Stored, Kept, Live, Push, HeadOnly, BuddyFree, SizeOf, OnlyHeader;
      ghost var h, m, heads: seq<nat> := heap, mem, bucketList[..];
      LiveHeader(m, heads, h, block);
      order := 4;
      while Pow2(order) < SizeOf(mem, block)
        invariant 4 <= order <= h.tile[block]
        decreases Pow2(h.tile[block]) - Pow2(order)
      {
        order := order + 1;
      }
      OrderFound(order, h.tile[block]);
      var index: nat := MAX_POWER - order;
      PushRoom(m, heads, h, order);
      PutLink(block, bucketList[index]);
      bucketList[index] := block;
      heap := Push(h, block);
      PushDone(m, mem, heads, h, block);
      assert bucketList[..] == heads[index := block];
    }

    /**
     Release. Exactly the pointers below the arena or more than its size above its start are ignored; any other must
     be one that `Kmalloc` handed out. The address just past the arena is not ignored, and was never handed out.
     */
    method Kfree(ptr: nat)
      requires Valid() && (InRange(ptr) ==> ptr >= HEADER && InUse(heap, ptr - HEADER))
      modifies this`mem, this`heap, bucketList
      ensures Valid()
      ensures InRange(ptr) ==> Released(old(mem), mem, old(heap), heap, ptr - HEADER)
      ensures !InRange(ptr) ==> heap == old(heap) && mem == old(mem) && bucketList[..] == old(bucketList[..])
    {
      hide Shape, Disjoint, Covering, Listed, Stored, Kept, Live, Push, HeadOnly, BuddyFree, Cascade, Merge, HeadBuddy;
      ghost var h, m := heap, mem;
      NothingWritten(m, h);
      if ptr < baseAddr || ptr > baseAddr + ARENA {
        return;
      }
      var block := ptr - HEADER;
      FreeFacts(h, block);
      var order := PushFree(block);
      ghost var live := Live(heap);
      var again := true;
      while again && order < MAX_POWER
        invariant Represented() && 5 <= order <= MAX_POWER && |heap.free| == MAX_POWER + 1
        invariant again ==> HeadOnly(heap, order) && Cascade(heap, order) == Free(h, block)
        invariant !again ==> heap == Free(h, block)
        invariant Kept(m, mem, baseAddr, live) && SameLive(heap, Push(h, block))
        decreases MAX_POWER - order
      {
        ghost var m1 := mem;
        CascadeStep(heap, order);
        again := TryToMerge(order);
        KeptTrans(m, m1, mem, baseAddr, live);
        order := order + 1;
      }
      CascadeTop(heap);
    }

    /** Forward byte copy. */
    method MemCopy(dest: nat, src: nat, n: nat)
      requires dest + n <= |mem| && src + n <= |mem|
      modifies this`mem
      ensures |mem| == |old(mem)|
      ensures forall x :: 0 <= x < |mem| && !(dest <= x < dest + n) ==> mem[x] == old(mem)[x]
      ensures forall x :: dest <= x < dest + n && !(dest <= x - dest + src < dest + n) ==>
        mem[x] == old(mem)[x - dest + src]
    {
      for i := 0 to n
        invariant |mem| == |old(mem)|
        invariant forall x :: 0 <= x < |mem| && !(dest <= x < dest + i) ==> mem[x] == old(mem)[x]
        invariant forall x :: dest <= x < dest + i && !(dest <= x - dest + src < dest + n) ==>
          mem[x] == old(mem)[x - dest + src]
      {
        mem := mem[dest + i := mem[src + i]];
      }
    }

    /**
     A new block with the beginning of the old payload. If there is no such block the copy goes to address 0 and
     faults, unless no byte was asked for; then the old block is released all the same.
     */
    method Krealloc(ptr: nat, bytes: nat) returns (newPtr: nat, fault: bool)
      requires Valid()
      requires InRange(ptr) ==> ptr >= HEADER && InUse(heap, ptr - HEADER) && Legal(heap, Alloc(bytes))
      modifies this`mem, this`heap, bucketList
      ensures Valid()
      ensures !InRange(ptr) ==> newPtr == 0 && !fault && mem == old(mem) && heap == old(heap)
      ensures InRange(ptr) ==> ReallocOutcome(old(mem), mem, old(heap), heap, ptr - HEADER, bytes, newPtr, fault)
      ensures InRange(ptr) && newPtr != 0 ==> ptr - 24 in old(heap).tile
      ensures InRange(ptr) && newPtr != 0 ==>
        KeepsBytes(old(mem), mem, ptr, newPtr, bytes, Pow2(old(heap).tile[ptr - 24]))
    {
      hide Shape, Disjoint, Covering, Listed, Stored, Kept, Live, Malloc, Free, SizeOf, BuddyFree, Reallocated, OneMore;
      hide Copied, Released;
      if ptr < baseAddr || ptr > baseAddr + ARENA {
        return 0, false;
      }
      var block := ptr - HEADER;
      ghost var h, m := heap, mem;
      ReallocFacts(h, block, bytes);
      newPtr := Kmalloc(bytes);
      if newPtr == 0 {
        LiveHeader(mem, bucketList[..], heap, block);
        var n := if bytes > SizeOf(mem, block) then SizeOf(mem, block) else bytes;
        if n > 0 {
          return 0, true;
        }
        Kfree(ptr);
      } else {
        MovePayload(ptr, newPtr, bytes, h, m);
        PayloadKept(m, mem, h, heap, block, newPtr - HEADER, bytes);
      }
      fault := false;
    }

    /**
     The copy and the release, once there is a new block. As many as `size` bytes are copied, the last from beyond the
     old block.
     */
    method MovePayload(ptr: nat, newPtr: nat, bytes: nat, ghost h: Heap, ghost m: seq<byte>)
      requires Valid() && ptr >= HEADER && InRange(ptr) && InUse(heap, ptr - HEADER) && newPtr >= HEADER
      requires OneMore(h, heap, ptr - HEADER, newPtr - HEADER, bytes) && Inv(h) && h.base == heap.base
      requires Kept(m, mem, h.base, Live(h))
      modifies this`mem, this`heap, bucketList
      ensures Valid() && Reallocated(m, mem, h, heap, ptr - HEADER, newPtr - HEADER, bytes)
    {
      hide Shape, Disjoint, Covering, Listed, Stored, Kept, Live, Free, SizeOf, BuddyFree, Reallocated, OneMore, Copied,
           Released;
      var block := ptr - HEADER;
      ghost var h1, m1, heads1: seq<nat> := heap, mem, bucketList[..];
      ReallocRoom(m1, heads1, h, h1, block, newPtr - HEADER, bytes);
      var n := if bytes > SizeOf(mem, block) then SizeOf(mem, block) else bytes;
      MemCopy(newPtr, ptr, n);
      ghost var m2 := mem;
      CopyDone(m1, m2, heads1, h, h1, block, newPtr - HEADER, bytes, n);
      Kfree(ptr);
      ReleasedLive(m2, mem, h1, heap, block);
      ReallocDone(m, m1, m2, mem, h, h1, heap, block, newPtr - HEADER, bytes);
    }
  }

  /**
   Byte by byte, the payload of the block at `a` in `m` is at the block at `p` in `m'`: as many bytes as were asked for,
   short of the end of the old block of `size`.
   */
  ghost predicate Moved(m: seq<byte>, m': seq<byte>, a: nat, p: nat, size: nat, bytes: nat) {
    && a + size <= |m| && p + HEADER + bytes <= |m'|
    && forall y :: p + HEADER <= y < p + HEADER + bytes && y - p < size ==> m'[y] == m[y - p + a]
  }

  /** Each byte asked for at `newPtr` is the one that was at `ptr`, up to the end of the old block of `size`. */
  ghost predicate KeepsBytes(m: seq<byte>, m': seq<byte>, ptr: nat, newPtr: nat, bytes: nat, size: nat) {
    forall x: nat :: x < bytes && 24 + x < size ==> ByteKept(m, m', ptr, newPtr, x)
  }

  ghost predicate ByteKept(m: seq<byte>, m': seq<byte>, ptr: nat, newPtr: nat, x: nat) {
    ptr + x < |m| && newPtr + x < |m'| && m'[newPtr + x] == m[ptr + x]
  }

  lemma PayloadKept(m: seq<byte>, m': seq<byte>, h: Heap, h': Heap, a: nat, p: nat, bytes: nat)
    requires Reallocated(m, m', h, h', a, p, bytes)
    ensures a in h.tile && KeepsBytes(m, m', a + HEADER, p + HEADER, bytes, Pow2(h.tile[a]))
  {
    hide Tiled, Pow2, Kept;
    var from, to := a + HEADER, p + HEADER;
    forall x: nat | x < bytes && 24 + x < Pow2(h.tile[a]) ensures ByteKept(m, m', from, to, x) {
      var y := to + x;
      assert m'[y] == m[y - p + a];
    }
  }

  /**
   What a reallocation of block `a` to block `p` achieves: `p` is a block not in use before, it replaces `a`
   among the blocks in use, it holds as much of the old payload as fits in both, and the others are as they were.
   */
  ghost predicate Reallocated(m: seq<byte>, m': seq<byte>, h: Heap, h': Heap, a: nat, p: nat, bytes: nat) {
    && Tiled(h) && Tiled(h') && a in Live(h) && p !in Live(h) && |m'| == |m|
    && Live(h') == Live(h)[p := RequestOrder(bytes)] - {a}
    && Moved(m, m', a, p, Pow2(Live(h)[a]), bytes)
    && Kept(m, m', h.base, Live(h) - {a})
  }

  /** How the intermediate heap of a reallocation relates to the first: one more block in use. */
  ghost predicate OneMore(h: Heap, h1: Heap, a: nat, p: nat, bytes: nat) {
    && Inv(h) && Inv(h1) && h1.base == h.base && a in Live(h) && p !in Live(h) && p != a
    && Live(h1) == Live(h)[p := RequestOrder(bytes)]
    && bytes + HEADER <= Pow2(RequestOrder(bytes))
  }

  ghost predicate CopyFrame(m: seq<byte>, m': seq<byte>, dest: nat, src: nat, n: nat) {
    && |m'| == |m| && dest + n <= |m| && src + n <= |m|
    && (forall x :: 0 <= x < |m| && !(dest <= x < dest + n) ==> m'[x] == m[x])
    && (forall x :: dest <= x < dest + n && !(dest <= x - dest + src < dest + n) ==> m'[x] == m[x - dest + src])
  }

  lemma ReallocFacts(h: Heap, a: nat, bytes: nat)
    requires Inv(h) && a in Live(h) && Legal(h, Alloc(bytes))
    ensures RequestOrder(bytes) <= MAX_POWER
    ensures var (h', p) := Malloc(h, RequestOrder(bytes));
      if p.Some? then OneMore(h, h', a, p.value, bytes) else h' == h
  {
    RequestOrderMeaning(bytes);
    MallocCorrect(h, RequestOrder(bytes));
  }

  lemma ReallocRoom(m: seq<byte>, heads: seq<nat>, h: Heap, h1: Heap, a: nat, p: nat, bytes: nat)
    requires OneMore(h, h1, a, p, bytes) && Stored(m, heads, h1)
    ensures a in Live(h1) && a + HEADER <= |m| && SizeOf(m, a) == Pow2(Live(h)[a]) >= HEADER
    ensures a + HEADER + Pow2(Live(h)[a]) <= |m| && p + HEADER + bytes <= |m|
    ensures p in Live(h1) && Live(h1)[p] == RequestOrder(bytes) && Live(h1)[a] == Live(h)[a]
    ensures h1.tile[p] == RequestOrder(bytes) && h1.tile[a] == Live(h)[a]
  {
    assert a in Live(h1) && Live(h1)[a] == Live(h)[a];
    assert p in Live(h1) && Live(h1)[p] == RequestOrder(bytes);
    LiveHeader(m, heads, h1, a);
    Pow2Values();
    Pow2Monotone(5, h1.tile[a]);
  }

  lemma CopyDone(m1: seq<byte>, m2: seq<byte>, heads: seq<nat>, h: Heap, h1: Heap, a: nat, p: nat, bytes: nat, n: nat)
    requires OneMore(h, h1, a, p, bytes) && Stored(m1, heads, h1) && n <= bytes
    requires CopyFrame(m1, m2, p + HEADER, a + HEADER, n)
    requires n == if bytes > Pow2(Live(h)[a]) then Pow2(Live(h)[a]) else bytes
    ensures Stored(m2, heads, h1) && a in Live(h1) && Copied(m1, m2, h, h1, a, p, bytes)
    ensures Inv(Free(h1, a)) && Live(Free(h1, a)) == Live(h1) - {a} && Free(h1, a).base == h.base
  {
    hide Covering, Disjoint, Listed, BuddyFree, Stored, RequestOrder, Pow2, Free;
    ReallocRoom(m1, heads, h, h1, a, p, bytes);
    PayloadWritten(m1, m2, heads, h1, p);
    FreeCorrect(h1, a);
    HeaderOutside(h1, p, a);
    HeaderOutside(h1, a, p);
  }

  /** The copy changed nothing outside the new block, and put there what both blocks have room for. */
  ghost predicate Copied(m1: seq<byte>, m2: seq<byte>, h: Heap, h1: Heap, a: nat, p: nat, bytes: nat) {
    && OneMore(h, h1, a, p, bytes) && |m2| == |m1|
    && (forall x :: 0 <= x < |m1| && !(p <= x < p + Pow2(RequestOrder(bytes))) ==> m2[x] == m1[x])
    && Moved(m1, m2, a, p, Pow2(Live(h)[a]), bytes)
  }

  lemma ReallocDone(m: seq<byte>, m1: seq<byte>, m2: seq<byte>, m3: seq<byte>, h: Heap, h1: Heap, h2: Heap, a: nat,
                    p: nat, bytes: nat)
    requires Copied(m1, m2, h, h1, a, p, bytes) && Inv(h2) && Live(h2) == Live(h1) - {a} && h2.base == h.base
    requires Kept(m, m1, h.base, Live(h)) && Kept(m2, m3, h.base, Live(h2))
    ensures Reallocated(m, m3, h, h2, a, p, bytes)
  {
    hide Covering, Disjoint, Listed, BuddyFree, RequestOrder, Kept, Moved, Pow2;
    KeptSize(m, m1, h.base, Live(h));
    KeptSize(m2, m3, h.base, Live(h2));
    ReallocKept(m, m1, m2, m3, h, h1, h2, a, p, bytes);
    ReallocMoved(m, m1, m2, m3, h, h1, h2, a, p, bytes);
  }

  /** Writing the payload of a block in use, by whoever owns it, leaves the allocator's structures alone. */
  lemma PayloadWritten(m: seq<byte>, m': seq<byte>, heads: seq<nat>, h: Heap, a: nat)
    requires Tiled(h) && Stored(m, heads, h) && a in Live(h) && |m'| == |m|
    requires forall x :: 0 <= x < |m| && !(a + HEADER <= x < a + Pow2(h.tile[a])) ==> m'[x] == m[x]
    ensures Stored(m', heads, h)
  {
    hide Disjoint, Covering, Load64, Pow2;
    forall c | c in h.tile ensures SizeOf(m', c) == SizeOf(m, c) && NextOf(m', c) == NextOf(m, c) {
      HeaderOutside(h, a, c);
      LoadFrame(m, m', c);
      LoadFrame(m, m', c + 8);
    }
    forall k | 0 <= k <= MAX_POWER ensures Threaded(m', h.free[k]) {
      assert Threaded(m, h.free[k]);
      ThreadedKept(m, m', h.free[k]);
    }
  }

  lemma HeaderOutside(h: Heap, a: nat, c: nat)
    requires Tiled(h) && a in h.tile && c in h.tile
    ensures c + HEADER <= a + HEADER || a + Pow2(h.tile[a]) <= c
  {
    Pow2Values();
    Pow2Monotone(5, h.tile[c]);
  }

  /** Blocks other than the old and the new one keep their bytes through allocation, copy and release. */
  lemma ReallocKept(m: seq<byte>, m1: seq<byte>, m2: seq<byte>, m3: seq<byte>, h: Heap, h1: Heap, h2: Heap, a: nat,
                    p: nat, bytes: nat)
    requires Copied(m1, m2, h, h1, a, p, bytes) && Inv(h2) && Live(h2) == Live(h1) - {a} && h2.base == h.base
    requires Kept(m, m1, h.base, Live(h)) && Kept(m2, m3, h.base, Live(h2))
    ensures Kept(m, m3, h.base, Live(h) - {a})
  {
    hide Covering, Listed, BuddyFree, RequestOrder, Moved, Kept, Pow2;
    var keep := Live(h) - {a};
    assert p in Live(h1) && p in h1.tile && h1.tile[p] == RequestOrder(bytes);
    forall c | c in keep
      ensures c in Live(h) && c in Live(h2) && keep[c] == Live(h)[c] == Live(h2)[c]
      ensures c + Pow2(keep[c]) <= p || p + Pow2(RequestOrder(bytes)) <= c
    {
      assert c in Live(h1) && c != p && Live(h1)[c] == Live(h)[c];
      assert c in h1.tile && h1.tile[c] == keep[c];
    }
    KeptThrough(m, m1, m2, m3, h.base, Live(h), Live(h2), keep, p, p + Pow2(RequestOrder(bytes)));
  }

  lemma KeptSize(m: seq<byte>, m': seq<byte>, base: nat, live: map<nat, nat>)
    requires Kept(m, m', base, live)
    ensures |m'| == |m|
  {
  }

  lemma KeptThrough(m: seq<byte>, m1: seq<byte>, m2: seq<byte>, m3: seq<byte>, base: nat,
                    live: map<nat, nat>, live2: map<nat, nat>, keep: map<nat, nat>, p: nat, e: nat)
    requires Kept(m, m1, base, live) && Kept(m2, m3, base, live2) && |m2| == |m1| && base <= p && e <= base + ARENA
    requires forall x :: 0 <= x < |m1| && !(p <= x < e) ==> m2[x] == m1[x]
    requires forall c :: c in keep ==> c in live && c in live2 && keep[c] == live[c] == live2[c]
    requires forall c :: c in keep ==> c + Pow2(keep[c]) <= p || e <= c
    ensures Kept(m, m3, base, keep)
  {
    forall c, x | c in keep && c <= x < c + Pow2(keep[c]) && x < |m| ensures m3[x] == m[x] {
      assert m1[x] == m[x] && m2[x] == m1[x] && m3[x] == m2[x];
    }
  }

  lemma ReallocMoved(m: seq<byte>, m1: seq<byte>, m2: seq<byte>, m3: seq<byte>, h: Heap, h1: Heap, h2: Heap, a: nat,
                     p: nat, bytes: nat)
    requires Copied(m1, m2, h, h1, a, p, bytes) && Inv(h2) && Live(h2) == Live(h1) - {a} && h2.base == h.base
    requires Kept(m, m1, h.base, Live(h)) && Kept(m2, m3, h.base, Live(h2))
    ensures Moved(m, m3, a, p, Pow2(Live(h)[a]), bytes)
  {
    hide NoGap, NoOverlap, Listed, BuddyFree, RequestOrder, Moved, Kept, Pow2;
    assert p in Live(h2) && Live(h2)[p] == RequestOrder(bytes);
    MovedThrough(m, m1, m2, m3, h.base, Live(h), Live(h2), a, p, bytes);
  }

  lemma MovedThrough(m: seq<byte>, m1: seq<byte>, m2: seq<byte>, m3: seq<byte>, base: nat,
                     live: map<nat, nat>, live2: map<nat, nat>, a: nat, p: nat, bytes: nat)
    requires Kept(m, m1, base, live) && Kept(m2, m3, base, live2) && |m2| == |m1|
    requires a in live && p in live2 && bytes + HEADER <= Pow2(live2[p])
    requires Moved(m1, m2, a, p, Pow2(live[a]), bytes)
    ensures Moved(m, m3, a, p, Pow2(live[a]), bytes)
  {
    hide Pow2;
    forall y | p + HEADER <= y < p + HEADER + bytes && y - p < Pow2(live[a]) ensures m3[y] == m[y - p + a] {
      assert m2[y] == m1[y - p + a];
      assert m3[y] == m2[y];
    }
  }

  lemma LiveHeader(m: seq<byte>, heads: seq<nat>, h: Heap, a: nat)
    requires Tiled(h) && Stored(m, heads, h) && a in Live(h)
    ensures a in h.tile && 5 <= h.tile[a] <= MAX_POWER && a + HEADER <= |m| && SizeOf(m, a) == Pow2(h.tile[a])
  {
  }

  lemma OrderFound(o: nat, k: nat)
    requires o <= k && Pow2(o) >= Pow2(k)
    ensures o == k
  {
    Pow2Monotone(o, k);
  }

  lemma PushRoom(m: seq<byte>, heads: seq<nat>, h: Heap, k: nat)
    requires Tiled(h) && Stored(m, heads, h) && k <= MAX_POWER
    ensures |heads| == |h.free| == MAX_POWER + 1 && heads[MAX_POWER - k] == At(h.free[k], 0) < WORD_LIMIT
  {
    ListHead(m, heads, h, k);
  }

  lemma PushDone(m: seq<byte>, m': seq<byte>, heads: seq<nat>, h: Heap, a: nat)
    requires Inv(h) && Stored(m, heads, h) && a in Live(h) && a + HEADER <= |m|
    requires OnlyHeader(m, m', a) && SizeOf(m', a) == SizeOf(m, a)
    requires NextOf(m', a) == At(h.free[h.tile[a]], 0)
    ensures Tiled(Push(h, a)) && HeadOnly(Push(h, a), h.tile[a]) && Push(h, a).base == h.base
    ensures Stored(m', heads[MAX_POWER - h.tile[a] := a], Push(h, a))
    ensures Kept(m, m', h.base, Live(Push(h, a)))
  {
    PushTiled(h, a);
    HeaderWritten(m, m', h, a);
    HeaderKept(m, m', Push(h, a), a);
    PushStored(m, m', heads, h, a);
  }

  lemma PushStored(m: seq<byte>, m': seq<byte>, heads: seq<nat>, h: Heap, a: nat)
    requires Shape(h) && Listed(h) && Stored(m, heads, h) && a in Live(h) && a + HEADER <= |m|
    requires HeadersKept(m, m', h, {a}) && SizeOf(m', a) == SizeOf(m, a)
    requires NextOf(m', a) == At(h.free[h.tile[a]], 0)
    ensures Stored(m', heads[MAX_POWER - h.tile[a] := a], Push(h, a))
  {
    var h' := Push(h, a);
    forall c | c in h'.tile ensures SizeOf(m', c) == Pow2(h'.tile[c]) {
      if c != a {
        assert c in h.tile && c !in {a};
      }
    }
    forall q | 0 <= q <= MAX_POWER ensures Threaded(m', h'.free[q]) {
      assert h.free[q][0..] == h.free[q];
      forall i | 0 <= i < |h.free[q]| ensures h.free[q][i] != a {
        assert h.free[q][i] in h.free[q] && h.tile[h.free[q][i]] == q;
      }
      ListKept(m, m', h, {a}, q, 0);
      if q == h.tile[a] {
        ThreadedCons(m', a, h.free[q]);
      }
    }
  }

  lemma FreeFacts(h: Heap, a: nat)
    requires Inv(h) && a in Live(h)
    ensures a in h.tile && h.tile[a] <= MAX_POWER && |h.free| == MAX_POWER + 1 && |Push(h, a).free| == MAX_POWER + 1
    ensures Shape(Push(h, a)) && Inv(Free(h, a)) && Free(h, a) == Cascade(Push(h, a), h.tile[a])
  {
    PushTiled(h, a);
    FreeCorrect(h, a);
  }

  lemma CascadeStep(h: Heap, k: nat)
    requires Tiled(h) && k < MAX_POWER
    ensures |h.free| == MAX_POWER + 1
    ensures Cascade(h, k) ==
      if HeadBuddy(h, k) > 0 then Cascade(Merge(h, k, HeadBuddy(h, k)), k + 1) else h
    ensures HeadBuddy(h, k) > 0 ==> |Merge(h, k, HeadBuddy(h, k)).free| == MAX_POWER + 1
  {
  }

  lemma CascadeTop(h: Heap)
    requires |h.free| == MAX_POWER + 1
    ensures Cascade(h, MAX_POWER) == h
  {
  }

  lemma PopDone(m: seq<byte>, m': seq<byte>, heads: seq<nat>, h: Heap, k: nat)
    requires Tiled(h) && Stored(m, heads, h) && k <= MAX_POWER && h.free[k] != []
    requires h.free[k][0] + HEADER <= |m| && OnlyHeader(m, m', h.free[k][0])
    requires SizeOf(m', h.free[k][0]) == SizeOf(m, h.free[k][0])
    ensures Tiled(Pop(h, k)) && Stored(m', heads[MAX_POWER - k := At(h.free[k], 1)], Pop(h, k))
    ensures Kept(m, m', h.base, Live(h)) && Pop(h, k).base == h.base
  {
    var a := h.free[k][0];
    ListNode(m, heads, h, k, 0);
    HeaderWritten(m, m', h, a);
    HeaderKept(m, m', h, a);
    PopTiledOnly(h, k);
    PopStored(m, m', heads, h, k);
  }

  lemma PopTiledOnly(h: Heap, k: nat)
    requires Tiled(h) && k <= MAX_POWER && h.free[k] != []
    ensures Tiled(Pop(h, k))
  {
    hide NoOverlap, NoGap;
    forall i | 0 <= i < |h.free[k]| - 1 ensures Pop(h, k).free[k][i] == h.free[k][i + 1] {
    }
  }

  lemma PopStored(m: seq<byte>, m': seq<byte>, heads: seq<nat>, h: Heap, k: nat)
    requires Shape(h) && Listed(h) && Stored(m, heads, h) && k <= MAX_POWER && h.free[k] != []
    requires HeadersKept(m, m', h, {h.free[k][0]})
    requires h.free[k][0] + HEADER <= |m| && SizeOf(m', h.free[k][0]) == SizeOf(m, h.free[k][0])
    ensures Stored(m', heads[MAX_POWER - k := At(h.free[k], 1)], Pop(h, k))
  {
    var a := h.free[k][0];
    var h' := Pop(h, k);
    forall c | c in h'.tile ensures SizeOf(m', c) == Pow2(h'.tile[c]) {
      if c != a {
        assert c in h.tile && c !in {a};
      }
    }
    forall q | 0 <= q <= MAX_POWER ensures Threaded(m', h'.free[q]) {
      if q == k {
        ThreadedTail(m, h.free[k]);
        ListKept(m, m', h, {a}, k, 1);
      } else {
        assert h.free[q][0..] == h.free[q];
        assert forall i :: 0 <= i < |h.free[q]| ==> h.tile[h.free[q][i]] == q;
        ListKept(m, m', h, {a}, q, 0);
      }
    }
  }

  /** The cases `Kmalloc` goes through, as the specification sees them. */
  lemma MallocSteps(h: Heap, bytes: nat, o: nat)
    requires Inv(h) && Legal(h, Alloc(bytes)) && o == RequestOrder(bytes)
    ensures 5 <= o <= MAX_POWER && |h.free| == MAX_POWER + 1 && (o == MAX_POWER ==> h.free[o] != [])
    ensures var t := FirstFit(h, o);
      if t > MAX_POWER then Malloc(h, o) == (h, None)
      else
        && h.free[t] != [] && Malloc(h, o) == (Pop(SplitDown(h, t, o), o), Some(SplitDown(h, t, o).free[o][0]))
        && Inv(Pop(SplitDown(h, t, o), o))
    ensures h.free[o] != [] ==> FirstFit(h, o) == o && SplitDown(h, o, o) == h
  {
    RequestOrderMeaning(bytes);
    MallocCorrect(h, o);
  }

  lemma MallocKept(m: seq<byte>, m1: seq<byte>, m2: seq<byte>, h: Heap, o: nat)
    requires Inv(h) && 5 <= o <= MAX_POWER && FirstFit(h, o) <= MAX_POWER
    requires Kept(m, m1, h.base, Live(h))
    requires Tiled(SplitDown(h, FirstFit(h, o), o)) && Kept(m1, m2, h.base, Live(SplitDown(h, FirstFit(h, o), o)))
    ensures Kept(m, m2, h.base, Live(h))
  {
    var t := FirstFit(h, o);
    TailBuddyFree(h, t);
    SplitDownCorrect(h, t, o);
    KeptTrans(m, m1, m2, h.base, Live(h));
  }

  lemma MallocGranular(h: Heap, o: nat)
    requires Inv(h) && 5 <= o <= MAX_POWER
    ensures var p := Malloc(h, o).1; p.Some? ==> (p.value + HEADER - h.base) % 32 == 24
  {
    hide Malloc, Live, Disjoint, Covering, Listed, BuddyFree, Aligned;
    MallocCorrect(h, o);
    var (h', p) := Malloc(h, o);
    if p.Some? {
      Granular(h', p.value);
    }
  }

  lemma TailBuddyFree(h: Heap, t: nat)
    requires Inv(h) && t <= MAX_POWER
    ensures HeadOnly(h, t)
  {
    assert BuddyFree(h.free[t], t);
    forall i | 0 <= i < |h.free[t]| - 1 ensures h.free[t][1..][i] == h.free[t][i + 1] {
    }
  }

  ghost predicate SameLive(h: Heap, g: Heap)
    requires Shape(h) && Shape(g)
  {
    Live(g) == Live(h)
  }

  lemma FirstFitSkips(h: Heap, o: nat, t: nat)
    requires Tiled(h) && o <= MAX_POWER && t == o + 1
    ensures |h.free| == MAX_POWER + 1
    ensures h.free[o] == [] ==> FirstFit(h, o) == FirstFit(h, t)
    ensures h.free[o] != [] ==> FirstFit(h, o) == o
  {
  }

  /**
   The state of the walk of a merging pass that started from `h`: nothing was found yet and `curr` is at
   position `i`, or the head has been merged and `curr` is one position behind `i` on what is left.
   */
  ghost predicate Walking(h: Heap, m: seq<byte>, g: Heap, m': seq<byte>, k: nat, curr: nat, i: nat, merged: bool)
  {
    && Tiled(h) && Tiled(g) && 5 <= k < MAX_POWER && HeadOnly(h, k)
    && Kept(m, m', h.base, Live(h)) && Live(g) == Live(h) && g.base == h.base
    && if merged then
         && HeadBuddy(h, k) > 0 && g == Merge(h, k, HeadBuddy(h, k)) && HeadOnly(g, k + 1)
         && 1 <= i <= |g.free[k]| + 1 && curr == At(g.free[k], i - 1)
       else
         && g == h && m' == m && (i > 0 ==> HeadBuddy(h, k) < 0)
         && i <= |h.free[k]| && curr == At(h.free[k], i)
  }

  lemma WalkStart(m: seq<byte>, heads: seq<nat>, h: Heap, k: nat)
    requires Tiled(h) && Stored(m, heads, h) && 5 <= k < MAX_POWER && HeadOnly(h, k)
    ensures Walking(h, m, h, m, k, heads[MAX_POWER - k], 0, false) && |h.free| == MAX_POWER + 1
  {
    ListHead(m, heads, h, k);
    KeptRefl(m, h.base, Live(h));
  }

  lemma WalkBounds(h: Heap, m: seq<byte>, g: Heap, m': seq<byte>, heads': seq<nat>, k: nat, curr: nat, i: nat,
                   merged: bool)
    requires Walking(h, m, g, m', k, curr, i, merged) && Stored(m', heads', g) && curr != 0
    ensures 5 <= k < MAX_POWER && |g.free| == |h.free| == MAX_POWER + 1 && g.base == h.base
    ensures i <= |g.free[k]| && curr + HEADER <= |m'|
  {
    StillWalking(m', heads', g, k, if merged then i - 1 else i);
  }

  lemma WalkOn(h: Heap, m: seq<byte>, g: Heap, m': seq<byte>, heads': seq<nat>, k: nat, curr: nat, i: nat, merged: bool)
    requires Walking(h, m, g, m', k, curr, i, merged) && Stored(m', heads', g) && curr != 0 && curr + HEADER <= |m'|
    requires i < |g.free[k]| ==> Position(g.free[k], Buddy(g.free[k][i], k)) < 0
    ensures Walking(h, m, g, m', k, NextOf(m', curr), i + 1, merged)
  {
    StillWalking(m', heads', g, k, if merged then i - 1 else i);
  }

  /** Where a buddy is found on the walk: at the first step, for the head, before anything was merged. */
  lemma OnlyTheHead(h: Heap, m: seq<byte>, g: Heap, m': seq<byte>, k: nat, curr: nat, i: nat, merged: bool, buddy: int)
    requires Walking(h, m, g, m', k, curr, i, merged)
    requires i < |g.free[k]| && buddy >= 0 && buddy == Position(g.free[k], Buddy(g.free[k][i], k))
    ensures !merged && i == 0 && g == h && m' == m && curr == h.free[k][0] == At(h.free[k], 0)
    ensures buddy == HeadBuddy(h, k) && Mergeable(h, k, buddy)
  {
    if !merged && i > 0 {
      HeadOnlySettled(h, k);
    }
    if BuddyFree(g.free[k], k) {
      NoBuddyFound(g.free[k], k, i);
    }
  }

  lemma NoBuddyFound(l: seq<nat>, k: nat, i: nat)
    requires BuddyFree(l, k) && i < |l|
    ensures Position(l, Buddy(l[i], k)) < 0
  {
  }

  lemma WalkMerged(h: Heap, m: seq<byte>, g: Heap, m': seq<byte>, k: nat, curr: nat, buddy: nat)
    requires Mergeable(h, k, buddy) && buddy == HeadBuddy(h, k) && Walking(h, m, h, m, k, At(h.free[k], 0), 0, false)
    requires g == Merge(h, k, buddy) && Tiled(g) && Kept(m, m', h.base, Live(h)) && Live(g) == Live(h)
    requires curr == At(g.free[k], 0)
    ensures Walking(h, m, g, m', k, curr, 1, true) && |g.free| == MAX_POWER + 1
  {
    MergeHeadOnly(h, k, buddy);
  }

  lemma WalkEnd(h: Heap, m: seq<byte>, g: Heap, m': seq<byte>, heads': seq<nat>, k: nat, i: nat, merged: bool)
    requires Walking(h, m, g, m', k, 0, i, merged) && Stored(m', heads', g)
    ensures merged == (HeadBuddy(h, k) > 0)
    ensures g == if merged then Merge(h, k, HeadBuddy(h, k)) else h
    ensures Kept(m, m', h.base, Live(h)) && Live(g) == Live(h)
    ensures if merged then HeadOnly(g, k + 1) else Inv(g)
  {
    if !merged {
      if i == 0 {
        ListHead(m', heads', g, k);
        EmptyHasNoBuddy(h, k);
      }
      HeadOnlySettled(h, k);
    }
  }

  lemma EmptyHasNoBuddy(h: Heap, k: nat)
    requires |h.free| == MAX_POWER + 1 && k <= MAX_POWER && h.free[k] == []
    ensures HeadBuddy(h, k) < 0
  {
  }

  lemma NothingWritten(m: seq<byte>, h: Heap)
    requires Tiled(h)
    ensures Kept(m, m, h.base, Live(h))
  {
    KeptRefl(m, h.base, Live(h));
  }

  lemma KeptRefl(m: seq<byte>, base: nat, live: map<nat, nat>)
    ensures Kept(m, m, base, live)
  {
  }

  lemma StillWalking(m: seq<byte>, heads: seq<nat>, h: Heap, k: nat, i: nat)
    requires Tiled(h) && Stored(m, heads, h) && k <= MAX_POWER && i <= |h.free[k]| && At(h.free[k], i) != 0
    ensures i < |h.free[k]| && h.free[k][i] + HEADER <= |m| && NextOf(m, h.free[k][i]) == At(h.free[k], i + 1)
  {
    if i < |h.free[k]| {
      ListNode(m, heads, h, k, i);
    }
  }

  lemma MergeRoom(m: seq<byte>, heads: seq<nat>, h: Heap, k: nat, j: nat)
    requires Mergeable(h, k, j) && Stored(m, heads, h)
    ensures |m| <= WORD_LIMIT && Pow2(k + 1) < WORD_LIMIT && Min(h.free[k][0], h.free[k][j]) + HEADER <= |m|
    ensures At(h.free[k + 1], 0) < WORD_LIMIT
  {
    hide NoOverlap, NoGap, Listed, Buddy, Pow2, Stored;
    ListNode(m, heads, h, k, 0);
    ListNode(m, heads, h, k, j);
    if h.free[k + 1] != [] {
      ListNode(m, heads, h, k + 1, 0);
    }
    Pow2Values();
    Pow2Monotone(k + 1, MAX_POWER);
  }

  /** After unlinking, the links of the two removed blocks still lead on along the shortened list. */
  lemma UnlinkedNext(m: seq<byte>, m1: seq<byte>, heads: seq<nat>, h: Heap, k: nat, j: nat)
    requires Mergeable(h, k, j) && Stored(m, heads, h) && UnlinkWrites(m, m1, h.free[k], j)
    ensures |m1| == |m| && h.free[k][0] + HEADER <= |m1| && h.free[k][1] + HEADER <= |m1|
    ensures NextOf(m1, h.free[k][0]) == h.free[k][1]
    ensures h.free[k][1] == h.free[k][j] <==> j == 1
    ensures j == 1 ==> NextOf(m1, h.free[k][1]) == At(Rest(h.free[k], j), 0)
    ensures j > 1 ==> h.free[k][1] == At(Rest(h.free[k], j), 0)
  {
    var l := h.free[k];
    ListNode(m, heads, h, k, 0);
    ListNode(m, heads, h, k, 1);
    RestHead(l, j);
    if j > 1 {
      ListNode(m, heads, h, k, j - 1);
      DistinctFromHead(h, k, j - 1);
      HeadersApart(h, l[j - 1], l[0]);
      HeaderFrame(m, m1, l[j - 1], l[0]);
    }
  }

  lemma RestHead(l: seq<nat>, j: nat)
    requires 1 <= j < |l|
    ensures At(Rest(l, j), 0) == if j == 1 then At(l, 2) else l[1]
  {
  }

  lemma DistinctFromHead(h: Heap, k: nat, d: nat)
    requires Tiled(h) && k <= MAX_POWER && 1 <= d < |h.free[k]|
    ensures h.free[k][d] != h.free[k][0]
  {
  }

  /** What a list head tells about the list. */
  lemma ListHead(m: seq<byte>, heads: seq<nat>, h: Heap, k: nat)
    requires Tiled(h) && Stored(m, heads, h) && k <= MAX_POWER
    ensures |heads| == |h.free| == MAX_POWER + 1 && heads[MAX_POWER - k] == At(h.free[k], 0)
    ensures heads[MAX_POWER - k] == 0 <==> h.free[k] == []
    ensures h.free[k] != [] ==>
      && heads[MAX_POWER - k] == h.free[k][0]
      && h.free[k][0] + HEADER <= |m| <= WORD_LIMIT
      && NextOf(m, h.free[k][0]) == At(h.free[k], 1)
  {
    assert Threaded(m, h.free[k]);
    assert h.free[k] != [] ==> h.free[k][0] in h.tile;
  }

  lemma SplitRoom(m: seq<byte>, heads: seq<nat>, h: Heap, k: nat)
    requires Tiled(h) && Stored(m, heads, h) && 6 <= k <= MAX_POWER && h.free[k] != []
    ensures Pow2(k) / 2 == Pow2(k - 1) && Pow2(k - 1) >= HEADER
    ensures h.free[k][0] + Pow2(k - 1) + HEADER <= |m| <= WORD_LIMIT
  {
    Pow2Values();
    Pow2Monotone(5, k - 1);
    assert h.free[k][0] in h.tile;
  }

  /** The two header writes of a split leave memory spelling out the split heap. */
  lemma SplitDone(m: seq<byte>, m1: seq<byte>, m2: seq<byte>, heads: seq<nat>, h: Heap, k: nat)
    requires Tiled(h) && Stored(m, heads, h) && 6 <= k <= MAX_POWER && h.free[k] != []
    requires var a, half := h.free[k][0], Pow2(k - 1);
      && half >= HEADER && a + half + HEADER <= |m|
      && OnlyHeader(m, m1, a + half) && SizeOf(m1, a + half) == half && NextOf(m1, a + half) == At(h.free[k - 1], 0)
      && OnlyHeader(m1, m2, a) && SizeOf(m2, a) == half && NextOf(m2, a) == a + half
    ensures Tiled(Split(h, k)) && Kept(m, m2, h.base, Live(h)) && Split(h, k).base == h.base
    ensures Stored(m2, heads[MAX_POWER - k := At(h.free[k], 1)][MAX_POWER - k + 1 := h.free[k][0]], Split(h, k))
  {
    hide NoOverlap, NoGap, Kept, Live, NextOf, SizeOf, Threaded, Sized, Headed, HeadersKept;
    SplitTiled(h, k);
    SplitFrames(m, m1, m2, h, k);
    HeaderFrame(m1, m2, h.free[k][0], h.free[k][0] + Pow2(k - 1));
    StoredSplit(m, m2, heads, h, k);
  }

  lemma SplitHalves(h: Heap, k: nat)
    requires Tiled(h) && 6 <= k <= MAX_POWER && h.free[k] != [] && Tiled(Split(h, k))
    ensures var h', a, b := Split(h, k), h.free[k][0], h.free[k][0] + Pow2(k - 1);
      Live(h') == Live(h) && a in h'.tile && b in h'.tile && a !in Live(h') && b !in Live(h') && b !in h.tile
  {
    hide NoOverlap, NoGap, Buddy, Pow2;
    SplitLive(h, k);
    SplitDisjoint(h, k);
    SplitFields(h, k);
  }

  /** The two header writes of a split touch the split block only. */
  lemma SplitFrames(m: seq<byte>, m1: seq<byte>, m2: seq<byte>, h: Heap, k: nat)
    requires Tiled(h) && 6 <= k <= MAX_POWER && h.free[k] != [] && Tiled(Split(h, k))
    requires forall c :: c in h.tile ==> c + HEADER <= |m|
    requires h.free[k][0] + Pow2(k - 1) + HEADER <= |m|
    requires OnlyHeader(m, m1, h.free[k][0] + Pow2(k - 1)) && OnlyHeader(m1, m2, h.free[k][0])
    ensures HeadersKept(m, m2, h, {h.free[k][0]})
    ensures Kept(m, m2, h.base, Live(h))
  {
    hide Live, Kept, Covering, Listed, Disjoint, Pow2, OnlyHeader;
    var h' := Split(h, k);
    var a := h.free[k][0];
    var b := a + Pow2(k - 1);
    SplitHalves(h, k);
    HeaderWritten(m, m1, h', b);
    HeaderWritten(m1, m2, h', a);
    HeaderKept(m, m1, h', b);
    HeaderKept(m1, m2, h', a);
    KeptTrans(m, m1, m2, h.base, Live(h));
  }

  lemma ListNode(m: seq<byte>, heads: seq<nat>, h: Heap, k: nat, i: nat)
    requires Tiled(h) && Stored(m, heads, h) && k <= MAX_POWER && i < |h.free[k]|
    ensures h.free[k][i] in h.tile && h.tile[h.free[k][i]] == k && h.free[k][i] !in Live(h)
    ensures h.free[k][i] != 0 && h.free[k][i] + HEADER <= |m| <= WORD_LIMIT
    ensures NextOf(m, h.free[k][i]) == At(h.free[k], i + 1)
    ensures SizeOf(m, h.free[k][i]) == Pow2(k)
  {
    hide Covering, Disjoint;
    assert Threaded(m, h.free[k]);
  }

  lemma {:induction false} PositionIs(l: seq<nat>, x: nat, j: nat)
    requires j < |l| && l[j] == x && x !in l[..j]
    ensures Position(l, x) == j
    decreases l
  {
    if j > 0 {
      assert l[0] == l[..j][0];
      assert l[1..][..j - 1] == l[..j][1..];
      PositionIs(l[1..], x, j - 1);
    }
  }

  lemma {:induction false} PositionNone(l: seq<nat>, x: nat)
    requires x !in l
    ensures Position(l, x) == -1
  {
  }

  /** The list that is left after the head and the block at position `j` have been unlinked. */
  ghost function Rest(l: seq<nat>, j: nat): seq<nat>
    requires 1 <= j < |l|
  {
    l[1..j] + l[j + 1..]
  }

  /**
   The writes that unlink the head and position `j` of a list: the list head is moved on, and from
   position 2 on the link of the block before position `j` is redirected.
   */
  ghost predicate UnlinkWrites(m: seq<byte>, m': seq<byte>, l: seq<nat>, j: nat)
    requires 1 <= j < |l|
  {
    if j == 1 then m' == m
    else
      && l[j - 1] + HEADER <= |m| && OnlyHeader(m, m', l[j - 1])
      && SizeOf(m', l[j - 1]) == SizeOf(m, l[j - 1])
      && NextOf(m', l[j - 1]) == At(l, j + 1)
  }

  lemma UnlinkedAt(m: seq<byte>, m': seq<byte>, h: Heap, k: nat, j: nat, i: nat)
    requires Tiled(h) && InMemory(m, h) && k <= MAX_POWER && 1 <= j < |h.free[k]| && 1 <= i < |h.free[k]| && i != j
    requires Threaded(m, h.free[k]) && UnlinkWrites(m, m', h.free[k], j)
    ensures h.free[k][i] + HEADER <= |m'|
    ensures NextOf(m', h.free[k][i]) == At(h.free[k], if i + 1 == j then j + 1 else i + 1)
  {
    hide NoOverlap, NoGap, NextOf, SizeOf, OnlyHeader;
    var l := h.free[k];
    assert l[i] in h.tile;
    assert NextOf(m, l[i]) == At(l, i + 1);
    if j > 1 {
      assert l[j - 1] in h.tile;
      HeaderWritten(m, m', h, l[j - 1]);
      assert i != j - 1 ==> l[i] != l[j - 1];
    }
  }

  lemma UnlinkedRest(m: seq<byte>, m': seq<byte>, h: Heap, k: nat, j: nat)
    requires Tiled(h) && InMemory(m, h) && k <= MAX_POWER && 1 <= j < |h.free[k]|
    requires Threaded(m, h.free[k]) && UnlinkWrites(m, m', h.free[k], j)
    ensures Threaded(m', Rest(h.free[k], j))
  {
    hide NoOverlap, NoGap, NextOf, SizeOf, OnlyHeader, Listed, UnlinkWrites;
    var l := h.free[k];
    var r := Rest(l, j);
    RemovedPair(l, j);
    forall i | 0 <= i < |r| ensures r[i] + HEADER <= |m'| && NextOf(m', r[i]) == At(r, i + 1) {
      UnlinkedAt(m, m', h, k, j, if i < j - 1 then i + 1 else i + 2);
    }
  }

  /** Both writes of a merge are to headers of free blocks. */
  ghost predicate MergeWrites(m: seq<byte>, m1: seq<byte>, m2: seq<byte>, h: Heap, k: nat, j: nat)
    requires InMemory(m, h) && |h.free| == MAX_POWER + 1 && k < MAX_POWER && 1 <= j < |h.free[k]|
  {
    var lo := Min(h.free[k][0], h.free[k][j]);
    && UnlinkWrites(m, m1, h.free[k], j)
    && lo + HEADER <= |m1| && OnlyHeader(m1, m2, lo) && SizeOf(m2, lo) == Pow2(k + 1) &&
       NextOf(m2, lo) == At(h.free[k + 1], 0)
  }

  lemma MergeFrames(m: seq<byte>, m1: seq<byte>, m2: seq<byte>, heads: seq<nat>, h: Heap, k: nat, j: nat)
    requires Mergeable(h, k, j) && Stored(m, heads, h)
    requires MergeWrites(m, m1, m2, h, k, j)
    ensures |m1| == |m2| == |m| && Kept(m, m2, h.base, Live(h))
    ensures j == 1 ==> HeadersKept(m, m1, h, {})
    ensures j > 1 ==> HeadersKept(m, m1, h, {h.free[k][j - 1]})
    ensures HeadersKept(m1, m2, h, {Min(h.free[k][0], h.free[k][j])})
  {
    var l := h.free[k];
    ListNode(m, heads, h, k, 0);
    ListNode(m, heads, h, k, j);
    ListNode(m, heads, h, k, j - 1);
    var lo := Min(l[0], l[j]);
    assert InMemory(m1, h);
    if j > 1 {
      HeaderWritten(m, m1, h, l[j - 1]);
      HeaderKept(m, m1, h, l[j - 1]);
    }
    HeaderWritten(m1, m2, h, lo);
    HeaderKept(m1, m2, h, lo);
    hide Kept, Live, Tiled;
    if j > 1 {
      KeptTrans(m, m1, m2, h.base, Live(h));
    }
  }

  lemma ThreadedMergeRest(m: seq<byte>, m1: seq<byte>, m2: seq<byte>, heads: seq<nat>, h: Heap, k: nat, j: nat)
    requires Mergeable(h, k, j) && Stored(m, heads, h)
    requires MergeWrites(m, m1, m2, h, k, j)
    ensures Threaded(m2, Rest(h.free[k], j))
  {
    hide Covering, Disjoint, Kept, Live, OnlyHeader, Sized, Headed;
    MergeFrames(m, m1, m2, heads, h, k, j);
    UnlinkedRest(m, m1, h, k, j);
    var l := h.free[k];
    RemovedPair(l, j);
    var r := Rest(l, j);
    forall i | 0 <= i < |r| ensures NextOf(m2, r[i]) == NextOf(m1, r[i]) {
      var i' := if i < j - 1 then i + 1 else i + 2;
      assert r[i] == l[i'] && l[i'] in h.tile && l[i'] != l[0] && l[i'] != l[j];
    }
    ThreadedKept(m1, m2, r);
  }

  lemma ThreadedMergeOther(m: seq<byte>, m1: seq<byte>, m2: seq<byte>, heads: seq<nat>, h: Heap, k: nat, j: nat, q: nat)
    requires Mergeable(h, k, j) && Stored(m, heads, h) && q <= MAX_POWER && q != k
    requires MergeWrites(m, m1, m2, h, k, j)
    ensures Threaded(m2, h.free[q])
  {
    hide Covering, Disjoint, Kept, Live, OnlyHeader, Sized, Headed, Threaded, MergeWrites;
    MergeFrames(m, m1, m2, heads, h, k, j);
    var l := h.free[k];
    assert h.free[q][0..] == h.free[q];
    forall i | 0 <= i < |h.free[q]| ensures h.tile[h.free[q][i]] == q {
    }
    assert h.tile[l[0]] == h.tile[l[j]] == h.tile[l[j - 1]] == k;
    ListKept(m, m1, h, if j > 1 then {l[j - 1]} else {}, q, 0);
    ListKept(m1, m2, h, {Min(l[0], l[j])}, q, 0);
  }

  lemma ThreadedMergeUp(m: seq<byte>, m1: seq<byte>, m2: seq<byte>, heads: seq<nat>, h: Heap, k: nat, j: nat)
    requires Mergeable(h, k, j) && Stored(m, heads, h)
    requires MergeWrites(m, m1, m2, h, k, j)
    ensures Threaded(m2, [Min(h.free[k][0], h.free[k][j])] + h.free[k + 1])
  {
    hide NoOverlap, NoGap, Listed, Stored, Threaded, OnlyHeader, UnlinkWrites, Kept, HeadersKept, Live, NextOf, SizeOf;
    MergeFrames(m, m1, m2, heads, h, k, j);
    ThreadedMergeOther(m, m1, m2, heads, h, k, j, k + 1);
    ThreadedCons(m2, Min(h.free[k][0], h.free[k][j]), h.free[k + 1]);
  }

  lemma ThreadedMerge(m: seq<byte>, m1: seq<byte>, m2: seq<byte>, heads: seq<nat>, h: Heap, k: nat, j: nat, q: nat)
    requires Mergeable(h, k, j) && Stored(m, heads, h) && q <= MAX_POWER
    requires MergeWrites(m, m1, m2, h, k, j)
    ensures Threaded(m2, Merge(h, k, j).free[q])
  {
    hide NoOverlap, NoGap, Listed, Stored, Threaded, MergeWrites;
    if q == k {
      ThreadedMergeRest(m, m1, m2, heads, h, k, j);
    } else if q == k + 1 {
      ThreadedMergeUp(m, m1, m2, heads, h, k, j);
    } else {
      ThreadedMergeOther(m, m1, m2, heads, h, k, j, q);
    }
  }

  lemma HeadedMerge(heads: seq<nat>, h: Heap, k: nat, j: nat)
    requires Headed(heads, h) && k < MAX_POWER && 1 <= j < |h.free[k]|
    ensures Headed(
              heads[MAX_POWER - k := At(Rest(h.free[k], j), 0)][MAX_POWER - k - 1 := Min(h.free[k][0], h.free[k][j])],
              Merge(h, k, j))
  {
  }

  lemma SizedMerge(m: seq<byte>, m1: seq<byte>, m2: seq<byte>, heads: seq<nat>, h: Heap, k: nat, j: nat)
    requires Mergeable(h, k, j) && Stored(m, heads, h)
    requires MergeWrites(m, m1, m2, h, k, j)
    ensures InMemory(m2, Merge(h, k, j)) && Sized(m2, Merge(h, k, j))
  {
    hide Covering, Disjoint, Kept, Live, OnlyHeader, Threaded;
    MergeFrames(m, m1, m2, heads, h, k, j);
    var h' := Merge(h, k, j);
    var l := h.free[k];
    forall c | c in h'.tile ensures SizeOf(m2, c) == Pow2(h'.tile[c]) {
      if c != Min(l[0], l[j]) {
        assert c in h.tile && h'.tile[c] == h.tile[c];
        assert SizeOf(m1, c) == SizeOf(m, c);
      }
    }
  }

  lemma MergeFields(h: Heap, k: nat, j: nat)
    requires |h.free| == MAX_POWER + 1 && k < MAX_POWER && 1 <= j < |h.free[k]|
    ensures Merge(h, k, j).base == h.base && |Merge(h, k, j).free| == MAX_POWER + 1
    ensures Merge(h, k, j).free[k] == Rest(h.free[k], j)
  {
  }

  lemma MergeDone(m: seq<byte>, m1: seq<byte>, m2: seq<byte>, heads: seq<nat>, h: Heap, k: nat, j: nat)
    requires Mergeable(h, k, j) && Stored(m, heads, h)
    requires MergeWrites(m, m1, m2, h, k, j)
    ensures Tiled(Merge(h, k, j)) && Kept(m, m2, h.base, Live(h)) && Live(Merge(h, k, j)) == Live(h)
    ensures Stored(m2,
                   heads[MAX_POWER - k := At(Rest(h.free[k], j), 0)]
                        [MAX_POWER - k - 1 := Min(h.free[k][0], h.free[k][j])],
                   Merge(h, k, j))
  {
    hide Kept, Live, InMemory, Sized, Threaded, MergeWrites, Headed;
    MergeTiled(h, k, j);
    MergeLive(h, k, j);
    MergeFrames(m, m1, m2, heads, h, k, j);
    SizedMerge(m, m1, m2, heads, h, k, j);
    HeadedMerge(heads, h, k, j);
    forall q | 0 <= q <= MAX_POWER ensures Threaded(m2, Merge(h, k, j).free[q]) {
      ThreadedMerge(m, m1, m2, heads, h, k, j, q);
    }
  }
}
