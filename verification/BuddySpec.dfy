/**
 The buddy allocator on values: which blocks tile the arena and in which order the free ones
 are listed. `Heap.tile` maps the address of every block, free or live, to its order; `Heap.free[k]`
 lists the free blocks of order `k` from the head of the list on. A block that is on no list is live.
 */
module BuddySpec {
  import opened Wrappers
  import opened Arith

  const MAX_POWER: nat := 20
  const ARENA: nat := 0x10_0000
  const HEADER: nat := 24

  datatype Heap = Heap(base: nat, tile: map<nat, nat>, free: seq<seq<nat>>)

  function Initial(base: nat): Heap {
    Heap(base, map[base := MAX_POWER], seq(MAX_POWER + 1, k => if k == MAX_POWER then [base] else []))
  }

  function Buddy(a: nat, k: nat): nat {
    BitXor(a, Pow2(k))
  }

  lemma BuddyFacts(a: nat, k: nat)
    ensures Buddy(a, k) == Flip(a, k) != a
    ensures Buddy(Buddy(a, k), k) == a
  {
    XorWithPowerOfTwo(a, k);
    XorWithPowerOfTwo(Flip(a, k), k);
    FlipInvolution(a, k);
  }

  // ---------------------------------------------------------------- invariants

  ghost predicate Shape(h: Heap) {
    && |h.free| == MAX_POWER + 1
    && (forall a :: a in h.tile ==>
          5 <= h.tile[a] <= MAX_POWER && h.base <= a && a + Pow2(h.tile[a]) <= h.base + ARENA)
  }

  /** No two blocks overlap. */
  ghost predicate NoOverlap(tile: map<nat, nat>) {
    forall a, b :: a in tile && b in tile && a < b ==> a + Pow2(tile[a]) <= b
  }

  ghost predicate Disjoint(h: Heap) {
    NoOverlap(h.tile)
  }

  ghost predicate Covered(tile: map<nat, nat>, x: nat) {
    exists a :: a in tile && a <= x < a + Pow2(tile[a])
  }

  /** The blocks leave no gap. */
  ghost predicate NoGap(base: nat, tile: map<nat, nat>) {
    forall x :: base <= x < base + ARENA ==> Covered(tile, x)
  }

  ghost predicate Covering(h: Heap) {
    NoGap(h.base, h.tile)
  }

  /** The lists hold blocks of their own order, each once. */
  ghost predicate Listed(h: Heap)
    requires |h.free| == MAX_POWER + 1
  {
    && (forall k, i :: 0 <= k <= MAX_POWER && 0 <= i < |h.free[k]| ==>
          h.free[k][i] in h.tile && h.tile[h.free[k][i]] == k)
    && (forall k, i, j :: 0 <= k <= MAX_POWER && 0 <= i < j < |h.free[k]| ==>
          h.free[k][i] != h.free[k][j])
  }

  ghost predicate Tiled(h: Heap) {
    Shape(h) && Disjoint(h) && Covering(h) && Listed(h)
  }

  ghost predicate BuddyFree(l: seq<nat>, k: nat) {
    forall i, j :: 0 <= i < |l| && 0 <= j < |l| ==> l[j] != Buddy(l[i], k)
  }

  /** What holds between calls. */
  ghost predicate Inv(h: Heap) {
    Tiled(h) && forall k :: 0 <= k <= MAX_POWER ==> BuddyFree(h.free[k], k)
  }

  /** What holds while a block of order `k` is being handed over: only the head of its list may have a buddy. */
  ghost predicate HeadOnly(h: Heap, k: nat)
    requires |h.free| == MAX_POWER + 1 && k <= MAX_POWER
  {
    && (forall m :: 0 <= m <= MAX_POWER && m != k ==> BuddyFree(h.free[m], m))
    && (h.free[k] != [] ==> BuddyFree(h.free[k][1..], k))
  }

  ghost predicate Aligned(h: Heap) {
    forall a :: a in h.tile ==> a % Pow2(h.tile[a]) == 0
  }

  lemma {:induction false} PowerGranular(k: nat)
    requires 5 <= k
    ensures Pow2(k) % 32 == 0
  {
    if k == 5 {
      Pow2Values();
    } else {
      PowerGranular(k - 1);
    }
  }

  /** A whole number of smallest blocks lies between the start of the arena and any block. */
  lemma {:induction false} Granular(h: Heap, a: nat)
    requires Tiled(h) && a in h.tile
    ensures (a - h.base) % 32 == 0
  {
    hide Listed, Pow2;
    if a > h.base {
      assert Covered(h.tile, a - 1);
      var c :| c in h.tile && c <= a - 1 < c + Pow2(h.tile[c]);
      assert c + Pow2(h.tile[c]) == a;
      Granular(h, c);
      PowerGranular(h.tile[c]);
    }
  }

  /** The blocks that are on a list. */
  ghost function OnLists(h: Heap): set<nat>
    requires Shape(h)
  {
    set a | a in h.tile && a in h.free[h.tile[a]]
  }

  /** The blocks in use, with their orders. */
  ghost function Live(h: Heap): map<nat, nat>
    requires Shape(h)
  {
    h.tile - OnLists(h)
  }

  lemma InitialInv(base: nat)
    ensures Inv(Initial(base)) && Live(Initial(base)) == map[]
    ensures base % ARENA == 0 ==> Aligned(Initial(base))
  {
    hide Buddy, Pow2;
    Pow2Values();
    var h := Initial(base);
    BuddyFacts(base, MAX_POWER);
    assert NoGap(base, h.tile) by {
      assert base in h.tile;
    }
    assert h.free[MAX_POWER] == [base];
    assert forall k :: 0 <= k < MAX_POWER ==> h.free[k] == [];
  }

  // ---------------------------------------------------------------- splitting

  function Split(h: Heap, k: nat): Heap
    requires |h.free| == MAX_POWER + 1 && 1 <= k <= MAX_POWER && h.free[k] != []
  {
    var a := h.free[k][0];
    var half := Pow2(k - 1);
    Heap(h.base,
         h.tile[a := k - 1][a + half := k - 1],
         h.free[k := h.free[k][1..]][k - 1 := [a, a + half] + h.free[k - 1]])
  }

  lemma SplitTiled(h: Heap, k: nat)
    requires Tiled(h) && 6 <= k <= MAX_POWER && h.free[k] != []
    ensures Tiled(Split(h, k))
  {
    SplitDisjoint(h, k);
    SplitCovering(h, k);
    SplitListed(h, k);
  }

  lemma HalvesNoOverlap(tile: map<nat, nat>, a: nat, k: nat)
    requires NoOverlap(tile) && a in tile && tile[a] == k >= 1
    ensures a + Pow2(k - 1) !in tile
    ensures NoOverlap(tile[a := k - 1][a + Pow2(k - 1) := k - 1])
  {
    var b := a + Pow2(k - 1);
    var t := tile[a := k - 1][b := k - 1];
    assert Pow2(k) == 2 * Pow2(k - 1);
    forall x, y | x in t && y in t && x < y ensures x + Pow2(t[x]) <= y {
      assert x == b || x in tile;
      assert y == b || y in tile;
    }
  }

  lemma SplitDisjoint(h: Heap, k: nat)
    requires Tiled(h) && 6 <= k <= MAX_POWER && h.free[k] != []
    ensures Shape(Split(h, k)) && Disjoint(Split(h, k))
    ensures h.free[k][0] + Pow2(k - 1) !in h.tile
  {
    hide NoGap, NoOverlap;
    var a := h.free[k][0];
    assert a in h.tile && h.tile[a] == k;
    assert Pow2(k) == 2 * Pow2(k - 1);
    HalvesNoOverlap(h.tile, a, k);
  }

  lemma SplitCovering(h: Heap, k: nat)
    requires Tiled(h) && 6 <= k <= MAX_POWER && h.free[k] != []
    ensures Covering(Split(h, k))
  {
    hide NoOverlap;
    var h' := Split(h, k);
    var a := h.free[k][0];
    var b := a + Pow2(k - 1);
    assert Pow2(k) == 2 * Pow2(k - 1);
    SplitDisjoint(h, k);
    forall x | h.base <= x < h.base + ARENA ensures Covered(h'.tile, x) {
      assert Covered(h.tile, x);
      var c :| c in h.tile && c <= x < c + Pow2(h.tile[c]);
      if c == a {
        var d := if x < b then a else b;
        assert d in h'.tile && d <= x < d + Pow2(h'.tile[d]);
      } else {
        assert c in h'.tile && h'.tile[c] == h.tile[c];
      }
    }
  }

  lemma SplitAligned(h: Heap, k: nat)
    requires Tiled(h) && Aligned(h) && 6 <= k <= MAX_POWER && h.free[k] != []
    ensures Aligned(Split(h, k))
  {
    var h' := Split(h, k);
    var a := h.free[k][0];
    AlignedHalves(a, k) by { assert a in h.tile && h.tile[a] == k; }
    forall c | c in h'.tile ensures c % Pow2(h'.tile[c]) == 0 {
      if c != a && c != a + Pow2(k - 1) {
        assert c in h.tile && h'.tile[c] == h.tile[c];
      }
    }
  }

  /** The lists after a split. */
  lemma SplitFields(h: Heap, k: nat)
    requires |h.free| == MAX_POWER + 1 && 1 <= k <= MAX_POWER && h.free[k] != []
    ensures var h' := Split(h, k);
      && h'.base == h.base && |h'.free| == MAX_POWER + 1
      && h'.free[k] == h.free[k][1..]
      && h'.free[k - 1] == [h.free[k][0], h.free[k][0] + Pow2(k - 1)] + h.free[k - 1]
      && h'.free[k - 1] != [] && h'.free[k - 1][0] == h.free[k][0]
      && (forall m :: 0 <= m <= MAX_POWER && m != k && m != k - 1 ==> h'.free[m] == h.free[m])
  {
  }

  lemma SplitListed(h: Heap, k: nat)
    requires Tiled(h) && 6 <= k <= MAX_POWER && h.free[k] != []
    ensures Listed(Split(h, k))
  {
    hide Covering, Disjoint;
    SplitMembers(h, k);
    SplitDistinct(h, k);
  }

  lemma SplitMembers(h: Heap, k: nat)
    requires Tiled(h) && 6 <= k <= MAX_POWER && h.free[k] != []
    ensures var h' := Split(h, k); forall m, i :: 0 <= m <= MAX_POWER && 0 <= i < |h'.free[m]| ==>
      h'.free[m][i] in h'.tile && h'.tile[h'.free[m][i]] == m
  {
    hide Covering, Disjoint;
    SplitDisjoint(h, k);
    var h' := Split(h, k);
    var a := h.free[k][0];
    forall m, i | 0 <= m <= MAX_POWER && 0 <= i < |h'.free[m]|
      ensures h'.free[m][i] in h'.tile && h'.tile[h'.free[m][i]] == m
    {
      if m == k {
        assert h'.free[m][i] == h.free[k][i + 1] != a;
      } else if m == k - 1 {
        assert i >= 2 ==> h'.free[m][i] == h.free[m][i - 2];
      } else {
        assert h'.free[m] == h.free[m];
      }
    }
  }

  lemma SplitDistinct(h: Heap, k: nat)
    requires Tiled(h) && 6 <= k <= MAX_POWER && h.free[k] != []
    ensures var h' := Split(h, k); forall m, i, j :: 0 <= m <= MAX_POWER && 0 <= i < j < |h'.free[m]| ==>
      h'.free[m][i] != h'.free[m][j]
  {
    hide Covering, Disjoint;
    SplitDisjoint(h, k);
    var h' := Split(h, k);
    forall m, i, j | 0 <= m <= MAX_POWER && 0 <= i < j < |h'.free[m]|
      ensures h'.free[m][i] != h'.free[m][j]
    {
      if m == k {
        assert h'.free[m][i] == h.free[k][i + 1] && h'.free[m][j] == h.free[k][j + 1];
      } else if m == k - 1 {
        assert j >= 2 ==> h'.free[m][j] == h.free[m][j - 2];
        assert i >= 2 ==> h'.free[m][i] == h.free[m][i - 2];
      } else {
        assert h'.free[m] == h.free[m];
      }
    }
  }

  lemma AlignedHalves(a: nat, k: nat)
    requires k >= 1 && a % Pow2(k) == 0
    ensures a % Pow2(k - 1) == 0 && (a + Pow2(k - 1)) % Pow2(k - 1) == 0
  {
    var p := Pow2(k - 1);
    var q := a / Pow2(k);
    assert a == p * (2 * q);
    DivUnique(a, p, 2 * q, 0);
    assert a + p == p * (2 * q + 1);
    DivUnique(a + p, p, 2 * q + 1, 0);
  }

  lemma SplitLive(h: Heap, k: nat)
    requires Tiled(h) && 6 <= k <= MAX_POWER && h.free[k] != []
    requires Tiled(Split(h, k))
    ensures Live(Split(h, k)) == Live(h)
  {
    hide NoOverlap, NoGap, Buddy, Pow2;
    var h' := Split(h, k);
    var a := h.free[k][0];
    var b := a + Pow2(k - 1);
    SplitDisjoint(h, k);
    assert a in h'.free[k - 1] && b in h'.free[k - 1] by {
      assert h'.free[k - 1][0] == a && h'.free[k - 1][1] == b;
    }
    forall c | c in h.tile && c != a
      ensures c in h'.free[h.tile[c]] <==> c in h.free[h.tile[c]]
    {
      var m := h.tile[c];
      if m == k {
        assert h.free[k] == [a] + h'.free[k];
      }
    }
  }

  // ---------------------------------------------------------------- merging

  function Min(a: nat, b: nat): nat { if a < b then a else b }
  function Max(a: nat, b: nat): nat { if a < b then b else a }

  /** The head of list `k` and the block at position `j` of that list become one block of order `k + 1`. */
  function Merge(h: Heap, k: nat, j: nat): Heap
    requires |h.free| == MAX_POWER + 1 && k < MAX_POWER && 1 <= j < |h.free[k]|
  {
    var l := h.free[k];
    var lo, hi := Min(l[0], l[j]), Max(l[0], l[j]);
    Heap(h.base,
         (h.tile - {hi})[lo := k + 1],
         h.free[k := l[1..j] + l[j + 1..]][k + 1 := [lo] + h.free[k + 1]])
  }

  ghost predicate Mergeable(h: Heap, k: nat, j: nat) {
    && Tiled(h) && k < MAX_POWER && 1 <= j < |h.free[k]|
    && h.free[k][j] == Buddy(h.free[k][0], k)
  }

  lemma MergedPair(h: Heap, k: nat, j: nat)
    requires Mergeable(h, k, j)
    ensures var l := h.free[k];
      && l[0] in h.tile && h.tile[l[0]] == k && l[j] in h.tile && h.tile[l[j]] == k
      && Max(l[0], l[j]) == Min(l[0], l[j]) + Pow2(k)
      && Pow2(k + 1) == 2 * Pow2(k)
  {
    BuddyFacts(h.free[k][0], k);
  }

  lemma MergeTiled(h: Heap, k: nat, j: nat)
    requires Mergeable(h, k, j)
    ensures Tiled(Merge(h, k, j))
  {
    MergeDisjoint(h, k, j);
    MergeCovering(h, k, j);
    MergeListed(h, k, j);
  }

  lemma PairNoOverlap(tile: map<nat, nat>, lo: nat, hi: nat, k: nat)
    requires NoOverlap(tile) && lo in tile && hi in tile && tile[lo] == tile[hi] == k && hi == lo + Pow2(k)
    ensures NoOverlap((tile - {hi})[lo := k + 1])
  {
    var t := (tile - {hi})[lo := k + 1];
    assert Pow2(k + 1) == 2 * Pow2(k);
    forall x, y | x in t && y in t && x < y ensures x + Pow2(t[x]) <= y {
      assert x in tile && y in tile && y != hi;
      assert hi + Pow2(k) <= y || y < hi;
    }
  }

  lemma MergeDisjoint(h: Heap, k: nat, j: nat)
    requires Mergeable(h, k, j)
    ensures Shape(Merge(h, k, j)) && Disjoint(Merge(h, k, j))
  {
    hide NoGap, Listed, NoOverlap;
    MergedPair(h, k, j);
    PairNoOverlap(h.tile, Min(h.free[k][0], h.free[k][j]), Max(h.free[k][0], h.free[k][j]), k);
  }

  lemma MergeCovering(h: Heap, k: nat, j: nat)
    requires Mergeable(h, k, j)
    ensures Covering(Merge(h, k, j))
  {
    hide NoOverlap, Listed, Buddy, Pow2;
    MergedPair(h, k, j);
    var h' := Merge(h, k, j);
    var l := h.free[k];
    var lo, hi := Min(l[0], l[j]), Max(l[0], l[j]);
    forall x | h.base <= x < h.base + ARENA ensures Covered(h'.tile, x) {
      assert Covered(h.tile, x);
      var c :| c in h.tile && c <= x < c + Pow2(h.tile[c]);
      if c == lo || c == hi {
        assert lo in h'.tile && lo <= x < lo + Pow2(h'.tile[lo]);
      } else {
        assert c in h'.tile && h'.tile[c] == h.tile[c];
      }
    }
  }

  /** The list that is left when the head and position `j` are taken out. */
  lemma RemovedPair(l: seq<nat>, j: nat)
    requires 1 <= j < |l|
    ensures var r := l[1..j] + l[j + 1..];
      && |r| == |l| - 2
      && (forall i :: 0 <= i < |r| ==> r[i] == l[if i < j - 1 then i + 1 else i + 2])
      && (forall c :: c in l <==> c == l[0] || c == l[j] || c in r)
  {
    assert l == [l[0]] + l[1..j] + [l[j]] + l[j + 1..];
  }

  lemma MergeListed(h: Heap, k: nat, j: nat)
    requires Mergeable(h, k, j)
    ensures Listed(Merge(h, k, j))
  {
    MergeMembers(h, k, j);
    MergeDistinct(h, k, j);
  }

  lemma MergeMembers(h: Heap, k: nat, j: nat)
    requires Mergeable(h, k, j)
    ensures var h' := Merge(h, k, j); forall m, i :: 0 <= m <= MAX_POWER && 0 <= i < |h'.free[m]| ==>
      h'.free[m][i] in h'.tile && h'.tile[h'.free[m][i]] == m
  {
    hide NoOverlap, NoGap, Buddy, Pow2;
    MergedPair(h, k, j);
    var h' := Merge(h, k, j);
    var l := h.free[k];
    RemovedPair(l, j);
    forall m, i | 0 <= m <= MAX_POWER && 0 <= i < |h'.free[m]|
      ensures h'.free[m][i] in h'.tile && h'.tile[h'.free[m][i]] == m
    {
      if m == k {
        var i' := if i < j - 1 then i + 1 else i + 2;
        assert h'.free[m][i] == l[i'] && l[i'] != l[0] && l[i'] != l[j];
      } else if m == k + 1 {
        assert i >= 1 ==> h'.free[m][i] == h.free[m][i - 1];
      } else {
        assert h'.free[m] == h.free[m];
      }
    }
  }

  lemma MergeDistinct(h: Heap, k: nat, j: nat)
    requires Mergeable(h, k, j)
    ensures var h' := Merge(h, k, j); forall m, i, i2 :: 0 <= m <= MAX_POWER && 0 <= i < i2 < |h'.free[m]| ==>
      h'.free[m][i] != h'.free[m][i2]
  {
    hide NoOverlap, NoGap, Buddy, Pow2;
    MergedPair(h, k, j);
    var h' := Merge(h, k, j);
    RemovedPair(h.free[k], j);
    forall m, i, i2 | 0 <= m <= MAX_POWER && 0 <= i < i2 < |h'.free[m]|
      ensures h'.free[m][i] != h'.free[m][i2]
    {
      if m == k + 1 {
        assert h'.free[m][i2] == h.free[m][i2 - 1];
        assert i >= 1 ==> h'.free[m][i] == h.free[m][i - 1];
      } else if m != k {
        assert h'.free[m] == h.free[m];
      }
    }
  }

  lemma MergeAligned(h: Heap, k: nat, j: nat)
    requires Mergeable(h, k, j) && Aligned(h)
    ensures Aligned(Merge(h, k, j))
  {
    MergedPair(h, k, j);
    var h' := Merge(h, k, j);
    var l := h.free[k];
    BuddyFacts(l[0], k);
    AlignedPair(l[0], k);
    forall c | c in h'.tile ensures c % Pow2(h'.tile[c]) == 0 {
      if c != Min(l[0], l[j]) {
        assert c in h.tile && h'.tile[c] == h.tile[c];
      }
    }
  }

  lemma AlignedPair(a: nat, k: nat)
    requires a % Pow2(k) == 0
    ensures Min(a, Flip(a, k)) % Pow2(k + 1) == 0
  {
    var p, q := Pow2(k), a / Pow2(k);
    assert a == p * q;
    MultipleOfDouble(p, q / 2);
    if q % 2 == 0 {
      assert q == 2 * (q / 2);
    } else {
      assert p * q == p * (2 * (q / 2) + 1) == p * (2 * (q / 2)) + p;
    }
  }

  lemma MultipleOfDouble(p: nat, r: nat)
    requires p > 0
    ensures p * (2 * r) % (2 * p) == 0
  {
    assert p * (2 * r) == 2 * p * r;
    DivUnique(2 * p * r, 2 * p, r, 0);
  }

  lemma MergeLive(h: Heap, k: nat, j: nat)
    requires Mergeable(h, k, j)
    requires Tiled(Merge(h, k, j))
    ensures Live(Merge(h, k, j)) == Live(h)
  {
    hide NoOverlap, NoGap, Buddy, Pow2;
    MergedPair(h, k, j);
    var h' := Merge(h, k, j);
    var l := h.free[k];
    var lo, hi := Min(l[0], l[j]), Max(l[0], l[j]);
    assert lo in h'.free[k + 1] by { assert h'.free[k + 1][0] == lo; }
    RemovedPair(l, j);
    forall c | c in h.tile && c != lo && c != hi
      ensures c in h'.free[h.tile[c]] <==> c in h.free[h.tile[c]]
    {
      var m := h.tile[c];
      if m == k + 1 {
        assert h'.free[m] == [lo] + h.free[m];
      } else if m != k {
        assert h'.free[m] == h.free[m];
      }
    }
    assert h'.tile.Keys == h.tile.Keys - {hi};
  }

  /** After a merge the lower list is buddy-free and only the head of the upper list may have a buddy. */
  lemma MergeHeadOnly(h: Heap, k: nat, j: nat)
    requires Mergeable(h, k, j) && HeadOnly(h, k)
    ensures HeadOnly(Merge(h, k, j), k + 1)
  {
    hide NoOverlap, NoGap, Buddy, Pow2;
    var h' := Merge(h, k, j);
    var l, l' := h.free[k], h'.free[k];
    forall x, y | 0 <= x < |l'| && 0 <= y < |l'| ensures l'[y] != Buddy(l'[x], k) {
      assert l'[x] == l[1..][if x < j - 1 then x else x + 1];
      assert l'[y] == l[1..][if y < j - 1 then y else y + 1];
    }
    assert h'.free[k + 1][1..] == h.free[k + 1];
  }

  // ---------------------------------------------------------------- kfree

  /** The first position of `x` in `l`, or -1. */
  function Position(l: seq<nat>, x: nat): (r: int)
    ensures -1 <= r < |l|
    ensures r >= 0 ==> l[r] == x
    ensures r == -1 ==> x !in l
  {
    if l == [] then -1
    else if l[0] == x then 0
    else var r := Position(l[1..], x); if r < 0 then -1 else r + 1
  }

  /** Where the buddy of the head of list `k` is on that list, or -1. */
  function HeadBuddy(h: Heap, k: nat): (r: int)
    requires |h.free| == MAX_POWER + 1 && k <= MAX_POWER
    ensures -1 <= r && r != 0 && r < |h.free[k]|
    ensures r > 0 ==> h.free[k][r] == Buddy(h.free[k][0], k)
    ensures r < 0 && h.free[k] != [] ==> Buddy(h.free[k][0], k) !in h.free[k]
  {
    if h.free[k] == [] then -1
    else
      BuddyFacts(h.free[k][0], k);
      Position(h.free[k], Buddy(h.free[k][0], k))
  }

  function Cascade(h: Heap, k: nat): Heap
    requires |h.free| == MAX_POWER + 1 && k <= MAX_POWER
    decreases MAX_POWER - k
  {
    if k < MAX_POWER && HeadBuddy(h, k) > 0 then Cascade(Merge(h, k, HeadBuddy(h, k)), k + 1) else h
  }

  function Push(h: Heap, a: nat): Heap
    requires |h.free| == MAX_POWER + 1 && a in h.tile && h.tile[a] <= MAX_POWER
  {
    h.(free := h.free[h.tile[a] := [a] + h.free[h.tile[a]]])
  }

  function Free(h: Heap, a: nat): Heap
    requires |h.free| == MAX_POWER + 1 && a in h.tile && h.tile[a] <= MAX_POWER
  {
    Cascade(Push(h, a), h.tile[a])
  }

  lemma HeadOnlySettled(h: Heap, k: nat)
    requires Tiled(h) && k <= MAX_POWER && HeadOnly(h, k)
    requires k == MAX_POWER || HeadBuddy(h, k) < 0
    ensures Inv(h)
  {
    hide NoOverlap, NoGap;
    var l := h.free[k];
    if k == MAX_POWER {
      OneMaximalBlock(h);
    }
    forall x, y | 0 <= x < |l| && 0 <= y < |l| ensures l[y] != Buddy(l[x], k) {
      BuddyFacts(l[x], k);
      BuddyFacts(l[y], k);
      if x > 0 && y > 0 {
        assert l[1..][x - 1] == l[x] && l[1..][y - 1] == l[y];
      }
    }
  }

  lemma MaximalBlocksAgree(h: Heap, a: nat, b: nat)
    requires Tiled(h) && a in h.tile && b in h.tile && h.tile[a] == h.tile[b] == MAX_POWER
    ensures a == b
  {
    Pow2Values();
  }

  lemma OneMaximalBlock(h: Heap)
    requires Tiled(h)
    ensures |h.free[MAX_POWER]| <= 1
  {
    var l := h.free[MAX_POWER];
    if |l| >= 2 {
      MaximalBlocksAgree(h, l[0], l[1]);
    }
  }

  lemma {:induction false} CascadeInv(h: Heap, k: nat)
    requires Tiled(h) && k <= MAX_POWER && HeadOnly(h, k)
    ensures Inv(Cascade(h, k)) && Live(Cascade(h, k)) == Live(h)
    ensures Cascade(h, k).base == h.base
    ensures Aligned(h) ==> Aligned(Cascade(h, k))
    decreases MAX_POWER - k
  {
    if k < MAX_POWER && HeadBuddy(h, k) > 0 {
      var j := HeadBuddy(h, k);
      MergeTiled(h, k, j);
      MergeLive(h, k, j);
      MergeHeadOnly(h, k, j);
      if Aligned(h) {
        MergeAligned(h, k, j);
      }
      CascadeInv(Merge(h, k, j), k + 1);
    } else {
      HeadOnlySettled(h, k);
    }
  }

  lemma PushTiled(h: Heap, a: nat)
    requires Inv(h) && a in Live(h)
    ensures Tiled(Push(h, a)) && HeadOnly(Push(h, a), h.tile[a])
    ensures Live(Push(h, a)) == Live(h) - {a}
  {
    hide NoOverlap, NoGap;
    var h' := Push(h, a);
    var k := h.tile[a];
    assert h'.free[k][1..] == h.free[k];
    forall m, i, j | 0 <= m <= MAX_POWER && 0 <= i < j < |h'.free[m]| ensures h'.free[m][i] != h'.free[m][j] {
      if m == k {
        assert h'.free[k][j] == h.free[k][j - 1];
        if i > 0 {
          assert h'.free[k][i] == h.free[k][i - 1];
        }
      }
    }
    forall c | c in h.tile ensures c in h'.free[h.tile[c]] <==> c == a || c in h.free[h.tile[c]] {
      if h.tile[c] == k {
        assert h'.free[k] == [a] + h.free[k];
      }
    }
  }

  /** Freeing takes exactly one block out of use, whatever was merged. */
  lemma FreeCorrect(h: Heap, a: nat)
    requires Inv(h) && a in Live(h)
    ensures Inv(Free(h, a)) && Live(Free(h, a)) == Live(h) - {a}
    ensures Free(h, a).base == h.base
    ensures Aligned(h) ==> Aligned(Free(h, a))
  {
    PushTiled(h, a);
    CascadeInv(Push(h, a), h.tile[a]);
  }

  // ---------------------------------------------------------------- kmalloc

  /** The least order, from `o` on, of a block that holds `size` bytes. */
  function OrderFor(size: nat, o: nat): (r: nat)
    ensures r >= o && size <= Pow2(r)
    ensures r > o ==> Pow2(r - 1) < size
    decreases if Pow2(o) < size then size - Pow2(o) else 0
  {
    if Pow2(o) < size then OrderFor(size, o + 1) else o
  }

  /** The order `kmalloc` chooses for a request. */
  function RequestOrder(bytes: nat): nat {
    OrderFor(bytes + HEADER, 4)
  }

  lemma RequestOrderMeaning(bytes: nat)
    ensures RequestOrder(bytes) >= 5 && bytes + HEADER <= Pow2(RequestOrder(bytes))
    ensures forall k :: 4 <= k < RequestOrder(bytes) ==> Pow2(k) < bytes + HEADER
  {
    Pow2Values();
    forall k | 4 <= k < RequestOrder(bytes) ensures Pow2(k) < bytes + HEADER {
      Pow2Monotone(k, RequestOrder(bytes) - 1);
    }
  }

  /** The smallest order from `o` on whose list is not empty; past the end if there is none. */
  function FirstFit(h: Heap, o: nat): (t: nat)
    requires |h.free| == MAX_POWER + 1 && o <= MAX_POWER + 1
    ensures o <= t <= MAX_POWER + 1
    ensures forall m :: o <= m < t ==> h.free[m] == []
    ensures t <= MAX_POWER ==> h.free[t] != []
    decreases MAX_POWER + 1 - o
  {
    if o > MAX_POWER || h.free[o] != [] then o else FirstFit(h, o + 1)
  }

  function SplitDown(h: Heap, t: nat, o: nat): (r: Heap)
    requires |h.free| == MAX_POWER + 1 && o <= t <= MAX_POWER && h.free[t] != []
    ensures |r.free| == MAX_POWER + 1 && r.free[o] != []
    decreases t
  {
    if t == o then h else SplitDown(Split(h, t), t - 1, o)
  }

  function Pop(h: Heap, k: nat): Heap
    requires |h.free| == MAX_POWER + 1 && k <= MAX_POWER && h.free[k] != []
  {
    h.(free := h.free[k := h.free[k][1..]])
  }

  function Malloc(h: Heap, o: nat): (r: (Heap, Option<nat>))
    requires |h.free| == MAX_POWER + 1 && o <= MAX_POWER
  {
    var t := FirstFit(h, o);
    if t > MAX_POWER then (h, None)
    else
      var s := SplitDown(h, t, o);
      (Pop(s, o), Some(s.free[o][0]))
  }

  lemma SplitHeadOnly(h: Heap, k: nat)
    requires Tiled(h) && 6 <= k <= MAX_POWER && h.free[k] != [] && h.free[k - 1] == []
    requires HeadOnly(h, k)
    ensures HeadOnly(Split(h, k), k - 1)
  {
    var h' := Split(h, k);
    assert h'.free[k - 1][1..] == [h.free[k][0] + Pow2(k - 1)];
    BuddyFacts(h.free[k][0] + Pow2(k - 1), k - 1);
  }

  lemma {:induction false} SplitDownCorrect(h: Heap, t: nat, o: nat)
    requires Tiled(h) && 5 <= o <= t <= MAX_POWER && h.free[t] != []
    requires HeadOnly(h, t) && forall m :: o <= m < t ==> h.free[m] == []
    ensures Tiled(SplitDown(h, t, o)) && HeadOnly(SplitDown(h, t, o), o)
    ensures Live(SplitDown(h, t, o)) == Live(h)
    ensures SplitDown(h, t, o).base == h.base
    ensures SplitDown(h, t, o).free[o][0] == h.free[t][0]
    ensures Aligned(h) ==> Aligned(SplitDown(h, t, o))
    decreases t
  {
    hide Disjoint, Covering, Listed, Split, Live, HeadOnly, BuddyFree, Aligned;
    if o < t {
      SplitFields(h, t);
      SplitTiled(h, t);
      SplitLive(h, t);
      SplitHeadOnly(h, t);
      if Aligned(h) {
        SplitAligned(h, t);
      }
      SplitDownCorrect(Split(h, t), t - 1, o);
    }
  }

  lemma PopTiled(h: Heap, k: nat)
    requires Tiled(h) && k <= MAX_POWER && h.free[k] != [] && HeadOnly(h, k)
    ensures Inv(Pop(h, k)) && h.free[k][0] !in Live(h)
    ensures h.free[k][0] in h.tile && h.tile[h.free[k][0]] == k
    ensures Live(Pop(h, k)) == Live(h)[h.free[k][0] := k]
  {
    hide NoOverlap, NoGap, Buddy, Pow2;
    var h' := Pop(h, k);
    var a := h.free[k][0];
    assert a in h.free[k];
    assert h.free[k] == [a] + h'.free[k];
    forall i | 0 <= i < |h'.free[k]| ensures h'.free[k][i] == h.free[k][i + 1] != a {
    }
    assert a !in h'.free[k];
  }

  /**
   A request of order `o` fails only when no free block is large enough, and then changes nothing;
   otherwise it hands out the start of the first block of the smallest sufficient list,
   cut down to order `o`, and every other block in use stays as it is.
   */
  lemma MallocCorrect(h: Heap, o: nat)
    requires Inv(h) && 5 <= o <= MAX_POWER
    ensures var (h', p) := Malloc(h, o);
      && Inv(h') && h'.base == h.base && (Aligned(h) ==> Aligned(h'))
      && (p.None? <==> forall k :: o <= k <= MAX_POWER ==> h.free[k] == [])
      && (p.None? ==> h' == h)
      && (p.Some? ==>
            && p.value !in Live(h) && Live(h') == Live(h)[p.value := o]
            && p.value == h.free[FirstFit(h, o)][0]
            && p.value in h'.tile && h'.tile[p.value] == o)
  {
    var t := FirstFit(h, o);
    if t <= MAX_POWER {
      assert BuddyFree(h.free[t], t);
      assert BuddyFree(h.free[t][1..], t) by {
        forall i | 0 <= i < |h.free[t]| - 1 ensures h.free[t][1..][i] == h.free[t][i + 1] {
        }
      }
      SplitDownCorrect(h, t, o);
      PopTiled(SplitDown(h, t, o), o);
    }
  }

  // ---------------------------------------------------------------- whole runs

  datatype Op = Alloc(bytes: nat) | Release(block: nat)

  /**
   What a caller owes: a request for the whole arena is made only while the arena is whole
   (the search for something to split would leave the bucket array), larger requests not at all,
   and only blocks in use are released.
   */
  ghost predicate Legal(h: Heap, op: Op)
    requires Inv(h)
  {
    match op
    case Alloc(bytes) =>
      RequestOrder(bytes) < MAX_POWER || (RequestOrder(bytes) == MAX_POWER && h.free[MAX_POWER] != [])
    case Release(a) => a in Live(h)
  }

  ghost function Step(h: Heap, op: Op): (h': Heap)
    requires Inv(h) && Legal(h, op)
    ensures Inv(h') && h'.base == h.base && (Aligned(h) ==> Aligned(h'))
  {
    match op
    case Alloc(bytes) =>
      RequestOrderMeaning(bytes);
      MallocCorrect(h, RequestOrder(bytes));
      Malloc(h, RequestOrder(bytes)).0
    case Release(a) =>
      FreeCorrect(h, a);
      Free(h, a)
  }

  /** `h` is the state some sequence of legal calls leads to from a fresh allocator. */
  ghost predicate Reaches(base: nat, ops: seq<Op>, h: Heap)
    decreases |ops|
  {
    if ops == [] then h == Initial(base)
    else
      var last := |ops| - 1;
      exists g: Heap :: Reaches(base, ops[..last], g) && Inv(g) && Legal(g, ops[last]) && h == Step(g, ops[last])
  }

  lemma {:induction false} RunInv(base: nat, ops: seq<Op>, h: Heap)
    requires Reaches(base, ops, h)
    ensures Inv(h) && h.base == base
    ensures base % ARENA == 0 ==> Aligned(h)
    decreases |ops|
  {
    if ops == [] {
      InitialInv(base);
    } else {
      var last := |ops| - 1;
      var g :| Reaches(base, ops[..last], g) && Inv(g) && Legal(g, ops[last]) && h == Step(g, ops[last]);
      RunInv(base, ops[..last], g);
    }
  }

  /** Distinct multiples of `p` are at least `p` apart. */
  lemma MultipleGap(x: nat, y: nat, p: nat)
    requires p > 0 && x % p == 0 && y % p == 0 && x < y
    ensures x + p <= y
  {
    var m, n := x / p, y / p;
    assert x == p * m && y == p * n;
    assert n <= m ==> p * n <= p * m;
    MulGap(p, m, n);
  }

  lemma {:induction false} LowerPowerDivides(x: nat, a: nat, b: nat)
    requires a <= b && x % Pow2(b) == 0
    ensures x % Pow2(a) == 0
    decreases b
  {
    if a < b {
      AlignedHalves(x, b);
      LowerPowerDivides(x, a, b - 1);
    }
  }

  /** The aligned pair a block belongs to lies in an aligned arena. */
  lemma PairInArena(base: nat, a: nat, lo: nat, k: nat)
    requires k < MAX_POWER && base % ARENA == 0 && lo % Pow2(k + 1) == 0
    requires lo <= a < lo + Pow2(k + 1) && base <= a < base + ARENA
    ensures base <= lo && lo + Pow2(k + 1) <= base + ARENA
  {
    Pow2Values();
    LowerPowerDivides(base, k + 1, MAX_POWER);
    assert (base + ARENA) % ARENA == 0;
    LowerPowerDivides(base + ARENA, k + 1, MAX_POWER);
    if lo < base {
      MultipleGap(lo, base, Pow2(k + 1));
    }
    MultipleGap(lo, base + ARENA, Pow2(k + 1));
  }

  /** An aligned block that reaches into an aligned pair of smaller blocks encloses the pair. */
  lemma EnclosesPair(c: nat, j: nat, x: nat, k: nat, lo: nat)
    requires k < j && c % Pow2(j) == 0 && c <= x < c + Pow2(j)
    requires lo % Pow2(k + 1) == 0 && lo <= x < lo + Pow2(k + 1)
    ensures c <= lo && lo + Pow2(k + 1) <= c + Pow2(j)
  {
    LowerPowerDivides(c, k + 1, j);
    DivShift(c, Pow2(j));
    assert (c + Pow2(j)) % Pow2(j) == 0;
    LowerPowerDivides(c + Pow2(j), k + 1, j);
    if lo < c {
      MultipleGap(lo, c, Pow2(k + 1));
    }
    MultipleGap(lo, c + Pow2(j), Pow2(k + 1));
  }

  lemma AllFree(h: Heap, a: nat)
    requires Tiled(h) && Live(h) == map[] && a in h.tile
    ensures a in h.free[h.tile[a]]
  {
    assert a in Live(h) <==> a !in h.free[h.tile[a]];
  }

  /** The block found where the buddy of a smallest block should be is that buddy, of the same order. */
  lemma BuddyIsABlock(h: Heap, a: nat)
    requires Tiled(h) && Aligned(h) && h.base % ARENA == 0
    requires a in h.tile && h.tile[a] < MAX_POWER && forall c :: c in h.tile ==> h.tile[a] <= h.tile[c]
    ensures var b := Buddy(a, h.tile[a]); b in h.tile && h.tile[b] == h.tile[a]
  {
    hide Listed, Buddy, Pow2;
    var k := h.tile[a];
    var b := Buddy(a, k);
    var lo := Min(a, b);
    PairFacts(a, k);
    PairInArena(h.base, a, lo, k);
    assert Covered(h.tile, b);
    var c: nat :| c in h.tile && c <= b < c + Pow2(h.tile[c]);
    if k < h.tile[c] {
      EnclosesPair(c, h.tile[c], b, k, lo);
    } else if c < b {
      MultipleGap(c, b, Pow2(k));
    }
  }

  lemma PairFacts(a: nat, k: nat)
    requires a % Pow2(k) == 0
    ensures var b := Buddy(a, k);
      && a != b && b % Pow2(k) == 0 && Min(a, b) % Pow2(k + 1) == 0
      && Max(a, b) == Min(a, b) + Pow2(k) && Pow2(k + 1) == 2 * Pow2(k)
  {
    BuddyFacts(a, k);
    AlignedPair(a, k);
    LowerPowerDivides(Min(a, Buddy(a, k)), k, k + 1);
    var lo := Min(a, Buddy(a, k));
    DivShift(lo, Pow2(k));
  }

  lemma {:induction false} SmallestBlock(h: Heap, s: set<nat>) returns (a: nat)
    requires s != {} && s <= h.tile.Keys
    ensures a in s && forall c :: c in s ==> h.tile[a] <= h.tile[c]
    decreases |s|
  {
    a :| a in s;
    var rest := s - {a};
    if rest != {} {
      var b := SmallestBlock(h, rest);
      assert forall c :: c in s ==> c == a || c in rest;
      if h.tile[b] < h.tile[a] {
        a := b;
      }
    } else {
      assert forall c :: c in s && c != a ==> c in rest;
    }
  }

  /** With nothing in use, two blocks that are buddies of each other would both be on the list. */
  lemma SmallerBlockHasFreeBuddy(h: Heap, a: nat)
    requires Tiled(h) && Aligned(h) && h.base % ARENA == 0 && Live(h) == map[]
    requires a in h.tile && h.tile[a] < MAX_POWER && forall c :: c in h.tile ==> h.tile[a] <= h.tile[c]
    ensures !BuddyFree(h.free[h.tile[a]], h.tile[a])
  {
    BuddyIsABlock(h, a);
    AllFree(h, a);
    AllFree(h, Buddy(a, h.tile[a]));
  }

  /** With nothing in use and the arena aligned, every block has been merged back into one. */
  lemma NothingInUse(h: Heap)
    requires Inv(h) && Aligned(h) && h.base % ARENA == 0 && Live(h) == map[]
    ensures h == Initial(h.base)
  {
    Pow2Values();
    assert Covered(h.tile, h.base);
    var a := SmallestBlock(h, h.tile.Keys);
    if h.tile[a] < MAX_POWER {
      SmallerBlockHasFreeBuddy(h, a);
    }
    OnlyBlock(h);
  }

  lemma OnlyBlock(h: Heap)
    requires Tiled(h) && Live(h) == map[] && h.base in h.tile && h.tile[h.base] == MAX_POWER
    ensures h == Initial(h.base)
  {
    Pow2Values();
    assert forall c :: c in h.tile ==> c == h.base;
    assert h.tile == Initial(h.base).tile;
    AllFree(h, h.base);
    OneMaximalBlock(h);
    forall k | 0 <= k <= MAX_POWER ensures h.free[k] == Initial(h.base).free[k] {
      assert h.free[k] != [] ==> h.free[k][0] in h.tile;
    }
  }

  /** Any run over an aligned arena that has released everything it obtained is back at the initial state. */
  lemma RunCoalesces(base: nat, ops: seq<Op>, h: Heap)
    requires Reaches(base, ops, h) && base % ARENA == 0
    requires Inv(h) && Live(h) == map[]
    ensures h == Initial(base)
  {
    RunInv(base, ops, h);
    NothingInUse(h);
  }

  // ---------------------------------------------------------------- unaligned arenas

  lemma {:induction false} LowestSetBit(base: nat, k: nat) returns (j: nat)
    requires k <= MAX_POWER && base % Pow2(k) == 0 && base % ARENA != 0
    ensures k <= j < MAX_POWER && base / Pow2(j) % 2 == 1
    decreases MAX_POWER - k
  {
    Pow2Values();
    var p := Pow2(k);
    var q := base / p;
    if q % 2 == 1 {
      j := k;
    } else {
      assert base == p * q && q == 2 * (q / 2);
      MultipleOfDouble(p, q / 2);
      j := LowestSetBit(base, k + 1);
    }
  }

  lemma ReachesNext(base: nat, ops: seq<Op>, g: Heap, op: Op)
    requires Reaches(base, ops, g) && Inv(g) && Legal(g, op)
    ensures Reaches(base, ops + [op], Step(g, op))
  {
    assert (ops + [op])[..|ops|] == ops;
  }

  lemma ExactRequest(j: nat)
    requires 5 <= j
    ensures Pow2(j) >= HEADER && RequestOrder(Pow2(j) - HEADER) == j
  {
    Pow2Values();
    Pow2Monotone(5, j);
    var o := RequestOrder(Pow2(j) - HEADER);
    RequestOrderMeaning(Pow2(j) - HEADER);
    if o < j {
      Pow2Monotone(o, j);
    }
  }

  lemma FirstMalloc(base: nat, j: nat)
    requires 5 <= j < MAX_POWER
    ensures var h := Malloc(Initial(base), j).0; Inv(h) && h.base == base && Live(h) == map[base := j]
  {
    InitialInv(base);
    var h0 := Initial(base);
    assert FirstFit(h0, j) == MAX_POWER by {
      assert h0.free[MAX_POWER] == [base];
      assert forall m :: 0 <= m < MAX_POWER ==> h0.free[m] == [];
    }
    MallocCorrect(h0, j);
    assert Live(h0)[base := j] == map[base := j];
  }

  lemma FirstBlockOfOrder(base: nat, j: nat) returns (op: Op, h: Heap)
    requires 5 <= j < MAX_POWER
    ensures Reaches(base, [op], h) && Inv(h) && h.base == base && Live(h) == map[base := j]
  {
    hide Pow2, RequestOrder, Malloc, Tiled, Live;
    ExactRequest(j);
    op := Alloc(Pow2(j) - HEADER);
    InitialInv(base);
    FirstMalloc(base, j);
    h := Malloc(Initial(base), j).0;
    assert Legal(Initial(base), op);
    assert Step(Initial(base), op) == h;
    ReachesNext(base, [], Initial(base), op);
    assert [] + [op] == [op];
  }

  /**
   In an arena whose base is not aligned to its size, obtaining and releasing one block leaves the arena
   cut up: the first block of the order of the base's lowest set bit has its buddy below the arena.
   */
  lemma UnalignedStaysSplit(base: nat) returns (ops: seq<Op>, h: Heap)
    requires base % 32 == 0 && base % ARENA != 0
    ensures Reaches(base, ops, h) && Inv(h) && Live(h) == map[] && h != Initial(base)
  {
    hide NoOverlap, NoGap, BuddyFree, Listed;
    assert Pow2(5) == 32;
    var j := LowestSetBit(base, 5);
    var op, h1 := FirstBlockOfOrder(base, j);
    assert base in Live(h1) && Live(h1)[base] == j == h1.tile[base];
    BuddyFacts(base, j);
    FreeUnmerged(h1, base);
    FreeCorrect(h1, base);
    h := Step(h1, Release(base));
    ops := [op] + [Release(base)];
    ReachesNext(base, [op], h1, Release(base));
    assert h.tile[base] == j;
  }

  lemma FreeUnmerged(h: Heap, a: nat)
    requires Inv(h) && a in Live(h) && Buddy(a, h.tile[a]) !in h.tile
    ensures Free(h, a) == Push(h, a)
  {
    PushTiled(h, a);
    var h', k := Push(h, a), h.tile[a];
    assert h'.free[k][0] == a;
  }

  ghost predicate AlwaysCoalesces(base: nat) {
    forall ops, h :: Reaches(base, ops, h) && Inv(h) && Live(h) == map[] ==> h == Initial(base)
  }

  /** For a page-aligned base, releasing everything always restores the arena exactly when the base is 1 MB aligned. */
  lemma CoalescesIffAligned(base: nat)
    requires base % 4096 == 0
    ensures AlwaysCoalesces(base) <==> base % ARENA == 0
  {
    if base % ARENA == 0 {
      forall ops, h | Reaches(base, ops, h) && Inv(h) && Live(h) == map[] ensures h == Initial(base) {
        RunCoalesces(base, ops, h);
      }
    } else {
      var ops, h := UnalignedStaysSplit(base);
    }
  }
}
