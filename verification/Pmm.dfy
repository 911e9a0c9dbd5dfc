/** Physical memory: the bitmap of taken frames, in bytes, and the bytes of the frames themselves. */
module Pmm {
  import opened Wrappers
  import opened Bytes
  import Bitmap
  import opened PmmSpec

  /** The bitmap read as one boolean per page. */
  function Pages(bytes: seq<bv8>): (r: seq<bool>)
    ensures |r| == 8 * |bytes|
  {
    seq(8 * |bytes|, i requires 0 <= i < 8 * |bytes| => Bitmap.Test(bytes[i / 8], i % 8))
  }

  lemma PageWritten(bytes: seq<bv8>, bit: nat, x: bv8, v: bool)
    requires bit < 8 * |bytes|
    requires forall k | 0 <= k < 8 :: Bitmap.Test(x, k) <==> if k == bit % 8 then v else Bitmap.Test(bytes[bit / 8], k)
    ensures Pages(bytes[bit / 8 := x]) == Pages(bytes)[bit := v]
  {
    hide Bitmap.Test;
    var bytes' := bytes[bit / 8 := x];
    forall i | 0 <= i < 8 * |bytes| ensures Pages(bytes')[i] == Pages(bytes)[bit := v][i] {
      assert i / 8 == bit / 8 && i % 8 == bit % 8 ==> i == bit;
    }
  }

  lemma PagesSet(bytes: seq<bv8>, bit: nat)
    requires bit < 8 * |bytes|
    ensures Pages(bytes[bit / 8 := Bitmap.SetIn(bytes[bit / 8], bit % 8)]) == Pages(bytes)[bit := true]
  {
    hide Bitmap.Test, Bitmap.SetIn, Bitmap.ClearIn, Pages;
    var x := bytes[bit / 8];
    forall k | 0 <= k < 8 ensures Bitmap.Test(Bitmap.SetIn(x, bit % 8), k) <==> k == bit % 8 || Bitmap.Test(x, k) {
      Bitmap.SetInByte(x, bit % 8, k);
    }
    PageWritten(bytes, bit, Bitmap.SetIn(x, bit % 8), true);
  }

  lemma PagesCleared(bytes: seq<bv8>, bit: nat)
    requires bit < 8 * |bytes|
    ensures Pages(bytes[bit / 8 := Bitmap.ClearIn(bytes[bit / 8], bit % 8)]) == Pages(bytes)[bit := false]
  {
    hide Bitmap.Test, Bitmap.SetIn, Bitmap.ClearIn, Pages;
    var x := bytes[bit / 8];
    forall k | 0 <= k < 8 ensures Bitmap.Test(Bitmap.ClearIn(x, bit % 8), k) <==> k != bit % 8 && Bitmap.Test(x, k) {
      Bitmap.ClearInByte(x, bit % 8, k);
    }
    PageWritten(bytes, bit, Bitmap.ClearIn(x, bit % 8), false);
  }

  /** `m'` is `m` with the `n` bytes at `a` set to zero. */
  ghost predicate Zeroed(m: seq<byte>, m': seq<byte>, a: nat, n: nat) {
    && |m'| == |m| && a + n <= |m|
    && (forall x :: 0 <= x < |m| ==> m'[x] == if a <= x < a + n then 0 else m[x])
  }

  class PhysicalMemory {
    const bitmap: array<bv8>
    var ram: seq<byte>

    ghost predicate Valid()
      reads this, bitmap
    {
      |ram| == PAGE * 8 * bitmap.Length <= WORD_LIMIT
    }

    ghost function Used(): (r: seq<bool>)
      reads this, bitmap
      ensures |r| == 8 * bitmap.Length
    {
      Pages(bitmap[..])
    }

    constructor (bits: seq<bv8>, memory: seq<byte>)
      requires |memory| == PAGE * 8 * |bits| <= WORD_LIMIT
      ensures Valid() && fresh(bitmap) && Used() == Pages(bits) && ram == memory
    {
      bitmap := new bv8[|bits|](i requires 0 <= i < |bits| => bits[i]);
      ram := memory;
      new;
      assert bitmap[..] == bits;
    }

    method SetBit(bit: nat)
      requires bit < 8 * bitmap.Length
      modifies bitmap
      ensures Used() == old(Used())[bit := true]
    {
      PagesSet(bitmap[..], bit);
      bitmap[bit / 8] := Bitmap.SetIn(bitmap[bit / 8], bit % 8);
      assert bitmap[..] == old(bitmap[..])[bit / 8 := Bitmap.SetIn(old(bitmap[bit / 8]), bit % 8)];
    }

    method ClearBit(bit: nat)
      requires bit < 8 * bitmap.Length
      modifies bitmap
      ensures Used() == old(Used())[bit := false]
    {
      PagesCleared(bitmap[..], bit);
      bitmap[bit / 8] := Bitmap.ClearIn(bitmap[bit / 8], bit % 8);
      assert bitmap[..] == old(bitmap[..])[bit / 8 := Bitmap.ClearIn(old(bitmap[bit / 8]), bit % 8)];
    }

    method IsBitSet(bit: nat) returns (r: bool)
      requires bit < 8 * bitmap.Length
      ensures r == Used()[bit]
    {
      r := Bitmap.Test(bitmap[bit / 8], bit % 8);
    }

    method MarkRun(page: nat, count: nat)
      requires page + count <= 8 * bitmap.Length
      modifies bitmap
      ensures Used() == Mark(old(Used()), page, count, true)
    {
      ghost var used := Used();
      for c := page to page + count
        invariant Used() == Mark(used, page, c - page, true)
      {
        SetBit(c);
      }
    }

    method ZeroRun(addr: nat, n: nat)
      requires addr + n <= |ram|
      modifies this`ram
      ensures Zeroed(old(ram), ram, addr, n)
    {
      for i := 0 to n
        invariant Zeroed(old(ram), ram, addr, i)
      {
        ram := ram[addr + i := 0];
      }
    }

    /**
     The lowest run of `count` free pages, marked and zeroed, or nothing: the address 0 is returned when there
     is no such run, and also when the run starts at page 0, which is therefore kept reserved.
     */
    method Alloc(count: nat) returns (addr: nat, ghost page: Option<nat>)
      requires Valid()
      modifies this`ram, bitmap
      ensures Valid()
      ensures page.None? <==> count == 0 || forall q :: 0 <= q <= |old(Used())| ==> !RunFree(old(Used()), q, count)
      ensures page.None? ==> addr == 0 && Used() == old(Used()) && ram == old(ram)
      ensures page.Some? ==>
        && addr == page.value * PAGE && LowestRun(old(Used()), page.value, count)
        && Used() == Mark(old(Used()), page.value, count, true)
        && Zeroed(old(ram), ram, addr, count * PAGE)
    {
      hide Pages, Zeroed;
      ghost var used := Used();
      var current := 0;
      for i := 0 to 8 * bitmap.Length
        invariant Used() == used && ram == old(ram) && current <= i
        invariant count > 0 ==> current < count
        invariant forall j :: i - current <= j < i ==> !used[j]
        invariant count > 0 ==> i - current == 0 || used[i - current - 1]
        invariant count > 0 ==> forall q :: 0 <= q && q + count <= i ==> !RunFree(used, q, count)
      {
        var taken := IsBitSet(i);
        if !taken {
          current := current + 1;
          if current == count {
            var first := i - count + 1;
            NoLowerRun(used, first, count, i);
            MarkRun(first, count);
            addr := first * PAGE;
            page := Some(first);
            ZeroRun(addr, count * PAGE);
            return;
          }
        } else {
          current := 0;
        }
        if count > 0 {
          NoRunEnding(used, i, current, count);
        }
      }
      addr, page := 0, None;
    }

    method Free(addr: nat, count: nat)
      requires addr / PAGE + count <= 8 * bitmap.Length
      modifies bitmap
      ensures Used() == Mark(old(Used()), addr / PAGE, count, false)
    {
      ghost var used := Used();
      var page := addr / PAGE;
      for i := page to page + count
        invariant Used() == Mark(used, page, i - page, false)
      {
        ClearBit(i);
      }
    }

    method GetAvailableMemory() returns (bytes: nat)
      ensures bytes == FreeCount(Used()) * PAGE
    {
      hide Bitmap.Test, Pages;
      var pages := 0;
      ghost var used := Used();
      for i := 0 to 8 * bitmap.Length
        invariant pages == FreeCount(used[..i])
      {
        assert used[..i + 1][..i] == used[..i];
        var taken := IsBitSet(i);
        if !taken {
          pages := pages + 1;
        }
      }
      assert used[..|used|] == used;
      bytes := pages * PAGE;
    }
  }

  /** A run that ends at page `i` would have to start within the last `current` free pages, too few of them. */
  lemma NoRunEnding(used: seq<bool>, i: nat, current: nat, count: nat)
    requires i < |used| && current <= i + 1 && 0 < count && current < count
    requires i + 1 - current == 0 || used[i - current]
    requires forall q :: 0 <= q && q + count <= i ==> !RunFree(used, q, count)
    ensures forall q :: 0 <= q && q + count <= i + 1 ==> !RunFree(used, q, count)
  {
    forall q | 0 <= q && q + count <= i + 1 ensures !RunFree(used, q, count) {
      if q + count == i + 1 {
        assert q <= i - current < q + count;
      }
    }
  }

  lemma NoLowerRun(used: seq<bool>, first: nat, count: nat, i: nat)
    requires count > 0 && first + count == i + 1 <= |used|
    requires forall j :: first <= j <= i ==> !used[j]
    requires forall q :: 0 <= q && q + count <= i ==> !RunFree(used, q, count)
    ensures LowestRun(used, first, count)
  {
    forall q | 0 <= q < first ensures !RunFree(used, q, count) {
      assert q + count <= i;
    }
  }
}
