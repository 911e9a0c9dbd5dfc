/** A bitmap in bytes, most significant bit first, and its reading as a sequence of booleans. */
module Bitmap {

  function Mask(k: nat): bv8
    requires k < 8
  {
    1 << (7 - k)
  }

  predicate Test(x: bv8, k: nat)
    requires k < 8
  {
    x & Mask(k) != 0
  }

  function SetIn(x: bv8, k: nat): bv8
    requires k < 8
  {
    x | Mask(k)
  }

  function ClearIn(x: bv8, k: nat): bv8
    requires k < 8
  {
    x & !Mask(k)
  }

  /** Different bits have disjoint masks. */
  lemma MasksApart(k: nat, j: nat)
    requires k < 8 && j < 8
    ensures Mask(k) != 0 && (k != j ==> Mask(k) & Mask(j) == 0)
  {
    MaskValue(k);
    MaskValue(j);
  }

  lemma MaskValue(k: nat)
    requires k < 8
    ensures Mask(k) == [0x80, 0x40, 0x20, 0x10, 0x08, 0x04, 0x02, 0x01][k]
  {
    assert 7 - k == 0 || 7 - k == 1 || 7 - k == 2 || 7 - k == 3 || 7 - k == 4 || 7 - k == 5 || 7 - k == 6 || 7 - k == 7;
  }

  lemma OrMask(x: bv8, a: bv8, b: bv8)
    requires a != 0
    ensures (x | a) & a != 0
    ensures a & b == 0 ==> (x | a) & b == x & b
  {
  }

  lemma AndNotMask(x: bv8, a: bv8, b: bv8)
    ensures (x & !a) & a == 0
    ensures a & b == 0 ==> (x & !a) & b == x & b
  {
  }

  lemma SetInByte(x: bv8, k: nat, j: nat)
    requires k < 8 && j < 8
    ensures Test(SetIn(x, k), j) <==> j == k || Test(x, j)
  {
    hide Mask;
    MasksApart(k, j);
    OrMask(x, Mask(k), Mask(j));
  }

  lemma ClearInByte(x: bv8, k: nat, j: nat)
    requires k < 8 && j < 8
    ensures Test(ClearIn(x, k), j) <==> j != k && Test(x, j)
  {
    hide Mask;
    MasksApart(k, j);
    AndNotMask(x, Mask(k), Mask(j));
  }
}
