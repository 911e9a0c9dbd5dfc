/**
 Four-level page tables in physical memory: a radix tree of 512-entry tables, each in a frame of its own.
 `nodes` maps each place in the tree that has a table to the physical address of that table.
 */
module PageTables {
  import opened Wrappers
  import opened Arith
  import opened Bytes
  import opened PmmSpec

  const ENTRIES: nat := 512

  /** The page of a virtual address, by its four table indices. */
  datatype Page = Page(a: nat, b: nat, c: nat, d: nat)

  function PageOf(virt: nat): Page {
    Page(virt / 0x80_0000_0000 % ENTRIES, virt / 0x4000_0000 % ENTRIES, virt / 0x20_0000 % ENTRIES,
      virt / PAGE % ENTRIES)
  }

  /** The 36-bit number of that page. */
  function Number36(virt: nat): nat {
    virt / PAGE % 0x10_0000_0000
  }

  /** The four indices identify the page, and nothing but bits 12 to 47 of the address matters. */
  lemma PageIsNumber(v: nat, w: nat)
    ensures PageOf(v) == PageOf(w) <==> Number36(v) == Number36(w)
  {
    hide PageOf, Number36;
    Digits(v);
    Digits(w);
    var p, q := PageOf(v), PageOf(w);
    DigitUnique((p.a * 512 + p.b) * 512 + p.c, p.d, (q.a * 512 + q.b) * 512 + q.c, q.d);
    DigitUnique(p.a * 512 + p.b, p.c, q.a * 512 + q.b, q.c);
    DigitUnique(p.a, p.b, q.a, q.b);
    if PageOf(v) == PageOf(w) {
      SamePageSameNumber(v, w);
    }
  }

  lemma DigitUnique(x: nat, d: nat, y: nat, e: nat)
    requires d < 512 && e < 512
    ensures x * 512 + d == y * 512 + e <==> x == y && d == e
  {
  }

  lemma SamePageSameNumber(v: nat, w: nat)
    requires PageOf(v) == PageOf(w)
    ensures Number36(v) == Number36(w)
  {
    hide PageOf, Number36;
    Digits(v);
    Digits(w);
  }

  lemma QuotientChain(v: nat)
    ensures v / 0x20_0000 == v / PAGE / 512
    ensures v / 0x4000_0000 == v / 0x20_0000 / 512
    ensures v / 0x80_0000_0000 == v / 0x4000_0000 / 512
  {
  }

  lemma Remainder36(n: nat, q: nat, r: nat)
    requires n == 0x10_0000_0000 * q + r && r < 0x10_0000_0000
    ensures n % 0x10_0000_0000 == r
  {
  }

  lemma Digits(v: nat)
    ensures var p := PageOf(v); Number36(v) == ((p.a * 512 + p.b) * 512 + p.c) * 512 + p.d
    ensures var p := PageOf(v); p.a < 512 && p.b < 512 && p.c < 512 && p.d < 512
  {
    QuotientChain(v);
    var n0, n1, n2, n3 := v / PAGE, v / 0x20_0000, v / 0x4000_0000, v / 0x80_0000_0000;
    var q := n3 / 512;
    var a, b, c, d := n3 % 512, n2 % 512, n1 % 512, n0 % 512;
    assert n0 == 512 * n1 + d && n1 == 512 * n2 + c && n2 == 512 * n3 + b && n3 == 512 * q + a;
    Remainder36(n0, q, ((a * 512 + b) * 512 + c) * 512 + d);
  }

  predicate ValidPage(p: Page) {
    p.a < ENTRIES && p.b < ENTRIES && p.c < ENTRIES && p.d < ENTRIES
  }

  /** The tables of the tree, by the indices that lead to them. */
  datatype Node = Pml4 | Pdpt(a: nat) | Pd(a: nat, b: nat) | Pt(a: nat, b: nat, c: nat)

  function Child(n: Node, i: nat): Node
    requires !n.Pt?
  {
    match n
    case Pml4 => Pdpt(i)
    case Pdpt(a) => Pd(a, i)
    case Pd(a, b) => Pt(a, b, i)
  }

  function Parent(n: Node): Node
    requires n != Pml4
  {
    match n
    case Pdpt(_) => Pml4
    case Pd(a, _) => Pdpt(a)
    case Pt(a, b, _) => Pd(a, b)
  }

  function Entry(m: seq<byte>, t: nat, i: nat): nat
    requires t + PAGE <= |m| && i < ENTRIES
  {
    Load64(m, t + 8 * i)
  }

  /** The top-level slots that every page map shares with the kernel's. */
  predicate SharedSlot(a: nat) {
    a == 256 || a == 511
  }

  predicate UnderShared(n: Node) {
    n != Pml4 && SharedSlot(n.a)
  }

  /** Present, writable and accessible to user code. */
  predicate Open(e: nat) {
    e % 8 == 7
  }

  /** A present entry that points to the table `c` at `t`; outside the shared slots it is open as well. */
  predicate Links(c: Node, e: nat, t: nat) {
    e % 2 == 1 && e - e % PAGE == t && (UnderShared(c) || Open(e))
  }

  predicate TableAt(m: seq<byte>, t: nat) {
    t > 0 && t % PAGE == 0 && t + PAGE <= |m|
  }

  /** The entries of an interior table lead to the tables below it and are 0 where there is none. */
  ghost predicate Interior(m: seq<byte>, nodes: map<Node, nat>, n: Node)
    requires n in nodes && !n.Pt? && nodes[n] + PAGE <= |m|
  {
    forall i :: 0 <= i < ENTRIES ==>
      if Child(n, i) in nodes then Links(Child(n, i), Entry(m, nodes[n], i), nodes[Child(n, i)])
      else Entry(m, nodes[n], i) == 0
  }

  predicate ValidNode(n: Node) {
    match n
    case Pml4 => true
    case Pdpt(a) => a < ENTRIES
    case Pd(a, b) => a < ENTRIES && b < ENTRIES
    case Pt(a, b, c) => a < ENTRIES && b < ENTRIES && c < ENTRIES
  }

  ghost predicate Placed(m: seq<byte>, nodes: map<Node, nat>) {
    && Pml4 in nodes && (forall n :: n in nodes ==> ValidNode(n))
    && (forall n :: n in nodes ==> TableAt(m, nodes[n]))
    && (forall n :: n in nodes && n != Pml4 ==> Parent(n) in nodes)
    && (forall n, n' :: n in nodes && n' in nodes && n != n' ==> nodes[n] != nodes[n'])
  }

  ghost predicate TreeOk(m: seq<byte>, nodes: map<Node, nat>) {
    Placed(m, nodes) && forall n :: n in nodes && !n.Pt? ==> Interior(m, nodes, n)
  }

  // ---------------------------------------------------------------- what the processor does

  /** One level of the walk the processor makes: an entry without the present bit ends it. */
  function Follow(m: seq<byte>, t: nat, i: nat): Option<nat>
    requires t + PAGE <= |m| && i < ENTRIES
  {
    var e := Entry(m, t, i);
    if e % 2 == 1 && e - e % PAGE + PAGE <= |m| then Some(e - e % PAGE) else None
  }

  /** The last-level entry the walk for a page ends on, if it gets that far. */
  function Walk(m: seq<byte>, root: nat, p: Page): Option<nat>
    requires root + PAGE <= |m| && ValidPage(p)
  {
    var t3 := Follow(m, root, p.a);
    if t3.None? then None else
    var t2 := Follow(m, t3.value, p.b);
    if t2.None? then None else
    var t1 := Follow(m, t2.value, p.c);
    if t1.None? then None else Some(Entry(m, t1.value, p.d))
  }

  /** One level of the walk for a store by user code: the entry must be open as well. */
  function FollowOpen(m: seq<byte>, t: nat, i: nat): Option<nat>
    requires t + PAGE <= |m| && i < ENTRIES
  {
    if Open(Entry(m, t, i)) then Follow(m, t, i) else None
  }

  /** The frame behind a page, if the entries at all four levels let a store by user code pass. */
  function OpenFrame(m: seq<byte>, root: nat, p: Page): Option<nat>
    requires root + PAGE <= |m| && ValidPage(p)
  {
    var t3 := FollowOpen(m, root, p.a);
    if t3.None? then None else
    var t2 := FollowOpen(m, t3.value, p.b);
    if t2.None? then None else
    var t1 := FollowOpen(m, t2.value, p.c);
    if t1.None? then None else
    var e := Entry(m, t1.value, p.d);
    if Open(e) then Some(e - e % PAGE) else None
  }

  /** The physical address a store by user code goes to. */
  function StoreAt(m: seq<byte>, root: nat, virt: nat): Option<nat>
    requires root + PAGE <= |m|
  {
    var f := OpenFrame(m, root, PageOf(virt));
    if f.None? then None else Some(f.value + virt % PAGE)
  }

  /** What the tree says about a page: its last-level entry, 0 where tables are missing. */
  ghost function Mapping(m: seq<byte>, nodes: map<Node, nat>, p: Page): nat
    requires Placed(m, nodes) && ValidPage(p)
  {
    if Pt(p.a, p.b, p.c) in nodes then Entry(m, nodes[Pt(p.a, p.b, p.c)], p.d) else 0
  }

  lemma FollowTree(m: seq<byte>, nodes: map<Node, nat>, n: Node, i: nat)
    requires TreeOk(m, nodes) && n in nodes && !n.Pt? && i < ENTRIES
    ensures nodes[n] + PAGE <= |m|
    ensures Follow(m, nodes[n], i) == if Child(n, i) in nodes then Some(nodes[Child(n, i)]) else None
  {
    hide Entry;
    assert Interior(m, nodes, n);
  }

  lemma FollowOpenTree(m: seq<byte>, nodes: map<Node, nat>, n: Node, i: nat)
    requires TreeOk(m, nodes) && n in nodes && !n.Pt? && i < ENTRIES
    ensures nodes[n] + PAGE <= |m|
    ensures FollowOpen(m, nodes[n], i).Some? ==>
      Child(n, i) in nodes && FollowOpen(m, nodes[n], i) == Some(nodes[Child(n, i)])
    ensures Child(n, i) in nodes && !UnderShared(Child(n, i)) ==> FollowOpen(m, nodes[n], i).Some?
  {
    hide Entry;
    FollowTree(m, nodes, n, i);
    assert Interior(m, nodes, n);
  }

  /** Where a store to a page passes, its last-level entry is open; outside the shared slots that is all it takes. */
  lemma StoreTree(m: seq<byte>, nodes: map<Node, nat>, virt: nat)
    requires TreeOk(m, nodes) && ValidPage(PageOf(virt))
    ensures nodes[Pml4] + PAGE <= |m|
    ensures var p, e := PageOf(virt), Mapping(m, nodes, PageOf(virt));
      && (StoreAt(m, nodes[Pml4], virt).Some? ==>
            Open(e) && StoreAt(m, nodes[Pml4], virt) == Some(e - e % PAGE + virt % PAGE))
      && (Open(e) && !SharedSlot(p.a) ==> StoreAt(m, nodes[Pml4], virt).Some?)
  {
    hide Entry, FollowOpen, Interior, PageOf, Open;
    var p := PageOf(virt);
    FollowOpenTree(m, nodes, Pml4, p.a);
    if Pdpt(p.a) in nodes {
      FollowOpenTree(m, nodes, Pdpt(p.a), p.b);
    }
    if Pd(p.a, p.b) in nodes {
      FollowOpenTree(m, nodes, Pd(p.a, p.b), p.c);
    }
    ParentsThere(m, nodes, p);
    NotOpen();
  }

  lemma NotOpen()
    ensures !Open(0)
  {
  }

  lemma ParentsThere(m: seq<byte>, nodes: map<Node, nat>, p: Page)
    requires TreeOk(m, nodes)
    ensures Pt(p.a, p.b, p.c) in nodes ==> Pd(p.a, p.b) in nodes
    ensures Pd(p.a, p.b) in nodes ==> Pdpt(p.a) in nodes
  {
    hide Interior;
    assert Parent(Pt(p.a, p.b, p.c)) == Pd(p.a, p.b) && Parent(Pd(p.a, p.b)) == Pdpt(p.a);
  }

  /** The processor's walk ends where the tree says, and faults exactly where a table is missing. */
  lemma WalkTree(m: seq<byte>, nodes: map<Node, nat>, p: Page)
    requires TreeOk(m, nodes) && ValidPage(p)
    ensures nodes[Pml4] + PAGE <= |m|
    ensures Walk(m, nodes[Pml4], p) == if Pt(p.a, p.b, p.c) in nodes then Some(Mapping(m, nodes, p)) else None
  {
    hide Entry, Follow, Interior;
    FollowTree(m, nodes, Pml4, p.a);
    if Pdpt(p.a) in nodes {
      FollowTree(m, nodes, Pdpt(p.a), p.b);
      if Pd(p.a, p.b) in nodes {
        FollowTree(m, nodes, Pd(p.a, p.b), p.c);
      }
    }
    assert Pt(p.a, p.b, p.c) in nodes ==> Parent(Pt(p.a, p.b, p.c)) in nodes;
    assert Pd(p.a, p.b) in nodes ==> Parent(Pd(p.a, p.b)) in nodes;
  }

  // ---------------------------------------------------------------- what writes do

  ghost predicate SameTable(m: seq<byte>, m': seq<byte>, t: nat) {
    |m'| == |m| && forall x :: t <= x < t + PAGE && x < |m| ==> m'[x] == m[x]
  }

  lemma SameEntry(m: seq<byte>, m': seq<byte>, t: nat, i: nat)
    requires SameTable(m, m', t) && t + PAGE <= |m| && i < ENTRIES
    ensures Entry(m', t, i) == Entry(m, t, i)
  {
    LoadFrame(m, m', t + 8 * i);
  }

  /** Only entry `i` of the table at `t` is written, with `e`. */
  ghost predicate EntryWritten(m: seq<byte>, m': seq<byte>, t: nat, i: nat, e: nat) {
    && |m'| == |m| && t + PAGE <= |m| && i < ENTRIES
    && (forall x :: 0 <= x < |m| && !(t + 8 * i <= x < t + 8 * i + 8) ==> m'[x] == m[x])
    && Entry(m', t, i) == e
  }

  lemma OtherEntry(m: seq<byte>, m': seq<byte>, t: nat, i: nat, e: nat, t': nat, i': nat)
    requires EntryWritten(m, m', t, i, e) && t % PAGE == 0 && t' % PAGE == 0 && t' + PAGE <= |m| && i' < ENTRIES
    requires t' != t || i' != i
    ensures Entry(m', t', i') == Entry(m, t', i')
  {
    LoadFrame(m, m', t' + 8 * i');
  }

  /** Memory outside the tables is nothing to the tree. */
  lemma TablesKept(m: seq<byte>, m': seq<byte>, nodes: map<Node, nat>)
    requires TreeOk(m, nodes) && |m'| == |m| && forall n :: n in nodes ==> SameTable(m, m', nodes[n])
    ensures TreeOk(m', nodes)
    ensures forall p :: ValidPage(p) ==> Mapping(m', nodes, p) == Mapping(m, nodes, p)
  {
    hide Entry, SameTable;
    forall n, i | n in nodes && 0 <= i < ENTRIES ensures Entry(m', nodes[n], i) == Entry(m, nodes[n], i) {
      SameEntry(m, m', nodes[n], i);
    }
    forall n | n in nodes && !n.Pt? ensures Interior(m', nodes, n) {
      assert Interior(m, nodes, n);
    }
  }

  /** A table is a fresh one if no node has it and it is all zeros. */
  ghost predicate FreshTable(m: seq<byte>, nodes: map<Node, nat>, f: nat) {
    && TableAt(m, f) && (forall n :: n in nodes ==> nodes[n] != f)
    && (forall i :: 0 <= i < ENTRIES ==> Entry(m, f, i) == 0)
  }

  /** An empty table `f` has been hung at entry `i` of node `n`, where there was none. */
  ghost predicate Hung(m: seq<byte>, m': seq<byte>, nodes: map<Node, nat>, n: Node, i: nat, f: nat) {
    && TreeOk(m, nodes) && n in nodes && !n.Pt? && i < ENTRIES && Child(n, i) !in nodes
    && FreshTable(m, nodes, f) && EntryWritten(m, m', nodes[n], i, f + 7)
  }

  /** That keeps the tree and every mapping. */
  lemma TableLinked(m: seq<byte>, m': seq<byte>, nodes: map<Node, nat>, n: Node, i: nat, f: nat)
    requires Hung(m, m', nodes, n, i, f)
    ensures TreeOk(m', nodes[Child(n, i) := f])
    ensures forall p :: ValidPage(p) ==> Mapping(m', nodes[Child(n, i) := f], p) == Mapping(m, nodes, p)
  {
    hide Entry, Interior;
    var nodes' := nodes[Child(n, i) := f];
    LinkedPlaced(m, m', nodes, n, i, f);
    forall k | k in nodes' && !k.Pt? ensures Interior(m', nodes', k) {
      LinkedInterior(m, m', nodes, n, i, f, k);
    }
    forall p | ValidPage(p) ensures Mapping(m', nodes', p) == Mapping(m, nodes, p) {
      if Pt(p.a, p.b, p.c) in nodes' {
        LinkedEntry(m, m', nodes, n, i, f, Pt(p.a, p.b, p.c), p.d);
      }
    }
  }

  lemma LinkedPlaced(m: seq<byte>, m': seq<byte>, nodes: map<Node, nat>, n: Node, i: nat, f: nat)
    requires Hung(m, m', nodes, n, i, f)
    ensures Placed(m', nodes[Child(n, i) := f])
  {
    hide Interior, Entry;
    assert Parent(Child(n, i)) == n;
  }

  /** Entries other than the one written: those of the new table are 0, the rest as they were. */
  lemma LinkedEntry(m: seq<byte>, m': seq<byte>, nodes: map<Node, nat>, n: Node, i: nat, f: nat, k: Node, j: nat)
    requires Hung(m, m', nodes, n, i, f) && k in nodes[Child(n, i) := f] && j < ENTRIES && !(k == n && j == i)
    ensures nodes[Child(n, i) := f][k] + PAGE <= |m'|
    ensures Entry(m', nodes[Child(n, i) := f][k], j) == if k == Child(n, i) then 0 else Entry(m, nodes[k], j)
  {
    hide Interior, Entry;
    var nodes' := nodes[Child(n, i) := f];
    OtherEntry(m, m', nodes[n], i, f + 7, nodes'[k], j);
  }

  lemma LinkedInterior(m: seq<byte>, m': seq<byte>, nodes: map<Node, nat>, n: Node, i: nat, f: nat, k: Node)
    requires Hung(m, m', nodes, n, i, f) && Placed(m', nodes[Child(n, i) := f])
    requires k in nodes[Child(n, i) := f] && !k.Pt?
    ensures Interior(m', nodes[Child(n, i) := f], k)
  {
    hide Entry, Placed;
    var nodes' := nodes[Child(n, i) := f];
    PlacedFacts(m', nodes', k);
    PlacedFacts(m, nodes, n);
    forall j | 0 <= j < ENTRIES
      ensures if Child(k, j) in nodes' then Links(Child(k, j), Entry(m', nodes'[k], j), nodes'[Child(k, j)])
        else Entry(m', nodes'[k], j) == 0
    {
      if k == n && j == i {
        LinkEntry(f, m, nodes, Child(n, i));
      } else {
        LinkedEntry(m, m', nodes, n, i, f, k, j);
        if k == Child(n, i) {
          NoGrandchild(nodes, n, i, j);
        } else {
          assert Interior(m, nodes, k);
          assert Child(k, j) != Child(n, i);
        }
      }
    }
  }

  lemma LinkEntry(f: nat, m: seq<byte>, nodes: map<Node, nat>, c: Node)
    requires FreshTable(m, nodes, f)
    ensures Links(c, f + 7, f)
  {
    hide Entry, FreshTable;
    FreshAligned(m, nodes, f);
    PresentLink(f, c);
  }

  lemma FreshAligned(m: seq<byte>, nodes: map<Node, nat>, f: nat)
    requires FreshTable(m, nodes, f)
    ensures f > 0 && f % PAGE == 0
  {
  }

  lemma PresentLink(f: nat, c: Node)
    requires f > 0 && f % PAGE == 0
    ensures Links(c, f + 7, f)
  {
    hide UnderShared;
    SevenMore(f / PAGE);
  }

  lemma SevenMore(q: nat)
    ensures (PAGE * q + 7) % PAGE == 7 && (PAGE * q + 7) % 2 == 1 && Open(PAGE * q + 7)
  {
    DivUnique(PAGE * q + 7, PAGE, q, 7);
    DivUnique(PAGE * q + 7, 2, 2048 * q + 3, 1);
    DivUnique(PAGE * q + 7, 8, 512 * q, 7);
  }

  lemma PlacedFacts(m: seq<byte>, nodes: map<Node, nat>, n: Node)
    requires Placed(m, nodes) && n in nodes
    ensures nodes[n] + PAGE <= |m|
    ensures forall k :: k in nodes && k != Pml4 ==> Parent(k) in nodes
  {
  }

  lemma NoGrandchild(nodes: map<Node, nat>, n: Node, i: nat, j: nat)
    requires !n.Pt? && !n.Pd? && Child(n, i) !in nodes && forall k :: k in nodes && k != Pml4 ==> Parent(k) in nodes
    ensures Child(Child(n, i), j) !in nodes
  {
    assert Parent(Child(Child(n, i), j)) == Child(n, i);
  }

  /** Writing a last-level entry changes the mapping of that page and no other. */
  lemma LeafWritten(m: seq<byte>, m': seq<byte>, nodes: map<Node, nat>, p: Page, e: nat)
    requires TreeOk(m, nodes) && ValidPage(p) && Pt(p.a, p.b, p.c) in nodes
    requires EntryWritten(m, m', nodes[Pt(p.a, p.b, p.c)], p.d, e)
    ensures TreeOk(m', nodes)
    ensures forall q :: ValidPage(q) ==> Mapping(m', nodes, q) == if q == p then e else Mapping(m, nodes, q)
  {
    hide Entry;
    var leaf := Pt(p.a, p.b, p.c);
    forall k, j | k in nodes && 0 <= j < ENTRIES && !(k == leaf && j == p.d)
      ensures Entry(m', nodes[k], j) == Entry(m, nodes[k], j)
    {
      OtherEntry(m, m', nodes[leaf], p.d, e, nodes[k], j);
    }
    forall k | k in nodes && !k.Pt? ensures Interior(m', nodes, k) {
      assert Interior(m, nodes, k);
    }
  }
}
