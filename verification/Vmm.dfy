/**
 Page maps over the frame allocator. Physical addresses are used throughout; the fixed offset at which the kernel
 sees physical memory is left out.
 */
module Vmm {
  import opened Bytes
  import opened PmmSpec
  import opened Pmm
  import opened PageTables
  import BuddyAllocator

  function TablesFor(p: Page): set<Node> {
    {Pdpt(p.a), Pd(p.a, p.b), Pt(p.a, p.b, p.c)}
  }

  ghost predicate Apart(own: map<Node, nat>, shared: map<Node, nat>) {
    && (forall n :: n in own ==> !UnderShared(n))
    && (forall n :: n in shared ==> UnderShared(n))
  }

  ghost predicate FramesUsed(used: seq<bool>, nodes: map<Node, nat>) {
    forall n :: n in nodes ==> nodes[n] / PAGE < |used| && used[nodes[n] / PAGE]
  }

  ghost predicate OwnTable(own: map<Node, nat>, t: nat) {
    exists n :: n in own && n != Pml4 && own[n] == t
  }

  /** `tables` lists the frames of the tables below the root, each once. */
  ghost predicate Recorded(tables: seq<nat>, own: map<Node, nat>) {
    && (forall i, j :: 0 <= i < j < |tables| ==> tables[i] != tables[j])
    && (forall i :: 0 <= i < |tables| ==> OwnTable(own, tables[i]))
    && (forall n :: n in own && n != Pml4 ==> own[n] in tables)
  }

  /** One page map is well formed: a tree of used frames, those below its own slots on record. */
  ghost predicate MapOk(used: seq<bool>, m: seq<byte>, own: map<Node, nat>, shared: map<Node, nat>, tables: seq<nat>) {
    && |m| == PAGE * |used| <= WORD_LIMIT && 0 < |used| && used[0]
    && Apart(own, shared) && TreeOk(m, own + shared) && FramesUsed(used, own + shared) && Recorded(tables, own)
  }

  ghost predicate InTables(own: map<Node, nat>, x: nat) {
    exists n :: n in own && own[n] <= x < own[n] + PAGE
  }

  ghost predicate NewTable(own: map<Node, nat>, own': map<Node, nat>, i: nat) {
    exists n :: n in own' && n !in own && own'[n] == i * PAGE
  }

  /**
   How one page map may change the rest of the world: it takes free frames for new tables of its own, and writes
   nowhere but in its own tables.
   */
  ghost predicate Grown(used: seq<bool>, m: seq<byte>, own: map<Node, nat>, used': seq<bool>, m': seq<byte>,
                        own': map<Node, nat>) {
    && |used'| == |used| && |m'| == |m|
    && (forall n :: n in own ==> n in own' && own'[n] == own[n])
    && (forall n :: n in own' && n !in own ==> own'[n] % PAGE == 0 && own'[n] / PAGE < |used| && !used[own'[n] / PAGE])
    && (forall i :: 0 <= i < |used| ==> (used'[i] <==> used[i] || NewTable(own, own', i)))
    && (forall x :: 0 <= x < |m| && m'[x] != m[x] ==> InTables(own', x))
  }

  /** What was taken of the free frames are the lowest ones. */
  ghost predicate TakenLowest(used: seq<bool>, used': seq<bool>) {
    && |used'| == |used| && (forall i :: 0 <= i < |used| && used[i] ==> used'[i])
    && (forall i, j :: 0 <= i < j < |used| && used'[j] && !used[j] ==> used'[i])
  }

  /** Exactly the missing ones of the wanted tables were made, one frame for each, the lowest that were free. */
  ghost predicate Took(used: seq<bool>, own: map<Node, nat>, used': seq<bool>, own': map<Node, nat>,
                       wanted: set<Node>) {
    && TakenLowest(used, used') && own'.Keys == own.Keys + wanted
    && FreeCount(used) == FreeCount(used') + |wanted - own.Keys|
  }

  lemma TookNothing(used: seq<bool>, own: map<Node, nat>, wanted: set<Node>)
    requires wanted <= own.Keys
    ensures Took(used, own, used, own, wanted)
  {
    assert wanted - own.Keys == {} && own.Keys + wanted == own.Keys;
  }

  lemma TookOne(used: seq<bool>, own: map<Node, nat>, page: nat, c: Node)
    requires LowestRun(used, page, 1) && c !in own
    ensures Took(used, own, Mark(used, page, 1, true), own[c := page * PAGE], {c})
  {
    hide FreeCount, TakenLowest;
    LowestTaken(used, page);
    FreeCountTaken(used, page);
    assert {c} - own.Keys == {c};
    assert own[c := page * PAGE].Keys == own.Keys + {c};
  }

  lemma LowestTaken(used: seq<bool>, page: nat)
    requires LowestRun(used, page, 1)
    ensures TakenLowest(used, Mark(used, page, 1, true))
  {
    forall i | 0 <= i < page ensures used[i] {
      assert !RunFree(used, i, 1);
    }
  }

  lemma TookTrans(used: seq<bool>, own: map<Node, nat>, used1: seq<bool>, own1: map<Node, nat>, used2: seq<bool>,
                  own2: map<Node, nat>,
                  a: set<Node>, b: set<Node>)
    requires Took(used, own, used1, own1, a) && Took(used1, own1, used2, own2, b)
    ensures Took(used, own, used2, own2, a + b)
  {
    hide FreeCount, TakenLowest;
    LowestTrans(used, used1, used2);
    MissingSplit(own.Keys, own1.Keys, a, b);
  }

  lemma LowestTrans(used: seq<bool>, used1: seq<bool>, used2: seq<bool>)
    requires TakenLowest(used, used1) && TakenLowest(used1, used2)
    ensures TakenLowest(used, used2)
  {
  }

  lemma MissingSplit(have: set<Node>, have1: set<Node>, a: set<Node>, b: set<Node>)
    requires have1 == have + a
    ensures |(a + b) - have| == |a - have| + |b - have1| && have1 + b == have + (a + b)
  {
    assert (a + b) - have == (a - have) + (b - have1);
  }

  /** The tables for `n` pages from `virt` on. */
  ghost function RangeTables(virt: nat, n: nat): set<Node> {
    if n == 0 then {} else RangeTables(virt, n - 1) + TablesFor(PageOf(virt + (n - 1) * PAGE))
  }

  /** There are free frames for the needed tables that are missing, and `spare` more. */
  ghost predicate Room(used: seq<bool>, nodes: map<Node, nat>, needed: set<Node>, spare: nat) {
    |needed - nodes.Keys| + spare <= FreeCount(used)
  }

  /** As `Grown`, but free frames may be taken and written for other purposes as well. */
  ghost predicate Confined(used: seq<bool>, m: seq<byte>, own: map<Node, nat>, used': seq<bool>, m': seq<byte>,
                           own': map<Node, nat>) {
    && |used'| == |used| && |m'| == |m|
    && (forall n :: n in own ==> n in own' && own'[n] == own[n])
    && (forall n :: n in own' && n !in own ==> own'[n] % PAGE == 0 && own'[n] / PAGE < |used| && !used[own'[n] / PAGE])
    && (forall i :: 0 <= i < |used| && used[i] ==> used'[i])
    && (forall x :: 0 <= x < |m| && m'[x] != m[x] ==> InTables(own, x) || FreeAt(used, x / PAGE))
  }

  ghost predicate FreeAt(used: seq<bool>, i: nat) {
    i < |used| && !used[i]
  }

  lemma GrownConfined(used: seq<bool>, m: seq<byte>, own: map<Node, nat>, used': seq<bool>, m': seq<byte>,
                      own': map<Node, nat>)
    requires Grown(used, m, own, used', m', own')
    ensures Confined(used, m, own, used', m', own')
  {
    forall x | 0 <= x < |m| && m'[x] != m[x] ensures InTables(own, x) || FreeAt(used, x / PAGE) {
      var n :| n in own' && own'[n] <= x < own'[n] + PAGE;
      assert n !in own ==> x / PAGE == own'[n] / PAGE;
      assert n in own ==> own[n] <= x < own[n] + PAGE;
    }
  }

  lemma ConfinedTrans(used: seq<bool>, m: seq<byte>, own: map<Node, nat>, used1: seq<bool>, m1: seq<byte>,
                      own1: map<Node, nat>,
                      used2: seq<bool>, m2: seq<byte>, own2: map<Node, nat>)
    requires Confined(used, m, own, used1, m1, own1) && Confined(used1, m1, own1, used2, m2, own2)
    ensures Confined(used, m, own, used2, m2, own2)
  {
    forall n | n in own2 && n !in own ensures own2[n] % PAGE == 0 && own2[n] / PAGE < |used| && !used[own2[n] / PAGE] {
      assert n in own1 ==> own2[n] == own1[n];
    }
    forall x | 0 <= x < |m| && m2[x] != m[x] ensures InTables(own, x) || FreeAt(used, x / PAGE) {
      if m2[x] != m1[x] && InTables(own1, x) {
        var n :| n in own1 && own1[n] <= x < own1[n] + PAGE;
        assert n !in own ==> x / PAGE == own1[n] / PAGE;
        assert n in own ==> own[n] <= x < own[n] + PAGE;
      }
    }
  }

  lemma GrownSizes(used: seq<bool>, m: seq<byte>, own: map<Node, nat>, used': seq<bool>, m': seq<byte>,
                   own': map<Node, nat>)
    requires Grown(used, m, own, used', m', own')
    ensures |used'| == |used| && |m'| == |m|
    ensures forall i :: 0 <= i < |used| && used[i] ==> used'[i]
  {
  }

  /** A free frame is taken exactly if there are fewer free frames below it than are taken. */
  lemma TakenIff(used: seq<bool>, used': seq<bool>, e: nat, k: nat)
    requires TakenLowest(used, used') && e < |used| && !used[e] && FreeCount(used) == FreeCount(used') + k
    ensures used'[e] <==> FreeCount(used[..e]) < k
  {
    FreeCountSplit(used, e);
    FreeCountSplit(used', e);
    FreeCountSplit(used[e..], 1);
    FreeCountSplit(used'[e..], 1);
    assert used[e..][1..] == used[e + 1..] && used'[e..][1..] == used'[e + 1..];
    assert used[e..][..1] == [used[e]] && used'[e..][..1] == [used'[e]];
    assert FreeCount([used[e]]) == 1 && FreeCount([used'[e]]) == if used'[e] then 0 else 1;
    if used'[e] {
      FreeCountNone(used'[..e]);
      FreeCountLess(used[e + 1..], used'[e + 1..]);
    } else {
      assert used'[e + 1..] == used[e + 1..];
    }
  }

  lemma GrownRefl(used: seq<bool>, m: seq<byte>, own: map<Node, nat>)
    ensures Grown(used, m, own, used, m, own)
  {
  }

  lemma GrownTrans(used: seq<bool>, m: seq<byte>, own: map<Node, nat>, used1: seq<bool>, m1: seq<byte>,
                   own1: map<Node, nat>,
                   used2: seq<bool>, m2: seq<byte>, own2: map<Node, nat>)
    requires Grown(used, m, own, used1, m1, own1) && Grown(used1, m1, own1, used2, m2, own2)
    ensures Grown(used, m, own, used2, m2, own2)
  {
    forall i | 0 <= i < |used| ensures used2[i] <==> used[i] || NewTable(own, own2, i) {
      if NewTable(own, own1, i) {
        var n :| n in own1 && n !in own && own1[n] == i * PAGE;
        assert n in own2 && own2[n] == own1[n];
      }
      if NewTable(own1, own2, i) {
        var n :| n in own2 && n !in own1 && own2[n] == i * PAGE;
        assert n !in own;
      }
      if NewTable(own, own2, i) {
        var n :| n in own2 && n !in own && own2[n] == i * PAGE;
        assert n in own1 ==> own1[n] == own2[n];
      }
    }
    forall n | n in own2 && n !in own ensures own2[n] % PAGE == 0 && own2[n] / PAGE < |used| && !used[own2[n] / PAGE] {
      if n in own1 {
        assert own2[n] == own1[n];
      }
    }
    forall x | 0 <= x < |m| && m2[x] != m[x] ensures InTables(own2, x) {
      if m1[x] != m[x] {
        var n :| n in own1 && own1[n] <= x < own1[n] + PAGE;
        assert n in own2 && own2[n] == own1[n];
      }
    }
  }

  /** A page that was free, zeroed: the tree does not notice, and it can serve as an empty table. */
  lemma FreshPage(m: seq<byte>, m1: seq<byte>, used: seq<bool>, nodes: map<Node, nat>, page: nat)
    requires TreeOk(m, nodes) && FramesUsed(used, nodes) && |m| == PAGE * |used| && 0 < |used| && used[0]
    requires page < |used| && !used[page] && Zeroed(m, m1, page * PAGE, PAGE)
    ensures TreeOk(m1, nodes) && FreshTable(m1, nodes, page * PAGE)
    ensures forall p :: ValidPage(p) ==> Mapping(m1, nodes, p) == Mapping(m, nodes, p)
  {
    hide Entry, Interior;
    var f := page * PAGE;
    forall n | n in nodes ensures nodes[n] != f && SameTable(m, m1, nodes[n]) {
      OtherFrame(nodes[n], page);
    }
    TablesKept(m, m1, nodes);
    forall i | 0 <= i < ENTRIES ensures Entry(m1, f, i) == 0 {
      ZeroEntry(m1, f, i);
    }
  }

  lemma ZeroEntry(m: seq<byte>, t: nat, i: nat)
    requires t + PAGE <= |m| && i < ENTRIES && forall x :: t <= x < t + PAGE ==> m[x] == 0
    ensures Entry(m, t, i) == 0
  {
    NumberZero(m, t + 8 * i, t + 8 * i + 8);
  }

  lemma OtherFrame(t: nat, page: nat)
    requires t % PAGE == 0 && t / PAGE != page
    ensures t + PAGE <= page * PAGE || page * PAGE + PAGE <= t
  {
  }

  /** Everything that is mapped by a well-formed page map, page by page. */
  ghost function Maps(m: seq<byte>, own: map<Node, nat>, shared: map<Node, nat>, p: Page): nat
    requires Placed(m, own + shared) && ValidPage(p)
  {
    Mapping(m, own + shared, p)
  }

  ghost predicate SameMaps(m: seq<byte>, own: map<Node, nat>, m': seq<byte>, own': map<Node, nat>,
                           shared: map<Node, nat>) {
    && Placed(m, own + shared) && Placed(m', own' + shared)
    && (forall p :: ValidPage(p) ==> Maps(m', own', shared, p) == Maps(m, own, shared, p))
  }

  /** The state a new table leaves behind, hung at index `i` of node `n` in the frame of `page`. */
  ghost predicate TableAdded(used: seq<bool>, m: seq<byte>, m1: seq<byte>, m2: seq<byte>, own: map<Node, nat>,
                             page: nat, n: Node, i: nat) {
    && n in own && !n.Pt? && i < ENTRIES && !UnderShared(Child(n, i)) && Child(n, i) !in own
    && page < |used| && !used[page] && Zeroed(m, m1, page * PAGE, PAGE)
    && EntryWritten(m1, m2, own[n], i, page * PAGE + 7)
  }

  lemma AddedTree(used: seq<bool>, m: seq<byte>, m1: seq<byte>, m2: seq<byte>,
                  own: map<Node, nat>, shared: map<Node, nat>, tables: seq<nat>, page: nat, n: Node, i: nat)
    requires MapOk(used, m, own, shared, tables) && TableAdded(used, m, m1, m2, own, page, n, i)
    ensures TreeOk(m2, own[Child(n, i) := page * PAGE] + shared)
    ensures SameMaps(m, own, m2, own[Child(n, i) := page * PAGE], shared)
  {
    hide Entry, Interior, EntryWritten, Zeroed, Mapping, Recorded;
    var nodes := own + shared;
    FreshPage(m, m1, used, nodes, page);
    assert Child(n, i) !in shared;
    assert Hung(m1, m2, nodes, n, i, page * PAGE);
    TableLinked(m1, m2, nodes, n, i, page * PAGE);
    assert nodes[Child(n, i) := page * PAGE] == own[Child(n, i) := page * PAGE] + shared;
  }

  lemma AddedFrames(used: seq<bool>, own: map<Node, nat>, shared: map<Node, nat>, tables: seq<nat>, page: nat, c: Node)
    requires FramesUsed(used, own + shared) && Recorded(tables, own) && Apart(own, shared)
    requires page < |used| && !used[page] && c != Pml4 && c !in own && !UnderShared(c)
    ensures var own' := own[c := page * PAGE];
      && FramesUsed(Mark(used, page, 1, true), own' + shared) && Apart(own', shared)
      && Recorded(tables + [page * PAGE], own')
  {
    var own' := own[c := page * PAGE];
    var tables' := tables + [page * PAGE];
    assert page * PAGE / PAGE == page;
    forall n | n in own ensures own[n] != page * PAGE {
      assert n in own + shared && (own + shared)[n] == own[n];
    }
    forall n | n in own' + shared ensures n == c || (n in own + shared && (own' + shared)[n] == (own + shared)[n]) {
    }
    forall k | 0 <= k < |tables'| ensures OwnTable(own', tables'[k]) {
      if k < |tables| {
        assert OwnTable(own, tables[k]);
        var n :| n in own && n != Pml4 && own[n] == tables[k];
        assert n in own' && own'[n] == tables'[k];
      } else {
        assert c in own' && own'[c] == tables'[k];
      }
    }
    forall n | n in own' && n != Pml4 ensures own'[n] in tables' {
      if n == c {
        assert tables'[|tables|] == own'[n];
      }
    }
  }

  lemma AddedGrown(used: seq<bool>, m: seq<byte>, m1: seq<byte>, m2: seq<byte>, own: map<Node, nat>, page: nat, n: Node,
                   i: nat)
    requires TableAdded(used, m, m1, m2, own, page, n, i)
    ensures Grown(used, m, own, Mark(used, page, 1, true), m2, own[Child(n, i) := page * PAGE])
  {
    hide Entry;
    var c := Child(n, i);
    var own' := own[c := page * PAGE];
    assert page * PAGE / PAGE == page;
    assert c in own' && own'[c] == page * PAGE;
    forall k | 0 <= k < |used| ensures NewTable(own, own', k) <==> k == page {
      assert k == page ==> c in own' && c !in own && own'[c] == k * PAGE;
    }
    forall x | 0 <= x < |m| && m2[x] != m[x] ensures InTables(own', x) {
      if m2[x] != m1[x] {
        assert n in own' && own'[n] <= x < own'[n] + PAGE;
      } else {
        assert own'[c] <= x < own'[c] + PAGE;
      }
    }
  }

  lemma AddedRoom(used: seq<bool>, own: map<Node, nat>, shared: map<Node, nat>, page: nat, c: Node, needed: set<Node>,
                  spare: nat)
    requires page < |used| && !used[page] && c !in own && c !in shared && c in needed
    requires Room(used, own + shared, needed, spare)
    ensures Room(Mark(used, page, 1, true), own[c := page * PAGE] + shared, needed, spare)
  {
    hide FreeCount, Mark, Room;
    FreeCountTaken(used, page);
    KeysWith(own, shared, c, page * PAGE);
    RoomShrinks(used, Mark(used, page, 1, true), own + shared, own[c := page * PAGE] + shared, needed, spare, c);
  }

  lemma KeysWith(own: map<Node, nat>, shared: map<Node, nat>, c: Node, v: nat)
    ensures (own[c := v] + shared).Keys == (own + shared).Keys + {c}
  {
  }

  lemma RoomShrinks(used: seq<bool>, used': seq<bool>, nodes: map<Node, nat>, nodes': map<Node, nat>, needed: set<Node>,
                    spare: nat, c: Node)
    requires Room(used, nodes, needed, spare) && FreeCount(used') == FreeCount(used) - 1
    requires c in needed && c !in nodes && nodes'.Keys == nodes.Keys + {c}
    ensures Room(used', nodes', needed, spare)
  {
    hide FreeCount;
    OneLess(needed, nodes.Keys, c);
  }

  lemma FreeCountTaken(used: seq<bool>, page: nat)
    requires page < |used| && !used[page]
    ensures FreeCount(Mark(used, page, 1, true)) == FreeCount(used) - 1
  {
    FreeCountRun(used, page, 1, true);
  }

  lemma OneLess(needed: set<Node>, have: set<Node>, c: Node)
    requires c in needed && c !in have
    ensures |needed - have| == |needed - (have + {c})| + 1
  {
    assert needed - have == (needed - (have + {c})) + {c};
  }

  lemma RoomForOne(used: seq<bool>, nodes: map<Node, nat>, needed: set<Node>, spare: nat, c: Node)
    requires Room(used, nodes, needed, spare) && c in needed && c !in nodes
    ensures FreeCount(used) > 0
    ensures exists q :: 0 <= q <= |used| && RunFree(used, q, 1)
  {
    assert c in needed - nodes.Keys;
    var p := SomeFree(used);
  }

  datatype MemArea = MemArea(base: nat, limit: nat, prot: nat, flags: nat)

  class PageMap {
    const pmm: PhysicalMemory
    const pml4: nat
    var ranges: seq<MemArea>
    var tables: seq<nat>
    ghost var own: map<Node, nat>
    ghost const shared: map<Node, nat>

    /** A page map found in place, as the kernel finds the boot loader's. */
    constructor Adopt(memory: PhysicalMemory, root: nat, ghost own: map<Node, nat>, ghost shared: map<Node, nat>,
                      found: seq<nat>)
      requires memory.Valid() && MapOk(memory.Used(), memory.ram, own, shared, found) && Pml4 in own
      requires own[Pml4] == root
      ensures Valid() && pmm == memory && this.own == own && this.shared == shared && pml4 == root && ranges == []
    {
      pmm, pml4, ranges, tables := memory, root, [], found;
      this.own, this.shared := own, shared;
    }

    /** A page map of its own: an empty root with the kernel's two slots copied into it. */
    constructor (kernel: PageMap)
      requires kernel.Valid() && Pdpt(256) in kernel.shared && Pdpt(511) in kernel.shared
      requires FreeCount(kernel.pmm.Used()) > 0
      modifies kernel.pmm`ram, kernel.pmm.bitmap
      ensures Valid() && pmm == kernel.pmm && shared == kernel.shared && ranges == [] && tables == []
      ensures own.Keys == {Pml4} && !old(kernel.pmm.Used())[own[Pml4] / PAGE]
      ensures Grown(old(kernel.pmm.Used()), old(kernel.pmm.ram), map[], pmm.Used(), pmm.ram, own)
      ensures forall p :: ValidPage(p) && p.a != 256 && p.a != 511 ==> Mapped(p) == 0
      ensures forall p :: ValidPage(p) && (p.a == 256 || p.a == 511) ==> Mapped(p) == old(kernel.Mapped(p))
    {
      hide Entry, Recorded, FramesUsed, TreeOk, Grown, FreeCount, Zeroed, EntryWritten, Apart, Mapping;
      ghost var used, m := kernel.pmm.Used(), kernel.pmm.ram;
      ghost var q := SomeFree(used);
      var root, page := kernel.pmm.Alloc(1);
      ghost var m1 := kernel.pmm.ram;
      NewRoot(used, m, m1, kernel.own, kernel.shared, kernel.tables, page.value);
      var e := Entry(kernel.pmm.ram, kernel.pml4, 256);
      kernel.pmm.ram := Store64(kernel.pmm.ram, root + 8 * 256, e);
      ghost var m2 := kernel.pmm.ram;
      EntryStored(m1, m2, root, 256, e);
      CopiedOne(m1, m2, root, kernel.pml4, e);
      var e' := Entry(kernel.pmm.ram, kernel.pml4, 511);
      kernel.pmm.ram := Store64(kernel.pmm.ram, root + 8 * 511, e');
      EntryStored(m2, kernel.pmm.ram, root, 511, e');
      NewMapDone(used, m, m1, m2, kernel.pmm.ram, kernel.own, kernel.shared, kernel.tables, page.value);
      pmm, pml4, ranges, tables := kernel.pmm, root, [], [];
      own, shared := map[Pml4 := root], kernel.shared;
    }

    ghost predicate Valid()
      reads this, pmm, pmm.bitmap
    {
      && pmm.Valid() && MapOk(pmm.Used(), pmm.ram, own, shared, tables)
      && Pml4 in own && own[Pml4] == pml4
    }

    ghost function Mapped(p: Page): nat
      requires Valid() && ValidPage(p)
      reads this, pmm, pmm.bitmap
    {
      Maps(pmm.ram, own, shared, p)
    }

    /** The table behind entry `i` of the table at `t`, allocated if the entry is 0. */
    method GetNextLevel(t: nat, i: nat, ghost n: Node, ghost needed: set<Node>, ghost spare: nat) returns (next: nat)
      requires Valid() && n in own && !n.Pt? && own[n] == t && i < ENTRIES && !UnderShared(Child(n, i))
      requires Child(n, i) in needed && Room(pmm.Used(), own + shared, needed, spare)
      modifies this`tables, this`own, pmm`ram, pmm.bitmap
      ensures Valid() && Child(n, i) in own && own[Child(n, i)] == next
      ensures Grown(old(pmm.Used()), old(pmm.ram), old(own), pmm.Used(), pmm.ram, own)
      ensures Took(old(pmm.Used()), old(own), pmm.Used(), own, {Child(n, i)})
      ensures SameMaps(old(pmm.ram), old(own), pmm.ram, own, shared)
      ensures Room(pmm.Used(), own + shared, needed, spare)
      ensures Child(n, i) in old(own) ==>
        own == old(own) && pmm.ram == old(pmm.ram) && pmm.Used() == old(pmm.Used()) && tables == old(tables)
    {
      hide Entry, Recorded, FramesUsed, TreeOk, Grown, SameMaps, Room, FreeCount, Apart, Took;
      EntryTells(pmm.ram, own, shared, n, i);
      if Entry(pmm.ram, t, i) == 0 {
        next := AddTable(t, i, n, needed, spare);
      } else {
        next := Entry(pmm.ram, t, i) - Entry(pmm.ram, t, i) % PAGE;
        GrownRefl(pmm.Used(), pmm.ram, own);
        TookNothing(pmm.Used(), own, {Child(n, i)});
        SameMapsRefl(pmm.ram, own, shared);
      }
    }

    /** Allocates an empty table, hangs it at entry `i` of the table at `t` and puts it on record. */
    method AddTable(t: nat, i: nat, ghost n: Node, ghost needed: set<Node>, ghost spare: nat) returns (next: nat)
      requires Valid() && n in own && !n.Pt? && own[n] == t && i < ENTRIES && !UnderShared(Child(n, i))
      requires Child(n, i) !in own
      requires TableAt(pmm.ram, t) && Child(n, i) !in shared
      requires Child(n, i) in needed && Room(pmm.Used(), own + shared, needed, spare)
      modifies this`tables, this`own, pmm`ram, pmm.bitmap
      ensures Valid() && Child(n, i) in own && own[Child(n, i)] == next
      ensures Grown(old(pmm.Used()), old(pmm.ram), old(own), pmm.Used(), pmm.ram, own)
      ensures Took(old(pmm.Used()), old(own), pmm.Used(), own, {Child(n, i)})
      ensures SameMaps(old(pmm.ram), old(own), pmm.ram, own, shared)
      ensures Room(pmm.Used(), own + shared, needed, spare)
    {
      hide Entry, Recorded, FramesUsed, TreeOk, Grown, SameMaps, Room, FreeCount, Zeroed, EntryWritten, Apart, Took;
      ghost var used, m, o, ts := pmm.Used(), pmm.ram, own, tables;
      RoomForOne(used, own + shared, needed, spare, Child(n, i));
      ghost var page;
      next, page := pmm.Alloc(1);
      ghost var m1 := pmm.ram;
      StoreRoom(m1, used, own, shared, n, page.value);
      pmm.ram := Store64(pmm.ram, t + 8 * i, next + 7);
      EntryStored(m1, pmm.ram, t, i, next + 7);
      tables := tables + [next];
      own := own[Child(n, i) := next];
      TableDone(used, m, m1, pmm.ram, o, shared, ts, page.value, n, i, needed, spare);
      TookOne(used, o, page.value, Child(n, i));
    }

    /** The last-level table for a page, with the missing tables above it allocated on the way. */
    method Descend(p: Page, ghost needed: set<Node>, ghost spare: nat) returns (pt: nat)
      requires Valid() && ValidPage(p) && !SharedSlot(p.a)
      requires TablesFor(p) <= needed && Room(pmm.Used(), own + shared, needed, spare)
      modifies this`tables, this`own, pmm`ram, pmm.bitmap
      ensures Valid() && Pt(p.a, p.b, p.c) in own && own[Pt(p.a, p.b, p.c)] == pt
      ensures Grown(old(pmm.Used()), old(pmm.ram), old(own), pmm.Used(), pmm.ram, own)
      ensures Took(old(pmm.Used()), old(own), pmm.Used(), own, TablesFor(p))
      ensures SameMaps(old(pmm.ram), old(own), pmm.ram, own, shared)
      ensures Room(pmm.Used(), own + shared, needed, spare)
      ensures Pt(p.a, p.b, p.c) in old(own) ==>
        own == old(own) && pmm.ram == old(pmm.ram) && pmm.Used() == old(pmm.Used()) && tables == old(tables)
    {
      hide MapOk, Grown, SameMaps, Room, Placed, Took;
      ghost var used, m, o := pmm.Used(), pmm.ram, own;
      OkParents(used, m, own, shared, tables, p);
      var pdp := GetNextLevel(pml4, p.a, Pml4, needed, spare);
      ghost var used1, m1, o1 := pmm.Used(), pmm.ram, own;
      var pd := GetNextLevel(pdp, p.b, Pdpt(p.a), needed, spare);
      ghost var used2, m2, o2 := pmm.Used(), pmm.ram, own;
      pt := GetNextLevel(pd, p.c, Pd(p.a, p.b), needed, spare);
      GrownTrans(used, m, o, used1, m1, o1, used2, m2, o2);
      GrownTrans(used, m, o, used2, m2, o2, pmm.Used(), pmm.ram, own);
      SameMapsTrans(m, o, m1, o1, m2, o2, shared);
      SameMapsTrans(m, o, m2, o2, pmm.ram, own, shared);
      TookTrans(used, o, used1, o1, used2, o2, {Pdpt(p.a)}, {Pd(p.a, p.b)});
      TookTrans(used, o, used2, o2, pmm.Used(), own, {Pdpt(p.a)} + {Pd(p.a, p.b)}, {Pt(p.a, p.b, p.c)});
      assert {Pdpt(p.a)} + {Pd(p.a, p.b)} + {Pt(p.a, p.b, p.c)} == TablesFor(p);
    }

    /** Sets the entry of one page. The physical address is page aligned, so combining it with the flags is addition. */
    method MapPage(virt: nat, phys: nat, flags: nat, ghost needed: set<Node>, ghost spare: nat)
      requires Valid() && !SharedSlot(PageOf(virt).a)
      requires phys % PAGE == 0 && flags < PAGE && phys + flags < WORD_LIMIT
      requires TablesFor(PageOf(virt)) <= needed && Room(pmm.Used(), own + shared, needed, spare)
      modifies this`tables, this`own, pmm`ram, pmm.bitmap
      ensures Valid() && ValidPage(PageOf(virt))
      ensures Grown(old(pmm.Used()), old(pmm.ram), old(own), pmm.Used(), pmm.ram, own)
      ensures Took(old(pmm.Used()), old(own), pmm.Used(), own, TablesFor(PageOf(virt)))
      ensures OnePage(old(pmm.ram), old(own), pmm.ram, own, shared, PageOf(virt), phys + flags)
      ensures Room(pmm.Used(), own + shared, needed, spare)
    {
      hide MapOk, Grown, SameMaps, Room, OnePage, EntryWritten, PageOf, Placed, Took;
      ghost var used, m, o := pmm.Used(), pmm.ram, own;
      Digits(virt);
      IsValidPage(virt);
      var p := PageOf(virt);
      var pt := Descend(p, needed, spare);
      ghost var used1, m1 := pmm.Used(), pmm.ram;
      OwnTableAt(used1, m1, own, shared, tables, Pt(p.a, p.b, p.c));
      pmm.ram := Store64(pmm.ram, pt + 8 * p.d, phys + flags);
      EntryStored(m1, pmm.ram, pt, p.d, phys + flags);
      LeafDone(used1, m1, pmm.ram, own, shared, tables, p, phys + flags);
      GrownTrans(used, m, o, used1, m1, own, used1, pmm.ram, own);
      OnePageAfter(m, o, m1, own, pmm.ram, own, shared, p, phys + flags);
    }

    /** Clears the entry of one page; the page's tables stay, and are allocated if they were missing. */
    method UnmapPage(virt: nat, ghost needed: set<Node>, ghost spare: nat)
      requires Valid() && !SharedSlot(PageOf(virt).a)
      requires TablesFor(PageOf(virt)) <= needed && Room(pmm.Used(), own + shared, needed, spare)
      modifies this`tables, this`own, pmm`ram, pmm.bitmap
      ensures Valid() && ValidPage(PageOf(virt))
      ensures Grown(old(pmm.Used()), old(pmm.ram), old(own), pmm.Used(), pmm.ram, own)
      ensures Took(old(pmm.Used()), old(own), pmm.Used(), own, TablesFor(PageOf(virt)))
      ensures OnePage(old(pmm.ram), old(own), pmm.ram, own, shared, PageOf(virt), 0)
      ensures Room(pmm.Used(), own + shared, needed, spare)
    {
      hide MapOk, Grown, Room, OnePage, PageOf, Took;
      MapPage(virt, 0, 0, needed, spare);
    }

    /** Maps the pages from `virt` to `virt + length`, the last one included, to the frames from `phys` on. */
    method MapRangeRaw(virt: nat, phys: nat, length: nat, prot: nat, ghost needed: set<Node>, ghost spare: nat)
      requires Valid() && RangeOk(virt, length / PAGE + 1, needed) && Room(pmm.Used(), own + shared, needed, spare)
      requires phys % PAGE == 0 && prot < PAGE && phys + length + prot < WORD_LIMIT
      modifies this`tables, this`own, pmm`ram, pmm.bitmap
      ensures Valid()
      ensures Grown(old(pmm.Used()), old(pmm.ram), old(own), pmm.Used(), pmm.ram, own)
      ensures Took(old(pmm.Used()), old(own), pmm.Used(), own, RangeTables(virt, length / PAGE + 1))
      ensures ManyPages(old(pmm.ram), old(own), pmm.ram, own, shared, virt, phys, prot, length / PAGE + 1)
      ensures Room(pmm.Used(), own + shared, needed, spare)
    {
      hide MapOk, Grown, Room, OnePage, ManyPages, PageOf, RangeOk, FreeCount, Took, TablesFor;
      ghost var used, m, o := pmm.Used(), pmm.ram, own;
      GrownRefl(used, m, o);
      TookNothing(used, o, {});
      NoPagesYet(used, m, o, shared, tables, virt, phys, prot);
      var i := 0;
      ghost var n := 0;
      while i <= length
        invariant i == n * PAGE && i <= length + PAGE && n <= length / PAGE + 1
        invariant Valid() && Room(pmm.Used(), own + shared, needed, spare)
        invariant Grown(used, m, o, pmm.Used(), pmm.ram, own)
        invariant Took(used, o, pmm.Used(), own, RangeTables(virt, n))
        invariant ManyPages(m, o, pmm.ram, own, shared, virt, phys, prot, n)
      {
        ghost var used1, m1, o1 := pmm.Used(), pmm.ram, own;
        NextInRange(virt, length, needed, n);
        MapPage(virt + i, phys + i, prot, needed, spare);
        GrownTrans(used, m, o, used1, m1, o1, pmm.Used(), pmm.ram, own);
        TookTrans(used, o, used1, o1, pmm.Used(), own, RangeTables(virt, n), TablesFor(PageOf(virt + i)));
        OneMorePage(m, o, m1, o1, pmm.ram, own, shared, virt, phys, prot, n);
        i := i + PAGE;
        n := n + 1;
      }
    }

    /** Records a range and maps it. */
    method MapRange(virt: nat, phys: nat, length: nat, prot: nat, flags: nat, ghost needed: set<Node>, ghost spare: nat)
      requires Valid() && RangeOk(virt, length / PAGE + 1, needed) && Room(pmm.Used(), own + shared, needed, spare)
      requires phys % PAGE == 0 && prot < PAGE && phys + length + prot < WORD_LIMIT
      modifies this`tables, this`own, this`ranges, pmm`ram, pmm.bitmap
      ensures Valid() && ranges == old(ranges) + [MemArea(virt, length, prot, flags)]
      ensures Grown(old(pmm.Used()), old(pmm.ram), old(own), pmm.Used(), pmm.ram, own)
      ensures Took(old(pmm.Used()), old(own), pmm.Used(), own, RangeTables(virt, length / PAGE + 1))
      ensures ManyPages(old(pmm.ram), old(own), pmm.ram, own, shared, virt, phys, prot, length / PAGE + 1)
      ensures Room(pmm.Used(), own + shared, needed, spare)
    {
      hide MapOk, Grown, Room, ManyPages, RangeOk, Took;
      ranges := ranges + [MemArea(virt, length, prot, flags)];
      MapRangeRaw(virt, phys, length, prot, needed, spare);
    }

    /**
     Gives back the frames of all ranges and of all tables below the root, each once, and nothing else.
     The frame of the root is not given back: its address is handed to the heap, which turns it away. The root must
     not lie just past the heap's arena, because that address is taken for a block (`PastTheEnd`).
     */
    method Destroy(heap: BuddyAllocator.BuddyAllocator, ghost firsts: seq<nat>)
      requires Valid() && Backed(pmm.Used(), pmm.ram, own, shared, ranges, firsts)
      requires heap.Valid() && BuddyAllocator.Ignored(heap.baseAddr, pml4) && heap.bucketList as object != pmm.bitmap
      modifies this`tables, this`own, pmm`ram, pmm.bitmap, heap`mem, heap`heap, heap.bucketList
      ensures pmm.ram == old(pmm.ram)
      ensures |pmm.Used()| == |old(pmm.Used())| && forall k :: 0 <= k < |pmm.Used()| ==>
        (pmm.Used()[k] <==> old(pmm.Used())[k] && !InRanges(ranges, firsts, |ranges|, k) && k * PAGE !in old(tables))
      ensures FreeCount(pmm.Used()) == FreeCount(old(pmm.Used())) + FramesIn(ranges, |ranges|) + |old(tables)|
      ensures heap.Valid() && heap.heap == old(heap.heap) && heap.mem == old(heap.mem)
    {
      hide Backed, MapOk, FreeCount, InRanges, FramesIn, BuddyAllocator.Stored;
      ReleaseFrames(firsts);
      heap.Kfree(pml4);
    }

    method ReleaseFrames(ghost firsts: seq<nat>)
      requires Valid() && Backed(pmm.Used(), pmm.ram, own, shared, ranges, firsts)
      modifies this`tables, this`own, pmm`ram, pmm.bitmap
      ensures pmm.ram == old(pmm.ram)
      ensures |pmm.Used()| == |old(pmm.Used())| && forall k :: 0 <= k < |pmm.Used()| ==>
        (pmm.Used()[k] <==> old(pmm.Used())[k] && !InRanges(ranges, firsts, |ranges|, k) && k * PAGE !in old(tables))
      ensures FreeCount(pmm.Used()) == FreeCount(old(pmm.Used())) + FramesIn(ranges, |ranges|) + |old(tables)|
    {
      hide MapOk, Room, Backed, ReleasedRanges, Grown, SameMaps, FreeCount, Mapping, PageOf, FrameOf;
      ghost var used, m, o, ts := pmm.Used(), pmm.ram, own, tables;
      NoneReleased(used, ranges, firsts);
      for i := 0 to |ranges|
        invariant Valid() && own == o && tables == ts && pmm.ram == m
        invariant ReleasedRanges(used, pmm.Used(), ranges, firsts, i)
      {
        BackedAt(used, pmm.Used(), m, o, shared, ts, ranges, firsts, i);
        var amount := DivCeil(ranges[i].limit, PAGE);
        var phys := VirtualToPhysical(ranges[i].base, TablesFor(PageOf(ranges[i].base)), 0);
        ReleaseRange(used, pmm.Used(), m, o, shared, ts, ranges, firsts, i);
        pmm.Free(phys, amount);
      }
      ghost var used1 := pmm.Used();
      assert ReleasedTables(used1, used1, tables, 0);
      for i := 0 to |tables|
        invariant pmm.Valid() && pmm.ram == m && tables == ts
        invariant ReleasedTables(used1, pmm.Used(), tables, i)
      {
        ReleaseTable(used1, pmm.Used(), m, o, shared, ts, i);
        pmm.Free(tables[i], 1);
      }
      assert ts[..|ts|] == ts;
      AllReleased(used, used1, pmm.Used(), ranges, firsts, ts);
    }

    /** The frame of a page, 0 if it is not mapped. The lookup may allocate tables, but changes no mapping. */
    method VirtualToPhysical(virt: nat, ghost needed: set<Node>, ghost spare: nat) returns (phys: nat)
      requires Valid() && !SharedSlot(PageOf(virt).a)
      requires TablesFor(PageOf(virt)) <= needed && Room(pmm.Used(), own + shared, needed, spare)
      modifies this`tables, this`own, pmm`ram, pmm.bitmap
      ensures Valid() && ValidPage(PageOf(virt))
      ensures Grown(old(pmm.Used()), old(pmm.ram), old(own), pmm.Used(), pmm.ram, own)
      ensures Took(old(pmm.Used()), old(own), pmm.Used(), own, TablesFor(PageOf(virt)))
      ensures SameMaps(old(pmm.ram), old(own), pmm.ram, own, shared)
      ensures Room(pmm.Used(), own + shared, needed, spare)
      ensures phys == old(if ValidPage(PageOf(virt)) then FrameOf(Mapped(PageOf(virt))) else 0)
      ensures phys % 4096 == 0
      ensures phys <= old(if ValidPage(PageOf(virt)) then Mapped(PageOf(virt)) else 0) < phys + 4096
      ensures Pt(PageOf(virt).a, PageOf(virt).b, PageOf(virt).c) in old(own) ==>
        own == old(own) && pmm.ram == old(pmm.ram) && pmm.Used() == old(pmm.Used()) && tables == old(tables)
    {
      hide MapOk, Grown, Room, PageOf, Entry, Took, FrameOf;
      Digits(virt);
      IsValidPage(virt);
      var p := PageOf(virt);
      ghost var before := Mapped(p);
      var pt := Descend(p, needed, spare);
      OwnTableAt(pmm.Used(), pmm.ram, own, shared, tables, Pt(p.a, p.b, p.c));
      LeafIs(pmm.Used(), pmm.ram, own, shared, tables, p);
      var e := Entry(pmm.ram, pt, p.d);
      assert Mapped(p) == before;
      FrameBits(e);
      phys := FrameOf(e);
    }
  }

  function DivCeil(y: nat, x: nat): nat
    requires x > 0
  {
    (y + x - 1) / x
  }

  /** Frames `first` to `first + n` are in use, are no tables, and do not include frame 0. */
  ghost predicate DataRun(used: seq<bool>, nodes: map<Node, nat>, first: nat, n: nat) {
    && 0 < first && first + n <= |used| && (forall k :: first <= k < first + n ==> used[k])
    && (forall i :: i in nodes ==> !(first <= nodes[i] / PAGE < first + n))
  }

  /** Each range starts on a page mapped to the first of a run of frames of its own, as long as the range. */
  ghost predicate Backed(used: seq<bool>, m: seq<byte>, own: map<Node, nat>, shared: map<Node, nat>,
                         ranges: seq<MemArea>, firsts: seq<nat>) {
    && |firsts| == |ranges| && Placed(m, own + shared)
    && (forall i :: 0 <= i < |ranges| ==>
          && ValidPage(PageOf(ranges[i].base)) && !SharedSlot(PageOf(ranges[i].base).a)
          && FrameOf(Maps(m, own, shared, PageOf(ranges[i].base))) == firsts[i] * PAGE
          && DataRun(used, own + shared, firsts[i], DivCeil(ranges[i].limit, PAGE)))
    && (forall i, j :: 0 <= i < |ranges| && 0 <= j < |ranges| && i != j ==>
          firsts[i] + DivCeil(ranges[i].limit, PAGE) <= firsts[j] ||
            firsts[j] + DivCeil(ranges[j].limit, PAGE) <= firsts[i])
  }

  /** Frame `k` belongs to one of the first `n` ranges. */
  ghost predicate InRanges(ranges: seq<MemArea>, firsts: seq<nat>, n: nat, k: nat) {
    exists i :: 0 <= i < n && i < |ranges| && i < |firsts| &&
      firsts[i] <= k < firsts[i] + DivCeil(ranges[i].limit, PAGE)
  }

  ghost function FramesIn(ranges: seq<MemArea>, n: nat): nat
    requires n <= |ranges|
    decreases n
  {
    if n == 0 then 0 else FramesIn(ranges, n - 1) + DivCeil(ranges[n - 1].limit, PAGE)
  }

  lemma InMoreRanges(ranges: seq<MemArea>, firsts: seq<nat>, n: nat, k: nat)
    requires n < |ranges| == |firsts|
    ensures InRanges(ranges, firsts, n + 1, k) <==>
      InRanges(ranges, firsts, n, k) || firsts[n] <= k < firsts[n] + DivCeil(ranges[n].limit, PAGE)
  {
    if InRanges(ranges, firsts, n, k) {
      var i :| 0 <= i < n && i < |ranges| && i < |firsts| &&
        firsts[i] <= k < firsts[i] + DivCeil(ranges[i].limit, PAGE);
      assert 0 <= i < n + 1;
    }
  }

  /** The bitmap after the frames of the first `n` ranges have been released. */
  ghost predicate ReleasedRanges(used: seq<bool>, used': seq<bool>, ranges: seq<MemArea>, firsts: seq<nat>, n: nat) {
    && |used'| == |used| && n <= |ranges|
    && (forall k :: 0 <= k < |used| ==> (used'[k] <==> used[k] && !InRanges(ranges, firsts, n, k)))
    && FreeCount(used') == FreeCount(used) + FramesIn(ranges, n)
  }

  lemma ReleaseRange(used: seq<bool>, used1: seq<bool>, m: seq<byte>, own: map<Node, nat>, shared: map<Node, nat>,
                     tables: seq<nat>,
                     ranges: seq<MemArea>, firsts: seq<nat>, n: nat)
    requires MapOk(used1, m, own, shared, tables) && Backed(used, m, own, shared, ranges, firsts) && n < |ranges|
    requires ReleasedRanges(used, used1, ranges, firsts, n)
    ensures firsts[n] + DivCeil(ranges[n].limit, PAGE) <= |used1|
    ensures var used2 := Mark(used1, firsts[n], DivCeil(ranges[n].limit, PAGE), false);
      ReleasedRanges(used, used2, ranges, firsts, n + 1) && MapOk(used2, m, own, shared, tables)
  {
    hide TreeOk, Recorded, Placed, Maps, FreeCount, DivCeil, FrameOf, PageOf;
    var first, amount := firsts[n], DivCeil(ranges[n].limit, PAGE);
    assert DataRun(used, own + shared, first, amount);
    assert forall k :: first <= k < first + amount ==> !InRanges(ranges, firsts, n, k);
    FreeCountRun(used1, first, amount, false);
    forall k | 0 <= k < |used|
      ensures Mark(used1, first, amount, false)[k] <==> used[k] && !InRanges(ranges, firsts, n + 1, k)
    {
      InMoreRanges(ranges, firsts, n, k);
    }
  }

  /** The bitmap after the first `n` table frames have been released as well. */
  ghost predicate ReleasedTables(used: seq<bool>, used': seq<bool>, tables: seq<nat>, n: nat) {
    && |used'| == |used| && n <= |tables|
    && (forall k :: 0 <= k < |used| ==> (used'[k] <==> used[k] && k * PAGE !in tables[..n]))
    && FreeCount(used') == FreeCount(used) + n
  }

  lemma RecordedTable(used: seq<bool>, m: seq<byte>, own: map<Node, nat>, shared: map<Node, nat>, tables: seq<nat>,
                      n: nat)
    requires MapOk(used, m, own, shared, tables) && n < |tables|
    ensures tables[n] == tables[n] / PAGE * PAGE && tables[n] / PAGE < |used| && used[tables[n] / PAGE]
    ensures tables[n] !in tables[..n]
  {
    hide Interior;
    var t := tables[n];
    assert OwnTable(own, t);
    var k :| k in own && k != Pml4 && own[k] == t;
    assert k in own + shared && k !in shared && (own + shared)[k] == t;
    assert TableAt(m, t);
  }

  lemma ReleaseTable(used: seq<bool>, used1: seq<bool>, m: seq<byte>, own: map<Node, nat>, shared: map<Node, nat>,
                     tables: seq<nat>, n: nat)
    requires MapOk(used, m, own, shared, tables) && ReleasedTables(used, used1, tables, n) && n < |tables|
    ensures tables[n] / PAGE + 1 <= |used|
    ensures ReleasedTables(used, Mark(used1, tables[n] / PAGE, 1, false), tables, n + 1)
  {
    hide FreeCount, TreeOk, Recorded, FramesUsed, Apart;
    var t := tables[n];
    RecordedTable(used, m, own, shared, tables, n);
    FreeCountRun(used1, t / PAGE, 1, false);
    assert tables[..n + 1] == tables[..n] + [t];
    forall i | 0 <= i < |used| ensures i * PAGE == t <==> i == t / PAGE {
    }
  }

  lemma RoomNone(used: seq<bool>, nodes: map<Node, nat>, needed: set<Node>)
    requires needed <= nodes.Keys
    ensures Room(used, nodes, needed, 0)
  {
    assert needed - nodes.Keys == {};
  }

  /** A page with a frame has its tables. */
  lemma MappedHasTables(used: seq<bool>, m: seq<byte>, own: map<Node, nat>, shared: map<Node, nat>, tables: seq<nat>,
                        p: Page)
    requires MapOk(used, m, own, shared, tables) && ValidPage(p) && !SharedSlot(p.a)
    requires FrameOf(Maps(m, own, shared, p)) != 0
    ensures Pt(p.a, p.b, p.c) in own && TablesFor(p) <= (own + shared).Keys
  {
    hide Interior, Recorded, Entry;
    assert Pt(p.a, p.b, p.c) !in shared;
    OkParents(used, m, own, shared, tables, p);
  }

  /** The tables for `n` pages from `virt` on are among `needed`, and none of the pages is in a shared slot. */
  ghost predicate RangeOk(virt: nat, n: nat, needed: set<Node>) {
    forall j :: 0 <= j < n ==> TablesFor(PageOf(virt + j * PAGE)) <= needed && !SharedSlot(PageOf(virt + j * PAGE).a)
  }

  /** The entry of page `q` after `n` pages from `virt` on have been mapped in order, if it was `e` before. */
  ghost function EntryAfter(virt: nat, phys: nat, prot: nat, n: nat, q: Page, e: nat): nat
    decreases n
  {
    if n == 0 then e
    else if q == PageOf(virt + (n - 1) * PAGE) then phys + (n - 1) * PAGE + prot
    else EntryAfter(virt, phys, prot, n - 1, q, e)
  }

  ghost predicate ManyPages(m: seq<byte>, own: map<Node, nat>, m': seq<byte>, own': map<Node, nat>,
                            shared: map<Node, nat>,
                            virt: nat, phys: nat, prot: nat, n: nat) {
    && Placed(m, own + shared) && Placed(m', own' + shared)
    && (forall q :: ValidPage(q) ==>
          Maps(m', own', shared, q) == EntryAfter(virt, phys, prot, n, q, Maps(m, own, shared, q)))
  }

  lemma NoPagesYet(used: seq<bool>, m: seq<byte>, own: map<Node, nat>, shared: map<Node, nat>, tables: seq<nat>,
                   virt: nat, phys: nat, prot: nat)
    requires MapOk(used, m, own, shared, tables)
    ensures ManyPages(m, own, m, own, shared, virt, phys, prot, 0)
  {
  }

  lemma NextInRange(virt: nat, length: nat, needed: set<Node>, n: nat)
    requires RangeOk(virt, length / PAGE + 1, needed) && n * PAGE <= length
    ensures TablesFor(PageOf(virt + n * PAGE)) <= needed && !SharedSlot(PageOf(virt + n * PAGE).a)
    ensures n <= length / PAGE
  {
  }

  lemma OneMorePage(m: seq<byte>, o: map<Node, nat>, m1: seq<byte>, o1: map<Node, nat>, m2: seq<byte>,
                    o2: map<Node, nat>, shared: map<Node, nat>,
                    virt: nat, phys: nat, prot: nat, n: nat)
    requires ManyPages(m, o, m1, o1, shared, virt, phys, prot, n)
    requires OnePage(m1, o1, m2, o2, shared, PageOf(virt + n * PAGE), phys + n * PAGE + prot)
    ensures ManyPages(m, o, m2, o2, shared, virt, phys, prot, n + 1)
  {
    hide PageOf, Placed, Mapping;
    assert n + 1 - 1 == n;
  }

  /** Pages of a range shorter than the address space are distinct, so each gets its own frame. */
  lemma {:induction false} EntryInRange(virt: nat, phys: nat, prot: nat, n: nat, j: nat, e: nat)
    requires j < n <= 0x10_0000_0000
    ensures EntryAfter(virt, phys, prot, n, PageOf(virt + j * PAGE), e) == phys + j * PAGE + prot
    decreases n
  {
    hide PageOf;
    if j < n - 1 {
      DistinctPages(virt, j, n - 1);
      EntryInRange(virt, phys, prot, n - 1, j, e);
    }
  }

  lemma DistinctPages(virt: nat, i: nat, j: nat)
    requires i < j < 0x10_0000_0000
    ensures PageOf(virt + i * PAGE) != PageOf(virt + j * PAGE)
  {
    hide PageOf;
    PageIsNumber(virt + i * PAGE, virt + j * PAGE);
    assert (virt + i * PAGE) / PAGE == virt / PAGE + i;
    assert (virt + j * PAGE) / PAGE == virt / PAGE + j;
    DistinctResidues(virt / PAGE + i, virt / PAGE + j);
  }

  lemma DistinctResidues(x: nat, y: nat)
    requires x < y < x + 0x10_0000_0000
    ensures x % 0x10_0000_0000 != y % 0x10_0000_0000
  {
  }

  /** Pages that no part of the range falls on keep their entries. */
  lemma {:induction false} EntryOutsideRange(virt: nat, phys: nat, prot: nat, n: nat, q: Page, e: nat)
    requires forall j :: 0 <= j < n ==> PageOf(virt + j * PAGE) != q
    ensures EntryAfter(virt, phys, prot, n, q, e) == e
    decreases n
  {
    if n > 0 {
      EntryOutsideRange(virt, phys, prot, n - 1, q, e);
    }
  }

  /** The address part of an entry: all but its low 12 bits. */
  function FrameOf(e: nat): nat {
    e - e % PAGE
  }

  lemma FrameBits(e: nat)
    ensures FrameOf(e) % 4096 == 0 && FrameOf(e) <= e < FrameOf(e) + 4096
  {
  }

  /** Page `p` is given entry `e`; every other page keeps its own. */
  ghost predicate OnePage(m: seq<byte>, own: map<Node, nat>, m': seq<byte>, own': map<Node, nat>,
                          shared: map<Node, nat>, p: Page, e: nat) {
    && Placed(m, own + shared) && Placed(m', own' + shared)
    && (forall q :: ValidPage(q) ==> Maps(m', own', shared, q) == if q == p then e else Maps(m, own, shared, q))
  }

  lemma IsValidPage(virt: nat)
    ensures ValidPage(PageOf(virt))
  {
  }

  lemma OkParents(used: seq<bool>, m: seq<byte>, own: map<Node, nat>, shared: map<Node, nat>, tables: seq<nat>, p: Page)
    requires MapOk(used, m, own, shared, tables) && !SharedSlot(p.a)
    ensures Pt(p.a, p.b, p.c) in own ==> Pd(p.a, p.b) in own
    ensures Pd(p.a, p.b) in own ==> Pdpt(p.a) in own
    ensures TreeOk(m, own + shared) && Placed(m, own + shared)
  {
    assert Parent(Pt(p.a, p.b, p.c)) == Pd(p.a, p.b) && Parent(Pd(p.a, p.b)) == Pdpt(p.a);
    assert Pt(p.a, p.b, p.c) in own ==> Pt(p.a, p.b, p.c) in own + shared;
    assert Pd(p.a, p.b) in own ==> Pd(p.a, p.b) in own + shared;
    assert !UnderShared(Pd(p.a, p.b)) && !UnderShared(Pdpt(p.a));
  }

  lemma SameMapsTrans(m: seq<byte>, o: map<Node, nat>, m1: seq<byte>, o1: map<Node, nat>, m2: seq<byte>,
                      o2: map<Node, nat>, shared: map<Node, nat>)
    requires SameMaps(m, o, m1, o1, shared) && SameMaps(m1, o1, m2, o2, shared)
    ensures SameMaps(m, o, m2, o2, shared)
  {
  }

  lemma OnePageAfter(m: seq<byte>, o: map<Node, nat>, m1: seq<byte>, o1: map<Node, nat>, m2: seq<byte>,
                     o2: map<Node, nat>,
                     shared: map<Node, nat>, p: Page, e: nat)
    requires SameMaps(m, o, m1, o1, shared) && OnePage(m1, o1, m2, o2, shared, p, e)
    ensures OnePage(m, o, m2, o2, shared, p, e)
  {
  }

  lemma OwnTableAt(used: seq<bool>, m: seq<byte>, own: map<Node, nat>, shared: map<Node, nat>, tables: seq<nat>,
                   n: Node)
    requires MapOk(used, m, own, shared, tables) && n in own
    ensures TableAt(m, own[n]) && own[n] + PAGE <= |m| && Placed(m, own + shared)
  {
    assert n in own + shared && n !in shared && (own + shared)[n] == own[n];
  }

  lemma LeafIs(used: seq<bool>, m: seq<byte>, own: map<Node, nat>, shared: map<Node, nat>, tables: seq<nat>, p: Page)
    requires MapOk(used, m, own, shared, tables) && ValidPage(p) && Pt(p.a, p.b, p.c) in own
    requires own[Pt(p.a, p.b, p.c)] + PAGE <= |m|
    ensures Maps(m, own, shared, p) == Entry(m, own[Pt(p.a, p.b, p.c)], p.d)
  {
    var n := Pt(p.a, p.b, p.c);
    assert n in own + shared && n !in shared && (own + shared)[n] == own[n];
  }

  lemma LeafDone(used: seq<bool>, m: seq<byte>, m': seq<byte>, own: map<Node, nat>, shared: map<Node, nat>,
                 tables: seq<nat>, p: Page, e: nat)
    requires MapOk(used, m, own, shared, tables) && ValidPage(p) && Pt(p.a, p.b, p.c) in own
    requires EntryWritten(m, m', own[Pt(p.a, p.b, p.c)], p.d, e)
    ensures MapOk(used, m', own, shared, tables) && Grown(used, m, own, used, m', own)
    ensures OnePage(m, own, m', own, shared, p, e)
  {
    hide Entry, Interior, Recorded;
    var n := Pt(p.a, p.b, p.c);
    assert n in own + shared && n !in shared && (own + shared)[n] == own[n];
    LeafWritten(m, m', own + shared, p, e);
    forall x | 0 <= x < |m| && m'[x] != m[x] ensures InTables(own, x) {
      assert own[n] <= x < own[n] + PAGE;
    }
  }

  lemma SameMapsRefl(m: seq<byte>, own: map<Node, nat>, shared: map<Node, nat>)
    requires TreeOk(m, own + shared)
    ensures SameMaps(m, own, m, own, shared)
  {
  }

  /** An entry of an own table is 0 exactly when there is no table behind it. */
  lemma EntryTells(m: seq<byte>, own: map<Node, nat>, shared: map<Node, nat>, n: Node, i: nat)
    requires Apart(own, shared) && TreeOk(m, own + shared)
    requires n in own && !n.Pt? && i < ENTRIES && !UnderShared(Child(n, i))
    ensures TableAt(m, own[n]) && Child(n, i) !in shared
    ensures Entry(m, own[n], i) == 0 <==> Child(n, i) !in own
    ensures Child(n, i) in own ==> Entry(m, own[n], i) - Entry(m, own[n], i) % PAGE == own[Child(n, i)]
  {
    hide Entry;
    assert (own + shared)[n] == own[n];
    assert Interior(m, own + shared, n);
  }

  lemma StoreRoom(m1: seq<byte>, used: seq<bool>, own: map<Node, nat>, shared: map<Node, nat>, n: Node, page: nat)
    requires |m1| == PAGE * |used| <= WORD_LIMIT && page < |used| && n in own && TableAt(m1, own[n])
    ensures own[n] + PAGE <= |m1| && page * PAGE + 7 < WORD_LIMIT
  {
  }

  lemma EntryStored(m: seq<byte>, m': seq<byte>, t: nat, i: nat, e: nat)
    requires t + PAGE <= |m| && i < ENTRIES && e < WORD_LIMIT && m' == Store64(m, t + 8 * i, e)
    ensures EntryWritten(m, m', t, i, e)
  {
    LoadStored(m, t + 8 * i, e);
  }

  lemma AddedSizes(used: seq<bool>, m: seq<byte>, m1: seq<byte>, m2: seq<byte>, own: map<Node, nat>, page: nat, n: Node,
                   i: nat)
    requires TableAdded(used, m, m1, m2, own, page, n, i)
    ensures |m2| == |m1| == |m| && Child(n, i) != Pml4
  {
    hide Entry;
  }

  /** A page map, its record and the room that is left, after `c` has been given the frame of `page`. */
  ghost predicate Extended(used: seq<bool>, m: seq<byte>, m': seq<byte>, own: map<Node, nat>, shared: map<Node, nat>,
                           tables: seq<nat>, page: nat, c: Node, needed: set<Node>, spare: nat) {
    && page < |used|
    && MapOk(Mark(used, page, 1, true), m', own[c := page * PAGE], shared, tables + [page * PAGE])
    && Grown(used, m, own, Mark(used, page, 1, true), m', own[c := page * PAGE])
    && SameMaps(m, own, m', own[c := page * PAGE], shared)
    && Room(Mark(used, page, 1, true), own[c := page * PAGE] + shared, needed, spare)
  }

  lemma TableDone(used: seq<bool>, m: seq<byte>, m1: seq<byte>, m2: seq<byte>, own: map<Node, nat>,
                  shared: map<Node, nat>,
                  tables: seq<nat>, page: nat, n: Node, i: nat, needed: set<Node>, spare: nat)
    requires MapOk(used, m, own, shared, tables) && TableAdded(used, m, m1, m2, own, page, n, i)
    requires Child(n, i) !in shared && Child(n, i) in needed && Room(used, own + shared, needed, spare)
    ensures Extended(used, m, m2, own, shared, tables, page, Child(n, i), needed, spare)
  {
    hide Entry, Recorded, FramesUsed, TreeOk, Grown, SameMaps, Room, Apart, Zeroed, EntryWritten, FreeCount;
    AddedSizes(used, m, m1, m2, own, page, n, i);
    AddedTree(used, m, m1, m2, own, shared, tables, page, n, i);
    AddedFrames(used, own, shared, tables, page, Child(n, i));
    AddedGrown(used, m, m1, m2, own, page, n, i);
    AddedRoom(used, own, shared, page, Child(n, i), needed, spare);
  }

  lemma {:induction false} NumberBound(m: seq<byte>, lo: nat, hi: nat)
    requires lo <= hi <= |m|
    ensures Number(m, lo, hi) < Pow256(hi - lo)
    decreases hi - lo
  {
    if lo < hi {
      NumberBound(m, lo + 1, hi);
    }
  }

  lemma EntryBound(m: seq<byte>, t: nat, i: nat)
    requires t + PAGE <= |m| && i < ENTRIES
    ensures Entry(m, t, i) < WORD_LIMIT
  {
    NumberBound(m, t + 8 * i, t + 8 * i + 8);
    assert Pow256(4) == 0x1_0000_0000;
    assert Pow256(8) == WORD_LIMIT;
  }

  /** A fresh zeroed frame beside a well-formed page map. */
  lemma NewRoot(used: seq<bool>, m: seq<byte>, m1: seq<byte>, own: map<Node, nat>, shared: map<Node, nat>,
                tables: seq<nat>, page: nat)
    requires MapOk(used, m, own, shared, tables) && Pml4 in own
    requires page < |used| && !used[page] && Zeroed(m, m1, page * PAGE, PAGE)
    ensures |m1| == |m| && page * PAGE + PAGE <= |m1| && own[Pml4] + PAGE <= |m1| && own[Pml4] != page * PAGE
    ensures TreeOk(m1, own + shared) && FreshTable(m1, own + shared, page * PAGE)
    ensures forall p :: ValidPage(p) ==> Mapping(m1, own + shared, p) == Mapping(m, own + shared, p)
    ensures Entry(m1, own[Pml4], 256) < WORD_LIMIT
  {
    FreshPage(m, m1, used, own + shared, page);
    assert (own + shared)[Pml4] == own[Pml4];
    EntryBound(m1, own[Pml4], 256);
  }

  lemma CopiedOne(m1: seq<byte>, m2: seq<byte>, root: nat, kernelRoot: nat, e: nat)
    requires EntryWritten(m1, m2, root, 256, e) && root + PAGE <= |m1| && kernelRoot + PAGE <= |m1|
    ensures |m2| == |m1| && Entry(m2, kernelRoot, 511) < WORD_LIMIT
  {
    EntryBound(m2, kernelRoot, 511);
  }

  /** The kernel's two slots have been copied, one after the other, into the root at `root`. */
  ghost predicate SlotsCopied(m1: seq<byte>, m2: seq<byte>, m3: seq<byte>, own: map<Node, nat>, root: nat) {
    && Pml4 in own && own[Pml4] + PAGE <= |m1| == |m2|
    && EntryWritten(m1, m2, root, 256, Entry(m1, own[Pml4], 256))
    && EntryWritten(m2, m3, root, 511, Entry(m2, own[Pml4], 511))
  }

  /** A page map in the frame of `page` with nothing but the kernel's slots, which map what they map in the kernel's. */
  ghost predicate NewMapReady(used: seq<bool>, m: seq<byte>, own: map<Node, nat>, shared: map<Node, nat>, page: nat,
                              m': seq<byte>) {
    && page < |used| && MapOk(Mark(used, page, 1, true), m', map[Pml4 := page * PAGE], shared, [])
    && Grown(used, m, map[], Mark(used, page, 1, true), m', map[Pml4 := page * PAGE])
    && Placed(m, own + shared) && Placed(m', map[Pml4 := page * PAGE] + shared)
    && (forall p :: ValidPage(p) ==>
          Maps(m', map[Pml4 := page * PAGE], shared, p) == if SharedSlot(p.a) then Maps(m, own, shared, p) else 0)
  }

  lemma NewMapDone(used: seq<bool>, m: seq<byte>, m1: seq<byte>, m2: seq<byte>, m3: seq<byte>,
                   own: map<Node, nat>, shared: map<Node, nat>, tables: seq<nat>, page: nat)
    requires MapOk(used, m, own, shared, tables) && Pml4 in own && Pdpt(256) in shared && Pdpt(511) in shared
    requires page < |used| && !used[page] && Zeroed(m, m1, page * PAGE, PAGE)
    requires SlotsCopied(m1, m2, m3, own, page * PAGE)
    ensures NewMapReady(used, m, own, shared, page, m3)
  {
    hide Entry, Recorded, TreeOk, Grown, Zeroed, EntryWritten, FreshTable, Mapping;
    var root := page * PAGE;
    NewRoot(used, m, m1, own, shared, tables, page);
    assert root / PAGE == page;
    NewMapTree(m1, m2, m3, own, shared, root);
    NewMapGrown(used, m, m1, m2, m3, page);
    NothingRecorded(root);
    NewMapFrames(used, own, shared, page);
    assert Placed(m, own + shared) by { OkPlaced(m, own + shared); }
    assert Placed(m3, map[Pml4 := root] + shared) by { OkPlaced(m3, map[Pml4 := root] + shared); }
    forall p | ValidPage(p) && SharedSlot(p.a)
      ensures Mapping(m3, map[Pml4 := root] + shared, p) == Mapping(m, own + shared, p)
    {
      assert Mapping(m1, own + shared, p) == Mapping(m, own + shared, p);
    }
  }

  lemma OkPlaced(m: seq<byte>, nodes: map<Node, nat>)
    requires TreeOk(m, nodes)
    ensures Placed(m, nodes)
  {
  }

  lemma NothingRecorded(root: nat)
    ensures Recorded([], map[Pml4 := root])
  {
  }

  lemma NewMapFrames(used: seq<bool>, own: map<Node, nat>, shared: map<Node, nat>, page: nat)
    requires Apart(own, shared) && FramesUsed(used, own + shared) && page < |used| && !used[page]
    ensures var own' := map[Pml4 := page * PAGE];
      Apart(own', shared) && FramesUsed(Mark(used, page, 1, true), own' + shared)
  {
    assert page * PAGE / PAGE == page;
    forall n | n in shared ensures n in own + shared && (own + shared)[n] == shared[n] {
    }
  }

  lemma NewMapGrown(used: seq<bool>, m: seq<byte>, m1: seq<byte>, m2: seq<byte>, m3: seq<byte>, page: nat)
    requires page < |used| && !used[page] && Zeroed(m, m1, page * PAGE, PAGE)
    requires exists e :: EntryWritten(m1, m2, page * PAGE, 256, e)
    requires exists e :: EntryWritten(m2, m3, page * PAGE, 511, e)
    ensures Grown(used, m, map[], Mark(used, page, 1, true), m3, map[Pml4 := page * PAGE]) && |m3| == |m|
  {
    hide Entry;
    var own' := map[Pml4 := page * PAGE];
    assert page * PAGE / PAGE == page;
    forall k | 0 <= k < |used| ensures NewTable(map[], own', k) <==> k == page {
      assert k == page ==> Pml4 in own' && own'[Pml4] == k * PAGE;
    }
    forall x | 0 <= x < |m| && m3[x] != m[x] ensures InTables(own', x) {
      assert Pml4 in own' && own'[Pml4] <= x < own'[Pml4] + PAGE;
    }
  }

  lemma NewMapTree(m1: seq<byte>, m2: seq<byte>, m3: seq<byte>, own: map<Node, nat>, shared: map<Node, nat>, root: nat)
    requires Apart(own, shared) && TreeOk(m1, own + shared) && Pml4 in own && Pdpt(256) in shared && Pdpt(511) in shared
    requires FreshTable(m1, own + shared, root) && own[Pml4] + PAGE <= |m1| == |m2|
    requires EntryWritten(m1, m2, root, 256, Entry(m1, own[Pml4], 256))
    requires EntryWritten(m2, m3, root, 511, Entry(m2, own[Pml4], 511))
    ensures TreeOk(m3, map[Pml4 := root] + shared)
    ensures forall p :: ValidPage(p) && !SharedSlot(p.a) ==> Mapping(m3, map[Pml4 := root] + shared, p) == 0
    ensures forall p :: ValidPage(p) && SharedSlot(p.a) ==>
      Mapping(m3, map[Pml4 := root] + shared, p) == Mapping(m1, own + shared, p)
  {
    hide Entry, Interior, EntryWritten, FreshTable, Links;
    var nodes, nodes' := own + shared, map[Pml4 := root] + shared;
    NewMapPlaced(m1, m2, m3, own, shared, root);
    NewRootInterior(m1, m2, m3, own, shared, root);
    forall n | n in shared ensures nodes'[n] == nodes[n] == shared[n] && (!n.Pt? ==> Interior(m3, nodes', n)) {
      if !n.Pt? {
        NewSharedInterior(m1, m2, m3, own, shared, root, n);
      }
    }
    forall p | ValidPage(p) && SharedSlot(p.a) ensures Mapping(m3, nodes', p) == Mapping(m1, nodes, p) {
      var pt := Pt(p.a, p.b, p.c);
      assert UnderShared(pt);
      if pt in shared {
        NewMapEntry(m1, m2, m3, own, shared, root, pt, p.d);
      }
    }
  }

  /** The two copies into the new root change no entry of any other table. */
  lemma NewMapEntry(m1: seq<byte>, m2: seq<byte>, m3: seq<byte>, own: map<Node, nat>, shared: map<Node, nat>, root: nat,
                    n: Node, i: nat)
    requires TreeOk(m1, own + shared) && FreshTable(m1, own + shared, root) && Pml4 in own
    requires own[Pml4] + PAGE <= |m1| == |m2|
    requires EntryWritten(m1, m2, root, 256, Entry(m1, own[Pml4], 256))
    requires EntryWritten(m2, m3, root, 511, Entry(m2, own[Pml4], 511))
    requires n in own + shared && i < ENTRIES
    ensures (own + shared)[n] + PAGE <= |m1| == |m3|
    ensures Entry(m2, (own + shared)[n], i) == Entry(m3, (own + shared)[n], i) == Entry(m1, (own + shared)[n], i)
  {
    hide Entry, Interior;
    var t := (own + shared)[n];
    assert TableAt(m1, t) && TableAt(m1, root) && t != root;
    OtherEntry(m1, m2, root, 256, Entry(m1, own[Pml4], 256), t, i);
    OtherEntry(m2, m3, root, 511, Entry(m2, own[Pml4], 511), t, i);
  }

  lemma NewMapPlaced(m1: seq<byte>, m2: seq<byte>, m3: seq<byte>, own: map<Node, nat>, shared: map<Node, nat>,
                     root: nat)
    requires Apart(own, shared) && TreeOk(m1, own + shared) && FreshTable(m1, own + shared, root) && Pml4 in own
    requires own[Pml4] + PAGE <= |m1| == |m2|
    requires EntryWritten(m1, m2, root, 256, Entry(m1, own[Pml4], 256))
    requires EntryWritten(m2, m3, root, 511, Entry(m2, own[Pml4], 511))
    ensures Placed(m3, map[Pml4 := root] + shared)
  {
    hide Entry, Interior;
    var nodes, nodes' := own + shared, map[Pml4 := root] + shared;
    forall n | n in nodes' ensures n == Pml4 || (n in shared && n in nodes && nodes'[n] == nodes[n]) {
    }
    forall n | n in nodes' && n != Pml4 ensures Parent(n) in nodes' {
      assert n in nodes && Parent(n) in nodes;
      if !n.Pdpt? {
        assert UnderShared(Parent(n));
      }
    }
  }

  lemma NewRootInterior(m1: seq<byte>, m2: seq<byte>, m3: seq<byte>, own: map<Node, nat>, shared: map<Node, nat>,
                        root: nat)
    requires Apart(own, shared) && TreeOk(m1, own + shared) && Pml4 in own && Pdpt(256) in shared && Pdpt(511) in shared
    requires FreshTable(m1, own + shared, root) && own[Pml4] + PAGE <= |m1| == |m2|
    requires EntryWritten(m1, m2, root, 256, Entry(m1, own[Pml4], 256))
    requires EntryWritten(m2, m3, root, 511, Entry(m2, own[Pml4], 511))
    ensures root + PAGE <= |m3| && Interior(m3, map[Pml4 := root] + shared, Pml4)
  {
    hide Entry, Placed;
    var nodes, nodes' := own + shared, map[Pml4 := root] + shared;
    assert Pml4 !in shared && nodes[Pml4] == own[Pml4] && nodes'[Pml4] == root;
    NewMapEntry(m1, m2, m3, own, shared, root, Pml4, 511);
    assert Interior(m1, nodes, Pml4);
    forall i | 0 <= i < ENTRIES
      ensures if Child(Pml4, i) in nodes' then Links(Child(Pml4, i), Entry(m3, root, i), nodes'[Child(Pml4, i)])
        else Entry(m3, root, i) == 0
    {
      assert Child(Pml4, i) in nodes' <==> i == 256 || i == 511;
      if i != 511 {
        OtherEntry(m2, m3, root, 511, Entry(m2, own[Pml4], 511), root, i);
        if i != 256 {
          OtherEntry(m1, m2, root, 256, Entry(m1, own[Pml4], 256), root, i);
        }
      }
    }
  }

  lemma NewSharedInterior(m1: seq<byte>, m2: seq<byte>, m3: seq<byte>, own: map<Node, nat>, shared: map<Node, nat>,
                          root: nat, n: Node)
    requires Apart(own, shared) && TreeOk(m1, own + shared) && Pml4 in own && n in shared && !n.Pt?
    requires FreshTable(m1, own + shared, root) && own[Pml4] + PAGE <= |m1| == |m2|
    requires EntryWritten(m1, m2, root, 256, Entry(m1, own[Pml4], 256))
    requires EntryWritten(m2, m3, root, 511, Entry(m2, own[Pml4], 511))
    ensures shared[n] + PAGE <= |m3| && Interior(m3, map[Pml4 := root] + shared, n)
  {
    hide Entry, Placed, EntryWritten, FreshTable, Links;
    var nodes, nodes' := own + shared, map[Pml4 := root] + shared;
    assert n in nodes && nodes[n] == shared[n] && nodes'[n] == shared[n];
    NewMapEntry(m1, m2, m3, own, shared, root, n, 0);
    assert Interior(m1, nodes, n);
    forall i | 0 <= i < ENTRIES
      ensures if Child(n, i) in nodes' then Links(Child(n, i), Entry(m3, shared[n], i), nodes'[Child(n, i)])
        else Entry(m3, shared[n], i) == 0
    {
      assert UnderShared(Child(n, i));
      NewMapEntry(m1, m2, m3, own, shared, root, n, i);
    }
  }

  lemma NoneReleased(used: seq<bool>, ranges: seq<MemArea>, firsts: seq<nat>)
    ensures ReleasedRanges(used, used, ranges, firsts, 0)
  {
  }

  lemma BackedAt(used: seq<bool>, used1: seq<bool>, m: seq<byte>, own: map<Node, nat>, shared: map<Node, nat>,
                 tables: seq<nat>,
                 ranges: seq<MemArea>, firsts: seq<nat>, i: nat)
    requires Backed(used, m, own, shared, ranges, firsts) && i < |ranges| && MapOk(used1, m, own, shared, tables)
    ensures var p := PageOf(ranges[i].base);
      && i < |firsts| && ValidPage(p) && !SharedSlot(p.a) && FrameOf(Maps(m, own, shared, p)) == firsts[i] * PAGE
      && Pt(p.a, p.b, p.c) in own && Room(used1, own + shared, TablesFor(p), 0) && firsts[i] * PAGE / PAGE == firsts[i]
  {
    hide PageOf, FrameOf, Mapping, TreeOk, Recorded;
    var p := PageOf(ranges[i].base);
    assert DataRun(used, own + shared, firsts[i], DivCeil(ranges[i].limit, PAGE));
    MappedHasTables(used1, m, own, shared, tables, p);
    RoomNone(used1, own + shared, TablesFor(p));
  }

  lemma AllReleased(used: seq<bool>, used1: seq<bool>, used2: seq<bool>, ranges: seq<MemArea>, firsts: seq<nat>,
                    tables: seq<nat>)
    requires ReleasedRanges(used, used1, ranges, firsts, |ranges|) && ReleasedTables(used1, used2, tables, |tables|)
    ensures |used2| == |used| && forall k :: 0 <= k < |used| ==>
      (used2[k] <==> used[k] && !InRanges(ranges, firsts, |ranges|, k) && k * PAGE !in tables)
    ensures FreeCount(used2) == FreeCount(used) + FramesIn(ranges, |ranges|) + |tables|
  {
    assert tables[..|tables|] == tables;
  }
}
