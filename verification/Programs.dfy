/** Programs that come and go: loading and destroying them as steps on the address spaces of all. */
module Programs {
  import opened Bytes
  import opened PmmSpec
  import opened PageTables
  import opened Vmm
  import opened AddressSpaces
  import opened Elf

  /** The frames of a loaded program are taken, not frame 0, and no tables. */
  lemma SegmentsOk(used: seq<bool>, m: seq<byte>, own: map<Node, nat>, shared: map<Node, nat>, file: seq<byte>,
                   l: seq<Segment>, firsts: seq<nat>, k: nat)
    requires AllLoaded(used, m, own, shared, file, l, firsts) && InSegments(l, firsts, k)
    ensures 0 < k < |used| && used[k] && DataApart({k}, own + shared)
  {
    hide Filled, PagesPlaced, PageCount;
    var i :| 0 <= i < |l| && firsts[i] <= k < firsts[i] + PageCount(l[i]);
    assert Loaded(used, m, own, shared, file, l[i], firsts[i]);
    assert k * PAGE / PAGE == k;
  }

  /** The world after page map `j` has changed to `s'` in memory `used'`, `m'`. */
  function Changed(w: World, j: nat, used': seq<bool>, m': seq<byte>, s': Space): World
    requires j < |w.spaces|
  {
    w.(used := used', m := m', spaces := w.spaces[j := s'])
  }

  /** What `PageMap.MapPage` and `PageMap.UnmapPage` promise makes them steps of the address spaces. */
  lemma SetIsStep(w: World, j: nat, used': seq<bool>, m': seq<byte>, own': map<Node, nat>, tables': seq<nat>, virt: nat,
                  entry: nat)
    requires WorldOk(w) && Alive(w, j) && MapOk(used', m', own', w.shared, tables')
    requires Grown(w.used, w.m, w.spaces[j].own, used', m', own') && !SharedSlot(PageOf(virt).a)
    requires OnePage(w.m, w.spaces[j].own, m', own', w.shared, PageOf(virt), entry)
    ensures AddressSpaces.Step(w, Event.Set(j, PageOf(virt), entry),
                               Changed(w, j, used', m', Space(own', tables', w.spaces[j].data)))
  {
    hide WorldOk, MapOk, Grown, Confined, OnePage, PageOf;
    IsValidPage(virt);
    GrownConfined(w.used, w.m, w.spaces[j].own, used', m', own');
  }

  /** What `PageMap.VirtualToPhysical` promises makes it one. */
  lemma LookIsStep(w: World, j: nat, used': seq<bool>, m': seq<byte>, own': map<Node, nat>, tables': seq<nat>)
    requires WorldOk(w) && Alive(w, j) && MapOk(used', m', own', w.shared, tables')
    requires Grown(w.used, w.m, w.spaces[j].own, used', m', own')
    requires SameMaps(w.m, w.spaces[j].own, m', own', w.shared)
    ensures AddressSpaces.Step(w, Event.Look(j), Changed(w, j, used', m', Space(own', tables', w.spaces[j].data)))
  {
    hide WorldOk, MapOk, Grown, Confined, SameMaps;
    GrownConfined(w.used, w.m, w.spaces[j].own, used', m', own');
  }

  /** What the constructor of `PageMap` promises, with the kernel's page map in place 0, makes it one. */
  lemma NewIsStep(w: World, used': seq<bool>, m': seq<byte>, own': map<Node, nat>)
    requires WorldOk(w) && Alive(w, 0) && |w.spaces| !in w.dead && MapOk(used', m', own', w.shared, [])
    requires Grown(w.used, w.m, map[], used', m', own') && Placed(w.m, w.spaces[0].own + w.shared)
    requires Placed(m', own' + w.shared) && forall p :: ValidPage(p) ==>
      Maps(m', own', w.shared, p) == if SharedSlot(p.a) then Maps(w.m, w.spaces[0].own, w.shared, p) else 0
    ensures AddressSpaces.Step(w, Event.New, w.(used := used', m := m', spaces := w.spaces + [Space(own', [], {})]))
  {
    hide WorldOk, MapOk, Grown, Maps;
  }

  /** What `Elf.Load` promises when it succeeds makes it a step of the address spaces. */
  lemma LoadIsStep(w: World, j: nat, used': seq<bool>, m': seq<byte>, own': map<Node, nat>, tables': seq<nat>,
                   file: seq<byte>, l: seq<Segment>, firsts: seq<nat>)
    requires WorldOk(w) && Alive(w, j) && MapOk(used', m', own', w.shared, tables')
    requires Confined(w.used, w.m, w.spaces[j].own, used', m', own')
    requires ProgramTaken(w.used, w.spaces[j].own, used', own', l, firsts)
    requires ProgramMaps(w.m, w.spaces[j].own, m', own', w.shared, l, firsts)
    requires AllLoaded(used', m', own', w.shared, file, l, firsts)
    ensures Placed(m', own' + w.shared)
    ensures var s' := Space(own', tables', w.spaces[j].data + SegmentFrames(l, firsts, |w.used|));
      AddressSpaces.Step(w, Event.Load(j, l, firsts), Changed(w, j, used', m', s'))
  {
    hide Recorded, TreeOk, Confined, AllLoaded, SpacesApart, SpaceOk, Maps, NewData, MapsAfter, ProgramTaken;
    OkPlaced(m', own' + w.shared);
    LoadedData(w, j, used', m', own', tables', file, l, firsts);
  }

  /** The frames a load takes for the program were free, and are no tables. */
  lemma LoadedData(w: World, j: nat, used': seq<bool>, m': seq<byte>, own': map<Node, nat>, tables': seq<nat>,
                   file: seq<byte>, l: seq<Segment>, firsts: seq<nat>)
    requires Alive(w, j) && MapOk(used', m', own', w.shared, tables')
    requires ProgramTaken(w.used, w.spaces[j].own, used', own', l, firsts)
    requires AllLoaded(used', m', own', w.shared, file, l, firsts)
    ensures var s' := Space(own', tables', w.spaces[j].data + SegmentFrames(l, firsts, |w.used|));
      NewData(w, w.spaces[j], Changed(w, j, used', m', s'), s')
  {
    hide Recorded, TreeOk, AllLoaded, InSegments, NewTable;
    var s, s' := w.spaces[j], Space(own', tables', w.spaces[j].data + SegmentFrames(l, firsts, |w.used|));
    forall k | k in s'.data && k !in s.data
      ensures k > 0 && FreeAt(w.used, k) && !FreeAt(used', k) && DataApart({k}, own')
    {
      SegmentsOk(used', m', own', w.shared, file, l, firsts, k);
      OwnPart(own', w.shared, {k});
    }
  }

  lemma OwnPart(own: map<Node, nat>, shared: map<Node, nat>, data: set<nat>)
    requires Apart(own, shared) && DataApart(data, own + shared)
    ensures DataApart(data, own)
  {
    forall n | n in own ensures n in own + shared && (own + shared)[n] == own[n] {
      assert n !in shared;
    }
  }

  /** The recorded ranges of a program cover the frames of its segments. */
  lemma RangesCover(ranges: seq<MemArea>, l: seq<Segment>, firsts: seq<nat>, k: nat)
    requires RangesFor(ranges, l) && |firsts| == |l|
    ensures InRanges(ranges, firsts, |ranges|, k) <==> InSegments(l, firsts, k)
  {
    hide PageCount;
    forall i | 0 <= i < |l| ensures DivCeil(ranges[i].limit, PAGE) == PageCount(l[i]) {
      WholePages(PageCount(l[i]));
    }
    if InSegments(l, firsts, k) {
      var i :| 0 <= i < |l| && firsts[i] <= k < firsts[i] + PageCount(l[i]);
      assert DivCeil(ranges[i].limit, PAGE) == PageCount(l[i]);
    }
    if InRanges(ranges, firsts, |ranges|, k) {
      var i :| 0 <= i < |ranges| && firsts[i] <= k < firsts[i] + DivCeil(ranges[i].limit, PAGE);
      assert DivCeil(ranges[i].limit, PAGE) == PageCount(l[i]);
    }
  }

  /**
   What `PageMap.Destroy` does to the bitmap: exactly the frames of the ranges and of the recorded tables are free
   again.
   */
  ghost predicate GivenUp(used: seq<bool>, used': seq<bool>, ranges: seq<MemArea>, firsts: seq<nat>, tables: seq<nat>) {
    |used'| == |used| && forall k :: 0 <= k < |used| ==>
      (used'[k] <==> used[k] && !InRanges(ranges, firsts, |ranges|, k) && k * PAGE !in tables)
  }

  /** That makes it a step of the address spaces, if the ranges are those of the program. */
  lemma DestroyIsStep(w: World, j: nat, used': seq<bool>, ranges: seq<MemArea>, l: seq<Segment>, firsts: seq<nat>)
    requires WorldOk(w) && Alive(w, j) && j > 0 && RangesFor(ranges, l) && |firsts| == |l|
    requires w.spaces[j].data == SegmentFrames(l, firsts, |w.used|)
    requires GivenUp(w.used, used', ranges, firsts, w.spaces[j].tables)
    ensures AddressSpaces.Step(w, Event.Destroy(j), w.(used := used', dead := w.dead + {j}))
  {
    hide SpaceOk, SpacesApart, InRanges, InSegments, RangesFor;
    forall k | 0 <= k < |w.used|
      ensures used'[k] <==> w.used[k] && k !in w.spaces[j].data && k * PAGE !in w.spaces[j].tables
    {
      RangesCover(ranges, l, firsts, k);
    }
  }

  /**
   Loading a program into a new page map and destroying the page map leaves exactly the frames taken that were before.
   */
  lemma LoadThenDestroy(used: seq<bool>, m: seq<byte>, own: map<Node, nat>, used1: seq<bool>, m1: seq<byte>,
                        own1: map<Node, nat>,
                        shared: map<Node, nat>, tables1: seq<nat>, used2: seq<bool>, ranges: seq<MemArea>,
                        l: seq<Segment>, firsts: seq<nat>)
    requires own.Keys == {Pml4} && Confined(used, m, own, used1, m1, own1)
    requires ProgramTaken(used, own, used1, own1, l, firsts)
    requires MapOk(used1, m1, own1, shared, tables1) && RangesFor(ranges, l)
    requires GivenUp(used1, used2, ranges, firsts, tables1)
    ensures used2 == used
  {
    hide InSegments, InRanges, RangesFor, TreeOk, FramesUsed, Apart;
    forall k | 0 <= k < |used| ensures used2[k] == used[k] {
      RangesCover(ranges, l, firsts, k);
      NewTableRecorded(own, own1, tables1, k);
      TablesWereFree(used, m, own, used1, m1, own1, k);
    }
  }

  lemma NewTableRecorded(own: map<Node, nat>, own1: map<Node, nat>, tables: seq<nat>, k: nat)
    requires own.Keys == {Pml4} && Recorded(tables, own1)
    ensures NewTable(own, own1, k) <==> k * PAGE in tables
  {
    if NewTable(own, own1, k) {
      var n :| n in own1 && n !in own && own1[n] == k * PAGE;
    }
    if k * PAGE in tables {
      var i :| 0 <= i < |tables| && tables[i] == k * PAGE;
      assert OwnTable(own1, tables[i]);
      var n :| n in own1 && n != Pml4 && own1[n] == tables[i];
      assert n !in own;
    }
  }

  lemma TablesWereFree(used: seq<bool>, m: seq<byte>, own: map<Node, nat>, used1: seq<bool>, m1: seq<byte>,
                       own1: map<Node, nat>, k: nat)
    requires Confined(used, m, own, used1, m1, own1) && k < |used|
    ensures NewTable(own, own1, k) ==> !used[k]
  {
    if n :| n in own1 && n !in own && own1[n] == k * PAGE {
      assert own1[n] / PAGE == k;
    }
  }

  // ---------------------------------------------------------------- a loaded program stays loaded

  lemma SegmentStays(w: World, i: nat, w': World, file: seq<byte>, s: Segment, first: nat)
    requires Isolated(w, i, w') && Loaded(w.used, w.m, w.spaces[i].own, w.shared, file, s, first)
    requires forall k :: first <= k < first + PageCount(s) ==> k in w.spaces[i].data
    ensures Loaded(w'.used, w'.m, w'.spaces[i].own, w'.shared, file, s, first)
  {
    hide PageCount, PageOf, Mapping, MapOk, DataOk, SpacesApart, Entry, PagesPlaced, Filled, DataRun;
    DataStays(w, i, w', first, PageCount(s), w.spaces[i].own + w.shared);
    FilledStays(w.m, w'.m, file, s, first);
    PagesStayPlaced(w, i, w', s, first);
  }

  lemma DataStays(w: World, i: nat, w': World, first: nat, n: nat, nodes: map<Node, nat>)
    requires Isolated(w, i, w') && DataRun(w.used, nodes, first, n)
    requires forall k :: first <= k < first + n ==> k in w.spaces[i].data
    ensures DataRun(w'.used, w'.spaces[i].own + w'.shared, first, n)
    ensures forall y :: first * PAGE <= y < (first + n) * PAGE && y < |w.m| ==> w'.m[y] == w.m[y]
  {
    hide Mapping, Interior, Recorded, TreeOk, SpacesApart;
    var t' := w'.spaces[i];
    assert SpaceOk(w, w.spaces[i]) && SpaceOk(w', t');
    OwnAligned(w'.used, w'.m, t'.own, w'.shared, t'.tables);
    forall x | x in t'.own + w'.shared ensures !(first <= (t'.own + w'.shared)[x] / PAGE < first + n) {
      var frame := (t'.own + w'.shared)[x];
      TableNoData(t'.own, w'.shared, t'.data, x, frame / PAGE);
    }
    forall y | first * PAGE <= y < (first + n) * PAGE && y < |w.m| ensures w'.m[y] == w.m[y] {
      assert first <= y / PAGE < first + n;
    }
  }

  lemma TableNoData(own: map<Node, nat>, shared: map<Node, nat>, data: set<nat>, x: Node, k: nat)
    requires DataApart(data, own) && DataApart(data, shared) && x in own + shared && k == (own + shared)[x] / PAGE
    requires (own + shared)[x] % PAGE == 0
    ensures k !in data
  {
    assert (own + shared)[x] == k * PAGE;
    assert x in shared ==> (own + shared)[x] == shared[x];
    assert x !in shared ==> x in own && (own + shared)[x] == own[x];
  }

  lemma PagesStayPlaced(w: World, i: nat, w': World, s: Segment, first: nat)
    requires Isolated(w, i, w') && PagesPlaced(w.m, w.spaces[i].own, w.shared, s, first)
    ensures PagesPlaced(w'.m, w'.spaces[i].own, w'.shared, s, first)
  {
    hide PageCount, PageOf, Maps, SpaceOk, SpacesApart, Placed;
    SpaceIsOk(w', i);
    OkPlaced(w'.m, w'.spaces[i].own + w'.shared);
    forall j | 0 <= j < PageCount(s)
      ensures Maps(w'.m, w'.spaces[i].own, w'.shared, PageOf(s.vaddr + j * PAGE)) == (first + j) * PAGE + Protection(s)
      ensures !SharedSlot(PageOf(s.vaddr + j * PAGE).a)
    {
      assert MapsIn(w', i, PageOf(s.vaddr + j * PAGE)) == MapsIn(w, i, PageOf(s.vaddr + j * PAGE));
    }
  }

  /**
   A loaded program reads, at every address of every segment, the bytes of its file and then zeros, whatever other
   programs are loaded, write, map, unmap and are destroyed meanwhile.
   */
  lemma StaysReadable(w: World, es: seq<Event>, w': World, i: nat, file: seq<byte>, phdrs: seq<Segment>,
                      firsts: seq<nat>)
    requires WorldOk(w) && AddressSpaces.Runs(w, es, w') && Alive(w, i) && forall k :: 0 <= k < |es| ==>
      !Touches(es[k], i)
    requires AllLoaded(w.used, w.m, w.spaces[i].own, w.shared, file, Loads(phdrs), firsts)
    requires SegmentFrames(Loads(phdrs), firsts, |w.used|) <= w.spaces[i].data
    ensures Alive(w', i) && Pml4 in w'.spaces[i].own
    ensures AllLoaded(w'.used, w'.m, w'.spaces[i].own, w'.shared, file, Loads(phdrs), firsts)
    ensures ReadsFile(w'.m, w'.spaces[i].own[Pml4], file, phdrs) && KeepsFlags(w'.m, w'.spaces[i].own[Pml4], phdrs)
  {
    hide AddressSpaces.Runs, WorldOk, Loaded, PageCount, Loads, ReadsFile, KeepsFlags;
    Isolation(w, es, w', i);
    var l := Loads(phdrs);
    forall k | 0 <= k < |l| ensures Loaded(w'.used, w'.m, w'.spaces[i].own, w'.shared, file, l[k], firsts[k]) {
      RunInData(w, i, file, l, firsts, k);
      SegmentStays(w, i, w', file, l[k], firsts[k]);
    }
    SpaceIsOk(w', i);
    LoadedReadsFile(w'.used, w'.m, w'.spaces[i].own, w'.shared, w'.spaces[i].tables, file, phdrs, firsts);
    LoadedKeepsFlags(w'.used, w'.m, w'.spaces[i].own, w'.shared, w'.spaces[i].tables, file, phdrs, firsts);
  }

  lemma SpaceIsOk(w: World, i: nat)
    requires WorldOk(w) && Alive(w, i)
    ensures MapOk(w.used, w.m, w.spaces[i].own, w.shared, w.spaces[i].tables) && Pml4 in w.spaces[i].own
  {
    assert SpaceOk(w, w.spaces[i]);
    OwnAligned(w.used, w.m, w.spaces[i].own, w.shared, w.spaces[i].tables);
  }

  lemma RunInData(w: World, i: nat, file: seq<byte>, l: seq<Segment>, firsts: seq<nat>, j: nat)
    requires i < |w.spaces| && AllLoaded(w.used, w.m, w.spaces[i].own, w.shared, file, l, firsts) && j < |l|
    requires SegmentFrames(l, firsts, |w.used|) <= w.spaces[i].data
    ensures forall k :: firsts[j] <= k < firsts[j] + PageCount(l[j]) ==> k in w.spaces[i].data
  {
    hide Filled, PagesPlaced, PageCount;
    assert Loaded(w.used, w.m, w.spaces[i].own, w.shared, file, l[j], firsts[j]);
    forall k | firsts[j] <= k < firsts[j] + PageCount(l[j]) ensures k in SegmentFrames(l, firsts, |w.used|) {
      assert InSegments(l, firsts, k);
    }
  }
}
