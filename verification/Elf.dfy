/** Loading the segments of a program: frames are allocated, filled from the file and mapped. */
module Elf {
  import opened Wrappers
  import opened Bytes
  import opened PmmSpec
  import opened Pmm
  import opened PageTables
  import opened Vmm

  const P_LOAD: nat := 1

  datatype Segment = Segment(ptype: nat, flags: nat, offset: nat, vaddr: nat, filesz: nat, memsz: nat)

  function Alignment(s: Segment): nat {
    s.vaddr % PAGE
  }

  function PageCount(s: Segment): nat {
    DivCeil(s.memsz + Alignment(s), PAGE)
  }

  /** Present and user-accessible; writable if the segment is. */
  function Protection(s: Segment): nat {
    if s.flags / 2 % 2 == 1 then 7 else 5
  }

  /** The loadable segments, in order. */
  function Loads(phdrs: seq<Segment>): (r: seq<Segment>)
    ensures forall s :: s in r <==> s in phdrs && s.ptype == 1
  {
    if phdrs == [] then []
    else
      var rest := Loads(phdrs[..|phdrs| - 1]);
      assert phdrs == phdrs[..|phdrs| - 1] + [phdrs[|phdrs| - 1]];
      if phdrs[|phdrs| - 1].ptype == P_LOAD then rest + [phdrs[|phdrs| - 1]] else rest
  }

  function TotalPages(l: seq<Segment>): nat {
    if l == [] then 0 else TotalPages(l[..|l| - 1]) + PageCount(l[|l| - 1])
  }

  /**
   A loadable segment as a linker makes it: its file part is no longer than its memory part, and it ends below 2^48.
   */
  ghost predicate Proper(s: Segment) {
    s.filesz <= s.memsz && s.vaddr / PAGE + PageCount(s) < 0x10_0000_0000
  }

  /** Loadable segments come in ascending order on pages of their own. */
  ghost predicate Ascending(l: seq<Segment>) {
    && (forall i :: 0 <= i < |l| ==> Proper(l[i]))
    && (forall i, j :: 0 <= i < j < |l| ==> l[i].vaddr / PAGE + PageCount(l[i]) <= l[j].vaddr / PAGE)
  }

  /** Byte `x` of the memory of a segment, counted from the start of its first page. */
  ghost function Content(file: seq<byte>, s: Segment, x: nat): byte
    requires s.offset + s.filesz <= |file|
  {
    if Alignment(s) <= x < Alignment(s) + s.filesz then file[s.offset + x - Alignment(s)] else 0
  }

  /** The frames from `first` on hold the segment. */
  ghost predicate Filled(m: seq<byte>, file: seq<byte>, s: Segment, first: nat) {
    && s.offset + s.filesz <= |file| && (first + PageCount(s)) * PAGE <= |m|
    && (forall y :: first * PAGE <= y < (first + PageCount(s)) * PAGE ==> m[y] == Content(file, s, y - first * PAGE))
  }

  /** The pages of the segment are mapped to those frames, in order. */
  ghost predicate PagesPlaced(m: seq<byte>, own: map<Node, nat>, shared: map<Node, nat>, s: Segment, first: nat) {
    && Placed(m, own + shared)
    && (forall j :: 0 <= j < PageCount(s) ==>
          && ValidPage(PageOf(s.vaddr + j * PAGE)) && !SharedSlot(PageOf(s.vaddr + j * PAGE).a)
          && Maps(m, own, shared, PageOf(s.vaddr + j * PAGE)) == (first + j) * PAGE + Protection(s))
  }

  /** The pages of the segment are outside the shared slots. */
  ghost predicate PrivatePages(s: Segment) {
    forall j :: 0 <= j < PageCount(s) ==> !SharedSlot(PageOf(s.vaddr + j * PAGE).a)
  }

  /** Segment `s` is loaded in a run of frames of its own. */
  ghost predicate Loaded(used: seq<bool>, m: seq<byte>, own: map<Node, nat>, shared: map<Node, nat>, file: seq<byte>,
                         s: Segment, first: nat) {
    && DataRun(used, own + shared, first, PageCount(s))
    && Filled(m, file, s, first) && PagesPlaced(m, own, shared, s, first)
    && PageCount(s) >= 1 && !SharedSlot(PageOf(s.vaddr).a)
  }

  ghost predicate RunsApart(l: seq<Segment>, firsts: seq<nat>) {
    |firsts| == |l| && forall i, j :: 0 <= i < |l| && 0 <= j < |l| && i != j ==>
      firsts[i] + PageCount(l[i]) <= firsts[j] || firsts[j] + PageCount(l[j]) <= firsts[i]
  }

  ghost predicate AllLoaded(used: seq<bool>, m: seq<byte>, own: map<Node, nat>, shared: map<Node, nat>, file: seq<byte>,
                            l: seq<Segment>, firsts: seq<nat>) {
    && RunsApart(l, firsts)
    && (forall i :: 0 <= i < |l| ==> Loaded(used, m, own, shared, file, l[i], firsts[i]))
  }

  /** The ranges recorded for the loaded segments. */
  ghost predicate RangesFor(ranges: seq<MemArea>, l: seq<Segment>) {
    |ranges| == |l| && forall i :: 0 <= i < |l| ==>
      ranges[i] == MemArea(l[i].vaddr, PageCount(l[i]) * PAGE, Protection(l[i]), 0)
  }

  // ---------------------------------------------------------------- reading through the page tables

  /** The byte the processor reads at a virtual address, if the address is mapped. */
  ghost function VirtualByte(m: seq<byte>, root: nat, v: nat): Option<byte>
    requires root + PAGE <= |m|
  {
    if !ValidPage(PageOf(v)) then None else
    var e := Walk(m, root, PageOf(v));
    if e.None? || e.value % 2 == 0 || FrameOf(e.value) + v % PAGE >= |m| then None
    else Some(m[FrameOf(e.value) + v % PAGE])
  }

  /** The page and the offset of the `k`-th byte of a segment. */
  lemma ByteLocation(s: Segment, k: nat)
    requires k < s.memsz
    ensures var x := Alignment(s) + k; var j := x / PAGE;
      && j < PageCount(s) && x < PageCount(s) * PAGE && (s.vaddr + k) % PAGE == x % PAGE
      && PageOf(s.vaddr + k) == PageOf(s.vaddr + j * PAGE)
  {
    hide PageOf;
    var x := Alignment(s) + k;
    var j := x / PAGE;
    assert s.vaddr == s.vaddr / PAGE * PAGE + Alignment(s);
    assert (s.vaddr + k) / PAGE == s.vaddr / PAGE + j;
    assert (s.vaddr + j * PAGE) / PAGE == s.vaddr / PAGE + j;
    SameQuotient(s.vaddr + k, s.vaddr + j * PAGE);
  }

  /** A segment has the fewest whole pages that reach its end from the start of its first page. */
  lemma PageCountLeast(s: Segment, n: nat)
    ensures PageCount(s) <= n <==> s.vaddr % 4096 + s.memsz <= n * 4096
  {
    var x := s.memsz + Alignment(s);
    assert x <= PageCount(s) * PAGE < x + PAGE;
  }

  lemma SameQuotient(v: nat, w: nat)
    requires v / PAGE == w / PAGE
    ensures PageOf(v) == PageOf(w)
  {
    hide PageOf;
    PageIsNumber(v, w);
  }

  lemma EntryParts(first: nat, j: nat, prot: nat)
    requires prot == 5 || prot == 7
    ensures ((first + j) * PAGE + prot) % 2 == 1 && FrameOf((first + j) * PAGE + prot) == (first + j) * PAGE
  {
    var n := first + j;
    var e := n * PAGE + prot;
    assert e == 2 * (2048 * n + prot / 2) + 1;
    assert e % PAGE == prot;
  }

  /** A loaded segment reads, at every one of its virtual addresses, the file's bytes and then zeros. */
  lemma LoadedReads(used: seq<bool>, m: seq<byte>, own: map<Node, nat>, shared: map<Node, nat>, tables: seq<nat>,
                    file: seq<byte>, s: Segment, first: nat, k: nat)
    requires MapOk(used, m, own, shared, tables) && Pml4 in own && Loaded(used, m, own, shared, file, s, first)
    requires k < s.memsz
    ensures own[Pml4] + PAGE <= |m| && s.offset + s.filesz <= |file|
    ensures VirtualByte(m, own[Pml4], s.vaddr + k) == Some(if k < s.filesz then file[s.offset + k] else 0)
  {
    hide PageOf, Walk, MapOk, Loaded, PageCount, Alignment, FrameOf, Protection;
    ByteLocation(s, k);
    var x := Alignment(s) + k;
    var j := x / PAGE;
    SegmentWalk(used, m, own, shared, tables, file, s, first, j);
    AlignedByte(s, k);
    EntryParts(first, j, Protection(s));
    SegmentByte(used, m, own, shared, file, s, first, x);
    assert (first + j) * PAGE + x % PAGE == first * PAGE + x;
  }

  /**
   User code may read the `k`-th address of the segment, and its stores there pass exactly if the segment's header has
   the write bit.
   */
  ghost predicate AccessAt(m: seq<byte>, root: nat, s: Segment, k: nat) {
    && root + PAGE <= |m| && ValidPage(PageOf(s.vaddr + k))
    && var e := Walk(m, root, PageOf(s.vaddr + k));
    && e.Some? && e.value % 2 == 1 && e.value / 4 % 2 == 1
    && (StoreAt(m, root, s.vaddr + k).Some? <==> s.flags / 2 % 2 == 1)
  }

  lemma LoadedAccess(used: seq<bool>, m: seq<byte>, own: map<Node, nat>, shared: map<Node, nat>, tables: seq<nat>,
                     file: seq<byte>, s: Segment, first: nat, k: nat)
    requires MapOk(used, m, own, shared, tables) && Pml4 in own && Loaded(used, m, own, shared, file, s, first)
    requires k < s.memsz
    ensures AccessAt(m, own[Pml4], s, k)
  {
    hide PageOf, Walk, StoreAt, MapOk, Loaded, PageCount, Alignment, Open, Protection;
    ByteLocation(s, k);
    var j := (Alignment(s) + k) / PAGE;
    SegmentWalk(used, m, own, shared, tables, file, s, first, j);
    SegmentStore(used, m, own, shared, tables, file, s, first, j, s.vaddr + k);
    ProtectionBits(s, first + j);
  }

  /** What the entry of a page allows. */
  lemma ProtectionBits(s: Segment, frame: nat)
    ensures var e := frame * PAGE + Protection(s);
      e % 2 == 1 && e / 4 % 2 == 1 && (Open(e) <==> s.flags / 2 % 2 == 1)
  {
    LowBits(512 * frame, Protection(s));
  }

  lemma LowBits(q: nat, d: nat)
    requires d == 5 || d == 7
    ensures var e := 8 * q + d; e % 8 == d && e % 2 == 1 && e / 4 % 2 == 1
  {
    assert (8 * q + d) / 4 == 2 * q + 1;
  }

  /** A store to a page of a loaded segment passes exactly if the entry is open. */
  lemma SegmentStore(used: seq<bool>, m: seq<byte>, own: map<Node, nat>, shared: map<Node, nat>, tables: seq<nat>,
                     file: seq<byte>, s: Segment, first: nat, j: nat, v: nat)
    requires MapOk(used, m, own, shared, tables) && Pml4 in own && Loaded(used, m, own, shared, file, s, first)
    requires j < PageCount(s) && PageOf(v) == PageOf(s.vaddr + j * PAGE)
    ensures own[Pml4] + PAGE <= |m|
    ensures StoreAt(m, own[Pml4], v).Some? <==> Open((first + j) * PAGE + Protection(s))
  {
    hide PageOf, StoreAt, Recorded, Interior, Entry, PageCount, Filled, DataRun, Open;
    assert Pml4 !in shared && (own + shared)[Pml4] == own[Pml4];
    assert Maps(m, own, shared, PageOf(s.vaddr + j * PAGE)) == (first + j) * PAGE + Protection(s);
    StoreTree(m, own + shared, v);
  }

  lemma AlignedByte(s: Segment, k: nat)
    ensures Alignment(s) + k - Alignment(s) == k && (Protection(s) == 5 || Protection(s) == 7)
  {
  }

  /** The processor's walk for a page of a loaded segment ends on the entry of its frame. */
  lemma SegmentWalk(used: seq<bool>, m: seq<byte>, own: map<Node, nat>, shared: map<Node, nat>, tables: seq<nat>,
                    file: seq<byte>, s: Segment, first: nat, j: nat)
    requires MapOk(used, m, own, shared, tables) && Pml4 in own && Loaded(used, m, own, shared, file, s, first)
    requires j < PageCount(s)
    ensures ValidPage(PageOf(s.vaddr + j * PAGE)) && own[Pml4] + PAGE <= |m|
    ensures Walk(m, own[Pml4], PageOf(s.vaddr + j * PAGE)) == Some((first + j) * PAGE + Protection(s))
  {
    hide PageOf, Walk, Recorded, Interior, Entry, PageCount, Filled, DataRun;
    var p := PageOf(s.vaddr + j * PAGE);
    assert Pml4 !in shared && (own + shared)[Pml4] == own[Pml4];
    assert Maps(m, own, shared, p) == (first + j) * PAGE + Protection(s);
    WalkTree(m, own + shared, p);
    assert Pt(p.a, p.b, p.c) in own + shared;
  }

  lemma SegmentByte(used: seq<bool>, m: seq<byte>, own: map<Node, nat>, shared: map<Node, nat>, file: seq<byte>,
                    s: Segment, first: nat, x: nat)
    requires Loaded(used, m, own, shared, file, s, first) && x < PageCount(s) * PAGE
    ensures s.offset + s.filesz <= |file| && first * PAGE + x < |m| && m[first * PAGE + x] == Content(file, s, x)
  {
    hide PageCount, PagesPlaced, DataRun, Content;
    assert (first + PageCount(s)) * PAGE == first * PAGE + PageCount(s) * PAGE;
  }

  // ---------------------------------------------------------------- loading one segment

  /** Memory differs in the frames `first` to `first + n` at most. */
  ghost predicate OnlyRun(m: seq<byte>, m': seq<byte>, first: nat, n: nat) {
    |m'| == |m| && forall x :: 0 <= x < |m| && !(first * PAGE <= x < (first + n) * PAGE) ==> m'[x] == m[x]
  }

  /** The run `first`, `n` has no frame in common with those of the loaded segments. */
  ghost predicate NewRun(l: seq<Segment>, firsts: seq<nat>, first: nat, n: nat) {
    |firsts| == |l| && forall i :: 0 <= i < |l| ==> firsts[i] + PageCount(l[i]) <= first || first + n <= firsts[i]
  }

  lemma MarkedOk(used: seq<bool>, m: seq<byte>, own: map<Node, nat>, shared: map<Node, nat>, tables: seq<nat>,
                 first: nat, n: nat)
    requires MapOk(used, m, own, shared, tables) && n >= 1 && RunFree(used, first, n)
    ensures MapOk(Mark(used, first, n, true), m, own, shared, tables)
    ensures DataRun(Mark(used, first, n, true), own + shared, first, n)
  {
    hide TreeOk, Recorded;
  }

  lemma MarkedLoaded(used: seq<bool>, m: seq<byte>, own: map<Node, nat>, shared: map<Node, nat>, file: seq<byte>,
                     l: seq<Segment>, firsts: seq<nat>, first: nat, n: nat)
    requires AllLoaded(used, m, own, shared, file, l, firsts) && n >= 1 && RunFree(used, first, n)
    ensures AllLoaded(Mark(used, first, n, true), m, own, shared, file, l, firsts) && NewRun(l, firsts, first, n)
  {
    hide Filled, PagesPlaced, PageCount, PageOf;
    var used' := Mark(used, first, n, true);
    forall i | 0 <= i < |l|
      ensures Loaded(used', m, own, shared, file, l[i], firsts[i])
      ensures firsts[i] + PageCount(l[i]) <= first || first + n <= firsts[i]
    {
      assert Loaded(used, m, own, shared, file, l[i], firsts[i]);
      FreeApart(used, firsts[i], PageCount(l[i]), first, n);
    }
  }

  ghost predicate Marked(used: seq<bool>, k: nat) {
    k < |used| && used[k]
  }

  lemma FreeApart(used: seq<bool>, a: nat, n: nat, b: nat, n': nat)
    requires a + n <= |used| && (forall k :: a <= k < a + n ==> used[k]) && RunFree(used, b, n') && n >= 1 && n' >= 1
    ensures a + n <= b || b + n' <= a
  {
    assert a <= b < a + n ==> Marked(used, b);
    assert Marked(used, a);
  }

  /** Writing into a run of data frames disturbs neither the tables nor the other runs. */
  lemma RunWrittenOk(used: seq<bool>, m: seq<byte>, m': seq<byte>, own: map<Node, nat>, shared: map<Node, nat>,
                     tables: seq<nat>, first: nat, n: nat)
    requires MapOk(used, m, own, shared, tables) && DataRun(used, own + shared, first, n) && OnlyRun(m, m', first, n)
    ensures MapOk(used, m', own, shared, tables) && SameMaps(m, own, m', own, shared)
  {
    hide Interior, Recorded, Entry, Mapping;
    var nodes := own + shared;
    forall k | k in nodes ensures SameTable(m, m', nodes[k]) {
      assert TableAt(m, nodes[k]);
      TableOutsideRun(nodes[k], first, n);
    }
    TablesKept(m, m', nodes);
  }

  lemma TableOutsideRun(t: nat, first: nat, n: nat)
    requires t % PAGE == 0 && !(first <= t / PAGE < first + n)
    ensures t + PAGE <= first * PAGE || (first + n) * PAGE <= t
  {
  }

  lemma RunWrittenLoaded(used: seq<bool>, m: seq<byte>, m': seq<byte>, own: map<Node, nat>, shared: map<Node, nat>,
                         file: seq<byte>, l: seq<Segment>, firsts: seq<nat>, first: nat, n: nat)
    requires AllLoaded(used, m, own, shared, file, l, firsts) && NewRun(l, firsts, first, n) && OnlyRun(m, m', first, n)
    requires SameMaps(m, own, m', own, shared)
    ensures AllLoaded(used, m', own, shared, file, l, firsts)
  {
    hide PageCount, PageOf, Mapping, DataRun, Content;
    forall i | 0 <= i < |l| ensures Loaded(used, m', own, shared, file, l[i], firsts[i]) {
      assert Loaded(used, m, own, shared, file, l[i], firsts[i]);
    }
  }

  /** A page map, its record and the memory around it, at one moment. */
  datatype Snapshot = Snapshot(used: seq<bool>, m: seq<byte>, own: map<Node, nat>, tables: seq<nat>)

  /** What mapping one more range does to a segment loaded earlier on other pages. */
  lemma StaysLoaded(a: Snapshot, b: Snapshot, shared: map<Node, nat>, file: seq<byte>, s: Segment, first: nat,
                    virt: nat, phys: nat, prot: nat, n: nat)
    requires Grown(a.used, a.m, a.own, b.used, b.m, b.own)
    requires ManyPages(a.m, a.own, b.m, b.own, shared, virt, phys, prot, n)
    requires MapOk(a.used, a.m, a.own, shared, a.tables) && MapOk(b.used, b.m, b.own, shared, b.tables)
    requires Loaded(a.used, a.m, a.own, shared, file, s, first)
    requires s.vaddr / PAGE + PageCount(s) <= virt / PAGE && virt / PAGE + n <= 0x10_0000_0000
    ensures Loaded(b.used, b.m, b.own, shared, file, s, first)
  {
    hide PageCount, PageOf, Filled, PagesPlaced, DataRun, MapOk, Grown, ManyPages;
    GrownSizes(a.used, a.m, a.own, b.used, b.m, b.own);
    RunStays(a.used, a.m, a.own, b.used, b.m, b.own, shared, b.tables, first, PageCount(s));
    FilledStays(a.m, b.m, file, s, first);
    PagesStay(a.m, a.own, b.m, b.own, shared, s, first, virt, phys, prot, n);
  }

  lemma FilledStays(m: seq<byte>, m': seq<byte>, file: seq<byte>, s: Segment, first: nat)
    requires Filled(m, file, s, first) && |m'| == |m|
    requires forall y :: first * PAGE <= y < (first + PageCount(s)) * PAGE && y < |m| ==> m'[y] == m[y]
    ensures Filled(m', file, s, first)
  {
    hide PageCount, Content;
  }

  lemma PagesStay(m: seq<byte>, own: map<Node, nat>, m': seq<byte>, own': map<Node, nat>, shared: map<Node, nat>,
                  s: Segment, first: nat,
                  virt: nat, phys: nat, prot: nat, n: nat)
    requires PagesPlaced(m, own, shared, s, first) && ManyPages(m, own, m', own', shared, virt, phys, prot, n)
    requires s.vaddr / PAGE + PageCount(s) <= virt / PAGE && virt / PAGE + n <= 0x10_0000_0000
    ensures PagesPlaced(m', own', shared, s, first)
  {
    hide PageCount, PageOf, Placed, Maps;
    forall j | 0 <= j < PageCount(s)
      ensures ValidPage(PageOf(s.vaddr + j * PAGE)) && !SharedSlot(PageOf(s.vaddr + j * PAGE).a)
      ensures Maps(m', own', shared, PageOf(s.vaddr + j * PAGE)) == (first + j) * PAGE + Protection(s)
    {
      var q := PageOf(s.vaddr + j * PAGE);
      assert ValidPage(q) && !SharedSlot(q.a) && Maps(m, own, shared, q) == (first + j) * PAGE + Protection(s);
      forall i | 0 <= i < n ensures PageOf(virt + i * PAGE) != q {
        LaterPage(s.vaddr, j, virt, i);
      }
      EntryOutsideRange(virt, phys, prot, n, q, Maps(m, own, shared, q));
    }
  }

  lemma LaterPage(v: nat, j: nat, w: nat, i: nat)
    requires v / PAGE + j < w / PAGE + i < 0x10_0000_0000
    ensures PageOf(w + i * PAGE) != PageOf(v + j * PAGE)
  {
    hide PageOf;
    PageIsNumber(w + i * PAGE, v + j * PAGE);
    assert (w + i * PAGE) / PAGE == w / PAGE + i && (v + j * PAGE) / PAGE == v / PAGE + j;
  }

  lemma RunStays(used: seq<bool>, m: seq<byte>, own: map<Node, nat>, used': seq<bool>, m': seq<byte>,
                 own': map<Node, nat>,
                 shared: map<Node, nat>, tables': seq<nat>, first: nat, n: nat)
    requires Grown(used, m, own, used', m', own') && DataRun(used, own + shared, first, n)
    requires MapOk(used', m', own', shared, tables')
    ensures DataRun(used', own' + shared, first, n)
    ensures forall y :: first * PAGE <= y < (first + n) * PAGE && y < |m| ==> m'[y] == m[y]
  {
    hide Interior, Recorded, NewTable;
    forall k | k in own' + shared ensures !(first <= (own' + shared)[k] / PAGE < first + n) {
      if k in shared {
        assert k in own + shared && (own + shared)[k] == shared[k];
      } else if k in own {
        assert k in own + shared && (own + shared)[k] == own[k] && own'[k] == own[k];
      }
    }
    forall y | first * PAGE <= y < (first + n) * PAGE && y < |m| ensures m'[y] == m[y] {
      if m'[y] != m[y] {
        assert InTables(own', y);
        var k :| k in own' && own'[k] <= y < own'[k] + PAGE;
        assert k in own' + shared && k !in shared && (own' + shared)[k] == own'[k];
        assert TableAt(m', own'[k]);
        TableOutsideRun(own'[k], first, n);
      }
    }
  }

  /** The segment just mapped is loaded too. */
  lemma NowLoaded(used: seq<bool>, m: seq<byte>, own: map<Node, nat>, used': seq<bool>, m': seq<byte>,
                  own': map<Node, nat>,
                  shared: map<Node, nat>, tables': seq<nat>, file: seq<byte>, s: Segment, first: nat)
    requires Grown(used, m, own, used', m', own') && MapOk(used', m', own', shared, tables')
    requires ManyPages(m, own, m', own', shared, s.vaddr, first * PAGE, Protection(s), PageCount(s) + 1)
    requires Proper(s) && PageCount(s) >= 1 && PrivatePages(s)
    requires DataRun(used, own + shared, first, PageCount(s)) && Filled(m, file, s, first)
    ensures Loaded(used', m', own', shared, file, s, first)
  {
    hide PageCount, PageOf, Filled, PagesPlaced, DataRun, MapOk, Grown, ManyPages, PrivatePages;
    GrownSizes(used, m, own, used', m', own');
    RunStays(used, m, own, used', m', own', shared, tables', first, PageCount(s));
    FilledStays(m, m', file, s, first);
    FirstIsPrivate(s);
    PagesNow(m, own, m', own', shared, s, first);
  }

  lemma FirstIsPrivate(s: Segment)
    requires PrivatePages(s) && PageCount(s) >= 1
    ensures !SharedSlot(PageOf(s.vaddr).a)
  {
    hide PageCount, PageOf;
    assert s.vaddr + 0 * PAGE == s.vaddr;
  }

  lemma PagesNow(m: seq<byte>, own: map<Node, nat>, m': seq<byte>, own': map<Node, nat>, shared: map<Node, nat>,
                 s: Segment, first: nat)
    requires ManyPages(m, own, m', own', shared, s.vaddr, first * PAGE, Protection(s), PageCount(s) + 1) && Proper(s)
    requires PrivatePages(s)
    ensures PagesPlaced(m', own', shared, s, first)
  {
    hide PageCount, PageOf, Placed, Maps;
    forall j | 0 <= j < PageCount(s)
      ensures ValidPage(PageOf(s.vaddr + j * PAGE)) && !SharedSlot(PageOf(s.vaddr + j * PAGE).a)
      ensures Maps(m', own', shared, PageOf(s.vaddr + j * PAGE)) == (first + j) * PAGE + Protection(s)
    {
      var q := PageOf(s.vaddr + j * PAGE);
      IsValidPage(s.vaddr + j * PAGE);
      EntryInRange(s.vaddr, first * PAGE, Protection(s), PageCount(s) + 1, j, Maps(m, own, shared, q));
    }
  }

  /** Loadable segment `s` comes after the loaded ones. */
  ghost predicate Follows(l: seq<Segment>, s: Segment) {
    forall i :: 0 <= i < |l| ==> l[i].vaddr / PAGE + PageCount(l[i]) <= s.vaddr / PAGE
  }

  lemma SegmentMapped(a: Snapshot, b: Snapshot, shared: map<Node, nat>, file: seq<byte>, l: seq<Segment>,
                      firsts: seq<nat>, s: Segment, first: nat)
    requires MapOk(a.used, a.m, a.own, shared, a.tables) && MapOk(b.used, b.m, b.own, shared, b.tables)
    requires Grown(a.used, a.m, a.own, b.used, b.m, b.own)
    requires ManyPages(a.m, a.own, b.m, b.own, shared, s.vaddr, first * PAGE, Protection(s), PageCount(s) + 1)
    requires Proper(s) && PageCount(s) >= 1 && PrivatePages(s) && Follows(l, s)
    requires DataRun(a.used, a.own + shared, first, PageCount(s)) && Filled(a.m, file, s, first)
    requires AllLoaded(a.used, a.m, a.own, shared, file, l, firsts) && NewRun(l, firsts, first, PageCount(s))
    ensures AllLoaded(b.used, b.m, b.own, shared, file, l + [s], firsts + [first])
  {
    hide PageCount, PageOf, MapOk, Grown, ManyPages, DataRun, Filled, Loaded, PrivatePages;
    var l', firsts' := l + [s], firsts + [first];
    forall i | 0 <= i < |l'| ensures Loaded(b.used, b.m, b.own, shared, file, l'[i], firsts'[i]) {
      if i < |l| {
        StaysLoaded(a, b, shared, file, l[i], firsts[i], s.vaddr, first * PAGE, Protection(s), PageCount(s) + 1);
      } else {
        NowLoaded(a.used, a.m, a.own, b.used, b.m, b.own, shared, b.tables, file, s, first);
      }
    }
  }

  // ---------------------------------------------------------------- the loop over the program headers

  lemma RoomAfterAlloc(used: seq<bool>, nodes: map<Node, nat>, needed: set<Node>, first: nat, n: nat, left: nat)
    requires Room(used, nodes, needed, n + left) && RunFree(used, first, n)
    ensures Room(Mark(used, first, n, true), nodes, needed, left)
  {
    hide FreeCount;
    FreeCountRun(used, first, n, true);
  }

  // ---------------------------------------------------------------- the frames a segment takes

  /** Frames were taken for the run of the segment and for tables, and for nothing else. */
  ghost predicate SegmentTaken(used: seq<bool>, own: map<Node, nat>, used': seq<bool>, own': map<Node, nat>, first: nat,
                               n: nat) {
    |used'| == |used| && forall k :: 0 <= k < |used| ==>
      (used'[k] <==> used[k] || first <= k < first + n || NewTable(own, own', k))
  }

  /**
   Whether mapping `n + 1` pages from `virt` on takes frame `e` for a table, after the run before `e` has been taken.
   */
  ghost predicate NextTable(used: seq<bool>, own: map<Node, nat>, virt: nat, first: nat, n: nat) {
    && first + n < |used| && !used[first + n]
    && FreeCount(Mark(used, first, n, true)[..first + n]) < |RangeTables(virt, n + 1) - own.Keys|
  }

  /**
   The page mapped beyond the segment: the frame behind it is the one that follows the segment's run. Mapping the
   segment makes that frame a table of the page map exactly if it was free, with fewer free frames below it than
   tables were missing; if it was free and is not made a table it is still free.
   */
  ghost predicate ExtraPage(used: seq<bool>, own: map<Node, nat>, used': seq<bool>, m': seq<byte>, own': map<Node, nat>,
                            shared: map<Node, nat>, s: Segment, first: nat) {
    var n := PageCount(s);
    var p, e := PageOf(s.vaddr + n * PAGE), first + n;
    && ValidPage(p) && Placed(m', own' + shared) && Maps(m', own', shared, p) == e * PAGE + Protection(s)
    && |used'| == |used|
    && (e < |used| ==> (NewTable(own, own', e) <==> NextTable(used, own, s.vaddr, first, n)))
    && (e < |used| && !used[e] ==> (used'[e] <==> NewTable(own, own', e)))
  }

  ghost predicate SegmentEffect(used: seq<bool>, m: seq<byte>, own: map<Node, nat>, used': seq<bool>, m': seq<byte>,
                                own': map<Node, nat>, shared: map<Node, nat>, s: Segment, first: nat) {
    && Confined(used, m, own, used', m', own') && LowestRun(used, first, PageCount(s))
    && SegmentTaken(used, own, used', own', first, PageCount(s))
    && ExtraPage(used, own, used', m', own', shared, s, first)
    && ManyPages(m, own, m', own', shared, s.vaddr, first * PAGE, Protection(s), PageCount(s) + 1)
  }

  lemma RunConfined(used: seq<bool>, m: seq<byte>, m': seq<byte>, own: map<Node, nat>, first: nat, n: nat)
    requires RunFree(used, first, n) && OnlyRun(m, m', first, n)
    ensures Confined(used, m, own, Mark(used, first, n, true), m', own) && Confined(used, m, own, used, m', own)
  {
    forall x | 0 <= x < |m| && m'[x] != m[x] ensures FreeAt(used, x / PAGE) {
      assert first <= x / PAGE < first + n;
    }
  }

  lemma ExtraMapped(used: seq<bool>, used1: seq<bool>, m1: seq<byte>, own: map<Node, nat>, used': seq<bool>,
                    m': seq<byte>, own': map<Node, nat>,
                    shared: map<Node, nat>, s: Segment, first: nat)
    requires RunFree(used, first, PageCount(s)) && used1 == Mark(used, first, PageCount(s), true) && Proper(s)
    requires Grown(used1, m1, own, used', m', own')
    requires Took(used1, own, used', own', RangeTables(s.vaddr, PageCount(s) + 1))
    requires ManyPages(m1, own, m', own', shared, s.vaddr, first * PAGE, Protection(s), PageCount(s) + 1)
    ensures ExtraPage(used, own, used', m', own', shared, s, first)
  {
    hide PageOf, Mapping, FreeCount, RangeTables, PageCount, Placed, Took, Grown, NextTable, NewTable;
    var n := PageCount(s);
    var p, e := PageOf(s.vaddr + n * PAGE), first + n;
    GrownSizes(used1, m1, own, used', m', own');
    IsValidPage(s.vaddr + n * PAGE);
    EntryInRange(s.vaddr, first * PAGE, Protection(s), n + 1, n, Maps(m1, own, shared, p));
    if e < |used| {
      ExtraTaken(used, used1, m1, own, used', m', own', s.vaddr, first, n);
    }
  }

  lemma ExtraTaken(used: seq<bool>, used1: seq<bool>, m1: seq<byte>, own: map<Node, nat>, used': seq<bool>,
                   m': seq<byte>,
                   own': map<Node, nat>, virt: nat, first: nat, n: nat)
    requires first + n < |used| && used1 == Mark(used, first, n, true)
    requires Grown(used1, m1, own, used', m', own') && Took(used1, own, used', own', RangeTables(virt, n + 1))
    ensures |used'| == |used| && (NewTable(own, own', first + n) <==> NextTable(used, own, virt, first, n))
    ensures !used[first + n] ==> (used'[first + n] <==> NewTable(own, own', first + n))
  {
    hide FreeCount, RangeTables, Grown, NewTable, TakenLowest;
    var e := first + n;
    GrownSizes(used1, m1, own, used', m', own');
    assert used1[e] == used[e];
    TableTaken(used1, m1, own, used', m', own', e);
    if !used[e] {
      TakenIff(used1, used', e, |RangeTables(virt, n + 1) - own.Keys|);
    }
  }

  lemma TableTaken(used: seq<bool>, m: seq<byte>, own: map<Node, nat>, used': seq<bool>, m': seq<byte>,
                   own': map<Node, nat>, e: nat)
    requires Grown(used, m, own, used', m', own') && e < |used|
    ensures NewTable(own, own', e) <==> used'[e] && !used[e]
  {
    if NewTable(own, own', e) {
      var n :| n in own' && n !in own && own'[n] == e * PAGE;
      assert own'[n] / PAGE == e;
    }
  }

  lemma SegmentEffects(used: seq<bool>, m: seq<byte>, own: map<Node, nat>, used1: seq<bool>, m1: seq<byte>,
                       used': seq<bool>, m': seq<byte>, own': map<Node, nat>, shared: map<Node, nat>, s: Segment,
                       first: nat)
    requires LowestRun(used, first, PageCount(s)) && used1 == Mark(used, first, PageCount(s), true) && Proper(s)
    requires OnlyRun(m, m1, first, PageCount(s)) && SameMaps(m, own, m1, own, shared)
    requires Grown(used1, m1, own, used', m', own')
    requires Took(used1, own, used', own', RangeTables(s.vaddr, PageCount(s) + 1))
    requires ManyPages(m1, own, m', own', shared, s.vaddr, first * PAGE, Protection(s), PageCount(s) + 1)
    ensures SegmentEffect(used, m, own, used', m', own', shared, s, first)
  {
    hide PageOf, Mapping, FreeCount, RangeTables, PageCount, Placed, ManyPages, Took, ExtraPage, Confined, OnlyRun,
         SameMaps;
    RunConfined(used, m, m1, own, first, PageCount(s));
    GrownConfined(used1, m1, own, used', m', own');
    ConfinedTrans(used, m, own, used1, m1, own, used', m', own');
    ExtraMapped(used, used1, m1, own, used', m', own', shared, s, first);
    ManyPagesFrom(m, m1, own, m', own', shared, s.vaddr, first * PAGE, Protection(s), PageCount(s) + 1);
  }

  lemma ManyPagesFrom(m: seq<byte>, m1: seq<byte>, own: map<Node, nat>, m': seq<byte>, own': map<Node, nat>,
                      shared: map<Node, nat>, virt: nat, phys: nat, prot: nat, n: nat)
    requires SameMaps(m, own, m1, own, shared) && ManyPages(m1, own, m', own', shared, virt, phys, prot, n)
    ensures ManyPages(m, own, m', own', shared, virt, phys, prot, n)
  {
    hide Placed, Maps;
  }

  /**
   Where the frames below a segment's run are all taken, the one behind it is free and a table is missing - so for the
   first segment of a program in memory that is taken from the bottom - the extra page maps a table of its own page map.
   */
  lemma ExtraIsTable(used: seq<bool>, own: map<Node, nat>, used': seq<bool>, m': seq<byte>, own': map<Node, nat>,
                     shared: map<Node, nat>, s: Segment, first: nat)
    requires ExtraPage(used, own, used', m', own', shared, s, first) && RunFree(used, first, PageCount(s))
    requires forall i :: 0 <= i < first ==> used[i]
    requires FreeAt(used, first + PageCount(s)) && !(RangeTables(s.vaddr, PageCount(s) + 1) <= own.Keys)
    ensures NewTable(own, own', first + PageCount(s))
  {
    hide PageOf, RangeTables, PageCount, Placed, Mapping;
    var n := PageCount(s);
    FreeCountNone(Mark(used, first, n, true)[..first + n]);
    var t :| t in RangeTables(s.vaddr, n + 1) && t !in own.Keys;
    assert t in RangeTables(s.vaddr, n + 1) - own.Keys;
  }

  /** A page map with nothing but its root misses a table for any page. */
  lemma FreshMisses(virt: nat, n: nat, own: map<Node, nat>)
    requires own.Keys == {Pml4}
    ensures !(RangeTables(virt, n + 1) <= own.Keys)
  {
    hide PageOf;
    var p := PageOf(virt + n * PAGE);
    assert RangeTables(virt, n + 1) == RangeTables(virt, n) + TablesFor(p);
    assert Pdpt(p.a) in RangeTables(virt, n + 1);
  }

  /** So it is for the first segment loaded into a new page map where the lowest `taken` frames are taken, no other. */
  lemma FirstSegment(used: seq<bool>, m: seq<byte>, own: map<Node, nat>, used': seq<bool>, m': seq<byte>,
                     own': map<Node, nat>, shared: map<Node, nat>, s: Segment, first: nat, taken: nat)
    requires SegmentEffect(used, m, own, used', m', own', shared, s, first) && own.Keys == {Pml4}
    requires forall i :: 0 <= i < |used| ==> (used[i] <==> i < taken)
    requires PageCount(s) >= 1 && taken + PageCount(s) < |used|
    ensures first == taken && NewTable(own, own', taken + PageCount(s))
  {
    hide PageCount, ExtraPage, NewTable, Confined, SegmentTaken, RangeTables;
    assert RunFree(used, taken, PageCount(s));
    assert !used[first];
    FreshMisses(s.vaddr, PageCount(s), own);
    ExtraIsTable(used, own, used', m', own', shared, s, first);
  }

  /** `read`: fails when the bytes asked for are not all in the file. */
  method ReadFile(pmm: PhysicalMemory, file: seq<byte>, offset: nat, size: nat, dest: nat) returns (ok: bool)
    requires pmm.Valid() && (offset + size <= |file| ==> dest + size <= |pmm.ram|)
    modifies pmm`ram
    ensures pmm.Valid() && ok == (offset + size <= |file|)
    ensures !ok ==> pmm.ram == old(pmm.ram)
    ensures ok ==> forall x :: 0 <= x < |pmm.ram| ==>
      pmm.ram[x] == if dest <= x < dest + size then file[offset + x - dest] else old(pmm.ram)[x]
  {
    if offset + size > |file| {
      return false;
    }
    for i := 0 to size
      invariant |pmm.ram| == |old(pmm.ram)|
      invariant forall x :: 0 <= x < |pmm.ram| ==>
        pmm.ram[x] == if dest <= x < dest + i then file[offset + x - dest] else old(pmm.ram)[x]
    {
      pmm.ram := pmm.ram[dest + i := file[offset + i]];
    }
    return true;
  }

  /** The frames hold the segment once they have been zeroed and the file's part copied in. */
  lemma SegmentFilled(m: seq<byte>, m1: seq<byte>, m2: seq<byte>, file: seq<byte>, s: Segment, first: nat)
    requires Zeroed(m, m1, first * PAGE, PageCount(s) * PAGE) && s.offset + s.filesz <= |file| && s.filesz <= s.memsz
    requires |m2| == |m1| && forall x :: 0 <= x < |m1| ==>
      m2[x] == if first * PAGE + Alignment(s) <= x < first * PAGE + Alignment(s) + s.filesz
               then file[s.offset + x - (first * PAGE + Alignment(s))] else m1[x]
    ensures Filled(m2, file, s, first) && OnlyRun(m, m2, first, PageCount(s))
  {
    SegmentFits(s, first);
    hide PageCount, Alignment;
    assert (first + PageCount(s)) * PAGE == first * PAGE + PageCount(s) * PAGE;
  }

  lemma SegmentFits(s: Segment, first: nat)
    requires s.filesz <= s.memsz
    ensures Alignment(s) + s.filesz <= Alignment(s) + s.memsz <= PageCount(s) * PAGE
    ensures first * PAGE + Alignment(s) + s.filesz <= (first + PageCount(s)) * PAGE
  {
  }

  method LoadSegment(pm: PageMap, file: seq<byte>, s: Segment, ghost needed: set<Node>, ghost l: seq<Segment>,
                     ghost firsts: seq<nat>, ghost left: nat)
    returns (ok: bool, ghost first: nat)
    requires pm.Valid() && Proper(s) && Follows(l, s) && RangeOk(s.vaddr, PageCount(s) + 1, needed)
    requires AllLoaded(pm.pmm.Used(), pm.pmm.ram, pm.own, pm.shared, file, l, firsts)
    requires Room(pm.pmm.Used(), pm.own + pm.shared, needed, PageCount(s) + left) && |pm.pmm.ram| + PAGE <= WORD_LIMIT
    modifies pm`tables, pm`own, pm`ranges, pm.pmm`ram, pm.pmm.bitmap
    ensures pm.Valid() && |pm.pmm.ram| == |old(pm.pmm.ram)|
    ensures ok <==> && PageCount(s) >= 1 && s.offset + s.filesz <= |file|
                    && SomeRun(old(pm.pmm.Used()), PageCount(s))
    ensures ok ==> AllLoaded(pm.pmm.Used(), pm.pmm.ram, pm.own, pm.shared, file, l + [s], firsts + [first])
    ensures ok ==> Room(pm.pmm.Used(), pm.own + pm.shared, needed, left)
    ensures ok ==> pm.ranges == old(pm.ranges) + [MemArea(s.vaddr, PageCount(s) * PAGE, Protection(s), 0)]
    ensures !ok ==> pm.pmm.Used() == old(pm.pmm.Used()) && pm.own == old(pm.own) && pm.ranges == old(pm.ranges)
    ensures !ok ==> SameMaps(old(pm.pmm.ram), old(pm.own), pm.pmm.ram, pm.own, pm.shared)
    ensures !ok ==> Confined(old(pm.pmm.Used()), old(pm.pmm.ram), old(pm.own), pm.pmm.Used(), pm.pmm.ram, pm.own)
    ensures ok ==>
      SegmentEffect(old(pm.pmm.Used()), old(pm.pmm.ram), old(pm.own), pm.pmm.Used(), pm.pmm.ram, pm.own, pm.shared,
        s, first)
  {
    hide MapOk, AllLoaded, Room, RangeOk, Grown, ManyPages, SameMaps, Filled, DataRun, OnlyRun, NewRun, Zeroed,
         PageCount, Alignment;
    hide Confined, SegmentEffect, Took, PrivatePages;
    ghost var used, m, own, tables := pm.pmm.Used(), pm.pmm.ram, pm.own, pm.tables;
    var count := PageCount(s);
    first := 0;
    var memArea, page := pm.pmm.Alloc(count);
    if memArea == 0 {
      NoMemory(used, m, own, pm.shared, tables, page, count);
      return false, 0;
    }
    first := page.value;
    ghost var used1, m1 := pm.pmm.Used(), pm.pmm.ram;
    Allocated(used, m, m1, own, pm.shared, tables, file, l, firsts, s, first, needed, left);
    var res := ReadFile(pm.pmm, file, s.offset, s.filesz, memArea + Alignment(s));
    ghost var m2 := pm.pmm.ram;
    if !res {
      assert memArea / PAGE == first;
      pm.pmm.Free(memArea, count);
      GivenBack(used, m, m1, own, pm.shared, tables, first, count);
      return false, 0;
    }
    Copied(used, m, m1, m2, own, pm.shared, tables, file, l, firsts, s, first);
    RangeLength(s);
    NextInRange(s.vaddr, count * PAGE, needed, 0);
    PrivateRange(s, needed);
    pm.MapRange(s.vaddr, memArea, count * PAGE, Protection(s), 0, needed, left);
    GrownSizes(used1, m2, own, pm.pmm.Used(), pm.pmm.ram, pm.own);
    SegmentMapped(Snapshot(used1, m2, own, tables), Snapshot(pm.pmm.Used(), pm.pmm.ram, pm.own, pm.tables), pm.shared,
                  file, l, firsts, s, first);
    SegmentEffects(used, m, own, used1, m2, pm.pmm.Used(), pm.pmm.ram, pm.own, pm.shared, s, first);
    return true, first;
  }

  lemma PrivateRange(s: Segment, needed: set<Node>)
    requires RangeOk(s.vaddr, PageCount(s) + 1, needed)
    ensures PrivatePages(s)
  {
    hide PageCount, PageOf;
  }

  lemma NotPageZero(used: seq<bool>, p: nat, count: nat)
    requires 0 < |used| && used[0] && count >= 1 && RunFree(used, p, count)
    ensures p != 0
  {
  }

  lemma NoMemory(used: seq<bool>, m: seq<byte>, own: map<Node, nat>, shared: map<Node, nat>, tables: seq<nat>,
                 page: Option<nat>, count: nat)
    requires MapOk(used, m, own, shared, tables)
    requires page.None? <==> count == 0 || forall q :: 0 <= q <= |used| ==> !RunFree(used, q, count)
    requires page.Some? ==> LowestRun(used, page.value, count) && page.value * PAGE == 0
    ensures page.None? && SameMaps(m, own, m, own, shared) && Confined(used, m, own, used, m, own)
  {
    hide Recorded, Interior;
    if page.Some? {
      NotPageZero(used, page.value, count);
    }
    SameMapsRefl(m, own, shared);
  }

  /** The state after the allocation: the run is the segment's, and what was loaded still is. */
  lemma Allocated(used: seq<bool>, m: seq<byte>, m1: seq<byte>, own: map<Node, nat>, shared: map<Node, nat>,
                  tables: seq<nat>,
                  file: seq<byte>, l: seq<Segment>, firsts: seq<nat>, s: Segment, first: nat, needed: set<Node>,
                  left: nat)
    requires MapOk(used, m, own, shared, tables) && AllLoaded(used, m, own, shared, file, l, firsts) && Proper(s)
    requires PageCount(s) >= 1 && RunFree(used, first, PageCount(s)) && Zeroed(m, m1, first * PAGE, PageCount(s) * PAGE)
    requires Room(used, own + shared, needed, PageCount(s) + left)
    ensures var used1 := Mark(used, first, PageCount(s), true);
      && MapOk(used1, m, own, shared, tables) && AllLoaded(used1, m, own, shared, file, l, firsts)
      && DataRun(used1, own + shared, first, PageCount(s)) && NewRun(l, firsts, first, PageCount(s))
      && Room(used1, own + shared, needed, left)
    ensures first * PAGE + Alignment(s) + s.filesz <= |m1| == |m| && (first + PageCount(s)) * PAGE <= |m|
  {
    hide AllLoaded, DataRun, NewRun, Room, PageCount, Alignment, TreeOk, Recorded, FramesUsed;
    MarkedOk(used, m, own, shared, tables, first, PageCount(s));
    MarkedLoaded(used, m, own, shared, file, l, firsts, first, PageCount(s));
    RoomAfterAlloc(used, own + shared, needed, first, PageCount(s), left);
    SegmentFits(s, first);
  }

  lemma GivenBack(used: seq<bool>, m: seq<byte>, m1: seq<byte>, own: map<Node, nat>, shared: map<Node, nat>,
                  tables: seq<nat>, first: nat, n: nat)
    requires MapOk(used, m, own, shared, tables) && n >= 1 && RunFree(used, first, n)
    requires Zeroed(m, m1, first * PAGE, n * PAGE)
    ensures Mark(Mark(used, first, n, true), first, n, false) == used
    ensures MapOk(used, m1, own, shared, tables) && SameMaps(m, own, m1, own, shared)
    ensures Confined(used, m, own, used, m1, own)
  {
    hide TreeOk, Recorded, SameMaps, Confined;
    MarkedOk(used, m, own, shared, tables, first, n);
    var used1 := Mark(used, first, n, true);
    assert OnlyRun(m, m1, first, n);
    RunWrittenOk(used1, m, m1, own, shared, tables, first, n);
    RunConfined(used, m, m1, own, first, n);
    assert Mark(used1, first, n, false) == used;
  }

  /** The state after the copy: the run holds the segment, and what was loaded still is. */
  lemma Copied(used: seq<bool>, m: seq<byte>, m1: seq<byte>, m2: seq<byte>, own: map<Node, nat>, shared: map<Node, nat>,
               tables: seq<nat>,
               file: seq<byte>, l: seq<Segment>, firsts: seq<nat>, s: Segment, first: nat)
    requires first + PageCount(s) <= |used| && MapOk(Mark(used, first, PageCount(s), true), m, own, shared, tables)
    requires AllLoaded(Mark(used, first, PageCount(s), true), m, own, shared, file, l, firsts)
    requires DataRun(Mark(used, first, PageCount(s), true), own + shared, first, PageCount(s))
    requires NewRun(l, firsts, first, PageCount(s))
    requires Zeroed(m, m1, first * PAGE, PageCount(s) * PAGE) && s.offset + s.filesz <= |file| && s.filesz <= s.memsz
    requires |m2| == |m1| && forall x :: 0 <= x < |m1| ==>
      m2[x] == if first * PAGE + Alignment(s) <= x < first * PAGE + Alignment(s) + s.filesz
               then file[s.offset + x - (first * PAGE + Alignment(s))] else m1[x]
    ensures Filled(m2, file, s, first) && |m2| == |m| && OnlyRun(m, m2, first, PageCount(s))
    ensures MapOk(Mark(used, first, PageCount(s), true), m2, own, shared, tables)
    ensures AllLoaded(Mark(used, first, PageCount(s), true), m2, own, shared, file, l, firsts)
    ensures SameMaps(m, own, m2, own, shared)
  {
    hide AllLoaded, DataRun, NewRun, PageCount, Alignment, MapOk, Filled, OnlyRun, SameMaps;
    var used1 := Mark(used, first, PageCount(s), true);
    SegmentFilled(m, m1, m2, file, s, first);
    RunWrittenOk(used1, m, m2, own, shared, tables, first, PageCount(s));
    RunWrittenLoaded(used1, m, m2, own, shared, file, l, firsts, first, PageCount(s));
  }

  lemma RangeLength(s: Segment)
    ensures PageCount(s) * PAGE / PAGE + 1 == PageCount(s) + 1
  {
  }

  lemma {:induction false} LoadsPrefix(phdrs: seq<Segment>, i: nat)
    requires i <= |phdrs|
    ensures Loads(phdrs[..i]) <= Loads(phdrs)
    decreases |phdrs|
  {
    if i < |phdrs| {
      var last := |phdrs| - 1;
      LoadsPrefix(phdrs[..last], i);
      assert phdrs[..last][..i] == phdrs[..i];
    } else {
      assert phdrs[..i] == phdrs;
    }
  }

  lemma LoadsNext(phdrs: seq<Segment>, i: nat)
    requires i < |phdrs|
    ensures Loads(phdrs[..i + 1]) == if phdrs[i].ptype == P_LOAD then Loads(phdrs[..i]) + [phdrs[i]]
      else Loads(phdrs[..i])
  {
    assert phdrs[..i + 1][..i] == phdrs[..i];
  }

  lemma {:induction false} TotalSplit(l: seq<Segment>, i: nat)
    requires i <= |l|
    ensures TotalPages(l[..i]) + TotalPages(l[i..]) == TotalPages(l)
    decreases |l|
  {
    if i < |l| {
      var last := |l| - 1;
      assert l[..last][..i] == l[..i] && l[i..][..last - i] == l[..last][i..];
      TotalSplit(l[..last], i);
    } else {
      assert l[..i] == l && l[i..] == [];
    }
  }

  /** The segment reached by the loop is the next loadable one. */
  lemma NextLoad(phdrs: seq<Segment>, i: nat)
    requires i < |phdrs| && phdrs[i].ptype == P_LOAD
    ensures var l, k := Loads(phdrs), |Loads(phdrs[..i])|;
      k < |l| && l[k] == phdrs[i] && l[..k] == Loads(phdrs[..i]) && l[..k + 1] == Loads(phdrs[..i + 1])
  {
    hide Loads;
    var l, done := Loads(phdrs), Loads(phdrs[..i]);
    LoadsNext(phdrs, i);
    LoadsPrefix(phdrs, i + 1);
    var k := |done|;
    assert l[..k + 1] == done + [phdrs[i]];
    assert l[k] == l[..k + 1][k];
    assert l[..k] == l[..k + 1][..k];
  }

  /** It comes after those loaded, and is counted in what is left. */
  lemma NextSegment(phdrs: seq<Segment>, i: nat)
    requires i < |phdrs| && phdrs[i].ptype == P_LOAD && Ascending(Loads(phdrs))
    ensures var l, k := Loads(phdrs), |Loads(phdrs[..i])|;
      && k < |l| && l[..k + 1] == Loads(phdrs[..i + 1])
      && Proper(phdrs[i]) && Follows(Loads(phdrs[..i]), phdrs[i])
      && TotalPages(l[k..]) == PageCount(phdrs[i]) + TotalPages(l[k + 1..])
  {
    hide PageCount, Loads, TotalPages, Proper;
    NextLoad(phdrs, i);
    var l, k := Loads(phdrs), |Loads(phdrs[..i])|;
    FirstOfRest(l, k);
    forall j | 0 <= j < k ensures Loads(phdrs[..i])[j] == l[j] {
      assert l[..k][j] == l[j];
    }
  }

  lemma FirstOfRest(l: seq<Segment>, k: nat)
    requires k < |l|
    ensures TotalPages(l[k..]) == PageCount(l[k]) + TotalPages(l[k + 1..])
  {
    hide PageCount;
    TotalSplit(l[k..], 1);
    assert l[k..][..1] == [l[k]] && l[k..][1..] == l[k + 1..];
    assert [l[k]][..0] == [];
  }

  /** What the caller of `load` provides: segments in order, outside the shared slots, with frames for the tables. */
  ghost predicate Loadable(phdrs: seq<Segment>, needed: set<Node>) {
    && Ascending(Loads(phdrs))
    && (forall i :: 0 <= i < |phdrs| && phdrs[i].ptype == P_LOAD ==>
          RangeOk(phdrs[i].vaddr, PageCount(phdrs[i]) + 1, needed))
  }

  /**
   The entry of page `q` after the segments have been mapped in order to the runs that start at `firsts`, each with its
   extra page, if it was `e` before.
   */
  ghost function MapsAfter(l: seq<Segment>, firsts: seq<nat>, q: Page, e: nat): nat
    requires |firsts| == |l|
  {
    if l == [] then e
    else
      var s, first := l[|l| - 1], firsts[|l| - 1];
      EntryAfter(s.vaddr, first * PAGE, Protection(s), PageCount(s) + 1, q,
                 MapsAfter(l[..|l| - 1], firsts[..|l| - 1], q, e))
  }

  /** Every page translates as the segments say, and the pages that none of them reaches as before. */
  ghost predicate ProgramMaps(m: seq<byte>, own: map<Node, nat>, m': seq<byte>, own': map<Node, nat>,
                              shared: map<Node, nat>, l: seq<Segment>, firsts: seq<nat>) {
    && |firsts| == |l| && Placed(m, own + shared) && Placed(m', own' + shared)
    && (forall q :: ValidPage(q) ==> Maps(m', own', shared, q) == MapsAfter(l, firsts, q, Maps(m, own, shared, q)))
  }

  lemma NothingMapped(used: seq<bool>, m: seq<byte>, own: map<Node, nat>, shared: map<Node, nat>, tables: seq<nat>)
    requires MapOk(used, m, own, shared, tables)
    ensures ProgramMaps(m, own, m, own, shared, [], [])
  {
    OkPlaced(m, own + shared);
  }

  lemma MappedAlike(m0: seq<byte>, own0: map<Node, nat>, m: seq<byte>, own: map<Node, nat>, m': seq<byte>,
                    own': map<Node, nat>, shared: map<Node, nat>, l: seq<Segment>, firsts: seq<nat>)
    requires ProgramMaps(m0, own0, m, own, shared, l, firsts) && SameMaps(m, own, m', own', shared)
    ensures ProgramMaps(m0, own0, m', own', shared, l, firsts)
  {
    hide Placed, Maps;
  }

  lemma MappedNext(m0: seq<byte>, own0: map<Node, nat>, used: seq<bool>, m: seq<byte>, own: map<Node, nat>,
                   used': seq<bool>, m': seq<byte>, own': map<Node, nat>, shared: map<Node, nat>, l: seq<Segment>,
                   firsts: seq<nat>, s: Segment, first: nat)
    requires ProgramMaps(m0, own0, m, own, shared, l, firsts)
    requires SegmentEffect(used, m, own, used', m', own', shared, s, first)
    ensures ProgramMaps(m0, own0, m', own', shared, l + [s], firsts + [first])
  {
    hide Placed, Maps, PageCount, ExtraPage, Confined, SegmentTaken, EntryAfter;
    assert (l + [s])[..|l|] == l && (firsts + [first])[..|l|] == firsts;
  }

  /** Frame `k` belongs to the run of one of the segments. */
  ghost predicate InSegments(l: seq<Segment>, firsts: seq<nat>, k: nat) {
    exists i :: 0 <= i < |l| && i < |firsts| && firsts[i] <= k < firsts[i] + PageCount(l[i])
  }

  /** The frames of the segments of a program. */
  ghost function SegmentFrames(l: seq<Segment>, firsts: seq<nat>, size: nat): set<nat> {
    set k: nat | k < size && InSegments(l, firsts, k)
  }

  /** Frames were taken, of the free ones, for the runs of the segments and for tables, and for nothing else. */
  ghost predicate ProgramTaken(used: seq<bool>, own: map<Node, nat>, used': seq<bool>, own': map<Node, nat>,
                               l: seq<Segment>, firsts: seq<nat>) {
    && |used'| == |used| && |firsts| == |l| && (forall n :: n in own ==> n in own' && own'[n] == own[n])
    && (forall k :: 0 <= k < |used| ==> (used'[k] <==> used[k] || InSegments(l, firsts, k) || NewTable(own, own', k)))
    && (forall k: nat :: InSegments(l, firsts, k) ==> FreeAt(used, k))
  }

  lemma NoSegments(used: seq<bool>, own: map<Node, nat>)
    ensures ProgramTaken(used, own, used, own, [], [])
  {
  }

  lemma OneMoreSegment(l: seq<Segment>, firsts: seq<nat>, s: Segment, first: nat, k: nat)
    requires |firsts| == |l|
    ensures InSegments(l + [s], firsts + [first], k) <==> InSegments(l, firsts, k) || first <= k < first + PageCount(s)
  {
    var l', firsts' := l + [s], firsts + [first];
    if InSegments(l, firsts, k) {
      var i :| 0 <= i < |l| && firsts[i] <= k < firsts[i] + PageCount(l[i]);
      assert l'[i] == l[i] && firsts'[i] == firsts[i];
    }
    assert l'[|l|] == s && firsts'[|l|] == first;
  }

  lemma MoreTables(own: map<Node, nat>, own1: map<Node, nat>, own2: map<Node, nat>, k: nat)
    requires forall n :: n in own ==> n in own1 && own1[n] == own[n]
    requires forall n :: n in own1 ==> n in own2 && own2[n] == own1[n]
    ensures NewTable(own, own2, k) <==> NewTable(own, own1, k) || NewTable(own1, own2, k)
  {
    if NewTable(own, own1, k) {
      var n :| n in own1 && n !in own && own1[n] == k * PAGE;
      assert n in own2 && own2[n] == k * PAGE;
    }
    if NewTable(own1, own2, k) {
      var n :| n in own2 && n !in own1 && own2[n] == k * PAGE;
      assert n !in own;
    }
  }

  lemma SegmentAdded(used0: seq<bool>, own0: map<Node, nat>, used: seq<bool>, m: seq<byte>, own: map<Node, nat>,
                     used': seq<bool>, m': seq<byte>, own': map<Node, nat>, shared: map<Node, nat>,
                     l: seq<Segment>, firsts: seq<nat>, s: Segment, first: nat)
    requires ProgramTaken(used0, own0, used, own, l, firsts)
    requires SegmentEffect(used, m, own, used', m', own', shared, s, first)
    ensures ProgramTaken(used0, own0, used', own', l + [s], firsts + [first])
  {
    hide InSegments, NewTable, ExtraPage, PageCount;
    forall k: nat
      ensures InSegments(l + [s], firsts + [first], k) <==>
        InSegments(l, firsts, k) || first <= k < first + PageCount(s)
      ensures NewTable(own0, own', k) <==> NewTable(own0, own, k) || NewTable(own, own', k)
    {
      OneMoreSegment(l, firsts, s, first, k);
      MoreTables(own0, own, own', k);
    }
    forall k: nat | InSegments(l + [s], firsts + [first], k) ensures FreeAt(used0, k) {
      assert first <= k < first + PageCount(s) ==> !used[k];
    }
  }

  ghost predicate SomeRun(used: seq<bool>, n: nat) {
    exists q :: 0 <= q <= |used| && RunFree(used, q, n)
  }

  /** A loadable segment without memory, not wholly in the file, or for which no run of free frames is long enough. */
  ghost predicate CannotLoad(used: seq<bool>, file: seq<byte>, s: Segment) {
    && s.ptype == P_LOAD
    && (PageCount(s) == 0 || s.offset + s.filesz > |file| || !SomeRun(used, PageCount(s)))
  }

  /** One more segment, with what the whole loop has done so far. */
  method LoadNext(pm: PageMap, file: seq<byte>, s: Segment, ghost needed: set<Node>, ghost l: seq<Segment>,
                  ghost firsts: seq<nat>,
                  ghost left: nat, ghost used0: seq<bool>, ghost m0: seq<byte>, ghost own0: map<Node, nat>)
    returns (ok: bool, ghost first: nat)
    requires pm.Valid() && s.ptype == P_LOAD && Proper(s) && Follows(l, s) && RangeOk(s.vaddr, PageCount(s) + 1, needed)
    requires AllLoaded(pm.pmm.Used(), pm.pmm.ram, pm.own, pm.shared, file, l, firsts)
    requires Room(pm.pmm.Used(), pm.own + pm.shared, needed, PageCount(s) + left) && |pm.pmm.ram| + PAGE <= WORD_LIMIT
    requires Confined(used0, m0, own0, pm.pmm.Used(), pm.pmm.ram, pm.own)
    requires ProgramTaken(used0, own0, pm.pmm.Used(), pm.own, l, firsts) && RangesFor(pm.ranges, l)
    requires ProgramMaps(m0, own0, pm.pmm.ram, pm.own, pm.shared, l, firsts)
    modifies pm`tables, pm`own, pm`ranges, pm.pmm`ram, pm.pmm.bitmap
    ensures pm.Valid() && |pm.pmm.ram| == |old(pm.pmm.ram)|
    ensures ok ==> AllLoaded(pm.pmm.Used(), pm.pmm.ram, pm.own, pm.shared, file, l + [s], firsts + [first])
    ensures ok ==> Room(pm.pmm.Used(), pm.own + pm.shared, needed, left)
    ensures ok ==> RangesFor(pm.ranges, l + [s])
    ensures ok ==> ProgramTaken(used0, own0, pm.pmm.Used(), pm.own, l + [s], firsts + [first])
    ensures !ok ==> CannotLoad(pm.pmm.Used(), file, s)
    ensures ProgramMaps(m0, own0, pm.pmm.ram, pm.own, pm.shared, if ok then l + [s] else l,
                        if ok then firsts + [first] else firsts)
    ensures Confined(used0, m0, own0, pm.pmm.Used(), pm.pmm.ram, pm.own)
  {
    hide MapOk, AllLoaded, Room, RangeOk, Proper, Follows, PageCount, SameMaps, RunFree, Protection, Confined,
         ProgramTaken, SegmentEffect, CannotLoad, RangesFor, SomeRun, ProgramMaps;
    ghost var used, m, own := pm.pmm.Used(), pm.pmm.ram, pm.own;
    RangeAdded(pm.ranges, l, s);
    ok, first := LoadSegment(pm, file, s, needed, l, firsts, left);
    if ok {
      EffectConfined(used, m, own, pm.pmm.Used(), pm.pmm.ram, pm.own, pm.shared, s, first);
      SegmentAdded(used0, own0, used, m, own, pm.pmm.Used(), pm.pmm.ram, pm.own, pm.shared, l, firsts, s, first);
      MappedNext(m0, own0, used, m, own, pm.pmm.Used(), pm.pmm.ram, pm.own, pm.shared, l, firsts, s, first);
    } else {
      MappedAlike(m0, own0, m, own, pm.pmm.ram, pm.own, pm.shared, l, firsts);
      NotLoadable(pm.pmm.Used(), file, s);
    }
    ConfinedTrans(used0, m0, own0, used, m, own, pm.pmm.Used(), pm.pmm.ram, pm.own);
  }

  /**
   The loop over the program headers. When it succeeds every loadable segment is in memory and mapped, in runs of
   frames of its own, and the recorded ranges are exactly what `Destroy` gives back.
   */
  method Load(pm: PageMap, file: seq<byte>, phdrs: seq<Segment>,
              ghost needed: set<Node>) returns (ok: bool, ghost firsts: seq<nat>)
    requires pm.Valid() && pm.ranges == [] && Loadable(phdrs, needed) && |pm.pmm.ram| + PAGE <= WORD_LIMIT
    requires Room(pm.pmm.Used(), pm.own + pm.shared, needed, TotalPages(Loads(phdrs)))
    modifies pm`tables, pm`own, pm`ranges, pm.pmm`ram, pm.pmm.bitmap
    ensures pm.Valid()
    ensures ok ==> ProgramLoaded(pm.pmm.Used(), pm.pmm.ram, pm.own, pm.shared, pm.pml4, pm.ranges, file, phdrs, firsts)
    ensures ok ==> KeepsFlags(pm.pmm.ram, pm.pml4, phdrs)
    ensures !ok ==> exists s :: s in phdrs && CannotLoad(pm.pmm.Used(), file, s)
    ensures Confined(old(pm.pmm.Used()), old(pm.pmm.ram), old(pm.own), pm.pmm.Used(), pm.pmm.ram, pm.own)
    ensures ok ==> ProgramTaken(old(pm.pmm.Used()), old(pm.own), pm.pmm.Used(), pm.own, Loads(phdrs), firsts)
    ensures |firsts| <= |Loads(phdrs)| && (ok ==> |firsts| == |Loads(phdrs)|)
    ensures ProgramMaps(old(pm.pmm.ram), old(pm.own), pm.pmm.ram, pm.own, pm.shared, Loads(phdrs)[..|firsts|], firsts)
  {
    hide ProgramLoaded, MapOk, AllLoaded, Room, RangeOk, Backed, ReadsFile, KeepsFlags, Loads, Proper, Follows,
         PageCount, TotalPages, RangesFor, AtHeader, Loadable, SameMaps, RunFree, Protection, FreeCount, Confined,
         ProgramTaken, SegmentEffect, CannotLoad, ProgramMaps;
    ghost var used0, m0, own0 := pm.pmm.Used(), pm.pmm.ram, pm.own;
    firsts := [];
    ghost var done: seq<Segment>, left: nat := [], TotalPages(Loads(phdrs));
    NothingLoaded(pm.pmm.Used(), pm.pmm.ram, pm.own, pm.shared, file, phdrs);
    NoSegments(used0, own0);
    NothingMapped(used0, m0, own0, pm.shared, pm.tables);
    ConfinedRefl(used0, m0, own0);
    for i := 0 to |phdrs|
      invariant pm.Valid() && |pm.pmm.ram| == |m0|
      invariant AtHeader(phdrs, i, done, left) && RangesFor(pm.ranges, done)
      invariant AllLoaded(pm.pmm.Used(), pm.pmm.ram, pm.own, pm.shared, file, done, firsts)
      invariant Room(pm.pmm.Used(), pm.own + pm.shared, needed, left)
      invariant Confined(used0, m0, own0, pm.pmm.Used(), pm.pmm.ram, pm.own)
      invariant ProgramTaken(used0, own0, pm.pmm.Used(), pm.own, done, firsts)
      invariant |firsts| == |done| && ProgramMaps(m0, own0, pm.pmm.ram, pm.own, pm.shared, done, firsts)
    {
      if phdrs[i].ptype != P_LOAD {
        SkipHeader(phdrs, i, done, left);
        continue;
      }
      TakeHeader(phdrs, i, done, left, needed);
      ghost var first;
      ok, first := LoadNext(pm, file, phdrs[i], needed, done, firsts, left - PageCount(phdrs[i]), used0, m0, own0);
      if !ok {
        DoneSoFar(phdrs, i + 1, done + [phdrs[i]], left - PageCount(phdrs[i]), |done|);
        assert (done + [phdrs[i]])[..|done|] == done;
        return;
      }
      firsts, done, left := firsts + [first], done + [phdrs[i]], left - PageCount(phdrs[i]);
    }
    LoadDone(pm.pmm.Used(), pm.pmm.ram, pm.own, pm.shared, pm.tables, file, phdrs, pm.ranges, done, left, firsts);
    HeadersDone(phdrs, done, left);
    DoneSoFar(phdrs, |phdrs|, done, left, |done|);
    assert done[..|done|] == done;
    ok := true;
  }

  lemma DoneSoFar(phdrs: seq<Segment>, i: nat, done: seq<Segment>, left: nat, k: nat)
    requires AtHeader(phdrs, i, done, left) && k <= |done|
    ensures k <= |Loads(phdrs)| && Loads(phdrs)[..k] == done[..k]
  {
    hide TotalPages;
    LoadsPrefix(phdrs, i);
  }

  lemma NotLoadable(used: seq<bool>, file: seq<byte>, s: Segment)
    requires s.ptype == P_LOAD
    requires PageCount(s) < 1 || s.offset + s.filesz > |file| || !SomeRun(used, PageCount(s))
    ensures CannotLoad(used, file, s)
  {
  }

  lemma EffectConfined(used: seq<bool>, m: seq<byte>, own: map<Node, nat>, used': seq<bool>, m': seq<byte>,
                       own': map<Node, nat>, shared: map<Node, nat>, s: Segment, first: nat)
    requires SegmentEffect(used, m, own, used', m', own', shared, s, first)
    ensures Confined(used, m, own, used', m', own')
  {
  }

  lemma ConfinedRefl(used: seq<bool>, m: seq<byte>, own: map<Node, nat>)
    ensures Confined(used, m, own, used, m, own)
  {
  }

  /** Before header `i`: the loadable segments so far, and the pages of those still to come. */
  ghost predicate AtHeader(phdrs: seq<Segment>, i: nat, done: seq<Segment>, left: nat) {
    && i <= |phdrs| && done == Loads(phdrs[..i]) && |done| <= |Loads(phdrs)|
    && left == TotalPages(Loads(phdrs)[|done|..])
  }

  lemma SkipHeader(phdrs: seq<Segment>, i: nat, done: seq<Segment>, left: nat)
    requires AtHeader(phdrs, i, done, left) && i < |phdrs| && phdrs[i].ptype != P_LOAD
    ensures AtHeader(phdrs, i + 1, done, left)
  {
    hide Loads, TotalPages;
    LoadsNext(phdrs, i);
  }

  lemma TakeHeader(phdrs: seq<Segment>, i: nat, done: seq<Segment>, left: nat, needed: set<Node>)
    requires AtHeader(phdrs, i, done, left) && i < |phdrs| && phdrs[i].ptype == P_LOAD && Loadable(phdrs, needed)
    ensures Proper(phdrs[i]) && Follows(done, phdrs[i]) && RangeOk(phdrs[i].vaddr, PageCount(phdrs[i]) + 1, needed)
    ensures PageCount(phdrs[i]) <= left && AtHeader(phdrs, i + 1, done + [phdrs[i]], left - PageCount(phdrs[i]))
  {
    hide Loads, TotalPages, PageCount, RangeOk, Proper, Follows;
    LoadsNext(phdrs, i);
    NextSegment(phdrs, i);
  }

  lemma RangeAdded(ranges: seq<MemArea>, l: seq<Segment>, s: Segment)
    requires RangesFor(ranges, l)
    ensures RangesFor(ranges + [MemArea(s.vaddr, PageCount(s) * PAGE, Protection(s), 0)], l + [s])
  {
    hide PageCount;
  }

  /**
   What a successful load leaves: every loadable segment in a run of frames of its own, the ranges on record backed
   by those runs, and the file's bytes readable through the page tables.
   */
  ghost predicate ProgramLoaded(used: seq<bool>, m: seq<byte>, own: map<Node, nat>, shared: map<Node, nat>, root: nat,
                                ranges: seq<MemArea>, file: seq<byte>, phdrs: seq<Segment>, firsts: seq<nat>) {
    && AllLoaded(used, m, own, shared, file, Loads(phdrs), firsts)
    && RangesFor(ranges, Loads(phdrs)) && Backed(used, m, own, shared, ranges, firsts)
    && ReadsFile(m, root, file, phdrs) && KeepsFlags(m, root, phdrs)
  }

  lemma LoadDone(used: seq<bool>, m: seq<byte>, own: map<Node, nat>, shared: map<Node, nat>, tables: seq<nat>,
                 file: seq<byte>,
                 phdrs: seq<Segment>, ranges: seq<MemArea>, done: seq<Segment>, left: nat, firsts: seq<nat>)
    requires MapOk(used, m, own, shared, tables) && Pml4 in own && AtHeader(phdrs, |phdrs|, done, left)
    requires AllLoaded(used, m, own, shared, file, done, firsts) && RangesFor(ranges, done)
    ensures ProgramLoaded(used, m, own, shared, own[Pml4], ranges, file, phdrs, firsts)
    ensures KeepsFlags(m, own[Pml4], phdrs)
  {
    hide MapOk, AllLoaded, RangesFor, Backed, ReadsFile, KeepsFlags, AtHeader, Loads;
    HeadersDone(phdrs, done, left);
    LoadedBacked(used, m, own, shared, tables, file, ranges, done, firsts);
    LoadedReadsFile(used, m, own, shared, tables, file, phdrs, firsts);
    LoadedKeepsFlags(used, m, own, shared, tables, file, phdrs, firsts);
  }

  lemma HeadersDone(phdrs: seq<Segment>, done: seq<Segment>, left: nat)
    requires AtHeader(phdrs, |phdrs|, done, left)
    ensures done == Loads(phdrs)
  {
    assert phdrs[..|phdrs|] == phdrs;
  }

  lemma NothingLoaded(used: seq<bool>, m: seq<byte>, own: map<Node, nat>, shared: map<Node, nat>, file: seq<byte>,
                      phdrs: seq<Segment>)
    ensures AtHeader(phdrs, 0, [], TotalPages(Loads(phdrs))) && RangesFor([], [])
    ensures AllLoaded(used, m, own, shared, file, [], [])
  {
  }

  lemma LoadedBacked(used: seq<bool>, m: seq<byte>, own: map<Node, nat>, shared: map<Node, nat>, tables: seq<nat>,
                     file: seq<byte>,
                     ranges: seq<MemArea>, l: seq<Segment>, firsts: seq<nat>)
    requires MapOk(used, m, own, shared, tables) && AllLoaded(used, m, own, shared, file, l, firsts)
    requires RangesFor(ranges, l)
    ensures Backed(used, m, own, shared, ranges, firsts)
  {
    hide PageOf, FrameOf, DataRun, Recorded, Interior, Maps, PageCount, Loaded, DivCeil;
    forall i | 0 <= i < |l| ensures BackedRange(used, m, own, shared, ranges[i], firsts[i], PageCount(l[i])) {
      LoadedIsBacked(used, m, own, shared, file, l[i], firsts[i]);
    }
  }

  ghost predicate BackedRange(used: seq<bool>, m: seq<byte>, own: map<Node, nat>, shared: map<Node, nat>, r: MemArea,
                              first: nat, n: nat) {
    && Placed(m, own + shared) && DivCeil(r.limit, PAGE) == n && DataRun(used, own + shared, first, n)
    && ValidPage(PageOf(r.base)) && !SharedSlot(PageOf(r.base).a)
    && FrameOf(Maps(m, own, shared, PageOf(r.base))) == first * PAGE
  }

  lemma LoadedIsBacked(used: seq<bool>, m: seq<byte>, own: map<Node, nat>, shared: map<Node, nat>, file: seq<byte>,
                       s: Segment, first: nat)
    requires Loaded(used, m, own, shared, file, s, first)
    ensures BackedRange(used, m, own, shared, MemArea(s.vaddr, PageCount(s) * PAGE, Protection(s), 0), first,
      PageCount(s))
  {
    hide PageCount, PageOf, FrameOf, Filled, Maps, DivCeil, DataRun;
    assert s.vaddr + 0 * PAGE == s.vaddr;
    EntryParts(first, 0, Protection(s));
    WholePages(PageCount(s));
  }

  lemma WholePages(n: nat)
    ensures DivCeil(n * PAGE, PAGE) == n
  {
  }

  /** At the `k`-th address of the segment the processor reads the file's byte, or 0 past the file's part. */
  ghost predicate ReadsAt(m: seq<byte>, root: nat, file: seq<byte>, s: Segment, k: nat) {
    && root + PAGE <= |m| && s.offset + s.filesz <= |file|
    && VirtualByte(m, root, s.vaddr + k) == Some(if k < s.filesz then file[s.offset + k] else 0)
  }

  /** That holds at every address of every loadable segment. */
  ghost predicate ReadsFile(m: seq<byte>, root: nat, file: seq<byte>, phdrs: seq<Segment>) {
    forall i, k :: 0 <= i < |phdrs| && phdrs[i].ptype == P_LOAD && 0 <= k < phdrs[i].memsz ==>
      ReadsAt(m, root, file, phdrs[i], k)
  }

  lemma LoadedReadsFile(used: seq<bool>, m: seq<byte>, own: map<Node, nat>, shared: map<Node, nat>, tables: seq<nat>,
                        file: seq<byte>,
                        phdrs: seq<Segment>, firsts: seq<nat>)
    requires MapOk(used, m, own, shared, tables) && Pml4 in own
    requires AllLoaded(used, m, own, shared, file, Loads(phdrs), firsts)
    ensures ReadsFile(m, own[Pml4], file, phdrs)
  {
    hide Loaded, VirtualByte, MapOk, Loads;
    var l := Loads(phdrs);
    forall i, k | 0 <= i < |phdrs| && phdrs[i].ptype == P_LOAD && 0 <= k < phdrs[i].memsz
      ensures ReadsAt(m, own[Pml4], file, phdrs[i], k)
    {
      assert phdrs[i] in l;
      var j :| 0 <= j < |l| && l[j] == phdrs[i];
      LoadedReads(used, m, own, shared, tables, file, l[j], firsts[j], k);
    }
  }

  /** Every address of every loadable segment may be read by user code, and written if the header says so. */
  ghost predicate KeepsFlags(m: seq<byte>, root: nat, phdrs: seq<Segment>) {
    forall i, k :: 0 <= i < |phdrs| && phdrs[i].ptype == P_LOAD && 0 <= k < phdrs[i].memsz ==>
      AccessAt(m, root, phdrs[i], k)
  }

  lemma LoadedKeepsFlags(used: seq<bool>, m: seq<byte>, own: map<Node, nat>, shared: map<Node, nat>, tables: seq<nat>,
                         file: seq<byte>, phdrs: seq<Segment>, firsts: seq<nat>)
    requires MapOk(used, m, own, shared, tables) && Pml4 in own
    requires AllLoaded(used, m, own, shared, file, Loads(phdrs), firsts)
    ensures KeepsFlags(m, own[Pml4], phdrs)
  {
    hide Loaded, AccessAt, MapOk, Loads;
    var l := Loads(phdrs);
    forall i, k | 0 <= i < |phdrs| && phdrs[i].ptype == P_LOAD && 0 <= k < phdrs[i].memsz
      ensures AccessAt(m, own[Pml4], phdrs[i], k)
    {
      assert phdrs[i] in l;
      var j :| 0 <= j < |l| && l[j] == phdrs[i];
      LoadedAccess(used, m, own, shared, tables, file, l[j], firsts[j], k);
    }
  }
}
