/**
 Where programs can store: the frames behind the open entries of their page maps, which are those of their writable
 segments and those behind the extra pages. A program is contained if all of these are its own.
 */
module Stores {
  import opened Wrappers
  import opened Arith
  import opened Bytes
  import opened PmmSpec
  import opened PageTables
  import opened Vmm
  import opened Elf
  import opened AddressSpaces
  import opened Programs

  // ---------------------------------------------------------------- containment by the entries

  /** An open entry leads to a frame of `data`, or out of the memory. */
  ghost predicate EntryOk(e: nat, data: set<nat>, size: nat) {
    Open(e) && FrameOf(e) / PAGE < size ==> FrameOf(e) / PAGE in data
  }

  /** No page of the shared slots is open to user code. */
  ghost predicate SharedClosed(f: Flat) {
    forall p :: ValidPage(p) && SharedSlot(p.a) ==> !Open(f.shared(p))
  }

  /** An address on a page. */
  function AddressOf(p: Page): nat {
    (((p.a * 512 + p.b) * 512 + p.c) * 512 + p.d) * PAGE
  }

  lemma AddressOnPage(p: Page)
    requires ValidPage(p)
    ensures PageOf(AddressOf(p)) == p && AddressOf(p) % PAGE == 0 && AddressOf(p) / PAGE < 0x10_0000_0000
  {
    var v := AddressOf(p);
    assert v / PAGE == ((p.a * 512 + p.b) * 512 + p.c) * 512 + p.d;
    QuotientChain(v);
  }

  lemma SpaceTree(w: World, j: nat)
    requires WorldOk(w) && Alive(w, j)
    ensures var own := w.spaces[j].own;
      && Pml4 in own && own[Pml4] + PAGE <= |w.m| == PAGE * |w.used| && TreeOk(w.m, own + w.shared)
      && Pml4 in own + w.shared && (own + w.shared)[Pml4] == own[Pml4]
  {
    var own := w.spaces[j].own;
    assert SpaceOk(w, w.spaces[j]);
    OwnAligned(w.used, w.m, own, w.shared, w.spaces[j].tables);
    assert Pml4 !in w.shared;
  }

  /** Where a store goes: its page is open, and the frame is the entry's; outside the shared slots all such pass. */
  lemma StoreByEntry(w: World, j: nat, v: nat, k: nat)
    requires WorldOk(w) && Alive(w, j) && ValidPage(PageOf(v))
    ensures var e := MapsIn(w, j, PageOf(v));
      && (StoresTo(w, j, v, k) ==> Open(e) && FrameOf(e) / PAGE == k < |w.used|)
      && (!SharedSlot(PageOf(v).a) && Open(e) && FrameOf(e) / PAGE == k < |w.used| ==> StoresTo(w, j, v, k))
  {
    hide PageOf, WorldOk, Mapping, TreeOk, Open, FrameOf, StoreAt;
    SpaceTree(w, j);
    StoreTree(w.m, w.spaces[j].own + w.shared, v);
    InFrame(MapsIn(w, j, PageOf(v)), v, |w.used|);
  }

  lemma InFrame(e: nat, v: nat, size: nat)
    ensures e - e % PAGE == FrameOf(e) && (FrameOf(e) + v % PAGE) / PAGE == FrameOf(e) / PAGE
    ensures FrameOf(e) + v % PAGE < PAGE * size <==> FrameOf(e) / PAGE < size
  {
    var q := e / PAGE;
    assert e == PAGE * q + e % PAGE && FrameOf(e) == PAGE * q;
  }

  /** A space is contained exactly if each open entry outside the shared slots leads to a frame of its own. */
  lemma ContainedIff(w: World, f: Flat, j: nat)
    requires Stands(w, f) && SharedClosed(f) && Alive(w, j)
    ensures Contained(w, j) <==>
      forall p :: ValidPage(p) && !SharedSlot(p.a) ==> EntryOk(f.private[j](p), w.spaces[j].data, |w.used|)
  {
    hide WorldOk, Maps, Open, FrameOf, PageOf, StoresTo;
    if Contained(w, j) {
      forall p | ValidPage(p) && !SharedSlot(p.a) ensures EntryOk(f.private[j](p), w.spaces[j].data, |w.used|) {
        OpenReaches(w, f, j, p);
      }
    }
    if forall p :: ValidPage(p) && !SharedSlot(p.a) ==> EntryOk(f.private[j](p), w.spaces[j].data, |w.used|) {
      forall k: nat | Reaches(w, j, k) ensures k in w.spaces[j].data {
        var p := ReachedBy(w, f, j, k);
        assert EntryOk(f.private[j](p), w.spaces[j].data, |w.used|);
      }
    }
  }

  lemma OpenReaches(w: World, f: Flat, j: nat, p: Page)
    requires Stands(w, f) && Alive(w, j) && ValidPage(p) && !SharedSlot(p.a)
    ensures var e := f.private[j](p); Open(e) && FrameOf(e) / PAGE < |w.used| ==> Reaches(w, j, FrameOf(e) / PAGE)
  {
    hide WorldOk, Maps, Open, FrameOf, PageOf, StoresTo;
    var e := f.private[j](p);
    AddressOnPage(p);
    assert Agrees(w, f, j, p);
    StoreByEntry(w, j, AddressOf(p), FrameOf(e) / PAGE);
  }

  lemma ReachedBy(w: World, f: Flat, j: nat, k: nat) returns (p: Page)
    requires Stands(w, f) && SharedClosed(f) && Alive(w, j) && Reaches(w, j, k)
    ensures ValidPage(p) && !SharedSlot(p.a) && Open(f.private[j](p)) && FrameOf(f.private[j](p)) / PAGE == k < |w.used|
  {
    hide WorldOk, Maps, Open, FrameOf, PageOf, StoresTo;
    var v: nat :| StoresTo(w, j, v, k);
    p := PageOf(v);
    IsValidPage(v);
    assert Agrees(w, f, j, p);
    StoreByEntry(w, j, v, k);
  }

  // ---------------------------------------------------------------- where the pages of a program lead

  /** The page of `v` is one of the segment's, or its extra page. */
  predicate Within(s: Segment, v: nat) {
    s.vaddr / PAGE <= v / PAGE <= s.vaddr / PAGE + PageCount(s)
  }

  lemma EntryOfSegment(s: Segment, first: nat, v: nat, e: nat)
    requires Proper(s) && v / PAGE < 0x10_0000_0000
    ensures EntryAfter(s.vaddr, first * PAGE, Protection(s), PageCount(s) + 1, PageOf(v), e)
         == if Within(s, v) then (first + v / PAGE - s.vaddr / PAGE) * PAGE + Protection(s) else e
  {
    hide PageOf, EntryAfter, PageCount, Protection;
    var n, a := PageCount(s) + 1, s.vaddr / PAGE;
    if Within(s, v) {
      var j := v / PAGE - a;
      assert (s.vaddr + j * PAGE) / PAGE == a + j;
      SameQuotient(s.vaddr + j * PAGE, v);
      EntryInRange(s.vaddr, first * PAGE, Protection(s), n, j, e);
    } else {
      forall j | 0 <= j < n ensures PageOf(s.vaddr + j * PAGE) != PageOf(v) {
        assert (s.vaddr + j * PAGE) / PAGE == a + j;
        OtherNumber(s.vaddr + j * PAGE, v);
      }
      EntryOutsideRange(s.vaddr, first * PAGE, Protection(s), n, PageOf(v), e);
    }
  }

  lemma OtherNumber(v: nat, w: nat)
    requires v / PAGE < 0x10_0000_0000 && w / PAGE < 0x10_0000_0000 && v / PAGE != w / PAGE
    ensures PageOf(v) != PageOf(w)
  {
    hide PageOf;
    PageIsNumber(v, w);
  }

  /** Segment `i` is the last one that reaches the page of `v`. */
  ghost predicate LastWithin(l: seq<Segment>, i: nat, v: nat) {
    i < |l| && Within(l[i], v) && forall i2 :: i < i2 < |l| ==> !Within(l[i2], v)
  }

  /** A page that no segment reaches keeps its entry. */
  lemma {:induction false} MapsAfterNone(l: seq<Segment>, firsts: seq<nat>, v: nat, e: nat)
    requires |firsts| == |l| && v / PAGE < 0x10_0000_0000
    requires forall i :: 0 <= i < |l| ==> Proper(l[i]) && !Within(l[i], v)
    ensures MapsAfter(l, firsts, PageOf(v), e) == e
  {
    hide PageOf, EntryAfter, PageCount, Protection, Proper, Within;
    if l != [] {
      var n := |l| - 1;
      MapsAfterNone(l[..n], firsts[..n], v, e);
      EntryOfSegment(l[n], firsts[n], v, e);
    }
  }

  /** The last segment that reaches a page decides its entry. */
  lemma {:induction false} MapsAfterLast(l: seq<Segment>, firsts: seq<nat>, v: nat, i: nat, e: nat)
    requires |firsts| == |l| && v / PAGE < 0x10_0000_0000 && LastWithin(l, i, v)
    requires forall k :: 0 <= k < |l| ==> Proper(l[k])
    ensures MapsAfter(l, firsts, PageOf(v), e)
         == (firsts[i] + v / PAGE - l[i].vaddr / PAGE) * PAGE + Protection(l[i])
    decreases |l|
  {
    hide PageOf, EntryAfter, PageCount, Protection, Proper;
    var n := |l| - 1;
    EntryOfSegment(l[n], firsts[n], v, MapsAfter(l[..n], firsts[..n], PageOf(v), e));
    if i < n {
      MapsAfterLast(l[..n], firsts[..n], v, i, e);
    }
  }

  lemma {:induction false} SomeLast(l: seq<Segment>, v: nat, i: nat) returns (k: nat)
    requires i < |l| && Within(l[i], v)
    ensures LastWithin(l, k, v)
    decreases |l| - i
  {
    if i2 :| i < i2 < |l| && Within(l[i2], v) {
      k := SomeLast(l, v, i2);
    } else {
      k := i;
    }
  }

  /** A later segment begins on the extra page of segment `i`. */
  ghost predicate Covered(l: seq<Segment>, i: nat)
    requires i < |l|
  {
    exists i2 :: i < i2 < |l| && l[i2].vaddr / PAGE == l[i].vaddr / PAGE + PageCount(l[i])
  }

  /** In ascending order, a segment is the last on its own pages, and on its extra page if that is not covered. */
  lemma LastOnPage(l: seq<Segment>, i: nat, v: nat)
    requires Ascending(l) && i < |l| && Within(l[i], v)
    ensures LastWithin(l, i, v) <==> v / PAGE < l[i].vaddr / PAGE + PageCount(l[i]) || !Covered(l, i)
  {
    hide PageCount, Proper;
    if LastWithin(l, i, v) && v / PAGE == l[i].vaddr / PAGE + PageCount(l[i]) {
      forall i2 | i < i2 < |l| ensures l[i2].vaddr / PAGE != l[i].vaddr / PAGE + PageCount(l[i]) {
        assert !Within(l[i2], v);
      }
    }
  }

  /** Frame `k` holds a page of a writable segment, or lies behind the extra page of one that is not covered. */
  ghost predicate Writable(l: seq<Segment>, firsts: seq<nat>, k: nat) {
    exists i: nat :: i < |l| && i < |firsts| && WritableAt(l, firsts, i, k)
  }

  ghost predicate WritableAt(l: seq<Segment>, firsts: seq<nat>, i: nat, k: nat)
    requires i < |l| && i < |firsts|
  {
    && l[i].flags / 2 % 2 == 1 && firsts[i] <= k <= firsts[i] + PageCount(l[i])
    && (k == firsts[i] + PageCount(l[i]) ==> !Covered(l, i))
  }

  lemma EntryBits(frame: nat, prot: nat)
    requires prot == 5 || prot == 7
    ensures var e := frame * PAGE + prot; FrameOf(e) / PAGE == frame && (Open(e) <==> prot == 7)
  {
    var e := frame * PAGE + prot;
    DivUnique(e, PAGE, frame, prot);
    DivUnique(e, 8, 512 * frame, prot);
    FrameBack(frame, e);
  }

  lemma FrameBack(frame: nat, e: nat)
    requires e / PAGE == frame && e - e % PAGE == frame * PAGE
    ensures FrameOf(e) / PAGE == frame
  {
    DivUnique(frame * PAGE, PAGE, frame, 0);
  }

  lemma ProtectionIs(s: Segment)
    ensures Protection(s) == 5 || Protection(s) == 7
    ensures Protection(s) == 7 <==> s.flags / 2 % 2 == 1
  {
  }

  /** An open page of a loaded program was open before, reached by no segment, or leads to a writable frame. */
  lemma OpenAfter(l: seq<Segment>, firsts: seq<nat>, v: nat, e: nat)
    requires |firsts| == |l| && v / PAGE < 0x10_0000_0000 && Ascending(l)
    ensures var e' := MapsAfter(l, firsts, PageOf(v), e);
      e' == e || (Open(e') ==> Writable(l, firsts, FrameOf(e') / PAGE))
  {
    hide PageOf, MapsAfter, PageCount, Protection, Proper, Open, FrameOf, Covered;
    if i :| 0 <= i < |l| && Within(l[i], v) {
      var k := SomeLast(l, v, i);
      MapsAfterLast(l, firsts, v, k, e);
      LastOnPage(l, k, v);
      ProtectionIs(l[k]);
      var frame := firsts[k] + v / PAGE - l[k].vaddr / PAGE;
      EntryBits(frame, Protection(l[k]));
      assert l[k].flags / 2 % 2 == 1 ==> WritableAt(l, firsts, k, frame);
    } else {
      MapsAfterNone(l, firsts, v, e);
    }
  }

  /** Each writable frame is behind an open page. */
  lemma WritableOpen(l: seq<Segment>, firsts: seq<nat>, i: nat, k: nat, e: nat) returns (v: nat)
    requires |firsts| == |l| && Ascending(l) && i < |l| && WritableAt(l, firsts, i, k)
    ensures v / PAGE < 0x10_0000_0000 && Within(l[i], v)
    ensures v == (l[i].vaddr / PAGE + k - firsts[i]) * PAGE
    ensures var e' := MapsAfter(l, firsts, PageOf(v), e); Open(e') && FrameOf(e') / PAGE == k
  {
    hide PageOf, MapsAfter, PageCount, Protection, Open, FrameOf, Covered;
    v := (l[i].vaddr / PAGE + k - firsts[i]) * PAGE;
    assert v / PAGE == l[i].vaddr / PAGE + k - firsts[i];
    assert Proper(l[i]);
    LastOnPage(l, i, v);
    MapsAfterLast(l, firsts, v, i, e);
    ProtectionIs(l[i]);
    EntryBits(k, 7);
  }

  // ---------------------------------------------------------------- loaded programs

  /** What a caller of `load` keeps to: segments in order on pages of their own, none of these in a shared slot. */
  ghost predicate Loadable(l: seq<Segment>) {
    && Ascending(l)
    && forall i, j: nat :: 0 <= i < |l| && j <= PageCount(l[i]) ==> !SharedSlot(SegmentPage(l[i], j).a)
  }

  /** The page number `j` of a segment, counted from its first. */
  function SegmentPage(s: Segment, j: nat): Page {
    PageOf((s.vaddr / PAGE + j) * PAGE)
  }

  /**
   A program loaded into a page map that maps nothing can store to the frames of its writable segments, and to the frame
   behind each extra page of a writable segment on which no later segment begins; and to no others.
   */
  lemma LoadedReaches(w: World, f: Flat, j: nat, l: seq<Segment>, firsts: seq<nat>, w': World, k: nat)
    requires Stands(w, f) && SharedClosed(f) && AddressSpaces.Step(w, Event.Load(j, l, firsts), w') && Loadable(l)
    requires forall p :: ValidPage(p) && !SharedSlot(p.a) ==> f.private[j](p) == 0
    ensures Reaches(w', j, k) <==> k < |w'.used| && Writable(l, firsts, k)
  {
    hide WorldOk, Maps, Open, FrameOf, PageOf, MapsAfter, StoresTo, Writable, Loadable, SpaceStep;
    var e := Event.Load(j, l, firsts);
    StepRefines(w, f, e, w');
    var f' := FlatNext(f, e);
    LoadStepFacts(w, f, j, l, firsts, w');
    if Reaches(w', j, k) {
      var p := ReachedBy(w', f', j, k);
      AddressOnPage(p);
      LoadableOrder(l);
      OpenAfter(l, firsts, AddressOf(p), 0);
      ZeroClosed();
    }
    if k < |w'.used| && Writable(l, firsts, k) {
      WritableReached(w', f', j, l, firsts, k, f.private[j]);
    }
  }

  lemma ZeroClosed()
    ensures !Open(0)
  {
  }

  lemma LoadableOrder(l: seq<Segment>)
    requires Loadable(l)
    ensures Ascending(l)
  {
  }

  lemma LoadStepFacts(w: World, f: Flat, j: nat, l: seq<Segment>, firsts: seq<nat>, w': World)
    requires Stands(w, f) && AddressSpaces.Step(w, Event.Load(j, l, firsts), w')
    ensures Alive(w, j) && Alive(w', j) && |firsts| == |l| && j < |f.private| && |w'.used| == |w.used|
    ensures w'.spaces[j].data == w.spaces[j].data + SegmentFrames(l, firsts, |w.used|)
  {
    hide WorldOk, Maps;
    ConfinedSizes(w.used, w.m, w.spaces[j].own, w'.used, w'.m, w'.spaces[j].own);
  }

  /** Where the entries are those of a loaded program, its writable frames are reached, whatever was mapped before. */
  lemma WritableReached(w: World, f: Flat, j: nat, l: seq<Segment>, firsts: seq<nat>, k: nat, before: Page -> nat)
    requires Stands(w, f) && Alive(w, j) && Loadable(l) && |firsts| == |l|
    requires forall p :: f.private[j](p) == MapsAfter(l, firsts, p, before(p))
    requires k < |w.used| && Writable(l, firsts, k)
    ensures Reaches(w, j, k)
  {
    hide WorldOk, Maps, Open, FrameOf, PageOf, MapsAfter, StoresTo, PageCount, Covered, Protection, Loadable;
    var i: nat :| i < |l| && i < |firsts| && WritableAt(l, firsts, i, k);
    var v0 := (l[i].vaddr / PAGE + k - firsts[i]) * PAGE;
    var p := PageOf(v0);
    IsValidPage(v0);
    LoadableOrder(l);
    var v := WritableOpen(l, firsts, i, k, before(p));
    InSegmentPages(l, firsts, i, k);
    OpenReaches(w, f, j, p);
  }

  lemma InSegmentPages(l: seq<Segment>, firsts: seq<nat>, i: nat, k: nat)
    requires Loadable(l) && |firsts| == |l| && i < |l| && WritableAt(l, firsts, i, k)
    ensures k >= firsts[i] && !SharedSlot(PageOf((l[i].vaddr / PAGE + k - firsts[i]) * PAGE).a)
  {
    hide PageOf, PageCount;
    assert !SharedSlot(SegmentPage(l[i], k - firsts[i]).a);
  }

  // ---------------------------------------------------------------- containment over runs

  /** Every open page of space `j` outside the shared slots leads to its own frames. */
  ghost predicate SpaceSafe(w: World, f: Flat, j: nat) {
    && j < |w.spaces| && j < |f.private|
    && forall p :: ValidPage(p) && !SharedSlot(p.a) ==> EntryOk(f.private[j](p), w.spaces[j].data, |w.used|)
  }

  /** The world stands for the flat maps, and every program is contained. */
  ghost predicate Safe(w: World, f: Flat) {
    Stands(w, f) && SharedClosed(f) && forall i: nat :: Alive(w, i) ==> SpaceSafe(w, f, i)
  }

  lemma SafeContained(w: World, f: Flat, j: nat)
    requires Safe(w, f) && Alive(w, j)
    ensures Contained(w, j)
  {
    hide Stands, Contained;
    assert SpaceSafe(w, f, j);
    ContainedIff(w, f, j);
  }

  /** The frame behind each extra page of a writable segment on which no later segment begins is one of `data`. */
  ghost predicate ExtraOwn(l: seq<Segment>, firsts: seq<nat>, data: set<nat>, size: nat) {
    forall i: nat :: i < |l| && i < |firsts| && l[i].flags / 2 % 2 == 1 && !Covered(l, i) ==>
      firsts[i] + PageCount(l[i]) < size ==> firsts[i] + PageCount(l[i]) in data
  }

  /** Pages are opened to the program's own frames only. */
  ghost predicate Fits(w: World, e: Event) {
    match e
    case Set(j, p, entry) => j < |w.spaces| && EntryOk(entry, w.spaces[j].data, |w.used|)
    case Load(j, l, firsts) =>
      && j < |w.spaces| && Loadable(l)
      && ExtraOwn(l, firsts, w.spaces[j].data + SegmentFrames(l, firsts, |w.used|), |w.used|)
    case _ => true
  }

  /** Loading a program leaves it contained exactly if the frames behind its open extra pages are its own. */
  lemma LoadContainedIff(w: World, f: Flat, j: nat, l: seq<Segment>, firsts: seq<nat>, w': World)
    requires Safe(w, f) && AddressSpaces.Step(w, Event.Load(j, l, firsts), w') && Loadable(l)
    ensures Contained(w', j) <==> ExtraOwn(l, firsts, w'.spaces[j].data, |w.used|)
  {
    hide Stands, SharedClosed, Contained, EntryOk, MapsAfter, ExtraOwn, Loadable, AddressSpaces.Step, Reaches;
    var e := Event.Load(j, l, firsts);
    StepRefines(w, f, e, w');
    var f' := FlatNext(f, e);
    LoadStepFacts(w, f, j, l, firsts, w');
    SharedAsBefore(f, e);
    ContainedIff(w', f', j);
    if ExtraOwn(l, firsts, w'.spaces[j].data, |w.used|) {
      LoadSpaceSafe(w, f, j, l, firsts, w');
    }
    if Contained(w', j) {
      ContainedExtra(w', f', j, l, firsts, f.private[j]);
    }
  }

  lemma SharedAsBefore(f: Flat, e: Event)
    requires SharedClosed(f)
    ensures SharedClosed(FlatNext(f, e))
  {
  }

  lemma LoadSpaceSafe(w: World, f: Flat, j: nat, l: seq<Segment>, firsts: seq<nat>, w': World)
    requires Safe(w, f) && AddressSpaces.Step(w, Event.Load(j, l, firsts), w') && Loadable(l) && j < |w'.spaces|
    requires ExtraOwn(l, firsts, w'.spaces[j].data, |w.used|)
    ensures SpaceSafe(w', FlatNext(f, Event.Load(j, l, firsts)), j)
  {
    hide Stands, SharedClosed, MapsAfter, ExtraOwn, AddressSpaces.Step, Open, FrameOf, PageOf, InSegments, Ascending;
    var e := Event.Load(j, l, firsts);
    LoadStepFacts(w, f, j, l, firsts, w');
    LoadableOrder(l);
    assert SpaceSafe(w, f, j);
    forall p | ValidPage(p) && !SharedSlot(p.a)
      ensures EntryOk(FlatNext(f, e).private[j](p), w'.spaces[j].data, |w'.used|)
    {
      AddressOnPage(p);
      OpenAfter(l, firsts, AddressOf(p), f.private[j](p));
      var e' := MapsAfter(l, firsts, p, f.private[j](p));
      var k := FrameOf(e') / PAGE;
      if Writable(l, firsts, k) && k < |w.used| {
        WritableOwn(l, firsts, w.spaces[j].data, |w.used|, k);
      }
    }
  }

  lemma WritableOwn(l: seq<Segment>, firsts: seq<nat>, data: set<nat>, size: nat, k: nat)
    requires |firsts| == |l| && ExtraOwn(l, firsts, data + SegmentFrames(l, firsts, size), size)
    requires Writable(l, firsts, k) && k < size
    ensures k in data + SegmentFrames(l, firsts, size)
  {
    hide PageCount, Covered, Protection;
    var i: nat :| i < |l| && i < |firsts| && WritableAt(l, firsts, i, k);
    assert k < firsts[i] + PageCount(l[i]) ==> InSegments(l, firsts, k);
  }

  lemma ContainedExtra(w: World, f: Flat, j: nat, l: seq<Segment>, firsts: seq<nat>, before: Page -> nat)
    requires Stands(w, f) && Alive(w, j) && Loadable(l) && |firsts| == |l| && Contained(w, j)
    requires forall p :: f.private[j](p) == MapsAfter(l, firsts, p, before(p))
    ensures ExtraOwn(l, firsts, w.spaces[j].data, |w.used|)
  {
    hide Stands, MapsAfter, Loadable, PageCount, Covered, Protection, Reaches;
    forall i: nat | i < |l| && i < |firsts| && l[i].flags / 2 % 2 == 1 && !Covered(l, i)
      ensures firsts[i] + PageCount(l[i]) < |w.used| ==> firsts[i] + PageCount(l[i]) in w.spaces[j].data
    {
      var k := firsts[i] + PageCount(l[i]);
      assert WritableAt(l, firsts, i, k);
      if k < |w.used| {
        WritableReached(w, f, j, l, firsts, k, before);
      }
    }
  }

  /** A step that opens pages to the program's own frames only keeps every program contained. */
  lemma StepSafe(w: World, f: Flat, e: Event, w': World)
    requires Safe(w, f) && AddressSpaces.Step(w, e, w') && Fits(w, e)
    ensures Admissible(w, e) && Safe(w', FlatNext(f, e))
  {
    hide Stands, SharedClosed, AddressSpaces.Step, SpaceSafe, FlatNext, Contained;
    StepperThere(w, f, e, w');
    if e.Store? {
      SafeContained(w, f, e.space);
    }
    StepRefines(w, f, e, w');
    SharedAsBefore(f, e);
    forall i: nat | Alive(w', i) ensures SpaceSafe(w', FlatNext(f, e), i) {
      StepSpaceSafe(w, f, e, w', i);
    }
  }

  lemma StepperThere(w: World, f: Flat, e: Event, w': World)
    requires Stands(w, f) && AddressSpaces.Step(w, e, w')
    ensures e.Store? ==> Alive(w, e.space)
  {
    hide WorldOk;
  }

  lemma StepSpaceSafe(w: World, f: Flat, e: Event, w': World, i: nat)
    requires Safe(w, f) && AddressSpaces.Step(w, e, w') && Fits(w, e) && Alive(w', i) && Stands(w', FlatNext(f, e))
    ensures SpaceSafe(w', FlatNext(f, e), i)
  {
    hide SharedClosed, WorldOk, Fits, AddressSpaces.Step, SpaceSafe, FlatNext;
    if e.Load? && e.space == i {
      FitLoad(w, f, e, w');
    } else if i < |w.spaces| {
      SameProgram(w, f, e, w', i);
      KeptSafe(w, f, e, w', i);
    } else {
      NewSafe(w, f, e, w', i);
    }
  }

  lemma FitLoad(w: World, f: Flat, e: Event, w': World)
    requires Safe(w, f) && AddressSpaces.Step(w, e, w') && Fits(w, e) && e.Load? && e.space < |w'.spaces|
    ensures SpaceSafe(w', FlatNext(f, e), e.space)
  {
    hide SharedClosed, MapsAfter, ExtraOwn, Stands, EntryOk, Loadable, SegmentFrames, AddressSpaces.Step;
    LoadStepFacts(w, f, e.space, e.segments, e.firsts, w');
    LoadSpaceSafe(w, f, e.space, e.segments, e.firsts, w');
  }

  lemma KeptSafe(w: World, f: Flat, e: Event, w': World, i: nat)
    requires Safe(w, f) && Fits(w, e) && Alive(w, i) && i < |w'.spaces| && !(e.Load? && e.space == i)
    requires w'.spaces[i].data == w.spaces[i].data && |w'.used| == |w.used|
    ensures SpaceSafe(w', FlatNext(f, e), i)
  {
    hide SharedClosed, MapsAfter, ExtraOwn, EntryOk, Loadable, SegmentFrames, WorldOk;
    assert SpaceSafe(w, f, i);
  }

  lemma NewSafe(w: World, f: Flat, e: Event, w': World, i: nat)
    requires Stands(w, f) && AddressSpaces.Step(w, e, w') && Alive(w', i) && i >= |w.spaces|
    ensures SpaceSafe(w', FlatNext(f, e), i)
  {
    hide MapsAfter, EntryOk, SegmentFrames, WorldOk, Maps, MapOk, Stepped;
    NothingOpen(w'.spaces[i].data, |w'.used|);
  }

  lemma NothingOpen(data: set<nat>, size: nat)
    ensures EntryOk(0, data, size)
  {
  }

  lemma SameProgram(w: World, f: Flat, e: Event, w': World, i: nat)
    requires Stands(w, f) && AddressSpaces.Step(w, e, w') && Alive(w', i) && i < |w.spaces|
    requires !(e.Load? && e.space == i)
    ensures Alive(w, i) && w'.spaces[i].data == w.spaces[i].data && |w'.used| == |w.used|
  {
    hide WorldOk, Maps, MapsAfter, MapOk, NewData;
    if e.New? {
      assert w'.spaces[i] == w'.spaces[..|w.spaces|][i];
    }
  }

  /** A run in which pages are opened to the programs' own frames only; any program may store anywhere at any time. */
  ghost predicate FitRuns(w: World, es: seq<Event>, w': World)
    decreases |es|
  {
    if es == [] then w' == w
    else exists v :: AddressSpaces.Step(w, es[0], v) && Fits(w, es[0]) && FitRuns(v, es[1..], w')
  }

  /** From a safe world every program stays contained throughout such a run, so that its stores disturb no other. */
  lemma {:induction false} RunSafe(w: World, f: Flat, es: seq<Event>, w': World)
    requires Safe(w, f) && FitRuns(w, es, w')
    ensures AddressSpaces.Runs(w, es, w') && Safe(w', FlatRun(f, es))
    decreases |es|
  {
    hide Safe, AddressSpaces.Step, Fits, FlatNext, Admissible;
    if es != [] {
      var v :| AddressSpaces.Step(w, es[0], v) && Fits(w, es[0]) && FitRuns(v, es[1..], w');
      StepSafe(w, f, es[0], v);
      RunSafe(v, FlatNext(f, es[0]), es[1..], w');
    }
  }

  /**
   So a loaded program reads its file's bytes, and then zeros, whatever other programs do in such a run: wherever and
   whatever they store, and whatever the kernel does for them.
   */
  lemma SafeStaysReadable(w: World, f: Flat, es: seq<Event>, w': World, i: nat, file: seq<byte>, phdrs: seq<Segment>,
                          firsts: seq<nat>)
    requires Safe(w, f) && FitRuns(w, es, w') && Alive(w, i) && forall k :: 0 <= k < |es| ==> !Touches(es[k], i)
    requires AllLoaded(w.used, w.m, w.spaces[i].own, w.shared, file, Loads(phdrs), firsts)
    requires SegmentFrames(Loads(phdrs), firsts, |w.used|) <= w.spaces[i].data
    ensures Alive(w', i) && Pml4 in w'.spaces[i].own && Contained(w', i)
    ensures ReadsFile(w'.m, w'.spaces[i].own[Pml4], file, phdrs) && KeepsFlags(w'.m, w'.spaces[i].own[Pml4], phdrs)
  {
    hide WorldOk, Loads, AllLoaded, ReadsFile, KeepsFlags, Contained, SpaceSafe, SharedClosed, FitRuns,
         AddressSpaces.Runs;
    RunSafe(w, f, es, w');
    StaysReadable(w, es, w', i, file, phdrs, firsts);
    SafeContained(w', FlatRun(f, es), i);
  }

  /** The kernel's page map at boot, with nothing mapped, is safe. */
  lemma BootSafe(n: nat) returns (w: World, f: Flat)
    requires n >= 4 && PAGE * n <= WORD_LIMIT
    ensures Safe(w, f) && |w.spaces| == 1 && |w.used| == n
  {
    hide Stands;
    w, f := BootWorld(n);
    ZeroClosed();
  }

  // ---------------------------------------------------------------- what one store can disturb

  /** Frame `k` holds a table of the tree. */
  ghost predicate IsTable(nodes: map<Node, nat>, k: nat) {
    exists n :: n in nodes && nodes[n] == k * PAGE
  }

  /** Frame `k` holds a table - the root among them - or the program of a space other than `j`. */
  ghost predicate Foreign(w: World, j: nat, k: nat) {
    exists i: nat :: Alive(w, i) && i != j && ForeignOf(w, i, k)
  }

  ghost predicate ForeignOf(w: World, i: nat, k: nat)
    requires i < |w.spaces|
  {
    k in w.spaces[i].data || IsTable(w.spaces[i].own + w.shared, k)
  }

  /** No store of space `j`, to whatever address and of whatever value, disturbs another space. */
  ghost predicate Harmless(w: World, j: nat) {
    forall v: nat, b: byte, i: nat :: Alive(w, i) && i != j ==> Undisturbed(w, i, Stored(w, j, v, b))
  }

  /**
   The stores of a space leave every other one undisturbed exactly if none of the frames it can store to is a table, a
   root or part of the program of another space.
   */
  lemma HarmlessIff(w: World, j: nat)
    requires WorldOk(w) && Alive(w, j)
    ensures Harmless(w, j) <==> forall k: nat :: Reaches(w, j, k) ==> !Foreign(w, j, k)
  {
    hide WorldOk, Undisturbed, Stored, Foreign, StoresTo;
    if forall k: nat :: Reaches(w, j, k) ==> !Foreign(w, j, k) {
      forall v: nat, b: byte, i: nat | Alive(w, i) && i != j ensures Undisturbed(w, i, Stored(w, j, v, b)) {
        StoreUndisturbed(w, j, v, b, i);
      }
    }
    if Harmless(w, j) {
      forall k: nat | Reaches(w, j, k) ensures !Foreign(w, j, k) {
        if Foreign(w, j, k) {
          StoreDisturbs(w, j, k);
        }
      }
    }
  }

  lemma StoreUndisturbed(w: World, j: nat, v: nat, b: byte, i: nat)
    requires WorldOk(w) && Alive(w, i) && i != j && forall k: nat :: Reaches(w, j, k) ==> !Foreign(w, j, k)
    ensures Undisturbed(w, i, Stored(w, j, v, b))
  {
    hide MapOk, SpacesApart, SameMaps, StoreAt;
    var t, k := w.spaces[i], StoreFrame(w, j, v);
    assert SpaceOk(w, t);
    if StoresTo(w, j, v, k) {
      assert Reaches(w, j, k);
      var m' := Stored(w, j, v, b).m;
      NotForeign(w, j, i, k);
      WrittenElsewhere(w, {k}, m', t);
    } else {
      SpaceTree(w, i);
      SameMapsRefl(w.m, t.own, w.shared);
    }
  }

  lemma NotForeign(w: World, j: nat, i: nat, k: nat)
    requires WorldOk(w) && Alive(w, i) && i != j && !Foreign(w, j, k)
    ensures k !in w.spaces[i].data && DataApart({k}, w.spaces[i].own) && DataApart({k}, w.shared)
  {
    hide MapOk, SpacesApart, SpaceOk;
    var own := w.spaces[i].own;
    assert !ForeignOf(w, i, k);
    OwnInNodes(w, i);
    forall n | n in own ensures own[n] != k * PAGE {
      assert n in own + w.shared && (own + w.shared)[n] == own[n];
    }
    forall n | n in w.shared ensures w.shared[n] != k * PAGE {
      assert n in own + w.shared && (own + w.shared)[n] == w.shared[n];
    }
  }

  lemma OwnInNodes(w: World, i: nat)
    requires WorldOk(w) && Alive(w, i)
    ensures forall n :: n in w.spaces[i].own ==> n !in w.shared
  {
    hide SpacesApart, Placed, Interior, Recorded;
    assert SpaceOk(w, w.spaces[i]);
  }

  /** A store into a table, the root or the program of another space can be one that disturbs it. */
  lemma StoreDisturbs(w: World, j: nat, k: nat)
    requires WorldOk(w) && Reaches(w, j, k) && Foreign(w, j, k)
    ensures !Harmless(w, j)
  {
    hide WorldOk, Undisturbed, StoresTo, Stored;
    var i: nat :| Alive(w, i) && i != j && ForeignOf(w, i, k);
    var v: nat :| StoresTo(w, j, v, k);
    var v0 := FirstByteOf(w, j, v, k);
    var b: byte := FlippedParity(w.m[k * PAGE]);
    AtFirstByte(w, j, v0, k, b);
    if k in w.spaces[i].data {
      DataDisturbed(w, i, k, b);
    } else {
      TableDisturbed(w, i, k, b);
    }
    assert !Undisturbed(w, i, Stored(w, j, v0, b));
  }

  function FlippedParity(b: byte): (b': byte)
    ensures b' % 2 != b % 2
  {
    if b % 2 == 0 then 1 else 0
  }

  /** The start of the page of `v`, and the byte it leads to. */
  lemma FirstByteOf(w: World, j: nat, v: nat, k: nat) returns (v0: nat)
    requires StoresTo(w, j, v, k)
    ensures v0 == v / PAGE * PAGE && k * PAGE < |w.m|
    ensures StoresTo(w, j, v0, k) && StoreAt(w.m, w.spaces[j].own[Pml4], v0).value == k * PAGE
  {
    hide PageOf, StoreAt;
    v0 := v / PAGE * PAGE;
    assert v0 / PAGE == v / PAGE && v0 % PAGE == 0;
    SameQuotient(v, v0);
    SameFrame(w.m, w.spaces[j].own[Pml4], v, v0);
  }

  /** Two addresses on one page lead to one frame, each at its own offset. */
  lemma SameFrame(m: seq<byte>, root: nat, v: nat, v0: nat)
    requires root + PAGE <= |m| && PageOf(v) == PageOf(v0) && StoreAt(m, root, v).Some?
    ensures StoreAt(m, root, v0).Some?
    ensures var a, a0 := StoreAt(m, root, v).value, StoreAt(m, root, v0).value;
      a / PAGE == a0 / PAGE && a % PAGE == v % PAGE && a0 % PAGE == v0 % PAGE
  {
    hide PageOf, OpenFrame;
    IsValidPage(v);
    IsValidPage(v0);
    var f := OpenFrame(m, root, PageOf(v)).value;
    FrameAligned(m, root, PageOf(v));
    InWholeFrame(f, v);
    InWholeFrame(f, v0);
  }

  lemma FrameAligned(m: seq<byte>, root: nat, p: Page)
    requires root + PAGE <= |m| && ValidPage(p) && OpenFrame(m, root, p).Some?
    ensures OpenFrame(m, root, p).value % PAGE == 0
  {
    hide Open, Entry;
    var t3 := FollowOpen(m, root, p.a).value;
    var t2 := FollowOpen(m, t3, p.b).value;
    var t1 := FollowOpen(m, t2, p.c).value;
    WholeFrame(Entry(m, t1, p.d));
  }

  lemma WholeFrame(e: nat)
    ensures (e - e % PAGE) % PAGE == 0
  {
    var q := e / PAGE;
    assert e - e % PAGE == PAGE * q;
    DivUnique(PAGE * q, PAGE, q, 0);
  }

  lemma InWholeFrame(f: nat, v: nat)
    requires f % PAGE == 0
    ensures (f + v % PAGE) / PAGE == f / PAGE && (f + v % PAGE) % PAGE == v % PAGE
  {
    DivUnique(f + v % PAGE, PAGE, f / PAGE, v % PAGE);
  }

  lemma AtFirstByte(w: World, j: nat, v0: nat, k: nat, b: byte)
    requires StoresTo(w, j, v0, k) && k * PAGE < |w.m| && StoreAt(w.m, w.spaces[j].own[Pml4], v0).value == k * PAGE
    ensures Stored(w, j, v0, b) == w.(m := w.m[k * PAGE := b])
  {
    hide StoreAt;
  }

  lemma DataDisturbed(w: World, i: nat, k: nat, b: byte)
    requires i < |w.spaces| && k in w.spaces[i].data && k * PAGE < |w.m| && b != w.m[k * PAGE]
    ensures !Undisturbed(w, i, w.(m := w.m[k * PAGE := b]))
  {
    hide SpaceOk, SameMaps;
    assert k * PAGE / PAGE == k;
    var m' := w.m[k * PAGE := b];
    assert m'[k * PAGE] != w.m[k * PAGE];
  }

  lemma TableDisturbed(w: World, i: nat, k: nat, b: byte)
    requires WorldOk(w) && Alive(w, i) && IsTable(w.spaces[i].own + w.shared, k)
    requires k * PAGE < |w.m| && b % 2 != w.m[k * PAGE] % 2
    ensures !Undisturbed(w, i, w.(m := w.m[k * PAGE := b]))
  {
    hide SpacesApart, DataOk, Recorded, Interior, SameData, Mapping, Placed;
    var nodes := w.spaces[i].own + w.shared;
    var n :| n in nodes && nodes[n] == k * PAGE;
    assert SpaceOk(w, w.spaces[i]);
    var m' := w.m[k * PAGE := b];
    TableDamaged(w.m, m', nodes, n, b);
    if Undisturbed(w, i, w.(m := m')) {
      assert TreeOk(m', nodes);
      DamagedMaps(w, i, m');
    }
  }

  lemma DamagedMaps(w: World, i: nat, m': seq<byte>)
    requires i < |w.spaces| && SameMaps(w.m, w.spaces[i].own, m', w.spaces[i].own, w.shared)
    ensures var nodes := w.spaces[i].own + w.shared;
      && Placed(w.m, nodes) && Placed(m', nodes)
      && (forall p :: ValidPage(p) ==> Mapping(m', nodes, p) == Mapping(w.m, nodes, p))
  {
    hide Mapping, Placed;
    forall p | ValidPage(p)
      ensures Mapping(m', w.spaces[i].own + w.shared, p) == Mapping(w.m, w.spaces[i].own + w.shared, p)
    {
      assert Maps(m', w.spaces[i].own, w.shared, p) == Maps(w.m, w.spaces[i].own, w.shared, p);
    }
  }

  /** With the lowest bit of a table changed the tree is broken, or a page translates differently. */
  lemma TableDamaged(m: seq<byte>, m': seq<byte>, nodes: map<Node, nat>, n: Node, b: byte)
    requires TreeOk(m, nodes) && n in nodes && nodes[n] < |m| && m' == m[nodes[n] := b] && b % 2 != m[nodes[n]] % 2
    ensures TreeOk(m', nodes) ==>
      exists p :: ValidPage(p) && Mapping(m', nodes, p) != Mapping(m, nodes, p)
  {
    hide Load64;
    var t := nodes[n];
    assert TableAt(m, t);
    EntryParity(m, t);
    EntryParity(m', t);
    assert Entry(m', t, 0) % 2 != Entry(m, t, 0) % 2;
    if n.Pt? {
      var p := Page(n.a, n.b, n.c, 0);
      assert ValidNode(n) && ValidPage(p) && Pt(p.a, p.b, p.c) == n;
      assert TreeOk(m', nodes) ==> Mapping(m', nodes, p) != Mapping(m, nodes, p);
    } else {
      InteriorParity(m, m', nodes, n);
    }
  }

  lemma EntryParity(m: seq<byte>, t: nat)
    requires t + PAGE <= |m|
    ensures Entry(m, t, 0) % 2 == m[t] % 2
  {
    hide Number;
    LowestByte(m, t, t + 8);
    var x, y := m[t], Number(m, t + 1, t + 8);
    DivUnique(x + 256 * y, 2, x / 2 + 128 * y, x % 2);
  }

  lemma LowestByte(m: seq<byte>, lo: nat, hi: nat)
    requires lo < hi <= |m|
    ensures Number(m, lo, hi) == m[lo] + 256 * Number(m, lo + 1, hi)
  {
  }

  /** The lowest bit of an entry of an interior table tells whether there is a table behind it. */
  lemma InteriorParity(m: seq<byte>, m': seq<byte>, nodes: map<Node, nat>, n: Node)
    requires TreeOk(m, nodes) && n in nodes && !n.Pt? && nodes[n] + PAGE <= |m| == |m'|
    requires Entry(m', nodes[n], 0) % 2 != Entry(m, nodes[n], 0) % 2
    ensures !TreeOk(m', nodes)
  {
    hide Entry, Placed;
    assert Interior(m, nodes, n);
    assert TreeOk(m', nodes) ==> Interior(m', nodes, n);
  }

  // ---------------------------------------------------------------- a program that is not contained

  /**
   The failing case: a page of `j` is open to a frame that is free - as its extra page is, if no table took the frame -
   and the frame is then handed to a segment of another program. Program `j` can store to it from then on.
   */
  lemma ExtraHandedOn(w: World, f: Flat, j: nat, p: Page, i: nat, l: seq<Segment>, firsts: seq<nat>, w': World)
    requires Stands(w, f) && Alive(w, j) && i != j && AddressSpaces.Step(w, Event.Load(i, l, firsts), w')
    requires ValidPage(p) && !SharedSlot(p.a) && Open(f.private[j](p))
    requires var e := FrameOf(f.private[j](p)) / PAGE; FreeAt(w.used, e) && InSegments(l, firsts, e)
    ensures var e := FrameOf(f.private[j](p)) / PAGE;
      && WorldOk(w') && Alive(w', i) && Alive(w', j) && e in w'.spaces[i].data
      && Reaches(w', j, e) && Foreign(w', j, e) && !Contained(w', j) && !Harmless(w', j)
  {
    hide WorldOk, Maps, MapsAfter, Open, FrameOf, InSegments, Reaches, Stored;
    var e := Event.Load(i, l, firsts);
    StepRefines(w, f, e, w');
    LoadStepFacts(w, f, i, l, firsts, w');
    var k := FrameOf(f.private[j](p)) / PAGE;
    assert w'.spaces[j] == w.spaces[j] && Alive(w', j);
    OpenReaches(w', FlatNext(f, e), j, p);
    DataDisjoint(w', i, j);
    assert ForeignOf(w', i, k);
    StoreDisturbs(w', j, k);
  }

  lemma DataDisjoint(w: World, i: nat, j: nat)
    requires WorldOk(w) && Alive(w, i) && Alive(w, j) && i != j
    ensures w.spaces[i].data !! w.spaces[j].data
  {
    hide SpaceOk;
    assert SpacesApart(w.spaces[i], w.spaces[j]);
  }

  /** A segment gets the frame `e` if that is where the free frames begin. */
  lemma LowestNext(used: seq<bool>, e: nat, n: nat, first: nat)
    requires n >= 1 && LowestRun(used, first, n) && RunFree(used, e, n) && forall i :: 0 <= i < e ==> used[i]
    ensures first == e
  {
    RunStart(used, first, n);
    assert first > e ==> !RunFree(used, e, n);
  }

  lemma RunStart(used: seq<bool>, first: nat, n: nat)
    requires n >= 1 && RunFree(used, first, n)
    ensures first < |used| && !used[first]
  {
  }

  /** If another program can store to the first frame of a segment, one such store makes the segment read otherwise. */
  lemma StoreLost(w: World, j: nat, i: nat, file: seq<byte>, phdrs: seq<Segment>, firsts: seq<nat>, x: nat)
    requires WorldOk(w) && Alive(w, i) && AllLoaded(w.used, w.m, w.spaces[i].own, w.shared, file, Loads(phdrs), firsts)
    requires SegmentFrames(Loads(phdrs), firsts, |w.used|) <= w.spaces[i].data && x < |Loads(phdrs)|
    requires Loads(phdrs)[x].memsz > 0 && Reaches(w, j, firsts[x])
    ensures Pml4 in w.spaces[i].own && w.spaces[i].own[Pml4] + PAGE <= |w.m|
    ensures exists v: nat, b: byte :: !ReadsFile(Stored(w, j, v, b).m, w.spaces[i].own[Pml4], file, phdrs)
  {
    hide WorldOk, Loads, Loaded, ReadsFile, Stored, StoresTo, PageCount, Alignment;
    SpaceTree(w, i);
    var s, first := Loads(phdrs)[x], firsts[x];
    var v: nat :| StoresTo(w, j, v, first);
    var a := first * PAGE + Alignment(s);
    var v1 := v / PAGE * PAGE + Alignment(s);
    FirstFrame(w, i, file, Loads(phdrs), firsts, x);
    var b: byte := if w.m[a] == 0 then 1 else 0;
    StoredAt(w, j, v, first, Alignment(s), b);
    FirstByteLost(w, i, file, s, first, b);
    NotRead(w.m[a := b], w.spaces[i].own[Pml4], file, phdrs, s);
    assert Stored(w, j, v1, b).m == w.m[a := b];
  }

  lemma FirstFrame(w: World, i: nat, file: seq<byte>, l: seq<Segment>, firsts: seq<nat>, x: nat)
    requires i < |w.spaces| && AllLoaded(w.used, w.m, w.spaces[i].own, w.shared, file, l, firsts) && x < |l|
    requires SegmentFrames(l, firsts, |w.used|) <= w.spaces[i].data
    ensures Loaded(w.used, w.m, w.spaces[i].own, w.shared, file, l[x], firsts[x]) && firsts[x] in w.spaces[i].data
    ensures firsts[x] * PAGE + Alignment(l[x]) < |w.m| && Alignment(l[x]) < PAGE
  {
    hide PagesPlaced, PageCount;
    RunInData(w, i, file, l, firsts, x);
    assert Loaded(w.used, w.m, w.spaces[i].own, w.shared, file, l[x], firsts[x]);
    assert (firsts[x] + PageCount(l[x])) * PAGE >= firsts[x] * PAGE + PAGE;
  }

  /** A store at an offset of the page of `v`. */
  lemma StoredAt(w: World, j: nat, v: nat, k: nat, offset: nat, b: byte)
    requires StoresTo(w, j, v, k) && offset < PAGE && k * PAGE + offset < |w.m|
    ensures Stored(w, j, v / PAGE * PAGE + offset, b) == w.(m := w.m[k * PAGE + offset := b])
  {
    hide PageOf, StoreAt;
    var v1 := v / PAGE * PAGE + offset;
    DivUnique(v1, PAGE, v / PAGE, offset);
    SameQuotient(v, v1);
    SameFrame(w.m, w.spaces[j].own[Pml4], v, v1);
    assert StoreAt(w.m, w.spaces[j].own[Pml4], v1).value == k * PAGE + offset;
  }

  /** With another byte in the place of its first, a loaded segment does not read as its file. */
  lemma FirstByteLost(w: World, i: nat, file: seq<byte>, s: Segment, first: nat, b: byte)
    requires WorldOk(w) && Alive(w, i) && Loaded(w.used, w.m, w.spaces[i].own, w.shared, file, s, first)
    requires first in w.spaces[i].data && s.memsz > 0 && first * PAGE + Alignment(s) < |w.m| && Alignment(s) < PAGE
    requires b != w.m[first * PAGE + Alignment(s)] && Pml4 in w.spaces[i].own
    ensures var m' := w.m[first * PAGE + Alignment(s) := b]; !ReadsAt(m', w.spaces[i].own[Pml4], file, s, 0)
  {
    hide WorldOk, PageOf, PageCount, Alignment, Filled, DataRun, PagesPlaced, VirtualByte, SpaceOk, MapOk, SameMaps;
    var a := first * PAGE + Alignment(s);
    var m' := w.m[a := b];
    OnlyByte(w.m, m', first, Alignment(s), b);
    TablesStay(w, i, first, m');
    FirstPage(s);
    FirstWalk(w, i, m', s, first);
    FirstContent(w, i, file, s, first);
    FirstByteRead(m', w.spaces[i].own[Pml4], s, first);
  }

  lemma OnlyByte(m: seq<byte>, m': seq<byte>, k: nat, offset: nat, b: byte)
    requires offset < PAGE && k * PAGE + offset < |m| && m' == m[k * PAGE + offset := b]
    ensures forall x :: 0 <= x < |m| && x / PAGE != k ==> m'[x] == m[x]
  {
    DivUnique(k * PAGE + offset, PAGE, k, offset);
  }

  lemma FirstByteRead(m: seq<byte>, root: nat, s: Segment, first: nat)
    requires root + PAGE <= |m| && ValidPage(PageOf(s.vaddr)) && first * PAGE + Alignment(s) < |m|
    requires Walk(m, root, PageOf(s.vaddr)) == Some(first * PAGE + Protection(s))
    ensures VirtualByte(m, root, s.vaddr + 0) == Some(m[first * PAGE + Alignment(s)])
  {
    hide PageOf, Walk, FrameOf, Protection;
    ProtectionIs(s);
    EntryParts(first, 0, Protection(s));
    assert (first + 0) * PAGE == first * PAGE;
  }

  lemma TablesStay(w: World, i: nat, k: nat, m': seq<byte>)
    requires WorldOk(w) && Alive(w, i) && k in w.spaces[i].data && |m'| == |w.m|
    requires forall x :: 0 <= x < |w.m| && x / PAGE != k ==> m'[x] == w.m[x]
    ensures var t := w.spaces[i];
      MapOk(w.used, m', t.own, w.shared, t.tables) && SameMaps(w.m, t.own, m', t.own, w.shared)
  {
    hide MapOk, SameMaps, SpacesApart;
    assert SpaceOk(w, w.spaces[i]);
    WrittenElsewhere(w, {k}, m', w.spaces[i]);
  }

  lemma FirstWalk(w: World, i: nat, m': seq<byte>, s: Segment, first: nat)
    requires i < |w.spaces| && MapOk(w.used, m', w.spaces[i].own, w.shared, w.spaces[i].tables)
    requires SameMaps(w.m, w.spaces[i].own, m', w.spaces[i].own, w.shared)
    requires PagesPlaced(w.m, w.spaces[i].own, w.shared, s, first) && s.memsz > 0 && Pml4 in w.spaces[i].own
    ensures w.spaces[i].own[Pml4] + PAGE <= |m'| && ValidPage(PageOf(s.vaddr))
    ensures Walk(m', w.spaces[i].own[Pml4], PageOf(s.vaddr)) == Some(first * PAGE + Protection(s))
  {
    hide PageOf, Walk, Recorded, Interior, Mapping, Alignment, PageCount, Protection;
    var own := w.spaces[i].own;
    ByteLocation(s, 0);
    FirstPage(s);
    assert Maps(m', own, w.shared, PageOf(s.vaddr + 0 * PAGE)) == (first + 0) * PAGE + Protection(s);
    assert Pml4 !in w.shared && (own + w.shared)[Pml4] == own[Pml4];
    WalkTree(m', own + w.shared, PageOf(s.vaddr));
    ProtectionIs(s);
    WalkedTo(m', own + w.shared, PageOf(s.vaddr));
  }

  lemma WalkedTo(m: seq<byte>, nodes: map<Node, nat>, p: Page)
    requires Placed(m, nodes) && ValidPage(p) && Mapping(m, nodes, p) != 0
    ensures Pt(p.a, p.b, p.c) in nodes
  {
  }

  lemma FirstPage(s: Segment)
    requires s.memsz > 0
    ensures PageCount(s) >= 1
  {
  }

  lemma FirstContent(w: World, i: nat, file: seq<byte>, s: Segment, first: nat)
    requires i < |w.spaces| && Filled(w.m, file, s, first) && PageCount(s) >= 1 && Alignment(s) < PAGE
    ensures s.offset + s.filesz <= |file| && first * PAGE + Alignment(s) < |w.m|
    ensures w.m[first * PAGE + Alignment(s)] == if 0 < s.filesz then file[s.offset] else 0
  {
    hide PageCount;
    assert (first + PageCount(s)) * PAGE >= first * PAGE + PAGE;
    assert w.m[first * PAGE + Alignment(s)] == Content(file, s, Alignment(s));
  }

  lemma NotRead(m: seq<byte>, root: nat, file: seq<byte>, phdrs: seq<Segment>, s: Segment)
    requires s in Loads(phdrs) && s.memsz > 0 && !ReadsAt(m, root, file, s, 0)
    ensures !ReadsFile(m, root, file, phdrs)
  {
    hide Loads, ReadsAt;
    var k :| 0 <= k < |phdrs| && phdrs[k] == s;
    assert phdrs[k].ptype == P_LOAD;
  }
}
