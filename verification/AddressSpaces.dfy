/** Many page maps over one physical memory, the programs in them, and the flat maps they stand for. */
module AddressSpaces {
  import opened Wrappers
  import opened Bytes
  import opened PmmSpec
  import opened PageTables
  import opened Vmm
  import Elf

  /** One address space: its tables, and the frames that hold its program. */
  datatype Space = Space(own: map<Node, nat>, tables: seq<nat>, data: set<nat>)

  /**
   Physical memory, the tables of the shared slots, and the page maps, the kernel's first; `dead` are the destroyed
   ones.
   */
  datatype World = World(used: seq<bool>, m: seq<byte>, shared: map<Node, nat>, spaces: seq<Space>, dead: set<nat>)

  predicate Alive(w: World, i: nat) {
    i < |w.spaces| && i !in w.dead
  }

  ghost predicate FramesApart(a: map<Node, nat>, b: map<Node, nat>) {
    forall n, n' :: n in a && n' in b ==> a[n] != b[n']
  }

  ghost predicate DataApart(data: set<nat>, nodes: map<Node, nat>) {
    forall k, n :: k in data && n in nodes ==> nodes[n] != k * PAGE
  }

  /** The frames of a program are taken, and are no tables. */
  ghost predicate DataOk(used: seq<bool>, own: map<Node, nat>, shared: map<Node, nat>, data: set<nat>) {
    (forall k :: k in data ==> 0 < k < |used| && used[k]) && DataApart(data, own) && DataApart(data, shared)
  }

  ghost predicate SpaceOk(w: World, s: Space) {
    MapOk(w.used, w.m, s.own, w.shared, s.tables) && DataOk(w.used, s.own, w.shared, s.data)
  }

  ghost predicate SpacesApart(s: Space, t: Space) {
    FramesApart(s.own, t.own) && s.data !! t.data && DataApart(s.data, t.own) && DataApart(t.data, s.own)
  }

  ghost predicate WorldOk(w: World) {
    && Pdpt(256) in w.shared && Pdpt(511) in w.shared
    && (forall i: nat :: Alive(w, i) ==> SpaceOk(w, w.spaces[i]))
    && (forall i: nat, j: nat :: Alive(w, i) && Alive(w, j) && i != j ==> SpacesApart(w.spaces[i], w.spaces[j]))
  }

  ghost function MapsIn(w: World, i: nat, p: Page): nat
    requires WorldOk(w) && Alive(w, i) && ValidPage(p)
  {
    Maps(w.m, w.spaces[i].own, w.shared, p)
  }

  /** The bytes of some frames are the same in `m'` as in `m`. */
  ghost predicate SameData(m: seq<byte>, m': seq<byte>, data: set<nat>) {
    |m'| == |m| && forall x :: 0 <= x < |m| && x / PAGE in data ==> m'[x] == m[x]
  }

  // ---------------------------------------------------------------- steps of one address space

  /** What one space takes for its program was free and is no table. */
  ghost predicate NewData(w: World, s: Space, w': World, s': Space) {
    s.data <= s'.data && forall k :: k in s'.data && k !in s.data ==>
      k > 0 && FreeAt(w.used, k) && !FreeAt(w'.used, k) && DataApart({k}, s'.own)
  }

  /** Space `s` becomes `s'`, by taking free frames and writing in these and in its own tables. */
  ghost predicate Stepped(w: World, s: Space, w': World, s': Space) {
    && w'.shared == w.shared && Confined(w.used, w.m, s.own, w'.used, w'.m, s'.own)
    && MapOk(w'.used, w'.m, s'.own, w.shared, s'.tables) && NewData(w, s, w', s')
  }

  ghost predicate SpaceStep(w: World, j: nat, w': World) {
    && Alive(w, j) && |w'.spaces| == |w.spaces| && w'.dead == w.dead
    && (forall i :: 0 <= i < |w.spaces| && i != j ==> w'.spaces[i] == w.spaces[i])
    && Stepped(w, w.spaces[j], w', w'.spaces[j])
  }

  lemma AlignedSame(a: nat, b: nat, x: nat)
    requires a % PAGE == 0 && b % PAGE == 0 && a <= x < a + PAGE && b <= x < b + PAGE
    ensures a == b
  {
  }

  /** A taken frame that is no table of `own` is out of reach of a step. */
  lemma OutOfReach(used: seq<bool>, m: seq<byte>, own: map<Node, nat>, used': seq<bool>, m': seq<byte>,
                   own': map<Node, nat>, t: nat)
    requires Confined(used, m, own, used', m', own') && t % PAGE == 0 && t / PAGE < |used| && used[t / PAGE]
    requires forall n :: n in own ==> own[n] != t && own[n] % PAGE == 0
    ensures SameTable(m, m', t) && |used'| == |used| && used'[t / PAGE]
    ensures forall n :: n in own' ==> own'[n] != t
  {
    forall n | n in own' ensures own'[n] != t {
      if n !in own {
        assert !used[own'[n] / PAGE];
      }
    }
    forall x | t <= x < t + PAGE && x < |m| ensures m'[x] == m[x] {
      assert x / PAGE == t / PAGE;
      if InTables(own, x) {
        var n :| n in own && own[n] <= x < own[n] + PAGE;
        AlignedSame(own[n], t, x);
      }
    }
  }

  lemma OwnAligned(used: seq<bool>, m: seq<byte>, own: map<Node, nat>, shared: map<Node, nat>, tables: seq<nat>)
    requires MapOk(used, m, own, shared, tables)
    ensures forall n :: n in own ==> own[n] > 0 && own[n] % PAGE == 0 && own[n] / PAGE < |used| && used[own[n] / PAGE]
    ensures forall n :: n in shared ==>
      shared[n] > 0 && shared[n] % PAGE == 0 && shared[n] / PAGE < |used| && used[shared[n] / PAGE]
    ensures FramesApart(own, shared) && Pml4 in own
  {
    hide Interior, Recorded;
    forall n | n in own ensures n in own + shared && (own + shared)[n] == own[n] {
      assert n !in shared;
    }
    forall n | n in shared ensures n in own + shared && (own + shared)[n] == shared[n] {
    }
  }

  /** A page map whose tables have not been written, in frames that are still taken. */
  lemma TablesUntouched(used: seq<bool>, m: seq<byte>, used': seq<bool>, m': seq<byte>, own: map<Node, nat>,
                        shared: map<Node, nat>, tables: seq<nat>)
    requires MapOk(used, m, own, shared, tables) && |used'| == |used| && |m'| == |m| && used'[0]
    requires forall n :: n in own ==> SameTable(m, m', own[n]) && own[n] / PAGE < |used| && used'[own[n] / PAGE]
    requires forall n :: n in shared ==>
      SameTable(m, m', shared[n]) && shared[n] / PAGE < |used| && used'[shared[n] / PAGE]
    ensures MapOk(used', m', own, shared, tables) && SameMaps(m, own, m', own, shared)
  {
    hide Interior, Recorded, SameTable, Entry, Mapping;
    TablesKept(m, m', own + shared);
  }

  /** A page map that took no part in a step is as well formed as before and maps what it mapped. */
  lemma Bystander(w: World, s: Space, w': World, s': Space, t: Space)
    requires SpaceOk(w, t) && Stepped(w, s, w', s') && SpacesApart(s, t) && FramesApart(s.own, w.shared)
    requires forall n :: n in s.own ==> s.own[n] % PAGE == 0
    ensures SpaceOk(w', t) && SpacesApart(s', t) && SameMaps(w.m, t.own, w'.m, t.own, w.shared)
    ensures SameData(w.m, w'.m, t.data)
  {
    hide Interior, Recorded, Confined, SameTable, Entry, Mapping, TreeOk, NewData;
    OwnAligned(w.used, w.m, t.own, w.shared, t.tables);
    ConfinedSizes(w.used, w.m, s.own, w'.used, w'.m, s'.own);
    forall n | n in t.own
      ensures SameTable(w.m, w'.m, t.own[n]) && w'.used[t.own[n] / PAGE] && forall k :: k in s'.own ==>
        s'.own[k] != t.own[n]
    {
      OutOfReach(w.used, w.m, s.own, w'.used, w'.m, s'.own, t.own[n]);
    }
    forall n | n in w.shared ensures SameTable(w.m, w'.m, w.shared[n]) && w'.used[w.shared[n] / PAGE] {
      OutOfReach(w.used, w.m, s.own, w'.used, w'.m, s'.own, w.shared[n]);
    }
    TablesUntouched(w.used, w.m, w'.used, w'.m, t.own, w.shared, t.tables);
    DataBystander(w, s, w', s', t);
  }

  lemma DataBystander(w: World, s: Space, w': World, s': Space, t: Space)
    requires DataOk(w.used, t.own, w.shared, t.data) && Stepped(w, s, w', s') && SpacesApart(s, t)
    requires |w.m| == PAGE * |w.used|
    requires forall n :: n in t.own ==> t.own[n] % PAGE == 0 && t.own[n] / PAGE < |w.used| && w.used[t.own[n] / PAGE]
    requires forall n :: n in s.own ==> s.own[n] % PAGE == 0
    ensures DataOk(w'.used, t.own, w.shared, t.data) && SameData(w.m, w'.m, t.data)
    ensures s'.data !! t.data && DataApart(s'.data, t.own) && DataApart(t.data, s'.own)
  {
    hide MapOk;
    forall k | k in t.data ensures k * PAGE / PAGE == k && (forall n :: n in s'.own ==> s'.own[n] != k * PAGE) {
      OutOfReach(w.used, w.m, s.own, w'.used, w'.m, s'.own, k * PAGE);
    }
    forall x | 0 <= x < |w.m| && x / PAGE in t.data ensures w'.m[x] == w.m[x] {
      var k := x / PAGE;
      OutOfReach(w.used, w.m, s.own, w'.used, w'.m, s'.own, k * PAGE);
    }
    forall k, n | k in s'.data && n in t.own ensures t.own[n] != k * PAGE {
      assert k * PAGE / PAGE == k;
    }
  }

  lemma ConfinedSizes(used: seq<bool>, m: seq<byte>, own: map<Node, nat>, used': seq<bool>, m': seq<byte>,
                      own': map<Node, nat>)
    requires Confined(used, m, own, used', m', own')
    ensures |used'| == |used| && |m'| == |m|
    ensures forall i :: 0 <= i < |used| && used[i] ==> used'[i]
  {
  }

  /** The space that steps is as well formed as before, and the shared slots translate as before. */
  lemma StepperOk(w: World, s: Space, w': World, s': Space)
    requires SpaceOk(w, s) && Stepped(w, s, w', s')
    ensures SpaceOk(w', s') && FramesApart(s.own, w.shared) && forall n :: n in s.own ==> s.own[n] % PAGE == 0
  {
    hide Interior, Recorded, TreeOk;
    OwnAligned(w.used, w.m, s.own, w.shared, s.tables);
    forall k, n | k in s'.data && n in s'.own ensures s'.own[n] != k * PAGE {
      assert k * PAGE / PAGE == k;
      if k !in s.data {
        assert DataApart({k}, s'.own);
      }
    }
    forall k, n | k in s'.data && n in w.shared ensures w.shared[n] != k * PAGE {
      assert k * PAGE / PAGE == k;
    }
  }

  lemma SharedUntouched(w: World, s: Space, w': World, s': Space, p: Page)
    requires SpaceOk(w, s) && Stepped(w, s, w', s') && ValidPage(p) && SharedSlot(p.a)
    ensures Placed(w.m, s.own + w.shared) && Placed(w'.m, s'.own + w.shared)
    ensures Maps(w'.m, s'.own, w.shared, p) == Maps(w.m, s.own, w.shared, p)
  {
    hide Interior, Recorded, Confined, SameTable, Entry, NewData, DataOk;
    var pt := Pt(p.a, p.b, p.c);
    OwnAligned(w.used, w.m, s.own, w.shared, s.tables);
    assert UnderShared(pt) && pt !in s.own && pt !in s'.own;
    if pt in w.shared {
      OutOfReach(w.used, w.m, s.own, w'.used, w'.m, s'.own, w.shared[pt]);
      SameEntry(w.m, w'.m, w.shared[pt], p.d);
    }
  }

  // ---------------------------------------------------------------- flat maps

  /** What the page maps stand for: one map of the shared slots, and one per page map for the rest. */
  datatype Flat = Flat(shared: Page -> nat, private: seq<Page -> nat>)

  datatype Event =
    | New
    | Set(space: nat, page: Page, entry: nat)
    | Look(space: nat)
    | Load(space: nat, segments: seq<Elf.Segment>, firsts: seq<nat>)
    | Write(space: nat)
    | Store(space: nat, virt: nat, value: byte)
    | Destroy(space: nat)

  ghost function FlatNext(f: Flat, e: Event): Flat {
    match e
    case New => f.(private := f.private + [(_: Page) => 0])
    case Set(j, p, entry) =>
      if j < |f.private| then f.(private := f.private[j := (q: Page) => if q == p then entry else f.private[j](q)])
      else f
    case Load(j, l, firsts) =>
      if j < |f.private| && |firsts| == |l|
      then f.(private := f.private[j := (q: Page) => Elf.MapsAfter(l, firsts, q, f.private[j](q))])
      else f
    case _ => f
  }

  /** Space `i` maps page `p` as the flat maps say. */
  ghost predicate Agrees(w: World, f: Flat, i: nat, p: Page)
    requires WorldOk(w) && Alive(w, i) && ValidPage(p)
  {
    |f.private| == |w.spaces| && MapsIn(w, i, p) == if SharedSlot(p.a) then f.shared(p) else f.private[i](p)
  }

  ghost predicate Stands(w: World, f: Flat) {
    WorldOk(w) && |f.private| == |w.spaces| && forall i: nat, p :: Alive(w, i) && ValidPage(p) ==> Agrees(w, f, i, p)
  }

  /** A store by user code of space `j` to `v` goes to frame `k` of the memory. */
  ghost predicate StoresTo(w: World, j: nat, v: nat, k: nat) {
    && j < |w.spaces| && Pml4 in w.spaces[j].own && w.spaces[j].own[Pml4] + PAGE <= |w.m|
    && var a := StoreAt(w.m, w.spaces[j].own[Pml4], v);
       a.Some? && a.value < |w.m| && a.value / PAGE == k
  }

  /** The world after a store of space `j`; nothing happens where the tables forbid it or there is no memory. */
  ghost function Stored(w: World, j: nat, v: nat, b: byte): World {
    if StoresTo(w, j, v, StoreFrame(w, j, v)) then w.(m := w.m[StoreAt(w.m, w.spaces[j].own[Pml4], v).value := b])
    else w
  }

  ghost function StoreFrame(w: World, j: nat, v: nat): nat {
    if j < |w.spaces| && Pml4 in w.spaces[j].own && w.spaces[j].own[Pml4] + PAGE <= |w.m|
       && StoreAt(w.m, w.spaces[j].own[Pml4], v).Some?
    then StoreAt(w.m, w.spaces[j].own[Pml4], v).value / PAGE
    else 0
  }

  /** User code of space `j` can store to frame `k`. */
  ghost predicate Reaches(w: World, j: nat, k: nat) {
    exists v: nat :: StoresTo(w, j, v, k)
  }

  /** All that the program of space `j` can store to are the frames that hold it. */
  ghost predicate Contained(w: World, j: nat) {
    j < |w.spaces| && forall k: nat :: Reaches(w, j, k) ==> k in w.spaces[j].data
  }

  /** Programs that are not contained do not store. */
  ghost predicate Admissible(w: World, e: Event) {
    e.Store? ==> Contained(w, e.space)
  }

  /**
   The operations on page maps, as the kernel's functions promise them: a new map, a page set or cleared, a lookup, a
   program loaded into free frames, bytes of a program's own frames written by the kernel, a page map destroyed with its
   program. `Store` is what the processor does for a program: it writes wherever the page tables let it.
   */
  ghost predicate Step(w: World, e: Event, w': World) {
    match e
    case New =>
      && Alive(w, 0) && |w'.spaces| == |w.spaces| + 1 && w'.spaces[..|w.spaces|] == w.spaces && w'.dead == w.dead
      && |w.spaces| !in w.dead && w'.spaces[|w.spaces|].data == {}
      && w'.shared == w.shared && Grown(w.used, w.m, map[], w'.used, w'.m, w'.spaces[|w.spaces|].own)
      && MapOk(w'.used, w'.m, w'.spaces[|w.spaces|].own, w.shared, w'.spaces[|w.spaces|].tables)
      && (forall p :: ValidPage(p) ==>
            && Placed(w.m, w.spaces[0].own + w.shared)
            && Maps(w'.m, w'.spaces[|w.spaces|].own, w.shared, p)
               == if SharedSlot(p.a) then Maps(w.m, w.spaces[0].own, w.shared, p) else 0)
    case Set(j, p, entry) =>
      && SpaceStep(w, j, w') && w'.spaces[j].data == w.spaces[j].data && ValidPage(p) && !SharedSlot(p.a)
      && OnePage(w.m, w.spaces[j].own, w'.m, w'.spaces[j].own, w.shared, p, entry)
    case Look(j) =>
      && SpaceStep(w, j, w') && w'.spaces[j].data == w.spaces[j].data
      && SameMaps(w.m, w.spaces[j].own, w'.m, w'.spaces[j].own, w.shared)
    case Load(j, l, firsts) =>
      && SpaceStep(w, j, w') && |firsts| == |l|
      && w'.spaces[j].data == w.spaces[j].data + Elf.SegmentFrames(l, firsts, |w.used|)
      && Placed(w.m, w.spaces[j].own + w.shared) && Placed(w'.m, w'.spaces[j].own + w.shared)
      && (forall p :: ValidPage(p) && !SharedSlot(p.a) ==>
            Maps(w'.m, w'.spaces[j].own, w.shared, p)
              == Elf.MapsAfter(l, firsts, p, Maps(w.m, w.spaces[j].own, w.shared, p)))
    case Write(j) =>
      && Alive(w, j) && w' == w.(m := w'.m) && |w'.m| == |w.m|
      && (forall x :: 0 <= x < |w.m| && x / PAGE !in w.spaces[j].data ==> w'.m[x] == w.m[x])
    case Store(j, v, b) => Alive(w, j) && w' == Stored(w, j, v, b)
    case Destroy(j) =>
      && Alive(w, j) && j > 0 && w' == w.(used := w'.used, dead := w.dead + {j}) && |w'.used| == |w.used|
      && (forall k :: 0 <= k < |w.used| ==>
            (w'.used[k] <==> w.used[k] && k !in w.spaces[j].data && k * PAGE !in w.spaces[j].tables))
  }

  /**
   A page map `i` that lives on is as well formed as before, maps what it mapped, and its program's bytes are the same.
   */
  ghost predicate Undisturbed(w: World, i: nat, w': World) {
    && Alive(w, i) && Alive(w', i) && w'.shared == w.shared && w'.spaces[i] == w.spaces[i] && SpaceOk(w', w'.spaces[i])
    && SameMaps(w.m, w.spaces[i].own, w'.m, w.spaces[i].own, w.shared) && SameData(w.m, w'.m, w.spaces[i].data)
  }

  lemma StepWorldOk(w: World, j: nat, w': World)
    requires WorldOk(w) && SpaceStep(w, j, w')
    ensures WorldOk(w') && forall i: nat :: Alive(w, i) && i != j ==> Undisturbed(w, i, w')
  {
    hide MapOk, DataOk, Stepped, SameMaps, SpacesApart, SameData;
    var s, s' := w.spaces[j], w'.spaces[j];
    StepperOk(w, s, w', s');
    SteppedShared(w, s, w', s');
    forall i: nat | Alive(w, i) && i != j
      ensures Undisturbed(w, i, w') && SpacesApart(s', w'.spaces[i]) && SpacesApart(w'.spaces[i], s')
    {
      Bystander(w, s, w', s', w.spaces[i]);
      ApartBothWays(s', w'.spaces[i]);
    }
  }

  lemma SteppedShared(w: World, s: Space, w': World, s': Space)
    requires Stepped(w, s, w', s')
    ensures w'.shared == w.shared
  {
  }

  lemma ApartBothWays(s: Space, t: Space)
    requires SpacesApart(s, t)
    ensures SpacesApart(t, s)
  {
  }

  /** What an undisturbed page map stands for is what it stood for. */
  lemma UndisturbedMaps(w: World, i: nat, w': World, p: Page)
    requires WorldOk(w) && WorldOk(w') && Undisturbed(w, i, w') && ValidPage(p)
    ensures MapsIn(w', i, p) == MapsIn(w, i, p)
  {
    hide MapOk, DataOk, SpacesApart, SameData, Mapping;
  }

  lemma NewWorldOk(w: World, w': World)
    requires WorldOk(w) && Step(w, New, w')
    ensures WorldOk(w') && forall i: nat :: Alive(w, i) ==> Undisturbed(w, i, w')
  {
    hide MapOk, DataOk, Grown, Mapping, SameMaps, SpacesApart, SameData, Confined;
    var k := |w.spaces|;
    var none, s' := Space(map[], [], {}), w'.spaces[k];
    GrownConfined(w.used, w.m, map[], w'.used, w'.m, s'.own);
    NothingThere(w, none, s');
    assert Stepped(w, none, w', s');
    forall i: nat | Alive(w, i)
      ensures Undisturbed(w, i, w') && SpacesApart(s', w'.spaces[i]) && SpacesApart(w'.spaces[i], s')
    {
      assert w'.spaces[i] == w'.spaces[..k][i];
      NothingApart(none, w.spaces[i], w.shared);
      Bystander(w, none, w', s', w.spaces[i]);
      ApartBothWays(s', w'.spaces[i]);
    }
    NoData(w'.used, s'.own, w.shared);
  }

  lemma NothingThere(w: World, none: Space, s': Space)
    requires none == Space(map[], [], {}) && s'.data == {}
    ensures forall w' :: NewData(w, none, w', s')
  {
  }

  lemma NoData(used: seq<bool>, own: map<Node, nat>, shared: map<Node, nat>)
    ensures DataOk(used, own, shared, {})
  {
  }

  lemma NothingApart(none: Space, t: Space, shared: map<Node, nat>)
    requires none == Space(map[], [], {})
    ensures SpacesApart(none, t) && FramesApart(none.own, shared)
  {
  }

  /** Bytes written in the frames of one program are nothing to any page map. */
  lemma WriteWorldOk(w: World, j: nat, w': World)
    requires WorldOk(w) && Step(w, Write(j), w')
    ensures WorldOk(w') && forall i: nat :: Alive(w, i) && i != j ==> Undisturbed(w, i, w')
    ensures SameMaps(w.m, w.spaces[j].own, w'.m, w.spaces[j].own, w.shared)
  {
    hide MapOk, DataOk, SameMaps, SpacesApart, SameData, DataApart;
    forall i: nat | Alive(w, i)
      ensures SpaceOk(w', w.spaces[i]) && SameMaps(w.m, w.spaces[i].own, w'.m, w.spaces[i].own, w.shared)
      ensures i != j ==> SameData(w.m, w'.m, w.spaces[i].data)
    {
      DataElsewhere(w, j, i);
      WrittenElsewhere(w, w.spaces[j].data, w'.m, w.spaces[i]);
      if i != j {
        OtherData(w.m, w'.m, w.spaces[j], w.spaces[i]);
      }
    }
  }

  lemma DataElsewhere(w: World, j: nat, i: nat)
    requires WorldOk(w) && Alive(w, i) && Alive(w, j)
    ensures DataApart(w.spaces[j].data, w.spaces[i].own) && DataApart(w.spaces[j].data, w.shared)
  {
    hide MapOk;
    assert SpaceOk(w, w.spaces[j]);
    assert i != j ==> SpacesApart(w.spaces[j], w.spaces[i]);
  }

  lemma OtherData(m: seq<byte>, m': seq<byte>, s: Space, t: Space)
    requires SpacesApart(s, t) && |m'| == |m|
    requires forall x :: 0 <= x < |m| && x / PAGE !in s.data ==> m'[x] == m[x]
    ensures SameData(m, m', t.data)
  {
  }

  lemma WrittenElsewhere(w: World, data: set<nat>, m': seq<byte>, t: Space)
    requires SpaceOk(w, t) && DataApart(data, t.own) && DataApart(data, w.shared) && |m'| == |w.m|
    requires forall x :: 0 <= x < |w.m| && x / PAGE !in data ==> m'[x] == w.m[x]
    ensures MapOk(w.used, m', t.own, w.shared, t.tables) && SameMaps(w.m, t.own, m', t.own, w.shared)
  {
    hide Interior, Recorded, TreeOk, DataOk, Mapping, SameMaps;
    OwnAligned(w.used, w.m, t.own, w.shared, t.tables);
    forall n | n in t.own ensures SameTable(w.m, m', t.own[n]) {
      FrameOfTable(t.own[n], data);
    }
    forall n | n in w.shared ensures SameTable(w.m, m', w.shared[n]) {
      FrameOfTable(w.shared[n], data);
    }
    TablesUntouched(w.used, w.m, w.used, m', t.own, w.shared, t.tables);
  }

  lemma FrameOfTable(t: nat, data: set<nat>)
    requires t % PAGE == 0 && forall k :: k in data ==> t != k * PAGE
    ensures forall x :: t <= x < t + PAGE ==> x / PAGE !in data
  {
    forall x | t <= x < t + PAGE ensures x / PAGE !in data {
      assert t == x / PAGE * PAGE;
    }
  }

  /** A store of a contained program writes in its own frames. */
  lemma StoreIsWrite(w: World, j: nat, v: nat, b: byte)
    requires Alive(w, j) && Contained(w, j)
    ensures Step(w, Write(j), Stored(w, j, v, b))
  {
    var k := StoreFrame(w, j, v);
    if StoresTo(w, j, v, k) {
      assert Reaches(w, j, k);
    }
  }

  /** What a destroyed page map gives back belongs to no other. */
  lemma DestroyWorldOk(w: World, j: nat, w': World)
    requires WorldOk(w) && Step(w, Destroy(j), w')
    ensures WorldOk(w') && forall i: nat :: Alive(w, i) && i != j ==> Undisturbed(w, i, w')
  {
    hide MapOk, DataOk, SameMaps, SpacesApart, SameData, DataApart;
    forall i: nat | Alive(w, i) && i != j ensures Undisturbed(w, i, w') {
      DataElsewhere(w, j, i);
      ReleasedElsewhere(w, w.spaces[j], w'.used, w.spaces[i]);
      OtherData(w.m, w.m, w.spaces[j], w.spaces[i]);
    }
    assert forall i: nat :: Alive(w', i) <==> Alive(w, i) && i != j;
    forall i: nat | Alive(w', i) ensures SpaceOk(w', w'.spaces[i]) {
      assert Undisturbed(w, i, w');
    }
  }

  lemma ReleasedElsewhere(w: World, s: Space, used': seq<bool>, t: Space)
    requires SpaceOk(w, s) && SpaceOk(w, t) && SpacesApart(s, t) && |used'| == |w.used|
    requires forall k :: 0 <= k < |w.used| ==> (used'[k] <==> w.used[k] && k !in s.data && k * PAGE !in s.tables)
    ensures MapOk(used', w.m, t.own, w.shared, t.tables) && SameMaps(w.m, t.own, w.m, t.own, w.shared)
    ensures DataOk(used', t.own, w.shared, t.data)
  {
    hide Interior, TreeOk, Mapping, SameMaps;
    OwnAligned(w.used, w.m, s.own, w.shared, s.tables);
    OwnAligned(w.used, w.m, t.own, w.shared, t.tables);
    forall x | x in s.tables ensures exists n :: n in s.own && s.own[n] == x {
      var i :| 0 <= i < |s.tables| && s.tables[i] == x;
      assert OwnTable(s.own, s.tables[i]);
    }
    forall n | n in t.own ensures used'[t.own[n] / PAGE] {
      assert t.own[n] / PAGE * PAGE == t.own[n];
    }
    forall n | n in w.shared ensures used'[w.shared[n] / PAGE] {
      assert w.shared[n] / PAGE * PAGE == w.shared[n];
    }
    TablesUntouched(w.used, w.m, used', w.m, t.own, w.shared, t.tables);
  }

  // ---------------------------------------------------------------- refinement

  /** Page maps refine the flat maps: a step changes one map, and the shared slots read alike in all. */
  lemma StepRefines(w: World, f: Flat, e: Event, w': World)
    requires Stands(w, f) && Step(w, e, w') && Admissible(w, e)
    ensures Stands(w', FlatNext(f, e))
  {
    hide Stands, Stored, Contained;
    match e
    case New => NewRefines(w, f, w');
    case Set(j, p, entry) => SpaceRefines(w, f, e, w');
    case Look(j) => SpaceRefines(w, f, e, w');
    case Load(j, l, firsts) => SpaceRefines(w, f, e, w');
    case Write(j) => WriteRefines(w, f, j, w');
    case Store(j, v, b) =>
      StoreIsWrite(w, j, v, b);
      WriteRefines(w, f, j, w');
    case Destroy(j) => DestroyRefines(w, f, j, w');
  }

  lemma OthersAgree(w: World, f: Flat, w': World, f': Flat, i: nat, p: Page)
    requires Stands(w, f) && WorldOk(w') && Undisturbed(w, i, w') && ValidPage(p)
    requires |f'.private| == |w'.spaces| && |f.private| <= |f'.private| && f'.shared == f.shared
    requires f'.private[i] == f.private[i]
    ensures Agrees(w', f', i, p)
  {
    hide SpaceOk, SpacesApart, SameMaps, SameData, Mapping;
    assert Agrees(w, f, i, p);
    UndisturbedMaps(w, i, w', p);
  }

  lemma StepperAgrees(w: World, f: Flat, e: Event, w': World, p: Page)
    requires Stands(w, f) && Step(w, e, w') && (e.Set? || e.Look? || e.Load?) && WorldOk(w') && ValidPage(p)
    ensures Agrees(w', FlatNext(f, e), e.space, p)
  {
    hide SpacesApart, SameData, Mapping, MapOk, DataOk, Stepped;
    var j := e.space;
    if SharedSlot(p.a) {
      SharedUntouched(w, w.spaces[j], w', w'.spaces[j], p);
    }
    SteppedShared(w, w.spaces[j], w', w'.spaces[j]);
    assert Agrees(w, f, j, p);
  }

  lemma SpaceRefines(w: World, f: Flat, e: Event, w': World)
    requires Stands(w, f) && Step(w, e, w') && (e.Set? || e.Look? || e.Load?)
    ensures Stands(w', FlatNext(f, e))
  {
    hide SpaceOk, SpacesApart, Undisturbed, Stepped, SameMaps, OnePage, Maps;
    StepWorldOk(w, e.space, w');
    var f' := FlatNext(f, e);
    forall i: nat, p | Alive(w', i) && ValidPage(p) ensures Agrees(w', f', i, p) {
      if i == e.space {
        StepperAgrees(w, f, e, w', p);
      } else {
        OthersAgree(w, f, w', f', i, p);
      }
    }
  }

  lemma WriteRefines(w: World, f: Flat, j: nat, w': World)
    requires Stands(w, f) && Step(w, Write(j), w')
    ensures Stands(w', FlatNext(f, Write(j)))
  {
    hide SpaceOk, SpacesApart, Undisturbed, Mapping;
    WriteWorldOk(w, j, w');
    forall i: nat, p | Alive(w', i) && ValidPage(p) ensures Agrees(w', f, i, p) {
      if i == j {
        assert Agrees(w, f, j, p) && MapsIn(w', j, p) == MapsIn(w, j, p);
      } else {
        OthersAgree(w, f, w', f, i, p);
      }
    }
  }

  lemma DestroyRefines(w: World, f: Flat, j: nat, w': World)
    requires Stands(w, f) && Step(w, Destroy(j), w')
    ensures Stands(w', FlatNext(f, Destroy(j)))
  {
    hide SpaceOk, SpacesApart, Undisturbed, Maps;
    DestroyWorldOk(w, j, w');
    forall i: nat, p | Alive(w', i) && ValidPage(p) ensures Agrees(w', f, i, p) {
      OthersAgree(w, f, w', f, i, p);
    }
  }

  lemma NewRefines(w: World, f: Flat, w': World)
    requires Stands(w, f) && Step(w, New, w')
    ensures Stands(w', FlatNext(f, New))
  {
    hide SpaceOk, SpacesApart, Undisturbed, Grown, MapOk, Mapping;
    NewWorldOk(w, w');
    var f' := FlatNext(f, New);
    forall i: nat, p | Alive(w', i) && ValidPage(p) ensures Agrees(w', f', i, p) {
      if i == |w.spaces| {
        assert Agrees(w, f, 0, p) && MapsIn(w', i, p) == if SharedSlot(p.a) then MapsIn(w, 0, p) else 0;
      } else {
        OthersAgree(w, f, w', f', i, p);
      }
    }
  }

  ghost predicate Runs(w: World, es: seq<Event>, w': World)
    decreases |es|
  {
    if es == [] then w' == w
    else exists v :: Step(w, es[0], v) && Admissible(w, es[0]) && Runs(v, es[1..], w')
  }

  ghost function FlatRun(f: Flat, es: seq<Event>): Flat
    decreases |es|
  {
    if es == [] then f else FlatRun(FlatNext(f, es[0]), es[1..])
  }

  /** Whole runs: any sequence of operations on any number of page maps does to them what it does to the flat maps. */
  lemma {:induction false} RunRefines(w: World, f: Flat, es: seq<Event>, w': World)
    requires Stands(w, f) && Runs(w, es, w')
    ensures Stands(w', FlatRun(f, es))
    decreases |es|
  {
    hide Stands, Step, FlatNext;
    if es != [] {
      var v :| Step(w, es[0], v) && Admissible(w, es[0]) && Runs(v, es[1..], w');
      StepRefines(w, f, es[0], v);
      RunRefines(v, FlatNext(f, es[0]), es[1..], w');
    }
  }

  // ---------------------------------------------------------------- isolation

  predicate Touches(e: Event, i: nat) {
    match e
    case New => false
    case Look(_) => false
    case Set(j, _, _) => j == i
    case Load(j, _, _) => j == i
    case Write(j) => j == i
    case Store(j, _, _) => j == i
    case Destroy(j) => j == i
  }

  /** Page map `i` is there, maps every page as before, and its program's frames and their bytes are the same. */
  ghost predicate Isolated(w: World, i: nat, w': World) {
    && WorldOk(w) && WorldOk(w') && Alive(w, i) && Alive(w', i) && w'.shared == w.shared
    && w'.spaces[i].data == w.spaces[i].data && SameData(w.m, w'.m, w.spaces[i].data)
    && (forall p :: ValidPage(p) ==> MapsIn(w', i, p) == MapsIn(w, i, p))
  }

  lemma UndisturbedIsolated(w: World, i: nat, w': World)
    requires WorldOk(w) && WorldOk(w') && Undisturbed(w, i, w')
    ensures Isolated(w, i, w')
  {
    hide SpaceOk, SpacesApart, SameMaps, SameData, Maps;
    forall p | ValidPage(p) ensures MapsIn(w', i, p) == MapsIn(w, i, p) {
      UndisturbedMaps(w, i, w', p);
    }
  }

  lemma StepIsolates(w: World, e: Event, w': World, i: nat)
    requires WorldOk(w) && Step(w, e, w') && Admissible(w, e) && Alive(w, i) && !Touches(e, i)
    ensures Isolated(w, i, w')
  {
    hide WorldOk, Undisturbed, Isolated, SpaceStep, Maps, Stored, Contained;
    match e
    case New => NewWorldOk(w, w'); UndisturbedIsolated(w, i, w');
    case Set(j, _, _) => StepWorldOk(w, j, w'); UndisturbedIsolated(w, i, w');
    case Load(j, _, _) => StepWorldOk(w, j, w'); UndisturbedIsolated(w, i, w');
    case Write(j) => WriteWorldOk(w, j, w'); UndisturbedIsolated(w, i, w');
    case Store(j, v, b) =>
      StoreIsWrite(w, j, v, b);
      WriteWorldOk(w, j, w');
      UndisturbedIsolated(w, i, w');
    case Destroy(j) => DestroyWorldOk(w, j, w'); UndisturbedIsolated(w, i, w');
    case Look(j) =>
      StepWorldOk(w, j, w');
      if i == j {
        LookIsolated(w, j, w');
      } else {
        UndisturbedIsolated(w, i, w');
      }
  }

  /** A lookup in the page map itself changes neither what it maps nor its program. */
  lemma LookIsolated(w: World, j: nat, w': World)
    requires WorldOk(w) && WorldOk(w') && Step(w, Look(j), w')
    ensures Isolated(w, j, w')
  {
    hide SpacesApart, Mapping, SpaceOk, SameData, Stepped;
    SteppedShared(w, w.spaces[j], w', w'.spaces[j]);
    SteppedData(w, w.spaces[j], w', w'.spaces[j]);
  }

  /** A space that steps leaves the bytes of its program as they are. */
  lemma SteppedData(w: World, s: Space, w': World, s': Space)
    requires SpaceOk(w, s) && Stepped(w, s, w', s')
    ensures SameData(w.m, w'.m, s.data)
  {
    hide SpacesApart, Mapping, MapOk, NewData;
    SpaceAligned(w, s);
    ConfinedSizes(w.used, w.m, s.own, w'.used, w'.m, s'.own);
    forall x | 0 <= x < |w.m| && x / PAGE in s.data ensures w'.m[x] == w.m[x] {
      var k := x / PAGE;
      assert k * PAGE / PAGE == k;
      OutOfReach(w.used, w.m, s.own, w'.used, w'.m, s'.own, k * PAGE);
    }
  }

  lemma SpaceAligned(w: World, s: Space)
    requires SpaceOk(w, s)
    ensures forall n :: n in s.own ==> s.own[n] % PAGE == 0
  {
    OwnAligned(w.used, w.m, s.own, w.shared, s.tables);
  }

  lemma IsolatedTrans(w: World, v: World, w': World, i: nat)
    requires Isolated(w, i, v) && Isolated(v, i, w')
    ensures Isolated(w, i, w')
  {
    hide WorldOk, Maps;
  }

  /**
   Isolation: whatever is done with other page maps - programs loaded, their memory written, pages mapped and unmapped,
   maps made and destroyed - and wherever contained programs store, a page map that is not itself changed translates
   every page as before, and the frames of its program hold the same bytes.
   */
  lemma {:induction false} Isolation(w: World, es: seq<Event>, w': World, i: nat)
    requires WorldOk(w) && Runs(w, es, w') && Alive(w, i) && forall k :: 0 <= k < |es| ==> !Touches(es[k], i)
    ensures Isolated(w, i, w')
    decreases |es|
  {
    hide WorldOk, Step, Isolated;
    if es == [] {
      IsolatedRefl(w, i);
    } else {
      var v :| Step(w, es[0], v) && Admissible(w, es[0]) && Runs(v, es[1..], w');
      assert !Touches(es[0], i);
      assert forall k :: 0 <= k < |es| - 1 ==> es[1..][k] == es[k + 1];
      StepIsolates(w, es[0], v, i);
      IsolatedBoth(w, i, v);
      Isolation(v, es[1..], w', i);
      IsolatedTrans(w, v, w', i);
    }
  }

  lemma IsolatedRefl(w: World, i: nat)
    requires WorldOk(w) && Alive(w, i)
    ensures Isolated(w, i, w)
  {
    hide WorldOk;
  }

  lemma IsolatedBoth(w: World, i: nat, w': World)
    requires Isolated(w, i, w')
    ensures WorldOk(w') && Alive(w', i)
  {
  }

  lemma {:induction false} FlatShared(f: Flat, es: seq<Event>)
    ensures FlatRun(f, es).shared == f.shared
    decreases |es|
  {
    if es != [] {
      FlatShared(FlatNext(f, es[0]), es[1..]);
    }
  }

  /** The shared slots translate alike in all page maps, and as they did at the beginning, throughout any run. */
  lemma SharedAlike(w: World, f: Flat, es: seq<Event>, w': World, i: nat, j: nat, p: Page)
    requires Stands(w, f) && Runs(w, es, w') && Alive(w, i) && Alive(w', j) && ValidPage(p) && SharedSlot(p.a)
    ensures Stands(w', FlatRun(f, es)) && MapsIn(w', j, p) == MapsIn(w, i, p)
  {
    hide Runs, FlatRun, SpaceOk, SpacesApart, Maps;
    RunRefines(w, f, es, w');
    FlatShared(f, es);
    assert Agrees(w, f, i, p) && Agrees(w', FlatRun(f, es), j, p);
  }

  /** What the processor finds when it walks the tables of a page map is what the flat maps say. */
  lemma ProcessorSees(w: World, f: Flat, i: nat, p: Page)
    requires Stands(w, f) && Alive(w, i) && ValidPage(p)
    ensures var own := w.spaces[i].own; var flat := if SharedSlot(p.a) then f.shared(p) else f.private[i](p);
      && Pml4 in own && own[Pml4] + PAGE <= |w.m|
      && (Walk(w.m, own[Pml4], p) == Some(flat) || (Walk(w.m, own[Pml4], p) == None && flat == 0))
  {
    hide Interior, Recorded, Walk;
    var own := w.spaces[i].own;
    assert MapOk(w.used, w.m, own, w.shared, w.spaces[i].tables);
    assert Pml4 !in w.shared && Pml4 in own + w.shared && (own + w.shared)[Pml4] == own[Pml4];
    WalkTree(w.m, own + w.shared, p);
    assert Agrees(w, f, i, p) && MapsIn(w, i, p) == Mapping(w.m, own + w.shared, p);
  }

  // ---------------------------------------------------------------- the kernel's page map at boot

  ghost function Zeros(n: nat): (m: seq<byte>)
    ensures |m| == n && forall x :: 0 <= x < n ==> m[x] == 0
  {
    seq(n, _ => 0)
  }

  lemma BareRoot(m: seq<byte>, root: nat)
    requires TableAt(m, root) && forall x :: 0 <= x < |m| ==> m[x] == 0
    ensures TreeOk(m, map[Pml4 := root])
  {
    forall i | 0 <= i < ENTRIES ensures Entry(m, root, i) == 0 {
      ZeroEntry(m, root, i);
    }
  }

  /** A zeroed frame that no table uses is hung at an entry of the root. */
  lemma SlotFilled(m: seq<byte>, nodes: map<Node, nat>, a: nat, f: nat) returns (m': seq<byte>)
    requires TreeOk(m, nodes) && a < ENTRIES && Pdpt(a) !in nodes && |m| <= WORD_LIMIT
    requires TableAt(m, f) && (forall n :: n in nodes ==> nodes[n] != f) && forall x :: f <= x < f + PAGE ==> m[x] == 0
    ensures |m'| == |m| && TreeOk(m', nodes[Pdpt(a) := f])
    ensures forall p :: ValidPage(p) ==> Mapping(m', nodes[Pdpt(a) := f], p) == Mapping(m, nodes, p)
    ensures forall x :: 0 <= x < |m| && !(nodes[Pml4] <= x < nodes[Pml4] + PAGE) ==> m'[x] == m[x]
  {
    var root := nodes[Pml4];
    assert TableAt(m, root);
    forall i | 0 <= i < ENTRIES ensures Entry(m, f, i) == 0 {
      ZeroEntry(m, f, i);
    }
    m' := Store64(m, root + 8 * a, f + 7);
    LoadStored(m, root + 8 * a, f + 7);
    assert EntryWritten(m, m', root, a, f + 7);
    TableLinked(m, m', nodes, Pml4, a, f);
  }

  lemma BootTables(n: nat) returns (m: seq<byte>)
    requires n >= 4 && PAGE * n <= WORD_LIMIT
    ensures |m| == PAGE * n
    ensures var nodes := map[Pml4 := PAGE, Pdpt(256) := 2 * PAGE, Pdpt(511) := 3 * PAGE];
      TreeOk(m, nodes) && forall p :: ValidPage(p) ==> Mapping(m, nodes, p) == 0
  {
    var m0 := Zeros(PAGE * n);
    BareRoot(m0, PAGE);
    var m1 := SlotFilled(m0, map[Pml4 := PAGE], 256, 2 * PAGE);
    m := SlotFilled(m1, map[Pml4 := PAGE, Pdpt(256) := 2 * PAGE], 511, 3 * PAGE);
  }

  /** The kernel's page map with two empty shared slots stands for flat maps that map nothing. */
  lemma BootWorld(n: nat) returns (w: World, f: Flat)
    requires n >= 4 && PAGE * n <= WORD_LIMIT
    ensures Stands(w, f) && |w.spaces| == 1 && |w.used| == n && forall i :: 0 <= i < n ==> (w.used[i] <==> i < 4)
    ensures |f.private| == 1 && forall p :: f.shared(p) == 0 && f.private[0](p) == 0
  {
    hide TreeOk, Placed, Mapping, Interior;
    var m := BootTables(n);
    var own, shared := map[Pml4 := PAGE], map[Pdpt(256) := 2 * PAGE, Pdpt(511) := 3 * PAGE];
    assert own + shared == map[Pml4 := PAGE, Pdpt(256) := 2 * PAGE, Pdpt(511) := 3 * PAGE];
    w := World(seq(n, i => i < 4), m, shared, [Space(own, [], {})], {});
    f := Flat((_: Page) => 0, [(_: Page) => 0]);
    NothingRecorded(PAGE);
  }
}
