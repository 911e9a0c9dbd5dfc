/** The frame allocator on values: which pages are taken, and what a run of allocations and releases leaves. */
module PmmSpec {

  const PAGE: nat := 4096

  /** Pages `p` to `p + n` exist and are free. */
  ghost predicate RunFree(used: seq<bool>, p: nat, n: nat) {
    p + n <= |used| && forall i :: p <= i < p + n ==> !used[i]
  }

  function Mark(used: seq<bool>, p: nat, n: nat, value: bool): (r: seq<bool>)
    requires p + n <= |used|
    ensures |r| == |used|
    ensures forall i :: 0 <= i < |used| ==> r[i] == if p <= i < p + n then value else used[i]
  {
    seq(|used|, i requires 0 <= i < |used| => if p <= i < p + n then value else used[i])
  }

  /** The lowest free run of `n` pages, searched from page `p` on. */
  ghost predicate LowestRun(used: seq<bool>, p: nat, n: nat) {
    RunFree(used, p, n) && forall q :: 0 <= q < p ==> !RunFree(used, q, n)
  }

  lemma LowestIsFree(used: seq<bool>, p: nat, n: nat)
    requires LowestRun(used, p, n)
    ensures RunFree(used, p, n)
  {
  }

  function FreeCount(used: seq<bool>): nat {
    if used == [] then 0 else (if used[|used| - 1] then 0 else 1) + FreeCount(used[..|used| - 1])
  }

  lemma {:induction false} FreeCountOne(used: seq<bool>, i: nat, value: bool)
    requires i < |used| && used[i] != value
    ensures FreeCount(used[i := value]) == FreeCount(used) + (if value then -1 else 1)
    decreases |used|
  {
    var last := |used| - 1;
    if i < last {
      FreeCountOne(used[..last], i, value);
      assert used[i := value][..last] == used[..last][i := value];
    } else {
      assert used[i := value][..last] == used[..last];
    }
  }

  lemma {:induction false} FreeCountSplit(used: seq<bool>, e: nat)
    requires e <= |used|
    ensures FreeCount(used) == FreeCount(used[..e]) + FreeCount(used[e..])
    decreases |used|
  {
    var last := |used| - 1;
    if e == |used| {
      assert used[..e] == used && used[e..] == [];
    } else {
      FreeCountSplit(used[..last], e);
      assert used[..last][..e] == used[..e] && used[..last][e..] == used[e..][..|used| - e - 1];
      assert used[e..][|used| - e - 1] == used[last];
    }
  }

  lemma {:induction false} FreeCountLess(used: seq<bool>, used': seq<bool>)
    requires |used'| == |used| && forall i :: 0 <= i < |used| && used[i] ==> used'[i]
    ensures FreeCount(used') <= FreeCount(used)
    decreases |used|
  {
    if used != [] {
      FreeCountLess(used[..|used| - 1], used'[..|used| - 1]);
    }
  }

  lemma {:induction false} FreeCountNone(used: seq<bool>)
    requires forall i :: 0 <= i < |used| ==> used[i]
    ensures FreeCount(used) == 0
    decreases |used|
  {
    if used != [] {
      FreeCountNone(used[..|used| - 1]);
    }
  }

  /** Marking a run of pages that all had the other value moves exactly that many. */
  lemma {:induction false} FreeCountRun(used: seq<bool>, p: nat, n: nat, value: bool)
    requires p + n <= |used| && forall i :: p <= i < p + n ==> used[i] != value
    ensures FreeCount(Mark(used, p, n, value)) == FreeCount(used) + (if value then 0 - n else n)
    decreases n
  {
    if n == 0 {
      assert Mark(used, p, n, value) == used;
    } else {
      var part := Mark(used, p, n - 1, value);
      FreeCountRun(used, p, n - 1, value);
      FreeCountOne(part, p + n - 1, value);
      assert Mark(used, p, n, value) == part[p + n - 1 := value];
    }
  }

  lemma {:induction false} SomeFree(used: seq<bool>) returns (p: nat)
    requires FreeCount(used) > 0
    ensures LowestRun(used, p, 1)
    decreases |used|
  {
    var last := |used| - 1;
    if FreeCount(used[..last]) > 0 {
      p := SomeFree(used[..last]);
      forall q | 0 <= q < p ensures !RunFree(used, q, 1) {
        assert !RunFree(used[..last], q, 1);
        assert used[..last][q] == used[q];
      }
    } else {
      p := last;
      forall q | 0 <= q < p ensures !RunFree(used, q, 1) {
        if !used[q] {
          NoneFree(used[..last], q);
        }
      }
    }
  }

  lemma {:induction false} NoneFree(used: seq<bool>, q: nat)
    requires q < |used| && !used[q]
    ensures FreeCount(used) > 0
    decreases |used|
  {
    var last := |used| - 1;
    if q < last {
      NoneFree(used[..last], q);
    }
  }

  // ---------------------------------------------------------------- whole runs

  /** Taken pages, and the runs handed out and not yet returned, by first page. */
  datatype Frames = Frames(used: seq<bool>, runs: map<nat, nat>)

  datatype Op = Alloc(count: nat) | Free(page: nat)

  ghost predicate InRun(runs: map<nat, nat>, i: nat) {
    exists p :: p in runs && p <= i < p + runs[p]
  }

  ghost predicate Inv(f: Frames, reserved: seq<bool>) {
    && |f.used| == |reserved|
    && (forall p :: p in f.runs ==> 1 <= f.runs[p] && p + f.runs[p] <= |f.used|)
    && (forall p, q :: p in f.runs && q in f.runs && p < q ==> p + f.runs[p] <= q)
    && (forall i :: 0 <= i < |reserved| ==> (f.used[i] <==> reserved[i] || InRun(f.runs, i)))
    && (forall i :: 0 <= i < |reserved| && reserved[i] ==> !InRun(f.runs, i))
  }

  /** One matched call: an allocation takes the lowest run or nothing; what is released was handed out. */
  ghost predicate Step(f: Frames, op: Op, f': Frames) {
    match op
    case Alloc(count) =>
      if count >= 1 && exists p :: LowestRun(f.used, p, count) then
        exists p :: LowestRun(f.used, p, count) && f' == Frames(Mark(f.used, p, count, true), f.runs[p := count])
      else f' == f
    case Free(page) =>
      && page in f.runs && page + f.runs[page] <= |f.used|
      && f' == Frames(Mark(f.used, page, f.runs[page], false), f.runs - {page})
  }

  ghost predicate Runs(f: Frames, ops: seq<Op>, f': Frames)
    decreases |ops|
  {
    if ops == [] then f' == f
    else exists g :: Step(f, ops[0], g) && Runs(g, ops[1..], f')
  }

  lemma AllocInv(f: Frames, reserved: seq<bool>, p: nat, n: nat)
    requires Inv(f, reserved) && n >= 1 && RunFree(f.used, p, n)
    ensures Inv(Frames(Mark(f.used, p, n, true), f.runs[p := n]), reserved)
    ensures p !in f.runs && forall q :: q in f.runs ==> q + f.runs[q] <= p || p + n <= q
  {
    var runs' := f.runs[p := n];
    assert forall i :: p <= i < p + n ==> !InRun(f.runs, i);
    forall q | q in f.runs ensures q != p && (q + f.runs[q] <= p || p + n <= q) {
      assert InRun(f.runs, q);
      assert q <= p < q + f.runs[q] ==> InRun(f.runs, p);
    }
    forall i | 0 <= i < |reserved| ensures InRun(runs', i) <==> p <= i < p + n || InRun(f.runs, i) {
      if p <= i < p + n {
        assert p in runs' && p <= i < p + runs'[p];
      }
      if InRun(f.runs, i) {
        var q :| q in f.runs && q <= i < q + f.runs[q];
        assert q in runs' && runs'[q] == f.runs[q];
      }
    }
  }

  lemma FreeInv(f: Frames, reserved: seq<bool>, p: nat)
    requires Inv(f, reserved) && p in f.runs
    ensures Inv(Frames(Mark(f.used, p, f.runs[p], false), f.runs - {p}), reserved)
    ensures forall i :: p <= i < p + f.runs[p] ==> f.used[i]
  {
    hide InRun;
    forall i: nat ensures InRun(f.runs - {p}, i) <==> InRun(f.runs, i) && !(p <= i < p + f.runs[p]) {
      RunWithout(f, reserved, p, i);
    }
    forall i | p <= i < p + f.runs[p] ensures InRun(f.runs, i) {
      RunWithin(f.runs, p, i);
    }
  }

  lemma RunWithin(runs: map<nat, nat>, p: nat, i: nat)
    requires p in runs && p <= i < p + runs[p]
    ensures InRun(runs, i)
  {
  }

  lemma RunWithout(f: Frames, reserved: seq<bool>, p: nat, i: nat)
    requires Inv(f, reserved) && p in f.runs
    ensures InRun(f.runs - {p}, i) <==> InRun(f.runs, i) && !(p <= i < p + f.runs[p])
  {
    if InRun(f.runs, i) && !(p <= i < p + f.runs[p]) {
      var q :| q in f.runs && q <= i < q + f.runs[q];
      assert q in f.runs - {p};
    }
  }

  /** How many pages one step takes away from the free ones. */
  ghost function Taken(f: Frames, op: Op): int {
    match op
    case Alloc(count) => if count >= 1 && exists p :: LowestRun(f.used, p, count) then count else 0
    case Free(page) => if page in f.runs then var n: int := f.runs[page]; -n else 0
  }

  lemma StepInv(f: Frames, reserved: seq<bool>, op: Op, f': Frames)
    requires Inv(f, reserved) && Step(f, op, f')
    ensures Inv(f', reserved) && FreeCount(f'.used) + Taken(f, op) == FreeCount(f.used)
  {
    match op
    case Alloc(count) =>
      if count >= 1 && exists p :: LowestRun(f.used, p, count) {
        var p :| LowestRun(f.used, p, count) && f' == Frames(Mark(f.used, p, count, true), f.runs[p := count]);
        AllocInv(f, reserved, p, count);
        FreeCountRun(f.used, p, count, true);
      }
    case Free(page) =>
      FreeInv(f, reserved, page);
      FreeCountRun(f.used, page, f.runs[page], false);
  }

  ghost function Outstanding(runs: map<nat, nat>): nat
    decreases |runs|
  {
    if runs == map[] then 0
    else
      var p := Least(runs.Keys);
      runs[p] + Outstanding(runs - {p})
  }

  /** The least element, so that the sum above has one order. */
  ghost function Least(s: set<nat>): (m: nat)
    requires s != {}
    ensures m in s && forall x :: x in s ==> m <= x
  {
    LeastExists(s);
    var m :| m in s && forall x :: x in s ==> m <= x;
    m
  }

  lemma LeastExists(s: set<nat>)
    requires s != {}
    ensures exists m :: m in s && forall x :: x in s ==> m <= x
  {
    var m := LeastOf(s);
  }

  lemma {:induction false} LeastOf(s: set<nat>) returns (m: nat)
    requires s != {}
    ensures m in s && forall x :: x in s ==> m <= x
    decreases |s|
  {
    m :| m in s;
    var rest := s - {m};
    assert forall x :: x in s ==> x == m || x in rest;
    if rest != {} {
      var b := LeastOf(rest);
      if b < m {
        m := b;
      }
    }
  }

  lemma {:induction false} OutstandingWithout(runs: map<nat, nat>, p: nat)
    requires p in runs
    ensures Outstanding(runs) == runs[p] + Outstanding(runs - {p})
    decreases |runs|
  {
    var m := Least(runs.Keys);
    if m != p {
      assert p in runs - {m};
      OutstandingWithout(runs - {m}, p);
      OutstandingWithoutLeast(runs, m, p);
    }
  }

  lemma OutstandingWithoutLeast(runs: map<nat, nat>, m: nat, p: nat)
    requires p in runs && m in runs && m != p && m == Least(runs.Keys)
    ensures Outstanding(runs - {p}) == runs[m] + Outstanding(runs - {m} - {p})
  {
    var r := runs - {p};
    assert m in r;
    assert Least(r.Keys) == m;
    assert r - {m} == runs - {m} - {p};
  }

  /**
   Over any run of matched calls: a page is taken exactly when it is reserved or in an outstanding run, outstanding
   runs are disjoint, and the free pages and those handed out add up to a constant.
   */
  lemma {:induction false} RunInv(f: Frames, reserved: seq<bool>, ops: seq<Op>, f': Frames)
    requires Inv(f, reserved) && Runs(f, ops, f')
    ensures Inv(f', reserved)
    ensures FreeCount(f'.used) + Outstanding(f'.runs) == FreeCount(f.used) + Outstanding(f.runs)
    decreases |ops|
  {
    if ops != [] {
      var g :| Step(f, ops[0], g) && Runs(g, ops[1..], f');
      StepInv(f, reserved, ops[0], g);
      StepOutstanding(f, reserved, ops[0], g);
      RunInv(g, reserved, ops[1..], f');
    }
  }

  lemma StepOutstanding(f: Frames, reserved: seq<bool>, op: Op, f': Frames)
    requires Inv(f, reserved) && Step(f, op, f')
    ensures Outstanding(f'.runs) == Outstanding(f.runs) + Taken(f, op)
  {
    hide Outstanding, InRun;
    match op
    case Alloc(count) =>
      if count >= 1 && exists p :: LowestRun(f.used, p, count) {
        var p :| LowestRun(f.used, p, count) && f' == Frames(Mark(f.used, p, count, true), f.runs[p := count]);
        LowestIsFree(f.used, p, count);
        AllocInv(f, reserved, p, count);
        OutstandingWithout(f'.runs, p);
        assert f'.runs - {p} == f.runs;
      }
    case Free(page) =>
      OutstandingWithout(f.runs, page);
  }
}
