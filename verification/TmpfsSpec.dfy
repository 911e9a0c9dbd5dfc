/**
 Path resolution and creation in tmpfs, on the values of its nodes. The reference is a directory index: a map from
 (directory, name) to entry, under which a path is resolved one component at a time.
 */
module TmpfsSpec {
  import opened SiblingTree
  import opened Wrappers

  datatype FileType = File | Directory | Symlink | Device

  /** What a node stands for: `frame` is where a file's contents are. */
  datatype Entry = Entry(kind: FileType, size: nat, frame: Option<nat>)

  type Tree = seq<TreeNode<Entry>>

  /** How a walk ends: at the node the path names, or short of it with the part of the path that found no entry. */
  datatype Outcome = Exact(node: int) | Short(node: int, rest: string)

  // ---------------------------------------------------------------- paths

  /** A slash that is not the last character. */
  predicate InnerSlash(path: string, i: int) {
    0 <= i < |path| - 1 && path[i] == '/'
  }

  /** How many inner slashes there are before position `n`. */
  function InnerSlashes(path: string, n: nat): nat
    requires n <= |path|
  {
    if n == 0 then 0 else InnerSlashes(path, n - 1) + if InnerSlash(path, n - 1) then 1 else 0
  }

  /** Where the last name of the path starts, as far as the slashes before `n` tell. */
  function NameStart(path: string, n: nat): (k: nat)
    requires n <= |path|
    ensures k <= n && (k > 0 ==> InnerSlash(path, k - 1))
    ensures forall i :: k <= i < n ==> !InnerSlash(path, i)
  {
    if n == 0 then 0 else if InnerSlash(path, n - 1) then n else NameStart(path, n - 1)
  }

  function LastName(path: string): string {
    path[NameStart(path, |path|)..]
  }

  predicate SlashFree(s: string) {
    forall i :: 0 <= i < |s| ==> s[i] != '/'
  }

  function First(path: string): (c: string)
    ensures Starts(c, path) && SlashFree(c)
    ensures |c| <= |path| && (c == "" ==> path == "" || path[0] == '/')
  {
    if path == "" || path[0] == '/' then "" else [path[0]] + First(path[1..])
  }

  lemma StartsShorter(a: string, b: string, path: string)
    requires Starts(a, path) && Starts(b, path)
    ensures |a| < |b| ==> b[|a|] == '/'
    ensures |a| == |b| ==> a == b
  {
    assert a == path[..|a|] && b == path[..|b|];
  }

  /** The first component is the only slash-free string that starts a path. */
  lemma StartsFirst(name: string, path: string)
    requires SlashFree(name)
    ensures Starts(name, path) <==> name == First(path)
  {
    var c := First(path);
    if Starts(name, path) {
      StartsShorter(name, c, path);
      StartsShorter(c, name, path);
    }
  }

  // ---------------------------------------------------------------- resolution

  /** The walk over children and siblings, from sibling `h` under `p`. */
  ghost function Walk(nodes: Tree, h: int, p: int, path: string): (o: Outcome)
    requires At(nodes, h, p)
    ensures 0 <= o.node < |nodes|
    decreases |nodes| - p, h
  {
    if h < 0 || path == "" then Short(p, path)
    else
      Moves(nodes, h, p);
      if !Starts(nodes[h].name, path) then Walk(nodes, nodes[h].next, p, path)
      else if |path| == |nodes[h].name| then Exact(h)
      else Walk(nodes, nodes[h].children, h, path[|nodes[h].name| + 1..])
  }

  ghost function WalkFrom(nodes: Tree, p: int, path: string): (o: Outcome)
    requires Linked(nodes) && 0 <= p < |nodes|
    ensures 0 <= o.node < |nodes|
  {
    FirstChild(nodes, p);
    Walk(nodes, nodes[p].children, p, path)
  }

  /** The leading `./` and `../` of a relative path, from `p`; -1 where the walk is given up. */
  ghost function Relative(nodes: Tree, p: int, path: string): (r: (int, string))
    requires Linked(nodes) && -1 <= p < |nodes|
    ensures -1 <= r.0 < |nodes|
    decreases |path|
  {
    if p < 0 || path == "" || path[0] != '.' then (p, path)
    else if |path| >= 2 && path[1] == '.' then
      if |path| >= 3 && path[2] == '/' then Relative(nodes, nodes[p].parent, path[3..]) else (-1, path)
    else
      if |path| >= 2 && path[1] == '/' then Relative(nodes, p, path[2..]) else (-1, path)
  }

  predicate Absolute(path: string) {
    path != "" && path[0] == '/'
  }

  /** Where the walk starts and the part of the path it walks. */
  ghost function Origin(nodes: Tree, cur: int, path: string): (r: (int, string))
    requires Linked(nodes) && -1 <= cur < |nodes|
    ensures -1 <= r.0 < |nodes|
  {
    if Absolute(path) then (0, path[1..]) else Relative(nodes, cur, path)
  }

  /** The outcome of a walk as a pointer: falling short is forgiven unless two more slashes follow. */
  function Settle(o: Outcome): int {
    match o
    case Exact(n) => n
    case Short(n, rest) => if InnerSlashes(rest, |rest|) > 1 then -1 else n
  }

  /** The node `path_to_node` returns from working directory `cur`, -1 for null. */
  ghost function Locate(nodes: Tree, cur: int, path: string): (n: int)
    requires Linked(nodes) && -1 <= cur < |nodes|
    ensures -1 <= n < |nodes|
  {
    var (p, rest) := Origin(nodes, cur, path);
    if p < 0 then -1 else Settle(WalkFrom(nodes, p, rest))
  }

  // ---------------------------------------------------------------- the directory index

  type Index = map<(int, string), int>

  /** Names are non-empty and slash-free, and siblings have different ones. */
  ghost predicate WellNamed(nodes: Tree) {
    && (forall i :: 1 <= i < |nodes| ==> nodes[i].name != "" && SlashFree(nodes[i].name))
    && (forall i, j :: 1 <= i < j < |nodes| && nodes[i].parent == nodes[j].parent ==> nodes[i].name != nodes[j].name)
  }

  /** The index of the first `n` nodes. */
  ghost function IndexOf(nodes: Tree, n: nat): Index
    requires n <= |nodes|
  {
    if n <= 1 then map[] else IndexOf(nodes, n - 1)[(nodes[n - 1].parent, nodes[n - 1].name) := n - 1]
  }

  lemma {:induction false} IndexEntries(nodes: Tree, n: nat)
    requires n <= |nodes| && WellNamed(nodes)
    ensures forall i :: 1 <= i < n ==>
      (nodes[i].parent, nodes[i].name) in IndexOf(nodes, n) && IndexOf(nodes, n)[(nodes[i].parent, nodes[i].name)] == i
    ensures forall k :: k in IndexOf(nodes, n) ==>
      1 <= IndexOf(nodes, n)[k] < n && nodes[IndexOf(nodes, n)[k]].parent == k.0 &&
        nodes[IndexOf(nodes, n)[k]].name == k.1
  {
    if n > 1 {
      IndexEntries(nodes, n - 1);
    }
  }

  /** Resolution by the index alone, one component at a time. */
  ghost function Resolve(index: Index, p: int, path: string): Outcome
    decreases |path|
  {
    var c := First(path);
    if path == "" || (p, c) !in index then Short(p, path)
    else if |c| == |path| then Exact(index[(p, c)])
    else Resolve(index, index[(p, c)], path[|c| + 1..])
  }

  lemma IndexedChild(nodes: Tree, p: int, name: string)
    requires WellNamed(nodes) && (p, name) in IndexOf(nodes, |nodes|)
    ensures var n := IndexOf(nodes, |nodes|)[(p, name)];
      1 <= n < |nodes| && nodes[n].parent == p && nodes[n].name == name
  {
    IndexEntries(nodes, |nodes|);
  }

  lemma Indexed(nodes: Tree, n: int)
    requires WellNamed(nodes) && 1 <= n < |nodes|
    ensures var k := (nodes[n].parent, nodes[n].name); k in IndexOf(nodes, |nodes|) && IndexOf(nodes, |nodes|)[k] == n
    ensures SlashFree(nodes[n].name)
  {
    IndexEntries(nodes, |nodes|);
  }

  lemma NotIndexed(nodes: Tree, p: int, name: string)
    requires WellNamed(nodes) && forall j :: 1 <= j < |nodes| && nodes[j].parent == p ==> nodes[j].name != name
    ensures (p, name) !in IndexOf(nodes, |nodes|)
  {
    IndexEntries(nodes, |nodes|);
  }

  /** In a well-named tree the walk is resolution by the index, whatever the order of the siblings. */
  lemma {:induction false} WalkResolves(nodes: Tree, h: int, p: int, path: string)
    requires At(nodes, h, p) && Complete(nodes) && WellNamed(nodes)
    requires forall j :: h < j < |nodes| && 1 <= j && nodes[j].parent == p ==> nodes[j].name != First(path)
    ensures Walk(nodes, h, p, path) == Resolve(IndexOf(nodes, |nodes|), p, path)
    decreases |nodes| - p, h
  {
    hide WellNamed, IndexOf;
    if h < 0 {
      NotIndexed(nodes, p, First(path));
    } else if path != "" {
      Moves(nodes, h, p);
      Indexed(nodes, h);
      StartsFirst(nodes[h].name, path);
      if Starts(nodes[h].name, path) {
        if |nodes[h].name| < |path| {
          WalkResolves(nodes, nodes[h].children, h, path[|nodes[h].name| + 1..]);
        }
      } else {
        WalkResolves(nodes, nodes[h].next, p, path);
      }
    }
  }

  lemma WalkFromResolves(nodes: Tree, p: int, path: string)
    requires Linked(nodes) && Complete(nodes) && WellNamed(nodes) && 0 <= p < |nodes|
    ensures WalkFrom(nodes, p, path) == Resolve(IndexOf(nodes, |nodes|), p, path)
  {
    FirstChild(nodes, p);
    WalkResolves(nodes, nodes[p].children, p, path);
  }

  // ---------------------------------------------------------------- printed paths

  /** A tree between operations, every entry well named. */
  ghost predicate Good(nodes: Tree) {
    Linked(nodes) && Complete(nodes) && WellNamed(nodes) && nodes[0].name == "/" && nodes[0].data.kind == Directory
  }

  function Join(a: string, b: string): string {
    if a == "" then b else a + "/" + b
  }

  /** The names from below `a` down to `n`, with slashes between. */
  ghost function PathBelow(nodes: Tree, a: int, n: int): string
    requires Linked(nodes) && 0 <= n < |nodes| && 0 <= a && Under(nodes, n, a)
    decreases n
  {
    if n == a then "" else Join(PathBelow(nodes, a, nodes[n].parent), nodes[n].name)
  }

  lemma {:induction false} UnderRoot(nodes: Tree, n: int)
    requires Linked(nodes) && 0 <= n < |nodes|
    ensures Under(nodes, n, 0)
    decreases n
  {
    if n > 0 {
      UnderRoot(nodes, nodes[n].parent);
    }
  }

  /** The absolute path of a node. */
  ghost function Printed(nodes: Tree, n: int): (path: string)
    requires Linked(nodes) && 0 <= n < |nodes|
    ensures Absolute(path)
  {
    UnderRoot(nodes, n);
    "/" + PathBelow(nodes, 0, n)
  }

  lemma PathBelowEmpty(nodes: Tree, a: int, n: int)
    requires Linked(nodes) && WellNamed(nodes) && 0 <= n < |nodes| && 0 <= a && Under(nodes, n, a)
    ensures PathBelow(nodes, a, n) == "" <==> n == a
  {
  }

  lemma FirstExtended(s: string, t: string)
    ensures First(s + "/" + t) == First(s)
  {
    StartsFirst(First(s), s + "/" + t);
  }

  /** A resolved path can be extended: the rest is resolved from where it led. */
  lemma {:induction false} ResolveExtend(index: Index, p: int, s: string, t: string)
    requires Resolve(index, p, s).Exact?
    ensures Resolve(index, p, s + "/" + t) == Resolve(index, Resolve(index, p, s).node, t)
    decreases |s|
  {
    FirstExtended(s, t);
    var c := First(s);
    var path := s + "/" + t;
    if |c| == |s| {
      assert path[|c| + 1..] == t;
    } else {
      assert path[|c| + 1..] == s[|c| + 1..] + "/" + t;
      ResolveExtend(index, index[(p, c)], s[|c| + 1..], t);
    }
  }

  lemma ResolveOne(index: Index, p: int, name: string)
    requires name != "" && SlashFree(name) && (p, name) in index
    ensures Resolve(index, p, name) == Exact(index[(p, name)])
  {
    StartsFirst(name, name);
  }

  /** Resolving what is printed: the names below `a` lead back to the node. */
  lemma {:induction false} ResolvePrinted(nodes: Tree, a: int, n: int)
    requires Linked(nodes) && WellNamed(nodes) && 0 <= n < |nodes| && 0 <= a && Under(nodes, n, a)
    ensures Resolve(IndexOf(nodes, |nodes|), a, PathBelow(nodes, a, n)) == if n == a then Short(a, "") else Exact(n)
    decreases n
  {
    if n != a {
      var index, p := IndexOf(nodes, |nodes|), nodes[n].parent;
      IndexEntries(nodes, |nodes|);
      ResolvePrinted(nodes, a, p);
      PathBelowEmpty(nodes, a, p);
      ResolveOne(index, p, nodes[n].name);
      if p != a {
        ResolveExtend(index, a, PathBelow(nodes, a, p), nodes[n].name);
      }
    }
  }

  /** The printed path of a node leads to it from any working directory. */
  lemma LocatePrinted(nodes: Tree, cur: int, n: int)
    requires Good(nodes) && -1 <= cur < |nodes| && 0 <= n < |nodes|
    ensures Locate(nodes, cur, Printed(nodes, n)) == n
  {
    UnderRoot(nodes, n);
    ResolvePrinted(nodes, 0, n);
    assert Printed(nodes, n)[1..] == PathBelow(nodes, 0, n);
    WalkFromResolves(nodes, 0, PathBelow(nodes, 0, n));
  }

  /** The first name of a path below `p` is the child it passes through. */
  lemma {:induction false} PathBelowFront(nodes: Tree, c: int, x: int)
    requires Linked(nodes) && WellNamed(nodes) && 0 <= x < |nodes| && 1 <= c < |nodes| && Under(nodes, x, c)
    ensures Under(nodes, x, nodes[c].parent)
    ensures PathBelow(nodes, nodes[c].parent, x) == if x == c then nodes[c].name
      else nodes[c].name + "/" + PathBelow(nodes, c, x)
    decreases x
  {
    hide WellNamed, LinksOk;
    UnderChild(nodes, x, c);
    UnderAbove(nodes, x, c);
    if x != c {
      PathBelowFront(nodes, c, nodes[x].parent);
      PathBelowEmpty(nodes, c, nodes[x].parent);
      NameNotEmpty(nodes, c);
    }
  }

  lemma NameNotEmpty(nodes: Tree, c: int)
    requires WellNamed(nodes) && 1 <= c < |nodes|
    ensures nodes[c].name != ""
  {
  }

  /** What an outcome says about the path: the names down to the node found, then what is left. */
  ghost predicate Spells(nodes: Tree, p: int, path: string, o: Outcome)
    requires Linked(nodes)
  {
    && 0 <= p <= o.node < |nodes| && Under(nodes, o.node, p)
    && match o
       case Exact(n) => n != p && path == PathBelow(nodes, p, n)
       case Short(n, rest) => path == (if n == p then rest else PathBelow(nodes, p, n) + "/" + rest)
  }

  lemma SpellsThrough(nodes: Tree, c: int, path: string, o: Outcome)
    requires Linked(nodes) && WellNamed(nodes) && 1 <= c < |nodes| && Spells(nodes, c, path, o)
    ensures Spells(nodes, nodes[c].parent, nodes[c].name + "/" + path, o)
  {
    var name, p, n := nodes[c].name, nodes[c].parent, o.node;
    PathBelowFront(nodes, c, n);
    UnderAbove(nodes, n, c);
    if o.Short? && n != c {
      assert PathBelow(nodes, p, n) + "/" + o.rest == name + "/" + (PathBelow(nodes, c, n) + "/" + o.rest);
    }
  }

  /** Printing what is resolved gives back the path. */
  lemma {:induction false} ResolveSpells(nodes: Tree, p: int, path: string)
    requires Linked(nodes) && WellNamed(nodes) && 0 <= p < |nodes|
    ensures Spells(nodes, p, path, Resolve(IndexOf(nodes, |nodes|), p, path))
    decreases |path|
  {
    hide WellNamed, IndexOf;
    var index, c := IndexOf(nodes, |nodes|), First(path);
    if path != "" && (p, c) in index {
      IndexedChild(nodes, p, c);
      var n := index[(p, c)];
      if |c| == |path| {
        PathBelowFront(nodes, n, n);
      } else {
        var rest := path[|c| + 1..];
        ResolveSpells(nodes, n, rest);
        assert path == c + "/" + rest;
        SpellsThrough(nodes, n, rest, Resolve(index, n, rest));
      }
    }
  }

  /** An absolute path is matched to its end exactly if it is the printed path of an entry. */
  lemma ExactIffPrinted(nodes: Tree, path: string, n: int)
    requires Good(nodes) && Absolute(path) && 1 <= n < |nodes|
    ensures WalkFrom(nodes, 0, path[1..]) == Exact(n) <==> path == Printed(nodes, n)
  {
    WalkFromResolves(nodes, 0, path[1..]);
    ResolveSpells(nodes, 0, path[1..]);
    UnderRoot(nodes, n);
    ResolvePrinted(nodes, 0, n);
    assert path == "/" + path[1..];
    assert Printed(nodes, n)[1..] == PathBelow(nodes, 0, n);
  }

  // ---------------------------------------------------------------- relative paths

  ghost function Ancestor(nodes: Tree, c: int, k: nat): (a: int)
    requires Linked(nodes) && -1 <= c < |nodes|
    ensures -1 <= a < |nodes|
  {
    if k == 0 || c < 0 then c else Ancestor(nodes, nodes[c].parent, k - 1)
  }

  /** A step of the leading dots of a relative path. */
  datatype Hop = Here | Up

  function Dots(hops: seq<Hop>): string {
    if hops == [] then "" else (if hops[0].Here? then "./" else "../") + Dots(hops[1..])
  }

  function Ups(hops: seq<Hop>): nat {
    if hops == [] then 0 else (if hops[0].Up? then 1 else 0) + Ups(hops[1..])
  }

  lemma RelativeNowhere(nodes: Tree, path: string)
    requires Linked(nodes)
    ensures Relative(nodes, -1, path) == (-1, path)
  {
  }

  lemma ParentThere(nodes: Tree, c: int)
    requires Linked(nodes) && 0 <= c < |nodes|
    ensures -1 <= nodes[c].parent < |nodes|
  {
    assert LinksOk(nodes, c);
  }

  /** One hop. */
  lemma RelativeHop(nodes: Tree, c: int, path: string)
    requires Linked(nodes) && 0 <= c < |nodes|
    ensures Relative(nodes, c, "./" + path) == Relative(nodes, c, path)
    ensures Relative(nodes, c, "../" + path) == Relative(nodes, nodes[c].parent, path)
  {
    assert ("./" + path)[2..] == path && ("../" + path)[3..] == path;
  }

  lemma {:induction false} RelativeDots(nodes: Tree, c: int, hops: seq<Hop>, path: string)
    requires Linked(nodes) && -1 <= c < |nodes|
    ensures var a := Ancestor(nodes, c, Ups(hops));
      if a >= 0 then Relative(nodes, c, Dots(hops) + path) == Relative(nodes, a, path)
      else Relative(nodes, c, Dots(hops) + path).0 == -1
  {
    hide Relative, LinksOk;
    if c < 0 {
      RelativeNowhere(nodes, Dots(hops) + path);
    } else if hops == [] {
      assert Dots(hops) + path == path;
    } else {
      var rest := Dots(hops[1..]) + path;
      assert Dots(hops) + path == (if hops[0].Here? then "./" else "../") + rest;
      RelativeHop(nodes, c, rest);
      ParentThere(nodes, c);
      RelativeDots(nodes, if hops[0].Here? then c else nodes[c].parent, hops[1..], path);
    }
  }

  lemma DotsNotAbsolute(hops: seq<Hop>, path: string)
    requires !Absolute(path)
    ensures !Absolute(Dots(hops) + path)
  {
    if hops == [] {
      assert Dots(hops) + path == path;
    }
  }

  /**
   Leading `./` and `../`, in any number and order: `./` changes nothing, each `../` goes to the parent, and from the
   root to nowhere.
   */
  lemma LocateDots(nodes: Tree, c: int, hops: seq<Hop>, path: string)
    requires Linked(nodes) && -1 <= c < |nodes| && !Absolute(path)
    ensures Locate(nodes, c, Dots(hops) + path) == Locate(nodes, Ancestor(nodes, c, Ups(hops)), path)
  {
    hide WalkFrom, LinksOk;
    RelativeDots(nodes, c, hops, path);
    DotsNotAbsolute(hops, path);
  }

  /** From a directory, `./` stays in it and `../` goes to its parent; no directory and other dots find nothing. */
  lemma LocateDot(nodes: Tree, c: int, path: string)
    requires Linked(nodes) && -1 <= c < |nodes| && !Absolute(path)
    ensures Locate(nodes, c, "./" + path) == Locate(nodes, c, path)
    ensures c >= 0 ==> Locate(nodes, c, "../" + path) == Locate(nodes, nodes[c].parent, path)
    ensures Locate(nodes, 0, "../" + path) == -1 == Locate(nodes, -1, path)
    ensures path != "" && path[0] == '.' && !("./" <= path) && !("../" <= path) ==> Locate(nodes, c, path) == -1
  {
    hide WalkFrom;
    RelativeNowhere(nodes, path);
    RelativeHop(nodes, 0, path);
    if c >= 0 {
      RelativeHop(nodes, c, path);
    }
    assert |path| >= 2 && path[0] == '.' && path[1] == '/' ==> "./" <= path;
    assert |path| >= 3 && path[0] == '.' && path[1] == '.' && path[2] == '/' ==> "../" <= path;
  }

  function Slashes(path: string): nat {
    if path == "" then 0 else (if path[0] == '/' then 1 else 0) + Slashes(path[1..])
  }

  lemma {:induction false} SlashesSplit(a: string, b: string)
    ensures Slashes(a + b) == Slashes(a) + Slashes(b)
  {
    if a == "" {
      assert a + b == b;
    } else {
      assert (a + b)[1..] == a[1..] + b;
      SlashesSplit(a[1..], b);
    }
  }

  lemma {:induction false} SlashFreeCount(s: string)
    requires SlashFree(s)
    ensures Slashes(s) == 0
  {
    if s != "" {
      SlashFreeCount(s[1..]);
    }
  }

  /** Dropping the first `k` characters, the last of them a slash, drops a slash. */
  lemma SlashesDrop(path: string, k: nat)
    requires 0 < k <= |path| && path[k - 1] == '/'
    ensures Slashes(path[k..]) < Slashes(path)
  {
    assert path == path[..k - 1] + path[k - 1..];
    SlashesSplit(path[..k - 1], path[k - 1..]);
    assert path[k - 1..][1..] == path[k..];
  }

  ghost function Depth(nodes: Tree, n: int): nat
    requires Linked(nodes) && 0 <= n < |nodes|
    decreases n
  {
    if n == 0 then 0 else 1 + Depth(nodes, nodes[n].parent)
  }

  /** A walk goes down by at most one level for each slash, and one more. */
  lemma {:induction false} WalkDepth(nodes: Tree, h: int, p: int, path: string)
    requires At(nodes, h, p)
    ensures Depth(nodes, Walk(nodes, h, p, path).node) <= Depth(nodes, p) + Slashes(path) + 1
    decreases |nodes| - p, h
  {
    if h >= 0 && path != "" {
      Moves(nodes, h, p);
      var k := |nodes[h].name|;
      if !Starts(nodes[h].name, path) {
        WalkDepth(nodes, nodes[h].next, p, path);
      } else if k < |path| {
        SlashesDrop(path, k + 1);
        WalkDepth(nodes, nodes[h].children, h, path[k + 1..]);
      }
    }
  }

  lemma {:induction false} RelativeDepth(nodes: Tree, p: int, path: string)
    requires Linked(nodes) && 0 <= p < |nodes|
    ensures var (q, rest) := Relative(nodes, p, path);
      q >= 0 ==>
        Depth(nodes, q) + Slashes(rest) + (if path != "" && path[0] == '.' then 1 else 0)
          <= Depth(nodes, p) + Slashes(path)
    decreases |path|
  {
    if path != "" && path[0] == '.' && Relative(nodes, p, path).0 >= 0 {
      if path[1] == '.' {
        SlashesDrop(path, 3);
        assert Relative(nodes, p, path) == Relative(nodes, nodes[p].parent, path[3..]);
        RelativeDepth(nodes, nodes[p].parent, path[3..]);
      } else {
        SlashesDrop(path, 2);
        RelativeDepth(nodes, p, path[2..]);
      }
    }
  }

  lemma {:induction false} PrintedDepth(nodes: Tree, a: int, n: int)
    requires Linked(nodes) && WellNamed(nodes) && 0 <= n < |nodes| && 0 <= a && Under(nodes, n, a) && n != a
    ensures Depth(nodes, n) == Depth(nodes, a) + Slashes(PathBelow(nodes, a, n)) + 1
    decreases n
  {
    var p, name := nodes[n].parent, nodes[n].name;
    SlashFreeCount(name);
    PathBelowEmpty(nodes, a, p);
    if p != a {
      PrintedDepth(nodes, a, p);
      SlashesSplit(PathBelow(nodes, a, p) + "/", name);
      SlashesSplit(PathBelow(nodes, a, p), "/");
      assert Slashes("/") == 1 + Slashes("/"[1..]) == 1;
    }
  }

  lemma PrintedNotAbsolute(nodes: Tree, a: int, n: int)
    requires Linked(nodes) && WellNamed(nodes) && 0 <= n < |nodes| && 0 <= a && Under(nodes, n, a)
    ensures !Absolute(PathBelow(nodes, a, n))
  {
    if n != a {
      PathBelowEmpty(nodes, a, nodes[n].parent);
      if nodes[n].parent != a {
        PrintedNotAbsolute(nodes, a, nodes[n].parent);
      }
    }
  }

  /**
   Dots up to a directory and names down to a node: the path leads there exactly if the way down does not begin with a
   dot.
   */
  lemma LocateRelative(nodes: Tree, c: int, hops: seq<Hop>, n: int)
    requires Good(nodes) && 0 <= c < |nodes| && 0 <= n < |nodes|
    requires var a := Ancestor(nodes, c, Ups(hops)); a >= 0 && Under(nodes, n, a)
    ensures var down := PathBelow(nodes, Ancestor(nodes, c, Ups(hops)), n);
      Locate(nodes, c, Dots(hops) + down) == n <==> down == "" || down[0] != '.'
  {
    var a := Ancestor(nodes, c, Ups(hops));
    var down := PathBelow(nodes, a, n);
    PrintedNotAbsolute(nodes, a, n);
    LocateDots(nodes, c, hops, down);
    if down == "" || down[0] != '.' {
      ResolvePrinted(nodes, a, n);
      WalkFromResolves(nodes, a, down);
    } else {
      PathBelowEmpty(nodes, a, n);
      TooShallow(nodes, a, n);
    }
  }

  lemma TooShallow(nodes: Tree, a: int, n: int)
    requires Good(nodes) && 0 <= n < |nodes| && 0 <= a && Under(nodes, n, a) && n != a
    requires var down := PathBelow(nodes, a, n); down != "" && down[0] == '.'
    ensures var (q, rest) := Relative(nodes, a, PathBelow(nodes, a, n)); q < 0 || WalkFrom(nodes, q, rest).node != n
  {
    UnderAbove(nodes, n, a);
    var down := PathBelow(nodes, a, n);
    var (q, rest) := Relative(nodes, a, down);
    if q >= 0 {
      FirstChild(nodes, q);
      WalkDepth(nodes, nodes[q].children, q, rest);
      RelativeDepth(nodes, a, down);
      PrintedDepth(nodes, a, n);
    }
  }

  // ---------------------------------------------------------------- how much may be missing

  lemma {:induction false} InnerSlashesGrow(path: string, i: nat, n: nat)
    requires i <= n <= |path|
    ensures InnerSlashes(path, i) <= InnerSlashes(path, n)
  {
    if i < n {
      InnerSlashesGrow(path, i, n - 1);
    }
  }

  /** Where three names are missing, whatever they are, the walk is given up. */
  lemma ThreeMissing(nodes: Tree, cur: int, path: string, a: string, b: string, c: string)
    requires Linked(nodes) && -1 <= cur < |nodes| && Origin(nodes, cur, path).0 >= 0 && c != ""
    requires WalkFrom(nodes, Origin(nodes, cur, path).0, Origin(nodes, cur, path).1).Short?
    requires WalkFrom(nodes, Origin(nodes, cur, path).0, Origin(nodes, cur, path).1).rest == a + "/" + b + "/" + c
    ensures Locate(nodes, cur, path) == -1
  {
    hide WalkFrom, Origin;
    var rest := a + "/" + b + "/" + c;
    var i, j := |a|, |a| + 1 + |b|;
    assert InnerSlash(rest, i) && InnerSlash(rest, j);
    InnerSlashesGrow(rest, i + 1, j);
    InnerSlashesGrow(rest, j + 1, |rest|);
  }

  // ---------------------------------------------------------------- creation

  lemma {:induction false} IndexInserted(nodes: Tree, x: nat, name: string, data: Entry, n: nat)
    requires x < |nodes| && n <= |nodes|
    ensures IndexOf(Insert(nodes, x, name, data), n) == IndexOf(nodes, n)
  {
    if n > 1 {
      IndexInserted(nodes, x, name, data, n - 1);
    }
  }

  /** How one more entry changes an outcome: only walks that missed exactly this entry go on. */
  function Grown(o: Outcome, x: int, name: string, node: int): Outcome {
    if o.Short? && o.node == x && o.rest != "" && First(o.rest) == name then
      if o.rest == name then Exact(node) else Short(node, o.rest[|name| + 1..])
    else o
  }

  lemma {:induction false} ResolveGrown(index: Index, x: int, name: string, node: int, p: int, path: string)
    requires (x, name) !in index && p != node && x != node
    requires forall k :: k in index ==> k.0 != node && index[k] != node
    ensures Resolve(index[(x, name) := node], p, path) == Grown(Resolve(index, p, path), x, name, node)
    decreases |path|
  {
    var c := First(path);
    if path != "" && (p, c) in index && |c| < |path| {
      ResolveGrown(index, x, name, node, index[(p, c)], path[|c| + 1..]);
    }
  }

  ghost predicate NoEntry(nodes: Tree, x: int, name: string) {
    forall i :: 1 <= i < |nodes| && nodes[i].parent == x ==> nodes[i].name != name
  }

  /** A plain name that the directory does not hold yet. */
  ghost predicate NewName(nodes: Tree, x: int, name: string) {
    name != "" && SlashFree(name) && NoEntry(nodes, x, name)
  }

  lemma InsertGood(nodes: Tree, x: nat, name: string, data: Entry)
    requires Good(nodes) && x < |nodes| && NewName(nodes, x, name)
    ensures Good(Insert(nodes, x, name, data))
  {
    InsertLinked(nodes, x, name, data);
    InsertComplete(nodes, x, name, data);
    InsertNamed(nodes, x, name, data);
  }

  lemma InsertNamed(nodes: Tree, x: nat, name: string, data: Entry)
    requires WellNamed(nodes) && x < |nodes| && NewName(nodes, x, name)
    ensures WellNamed(Insert(nodes, x, name, data))
  {
    var nodes' := Insert(nodes, x, name, data);
    assert forall i :: 0 <= i < |nodes| ==> nodes'[i].name == nodes[i].name && nodes'[i].parent == nodes[i].parent;
  }

  /** Adding an entry under a new name: every walk ends as before, unless what it missed was this entry. */
  lemma InsertWalks(nodes: Tree, x: nat, name: string, data: Entry, p: int, path: string)
    requires Good(nodes) && x < |nodes| && NewName(nodes, x, name) && 0 <= p < |nodes|
    ensures Good(Insert(nodes, x, name, data))
    ensures WalkFrom(Insert(nodes, x, name, data), p, path) == Grown(WalkFrom(nodes, p, path), x, name, |nodes|)
  {
    hide WellNamed, Complete, LinksOk, WalkFrom, Resolve, Grown, NewName, IndexOf;
    var nodes', k := Insert(nodes, x, name, data), |nodes|;
    InsertGood(nodes, x, name, data);
    WalkFromResolves(nodes, p, path);
    WalkFromResolves(nodes', p, path);
    IndexOneMore(nodes, x, name, data);
    IndexFresh(nodes, x, name);
    ResolveGrown(IndexOf(nodes, k), x, name, k, p, path);
  }

  lemma IndexOneMore(nodes: Tree, x: nat, name: string, data: Entry)
    requires x < |nodes|
    ensures IndexOf(Insert(nodes, x, name, data), |nodes| + 1) == IndexOf(nodes, |nodes|)[(x, name) := |nodes|]
  {
    IndexInserted(nodes, x, name, data, |nodes|);
  }

  lemma IndexFresh(nodes: Tree, x: nat, name: string)
    requires Good(nodes) && NewName(nodes, x, name)
    ensures (x, name) !in IndexOf(nodes, |nodes|)
    ensures forall k :: k in IndexOf(nodes, |nodes|) ==> k.0 != |nodes| && IndexOf(nodes, |nodes|)[k] != |nodes|
  {
    IndexEntries(nodes, |nodes|);
  }
}
