/**
 The mount tree of the virtual file system: nodes hold fragments of mount targets, siblings are listed newest first.
 Nodes are numbered in the order they were mounted, node 0 is the root, and -1 is the null pointer.
 */
module MountTree {
  import opened SiblingTree

  datatype FileSystem = FileSystem(id: nat, name: string)

  type MountNode = TreeNode<FileSystem>

  /** `a` followed by a slash is a prefix of `b`. */
  predicate Leads(a: string, b: string) {
    a <= b && |a| < |b| && b[|a|] == '/'
  }

  lemma LeadsWithSlash(a: string, b: string)
    ensures Leads(a, b) <==> a + "/" <= b
  {
    assert a <= b && |a| < |b| && b[|a|] == '/' ==> b[..|a| + 1] == a + "/";
    assert a + "/" <= b ==> b[..|a| + 1] == a + "/";
  }

  // ---------------------------------------------------------------- the shape of the tree

  /** No sibling leads into a newer one, except into an empty fragment. */
  ghost predicate Ordered(nodes: seq<MountNode>) {
    forall i, j :: 1 <= j < i < |nodes| && nodes[i].parent == nodes[j].parent ==>
      Starts(nodes[j].name, nodes[i].name) ==> nodes[i].name == ""
  }

  ghost predicate TreeOk(nodes: seq<MountNode>) {
    Linked(nodes) && Complete(nodes) && Ordered(nodes)
  }

  /** The walk of a lookup, from sibling `h` under `p`: where it ends and what is left of the path. */
  ghost function Lookup(nodes: seq<MountNode>, h: int, p: int, path: string): (r: (int, string))
    requires At(nodes, h, p)
    ensures 0 <= r.0 < |nodes|
    decreases |nodes| - p, h
  {
    if h < 0 then (p, path)
    else
      Moves(nodes, h, p);
      if Leads(nodes[h].name, path) then Lookup(nodes, nodes[h].children, h, path[|nodes[h].name|..])
      else Lookup(nodes, nodes[h].next, p, path)
  }

  /** The walk of a mount: the parent of the new node and the fragment it is given. */
  ghost function Place(nodes: seq<MountNode>, h: int, p: int, target: string): (r: (int, string))
    requires At(nodes, h, p)
    ensures p <= r.0 < |nodes|
    decreases |nodes| - p, h
  {
    if h < 0 || target == "" then (p, target)
    else
      Moves(nodes, h, p);
      if Starts(nodes[h].name, target) then Place(nodes, nodes[h].children, h, target[|nodes[h].name|..])
      else Place(nodes, nodes[h].next, p, target)
  }

  ghost function LookupRoot(nodes: seq<MountNode>, path: string): (int, string)
    requires Linked(nodes)
  {
    FirstChild(nodes, 0);
    Lookup(nodes, nodes[0].children, 0, path)
  }

  ghost function PlaceRoot(nodes: seq<MountNode>, target: string): (r: (int, string))
    requires Linked(nodes)
    ensures 0 <= r.0 < |nodes|
  {
    FirstChild(nodes, 0);
    Place(nodes, nodes[0].children, 0, target)
  }

  lemma {:induction false} PlaceUnder(nodes: seq<MountNode>, h: int, p: int, t: string)
    requires At(nodes, h, p)
    ensures Under(nodes, Place(nodes, h, p, t).0, p)
    decreases |nodes| - p, h
  {
    if h >= 0 && t != "" {
      Moves(nodes, h, p);
      if Starts(nodes[h].name, t) {
        PlaceUnder(nodes, nodes[h].children, h, t[|nodes[h].name|..]);
        UnderChild(nodes, Place(nodes, nodes[h].children, h, t[|nodes[h].name|..]).0, h);
      } else {
        PlaceUnder(nodes, nodes[h].next, p, t);
      }
    }
  }

  // ---------------------------------------------------------------- what an insertion does to lookups

  /** Where the parent of the new node is not in sight, lookups do not change. */
  lemma {:induction false} Unaffected(nodes: seq<MountNode>, x: nat, name: string, fs: FileSystem, h: int, q: int,
                                      path: string)
    requires x < |nodes| && At(nodes, h, q) && At(Insert(nodes, x, name, fs), h, q)
    requires forall s :: 0 <= s <= h && nodes[s].parent == q ==> !Under(nodes, x, s)
    ensures Lookup(Insert(nodes, x, name, fs), h, q, path) == Lookup(nodes, h, q, path)
    decreases |nodes| - q, h
  {
    var nodes' := Insert(nodes, x, name, fs);
    if h >= 0 {
      Moves(nodes, h, q);
      Moves(nodes', h, q);
      assert !Under(nodes, x, h);
      assert nodes'[h] == nodes[h];
      if Leads(nodes[h].name, path) {
        ChildrenUnaffected(nodes, x, h);
        Unaffected(nodes, x, name, fs, nodes[h].children, h, path[|nodes[h].name|..]);
      } else {
        Unaffected(nodes, x, name, fs, nodes[h].next, q, path);
      }
    }
  }

  /** A walk that stays at `p` has used up nothing of the target. */
  lemma {:induction false} PlaceStays(nodes: seq<MountNode>, h: int, p: int, t: string)
    requires At(nodes, h, p) && Place(nodes, h, p, t).0 == p
    ensures Place(nodes, h, p, t).1 == t
    decreases h
  {
    if h >= 0 && t != "" {
      Moves(nodes, h, p);
      PlaceStays(nodes, nodes[h].next, p, t);
    }
  }

  /** A walk that leaves `p` does so at a sibling that starts the target. */
  lemma {:induction false} LeavesAt(nodes: seq<MountNode>, h: int, p: int, t: string) returns (c: int)
    requires At(nodes, h, p) && Place(nodes, h, p, t).0 != p
    ensures 1 <= c <= h && nodes[c].parent == p && Starts(nodes[c].name, t) && t != ""
    ensures At(nodes, nodes[c].children, c)
    ensures Place(nodes, h, p, t) == Place(nodes, nodes[c].children, c, t[|nodes[c].name|..])
    ensures Starts(nodes[h].name, t) ==> c == h
    decreases h
  {
    Moves(nodes, h, p);
    if Starts(nodes[h].name, t) {
      c := h;
    } else {
      c := LeavesAt(nodes, nodes[h].next, p, t);
    }
  }

  lemma LeadsThrough(a: string, t: string, path: string)
    requires Starts(a, t)
    ensures Leads(t, path) ==> Leads(a, path)
    ensures Leads(a, path) ==> (Leads(t, path) <==> Leads(t[|a|..], path[|a|..]))
    ensures Leads(a, path) && Leads(t, path) ==> path[|a|..][|t[|a|..]|..] == path[|t|..]
  {
    if Leads(a, path) && Leads(t[|a|..], path[|a|..]) {
      assert t == a + t[|a|..] && path == a + path[|a|..];
      assert path[|t|] == path[|a|..][|t| - |a|];
    }
    if Leads(a, path) && Leads(t, path) {
      assert path[|a|..][..|t| - |a|] == path[..|t|][|a|..] == t[|a|..];
    }
  }

  /** Two strings that lead into the same path: the shorter starts the longer. */
  lemma LeadsCompare(a: string, b: string, path: string)
    requires Leads(a, path) && Leads(b, path) && |a| <= |b|
    ensures Starts(a, b)
  {
    assert a == path[..|a|] && b == path[..|b|];
  }

  lemma StartsTrans(a: string, b: string, c: string)
    requires Starts(a, b) && Starts(b, c)
    ensures Starts(a, c)
  {
    if |a| < |b| {
      assert c[|a|] == b[|a|];
    }
  }

  /** The new node `n` is what the lookup finds if the target leads into the path; otherwise nothing has changed. */
  ghost predicate Found(nodes: seq<MountNode>, nodes': seq<MountNode>, h: int, h': int, p: int, t: string, path: string)
    requires At(nodes, h, p) && At(nodes', h', p)
  {
    Lookup(nodes', h', p, path) == if Leads(t, path) then (|nodes|, path[|t|..]) else Lookup(nodes, h, p, path)
  }

  lemma {:induction false} InsertedHere(nodes: seq<MountNode>, p: int, t: string, fs: FileSystem, path: string)
    requires Linked(nodes) && 0 <= p < |nodes| && Linked(Insert(nodes, p, t, fs))
    ensures At(nodes, nodes[p].children, p) && At(Insert(nodes, p, t, fs), |nodes|, p)
    ensures Found(nodes, Insert(nodes, p, t, fs), nodes[p].children, |nodes|, p, t, path)
  {
    var nodes' := Insert(nodes, p, t, fs);
    var k := |nodes|;
    FirstChild(nodes, p);
    Moves(nodes', k, p);
    if !Leads(t, path) {
      forall s | 0 <= s <= nodes[p].children && nodes[s].parent == p ensures !Under(nodes, p, s) {
        assert s > p;
      }
      Unaffected(nodes, p, t, fs, nodes[p].children, p, path);
    }
  }

  lemma {:induction false} InsertedBelow(nodes: seq<MountNode>, h: int, p: int, t: string, fs: FileSystem, path: string)
    requires TreeOk(nodes) && At(nodes, h, p) && Place(nodes, h, p, t).0 != p
    ensures var (x, rest) := Place(nodes, h, p, t);
      At(Insert(nodes, x, rest, fs), h, p) && Found(nodes, Insert(nodes, x, rest, fs), h, h, p, t, path)
    decreases |nodes| - p, h
  {
    var (x, rest) := Place(nodes, h, p, t);
    var nodes' := Insert(nodes, x, rest, fs);
    InsertLinked(nodes, x, rest, fs);
    var c := LeavesAt(nodes, h, p, t);
    PlaceUnder(nodes, nodes[c].children, c, t[|nodes[c].name|..]);
    Moves(nodes, h, p);
    Moves(nodes', h, p);
    if h == c {
      LeadsThrough(nodes[c].name, t, path);
      if Leads(nodes[c].name, path) {
        Inserted(nodes, c, t[|nodes[c].name|..], fs, path[|nodes[c].name|..]);
      } else {
        SiblingsUnaffected(nodes, x, c, nodes[c].next, p);
        Unaffected(nodes, x, rest, fs, nodes[c].next, p, path);
      }
    } else {
      NotUnderSibling(nodes, x, c, h);
      assert nodes'[h] == nodes[h];
      if Leads(nodes[h].name, path) {
        ShorterFirst(nodes, h, c, t, path);
        ChildrenUnaffected(nodes, x, h);
        Unaffected(nodes, x, rest, fs, nodes[h].children, h, path[|nodes[h].name|..]);
      } else {
        InsertedBelow(nodes, nodes[h].next, p, t, fs, path);
      }
    }
  }

  lemma NotUnderSibling(nodes: seq<MountNode>, x: int, c: int, s: int)
    requires Linked(nodes) && 0 <= x < |nodes| && 1 <= c < |nodes| && 1 <= s < |nodes|
    requires nodes[c].parent == nodes[s].parent && c != s
    requires Under(nodes, x, c)
    ensures !Under(nodes, x, s)
  {
    if Under(nodes, x, s) {
      UnderOne(nodes, x, c, s);
    }
  }

  lemma SiblingsUnaffected(nodes: seq<MountNode>, x: int, c: int, h: int, p: int)
    requires Linked(nodes) && 0 <= x < |nodes| && 1 <= c < |nodes| && nodes[c].parent == p && Under(nodes, x, c)
    requires h < c
    ensures forall s :: 0 <= s <= h && nodes[s].parent == p ==> !Under(nodes, x, s)
  {
    forall s | 0 <= s <= h && nodes[s].parent == p ensures !Under(nodes, x, s) {
      NotUnderSibling(nodes, x, c, s);
    }
  }

  lemma ChildrenUnaffected(nodes: seq<MountNode>, x: int, h: int)
    requires Linked(nodes) && 0 <= x < |nodes| && 0 <= h < |nodes| && !Under(nodes, x, h)
    ensures forall s :: 0 <= s < |nodes| && nodes[s].parent == h ==> !Under(nodes, x, s)
  {
    forall s | 0 <= s < |nodes| && nodes[s].parent == h ensures !Under(nodes, x, s) {
      if Under(nodes, x, s) {
        UnderChild(nodes, x, s);
      }
    }
  }

  lemma ShorterFirst(nodes: seq<MountNode>, h: int, c: int, t: string, path: string)
    requires Ordered(nodes) && 1 <= c < h < |nodes| && nodes[c].parent == nodes[h].parent
    requires Starts(nodes[c].name, t) && !Starts(nodes[h].name, t) && Leads(nodes[h].name, path)
    ensures !Leads(t, path)
  {
    if Leads(t, path) {
      if |nodes[h].name| <= |t| {
        LeadsCompare(nodes[h].name, t, path);
      } else {
        LeadsCompare(t, nodes[h].name, path);
        StartsTrans(nodes[c].name, t, nodes[h].name);
      }
    }
  }

  /** The tree under `p` after a mount below `p`. */
  lemma {:induction false} Inserted(nodes: seq<MountNode>, p: int, t: string, fs: FileSystem, path: string)
    requires TreeOk(nodes) && 0 <= p < |nodes|
    ensures At(nodes, nodes[p].children, p)
    ensures var (x, rest) := Place(nodes, nodes[p].children, p, t); var nodes' := Insert(nodes, x, rest, fs);
      At(nodes', nodes'[p].children, p) && Found(nodes, nodes', nodes[p].children, nodes'[p].children, p, t, path)
    decreases |nodes| - p, |nodes| + 1
  {
    var h := nodes[p].children;
    FirstChild(nodes, p);
    var (x, rest) := Place(nodes, h, p, t);
    InsertLinked(nodes, x, rest, fs);
    if x == p {
      PlaceStays(nodes, h, p, t);
      InsertedHere(nodes, p, t, fs, path);
    } else {
      InsertedBelow(nodes, h, p, t, fs, path);
    }
  }

  /** The new node keeps the siblings in order: no child of the place found starts what is left of the target. */
  lemma {:induction false} NoneLeft(nodes: seq<MountNode>, h: int, p: int, t: string)
    requires At(nodes, h, p) && Complete(nodes)
    requires forall j :: h < j < |nodes| && 1 <= j && nodes[j].parent == p ==> !Starts(nodes[j].name, t)
    ensures var (x, rest) := Place(nodes, h, p, t);
      rest != "" ==> forall j :: 1 <= j < |nodes| && nodes[j].parent == x ==> !Starts(nodes[j].name, rest)
    decreases |nodes| - p, h
  {
    if h >= 0 && t != "" {
      Moves(nodes, h, p);
      if Starts(nodes[h].name, t) {
        NoneLeft(nodes, nodes[h].children, h, t[|nodes[h].name|..]);
      } else {
        NoneLeft(nodes, nodes[h].next, p, t);
      }
    }
  }

  lemma InsertOrdered(nodes: seq<MountNode>, t: string, fs: FileSystem)
    requires TreeOk(nodes)
    ensures var (x, rest) := PlaceRoot(nodes, t); Ordered(Insert(nodes, x, rest, fs))
  {
    FirstChild(nodes, 0);
    NoneLeft(nodes, nodes[0].children, 0, t);
    var (x, rest) := PlaceRoot(nodes, t);
    var nodes' := Insert(nodes, x, rest, fs);
    forall i, j | 1 <= j < i < |nodes'| && nodes'[i].parent == nodes'[j].parent &&
      Starts(nodes'[j].name, nodes'[i].name)
      ensures nodes'[i].name == ""
    {
      assert nodes'[j].parent == nodes[j].parent && nodes'[j].name == nodes[j].name;
      if i < |nodes| {
        assert nodes'[i].parent == nodes[i].parent && nodes'[i].name == nodes[i].name;
      }
    }
  }

  // ---------------------------------------------------------------- full names

  /** The fragments from the root down to node `i`, the root's own left out. */
  ghost function FullName(nodes: seq<MountNode>, i: int): string
    requires Linked(nodes) && 0 <= i < |nodes|
    decreases i
  {
    if i == 0 then "" else FullName(nodes, nodes[i].parent) + nodes[i].name
  }

  /** A lookup splits the path: the names down to the node found, then what is left. */
  lemma {:induction false} LookupName(nodes: seq<MountNode>, h: int, p: int, path: string)
    requires At(nodes, h, p)
    ensures var (x, rest) := Lookup(nodes, h, p, path); FullName(nodes, x) + rest == FullName(nodes, p) + path
    decreases |nodes| - p, h
  {
    if h >= 0 {
      Moves(nodes, h, p);
      var name := nodes[h].name;
      if Leads(name, path) {
        LookupName(nodes, nodes[h].children, h, path[|name|..]);
        assert path == name + path[|name|..];
      } else {
        LookupName(nodes, nodes[h].next, p, path);
      }
    }
  }

  /** The place found for a target spells the target. */
  lemma {:induction false} PlaceName(nodes: seq<MountNode>, h: int, p: int, t: string)
    requires At(nodes, h, p)
    ensures var (x, rest) := Place(nodes, h, p, t); FullName(nodes, x) + rest == FullName(nodes, p) + t
    decreases |nodes| - p, h
  {
    if h >= 0 && t != "" {
      Moves(nodes, h, p);
      var name := nodes[h].name;
      if Starts(name, t) {
        PlaceName(nodes, nodes[h].children, h, t[|name|..]);
        assert t == name + t[|name|..];
      } else {
        PlaceName(nodes, nodes[h].next, p, t);
      }
    }
  }

  lemma {:induction false} InsertNames(nodes: seq<MountNode>, p: nat, name: string, fs: FileSystem, i: int)
    requires Linked(nodes) && p < |nodes| && Linked(Insert(nodes, p, name, fs)) && 0 <= i < |nodes|
    ensures FullName(Insert(nodes, p, name, fs), i) == FullName(nodes, i)
    decreases i
  {
    if i > 0 {
      InsertNames(nodes, p, name, fs, nodes[i].parent);
    }
  }

  // ---------------------------------------------------------------- the flat table of mounts

  datatype MountPoint = MountPoint(target: string, fs: FileSystem)

  /** What mount `i` takes off the front of a path; the root takes nothing, whatever its target was. */
  function Prefix(mounts: seq<MountPoint>, i: nat): string
    requires i < |mounts|
  {
    if i == 0 then "" else mounts[i].target
  }

  /** The last mount whose target leads into the path; the root if there is none. */
  function Latest(mounts: seq<MountPoint>, path: string): (r: nat)
    requires mounts != []
    ensures r < |mounts| && (r > 0 ==> Leads(mounts[r].target, path))
    ensures forall j :: r < j < |mounts| ==> !Leads(mounts[j].target, path)
  {
    var k := |mounts| - 1;
    if k == 0 || Leads(mounts[k].target, path) then k else Latest(mounts[..k], path)
  }

  /** Mount `r` has the longest of the targets that lead into the path, and is the newest with that target. */
  ghost predicate LongestMatch(mounts: seq<MountPoint>, path: string, r: nat) {
    && r < |mounts| && (r > 0 ==> Leads(mounts[r].target, path))
    && forall j :: 1 <= j < |mounts| && Leads(mounts[j].target, path) ==>
         r > 0 && (|mounts[j].target| < |mounts[r].target| || (mounts[j].target == mounts[r].target && j <= r))
  }

  /** Every target that a later mount leads into is mounted again after it. */
  ghost predicate ParentsFirst(mounts: seq<MountPoint>) {
    forall i, j :: 1 <= i < j < |mounts| && Leads(mounts[j].target, mounts[i].target) ==> MountedAfter(mounts, i, j)
  }

  ghost predicate MountedAfter(mounts: seq<MountPoint>, i: nat, j: nat)
    requires i < |mounts|
  {
    exists k :: j < k < |mounts| && mounts[k].target == mounts[i].target
  }

  /** The tree stands for the table: every path is resolved by its latest match, and every node spells its target. */
  ghost predicate Represents(nodes: seq<MountNode>, mounts: seq<MountPoint>) {
    && TreeOk(nodes) && |mounts| == |nodes|
    && (forall i :: 0 <= i < |nodes| ==> Stands(nodes, mounts, i))
    && (forall path: string :: ResolvesLatest(nodes, mounts, path))
  }

  ghost predicate Stands(nodes: seq<MountNode>, mounts: seq<MountPoint>, i: nat)
    requires Linked(nodes) && |mounts| == |nodes| && i < |nodes|
  {
    nodes[i].data == mounts[i].fs && FullName(nodes, i) == Prefix(mounts, i)
  }

  ghost predicate ResolvesLatest(nodes: seq<MountNode>, mounts: seq<MountPoint>, path: string)
    requires Linked(nodes) && mounts != []
  {
    var r := Latest(mounts, path);
    Prefix(mounts, r) <= path && LookupRoot(nodes, path) == (r, path[|Prefix(mounts, r)|..])
  }

  /** The first mount. */
  lemma RootRepresents(name: string, fs: FileSystem, target: string)
    ensures Represents([TreeNode(name, fs, -1, -1, -1)], [MountPoint(target, fs)])
  {
    var nodes, mounts := [TreeNode(name, fs, -1, -1, -1)], [MountPoint(target, fs)];
    assert LinksOk(nodes, 0);
    assert Stands(nodes, mounts, 0);
    forall path: string ensures ResolvesLatest(nodes, mounts, path) {
      FirstChild(nodes, 0);
    }
  }

  /** Mounting adds one row to the table, and nothing else. */
  lemma MountRepresents(nodes: seq<MountNode>, mounts: seq<MountPoint>, target: string, fs: FileSystem)
    requires Represents(nodes, mounts)
    ensures var (x, rest) := PlaceRoot(nodes, target);
      Represents(Insert(nodes, x, rest, fs), mounts + [MountPoint(target, fs)])
  {
    var (x, rest) := PlaceRoot(nodes, target);
    var nodes' := Insert(nodes, x, rest, fs);
    var mounts' := mounts + [MountPoint(target, fs)];
    InsertLinked(nodes, x, rest, fs);
    InsertComplete(nodes, x, rest, fs);
    InsertOrdered(nodes, target, fs);
    NamesRepresent(nodes, mounts, target, fs);
    forall path: string ensures ResolvesLatest(nodes', mounts', path) {
      LookupRepresents(nodes, mounts, target, fs, path);
    }
  }

  lemma NamesRepresent(nodes: seq<MountNode>, mounts: seq<MountPoint>, target: string, fs: FileSystem)
    requires Represents(nodes, mounts)
    requires var (x, rest) := PlaceRoot(nodes, target); Linked(Insert(nodes, x, rest, fs))
    ensures var (x, rest) := PlaceRoot(nodes, target);
      forall i :: 0 <= i <= |nodes| ==> Stands(Insert(nodes, x, rest, fs), mounts + [MountPoint(target, fs)], i)
  {
    var (x, rest) := PlaceRoot(nodes, target);
    var nodes' := Insert(nodes, x, rest, fs);
    var mounts' := mounts + [MountPoint(target, fs)];
    forall i | 0 <= i <= |nodes| ensures Stands(nodes', mounts', i) {
      if i < |nodes| {
        assert Stands(nodes, mounts, i);
        InsertNames(nodes, x, rest, fs, i);
      } else {
        FirstChild(nodes, 0);
        PlaceName(nodes, nodes[0].children, 0, target);
        InsertNames(nodes, x, rest, fs, x);
      }
    }
  }

  lemma LookupRepresents(nodes: seq<MountNode>, mounts: seq<MountPoint>, target: string, fs: FileSystem, path: string)
    requires Represents(nodes, mounts)
    requires var (x, rest) := PlaceRoot(nodes, target); Linked(Insert(nodes, x, rest, fs))
    ensures var (x, rest) := PlaceRoot(nodes, target);
      ResolvesLatest(Insert(nodes, x, rest, fs), mounts + [MountPoint(target, fs)], path)
  {
    var (x, rest) := PlaceRoot(nodes, target);
    var mounts' := mounts + [MountPoint(target, fs)];
    assert ResolvesLatest(nodes, mounts, path);
    assert mounts'[..|mounts|] == mounts;
    Inserted(nodes, 0, target, fs, path);
  }

  /** What a lookup in the tree says about the table. */
  lemma ResolvedBy(nodes: seq<MountNode>, mounts: seq<MountPoint>, path: string)
    requires Represents(nodes, mounts)
    ensures var (x, rest) := LookupRoot(nodes, path); var r := Latest(mounts, path);
      0 <= x < |nodes| == |mounts| && nodes[x].data == mounts[r].fs && Prefix(mounts, r) + rest == path &&
        FullName(nodes, x) + rest == path
  {
    hide Complete, Ordered, LinksOk, Lookup, Represents;
    RepresentsLinked(nodes, mounts);
    RepresentsAt(nodes, mounts, path, Latest(mounts, path));
  }

  lemma RepresentsAt(nodes: seq<MountNode>, mounts: seq<MountPoint>, path: string, i: nat)
    requires Represents(nodes, mounts) && i < |mounts|
    ensures Linked(nodes) && |mounts| == |nodes| && ResolvesLatest(nodes, mounts, path) && Stands(nodes, mounts, i)
  {
  }

  lemma RepresentsLinked(nodes: seq<MountNode>, mounts: seq<MountPoint>)
    requires Represents(nodes, mounts)
    ensures Linked(nodes) && |mounts| == |nodes|
  {
  }

  // ---------------------------------------------------------------- longest-prefix matching

  /** The latest match of every path is its longest one. */
  ghost predicate MatchesLongest(mounts: seq<MountPoint>)
    requires mounts != []
  {
    forall path: string :: LongestMatch(mounts, path, Latest(mounts, path))
  }

  /** The latest match is the longest one for every path exactly when parents are mounted first. */
  lemma LongestIffParentsFirst(mounts: seq<MountPoint>)
    requires mounts != []
    ensures MatchesLongest(mounts) <==> ParentsFirst(mounts)
  {
    if ParentsFirst(mounts) {
      forall path: string ensures LongestMatch(mounts, path, Latest(mounts, path)) {
        LatestIsLongest(mounts, path);
      }
    }
    if MatchesLongest(mounts) {
      forall i, j | 1 <= i < j < |mounts| && Leads(mounts[j].target, mounts[i].target)
        ensures MountedAfter(mounts, i, j)
      {
        Hidden(mounts, i, j, Latest(mounts, mounts[i].target + "/"));
      }
    }
  }

  /** A mount that hides an older one below it is not the longest match for the paths just below the older one. */
  lemma Hidden(mounts: seq<MountPoint>, i: nat, j: nat, r: nat)
    requires 1 <= i < j < |mounts| && Leads(mounts[j].target, mounts[i].target)
    requires LongestMatch(mounts, mounts[i].target + "/", r)
    requires forall k :: r < k < |mounts| ==> !Leads(mounts[k].target, mounts[i].target + "/")
    ensures MountedAfter(mounts, i, j)
  {
    var t, u := mounts[i].target, mounts[j].target;
    var path := t + "/";
    LeadsExtended(u, t);
    MatchBounds(mounts, path, r, i);
    LeadsCompare(t, mounts[r].target, path);
    assert mounts[r].target == t;
    assert j < r;
  }

  lemma LeadsExtended(u: string, t: string)
    requires Leads(u, t)
    ensures Leads(u, t + "/") && Leads(t, t + "/")
  {
  }

  lemma MatchBounds(mounts: seq<MountPoint>, path: string, r: nat, i: nat)
    requires LongestMatch(mounts, path, r) && 1 <= i < |mounts| && Leads(mounts[i].target, path)
    ensures 0 < r < |mounts| && Leads(mounts[r].target, path) && |mounts[i].target| <= |mounts[r].target|
  {
  }

  lemma LatestIsLongest(mounts: seq<MountPoint>, path: string)
    requires mounts != [] && ParentsFirst(mounts)
    ensures LongestMatch(mounts, path, Latest(mounts, path))
  {
    var r := Latest(mounts, path);
    forall j | 1 <= j < |mounts| && Leads(mounts[j].target, path)
      ensures r > 0 && (|mounts[j].target| < |mounts[r].target| || (mounts[j].target == mounts[r].target && j <= r))
    {
      var t, u := mounts[r].target, mounts[j].target;
      if |t| < |u| {
        LeadsCompare(t, u, path);
      }
      assert |t| < |u| ==> MountedAfter(mounts, j, r);
    }
  }

  lemma LongestOnce(mounts: seq<MountPoint>, path: string, r: nat, s: nat)
    requires LongestMatch(mounts, path, r) && LongestMatch(mounts, path, s)
    ensures r == s
  {
    if r > 0 {
      assert Leads(mounts[r].target, path);
    }
    if s > 0 {
      assert Leads(mounts[s].target, path);
    }
  }

  /** A child mounted before its parent is no longer found. */
  lemma ChildFirst(root: FileSystem, child: FileSystem, parent: FileSystem)
    ensures var mounts := [MountPoint("/", root), MountPoint("/a/b", child), MountPoint("/a", parent)];
      Latest(mounts, "/a/b/x") == 2 && LongestMatch(mounts, "/a/b/x", 1)
  {
    assert Leads("/a/b", "/a/b/x");
    assert Leads("/a", "/a/b/x");
  }

  /**
   In a tree of mounts made parents first, the longest match gives the file system, and the rest of the path is what it
   is asked for.
   */
  lemma TreeMatchesLongest(nodes: seq<MountNode>, mounts: seq<MountPoint>, path: string, r: nat)
    requires Represents(nodes, mounts) && ParentsFirst(mounts) && LongestMatch(mounts, path, r)
    ensures var (x, rest) := LookupRoot(nodes, path);
      0 <= x < |nodes| && nodes[x].data == mounts[r].fs && Prefix(mounts, r) + rest == path &&
        FullName(nodes, x) + rest == path
  {
    LatestIsLongest(mounts, path);
    LongestOnce(mounts, path, r, Latest(mounts, path));
    ResolvedBy(nodes, mounts, path);
  }
}
