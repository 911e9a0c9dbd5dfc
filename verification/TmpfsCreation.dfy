/**
 Creating and opening entries of tmpfs, as steps on the values of its nodes, and what whole runs of them keep.
 */
module TmpfsCreation {
  import opened SiblingTree
  import opened Wrappers
  import opened TmpfsSpec

  /** `open` with the create flag, and `mkdir`, from a working directory (-1 for none); a new file gets a page frame. */
  datatype Op = OpenCreate(cur: int, path: string, frame: nat) | Mkdir(cur: int, path: string)

  /** What is made: a file of one page, or a directory. */
  function Made(op: Op): Entry {
    match op
    case OpenCreate(_, _, frame) => Entry(File, 4096, Some(frame))
    case Mkdir(_, _) => Entry(Directory, 0, None)
  }

  /**
   The operation goes through: a node is located, its own name is not the new one, and a file goes into a directory.
   */
  ghost predicate Allowed(nodes: Tree, op: Op)
    requires Linked(nodes) && -1 <= op.cur < |nodes|
  {
    var x := Locate(nodes, op.cur, op.path);
    x >= 0 && LastName(op.path) != nodes[x].name && (op.OpenCreate? ==> nodes[x].data.kind == Directory)
  }

  ghost function Step(nodes: Tree, op: Op): (nodes': Tree)
    requires Linked(nodes) && -1 <= op.cur < |nodes|
    ensures Linked(nodes')
  {
    if Allowed(nodes, op) then
      var x, name := Locate(nodes, op.cur, op.path), LastName(op.path);
      InsertLinked(nodes, x, name, Made(op));
      Insert(nodes, x, name, Made(op))
    else nodes
  }

  /** How the walk of a path ends, where it is begun at all. */
  ghost function Ending(nodes: Tree, cur: int, path: string): (o: Outcome)
    requires Linked(nodes) && -1 <= cur < |nodes| && Origin(nodes, cur, path).0 >= 0
    ensures 0 <= o.node < |nodes|
    ensures Locate(nodes, cur, path) == Settle(o)
  {
    var (p, rest) := Origin(nodes, cur, path);
    WalkFrom(nodes, p, rest)
  }

  // ---------------------------------------------------------------- the last name of a path

  /** `tail` is the end of `path`, after a slash or from the start. */
  predicate EndsWith(path: string, tail: string) {
    |tail| <= |path| && path[|path| - |tail|..] == tail && (|tail| == |path| || path[|path| - |tail| - 1] == '/')
  }

  lemma EndsTrans(path: string, a: string, b: string)
    requires EndsWith(path, a) && EndsWith(a, b)
    ensures EndsWith(path, b)
  {
    assert path[|path| - |b|..] == path[|path| - |a|..][|a| - |b|..];
    if |b| < |a| {
      assert path[|path| - |b| - 1] == path[|path| - |a|..][|a| - |b| - 1];
    }
  }

  /** One name, perhaps with a slash after it. */
  ghost predicate OneName(s: string) {
    s != "" && forall i :: !InnerSlash(s, i)
  }

  lemma PlainName(s: string)
    requires s != "" && SlashFree(s)
    ensures OneName(s)
  {
  }

  /** The last name of a path is its tail exactly if the tail is one name. */
  lemma LastNameOfTail(path: string, tail: string)
    requires EndsWith(path, tail) && path != ""
    ensures LastName(path) == tail <==> OneName(tail)
  {
    if OneName(tail) {
      TailIsLast(path, tail);
    }
    if LastName(path) == tail {
      LastIsOne(path);
    }
  }

  lemma TailIsLast(path: string, tail: string)
    requires EndsWith(path, tail) && OneName(tail)
    ensures LastName(path) == tail
  {
    var k, m := NameStart(path, |path|), |path| - |tail|;
    assert path[m..] == tail;
    assert m > 0 ==> InnerSlash(path, m - 1);
    assert k >= m;
    if k > m {
      SlashInTail(path, m, k - 1);
    }
  }

  lemma SlashInTail(path: string, m: nat, i: nat)
    requires m <= i && InnerSlash(path, i)
    ensures InnerSlash(path[m..], i - m)
  {
  }

  lemma LastIsOne(path: string)
    requires path != ""
    ensures OneName(LastName(path))
  {
    var k := NameStart(path, |path|);
    forall i ensures !InnerSlash(LastName(path), i) {
      assert InnerSlash(LastName(path), i) ==> InnerSlash(path, k + i);
    }
  }

  lemma {:induction false} RelativeEnds(nodes: Tree, p: int, path: string)
    requires Linked(nodes) && -1 <= p < |nodes|
    ensures EndsWith(path, Relative(nodes, p, path).1)
    decreases |path|
  {
    if p >= 0 && path != "" && path[0] == '.' {
      if |path| >= 3 && path[1] == '.' && path[2] == '/' {
        RelativeEnds(nodes, nodes[p].parent, path[3..]);
        EndsTrans(path, path[3..], Relative(nodes, p, path).1);
      } else if |path| >= 2 && path[1] == '/' {
        RelativeEnds(nodes, p, path[2..]);
        EndsTrans(path, path[2..], Relative(nodes, p, path).1);
      }
    }
  }

  ghost function Tail(nodes: Tree, o: Outcome): string
    requires 0 <= o.node < |nodes|
  {
    match o
    case Exact(n) => nodes[n].name
    case Short(_, rest) => rest
  }

  lemma JoinEnds(a: string, b: string)
    ensures EndsWith(a + "/" + b, b) && EndsWith(b, b)
  {
  }

  /** A path ends in the name of the node it is matched to, or in the part that found no entry. */
  lemma EndingTail(nodes: Tree, cur: int, path: string)
    requires Good(nodes) && -1 <= cur < |nodes| && Origin(nodes, cur, path).0 >= 0
    ensures EndsWith(path, Tail(nodes, Ending(nodes, cur, path)))
  {
    var (p, rest) := Origin(nodes, cur, path);
    var o := WalkFrom(nodes, p, rest);
    if !Absolute(path) {
      RelativeEnds(nodes, cur, path);
    }
    assert EndsWith(path, rest);
    WalkFromResolves(nodes, p, rest);
    ResolveSpells(nodes, p, rest);
    SpelledTail(nodes, p, rest, o);
    EndsTrans(path, rest, Tail(nodes, o));
  }

  lemma SpelledTail(nodes: Tree, p: int, path: string, o: Outcome)
    requires Linked(nodes) && Spells(nodes, p, path, o)
    ensures EndsWith(path, Tail(nodes, o))
  {
    match o
    case Exact(n) =>
      UnderAbove(nodes, n, p);
      JoinEnds(PathBelow(nodes, p, nodes[n].parent), nodes[n].name);
    case Short(n, rest) =>
      if n != p {
        JoinEnds(PathBelow(nodes, p, n), rest);
      }
  }

  // ---------------------------------------------------------------- one creation

  /** A path that is matched to its end creates nothing. */
  lemma ExistingRefused(nodes: Tree, op: Op)
    requires Good(nodes) && -1 <= op.cur < |nodes| && Origin(nodes, op.cur, op.path).0 >= 0
    requires Ending(nodes, op.cur, op.path).Exact?
    ensures !Allowed(nodes, op) && Step(nodes, op) == nodes
  {
    hide WellNamed, Complete, LinksOk, OneName, LastName, EndsWith, SlashFree, WalkFrom, Relative;
    var n := Ending(nodes, op.cur, op.path).node;
    EndingTail(nodes, op.cur, op.path);
    ExactNotRoot(nodes, op.cur, op.path);
    PlainName(nodes[n].name);
    LastNameOfTail(op.path, nodes[n].name);
  }

  lemma ExactNotRoot(nodes: Tree, cur: int, path: string)
    requires Good(nodes) && -1 <= cur < |nodes| && Origin(nodes, cur, path).0 >= 0 && Ending(nodes, cur, path).Exact?
    ensures var n := Ending(nodes, cur, path).node;
      n > 0 && nodes[n].name != "" && SlashFree(nodes[n].name) && path != ""
  {
    var (p, rest) := Origin(nodes, cur, path);
    WalkFromResolves(nodes, p, rest);
    ResolveSpells(nodes, p, rest);
    EndingTail(nodes, cur, path);
  }

  lemma {:induction false} ShortMisses(index: Index, p: int, path: string)
    requires Resolve(index, p, path).Short?
    ensures var o := Resolve(index, p, path); o.rest == "" || (o.node, First(o.rest)) !in index
    decreases |path|
  {
    var c := First(path);
    if path != "" && (p, c) in index {
      ShortMisses(index, index[(p, c)], path[|c| + 1..]);
    }
  }

  /** The part of the path that finds no entry is one plain name. */
  ghost predicate OneMissing(nodes: Tree, cur: int, path: string)
    requires Linked(nodes) && -1 <= cur < |nodes|
  {
    Origin(nodes, cur, path).0 >= 0 && var o := Ending(nodes, cur, path); o.Short? && o.rest != "" && SlashFree(o.rest)
  }

  /** The missing name is new to the directory where the walk ended, and is the last name of the path. */
  lemma MissingIsNew(nodes: Tree, cur: int, path: string)
    requires Good(nodes) && -1 <= cur < |nodes| && OneMissing(nodes, cur, path)
    ensures var o := Ending(nodes, cur, path);
      Locate(nodes, cur, path) == o.node && LastName(path) == o.rest && NewName(nodes, o.node, o.rest)
  {
    hide WellNamed, Complete, LinksOk, OneName, LastName, SlashFree, WalkFrom, Relative, IndexOf, Resolve, NewName,
         InnerSlashes;
    var (p, rest) := Origin(nodes, cur, path);
    var o := Ending(nodes, cur, path);
    EndingTail(nodes, cur, path);
    PlainName(o.rest);
    LastNameOfTail(path, o.rest);
    NoInnerSlashes(o.rest, |o.rest|);
    WalkFromResolves(nodes, p, rest);
    ShortMisses(IndexOf(nodes, |nodes|), p, rest);
    StartsFirst(o.rest, o.rest);
    NotInIndex(nodes, o.node, o.rest);
  }

  lemma NotInIndex(nodes: Tree, x: int, name: string)
    requires WellNamed(nodes) && name != "" && SlashFree(name) && (x, name) !in IndexOf(nodes, |nodes|)
    ensures NewName(nodes, x, name)
  {
    IndexEntries(nodes, |nodes|);
  }

  lemma {:induction false} NoInnerSlashes(path: string, n: nat)
    requires n <= |path| && SlashFree(path)
    ensures InnerSlashes(path, n) == 0
  {
    if n > 0 {
      NoInnerSlashes(path, n - 1);
    }
  }

  lemma {:induction false} RelativeInserted(nodes: Tree, x: nat, name: string, data: Entry, p: int, path: string)
    requires Linked(nodes) && x < |nodes| && Linked(Insert(nodes, x, name, data)) && -1 <= p < |nodes|
    ensures Relative(Insert(nodes, x, name, data), p, path) == Relative(nodes, p, path)
    decreases |path|
  {
    if p >= 0 && path != "" && path[0] == '.' {
      if |path| >= 3 && path[1] == '.' && path[2] == '/' {
        RelativeInserted(nodes, x, name, data, nodes[p].parent, path[3..]);
      } else if |path| >= 2 && path[1] == '/' {
        RelativeInserted(nodes, x, name, data, p, path[2..]);
      }
    }
  }

  /** How every path resolves after a creation: as before, unless it missed the very entry that was made. */
  ghost predicate ResolvesGrown(nodes: Tree, nodes': Tree, x: int, name: string, cur: int, path: string)
    requires Linked(nodes) && Linked(nodes') && |nodes| <= |nodes'| && -1 <= cur < |nodes|
  {
    && Origin(nodes', cur, path) == Origin(nodes, cur, path)
    && (Origin(nodes, cur, path).0 >= 0 ==>
          Ending(nodes', cur, path) == Grown(Ending(nodes, cur, path), x, name, |nodes|))
  }

  lemma InsertResolves(nodes: Tree, x: nat, name: string, data: Entry, cur: int, path: string)
    requires Good(nodes) && x < |nodes| && NewName(nodes, x, name) && -1 <= cur < |nodes|
    ensures Good(Insert(nodes, x, name, data)) && ResolvesGrown(nodes, Insert(nodes, x, name, data), x, name, cur, path)
  {
    InsertGood(nodes, x, name, data);
    RelativeInserted(nodes, x, name, data, cur, path);
    var (p, rest) := Origin(nodes, cur, path);
    if p >= 0 {
      InsertWalks(nodes, x, name, data, p, rest);
    }
  }

  /**
   With one name missing, creation succeeds unless the directory bears that name itself (or a file is put into no
   directory).
   */
  lemma AllowedIff(nodes: Tree, op: Op)
    requires Good(nodes) && -1 <= op.cur < |nodes| && OneMissing(nodes, op.cur, op.path)
    ensures var o := Ending(nodes, op.cur, op.path);
      Allowed(nodes, op) <==> nodes[o.node].name != o.rest && (op.OpenCreate? ==> nodes[o.node].data.kind == Directory)
  {
    MissingIsNew(nodes, op.cur, op.path);
  }

  /** Creation of one missing name: one node more, the tree stays well named, and the path leads to the new node. */
  lemma CreateCorrect(nodes: Tree, op: Op)
    requires Good(nodes) && -1 <= op.cur < |nodes| && Allowed(nodes, op) && OneMissing(nodes, op.cur, op.path)
    ensures var nodes' := Step(nodes, op);
      && Good(nodes') && |nodes'| == |nodes| + 1
      && nodes'[|nodes|].data == Made(op) && nodes'[|nodes|].parent == Locate(nodes, op.cur, op.path)
      && nodes'[|nodes|].name == LastName(op.path)
      && Locate(nodes', op.cur, op.path) == |nodes|
  {
    var o := Ending(nodes, op.cur, op.path);
    MissingIsNew(nodes, op.cur, op.path);
    InsertResolves(nodes, o.node, o.rest, Made(op), op.cur, op.path);
    StartsFirst(o.rest, o.rest);
  }

  // ---------------------------------------------------------------- what was made

  lemma {:induction false} RelativeAppend(nodes: Tree, p: int, path: string, t: string)
    requires Linked(nodes) && 0 <= p < |nodes| && Relative(nodes, p, path).0 >= 0 && Relative(nodes, p, path).1 != ""
    ensures Relative(nodes, p, path + t) == (Relative(nodes, p, path).0, Relative(nodes, p, path).1 + t)
    decreases |path|
  {
    if path[0] == '.' {
      if path[1] == '.' {
        assert (path + t)[3..] == path[3..] + t;
        RelativeAppend(nodes, nodes[p].parent, path[3..], t);
      } else {
        assert (path + t)[2..] == path[2..] + t;
        RelativeAppend(nodes, p, path[2..], t);
      }
    }
  }

  lemma OriginAppend(nodes: Tree, cur: int, path: string, t: string)
    requires Linked(nodes) && -1 <= cur < |nodes| && path != ""
    requires Origin(nodes, cur, path).0 >= 0 && Origin(nodes, cur, path).1 != ""
    ensures Origin(nodes, cur, path + t) == (Origin(nodes, cur, path).0, Origin(nodes, cur, path).1 + t)
  {
    if Absolute(path) {
      assert (path + t)[1..] == path[1..] + t;
    } else {
      RelativeAppend(nodes, cur, path, t);
    }
  }

  /** A path that goes on by one name from a node without entries misses that name. */
  lemma OneBelow(nodes: Tree, cur: int, path: string, name: string)
    requires Good(nodes) && -1 <= cur < |nodes| && path != "" && name != "" && SlashFree(name)
    requires Origin(nodes, cur, path).0 >= 0 && Ending(nodes, cur, path).Exact?
    requires NoEntry(nodes, Ending(nodes, cur, path).node, name)
    ensures OneMissing(nodes, cur, path + "/" + name)
    ensures Ending(nodes, cur, path + "/" + name) == Short(Ending(nodes, cur, path).node, name)
  {
    hide WellNamed, Complete, LinksOk, WalkFrom, Relative, IndexOf;
    var (p, rest) := Origin(nodes, cur, path);
    var index := IndexOf(nodes, |nodes|);
    WalkFromResolves(nodes, p, rest);
    OriginAppend(nodes, cur, path, "/" + name);
    assert path + "/" + name == path + ("/" + name) && rest + "/" + name == rest + ("/" + name);
    WalkFromResolves(nodes, p, rest + "/" + name);
    ResolveExtend(index, p, rest, name);
    StartsFirst(name, name);
    EntryFree(nodes, Ending(nodes, cur, path).node, name);
  }

  /** The path of an entry just made leads to it, and it has no entries of its own. */
  lemma MadeEnding(nodes: Tree, op: Op)
    requires Good(nodes) && -1 <= op.cur < |nodes| && Allowed(nodes, op) && OneMissing(nodes, op.cur, op.path)
    ensures var nodes' := Step(nodes, op);
      && Good(nodes') && |nodes'| == |nodes| + 1 && op.path != ""
      && Origin(nodes', op.cur, op.path).0 >= 0 && Ending(nodes', op.cur, op.path) == Exact(|nodes|)
      && nodes'[|nodes|].name == LastName(op.path) && forall name :: NoEntry(nodes', |nodes|, name)
  {
    hide WellNamed, Complete, WalkFrom, Relative, LastName;
    var o := Ending(nodes, op.cur, op.path);
    MissingIsNew(nodes, op.cur, op.path);
    InsertResolves(nodes, o.node, o.rest, Made(op), op.cur, op.path);
    StartsFirst(o.rest, o.rest);
    EndingTail(nodes, op.cur, op.path);
    var nodes' := Step(nodes, op);
    forall i | 1 <= i < |nodes'| ensures nodes'[i].parent != |nodes| {
      assert LinksOk(nodes', i);
    }
  }

  /** What was made with the create flag is a file of one page and opened by its path; a directory is not opened. */
  lemma MadeIsOpened(nodes: Tree, op: Op)
    requires Good(nodes) && -1 <= op.cur < |nodes| && Allowed(nodes, op) && OneMissing(nodes, op.cur, op.path)
    ensures var nodes' := Step(nodes, op);
      && |nodes'| == |nodes| + 1
      && Opened(nodes', op.cur, op.path) == (if op.OpenCreate? then |nodes| else -1)
      && (op.OpenCreate? ==> nodes'[|nodes|].data.size == 4096 && nodes'[|nodes|].data.frame == Some(op.frame))
      && (op.Mkdir? ==> nodes'[|nodes|].data.size == 0 && nodes'[|nodes|].data.frame == None)
  {
    hide WellNamed, Complete, WalkFrom, Relative, LastName, LinksOk;
    CreateCorrect(nodes, op);
  }

  /**
   Below what was just made, by its path, a slash and one more name: a file can be created exactly below a directory, a
   directory also below a file, and neither under the name of the entry itself.
   */
  lemma BelowMade(nodes: Tree, op: Op, name: string, frame: nat)
    requires Good(nodes) && -1 <= op.cur < |nodes| && Allowed(nodes, op) && OneMissing(nodes, op.cur, op.path)
    requires name != "" && SlashFree(name)
    ensures var nodes', path := Step(nodes, op), op.path + "/" + name;
      && op.cur < |nodes'|
      && OneMissing(nodes', op.cur, path) && Ending(nodes', op.cur, path) == Short(|nodes|, name)
      && (Allowed(nodes', OpenCreate(op.cur, path, frame)) <==> op.Mkdir? && name != LastName(op.path))
      && (Allowed(nodes', Mkdir(op.cur, path)) <==> name != LastName(op.path))
  {
    hide WellNamed, Complete, WalkFrom, Relative, LastName, LinksOk, NoEntry;
    MadeEnding(nodes, op);
    CreateCorrect(nodes, op);
    var nodes', path := Step(nodes, op), op.path + "/" + name;
    OneBelow(nodes', op.cur, op.path, name);
    AllowedIff(nodes', OpenCreate(op.cur, path, frame));
    AllowedIff(nodes', Mkdir(op.cur, path));
  }

  /** A file created below a directory just made is in that directory, and its path finds and opens it. */
  lemma FileInDirectory(nodes: Tree, cur: int, dir: string, name: string, frame: nat)
    requires Good(nodes) && -1 <= cur < |nodes| && Allowed(nodes, Mkdir(cur, dir)) && OneMissing(nodes, cur, dir)
    requires name != "" && SlashFree(name) && name != LastName(dir)
    ensures var nodes1 := Step(nodes, Mkdir(cur, dir));
      var path, d := dir + "/" + name, |nodes|;
      && cur < |nodes1|
      && var nodes2 := Step(nodes1, OpenCreate(cur, path, frame));
      && |nodes2| == d + 2 && nodes2[d + 1].parent == d && nodes2[d + 1].name == name
      && Locate(nodes2, cur, dir) == d
      && Locate(nodes2, cur, path) == d + 1 && Opened(nodes2, cur, path) == d + 1
  {
    hide WellNamed, Complete, WalkFrom, Relative, LastName, LinksOk, NoEntry;
    var op := Mkdir(cur, dir);
    var nodes1, path := Step(nodes, op), dir + "/" + name;
    BelowMade(nodes, op, name, frame);
    MadeEnding(nodes, op);
    var op1 := OpenCreate(cur, path, frame);
    CreateCorrect(nodes1, op1);
    MissingIsNew(nodes1, cur, path);
    MadeIsOpened(nodes1, op1);
    CreateKeeps(nodes1, op1, cur, dir);
  }

  /** Whether the call makes an entry under a plain name that its directory does not hold yet. */
  ghost predicate MakesNew(nodes: Tree, op: Op)
    requires Linked(nodes) && -1 <= op.cur < |nodes| && Allowed(nodes, op)
  {
    NewName(nodes, Locate(nodes, op.cur, op.path), LastName(op.path))
  }

  /**
   A creation that goes through leaves the tree well named exactly if its last name is plain and new to the directory
   located.
   */
  lemma GoodIff(nodes: Tree, op: Op)
    requires Good(nodes) && -1 <= op.cur < |nodes| && Allowed(nodes, op)
    ensures Good(Step(nodes, op)) <==> MakesNew(nodes, op)
  {
    hide Complete, LinksOk, SlashFree, LastName, Relative, WalkFrom;
    var x, name := Locate(nodes, op.cur, op.path), LastName(op.path);
    if MakesNew(nodes, op) {
      InsertGood(nodes, x, name, Made(op));
    }
    if Good(Step(nodes, op)) {
      NamedNew(nodes, x, name, Made(op));
    }
  }

  lemma NamedNew(nodes: Tree, x: nat, name: string, data: Entry)
    requires x < |nodes| && WellNamed(Insert(nodes, x, name, data)) && |nodes| >= 1
    ensures NewName(nodes, x, name)
  {
    var nodes' := Insert(nodes, x, name, data);
    assert nodes'[|nodes|].name == name && nodes'[|nodes|].parent == x;
    forall i | 1 <= i < |nodes| && nodes[i].parent == x ensures nodes[i].name != name {
      assert nodes'[i].name == nodes[i].name && nodes'[i].parent == nodes[i].parent;
    }
  }

  /** Creation under a new name and any other path: resolved as before, unless it missed the entry that was made. */
  lemma CreateKeeps(nodes: Tree, op: Op, cur: int, path: string)
    requires Good(nodes) && -1 <= op.cur < |nodes| && Allowed(nodes, op) && MakesNew(nodes, op) && -1 <= cur < |nodes|
    ensures Good(Step(nodes, op))
    ensures ResolvesGrown(nodes, Step(nodes, op), Locate(nodes, op.cur, op.path), LastName(op.path), cur, path)
  {
    InsertResolves(nodes, Locate(nodes, op.cur, op.path), LastName(op.path), Made(op), cur, path);
  }

  // ---------------------------------------------------------------- where a new entry ends up

  lemma {:induction false} PrintedInserted(nodes: Tree, x: nat, name: string, data: Entry, n: int)
    requires Linked(nodes) && x < |nodes| && Linked(Insert(nodes, x, name, data)) && 0 <= n < |nodes|
    ensures Printed(Insert(nodes, x, name, data), n) == Printed(nodes, n)
    decreases n
  {
    if n > 0 {
      PrintedInserted(nodes, x, name, data, nodes[n].parent);
      PrintedParent(nodes, n);
      PrintedParent(Insert(nodes, x, name, data), n);
    }
  }

  lemma PrintedParent(nodes: Tree, n: int)
    requires Linked(nodes) && 0 < n < |nodes|
    ensures Printed(nodes, n) == "/" + Join(Printed(nodes, nodes[n].parent)[1..], nodes[n].name)
  {
    UnderRoot(nodes, nodes[n].parent);
    assert Printed(nodes, nodes[n].parent)[1..] == PathBelow(nodes, 0, nodes[n].parent);
  }

  /** An absolute path that falls short: the printed path of the node reached, then the rest. */
  lemma ShortSpelled(nodes: Tree, path: string, o: Outcome)
    requires Good(nodes) && Absolute(path) && o == WalkFrom(nodes, 0, path[1..]) && o.Short?
    ensures path == "/" + Join(Printed(nodes, o.node)[1..], o.rest)
  {
    hide WellNamed, Complete, LinksOk, WalkFrom, IndexOf, Resolve;
    WalkFromResolves(nodes, 0, path[1..]);
    ResolveSpells(nodes, 0, path[1..]);
    UnderRoot(nodes, o.node);
    PathBelowEmpty(nodes, 0, o.node);
    assert Printed(nodes, o.node)[1..] == PathBelow(nodes, 0, o.node);
    assert path == "/" + path[1..];
  }

  lemma JoinInjective(a: string, b: string, c: string)
    ensures "/" + Join(a, b) == "/" + Join(a, c) <==> b == c
  {
    assert ("/" + Join(a, b))[1..] == Join(a, b) && ("/" + Join(a, c))[1..] == Join(a, c);
    if a != "" {
      assert Join(a, b)[|a| + 1..] == b && Join(a, c)[|a| + 1..] == c;
    }
  }

  /** The path of a new node: its parent's, then the last name that was asked for. */
  lemma PrintedNew(nodes: Tree, x: nat, name: string, data: Entry)
    requires Linked(nodes) && x < |nodes|
    ensures Linked(Insert(nodes, x, name, data))
    ensures Printed(Insert(nodes, x, name, data), |nodes|) == "/" + Join(Printed(nodes, x)[1..], name)
  {
    InsertLinked(nodes, x, name, data);
    PrintedInserted(nodes, x, name, data, x);
    PrintedParent(Insert(nodes, x, name, data), |nodes|);
  }

  lemma PlacedName(nodes: Tree, path: string, o: Outcome, name: string, data: Entry)
    requires Good(nodes) && Absolute(path) && o == WalkFrom(nodes, 0, path[1..]) && o.Short?
    ensures Linked(Insert(nodes, o.node, name, data))
    ensures Printed(Insert(nodes, o.node, name, data), |nodes|) == path <==> name == o.rest
  {
    hide WellNamed, Complete, LinksOk, WalkFrom, Join, Printed, PathBelow;
    PrintedNew(nodes, o.node, name, data);
    ShortSpelled(nodes, path, o);
    JoinInjective(Printed(nodes, o.node)[1..], name, o.rest);
  }

  /** The path of an entry `name` of node `x`. */
  ghost function PathIn(nodes: Tree, x: int, name: string): string
    requires Linked(nodes) && 0 <= x < |nodes|
  {
    "/" + Join(Printed(nodes, x)[1..], name)
  }

  /** The path up to its last name is that of an existing node, which has no entry for that name. */
  ghost predicate LastMissing(nodes: Tree, path: string)
    requires Linked(nodes)
  {
    exists x :: 0 <= x < |nodes| && path == PathIn(nodes, x, LastName(path)) && NoEntry(nodes, x, First(LastName(path)))
  }

  /** What is made for an absolute path gets that path exactly if only its last name is missing. */
  lemma PlacedIff(nodes: Tree, op: Op)
    requires Good(nodes) && -1 <= op.cur < |nodes| && Allowed(nodes, op) && Absolute(op.path)
    ensures Printed(Step(nodes, op), |nodes|) == op.path <==> LastMissing(nodes, op.path)
  {
    hide WellNamed, Complete, LinksOk, LastName, OneName, EndsWith, Relative, WalkFrom, Join, Printed, PathBelow,
         NoEntry;
    AllowedIsShort(nodes, op);
    var o := Ending(nodes, op.cur, op.path);
    PlacedName(nodes, op.path, o, LastName(op.path), Made(op));
    EndingTail(nodes, op.cur, op.path);
    LastNameOfTail(op.path, o.rest);
    if LastName(op.path) == o.rest {
      NotEmptyName(op.path);
      ShortSpelled(nodes, op.path, o);
      StoppedShort(nodes, op.path, o);
    }
    var name := LastName(op.path);
    if x :| 0 <= x < |nodes| && op.path == PathIn(nodes, x, name) && NoEntry(nodes, x, First(name)) {
      StopsBelow(nodes, op.path, x, name);
    }
  }

  lemma NotEmptyName(path: string)
    requires path != ""
    ensures LastName(path) != ""
  {
  }

  /** A path that goes on from an existing node with a name it has no entry for stops at that node. */
  lemma StopsBelow(nodes: Tree, path: string, x: int, rest: string)
    requires Good(nodes) && Absolute(path) && 0 <= x < |nodes| && path == PathIn(nodes, x, rest)
    requires NoEntry(nodes, x, First(rest))
    ensures WalkFrom(nodes, 0, path[1..]) == Short(x, rest)
  {
    hide WellNamed, Complete, LinksOk, WalkFrom, PathBelow, IndexOf;
    UnderRoot(nodes, x);
    var way := PathBelow(nodes, 0, x);
    PathBelowEmpty(nodes, 0, x);
    assert Printed(nodes, x)[1..] == way;
    assert path[1..] == Join(way, rest);
    ResolvePrinted(nodes, 0, x);
    if x != 0 {
      ResolveExtend(IndexOf(nodes, |nodes|), 0, way, rest);
    }
    EntryFree(nodes, x, First(rest));
    WalkFromResolves(nodes, 0, path[1..]);
  }

  lemma AllowedIsShort(nodes: Tree, op: Op)
    requires Good(nodes) && -1 <= op.cur < |nodes| && Allowed(nodes, op) && Origin(nodes, op.cur, op.path).0 >= 0
    ensures Ending(nodes, op.cur, op.path).Short?
  {
    if Ending(nodes, op.cur, op.path).Exact? {
      ExistingRefused(nodes, op);
    }
  }

  // ---------------------------------------------------------------- opening

  /** The file a plain `open` returns, -1 for none. */
  ghost function Opened(nodes: Tree, cur: int, path: string): int
    requires Linked(nodes) && -1 <= cur < |nodes|
  {
    var n := Locate(nodes, cur, path);
    if n >= 0 && LastName(path) == nodes[n].name && nodes[n].data.kind == File then n else -1
  }

  /** The walk stops at `n`, with its own name last in what is left. */
  ghost predicate StopsAt(nodes: Tree, path: string, n: int)
    requires Linked(nodes) && Absolute(path)
  {
    var o := WalkFrom(nodes, 0, path[1..]);
    o.Short? && o.node == n && InnerSlashes(o.rest, |o.rest|) <= 1 && o.rest != "" && LastName(o.rest) == nodes[n].name
  }

  /**
   The path runs on past `n`, not over an entry of it, by one or two names, the last of them the name of `n` again.
   */
  ghost predicate Overshoots(nodes: Tree, path: string, n: int, rest: string)
    requires Linked(nodes) && 0 <= n < |nodes|
  {
    && path == Printed(nodes, n) + "/" + rest && rest != "" && NoEntry(nodes, n, First(rest))
    && InnerSlashes(rest, |rest|) <= 1 && LastName(rest) == nodes[n].name
  }

  lemma StopsOvershooting(nodes: Tree, path: string, n: int)
    requires Good(nodes) && Absolute(path) && 1 <= n < |nodes| && StopsAt(nodes, path, n)
    ensures Overshoots(nodes, path, n, WalkFrom(nodes, 0, path[1..]).rest)
  {
    hide WellNamed, Complete, LinksOk, WalkFrom, LastName, InnerSlashes, PathBelow, NoEntry;
    var o := WalkFrom(nodes, 0, path[1..]);
    StoppedSpelled(nodes, path, o);
    StoppedShort(nodes, path, o);
  }

  lemma StoppedSpelled(nodes: Tree, path: string, o: Outcome)
    requires Good(nodes) && Absolute(path) && o == WalkFrom(nodes, 0, path[1..]) && o.Short? && o.node > 0
    ensures path == Printed(nodes, o.node) + "/" + o.rest
  {
    hide WellNamed, Complete, LinksOk, WalkFrom, PathBelow;
    ShortSpelled(nodes, path, o);
    UnderRoot(nodes, o.node);
    PathBelowEmpty(nodes, 0, o.node);
  }

  lemma StoppedShort(nodes: Tree, path: string, o: Outcome)
    requires Good(nodes) && Absolute(path) && o == WalkFrom(nodes, 0, path[1..]) && o.Short? && o.rest != ""
    ensures NoEntry(nodes, o.node, First(o.rest))
  {
    hide WellNamed, Complete, LinksOk, WalkFrom, IndexOf, Resolve;
    WalkFromResolves(nodes, 0, path[1..]);
    ShortMisses(IndexOf(nodes, |nodes|), 0, path[1..]);
    EntryFree(nodes, o.node, First(o.rest));
  }

  lemma EntryFree(nodes: Tree, x: int, name: string)
    requires WellNamed(nodes)
    ensures NoEntry(nodes, x, name) <==> (x, name) !in IndexOf(nodes, |nodes|)
  {
    IndexEntries(nodes, |nodes|);
  }

  lemma OvershootingStops(nodes: Tree, path: string, n: int, rest: string)
    requires Good(nodes) && Absolute(path) && 1 <= n < |nodes| && Overshoots(nodes, path, n, rest)
    ensures StopsAt(nodes, path, n)
  {
    hide WellNamed, Complete, LinksOk, WalkFrom, LastName, InnerSlashes, PathBelow, IndexOf;
    UnderRoot(nodes, n);
    var way := PathBelow(nodes, 0, n);
    assert path[1..] == way + "/" + rest;
    ResolvePrinted(nodes, 0, n);
    ResolveExtend(IndexOf(nodes, |nodes|), 0, way, rest);
    EntryFree(nodes, n, First(rest));
    WalkFromResolves(nodes, 0, path[1..]);
  }

  /** Opening an absolute path gives the file it is the path of; or, wrongly, a file that it overshoots. */
  lemma OpenedIff(nodes: Tree, cur: int, path: string, n: int)
    requires Good(nodes) && -1 <= cur < |nodes| && Absolute(path) && 0 <= n < |nodes|
    ensures Opened(nodes, cur, path) == n <==>
      nodes[n].data.kind == File && (path == Printed(nodes, n) || exists rest :: Overshoots(nodes, path, n, rest))
  {
    hide LastName, InnerSlashes, PathBelow, NoEntry, WalkFrom, WellNamed, Complete;
    if n > 0 {
      OpenedAt(nodes, cur, path, n);
      if StopsAt(nodes, path, n) {
        StopsOvershooting(nodes, path, n);
      }
      if rest :| Overshoots(nodes, path, n, rest) {
        OvershootingStops(nodes, path, n, rest);
      }
    }
  }

  lemma OpenedAt(nodes: Tree, cur: int, path: string, n: int)
    requires Good(nodes) && -1 <= cur < |nodes| && Absolute(path) && 1 <= n < |nodes|
    ensures Opened(nodes, cur, path) == n <==>
      nodes[n].data.kind == File && (path == Printed(nodes, n) || StopsAt(nodes, path, n))
  {
    var o := Ending(nodes, cur, path);
    ExactIffPrinted(nodes, path, n);
    EndingTail(nodes, cur, path);
    match o
    case Exact(m) =>
      ExactNotRoot(nodes, cur, path);
      PlainName(nodes[m].name);
      LastNameOfTail(path, nodes[m].name);
    case Short(m, rest) =>
      ShortLastName(path, rest);
      assert m == n ==> SlashFree(nodes[n].name);
  }

  /**
   The last name of a path is that of its tail; a path that ends where its tail begins has a slash in its last name.
   */
  lemma ShortLastName(path: string, rest: string)
    requires EndsWith(path, rest) && path != ""
    ensures if rest != "" then LastName(path) == LastName(rest) else !SlashFree(LastName(path))
  {
    var k, m := NameStart(path, |path|), |path| - |rest|;
    assert forall i :: 0 <= i < |rest| ==> rest[i] == path[m + i];
    if rest == "" {
      assert LastName(path)[|path| - 1 - k] == '/';
    } else {
      var r := NameStart(rest, |rest|);
      assert forall i :: InnerSlash(rest, i) <==> i >= 0 && InnerSlash(path, m + i);
      assert m > 0 ==> InnerSlash(path, m - 1);
      assert k >= m;
      assert r > 0 ==> InnerSlash(rest, r - 1);
      assert k > m ==> InnerSlash(rest, k - m - 1);
      assert k == m + r;
    }
  }

  // ---------------------------------------------------------------- runs

  /** Working directories are nodes that exist when they are used. */
  ghost predicate Runnable(nodes: Tree, ops: seq<Op>)
    requires Linked(nodes)
    decreases |ops|
  {
    ops == [] || (-1 <= ops[0].cur < |nodes| && Runnable(Step(nodes, ops[0]), ops[1..]))
  }

  ghost function Run(nodes: Tree, ops: seq<Op>): (nodes': Tree)
    requires Linked(nodes) && Runnable(nodes, ops)
    ensures Linked(nodes')
    decreases |ops|
  {
    if ops == [] then nodes else Run(Step(nodes, ops[0]), ops[1..])
  }

  /** Every creation that goes through makes an entry under a plain name that its directory does not hold yet. */
  ghost predicate ProperRun(nodes: Tree, ops: seq<Op>)
    requires Linked(nodes) && Runnable(nodes, ops)
    decreases |ops|
  {
    ops == [] || ((Allowed(nodes, ops[0]) ==> MakesNew(nodes, ops[0])) && ProperRun(Step(nodes, ops[0]), ops[1..]))
  }

  lemma StepKeeps(nodes: Tree, op: Op, n: int)
    requires Linked(nodes) && -1 <= op.cur < |nodes| && 0 <= n < |nodes|
    ensures var nodes' := Step(nodes, op);
      && |nodes| <= |nodes'| && Printed(nodes', n) == Printed(nodes, n)
      && nodes'[n].name == nodes[n].name && nodes'[n].data == nodes[n].data && nodes'[n].parent == nodes[n].parent
  {
    hide LinksOk, LastName, Relative, WalkFrom, PathBelow;
    if Allowed(nodes, op) {
      InsertLinked(nodes, Locate(nodes, op.cur, op.path), LastName(op.path), Made(op));
      PrintedInserted(nodes, Locate(nodes, op.cur, op.path), LastName(op.path), Made(op), n);
    }
  }

  lemma StepStaysBad(nodes: Tree, op: Op)
    requires Linked(nodes) && -1 <= op.cur < |nodes| && !WellNamed(nodes)
    ensures !WellNamed(Step(nodes, op))
  {
    hide LinksOk, SlashFree;
    var nodes' := Step(nodes, op);
    assert forall i :: 0 <= i < |nodes| ==> nodes'[i].name == nodes[i].name && nodes'[i].parent == nodes[i].parent;
  }

  lemma {:induction false} RunStaysBad(nodes: Tree, ops: seq<Op>)
    requires Linked(nodes) && Runnable(nodes, ops) && !WellNamed(nodes)
    ensures !WellNamed(Run(nodes, ops))
    decreases |ops|
  {
    if ops != [] {
      StepStaysBad(nodes, ops[0]);
      RunStaysBad(Step(nodes, ops[0]), ops[1..]);
    }
  }

  /** A run ends in a well-named tree exactly if each of its creations made a new plain name. */
  lemma {:induction false} RunGoodIff(nodes: Tree, ops: seq<Op>)
    requires Good(nodes) && Runnable(nodes, ops)
    ensures Good(Run(nodes, ops)) <==> ProperRun(nodes, ops)
    decreases |ops|
  {
    hide WellNamed, Complete, LinksOk, Step, Allowed, MakesNew;
    if ops != [] {
      StepGoodIff(nodes, ops[0]);
      if Good(Step(nodes, ops[0])) {
        RunGoodIff(Step(nodes, ops[0]), ops[1..]);
      } else {
        RunStaysBad(Step(nodes, ops[0]), ops[1..]);
      }
    }
  }

  lemma StepGoodIff(nodes: Tree, op: Op)
    requires Good(nodes) && -1 <= op.cur < |nodes|
    ensures Good(Step(nodes, op)) <==> (Allowed(nodes, op) ==> MakesNew(nodes, op))
    ensures Good(Step(nodes, op)) || !WellNamed(Step(nodes, op))
  {
    hide WellNamed, LinksOk, MakesNew, LastName, Relative, WalkFrom;
    if Allowed(nodes, op) {
      GoodIff(nodes, op);
      InsertComplete(nodes, Locate(nodes, op.cur, op.path), LastName(op.path), Made(op));
    }
  }

  /**
   Over any run that ends in a well-named tree every entry keeps its path, and from any directory the path leads to it.
   */
  lemma {:induction false} RunKeeps(nodes: Tree, ops: seq<Op>, n: int, cur: int)
    requires Linked(nodes) && Runnable(nodes, ops) && 0 <= n < |nodes| && -1 <= cur < |nodes|
    ensures var nodes' := Run(nodes, ops);
      && |nodes| <= |nodes'| && Printed(nodes', n) == Printed(nodes, n)
      && nodes'[n].name == nodes[n].name && nodes'[n].data == nodes[n].data && nodes'[n].parent == nodes[n].parent
      && (Good(nodes') ==> Locate(nodes', cur, Printed(nodes, n)) == n)
    decreases |ops|
  {
    if ops == [] {
      if Good(nodes) {
        LocatePrinted(nodes, cur, n);
      }
    } else {
      StepKeeps(nodes, ops[0], n);
      RunKeeps(Step(nodes, ops[0]), ops[1..], n, cur);
    }
  }

  // ---------------------------------------------------------------- concrete cases

  function EmptyTree(): (nodes: Tree) {
    [TreeNode("/", Entry(Directory, 0, None), -1, -1, -1)]
  }

  lemma EmptyGood()
    ensures Good(EmptyTree())
  {
    assert LinksOk(EmptyTree(), 0);
  }

  lemma {:induction false} OneInnerSlash(a: string, b: string, n: nat)
    requires SlashFree(a) && SlashFree(b) && n <= |a + "/" + b|
    ensures InnerSlashes(a + "/" + b, n) <= if n <= |a| then 0 else 1
  {
    if n > 0 {
      OneInnerSlash(a, b, n - 1);
      var path := a + "/" + b;
      assert n - 1 < |a| ==> path[n - 1] == a[n - 1];
      assert n - 1 > |a| ==> path[n - 1] == b[n - 2 - |a|];
    }
  }

  /** Where the walk of `/a/b` ends if the root has no entry `a`. */
  lemma TwoNamesEnd(nodes: Tree, cur: int, a: string, b: string)
    requires Good(nodes) && -1 <= cur < |nodes| && a != "" && SlashFree(a) && b != "" && SlashFree(b)
    requires NoEntry(nodes, 0, a)
    ensures var path := "/" + a + "/" + b;
      Absolute(path) && Ending(nodes, cur, path) == Short(0, a + "/" + b) && Locate(nodes, cur, path) == 0 &&
        LastName(path) == b
  {
    hide WellNamed, Complete, LinksOk, WalkFrom, IndexOf, LastName;
    var path, rest := "/" + a + "/" + b, a + "/" + b;
    assert path[1..] == rest;
    WalkFromResolves(nodes, 0, rest);
    FirstExtended(a, b);
    StartsFirst(a, a);
    EntryFree(nodes, 0, a);
    OneInnerSlash(a, b, |rest|);
    JoinEnds("/" + a, b);
    PlainName(b);
    LastNameOfTail(path, b);
  }

  lemma NewestFirst(nodes: Tree, x: nat, name: string, data: Entry)
    requires Linked(nodes) && x < |nodes| && name != "" && Linked(Insert(nodes, x, name, data))
    ensures WalkFrom(Insert(nodes, x, name, data), x, name) == Exact(|nodes|)
  {
    FirstChild(Insert(nodes, x, name, data), x);
  }

  /**
   With two names missing, the last is made in the wrong place: `/a/b` is made as `/b`. An entry `/b` that exists is
   made a second time, and its path leads to the new one.
   */
  lemma TwoMissing(nodes: Tree, cur: int, a: string, b: string)
    requires Good(nodes) && -1 <= cur < |nodes| && a != "" && SlashFree(a) && b != "" && SlashFree(b)
    requires NoEntry(nodes, 0, a)
    ensures var op := Mkdir(cur, "/" + a + "/" + b); var nodes' := Step(nodes, op);
      && Allowed(nodes, op) && |nodes'| == |nodes| + 1 && Printed(nodes', |nodes|) == "/" + b
      && Locate(nodes', cur, "/" + b) == |nodes| && (Good(nodes') <==> NoEntry(nodes, 0, b))
  {
    hide WellNamed, Complete, LinksOk, WalkFrom, LastName;
    var op := Mkdir(cur, "/" + a + "/" + b);
    TwoNamesEnd(nodes, cur, a, b);
    assert nodes[0].name != b by { assert "/"[0] == '/'; }
    GoodIff(nodes, op);
    PrintedNew(nodes, 0, b, Made(op));
    NewestFirst(nodes, 0, b, Made(op));
    UnderRoot(nodes, 0);
    assert ("/" + b)[1..] == b;
  }

  /** A file is also opened by a path that names it and then itself once more. */
  lemma OpenedBeyond(nodes: Tree, cur: int, n: int)
    requires Good(nodes) && -1 <= cur < |nodes| && 1 <= n < |nodes| && nodes[n].data.kind == File
    requires NoEntry(nodes, n, nodes[n].name)
    ensures Opened(nodes, cur, Printed(nodes, n) + "/" + nodes[n].name) == n
  {
    var name := nodes[n].name;
    var path := Printed(nodes, n) + "/" + name;
    StartsFirst(name, name);
    NoInnerSlashes(name, |name|);
    PlainName(name);
    LastNameOfTail(name, name);
    assert Overshoots(nodes, path, n, name);
    OpenedIff(nodes, cur, path, n);
  }

  /** A directory cannot hold an entry of its own name. */
  lemma OwnNameRefused(nodes: Tree, op: Op)
    requires Good(nodes) && -1 <= op.cur < |nodes| && OneMissing(nodes, op.cur, op.path)
    requires nodes[Ending(nodes, op.cur, op.path).node].name == Ending(nodes, op.cur, op.path).rest
    ensures Step(nodes, op) == nodes
  {
    AllowedIff(nodes, op);
  }
}
