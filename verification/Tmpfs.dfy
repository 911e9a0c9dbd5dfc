/**
 tmpfs as it is kept in memory: nodes linked by `parent`, `children` and `next`, new entries in front of their siblings.
 */
module Tmpfs {
  import opened SiblingTree
  import opened Wrappers
  import opened TmpfsSpec
  import opened TmpfsCreation

  type FileNode = Node<Entry>

  datatype FileDescription = FileDescription(file: FileNode, mode: nat, offset: nat)

  /** The create flag is the lowest bit of the mode. */
  predicate Creates(mode: nat) {
    mode % 2 == 1
  }

  /** The name after the last slash that is not at the end of the path. */
  method GetNameFromPath(path: string) returns (name: string)
    ensures name == LastName(path)
    ensures path != "" ==> name != "" && EndsWith(path, name)
  {
    var i, lastSlash := 0, -1;
    while i < |path|
      invariant 0 <= i <= |path| && lastSlash + 1 == NameStart(path, i)
    {
      if path[i] == '/' && i + 1 < |path| {
        lastSlash := i;
      }
      i := i + 1;
    }
    name := path[lastSlash + 1..];
  }

  /** More than one slash of the rest is followed by something. */
  method TooMuchLeft(rest: string) returns (b: bool)
    ensures b <==> InnerSlashes(rest, |rest|) > 1
  {
    var i, count := 0, 0;
    while i < |rest|
      invariant 0 <= i <= |rest| && count == InnerSlashes(rest, i) <= 1
    {
      if rest[i] == '/' && i + 1 < |rest| {
        count := count + 1;
        if count > 1 {
          InnerSlashesGrow(rest, i + 1, |rest|);
          return true;
        }
      }
      i := i + 1;
    }
    return false;
  }

  class Tmpfs {
    var root: FileNode
    ghost var arena: seq<FileNode>
    ghost var nodes: Tree

    ghost predicate Valid()
      reads this, arena
    {
      LaidOut(arena, nodes) && Linked(nodes) && Complete(nodes) && Ptr(arena, root, 0)
    }

    constructor ()
      ensures Valid() && fresh(arena) && nodes == EmptyTree() && Good(nodes)
    {
      hide Good, WellNamed;
      EmptyGood();
      root := new Node("/", Entry(Directory, 0, None), null, null);
      arena, nodes := [root], EmptyTree();
    }

    /** Takes the leading `./` and `../` off a relative path. */
    method SkipDots(path: string, dir: FileNode, ghost d: nat) returns (node: Node?<Entry>, rest: string)
      requires Valid() && Ptr(arena, dir, d)
      ensures Ptr(arena, node, Relative(nodes, d, path).0) && (node != null ==> rest == Relative(nodes, d, path).1)
    {
      node, rest := dir, path;
      ghost var p: int := d;
      while rest != "" && rest[0] == '.' && node != null
        invariant -1 <= p < |nodes| && Ptr(arena, node, p)
        invariant Relative(nodes, p, rest) == Relative(nodes, d, path)
        decreases |rest|
      {
        if 1 < |rest| && rest[1] == '.' {
          if |rest| <= 2 || rest[2] != '/' {
            return null, rest;
          }
          assert Laid(arena, nodes, p);
          p := nodes[p].parent;
          node := node.parent;
          rest := rest[3..];
          continue;
        }
        if |rest| <= 1 || rest[1] != '/' {
          return null, rest;
        }
        rest := rest[2..];
      }
    }

    /** The node of a path; its parent if only the last name is missing. */
    method PathToNode(path: string, dir: Node?<Entry>, ghost d: int) returns (node: Node?<Entry>)
      requires Valid() && -1 <= d < |nodes| && Ptr(arena, dir, d)
      ensures Ptr(arena, node, Locate(nodes, d, path))
    {
      var rest := path;
      ghost var p: int := 0;
      if path == "" || path[0] != '/' {
        if dir == null {
          return null;
        }
        node, rest := SkipDots(path, dir, d);
        if node == null {
          return;
        }
        p := Relative(nodes, d, path).0;
      } else {
        node, rest := root, path[1..];
      }
      node := WalkDown(node, p, rest);
    }

    /** Follows the names of `path` down from `dir`. */
    method WalkDown(dir: FileNode, ghost d: nat, path: string) returns (node: Node?<Entry>)
      requires Valid() && Ptr(arena, dir, d)
      ensures Ptr(arena, node, Settle(WalkFrom(nodes, d, path)))
    {
      hide Complete, LinksOk, InnerSlashes;
      FirstChild(nodes, d);
      assert Laid(arena, nodes, d);
      var head, rest := dir.children, path;
      node := dir;
      ghost var h, p: int := nodes[d].children, d;
      while head != null && rest != ""
        invariant At(nodes, h, p) && Ptr(arena, head, h) && Ptr(arena, node, p) && node != null
        invariant Walk(nodes, h, p, rest) == WalkFrom(nodes, d, path)
        decreases |nodes| - p, h
      {
        Moves(nodes, h, p);
        assert Laid(arena, nodes, h);
        if head.name <= rest {
          if |head.name| < |rest| && rest[|head.name|] != '/' {
            h := nodes[h].next;
            head := head.next;
            continue;
          }
          if |head.name| == |rest| {
            return head;
          }
          p, h := h, nodes[h].children;
          node := head;
          rest := rest[|head.name| + 1..];
          head := head.children;
          continue;
        }
        h := nodes[h].next;
        head := head.next;
      }
      var tooMuch := TooMuchLeft(rest);
      if tooMuch {
        node := null;
      }
    }

    /**
     Opens a path: with the create flag a new file is made, on the page frame given for it, otherwise an existing one is
     found.
     */
    method Open(dir: Node?<Entry>, ghost d: int, path: string, mode: nat,
                frame: nat) returns (fd: Option<FileDescription>)
      requires Valid() && -1 <= d < |nodes| && Ptr(arena, dir, d)
      modifies this, arena
      ensures Valid() && root == old(root)
      ensures mode % 2 == 1 ==>
        && nodes == Step(old(nodes), OpenCreate(d, path, frame))
        && (fd.None? <==> !Allowed(old(nodes), OpenCreate(d, path, frame)))
        && (fd.Some? ==>
              && |arena| == |old(arena)| + 1 && arena[..|old(arena)|] == old(arena)
              && fd == Some(FileDescription(arena[|old(arena)|], mode, 0)))
      ensures mode % 2 == 0 ==>
        && nodes == old(nodes) && arena == old(arena)
        && (fd.None? <==> Opened(nodes, d, path) < 0)
        && (fd.Some? ==> fd == Some(FileDescription(arena[Opened(nodes, d, path)], mode, 0)))
    {
      hide Complete, Relative, LinksOk, WalkFrom, NameStart;
      var node := PathToNode(path, dir, d);
      if node == null {
        return None;
      }
      ghost var x := Locate(nodes, d, path);
      assert Laid(arena, nodes, x);
      var name := GetNameFromPath(path);
      if Creates(mode) {
        if name == node.name || node.data.kind != Directory {
          return None;
        }
        var file := Enter(node, x, name, Entry(File, 4096, Some(frame)));
        return Some(FileDescription(file, mode, 0));
      }
      if name != node.name || node.data.kind != File {
        return None;
      }
      return Some(FileDescription(node, mode, 0));
    }

    /** Makes a directory; 0 on success. */
    method MakeDirectory(dir: Node?<Entry>, ghost d: int, path: string) returns (status: int)
      requires Valid() && -1 <= d < |nodes| && Ptr(arena, dir, d)
      modifies this, arena
      ensures Valid() && root == old(root)
      ensures nodes == Step(old(nodes), Mkdir(d, path))
      ensures status == if Allowed(old(nodes), Mkdir(d, path)) then 0 else -1
    {
      hide Complete, Relative, LinksOk, WalkFrom, NameStart;
      var parent := PathToNode(path, dir, d);
      if parent == null {
        return -1;
      }
      ghost var x := Locate(nodes, d, path);
      assert Laid(arena, nodes, x);
      var name := GetNameFromPath(path);
      if name == parent.name {
        return -1;
      }
      var node := Enter(parent, x, name, Entry(Directory, 0, None));
      return 0;
    }

    /** Links a new entry under its parent. */
    method Enter(parent: FileNode, ghost x: nat, name: string, data: Entry) returns (node: FileNode)
      requires Valid() && x < |nodes| && parent == arena[x]
      modifies this`arena, this`nodes, parent`children
      ensures Valid() && fresh(node) && arena == old(arena) + [node] && nodes == Insert(old(nodes), x, name, data)
    {
      InsertLinked(nodes, x, name, data);
      InsertComplete(nodes, x, name, data);
      node := AddChild(arena, nodes, x, parent, name, data);
      nodes := Insert(nodes, x, name, data);
      arena := arena + [node];
    }
  }
}
