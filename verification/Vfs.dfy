/**
 The virtual file system's mount tree as it is kept in memory: nodes linked by `parent`, `children` and `next`.
 */
module Vfs {
  import opened SiblingTree
  import opened MountTree

  class MountTable {
    var fses: seq<FileSystem>
    var root: Node?<FileSystem>
    ghost var arena: seq<Node<FileSystem>>
    ghost var nodes: seq<MountNode>
    ghost var mounts: seq<MountPoint>

    ghost predicate Valid()
      reads this, arena
    {
      && LaidOut(arena, nodes) && |mounts| == |nodes| && Ptr(arena, root, if |nodes| == 0 then -1 else 0)
      && (|nodes| > 0 ==> Represents(nodes, mounts))
    }

    constructor ()
      ensures Valid() && mounts == [] && fses == [] && root == null
    {
      fses, root, arena, nodes, mounts := [], null, [], [], [];
    }

    method AddFs(fs: FileSystem)
      requires Valid()
      modifies this`fses
      ensures Valid() && fses == old(fses) + [fs]
    {
      fses := fses + [fs];
    }

    /** The first file system registered under a name. */
    method FindFs(source: string) returns (found: bool, fs: FileSystem)
      ensures found <==> exists i :: 0 <= i < |fses| && fses[i].name == source
      ensures found ==>
        exists i :: 0 <= i < |fses| && fses[i] == fs && fs.name == source && forall j :: 0 <= j < i ==>
          fses[j].name != source
    {
      found, fs := false, FileSystem(0, "");
      for i := 0 to |fses|
        invariant !found && forall j :: 0 <= j < i ==> fses[j].name != source
      {
        if fses[i].name == source {
          return true, fses[i];
        }
      }
    }

    /**
     Puts a file system on a target: the table gains one row at its end, or nothing changes if the name is unknown.
     */
    method Mount(source: string, target: string) returns (ok: bool)
      requires Valid()
      modifies this, arena
      ensures Valid() && fses == old(fses)
      ensures ok <==> exists i :: 0 <= i < |fses| && fses[i].name == source
      ensures !ok ==> mounts == old(mounts) && nodes == old(nodes)
      ensures ok ==>
        exists i :: 0 <= i < |fses| && fses[i].name == source && (forall j :: 0 <= j < i ==> fses[j].name != source)
                       && mounts == old(mounts) + [MountPoint(target, fses[i])]
    {
      hide Represents;
      var fs;
      ok, fs := FindFs(source);
      if !ok {
        return;
      }
      if root == null {
        root := new Node(target, fs, null, null);
        arena, nodes, mounts := [root], [TreeNode(target, fs, -1, -1, -1)], [MountPoint(target, fs)];
        RootRepresents(target, fs, target);
        return;
      }
      var parent, rest := Descend(target);
      Attach(parent, rest, target, fs);
    }

    /** Walks down the tree for as long as a fragment starts the target. */
    method Descend(target: string) returns (parent: Node<FileSystem>, rest: string)
      requires Valid() && nodes != []
      ensures Linked(nodes)
      ensures Ptr(arena, parent, PlaceRoot(nodes, target).0) && rest == PlaceRoot(nodes, target).1
    {
      hide Represents, Complete;
      RepresentsLinked(nodes, mounts);
      FirstChild(nodes, 0);
      assert Laid(arena, nodes, 0);
      var head := root.children;
      parent, rest := root, target;
      ghost var h, p := nodes[0].children, 0;
      while head != null && rest != ""
        invariant At(nodes, h, p) && Ptr(arena, head, h) && Ptr(arena, parent, p)
        invariant Place(nodes, h, p, rest) == PlaceRoot(nodes, target)
        decreases |nodes| - p, h
      {
        Moves(nodes, h, p);
        assert Laid(arena, nodes, h);
        if head.name <= rest {
          if |head.name| < |rest| && rest[|head.name|] != '/' {
            h := nodes[h].next;
            head := head.next;
            continue;
          }
          p, h := h, nodes[h].children;
          parent := head;
          rest := rest[|head.name|..];
          head := head.children;
          continue;
        }
        h := nodes[h].next;
        head := head.next;
      }
    }

    /** Hangs the new node under the place found for its target. */
    method Attach(parent: Node<FileSystem>, rest: string, target: string, fs: FileSystem)
      requires Valid() && nodes != [] && Linked(nodes)
      requires Ptr(arena, parent, PlaceRoot(nodes, target).0) && rest == PlaceRoot(nodes, target).1
      modifies this`arena, this`nodes, this`mounts, parent`children
      ensures Valid() && mounts == old(mounts) + [MountPoint(target, fs)]
    {
      hide Represents;
      MountRepresents(nodes, mounts, target, fs);
      ghost var x := PlaceRoot(nodes, target).0;
      var node := AddChild(arena, nodes, x, parent, rest, fs);
      nodes := Insert(nodes, x, rest, fs);
      arena := arena + [node];
      mounts := mounts + [MountPoint(target, fs)];
    }

    /** The file system that answers for a path, and the path it is asked for. */
    method GetAbsolutePath(path: string) returns (fsPath: string, fs: FileSystem)
      requires Valid() && nodes != []
      ensures fs == mounts[Latest(mounts, path)].fs
      ensures Prefix(mounts, Latest(mounts, path)) + fsPath == path
      ensures AnswersLatest(mounts, path, Latest(mounts, path), fsPath)
    {
      hide Represents, Complete, AnswersLatest;
      RepresentsLinked(nodes, mounts);
      FirstChild(nodes, 0);
      assert Laid(arena, nodes, 0);
      var head, parent := root.children, root;
      fsPath := path;
      ghost var h, p := nodes[0].children, 0;
      while head != null
        invariant At(nodes, h, p) && Ptr(arena, head, h) && Ptr(arena, parent, p)
        invariant Lookup(nodes, h, p, fsPath) == LookupRoot(nodes, path)
        decreases |nodes| - p, h
      {
        Moves(nodes, h, p);
        assert Laid(arena, nodes, h);
        if head.name <= fsPath {
          if |head.name| == |fsPath| || fsPath[|head.name|] != '/' {
            h := nodes[h].next;
            head := head.next;
            continue;
          }
          p, h := h, nodes[h].children;
          parent := head;
          fsPath := fsPath[|head.name|..];
          head := head.children;
          continue;
        }
        h := nodes[h].next;
        head := head.next;
      }
      assert Laid(arena, nodes, p);
      fs := parent.data;
      ResolvedBy(nodes, mounts, path);
      LatestAnswers(mounts, path, fsPath);
    }
  }

  /**
   Mount `r` is asked for `fsPath`: the root for the whole path, another mount for what follows its target, from the
   slash on; no later mount's target and a slash begin the path.
   */
  ghost predicate AnswersLatest(mounts: seq<MountPoint>, path: string, r: nat, fsPath: string) {
    && r < |mounts|
    && (if r == 0 then fsPath == path else mounts[r].target + fsPath == path && "/" <= fsPath)
    && forall j :: r < j < |mounts| ==> !(mounts[j].target + "/" <= path)
  }

  lemma LatestAnswers(mounts: seq<MountPoint>, path: string, fsPath: string)
    requires mounts != [] && Prefix(mounts, Latest(mounts, path)) + fsPath == path
    ensures AnswersLatest(mounts, path, Latest(mounts, path), fsPath)
  {
    var r := Latest(mounts, path);
    if r > 0 {
      assert path[|mounts[r].target|] == fsPath[0];
    }
    forall j | r < j < |mounts| ensures !(mounts[j].target + "/" <= path) {
      LeadsWithSlash(mounts[j].target, path);
    }
  }
}
