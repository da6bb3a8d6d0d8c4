/** create_reverse_folder, fill_folder and run of semestr1/Task3/Task3_1/main.c: one disk is read and written. */
module ReverseFolder {
  import opened ReverseFile
  import opened ReverseTree

  predicate ParentIsDir(disk: Disk, path: Path) {
    0 < |path| && (1 < |path| ==> path[..|path| - 1] in disk && disk[path[..|path| - 1]] == DirInode)
  }

  ghost predicate NothingBelow(disk: Disk, path: Path) {
    forall p :: Under(path, p) && p in disk ==> p == path
  }

  lemma {:induction false} NothingBelowMissing(disk: Disk, path: Path, p: Path)
    requires Rooted(disk) && 0 < |path| && path !in disk && Under(path, p)
    ensures p !in disk
    decreases |p|
  {
    if p != path {
      NothingBelowMissing(disk, path, p[..|p| - 1]);
    }
  }

  lemma RootedAfter(disk: Disk, path: Path, inode: Inode)
    requires Rooted(disk) && path !in disk && ParentIsDir(disk, path)
    ensures Rooted(disk[path := inode]) && SameOutside(disk, disk[path := inode], path)
  {
  }

  lemma ParentElsewhere(d: Disk, d': Disk, path: Path, back: Path)
    requires SameOutside(d, d', path) && Apart(path, back)
    ensures ParentIsDir(d', back) <==> ParentIsDir(d, back)
    ensures back in d' <==> back in d
  {
    if 1 < |back| {
      assert !Under(path, back[..|back| - 1]);
    }
  }

  /** The entry `m` has been dealt with: an exact mirror if that is possible, and nothing foreign. */
  ghost predicate EntryDone(disk: Disk, path: Path, t: Tree, m: Name)
    requires t.Dir? && m in t.children
  {
    && Within(disk, path + [Reversed(m)], t.children[m])
    && (NoSpecial(t.children[m]) ==> SubtreeIs(disk, path + [Reversed(m)], Mirror(t.children[m])))
  }

  /** Writing below one entry's image leaves the others alone. */
  lemma EntryKept(d: Disk, d': Disk, path: Path, t: Tree, m: Name, n: Name)
    requires t.Dir? && m in t.children && m != n && EntryDone(d, path, t, m)
    requires SameOutside(d, d', path + [Reversed(n)])
    ensures EntryDone(d', path, t, m)
  {
    ReversedTwice(m);
    ReversedTwice(n);
    var q, r := path + [Reversed(m)], path + [Reversed(n)];
    forall p | Under(q, p)
      ensures !Under(r, p)
    {
      assert p[|path|] == Reversed(m);
    }
    SubtreeDependsOnlyBelow(d, d', q, t.children[m]);
    SubtreeDependsOnlyBelow(d, d', q, Mirror(t.children[m]));
  }

  /** Only images of entries already read lie directly below `path`. */
  ghost predicate OnlyImages(disk: Disk, path: Path, t: Tree, left: set<Name>)
    requires t.Dir?
  {
    forall n: Name :: path + [n] in disk ==> Reversed(n) in t.children && Reversed(n) !in left
  }

  /** The loop invariant of fill_folder, with the names in `left` still to be read. */
  ghost predicate Filling(start: Disk, disk: Disk, path: Path, t: Tree, left: set<Name>)
    requires t.Dir?
  {
    && SameOutside(start, disk, path) && path in disk && disk[path] == DirInode
    && OnlyImages(disk, path, t, left)
    && forall m :: m in t.children && m !in left ==> EntryDone(disk, path, t, m)
  }

  lemma FillingStarts(disk: Disk, path: Path, t: Tree, left: set<Name>)
    requires t.Dir? && path in disk && disk[path] == DirInode && NothingBelow(disk, path) && t.children.Keys <= left
    ensures Filling(disk, disk, path, t, left)
  {
  }

  lemma NotYetThere(disk: Disk, path: Path, t: Tree, n: Name, left: set<Name>)
    requires t.Dir? && n in left && OnlyImages(disk, path, t, left)
    ensures path + [Reversed(n)] !in disk
  {
    ReversedTwice(n);
  }

  lemma OutsideAfter(start: Disk, before: Disk, disk: Disk, path: Path, n: Name)
    requires SameOutside(start, before, path) && SameOutside(before, disk, path + [n])
    ensures SameOutside(start, disk, path)
    ensures path in before ==> path in disk && disk[path] == before[path]
  {
    assert !Under(path + [n], path);
    assert forall p :: Under(path + [n], p) ==> Under(path, p);
  }

  lemma ImagesAfter(before: Disk, disk: Disk, path: Path, t: Tree, n: Name, left: set<Name>)
    requires t.Dir? && n in t.children && OnlyImages(before, path, t, left)
    requires SameOutside(before, disk, path + [Reversed(n)])
    ensures OnlyImages(disk, path, t, left - {n})
  {
    forall k: Name | path + [k] in disk
      ensures Reversed(k) in t.children && Reversed(k) !in left - {n}
    {
      if k == Reversed(n) {
        ReversedTwice(n);
      } else {
        assert !Under(path + [Reversed(n)], path + [k]) by {
          assert (path + [k])[|path|] == k && (path + [Reversed(n)])[|path|] == Reversed(n);
        }
      }
    }
  }

  /** The loop invariant after one more entry. */
  lemma StillFilling(start: Disk, before: Disk, disk: Disk, path: Path, t: Tree, n: Name, left: set<Name>)
    requires t.Dir? && n in left && n in t.children && Filling(start, before, path, t, left)
    requires SameOutside(before, disk, path + [Reversed(n)]) && EntryDone(disk, path, t, n)
    ensures Filling(start, disk, path, t, left - {n})
  {
    OutsideAfter(start, before, disk, path, Reversed(n));
    ImagesAfter(before, disk, path, t, n, left);
    forall m | m in t.children && m !in left - {n}
      ensures EntryDone(disk, path, t, m)
    {
      if m != n {
        EntryKept(before, disk, path, t, m, n);
      }
    }
  }

  /** What is there when the loop ends, at a special entry or after the last one. */
  lemma FolderWithin(start: Disk, disk: Disk, path: Path, t: Tree, left: set<Name>)
    requires t.Dir? && Filling(start, disk, path, t, left)
    ensures Within(disk, path, t)
  {
    forall n: Name | path + [n] in disk
      ensures Reversed(n) in t.children && Within(disk, path + [n], t.children[Reversed(n)])
    {
      ReversedTwice(n);
      assert EntryDone(disk, path, t, Reversed(n));
    }
  }

  lemma FolderDone(start: Disk, disk: Disk, path: Path, t: Tree)
    requires t.Dir? && Filling(start, disk, path, t, {})
    ensures NoSpecial(t) ==> SubtreeIs(disk, path, Mirror(t))
    ensures forall n :: n in t.children ==> !t.children[n].Special?
  {
    forall n | n in t.children
      ensures !t.children[n].Special?
    {
      assert EntryDone(disk, path, t, n);
    }
    if NoSpecial(t) {
      var mirror := Mirror(t).children;
      forall n: Name
        ensures path + [n] in disk <==> n in mirror
        ensures n in mirror ==> SubtreeIs(disk, path + [n], mirror[n])
      {
        ReversedTwice(n);
        if Reversed(n) in t.children {
          MirrorChild(t, Reversed(n));
          assert EntryDone(disk, path, t, Reversed(n));
        } else if n in mirror {
          MirrorHasNoOther(t, n);
        }
      }
    }
  }

  /** How the loop ended, with a special entry met or all entries done. */
  lemma FolderEnds(start: Disk, disk: Disk, path: Path, t: Tree, left: set<Name>, ok: bool)
    requires t.Dir? && Filling(start, disk, path, t, left) && (ok ==> left == {})
    requires !ok ==> exists n :: n in t.children && t.children[n].Special?
    ensures Within(disk, path, t)
    ensures ok <==> forall n :: n in t.children ==> !t.children[n].Special?
    ensures NoSpecial(t) ==> ok && SubtreeIs(disk, path, Mirror(t))
  {
    FolderWithin(start, disk, path, t, left);
    if ok {
      FolderDone(start, disk, path, t);
    } else {
      var n :| n in t.children && t.children[n].Special?;
      assert !NoSpecial(t.children[n]);
    }
  }

  /** The sibling whose name is the folder's name reversed. */
  function Beside(folder: Path): Path
    requires 0 < |folder|
  {
    folder[..|folder| - 1] + [Reversed(folder[|folder| - 1])]
  }

  /** The copy lies in the same folder, under the name spelled backwards. */
  lemma BesideIsBackwards(folder: Path)
    requires 0 < |folder|
    ensures var n, m := folder[|folder| - 1], Beside(folder)[|folder| - 1];
            && |Beside(folder)| == |folder| && (forall k :: 0 <= k < |folder| - 1 ==> Beside(folder)[k] == folder[k])
            && |m| == |n| && forall i :: 0 <= i < |n| ==> m[i] == n[|n| - 1 - i]
  {
  }

  lemma BesideTwice(folder: Path)
    requires 0 < |folder|
    ensures Beside(Beside(folder)) == folder
  {
    ReversedTwice(folder[|folder| - 1]);
  }

  class FileSystem {
    var disk: Disk

    method Mkdir(path: Path) returns (ok: bool)
      modifies this
      ensures ok <==> path !in old(disk) && ParentIsDir(old(disk), path)
      ensures disk == if ok then old(disk)[path := DirInode] else old(disk)
    {
      ok := path !in disk && ParentIsDir(disk, path);
      if ok {
        disk := disk[path := DirInode];
      }
    }

    /** create_reverse_file of a file that opens, on a disk that reads and writes without errors. */
    method ReverseInto(origin: Path, path: Path) returns (ok: bool)
      requires origin in disk && disk[origin].FileInode? && path !in disk
      modifies this
      ensures ok <==> ParentIsDir(old(disk), path)
      ensures disk == if ok then old(disk)[path := FileInode(Reversed(old(disk)[origin].content))] else old(disk)
    {
      if !ParentIsDir(disk, path) {
        return false;
      }
      var content := disk[origin].content;
      var input := new InStream(content, |content|);
      var output := new OutStream(|content|);
      ok := CreateReverseFile(input, output, BUFFER_SIZE);
      disk := disk[path := FileInode(output.data)];
    }

    /** One entry of the folder, as the body of the readdir loop handles it. */
    method ReverseEntry(origin: Path, n: Name, path: Path, ghost t: Tree) returns (ok: bool)
      requires t.Dir? && Listed(t) && SubtreeIs(disk, origin, t) && n in t.children
      requires Apart(origin, path) && Rooted(disk)
      requires path in disk && disk[path] == DirInode && path + [Reversed(n)] !in disk
      modifies this
      ensures Rooted(disk) && SameOutside(old(disk), disk, path + [Reversed(n)])
      ensures ok <==> !t.children[n].Special?
      ensures ok ==> EntryDone(disk, path, t, n)
      ensures !ok ==> disk == old(disk)
      decreases t, 0
    {
      var p, q := origin + [n], path + [Reversed(n)];
      assert q[..|q| - 1] == path;
      ApartChildren(origin, path, n, Reversed(n));
      assert SubtreeIs(disk, p, t.children[n]);
      match disk[p]
      case SpecialInode(NotAFile) =>
        ok := false;
      case SpecialInode(CannotOpen) =>
        ok := CreateReverseFile(null, null, BUFFER_SIZE);
      case FileInode(_) =>
        ok := ReverseInto(p, q);
        RootedAfter(old(disk), q, disk[q]);
      case DirInode =>
        ok := CreateReverseFolder(p, q, t.children[n]);
    }

    /** One turn of the readdir loop, with the names in `left` still to come. */
    method HandleEntry(origin: Path, n: Name, path: Path, ghost t: Tree, ghost start: Disk, ghost left: set<Name>)
      returns (ok: bool)
      requires t.Dir? && Listed(t) && SubtreeIs(start, origin, t) && Apart(origin, path)
      requires Rooted(disk) && Filling(start, disk, path, t, left)
      requires n in left && (n in t.children || IsCurrOrPrevDir(n))
      modifies this
      ensures Rooted(disk)
      ensures ok ==> Filling(start, disk, path, t, left - {n})
      ensures !ok ==> disk == old(disk) && n in t.children && t.children[n].Special?
      decreases t, 1
    {
      if IsCurrOrPrevDir(n) {
        return true;
      }
      NotYetThere(disk, path, t, n, left);
      ElsewhereKept(start, disk, path, origin, t);
      ok := ReverseEntry(origin, n, path, t);
      if ok {
        StillFilling(start, old(disk), disk, path, t, n, left);
      }
    }

    /** The readdir loop, which may see the names in any order; a special entry ends it. */
    method FillEntries(origin: Path, names: set<Name>, path: Path, ghost t: Tree)
      returns (ok: bool, ghost left: set<Name>)
      requires t.Dir? && Listed(t) && SubtreeIs(disk, origin, t) && Apart(origin, path)
      requires forall n :: n in names ==> n in t.children || IsCurrOrPrevDir(n)
      requires Rooted(disk) && Filling(disk, disk, path, t, names)
      modifies this
      ensures Rooted(disk) && Filling(old(disk), disk, path, t, left)
      ensures ok ==> left == {}
      ensures !ok ==> exists n :: n in t.children && t.children[n].Special?
      decreases t, 2
    {
      var unread := names;
      while unread != {}
        invariant unread <= names
        invariant Rooted(disk) && Filling(old(disk), disk, path, t, unread)
        decreases unread
      {
        var n :| n in unread;
        ok := HandleEntry(origin, n, path, t, old(disk), unread);
        if !ok {
          return false, unread;
        }
        unread := unread - {n};
      }
      return true, unread;
    }

    /** Reads the folder `origin` and writes the images of its entries.  `t` is what lies at `origin`. */
    method FillFolder(origin: Path, path: Path, ghost t: Tree) returns (ok: bool)
      requires SubtreeIs(disk, origin, t) && Listed(t) && Apart(origin, path) && Rooted(disk)
      requires path in disk && disk[path] == DirInode && NothingBelow(disk, path)
      modifies this
      ensures Rooted(disk) && SameOutside(old(disk), disk, path)
      ensures ok <==> t.Dir? && forall n :: n in t.children ==> !t.children[n].Special?
      ensures if t.Dir? then Within(disk, path, t) else disk == old(disk)
      ensures t.Dir? && NoSpecial(t) ==> SubtreeIs(disk, path, Mirror(t))
      decreases t, 3
    {
      if disk[origin] != DirInode {
        return false;
      }
      var names := Names(disk, origin);
      assert names == t.children.Keys;
      FillingStarts(disk, path, t, names + {".", ".."});
      ghost var left;
      ok, left := FillEntries(origin, names + {".", ".."}, path, t);
      FolderEnds(old(disk), disk, path, t, left, ok);
    }

    /** mkdir, then fill; the result of filling is not looked at.  The original is left as it was, and
        the copy is complete exactly when it holds only directories and regular files. */
    method CreateReverseFolder(origin: Path, path: Path, ghost t: Tree) returns (ok: bool)
      requires SubtreeIs(disk, origin, t) && Listed(t) && Rooted(disk) && (origin == path || Apart(origin, path))
      modifies this
      ensures Rooted(disk) && SameOutside(old(disk), disk, path)
      ensures ok <==> path !in old(disk) && ParentIsDir(old(disk), path)
      ensures !ok ==> disk == old(disk)
      ensures SubtreeIs(disk, origin, t)
      ensures ok && !t.Dir? ==> disk == old(disk)[path := DirInode]
      ensures ok && t.Dir? ==> Within(disk, path, t) && (Covered(disk, path, t) <==> NoSpecial(t))
      ensures ok && t.Dir? && NoSpecial(t) ==> SubtreeIs(disk, path, Mirror(t))
      decreases t, 4
    {
      ok := Mkdir(path);
      if !ok {
        return;
      }
      RootedAfter(old(disk), path, DirInode);
      ElsewhereKept(old(disk), disk, path, origin, t);
      forall p | Under(path, p) && p != path
        ensures p !in disk
      {
        NothingBelowMissing(old(disk), path, p);
      }
      var filled := FillFolder(origin, path, t);
      ElsewhereKept(old(disk), disk, path, origin, t);
      if t.Dir? {
        if NoSpecial(t) {
          MirrorCovers(disk, path, t);
        } else if Covered(disk, path, t) {
          CoveredHasNoSpecial(disk, path, t);
        }
      }
    }

    /** The copier run on its own copy: the second copy is the original again, exactly when the original
        holds only directories and regular files; the original itself is still there. */
    method ReverseTwice(origin: Path, path: Path, back: Path, ghost t: Tree) returns (ok: bool)
      requires t.Dir? && SubtreeIs(disk, origin, t) && Listed(t) && Rooted(disk)
      requires Apart(origin, path) && Apart(path, back) && Apart(origin, back)
      modifies this
      ensures ok <==> && path !in old(disk) && ParentIsDir(old(disk), path)
                      && back !in old(disk) && ParentIsDir(old(disk), back)
      ensures ok ==> SubtreeIs(disk, origin, t)
      ensures ok ==> (SubtreeIs(disk, back, t) <==> NoSpecial(t))
      ensures ok ==> forall p :: !Under(path, p) && !Under(back, p) ==>
                       (p in old(disk) <==> p in disk) && (p in old(disk) ==> disk[p] == old(disk)[p])
    {
      ok := CreateReverseFolder(origin, path, t);
      if !ok {
        return;
      }
      ghost var copy := TreeAt(disk, path);
      TreeAtIs(disk, path);
      CopyHasNoSpecial(disk, path, t, copy);
      CopyIsListed(disk, path, t, copy);
      if NoSpecial(t) {
        SubtreeUnique(disk, path, copy, Mirror(t));
        MirrorTwice(t);
      }
      ghost var between := disk;
      ParentElsewhere(old(disk), disk, path, back);
      ok := CreateReverseFolder(path, back, copy);
      if ok {
        ElsewhereKept(between, disk, back, origin, t);
        if SubtreeIs(disk, back, t) {
          SubtreeUnique(disk, back, t, Mirror(copy));
          MirrorHasNoSpecial(copy);
        }
      }
    }

    /** What run does with an argument: the copy goes beside the folder, under the reversed name. */
    method ReverseArgument(folder: Path, ghost t: Tree) returns (ok: bool)
      requires 0 < |folder| && SubtreeIs(disk, folder, t) && Listed(t) && Rooted(disk)
      modifies this
      ensures ok <==> Beside(folder) !in old(disk) && ParentIsDir(old(disk), folder)
      ensures |Beside(folder)| == |folder| && forall k :: 0 <= k < |folder| - 1 ==> Beside(folder)[k] == folder[k]
      ensures var n, m := folder[|folder| - 1], Beside(folder)[|folder| - 1];
              |m| == |n| && forall i :: 0 <= i < |n| ==> m[i] == n[|n| - 1 - i]
      ensures Rooted(disk) && SubtreeIs(disk, folder, t) && (!ok ==> disk == old(disk))
      ensures ok && t.Dir? ==> Within(disk, Beside(folder), t) && (Covered(disk, Beside(folder), t) <==> NoSpecial(t))
      ensures ok && t.Dir? && NoSpecial(t) ==> SubtreeIs(disk, Beside(folder), Mirror(t))
    {
      BesideIsBackwards(folder);
      assert folder == Beside(folder) || Apart(folder, Beside(folder)) by {
        assert |folder| == |Beside(folder)|;
      }
      assert Beside(folder)[..|folder| - 1] == folder[..|folder| - 1];
      ok := CreateReverseFolder(folder, Beside(folder), t);
    }

    /** On the command line the copy cannot be copied back: the folder is still in the way. */
    method ReverseArgumentAgain(folder: Path, ghost t: Tree) returns (first: bool, second: bool)
      requires 0 < |folder| && t.Dir? && SubtreeIs(disk, folder, t) && Listed(t) && Rooted(disk)
      modifies this
      ensures SubtreeIs(disk, folder, t) && (first ==> !second)
    {
      first := ReverseArgument(folder, t);
      if !first {
        return false, false;
      }
      ghost var copy := TreeAt(disk, Beside(folder));
      TreeAtIs(disk, Beside(folder));
      CopyIsListed(disk, Beside(folder), t, copy);
      BesideTwice(folder);
      second := ReverseArgument(Beside(folder), copy);
    }
  }
}
