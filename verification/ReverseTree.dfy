/** create_reverse_folder and fill_folder of semestr1/Task3/Task3_1/main.c. */
module ReverseTree {
  import opened Bytes
  import opened ReverseFile
  import opened Wrappers

  type Name = string
  type Path = seq<Name>

  /** Why an entry is not copied: it is neither a directory nor a regular file, or it cannot be opened. */
  datatype Obstacle = NotAFile | CannotOpen

  /** The folder that is read. */
  datatype Tree = Regular(content: seq<byte>) | Dir(children: map<Name, Tree>) | Special(why: Obstacle)

  /** What is on disk at a path. */
  datatype Inode = FileInode(content: seq<byte>) | DirInode | SpecialInode(why: Obstacle)
  type Disk = map<Path, Inode>

  predicate IsCurrOrPrevDir(name: Name) {
    name == "." || name == ".."
  }

  lemma NamesReversedTwice()
    ensures forall n: Name :: Reversed(Reversed(n)) == n
  {
    forall n: Name
      ensures Reversed(Reversed(n)) == n
    {
      ReversedTwice(n);
    }
  }

  /** Sibling names never collide once reversed. */
  function ReversedNames(names: set<Name>): (r: set<Name>)
    ensures forall n: Name {:trigger n in r} :: n in r <==> Reversed(n) in names
  {
    NamesReversedTwice();
    set n | n in names :: Reversed(n)
  }

  /** Every name and every content reversed. */
  function Mirror(t: Tree): Tree {
    match t
    case Regular(content) => Regular(Reversed(content))
    case Dir(children) => Dir(map n | n in ReversedNames(children.Keys) :: Mirror(children[Reversed(n)]))
    case Special(_) => t
  }

  lemma MirrorChild(t: Tree, n: Name)
    requires t.Dir? && n in t.children
    ensures Reversed(n) in Mirror(t).children && Mirror(t).children[Reversed(n)] == Mirror(t.children[n])
  {
    ReversedTwice(n);
  }

  lemma MirrorHasNoOther(t: Tree, n: Name)
    requires t.Dir? && n in Mirror(t).children
    ensures Reversed(n) in t.children
  {
  }

  /** The child called `n` comes back under its own name. */
  lemma ChildTwice(t: Tree, n: Name)
    requires t.Dir?
    ensures Mirror(t).Dir? && Mirror(Mirror(t)).Dir?
    ensures n in Mirror(Mirror(t)).children <==> n in t.children
    ensures n in t.children ==> Mirror(Mirror(t)).children[n] == Mirror(Mirror(t.children[n]))
  {
    ReversedTwice(n);
    if n in t.children {
      MirrorChild(t, n);
      MirrorChild(Mirror(t), Reversed(n));
    } else if n in Mirror(Mirror(t)).children {
      MirrorHasNoOther(Mirror(t), n);
      MirrorHasNoOther(t, Reversed(n));
    }
  }

  lemma SameMap(a: map<Name, Tree>, b: map<Name, Tree>)
    requires forall n :: n in b ==> n in a && a[n] == b[n]
    requires forall n :: n in a ==> n in b
    ensures a == b
  {
  }

  /** Doing it twice restores the original tree. */
  lemma {:induction false} MirrorTwice(t: Tree)
    ensures Mirror(Mirror(t)) == t
  {
    match t
    case Regular(content) => ReversedTwice(content);
    case Special(_) =>
    case Dir(children) =>
      ChildTwice(t, "");
      var mm := Mirror(Mirror(t));
      var again := mm.children;
      forall n | n in children
        ensures n in again && again[n] == children[n]
      {
        ChildTwice(t, n);
        MirrorTwice(children[n]);
      }
      forall n | n in again
        ensures n in children
      {
        ChildTwice(t, n);
      }
      SameMap(again, children);
      assert mm == Dir(again);
  }

  predicate NoSpecial(t: Tree) {
    match t
    case Dir(children) => forall n :: n in children ==> NoSpecial(children[n])
    case Regular(_) => true
    case Special(_) => false
  }

  /** What lies on disk at `path` is exactly the tree `t`. */
  ghost predicate SubtreeIs(disk: Disk, path: Path, t: Tree)
    decreases t
  {
    && path in disk
    && match t
       case Regular(content) => disk[path] == FileInode(content)
       case Dir(children) =>
         && disk[path] == DirInode
         && (forall n: Name :: path + [n] in disk <==> n in children)
         && (forall n: Name :: n in children ==> SubtreeIs(disk, path + [n], children[n]))
       case Special(why) => disk[path] == SpecialInode(why)
  }

  /** Every entry of `t`, of whatever kind, has something at its reversed name. */
  ghost predicate Covered(disk: Disk, path: Path, t: Tree)
    decreases t
  {
    && path in disk
    && (t.Dir? ==> forall n: Name :: n in t.children ==> Covered(disk, path + [Reversed(n)], t.children[n]))
  }

  /** A mirror that may lack entries: what is there is the reversed image of an ordinary entry. */
  ghost predicate Within(disk: Disk, path: Path, t: Tree)
    decreases t
  {
    && path in disk
    && match t
       case Regular(content) => disk[path] == FileInode(Reversed(content))
       case Dir(children) =>
         && disk[path] == DirInode
         && forall n: Name :: path + [n] in disk ==>
              Reversed(n) in children && Within(disk, path + [n], children[Reversed(n)])
       case Special(_) => false
  }

  /** The disk is a forest of directories: whatever exists has a directory above it. */
  ghost predicate Rooted(disk: Disk) {
    forall p :: p in disk && 1 < |p| ==> p[..|p| - 1] in disk && disk[p[..|p| - 1]] == DirInode
  }

  predicate Under(path: Path, p: Path) {
    path <= p
  }

  ghost predicate SameBelow(d: Disk, d': Disk, path: Path) {
    forall p :: Under(path, p) ==> (p in d <==> p in d') && (p in d ==> d'[p] == d[p])
  }

  ghost predicate SameOutside(d: Disk, d': Disk, path: Path) {
    forall p :: !Under(path, p) ==> (p in d <==> p in d') && (p in d ==> d'[p] == d[p])
  }

  lemma {:induction false} SubtreeDependsOnlyBelow(d: Disk, d': Disk, path: Path, t: Tree)
    requires SameBelow(d, d', path)
    ensures SubtreeIs(d, path, t) ==> SubtreeIs(d', path, t)
    ensures Within(d, path, t) ==> Within(d', path, t)
    decreases t
  {
    if t.Dir? {
      forall n: Name
        ensures Under(path, path + [n]) && SameBelow(d, d', path + [n])
      {
        assert forall p :: Under(path + [n], p) ==> Under(path, p);
      }
      forall n: Name | n in t.children
        ensures SubtreeIs(d, path + [n], t.children[n]) ==> SubtreeIs(d', path + [n], t.children[n])
      {
        SubtreeDependsOnlyBelow(d, d', path + [n], t.children[n]);
      }
      forall n: Name | Reversed(n) in t.children
        ensures Within(d, path + [n], t.children[Reversed(n)]) ==> Within(d', path + [n], t.children[Reversed(n)])
      {
        SubtreeDependsOnlyBelow(d, d', path + [n], t.children[Reversed(n)]);
      }
    }
  }

  /** Neither path lies below the other. */
  predicate Apart(p: Path, q: Path) {
    !Under(p, q) && !Under(q, p)
  }

  lemma ApartBelow(p: Path, q: Path, r: Path)
    requires Apart(p, q) && Under(p, r)
    ensures !Under(q, r)
  {
  }

  lemma UnderParent(p: Path, q: Path, m: Name, n: Name)
    ensures Under(p + [m], q + [n]) ==> Under(p, q)
  {
    if Under(p + [m], q + [n]) {
      assert forall i :: 0 <= i < |p| ==> p[i] == (p + [m])[i] == (q + [n])[i] == q[i];
    }
  }

  lemma ApartChildren(p: Path, q: Path, m: Name, n: Name)
    requires Apart(p, q)
    ensures Apart(p + [m], q + [n])
  {
    UnderParent(p, q, m, n);
    UnderParent(q, p, n, m);
  }

  /** What is written below `path` leaves a tree elsewhere alone. */
  lemma ElsewhereKept(d: Disk, d': Disk, path: Path, origin: Path, t: Tree)
    requires SubtreeIs(d, origin, t) && SameOutside(d, d', path) && Apart(origin, path)
    ensures SubtreeIs(d', origin, t)
  {
    forall p | Under(origin, p)
      ensures !Under(path, p)
    {
      ApartBelow(origin, path, p);
    }
    SubtreeDependsOnlyBelow(d, d', origin, t);
  }

  // ---------------------------------------------------------------- reading a tree off the disk

  /** The names directly below a path. */
  function Names(disk: Disk, path: Path): (names: set<Name>)
    ensures forall n: Name {:trigger n in names} :: n in names <==> path + [n] in disk
  {
    var names := set p | p in disk && |p| == |path| + 1 && path <= p :: p[|path|];
    assert forall n: Name :: path + [n] in disk ==> (path + [n])[|path|] == n;
    assert forall p | p in disk && |p| == |path| + 1 && path <= p :: p == path + [p[|path|]];
    names
  }

  ghost function Below(disk: Disk, path: Path): set<Path> {
    set p | p in disk && Under(path, p)
  }

  lemma {:induction false} CardinalitySubset<T>(a: set<T>, b: set<T>)
    requires a <= b
    ensures |a| <= |b|
  {
    if x :| x in a {
      CardinalitySubset(a - {x}, b - {x});
    }
  }

  lemma BelowShrinks(disk: Disk, path: Path, n: Name)
    requires path in disk
    ensures |Below(disk, path + [n])| < |Below(disk, path)|
  {
    var a, b := Below(disk, path + [n]), Below(disk, path);
    assert a <= b - {path};
    CardinalitySubset(a, b - {path});
  }

  ghost function TreeAt(disk: Disk, path: Path): Tree
    requires path in disk
    decreases |Below(disk, path)|
  {
    match disk[path]
    case FileInode(content) => Regular(content)
    case SpecialInode(why) => Special(why)
    case DirInode =>
      Dir(map n | n in Names(disk, path) :: (BelowShrinks(disk, path, n); TreeAt(disk, path + [n])))
  }

  /** Whatever is at a path is a tree. */
  lemma {:induction false} TreeAtIs(disk: Disk, path: Path)
    requires path in disk
    ensures SubtreeIs(disk, path, TreeAt(disk, path))
    decreases |Below(disk, path)|
  {
    if disk[path] == DirInode {
      forall n: Name | path + [n] in disk
        ensures SubtreeIs(disk, path + [n], TreeAt(disk, path + [n]))
      {
        BelowShrinks(disk, path, n);
        TreeAtIs(disk, path + [n]);
      }
    }
  }

  /** A disk determines the tree at a path: `SubtreeIs` leaves no freedom. */
  lemma {:induction false} SubtreeUnique(disk: Disk, path: Path, t: Tree, u: Tree)
    requires SubtreeIs(disk, path, t) && SubtreeIs(disk, path, u)
    ensures t == u
    decreases t
  {
    if t.Dir? {
      forall n: Name | n in t.children
        ensures n in u.children && t.children[n] == u.children[n]
      {
        assert path + [n] in disk;
        SubtreeUnique(disk, path + [n], t.children[n], u.children[n]);
      }
      forall n: Name | n in u.children
        ensures n in t.children
      {
        assert path + [n] in disk;
      }
      assert t.children == u.children;
    }
  }

  lemma {:induction false} MirrorCovers(disk: Disk, path: Path, t: Tree)
    requires SubtreeIs(disk, path, Mirror(t))
    ensures Covered(disk, path, t)
    decreases t
  {
    if t.Dir? {
      forall n | n in t.children
        ensures Covered(disk, path + [Reversed(n)], t.children[n])
      {
        MirrorChild(t, n);
        MirrorCovers(disk, path + [Reversed(n)], t.children[n]);
      }
    }
  }

  lemma {:induction false} CoveredHasNoSpecial(disk: Disk, path: Path, t: Tree)
    requires Within(disk, path, t) && Covered(disk, path, t)
    ensures NoSpecial(t)
    decreases t
  {
    if t.Dir? {
      forall n | n in t.children
        ensures NoSpecial(t.children[n])
      {
        ReversedTwice(n);
        assert Covered(disk, path + [Reversed(n)], t.children[n]);
        CoveredHasNoSpecial(disk, path + [Reversed(n)], t.children[n]);
      }
    }
  }

  /** A copy holds no special entry, even if the original did. */
  lemma {:induction false} CopyHasNoSpecial(disk: Disk, path: Path, t: Tree, copy: Tree)
    requires Within(disk, path, t) && SubtreeIs(disk, path, copy)
    ensures NoSpecial(copy)
    decreases t
  {
    if t.Dir? {
      forall n | n in copy.children
        ensures NoSpecial(copy.children[n])
      {
        CopyHasNoSpecial(disk, path + [n], t.children[Reversed(n)], copy.children[n]);
      }
    }
  }

  lemma {:induction false} MirrorHasNoSpecial(t: Tree)
    requires NoSpecial(t)
    ensures NoSpecial(Mirror(t))
  {
    if t.Dir? {
      forall n | n in Mirror(t).children
        ensures NoSpecial(Mirror(t).children[n])
      {
        MirrorHasNoSpecial(t.children[Reversed(n)]);
      }
    }
  }

  /** readdir lists "." and ".." itself; they are not children. */
  predicate Listed(t: Tree) {
    t.Dir? ==> forall n :: n in t.children ==> n != "." && n != ".." && Listed(t.children[n])
  }

  lemma {:induction false} CopyIsListed(disk: Disk, path: Path, t: Tree, copy: Tree)
    requires Listed(t) && Within(disk, path, t) && SubtreeIs(disk, path, copy)
    ensures Listed(copy)
    decreases t
  {
    if t.Dir? {
      forall n | n in copy.children
        ensures n != "." && n != ".." && Listed(copy.children[n])
      {
        ReversedTwice(n);
        assert Reversed(".") == "." && Reversed("..") == "..";
        CopyIsListed(disk, path + [n], t.children[Reversed(n)], copy.children[n]);
      }
    }
  }

  /** The entry of `t` whose image lies at `q` below the copy. */
  function EntryAt(t: Tree, q: seq<Name>): Option<Tree>
    decreases |q|
  {
    if q == [] then Some(t)
    else if t.Dir? && Reversed(q[0]) in t.children then EntryAt(t.children[Reversed(q[0])], q[1..])
    else None
  }

  lemma {:induction false} ParentsExist(disk: Disk, path: Path, q: seq<Name>)
    requires Rooted(disk) && 0 < |path| && path + q in disk && q != []
    ensures path + [q[0]] in disk
    decreases |q|
  {
    if |q| == 1 {
      assert q == [q[0]];
    } else {
      var p, init := path + q, q[..|q| - 1];
      assert p[..|p| - 1] == path + init;
      ParentsExist(disk, path, init);
    }
  }

  /** What a copy holds, complete or not: at every path in it a directory for a directory and the content
      backwards for a file, reached by names spelled backwards. */
  lemma {:induction false} CopyIsBackwards(disk: Disk, path: Path, t: Tree, q: seq<Name>)
    requires Within(disk, path, t) && Rooted(disk) && 0 < |path| && path + q in disk
    ensures var e := EntryAt(t, q);
            && e.Some? && !e.value.Special? && (e.value.Dir? ==> disk[path + q] == DirInode)
            && (e.value.Regular? ==>
                  && disk[path + q].FileInode? && |disk[path + q].content| == |e.value.content|
                  && forall i :: 0 <= i < |e.value.content| ==>
                       disk[path + q].content[i] == e.value.content[|e.value.content| - 1 - i])
    decreases |q|
  {
    if q == [] {
      assert path + q == path;
    } else {
      ParentsExist(disk, path, q);
      assert path + [q[0]] + q[1..] == path + q;
      CopyIsBackwards(disk, path + [q[0]], t.children[Reversed(q[0])], q[1..]);
    }
  }
}
