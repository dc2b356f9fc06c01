/**
 extractTar: applying the entries of one layer to a target directory inside the host tree.
 */
module Extraction {
  import opened Paths
  import opened FileTree
  import opened Resolution
  import opened HostDisk
  import opened Sequencing

  datatype Kind =
    | KDir
    | KReg(body: string)
    | KSymlink(target: RawPath)
    | KHardLink(source: RawPath)
    | KOther

  datatype Header = Header(name: RawPath, kind: Kind)

  const WHITEOUT_PREFIX := ".wh."
  const WHITEOUT_OPAQUE := ".wh..wh..opq"

  predicate IsWhiteout(base: string) {
    WHITEOUT_PREFIX <= base && base != WHITEOUT_OPAQUE
  }

  function Suffix(base: string): string
    requires WHITEOUT_PREFIX <= base
  {
    base[|WHITEOUT_PREFIX|..]
  }

  /** filepath.Join of a clean absolute path and one name. */
  function JoinName(parent: Path, name: string): Path {
    if name == "" || name == "." then parent
    else if name == ".." then Up(parent)
    else parent + [name]
  }

  /** What clearDirContents leaves: the children of the directory that `dir` leads to go. */
  function ClearDir(fs: FS, dir: Path): Ret {
    match OpenDir(fs, dir)
    case Fail(e) => Ret(fs, e)
    case At(d) => Ret(PruneBelow(fs, d), OK)
  }

  /** The switch on the entry type, once the parent directory is in place. */
  function Place(fs: FS, root: Path, target: Path, kind: Kind): Ret {
    match kind
    case KDir => MkdirAll(fs, target)
    case KReg(body) => CreateExcl(RemoveAll(fs, target).fs, target, body)
    case KSymlink(t) => Symlink(RemoveAll(fs, target).fs, t, target)
    case KHardLink(source) =>
      var gone := RemoveAll(fs, target).fs;
      (match SecureJoin(gone, root, source.parts)
       case Fail(e) => Ret(gone, e)
       case At(s) => HardLink(gone, s, target))
    case KOther => Ret(fs, OK)
  }

  /** One turn of extractTar's loop. */
  function ApplyEntry(fs: FS, root: Path, h: Header): Ret {
    var name := Clean(h.name);
    if name == [] then Ret(fs, OK)
    else if name[0] == ".." then Ret(fs, Escapes)
    else
      var base := Last(name);
      match SecureJoin(fs, root, Up(name))
      case Fail(e) => Ret(fs, e)
      case At(parent) =>
        if base == WHITEOUT_OPAQUE then
          var r := ClearDir(fs, parent);
          if r.errno == ENOENT then Ret(r.fs, OK) else r
        else if IsWhiteout(base) then RemoveAll(fs, JoinName(parent, Suffix(base)))
        else
          var r := MkdirAll(fs, parent);
          if r.errno != OK then r else Place(r.fs, root, parent + [base], h.kind)
  }

  /** The whole stream: it stops at the first failing entry. */
  function ExtractAll(fs: FS, root: Path, hs: seq<Header>): Ret
    decreases |hs|
  {
    if hs == [] then Ret(fs, OK)
    else
      var r := ApplyEntry(fs, root, hs[0]);
      if r.errno != OK then r else ExtractAll(r.fs, root, hs[1..])
  }

  // ----- The program -----

  /** The tree without the named children of dir. */
  function PruneNames(fs: FS, dir: Path, names: set<string>): FS {
    fs.(nodes := map q | q in fs.nodes && !(dir < q && q[|dir|] in names) :: fs.nodes[q])
  }

  lemma PruneNamesKeeps(fs: FS, dir: Path, names: set<string>)
    requires WellFormed(fs) && IsDir(fs, dir) && LinkFree(fs, dir)
    ensures var some := PruneNames(fs, dir, names);
            WellFormed(some) && IsDir(some, dir) && LinkFree(some, dir)
  {
    forall q | q in fs.nodes && q != [] && !(dir < q && q[|dir|] in names)
      ensures !(dir < Up(q) && Up(q)[|dir|] in names)
    {
    }
  }

  lemma RemoveChild(fs: FS, dir: Path, names: set<string>, n: string)
    requires WellFormed(fs) && IsDir(fs, dir) && Names(dir) && LinkFree(fs, dir)
    ensures var some := PruneNames(fs, dir, names);
            RemoveAll(some, dir + [n]) == Ret(PruneNames(fs, dir, names + {n}), OK)
  {
    var some, child := PruneNames(fs, dir, names), dir + [n];
    PruneNamesKeeps(fs, dir, names);
    assert Up(child) == dir && Last(child) == n;
    WalkFromRoot(some, dir, KERNEL_LINKS);
    forall q ensures child <= q <==> dir < q && q[|dir|] == n {
    }
    assert Prune(some, child).nodes == PruneNames(fs, dir, names + {n}).nodes;
  }

  lemma RemoveAllChildren(fs: FS, dir: Path, names: set<string>)
    requires WellFormed(fs)
    requires forall n :: n in names <==> dir + [n] in fs.nodes
    ensures PruneNames(fs, dir, names) == PruneBelow(fs, dir)
  {
    forall q | q in fs.nodes && dir < q ensures q[|dir|] in names {
      assert q[..|dir|+1] == dir + [q[|dir|]];
      assert q[..|q|] == q;
      if |dir| + 1 < |q| {
        AncestorsAreDirs(fs, q, |dir| + 1);
      }
    }
    assert PruneNames(fs, dir, names).nodes == PruneBelow(fs, dir).nodes;
  }

  /** clearDirContents. For a directory reached through no link, removing the children one by
      one leaves what ClearDir says, in whatever order they are listed. */
  method ClearDirContents(disk: Disk, dir: Path) returns (e: Errno)
    modifies disk
    ensures old(WellFormed(disk.fs) && Names(dir) && LinkFree(disk.fs, dir)) ==>
              Ret(disk.fs, e) == ClearDir(old(disk.fs), dir)
  {
    ghost var before := disk.fs;
    ghost var good := WellFormed(before) && Names(dir) && LinkFree(before, dir);
    if good {
      OpenDirLiteral(before, dir);
      assert PruneNames(before, dir, {}).nodes == before.nodes;
    }
    var names;
    names, e := disk.ReadDir(dir);
    if e != OK {
      return;
    }
    var left := names;
    while left != {}
      invariant left <= names && e == OK
      invariant good ==> disk.fs == PruneNames(before, dir, names - left)
    {
      var n :| n in left;
      if good {
        RemoveChild(before, dir, names - left, n);
        assert names - left + {n} == names - (left - {n});
      }
      e := disk.RemoveAll(dir + [n]);
      if e != OK {
        return;
      }
      left := left - {n};
    }
    if good {
      assert names - left == names;
      RemoveAllChildren(before, dir, names);
    }
  }

  // ----- The literal effect of one entry -----

  /** os.MkdirAll below an existing real directory. */
  lemma MkdirAllAt(fs: FS, root: Path, target: Path)
    requires GoodRoot(fs, root) && root < target && Names(target)
    requires Settled(fs, root, Up(target)) && IsDir(fs, Up(target))
    ensures target !in fs.nodes ==> MkdirAll(fs, target) == Ret(Put(fs, target, Dir), OK)
    ensures target in fs.nodes ==>
              var r := MkdirAll(fs, target);
              && r.fs == fs
              && (!fs.nodes[target].Link? ==> (r.errno == OK <==> fs.nodes[target].Dir?))
  {
    var up := Up(target);
    LocateLiteral(fs, target);
    WalkFromRoot(fs, up, KERNEL_LINKS);
    assert target == up + [Last(target)];
    if target !in fs.nodes || !fs.nodes[target].Link? {
      SettledDown(fs, root, up, Last(target));
      WalkFromRoot(fs, target, KERNEL_LINKS);
    }
    assert MkdirAll(fs, up) == Ret(fs, OK);
  }

  /** What is left once whatever was at `target` is gone. */
  lemma AfterRemoval(fs: FS, root: Path, target: Path)
    requires GoodRoot(fs, root) && root < target && Names(target)
    requires Settled(fs, root, Up(target)) && IsDir(fs, Up(target))
    ensures var g := Prune(fs, target);
            && RemoveAll(fs, target) == Ret(g, OK)
            && GoodRoot(g, root) && Settled(g, root, Up(target)) && IsDir(g, Up(target))
            && target !in g.nodes && Locate(g, target) == At(target)
  {
    var g, up := Prune(fs, target), Up(target);
    LocateLiteral(fs, target);
    PruneKeeps(fs, target);
    assert forall k :: 0 <= k <= |up| ==> !(target <= up[..k]);
    assert forall k :: 0 <= k <= |root| ==> !(target <= root[..k]);
    LocateLiteral(g, target);
  }

  /** Place, with every system call resolved: nothing but `target` and what was below it
      changes, and a file is always a new one. */
  ghost function Placed(fs: FS, root: Path, target: Path, kind: Kind): Ret {
    var g := Prune(fs, target);
    match kind
    case KDir => if target in fs.nodes then Ret(fs, MkdirAll(fs, target).errno) else Ret(Put(fs, target, Dir), OK)
    case KReg(body) => Ret(PutFile(g, target, body), OK)
    case KSymlink(t) => if t == RawPath(false, []) then Ret(g, ENOENT) else Ret(Put(g, target, Link(t)), OK)
    case KHardLink(source) =>
      (match SecureJoin(g, root, source.parts)
       case Fail(e) => Ret(g, e)
       case At(s) =>
         if s in g.nodes && !g.nodes[s].Dir? then Ret(Put(g, target, g.nodes[s]), OK)
         else Ret(g, HardLink(g, s, target).errno))
    case KOther => Ret(fs, OK)
  }

  lemma HardLinkIsPlaced(fs: FS, root: Path, target: Path, source: RawPath)
    requires GoodRoot(fs, root) && root < target && Names(target)
    requires Settled(fs, root, Up(target)) && IsDir(fs, Up(target))
    ensures var r := Placed(fs, root, target, KHardLink(source));
            Place(fs, root, target, KHardLink(source)) == r && WellFormed(r.fs)
  {
    var g := Prune(fs, target);
    AfterRemoval(fs, root, target);
    SecureJoinSettled(g, root, source.parts);
    if SecureJoin(g, root, source.parts).At? {
      var s := SecureJoin(g, root, source.parts).path;
      if s != [] {
        LinkFreePrefix(g, s, Up(s));
      }
      LstatLiteral(g, s);
      if s in g.nodes && !g.nodes[s].Dir? {
        PutKeeps(g, target, g.nodes[s]);
      }
    }
  }

  lemma DirIsPlaced(fs: FS, root: Path, target: Path)
    requires GoodRoot(fs, root) && root < target && Names(target)
    requires Settled(fs, root, Up(target)) && IsDir(fs, Up(target))
    ensures var r := Placed(fs, root, target, KDir);
            MkdirAll(fs, target) == r && WellFormed(r.fs)
  {
    MkdirAllAt(fs, root, target);
    if target !in fs.nodes {
      PutKeeps(fs, target, Dir);
    }
  }

  lemma FileIsPlaced(fs: FS, root: Path, target: Path, body: string)
    requires GoodRoot(fs, root) && root < target && Names(target)
    requires Settled(fs, root, Up(target)) && IsDir(fs, Up(target))
    ensures var r := Placed(fs, root, target, KReg(body));
            CreateExcl(RemoveAll(fs, target).fs, target, body) == r && WellFormed(r.fs)
  {
    AfterRemoval(fs, root, target);
    PutFileKeeps(Prune(fs, target), target, body);
  }

  lemma LinkIsPlaced(fs: FS, root: Path, target: Path, t: RawPath)
    requires GoodRoot(fs, root) && root < target && Names(target)
    requires Settled(fs, root, Up(target)) && IsDir(fs, Up(target))
    ensures var r := Placed(fs, root, target, KSymlink(t));
            Symlink(RemoveAll(fs, target).fs, t, target) == r && WellFormed(r.fs)
  {
    AfterRemoval(fs, root, target);
    PutKeeps(Prune(fs, target), target, Link(t));
  }

  lemma PlaceIsPlaced(fs: FS, root: Path, target: Path, kind: Kind)
    requires GoodRoot(fs, root) && root < target && Names(target)
    requires Settled(fs, root, Up(target)) && IsDir(fs, Up(target))
    ensures Place(fs, root, target, kind) == Placed(fs, root, target, kind)
    ensures WellFormed(Placed(fs, root, target, kind).fs)
  {
    match kind
    case KDir => DirIsPlaced(fs, root, target);
    case KReg(body) => FileIsPlaced(fs, root, target, body);
    case KSymlink(t) => LinkIsPlaced(fs, root, target, t);
    case KHardLink(source) => HardLinkIsPlaced(fs, root, target, source);
    case KOther =>
  }

  /** A whiteout that names an ordinary sibling; anything that is not a whiteout qualifies. */
  predicate PlainMarker(h: Header) {
    var name := Clean(h.name);
    name != [] && IsWhiteout(Last(name)) ==> Ordinary(Suffix(Last(name)))
  }

  predicate PlainMarkers(hs: seq<Header>) {
    forall i :: 0 <= i < |hs| ==> PlainMarker(hs[i])
  }

  /** ApplyEntry, with every system call resolved. */
  ghost function Applied(fs: FS, root: Path, h: Header): Ret
    requires PlainMarker(h)
  {
    var name := Clean(h.name);
    if name == [] then Ret(fs, OK)
    else if name[0] == ".." then Ret(fs, Escapes)
    else
      match SecureJoin(fs, root, Up(name))
      case Fail(e) => Ret(fs, e)
      case At(parent) =>
        if parent in fs.nodes && !fs.nodes[parent].Dir? then Ret(fs, ENOTDIR)
        else if Last(name) == WHITEOUT_OPAQUE then Ret(PruneBelow(fs, parent), OK)
        else if IsWhiteout(Last(name)) then Ret(Prune(fs, parent + [Suffix(Last(name))]), OK)
        else Placed(WithDirs(fs, parent), root, parent + [Last(name)], h.kind)
  }

  lemma NothingBelow(fs: FS, p: Path, q: Path)
    requires WellFormed(fs) && !IsDir(fs, p) && p < q
    ensures q !in fs.nodes
  {
    if q in fs.nodes {
      assert q[..|p|] == p;
      AncestorsAreDirs(fs, q, |p|);
    }
  }

  lemma NoFileOnSettled(fs: FS, root: Path, p: Path)
    requires Settled(fs, root, p) && !(p in fs.nodes && fs.nodes[p].File?)
    ensures NoFileOn(fs, p)
  {
    assert p[..|p|] == p;
  }

  lemma RealAbove(fs: FS, p: Path, q: Path)
    requires RealDir(fs, p) && q <= p
    ensures RealDir(fs, q)
  {
    forall k | 0 <= k <= |q| ensures IsDir(fs, q[..k]) {
      assert q[..k] == p[..k];
    }
  }

  lemma WithDirsAtRoot(fs: FS, root: Path, parent: Path)
    requires GoodRoot(fs, root) && Settled(fs, root, parent)
    requires !(parent in fs.nodes && fs.nodes[parent].File?)
    ensures var w := WithDirs(fs, parent);
            && MkdirAll(fs, parent) == Ret(w, OK)
            && GoodRoot(w, root) && Settled(w, root, parent) && IsDir(w, parent)
  {
    assert parent[..|parent|] == parent;
    NoFileOnSettled(fs, root, parent);
    MkdirAllLiteral(fs, parent);
    RealIsLinkFree(WithDirs(fs, parent), parent);
    RealAbove(WithDirs(fs, parent), parent, root);
  }

  lemma ClearIsPruned(fs: FS, root: Path, parent: Path)
    requires GoodRoot(fs, root) && Settled(fs, root, parent)
    ensures var r := ClearDir(fs, parent);
            if parent in fs.nodes && !fs.nodes[parent].Dir? then r == Ret(fs, ENOTDIR)
            else r.fs == PruneBelow(fs, parent) && (r.errno == OK || r.errno == ENOENT)
  {
    OpenDirLiteral(fs, parent);
    if parent !in fs.nodes {
      forall q | parent < q ensures q !in fs.nodes { NothingBelow(fs, parent, q); }
      assert PruneBelow(fs, parent).nodes == fs.nodes;
    }
  }

  lemma WhiteoutIsPruned(fs: FS, root: Path, parent: Path, suffix: string)
    requires GoodRoot(fs, root) && Settled(fs, root, parent) && Ordinary(suffix)
    ensures RemoveAll(fs, JoinName(parent, suffix)) ==
            if parent in fs.nodes && !fs.nodes[parent].Dir? then Ret(fs, ENOTDIR)
            else Ret(Prune(fs, parent + [suffix]), OK)
  {
    var target := parent + [suffix];
    assert Up(target) == parent && parent[..|parent|] == parent;
    LocateLiteral(fs, target);
    LstatDown(fs, root, parent, suffix);
    if parent !in fs.nodes {
      forall q | target <= q ensures q !in fs.nodes { NothingBelow(fs, parent, q); }
      assert Prune(fs, target).nodes == fs.nodes;
    }
  }

  lemma AddIsPlaced(fs: FS, root: Path, parent: Path, base: string, kind: Kind)
    requires GoodRoot(fs, root) && Settled(fs, root, parent) && Ordinary(base)
    ensures var r := MkdirAll(fs, parent);
            if parent in fs.nodes && !fs.nodes[parent].Dir? then r == Ret(fs, ENOTDIR)
            else
              && r == Ret(WithDirs(fs, parent), OK)
              && Place(r.fs, root, parent + [base], kind) == Placed(r.fs, root, parent + [base], kind)
              && WellFormed(Placed(r.fs, root, parent + [base], kind).fs)
  {
    if parent in fs.nodes && !fs.nodes[parent].Dir? {
      assert parent[..|parent|] == parent;
      MkdirAllLiteral(fs, parent);
    } else {
      WithDirsAtRoot(fs, root, parent);
      var target := parent + [base];
      assert Up(target) == parent;
      PlaceIsPlaced(WithDirs(fs, parent), root, target, kind);
    }
  }

  lemma ApplyIsApplied(fs: FS, root: Path, h: Header)
    requires GoodRoot(fs, root) && PlainMarker(h)
    ensures ApplyEntry(fs, root, h) == Applied(fs, root, h)
  {
    var name := Clean(h.name);
    if name != [] && name[0] != ".." && SecureJoin(fs, root, Up(name)).At? {
      CleanNames(h.name);
      SecureJoinSettled(fs, root, Up(name));
      var parent, base := SecureJoin(fs, root, Up(name)).path, Last(name);
      if base == WHITEOUT_OPAQUE {
        ClearIsPruned(fs, root, parent);
      } else if IsWhiteout(base) {
        WhiteoutIsPruned(fs, root, parent, Suffix(base));
      } else {
        AddIsPlaced(fs, root, parent, base, h.kind);
      }
    }
  }

  // ----- Containment -----

  /** Nothing but names strictly below root differs, and no file content is altered. */
  ghost predicate Contained(root: Path, fs: FS, after: FS) {
    && fs.data <= after.data
    && forall p :: !(root < p) ==>
         && (p in fs.nodes <==> p in after.nodes)
         && (p in fs.nodes ==> fs.nodes[p] == after.nodes[p])
  }

  /** One entry, failing or not: it changes only what lies at or below the name it acts on,
      and adds directories missing above it. Existing file contents stay. */
  ghost predicate OnlyAt(target: Path, fs: FS, after: FS) {
    && fs.data <= after.data
    && forall p :: !(target <= p) ==>
         && (p in fs.nodes ==> p in after.nodes && after.nodes[p] == fs.nodes[p])
         && (p !in fs.nodes && p in after.nodes ==> p < target && after.nodes[p].Dir?)
  }

  /** The place an entry acts on, once its parent is resolved. */
  function ActsOn(parent: Path, base: string): Path {
    if base == WHITEOUT_OPAQUE then parent
    else if IsWhiteout(base) then JoinName(parent, Suffix(base))
    else parent + [base]
  }

  lemma WithDirsOnly(fs: FS, parent: Path, target: Path)
    requires parent < target && !(parent in fs.nodes && !fs.nodes[parent].Dir?) && WellFormed(fs)
    requires LinkFree(fs, parent) && !FileAbove(fs, parent)
    ensures OnlyAt(target, fs, WithDirs(fs, parent))
  {
    forall p | p in fs.nodes && p <= parent ensures fs.nodes[p].Dir? {
      if p != parent {
        assert p == parent[..|p|];
      } else {
        assert parent[..|parent|] == parent;
      }
    }
    forall p ensures p in Prefixes(parent) <==> p <= parent {
      PrefixIffMember(parent, p);
    }
  }

  lemma PlacedFrame(fs: FS, root: Path, target: Path, kind: Kind)
    ensures OnlyAt(target, fs, Placed(fs, root, target, kind).fs)
  {
  }

  lemma OnlyAtTwice(target: Path, a: FS, b: FS, c: FS)
    requires OnlyAt(target, a, b) && OnlyAt(target, b, c)
    ensures OnlyAt(target, a, c)
  {
  }

  /** A whiteout with one of the three odd suffixes removes something or does nothing. */
  lemma OddMarker(fs: FS, root: Path, h: Header)
    requires GoodRoot(fs, root) && !PlainMarker(h)
    ensures var name, r := Clean(h.name), ApplyEntry(fs, root, h);
            && WellFormed(r.fs) && Within(r.fs, fs)
            && (if name[0] == ".." || SecureJoin(fs, root, Up(name)).Fail? then r.fs == fs
                else OnlyAt(ActsOn(SecureJoin(fs, root, Up(name)).path, Last(name)), fs, r.fs))
  {
    var name := Clean(h.name);
    if name[0] != ".." && SecureJoin(fs, root, Up(name)).At? {
      SecureJoinSettled(fs, root, Up(name));
      var parent := SecureJoin(fs, root, Up(name)).path;
      var target := JoinName(parent, Suffix(Last(name)));
      if target == [] {
        PruneBelowKeeps(fs, []);
      } else {
        LinkFreePrefix(fs, parent, Up(target));
        LocateLiteral(fs, target);
        PruneKeeps(fs, target);
      }
    }
  }

  /** Every entry, failing or not, changes only what is at or below the place it acts on, and
      adds directories missing above it. */
  lemma EntryFrame(fs: FS, root: Path, h: Header)
    requires GoodRoot(fs, root)
    ensures var r := ApplyEntry(fs, root, h);
            var name := Clean(h.name);
            if name == [] || name[0] == ".." || SecureJoin(fs, root, Up(name)).Fail? then r.fs == fs
            else OnlyAt(ActsOn(SecureJoin(fs, root, Up(name)).path, Last(name)), fs, r.fs)
  {
    if PlainMarker(h) {
      PlainFrame(fs, root, h);
    } else {
      OddMarker(fs, root, h);
    }
  }

  lemma PlainFrame(fs: FS, root: Path, h: Header)
    requires GoodRoot(fs, root) && PlainMarker(h)
    ensures var r := ApplyEntry(fs, root, h);
            var name := Clean(h.name);
            if name == [] || name[0] == ".." || SecureJoin(fs, root, Up(name)).Fail? then r.fs == fs
            else OnlyAt(ActsOn(SecureJoin(fs, root, Up(name)).path, Last(name)), fs, r.fs)
  {
    ApplyIsApplied(fs, root, h);
    var name := Clean(h.name);
    if name != [] && name[0] != ".." && SecureJoin(fs, root, Up(name)).At? {
      var parent := SecureJoin(fs, root, Up(name)).path;
      var target := ActsOn(parent, Last(name));
      if !(parent in fs.nodes && !fs.nodes[parent].Dir?)
         && Last(name) != WHITEOUT_OPAQUE && !IsWhiteout(Last(name)) {
        SecureJoinSettled(fs, root, Up(name));
        WithDirsOnly(fs, parent, target);
        PlacedFrame(WithDirs(fs, parent), root, target, h.kind);
        OnlyAtTwice(target, fs, WithDirs(fs, parent), Placed(WithDirs(fs, parent), root, target, h.kind).fs);
      }
    }
  }

  /** Whatever links are planted in the target, an entry changes nothing outside it. */
  lemma EntryContained(fs: FS, root: Path, h: Header)
    requires GoodRoot(fs, root) && PlainMarker(h)
    ensures var r := ApplyEntry(fs, root, h);
            Contained(root, fs, r.fs) && GoodRoot(r.fs, root)
  {
    EntryFrame(fs, root, h);
    ApplyIsApplied(fs, root, h);
    EntryKeepsTree(fs, root, h);
    var after, name := ApplyEntry(fs, root, h).fs, Clean(h.name);
    assert Contained(root, fs, after) by {
      if name != [] && name[0] != ".." && SecureJoin(fs, root, Up(name)).At? {
        SecureJoinSettled(fs, root, Up(name));
        var parent := SecureJoin(fs, root, Up(name)).path;
        forall p | !(root < p)
          ensures p in fs.nodes <==> p in after.nodes
          ensures p in fs.nodes ==> fs.nodes[p] == after.nodes[p]
        {
          if p <= root {
            assert p == root[..|p|];
          }
        }
      }
    }
  }

  /** After every entry, failing or not, each existing path still sits in a directory. */
  lemma EntryKeepsTree(fs: FS, root: Path, h: Header)
    requires GoodRoot(fs, root)
    ensures WellFormed(ApplyEntry(fs, root, h).fs)
  {
    if PlainMarker(h) {
      PlainKeepsTree(fs, root, h);
    } else {
      OddMarker(fs, root, h);
    }
  }

  lemma PlainKeepsTree(fs: FS, root: Path, h: Header)
    requires GoodRoot(fs, root) && PlainMarker(h)
    ensures WellFormed(ApplyEntry(fs, root, h).fs)
  {
    ApplyIsApplied(fs, root, h);
    var name := Clean(h.name);
    if name != [] && name[0] != ".." && SecureJoin(fs, root, Up(name)).At? {
      CleanNames(h.name);
      SecureJoinSettled(fs, root, Up(name));
      var parent, base := SecureJoin(fs, root, Up(name)).path, Last(name);
      if base == WHITEOUT_OPAQUE {
        PruneBelowKeeps(fs, parent);
      } else if IsWhiteout(base) {
        PruneKeeps(fs, parent + [Suffix(base)]);
      } else {
        AddIsPlaced(fs, root, parent, base, h.kind);
      }
    }
  }

  /** Overwriting makes a new file: the name gets an inode that did not exist, and every other
      name that stays keeps its node and, if it is a file, its contents, however many names
      shared the old inode. */
  lemma OverwriteIsFresh(fs: FS, root: Path, h: Header, q: Path)
    requires GoodRoot(fs, root) && PlainMarker(h) && h.kind.KReg?
    requires var name := Clean(h.name);
             && name != [] && name[0] != ".." && Last(name) != WHITEOUT_OPAQUE && !IsWhiteout(Last(name))
             && SecureJoin(fs, root, Up(name)).At?
    requires ApplyEntry(fs, root, h).errno == OK
    ensures var after := ApplyEntry(fs, root, h).fs;
            var target := SecureJoin(fs, root, Up(Clean(h.name))).path + [Last(Clean(h.name))];
            && target in after.nodes && after.nodes[target] == File(|fs.data|)
            && |fs.data| < |after.data| && after.data[|fs.data|] == h.kind.body
            && (q in fs.nodes && q in after.nodes && q != target ==>
                  && after.nodes[q] == fs.nodes[q]
                  && (fs.nodes[q].File? ==> after.data[fs.nodes[q].ino] == fs.data[fs.nodes[q].ino]))
  {
    ApplyIsApplied(fs, root, h);
    EntryFrame(fs, root, h);
  }

  // ----- Whole runs -----

  lemma ContainedTwice(root: Path, a: FS, b: FS, c: FS)
    requires Contained(root, a, b) && Contained(root, b, c)
    ensures Contained(root, a, c)
  {
  }

  /** Every file below root is new or was below root before: no hard link reaches a file
      that only the host had. */
  ghost predicate NoForeignFiles(root: Path, fs: FS, after: FS) {
    forall p :: p in after.nodes && root < p && after.nodes[p].File? && after.nodes[p].ino < |fs.data| ==>
      FileBelow(root, fs, after.nodes[p].ino)
  }

  ghost predicate FileBelow(root: Path, fs: FS, ino: nat) {
    exists q :: q in fs.nodes && root < q && fs.nodes[q] == File(ino)
  }

  lemma PlacedNoForeignFiles(fs: FS, root: Path, target: Path, kind: Kind)
    requires GoodRoot(fs, root) && root < target && Names(target)
    requires Settled(fs, root, Up(target)) && IsDir(fs, Up(target))
    ensures NoForeignFiles(root, fs, Placed(fs, root, target, kind).fs)
  {
    var g, after := Prune(fs, target), Placed(fs, root, target, kind).fs;
    if kind.KHardLink? && target in after.nodes && after.nodes[target].File? {
      AfterRemoval(fs, root, target);
      SecureJoinSettled(g, root, kind.source.parts);
      var s := SecureJoin(g, root, kind.source.parts).path;
      assert root[..|root|] == root && IsDir(g, root);
      assert s in g.nodes && !g.nodes[s].Dir?;
      assert root <= s && s != root;
      assert s in fs.nodes && fs.nodes[s] == after.nodes[target];
      assert FileBelow(root, fs, after.nodes[target].ino);
    }
    forall p | p in after.nodes && root < p && after.nodes[p].File? && after.nodes[p].ino < |fs.data|
      ensures FileBelow(root, fs, after.nodes[p].ino)
    {
      if p != target || (kind.KDir? || kind.KOther?) {
        assert p in fs.nodes && fs.nodes[p] == after.nodes[p];
      }
    }
  }

  lemma EntryNoForeignFiles(fs: FS, root: Path, h: Header)
    requires GoodRoot(fs, root) && PlainMarker(h)
    ensures NoForeignFiles(root, fs, ApplyEntry(fs, root, h).fs)
  {
    ApplyIsApplied(fs, root, h);
    var name := Clean(h.name);
    if name != [] && name[0] != ".." && SecureJoin(fs, root, Up(name)).At? {
      var parent, base := SecureJoin(fs, root, Up(name)).path, Last(name);
      if !(parent in fs.nodes && !fs.nodes[parent].Dir?) && base != WHITEOUT_OPAQUE && !IsWhiteout(base) {
        CleanNames(h.name);
        SecureJoinSettled(fs, root, Up(name));
        WithDirsAtRoot(fs, root, parent);
        assert Up(parent + [base]) == parent;
        var w := WithDirs(fs, parent);
        PlacedNoForeignFiles(w, root, parent + [base], h.kind);
        var after := ApplyEntry(fs, root, h).fs;
        forall p | p in after.nodes && root < p && after.nodes[p].File? && after.nodes[p].ino < |fs.data|
          ensures FileBelow(root, fs, after.nodes[p].ino)
        {
          assert FileBelow(root, w, after.nodes[p].ino);
        }
      }
    }
  }

  /** Streams can be cut anywhere. */
  lemma {:induction false} ExtractSplit(fs: FS, root: Path, a: seq<Header>, b: seq<Header>)
    ensures var r := ExtractAll(fs, root, a);
            ExtractAll(fs, root, a + b) == if r.errno != OK then r else ExtractAll(r.fs, root, b)
    decreases |a|
  {
    if a == [] {
      assert a + b == b;
    } else {
      assert (a + b)[0] == a[0] && (a + b)[1..] == a[1..] + b;
      var r := ApplyEntry(fs, root, a[0]);
      if r.errno == OK {
        ExtractSplit(r.fs, root, a[1..], b);
      }
    }
  }

  lemma ExtractOne(fs: FS, root: Path, h: Header)
    ensures ExtractAll(fs, root, [h]) == ApplyEntry(fs, root, h)
  {
    assert [h][0] == h && [h][1..] == [];
  }

  lemma ExtractLast(fs: FS, root: Path, hs: seq<Header>)
    requires hs != []
    ensures var r := ExtractAll(fs, root, hs[..|hs|-1]);
            ExtractAll(fs, root, hs) == if r.errno != OK then r else ApplyEntry(r.fs, root, hs[|hs|-1])
  {
    var most, last := hs[..|hs|-1], hs[|hs|-1];
    assert hs == most + [last];
    ExtractSplit(fs, root, most, [last]);
    ExtractOne(ExtractAll(fs, root, most).fs, root, last);
  }

  function EntryStep(root: Path): (FS, Header) -> Ret {
    (fs, h) => ApplyEntry(fs, root, h)
  }

  /** A stream succeeds exactly when each entry does on the tree the entries before have left;
      otherwise it ends with the error of the first that fails, and no later one is applied. */
  lemma {:induction false} ExtractStops(fs: FS, root: Path, hs: seq<Header>)
    ensures StopsAtFailure(EntryStep(root), fs, hs, ExtractAll(fs, root, hs))
    decreases |hs|
  {
    if hs != [] {
      var r := ApplyEntry(fs, root, hs[0]);
      if r.errno != OK {
        StopsAtOnce(EntryStep(root), fs, hs);
      } else {
        ExtractStops(r.fs, root, hs[1..]);
        StopsLater(EntryStep(root), fs, hs, ExtractAll(r.fs, root, hs[1..]));
      }
    }
  }

  // ----- What single entries do, in so many words -----

  /** An opaque marker, in whatever directory its parent path leads to: a directory is emptied,
      a missing one is none of its business, a file in its place is an error. */
  lemma OpaqueMarker(fs: FS, root: Path, h: Header, dir: Path)
    requires GoodRoot(fs, root) && Clean(h.name) == dir + [".wh..wh..opq"] && (dir == [] || dir[0] != "..")
    ensures var r := ApplyEntry(fs, root, h);
            match SecureJoin(fs, root, dir)
            case Fail(e) => r == Ret(fs, e)
            case At(d) =>
              if d !in fs.nodes then r == Ret(fs, OK)
              else if !IsDir(fs, d) then r.fs == fs && r.errno != OK
              else
                && r.errno == OK && r.fs.data == fs.data
                && (forall q :: d < q ==> q !in r.fs.nodes)
                && (forall q :: !(d < q) ==> (q in r.fs.nodes <==> q in fs.nodes))
                && (forall q :: q in r.fs.nodes ==> r.fs.nodes[q] == fs.nodes[q])
  {
    var name := dir + [".wh..wh..opq"];
    assert Up(name) == dir && Last(name) == ".wh..wh..opq";
    SecureJoinSettled(fs, root, dir);
    if SecureJoin(fs, root, dir).At? {
      OpenDirLiteral(fs, SecureJoin(fs, root, dir).path);
    }
  }

  /** In particular below a directory of the target. */
  lemma OpaqueMarkerClears(fs: FS, root: Path, dir: Path, kind: Kind)
    requires GoodRoot(fs, root) && Names(dir) && RealDir(fs, root + dir)
    ensures var r := ApplyEntry(fs, root, Header(RawPath(false, dir + [".wh..wh..opq"]), kind));
            && r.errno == OK && r.fs.data == fs.data
            && (forall q :: root + dir < q ==> q !in r.fs.nodes)
            && (forall q :: !(root + dir < q) ==> (q in r.fs.nodes <==> q in fs.nodes))
            && (forall q :: q in r.fs.nodes ==> r.fs.nodes[q] == fs.nodes[q])
  {
    var name := dir + [".wh..wh..opq"];
    CleanOfNames(false, name);
    RealIsLinkFree(fs, root + dir);
    assert root + [] + dir == root + dir && (root + dir)[..|root + dir|] == root + dir;
    ResolveLiteral(fs, root, [], dir, MAX_LINKS);
    OpaqueMarker(fs, root, Header(RawPath(false, name), kind), dir);
  }

  /** Any other name that begins with ".wh." removes the sibling named by the rest. */
  lemma WhiteoutRemoves(fs: FS, root: Path, dir: Path, name: string, kind: Kind)
    requires GoodRoot(fs, root) && Names(dir) && RealDir(fs, root + dir)
    requires Ordinary(name) && name != ".wh..opq"
    ensures var r, p := ApplyEntry(fs, root, Header(RawPath(false, dir + [".wh." + name]), kind)), root + dir + [name];
            && r.errno == OK && r.fs.data == fs.data
            && (forall q :: p <= q ==> q !in r.fs.nodes)
            && (forall q :: !(p <= q) ==> (q in r.fs.nodes <==> q in fs.nodes))
            && (forall q :: q in r.fs.nodes ==> r.fs.nodes[q] == fs.nodes[q])
  {
    var base := ".wh." + name;
    assert base[..4] == ".wh." && base[4..] == name;
    assert base != ".wh..wh..opq" by { assert ".wh..wh..opq"[4..] == ".wh..opq"; }
    CleanOfNames(false, dir + [base]);
    RealIsLinkFree(fs, root + dir);
    assert root + [] + dir == root + dir && (root + dir)[..|root + dir|] == root + dir;
    ResolveLiteral(fs, root, [], dir, MAX_LINKS);
    assert Up(dir + [base]) == dir && Last(dir + [base]) == base;
    WhiteoutIsPruned(fs, root, root + dir, name);
  }

  /** A name that climbs out is refused, and nothing is done. */
  lemma ClimbingRefused(fs: FS, root: Path, h: Header)
    requires Clean(h.name) != [] && Clean(h.name)[0] == ".."
    ensures ApplyEntry(fs, root, h).fs == fs && ApplyEntry(fs, root, h).errno != OK
  {
  }

  /** What an entry's type needs at its place. */
  predicate TypeSucceeds(fs: FS, root: Path, target: Path, kind: Kind) {
    match kind
    case KDir => target !in fs.nodes || OpenDir(fs, target).At?
    case KReg(_) => true
    case KSymlink(t) => t.abs || t.parts != []
    case KHardLink(source) =>
      (match SecureJoin(Prune(fs, target), root, source.parts)
       case Fail(_) => false
       case At(s) => s in fs.nodes && !(target <= s) && !IsDir(fs, s))
    case KOther => true
  }

  /** Exactly when an entry is applied without an error: its name stays inside, no file and no
      chain of links stands in its parent's way, and its type can be put there. */
  lemma EntrySucceedsIff(fs: FS, root: Path, h: Header)
    requires GoodRoot(fs, root) && PlainMarker(h)
    ensures var name := Clean(h.name);
            ApplyEntry(fs, root, h).errno == OK <==>
            || name == []
            || (&& name[0] != ".."
                && SecureJoin(fs, root, Up(name)).At?
                && var d := SecureJoin(fs, root, Up(name)).path;
                   && (d in fs.nodes ==> IsDir(fs, d))
                   && (".wh." <= Last(name) || TypeSucceeds(WithDirs(fs, d), root, d + [Last(name)], h.kind)))
  {
    var name := Clean(h.name);
    ApplyIsApplied(fs, root, h);
    ResolveFailsWithError(fs, root, [], if name == [] then [] else Up(name), MAX_LINKS);
    if name != [] && name[0] != ".." && SecureJoin(fs, root, Up(name)).At? {
      CleanNames(h.name);
      SecureJoinSettled(fs, root, Up(name));
      var d := SecureJoin(fs, root, Up(name)).path;
      MarkerNames(Last(name));
      if !(d in fs.nodes && !IsDir(fs, d)) {
        WithDirsAtRoot(fs, root, d);
        assert Up(d + [Last(name)]) == d;
        PlacedSucceedsIff(WithDirs(fs, d), root, d + [Last(name)], h.kind);
      }
    }
  }

  lemma MarkerNames(base: string)
    ensures ".wh." <= base <==> base == WHITEOUT_OPAQUE || IsWhiteout(base)
  {
    assert WHITEOUT_OPAQUE[..4] == ".wh.";
  }

  lemma PlacedSucceedsIff(fs: FS, root: Path, target: Path, kind: Kind)
    requires GoodRoot(fs, root) && root < target && Names(target)
    requires Settled(fs, root, Up(target)) && IsDir(fs, Up(target))
    ensures Placed(fs, root, target, kind).errno == OK <==> TypeSucceeds(fs, root, target, kind)
  {
    if kind.KHardLink? {
      HardLinkSucceedsIff(fs, root, target, kind.source);
    } else if kind.KDir? && target in fs.nodes {
      ExistingAccepted(fs, root, target);
    }
  }

  /** os.MkdirAll accepts what leads to a directory: one, or a link to one. */
  lemma ExistingAccepted(fs: FS, root: Path, target: Path)
    requires GoodRoot(fs, root) && root < target && Names(target) && target in fs.nodes
    requires Settled(fs, root, Up(target)) && IsDir(fs, Up(target))
    ensures MkdirAll(fs, target).errno == OK <==> OpenDir(fs, target).At?
  {
    LocateLiteral(fs, target);
    WalkFromRoot(fs, Up(target), KERNEL_LINKS);
    LookupIn(fs, target);
    assert MkdirAll(fs, Up(target)) == Ret(fs, OK);
    assert target == Up(target) + [Last(target)];
    if fs.nodes[target].Link? && StatPath(fs, target).No? {
      assert Mkdir(fs, target) == Ret(fs, EEXIST) && Lstat(fs, target) != Is(Dir);
    }
  }

  lemma HardLinkSucceedsIff(fs: FS, root: Path, target: Path, source: RawPath)
    requires GoodRoot(fs, root) && root < target && Names(target)
    requires Settled(fs, root, Up(target)) && IsDir(fs, Up(target))
    ensures Placed(fs, root, target, KHardLink(source)).errno == OK <==> TypeSucceeds(fs, root, target, KHardLink(source))
  {
    var g := Prune(fs, target);
    AfterRemoval(fs, root, target);
    SecureJoinSettled(g, root, source.parts);
    ResolveFailsWithError(g, root, [], source.parts, MAX_LINKS);
    if SecureJoin(g, root, source.parts).At? {
      var s := SecureJoin(g, root, source.parts).path;
      if s != [] {
        LinkFreePrefix(g, s, Up(s));
      }
      LstatLiteral(g, s);
    }
  }

  // ----- Where whiteout markers stay inside -----

  /** The suffix is an ordinary name, or the name it joins to is still strictly below root, or
      the target is the whole host tree. */
  predicate MarkerStays(root: Path, parent: Path, suffix: string) {
    || Ordinary(suffix)
    || (suffix == ".." && |parent| > |root| + 1)
    || (suffix != ".." && parent != root)
    || root == []
  }

  /** Exactly when a whiteout stays inside the target. */
  lemma MarkerContainedIff(fs: FS, root: Path, h: Header)
    requires GoodRoot(fs, root)
    requires var name := Clean(h.name);
             && name != [] && name[0] != ".." && IsWhiteout(Last(name))
             && SecureJoin(fs, root, Up(name)).At?
    ensures var name := Clean(h.name);
            var parent, suffix := SecureJoin(fs, root, Up(name)).path, Suffix(Last(name));
            Contained(root, fs, ApplyEntry(fs, root, h).fs) <==> MarkerStays(root, parent, suffix)
  {
    var name := Clean(h.name);
    var parent, suffix := SecureJoin(fs, root, Up(name)).path, Suffix(Last(name));
    SecureJoinSettled(fs, root, Up(name));
    if Ordinary(suffix) {
      EntryContained(fs, root, h);
    } else {
      var target := JoinName(parent, suffix);
      assert target <= parent;
      LinkFreePrefix(fs, parent, target);
      if target != [] {
        LinkFreePrefix(fs, parent, Up(target));
        LocateLiteral(fs, target);
        if target <= root {
          assert target == root[..|target|];
          assert Up(target) == root[..|target|-1];
          assert target in fs.nodes && target !in Prune(fs, target).nodes;
        }
      } else if root != [] {
        assert root[..|root|] == root;
        assert root in fs.nodes && root !in PruneBelow(fs, []).nodes;
      }
    }
  }

  /** A header that names a whiteout with suffix "..". */
  function DotDotMarker(): Header {
    Header(RawPath(false, [".wh..."]), KReg(""))
  }

  lemma DotDotMarkerParts(fs: FS, root: Path)
    ensures Clean(DotDotMarker().name) == [".wh..."]
    ensures IsWhiteout(".wh...") && Suffix(".wh...") == ".."
    ensures SecureJoin(fs, root, Up([".wh..."])) == At(root)
  {
    CleanOntoNames(false, [], [".wh..."]);
    assert root + [] == root && Up([".wh..."]) == [];
  }

  /** A stream outside that condition: extracted into /srv/t, the entry removes /srv, and with
      it /srv/keep. */
  lemma MarkerReachesParent()
    ensures var fs := FS(map[[] := Dir, ["srv"] := Dir, ["srv", "t"] := Dir, ["srv", "keep"] := File(0)], ["x"]);
            && GoodRoot(fs, ["srv", "t"])
            && !Contained(["srv", "t"], fs, ApplyEntry(fs, ["srv", "t"], DotDotMarker()).fs)
  {
    var root := ["srv", "t"];
    var fs := FS(map[[] := Dir, ["srv"] := Dir, root := Dir, ["srv", "keep"] := File(0)], ["x"]);
    assert Up(root) == ["srv"] && Up(["srv", "keep"]) == ["srv"];
    assert root[..0] == [] && root[..1] == ["srv"] && root[..2] == root;
    DotDotMarkerParts(fs, root);
    MarkerContainedIff(fs, root, DotDotMarker());
  }

  /** With a target directly below "/", the entry empties every host tree: nothing but "/" is
      left, although the call reports a failure. */
  lemma MarkerEmptiesHost(fs: FS, top: string)
    requires GoodRoot(fs, [top])
    ensures var r := ApplyEntry(fs, [top], DotDotMarker());
            && r.errno == EBUSY
            && (forall p :: p in r.fs.nodes <==> p == [])
            && !Contained([top], fs, r.fs)
  {
    var root := [top];
    DotDotMarkerParts(fs, root);
    assert JoinName(root, "..") == [];
    assert ApplyEntry(fs, root, DotDotMarker()) == Ret(PruneBelow(fs, []), EBUSY);
    MarkerContainedIff(fs, root, DotDotMarker());
  }

  // ----- Where whole streams stay inside -----

  /** The exact condition on one entry. */
  predicate EntryStays(fs: FS, root: Path, h: Header) {
    var name := Clean(h.name);
    name != [] && name[0] != ".." && IsWhiteout(Last(name)) && SecureJoin(fs, root, Up(name)).At? ==>
      MarkerStays(root, SecureJoin(fs, root, Up(name)).path, Suffix(Last(name)))
  }

  /** Exactly when one entry, whatever its type, stays inside the target; it then leaves the
      target a real directory and exposes no file of the host. */
  lemma EntryContainedIff(fs: FS, root: Path, h: Header)
    requires GoodRoot(fs, root)
    ensures var r := ApplyEntry(fs, root, h);
            && (Contained(root, fs, r.fs) <==> EntryStays(fs, root, h))
            && (EntryStays(fs, root, h) ==> GoodRoot(r.fs, root) && NoForeignFiles(root, fs, r.fs))
  {
    var name, r := Clean(h.name), ApplyEntry(fs, root, h);
    if PlainMarker(h) {
      EntryContained(fs, root, h);
      EntryNoForeignFiles(fs, root, h);
    } else {
      OddMarker(fs, root, h);
      if name[0] != ".." && SecureJoin(fs, root, Up(name)).At? {
        MarkerContainedIff(fs, root, h);
      }
      if EntryStays(fs, root, h) {
        RootKept(root, fs, r.fs);
        SubtreeNoForeignFiles(root, fs, r.fs);
      }
    }
  }

  lemma RootKept(root: Path, fs: FS, after: FS)
    requires GoodRoot(fs, root) && Contained(root, fs, after) && WellFormed(after)
    ensures GoodRoot(after, root)
  {
    forall k | 0 <= k <= |root| ensures IsDir(after, root[..k]) {
      assert !(root < root[..k]);
    }
  }

  lemma SubtreeNoForeignFiles(root: Path, fs: FS, after: FS)
    requires Within(after, fs)
    ensures NoForeignFiles(root, fs, after)
  {
    forall p | p in after.nodes && root < p && after.nodes[p].File?
      ensures FileBelow(root, fs, after.nodes[p].ino)
    {
      assert fs.nodes[p] == after.nodes[p];
    }
  }

  /** Each entry that is reached meets its condition. */
  predicate StreamStays(fs: FS, root: Path, hs: seq<Header>)
    decreases |hs|
  {
    hs == [] ||
    (&& EntryStays(fs, root, hs[0])
     && var r := ApplyEntry(fs, root, hs[0]);
        r.errno == OK ==> StreamStays(r.fs, root, hs[1..]))
  }

  /** At no moment does anything outside root differ from the start. */
  ghost predicate StreamContained(fs: FS, root: Path, hs: seq<Header>) {
    forall k :: 0 <= k <= |hs| ==> Contained(root, fs, ExtractAll(fs, root, hs[..k]).fs)
  }

  lemma {:induction false} MkdirAllData(fs: FS, p: Path)
    ensures MkdirAll(fs, p).fs.data == fs.data
    decreases |p|
  {
    if p != [] {
      MkdirAllData(fs, Up(p));
    }
  }

  /** On any tree at all, file contents are only ever added. */
  lemma {:induction false} ExtractData(fs: FS, root: Path, hs: seq<Header>)
    ensures fs.data <= ExtractAll(fs, root, hs).fs.data
    decreases |hs|
  {
    if hs != [] {
      EntryData(fs, root, hs[0]);
      ExtractData(ApplyEntry(fs, root, hs[0]).fs, root, hs[1..]);
    }
  }

  lemma PlaceData(fs: FS, root: Path, target: Path, kind: Kind)
    ensures fs.data <= Place(fs, root, target, kind).fs.data
  {
    MkdirAllData(fs, target);
  }

  lemma EntryData(fs: FS, root: Path, h: Header)
    ensures fs.data <= ApplyEntry(fs, root, h).fs.data
  {
    var name := Clean(h.name);
    if name != [] && name[0] != ".." && SecureJoin(fs, root, Up(name)).At? {
      var parent := SecureJoin(fs, root, Up(name)).path;
      MkdirAllData(fs, parent);
      PlaceData(MkdirAll(fs, parent).fs, root, parent + [Last(name)], h.kind);
    }
  }

  lemma ExtractFirst(fs: FS, root: Path, hs: seq<Header>, k: nat)
    requires k < |hs|
    ensures var r := ApplyEntry(fs, root, hs[0]);
            ExtractAll(fs, root, hs[..k+1]) == if r.errno != OK then r else ExtractAll(r.fs, root, hs[1..][..k])
  {
    assert hs[..k+1][0] == hs[0] && hs[..k+1][1..] == hs[1..][..k];
  }

  lemma ContainedSince(root: Path, fs: FS, mid: FS, after: FS)
    requires Contained(root, fs, mid) && mid.data <= after.data
    ensures Contained(root, fs, after) <==> Contained(root, mid, after)
  {
  }

  lemma RestOfStream(fs: FS, root: Path, hs: seq<Header>)
    requires hs != [] && Contained(root, fs, ApplyEntry(fs, root, hs[0]).fs)
    ensures var r := ApplyEntry(fs, root, hs[0]);
            StreamContained(fs, root, hs) <==> (r.errno == OK ==> StreamContained(r.fs, root, hs[1..]))
  {
    var r, rest := ApplyEntry(fs, root, hs[0]), hs[1..];
    forall k | 0 <= k < |hs|
      ensures ExtractAll(fs, root, hs[..k+1]) == if r.errno != OK then r else ExtractAll(r.fs, root, rest[..k])
      ensures r.errno == OK ==>
                (Contained(root, fs, ExtractAll(fs, root, hs[..k+1]).fs)
                 <==> Contained(root, r.fs, ExtractAll(r.fs, root, rest[..k]).fs))
    {
      ExtractFirst(fs, root, hs, k);
      ExtractData(r.fs, root, rest[..k]);
      ContainedSince(root, fs, r.fs, ExtractAll(r.fs, root, rest[..k]).fs);
    }
    if r.errno != OK || StreamContained(r.fs, root, rest) {
      forall j | 0 <= j <= |hs| ensures Contained(root, fs, ExtractAll(fs, root, hs[..j]).fs) {
        if j > 0 {
          var k := j - 1;
          assert ExtractAll(fs, root, hs[..k+1]) == if r.errno != OK then r else ExtractAll(r.fs, root, rest[..k]);
        }
      }
    } else {
      var k :| 0 <= k <= |rest| && !Contained(root, r.fs, ExtractAll(r.fs, root, rest[..k]).fs);
      assert !Contained(root, fs, ExtractAll(fs, root, hs[..k+1]).fs);
    }
  }

  /** Exactly when a stream, markers of every kind included, stays inside its target from
      beginning to end. */
  lemma {:induction false} StreamContainedIff(fs: FS, root: Path, hs: seq<Header>)
    requires GoodRoot(fs, root)
    ensures StreamContained(fs, root, hs) <==> StreamStays(fs, root, hs)
    decreases |hs|
  {
    assert ExtractAll(fs, root, hs[..0]) == Ret(fs, OK);
    if hs != [] {
      var r, rest := ApplyEntry(fs, root, hs[0]), hs[1..];
      EntryContainedIff(fs, root, hs[0]);
      ExtractFirst(fs, root, hs, 0);
      assert ExtractAll(r.fs, root, rest[..0]) == Ret(r.fs, OK);
      assert StreamContained(fs, root, hs) ==> Contained(root, fs, ExtractAll(fs, root, hs[..1]).fs);
      if Contained(root, fs, r.fs) {
        if r.errno == OK {
          StreamContainedIff(r.fs, root, rest);
        }
        RestOfStream(fs, root, hs);
      }
    }
  }

  lemma {:induction false} StreamKeeps(fs: FS, root: Path, hs: seq<Header>)
    requires GoodRoot(fs, root) && StreamStays(fs, root, hs)
    ensures var r := ExtractAll(fs, root, hs);
            Contained(root, fs, r.fs) && GoodRoot(r.fs, root)
    decreases |hs|
  {
    if hs != [] {
      var r := ApplyEntry(fs, root, hs[0]);
      EntryContainedIff(fs, root, hs[0]);
      if r.errno == OK {
        StreamKeeps(r.fs, root, hs[1..]);
        ContainedTwice(root, fs, r.fs, ExtractAll(r.fs, root, hs[1..]).fs);
      }
    }
  }

  lemma {:induction false} ExtractNoForeignFiles(fs: FS, root: Path, hs: seq<Header>)
    requires GoodRoot(fs, root) && StreamStays(fs, root, hs)
    ensures NoForeignFiles(root, fs, ExtractAll(fs, root, hs).fs)
    decreases |hs|
  {
    if hs != [] {
      var r := ApplyEntry(fs, root, hs[0]);
      EntryContainedIff(fs, root, hs[0]);
      if r.errno == OK {
        ExtractNoForeignFiles(r.fs, root, hs[1..]);
        var after := ExtractAll(r.fs, root, hs[1..]).fs;
        forall p | p in after.nodes && root < p && after.nodes[p].File? && after.nodes[p].ino < |fs.data|
          ensures FileBelow(root, fs, after.nodes[p].ino)
        {
          assert FileBelow(root, r.fs, after.nodes[p].ino);
        }
      }
    }
  }

  /** Entries whose whiteouts name ordinary siblings always qualify. */
  lemma {:induction false} PlainStays(fs: FS, root: Path, hs: seq<Header>)
    requires GoodRoot(fs, root) && PlainMarkers(hs)
    ensures StreamStays(fs, root, hs)
    decreases |hs|
  {
    if hs != [] {
      EntryContained(fs, root, hs[0]);
      var r := ApplyEntry(fs, root, hs[0]);
      if r.errno == OK {
        PlainStays(r.fs, root, hs[1..]);
      }
    }
  }

  /** Containment over a whole stream: for any entries and any links already planted in the
      target, names outside it and existing file contents are untouched, also when an entry
      fails, and the tree stays a tree. */
  lemma ExtractContained(fs: FS, root: Path, hs: seq<Header>)
    requires GoodRoot(fs, root) && PlainMarkers(hs)
    ensures var r := ExtractAll(fs, root, hs);
            Contained(root, fs, r.fs) && GoodRoot(r.fs, root)
  {
    PlainStays(fs, root, hs);
    StreamKeeps(fs, root, hs);
  }

  /** extractTar. */
  method ExtractTar(disk: Disk, root: Path, hs: seq<Header>) returns (e: Errno)
    modifies disk
    ensures old(GoodRoot(disk.fs, root) && StreamStays(disk.fs, root, hs)) ==>
              && Ret(disk.fs, e) == ExtractAll(old(disk.fs), root, hs)
              && Contained(root, old(disk.fs), disk.fs)
              && NoForeignFiles(root, old(disk.fs), disk.fs)
  {
    ghost var before := disk.fs;
    ghost var good := GoodRoot(before, root) && StreamStays(before, root, hs);
    if good {
      StreamKeeps(before, root, hs);
      ExtractNoForeignFiles(before, root, hs);
    }
    for i := 0 to |hs|
      invariant good ==> GoodRoot(disk.fs, root) && StreamStays(disk.fs, root, hs[i..])
      invariant good ==> ExtractAll(disk.fs, root, hs[i..]) == ExtractAll(before, root, hs)
    {
      if good {
        EntryContainedIff(disk.fs, root, hs[i]);
        assert hs[i..][0] == hs[i] && hs[i..][1..] == hs[i+1..];
      }
      e := ExtractEntry(disk, root, hs[i]);
      if e != OK {
        return;
      }
    }
    e := OK;
  }

  /** The body of extractTar's loop. */
  method ExtractEntry(disk: Disk, root: Path, h: Header) returns (e: Errno)
    modifies disk
    ensures old(GoodRoot(disk.fs, root)) ==> Ret(disk.fs, e) == ApplyEntry(old(disk.fs), root, h)
  {
    var name := Clean(h.name);
    if name == [] {
      return OK;
    }
    if name[0] == ".." {
      return Escapes;
    }
    var dir, base := Up(name), Last(name);
    if GoodRoot(disk.fs, root) {
      SecureJoinSettled(disk.fs, root, dir);
    }
    var joined := SecureJoinLoop(disk.fs, root, dir);
    if joined.Fail? {
      return joined.errno;
    }
    var parent := joined.path;
    if base == WHITEOUT_OPAQUE {
      e := ClearDirContents(disk, parent);
      if e == ENOENT {
        e := OK;
      }
      return;
    }
    if IsWhiteout(base) {
      e := disk.RemoveAll(JoinName(parent, Suffix(base)));
      return;
    }
    e := disk.MkdirAll(parent);
    if e != OK {
      return;
    }
    var target := parent + [base];
    match h.kind {
      case KDir =>
        e := disk.MkdirAll(target);
      case KReg(body) =>
        var _ := disk.RemoveAll(target);
        e := disk.CreateExcl(target, body);
      case KSymlink(t) =>
        var _ := disk.RemoveAll(target);
        e := disk.Symlink(t, target);
      case KHardLink(source) =>
        var _ := disk.RemoveAll(target);
        var from := SecureJoinLoop(disk.fs, root, source.parts);
        if from.Fail? {
          return from.errno;
        }
        e := disk.Link(from.path, target);
      case KOther =>
        e := OK;
    }
  }
}
