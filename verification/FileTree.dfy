/**
 The kernel side of the file tree: what the system calls used by the program do to a host
 tree in which every non-final symbolic link of a path is followed.
 */
module FileTree {
  import opened Paths

  datatype Errno =
    | OK | ENOENT | ENOTDIR | EEXIST | ELOOP | EPERM | EISDIR | EBUSY
    | TooManyLinks | Escapes

  datatype Node = Dir | File(ino: nat) | Link(target: RawPath)

  /** The whole host tree: nodes by location, file contents by inode number. */
  datatype FS = FS(nodes: map<Path, Node>, data: seq<string>)

  /** Result of a system call that may change the tree. */
  datatype Ret = Ret(fs: FS, errno: Errno)

  datatype Found = At(path: Path) | Fail(errno: Errno)

  datatype Stat = Is(node: Node) | No(errno: Errno)

  const KERNEL_LINKS: nat := 40

  predicate IsDir(fs: FS, p: Path) {
    p in fs.nodes && fs.nodes[p].Dir?
  }

  ghost predicate InodesExist(fs: FS) {
    forall p :: p in fs.nodes && fs.nodes[p].File? ==> fs.nodes[p].ino < |fs.data|
  }

  /** Everything that exists sits in a directory; files have contents. */
  ghost predicate WellFormed(fs: FS) {
    && IsDir(fs, [])
    && (forall p {:trigger Up(p)} :: p in fs.nodes && p != [] ==> IsDir(fs, Up(p)))
    && InodesExist(fs)
  }

  /** No existing prefix of p, p included, is a symbolic link. */
  ghost predicate LinkFree(fs: FS, p: Path) {
    forall k :: 0 <= k <= |p| ==> !(p[..k] in fs.nodes && fs.nodes[p[..k]].Link?)
  }

  /** p and everything above it are directories. */
  ghost predicate RealDir(fs: FS, p: Path) {
    forall k :: 0 <= k <= |p| ==> IsDir(fs, p[..k])
  }

  ghost predicate FileAbove(fs: FS, p: Path) {
    exists k :: 0 <= k < |p| && p[..k] in fs.nodes && fs.nodes[p[..k]].File?
  }

  // ----- Path lookup -----

  /** Follows `parts` from `cur` in a process whose root directory is `root`: ".." stops at
      the root, absolute link targets restart there, every link met is followed. */
  function Walk(fs: FS, root: Path, cur: Path, parts: seq<string>, links: nat): Found
    decreases links, |parts|
  {
    if parts == [] then At(cur)
    else if !IsDir(fs, cur) then Fail(ENOTDIR)
    else if parts[0] == "" || parts[0] == "." then Walk(fs, root, cur, parts[1..], links)
    else if parts[0] == ".." then
      Walk(fs, root, if cur == root then cur else Up(cur), parts[1..], links)
    else
      var next := cur + [parts[0]];
      if next !in fs.nodes then Fail(ENOENT)
      else
        match fs.nodes[next]
        case Link(t) =>
          if links == 0 then Fail(ELOOP)
          else Walk(fs, root, if t.abs then root else cur, t.parts + parts[1..], links - 1)
        case _ => Walk(fs, root, next, parts[1..], links)
  }

  lemma WalkFailsWithError(fs: FS, root: Path, cur: Path, parts: seq<string>, links: nat)
    ensures Walk(fs, root, cur, parts, links) != Fail(OK)
    decreases links, |parts|
  {
  }

  /** The entry that p names, its last component not followed. */
  function Locate(fs: FS, p: Path): Found {
    if p == [] then Fail(EBUSY)
    else
      match Walk(fs, [], [], Up(p), KERNEL_LINKS)
      case At(d) => if IsDir(fs, d) then At(d + [Last(p)]) else Fail(ENOTDIR)
      case Fail(e) => Fail(e)
  }

  lemma LocateFailsWithError(fs: FS, p: Path)
    ensures Locate(fs, p) != Fail(OK)
  {
    WalkFailsWithError(fs, [], [], Up(p), KERNEL_LINKS);
  }

  function Lstat(fs: FS, p: Path): Stat {
    if p == [] then Is(Dir)
    else
      match Locate(fs, p)
      case At(q) => if q in fs.nodes then Is(fs.nodes[q]) else No(ENOENT)
      case Fail(e) => No(e)
  }

  function StatPath(fs: FS, p: Path): Stat {
    match Walk(fs, [], [], p, KERNEL_LINKS)
    case At(q) => if q in fs.nodes then Is(fs.nodes[q]) else No(ENOENT)
    case Fail(e) => No(e)
  }

  /** The directory that opening p for reading its entries gives. */
  function OpenDir(fs: FS, p: Path): (r: Found)
    ensures r != Fail(OK)
    ensures r.At? ==> IsDir(fs, r.path)
  {
    WalkFailsWithError(fs, [], [], p, KERNEL_LINKS);
    match Walk(fs, [], [], p, KERNEL_LINKS)
    case Fail(e) => Fail(e)
    case At(d) =>
      if d !in fs.nodes then Fail(ENOENT) else if fs.nodes[d].Dir? then At(d) else Fail(ENOTDIR)
  }

  // ----- System calls and the library calls built on them -----

  function Prune(fs: FS, p: Path): FS {
    fs.(nodes := map q | q in fs.nodes && !(p <= q) :: fs.nodes[q])
  }

  function PruneBelow(fs: FS, p: Path): FS {
    fs.(nodes := map q | q in fs.nodes && !(p < q) :: fs.nodes[q])
  }

  function Put(fs: FS, p: Path, n: Node): FS {
    fs.(nodes := fs.nodes[p := n])
  }

  function PutFile(fs: FS, p: Path, body: string): FS {
    FS(fs.nodes[p := File(|fs.data|)], fs.data + [body])
  }

  function Mkdir(fs: FS, p: Path): Ret {
    match Locate(fs, p)
    case At(q) => if q in fs.nodes then Ret(fs, EEXIST) else Ret(Put(fs, q, Dir), OK)
    case Fail(e) => Ret(fs, if p == [] then EEXIST else e)
  }

  /** os.MkdirAll: a final component that is a link to a directory is accepted. */
  function MkdirAll(fs: FS, p: Path): Ret
    decreases |p|
  {
    match StatPath(fs, p)
    case Is(n) => Ret(fs, if n.Dir? then OK else ENOTDIR)
    case No(_) =>
      var above := if p == [] then Ret(fs, OK) else MkdirAll(fs, Up(p));
      if above.errno != OK then above
      else
        var made := Mkdir(above.fs, p);
        if made.errno != OK && Lstat(made.fs, p) == Is(Dir) then Ret(made.fs, OK) else made
  }

  /** os.RemoveAll: removes the named entry and all below it, following no final link. The
      top directory itself cannot go, but everything in it does before that shows. */
  function RemoveAll(fs: FS, p: Path): Ret {
    if p == [] then Ret(PruneBelow(fs, []), EBUSY)
    else
      match Locate(fs, p)
      case At(q) => Ret(Prune(fs, q), OK)
      case Fail(e) => Ret(fs, if e == ENOENT then OK else e)
  }

  /** open(O_CREATE|O_EXCL) followed by writing `body`. */
  function CreateExcl(fs: FS, p: Path, body: string): Ret {
    match Locate(fs, p)
    case At(q) => if q in fs.nodes then Ret(fs, EEXIST) else Ret(PutFile(fs, q, body), OK)
    case Fail(e) => Ret(fs, if p == [] then EEXIST else e)
  }

  /** open(O_CREATE|O_TRUNC) followed by writing `body`: reuses an existing file and follows a
      final link. Creating the missing target of a dangling link is not modelled. */
  function CreateTrunc(fs: FS, p: Path, body: string): Ret
  {
    match StatPath(fs, p)
    case Is(Dir) => Ret(fs, EISDIR)
    case Is(File(i)) => if i < |fs.data| then Ret(fs.(data := fs.data[i := body]), OK) else Ret(fs, ENOENT)
    case _ =>
      match Locate(fs, p)
      case At(q) => if q in fs.nodes then Ret(fs, ENOENT) else Ret(PutFile(fs, q, body), OK)
      case Fail(e) => Ret(fs, e)
  }

  function Symlink(fs: FS, target: RawPath, p: Path): Ret {
    if target == RawPath(false, []) then Ret(fs, ENOENT)
    else
      match Locate(fs, p)
      case At(q) => if q in fs.nodes then Ret(fs, EEXIST) else Ret(Put(fs, q, Link(target)), OK)
      case Fail(e) => Ret(fs, if p == [] then EEXIST else e)
  }

  /** link(2): neither path's last component is followed; directories cannot be linked. */
  function HardLink(fs: FS, source: Path, p: Path): Ret {
    match Lstat(fs, source)
    case No(e) => Ret(fs, e)
    case Is(n) =>
      match Locate(fs, p)
      case Fail(e) => Ret(fs, if p == [] then EEXIST else e)
      case At(q) =>
        if q in fs.nodes then Ret(fs, EEXIST)
        else if n.Dir? then Ret(fs, EPERM)
        else Ret(Put(fs, q, n), OK)
  }

  // ----- Lookup on paths without links is literal -----

  lemma {:induction false} AncestorsAreDirs(fs: FS, p: Path, k: nat)
    requires WellFormed(fs) && p in fs.nodes && k < |p|
    ensures IsDir(fs, p[..k])
    decreases |p|
  {
    assert p != [] && IsDir(fs, Up(p));
    if k == |p| - 1 {
      assert p[..k] == Up(p);
    } else {
      AncestorsAreDirs(fs, Up(p), k);
      assert Up(p)[..k] == p[..k];
    }
  }

  lemma ExistingIsReal(fs: FS, p: Path)
    requires WellFormed(fs) && IsDir(fs, p)
    ensures RealDir(fs, p)
  {
    forall k | 0 <= k <= |p| ensures IsDir(fs, p[..k]) {
      if k < |p| {
        AncestorsAreDirs(fs, p, k);
      } else {
        assert p[..k] == p;
      }
    }
  }

  lemma LinkFreePrefix(fs: FS, p: Path, q: Path)
    requires LinkFree(fs, p) && q <= p
    ensures LinkFree(fs, q)
  {
    forall k | 0 <= k <= |q| ensures q[..k] == p[..k] {
    }
  }

  /** What looking p up literally finds. */
  ghost function Literal(fs: FS, p: Path): Found {
    if p in fs.nodes then At(p)
    else if FileAbove(fs, p) then Fail(ENOTDIR)
    else Fail(ENOENT)
  }

  /** The kernel's walk along a path with no symbolic link on it does not deviate from it. */
  lemma {:induction false} WalkLiteral(fs: FS, p: Path, k: nat, links: nat)
    requires WellFormed(fs) && Names(p) && LinkFree(fs, p)
    requires k <= |p| && p[..k] in fs.nodes
    ensures Walk(fs, [], p[..k], p[k..], links) == Literal(fs, p)
    decreases |p| - k
  {
    if k == |p| {
      assert p[..k] == p;
    } else {
      var cur, next := p[..k], p[..k+1];
      assert next == cur + [p[k]] && p[k..][0] == p[k] && p[k..][1..] == p[k+1..];
      if p in fs.nodes {
        AncestorsAreDirs(fs, p, k);
      }
      if IsDir(fs, cur) {
        if next in fs.nodes {
          WalkLiteral(fs, p, k + 1, links);
        } else {
          NothingBelowMissing(fs, p, k + 1);
        }
      }
    }
  }

  lemma NothingBelowMissing(fs: FS, p: Path, k: nat)
    requires WellFormed(fs) && 0 < k <= |p| && p[..k] !in fs.nodes && IsDir(fs, p[..k-1])
    ensures p !in fs.nodes && !FileAbove(fs, p)
  {
    if p in fs.nodes && k < |p| {
      AncestorsAreDirs(fs, p, k);
    }
    assert p[..|p|] == p;
    forall j | 0 <= j < |p| && p[..j] in fs.nodes ensures !fs.nodes[p[..j]].File? {
      if j < k - 1 {
        AncestorsAreDirs(fs, p[..k-1], j);
        assert p[..k-1][..j] == p[..j];
      } else if j >= k {
        if j > k {
          assert p[..j][..k] == p[..k];
          AncestorsAreDirs(fs, p[..j], k);
        }
      }
    }
  }

  lemma WalkFromRoot(fs: FS, p: Path, links: nat)
    requires WellFormed(fs) && Names(p) && LinkFree(fs, p)
    ensures Walk(fs, [], [], p, links) == Literal(fs, p)
  {
    WalkLiteral(fs, p, 0, links);
    assert p[..0] == [] && p[0..] == p;
  }

  lemma LocateLiteral(fs: FS, p: Path)
    requires WellFormed(fs) && p != [] && Names(p) && LinkFree(fs, Up(p))
    ensures IsDir(fs, Up(p)) ==> Locate(fs, p) == At(p) && !FileAbove(fs, p)
    ensures !IsDir(fs, Up(p)) ==> p !in fs.nodes
    ensures !IsDir(fs, Up(p)) ==> Locate(fs, p) == if FileAbove(fs, p) then Fail(ENOTDIR) else Fail(ENOENT)
  {
    var u := Up(p);
    WalkFromRoot(fs, u, KERNEL_LINKS);
    assert p == u + [Last(p)];
    assert forall k :: 0 <= k < |p| ==> p[..k] == u[..k];
    assert u[..|u|] == u;
    if IsDir(fs, u) {
      ExistingIsReal(fs, u);
    } else if u in fs.nodes {
      assert fs.nodes[u].File?;
      assert p[..|u|] == u;
    } else if FileAbove(fs, p) {
      var k :| 0 <= k < |p| && p[..k] in fs.nodes && fs.nodes[p[..k]].File?;
      assert k < |u|;
    }
  }

  lemma OpenDirLiteral(fs: FS, p: Path)
    requires WellFormed(fs) && Names(p) && LinkFree(fs, p)
    ensures IsDir(fs, p) ==> OpenDir(fs, p) == At(p)
    ensures p !in fs.nodes && !FileAbove(fs, p) ==> OpenDir(fs, p) == Fail(ENOENT)
    ensures p in fs.nodes && !IsDir(fs, p) ==> OpenDir(fs, p) == Fail(ENOTDIR)
    ensures OpenDir(fs, p).At? ==> OpenDir(fs, p).path == p
  {
    WalkFromRoot(fs, p, KERNEL_LINKS);
  }

  /** lstat of such a path looks at exactly that entry. */
  lemma LstatLiteral(fs: FS, p: Path)
    requires WellFormed(fs) && Names(p) && (p != [] ==> LinkFree(fs, Up(p)))
    ensures Lstat(fs, p) ==
            if p in fs.nodes then Is(fs.nodes[p])
            else if FileAbove(fs, p) then No(ENOTDIR) else No(ENOENT)
  {
    if p != [] {
      LocateLiteral(fs, p);
    }
  }

  // ----- Lookup on any tree -----

  /** One more name at the end of a path: an error on the way stays, otherwise the name is
      looked up where the rest of the path leads. */
  lemma {:induction false} WalkSnoc(fs: FS, cur: Path, parts: seq<string>, name: string, links: nat)
    requires Ordinary(name)
    ensures var w, v := Walk(fs, [], cur, parts, links), Walk(fs, [], cur, parts + [name], links);
            match w
            case Fail(_) => v == w
            case At(d) =>
              if !IsDir(fs, d) then v == Fail(ENOTDIR)
              else if d + [name] !in fs.nodes then v == Fail(ENOENT)
              else fs.nodes[d + [name]].Link? || v == At(d + [name])
    decreases links, |parts|
  {
    if parts == [] {
      assert parts + [name] == [name] && [name][1..] == [];
    } else {
      assert (parts + [name])[0] == parts[0] && (parts + [name])[1..] == parts[1..] + [name];
      if IsDir(fs, cur) {
        if parts[0] == "" || parts[0] == "." {
          WalkSnoc(fs, cur, parts[1..], name, links);
        } else if parts[0] == ".." {
          WalkSnoc(fs, if cur == [] then cur else Up(cur), parts[1..], name, links);
        } else if cur + [parts[0]] in fs.nodes {
          match fs.nodes[cur + [parts[0]]]
          case Link(t) =>
            if links > 0 {
              assert t.parts + (parts[1..] + [name]) == (t.parts + parts[1..]) + [name];
              WalkSnoc(fs, if t.abs then [] else cur, t.parts + parts[1..], name, links - 1);
            }
          case _ => WalkSnoc(fs, cur + [parts[0]], parts[1..], name, links);
        }
      }
    }
  }

  /** Everything that `fs` has, `more` has too. */
  ghost predicate Within(fs: FS, more: FS) {
    forall p :: p in fs.nodes ==> p in more.nodes && more.nodes[p] == fs.nodes[p]
  }

  /** Where a path leads somewhere, it leads to the same place once more exists. */
  lemma {:induction false} WalkGrows(fs: FS, more: FS, cur: Path, parts: seq<string>, links: nat)
    requires Within(fs, more) && Walk(fs, [], cur, parts, links).At?
    ensures Walk(more, [], cur, parts, links) == Walk(fs, [], cur, parts, links)
    decreases links, |parts|
  {
    if parts == [] {
    } else if parts[0] == "" || parts[0] == "." {
      WalkGrows(fs, more, cur, parts[1..], links);
    } else if parts[0] == ".." {
      WalkGrows(fs, more, if cur == [] then cur else Up(cur), parts[1..], links);
    } else {
      match fs.nodes[cur + [parts[0]]]
      case Link(t) => WalkGrows(fs, more, if t.abs then [] else cur, t.parts + parts[1..], links - 1);
      case _ => WalkGrows(fs, more, cur + [parts[0]], parts[1..], links);
    }
  }

  /** What a name in a directory that p's parent leads to means for the lookups of p. */
  lemma LookupIn(fs: FS, p: Path)
    requires p != [] && Ordinary(Last(p)) && OpenDir(fs, Up(p)).At?
    ensures var q := OpenDir(fs, Up(p)).path + [Last(p)];
            && Locate(fs, p) == At(q)
            && (q !in fs.nodes ==> StatPath(fs, p) == No(ENOENT))
            && (q in fs.nodes && !fs.nodes[q].Link? ==> StatPath(fs, p) == Is(fs.nodes[q]))
            && (IsDir(fs, q) ==> OpenDir(fs, p) == At(q))
  {
    WalkSnoc(fs, [], Up(p), Last(p), KERNEL_LINKS);
    assert p == Up(p) + [Last(p)];
  }

  /** Nothing can be looked up in what is not a directory. */
  lemma LookupNowhere(fs: FS, p: Path)
    requires WellFormed(fs) && p != [] && Ordinary(Last(p)) && OpenDir(fs, Up(p)).Fail?
    ensures StatPath(fs, p).No? && Locate(fs, p).Fail?
  {
    WalkSnoc(fs, [], Up(p), Last(p), KERNEL_LINKS);
    assert p == Up(p) + [Last(p)];
  }

  // ----- Literal effects of the changing calls -----

  lemma PruneKeeps(fs: FS, p: Path)
    requires WellFormed(fs) && p != []
    ensures WellFormed(Prune(fs, p))
  {
    forall q | q in fs.nodes && q != [] && !(p <= q) ensures !(p <= Up(q)) {
    }
  }

  lemma PruneBelowKeeps(fs: FS, p: Path)
    requires WellFormed(fs)
    ensures WellFormed(PruneBelow(fs, p))
  {
    forall q | q in fs.nodes && q != [] && !(p < q) ensures !(p < Up(q)) {
    }
  }

  lemma PutKeeps(fs: FS, p: Path, n: Node)
    requires WellFormed(fs) && p != [] && IsDir(fs, Up(p)) && p !in fs.nodes
    requires n.File? ==> n.ino < |fs.data|
    ensures WellFormed(Put(fs, p, n))
  {
  }

  lemma PutFileKeeps(fs: FS, p: Path, body: string)
    requires WellFormed(fs) && p != [] && IsDir(fs, Up(p)) && p !in fs.nodes
    ensures WellFormed(PutFile(fs, p, body))
  {
  }

  function Prefixes(p: Path): set<Path> {
    set k | 0 <= k <= |p| :: p[..k]
  }

  /** The tree with p and every directory above it present. */
  function WithDirs(fs: FS, p: Path): FS {
    fs.(nodes := fs.nodes + map q | q in Prefixes(p) :: Dir)
  }

  lemma PrefixIffMember(p: Path, q: Path)
    ensures q in Prefixes(p) <==> q <= p
  {
    if q <= p {
      assert q == p[..|q|];
    }
  }

  lemma WithDirsStep(fs: FS, p: Path)
    requires p != []
    ensures WithDirs(fs, p) == Put(WithDirs(fs, Up(p)), p, Dir)
  {
    PrefixesStep(p);
    var above := map q | q in Prefixes(Up(p)) :: Dir;
    assert (map q | q in Prefixes(p) :: Dir) == above[p := Dir];
    assert fs.nodes + above[p := Dir] == (fs.nodes + above)[p := Dir];
  }

  lemma PrefixesStep(p: Path)
    requires p != []
    ensures Prefixes(p) == Prefixes(Up(p)) + {p}
  {
    forall q ensures q in Prefixes(p) <==> q in Prefixes(Up(p)) + {p} {
      PrefixIffMember(p, q);
      PrefixIffMember(Up(p), q);
      PrefixOrAbove(p, q);
    }
  }

  lemma PrefixOrAbove(p: Path, q: Path)
    requires p != []
    ensures q <= p <==> q == p || q <= Up(p)
  {
    assert q <= p && q != p ==> q == p[..|q|] == Up(p)[..|q|];
  }

  lemma WithDirsNothing(fs: FS, p: Path)
    requires RealDir(fs, p)
    ensures WithDirs(fs, p) == fs
  {
    forall q | q in Prefixes(p) ensures q in fs.nodes && fs.nodes[q] == Dir {
    }
    assert (fs.nodes + map q | q in Prefixes(p) :: Dir) == fs.nodes;
  }

  ghost predicate NoFileOn(fs: FS, p: Path) {
    forall k :: 0 <= k <= |p| ==> !(p[..k] in fs.nodes && fs.nodes[p[..k]].File?)
  }

  /** On a link-free path os.MkdirAll creates exactly the missing directories, or fails on a
      file in the way and changes nothing. */
  lemma {:induction false} MkdirAllLiteral(fs: FS, p: Path)
    requires WellFormed(fs) && Names(p) && LinkFree(fs, p)
    ensures NoFileOn(fs, p) ==> MkdirAll(fs, p) == Ret(WithDirs(fs, p), OK)
    ensures !NoFileOn(fs, p) ==> MkdirAll(fs, p) == Ret(fs, ENOTDIR)
    ensures NoFileOn(fs, p) ==> WellFormed(WithDirs(fs, p)) && RealDir(WithDirs(fs, p), p)
    decreases |p|
  {
    WalkFromRoot(fs, p, KERNEL_LINKS);
    assert p[..|p|] == p;
    if p in fs.nodes {
      if IsDir(fs, p) {
        ExistingIsReal(fs, p);
        WithDirsNothing(fs, p);
      }
    } else {
      var u := Up(p);
      assert forall k :: 0 <= k <= |u| ==> p[..k] == u[..k];
      LinkFreePrefix(fs, p, u);
      MkdirAllLiteral(fs, u);
      assert NoFileOn(fs, u) <==> NoFileOn(fs, p) by {
        if NoFileOn(fs, u) {
          forall k | 0 <= k <= |p| ensures !(p[..k] in fs.nodes && fs.nodes[p[..k]].File?) {
            if k < |p| {
              assert p[..k] == u[..k];
            }
          }
        } else {
          var k :| 0 <= k <= |u| && u[..k] in fs.nodes && fs.nodes[u[..k]].File?;
          assert p[..k] == u[..k];
        }
      }
      if NoFileOn(fs, p) {
        var mid := WithDirs(fs, u);
        assert u[..|u|] == u;
        assert p !in mid.nodes by { PrefixIffMember(u, p); }
        RealIsLinkFree(mid, u);
        LocateLiteral(mid, p);
        WithDirsStep(fs, p);
        PutKeeps(mid, p, Dir);
        ExistingIsReal(WithDirs(fs, p), p);
      }
    }
  }

  lemma RealIsLinkFree(fs: FS, p: Path)
    requires RealDir(fs, p)
    ensures LinkFree(fs, p) && NoFileOn(fs, p)
  {
  }
}
