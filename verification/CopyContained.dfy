/**
 When copying a directory stays inside its destination. Unlike extraction, copyDir hands its
 paths to the kernel as they are, so a link already in the destination can lead it out. The
 condition found here is about the tree before each step, and it is exact.
 */
module CopyContainment {
  import opened Wrappers
  import opened Paths
  import opened FileTree
  import opened Resolution
  import opened Extraction
  import opened Loaders

  // ----- What os.MkdirAll makes -----

  /** The first directory that os.MkdirAll makes: the first missing name below the deepest
      directory that the path reaches. None when it makes nothing. */
  function FirstMade(fs: FS, p: Path): Option<Path>
    decreases |p|
  {
    if p == [] || StatPath(fs, p).Is? then None
    else
      match OpenDir(fs, Up(p))
      case At(d) => if d + [Last(p)] in fs.nodes then None else Some(d + [Last(p)])
      case Fail(_) => FirstMade(fs, Up(p))
  }

  /** Something new at n and perhaps below it; everything else is as it was. */
  ghost predicate GrownAt(n: Path, fs: FS, after: FS) {
    && fs.data <= after.data
    && n != [] && n !in fs.nodes && n in after.nodes
    && Within(fs, after)
    && (forall p :: p in after.nodes && p !in fs.nodes ==> n <= p)
  }

  /** d is a directory, new or below what is new, and still empty. */
  ghost predicate FreshDir(n: Path, fs: FS, d: Path) {
    && n <= d && IsDir(fs, d)
    && (forall q :: d < q ==> q !in fs.nodes)
  }

  lemma MadeIn(fs: FS, p: Path, d: Path)
    requires WellFormed(fs) && Names(p) && p != [] && OpenDir(fs, Up(p)) == At(d)
    ensures var q, r := d + [Last(p)], Mkdir(fs, p);
            if q in fs.nodes then r == Ret(fs, EEXIST)
            else
              && r == Ret(Put(fs, q, Dir), OK) && WellFormed(r.fs) && GrownAt(q, fs, r.fs)
              && OpenDir(r.fs, p) == At(q) && FreshDir(q, r.fs, q)
  {
    var q := d + [Last(p)];
    LookupIn(fs, p);
    if q !in fs.nodes {
      assert Up(q) == d;
      PutKeeps(fs, q, Dir);
      var g := Put(fs, q, Dir);
      WalkGrows(fs, g, [], Up(p), KERNEL_LINKS);
      LookupIn(g, p);
      forall x | q < x ensures x !in g.nodes {
        NothingBelow(fs, q, x);
      }
    }
  }

  /** os.MkdirAll on any path, whatever links it runs through: it makes nothing, or makes
      directories from the first missing name on, down to an empty one. */
  lemma {:induction false} MkdirAllMakes(fs: FS, p: Path)
    requires WellFormed(fs) && Names(p)
    ensures var r := MkdirAll(fs, p);
            match FirstMade(fs, p)
            case None => r.fs == fs && (r.errno == OK <==> OpenDir(fs, p).At?)
            case Some(n) =>
              && r.errno == OK && WellFormed(r.fs) && GrownAt(n, fs, r.fs)
              && OpenDir(r.fs, p).At? && FreshDir(n, r.fs, OpenDir(r.fs, p).path)
    decreases |p|
  {
    if p != [] && StatPath(fs, p).No? {
      MkdirAllMakes(fs, Up(p));
      match OpenDir(fs, Up(p))
      case At(d) =>
        LookupIn(fs, p);
        MadeIn(fs, p, d);
        assert MkdirAll(fs, Up(p)) == Ret(fs, OK);
      case Fail(_) =>
        if FirstMade(fs, Up(p)).Some? {
          MadeBelow(fs, p, FirstMade(fs, Up(p)).value);
        }
    }
  }

  /** Once something was made above it, the last name is made too. */
  lemma MadeBelow(fs: FS, p: Path, n: Path)
    requires WellFormed(fs) && Names(p) && p != [] && StatPath(fs, p).No?
    requires var above := MkdirAll(fs, Up(p));
             && above.errno == OK && WellFormed(above.fs) && GrownAt(n, fs, above.fs)
             && OpenDir(above.fs, Up(p)).At? && FreshDir(n, above.fs, OpenDir(above.fs, Up(p)).path)
    ensures var r := MkdirAll(fs, p);
            && r.errno == OK && WellFormed(r.fs) && GrownAt(n, fs, r.fs)
            && OpenDir(r.fs, p).At? && FreshDir(n, r.fs, OpenDir(r.fs, p).path)
  {
    var above := MkdirAll(fs, Up(p));
    var d := OpenDir(above.fs, Up(p)).path;
    MadeIn(above.fs, p, d);
    assert MkdirAll(fs, p) == Mkdir(above.fs, p);
  }

  // ----- What one step does -----

  /** What a source directory can hold: ordinary names, and links with a target. */
  predicate Copyable(v: Visit) {
    v.rel != [] && Names(v.rel) && (v.kind.KSymlink? ==> v.kind.target != RawPath(false, []))
  }

  /** Once the entry that p names is gone, p's parent leads to the same directory, or nowhere
      because the way to it ran through that entry. */
  lemma AfterRemoving(fs: FS, p: Path, d: Path)
    requires WellFormed(fs) && Names(p) && p != [] && OpenDir(fs, Up(p)) == At(d)
    ensures var q := d + [Last(p)];
            var g := Prune(fs, q);
            && RemoveAll(fs, p) == Ret(g, OK) && WellFormed(g)
            && (OpenDir(g, Up(p)) == At(d) || (OpenDir(g, Up(p)).Fail? && q in fs.nodes))
  {
    var q := d + [Last(p)];
    var g := Prune(fs, q);
    LookupIn(fs, p);
    PruneKeeps(fs, q);
    if OpenDir(g, Up(p)).At? {
      WalkGrows(g, fs, [], Up(p), KERNEL_LINKS);
    } else if q !in fs.nodes {
      NothingAt(fs, q);
    }
  }

  lemma NothingAt(fs: FS, q: Path)
    requires WellFormed(fs) && q !in fs.nodes
    ensures Prune(fs, q) == fs
  {
    forall x | q <= x ensures x !in fs.nodes {
      if x != q {
        NothingBelow(fs, q, x);
      }
    }
    assert Prune(fs, q).nodes == fs.nodes;
  }

  /** Writing a file into the directory d that its parent path leads to. */
  lemma FileInto(fs: FS, p: Path, d: Path, body: string)
    requires WellFormed(fs) && Names(p) && p != [] && OpenDir(fs, Up(p)) == At(d)
    ensures var q := d + [Last(p)];
            var g := Prune(fs, q);
            var r := CreateTrunc(RemoveAll(fs, p).fs, p, body);
            && WellFormed(r.fs)
            && (OpenDir(g, Up(p)).At? ==> r == Ret(PutFile(g, q, body), OK))
            && (OpenDir(g, Up(p)).Fail? ==> r.fs == g && r.errno != OK && q in fs.nodes)
  {
    var q := d + [Last(p)];
    var g := Prune(fs, q);
    AfterRemoving(fs, p, d);
    LocateFailsWithError(g, p);
    if OpenDir(g, Up(p)).At? {
      assert Up(q) == d;
      LookupIn(g, p);
      PutFileKeeps(g, q, body);
    } else {
      LookupNowhere(g, p);
    }
  }

  lemma LinkInto(fs: FS, p: Path, d: Path, t: RawPath)
    requires WellFormed(fs) && Names(p) && p != [] && OpenDir(fs, Up(p)) == At(d)
    requires t != RawPath(false, [])
    ensures var q := d + [Last(p)];
            var g := Prune(fs, q);
            var r := Symlink(RemoveAll(fs, p).fs, t, p);
            && WellFormed(r.fs)
            && (OpenDir(g, Up(p)).At? ==> r == Ret(Put(g, q, Link(t)), OK))
            && (OpenDir(g, Up(p)).Fail? ==> r.fs == g && r.errno != OK && q in fs.nodes)
  {
    var q := d + [Last(p)];
    var g := Prune(fs, q);
    AfterRemoving(fs, p, d);
    LocateFailsWithError(g, p);
    if OpenDir(g, Up(p)).At? {
      assert Up(q) == d;
      LookupIn(g, p);
      PutKeeps(g, q, Link(t));
    } else {
      LookupNowhere(g, p);
    }
  }

  lemma LinkNowhere(fs: FS, p: Path, t: RawPath)
    requires WellFormed(fs) && Names(p) && p != [] && OpenDir(fs, Up(p)).Fail?
    requires t != RawPath(false, [])
    ensures Locate(fs, p).Fail? && Symlink(RemoveAll(fs, p).fs, t, p) == Ret(fs, Locate(fs, p).errno)
  {
    LookupNowhere(fs, p);
  }

  /** A file whose parent directories had to be made first. */
  lemma FileIntoMade(fs: FS, p: Path, body: string)
    requires WellFormed(fs) && Names(p) && p != [] && FirstMade(fs, Up(p)).Some?
    ensures var g := MkdirAll(fs, Up(p));
            var r := CreateTrunc(RemoveAll(g.fs, p).fs, p, body);
            && g.errno == OK && WellFormed(r.fs) && GrownAt(FirstMade(fs, Up(p)).value, fs, r.fs)
  {
    MkdirAllMakes(fs, Up(p));
    var g, n := MkdirAll(fs, Up(p)).fs, FirstMade(fs, Up(p)).value;
    var d := OpenDir(g, Up(p)).path;
    var q := d + [Last(p)];
    FileInto(g, p, d, body);
    NothingAt(g, q);
  }

  // ----- When a step stays inside -----

  /** What os.MkdirAll would make lies below dst. */
  predicate MakesInside(fs: FS, dst: Path, p: Path) {
    FirstMade(fs, p).Some? ==> dst < FirstMade(fs, p).value
  }

  /** If p leads to a directory, that is dst or one below it. */
  predicate LeadsInside(fs: FS, dst: Path, p: Path) {
    OpenDir(fs, p).At? ==> dst <= OpenDir(fs, p).path
  }

  /** The name already is this very link, and the way to it does not run through it. */
  predicate SameLink(fs: FS, p: Path, t: RawPath)
    requires p != []
  {
    OpenDir(fs, Up(p)).At? &&
    var q := OpenDir(fs, Up(p)).path + [Last(p)];
    q in fs.nodes && fs.nodes[q] == Link(t) && OpenDir(Prune(fs, q), Up(p)).At?
  }

  /** What has to hold before a step, for the step to stay inside dst. */
  predicate VisitStays(fs: FS, dst: Path, v: Visit)
    requires v.rel != []
  {
    var target := dst + v.rel;
    match v.kind
    case KDir => MakesInside(fs, dst, target)
    case KReg(_) => MakesInside(fs, dst, Up(target)) && LeadsInside(fs, dst, Up(target))
    case KSymlink(t) => LeadsInside(fs, dst, Up(target)) || SameLink(fs, target, t)
    case _ => true
  }

  lemma GrownContainedIff(n: Path, dst: Path, fs: FS, after: FS)
    requires GrownAt(n, fs, after)
    ensures Contained(dst, fs, after) <==> dst < n
  {
  }

  /** Replacing the entry q, or failing to after it was removed. */
  lemma ReplacedContainedIff(q: Path, dst: Path, fs: FS, after: FS)
    requires fs.data <= after.data
    requires forall p :: !(q <= p) ==> (p in fs.nodes <==> p in after.nodes)
    requires forall p :: !(q <= p) && p in fs.nodes ==> fs.nodes[p] == after.nodes[p]
    requires q in fs.nodes || q in after.nodes
    requires q in fs.nodes && q in after.nodes ==> fs.nodes[q] != after.nodes[q]
    ensures Contained(dst, fs, after) <==> dst < q
  {
  }

  lemma FileContainedIff(fs: FS, dst: Path, p: Path, d: Path, body: string)
    requires WellFormed(fs) && Names(p) && p != [] && OpenDir(fs, Up(p)) == At(d)
    ensures var r := CreateTrunc(RemoveAll(fs, p).fs, p, body);
            Contained(dst, fs, r.fs) <==> dst <= d
  {
    var q := d + [Last(p)];
    FileInto(fs, p, d, body);
    ReplacedContainedIff(q, dst, fs, CreateTrunc(RemoveAll(fs, p).fs, p, body).fs);
    assert dst < q <==> dst <= d;
  }

  lemma LinkContainedIff(fs: FS, dst: Path, p: Path, d: Path, t: RawPath)
    requires WellFormed(fs) && Names(p) && p != [] && OpenDir(fs, Up(p)) == At(d)
    requires t != RawPath(false, [])
    ensures var r := Symlink(RemoveAll(fs, p).fs, t, p);
            Contained(dst, fs, r.fs) <==> dst <= d || SameLink(fs, p, t)
  {
    var q := d + [Last(p)];
    var after := Symlink(RemoveAll(fs, p).fs, t, p).fs;
    LinkInto(fs, p, d, t);
    assert dst < q <==> dst <= d;
    if SameLink(fs, p, t) {
      forall x | q < x ensures x !in fs.nodes {
        NothingBelow(fs, q, x);
      }
      assert after == Put(Prune(fs, q), q, Link(t));
      forall x ensures x in after.nodes <==> x in fs.nodes {
        assert q <= x ==> q == x || q < x;
      }
    } else {
      ReplacedContainedIff(q, dst, fs, after);
    }
  }

  /** Exactly when one step of the copy changes nothing outside the destination, for every
      visit and every tree: the condition is read off the tree before the step. */
  lemma VisitContainedIff(fs: FS, dst: Path, v: Visit)
    requires WellFormed(fs) && Names(dst) && Copyable(v)
    ensures Contained(dst, fs, CopyStep(fs, dst, v).fs) <==> VisitStays(fs, dst, v)
  {
    var target := dst + v.rel;
    var up := Up(target);
    match v.kind
    case KDir =>
      MkdirAllMakes(fs, target);
      if FirstMade(fs, target).Some? {
        GrownContainedIff(FirstMade(fs, target).value, dst, fs, MkdirAll(fs, target).fs);
      }
    case KReg(body) =>
      MkdirAllMakes(fs, up);
      if FirstMade(fs, up).Some? {
        FileIntoMade(fs, target, body);
        GrownContainedIff(FirstMade(fs, up).value, dst, fs, CopyStep(fs, dst, v).fs);
      } else if OpenDir(fs, up).At? {
        FileContainedIff(fs, dst, target, OpenDir(fs, up).path, body);
      }
    case KSymlink(t) =>
      if OpenDir(fs, up).At? {
        LinkContainedIff(fs, dst, target, OpenDir(fs, up).path, t);
      } else {
        LinkNowhere(fs, target, t);
      }
    case _ =>
  }

  /** Contained or not, a step leaves a tree, and no file content is altered. */
  lemma CopyStepKeeps(fs: FS, dst: Path, v: Visit)
    requires WellFormed(fs) && Names(dst) && Copyable(v)
    ensures var r := CopyStep(fs, dst, v);
            WellFormed(r.fs) && fs.data <= r.fs.data
  {
    var target := dst + v.rel;
    var up := Up(target);
    match v.kind
    case KDir => MkdirAllMakes(fs, target);
    case KReg(body) =>
      MkdirAllMakes(fs, up);
      if FirstMade(fs, up).Some? {
        FileIntoMade(fs, target, body);
      } else if OpenDir(fs, up).At? {
        FileInto(fs, target, OpenDir(fs, up).path, body);
      }
    case KSymlink(t) =>
      if OpenDir(fs, up).At? {
        LinkInto(fs, target, OpenDir(fs, up).path, t);
      } else {
        LinkNowhere(fs, target, t);
      }
    case _ =>
  }

  // ----- Whole copies -----

  predicate AllCopyable(vs: seq<Visit>) {
    forall i :: 0 <= i < |vs| ==> Copyable(vs[i])
  }

  /** Each step that is reached meets its condition. */
  predicate CopyStays(fs: FS, dst: Path, vs: seq<Visit>)
    requires AllCopyable(vs)
    decreases |vs|
  {
    vs == [] ||
    (&& VisitStays(fs, dst, vs[0])
     && var r := CopyStep(fs, dst, vs[0]);
        r.errno == OK ==> CopyStays(r.fs, dst, vs[1..]))
  }

  /** At no moment does anything outside dst differ from the start. */
  ghost predicate ContainedThroughout(fs: FS, dst: Path, vs: seq<Visit>) {
    forall k :: 0 <= k <= |vs| ==> Contained(dst, fs, CopyAll(fs, dst, vs[..k]).fs)
  }

  lemma {:induction false} CopyAllKeeps(fs: FS, dst: Path, vs: seq<Visit>)
    requires WellFormed(fs) && Names(dst) && AllCopyable(vs)
    ensures var r := CopyAll(fs, dst, vs);
            WellFormed(r.fs) && fs.data <= r.fs.data
    decreases |vs|
  {
    if vs != [] {
      CopyStepKeeps(fs, dst, vs[0]);
      var r := CopyStep(fs, dst, vs[0]);
      if r.errno == OK {
        CopyAllKeeps(r.fs, dst, vs[1..]);
      }
    }
  }

  lemma CopyFirst(fs: FS, dst: Path, vs: seq<Visit>, k: nat)
    requires k < |vs|
    ensures var r := CopyStep(fs, dst, vs[0]);
            CopyAll(fs, dst, vs[..k+1]) == if r.errno != OK then r else CopyAll(r.fs, dst, vs[1..][..k])
  {
    assert vs[..k+1][0] == vs[0] && vs[..k+1][1..] == vs[1..][..k];
  }

  /** Exactly when a copy stays inside its destination from beginning to end. */
  lemma {:induction false} CopyContainedIff(fs: FS, dst: Path, vs: seq<Visit>)
    requires WellFormed(fs) && Names(dst) && AllCopyable(vs)
    ensures ContainedThroughout(fs, dst, vs) <==> CopyStays(fs, dst, vs)
    decreases |vs|
  {
    assert CopyAll(fs, dst, vs[..0]) == Ret(fs, OK);
    if vs != [] {
      var r, rest := CopyStep(fs, dst, vs[0]), vs[1..];
      VisitContainedIff(fs, dst, vs[0]);
      CopyStepKeeps(fs, dst, vs[0]);
      CopyFirst(fs, dst, vs, 0);
      assert CopyAll(r.fs, dst, rest[..0]) == Ret(r.fs, OK);
      assert ContainedThroughout(fs, dst, vs) ==> Contained(dst, fs, CopyAll(fs, dst, vs[..1]).fs);
      if Contained(dst, fs, r.fs) {
        if r.errno == OK {
          CopyContainedIff(r.fs, dst, rest);
        }
        RestThroughout(fs, dst, vs);
      }
    }
  }

  lemma RestThroughout(fs: FS, dst: Path, vs: seq<Visit>)
    requires WellFormed(fs) && Names(dst) && AllCopyable(vs) && vs != []
    requires Contained(dst, fs, CopyStep(fs, dst, vs[0]).fs)
    ensures var r := CopyStep(fs, dst, vs[0]);
            ContainedThroughout(fs, dst, vs) <==> (r.errno == OK ==> ContainedThroughout(r.fs, dst, vs[1..]))
  {
    var r, rest := CopyStep(fs, dst, vs[0]), vs[1..];
    CopyStepKeeps(fs, dst, vs[0]);
    forall k | 0 <= k < |vs|
      ensures CopyAll(fs, dst, vs[..k+1]) == if r.errno != OK then r else CopyAll(r.fs, dst, rest[..k])
      ensures r.errno == OK ==>
                (Contained(dst, fs, CopyAll(fs, dst, vs[..k+1]).fs)
                 <==> Contained(dst, r.fs, CopyAll(r.fs, dst, rest[..k]).fs))
    {
      CopyFirst(fs, dst, vs, k);
      CopyAllKeeps(r.fs, dst, rest[..k]);
      ContainedSince(dst, fs, r.fs, CopyAll(r.fs, dst, rest[..k]).fs);
    }
    if r.errno != OK || ContainedThroughout(r.fs, dst, rest) {
      forall j | 0 <= j <= |vs| ensures Contained(dst, fs, CopyAll(fs, dst, vs[..j]).fs) {
        if j > 0 {
          var k := j - 1;
          assert CopyAll(fs, dst, vs[..k+1]) == if r.errno != OK then r else CopyAll(r.fs, dst, rest[..k]);
        }
      }
    } else {
      var k :| 0 <= k <= |rest| && !Contained(dst, r.fs, CopyAll(r.fs, dst, rest[..k]).fs);
      assert !Contained(dst, fs, CopyAll(fs, dst, vs[..k+1]).fs);
    }
  }

  // ----- Whole directories -----

  /** What a file system lists: ordinary names, links with a target. */
  predicate ListedKids(kids: seq<Kid>)
    decreases kids
  {
    forall i :: 0 <= i < |kids| ==> Ordinary(kids[i].name) && Listed(kids[i].node)
  }

  predicate Listed(n: Source)
    decreases n
  {
    match n
    case SDir(kids) => ListedKids(kids)
    case SFile(_) => true
    case SLink(t) => t != RawPath(false, [])
  }

  lemma {:induction false} VisitsCopyable(at: Path, kids: seq<Kid>)
    requires ListedKids(kids) && Names(at)
    ensures AllCopyable(Visits(at, kids))
    decreases kids
  {
    if kids != [] {
      assert ListedKids(kids[1..]);
      VisitNodeCopyable(at + [kids[0].name], kids[0].node);
      VisitsCopyable(at, kids[1..]);
    }
  }

  lemma {:induction false} VisitNodeCopyable(at: Path, n: Source)
    requires Listed(n) && Names(at) && at != []
    ensures AllCopyable(VisitNode(at, n))
    decreases n
  {
    if n.SDir? {
      VisitsCopyable(at, n.kids);
    }
  }

  /** Copying a directory onto a real target under that condition. */
  predicate DirectoryStays(fs: FS, dst: Path, kids: seq<Kid>)
    requires ListedKids(kids)
  {
    VisitsCopyable([], kids);
    CopyStays(fs, dst, Visits([], kids))
  }

  lemma CopyTreeContained(fs: FS, dst: Path, kids: seq<Kid>)
    requires GoodRoot(fs, dst) && ListedKids(kids) && DirectoryStays(fs, dst, kids)
    ensures var r := CopyTree(fs, dst, kids);
            Contained(dst, fs, r.fs) && GoodRoot(r.fs, dst)
  {
    var vs := Visits([], kids);
    VisitsCopyable([], kids);
    RealIsLinkFree(fs, dst);
    MkdirAllLiteral(fs, dst);
    WithDirsNothing(fs, dst);
    CopyContainedIff(fs, dst, vs);
    CopyAllKeeps(fs, dst, vs);
    assert vs[..|vs|] == vs;
    RootKept(dst, fs, CopyAll(fs, dst, vs).fs);
  }

  /** A copy during which no source directory meets a link of the destination meets it. */
  lemma {:induction false} NoLinkStays(fs: FS, dst: Path, vs: seq<Visit>, k: nat)
    requires Loading(fs, dst, vs, k) && Ordered([], vs) && Usable(vs) && AllCopyable(vs)
    ensures CopyStays(fs, dst, vs[k..])
    decreases |vs| - k
  {
    if k < |vs| {
      assert vs[k..][0] == vs[k] && vs[k..][1..] == vs[k+1..];
      var v := vs[k];
      assert UsableVisit(v);
      LoadingStep(fs, dst, vs, k);
      PackedName(v);
      NotMarker(Last(v.rel));
      EntryContained(fs, dst, PackOne(v));
      VisitContainedIff(fs, dst, v);
      if CopyStep(fs, dst, v).errno == OK {
        NoLinkStays(CopyStep(fs, dst, v).fs, dst, vs, k + 1);
      }
    }
  }

  lemma {:induction false} SaneIsListed(kids: seq<Kid>)
    requires SaneKids(kids)
    ensures ListedKids(kids)
    decreases kids
  {
    forall i | 0 <= i < |kids| ensures Listed(kids[i].node) {
      if kids[i].node.SDir? {
        SaneIsListed(kids[i].node.kids);
      }
    }
  }

  lemma NoLinkDirectoryStays(fs: FS, dst: Path, kids: seq<Kid>)
    requires GoodRoot(fs, dst) && SaneKids(kids) && NoDirOnLink(fs, dst, Visits([], kids))
    ensures ListedKids(kids) && DirectoryStays(fs, dst, kids)
  {
    var vs := Visits([], kids);
    SaneIsListed(kids);
    VisitsCopyable([], kids);
    VisitsUsable([], kids);
    VisitsOrdered([], kids);
    NoLinkStays(fs, dst, vs, 0);
    assert vs[0..] == vs;
  }
}
