/**
 The two ways a directory becomes a layer: copied straight into the target (copyDir), or packed
 as a tar stream (tarDirectory) and extracted.
 */
module Loaders {
  import opened Wrappers
  import opened Paths
  import opened FileTree
  import opened Resolution
  import opened HostDisk
  import opened Extraction
  import opened Changeset
  import opened Sequencing

  /** A source directory as filepath.WalkDir presents it: children in listing order. */
  datatype Source = SDir(kids: seq<Kid>) | SFile(body: string) | SLink(target: RawPath)
  datatype Kid = Kid(name: string, node: Source)

  /** Names are ordinary, no name is a whiteout, siblings differ, links have targets. */
  predicate SaneKids(kids: seq<Kid>)
    decreases kids
  {
    && (forall i :: 0 <= i < |kids| ==>
          Ordinary(kids[i].name) && !(WHITEOUT_PREFIX <= kids[i].name) && Sane(kids[i].node))
    && (forall i, j :: 0 <= i < j < |kids| ==> kids[i].name != kids[j].name)
  }

  predicate Sane(n: Source)
    decreases n
  {
    match n
    case SDir(kids) => SaneKids(kids)
    case SFile(_) => true
    case SLink(t) => t != RawPath(false, [])
  }

  /** One call of the walk callback. */
  datatype Visit = Visit(rel: Path, kind: Kind)

  /** Everything below a directory at `at`, a directory before its contents. */
  function Visits(at: Path, kids: seq<Kid>): seq<Visit>
    decreases kids
  {
    if kids == [] then []
    else VisitNode(at + [kids[0].name], kids[0].node) + Visits(at, kids[1..])
  }

  function VisitNode(at: Path, n: Source): seq<Visit>
    decreases n
  {
    match n
    case SDir(kids) => [Visit(at, KDir)] + Visits(at, kids)
    case SFile(body) => [Visit(at, KReg(body))]
    case SLink(t) => [Visit(at, KSymlink(t))]
  }

  // ----- tarDirectory -----

  /** The header written for one visit: directory names end in a slash. */
  function PackOne(v: Visit): Header {
    Header(RawPath(false, if v.kind.KDir? then v.rel + [""] else v.rel), v.kind)
  }

  function Pack(vs: seq<Visit>): (hs: seq<Header>)
    ensures |hs| == |vs|
  {
    seq(|vs|, i requires 0 <= i < |vs| => PackOne(vs[i]))
  }

  method TarDirectory(kids: seq<Kid>) returns (out: seq<Header>)
    ensures out == Pack(Visits([], kids))
  {
    out := [];
    var vs := Visits([], kids);
    for i := 0 to |vs|
      invariant out == Pack(vs[..i])
    {
      out := out + [PackOne(vs[i])];
      assert vs[..i+1][..i] == vs[..i];
    }
    assert vs[..|vs|] == vs;
  }

  /** Directory names end in a slash, no others do. */
  lemma PackedSlash(v: Visit)
    requires v.rel != [] && Names(v.rel)
    ensures PackOne(v).name.parts != [] && (Last(PackOne(v).name.parts) == "" <==> v.kind.KDir?)
  {
  }

  // ----- copyDir -----

  function CopyStep(fs: FS, dst: Path, v: Visit): Ret {
    var target := dst + v.rel;
    match v.kind
    case KDir => MkdirAll(fs, target)
    case KSymlink(t) => Symlink(RemoveAll(fs, target).fs, t, target)
    case KReg(body) =>
      var r := MkdirAll(fs, Up(target));
      if r.errno != OK then r else CreateTrunc(RemoveAll(r.fs, target).fs, target, body)
    case _ => Ret(fs, OK)
  }

  function CopyAll(fs: FS, dst: Path, vs: seq<Visit>): Ret
    decreases |vs|
  {
    if vs == [] then Ret(fs, OK)
    else
      var r := CopyStep(fs, dst, vs[0]);
      if r.errno != OK then r else CopyAll(r.fs, dst, vs[1..])
  }

  function CopyTree(fs: FS, dst: Path, kids: seq<Kid>): Ret {
    var r := MkdirAll(fs, dst);
    if r.errno != OK then r else CopyAll(r.fs, dst, Visits([], kids))
  }

  function VisitStep(dst: Path): (FS, Visit) -> Ret {
    (fs, v) => CopyStep(fs, dst, v)
  }

  /** A copy succeeds exactly when each step does; otherwise it ends with the first failure. */
  lemma {:induction false} CopyStops(fs: FS, dst: Path, vs: seq<Visit>)
    ensures StopsAtFailure(VisitStep(dst), fs, vs, CopyAll(fs, dst, vs))
    decreases |vs|
  {
    if vs != [] {
      var r := CopyStep(fs, dst, vs[0]);
      if r.errno != OK {
        StopsAtOnce(VisitStep(dst), fs, vs);
      } else {
        CopyStops(r.fs, dst, vs[1..]);
        StopsLater(VisitStep(dst), fs, vs, CopyAll(r.fs, dst, vs[1..]));
      }
    }
  }

  method CopyDir(disk: Disk, dst: Path, kids: seq<Kid>) returns (e: Errno)
    modifies disk
    ensures Ret(disk.fs, e) == CopyTree(old(disk.fs), dst, kids)
  {
    e := disk.MkdirAll(dst);
    if e != OK {
      return;
    }
    ghost var start := disk.fs;
    var vs := Visits([], kids);
    for i := 0 to |vs|
      invariant e == OK
      invariant CopyAll(disk.fs, dst, vs[i..]) == CopyAll(start, dst, vs)
    {
      assert vs[i..][1..] == vs[i+1..];
      var target := dst + vs[i].rel;
      match vs[i].kind {
        case KDir =>
          e := disk.MkdirAll(target);
        case KSymlink(t) =>
          var _ := disk.RemoveAll(target);
          e := disk.Symlink(t, target);
        case KReg(body) =>
          e := disk.MkdirAll(Up(target));
          if e == OK {
            var _ := disk.RemoveAll(target);
            e := disk.CreateTrunc(target, body);
          }
        case _ =>
      }
      if e != OK {
        return;
      }
    }
  }

  // ----- The order of the walk -----

  ghost predicate DirBefore(vs: seq<Visit>, i: nat, q: Path)
  {
    exists j :: 0 <= j < i && j < |vs| && vs[j] == Visit(q, KDir)
  }

  /** A directory is visited before anything in it; no path is visited twice. */
  ghost predicate Ordered(at: Path, vs: seq<Visit>) {
    && (forall i :: 0 <= i < |vs| ==> at < vs[i].rel)
    && (forall i, q :: 0 <= i < |vs| && at < q < vs[i].rel ==> DirBefore(vs, i, q))
    && (forall i, j :: 0 <= i < j < |vs| ==> vs[i].rel != vs[j].rel)
  }

  ghost predicate Usable(vs: seq<Visit>) {
    forall i :: 0 <= i < |vs| ==> UsableVisit(vs[i])
  }

  predicate UsableVisit(v: Visit) {
    && v.rel != [] && Names(v.rel) && !(WHITEOUT_PREFIX <= Last(v.rel))
    && match v.kind
       case KDir => true
       case KReg(_) => true
       case KSymlink(t) => t != RawPath(false, [])
       case _ => false
  }

  lemma UsableConcat(a: seq<Visit>, b: seq<Visit>)
    requires Usable(a) && Usable(b)
    ensures Usable(a + b)
  {
  }

  lemma {:induction false} VisitsUsable(at: Path, kids: seq<Kid>)
    requires SaneKids(kids) && Names(at)
    ensures Usable(Visits(at, kids))
    decreases kids
  {
    if kids != [] {
      assert SaneKids(kids[1..]);
      VisitNodeUsable(at + [kids[0].name], kids[0].node);
      VisitsUsable(at, kids[1..]);
      UsableConcat(VisitNode(at + [kids[0].name], kids[0].node), Visits(at, kids[1..]));
    }
  }

  lemma {:induction false} VisitNodeUsable(at: Path, n: Source)
    requires Sane(n) && Names(at) && at != [] && !(WHITEOUT_PREFIX <= Last(at))
    ensures Usable(VisitNode(at, n))
    decreases n
  {
    if n.SDir? {
      VisitsUsable(at, n.kids);
      UsableConcat([Visit(at, KDir)], Visits(at, n.kids));
    }
  }

  /** The walk of one node: itself first. */
  ghost predicate OrderedNode(at: Path, vs: seq<Visit>) {
    && (forall i :: 0 <= i < |vs| ==> at <= vs[i].rel)
    && (forall i, q :: 0 <= i < |vs| && at <= q < vs[i].rel ==> DirBefore(vs, i, q))
    && (forall i, j :: 0 <= i < j < |vs| ==> vs[i].rel != vs[j].rel)
  }

  lemma DirBeforeShift(a: seq<Visit>, b: seq<Visit>, i: nat, q: Path)
    ensures DirBefore(b, i, q) ==> DirBefore(a + b, |a| + i, q)
    ensures DirBefore(a, i, q) ==> DirBefore(a + b, i, q)
  {
    if DirBefore(b, i, q) {
      var j :| 0 <= j < i && j < |b| && b[j] == Visit(q, KDir);
      assert (a + b)[|a| + j] == b[j];
    }
    if DirBefore(a, i, q) {
      var j :| 0 <= j < i && j < |a| && a[j] == Visit(q, KDir);
      assert (a + b)[j] == a[j];
    }
  }

  lemma OrderedConcat(at: Path, name: string, a: seq<Visit>, b: seq<Visit>)
    requires OrderedNode(at + [name], a) && Ordered(at, b)
    requires forall i :: 0 <= i < |b| ==> b[i].rel[|at|] != name
    ensures Ordered(at, a + b)
  {
    var vs, p := a + b, at + [name];
    forall i, q | 0 <= i < |vs| && at < q < vs[i].rel ensures DirBefore(vs, i, q) {
      if i < |a| {
        assert p <= q;
        assert DirBefore(a, i, q);
        DirBeforeShift(a, b, i, q);
      } else {
        assert vs[i] == b[i - |a|];
        assert DirBefore(b, i - |a|, q);
        DirBeforeShift(a, b, i - |a|, q);
      }
    }
    forall i, j | 0 <= i < j < |vs| ensures vs[i].rel != vs[j].rel {
      if i < |a| <= j {
        assert p <= a[i].rel && vs[j] == b[j - |a|];
      }
    }
  }

  lemma {:induction false} VisitsOrdered(at: Path, kids: seq<Kid>)
    requires SaneKids(kids)
    ensures Ordered(at, Visits(at, kids))
    ensures forall i :: 0 <= i < |Visits(at, kids)| ==>
              exists k :: 0 <= k < |kids| && Visits(at, kids)[i].rel[|at|] == kids[k].name
    decreases kids
  {
    if kids != [] {
      var p := at + [kids[0].name];
      var a, b := VisitNode(p, kids[0].node), Visits(at, kids[1..]);
      assert SaneKids(kids[1..]);
      VisitNodeOrdered(p, kids[0].node);
      VisitsOrdered(at, kids[1..]);
      forall i | 0 <= i < |b| ensures b[i].rel[|at|] != kids[0].name {
        var k :| 0 <= k < |kids[1..]| && b[i].rel[|at|] == kids[1..][k].name;
        assert kids[1..][k] == kids[k + 1];
      }
      OrderedConcat(at, kids[0].name, a, b);
      forall i | 0 <= i < |a + b| ensures exists k :: 0 <= k < |kids| && (a + b)[i].rel[|at|] == kids[k].name {
        if i < |a| {
          assert a[i].rel[|at|] == kids[0].name;
        } else {
          var k :| 0 <= k < |kids[1..]| && b[i - |a|].rel[|at|] == kids[1..][k].name;
          assert kids[1..][k] == kids[k + 1];
        }
      }
    }
  }

  lemma {:induction false} VisitNodeOrdered(at: Path, n: Source)
    requires Sane(n)
    ensures OrderedNode(at, VisitNode(at, n))
    decreases n
  {
    if n.SDir? {
      VisitsOrdered(at, n.kids);
      var me, b := [Visit(at, KDir)], Visits(at, n.kids);
      var vs := me + b;
      forall i, q | 0 <= i < |vs| && at <= q < vs[i].rel ensures DirBefore(vs, i, q) {
        if q == at {
          assert vs[0] == Visit(at, KDir);
        } else {
          assert DirBefore(b, i - 1, q);
          DirBeforeShift(me, b, i - 1, q);
        }
      }
    }
  }

  // ----- The two loaders agree -----

  lemma PackedName(v: Visit)
    requires UsableVisit(v)
    ensures Clean(PackOne(v).name) == v.rel
  {
    CleanOntoNames(false, [], v.rel);
    CleanOntoSplit(false, [], v.rel, [""]);
    assert [] + v.rel == v.rel;
    assert CleanOnto(false, v.rel, [""]) == v.rel by {
      assert [""][1..] == [];
    }
  }

  lemma NotMarker(base: string)
    requires !(WHITEOUT_PREFIX <= base)
    ensures base != WHITEOUT_OPAQUE && !IsWhiteout(base)
  {
    assert WHITEOUT_OPAQUE[..4] == WHITEOUT_PREFIX;
  }

  lemma PackedIsPlaced(fs: FS, dst: Path, v: Visit)
    requires GoodRoot(fs, dst) && UsableVisit(v) && IsDir(fs, dst + Up(v.rel))
    ensures ApplyEntry(fs, dst, PackOne(v)) == Placed(fs, dst, dst + v.rel, v.kind)
    ensures GoodRoot(Placed(fs, dst, dst + v.rel, v.kind).fs, dst)
  {
    var h, up := PackOne(v), dst + Up(v.rel);
    PackedName(v);
    NotMarker(Last(v.rel));
    assert SecureJoin(fs, dst, Up(v.rel)) == At(up) by {
      ExistingResolves(fs, dst, Up(v.rel));
    }
    assert WithDirs(fs, up) == fs by {
      ExistingIsReal(fs, up);
      WithDirsNothing(fs, up);
    }
    assert up + [Last(v.rel)] == dst + v.rel;
    assert v.rel[0] != "..";
    AppliedAdd(fs, dst, h, up);
    EntryContained(fs, dst, h);
  }

  lemma AppliedAdd(fs: FS, root: Path, h: Header, parent: Path)
    requires GoodRoot(fs, root)
    requires var name := Clean(h.name);
             && name != [] && name[0] != ".." && Last(name) != WHITEOUT_OPAQUE && !IsWhiteout(Last(name))
             && SecureJoin(fs, root, Up(name)) == At(parent) && IsDir(fs, parent)
    ensures ApplyEntry(fs, root, h) == Placed(WithDirs(fs, parent), root, parent + [Last(Clean(h.name))], h.kind)
  {
    ApplyIsApplied(fs, root, h);
  }

  /** A regular file is copied over whatever was there with O_TRUNC instead of O_EXCL: after
      the removal both create a new file. */
  lemma CopyIsPlaced(fs: FS, dst: Path, v: Visit)
    requires GoodRoot(fs, dst) && UsableVisit(v) && IsDir(fs, dst + Up(v.rel))
    ensures CopyStep(fs, dst, v) == Placed(fs, dst, dst + v.rel, v.kind)
  {
    var target, up := dst + v.rel, dst + Up(v.rel);
    assert Up(target) == up;
    ExistingIsReal(fs, up);
    PathSettled(fs, dst, up);
    PlaceIsPlaced(fs, dst, target, v.kind);
    if v.kind.KReg? {
      MkdirAllLiteral(fs, up);
      WithDirsNothing(fs, up);
      var g := Prune(fs, target);
      AfterRemoval(fs, dst, target);
      LstatDown(g, dst, up, Last(target));
      assert target == up + [Last(target)];
      SettledDown(g, dst, up, Last(target));
      WalkFromRoot(g, target, KERNEL_LINKS);
    }
  }

  lemma PathSettled(fs: FS, root: Path, p: Path)
    requires RealDir(fs, p) && Names(p) && root <= p
    ensures Settled(fs, root, p)
  {
    RealIsLinkFree(fs, p);
  }

  /** No directory of the source lands on a symbolic link of the destination. */
  ghost predicate NoDirOnLink(fs: FS, dst: Path, vs: seq<Visit>) {
    forall i :: 0 <= i < |vs| && vs[i].kind.KDir? ==>
      !(dst + vs[i].rel in fs.nodes && fs.nodes[dst + vs[i].rel].Link?)
  }

  /** The state after the first k visits of both loaders. */
  ghost predicate Loading(fs: FS, dst: Path, vs: seq<Visit>, k: nat) {
    && k <= |vs|
    && GoodRoot(fs, dst)
    && (forall j :: 0 <= j < k && vs[j].kind.KDir? ==> IsDir(fs, dst + vs[j].rel))
    && (forall j :: k <= j < |vs| && vs[j].kind.KDir? ==>
          !(dst + vs[j].rel in fs.nodes && fs.nodes[dst + vs[j].rel].Link?))
  }

  lemma ParentReady(fs: FS, dst: Path, vs: seq<Visit>, k: nat)
    requires Loading(fs, dst, vs, k) && k < |vs| && Ordered([], vs)
    ensures IsDir(fs, dst + Up(vs[k].rel))
  {
    var up := Up(vs[k].rel);
    if up == [] {
      assert dst + up == dst && dst[..|dst|] == dst;
    } else {
      assert DirBefore(vs, k, up);
    }
  }

  lemma LoadingStep(fs: FS, dst: Path, vs: seq<Visit>, k: nat)
    requires Loading(fs, dst, vs, k) && k < |vs| && Ordered([], vs) && Usable(vs)
    ensures var v := vs[k];
            var r := Placed(fs, dst, dst + v.rel, v.kind);
            && ApplyEntry(fs, dst, PackOne(v)) == r && CopyStep(fs, dst, v) == r
            && (r.errno == OK ==> Loading(r.fs, dst, vs, k + 1))
  {
    assert UsableVisit(vs[k]);
    ParentReady(fs, dst, vs, k);
    PackedIsPlaced(fs, dst, vs[k]);
    CopyIsPlaced(fs, dst, vs[k]);
    LoadingKept(fs, dst, vs, k);
  }

  lemma LoadingKept(fs: FS, dst: Path, vs: seq<Visit>, k: nat)
    requires Loading(fs, dst, vs, k) && k < |vs| && Ordered([], vs) && UsableVisit(vs[k])
    requires IsDir(fs, dst + Up(vs[k].rel))
    requires GoodRoot(Placed(fs, dst, dst + vs[k].rel, vs[k].kind).fs, dst)
    ensures var r := Placed(fs, dst, dst + vs[k].rel, vs[k].kind);
            r.errno == OK ==> Loading(r.fs, dst, vs, k + 1)
  {
    var v, target := vs[k], dst + vs[k].rel;
    var r := Placed(fs, dst, target, v.kind);
    if r.errno == OK {
      forall j | 0 <= j < k && vs[j].kind.KDir? ensures IsDir(r.fs, dst + vs[j].rel) {
        EarlierDirStays(fs, dst, vs, j, k);
      }
      if v.kind.KDir? {
        assert Up(target) == dst + Up(v.rel);
        ParentSettled(fs, dst, target);
        MkdirAllAt(fs, dst, target);
      }
      forall j | k < j < |vs| && vs[j].kind.KDir?
        ensures !(dst + vs[j].rel in r.fs.nodes && r.fs.nodes[dst + vs[j].rel].Link?)
      {
        LaterDirClear(fs, dst, vs, j, k);
      }
    }
  }

  lemma EarlierDirStays(fs: FS, dst: Path, vs: seq<Visit>, j: nat, k: nat)
    requires j < k < |vs| && Ordered([], vs) && IsDir(fs, dst + vs[j].rel)
    ensures IsDir(Placed(fs, dst, dst + vs[k].rel, vs[k].kind).fs, dst + vs[j].rel)
  {
    assert vs[k].rel != vs[j].rel && !DirBefore(vs, j, vs[k].rel);
    assert !(vs[k].rel <= vs[j].rel);
    assert (dst + vs[k].rel)[|dst|..] == vs[k].rel && (dst + vs[j].rel)[|dst|..] == vs[j].rel;
    PlacedFrame(fs, dst, dst + vs[k].rel, vs[k].kind);
  }

  lemma LaterDirClear(fs: FS, dst: Path, vs: seq<Visit>, j: nat, k: nat)
    requires k < j < |vs| && Ordered([], vs)
    requires !(dst + vs[j].rel in fs.nodes && fs.nodes[dst + vs[j].rel].Link?)
    ensures var r := Placed(fs, dst, dst + vs[k].rel, vs[k].kind).fs;
            !(dst + vs[j].rel in r.nodes && r.nodes[dst + vs[j].rel].Link?)
  {
    assert dst + vs[j].rel != dst + vs[k].rel by {
      assert (dst + vs[k].rel)[|dst|..] == vs[k].rel && (dst + vs[j].rel)[|dst|..] == vs[j].rel;
    }
  }

  lemma ParentSettled(fs: FS, dst: Path, target: Path)
    requires GoodRoot(fs, dst) && dst < target && Names(target) && IsDir(fs, Up(target))
    ensures Settled(fs, dst, Up(target))
  {
    ExistingIsReal(fs, Up(target));
    PathSettled(fs, dst, Up(target));
  }

  lemma {:induction false} SameFrom(fs: FS, dst: Path, vs: seq<Visit>, k: nat)
    requires Loading(fs, dst, vs, k) && Ordered([], vs) && Usable(vs)
    ensures CopyAll(fs, dst, vs[k..]) == ExtractAll(fs, dst, Pack(vs)[k..])
    decreases |vs| - k
  {
    if k < |vs| {
      assert vs[k..][0] == vs[k] && vs[k..][1..] == vs[k+1..];
      assert Pack(vs)[k..][0] == PackOne(vs[k]) && Pack(vs)[k..][1..] == Pack(vs)[k+1..];
      LoadingStep(fs, dst, vs, k);
      if CopyStep(fs, dst, vs[k]).errno == OK {
        SameFrom(CopyStep(fs, dst, vs[k]).fs, dst, vs, k + 1);
      }
    }
  }

  /** Where no source directory meets a link, copying a source tree and extracting its tar
      stream end in the same host tree, down to the inode numbers, and fail at the same entry
      with the same error. */
  lemma OffLinksAgree(fs: FS, dst: Path, kids: seq<Kid>)
    requires GoodRoot(fs, dst) && SaneKids(kids) && NoDirOnLink(fs, dst, Visits([], kids))
    ensures CopyTree(fs, dst, kids) == ExtractAll(fs, dst, Pack(Visits([], kids)))
  {
    var vs := Visits([], kids);
    VisitsUsable([], kids);
    VisitsOrdered([], kids);
    assert vs[0..] == vs && Pack(vs)[0..] == Pack(vs);
    SameFrom(fs, dst, vs, 0);
    RealIsLinkFree(fs, dst);
    MkdirAllLiteral(fs, dst);
    WithDirsNothing(fs, dst);
  }

  // ----- Where the loaders part -----

  lemma {:induction false} WalkDown(fs: FS, d: Path, k: nat, rest: seq<string>, links: nat)
    requires RealDir(fs, d) && Names(d) && k <= |d|
    ensures Walk(fs, [], d[..k], d[k..] + rest, links) == Walk(fs, [], d, rest, links)
    decreases |d| - k
  {
    if k == |d| {
      assert d[..k] == d && d[k..] + rest == rest;
    } else {
      assert d[..k] + [d[k]] == d[..k+1];
      assert d[k..] + rest == [d[k]] + (d[k+1..] + rest);
      WalkNext(fs, d[..k], d[k], d[k+1..] + rest, links);
      WalkDown(fs, d, k + 1, rest, links);
    }
  }

  lemma WalkNext(fs: FS, cur: Path, name: string, rest: seq<string>, links: nat)
    requires IsDir(fs, cur) && Ordinary(name) && cur + [name] in fs.nodes
    ensures Walk(fs, [], cur, [name] + rest, links) ==
            match fs.nodes[cur + [name]]
            case Link(t) =>
              if links == 0 then Fail(ELOOP)
              else Walk(fs, [], if t.abs then [] else cur, t.parts + rest, links - 1)
            case _ => Walk(fs, [], cur + [name], rest, links)
  {
    var parts := [name] + rest;
    assert parts[0] == name && parts[1..] == rest;
  }

  lemma ThroughLink(fs: FS, dst: Path, a: string, t: Path, rest: seq<string>)
    requires RealDir(fs, dst) && Names(dst) && Ordinary(a) && RealDir(fs, t) && Names(t)
    requires dst + [a] in fs.nodes && fs.nodes[dst + [a]] == Link(RawPath(true, t))
    ensures Walk(fs, [], [], dst + [a] + rest, KERNEL_LINKS) == Walk(fs, [], t, rest, KERNEL_LINKS - 1)
  {
    assert dst[..0] == [] && dst[0..] == dst && t[..0] == [] && t[0..] == t;
    assert dst + [a] + rest == dst + ([a] + rest);
    assert dst[..|dst|] == dst;
    WalkDown(fs, dst, 0, [a] + rest, KERNEL_LINKS);
    WalkNext(fs, dst, a, rest, KERNEL_LINKS);
    WalkDown(fs, t, 0, rest, KERNEL_LINKS - 1);
  }

  /** Links do matter. When the destination has an absolute link a -> t, a
      source file a/f is copied to t/f wherever that is: harmless when t is in the destination,
      and outside it otherwise. Extraction would have put it below the destination. */
  lemma CopyFollowsLink(fs: FS, dst: Path, a: string, f: string, t: Path, body: string)
    requires GoodRoot(fs, dst) && Ordinary(a) && Ordinary(f)
    requires RealDir(fs, t) && Names(t) && t + [f] !in fs.nodes
    requires dst + [a] in fs.nodes && fs.nodes[dst + [a]] == Link(RawPath(true, t))
    ensures var r := CopyStep(fs, dst, Visit([a, f], KReg(body)));
            && r == Ret(PutFile(fs, t + [f], body), OK)
            && (Contained(dst, fs, r.fs) <==> dst <= t)
  {
    var up, target := dst + [a], dst + [a, f];
    assert target == up + [f] && Up(target) == up && up + [] == up;
    ThroughLink(fs, dst, a, t, []);
    ThroughLink(fs, dst, a, t, [f]);
    assert t[..|t|] == t;
    assert MkdirAll(fs, up) == Ret(fs, OK);
    assert Locate(fs, target) == At(t + [f]);
    forall q | t + [f] <= q ensures q !in fs.nodes {
      if q != t + [f] {
        NothingBelow(fs, t + [f], q);
      }
    }
    assert Prune(fs, t + [f]).nodes == fs.nodes;
    WalkMissingName(fs, t, f);
    assert dst < t + [f] <==> dst <= t;
  }

  lemma WalkMissingName(fs: FS, cur: Path, name: string)
    requires IsDir(fs, cur) && Ordinary(name) && cur + [name] !in fs.nodes
    ensures Walk(fs, [], cur, [name], KERNEL_LINKS - 1) == Fail(ENOENT)
  {
  }

  // ----- Round trip -----

  function Show1(n: Source): VNode {
    match n
    case SDir(_) => VDir
    case SFile(body) => VFile(body)
    case SLink(t) => VLink(t)
  }

  function Kinded(x: VNode): Kind {
    match x
    case VDir => KDir
    case VFile(body) => KReg(body)
    case VLink(t) => KSymlink(t)
  }

  /** What the source has at a relative path. */
  function SourceAt(kids: seq<Kid>, p: Path): Option<VNode>
    requires p != []
    decreases kids
  {
    if kids == [] then None
    else if kids[0].name != p[0] then SourceAt(kids[1..], p)
    else if |p| == 1 then Some(Show1(kids[0].node))
    else if kids[0].node.SDir? then SourceAt(kids[0].node.kids, p[1..])
    else None
  }

  lemma {:induction false} SourceAtNamed(kids: seq<Kid>, p: Path)
    requires p != []
    ensures SourceAt(kids, p).Some? ==> exists k :: 0 <= k < |kids| && kids[k].name == p[0]
    decreases |kids|
  {
    if kids != [] && kids[0].name != p[0] {
      SourceAtNamed(kids[1..], p);
      if SourceAt(kids, p).Some? {
        var k :| 0 <= k < |kids[1..]| && kids[1..][k].name == p[0];
        assert kids[k + 1].name == p[0];
      }
    }
  }

  /** The walk visits exactly what the source has. */
  lemma {:induction false} VisitsAreSource(at: Path, kids: seq<Kid>, p: Path, x: VNode)
    requires SaneKids(kids) && p != []
    ensures Visit(at + p, Kinded(x)) in Visits(at, kids) <==> SourceAt(kids, p) == Some(x)
    decreases kids
  {
    if kids != [] {
      var q, n := at + [kids[0].name], kids[0].node;
      var v, a, b := Visit(at + p, Kinded(x)), VisitNode(q, n), Visits(at, kids[1..]);
      assert SaneKids(kids[1..]);
      VisitsAreSource(at, kids[1..], p, x);
      VisitNodeOrdered(q, n);
      if kids[0].name != p[0] {
        assert v !in a by {
          assert (at + p)[|at|] == p[0];
        }
      } else {
        assert v !in b by {
          SourceAtNamed(kids[1..], p);
          forall k | 0 <= k < |kids[1..]| ensures kids[1..][k].name != kids[0].name {
            assert kids[1..][k] == kids[k + 1];
          }
        }
        if n.SDir? && |p| > 1 {
          assert q + p[1..] == at + p;
          VisitsAreSource(q, n.kids, p[1..], x);
          assert v != Visit(q, KDir);
        } else {
          assert |p| == 1 <==> at + p == q;
          assert v in a <==> |p| == 1 && x == Show1(n) by {
            if n.SDir? {
              VisitsOrdered(q, n.kids);
            }
          }
        }
      }
    }
  }

  /** Nothing is in the target directory yet. */
  ghost predicate EmptyBelow(fs: FS, dst: Path) {
    forall p :: p in fs.nodes ==> !(dst < p)
  }

  lemma PackedChange(dst: Path, v: Visit)
    requires UsableVisit(v)
    ensures Decode(dst, PackOne(v)) == Add(dst + v.rel, v.kind)
  {
    PackedName(v);
    NotMarker(Last(v.rel));
  }

  lemma PackedChanges(dst: Path, vs: seq<Visit>)
    requires Usable(vs)
    ensures var cs := DecodeAll(dst, Pack(vs));
            |cs| == |vs| && forall i :: 0 <= i < |cs| ==> cs[i] == Add(dst + vs[i].rel, vs[i].kind)
  {
    forall i | 0 <= i < |vs| ensures Decode(dst, PackOne(vs[i])) == Add(dst + vs[i].rel, vs[i].kind) {
      PackedChange(dst, vs[i]);
    }
  }

  lemma PackFits(fs: FS, dst: Path, vs: seq<Visit>)
    requires GoodRoot(fs, dst) && EmptyBelow(fs, dst) && Ordered([], vs) && Usable(vs)
    ensures WellBehaved(View(fs), dst, DecodeAll(dst, Pack(vs)))
  {
    var cs := DecodeAll(dst, Pack(vs));
    PackedChanges(dst, vs);
    forall i | 0 <= i < |cs| ensures Fits(View(fs), dst, cs[..i], cs[i]) {
      PackFitsAt(fs, dst, vs, cs, i);
    }
  }

  lemma PackFitsAt(fs: FS, dst: Path, vs: seq<Visit>, cs: seq<Change>, i: nat)
    requires GoodRoot(fs, dst) && EmptyBelow(fs, dst) && Ordered([], vs) && Usable(vs)
    requires |cs| == |vs| && i < |cs|
    requires forall j :: 0 <= j < |cs| ==> cs[j] == Add(dst + vs[j].rel, vs[j].kind)
    ensures Fits(View(fs), dst, cs[..i], cs[i])
  {
    var p := dst + vs[i].rel;
    assert UsableVisit(vs[i]);
    forall j | 0 <= j < i
      ensures cs[j].path < p ==> cs[j].kind.KDir?
      ensures !(p <= cs[j].path)
    {
      VisitOrder(vs, j, i);
      assert p[|dst|..] == vs[i].rel && (dst + vs[j].rel)[|dst|..] == vs[j].rel;
    }
    forall q | q in fs.nodes && q <= p ensures fs.nodes[q].Dir? {
      assert q <= dst;
      assert q == dst[..|q|];
    }
  }

  lemma VisitOrder(vs: seq<Visit>, j: nat, i: nat)
    requires Ordered([], vs) && j < i < |vs|
    ensures vs[j].rel < vs[i].rel ==> vs[j].kind.KDir?
    ensures !(vs[i].rel <= vs[j].rel)
  {
    assert vs[j].rel != vs[i].rel && !DirBefore(vs, j, vs[i].rel);
    if vs[j].rel < vs[i].rel {
      assert DirBefore(vs, i, vs[j].rel);
      var m :| 0 <= m < i && m < |vs| && vs[m] == Visit(vs[j].rel, KDir);
      assert m == j;
    }
  }

  /** What a layer of such additions puts at a path. */
  lemma {:induction false} AddedIsVisit(dst: Path, vs: seq<Visit>, cs: seq<Change>, p: Path, x: VNode)
    requires Ordered([], vs) && Usable(vs) && |cs| <= |vs|
    requires forall i :: 0 <= i < |cs| ==> cs[i] == Add(dst + vs[i].rel, vs[i].kind)
    ensures Added(dst, cs, dst + p) == Some(x) <==> Visit(p, Kinded(x)) in vs[..|cs|]
    decreases |cs|
  {
    if cs != [] {
      var n := |cs| - 1;
      AddedIsVisit(dst, vs, cs[..n], p, x);
      assert vs[..n+1] == vs[..n] + [vs[n]];
      assert UsableVisit(vs[n]);
      assert dst + vs[n].rel == dst + p <==> vs[n].rel == p by {
        assert (dst + vs[n].rel)[|dst|..] == vs[n].rel && (dst + p)[|dst|..] == p;
      }
      if vs[n].rel == p {
        assert forall i :: 0 <= i < n ==> vs[i].rel != p;
        assert vs[n].kind == Kinded(x) <==> Value(dst, cs[..n], vs[n].kind) == Some(x);
      }
    }
  }

  lemma SameOption(a: Option<VNode>, b: Option<VNode>)
    requires forall x :: a == Some(x) <==> b == Some(x)
    ensures a == b
  {
    if a.Some? {
      assert a == Some(a.value);
    }
    if b.Some? {
      assert b == Some(b.value);
    }
  }

  lemma AddedIsSource(dst: Path, kids: seq<Kid>, p: Path)
    requires SaneKids(kids) && p != []
    ensures Added(dst, DecodeAll(dst, Pack(Visits([], kids))), dst + p) == SourceAt(kids, p)
  {
    var vs := Visits([], kids);
    var cs := DecodeAll(dst, Pack(vs));
    VisitsUsable([], kids);
    VisitsOrdered([], kids);
    PackedChanges(dst, vs);
    assert vs[..|cs|] == vs && [] + p == p;
    forall x ensures Added(dst, cs, dst + p) == Some(x) <==> SourceAt(kids, p) == Some(x) {
      AddedIsVisit(dst, vs, cs, p, x);
      VisitsAreSource([], kids, p, x);
    }
    SameOption(Added(dst, cs, dst + p), SourceAt(kids, p));
  }

  lemma ImpliedIsSource(dst: Path, kids: seq<Kid>, p: Path)
    requires SaneKids(kids) && p != []
    requires Implied(DecodeAll(dst, Pack(Visits([], kids))), dst + p)
    ensures SourceAt(kids, p).Some?
  {
    VisitsUsable([], kids);
    VisitsOrdered([], kids);
    ImpliedIsVisited(dst, Visits([], kids), p);
    assert [] + p == p;
    VisitsAreSource([], kids, p, VDir);
  }

  lemma ImpliedIsVisited(dst: Path, vs: seq<Visit>, p: Path)
    requires Usable(vs) && Ordered([], vs) && p != [] && Implied(DecodeAll(dst, Pack(vs)), dst + p)
    ensures Visit(p, KDir) in vs
  {
    var cs := DecodeAll(dst, Pack(vs));
    PackedChanges(dst, vs);
    var i :| 0 <= i < |cs| && cs[i].Add? && dst + p < cs[i].path;
    assert p < vs[i].rel by {
      assert (dst + vs[i].rel)[|dst|..] == vs[i].rel && (dst + p)[|dst|..] == p;
    }
    assert DirBefore(vs, i, p);
  }

  /** Packing a source tree and extracting it into an empty directory gives back exactly that
      tree, and changes nothing else; copying it gives the same. */
  lemma RoundTrip(fs: FS, dst: Path, kids: seq<Kid>)
    requires GoodRoot(fs, dst) && EmptyBelow(fs, dst) && SaneKids(kids)
    ensures var r := ExtractAll(fs, dst, Pack(Visits([], kids)));
            && r.errno == OK && WellFormed(r.fs) && Contained(dst, fs, r.fs)
            && (forall p :: p != [] ==> Get(View(r.fs), dst + p) == SourceAt(kids, p))
            && CopyTree(fs, dst, kids) == r
  {
    var vs := Visits([], kids);
    VisitsUsable([], kids);
    VisitsOrdered([], kids);
    PackFits(fs, dst, vs);
    ExtractShows(fs, dst, Pack(vs));
    forall i | 0 <= i < |Pack(vs)| ensures PlainMarker(Pack(vs)[i]) {
      PackedName(vs[i]);
      NotMarker(Last(vs[i].rel));
    }
    ExtractContained(fs, dst, Pack(vs));
    var after, cs := ExtractAll(fs, dst, Pack(vs)).fs, DecodeAll(dst, Pack(vs));
    forall p | p != [] ensures Get(View(after), dst + p) == SourceAt(kids, p) {
      AddedIsSource(dst, kids, p);
      if Implied(cs, dst + p) {
        ImpliedIsSource(dst, kids, p);
      }
      assert Get(View(after), dst + p) == MeaningAt(View(fs), dst, cs, dst + p);
      assert dst < dst + p;
    }
    forall i | 0 <= i < |vs| ensures dst + vs[i].rel !in fs.nodes {
      assert UsableVisit(vs[i]);
      assert dst < dst + vs[i].rel;
    }
    OffLinksAgree(fs, dst, kids);
  }
}
