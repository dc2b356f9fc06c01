/**
 When copying a directory and extracting its packed form do the same. Extraction resolves each
 parent below the target; copying leaves that to the kernel. The condition found here compares
 where the two lead, step by step, and it is exact.
 */
module LoaderAgreement {
  import opened Wrappers
  import opened Paths
  import opened FileTree
  import opened Resolution
  import opened Extraction
  import opened Loaders
  import opened CopyContainment

  // ----- What os.MkdirAll leaves -----

  /** A success of os.MkdirAll leaves the path's directory there, with the directories above
      it, and nothing else is new. */
  lemma {:induction false} MkdirAllIsWithDirs(fs: FS, p: Path)
    requires WellFormed(fs) && Names(p) && MkdirAll(fs, p).errno == OK
    ensures var r := MkdirAll(fs, p);
            OpenDir(r.fs, p).At? && r.fs == WithDirs(fs, OpenDir(r.fs, p).path)
    decreases |p|
  {
    MkdirAllMakes(fs, p);
    if FirstMade(fs, p).None? {
      ExistingIsReal(fs, OpenDir(fs, p).path);
      WithDirsNothing(fs, OpenDir(fs, p).path);
    } else {
      MkdirAllMakes(fs, Up(p));
      MkdirAllIsWithDirs(fs, Up(p));
      var above := MkdirAll(fs, Up(p)).fs;
      var d := OpenDir(above, Up(p)).path;
      var q := d + [Last(p)];
      MadeIn(above, p, d);
      assert Up(q) == d;
      WithDirsStep(fs, q);
    }
  }

  /** What is new in the tree is the directory and some above it. */
  lemma WithDirsNew(fs: FS, p: Path, q: Path)
    requires q !in fs.nodes
    ensures q in WithDirs(fs, p).nodes <==> q <= p
  {
    PrefixIffMember(p, q);
  }

  lemma WithDirsDistinct(fs: FS, p: Path, q: Path)
    requires p !in fs.nodes && q !in fs.nodes && WithDirs(fs, p) == WithDirs(fs, q)
    ensures p == q
  {
    WithDirsNew(fs, p, p);
    WithDirsNew(fs, q, p);
    WithDirsNew(fs, q, q);
    WithDirsNew(fs, p, q);
  }

  // ----- When one step agrees -----

  /** The error with which extraction stops before it touches anything. */
  function Refused(fs: FS, dst: Path, dir: Path): Option<Errno> {
    match SecureJoin(fs, dst, dir)
    case Fail(e) => Some(e)
    case At(p) => if p in fs.nodes && !fs.nodes[p].Dir? then Some(ENOTDIR) else None
  }

  /** Where extraction puts a visit that it does not refuse. */
  function PlaceOf(fs: FS, dst: Path, v: Visit): Path
    requires v.rel != [] && Refused(fs, dst, Up(v.rel)).None?
  {
    SecureJoin(fs, dst, Up(v.rel)).path + [Last(v.rel)]
  }

  lemma RefusedIsError(fs: FS, dst: Path, dir: Path)
    ensures Refused(fs, dst, dir) != Some(OK)
  {
    ResolveFailsWithError(fs, dst, [], dir, MAX_LINKS);
  }

  /** What extracting the packed visit does. */
  lemma PackedEffect(fs: FS, dst: Path, v: Visit)
    requires GoodRoot(fs, dst) && UsableVisit(v)
    ensures var r := ApplyEntry(fs, dst, PackOne(v));
            && GoodRoot(r.fs, dst)
            && match Refused(fs, dst, Up(v.rel))
               case Some(e) => r == Ret(fs, e)
               case None =>
                 var t := PlaceOf(fs, dst, v);
                 && Names(t) && Up(t) == SecureJoin(fs, dst, Up(v.rel)).path
                 && WellFormed(WithDirs(fs, Up(t))) && IsDir(WithDirs(fs, Up(t)), Up(t))
                 && r == Placed(WithDirs(fs, Up(t)), dst, t, v.kind)
  {
    PackedName(v);
    NotMarker(Last(v.rel));
    assert v.rel[0] != "..";
    ApplyIsApplied(fs, dst, PackOne(v));
    EntryContained(fs, dst, PackOne(v));
    SecureJoinSettled(fs, dst, Up(v.rel));
    if Refused(fs, dst, Up(v.rel)).None? {
      WithDirsAtRoot(fs, dst, SecureJoin(fs, dst, Up(v.rel)).path);
      assert Up(PlaceOf(fs, dst, v)) == SecureJoin(fs, dst, Up(v.rel)).path;
    }
  }

  /** A file: the kernel, once the directories are made, arrives where extraction does, and the
      way there does not run through the entry that is replaced. */
  predicate FileAgrees(fs: FS, dst: Path, v: Visit)
    requires v.rel != []
  {
    var up := dst + Up(v.rel);
    var m := MkdirAll(fs, up);
    match Refused(fs, dst, Up(v.rel))
    case Some(e) => m.errno == e
    case None =>
      var t := PlaceOf(fs, dst, v);
      OpenDir(m.fs, up) == At(Up(t)) && OpenDir(Prune(m.fs, t), up).At?
  }

  lemma FileApplied(fs: FS, dst: Path, v: Visit)
    requires GoodRoot(fs, dst) && UsableVisit(v) && v.kind.KReg?
    ensures match Refused(fs, dst, Up(v.rel))
            case Some(e) => ApplyEntry(fs, dst, PackOne(v)) == Ret(fs, e) && e != OK
            case None =>
              var t := PlaceOf(fs, dst, v);
              ApplyEntry(fs, dst, PackOne(v)) == Ret(PutFile(Prune(WithDirs(fs, Up(t)), t), t, v.kind.body), OK)
  {
    PackedEffect(fs, dst, v);
    RefusedIsError(fs, dst, Up(v.rel));
  }

  /** The same new file in two trees: it is at the same place. */
  lemma SameFilePlaceIff(a: FS, b: FS, q: Path, t: Path, body: string)
    requires InodesExist(a) && InodesExist(b) && a.data == b.data
    requires q == t ==> a == b
    ensures PutFile(a, q, body) == PutFile(b, t, body) <==> q == t
  {
    var x, y := PutFile(a, q, body), PutFile(b, t, body);
    assert x.nodes[q] == File(|a.data|);
    assert q != t && q in y.nodes ==> y.nodes[q] == b.nodes[q] != File(|a.data|);
  }

  lemma FileAgreesIff(fs: FS, dst: Path, v: Visit)
    requires GoodRoot(fs, dst) && UsableVisit(v) && v.kind.KReg?
    ensures CopyStep(fs, dst, v) == ApplyEntry(fs, dst, PackOne(v)) <==> FileAgrees(fs, dst, v)
  {
    var target, up, body := dst + v.rel, dst + Up(v.rel), v.kind.body;
    assert Up(target) == up && Last(target) == Last(v.rel);
    var m := MkdirAll(fs, up);
    FileApplied(fs, dst, v);
    MkdirAllMakes(fs, up);
    if m.errno == OK {
      MkdirAllIsWithDirs(fs, up);
      var d := OpenDir(m.fs, up).path;
      var q := d + [Last(v.rel)];
      FileInto(m.fs, target, d, body);
      CopiedFileMatches(fs, dst, v, d);
    }
  }

  lemma CopiedFileMatches(fs: FS, dst: Path, v: Visit, d: Path)
    requires GoodRoot(fs, dst) && UsableVisit(v) && v.kind.KReg?
    requires var m := MkdirAll(fs, dst + Up(v.rel));
             && m.errno == OK && WellFormed(m.fs) && OpenDir(m.fs, dst + Up(v.rel)) == At(d)
             && m.fs == WithDirs(fs, d)
    ensures CopyStep(fs, dst, v) == ApplyEntry(fs, dst, PackOne(v)) <==> FileAgrees(fs, dst, v)
  {
    var target, up, body := dst + v.rel, dst + Up(v.rel), v.kind.body;
    assert Up(target) == up && Last(target) == Last(v.rel);
    var m := MkdirAll(fs, up).fs;
    var q := d + [Last(v.rel)];
    assert Up(q) == d;
    FileApplied(fs, dst, v);
    PackedEffect(fs, dst, v);
    FileInto(m, target, d, body);
    if Refused(fs, dst, Up(v.rel)).None? {
      var t := PlaceOf(fs, dst, v);
      assert q == t <==> d == Up(t);
      SameFilePlaceIff(Prune(m, q), Prune(WithDirs(fs, Up(t)), t), q, t, body);
    }
  }

  /** A link is copied without making directories; there is one more harmless case, in which
      both places already hold this very link. */
  predicate LinkAgrees(fs: FS, dst: Path, v: Visit)
    requires v.rel != [] && v.kind.KSymlink?
  {
    var target, up := dst + v.rel, dst + Up(v.rel);
    match Refused(fs, dst, Up(v.rel))
    case Some(e) => Locate(fs, target) == Fail(e)
    case None =>
      var t := PlaceOf(fs, dst, v);
      OpenDir(fs, up).At? &&
      var q := OpenDir(fs, up).path + [Last(v.rel)];
      && OpenDir(Prune(fs, q), up).At?
      && (q == t || (HasLink(fs, q, v.kind.target) && HasLink(fs, t, v.kind.target)))
  }

  predicate HasLink(fs: FS, p: Path, t: RawPath) {
    p in fs.nodes && fs.nodes[p] == Link(t)
  }

  lemma SameLinkAgain(fs: FS, q: Path, t: RawPath)
    requires WellFormed(fs) && HasLink(fs, q, t)
    ensures Put(Prune(fs, q), q, Link(t)) == fs
  {
    forall x | q < x ensures x !in fs.nodes {
      NothingBelow(fs, q, x);
    }
    forall x ensures x in Put(Prune(fs, q), q, Link(t)).nodes <==> x in fs.nodes {
      assert q <= x ==> q == x || q < x;
    }
    assert Put(Prune(fs, q), q, Link(t)).nodes == fs.nodes;
  }

  /** The same link put at two places: it was at both before. */
  lemma TwoLinks(fs: FS, q: Path, p: Path, t: RawPath)
    requires q != p && Put(Prune(fs, q), q, Link(t)) == Put(Prune(fs, p), p, Link(t))
    ensures HasLink(fs, q, t) && HasLink(fs, p, t)
  {
    var a, b := Put(Prune(fs, q), q, Link(t)), Put(Prune(fs, p), p, Link(t));
    assert a.nodes[q] == Link(t) && b.nodes[p] == Link(t);
    assert q in b.nodes && p in a.nodes;
  }

  /** Directories made above the link show in one tree only. */
  lemma LinkAlone(fs: FS, q: Path, t: Path, x: RawPath)
    requires t != [] && Up(t) !in fs.nodes
    ensures Put(Prune(fs, q), q, Link(x)) != Put(Prune(WithDirs(fs, Up(t)), t), t, Link(x))
  {
    var b := Put(Prune(WithDirs(fs, Up(t)), t), t, Link(x));
    WithDirsNew(fs, Up(t), Up(t));
    assert Up(t) in b.nodes && b.nodes[Up(t)] == Dir;
  }

  lemma LinkApplied(fs: FS, dst: Path, v: Visit)
    requires GoodRoot(fs, dst) && UsableVisit(v) && v.kind.KSymlink?
    ensures match Refused(fs, dst, Up(v.rel))
            case Some(e) => ApplyEntry(fs, dst, PackOne(v)) == Ret(fs, e) && e != OK
            case None =>
              var t := PlaceOf(fs, dst, v);
              && (Up(t) in fs.nodes ==> WithDirs(fs, Up(t)) == fs)
              && (t in fs.nodes ==> Up(t) in fs.nodes)
              && ApplyEntry(fs, dst, PackOne(v))
                 == Ret(Put(Prune(WithDirs(fs, Up(t)), t), t, Link(v.kind.target)), OK)
  {
    PackedEffect(fs, dst, v);
    RefusedIsError(fs, dst, Up(v.rel));
    if Refused(fs, dst, Up(v.rel)).None? {
      var t := PlaceOf(fs, dst, v);
      if Up(t) in fs.nodes {
        ExistingIsReal(fs, Up(t));
        WithDirsNothing(fs, Up(t));
      }
    }
  }

  lemma LinkAgreesIff(fs: FS, dst: Path, v: Visit)
    requires GoodRoot(fs, dst) && UsableVisit(v) && v.kind.KSymlink?
    ensures CopyStep(fs, dst, v) == ApplyEntry(fs, dst, PackOne(v)) <==> LinkAgrees(fs, dst, v)
  {
    var target, up, x := dst + v.rel, dst + Up(v.rel), v.kind.target;
    assert Up(target) == up && Last(target) == Last(v.rel);
    LinkApplied(fs, dst, v);
    if OpenDir(fs, up).Fail? {
      LinkNowhere(fs, target, x);
      LocateFailsWithError(fs, target);
    } else {
      var d := OpenDir(fs, up).path;
      LookupIn(fs, target);
      LinkInto(fs, target, d, x);
      if Refused(fs, dst, Up(v.rel)).None? && OpenDir(Prune(fs, d + [Last(v.rel)]), up).At? {
        LinkMatches(fs, dst, v, d);
      }
    }
  }

  lemma LinkMatches(fs: FS, dst: Path, v: Visit, d: Path)
    requires GoodRoot(fs, dst) && UsableVisit(v) && v.kind.KSymlink? && OpenDir(fs, dst + Up(v.rel)) == At(d)
    requires Refused(fs, dst, Up(v.rel)).None?
    requires var t := PlaceOf(fs, dst, v);
             (Up(t) in fs.nodes ==> WithDirs(fs, Up(t)) == fs) && (t in fs.nodes ==> Up(t) in fs.nodes)
    ensures var q, t, x := d + [Last(v.rel)], PlaceOf(fs, dst, v), Link(v.kind.target);
            Put(Prune(fs, q), q, x) == Put(Prune(WithDirs(fs, Up(t)), t), t, x)
            <==> q == t || (HasLink(fs, q, v.kind.target) && HasLink(fs, t, v.kind.target))
  {
    var q, t, x := d + [Last(v.rel)], PlaceOf(fs, dst, v), v.kind.target;
    assert Up(q) == d && d in fs.nodes;
    if Up(t) !in fs.nodes {
      LinkAlone(fs, q, t, x);
    } else if q != t {
      if HasLink(fs, q, x) && HasLink(fs, t, x) {
        SameLinkAgain(fs, q, x);
        SameLinkAgain(fs, t, x);
      } else if Put(Prune(fs, q), q, Link(x)) == Put(Prune(fs, t), t, Link(x)) {
        TwoLinks(fs, q, t, x);
      }
    }
  }

  /** A directory: where something is in extraction's place already, the kernel finds no less;
      otherwise it makes the directory there. */
  predicate DirAgrees(fs: FS, dst: Path, v: Visit)
    requires v.rel != []
  {
    var target := dst + v.rel;
    var c := MkdirAll(fs, target);
    match Refused(fs, dst, Up(v.rel))
    case Some(e) => c.errno == e
    case None =>
      var t := PlaceOf(fs, dst, v);
      if t in fs.nodes then FirstMade(fs, target).None? && c.errno == MkdirAll(fs, t).errno
      else OpenDir(c.fs, target) == At(t)
  }

  lemma DirApplied(fs: FS, dst: Path, v: Visit)
    requires GoodRoot(fs, dst) && UsableVisit(v) && v.kind.KDir?
    ensures match Refused(fs, dst, Up(v.rel))
            case Some(e) => ApplyEntry(fs, dst, PackOne(v)) == Ret(fs, e) && e != OK
            case None =>
              var t := PlaceOf(fs, dst, v);
              ApplyEntry(fs, dst, PackOne(v))
              == if t in fs.nodes then Ret(fs, MkdirAll(fs, t).errno) else Ret(WithDirs(fs, t), OK)
  {
    PackedEffect(fs, dst, v);
    RefusedIsError(fs, dst, Up(v.rel));
    if Refused(fs, dst, Up(v.rel)).None? {
      var t := PlaceOf(fs, dst, v);
      if t in fs.nodes {
        ExistingIsReal(fs, Up(t));
        WithDirsNothing(fs, Up(t));
      } else {
        WithDirsNew(fs, Up(t), t);
        WithDirsStep(fs, t);
      }
    }
  }

  lemma DirAgreesIff(fs: FS, dst: Path, v: Visit)
    requires GoodRoot(fs, dst) && UsableVisit(v) && v.kind.KDir?
    ensures CopyStep(fs, dst, v) == ApplyEntry(fs, dst, PackOne(v)) <==> DirAgrees(fs, dst, v)
  {
    var target := dst + v.rel;
    var c := MkdirAll(fs, target);
    DirApplied(fs, dst, v);
    MkdirAllMakes(fs, target);
    if Refused(fs, dst, Up(v.rel)).None? && PlaceOf(fs, dst, v) !in fs.nodes {
      MadeMatches(fs, target, PlaceOf(fs, dst, v));
    }
  }

  lemma MadeMatches(fs: FS, target: Path, t: Path)
    requires WellFormed(fs) && Names(target) && t !in fs.nodes
    ensures var c := MkdirAll(fs, target);
            c == Ret(WithDirs(fs, t), OK) <==> OpenDir(c.fs, target) == At(t)
  {
    var c := MkdirAll(fs, target);
    MkdirAllMakes(fs, target);
    WithDirsNew(fs, t, t);
    if c.errno == OK {
      MkdirAllIsWithDirs(fs, target);
      if FirstMade(fs, target).Some? {
        var d, n := OpenDir(c.fs, target).path, FirstMade(fs, target).value;
        StillMissing(fs, n, d);
        if c.fs == WithDirs(fs, t) {
          WithDirsDistinct(fs, d, t);
        }
      }
    }
  }

  lemma StillMissing(fs: FS, n: Path, d: Path)
    requires WellFormed(fs) && n !in fs.nodes && n <= d
    ensures d !in fs.nodes
  {
    if n != d {
      NothingBelow(fs, n, d);
    }
  }

  /** What has to hold before a step, for copying and extracting to do the same. */
  predicate VisitAgrees(fs: FS, dst: Path, v: Visit)
    requires v.rel != []
  {
    match v.kind
    case KDir => DirAgrees(fs, dst, v)
    case KReg(_) => FileAgrees(fs, dst, v)
    case KSymlink(_) => LinkAgrees(fs, dst, v)
    case _ => true
  }

  /** Exactly when one step of the copy and the matching entry have the same outcome, down to
      the inode numbers and the error. */
  lemma VisitAgreesIff(fs: FS, dst: Path, v: Visit)
    requires GoodRoot(fs, dst) && UsableVisit(v)
    ensures CopyStep(fs, dst, v) == ApplyEntry(fs, dst, PackOne(v)) <==> VisitAgrees(fs, dst, v)
  {
    match v.kind
    case KDir => DirAgreesIff(fs, dst, v);
    case KReg(_) => FileAgreesIff(fs, dst, v);
    case KSymlink(_) => LinkAgreesIff(fs, dst, v);
  }

  // ----- Whole directories -----

  /** Each step that is reached meets its condition. */
  ghost predicate CopyAgrees(fs: FS, dst: Path, vs: seq<Visit>)
    requires Usable(vs)
    decreases |vs|
  {
    vs == [] ||
    (assert UsableVisit(vs[0]);
     && VisitAgrees(fs, dst, vs[0])
     && var r := CopyStep(fs, dst, vs[0]);
        r.errno == OK ==> CopyAgrees(r.fs, dst, vs[1..]))
  }

  /** After any number of steps both loaders are at the same point: same tree, same error. */
  ghost predicate SameThroughout(fs: FS, dst: Path, vs: seq<Visit>) {
    forall k :: 0 <= k <= |vs| ==> SameAfter(fs, dst, vs, k)
  }

  ghost predicate SameAfter(fs: FS, dst: Path, vs: seq<Visit>, k: nat)
    requires k <= |vs|
  {
    CopyAll(fs, dst, vs[..k]) == ExtractAll(fs, dst, Pack(vs[..k]))
  }

  lemma PackFirst(vs: seq<Visit>)
    requires vs != []
    ensures Pack(vs)[0] == PackOne(vs[0]) && Pack(vs)[1..] == Pack(vs[1..])
  {
  }

  lemma SameFirst(fs: FS, dst: Path, vs: seq<Visit>, k: nat)
    requires k < |vs| && CopyStep(fs, dst, vs[0]) == ApplyEntry(fs, dst, PackOne(vs[0]))
    ensures var r := CopyStep(fs, dst, vs[0]);
            SameAfter(fs, dst, vs, k + 1) <==> (r.errno == OK ==> SameAfter(r.fs, dst, vs[1..], k))
  {
    CopyFirst(fs, dst, vs, k);
    PackFirst(vs[..k+1]);
    assert vs[..k+1][0] == vs[0] && vs[..k+1][1..] == vs[1..][..k];
  }

  lemma SameOne(fs: FS, dst: Path, vs: seq<Visit>)
    requires vs != []
    ensures SameAfter(fs, dst, vs, 1) <==> CopyStep(fs, dst, vs[0]) == ApplyEntry(fs, dst, PackOne(vs[0]))
  {
    var one := vs[..1];
    PackFirst(one);
    assert one[0] == vs[0] && one[1..] == [] && Pack(one[1..]) == [];
    assert CopyAll(fs, dst, one) == CopyStep(fs, dst, vs[0]);
    assert ExtractAll(fs, dst, Pack(one)) == ApplyEntry(fs, dst, PackOne(vs[0]));
  }

  lemma RestSame(fs: FS, dst: Path, vs: seq<Visit>)
    requires vs != [] && CopyStep(fs, dst, vs[0]) == ApplyEntry(fs, dst, PackOne(vs[0]))
    ensures var r := CopyStep(fs, dst, vs[0]);
            SameThroughout(fs, dst, vs) <==> (r.errno == OK ==> SameThroughout(r.fs, dst, vs[1..]))
  {
    var r := CopyStep(fs, dst, vs[0]);
    forall k | 0 <= k < |vs|
      ensures SameAfter(fs, dst, vs, k + 1) <==> (r.errno == OK ==> SameAfter(r.fs, dst, vs[1..], k))
    {
      SameFirst(fs, dst, vs, k);
    }
    assert SameAfter(fs, dst, vs, 0);
    if r.errno != OK || SameThroughout(r.fs, dst, vs[1..]) {
      forall j | 0 <= j <= |vs| ensures SameAfter(fs, dst, vs, j) {
        if j > 0 {
          var k: nat := j - 1;
          assert r.errno == OK ==> SameAfter(r.fs, dst, vs[1..], k);
          assert SameAfter(fs, dst, vs, k + 1);
        }
      }
    } else {
      var k :| 0 <= k <= |vs[1..]| && !SameAfter(r.fs, dst, vs[1..], k);
      assert !SameAfter(fs, dst, vs, k + 1);
    }
  }

  /** Exactly when the two loaders go along with each other from beginning to end. */
  lemma {:induction false} CopyAgreesIff(fs: FS, dst: Path, vs: seq<Visit>)
    requires GoodRoot(fs, dst) && Usable(vs)
    ensures SameThroughout(fs, dst, vs) <==> CopyAgrees(fs, dst, vs)
    decreases |vs|
  {
    if vs == [] {
      assert vs[..0] == [];
    } else {
      var r := CopyStep(fs, dst, vs[0]);
      assert UsableVisit(vs[0]);
      VisitAgreesIff(fs, dst, vs[0]);
      SameOne(fs, dst, vs);
      if r == ApplyEntry(fs, dst, PackOne(vs[0])) {
        PackedEffect(fs, dst, vs[0]);
        if r.errno == OK {
          CopyAgreesIff(r.fs, dst, vs[1..]);
        }
        RestSame(fs, dst, vs);
      } else {
        assert !SameAfter(fs, dst, vs, 1);
      }
    }
  }

  /** Copying a source tree and extracting its tar stream then end in the same host tree, down
      to the inode numbers, and fail at the same entry with the same error. */
  lemma LoadersAgree(fs: FS, dst: Path, kids: seq<Kid>)
    requires GoodRoot(fs, dst) && SaneKids(kids)
    ensures Usable(Visits([], kids))
    ensures CopyAgrees(fs, dst, Visits([], kids)) ==>
              CopyTree(fs, dst, kids) == ExtractAll(fs, dst, Pack(Visits([], kids)))
  {
    var vs := Visits([], kids);
    VisitsUsable([], kids);
    CopyAgreesIff(fs, dst, vs);
    if CopyAgrees(fs, dst, vs) {
      assert SameAfter(fs, dst, vs, |vs|) && vs[..|vs|] == vs;
      RealIsLinkFree(fs, dst);
      MkdirAllLiteral(fs, dst);
      WithDirsNothing(fs, dst);
    }
  }

  /** A directory that meets no link of the destination is a special case. */
  lemma {:induction false} OffLinksMeets(fs: FS, dst: Path, vs: seq<Visit>, k: nat)
    requires Loading(fs, dst, vs, k) && Ordered([], vs) && Usable(vs)
    ensures CopyAgrees(fs, dst, vs[k..])
    decreases |vs| - k
  {
    if k < |vs| {
      assert vs[k..][0] == vs[k] && vs[k..][1..] == vs[k+1..];
      assert UsableVisit(vs[k]);
      LoadingStep(fs, dst, vs, k);
      VisitAgreesIff(fs, dst, vs[k]);
      if CopyStep(fs, dst, vs[k]).errno == OK {
        OffLinksMeets(CopyStep(fs, dst, vs[k]).fs, dst, vs, k + 1);
      }
    }
  }

  lemma NoLinkAgrees(fs: FS, dst: Path, kids: seq<Kid>)
    requires GoodRoot(fs, dst) && SaneKids(kids) && NoDirOnLink(fs, dst, Visits([], kids))
    ensures Usable(Visits([], kids)) && CopyAgrees(fs, dst, Visits([], kids))
  {
    var vs := Visits([], kids);
    VisitsUsable([], kids);
    VisitsOrdered([], kids);
    OffLinksMeets(fs, dst, vs, 0);
    assert vs[0..] == vs;
  }

  // ----- Directories on links -----

  /** The kernel follows a relative link in dst to dst/t. */
  lemma ThroughRelative(fs: FS, dst: Path, a: string, t: Path)
    requires RealDir(fs, dst + t) && Names(dst) && Names(t) && RealDir(fs, dst) && Ordinary(a)
    requires dst + [a] in fs.nodes && fs.nodes[dst + [a]] == Link(RawPath(false, t))
    ensures OpenDir(fs, dst + [a]) == At(dst + t)
  {
    assert dst[..0] == [] && dst[0..] == dst && dst[..|dst|] == dst;
    WalkDown(fs, dst, 0, [a], KERNEL_LINKS);
    assert [a] + [] == [a] && t + [] == t;
    WalkNext(fs, dst, a, [], KERNEL_LINKS);
    assert (dst + t)[..|dst|] == dst && (dst + t)[|dst|..] == t;
    WalkDown(fs, dst + t, |dst|, [], KERNEL_LINKS - 1);
    assert (dst + t)[..|dst + t|] == dst + t;
  }

  lemma ThroughAbsolute(fs: FS, dst: Path, a: string, t: Path)
    requires RealDir(fs, t) && Names(dst) && Names(t) && RealDir(fs, dst) && Ordinary(a)
    requires dst + [a] in fs.nodes && fs.nodes[dst + [a]] == Link(RawPath(true, t))
    ensures OpenDir(fs, dst + [a]) == At(t)
  {
    ThroughLink(fs, dst, a, t, []);
    assert dst + [a] + [] == dst + [a] && t[..|t|] == t;
  }

  /** Extraction takes either kind of link to dst/t. */
  lemma JoinThrough(fs: FS, dst: Path, a: string, abs: bool, t: Path)
    requires GoodRoot(fs, dst) && RealDir(fs, dst + t) && Names(t) && Ordinary(a)
    requires dst + [a] in fs.nodes && fs.nodes[dst + [a]] == Link(RawPath(abs, t))
    ensures SecureJoin(fs, dst, [a]) == At(dst + t)
  {
    LinkSeen(fs, dst, a, RawPath(abs, t));
    JoinLink(fs, dst, a, RawPath(abs, t));
    CleanOntoNames(abs, [], t);
    assert [] + t == t;
    RealIsLinkFree(fs, dst + t);
    assert dst + [] == dst && dst + [] + t == dst + t;
    ResolveLiteral(fs, dst, [], t, MAX_LINKS - 1);
  }

  /** A file below such a link, when nothing on the way to it is replaced. */
  lemma LinkedFile(fs: FS, dst: Path, a: string, f: string, d: Path, p: Path, body: string)
    requires GoodRoot(fs, dst) && Ordinary(a) && Ordinary(f) && !(WHITEOUT_PREFIX <= f)
    requires OpenDir(fs, dst + [a]) == At(d) && SecureJoin(fs, dst, [a]) == At(p) && IsDir(fs, p)
    requires OpenDir(Prune(fs, d + [f]), dst + [a]).At?
    ensures FileAgrees(fs, dst, Visit([a, f], KReg(body))) <==> d == p
  {
    var v := Visit([a, f], KReg(body));
    assert Up(v.rel) == [a] && Last(v.rel) == f;
    assert Up(p + [f]) == p;
    MkdirAllMakes(fs, dst + [a]);
    assert MkdirAll(fs, dst + [a]) == Ret(fs, OK);
  }

  lemma WayStays(fs: FS, dst: Path, a: string, d: Path, f: string, p: Path)
    requires RealDir(fs, p) && !(d + [f] <= p)
    ensures RealDir(Prune(fs, d + [f]), p)
  {
    forall k | 0 <= k <= |p| ensures IsDir(Prune(fs, d + [f]), p[..k]) {
      assert !(d + [f] <= p[..k]);
    }
  }

  /** A merged /usr: the destination has a link bin -> usr/bin and the source has bin/f. Both
      loaders accept the directory and put the file below usr/bin. */
  lemma RelativeLinkAgrees(fs: FS, dst: Path, a: string, f: string, t: Path, body: string)
    requires GoodRoot(fs, dst) && Ordinary(a) && Ordinary(f) && !(WHITEOUT_PREFIX <= a) && !(WHITEOUT_PREFIX <= f)
    requires RealDir(fs, dst + t) && Names(t) && t != []
    requires dst + [a] in fs.nodes && fs.nodes[dst + [a]] == Link(RawPath(false, t))
    ensures VisitAgrees(fs, dst, Visit([a], KDir)) && CopyStep(fs, dst, Visit([a], KDir)) == Ret(fs, OK)
    ensures var v, q := Visit([a, f], KReg(body)), dst + t + [f];
            && VisitAgrees(fs, dst, v)
            && CopyStep(fs, dst, v) == Ret(PutFile(Prune(fs, q), q, body), OK)
            && ApplyEntry(fs, dst, PackOne(v)) == CopyStep(fs, dst, v)
  {
    var q := dst + t + [f];
    var g := Prune(fs, q);
    ThroughRelative(fs, dst, a, t);
    JoinThrough(fs, dst, a, false, t);
    WayStays(fs, dst, a, dst + t, f, dst);
    WayStays(fs, dst, a, dst + t, f, dst + t);
    assert !(q <= dst + [a]);
    ThroughRelative(g, dst, a, t);
    assert (dst + t)[..|dst + t|] == dst + t;
    LinkedFile(fs, dst, a, f, dst + t, dst + t, body);
    var v := Visit([a, f], KReg(body));
    assert Up(v.rel) == [a] && Last(v.rel) == f;
    VisitAgreesIff(fs, dst, v);
    FileApplied(fs, dst, v);
    WithDirsNothing(fs, dst + t);
    assert Up(q) == dst + t;
    LinkedDir(fs, dst, a);
  }

  lemma LinkedDir(fs: FS, dst: Path, a: string)
    requires GoodRoot(fs, dst) && Ordinary(a) && dst + [a] in fs.nodes && OpenDir(fs, dst + [a]).At?
    ensures DirAgrees(fs, dst, Visit([a], KDir)) && CopyStep(fs, dst, Visit([a], KDir)) == Ret(fs, OK)
  {
    assert Up([a]) == [] && Last([a]) == a && dst + [] == dst && dst[..|dst|] == dst;
    assert MkdirAll(fs, dst + [a]) == Ret(fs, OK);
  }

  /** With an absolute link a -> t, the kernel goes to t and extraction to dst/t: the trees
      differ, except when the destination is the whole host. */
  lemma AbsoluteLinkAgreesIff(fs: FS, dst: Path, a: string, f: string, t: Path, body: string)
    requires GoodRoot(fs, dst) && Ordinary(a) && Ordinary(f) && !(WHITEOUT_PREFIX <= f)
    requires RealDir(fs, t) && RealDir(fs, dst + t) && Names(t) && !(t + [f] <= dst + [a])
    requires dst + [a] in fs.nodes && fs.nodes[dst + [a]] == Link(RawPath(true, t))
    ensures var v := Visit([a, f], KReg(body));
            CopyStep(fs, dst, v) == ApplyEntry(fs, dst, PackOne(v)) <==> dst == []
  {
    var g := Prune(fs, t + [f]);
    ThroughAbsolute(fs, dst, a, t);
    JoinThrough(fs, dst, a, true, t);
    assert dst <= dst + [a];
    WayStays(fs, dst, a, t, f, t);
    WayStays(fs, dst, a, t, f, dst);
    ThroughAbsolute(g, dst, a, t);
    assert (dst + t)[..|dst + t|] == dst + t;
    LinkedFile(fs, dst, a, f, t, dst + t, body);
    VisitAgreesIff(fs, dst, Visit([a, f], KReg(body)));
    if t == dst + t {
      assert |dst| == 0;
    }
  }

  // ----- Source files named like whiteouts -----

  lemma MarkerAddsNothing(fs: FS, dst: Path, h: Header)
    requires Clean(h.name) != [] && WHITEOUT_PREFIX <= Last(Clean(h.name))
    ensures ApplyEntry(fs, dst, h).fs.data == fs.data
  {
  }

  lemma PackedFileName(v: Visit)
    requires v.rel != [] && Names(v.rel) && v.kind.KReg?
    ensures Clean(PackOne(v).name) == v.rel
  {
    CleanOntoNames(false, [], v.rel);
    assert [] + v.rel == v.rel;
  }

  /** Packed, a source file whose name begins with ".wh." is taken for a marker: wherever the
      copy of it succeeds, extraction does something else. */
  lemma WhiteoutNameDiffers(fs: FS, dst: Path, v: Visit)
    requires GoodRoot(fs, dst) && Copyable(v) && v.kind.KReg? && WHITEOUT_PREFIX <= Last(v.rel)
    requires CopyStep(fs, dst, v).errno == OK
    ensures CopyStep(fs, dst, v) != ApplyEntry(fs, dst, PackOne(v))
  {
    var target, up := dst + v.rel, dst + Up(v.rel);
    assert Up(target) == up && Last(target) == Last(v.rel);
    PackedFileName(v);
    MarkerAddsNothing(fs, dst, PackOne(v));
    MkdirAllMakes(fs, up);
    MkdirAllIsWithDirs(fs, up);
    var m := MkdirAll(fs, up).fs;
    FileInto(m, target, OpenDir(m, up).path, v.kind.body);
    assert |CopyStep(fs, dst, v).fs.data| == |fs.data| + 1;
  }
}
