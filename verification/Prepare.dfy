/**
 Prepare, SetupEssentials and PivotRoot on a mount namespace.
 */
module PivotMounts {
  import opened Wrappers
  import opened Paths
  import opened MountTree

  /** What the root mount hangs on: nothing, as on an initramfs, or the kernel's hidden rootfs. */
  datatype Above = NoParent | Rootfs(shared: bool)

  /** A namespace: its tree, the number of mount calls so far, and the propagation groups that
      were told about a mount. */
  datatype NS = NS(root: Mount, step: nat, events: seq<nat>, above: Above)

  function Lookup(ns: NS, p: Path): Spot {
    Go(ns.root, ns.root.root, p)
  }

  /** The process's root directory is not covered by another mount. */
  predicate Sound(ns: NS) {
    ns.root.root !in ns.root.kids
  }

  // ----- System calls -----

  /** Mounting on a shared mount is announced to its peers. */
  function Attach(ns: NS, target: Path, m: Mount): NS {
    var parent := Lookup(ns, target).mount;
    NS(Put(ns.root, ns.root.root, target, m), ns.step + 1,
       if parent.peer.Some? then ns.events + [parent.peer.value] else ns.events, ns.above)
  }

  function Bind(ns: NS, source: Path, target: Path, recursive: bool): NS {
    Attach(ns, target, CloneAt(ns.step, Lookup(ns, source), recursive))
  }

  function MountNew(ns: NS, device: Device, target: Path): NS {
    Attach(ns, target, Mount(Made(ns.step), device, [], None, map[]))
  }

  /** mount(2) with MS_REC|MS_PRIVATE wants a mount point. */
  predicate IsMountRoot(ns: NS, p: Path) {
    Lookup(ns, p).at == Lookup(ns, p).mount.root
  }

  function MakePrivate(ns: NS, p: Path): NS {
    ns.(root := PrivatizeAt(ns.root, ns.root.root, p))
  }

  /** The device comparison of the program: not the same as being a mount point. */
  predicate IsMountPoint(ns: NS, p: Path) {
    Lookup(ns, p).mount.device != Lookup(ns, Up(p)).mount.device
  }

  /** The conditions of pivot_root(2) on the mounts involved. */
  predicate PivotAllowed(ns: NS, newRoot: Path, oldRoot: Path) {
    && Detachable(ns.root, ns.root.root, newRoot)
    && IsMountRoot(ns, newRoot)
    && ns.above == Rootfs(false)
    && ParentOf(ns.root, ns.root.root, newRoot).peer == None
    && Lookup(ns, newRoot + oldRoot).mount.peer == None
  }

  /** The new root's mount becomes the root; the old root hangs below it. */
  function Pivot(ns: NS, newRoot: Path, oldRoot: Path): NS
    requires PivotAllowed(ns, newRoot, oldRoot)
  {
    var top := Lookup(ns, newRoot).mount;
    ns.(root := Put(top, top.root, oldRoot, Detach(ns.root, ns.root.root, newRoot)))
  }

  // ----- The program, as far as it succeeds -----

  datatype Essential = BindOf(source: Path, target: string) | Fresh(device: Device, target: string)

  const ESSENTIALS: seq<Essential> :=
    [BindOf(["dev"], "dev"), Fresh(Proc, "proc"), Fresh(Sysfs, "sys"), BindOf(["run"], "run")]

  /** One essential mount; binding /run may have been refused. */
  function SetupOne(ns: NS, newRoot: Path, m: Essential, runBound: bool): NS {
    match m
    case BindOf(source, target) =>
      if source == ["run"] && !runBound then ns else Bind(ns, source, newRoot + [target], true)
    case Fresh(device, target) => MountNew(ns, device, newRoot + [target])
  }

  function Setup(ns: NS, newRoot: Path, ms: seq<Essential>, runBound: bool): NS
    decreases |ms|
  {
    if ms == [] then ns else Setup(SetupOne(ns, newRoot, ms[0], runBound), newRoot, ms[1..], runBound)
  }

  /** The namespace once the new root is a private mount of its own. */
  function SelfBound(ns: NS, newRoot: Path, createNamespace: bool): NS {
    var a := if createNamespace then MakePrivate(ns, []) else ns;
    var b := if IsMountPoint(a, newRoot) then a else Bind(a, newRoot, newRoot, false);
    MakePrivate(b, newRoot)
  }

  function Prepared(ns: NS, newRoot: Path, createNamespace: bool, runBound: bool): NS {
    Setup(SelfBound(ns, newRoot, createNamespace), newRoot, ESSENTIALS, runBound)
  }

  // ----- The program -----

  /** What can be refused. */
  datatype Call =
    | Unshare | MakeDir(path: Path) | DeviceCheck(path: Path)
    | PrivateCall(path: Path) | BindCall(source: Path, target: Path, recursive: bool)
    | MountCall(device: Device, target: Path) | PivotCall | ChdirCall

  /** The one refusal that has no consequence. */
  function RunBind(newRoot: Path): Call {
    BindCall(["run"], newRoot + ["run"], true)
  }

  /** Since `before`, nothing was refused but that. */
  ghost predicate OnlyRun(before: seq<Call>, now: seq<Call>, newRoot: Path) {
    before <= now && forall i :: |before| <= i < |now| ==> now[i] == RunBind(newRoot)
  }

  /** The namespace of the calling thread. Any call may be refused, and is then noted; a
      refused call changes nothing. */
  class Namespace {
    var ns: NS
    var refused: seq<Call>

    constructor (ns: NS)
      ensures this.ns == ns && refused == []
    {
      this.ns := ns;
      refused := [];
    }

    method Refuses(c: Call) returns (no: bool)
      modifies this`refused
      ensures refused == if no then old(refused) + [c] else old(refused)
    {
      no := *;
      if no {
        refused := refused + [c];
      }
    }

    method MountPrivate(p: Path) returns (ok: bool)
      modifies this
      ensures ns == if ok then MakePrivate(old(ns), p) else old(ns)
      ensures refused == old(refused) || refused == old(refused) + [PrivateCall(p)]
      ensures ok <==> refused == old(refused) && IsMountRoot(old(ns), p)
    {
      var no := Refuses(PrivateCall(p));
      if no || !IsMountRoot(ns, p) {
        return false;
      }
      ns := MakePrivate(ns, p);
      return true;
    }

    method MountBind(source: Path, target: Path, recursive: bool) returns (ok: bool)
      modifies this
      ensures ns == if ok then Bind(old(ns), source, target, recursive) else old(ns)
      ensures refused == old(refused) + if ok then [] else [BindCall(source, target, recursive)]
    {
      var no := Refuses(BindCall(source, target, recursive));
      if no {
        return false;
      }
      ns := Bind(ns, source, target, recursive);
      return true;
    }

    method MountDevice(device: Device, target: Path) returns (ok: bool)
      modifies this
      ensures ns == if ok then MountNew(old(ns), device, target) else old(ns)
      ensures refused == old(refused) + if ok then [] else [MountCall(device, target)]
    {
      var no := Refuses(MountCall(device, target));
      if no {
        return false;
      }
      ns := MountNew(ns, device, target);
      return true;
    }

    /** CreateMountNamespace: the copy that unshare makes starts out equal. */
    method CreateMountNamespace() returns (ok: bool)
      modifies this
      ensures ns == if ok then MakePrivate(old(ns), []) else old(ns)
      ensures old(refused) <= refused && (ok <==> refused == old(refused))
      ensures forall i :: |old(refused)| <= i < |refused| ==> refused[i] == Unshare || refused[i] == PrivateCall([])
    {
      var no := Refuses(Unshare);
      if no {
        return false;
      }
      TopIsMountRoot(ns);
      ok := MountPrivate([]);
    }

    /** One turn of SetupEssentials. */
    method MountEssential(newRoot: Path, m: Essential) returns (ok: bool, bound: bool)
      modifies this
      ensures ns == if ok then SetupOne(old(ns), newRoot, m, bound) else old(ns)
      ensures ok && bound ==> refused == old(refused)
      ensures ok && !bound ==> m.BindOf? && m.source == ["run"]
      ensures ok && !bound ==> refused == old(refused) + [BindCall(["run"], newRoot + [Target(m)], true)]
      ensures !ok ==> |refused| == |old(refused)| + 1 && old(refused) <= refused && refused[|old(refused)|] != RunBind(newRoot)
    {
      bound := true;
      var no := Refuses(MakeDir(newRoot + [Target(m)]));
      if no {
        return false, true;
      }
      match m {
        case BindOf(source, target) =>
          ok := MountBind(source, newRoot + [target], true);
          if !ok && source == ["run"] {
            return true, false;
          }
        case Fresh(device, target) =>
          ok := MountDevice(device, newRoot + [target]);
      }
    }

    /** SetupEssentials: only binding /run may fail without consequence. */
    method SetupEssentials(newRoot: Path) returns (ok: bool, runBound: bool)
      modifies this
      ensures ok ==> ns == Setup(old(ns), newRoot, ESSENTIALS, runBound)
      ensures old(AllPrivate(ns.root)) ==> AllPrivate(ns.root) && ns.events == old(ns.events)
      ensures old(refused) <= refused && (ok <==> OnlyRun(old(refused), refused, newRoot))
      ensures ok ==> (runBound <==> refused == old(refused))
    {
      ghost var start := ns;
      var ms := ESSENTIALS;
      runBound := true;
      for i := 0 to |ms|
        invariant ms == ESSENTIALS
        invariant i <= 3 ==> runBound
        invariant refused == old(refused) + if runBound then [] else [RunBind(newRoot)]
        invariant forall b :: (i <= 3 || b == runBound) ==>
          Setup(ns, newRoot, ms[i..], b) == Setup(start, newRoot, ms, b)
        invariant AllPrivate(start.root) ==> AllPrivate(ns.root) && ns.events == start.events
      {
        assert ms[i..][0] == ms[i] && ms[i..][1..] == ms[i+1..];
        RunIsLast(i);
        if AllPrivate(ns.root) {
          QuietStep(ns, newRoot, ms[i]);
        }
        var bound;
        ok, bound := MountEssential(newRoot, ms[i]);
        if !ok {
          return;
        }
        if !bound {
          runBound := false;
        }
      }
      ok := true;
    }

    /** Prepare fails exactly when something other than the bind of /run is refused. */
    method Prepare(newRoot: Path, createNamespace: bool) returns (ok: bool, runBound: bool)
      modifies this
      ensures ok ==> ns == Prepared(old(ns), newRoot, createNamespace, runBound)
      ensures createNamespace && old(Sound(ns)) ==> ns.events == old(ns.events)
      ensures old(refused) <= refused && (ok <==> OnlyRun(old(refused), refused, newRoot))
      ensures ok ==> (runBound <==> refused == old(refused))
    {
      ghost var start := ns;
      runBound := false;
      if createNamespace {
        ok := CreateMountNamespace();
        if !ok {
          assert refused[|old(refused)|] != RunBind(newRoot);
          return;
        }
      }
      ghost var quiet := createNamespace && Sound(start);
      if quiet {
        PrivateRoot(start);
      }
      var no := Refuses(DeviceCheck(newRoot));
      if no {
        NotRun(old(refused), DeviceCheck(newRoot), newRoot);
        return false, false;
      }
      SelfBindIsMountRoot(ns, newRoot);
      if !IsMountPoint(ns, newRoot) {
        if quiet {
          QuietAttach(ns, newRoot, CloneAt(ns.step, Lookup(ns, newRoot), false));
          GoPrivate(ns.root, ns.root.root, newRoot);
          CloneAtPrivate(ns.step, Lookup(ns, newRoot), false);
        }
        ok := MountBind(newRoot, newRoot, false);
        if !ok {
          NotRun(old(refused), BindCall(newRoot, newRoot, false), newRoot);
          return;
        }
      }
      if quiet {
        PrivatizeAtPrivate(ns.root, ns.root.root, newRoot);
      }
      assert IsMountRoot(ns, newRoot);
      assert refused == old(refused);
      ok := MountPrivate(newRoot);
      if !ok {
        assert refused == old(refused) + [PrivateCall(newRoot)];
        NotRun(old(refused), PrivateCall(newRoot), newRoot);
        return;
      }
      ok, runBound := SetupEssentials(newRoot);
    }

    /** PivotRoot; the kernel refuses what pivot_root(2) does not allow. The last call, chdir,
        leaves the namespace alone. */
    method PivotRoot(newRoot: Path, oldRoot: Path) returns (ok: bool)
      modifies this
      ensures ok ==>
                var before := MakePrivate(old(ns), []);
                PivotAllowed(before, newRoot, oldRoot) && ns == Pivot(before, newRoot, oldRoot)
      ensures old(refused) <= refused
      ensures ok <==> refused == old(refused) && PivotAllowed(MakePrivate(old(ns), []), newRoot, oldRoot)
    {
      TopIsMountRoot(ns);
      ok := MountPrivate([]);
      if !ok {
        return;
      }
      var no := Refuses(PivotCall);
      if no || !PivotAllowed(ns, newRoot, oldRoot) {
        return false;
      }
      ns := Pivot(ns, newRoot, oldRoot);
      no := Refuses(ChdirCall);
      ok := !no;
    }
  }

  lemma RunIsLast(i: nat)
    requires i < |ESSENTIALS|
    ensures ESSENTIALS[i].BindOf? && ESSENTIALS[i].source == ["run"] <==> i == 3
    ensures Target(ESSENTIALS[3]) == "run" && |ESSENTIALS| == 4
  {
    assert ["dev"][0] != ["run"][0];
  }

  lemma NotRun(before: seq<Call>, c: Call, newRoot: Path)
    requires c != RunBind(newRoot)
    ensures !OnlyRun(before, before + [c], newRoot)
  {
    assert (before + [c])[|before|] == c;
  }

  /** The process's "/" is a mount, covered or not. */
  lemma TopIsMountRoot(ns: NS)
    ensures IsMountRoot(ns, [])
  {
    GoNowhere(ns.root, ns.root.root);
  }

  lemma SelfBindIsMountRoot(ns: NS, newRoot: Path)
    ensures IsMountRoot(if IsMountPoint(ns, newRoot) then ns else Bind(ns, newRoot, newRoot, false), newRoot)
  {
    if IsMountPoint(ns, newRoot) {
      DeviceChangeIsMountPoint(ns, newRoot);
    } else {
      AttachUnder(ns, newRoot, CloneAt(ns.step, Lookup(ns, newRoot), false), []);
      assert newRoot + [] == newRoot;
    }
  }

  // ----- Everything stays private -----

  /** The first MakePrivate of a fresh namespace reaches every mount. */
  lemma PrivateRoot(ns: NS)
    requires Sound(ns)
    ensures AllPrivate(MakePrivate(ns, []).root) && Sound(MakePrivate(ns, []))
  {
    PrivatizePrivate(ns.root);
  }

  lemma QuietAttach(ns: NS, target: Path, m: Mount)
    requires AllPrivate(ns.root)
    ensures Attach(ns, target, m).events == ns.events
    ensures AllPrivate(m) ==> AllPrivate(Attach(ns, target, m).root)
  {
    GoPrivate(ns.root, ns.root.root, target);
    if AllPrivate(m) {
      PutPrivate(ns.root, ns.root.root, target, m);
    }
  }

  lemma QuietStep(ns: NS, newRoot: Path, m: Essential)
    requires AllPrivate(ns.root)
    ensures forall b :: AllPrivate(SetupOne(ns, newRoot, m, b).root) && SetupOne(ns, newRoot, m, b).events == ns.events
  {
    match m
    case BindOf(source, target) =>
      GoPrivate(ns.root, ns.root.root, source);
      CloneAtPrivate(ns.step, Lookup(ns, source), true);
      QuietAttach(ns, newRoot + [target], CloneAt(ns.step, Lookup(ns, source), true));
    case Fresh(device, target) =>
      QuietAttach(ns, newRoot + [target], Mount(Made(ns.step), device, [], None, map[]));
  }

  lemma SetupQuiet(ns: NS, newRoot: Path, ms: seq<Essential>, runBound: bool)
    requires AllPrivate(ns.root)
    ensures var r := Setup(ns, newRoot, ms, runBound);
            AllPrivate(r.root) && r.events == ns.events && r.above == ns.above
    decreases |ms|
  {
    if ms != [] {
      QuietStep(ns, newRoot, ms[0]);
      SetupQuiet(SetupOne(ns, newRoot, ms[0], runBound), newRoot, ms[1..], runBound);
    }
  }

  lemma SelfBoundQuiet(ns: NS, newRoot: Path)
    requires Sound(ns)
    ensures var r := SelfBound(ns, newRoot, true);
            AllPrivate(r.root) && r.events == ns.events && r.above == ns.above
  {
    var a := MakePrivate(ns, []);
    PrivateRoot(ns);
    var clone := CloneAt(a.step, Lookup(a, newRoot), false);
    GoPrivate(a.root, a.root.root, newRoot);
    CloneAtPrivate(a.step, Lookup(a, newRoot), false);
    QuietAttach(a, newRoot, clone);
    var b := if IsMountPoint(a, newRoot) then a else Bind(a, newRoot, newRoot, false);
    PrivatizeAtPrivate(b.root, b.root.root, newRoot);
  }

  /** In a fresh namespace Prepare leaves every mount private, and no peer namespace hears of
      any mount it made. */
  lemma PreparedQuiet(ns: NS, newRoot: Path, runBound: bool)
    requires Sound(ns)
    ensures var r := Prepared(ns, newRoot, true, runBound);
            AllPrivate(r.root) && r.events == ns.events && r.above == ns.above
  {
    SelfBoundQuiet(ns, newRoot);
    SetupQuiet(SelfBound(ns, newRoot, true), newRoot, ESSENTIALS, runBound);
  }

  // ----- What is visible where -----

  lemma AttachUnder(ns: NS, target: Path, m: Mount, q: Path)
    ensures Lookup(Attach(ns, target, m), target + q) == Go(m, m.root, q)
  {
    PutShape(ns.root, ns.root.root, target, m);
    GoPutUnder(ns.root, ns.root.root, target, m, q);
  }

  lemma AttachOther(ns: NS, target: Path, m: Mount, p: Path)
    requires !(target <= p)
    ensures PlaceOf(Lookup(Attach(ns, target, m), p)) == PlaceOf(Lookup(ns, p))
  {
    PutShape(ns.root, ns.root.root, target, m);
    GoPutOther(ns.root, ns.root.root, target, m, p);
  }

  lemma MakePrivateMovesNothing(ns: NS, p: Path, q: Path)
    ensures PlaceOf(Lookup(MakePrivate(ns, p), q)) == PlaceOf(Lookup(ns, q))
  {
    GoPrivatizeAt(ns.root, ns.root.root, p, ns.root.root, q);
  }

  /** A bind shows at the target what the source showed. */
  lemma BindShows(ns: NS, source: Path, target: Path, q: Path)
    ensures Seen(Lookup(Bind(ns, source, target, true), target + q)) == Seen(Lookup(ns, source + q))
  {
    var s := Lookup(ns, source);
    var m := CloneAt(ns.step, s, true);
    AttachUnder(ns, target, m, q);
    GoCloneFrom(ns.step, m, s, s.at, q);
    GoThrough(ns.root, ns.root.root, source, q);
  }

  /** A bind that is not recursive shows the bare directory: none of the mounts below it. */
  lemma BareBindShows(ns: NS, p: Path, q: Path)
    ensures var s := Lookup(ns, p);
            PlaceOf(Lookup(Bind(ns, p, p, false), p + q)) == Place(Made(ns.step), s.mount.device, s.at, s.at + q)
  {
    var m := CloneAt(ns.step, Lookup(ns, p), false);
    AttachUnder(ns, p, m, q);
    GoBare(m, m.root, q);
  }

  lemma NewMountShows(ns: NS, device: Device, target: Path, q: Path)
    ensures PlaceOf(Lookup(MountNew(ns, device, target), target + q)) == Place(Made(ns.step), device, [], q)
  {
    var m := Mount(Made(ns.step), device, [], None, map[]);
    AttachUnder(ns, target, m, q);
    GoBare(m, [], q);
    assert [] + q == q;
  }

  /** Up to the essential mounts, only lookups through the new root can change. */
  lemma SelfBoundElsewhere(ns: NS, newRoot: Path, createNamespace: bool, p: Path)
    requires !(newRoot <= p)
    ensures PlaceOf(Lookup(SelfBound(ns, newRoot, createNamespace), p)) == PlaceOf(Lookup(ns, p))
  {
    var a := if createNamespace then MakePrivate(ns, []) else ns;
    var b := if IsMountPoint(a, newRoot) then a else Bind(a, newRoot, newRoot, false);
    MakePrivateMovesNothing(ns, [], p);
    AttachOther(a, newRoot, CloneAt(a.step, Lookup(a, newRoot), false), p);
    MakePrivateMovesNothing(b, newRoot, p);
  }

  function Target(m: Essential): string {
    m.target
  }

  lemma SetupOneElsewhere(ns: NS, newRoot: Path, m: Essential, runBound: bool, p: Path)
    requires !(newRoot + [Target(m)] <= p)
    ensures PlaceOf(Lookup(SetupOne(ns, newRoot, m, runBound), p)) == PlaceOf(Lookup(ns, p))
  {
    match m
    case BindOf(source, target) =>
      AttachOther(ns, newRoot + [target], CloneAt(ns.step, Lookup(ns, source), true), p);
    case Fresh(device, target) =>
      AttachOther(ns, newRoot + [target], Mount(Made(ns.step), device, [], None, map[]), p);
  }

  /** Essentials with other targets leave a path as it was. */
  lemma SetupElsewhere(ns: NS, newRoot: Path, ms: seq<Essential>, runBound: bool, p: Path)
    requires forall i :: 0 <= i < |ms| ==> !(newRoot + [Target(ms[i])] <= p)
    ensures PlaceOf(Lookup(Setup(ns, newRoot, ms, runBound), p)) == PlaceOf(Lookup(ns, p))
    decreases |ms|
  {
    if ms != [] {
      SetupOneElsewhere(ns, newRoot, ms[0], runBound, p);
      SetupElsewhere(SetupOne(ns, newRoot, ms[0], runBound), newRoot, ms[1..], runBound, p);
    }
  }

  lemma OtherName(newRoot: Path, x: string, y: string, q: Path)
    requires x != y
    ensures !(newRoot + [x] <= newRoot + [y] + q)
  {
    assert (newRoot + [x])[|newRoot|] == x && (newRoot + [y] + q)[|newRoot|] == y;
  }

  // ----- No shadowing -----

  function AfterDev(ns: NS, newRoot: Path): NS {
    Bind(ns, ["dev"], newRoot + ["dev"], true)
  }

  function AfterProc(ns: NS, newRoot: Path): NS {
    MountNew(AfterDev(ns, newRoot), Proc, newRoot + ["proc"])
  }

  function AfterSys(ns: NS, newRoot: Path): NS {
    MountNew(AfterProc(ns, newRoot), Sysfs, newRoot + ["sys"])
  }

  lemma SetupSteps(ns: NS, newRoot: Path, runBound: bool)
    ensures Setup(ns, newRoot, ESSENTIALS, runBound) ==
            if runBound then Bind(AfterSys(ns, newRoot), ["run"], newRoot + ["run"], true) else AfterSys(ns, newRoot)
    ensures AfterProc(ns, newRoot).step == ns.step + 2
  {
    var e := ESSENTIALS;
    assert e[1..] == [Fresh(Proc, "proc"), Fresh(Sysfs, "sys"), BindOf(["run"], "run")];
    assert e[1..][1..] == [Fresh(Sysfs, "sys"), BindOf(["run"], "run")];
    assert e[1..][1..][1..] == [BindOf(["run"], "run")];
    assert e[1..][1..][1..][1..] == [];
    assert ["dev"][0] != ["run"][0];
    var a := SetupOne(ns, newRoot, e[0], runBound);
    assert a == AfterDev(ns, newRoot);
    var b := SetupOne(a, newRoot, e[1], runBound);
    var c := SetupOne(b, newRoot, e[2], runBound);
    assert Setup(ns, newRoot, e, runBound) == Setup(c, newRoot, e[3..], runBound);
  }

  /** Later essentials do not cover earlier ones. */
  lemma DevStays(ns: NS, newRoot: Path, runBound: bool, q: Path)
    ensures PlaceOf(Lookup(Setup(ns, newRoot, ESSENTIALS, runBound), newRoot + ["dev"] + q))
            == PlaceOf(Lookup(AfterDev(ns, newRoot), newRoot + ["dev"] + q))
  {
    var p, n := newRoot + ["dev"] + q, AfterSys(ns, newRoot);
    SetupSteps(ns, newRoot, runBound);
    OtherName(newRoot, "proc", "dev", q);
    OtherName(newRoot, "sys", "dev", q);
    OtherName(newRoot, "run", "dev", q);
    AttachOther(AfterDev(ns, newRoot), newRoot + ["proc"], Mount(Made(AfterDev(ns, newRoot).step), Proc, [], None, map[]), p);
    AttachOther(AfterProc(ns, newRoot), newRoot + ["sys"], Mount(Made(AfterProc(ns, newRoot).step), Sysfs, [], None, map[]), p);
    AttachOther(n, newRoot + ["run"], CloneAt(n.step, Lookup(n, ["run"]), true), p);
  }

  lemma ProcAndSysStay(ns: NS, newRoot: Path, runBound: bool, q: Path)
    ensures var r := Setup(ns, newRoot, ESSENTIALS, runBound);
            && PlaceOf(Lookup(r, newRoot + ["proc"] + q)) == Place(Made(ns.step + 1), Proc, [], q)
            && PlaceOf(Lookup(r, newRoot + ["sys"] + q)) == Place(Made(ns.step + 2), Sysfs, [], q)
  {
    var n := AfterSys(ns, newRoot);
    SetupSteps(ns, newRoot, runBound);
    NewMountShows(AfterDev(ns, newRoot), Proc, newRoot + ["proc"], q);
    NewMountShows(AfterProc(ns, newRoot), Sysfs, newRoot + ["sys"], q);
    OtherName(newRoot, "sys", "proc", q);
    OtherName(newRoot, "run", "proc", q);
    OtherName(newRoot, "run", "sys", q);
    AttachOther(AfterProc(ns, newRoot), newRoot + ["sys"], Mount(Made(AfterProc(ns, newRoot).step), Sysfs, [], None, map[]), newRoot + ["proc"] + q);
    AttachOther(n, newRoot + ["run"], CloneAt(n.step, Lookup(n, ["run"]), true), newRoot + ["proc"] + q);
    AttachOther(n, newRoot + ["run"], CloneAt(n.step, Lookup(n, ["run"]), true), newRoot + ["sys"] + q);
  }

  lemma RunShows(ns: NS, newRoot: Path, q: Path)
    ensures Seen(Lookup(Setup(ns, newRoot, ESSENTIALS, true), newRoot + ["run"] + q))
            == Seen(Lookup(AfterSys(ns, newRoot), ["run"] + q))
  {
    SetupSteps(ns, newRoot, true);
    BindShows(AfterSys(ns, newRoot), ["run"], newRoot + ["run"], q);
  }

  lemma SysElsewhere(ns: NS, newRoot: Path, p: Path)
    requires !(newRoot <= p)
    ensures PlaceOf(Lookup(AfterSys(ns, newRoot), p)) == PlaceOf(Lookup(ns, p))
  {
    SetupSteps(ns, newRoot, false);
    forall i | 0 <= i < |ESSENTIALS| ensures !(newRoot + [Target(ESSENTIALS[i])] <= p) {
      assert newRoot <= newRoot + [Target(ESSENTIALS[i])];
    }
    SetupElsewhere(ns, newRoot, ESSENTIALS, false, p);
  }

  /** The mount at dev is the one that SetupEssentials made. */
  lemma DevIsMade(ns: NS, newRoot: Path)
    ensures PlaceOf(Lookup(AfterDev(ns, newRoot), newRoot + ["dev"])).origin == Made(ns.step)
  {
    var s := Lookup(ns, ["dev"]);
    GoThrough(ns.root, ns.root.root, ["dev"], []);
    AttachUnder(ns, newRoot + ["dev"], CloneAt(ns.step, s, true), []);
    assert newRoot + ["dev"] + [] == newRoot + ["dev"];
  }

  /** No shadowing. Whatever is mounted at the start, and whether or not the new root is a
      mount point already, after Prepare the new root's dev, proc and sys lead into the mounts
      that SetupEssentials made, at every depth: proc and sys show the fresh file systems, dev
      shows all that the host's /dev shows, and so does run if it could be bound. */
  lemma PreparedNoShadowing(ns: NS, newRoot: Path, createNamespace: bool, runBound: bool, q: Path)
    ensures var start := SelfBound(ns, newRoot, createNamespace);
            var r := Prepared(ns, newRoot, createNamespace, runBound);
            && PlaceOf(Lookup(r, newRoot + ["dev"])).origin == Made(start.step)
            && PlaceOf(Lookup(r, newRoot + ["proc"] + q)) == Place(Made(start.step + 1), Proc, [], q)
            && PlaceOf(Lookup(r, newRoot + ["sys"] + q)) == Place(Made(start.step + 2), Sysfs, [], q)
            && Seen(Lookup(r, newRoot + ["dev"] + q)) == Seen(Lookup(start, ["dev"] + q))
            && (!(newRoot <= ["dev"] + q) ==>
                  Seen(Lookup(r, newRoot + ["dev"] + q)) == Seen(Lookup(ns, ["dev"] + q)))
            && (runBound && !(newRoot <= ["run"] + q) ==>
                  Seen(Lookup(r, newRoot + ["run"] + q)) == Seen(Lookup(ns, ["run"] + q)))
  {
    var start := SelfBound(ns, newRoot, createNamespace);
    DevStays(start, newRoot, runBound, q);
    DevStays(start, newRoot, runBound, []);
    assert newRoot + ["dev"] + [] == newRoot + ["dev"];
    DevIsMade(start, newRoot);
    BindShows(start, ["dev"], newRoot + ["dev"], q);
    ProcAndSysStay(start, newRoot, runBound, q);
    if !(newRoot <= ["dev"] + q) {
      SelfBoundElsewhere(ns, newRoot, createNamespace, ["dev"] + q);
    }
    if runBound && !(newRoot <= ["run"] + q) {
      RunShows(start, newRoot, q);
      SysElsewhere(start, newRoot, ["run"] + q);
      SelfBoundElsewhere(ns, newRoot, createNamespace, ["run"] + q);
    }
  }

  /** The order that shipped once: essentials first, self-bind after. */
  function Swapped(ns: NS, newRoot: Path, runBound: bool): NS {
    MakePrivate(Bind(Setup(ns, newRoot, ESSENTIALS, runBound), newRoot, newRoot, false), newRoot)
  }

  /** In that order every path below the new root, those of the essentials included, shows the
      bare directory tree of the new root's own device. */
  lemma SwappedOrderShadows(ns: NS, newRoot: Path, runBound: bool, q: Path)
    ensures var s := Lookup(ns, newRoot);
            Seen(Lookup(Swapped(ns, newRoot, runBound), newRoot + q)) == (s.mount.device, s.at + q)
  {
    var e := Setup(ns, newRoot, ESSENTIALS, runBound);
    SetupElsewhere(ns, newRoot, ESSENTIALS, runBound, newRoot);
    BareBindShows(e, newRoot, q);
    MakePrivateMovesNothing(Bind(e, newRoot, newRoot, false), newRoot, newRoot + q);
  }

  // ----- pivot_root -----

  lemma {:induction false} GoNowhere(m: Mount, d: Path)
    ensures var s := Go(m, d, []);
            s == Spot(m, d) || s.at == s.mount.root
    decreases m
  {
    if d in m.kids {
      GoNowhere(m.kids[d], m.kids[d].root);
    }
  }

  /** A change of device between a path and its parent means a mount point. */
  lemma DeviceChangeIsMountPoint(ns: NS, p: Path)
    requires IsMountPoint(ns, p)
    ensures IsMountRoot(ns, p)
  {
    if p != [] {
      var u := Lookup(ns, Up(p));
      assert p == Up(p) + [Last(p)];
      GoThrough(ns.root, ns.root.root, Up(p), [Last(p)]);
      assert [Last(p)][1..] == [];
      GoNowhere(u.mount, u.at + [Last(p)]);
    }
  }

  /** After the self-bind step the new root is a mount point. */
  lemma SelfBoundIsMountRoot(ns: NS, newRoot: Path, createNamespace: bool)
    ensures IsMountRoot(SelfBound(ns, newRoot, createNamespace), newRoot)
  {
    var a := if createNamespace then MakePrivate(ns, []) else ns;
    var b := if IsMountPoint(a, newRoot) then a else Bind(a, newRoot, newRoot, false);
    SelfBindIsMountRoot(a, newRoot);
    MakePrivateMovesNothing(b, newRoot, newRoot);
  }

  /** And it is private with everything mounted below it, also without a fresh namespace. */
  lemma SelfBoundIsPrivate(ns: NS, newRoot: Path, createNamespace: bool)
    ensures AllPrivate(Lookup(SelfBound(ns, newRoot, createNamespace), newRoot).mount)
  {
    var a := if createNamespace then MakePrivate(ns, []) else ns;
    var b := if IsMountPoint(a, newRoot) then a else Bind(a, newRoot, newRoot, false);
    GoPrivatizeAt(b.root, b.root.root, newRoot, b.root.root, newRoot);
    PrivatizedThere(b.root, b.root.root, newRoot);
  }

  lemma {:induction false} PrivatizedThere(m: Mount, d: Path, rest: Path)
    ensures AllPrivate(Go(PrivatizeAt(m, d, rest), d, rest).mount)
    decreases m, |rest|
  {
    if d in m.kids {
      GoPrivatizeAt(m.kids[d], m.kids[d].root, rest, m.kids[d].root, rest);
      PrivatizedThere(m.kids[d], m.kids[d].root, rest);
    } else if rest == [] {
      PrivatizePrivate(m);
    } else {
      PrivatizedFrom(m, d, rest, d);
      PrivatizedThere(m, d + [rest[0]], rest[1..]);
    }
  }

  /** Making private changes no mount point. */
  lemma {:induction false} PrivatizedFrom(m: Mount, d: Path, rest: Path, e: Path)
    ensures e in PrivatizeAt(m, d, rest).kids <==> e in m.kids
    decreases |rest|
  {
    if d !in m.kids && rest != [] {
      PrivatizedFrom(m, d + [rest[0]], rest[1..], e);
    }
  }

  /** Nothing is stacked without need: three or four essentials, and a self-bind exactly when
      the new root did not look like a mount point at the start. */
  lemma PreparedMountCount(ns: NS, newRoot: Path, createNamespace: bool, runBound: bool)
    ensures Prepared(ns, newRoot, createNamespace, runBound).step ==
            ns.step + (if IsMountPoint(ns, newRoot) then 0 else 1) + 3 + (if runBound then 1 else 0)
  {
    MakePrivateMovesNothing(ns, [], newRoot);
    MakePrivateMovesNothing(ns, [], Up(newRoot));
    SetupSteps(SelfBound(ns, newRoot, createNamespace), newRoot, runBound);
  }

  lemma PreparedIsMountRoot(ns: NS, newRoot: Path, createNamespace: bool, runBound: bool)
    ensures IsMountRoot(Prepared(ns, newRoot, createNamespace, runBound), newRoot)
  {
    SelfBoundIsMountRoot(ns, newRoot, createNamespace);
    SetupElsewhere(SelfBound(ns, newRoot, createNamespace), newRoot, ESSENTIALS, runBound, newRoot);
  }

  /** A successful Prepare in a fresh namespace meets every mount condition of pivot_root(2). */
  lemma PreparedAllowsPivot(ns: NS, newRoot: Path, oldRoot: Path, runBound: bool)
    requires Sound(ns) && newRoot != [] && ns.above == Rootfs(false)
    ensures PivotAllowed(MakePrivate(Prepared(ns, newRoot, true, runBound), []), newRoot, oldRoot)
  {
    var r := Prepared(ns, newRoot, true, runBound);
    var b := MakePrivate(r, []);
    PreparedQuiet(ns, newRoot, runBound);
    PreparedIsMountRoot(ns, newRoot, true, runBound);
    PrivatizeAtPrivate(r.root, r.root.root, []);
    MakePrivateMovesNothing(r, [], newRoot);
    RootIsDetachable(b.root, b.root.root, newRoot);
    DetachPrivate(b.root, b.root.root, newRoot);
    GoPrivate(b.root, b.root.root, newRoot + oldRoot);
  }

  /** After pivot_root each path resolves as it did under the new root, and each old path that
      does not pass through the new root resolves the same under the old root's mount point. */
  lemma PivotKeepsBothTrees(ns: NS, newRoot: Path, oldRoot: Path, p: Path, q: Path)
    requires PivotAllowed(ns, newRoot, oldRoot)
    ensures var after := Pivot(ns, newRoot, oldRoot);
            && (!(oldRoot <= p) ==> PlaceOf(Lookup(after, p)) == PlaceOf(Lookup(ns, newRoot + p)))
            && (!(newRoot <= q) ==> PlaceOf(Lookup(after, oldRoot + q)) == PlaceOf(Lookup(ns, q)))
  {
    var top := Lookup(ns, newRoot).mount;
    var oldTree := Detach(ns.root, ns.root.root, newRoot);
    PutShape(top, top.root, oldRoot, oldTree);
    DetachShape(ns.root, ns.root.root, newRoot);
    GoThrough(ns.root, ns.root.root, newRoot, p);
    if !(oldRoot <= p) {
      GoPutOther(top, top.root, oldRoot, oldTree, p);
    }
    GoPutUnder(top, top.root, oldRoot, oldTree, q);
    if !(newRoot <= q) {
      GoDetachOther(ns.root, ns.root.root, newRoot, q);
    }
  }

  const OLD_ROOT: Path := ["mnt", "oldroot"]

  /** The namespace after Prepare and PivotRoot. */
  function Pivoted(ns: NS, newRoot: Path, runBound: bool): NS
    requires PivotAllowed(MakePrivate(Prepared(ns, newRoot, true, runBound), []), newRoot, OLD_ROOT)
  {
    Pivot(MakePrivate(Prepared(ns, newRoot, true, runBound), []), newRoot, OLD_ROOT)
  }

  /** The whole sequence on any starting table: it is allowed, tells no peer, and ends with
      /proc, /sys and the host's /dev in place under the new "/", and with the host's own tree
      unchanged under /mnt/oldroot. */
  lemma PivotedSystem(ns: NS, newRoot: Path, runBound: bool, q: Path)
    requires Sound(ns) && newRoot != [] && ns.above == Rootfs(false)
    ensures PivotAllowed(MakePrivate(Prepared(ns, newRoot, true, runBound), []), newRoot, OLD_ROOT)
    ensures var after, start := Pivoted(ns, newRoot, runBound), SelfBound(ns, newRoot, true);
            && AllPrivate(after.root) && after.events == ns.events
            && PlaceOf(Lookup(after, ["proc"] + q)) == Place(Made(start.step + 1), Proc, [], q)
            && PlaceOf(Lookup(after, ["sys"] + q)) == Place(Made(start.step + 2), Sysfs, [], q)
            && (!(newRoot <= ["dev"] + q) ==>
                  Seen(Lookup(after, ["dev"] + q)) == Seen(Lookup(ns, ["dev"] + q)))
            && (!(newRoot <= q) ==>
                  PlaceOf(Lookup(after, ["mnt", "oldroot"] + q)) == PlaceOf(Lookup(ns, q)))
  {
    var r := Prepared(ns, newRoot, true, runBound);
    var b := MakePrivate(r, []);
    PreparedAllowsPivot(ns, newRoot, OLD_ROOT, runBound);
    PreparedQuiet(ns, newRoot, runBound);
    PivotedPrivate(r, newRoot);
    PreparedNoShadowing(ns, newRoot, true, runBound, q);
    PivotedEssential(r, newRoot, "proc", q);
    PivotedEssential(r, newRoot, "sys", q);
    PivotedEssential(r, newRoot, "dev", q);
    PivotKeepsBothTrees(b, newRoot, OLD_ROOT, [], q);
    if !(newRoot <= q) {
      MakePrivateMovesNothing(r, [], q);
      forall i | 0 <= i < |ESSENTIALS| ensures !(newRoot + [Target(ESSENTIALS[i])] <= q) {
        assert newRoot <= newRoot + [Target(ESSENTIALS[i])];
      }
      SetupElsewhere(SelfBound(ns, newRoot, true), newRoot, ESSENTIALS, runBound, q);
      SelfBoundElsewhere(ns, newRoot, true, q);
    }
  }

  lemma PivotedPrivate(r: NS, newRoot: Path)
    requires AllPrivate(r.root) && PivotAllowed(MakePrivate(r, []), newRoot, OLD_ROOT)
    ensures AllPrivate(Pivot(MakePrivate(r, []), newRoot, OLD_ROOT).root)
  {
    var b := MakePrivate(r, []);
    PrivatizeAtPrivate(r.root, r.root.root, []);
    GoPrivate(b.root, b.root.root, newRoot);
    DetachPrivate(b.root, b.root.root, newRoot);
    var top := Lookup(b, newRoot).mount;
    PutPrivate(top, top.root, OLD_ROOT, Detach(b.root, b.root.root, newRoot));
  }

  /** A top-level name other than mnt is found where the new root had it. */
  lemma PivotedEssential(r: NS, newRoot: Path, name: string, q: Path)
    requires PivotAllowed(MakePrivate(r, []), newRoot, OLD_ROOT) && name != "mnt"
    ensures PlaceOf(Lookup(Pivot(MakePrivate(r, []), newRoot, OLD_ROOT), [name] + q))
            == PlaceOf(Lookup(r, newRoot + [name] + q))
  {
    var p := [name] + q;
    assert p[0] != OLD_ROOT[0];
    PivotKeepsBothTrees(MakePrivate(r, []), newRoot, OLD_ROOT, p, []);
    assert newRoot + p == newRoot + [name] + q;
    MakePrivateMovesNothing(r, [], newRoot + p);
  }
}
