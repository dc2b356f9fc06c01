/**
 runPivot: one long sequence of steps, each of which may fail, with deferred clean-up.
 */
module PivotRun {
  import opened WatchdogDevice

  datatype Config = Config(
    dryRun: bool, contain: bool, force: bool, systemdMode: bool, noInitCoord: bool,
    noRootfsTmpfs: bool, tailscale: bool, watchdogTimeout: int, logPersist: bool, keepOldRoot: bool)

  /** What has to succeed before anything is taken down. */
  datatype Check =
    | WorkDir | MemInfo | Space | RootfsBuilt | EntrypointSurvives | SshUsable | ConfigWritten
    | BinaryCopied | ResolvConf | TailscaleAuth | WatchdogAvailable | LogPersistWritable

  datatype Event =
    | Passed(check: Check)
    | ServicesStopped
    | ProcessesTerminated
    | MountsPrepared
    | RootPivoted
    | OldRootReleased

  /** What goes wrong on a run, besides the watchdog's own failures. Preparing the mounts fails
      before the host's namespace is left, while its mounts still propagate, or later. */
  datatype Trouble =
    | NotRoot
    | Failing(check: Check)
    | UnshareFails | PrivateFails | PrepareFails
    | OldRootDirFails | PivotFails | ExecFails

  /** A mount on the work directory in the host's namespace: found there, or made by the run. */
  datatype WorkMount = Leftover | OwnTmpfs

  datatype Deferred = UnmountTmpfs | CancelAuth | DisarmWatchdog | UnlockThread

  datatype End = Returned | Replaced

  /** The checks that every run makes, in order. */
  const COMMON: seq<Check> :=
    [WorkDir, MemInfo, Space, RootfsBuilt, EntrypointSurvives, SshUsable, ConfigWritten, BinaryCopied, ResolvConf]

  /** Those that a configuration asks for. */
  function Optional(cfg: Config): seq<Check> {
    (if cfg.tailscale then [TailscaleAuth] else [])
    + (if cfg.watchdogTimeout > 0 then [WatchdogAvailable] else [])
    + (if cfg.logPersist then [LogPersistWritable] else [])
  }

  /** All checks of a run, in the order they are made. */
  function Required(cfg: Config): seq<Check> {
    COMMON + Optional(cfg)
  }

  function Passes(checks: seq<Check>): (es: seq<Event>)
    ensures |es| == |checks| && forall i :: 0 <= i < |es| ==> es[i] == Passed(checks[i])
  {
    seq(|checks|, i requires 0 <= i < |checks| => Passed(checks[i]))
  }

  predicate Destructive(e: Event) {
    !e.Passed?
  }

  /** Before the first step that takes anything down, every required check has passed, in
      order; and stopping, terminating, preparing and pivoting come in that order. */
  predicate Orderly(cfg: Config, es: seq<Event>) {
    var passes := Passes(Required(cfg));
    if |es| <= |passes| then es <= passes
    else passes <= es && Downward(cfg, es[|passes|..])
  }

  /** Once the mounts are prepared: the pivot, then the old root goes unless it is kept. */
  function Switched(cfg: Config): seq<Event> {
    [MountsPrepared, RootPivoted] + if cfg.keepOldRoot then [] else [OldRootReleased]
  }

  /** The steps after the checks. */
  predicate Downward(cfg: Config, es: seq<Event>) {
    if cfg.systemdMode then es <= Switched(cfg)
    else
      || es <= [ProcessesTerminated] + Switched(cfg)
      || (!cfg.noInitCoord && es <= [ServicesStopped, ProcessesTerminated] + Switched(cfg))
  }

  function Down(cfg: Config, stopped: bool): seq<Event> {
    if cfg.systemdMode then []
    else if stopped then [ServicesStopped, ProcessesTerminated] else [ProcessesTerminated]
  }

  lemma RunIsOrderly(cfg: Config, es: seq<Event>, stopped: bool, tail: seq<Event>)
    requires es == Passes(Required(cfg)) + Down(cfg, stopped) + tail
    requires tail <= Switched(cfg) && (cfg.noInitCoord ==> !stopped)
    ensures Orderly(cfg, es)
  {
    var n, all := |Passes(Required(cfg))|, Switched(cfg);
    assert es[..n] == Passes(Required(cfg)) && es[n..] == Down(cfg, stopped) + tail;
    assert tail == all[..|tail|];
  }

  /** What a run's events show. */
  lemma WhatHappened(cfg: Config, es: seq<Event>, stopped: bool, tail: seq<Event>)
    requires es == Passes(Required(cfg)) + Down(cfg, stopped) + tail
    requires tail <= Switched(cfg) && (stopped ==> !cfg.systemdMode && !cfg.noInitCoord)
    ensures Orderly(cfg, es)
    ensures ProcessesTerminated in es <==> !cfg.systemdMode
    ensures ServicesStopped in es <==> stopped
    ensures MountsPrepared in es || RootPivoted in es ==> tail != []
    ensures tail == Switched(cfg) ==> RootPivoted in es && (OldRootReleased in es <==> !cfg.keepOldRoot)
  {
    var all := Switched(cfg);
    RunIsOrderly(cfg, es, stopped, tail);
    assert forall e :: e in es <==> e in Passes(Required(cfg)) || e in Down(cfg, stopped) || e in tail;
    assert forall e :: e in Passes(Required(cfg)) ==> e.Passed?;
    assert forall e :: e in tail ==> e in all;
    SwitchedHas(cfg);
    DownHas(cfg, stopped);
  }

  lemma SwitchedHas(cfg: Config)
    ensures forall e :: e in Switched(cfg) <==>
                        e == MountsPrepared || e == RootPivoted || (e == OldRootReleased && !cfg.keepOldRoot)
  {
    assert Switched(cfg)[0] == MountsPrepared && Switched(cfg)[1] == RootPivoted;
    assert !cfg.keepOldRoot ==> Switched(cfg)[2] == OldRootReleased;
  }

  lemma DownHas(cfg: Config, stopped: bool)
    ensures forall e :: e in Down(cfg, stopped) <==>
                        !cfg.systemdMode && (e == ProcessesTerminated || (e == ServicesStopped && stopped))
  {
    assert !cfg.systemdMode && stopped ==> Down(cfg, stopped)[0] == ServicesStopped && Down(cfg, stopped)[1] == ProcessesTerminated;
    assert !cfg.systemdMode && !stopped ==> Down(cfg, stopped)[0] == ProcessesTerminated;
  }

  /** Which checks are made, and in which order: room before the build, the build before what
      is staged in it, all of it before the optional ones. */
  lemma RequiredIff(cfg: Config, c: Check)
    ensures c in Required(cfg) <==>
            match c
            case TailscaleAuth => cfg.tailscale
            case WatchdogAvailable => cfg.watchdogTimeout > 0
            case LogPersistWritable => cfg.logPersist
            case _ => true
    ensures forall i, j :: 0 <= i < j < |Required(cfg)| ==> Rank(Required(cfg)[i]) < Rank(Required(cfg)[j])
  {
    CommonRank(c);
    OptionalIff(cfg, c);
    forall i, j | 0 <= i < j < |Required(cfg)| ensures Rank(Required(cfg)[i]) < Rank(Required(cfg)[j]) {
      if i < 9 {
        CommonAt(i);
      }
      if j < 9 {
        CommonAt(j);
      } else {
        OptionalRank(cfg, j - 9);
      }
      if i >= 9 {
        OptionalRank(cfg, i - 9);
        assert Required(cfg)[i] == Optional(cfg)[i-9] && Required(cfg)[j] == Optional(cfg)[j-9];
      }
    }
  }

  lemma OptionalIff(cfg: Config, c: Check)
    ensures c in Optional(cfg) <==>
            match c
            case TailscaleAuth => cfg.tailscale
            case WatchdogAvailable => cfg.watchdogTimeout > 0
            case LogPersistWritable => cfg.logPersist
            case _ => false
  {
  }

  lemma OptionalRank(cfg: Config, i: nat)
    requires i < |Optional(cfg)|
    ensures Rank(Optional(cfg)[i]) >= 9
    ensures forall j :: i < j < |Optional(cfg)| ==> Rank(Optional(cfg)[i]) < Rank(Optional(cfg)[j])
  {
  }

  lemma CommonAt(i: nat)
    requires i < 9
    ensures |COMMON| == 9 && Rank(COMMON[i]) == i
  {
  }

  lemma CommonRank(c: Check)
    ensures c in COMMON <==> Rank(c) < 9
  {
    if Rank(c) < 9 {
      CommonAt(Rank(c));
      assert COMMON[Rank(c)] == c;
    }
  }

  function Rank(c: Check): nat {
    match c
    case WorkDir => 0
    case MemInfo => 1
    case Space => 2
    case RootfsBuilt => 3
    case EntrypointSurvives => 4
    case SshUsable => 5
    case ConfigWritten => 6
    case BinaryCopied => 7
    case ResolvConf => 8
    case TailscaleAuth => 9
    case WatchdogAvailable => 10
    case LogPersistWritable => 11
  }

  /** No service is stopped and no process terminated unless every check has passed before. */
  lemma NothingDownBeforeChecks(cfg: Config, es: seq<Event>, i: nat, c: Check)
    requires Orderly(cfg, es) && i < |es| && Destructive(es[i]) && c in Required(cfg)
    ensures Passed(c) in es[..i]
  {
    var passes := Passes(Required(cfg));
    var k :| 0 <= k < |Required(cfg)| && Required(cfg)[k] == c;
    assert passes[k] == Passed(c);
    forall j | 0 <= j < |es| && j < |passes| ensures es[j].Passed? {
      assert es[j] == passes[j];
    }
    assert es[..i][k] == es[k];
  }

  class Host {
    var events: seq<Event>
    var workMounts: seq<WorkMount>
    var unshared: bool
    /** Left for a new namespace whose mounts still propagate to the host's. */
    var stillShared: bool
    /** Unlocked from its thread, the run has gone on on one that is in the host's namespace. */
    var back: bool
    var deferred: seq<Deferred>
    const dog: Watchdog
    const troubles: set<Trouble>
    /** There is an init system to talk to. */
    const coordinates: bool

    constructor (dog: Watchdog, workMounts: seq<WorkMount>, troubles: set<Trouble>, coordinates: bool)
      ensures this.dog == dog && this.workMounts == workMounts
      ensures this.troubles == troubles && this.coordinates == coordinates
      ensures events == [] && deferred == [] && AtHome()
    {
      this.dog := dog;
      this.workMounts := workMounts;
      this.troubles := troubles;
      this.coordinates := coordinates;
      events, deferred := [], [];
      unshared, stillShared, back := false, false, false;
    }

    /** On a thread that never left the host's namespace. */
    predicate AtHome()
      reads this
    {
      !unshared && !stillShared && !back
    }

    /** What is unmounted now stays mounted on the host. */
    predicate Apart()
      reads this
    {
      unshared && !stillShared && !back
    }

    /** The checks, the watchdog's aside, find nothing wrong. */
    ghost predicate Clear(cfg: Config)
    {
      forall c :: c in Required(cfg) && c != WatchdogAvailable ==> Failing(c) !in troubles
    }

    /** k checks have passed so far. */
    ghost predicate At(cfg: Config, k: nat)
      reads this
    {
      k <= |Required(cfg)| && events == Passes(Required(cfg))[..k]
    }

    method Record(cfg: Config, c: Check, ghost k: nat)
      requires At(cfg, k) && k < |Required(cfg)| && Required(cfg)[k] == c
      modifies this`events
      ensures At(cfg, k + 1)
    {
      events := events + [Passed(c)];
    }

    method Try(cfg: Config, c: Check, ghost k: nat) returns (ok: bool)
      requires At(cfg, k) && k < |Required(cfg)| && Required(cfg)[k] == c
      modifies this`events
      ensures At(cfg, if ok then k + 1 else k)
      ensures ok <==> Failing(c) !in troubles
    {
      ok := Failing(c) !in troubles;
      if ok {
        Record(cfg, c, k);
      }
    }

    method Do(e: Event)
      modifies this`events
      ensures events == old(events) + [e]
    {
      events := events + [e];
    }

    /** What is deferred matches what there is to undo. */
    ghost predicate Pending(start: seq<WorkMount>)
      reads this, dog
    {
      && (deferred == [] || deferred[0] != UnmountTmpfs ==> workMounts == start)
      && (deferred != [] && deferred[0] == UnmountTmpfs ==> workMounts == start + [OwnTmpfs])
      && (forall i :: 0 < i < |deferred| ==> deferred[i] != UnmountTmpfs)
      && (forall i, j :: 0 <= i < j < |deferred| ==> deferred[i] != deferred[j])
      && (DisarmWatchdog in deferred ==> dog.Counting())
      && (DisarmWatchdog !in deferred ==> dog.Idle())
    }

    /** Unmounting acts in the namespace of the thread it runs on, and propagates from there. */
    method Unmount()
      modifies this`workMounts
      ensures workMounts == if Apart() || old(workMounts) == [] then old(workMounts)
                            else old(workMounts)[..|old(workMounts)|-1]
    {
      if !Apart() && workMounts != [] {
        workMounts := workMounts[..|workMounts|-1];
      }
    }

    /** Deferred calls run last in, first out: the thread is unlocked before the unmount. */
    method RunDeferred(ghost start: seq<WorkMount>)
      requires Pending(start) && !back
      modifies this`deferred, this`workMounts, this`back, dog
      ensures deferred == [] && dog.Idle()
      ensures dog.failures == old(dog.failures) && dog.opens == old(dog.opens) && dog.loads == old(dog.loads)
      ensures back ==> unshared && UnlockThread in old(deferred)
      ensures workMounts == if Apart() && old(deferred) != [] && old(deferred)[0] == UnmountTmpfs
                            then start + [OwnTmpfs] else start
    {
      ghost var all := deferred;
      while deferred != []
        invariant deferred <= all
        invariant forall i :: 0 < i < |all| ==> all[i] != UnmountTmpfs
        invariant forall i, j :: 0 <= i < j < |all| ==> all[i] != all[j]
        invariant if DisarmWatchdog in deferred then dog.Counting() else dog.Idle()
        invariant back ==> unshared && UnlockThread in all
        invariant dog.failures == old(dog.failures) && dog.opens == old(dog.opens) && dog.loads == old(dog.loads)
        invariant workMounts == if all != [] && all[0] == UnmountTmpfs && (deferred != [] || Apart())
                                then start + [OwnTmpfs] else start
        decreases |deferred|
      {
        var n := |deferred| - 1;
        var d := deferred[n];
        assert d == all[n];
        deferred := deferred[..n];
        match d {
          case UnmountTmpfs =>
            assert n == 0;
            Unmount();
          case DisarmWatchdog =>
            dog.Disarm();
          case UnlockThread =>
            // Namespaces belong to threads, and the scheduler may pick another one.
            var moves: bool := *;
            back := moves && unshared;
          case CancelAuth =>
        }
      }
    }

    static predicate NeedsTmpfs(cfg: Config, found: seq<WorkMount>) {
      !cfg.noRootfsTmpfs && found == []
    }

    /** What is on the work directory while the run is under way. */
    static function WithRoom(cfg: Config, found: seq<WorkMount>): seq<WorkMount> {
      if NeedsTmpfs(cfg, found) then found + [OwnTmpfs] else found
    }

    /** The work directory gets a tmpfs, unless it is used as it is or already is a mount. */
    method MakeRoom(cfg: Config) returns (ok: bool)
      requires At(cfg, 2) && deferred == [] && dog.Idle()
      modifies this`events, this`workMounts, this`deferred
      ensures At(cfg, if ok then 3 else 2)
      ensures deferred == [] || deferred == [UnmountTmpfs]
      ensures deferred == [] ==> workMounts == old(workMounts)
      ensures deferred != [] ==> workMounts == old(workMounts) + [OwnTmpfs] && ok
      ensures ok ==> (deferred != [] <==> NeedsTmpfs(cfg, old(workMounts)))
      ensures ok <==> Failing(Space) !in troubles
    {
      if cfg.noRootfsTmpfs || workMounts != [] {
        ok := Try(cfg, Space, 2);
      } else {
        if Failing(Space) in troubles {
          return false;
        }
        workMounts := workMounts + [OwnTmpfs];
        deferred := deferred + [UnmountTmpfs];
        Record(cfg, Space, 2);
        ok := true;
      }
    }

    /** The checks that every run makes. */
    method CommonChecks(cfg: Config) returns (ok: bool)
      requires At(cfg, 0) && deferred == [] && dog.Idle()
      modifies this`events, this`workMounts, this`deferred
      ensures deferred == [] || deferred == [UnmountTmpfs]
      ensures deferred == [] ==> workMounts == old(workMounts)
      ensures deferred != [] ==> workMounts == old(workMounts) + [OwnTmpfs]
      ensures ok ==> (deferred != [] <==> NeedsTmpfs(cfg, old(workMounts)))
      ensures if ok then At(cfg, 9) else exists k :: At(cfg, k)
      ensures ok <==> forall c :: c in COMMON ==> Failing(c) !in troubles
    {
      var common := COMMON;
      assert common <= Required(cfg);
      ok := Try(cfg, common[0], 0);
      if !ok { return; }
      ok := Try(cfg, common[1], 1);
      if !ok { return; }
      ok := MakeRoom(cfg);
      if !ok { return; }
      for i := 3 to 9
        invariant At(cfg, i)
        invariant forall j :: 0 <= j < i ==> Failing(common[j]) !in troubles
        invariant deferred == [] || deferred == [UnmountTmpfs]
        invariant deferred == [] ==> workMounts == old(workMounts)
        invariant deferred != [] ==> workMounts == old(workMounts) + [OwnTmpfs]
        invariant deferred != [] <==> NeedsTmpfs(cfg, old(workMounts))
      {
        ok := Try(cfg, common[i], i);
        if !ok { return; }
      }
      ok := true;
    }

    /** The checks that some configurations ask for. */
    method OptionalChecks(cfg: Config) returns (ok: bool)
      requires At(cfg, 9) && dog.Idle()
      modifies this`events, this`deferred, dog
      ensures dog.Idle() && dog.failures >= old(dog.failures)
      ensures ok <==>
                && (cfg.tailscale ==> Failing(TailscaleAuth) !in troubles)
                && (cfg.logPersist ==> cfg.keepOldRoot && Failing(LogPersistWritable) !in troubles)
                && dog.failures == old(dog.failures)
      ensures dog.opens >= old(dog.opens) + if ok && cfg.watchdogTimeout > 0 then 1 else 0
      ensures deferred == old(deferred) || deferred == old(deferred) + [CancelAuth]
      ensures if ok then At(cfg, |Required(cfg)|) else exists k :: At(cfg, k)
    {
      ghost var k := 9;
      if cfg.tailscale {
        deferred := deferred + [CancelAuth];
        ok := Try(cfg, TailscaleAuth, k);
        if !ok { return; }
        k := k + 1;
      }
      if cfg.watchdogTimeout > 0 {
        ok := dog.EnsureAvailable();
        assert At(cfg, k);
        if !ok { return; }
        Record(cfg, WatchdogAvailable, k);
        k := k + 1;
      }
      if cfg.logPersist {
        if !cfg.keepOldRoot {
          return false;
        }
        ok := Try(cfg, LogPersistWritable, k);
        if !ok { return; }
        k := k + 1;
      }
      ok := true;
    }

    lemma ClearIs(cfg: Config)
      ensures Clear(cfg) <==>
                && (forall c :: c in COMMON ==> Failing(c) !in troubles)
                && (cfg.tailscale ==> Failing(TailscaleAuth) !in troubles)
                && (cfg.logPersist ==> Failing(LogPersistWritable) !in troubles)
    {
      forall c ensures c in Required(cfg) <==> c in COMMON || c in Optional(cfg) {
      }
      forall c | c in Optional(cfg)
        ensures c == WatchdogAvailable || (c == TailscaleAuth && cfg.tailscale) || (c == LogPersistWritable && cfg.logPersist)
      {
        OptionalIff(cfg, c);
      }
      OptionalIff(cfg, TailscaleAuth);
      OptionalIff(cfg, LogPersistWritable);
      CommonRank(WatchdogAvailable);
    }

    /** Everything that can be refused while the old system is untouched. */
    method Preflight(cfg: Config) returns (ok: bool)
      requires At(cfg, 0) && deferred == [] && dog.Idle()
      modifies this, dog
      ensures dog.Idle() && (old(AtHome()) ==> AtHome()) && dog.failures >= old(dog.failures)
      ensures ok <==> Clear(cfg) && (cfg.logPersist ==> cfg.keepOldRoot) && dog.failures == old(dog.failures)
      ensures dog.opens >= old(dog.opens) + if ok && cfg.watchdogTimeout > 0 then 1 else 0
      ensures Pending(old(workMounts)) && DisarmWatchdog !in deferred && UnlockThread !in deferred
      ensures ok ==> (deferred != [] && deferred[0] == UnmountTmpfs <==> NeedsTmpfs(cfg, old(workMounts)))
      ensures if ok then At(cfg, |Required(cfg)|) else exists k :: At(cfg, k)
    {
      ok := CommonChecks(cfg);
      ClearIs(cfg);
      if !ok { return; }
      ok := OptionalChecks(cfg);
    }

    /** Services and processes go; failures there are only logged. */
    method TakeDown(cfg: Config) returns (stopped: bool)
      requires At(cfg, |Required(cfg)|)
      modifies this`events
      ensures events == Passes(Required(cfg)) + Down(cfg, stopped)
      ensures stopped <==> !cfg.systemdMode && !cfg.noInitCoord && coordinates
    {
      stopped := false;
      if !cfg.systemdMode {
        if !cfg.noInitCoord && coordinates {
          Do(ServicesStopped);
          stopped := true;
        }
        Do(ProcessesTerminated);
      }
    }

    /** Arming, with the disarm deferred. */
    method Arm(cfg: Config, ghost start: seq<WorkMount>) returns (ok: bool)
      requires Pending(start) && DisarmWatchdog !in deferred
      modifies this`deferred, dog
      ensures Pending(start)
      ensures dog.failures >= old(dog.failures) && (ok <==> dog.failures == old(dog.failures))
      ensures dog.opens >= old(dog.opens) + if cfg.watchdogTimeout > 0 then 1 else 0
      ensures deferred == old(deferred) + if ok && cfg.watchdogTimeout > 0 then [DisarmWatchdog] else []
    {
      ok := true;
      if cfg.watchdogTimeout > 0 {
        var seconds;
        ok, seconds := dog.ArmPrePivot(cfg.watchdogTimeout);
        if ok {
          deferred := deferred + [DisarmWatchdog];
        }
      }
    }

    /** Nothing goes wrong once the old system is down. */
    ghost predicate Smooth()
    {
      troubles !! {UnshareFails, PrivateFails, PrepareFails, OldRootDirFails, PivotFails, ExecFails}
    }

    /** The mounts, the pivot, and replacing the process. Releasing the old root may fail
        without consequence. */
    method Switch(cfg: Config) returns (end: End, ghost tail: seq<Event>)
      requires AtHome()
      modifies this`events, this`unshared, this`stillShared
      ensures events == old(events) + tail && tail <= Switched(cfg)
      ensures (tail != [] ==> Apart()) && (stillShared ==> unshared)
      ensures end == Replaced ==> tail == Switched(cfg)
      ensures end == Replaced <==> Smooth()
    {
      end, tail := Returned, [];
      if UnshareFails in troubles { return; }
      unshared := true;
      if PrivateFails in troubles {
        stillShared := true;
        return;
      }
      if PrepareFails in troubles { return; }
      Do(MountsPrepared);
      tail := [MountsPrepared];
      if OldRootDirFails in troubles || PivotFails in troubles { return; }
      Do(RootPivoted);
      tail := [MountsPrepared, RootPivoted];
      if !cfg.keepOldRoot {
        Do(OldRootReleased);
        tail := Switched(cfg);
      }
      if ExecFails in troubles { return; }
      end := Replaced;
    }

    /** The watchdog, then the switch with the thread locked. */
    method ArmAndSwitch(cfg: Config, ghost start: seq<WorkMount>) returns (end: End, ghost tail: seq<Event>)
      requires Pending(start) && DisarmWatchdog !in deferred && UnlockThread !in deferred && AtHome()
      modifies this`events, this`unshared, this`stillShared, this`deferred, dog
      ensures stillShared ==> unshared
      ensures end == Returned ==> Pending(start)
      ensures deferred != [] && deferred[0] == UnmountTmpfs <==> old(deferred) != [] && old(deferred)[0] == UnmountTmpfs
      ensures end == Replaced ==> if cfg.watchdogTimeout > 0 then dog.Counting() else dog.Idle()
      ensures events == old(events) + tail && tail <= Switched(cfg)
      ensures tail != [] ==> Apart()
      ensures end == Replaced ==> tail == Switched(cfg)
      ensures dog.failures >= old(dog.failures)
      ensures dog.opens >= old(dog.opens) + if cfg.watchdogTimeout > 0 then 1 else 0
      ensures end == Replaced <==> Smooth() && dog.failures == old(dog.failures)
    {
      end, tail := Returned, [];
      var ok := Arm(cfg, start);
      if !ok {
        return;
      }
      deferred := deferred + [UnlockThread];
      end, tail := Switch(cfg);
    }

    /** What follows the last check. */
    method Commit(cfg: Config, ghost start: seq<WorkMount>) returns (end: End)
      requires At(cfg, |Required(cfg)|) && Pending(start) && DisarmWatchdog !in deferred && UnlockThread !in deferred
      requires AtHome()
      modifies this`events, this`unshared, this`stillShared, this`deferred, dog
      ensures stillShared ==> unshared
      ensures Orderly(cfg, events)
      ensures end == Returned ==> Pending(start)
      ensures deferred != [] && deferred[0] == UnmountTmpfs <==> old(deferred) != [] && old(deferred)[0] == UnmountTmpfs
      ensures MountsPrepared in events || RootPivoted in events ==> unshared && !stillShared
      ensures end == Replaced ==>
                && RootPivoted in events && (if cfg.watchdogTimeout > 0 then dog.Counting() else dog.Idle())
                && (OldRootReleased in events <==> !cfg.keepOldRoot)
      ensures dog.failures >= old(dog.failures)
      ensures dog.opens >= old(dog.opens) + if cfg.watchdogTimeout > 0 then 1 else 0
      ensures end == Replaced <==> Smooth() && dog.failures == old(dog.failures)
      ensures ProcessesTerminated in events <==> !cfg.systemdMode
      ensures ServicesStopped in events <==> !cfg.systemdMode && !cfg.noInitCoord && coordinates
    {
      var stopped := TakeDown(cfg);
      ghost var tail;
      end, tail := ArmAndSwitch(cfg, start);
      WhatHappened(cfg, events, stopped, tail);
    }

    /** The configuration lets a pivot happen. */
    static predicate Wanted(cfg: Config) {
      !cfg.dryRun && !cfg.contain && cfg.force && (cfg.logPersist ==> cfg.keepOldRoot)
    }

    method Body(cfg: Config) returns (end: End)
      requires events == [] && deferred == [] && AtHome() && dog.Idle()
      modifies this, dog
      ensures Orderly(cfg, events)
      ensures !back && (stillShared ==> unshared)
      ensures end == Returned ==> Pending(old(workMounts))
      ensures end == Returned && unshared ==>
                (deferred != [] && deferred[0] == UnmountTmpfs <==> NeedsTmpfs(cfg, old(workMounts)))
      ensures end == Replaced ==> workMounts == WithRoom(cfg, old(workMounts))
      ensures MountsPrepared in events || RootPivoted in events ==> unshared && !stillShared
      ensures end == Replaced ==>
                && RootPivoted in events && (if cfg.watchdogTimeout > 0 then dog.Counting() else dog.Idle())
                && (OldRootReleased in events <==> !cfg.keepOldRoot)
                && (ProcessesTerminated in events <==> !cfg.systemdMode)
                && (ServicesStopped in events <==> !cfg.systemdMode && !cfg.noInitCoord && coordinates)
                && (cfg.watchdogTimeout > 0 ==> dog.opens >= old(dog.opens) + 2)
      ensures end == Replaced <==>
                Wanted(cfg) && NotRoot !in troubles && Clear(cfg) && Smooth() && dog.failures == old(dog.failures)
      ensures cfg.dryRun || cfg.contain || !cfg.force || NotRoot in troubles ==>
                && deferred == [] && Untouched(old(workMounts))
                && dog.opens == old(dog.opens) && dog.loads == old(dog.loads)
      ensures cfg.systemdMode ==> ServicesStopped !in events && ProcessesTerminated !in events
    {
      end := Returned;
      if cfg.dryRun || cfg.contain {
        return;
      }
      if NotRoot in troubles || !cfg.force {
        return;
      }
      var ok := Preflight(cfg);
      if !ok {
        return;
      }
      end := Commit(cfg, old(workMounts));
    }

    /** Nothing has been done. */
    ghost predicate Untouched(start: seq<WorkMount>)
      reads this
    {
      events == [] && workMounts == start && AtHome()
    }

    /** All runs. Nothing is taken down before every check has passed; a run that returns never
        leaves the watchdog armed; and it leaves the host's mounts on the work directory exactly
        as they were, unless it unmounts in a namespace apart from the host's: then a tmpfs that
        it mounted stays. The process is replaced exactly when that is wanted and nothing goes
        wrong; a dry run, a contained one and one without --force do nothing. */
    method RunPivot(cfg: Config) returns (end: End)
      requires events == [] && deferred == [] && AtHome() && dog.Idle()
      modifies this, dog
      ensures Orderly(cfg, events)
      ensures end == Returned ==> dog.Idle()
      ensures end == Returned ==>
                workMounts == if Apart() then WithRoom(cfg, old(workMounts)) else old(workMounts)
      ensures end == Replaced ==>
                workMounts == old(workMounts) + if !cfg.noRootfsTmpfs && old(workMounts) == [] then [OwnTmpfs] else []
      ensures (back || stillShared ==> unshared) && (back ==> end == Returned)
      ensures MountsPrepared in events || RootPivoted in events ==> unshared && !stillShared
      ensures end == Replaced ==>
                && RootPivoted in events && (if cfg.watchdogTimeout > 0 then dog.Counting() else dog.Idle())
                && (OldRootReleased in events <==> !cfg.keepOldRoot)
                && (ProcessesTerminated in events <==> !cfg.systemdMode)
                && (ServicesStopped in events <==> !cfg.systemdMode && !cfg.noInitCoord && coordinates)
                && (cfg.watchdogTimeout > 0 ==> dog.opens >= old(dog.opens) + 2)
      ensures end == Replaced <==>
                && !cfg.dryRun && !cfg.contain && cfg.force && NotRoot !in troubles
                && (cfg.logPersist ==> cfg.keepOldRoot)
                && (forall c :: c in Required(cfg) && c != WatchdogAvailable ==> Failing(c) !in troubles)
                && troubles !! {UnshareFails, PrivateFails, PrepareFails, OldRootDirFails, PivotFails, ExecFails}
                && dog.failures == old(dog.failures)
      ensures cfg.dryRun || cfg.contain || !cfg.force || NotRoot in troubles ==>
                && end == Returned && events == [] && workMounts == old(workMounts) && !unshared
                && dog.opens == old(dog.opens) && dog.loads == old(dog.loads)
      ensures cfg.systemdMode ==> ServicesStopped !in events && ProcessesTerminated !in events
    {
      end := Body(cfg);
      if end == Returned {
        RunDeferred(old(workMounts));
      }
    }
  }
}
