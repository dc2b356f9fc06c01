/**
 Build: layers applied in order to one target directory, with their configurations merged, and
 what deduplicating the layer list does to the outcome.
 */
module Building {
  import opened Wrappers
  import opened Paths
  import opened FileTree
  import opened Resolution
  import opened HostDisk
  import opened Extraction
  import opened Changeset
  import opened Loaders
  import opened CopyContainment
  import opened LoaderAgreement
  import opened ImageConfigs
  import opened KeepLasts
  import opened Layers
  import opened Sequencing

  /** What loading a layer yields. Registries, archives and disks are behind this. */
  datatype Loaded =
    | LoadedImage(tars: seq<seq<Header>>, config: Option<ImageConfig>)
    | LoadedTarball(tar: seq<Header>)
    | LoadedDirectory(kids: seq<Kid>)
    | LoadFailed(errno: Errno)

  datatype BuildResult = BuildResult(layerCount: nat, config: Option<ImageConfig>)

  datatype Outcome = Outcome(fs: FS, errno: Errno, result: BuildResult)

  /** extractLayer, once the source is loaded. */
  function ExtractLoaded(fs: FS, root: Path, l: Loaded): Ret {
    match l
    case LoadedImage(tars, _) =>
      var r := MkdirAll(fs, root);
      if r.errno != OK then r else ExtractLayers(r.fs, root, tars)
    case LoadedTarball(tar) =>
      var r := MkdirAll(fs, root);
      if r.errno != OK then r else ExtractAll(r.fs, root, tar)
    case LoadedDirectory(kids) => CopyTree(fs, root, kids)
    case LoadFailed(e) => Ret(fs, if e == OK then ENOENT else e)
  }

  function LoadedConfig(l: Loaded): Option<ImageConfig> {
    match l
    case LoadedImage(_, Some(c)) => Some(ReadImageConfig(c))
    case _ => None
  }

  /** The loop of Build, from a given state on. */
  function BuildFrom(fs: FS, root: Path, load: Layer -> Loaded, layers: seq<Layer>, sofar: BuildResult): Outcome
    decreases |layers|
  {
    if layers == [] then Outcome(fs, OK, sofar)
    else
      var l := load(layers[0]);
      var r := ExtractLoaded(fs, root, l);
      if r.errno != OK then Outcome(r.fs, r.errno, BuildResult(0, None))
      else
        BuildFrom(r.fs, root, load, layers[1..],
                  BuildResult(sofar.layerCount + 1, MergeImageConfig(sofar.config, LoadedConfig(l))))
  }

  function Build(fs: FS, root: Path, load: Layer -> Loaded, layers: seq<Layer>): Outcome {
    var r := MkdirAll(fs, root);
    if r.errno != OK then Outcome(r.fs, r.errno, BuildResult(0, None))
    else BuildFrom(r.fs, root, load, layers, BuildResult(0, None))
  }

  // ----- The program -----

  /** What an image or a tarball needs to be extracted as its function says: a real target that
      its whiteouts do not reach out of. Copying a directory needs nothing. */
  ghost predicate Orderly(fs: FS, root: Path, l: Loaded) {
    match l
    case LoadedImage(tars, _) =>
      var made := MkdirAll(fs, root).fs;
      GoodRoot(made, root) && LayersStay(made, root, tars)
    case LoadedTarball(tar) =>
      var made := MkdirAll(fs, root).fs;
      GoodRoot(made, root) && StreamStays(made, root, tar)
    case LoadedDirectory(_) => true
    case LoadFailed(_) => true
  }

  ghost predicate BuildOrderly(fs: FS, root: Path, load: Layer -> Loaded, layers: seq<Layer>)
    decreases |layers|
  {
    layers == [] ||
    (&& Orderly(fs, root, load(layers[0]))
     && var r := ExtractLoaded(fs, root, load(layers[0]));
        r.errno == OK ==> BuildOrderly(r.fs, root, load, layers[1..]))
  }

  /** What keeps a layer inside the target: the exact condition on each entry, or on each step
      of a copy. */
  ghost predicate LoadedSafe(fs: FS, root: Path, l: Loaded) {
    match l
    case LoadedImage(tars, _) => LayersStay(fs, root, tars)
    case LoadedTarball(tar) => StreamStays(fs, root, tar)
    case LoadedDirectory(kids) => ListedKids(kids) && DirectoryStays(fs, root, kids)
    case LoadFailed(_) => true
  }

  ghost predicate Safe(fs: FS, root: Path, load: Layer -> Loaded, layers: seq<Layer>)
    decreases |layers|
  {
    layers == [] ||
    (&& LoadedSafe(fs, root, load(layers[0]))
     && var r := ExtractLoaded(fs, root, load(layers[0]));
        r.errno == OK ==> Safe(r.fs, root, load, layers[1..]))
  }

  lemma RootIsThere(fs: FS, root: Path)
    requires GoodRoot(fs, root)
    ensures MkdirAll(fs, root) == Ret(fs, OK)
  {
    RealIsLinkFree(fs, root);
    MkdirAllLiteral(fs, root);
    WithDirsNothing(fs, root);
  }

  /** Every kind of layer stays inside the target. */
  lemma LoadedContained(fs: FS, root: Path, l: Loaded)
    requires GoodRoot(fs, root) && LoadedSafe(fs, root, l)
    ensures var r := ExtractLoaded(fs, root, l);
            GoodRoot(r.fs, root) && Contained(root, fs, r.fs)
  {
    RootIsThere(fs, root);
    match l
    case LoadedImage(tars, _) => LayersKeep(fs, root, tars);
    case LoadedTarball(tar) => StreamKeeps(fs, root, tar);
    case LoadedDirectory(kids) => CopyTreeContained(fs, root, kids);
    case LoadFailed(_) =>
  }

  /** Safe layers leave the target a real directory, so each layer finds what it needs. */
  lemma {:induction false} SafeContained(fs: FS, root: Path, load: Layer -> Loaded, layers: seq<Layer>,
                                         sofar: BuildResult)
    requires GoodRoot(fs, root) && Safe(fs, root, load, layers)
    ensures BuildOrderly(fs, root, load, layers)
    ensures Contained(root, fs, BuildFrom(fs, root, load, layers, sofar).fs)
    decreases |layers|
  {
    if layers != [] {
      var l := load(layers[0]);
      var r := ExtractLoaded(fs, root, l);
      RootIsThere(fs, root);
      LoadedContained(fs, root, l);
      if r.errno == OK {
        var next := BuildResult(sofar.layerCount + 1, MergeImageConfig(sofar.config, LoadedConfig(l)));
        SafeContained(r.fs, root, load, layers[1..], next);
        ContainedTwice(root, fs, r.fs, BuildFrom(r.fs, root, load, layers[1..], next).fs);
      }
    }
  }

  /** At no moment of any layer does anything outside root differ from what it was when the
      layer began. */
  ghost predicate LoadedThroughout(fs: FS, root: Path, l: Loaded) {
    match l
    case LoadedImage(tars, _) => LayersContained(fs, root, tars)
    case LoadedTarball(tar) => StreamContained(fs, root, tar)
    case LoadedDirectory(kids) => ContainedThroughout(fs, root, Visits([], kids))
    case LoadFailed(_) => true
  }

  ghost predicate BuildThroughout(fs: FS, root: Path, load: Layer -> Loaded, layers: seq<Layer>)
    decreases |layers|
  {
    layers == [] ||
    (&& LoadedThroughout(fs, root, load(layers[0]))
     && var r := ExtractLoaded(fs, root, load(layers[0]));
        r.errno == OK ==> BuildThroughout(r.fs, root, load, layers[1..]))
  }

  lemma LoadedThroughoutIff(fs: FS, root: Path, l: Loaded)
    requires GoodRoot(fs, root) && (l.LoadedDirectory? ==> ListedKids(l.kids))
    ensures LoadedThroughout(fs, root, l) <==> LoadedSafe(fs, root, l)
  {
    match l
    case LoadedImage(tars, _) => LayersContainedIff(fs, root, tars);
    case LoadedTarball(tar) => StreamContainedIff(fs, root, tar);
    case LoadedDirectory(kids) =>
      VisitsCopyable([], kids);
      CopyContainedIff(fs, root, Visits([], kids));
    case LoadFailed(_) =>
  }

  /** Exactly when a whole build, images, tarballs and directories in any order, stays inside
      its target from beginning to end. */
  lemma {:induction false} BuildContainedIff(fs: FS, root: Path, load: Layer -> Loaded, layers: seq<Layer>)
    requires GoodRoot(fs, root)
    requires forall i :: 0 <= i < |layers| && load(layers[i]).LoadedDirectory? ==> ListedKids(load(layers[i]).kids)
    ensures BuildThroughout(fs, root, load, layers) <==> Safe(fs, root, load, layers)
    decreases |layers|
  {
    if layers != [] {
      var l := load(layers[0]);
      var r := ExtractLoaded(fs, root, l);
      LoadedThroughoutIff(fs, root, l);
      if LoadedSafe(fs, root, l) {
        LoadedContained(fs, root, l);
        if r.errno == OK {
          assert forall i :: 0 <= i < |layers[1..]| ==> layers[1..][i] == layers[i+1];
          BuildContainedIff(r.fs, root, load, layers[1..]);
        }
      }
    }
  }

  /** Two layers that fail it: a tarball with a link a -> t, then a directory with a file a/f. */
  function PlantedLink(a: string, t: Path): Loaded {
    LoadedTarball([Header(RawPath(false, [a]), KSymlink(RawPath(true, t)))])
  }

  function BelowLink(a: string, f: string, body: string): Loaded {
    LoadedDirectory([Kid(a, SDir([Kid(f, SFile(body))]))])
  }

  /** An addition directly below the target. */
  lemma TopAdd(fs: FS, root: Path, h: Header, a: string)
    requires GoodRoot(fs, root) && Clean(h.name) == [a] && Ordinary(a) && !(WHITEOUT_PREFIX <= a)
    ensures var r := ApplyEntry(fs, root, h);
            r == Placed(fs, root, root + [a], h.kind) && GoodRoot(r.fs, root)
  {
    NotMarker(a);
    assert Up([a]) == [] && root + [] == root && root[..|root|] == root;
    AppliedAdd(fs, root, h, root);
    WithDirsNothing(fs, root);
    EntryContained(fs, root, h);
  }

  lemma PlantsLink(fs: FS, root: Path, a: string, t: Path)
    requires GoodRoot(fs, root) && Ordinary(a) && !(WHITEOUT_PREFIX <= a)
    requires root + [a] !in fs.nodes
    ensures var g := FileTree.Put(fs, root + [a], Link(RawPath(true, t)));
            ExtractLoaded(fs, root, PlantedLink(a, t)) == Ret(g, OK) && GoodRoot(g, root)
  {
    var h := Header(RawPath(false, [a]), KSymlink(RawPath(true, t)));
    RootIsThere(fs, root);
    TopName(a);
    TopAdd(fs, root, h, a);
    NothingAt(fs, root + [a]);
    ExtractOne(fs, root, h);
  }

  lemma CopiesThrough(fs: FS, root: Path, a: string, f: string, t: Path, body: string)
    requires GoodRoot(fs, root) && Ordinary(a) && Ordinary(f)
    requires RealDir(fs, t) && Names(t) && t + [f] !in fs.nodes
    requires root + [a] in fs.nodes && fs.nodes[root + [a]] == Link(RawPath(true, t))
    ensures ExtractLoaded(fs, root, BelowLink(a, f, body)) == Ret(PutFile(fs, t + [f], body), OK)
  {
    var inner := [Kid(f, SFile(body))];
    var vs := [Visit([a], KDir), Visit([a, f], KReg(body))];
    assert Visits([], [Kid(a, SDir(inner))]) == vs by {
      assert inner[1..] == [] && [Kid(a, SDir(inner))][1..] == [];
      assert [] + [a] == [a] && [a] + [f] == [a, f];
      assert Visits([a], inner) == [Visit([a, f], KReg(body))];
    }
    RootIsThere(fs, root);
    ThroughLink(fs, root, a, t, []);
    assert root + [a] + [] == root + [a] && t[..|t|] == t;
    assert CopyStep(fs, root, vs[0]) == Ret(fs, OK);
    CopyFollowsLink(fs, root, a, f, t, body);
    assert CopyAll(fs, root, vs[1..]) == CopyStep(fs, root, vs[1]) by {
      assert vs[1..][0] == vs[1] && vs[1..][1..] == [];
    }
    assert vs[0] == Visit([a], KDir) && vs[1] == Visit([a, f], KReg(body));
    assert CopyAll(fs, root, vs) == CopyAll(fs, root, vs[1..]);
  }

  /** The build of these two layers succeeds and writes the file at t, wherever that is. */
  lemma PlantedLinkEscapes(fs: FS, root: Path, load: Layer -> Loaded, x: Layer, y: Layer,
                           a: string, f: string, t: Path, body: string)
    requires GoodRoot(fs, root) && Ordinary(a) && Ordinary(f) && !(WHITEOUT_PREFIX <= a)
    requires root + [a] !in fs.nodes && RealDir(fs, t) && Names(t) && t + [f] !in fs.nodes && t + [f] != root + [a]
    requires load(x) == PlantedLink(a, t) && load(y) == BelowLink(a, f, body)
    ensures var r := Build(fs, root, load, [x, y]);
            && r.errno == OK
            && t + [f] in r.fs.nodes && r.fs.nodes[t + [f]] == File(|fs.data|)
            && r.fs.data == fs.data + [body]
            && (Contained(root, fs, r.fs) <==> root <= t)
  {
    RootIsThere(fs, root);
    PlantsLink(fs, root, a, t);
    var g := FileTree.Put(fs, root + [a], Link(RawPath(true, t)));
    forall k | 0 <= k <= |t| ensures IsDir(g, t[..k]) {
      assert IsDir(fs, t[..k]);
    }
    CopiesThrough(g, root, a, f, t, body);
    var one := BuildResult(1, MergeImageConfig(None, None));
    var last := BuildFrom(g, root, load, [y], one);
    assert last.fs == PutFile(g, t + [f], body) && last.errno == OK by {
      assert [y][0] == y && [y][1..] == [];
      assert BuildFrom(PutFile(g, t + [f], body), root, load, [], BuildResult(2, one.config)).errno == OK;
    }
    assert BuildFrom(fs, root, load, [x, y], BuildResult(0, None)) == last by {
      assert [x, y][0] == x && [x, y][1..] == [y];
    }
    assert root < t + [f] <==> root <= t;
  }

  method ExtractLayer(disk: Disk, root: Path, l: Loaded) returns (e: Errno, config: Option<ImageConfig>)
    modifies disk
    ensures old(Orderly(disk.fs, root, l)) ==> Ret(disk.fs, e) == ExtractLoaded(old(disk.fs), root, l)
    ensures e == OK ==> config == LoadedConfig(l)
  {
    config := None;
    match l {
      case LoadedImage(tars, raw) =>
        e := disk.MkdirAll(root);
        if e == OK {
          e := ExtractImage(disk, root, tars);
        }
        if e == OK && raw.Some? {
          config := Some(ReadImageConfig(raw.value));
        }
      case LoadedTarball(tar) =>
        e := disk.MkdirAll(root);
        if e == OK {
          e := ExtractTar(disk, root, tar);
        }
      case LoadedDirectory(kids) =>
        e := CopyDir(disk, root, kids);
      case LoadFailed(x) =>
        e := if x == OK then ENOENT else x;
    }
  }

  method BuildRootfs(disk: Disk, root: Path, load: Layer -> Loaded, layers: seq<Layer>)
    returns (e: Errno, result: BuildResult)
    modifies disk
    ensures var made := MkdirAll(old(disk.fs), root).fs;
            && (BuildOrderly(made, root, load, layers) ==>
                  Outcome(disk.fs, e, result) == Build(old(disk.fs), root, load, layers))
            && (GoodRoot(made, root) && Safe(made, root, load, layers) ==>
                  && Outcome(disk.fs, e, result) == Build(old(disk.fs), root, load, layers)
                  && Contained(root, made, disk.fs))
  {
    result := BuildResult(0, None);
    e := disk.MkdirAll(root);
    ghost var made := disk.fs;
    if GoodRoot(made, root) && Safe(made, root, load, layers) {
      SafeContained(made, root, load, layers, result);
    }
    if e != OK {
      return;
    }
    for i := 0 to |layers|
      invariant e == OK
      invariant BuildOrderly(made, root, load, layers) ==>
        && BuildOrderly(disk.fs, root, load, layers[i..])
        && BuildFrom(disk.fs, root, load, layers[i..], result)
           == BuildFrom(made, root, load, layers, BuildResult(0, None))
    {
      var l := load(layers[i]);
      assert layers[i..][0] == layers[i] && layers[i..][1..] == layers[i+1..];
      var config;
      e, config := ExtractLayer(disk, root, l);
      if e != OK {
        return e, BuildResult(0, None);
      }
      var merged := result.config;
      if config.Some? {
        merged := MergeImageConfig(result.config, config);
      }
      result := BuildResult(result.layerCount + 1, merged);
    }
  }

  // ----- When a build succeeds -----

  function SourceStep(root: Path, load: Layer -> Loaded): (FS, Layer) -> Ret {
    (fs, l) => ExtractLoaded(fs, root, load(l))
  }

  /** From any state on, a build ends with the first layer that fails, and no later one is
      applied. */
  lemma {:induction false} BuildFromStops(fs: FS, root: Path, load: Layer -> Loaded, layers: seq<Layer>,
                                          sofar: BuildResult)
    ensures var r := BuildFrom(fs, root, load, layers, sofar);
            StopsAtFailure(SourceStep(root, load), fs, layers, Ret(r.fs, r.errno))
    decreases |layers|
  {
    if layers != [] {
      var l := load(layers[0]);
      var r := ExtractLoaded(fs, root, l);
      if r.errno != OK {
        StopsAtOnce(SourceStep(root, load), fs, layers);
      } else {
        var next := BuildResult(sofar.layerCount + 1, MergeImageConfig(sofar.config, LoadedConfig(l)));
        BuildFromStops(r.fs, root, load, layers[1..], next);
        BuildStep(fs, root, load, layers, sofar);
        var b := BuildFrom(fs, root, load, layers, sofar);
        StopsLater(SourceStep(root, load), fs, layers, Ret(b.fs, b.errno));
      }
    }
  }

  /** A success counts every layer; a failure has no result. */
  lemma {:induction false} BuildFromCounts(fs: FS, root: Path, load: Layer -> Loaded, layers: seq<Layer>,
                                           sofar: BuildResult)
    ensures var r := BuildFrom(fs, root, load, layers, sofar);
            && (r.errno == OK ==> r.result.layerCount == sofar.layerCount + |layers|)
            && (r.errno != OK ==> r.result == BuildResult(0, None))
    decreases |layers|
  {
    if layers != [] {
      var l := load(layers[0]);
      var r := ExtractLoaded(fs, root, l);
      if r.errno == OK {
        var next := BuildResult(sofar.layerCount + 1, MergeImageConfig(sofar.config, LoadedConfig(l)));
        BuildFromCounts(r.fs, root, load, layers[1..], next);
      }
    }
  }

  /** Exactly when a build succeeds: the target can be made, and each layer can be loaded and
      applied to the tree that the layers before have left. */
  lemma BuildSucceedsIff(fs: FS, root: Path, load: Layer -> Loaded, layers: seq<Layer>)
    ensures var r, made := Build(fs, root, load, layers), MkdirAll(fs, root);
            && (r.errno == OK <==>
                  && made.errno == OK
                  && forall k :: 0 <= k < |layers| ==> Succeeds(SourceStep(root, load), made.fs, layers, k))
            && (r.errno == OK ==> r.result.layerCount == |layers|)
            && (r.errno != OK ==> r.result == BuildResult(0, None))
  {
    BuildFromStops(MkdirAll(fs, root).fs, root, load, layers, BuildResult(0, None));
    BuildFromCounts(MkdirAll(fs, root).fs, root, load, layers, BuildResult(0, None));
  }

  /** How it fails: with the target's error, or with the first failing layer's error and tree. */
  lemma BuildFailsAtFirst(fs: FS, root: Path, load: Layer -> Loaded, layers: seq<Layer>, k: nat)
    ensures var r, made := Build(fs, root, load, layers), MkdirAll(fs, root);
            && (made.errno != OK ==> r == Outcome(made.fs, made.errno, BuildResult(0, None)))
            && (made.errno == OK && FirstFailure(SourceStep(root, load), made.fs, layers, k) ==>
                  var s := ExtractLoaded(After(SourceStep(root, load), made.fs, layers, k), root, load(layers[k]));
                  s.errno != OK && r == Outcome(s.fs, s.errno, BuildResult(0, None)))
  {
    BuildFromStops(MkdirAll(fs, root).fs, root, load, layers, BuildResult(0, None));
    BuildFromCounts(MkdirAll(fs, root).fs, root, load, layers, BuildResult(0, None));
  }

  /** A source that cannot be loaded makes every build that has it fail. */
  lemma UnloadableFails(fs: FS, root: Path, load: Layer -> Loaded, layers: seq<Layer>, k: nat)
    requires k < |layers| && load(layers[k]).LoadFailed?
    ensures Build(fs, root, load, layers).errno != OK
  {
    BuildSucceedsIff(fs, root, load, layers);
    assert !Succeeds(SourceStep(root, load), MkdirAll(fs, root).fs, layers, k);
  }

  // ----- The configuration of a build -----

  /** Only images bring a configuration, and bring the one they have. */
  lemma LoadedConfigIs(l: Loaded)
    ensures LoadedConfig(l).Some? <==> l.LoadedImage? && l.config.Some?
    ensures LoadedConfig(l).Some? ==>
              var c, raw := LoadedConfig(l).value, l.config.value;
              && Items(c.entrypoint) == Items(raw.entrypoint) && Items(c.cmd) == Items(raw.cmd)
              && Items(c.env) == Items(raw.env) && c.workingDir == raw.workingDir
  {
  }

  datatype Field = Entrypoint | Cmd | WorkingDir

  /** What a source sets a field to; nothing if it leaves the field empty. */
  function Given(f: Field, c: Option<ImageConfig>): seq<string> {
    if c.None? then []
    else
      match f
      case Entrypoint => Items(c.value.entrypoint)
      case Cmd => Items(c.value.cmd)
      case WorkingDir => if c.value.workingDir == "" then [] else [c.value.workingDir]
  }

  function Raw(l: Loaded): Option<ImageConfig> {
    if l.LoadedImage? then l.config else None
  }

  lemma MergeGiven(f: Field, a: Option<ImageConfig>, l: Loaded)
    ensures Given(f, MergeImageConfig(a, LoadedConfig(l))) ==
            if Given(f, Raw(l)) != [] then Given(f, Raw(l)) else Given(f, a)
  {
    LoadedConfigIs(l);
  }

  /** The last layer that sets a field decides it; if none does, it is as before. */
  lemma {:induction false} LastGivenDecides(fs: FS, root: Path, load: Layer -> Loaded, layers: seq<Layer>,
                                            sofar: BuildResult, f: Field, i: int)
    requires BuildFrom(fs, root, load, layers, sofar).errno == OK
    requires -1 <= i < |layers| && (i >= 0 ==> Given(f, Raw(load(layers[i]))) != [])
    requires forall j :: i < j < |layers| ==> Given(f, Raw(load(layers[j]))) == []
    ensures Given(f, BuildFrom(fs, root, load, layers, sofar).result.config) ==
            if i >= 0 then Given(f, Raw(load(layers[i]))) else Given(f, sofar.config)
    decreases |layers|
  {
    if layers != [] {
      var l := load(layers[0]);
      var next := BuildResult(sofar.layerCount + 1, MergeImageConfig(sofar.config, LoadedConfig(l)));
      MergeGiven(f, sofar.config, l);
      assert forall j :: 0 <= j < |layers[1..]| ==> layers[1..][j] == layers[j+1];
      LastGivenDecides(ExtractLoaded(fs, root, l).fs, root, load, layers[1..], next, f, if i >= 0 then i - 1 else -1);
    }
  }

  /** The same for a whole build. */
  lemma BuildGives(fs: FS, root: Path, load: Layer -> Loaded, layers: seq<Layer>, f: Field, i: int)
    requires Build(fs, root, load, layers).errno == OK
    requires -1 <= i < |layers| && (i >= 0 ==> Given(f, Raw(load(layers[i]))) != [])
    requires forall j :: i < j < |layers| ==> Given(f, Raw(load(layers[j]))) == []
    ensures Given(f, Build(fs, root, load, layers).result.config) ==
            if i >= 0 then Given(f, Raw(load(layers[i]))) else []
  {
    LastGivenDecides(MkdirAll(fs, root).fs, root, load, layers, BuildResult(0, None), f, i);
  }

  // ----- One layer as a change of the tree -----

  function Flatten(tars: seq<seq<Header>>): seq<Header> {
    if tars == [] then [] else tars[0] + Flatten(tars[1..])
  }

  /** The entries a layer amounts to. */
  function Headers(l: Loaded): seq<Header> {
    match l
    case LoadedImage(tars, _) => Flatten(tars)
    case LoadedTarball(tar) => tar
    case LoadedDirectory(kids) => Pack(Visits([], kids))
    case LoadFailed(_) => []
  }

  lemma {:induction false} LayersFlatten(fs: FS, root: Path, tars: seq<seq<Header>>)
    ensures ExtractLayers(fs, root, tars) == ExtractAll(fs, root, Flatten(tars))
    decreases |tars|
  {
    if tars != [] {
      ExtractSplit(fs, root, tars[0], Flatten(tars[1..]));
      var r := ExtractAll(fs, root, tars[0]);
      if r.errno == OK {
        LayersFlatten(r.fs, root, tars[1..]);
      }
    }
  }

  lemma LoadedIsStream(fs: FS, root: Path, l: Loaded)
    requires GoodRoot(fs, root) && !l.LoadFailed?
    requires l.LoadedDirectory? ==>
               && SaneKids(l.kids) && Usable(Visits([], l.kids))
               && CopyAgrees(fs, root, Visits([], l.kids))
    ensures ExtractLoaded(fs, root, l) == ExtractAll(fs, root, Headers(l))
  {
    RootIsThere(fs, root);
    match l
    case LoadedImage(tars, _) => LayersFlatten(fs, root, tars);
    case LoadedTarball(_) =>
    case LoadedDirectory(kids) => LoadersAgree(fs, root, kids);
  }

  /** The changes have no markers, and `dirs` tells which of their paths, and of the paths
      above these, are directories. */
  ghost predicate Typed(root: Path, cs: seq<Change>, dirs: iset<Path>) {
    forall i :: 0 <= i < |cs| ==>
      match cs[i]
      case Skip => true
      case Add(p, kind) =>
        && (kind.KDir? <==> p in dirs)
        && (forall q :: root < q < p ==> q in dirs)
      case _ => false
  }

  ghost predicate TreeTyped(t: Tree, root: Path, dirs: iset<Path>) {
    forall p :: p in t && root < p ==> (t[p] == VDir <==> p in dirs)
  }

  /** A layer that makes sense on its own and agrees with `dirs`. */
  ghost predicate LayerTyped(root: Path, l: Loaded, dirs: iset<Path>) {
    && !l.LoadFailed?
    && (l.LoadedDirectory? ==> SaneKids(l.kids))
    && WellBehaved(map[], root, DecodeAll(root, Headers(l)))
    && Typed(root, DecodeAll(root, Headers(l)), dirs)
  }

  /** The tree a layer holds by itself. */
  ghost function Contents(root: Path, l: Loaded): Tree {
    Meaning(map[], root, DecodeAll(root, Headers(l)))
  }

  lemma TypedFits(fs: FS, root: Path, cs: seq<Change>, dirs: iset<Path>)
    requires GoodRoot(fs, root) && TreeTyped(View(fs), root, dirs)
    requires WellBehaved(map[], root, cs) && Typed(root, cs, dirs)
    ensures WellBehaved(View(fs), root, cs)
  {
    forall i | 0 <= i < |cs| ensures Fits(View(fs), root, cs[..i], cs[i]) {
      assert Fits(map[], root, cs[..i], cs[i]);
      if cs[i].Add? {
        TypedClear(fs, root, cs[i].path, dirs);
      }
    }
  }

  lemma TypedClear(fs: FS, root: Path, p: Path, dirs: iset<Path>)
    requires GoodRoot(fs, root) && TreeTyped(View(fs), root, dirs) && root < p
    requires forall q :: root < q < p ==> q in dirs
    ensures forall q :: q < p && q in fs.nodes ==> View(fs)[q] == VDir
  {
    forall q | q < p && q in fs.nodes ensures View(fs)[q] == VDir {
      if |q| <= |root| {
        assert q == root[..|q|];
      } else {
        assert root < q;
      }
    }
  }

  lemma NothingBelowOther(fs: FS, root: Path, q: Path, p: Path, dirs: iset<Path>)
    requires GoodRoot(fs, root) && TreeTyped(View(fs), root, dirs)
    requires root < q < p && q !in dirs
    ensures p !in fs.nodes
  {
    assert q in fs.nodes ==> View(fs)[q] != VDir;
    NothingBelow(fs, q, p);
  }

  lemma TypedMeaning(fs: FS, root: Path, cs: seq<Change>, dirs: iset<Path>)
    requires GoodRoot(fs, root) && TreeTyped(View(fs), root, dirs)
    requires WellBehaved(map[], root, cs) && Typed(root, cs, dirs)
    ensures Meaning(View(fs), root, cs) == View(fs) + Meaning(map[], root, cs)
  {
    var t, a := View(fs), Meaning(map[], root, cs);
    forall p ensures Get(Meaning(t, root, cs), p) == Get(t + a, p) {
      MeaningGet(t, root, cs, p);
      MeaningGet(map[], root, cs, p);
      forall i | 0 <= i < |cs| ensures !Hides(cs[i], p) {
      }
      if Added(root, cs, p).None? && !Implied(cs, p) && Cut(cs, p) {
        var i :| 0 <= i < |cs| && cs[i].Add? && !cs[i].kind.KDir? && cs[i].path < p;
        var q := cs[i].path;
        assert Fits(map[], root, cs[..i], cs[i]);
        NothingBelowOther(fs, root, q, p, dirs);
      }
    }
    SameTree(Meaning(t, root, cs), t + a);
  }

  lemma ContentsTyped(root: Path, cs: seq<Change>, dirs: iset<Path>)
    requires Typed(root, cs, dirs) && WellBehaved(map[], root, cs)
    ensures TreeTyped(Meaning(map[], root, cs), root, dirs)
  {
    forall p | p in Meaning(map[], root, cs) && root < p
      ensures Meaning(map[], root, cs)[p] == VDir <==> p in dirs
    {
      MeaningGet(map[], root, cs, p);
      AddedBy(root, cs, p);
      if Added(root, cs, p).Some? {
        AddedKind(root, cs, p);
      } else if Implied(cs, p) {
        var i :| 0 <= i < |cs| && cs[i].Add? && p < cs[i].path;
        assert p in dirs;
      }
    }
  }

  /** What is added at p is a directory exactly when an addition at p says so. */
  lemma {:induction false} AddedKind(root: Path, cs: seq<Change>, p: Path)
    requires WellBehaved(map[], root, cs) && Added(root, cs, p).Some?
    ensures exists i :: 0 <= i < |cs| && cs[i].Add? && cs[i].path == p
                        && (Added(root, cs, p).value == VDir <==> cs[i].kind.KDir?)
    decreases |cs|
  {
    var n := |cs| - 1;
    WellBehavedInit(map[], root, cs);
    if cs[n].Add? && cs[n].path == p {
      assert Fits(map[], root, cs[..n], cs[n]);
    } else {
      AddedKind(root, cs[..n], p);
      var i :| 0 <= i < n && cs[..n][i].Add? && cs[..n][i].path == p
               && (Added(root, cs[..n], p).value == VDir <==> cs[..n][i].kind.KDir?);
      assert cs[i].Add? && cs[i].path == p;
    }
  }

  lemma VisitsNotOnLinks(fs: FS, root: Path, kids: seq<Kid>, dirs: iset<Path>)
    requires GoodRoot(fs, root) && TreeTyped(View(fs), root, dirs)
    requires LayerTyped(root, LoadedDirectory(kids), dirs)
    ensures NoDirOnLink(fs, root, Visits([], kids))
  {
    var vs := Visits([], kids);
    VisitsUsable([], kids);
    PackedChanges(root, vs);
    forall i | 0 <= i < |vs| && vs[i].kind.KDir?
      ensures !(root + vs[i].rel in fs.nodes && fs.nodes[root + vs[i].rel].Link?)
    {
      var c := DecodeAll(root, Pack(vs))[i];
      assert c == Add(root + vs[i].rel, vs[i].kind);
      assert UsableVisit(vs[i]) && root < root + vs[i].rel;
      assert c.path in dirs;
      assert root + vs[i].rel in fs.nodes ==> View(fs)[root + vs[i].rel] == VDir;
    }
  }

  /** Applying a typed layer lays its contents over the tree, and cannot fail. */
  lemma LayerLaysOver(fs: FS, root: Path, l: Loaded, dirs: iset<Path>)
    requires GoodRoot(fs, root) && TreeTyped(View(fs), root, dirs) && LayerTyped(root, l, dirs)
    ensures var r := ExtractLoaded(fs, root, l);
            && r.errno == OK && GoodRoot(r.fs, root)
            && View(r.fs) == View(fs) + Contents(root, l)
            && TreeTyped(View(r.fs), root, dirs)
  {
    var cs := DecodeAll(root, Headers(l));
    if l.LoadedDirectory? {
      VisitsNotOnLinks(fs, root, l.kids, dirs);
      NoLinkAgrees(fs, root, l.kids);
    }
    LoadedIsStream(fs, root, l);
    TypedFits(fs, root, cs, dirs);
    ExtractIsChangeset(fs, root, Headers(l));
    TypedMeaning(fs, root, cs, dirs);
    ContentsTyped(root, cs, dirs);
  }

  // ----- What a build amounts to -----

  /** A tree and a configuration as their readers see them: the environment as a map. */
  datatype Effect = Effect(tree: Tree, configured: bool, entrypoint: Slice, cmd: Slice,
                           workingDir: string, env: map<string, string>)

  function EnvKeys(env: seq<string>): set<string> {
    set i | 0 <= i < |env| :: Key(env[i])
  }

  function EnvMap(env: seq<string>): map<string, string> {
    map k | k in EnvKeys(env) && First(env, k).Some? :: First(env, k).value
  }

  lemma {:induction false} FirstHasKey(env: seq<string>, k: string)
    ensures First(env, k).Some? ==> k in EnvKeys(env)
    decreases |env|
  {
    if env != [] && Key(env[0]) != k {
      FirstHasKey(env[1..], k);
      if First(env, k).Some? {
        var i :| 0 <= i < |env[1..]| && Key(env[1..][i]) == k;
        assert Key(env[i + 1]) == k;
      }
    }
  }

  lemma EnvMapGet(env: seq<string>, k: string)
    ensures k in EnvMap(env) <==> First(env, k).Some?
    ensures k in EnvMap(env) ==> EnvMap(env)[k] == First(env, k).value
  {
    FirstHasKey(env, k);
  }

  lemma {:induction false} DistinctLastIsFirst(env: seq<string>, k: string)
    requires Distinct(env)
    ensures LastOf(env, k) == First(env, k)
    decreases |env|
  {
    if env != [] {
      DistinctTail(env);
      DistinctLastIsFirst(env[1..], k);
      FirstHasKey(env[1..], k);
      forall i | 0 <= i < |env[1..]| ensures Key(env[1..][i]) != Key(env[0]) {
        assert env[1..][i] == env[i + 1];
      }
    }
  }

  /** As a map, a merged environment is the overlay over the base. */
  lemma EnvMapMerge(a: seq<string>, b: seq<string>)
    requires Distinct(b)
    ensures EnvMap(MergeEnv(a, b)) == EnvMap(a) + EnvMap(b)
  {
    forall k
      ensures k in EnvMap(MergeEnv(a, b)) <==> k in EnvMap(a) + EnvMap(b)
      ensures k in EnvMap(MergeEnv(a, b)) ==> EnvMap(MergeEnv(a, b))[k] == (EnvMap(a) + EnvMap(b))[k]
    {
      MergeFirst(a, b, k);
      DistinctLastIsFirst(b, k);
      EnvMapGet(a, k);
      EnvMapGet(b, k);
      EnvMapGet(MergeEnv(a, b), k);
    }
  }

  function EffectOf(t: Tree, c: Option<ImageConfig>): Effect {
    match c
    case None => Effect(t, false, None, None, "", map[])
    case Some(i) => Effect(t, true, i.entrypoint, i.cmd, i.workingDir, EnvMap(Items(i.env)))
  }

  /** One effect laid over another. */
  function Lay(a: Effect, b: Effect): Effect {
    Effect(a.tree + b.tree, a.configured || b.configured, Over(a.entrypoint, b.entrypoint), Over(a.cmd, b.cmd),
           if b.workingDir != "" then b.workingDir else a.workingDir, a.env + b.env)
  }

  lemma LayAssociates(a: Effect, b: Effect, c: Effect)
    ensures Lay(Lay(a, b), c) == Lay(a, Lay(b, c))
  {
    assert a.tree + b.tree + c.tree == a.tree + (b.tree + c.tree);
    assert a.env + b.env + c.env == a.env + (b.env + c.env);
  }

  /** An effect that comes back later makes its first appearance irrelevant. */
  lemma LayAbsorbs(a: Effect, b: Effect)
    ensures Lay(Lay(a, b), a) == Lay(b, a)
  {
    assert a.tree + b.tree + a.tree == b.tree + a.tree;
    assert a.env + b.env + a.env == b.env + a.env;
  }

  lemma MergeIsLay(t: Tree, u: Tree, a: Option<ImageConfig>, b: Option<ImageConfig>)
    requires b.Some? ==> Distinct(Items(b.value.env))
    ensures Lay(EffectOf(t, a), EffectOf(u, b)) == EffectOf(t + u, MergeImageConfig(a, b))
  {
    if b.None? {
      assert EffectOf(t, a).env + map[] == EffectOf(t, a).env;
    } else if a.None? {
      assert map[] + EffectOf(u, b).env == EffectOf(u, b).env;
    } else {
      EnvMapMerge(Items(a.value.env), Items(b.value.env));
      if b.value.env.None? {
        assert EnvMap([]) == map[];
        assert EnvMap(Items(a.value.env)) + map[] == EnvMap(Items(a.value.env));
      }
    }
  }

  ghost function LayerEffect(root: Path, load: Layer -> Loaded, l: Layer): Effect {
    EffectOf(Contents(root, load(l)), LoadedConfig(load(l)))
  }

  ghost function LayAll(root: Path, load: Layer -> Loaded, start: Effect, layers: seq<Layer>): Effect
    decreases |layers|
  {
    if layers == [] then start
    else LayAll(root, load, Lay(start, LayerEffect(root, load, layers[0])), layers[1..])
  }

  /** The layers make sense and agree on which paths are directories; each configuration's
      environment keys are distinct. */
  ghost predicate Agreeing(root: Path, load: Layer -> Loaded, layers: seq<Layer>, dirs: iset<Path>) {
    forall i :: 0 <= i < |layers| ==>
      && LayerTyped(root, load(layers[i]), dirs)
      && (LoadedConfig(load(layers[i])).Some? ==> Distinct(Items(LoadedConfig(load(layers[i])).value.env)))
  }

  lemma AgreeingTail(root: Path, load: Layer -> Loaded, layers: seq<Layer>, dirs: iset<Path>)
    requires Agreeing(root, load, layers, dirs) && layers != []
    ensures Agreeing(root, load, layers[1..], dirs)
  {
    assert forall i :: 0 <= i < |layers[1..]| ==> layers[1..][i] == layers[i + 1];
  }

  /** Building agreeing layers succeeds and has the effect of laying them over each other. */
  lemma {:induction false} BuildLays(fs: FS, root: Path, load: Layer -> Loaded, layers: seq<Layer>,
                                     sofar: BuildResult, dirs: iset<Path>)
    requires GoodRoot(fs, root) && TreeTyped(View(fs), root, dirs) && Agreeing(root, load, layers, dirs)
    ensures var r := BuildFrom(fs, root, load, layers, sofar);
            && r.errno == OK && WellFormed(r.fs)
            && r.result.layerCount == sofar.layerCount + |layers|
            && EffectOf(View(r.fs), r.result.config)
               == LayAll(root, load, EffectOf(View(fs), sofar.config), layers)
    decreases |layers|
  {
    if layers != [] {
      var l := load(layers[0]);
      LayerLaysOver(fs, root, l, dirs);
      var r := ExtractLoaded(fs, root, l);
      var next := BuildResult(sofar.layerCount + 1, MergeImageConfig(sofar.config, LoadedConfig(l)));
      LayOne(fs, root, load, layers[0], sofar.config);
      AgreeingTail(root, load, layers, dirs);
      BuildLays(r.fs, root, load, layers[1..], next, dirs);
      BuildStep(fs, root, load, layers, sofar);
    }
  }

  lemma LayOne(fs: FS, root: Path, load: Layer -> Loaded, layer: Layer, config: Option<ImageConfig>)
    requires InodesExist(fs)
    requires var c := LoadedConfig(load(layer)); c.Some? ==> Distinct(Items(c.value.env))
    ensures var l := load(layer);
            Lay(EffectOf(View(fs), config), LayerEffect(root, load, layer))
            == EffectOf(View(fs) + Contents(root, l), MergeImageConfig(config, LoadedConfig(l)))
  {
    var l := load(layer);
    MergeIsLay(View(fs), Contents(root, l), config, LoadedConfig(l));
  }

  lemma BuildStep(fs: FS, root: Path, load: Layer -> Loaded, layers: seq<Layer>, sofar: BuildResult)
    requires layers != [] && ExtractLoaded(fs, root, load(layers[0])).errno == OK
    ensures var l := load(layers[0]);
            var next := BuildResult(sofar.layerCount + 1, MergeImageConfig(sofar.config, LoadedConfig(l)));
            BuildFrom(fs, root, load, layers, sofar)
            == BuildFrom(ExtractLoaded(fs, root, l).fs, root, load, layers[1..], next)
  {
  }

  // ----- Deduplication preserves the build -----

  /** Layers with the same key are the same source. */
  ghost predicate KeysTellContent(load: Layer -> Loaded, layers: seq<Layer>) {
    forall i, j :: 0 <= i < |layers| && 0 <= j < |layers| && DedupKey(layers[i]) == DedupKey(layers[j]) ==>
      load(layers[i]) == load(layers[j])
  }

  /** Nothing laid over. */
  const NO_EFFECT := Effect(map[], false, None, None, "", map[])

  lemma LayNothing(a: Effect)
    ensures Lay(a, NO_EFFECT) == a == Lay(NO_EFFECT, a)
  {
    assert a.tree + map[] == a.tree && map[] + a.tree == a.tree;
    assert a.env + map[] == a.env && map[] + a.env == a.env;
  }

  /** The start can be taken out of the fold. */
  lemma {:induction false} LayAllFrom(root: Path, load: Layer -> Loaded, start: Effect, layers: seq<Layer>)
    ensures LayAll(root, load, start, layers) == Lay(start, LayAll(root, load, NO_EFFECT, layers))
    decreases |layers|
  {
    LayNothing(start);
    if layers != [] {
      var e, rest := LayerEffect(root, load, layers[0]), layers[1..];
      LayNothing(e);
      LayAllFrom(root, load, Lay(start, e), rest);
      LayAllFrom(root, load, e, rest);
      LayAssociates(start, e, LayAll(root, load, NO_EFFECT, rest));
    }
  }

  /** A list that holds a layer with this effect hides the same effect laid before it. */
  lemma {:induction false} LaterHides(root: Path, load: Layer -> Loaded, e: Effect, layers: seq<Layer>, i: nat)
    requires i < |layers| && LayerEffect(root, load, layers[i]) == e
    ensures Lay(e, LayAll(root, load, NO_EFFECT, layers)) == LayAll(root, load, NO_EFFECT, layers)
    decreases |layers|
  {
    var f, rest := LayerEffect(root, load, layers[0]), layers[1..];
    var tail := LayAll(root, load, NO_EFFECT, rest);
    LayNothing(f);
    LayAllFrom(root, load, f, rest);
    LayAssociates(e, f, tail);
    if i == 0 {
      LayAbsorbs(e, NO_EFFECT);
      LayNothing(e);
    } else {
      LaterHides(root, load, e, rest, i - 1);
      LayAssociates(f, e, tail);
      LayAssociates(Lay(e, f), e, tail);
      LayAbsorbs(e, f);
    }
  }

  lemma {:induction false} DedupLaysTheSame(root: Path, load: Layer -> Loaded, start: Effect, layers: seq<Layer>)
    requires KeysTellContent(load, layers)
    ensures LayAll(root, load, start, Dedup(layers)) == LayAll(root, load, start, layers)
    decreases |layers|
  {
    if layers != [] {
      var e, rest := LayerEffect(root, load, layers[0]), layers[1..];
      assert KeysTellContent(load, rest) by {
        assert forall i :: 0 <= i < |rest| ==> rest[i] == layers[i + 1];
      }
      if DedupKey(layers[0]) in KeySet(DedupKey, rest) {
        var i :| 0 <= i < |rest| && DedupKey(rest[i]) == DedupKey(layers[0]);
        assert rest[i] == layers[i + 1];
        DedupLaysTheSame(root, load, start, rest);
        LaterHides(root, load, e, rest, i);
        LayAllFrom(root, load, start, rest);
        LayAllFrom(root, load, Lay(start, e), rest);
        LayAssociates(start, e, LayAll(root, load, NO_EFFECT, rest));
      } else {
        DedupLaysTheSame(root, load, Lay(start, e), rest);
        assert Dedup(layers)[0] == layers[0] && Dedup(layers)[1..] == Dedup(rest);
      }
    }
  }

  lemma DedupAgreeing(root: Path, load: Layer -> Loaded, layers: seq<Layer>, dirs: iset<Path>)
    requires Agreeing(root, load, layers, dirs)
    ensures Agreeing(root, load, Dedup(layers), dirs)
  {
    KeepLastKeepsLast(DedupKey, layers);
    var ps := Positions(DedupKey, layers, 0);
    forall i | 0 <= i < |Dedup(layers)| ensures Dedup(layers)[i] == layers[ps[i]] {
    }
  }

  /** Building the deduplicated list gives the same tree, the same entrypoint, command and
      working directory, and the same environment as a map. */
  lemma DedupPreservesBuild(fs: FS, root: Path, load: Layer -> Loaded, layers: seq<Layer>, dirs: iset<Path>)
    requires GoodRoot(fs, root) && TreeTyped(View(fs), root, dirs)
    requires Agreeing(root, load, layers, dirs) && KeysTellContent(load, layers)
    ensures var a, b := Build(fs, root, load, layers), Build(fs, root, load, Dedup(layers));
            && a.errno == OK && b.errno == OK && WellFormed(a.fs) && WellFormed(b.fs)
            && EffectOf(View(a.fs), a.result.config) == EffectOf(View(b.fs), b.result.config)
  {
    RootIsThere(fs, root);
    DedupAgreeing(root, load, layers, dirs);
    BuildLays(fs, root, load, layers, BuildResult(0, None), dirs);
    BuildLays(fs, root, load, Dedup(layers), BuildResult(0, None), dirs);
    DedupLaysTheSame(root, load, EffectOf(View(fs), None), layers);
  }
}
