/**
 What a layer means, after the OCI Image Format Specification, "Image Layer Filesystem
 Changeset", sections "Whiteouts" and "Opaque Whiteout": first hide the lower-layer paths that
 any marker of the layer names, then add the layer's entries.
 */
module Changeset {
  import opened Wrappers
  import opened Paths
  import opened FileTree
  import opened Resolution
  import opened HostDisk
  import opened Extraction
  import opened Sequencing

  /** A node as users of the tree see it: no inode numbers. */
  datatype VNode = VDir | VFile(body: string) | VLink(target: RawPath)

  type Tree = map<Path, VNode>

  function Get(t: Tree, p: Path): Option<VNode> {
    if p in t then Some(t[p]) else None
  }

  ghost function Show(n: Node, data: seq<string>): VNode
    requires n.File? ==> n.ino < |data|
  {
    match n
    case Dir => VDir
    case File(i) => VFile(data[i])
    case Link(t) => VLink(t)
  }

  ghost function View(fs: FS): Tree
    requires InodesExist(fs)
  {
    map p | p in fs.nodes :: Show(fs.nodes[p], fs.data)
  }

  datatype Change =
    | Skip
    | Add(path: Path, kind: Kind)
    | Hide(path: Path)
    | Opaque(dir: Path)

  /** The change that an entry of a layer extracted at `root` stands for. */
  function Decode(root: Path, h: Header): Change {
    var name := Clean(h.name);
    if name == [] then Skip
    else if Last(name) == WHITEOUT_OPAQUE then Opaque(root + Up(name))
    else if IsWhiteout(Last(name)) then Hide(root + Up(name) + [Suffix(Last(name))])
    else Add(root + name, h.kind)
  }

  function DecodeAll(root: Path, hs: seq<Header>): (cs: seq<Change>)
    ensures |cs| == |hs|
  {
    seq(|hs|, i requires 0 <= i < |hs| => Decode(root, hs[i]))
  }

  // ----- The two phases -----

  ghost predicate Hides(c: Change, p: Path) {
    (c.Hide? && c.path <= p) || (c.Opaque? && c.dir < p)
  }

  /** First phase: lower-layer paths the layer's markers name. */
  ghost predicate Hidden(cs: seq<Change>, p: Path) {
    exists i :: 0 <= i < |cs| && Hides(cs[i], p)
  }

  /** Second phase: what the layer itself puts at p. A hard link is what its source is. */
  function Added(root: Path, cs: seq<Change>, p: Path): Option<VNode>
    decreases |cs|
  {
    if cs == [] then None
    else
      var n := |cs| - 1;
      if cs[n].Add? && cs[n].path == p then
        match cs[n].kind
        case KDir => Some(VDir)
        case KReg(body) => Some(VFile(body))
        case KSymlink(t) => Some(VLink(t))
        case KHardLink(source) => Added(root, cs[..n], root + source.parts)
        case KOther => None
      else Added(root, cs[..n], p)
  }

  function Value(root: Path, cs: seq<Change>, kind: Kind): Option<VNode> {
    match kind
    case KDir => Some(VDir)
    case KReg(body) => Some(VFile(body))
    case KSymlink(t) => Some(VLink(t))
    case KHardLink(source) => Added(root, cs, root + source.parts)
    case KOther => None
  }

  /** p is a directory that some added path needs. */
  ghost predicate Implied(cs: seq<Change>, p: Path) {
    exists i :: 0 <= i < |cs| && cs[i].Add? && p < cs[i].path
  }

  /** p lies below something the layer adds that is not a directory. */
  ghost predicate Cut(cs: seq<Change>, p: Path) {
    exists i :: 0 <= i < |cs| && cs[i].Add? && !cs[i].kind.KDir? && cs[i].path < p
  }

  /** The tree after the layer, path by path. */
  ghost function MeaningAt(t: Tree, root: Path, cs: seq<Change>, p: Path): Option<VNode> {
    if Added(root, cs, p).Some? then Added(root, cs, p)
    else if Implied(cs, p) then Some(VDir)
    else if Cut(cs, p) || Hidden(cs, p) then None
    else Get(t, p)
  }

  // ----- Layers the specification speaks about -----

  /** No link or file of the lower tree stands on p, unless the markers so far hide it. */
  ghost predicate ClearOn(t: Tree, cs: seq<Change>, p: Path) {
    p in t && t[p] != VDir ==> Hidden(cs, p)
  }

  /** The directories above p are real ones. */
  ghost predicate ClearAbove(t: Tree, cs: seq<Change>, p: Path) {
    forall q :: q < p ==> ClearOn(t, cs, q)
  }

  predicate Plain(kind: Kind) {
    !kind.KOther? && (kind.KSymlink? ==> kind.target != RawPath(false, []))
  }

  /** `c` may follow the changes `cs` in a layer over the tree t, as far as types and parents
      go: a path has one type, and the directories above it are real. */
  ghost predicate Suits(t: Tree, root: Path, cs: seq<Change>, c: Change) {
    match c
    case Skip => true
    case Add(p, kind) =>
      && root < p && Names(p) && Plain(kind)
      && (forall i :: 0 <= i < |cs| && cs[i].Add? ==>
            && (cs[i].path < p ==> cs[i].kind.KDir?)
            && (p < cs[i].path ==> kind.KDir?)
            && (cs[i].path == p ==> (cs[i].kind.KDir? <==> kind.KDir?)))
      && ClearAbove(t, cs, p)
      && (kind.KDir? ==> ClearOn(t, cs, p))
      && (kind.KHardLink? ==> SourceReady(root, cs, p, kind.source.parts))
    case Hide(p) =>
      && root < p && Names(p)
      && (forall i :: 0 <= i < |cs| && cs[i].Add? && cs[i].path < p ==> cs[i].kind.KDir?)
      && ClearAbove(t, cs, p)
    case Opaque(d) =>
      && root <= d && Names(d)
      && (forall i :: 0 <= i < |cs| && cs[i].Add? && cs[i].path <= d ==> cs[i].kind.KDir?)
      && ClearAbove(t, cs, d) && ClearOn(t, cs, d)
  }

  /** c is a marker for something that the layer itself has added. */
  ghost predicate Late(cs: seq<Change>, c: Change) {
    exists i :: 0 <= i < |cs| && cs[i].Add? && Hides(c, cs[i].path)
  }

  /** It may follow them and the program does what the specification says: a marker comes
      before the entries it could hide. */
  ghost predicate Fits(t: Tree, root: Path, cs: seq<Change>, c: Change) {
    Suits(t, root, cs, c) && !Late(cs, c)
  }

  /** A hard link's source is a file that the same layer added earlier. */
  ghost predicate SourceReady(root: Path, cs: seq<Change>, p: Path, source: seq<string>) {
    && Names(source) && root + source != p
    && Added(root, cs, root + source).Some? && Added(root, cs, root + source).value.VFile?
  }

  ghost predicate WellBehaved(t: Tree, root: Path, cs: seq<Change>) {
    forall i :: 0 <= i < |cs| ==> Fits(t, root, cs[..i], cs[i])
  }

  // ----- One more change -----

  /** The tree so far is what the changes so far mean. */
  ghost predicate Shows(fs: FS, t: Tree, root: Path, cs: seq<Change>)
    requires InodesExist(fs)
  {
    forall p :: Get(View(fs), p) == MeaningAt(t, root, cs, p)
  }

  lemma {:induction false} AddedBy(root: Path, cs: seq<Change>, p: Path)
    ensures (exists i :: 0 <= i < |cs| && cs[i].Add? && cs[i].path == p) || Added(root, cs, p) == None
    decreases |cs|
  {
    if cs != [] {
      var n := |cs| - 1;
      if !(cs[n].Add? && cs[n].path == p) {
        AddedBy(root, cs[..n], p);
        if exists i :: 0 <= i < n && cs[..n][i].Add? && cs[..n][i].path == p {
          var i :| 0 <= i < n && cs[..n][i].Add? && cs[..n][i].path == p;
          assert cs[i].Add? && cs[i].path == p;
        }
      }
    }
  }

  lemma {:induction false} AddedDirs(root: Path, cs: seq<Change>, p: Path)
    requires forall i :: 0 <= i < |cs| && cs[i].Add? && cs[i].path == p ==> cs[i].kind.KDir?
    ensures Added(root, cs, p) == None || Added(root, cs, p) == Some(VDir)
    decreases |cs|
  {
    if cs != [] {
      assert forall i :: 0 <= i < |cs| - 1 ==> cs[..|cs|-1][i] == cs[i];
      AddedDirs(root, cs[..|cs|-1], p);
    }
  }

  /** A clear path is missing or a directory in the tree so far. */
  lemma ClearMeans(t: Tree, root: Path, cs: seq<Change>, p: Path)
    requires ClearOn(t, cs, p)
    requires forall i :: 0 <= i < |cs| && cs[i].Add? && cs[i].path == p ==> cs[i].kind.KDir?
    ensures MeaningAt(t, root, cs, p) == None || MeaningAt(t, root, cs, p) == Some(VDir)
  {
    AddedDirs(root, cs, p);
  }

  /** A real parent is found literally, and is not a file. */
  lemma ParentResolves(fs: FS, t: Tree, root: Path, cs: seq<Change>, dir: Path)
    requires GoodRoot(fs, root) && Shows(fs, t, root, cs)
    requires root <= dir && Names(dir)
    requires ClearAbove(t, cs, dir) && ClearOn(t, cs, dir)
    requires forall i :: 0 <= i < |cs| && cs[i].Add? && cs[i].path <= dir ==> cs[i].kind.KDir?
    ensures Settled(fs, root, dir) && !(dir in fs.nodes && !fs.nodes[dir].Dir?)
    ensures SecureJoin(fs, root, dir[|root|..]) == At(dir)
  {
    forall k | 0 <= k <= |dir| ensures dir[..k] in fs.nodes ==> fs.nodes[dir[..k]].Dir? {
      var q := dir[..k];
      if k < |dir| {
        assert q < dir;
      } else {
        assert q == dir;
      }
      ClearMeans(t, root, cs, q);
      assert Get(View(fs), q) == MeaningAt(t, root, cs, q);
    }
    assert dir[..|dir|] == dir;
    assert root + [] + dir[|root|..] == dir;
    ResolveLiteral(fs, root, [], dir[|root|..], MAX_LINKS);
  }

  lemma Snoc(root: Path, cs: seq<Change>, c: Change, p: Path)
    ensures Added(root, cs + [c], p) == if c.Add? && c.path == p then Value(root, cs, c.kind) else Added(root, cs, p)
    ensures Implied(cs + [c], p) <==> Implied(cs, p) || (c.Add? && p < c.path)
    ensures Cut(cs + [c], p) <==> Cut(cs, p) || (c.Add? && !c.kind.KDir? && c.path < p)
    ensures Hidden(cs + [c], p) <==> Hidden(cs, p) || Hides(c, p)
  {
    var ds := cs + [c];
    assert ds[..|cs|] == cs && ds[|cs|] == c;
    forall i | 0 <= i < |cs| ensures ds[i] == cs[i] {
    }
    if Implied(cs, p) {
      var i :| 0 <= i < |cs| && cs[i].Add? && p < cs[i].path;
      assert ds[i].Add?;
    }
    if Cut(cs, p) {
      var i :| 0 <= i < |cs| && cs[i].Add? && !cs[i].kind.KDir? && cs[i].path < p;
      assert ds[i].Add?;
    }
    if Hidden(cs, p) {
      var i :| 0 <= i < |cs| && Hides(cs[i], p);
      assert Hides(ds[i], p);
    }
    if Hides(c, p) {
      assert Hides(ds[|cs|], p);
    }
  }

  lemma MeaningAdd(t: Tree, root: Path, cs: seq<Change>, p: Path, kind: Kind, q: Path)
    requires Fits(t, root, cs, Add(p, kind)) && Value(root, cs, kind).Some?
    ensures MeaningAt(t, root, cs + [Add(p, kind)], q) ==
            if q == p then Value(root, cs, kind)
            else if q < p then Some(VDir)
            else if p < q && !kind.KDir? then None
            else MeaningAt(t, root, cs, q)
  {
    Snoc(root, cs, Add(p, kind), q);
    AddedBy(root, cs, q);
    if q < p {
      AddedDirs(root, cs, q);
    }
  }

  lemma MeaningMarker(t: Tree, root: Path, cs: seq<Change>, c: Change, q: Path)
    requires Fits(t, root, cs, c) && (c.Hide? || c.Opaque?)
    ensures MeaningAt(t, root, cs + [c], q) == if Hides(c, q) then None else MeaningAt(t, root, cs, q)
  {
    Snoc(root, cs, c, q);
    AddedBy(root, cs, q);
  }

  lemma ValueOfPlain(t: Tree, root: Path, cs: seq<Change>, p: Path, kind: Kind)
    requires Fits(t, root, cs, Add(p, kind))
    ensures Value(root, cs, kind).Some?
  {
  }

  // ----- The program does what the change means -----

  /** A marker removes what it names from the tree so far, whoever put it there. */
  lemma MarkerRemoves(fs: FS, t: Tree, root: Path, cs: seq<Change>, h: Header)
    requires GoodRoot(fs, root) && Shows(fs, t, root, cs)
    requires var c := Decode(root, h); Suits(t, root, cs, c) && (c.Hide? || c.Opaque?)
    ensures var c, r := Decode(root, h), ApplyEntry(fs, root, h);
            && r.errno == OK && GoodRoot(r.fs, root)
            && forall q :: Get(View(r.fs), q) == if Hides(c, q) then None else Get(View(fs), q)
  {
    var c, name := Decode(root, h), Clean(h.name);
    var dir := root + Up(name);
    assert PlainMarker(h) by {
      if c.Hide? {
        assert Last(c.path) == Suffix(Last(name));
      }
    }
    assert Names(dir) by {
      assert c.Hide? ==> dir == c.path[..|dir|];
    }
    assert c.Hide? ==> dir < c.path;
    assert name[0] != ".." by {
      if |name| > 1 {
        assert dir[|root|] == name[0];
      }
    }
    ParentResolves(fs, t, root, cs, dir);
    assert dir[|root|..] == Up(name);
    ApplyIsApplied(fs, root, h);
    EntryContained(fs, root, h);
  }

  lemma StepMarker(fs: FS, t: Tree, root: Path, cs: seq<Change>, h: Header)
    requires GoodRoot(fs, root) && Shows(fs, t, root, cs)
    requires var c := Decode(root, h); Fits(t, root, cs, c) && (c.Hide? || c.Opaque?)
    ensures var r := ApplyEntry(fs, root, h);
            && r.errno == OK && GoodRoot(r.fs, root)
            && Shows(r.fs, t, root, cs + [Decode(root, h)])
  {
    var c := Decode(root, h);
    MarkerRemoves(fs, t, root, cs, h);
    forall q ensures Get(View(ApplyEntry(fs, root, h).fs), q) == MeaningAt(t, root, cs + [c], q) {
      MeaningMarker(t, root, cs, c, q);
      assert Get(View(fs), q) == MeaningAt(t, root, cs, q);
    }
  }

  /** What Placed leaves at each path, as seen. */
  lemma PlacedShows(fs: FS, root: Path, target: Path, kind: Kind, value: VNode)
    requires GoodRoot(fs, root) && root < target && WellFormed(Placed(fs, root, target, kind).fs)
    requires Plain(kind)
    requires match kind
             case KDir => value == VDir && (target in fs.nodes ==> fs.nodes[target].Dir?)
             case KReg(body) => value == VFile(body)
             case KSymlink(l) => value == VLink(l)
             case KHardLink(source) =>
               && var s := root + source.parts;
               && s in fs.nodes && fs.nodes[s].File? && !(target <= s)
               && value == VFile(fs.data[fs.nodes[s].ino])
               && SecureJoin(Prune(fs, target), root, source.parts) == At(s)
             case KOther => false
    ensures var after := Placed(fs, root, target, kind).fs;
            forall q :: Get(View(after), q) ==
                        if q == target then Some(value)
                        else if target < q && !kind.KDir? then None
                        else Get(View(fs), q)
  {
  }

  lemma WithDirsShows(fs: FS, parent: Path)
    requires WellFormed(fs) && WellFormed(WithDirs(fs, parent))
    ensures forall q :: Get(View(WithDirs(fs, parent)), q) == if q <= parent then Some(VDir) else Get(View(fs), q)
  {
    forall q ensures q in Prefixes(parent) <==> q <= parent {
      PrefixIffMember(parent, q);
    }
  }

  lemma SourceExists(fs: FS, t: Tree, root: Path, cs: seq<Change>, p: Path, source: RawPath)
    requires WellFormed(fs) && Shows(fs, t, root, cs)
    requires Fits(t, root, cs, Add(p, KHardLink(source)))
    requires Settled(fs, root, Up(p)) && !(Up(p) in fs.nodes && !fs.nodes[Up(p)].Dir?)
    ensures var s := root + source.parts;
            && s in fs.nodes && fs.nodes[s].File? && !(p <= s) && !(s <= Up(p))
            && Added(root, cs, s) == Some(VFile(fs.data[fs.nodes[s].ino]))
  {
    var u, s := Up(p), root + source.parts;
    AddedBy(root, cs, s);
    assert Get(View(fs), s) == MeaningAt(t, root, cs, s);
    if |s| < |u| {
      assert u[..|s|] != s;
    } else {
      assert s <= u ==> s == u;
    }
  }

  /** An existing path that is not a link resolves to itself. */
  lemma ExistingResolves(fs: FS, root: Path, parts: Path)
    requires GoodRoot(fs, root) && Names(parts)
    requires root + parts in fs.nodes && !fs.nodes[root + parts].Link?
    ensures SecureJoin(fs, root, parts) == At(root + parts)
  {
    var s := root + parts;
    forall k | 0 <= k < |s| ensures IsDir(fs, s[..k]) {
      AncestorsAreDirs(fs, s, k);
    }
    assert s[..|s|] == s;
    assert root + [] + parts == s;
    ResolveLiteral(fs, root, [], parts, MAX_LINKS);
  }

  /** A hard link's source is found literally once the target is out of the way. */
  lemma SourceResolves(fs: FS, t: Tree, root: Path, cs: seq<Change>, p: Path, source: RawPath)
    requires GoodRoot(fs, root) && Shows(fs, t, root, cs)
    requires Fits(t, root, cs, Add(p, KHardLink(source)))
    requires Settled(fs, root, Up(p)) && !(Up(p) in fs.nodes && !fs.nodes[Up(p)].Dir?)
    ensures var w, s := WithDirs(fs, Up(p)), root + source.parts;
            && s in w.nodes && w.nodes[s].File? && !(p <= s)
            && w.nodes[s].ino < |w.data|
            && Added(root, cs, s) == Some(VFile(w.data[w.nodes[s].ino]))
            && SecureJoin(Prune(w, p), root, source.parts) == At(s)
  {
    SourceExists(fs, t, root, cs, p, source);
    WithDirsAtRoot(fs, root, Up(p));
    PrefixIffMember(Up(p), root + source.parts);
    AfterRemoval(WithDirs(fs, Up(p)), root, p);
    ExistingResolves(Prune(WithDirs(fs, Up(p)), p), root, source.parts);
  }

  /** An addition that fits is placed on the tree with its parent directories present. */
  lemma AddIsApplied(fs: FS, t: Tree, root: Path, cs: seq<Change>, h: Header)
    requires GoodRoot(fs, root) && Shows(fs, t, root, cs)
    requires var c := Decode(root, h); Fits(t, root, cs, c) && c.Add?
    ensures var p := Decode(root, h).path;
            && Settled(fs, root, Up(p)) && !(Up(p) in fs.nodes && !fs.nodes[Up(p)].Dir?)
            && ApplyEntry(fs, root, h) == Placed(WithDirs(fs, Up(p)), root, p, h.kind)
  {
    var c, name := Decode(root, h), Clean(h.name);
    var p, u := c.path, Up(c.path);
    assert u == root + Up(name) && u < p && p == u + [Last(name)];
    assert name[0] != ".." by { assert p[|root|] == name[0]; }
    assert ClearOn(t, cs, u) && ClearAbove(t, cs, u);
    ParentResolves(fs, t, root, cs, u);
    assert u[|root|..] == Up(name);
    ApplyIsApplied(fs, root, h);
  }

  /** What placing it shows. */
  lemma AddShows(fs: FS, t: Tree, root: Path, cs: seq<Change>, p: Path, kind: Kind)
    requires GoodRoot(fs, root) && Shows(fs, t, root, cs) && Fits(t, root, cs, Add(p, kind))
    requires Settled(fs, root, Up(p)) && !(Up(p) in fs.nodes && !fs.nodes[Up(p)].Dir?)
    ensures var r := Placed(WithDirs(fs, Up(p)), root, p, kind);
            && r.errno == OK && WellFormed(r.fs)
            && Shows(r.fs, t, root, cs + [Add(p, kind)])
  {
    var u := Up(p);
    WithDirsAtRoot(fs, root, u);
    var w := WithDirs(fs, u);
    ValueOfPlain(t, root, cs, p, kind);
    if kind.KHardLink? {
      SourceResolves(fs, t, root, cs, p, kind.source);
    } else if kind.KDir? {
      ClearMeans(t, root, cs, p);
      assert Get(View(fs), p) == MeaningAt(t, root, cs, p);
      PrefixIffMember(u, p);
    }
    PlaceIsPlaced(w, root, p, kind);
    var value := Value(root, cs, kind).value;
    PlacedShows(w, root, p, kind, value);
    WithDirsShows(fs, u);
    DirKept(w, root, p);
    AdditionMeant(View(fs), View(w), View(Placed(w, root, p, kind).fs), t, root, cs, p, kind);
  }

  /** The three trees seen: before, with the parent directories, and after the addition. */
  lemma AdditionMeant(before: Tree, mid: Tree, after: Tree, t: Tree, root: Path, cs: seq<Change>, p: Path, kind: Kind)
    requires Fits(t, root, cs, Add(p, kind)) && Value(root, cs, kind).Some?
    requires forall q :: Get(before, q) == MeaningAt(t, root, cs, q)
    requires forall q :: Get(mid, q) == if q <= Up(p) then Some(VDir) else Get(before, q)
    requires forall q :: Get(after, q) ==
                         if q == p then Value(root, cs, kind)
                         else if p < q && !kind.KDir? then None
                         else Get(mid, q)
    ensures forall q :: Get(after, q) == MeaningAt(t, root, cs + [Add(p, kind)], q)
  {
    forall q ensures Get(after, q) == MeaningAt(t, root, cs + [Add(p, kind)], q) {
      MeaningAdd(t, root, cs, p, kind, q);
      assert q <= Up(p) <==> q < p;
      assert Get(before, q) == MeaningAt(t, root, cs, q);
    }
  }

  lemma StepAdd(fs: FS, t: Tree, root: Path, cs: seq<Change>, h: Header)
    requires GoodRoot(fs, root) && Shows(fs, t, root, cs)
    requires var c := Decode(root, h); Fits(t, root, cs, c) && c.Add?
    ensures var r := ApplyEntry(fs, root, h);
            && r.errno == OK && GoodRoot(r.fs, root)
            && Shows(r.fs, t, root, cs + [Decode(root, h)])
  {
    AddIsApplied(fs, t, root, cs, h);
    AddShows(fs, t, root, cs, Decode(root, h).path, h.kind);
    EntryContained(fs, root, h);
  }

  lemma DirKept(fs: FS, root: Path, p: Path)
    requires GoodRoot(fs, root) && root < p && Names(p)
    requires Settled(fs, root, Up(p)) && IsDir(fs, Up(p))
    ensures p in fs.nodes && fs.nodes[p].Dir? ==> MkdirAll(fs, p).errno == OK
  {
    MkdirAllAt(fs, root, p);
  }

  /** The one place where the program departs from the specification on such layers: a
      directory entry is not put in place of something else. It shows a directory exactly when
      the tree so far has a directory or nothing there. */
  lemma DirEntryIff(fs: FS, t: Tree, root: Path, cs: seq<Change>, h: Header)
    requires GoodRoot(fs, root) && Shows(fs, t, root, cs)
    requires var c := Decode(root, h);
             && c.Add? && h.kind.KDir? && root < c.path && Names(c.path) && ClearAbove(t, cs, c.path)
             && (forall i :: 0 <= i < |cs| && cs[i].Add? && cs[i].path < c.path ==> cs[i].kind.KDir?)
    ensures GoodRoot(ApplyEntry(fs, root, h).fs, root)
    ensures var p, r := Decode(root, h).path, ApplyEntry(fs, root, h);
            var m := MeaningAt(t, root, cs, p);
            (r.errno == OK && Get(View(r.fs), p) == Some(VDir)) <==> (m == None || m == Some(VDir))
  {
    var name := Clean(h.name);
    var p, u := Decode(root, h).path, Up(Decode(root, h).path);
    assert u == root + Up(name) && u < p && p == u + [Last(name)];
    assert name[0] != ".." by { assert p[|root|] == name[0]; }
    assert ClearOn(t, cs, u) && ClearAbove(t, cs, u);
    ParentResolves(fs, t, root, cs, u);
    assert u[|root|..] == Up(name);
    ApplyIsApplied(fs, root, h);
    EntryContained(fs, root, h);
    WithDirsAtRoot(fs, root, u);
    PrefixIffMember(u, p);
    MkdirAllAt(WithDirs(fs, u), root, p);
    assert Get(View(fs), p) == MeaningAt(t, root, cs, p);
  }

  /** An entry "name/" of type directory. */
  function DirEntry(name: string): Header {
    Header(RawPath(false, [name, ""]), KDir)
  }

  lemma DirEntryName(name: string)
    requires Ordinary(name)
    ensures Clean(DirEntry(name).name) == [name]
  {
    CleanOntoNames(false, [], [name]);
    CleanOntoSplit(false, [], [name], [""]);
    assert [name] + [""] == [name, ""] && [""][1..] == [] && [] + [name] == [name];
  }

  /** On top of a file or a link of the tree below, such an entry changes nothing at all; the
      specification's tree has a directory there. */
  lemma DirEntryKeepsOther(fs: FS, root: Path, name: string)
    requires GoodRoot(fs, root) && Ordinary(name) && !(WHITEOUT_PREFIX <= name)
    requires root + [name] in fs.nodes && !IsDir(fs, root + [name])
    ensures var r := ApplyEntry(fs, root, DirEntry(name));
            && r.fs == fs
            && (fs.nodes[root + [name]].File? ==> r.errno != OK)
            && Get(Meaning(View(fs), root, DecodeAll(root, [DirEntry(name)])), root + [name]) == Some(VDir)
  {
    var h, cs, p := DirEntry(name), DecodeAll(root, [DirEntry(name)]), root + [name];
    DirEntryName(name);
    assert WHITEOUT_OPAQUE[..4] == WHITEOUT_PREFIX;
    assert Up([name]) == [] && root + [] == root && Up(p) == root;
    assert root[..|root|] == root;
    ApplyIsApplied(fs, root, h);
    WithDirsNothing(fs, root);
    RootSettled(fs, root);
    MkdirAllAt(fs, root, p);
    MeaningGet(View(fs), root, cs, p);
    assert cs[0] == Add(p, KDir);
    assert Added(root, cs, p) == Some(VDir);
  }

  /** For example: below the target /t there is a file a, and the layer lists "a/". */
  lemma FileStaysUnderDirEntry()
    ensures var fs := FS(map[[] := Dir, ["t"] := Dir, ["t", "a"] := File(0)], ["x"]);
            var r := ApplyEntry(fs, ["t"], DirEntry("a"));
            && GoodRoot(fs, ["t"])
            && r.errno != OK && r.fs == fs && Get(View(fs), ["t", "a"]) == Some(VFile("x"))
            && Get(Meaning(View(fs), ["t"], DecodeAll(["t"], [DirEntry("a")])), ["t", "a"]) == Some(VDir)
  {
    var root := ["t"];
    var fs := FS(map[[] := Dir, root := Dir, ["t", "a"] := File(0)], ["x"]);
    assert Up(root) == [] && Up(["t", "a"]) == root && root + ["a"] == ["t", "a"];
    assert root[..0] == [] && root[..1] == root;
    DirEntryKeepsOther(fs, root, "a");
  }

  lemma Step(fs: FS, t: Tree, root: Path, cs: seq<Change>, h: Header)
    requires GoodRoot(fs, root) && Shows(fs, t, root, cs)
    requires Fits(t, root, cs, Decode(root, h))
    ensures var r := ApplyEntry(fs, root, h);
            && r.errno == OK && GoodRoot(r.fs, root)
            && Shows(r.fs, t, root, cs + [Decode(root, h)])
  {
    var c := Decode(root, h);
    match c
    case Skip =>
      forall q ensures MeaningAt(t, root, cs + [c], q) == MeaningAt(t, root, cs, q) {
        Snoc(root, cs, c, q);
      }
    case Add(_, _) => StepAdd(fs, t, root, cs, h);
    case Hide(_) => StepMarker(fs, t, root, cs, h);
    case Opaque(_) => StepMarker(fs, t, root, cs, h);
  }

  // ----- Whole layers, and images -----

  lemma WellBehavedInit(t: Tree, root: Path, cs: seq<Change>)
    requires WellBehaved(t, root, cs) && cs != []
    ensures WellBehaved(t, root, cs[..|cs|-1]) && Fits(t, root, cs[..|cs|-1], cs[|cs|-1])
  {
    var ds := cs[..|cs|-1];
    forall i | 0 <= i < |ds| ensures Fits(t, root, ds[..i], ds[i]) {
      assert ds[..i] == cs[..i];
    }
  }

  lemma {:induction false} ExtractShows(fs: FS, root: Path, hs: seq<Header>)
    requires GoodRoot(fs, root) && WellBehaved(View(fs), root, DecodeAll(root, hs))
    ensures var r := ExtractAll(fs, root, hs);
            && r.errno == OK && GoodRoot(r.fs, root)
            && Shows(r.fs, View(fs), root, DecodeAll(root, hs))
    decreases |hs|
  {
    var cs := DecodeAll(root, hs);
    if hs == [] {
    } else {
      var n := |hs| - 1;
      assert DecodeAll(root, hs[..n]) == cs[..n];
      WellBehavedInit(View(fs), root, cs);
      ExtractShows(fs, root, hs[..n]);
      var mid := ExtractAll(fs, root, hs[..n]).fs;
      assert cs == cs[..n] + [cs[n]];
      ExtractLast(fs, root, hs);
      Step(mid, View(fs), root, cs[..n], hs[n]);
    }
  }

  // ----- Markers after entries of their own layer -----

  /** Every addition so far put something there. */
  ghost predicate AllAdded(root: Path, cs: seq<Change>) {
    forall i :: 0 <= i < |cs| && cs[i].Add? ==> Added(root, cs, cs[i].path).Some?
  }

  /** The specification's markers speak of lower layers only; the program's also remove what
      the layer itself has added. The tree is still the specified one after a marker exactly
      when the marker is not late. */
  lemma LateMarkerIff(fs: FS, t: Tree, root: Path, cs: seq<Change>, h: Header)
    requires GoodRoot(fs, root) && Shows(fs, t, root, cs) && AllAdded(root, cs)
    requires var c := Decode(root, h); Suits(t, root, cs, c) && (c.Hide? || c.Opaque?)
    ensures var c, r := Decode(root, h), ApplyEntry(fs, root, h);
            && r.errno == OK && GoodRoot(r.fs, root)
            && (Shows(r.fs, t, root, cs + [c]) <==> !Late(cs, c))
  {
    var c, r := Decode(root, h), ApplyEntry(fs, root, h);
    MarkerRemoves(fs, t, root, cs, h);
    if Late(cs, c) {
      var i :| 0 <= i < |cs| && cs[i].Add? && Hides(c, cs[i].path);
      var q := cs[i].path;
      Snoc(root, cs, c, q);
      assert Get(View(r.fs), q) == None && MeaningAt(t, root, cs + [c], q).Some?;
    } else {
      StepMarker(fs, t, root, cs, h);
    }
  }

  /** The layers that suit the tree below, in whatever order their markers come. */
  ghost predicate AllSuit(t: Tree, root: Path, cs: seq<Change>) {
    forall i :: 0 <= i < |cs| ==> Suits(t, root, cs[..i], cs[i])
  }

  ghost predicate MarkersFirst(cs: seq<Change>) {
    forall i :: 0 <= i < |cs| ==> !Late(cs[..i], cs[i])
  }

  lemma {:induction false} SuitingAdded(t: Tree, root: Path, cs: seq<Change>)
    requires AllSuit(t, root, cs)
    ensures AllAdded(root, cs)
    decreases |cs|
  {
    if cs != [] {
      var n := |cs| - 1;
      var ds, c := cs[..n], cs[n];
      SuitPrefix(t, root, cs, n);
      SuitingAdded(t, root, ds);
      assert Suits(t, root, ds, c);
      assert cs == ds + [c];
      OneMoreAdded(t, root, ds, c);
    }
  }

  lemma SuitPrefix(t: Tree, root: Path, cs: seq<Change>, n: nat)
    requires AllSuit(t, root, cs) && n <= |cs|
    ensures AllSuit(t, root, cs[..n])
  {
    forall i | 0 <= i < n ensures Suits(t, root, cs[..n][..i], cs[..n][i]) {
      assert cs[..n][..i] == cs[..i];
    }
  }

  lemma OneMoreAdded(t: Tree, root: Path, ds: seq<Change>, c: Change)
    requires AllAdded(root, ds) && Suits(t, root, ds, c)
    ensures AllAdded(root, ds + [c])
  {
    var cs := ds + [c];
    forall i | 0 <= i < |cs| && cs[i].Add? ensures Added(root, cs, cs[i].path).Some? {
      Snoc(root, ds, c, cs[i].path);
      assert i < |ds| ==> ds[i] == cs[i];
    }
  }

  lemma DecodePrefix(root: Path, hs: seq<Header>, k: nat)
    requires k <= |hs|
    ensures DecodeAll(root, hs[..k]) == DecodeAll(root, hs)[..k]
  {
  }

  /** After k entries the tree is what the specification says of these entries. */
  ghost predicate MeantAt(fs: FS, root: Path, hs: seq<Header>, k: nat)
    requires InodesExist(fs) && k <= |hs|
  {
    var r := ExtractAll(fs, root, hs[..k]);
    r.errno == OK && GoodRoot(r.fs, root) && Shows(r.fs, View(fs), root, DecodeAll(root, hs)[..k])
  }

  ghost predicate MeantThroughout(fs: FS, root: Path, hs: seq<Header>)
    requires InodesExist(fs)
  {
    forall k :: 0 <= k <= |hs| ==> MeantAt(fs, root, hs, k)
  }

  /** Exactly when a layer means at every moment what the specification says: no marker in it
      comes after an entry that it would hide. */
  lemma MarkersFirstIff(fs: FS, root: Path, hs: seq<Header>)
    requires GoodRoot(fs, root) && AllSuit(View(fs), root, DecodeAll(root, hs))
    ensures MeantThroughout(fs, root, hs) <==> MarkersFirst(DecodeAll(root, hs))
  {
    if MarkersFirst(DecodeAll(root, hs)) {
      forall k | 0 <= k <= |hs| ensures MeantAt(fs, root, hs, k) {
        FirstIsMeant(fs, root, hs, k);
      }
    } else {
      var i :| 0 <= i < |hs| && Late(DecodeAll(root, hs)[..i], DecodeAll(root, hs)[i]);
      LateIsNotMeant(fs, root, hs, i);
    }
  }

  lemma FirstIsMeant(fs: FS, root: Path, hs: seq<Header>, k: nat)
    requires GoodRoot(fs, root) && AllSuit(View(fs), root, DecodeAll(root, hs))
    requires MarkersFirst(DecodeAll(root, hs)) && k <= |hs|
    ensures MeantAt(fs, root, hs, k)
  {
    var cs := DecodeAll(root, hs);
    DecodePrefix(root, hs, k);
    forall i | 0 <= i < k ensures Fits(View(fs), root, cs[..k][..i], cs[..k][i]) {
      assert cs[..k][..i] == cs[..i];
      assert Suits(View(fs), root, cs[..i], cs[i]) && !Late(cs[..i], cs[i]);
    }
    ExtractShows(fs, root, hs[..k]);
  }

  lemma ExtractNext(fs: FS, root: Path, hs: seq<Header>, i: nat)
    requires i < |hs| && ExtractAll(fs, root, hs[..i]).errno == OK
    ensures ExtractAll(fs, root, hs[..i+1]) == ApplyEntry(ExtractAll(fs, root, hs[..i]).fs, root, hs[i])
  {
    assert hs[..i+1][..i] == hs[..i];
    ExtractLast(fs, root, hs[..i+1]);
  }

  lemma LateIsNotMeant(fs: FS, root: Path, hs: seq<Header>, i: nat)
    requires GoodRoot(fs, root) && AllSuit(View(fs), root, DecodeAll(root, hs))
    requires i < |hs| && Late(DecodeAll(root, hs)[..i], DecodeAll(root, hs)[i])
    ensures !(MeantAt(fs, root, hs, i) && MeantAt(fs, root, hs, i + 1))
  {
    var cs := DecodeAll(root, hs);
    assert cs[..i+1] == cs[..i] + [cs[i]] && cs[i] == Decode(root, hs[i]);
    SuitPrefix(View(fs), root, cs, i);
    SuitingAdded(View(fs), root, cs[..i]);
    if MeantAt(fs, root, hs, i) {
      ExtractNext(fs, root, hs, i);
      LateMarkerIff(ExtractAll(fs, root, hs[..i]).fs, View(fs), root, cs[..i], hs[i]);
    }
  }

  /** A layer that lists a file and then a marker for its name. */
  function OwnMarker(name: string, body: string): seq<Header> {
    [Header(RawPath(false, [name]), KReg(body)), Header(RawPath(false, [WHITEOUT_PREFIX + name]), KReg(""))]
  }

  lemma WhiteoutOf(name: string)
    requires Ordinary(name) && !(WHITEOUT_PREFIX <= name)
    ensures var base := WHITEOUT_PREFIX + name;
            Ordinary(base) && base != WHITEOUT_OPAQUE && IsWhiteout(base) && Suffix(base) == name
    ensures name != WHITEOUT_OPAQUE && !IsWhiteout(name)
  {
    var base := WHITEOUT_PREFIX + name;
    assert base[4..] == name && WHITEOUT_PREFIX <= base;
    assert WHITEOUT_OPAQUE[..4] == WHITEOUT_PREFIX && WHITEOUT_OPAQUE[4..][..4] == WHITEOUT_PREFIX;
  }

  lemma OwnMarkerDecodes(root: Path, name: string, body: string)
    requires Ordinary(name) && !(WHITEOUT_PREFIX <= name)
    ensures DecodeAll(root, OwnMarker(name, body)) == [Add(root + [name], KReg(body)), Hide(root + [name])]
    ensures PlainMarkers(OwnMarker(name, body))
    ensures Clean(OwnMarker(name, body)[0].name) == [name]
    ensures Clean(OwnMarker(name, body)[1].name) == [WHITEOUT_PREFIX + name]
  {
    var hs := OwnMarker(name, body);
    WhiteoutOf(name);
    TopName(name);
    TopName(WHITEOUT_PREFIX + name);
    TopDecodes(root, hs[0], name);
    TopDecodes(root, hs[1], WHITEOUT_PREFIX + name);
    assert |DecodeAll(root, hs)| == 2;
  }

  lemma TopName(name: string)
    requires Ordinary(name)
    ensures Clean(RawPath(false, [name])) == [name]
  {
    CleanOntoNames(false, [], [name]);
    assert [] + [name] == [name];
  }

  lemma TopDecodes(root: Path, h: Header, name: string)
    requires Clean(h.name) == [name] && name != WHITEOUT_OPAQUE
    ensures Decode(root, h) == if IsWhiteout(name) then Hide(root + [Suffix(name)]) else Add(root + [name], h.kind)
  {
    assert Up([name]) == [] && root + [] == root;
  }

  lemma OwnFileMeant(t: Tree, root: Path, name: string, body: string)
    ensures var p := root + [name];
            Get(Meaning(t, root, [Add(p, KReg(body)), Hide(p)]), p) == Some(VFile(body))
  {
    var p := root + [name];
    var cs := [Add(p, KReg(body)), Hide(p)];
    MeaningGet(t, root, cs, p);
    assert cs[..1] == [cs[0]] && [cs[0]][0] == cs[0];
    assert Added(root, cs[..1], p) == Some(VFile(body));
    assert Added(root, cs, p) == Added(root, cs[..1], p);
  }

  /** A whiteout directly below the target. */
  lemma TopWhiteout(fs: FS, root: Path, h: Header, name: string)
    requires GoodRoot(fs, root) && Ordinary(name) && !(WHITEOUT_PREFIX <= name)
    requires Clean(h.name) == [WHITEOUT_PREFIX + name] && PlainMarker(h)
    ensures ApplyEntry(fs, root, h) == Ret(Prune(fs, root + [name]), OK)
  {
    WhiteoutOf(name);
    ApplyIsApplied(fs, root, h);
    assert Up([WHITEOUT_PREFIX + name]) == [] && root + [] == root && root[..|root|] == root;
  }

  /** A file directly below the target. */
  lemma TopFile(fs: FS, root: Path, h: Header, name: string)
    requires GoodRoot(fs, root) && Ordinary(name) && !(WHITEOUT_PREFIX <= name)
    requires Clean(h.name) == [name] && PlainMarker(h) && h.kind.KReg?
    ensures ApplyEntry(fs, root, h).errno == OK
  {
    WhiteoutOf(name);
    ApplyIsApplied(fs, root, h);
    assert Up([name]) == [] && root + [] == root && root[..|root|] == root;
  }

  /** Extracted onto any tree, such a layer leaves nothing at the name; the specification's
      tree has the file there. */
  lemma OwnMarkerDiffers(fs: FS, root: Path, name: string, body: string)
    requires GoodRoot(fs, root) && Ordinary(name) && !(WHITEOUT_PREFIX <= name)
    ensures var r, cs := ExtractAll(fs, root, OwnMarker(name, body)), DecodeAll(root, OwnMarker(name, body));
            && r.errno == OK && GoodRoot(r.fs, root)
            && root + [name] !in r.fs.nodes
            && Get(Meaning(View(fs), root, cs), root + [name]) == Some(VFile(body))
  {
    var hs := OwnMarker(name, body);
    OwnMarkerDecodes(root, name, body);
    OwnFileMeant(View(fs), root, name, body);
    EntryContained(fs, root, hs[0]);
    TopFile(fs, root, hs[0], name);
    var mid := ApplyEntry(fs, root, hs[0]).fs;
    TopWhiteout(mid, root, hs[1], name);
    EntryContained(mid, root, hs[1]);
    assert hs[1..] == [hs[1]];
    ExtractOne(mid, root, hs[1]);
  }

  /** For example: below the target /t, the stream a, .wh.a. */
  lemma OwnFileIsLost()
    ensures var fs := FS(map[[] := Dir, ["t"] := Dir], []);
            var r := ExtractAll(fs, ["t"], OwnMarker("a", "x"));
            && GoodRoot(fs, ["t"])
            && r.errno == OK && ["t", "a"] !in r.fs.nodes
            && Get(Meaning(View(fs), ["t"], DecodeAll(["t"], OwnMarker("a", "x"))), ["t", "a"]) == Some(VFile("x"))
  {
    var root := ["t"];
    var fs := FS(map[[] := Dir, root := Dir], []);
    assert Up(root) == [] && root + ["a"] == ["t", "a"];
    assert root[..0] == [] && root[..1] == root;
    OwnMarkerDiffers(fs, root, "a", "x");
  }

  /** All paths a layer's entries mention, with the directories above them. */
  function Mentioned(cs: seq<Change>): set<Path> {
    if cs == [] then {}
    else (if cs[0].Add? then Prefixes(cs[0].path) else {}) + Mentioned(cs[1..])
  }

  lemma MentionedHas(cs: seq<Change>, i: nat, p: Path)
    requires i < |cs| && cs[i].Add? && p <= cs[i].path
    ensures p in Mentioned(cs)
    decreases |cs|
  {
    if i == 0 {
      PrefixIffMember(cs[0].path, p);
    } else {
      MentionedHas(cs[1..], i - 1, p);
    }
  }

  /** The tree a layer turns t into. */
  ghost function Meaning(t: Tree, root: Path, cs: seq<Change>): Tree {
    map p | p in t.Keys + Mentioned(cs) && MeaningAt(t, root, cs, p).Some? :: MeaningAt(t, root, cs, p).value
  }

  lemma MeaningGet(t: Tree, root: Path, cs: seq<Change>, p: Path)
    ensures Get(Meaning(t, root, cs), p) == MeaningAt(t, root, cs, p)
  {
    if MeaningAt(t, root, cs, p).Some? && p !in t {
      AddedBy(root, cs, p);
      if Added(root, cs, p).Some? {
        var i :| 0 <= i < |cs| && cs[i].Add? && cs[i].path == p;
        MentionedHas(cs, i, p);
      } else {
        var i :| 0 <= i < |cs| && cs[i].Add? && p < cs[i].path;
        MentionedHas(cs, i, p);
      }
    }
  }

  /** Changeset refinement: extracting a layer in stream order gives the specification's
      two-phase meaning, over the whole host tree. */
  lemma ExtractIsChangeset(fs: FS, root: Path, hs: seq<Header>)
    requires GoodRoot(fs, root) && WellBehaved(View(fs), root, DecodeAll(root, hs))
    ensures var r := ExtractAll(fs, root, hs);
            && r.errno == OK && GoodRoot(r.fs, root)
            && View(r.fs) == Meaning(View(fs), root, DecodeAll(root, hs))
  {
    ExtractShows(fs, root, hs);
    var v, m := View(ExtractAll(fs, root, hs).fs), Meaning(View(fs), root, DecodeAll(root, hs));
    forall p ensures Get(v, p) == Get(m, p) {
      MeaningGet(View(fs), root, DecodeAll(root, hs), p);
    }
    SameTree(v, m);
  }

  lemma SameTree(a: Tree, b: Tree)
    requires forall p :: Get(a, p) == Get(b, p)
    ensures a == b
  {
    forall p ensures p in a <==> p in b {
      assert Get(a, p) == Get(b, p);
    }
    forall p | p in a ensures a[p] == b[p] {
      assert Get(a, p) == Get(b, p);
    }
  }

  /** The layers of an image, bottom first. */
  function ExtractLayers(fs: FS, root: Path, layers: seq<seq<Header>>): Ret
    decreases |layers|
  {
    if layers == [] then Ret(fs, OK)
    else
      var r := ExtractAll(fs, root, layers[0]);
      if r.errno != OK then r else ExtractLayers(r.fs, root, layers[1..])
  }

  ghost function LayersMeaning(t: Tree, root: Path, layers: seq<seq<Header>>): Tree
    decreases |layers|
  {
    if layers == [] then t
    else LayersMeaning(Meaning(t, root, DecodeAll(root, layers[0])), root, layers[1..])
  }

  ghost predicate LayersBehave(t: Tree, root: Path, layers: seq<seq<Header>>)
    decreases |layers|
  {
    layers == [] ||
    (&& WellBehaved(t, root, DecodeAll(root, layers[0]))
     && LayersBehave(Meaning(t, root, DecodeAll(root, layers[0])), root, layers[1..]))
  }

  /** The refinement lifts to any number of layers. */
  lemma {:induction false} LayersAreChangesets(fs: FS, root: Path, layers: seq<seq<Header>>)
    requires GoodRoot(fs, root) && LayersBehave(View(fs), root, layers)
    ensures var r := ExtractLayers(fs, root, layers);
            && r.errno == OK && GoodRoot(r.fs, root)
            && View(r.fs) == LayersMeaning(View(fs), root, layers)
    decreases |layers|
  {
    if layers != [] {
      ExtractIsChangeset(fs, root, layers[0]);
      LayersAreChangesets(ExtractAll(fs, root, layers[0]).fs, root, layers[1..]);
    }
  }

  predicate AllPlainMarkers(layers: seq<seq<Header>>) {
    forall i :: 0 <= i < |layers| ==> PlainMarkers(layers[i])
  }

  function LayerStep(root: Path): (FS, seq<Header>) -> Ret {
    (fs, hs) => ExtractAll(fs, root, hs)
  }

  /** An image succeeds exactly when each layer does; otherwise it ends with the first failure. */
  lemma {:induction false} LayersStop(fs: FS, root: Path, layers: seq<seq<Header>>)
    ensures StopsAtFailure(LayerStep(root), fs, layers, ExtractLayers(fs, root, layers))
    decreases |layers|
  {
    if layers != [] {
      var r := ExtractAll(fs, root, layers[0]);
      if r.errno != OK {
        StopsAtOnce(LayerStep(root), fs, layers);
      } else {
        LayersStop(r.fs, root, layers[1..]);
        StopsLater(LayerStep(root), fs, layers, ExtractLayers(r.fs, root, layers[1..]));
      }
    }
  }

  /** Each layer that is reached stays inside the target. */
  predicate LayersStay(fs: FS, root: Path, layers: seq<seq<Header>>)
    decreases |layers|
  {
    layers == [] ||
    (&& StreamStays(fs, root, layers[0])
     && var r := ExtractAll(fs, root, layers[0]);
        r.errno == OK ==> LayersStay(r.fs, root, layers[1..]))
  }

  /** At no moment does anything outside root differ from the layer's start. */
  ghost predicate LayersContained(fs: FS, root: Path, layers: seq<seq<Header>>)
    decreases |layers|
  {
    layers == [] ||
    (&& StreamContained(fs, root, layers[0])
     && var r := ExtractAll(fs, root, layers[0]);
        r.errno == OK ==> LayersContained(r.fs, root, layers[1..]))
  }

  lemma {:induction false} LayersContainedIff(fs: FS, root: Path, layers: seq<seq<Header>>)
    requires GoodRoot(fs, root)
    ensures LayersContained(fs, root, layers) <==> LayersStay(fs, root, layers)
    decreases |layers|
  {
    if layers != [] {
      StreamContainedIff(fs, root, layers[0]);
      if StreamStays(fs, root, layers[0]) {
        StreamKeeps(fs, root, layers[0]);
        var r := ExtractAll(fs, root, layers[0]);
        if r.errno == OK {
          LayersContainedIff(r.fs, root, layers[1..]);
        }
      }
    }
  }

  lemma {:induction false} LayersKeep(fs: FS, root: Path, layers: seq<seq<Header>>)
    requires GoodRoot(fs, root) && LayersStay(fs, root, layers)
    ensures var r := ExtractLayers(fs, root, layers);
            GoodRoot(r.fs, root) && Contained(root, fs, r.fs)
    decreases |layers|
  {
    if layers != [] {
      StreamKeeps(fs, root, layers[0]);
      var r := ExtractAll(fs, root, layers[0]);
      if r.errno == OK {
        LayersKeep(r.fs, root, layers[1..]);
        ContainedTwice(root, fs, r.fs, ExtractLayers(r.fs, root, layers[1..]).fs);
      }
    }
  }

  lemma {:induction false} PlainLayersStay(fs: FS, root: Path, layers: seq<seq<Header>>)
    requires GoodRoot(fs, root) && AllPlainMarkers(layers)
    ensures LayersStay(fs, root, layers)
    decreases |layers|
  {
    if layers != [] {
      PlainStays(fs, root, layers[0]);
      ExtractContained(fs, root, layers[0]);
      var r := ExtractAll(fs, root, layers[0]);
      if r.errno == OK {
        PlainLayersStay(r.fs, root, layers[1..]);
      }
    }
  }

  /** The layer loop of ExtractImage. */
  method ExtractImage(disk: Disk, root: Path, layers: seq<seq<Header>>) returns (e: Errno)
    modifies disk
    ensures old(GoodRoot(disk.fs, root) && LayersStay(disk.fs, root, layers)) ==>
              && Ret(disk.fs, e) == ExtractLayers(old(disk.fs), root, layers)
              && GoodRoot(disk.fs, root) && Contained(root, old(disk.fs), disk.fs)
  {
    ghost var before := disk.fs;
    ghost var good := GoodRoot(before, root) && LayersStay(before, root, layers);
    if good {
      LayersKeep(before, root, layers);
    }
    for i := 0 to |layers|
      invariant good ==> GoodRoot(disk.fs, root) && LayersStay(disk.fs, root, layers[i..])
      invariant good ==> ExtractLayers(disk.fs, root, layers[i..]) == ExtractLayers(before, root, layers)
    {
      if good {
        assert layers[i..][0] == layers[i] && layers[i..][1..] == layers[i+1..];
        StreamKeeps(disk.fs, root, layers[i]);
      }
      e := ExtractTar(disk, root, layers[i]);
      if e != OK {
        return;
      }
    }
    e := OK;
  }
}
