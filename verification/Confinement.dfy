/**
 What secureJoin is meant to compute: the place a process confined to `root` would reach.
 The reference resolver below goes component by component and never cleans anything.
 */
module Confinement {
  import opened Paths
  import opened FileTree
  import opened Resolution

  /** Component-by-component resolution with `root` as "/". Missing names are taken literally,
      a name below a file is an error, at most `links` links are followed. */
  function Confined(fs: FS, root: Path, at: Path, parts: seq<string>, links: nat): Found
    decreases links, |parts|
  {
    if parts == [] then At(root + at)
    else if parts[0] == "" || parts[0] == "." then Confined(fs, root, at, parts[1..], links)
    else if parts[0] == ".." then Confined(fs, root, Up(at), parts[1..], links)
    else
      var next := at + [parts[0]];
      if root + at in fs.nodes && fs.nodes[root + at].File? then Fail(ENOTDIR)
      else if root + next in fs.nodes && fs.nodes[root + next].Link? then
        var t := fs.nodes[root + next].target;
        if links == 0 then Fail(TooManyLinks)
        else Confined(fs, root, if t.abs then [] else at, t.parts + parts[1..], links - 1)
      else Confined(fs, root, next, parts[1..], links)
  }

  /** ".." occurs only before the first ordinary name. */
  predicate Tame(parts: seq<string>) {
    parts == [] || if Ordinary(parts[0]) then NoDotDot(parts[1..]) else Tame(parts[1..])
  }

  /** The components that mean something. */
  function Strip(parts: seq<string>): seq<string> {
    if parts == [] then []
    else if parts[0] == "" || parts[0] == "." then Strip(parts[1..])
    else [parts[0]] + Strip(parts[1..])
  }

  /** The same tree, except that link targets may be written differently: each one has ".."
      only in front and the same cleaned form. */
  ghost predicate SameUpToCleaning(fs: FS, other: FS) {
    && fs.nodes.Keys == other.nodes.Keys
    && forall p :: p in fs.nodes ==>
         if fs.nodes[p].Link? then
           && other.nodes[p].Link?
           && SameTarget(fs.nodes[p].target, other.nodes[p].target)
         else other.nodes[p] == fs.nodes[p]
  }

  predicate SameTarget(t: RawPath, u: RawPath) {
    t.abs == u.abs && Clean(t) == Clean(u) && Tame(u.parts)
  }

  /** The tree with every link target cleaned lexically. */
  function CleanLinks(fs: FS): FS {
    fs.(nodes := map p | p in fs.nodes ::
      match fs.nodes[p]
      case Link(t) => Link(RawPath(t.abs, Clean(t)))
      case n => n)
  }

  // ----- Cleaning and stripping -----

  lemma {:induction false} StripConcat(a: seq<string>, b: seq<string>)
    ensures Strip(a + b) == Strip(a) + Strip(b)
    decreases |a|
  {
    if a == [] {
      assert a + b == b;
    } else {
      assert (a + b)[0] == a[0] && (a + b)[1..] == a[1..] + b;
      StripConcat(a[1..], b);
    }
  }

  lemma {:induction false} CleanOntoNoDotDot(abs: bool, out: Path, parts: seq<string>)
    requires NoDotDot(parts)
    ensures CleanOnto(abs, out, parts) == out + Strip(parts)
    decreases |parts|
  {
    if parts == [] {
    } else if parts[0] == "" || parts[0] == "." {
      CleanOntoNoDotDot(abs, out, parts[1..]);
    } else {
      assert parts[0] != "..";
      CleanOntoNoDotDot(abs, out + [parts[0]], parts[1..]);
      assert Strip(parts) == [parts[0]] + Strip(parts[1..]);
      assert out + [parts[0]] + Strip(parts[1..]) == out + ([parts[0]] + Strip(parts[1..]));
    }
  }

  predicate AllUp(p: Path) {
    forall i :: 0 <= i < |p| ==> p[i] == ".."
  }

  /** Cleaning a relative path with ".." only in front drops the empty and "." components;
      cleaning an absolute one also drops the leading "..". */
  lemma {:induction false} CleanTame(abs: bool, ups: Path, parts: seq<string>)
    requires Tame(parts) && AllUp(ups) && (abs ==> ups == [])
    ensures var s := Strip(parts);
            CleanOnto(abs, ups, parts) == ups + if abs then s[Climb(s)..] else s
    decreases |parts|
  {
    if parts == [] {
    } else if parts[0] == "" || parts[0] == "." {
      CleanTame(abs, ups, parts[1..]);
    } else if parts[0] == ".." {
      if abs {
        CleanTame(abs, ups, parts[1..]);
        assert Strip(parts)[1..] == Strip(parts[1..]);
      } else {
        CleanTame(abs, ups + [".."], parts[1..]);
        assert ups + [".."] + Strip(parts[1..]) == ups + Strip(parts);
      }
    } else {
      assert NoDotDot(parts[1..]);
      CleanOntoNoDotDot(abs, ups + [parts[0]], parts[1..]);
      assert ups + [parts[0]] + Strip(parts[1..]) == ups + Strip(parts);
    }
  }

  lemma StripClean(p: Path)
    requires forall i :: 0 <= i < |p| ==> p[i] != "" && p[i] != "."
    ensures Strip(p) == p
    decreases |p|
  {
    if p != [] {
      StripClean(p[1..]);
    }
  }

  lemma {:induction false} UpsThenNamesTame(p: Path)
    requires Names(p[Climb(p)..])
    ensures Tame(p) && Strip(p) == p
    decreases |p|
  {
    if p == [] {
    } else if p[0] == ".." {
      assert p[1..][Climb(p[1..])..] == p[Climb(p)..];
      UpsThenNamesTame(p[1..]);
    } else {
      assert p[0..] == p;
      StripClean(p);
    }
  }

  lemma CleanFormTame(abs: bool, p: Path)
    requires CleanForm(abs, p)
    ensures Tame(p) && Strip(p) == p
  {
    UpsThenNamesTame(p);
  }

  /** Lexical cleaning is idempotent. */
  lemma CleanTwice(t: RawPath)
    ensures Clean(RawPath(t.abs, Clean(t))) == Clean(t)
  {
    CleanIsForm(t);
    CleanFormTame(t.abs, Clean(t));
    CleanTame(t.abs, [], Clean(t));
  }

  lemma CleanLinksSame(fs: FS)
    ensures SameUpToCleaning(fs, CleanLinks(fs))
  {
    forall p | p in fs.nodes && fs.nodes[p].Link?
      ensures SameTarget(fs.nodes[p].target, CleanLinks(fs).nodes[p].target)
    {
      var t := fs.nodes[p].target;
      CleanTwice(t);
      CleanIsForm(t);
      CleanFormTame(t.abs, Clean(t));
    }
  }

  // ----- The refinement -----

  /** Leading ".." components do nothing at the root. */
  lemma ResolveClimb(fs: FS, root: Path, parts: seq<string>, links: nat)
    ensures Resolve(fs, root, [], parts, links) == Resolve(fs, root, [], parts[Climb(parts)..], links)
    decreases |parts|
  {
    if parts != [] && parts[0] == ".." {
      ResolveClimb(fs, root, parts[1..], links);
      assert parts[Climb(parts)..] == parts[1..][Climb(parts[1..])..];
    }
  }

  lemma {:induction false} NoDotDotTame(rest: seq<string>)
    requires NoDotDot(rest)
    ensures Tame(rest)
    decreases |rest|
  {
    if rest != [] {
      NoDotDotTame(rest[1..]);
    }
  }

  lemma {:induction false} TameAppend(a: seq<string>, b: seq<string>)
    requires Tame(a) && NoDotDot(b)
    ensures Tame(a + b)
    decreases |a|
  {
    if a == [] {
      assert a + b == b;
      NoDotDotTame(b);
    } else {
      assert (a + b)[0] == a[0] && (a + b)[1..] == a[1..] + b;
      if !Ordinary(a[0]) {
        TameAppend(a[1..], b);
      }
    }
  }

  lemma CleanThenRest(t: RawPath, rest: seq<string>)
    requires NoDotDot(rest)
    ensures Clean(RawPath(t.abs, t.parts + Strip(rest))) == Clean(t) + Strip(rest)
  {
    var r := Strip(rest);
    NoDotDotStrip(rest);
    StripClean(r);
    CleanOntoNoDotDot(t.abs, Clean(t), r);
    CleanOntoSplit(t.abs, [], t.parts, r);
  }

  lemma StripThenRest(abs: bool, u: seq<string>, rest: seq<string>)
    requires NoDotDot(rest)
    ensures var s, w := Strip(u), Strip(u + rest);
            if abs then w[Climb(w)..] == s[Climb(s)..] + Strip(rest) else w == s + Strip(rest)
  {
    StripConcat(u, rest);
    NoDotDotStrip(rest);
    ClimbConcat(Strip(u), Strip(rest));
  }

  /** The remainder that secureJoin continues with after a link, against the plain one. */
  lemma AfterLink(t: RawPath, u: RawPath, rest: seq<string>)
    requires SameTarget(t, u) && NoDotDot(rest)
    ensures var w := Strip(u.parts + rest);
            Clean(RawPath(t.abs, t.parts + Strip(rest))) == if t.abs then w[Climb(w)..] else w
  {
    CleanThenRest(t, rest);
    StripThenRest(t.abs, u.parts, rest);
    CleanTame(u.abs, [], u.parts);
  }

  lemma NoDotDotStrip(rest: seq<string>)
    requires NoDotDot(rest)
    ensures NoDotDot(Strip(rest))
    ensures forall i :: 0 <= i < |Strip(rest)| ==> Strip(rest)[i] != "" && Strip(rest)[i] != "."
    decreases |rest|
  {
    if rest != [] {
      NoDotDotStrip(rest[1..]);
    }
  }

  lemma ClimbConcat(s: seq<string>, r: seq<string>)
    requires NoDotDot(r)
    ensures Climb(s + r) == Climb(s)
    decreases |s|
  {
    if s == [] {
      assert s + r == r;
    } else {
      assert (s + r)[0] == s[0] && (s + r)[1..] == s[1..] + r;
      ClimbConcat(s[1..], r);
    }
  }

  /** One link, followed on both sides. */
  lemma FollowBoth(fs: FS, root: Path, at: Path, t: RawPath, u: RawPath, rest: seq<string>, links: nat)
    requires SameTarget(t, u) && NoDotDot(rest)
    ensures Tame(u.parts + rest)
    ensures var at' := if t.abs then [] else at;
            Resolve(fs, root, at', Clean(RawPath(t.abs, t.parts + Strip(rest))), links)
            == Resolve(fs, root, at', Strip(u.parts + rest), links)
  {
    AfterLink(t, u, rest);
    TameAppend(u.parts, rest);
    ResolveClimb(fs, root, Strip(u.parts + rest), links);
  }

  lemma TameTail(parts: seq<string>)
    requires Tame(parts) && parts != []
    ensures Tame(parts[1..])
    ensures Ordinary(parts[0]) ==> NoDotDot(parts[1..])
  {
    if Ordinary(parts[0]) {
      NoDotDotTame(parts[1..]);
    }
  }

  lemma {:induction false} ResolveIsConfined(fs: FS, other: FS, root: Path, at: Path, parts: seq<string>, links: nat)
    requires GoodRoot(fs, root) && Settled(fs, root, root + at)
    requires SameUpToCleaning(fs, other) && Tame(parts)
    ensures Resolve(fs, root, at, Strip(parts), links) == Confined(other, root, at, parts, links)
    decreases links, |parts|
  {
    if parts == [] {
    } else {
      TameTail(parts);
      var s := Strip(parts);
      if parts[0] == "" || parts[0] == "." {
        ResolveIsConfined(fs, other, root, at, parts[1..], links);
      } else if parts[0] == ".." {
        if at != [] {
          SettledUp(fs, root, root + at);
          assert Up(root + at) == root + Up(at);
        }
        assert s[1..] == Strip(parts[1..]);
        ResolveIsConfined(fs, other, root, Up(at), parts[1..], links);
      } else {
        assert s[1..] == Strip(parts[1..]);
        NameIsConfined(fs, other, root, at, parts, links);
      }
    }
  }

  /** One ordinary component of the plain resolver. */
  lemma ConfinedName(fs: FS, root: Path, at: Path, parts: seq<string>, links: nat)
    requires parts != [] && Ordinary(parts[0])
    ensures var q := root + (at + [parts[0]]);
            Confined(fs, root, at, parts, links) ==
            if root + at in fs.nodes && fs.nodes[root + at].File? then Fail(ENOTDIR)
            else if q in fs.nodes && fs.nodes[q].Link? then
              var t := fs.nodes[q].target;
              if links == 0 then Fail(TooManyLinks)
              else Confined(fs, root, if t.abs then [] else at, t.parts + parts[1..], links - 1)
            else Confined(fs, root, at + [parts[0]], parts[1..], links)
  {
  }

  lemma {:induction false} NameIsConfined(fs: FS, other: FS, root: Path, at: Path, parts: seq<string>, links: nat)
    requires GoodRoot(fs, root) && Settled(fs, root, root + at)
    requires SameUpToCleaning(fs, other)
    requires parts != [] && Ordinary(parts[0]) && NoDotDot(parts[1..]) && Tame(parts[1..])
    ensures Resolve(fs, root, at, [parts[0]] + Strip(parts[1..]), links) == Confined(other, root, at, parts, links)
    decreases links, |parts|, 0
  {
    var q, rest := root + (at + [parts[0]]), parts[1..];
    ResolveName(fs, root, at, parts[0], Strip(rest), links);
    ConfinedName(other, root, at, parts, links);
    assert root + at in fs.nodes && fs.nodes[root + at].File? <==>
           root + at in other.nodes && other.nodes[root + at].File?;
    if root + at in fs.nodes && fs.nodes[root + at].File? {
    } else if q in fs.nodes && fs.nodes[q].Link? {
      if links > 0 {
        LinkIsConfined(fs, other, root, at, q, rest, links);
      }
    } else {
      ResolveIsConfined(fs, other, root, at + [parts[0]], rest, links);
    }
  }

  lemma {:induction false} LinkIsConfined(fs: FS, other: FS, root: Path, at: Path, q: Path, rest: seq<string>, links: nat)
    requires GoodRoot(fs, root) && Settled(fs, root, root + at)
    requires SameUpToCleaning(fs, other)
    requires links > 0 && q in fs.nodes && fs.nodes[q].Link? && NoDotDot(rest)
    ensures other.nodes[q].Link?
    ensures var t, u := fs.nodes[q].target, other.nodes[q].target;
            var at' := if t.abs then [] else at;
            && u.abs == t.abs
            && Resolve(fs, root, at', Clean(RawPath(t.abs, t.parts + Strip(rest))), links - 1)
               == Confined(other, root, at', u.parts + rest, links - 1)
    decreases links, 0, 0
  {
    var t, u := fs.nodes[q].target, other.nodes[q].target;
    var at' := if t.abs then [] else at;
    RootSettled(fs, root);
    assert root + [] == root;
    FollowBoth(fs, root, at, t, u, rest, links - 1);
    ResolveIsConfined(fs, other, root, at', u.parts + rest, links - 1);
  }

  /** Dots and empty components play no role. */
  lemma {:induction false} ResolveStrip(fs: FS, root: Path, at: Path, parts: seq<string>, links: nat)
    requires Tame(parts)
    ensures Resolve(fs, root, at, parts, links) == Resolve(fs, root, at, Strip(parts), links)
    decreases |parts|
  {
    if parts == [] {
    } else if parts[0] == "" || parts[0] == "." {
      TameTail(parts);
      ResolveStrip(fs, root, at, parts[1..], links);
    } else {
      var next := at + [parts[0]];
      assert Strip(parts)[1..] == Strip(parts[1..]);
      TameTail(parts);
      ResolveStrip(fs, root, if parts[0] == ".." then Up(at) else next, parts[1..], links);
      if parts[0] != ".." && Lstat(fs, root + next).Is? && Lstat(fs, root + next).node.Link? {
        var t, rest := Lstat(fs, root + next).node.target, parts[1..];
        assert NoDotDot(rest);
        NoDotDotStrip(rest);
        StripClean(Strip(rest));
        CleanOntoSplit(t.abs, [], t.parts, rest);
        CleanOntoSplit(t.abs, [], t.parts, Strip(rest));
        CleanOntoNoDotDot(t.abs, Clean(t), rest);
        CleanOntoNoDotDot(t.abs, Clean(t), Strip(rest));
      }
    }
  }

  /** On every tree, for every path whose ".." components come first, secureJoin is the plain
      confined resolver on the tree with cleaned link targets: same result, same errors, same
      number of links. */
  lemma SecureJoinOnCleanedLinks(fs: FS, root: Path, unsafePath: seq<string>)
    requires GoodRoot(fs, root) && Tame(unsafePath)
    ensures SecureJoin(fs, root, unsafePath) == Confined(CleanLinks(fs), root, [], unsafePath, MAX_LINKS)
  {
    RootSettled(fs, root);
    assert root + [] == root;
    CleanLinksSame(fs);
    ResolveStrip(fs, root, [], unsafePath, MAX_LINKS);
    ResolveIsConfined(fs, CleanLinks(fs), root, [], unsafePath, MAX_LINKS);
  }

  ghost predicate TameLinks(fs: FS) {
    forall p :: p in fs.nodes && fs.nodes[p].Link? ==> Tame(fs.nodes[p].target.parts)
  }

  /** When link targets climb only in front, cleaning them makes no difference. */
  lemma SecureJoinIsConfined(fs: FS, root: Path, unsafePath: seq<string>)
    requires GoodRoot(fs, root) && Tame(unsafePath) && TameLinks(fs)
    ensures SecureJoin(fs, root, unsafePath) == Confined(fs, root, [], unsafePath, MAX_LINKS)
  {
    RootSettled(fs, root);
    assert root + [] == root;
    assert SameUpToCleaning(fs, fs);
    ResolveStrip(fs, root, [], unsafePath, MAX_LINKS);
    ResolveIsConfined(fs, fs, root, [], unsafePath, MAX_LINKS);
  }

  // ----- The kernel's own view after chroot(root) -----

  /** Where the kernel arrives in a process with root directory `root`, the plain resolver
      arrives too, with the same or a larger allowance of links. */
  lemma {:induction false} WalkIsConfined(fs: FS, root: Path, at: Path, parts: seq<string>, links: nat, more: nat)
    requires links <= more
    ensures var w := Walk(fs, root, root + at, parts, links);
            w.At? ==> Confined(fs, root, at, parts, more) == w
    decreases links, |parts|
  {
    if parts == [] {
    } else if parts[0] == "" || parts[0] == "." {
      WalkIsConfined(fs, root, at, parts[1..], links, more);
    } else if parts[0] == ".." {
      assert root + at == root <==> at == [];
      assert at != [] ==> Up(root + at) == root + Up(at);
      WalkIsConfined(fs, root, Up(at), parts[1..], links, more);
    } else {
      var next := at + [parts[0]];
      assert root + at + [parts[0]] == root + next;
      if root + next in fs.nodes {
        match fs.nodes[root + next]
        case Link(t) =>
          if links > 0 {
            assert root + [] == root;
            WalkIsConfined(fs, root, if t.abs then [] else at, t.parts + parts[1..], links - 1, more - 1);
          }
        case _ => WalkIsConfined(fs, root, next, parts[1..], links, more);
      }
    }
  }

  /** Below a missing name everything is literal, and missing. */
  lemma {:induction false} ConfinedMissing(fs: FS, root: Path, at: Path, parts: seq<string>, links: nat)
    requires WellFormed(fs) && NoDotDot(parts) && root + at !in fs.nodes
    ensures var c := Confined(fs, root, at, parts, links);
            c.At? && c.path !in fs.nodes
    decreases |parts|
  {
    if parts == [] {
    } else if parts[0] == "" || parts[0] == "." {
      ConfinedMissing(fs, root, at, parts[1..], links);
    } else {
      assert Up(root + (at + [parts[0]])) == root + at;
      ConfinedMissing(fs, root, at + [parts[0]], parts[1..], links);
    }
  }

  lemma {:induction false} WalkMissing(fs: FS, root: Path, at: Path, parts: seq<string>, links: nat, more: nat)
    requires links <= more && WellFormed(fs) && TameLinks(fs) && Tame(parts)
    requires Walk(fs, root, root + at, parts, links) == Fail(ENOENT)
    ensures var c := Confined(fs, root, at, parts, more);
            c.At? && c.path !in fs.nodes
    decreases links, |parts|, 1
  {
    TameTail(parts);
    if parts[0] == "" || parts[0] == "." {
      WalkMissing(fs, root, at, parts[1..], links, more);
    } else if parts[0] == ".." {
      assert root + at == root <==> at == [];
      assert at != [] ==> Up(root + at) == root + Up(at);
      WalkMissing(fs, root, Up(at), parts[1..], links, more);
    } else {
      WalkMissingName(fs, root, at, parts[0], parts[1..], links, more);
      assert [parts[0]] + parts[1..] == parts;
    }
  }

  /** One ordinary component of the kernel's walk. */
  lemma WalkName(fs: FS, root: Path, cur: Path, name: string, rest: seq<string>, links: nat)
    requires Ordinary(name)
    ensures var q := cur + [name];
            Walk(fs, root, cur, [name] + rest, links) ==
            if !IsDir(fs, cur) then Fail(ENOTDIR)
            else if q !in fs.nodes then Fail(ENOENT)
            else if fs.nodes[q].Link? then
              var t := fs.nodes[q].target;
              if links == 0 then Fail(ELOOP)
              else Walk(fs, root, if t.abs then root else cur, t.parts + rest, links - 1)
            else Walk(fs, root, q, rest, links)
  {
    var parts := [name] + rest;
    assert parts[0] == name && parts[1..] == rest;
  }

  lemma {:induction false} WalkMissingName(fs: FS, root: Path, at: Path, name: string, rest: seq<string>, links: nat, more: nat)
    requires links <= more && WellFormed(fs) && TameLinks(fs)
    requires Ordinary(name) && NoDotDot(rest)
    requires Walk(fs, root, root + at, [name] + rest, links) == Fail(ENOENT)
    ensures var c := Confined(fs, root, at, [name] + rest, more);
            c.At? && c.path !in fs.nodes
    decreases links, |rest| + 1, 0
  {
    var next, parts := at + [name], [name] + rest;
    assert parts[1..] == rest;
    assert root + at + [name] == root + next;
    ConfinedName(fs, root, at, parts, more);
    WalkName(fs, root, root + at, name, rest, links);
    if root + next !in fs.nodes {
      ConfinedMissing(fs, root, next, rest, more);
    } else if fs.nodes[root + next].Link? {
      WalkMissingLink(fs, root, at, root + next, rest, links, more);
    } else {
      NoDotDotTame(rest);
      WalkMissing(fs, root, next, rest, links, more);
    }
  }

  lemma {:induction false} WalkMissingLink(fs: FS, root: Path, at: Path, q: Path, rest: seq<string>, links: nat, more: nat)
    requires 0 < links <= more && WellFormed(fs) && TameLinks(fs)
    requires NoDotDot(rest) && q in fs.nodes && fs.nodes[q].Link?
    requires var t := fs.nodes[q].target;
             Walk(fs, root, if t.abs then root else root + at, t.parts + rest, links - 1) == Fail(ENOENT)
    ensures var t := fs.nodes[q].target;
            var c := Confined(fs, root, if t.abs then [] else at, t.parts + rest, more - 1);
            c.At? && c.path !in fs.nodes
    decreases links, 0, 0
  {
    var t := fs.nodes[q].target;
    var parts := t.parts + rest;
    TameAppend(t.parts, rest);
    if t.abs {
      assert root + [] == root;
      WalkMissing(fs, root, [], parts, links - 1, more - 1);
    } else {
      WalkMissing(fs, root, at, parts, links - 1, more - 1);
    }
  }

  /** secureJoin gives the place the kernel would reach for a process chrooted to `root`; and
      where the kernel would report a missing name, secureJoin gives a path that does not exist. */
  lemma SecureJoinIsChroot(fs: FS, root: Path, unsafePath: seq<string>)
    requires GoodRoot(fs, root) && Tame(unsafePath) && TameLinks(fs)
    ensures var w := Walk(fs, root, root, unsafePath, KERNEL_LINKS);
            var s := SecureJoin(fs, root, unsafePath);
            && (w.At? ==> s == w)
            && (w == Fail(ENOENT) ==> s.At? && s.path !in fs.nodes)
  {
    assert root + [] == root;
    SecureJoinIsConfined(fs, root, unsafePath);
    WalkIsConfined(fs, root, [], unsafePath, KERNEL_LINKS, MAX_LINKS);
    if Walk(fs, root, root, unsafePath, KERNEL_LINKS) == Fail(ENOENT) {
      WalkMissing(fs, root, [], unsafePath, KERNEL_LINKS, MAX_LINKS);
    }
  }

  /** A tree with /a -> d/e and /l -> a/../f. */
  function InnerDotDotTree(): FS {
    FS(map[[] := Dir, ["d"] := Dir, ["d", "e"] := Dir,
           ["a"] := Link(RawPath(false, ["d", "e"])),
           ["l"] := Link(RawPath(false, ["a", "..", "f"]))], [])
  }

  lemma InnerDotDotRoot(fs: FS)
    requires fs == InnerDotDotTree()
    ensures GoodRoot(fs, [])
  {
    assert Up(["d", "e"]) == ["d"];
  }

  lemma InnerDotDotCleaned()
    ensures Clean(RawPath(false, ["a", "..", "f"])) == ["f"]
  {
    assert ["a", "..", "f"][1..] == ["..", "f"];
    assert ["..", "f"][1..] == ["f"];
  }

  /** The condition on link targets is needed: in this tree secureJoin cancels "a/.." without
      looking at a, where following a would have led into /d. */
  lemma InnerDotDotDiffers()
    ensures var fs := InnerDotDotTree();
            && GoodRoot(fs, [])
            && SecureJoin(fs, [], ["l"]) == At(["f"])
            && Confined(fs, [], [], ["l"], MAX_LINKS) == At(["d", "f"])
  {
    var fs := InnerDotDotTree();
    InnerDotDotRoot(fs);
    InnerDotDotJoined(fs);
    InnerDotDotFollowed(fs);
  }

  lemma InnerDotDotJoined(fs: FS)
    requires fs == InnerDotDotTree() && GoodRoot(fs, [])
    ensures SecureJoin(fs, [], ["l"]) == At(["f"])
  {
    var root: Path := [];
    var l := fs.nodes[["l"]].target;
    RootSettled(fs, root);
    InnerDotDotCleaned();
    assert root + ([] + ["l"]) == ["l"] && root + ([] + ["f"]) == ["f"] && root + [] == root;
    assert ["l"] + [] == ["l"] && l.parts + [] == l.parts && ["f"] + [] == ["f"];
    ResolveName(fs, root, [], "l", [], MAX_LINKS);
    ResolveName(fs, root, [], "f", [], MAX_LINKS - 1);
    assert Resolve(fs, root, ["f"], [], MAX_LINKS - 1) == At(["f"]);
  }

  lemma InnerDotDotFollowed(fs: FS)
    requires fs == InnerDotDotTree()
    ensures Confined(fs, [], [], ["l"], MAX_LINKS) == At(["d", "f"])
  {
    var root: Path, l, a := [], ["a", "..", "f"], ["d", "e", "..", "f"];
    assert root + ([] + ["l"]) == ["l"] && root + ([] + ["a"]) == ["a"];
    assert l + ["l"][1..] == l && ["d", "e"] + l[1..] == a;
    ConfinedName(fs, root, [], ["l"], MAX_LINKS);
    ConfinedName(fs, root, [], l, MAX_LINKS - 1);
    InnerDotDotClimbs(fs, a);
  }

  lemma InnerDotDotClimbs(fs: FS, a: seq<string>)
    requires fs == InnerDotDotTree() && a == ["d", "e", "..", "f"]
    ensures Confined(fs, [], [], a, MAX_LINKS - 2) == At(["d", "f"])
  {
    var n, root: Path := MAX_LINKS - 2, [];
    assert root + [] == root && root + ["d"] == ["d"];
    assert [] + ["d"] == ["d"] && ["d"] + ["e"] == ["d", "e"] && root + ["d", "e"] == ["d", "e"];
    assert root + (["d"] + ["f"]) == ["d", "f"];
    assert a[1..] == ["e", "..", "f"] && ["e", "..", "f"][1..] == ["..", "f"] && ["..", "f"][1..] == ["f"];
    ConfinedName(fs, root, [], a, n);
    ConfinedName(fs, root, ["d"], ["e", "..", "f"], n);
    assert Confined(fs, root, [], a, n) == Confined(fs, root, ["d", "e"], ["..", "f"], n);
    assert Up(["d", "e"]) == ["d"];
    ConfinedName(fs, root, ["d"], ["f"], n);
  }
}
