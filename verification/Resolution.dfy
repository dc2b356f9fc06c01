/**
 secureJoin: resolving an untrusted path below a root directory, following the symbolic links
 met on the way as if that root were "/".
 */
module Resolution {
  import opened Paths
  import opened FileTree

  const MAX_LINKS: nat := 255

  // ----- The loop of secureJoin -----

  /** The rest of the resolution once `resolved` (below root) is settled, `parts` remain, and
      `links` more links may be followed. The remainder is re-joined lexically to each link
      target. */
  function Resolve(fs: FS, root: Path, resolved: Path, parts: seq<string>, links: nat): Found
    decreases links, |parts|
  {
    if parts == [] then At(root + resolved)
    else if parts[0] == "" || parts[0] == "." then Resolve(fs, root, resolved, parts[1..], links)
    else if parts[0] == ".." then Resolve(fs, root, Up(resolved), parts[1..], links)
    else
      var next := resolved + [parts[0]];
      match Lstat(fs, root + next)
      case No(e) => if e == ENOENT then Resolve(fs, root, next, parts[1..], links) else Fail(e)
      case Is(Link(t)) =>
        if links == 0 then Fail(TooManyLinks)
        else
          Resolve(fs, root, if t.abs then [] else resolved,
                  Clean(RawPath(t.abs, t.parts + parts[1..])), links - 1)
      case Is(_) => Resolve(fs, root, next, parts[1..], links)
  }

  function SecureJoin(fs: FS, root: Path, unsafePath: seq<string>): Found {
    Resolve(fs, root, [], unsafePath, MAX_LINKS)
  }

  lemma ResolveFailsWithError(fs: FS, root: Path, resolved: Path, parts: seq<string>, links: nat)
    ensures Resolve(fs, root, resolved, parts, links) != Fail(OK)
    decreases links, |parts|
  {
    if parts != [] {
      LocateFailsWithError(fs, root + (resolved + [parts[0]]));
    }
  }

  /** One turn of the loop. */
  lemma ResolveTurn(fs: FS, root: Path, resolved: Path, parts: seq<string>, links: nat)
    requires parts != []
    ensures var part, rest := parts[0], parts[1..];
            Resolve(fs, root, resolved, parts, links) ==
            if part == "" || part == "." then Resolve(fs, root, resolved, rest, links)
            else if part == ".." then Resolve(fs, root, Up(resolved), rest, links)
            else
              match Lstat(fs, root + (resolved + [part]))
              case No(e) => if e == ENOENT then Resolve(fs, root, resolved + [part], rest, links) else Fail(e)
              case Is(Link(t)) =>
                if links == 0 then Fail(TooManyLinks)
                else
                  Resolve(fs, root, if t.abs then [] else resolved, Clean(RawPath(t.abs, t.parts + rest)), links - 1)
              case Is(_) => Resolve(fs, root, resolved + [part], rest, links)
  {
  }

  /** The program's loop. It ends on every tree: each turn uses up a link or a component. */
  method SecureJoinLoop(fs: FS, root: Path, unsafePath: seq<string>) returns (r: Found)
    ensures r == SecureJoin(fs, root, unsafePath)
  {
    var linksWalked: nat := 0;
    var resolved, path := [], unsafePath;
    ghost var goal := SecureJoin(fs, root, unsafePath);
    while path != []
      invariant linksWalked <= MAX_LINKS
      invariant Resolve(fs, root, resolved, path, MAX_LINKS - linksWalked) == goal
      decreases MAX_LINKS - linksWalked, |path|
    {
      ResolveTurn(fs, root, resolved, path, MAX_LINKS - linksWalked);
      var part := path[0];
      path := path[1..];
      if part == "" || part == "." {
        continue;
      }
      if part == ".." {
        resolved := Up(resolved);
        continue;
      }
      var next := resolved + [part];
      match Lstat(fs, root + next) {
        case No(e) =>
          if e != ENOENT {
            return Fail(e);
          }
          resolved := next;
        case Is(Link(dest)) =>
          linksWalked := linksWalked + 1;
          if linksWalked > MAX_LINKS {
            return Fail(TooManyLinks);
          }
          if dest.abs {
            resolved := [];
          }
          path := Clean(RawPath(dest.abs, dest.parts + path));
        case Is(_) =>
          resolved := next;
      }
    }
    r := At(root + resolved);
  }

  // ----- Where the result lies -----

  /** A place the program may hand to the kernel: below root, reached through no link. */
  ghost predicate Settled(fs: FS, root: Path, p: Path) {
    && root <= p
    && Names(p)
    && LinkFree(fs, p)
    && !FileAbove(fs, p)
  }

  ghost predicate GoodRoot(fs: FS, root: Path) {
    WellFormed(fs) && Names(root) && RealDir(fs, root)
  }

  lemma RootSettled(fs: FS, root: Path)
    requires GoodRoot(fs, root)
    ensures Settled(fs, root, root)
  {
  }

  lemma SettledUp(fs: FS, root: Path, p: Path)
    requires Settled(fs, root, p) && root < p
    ensures Settled(fs, root, Up(p))
  {
    LinkFreePrefix(fs, p, Up(p));
    assert forall k :: 0 <= k < |p| ==> Up(p)[..k] == p[..k];
  }

  /** One more component: what lstat reports. */
  lemma LstatDown(fs: FS, root: Path, p: Path, name: string)
    requires WellFormed(fs) && Settled(fs, root, p) && Ordinary(name)
    ensures var q := p + [name];
            && Lstat(fs, q) == (if q in fs.nodes then Is(fs.nodes[q])
                                else if FileAbove(fs, q) then No(ENOTDIR) else No(ENOENT))
            && (FileAbove(fs, q) <==> p in fs.nodes && fs.nodes[p].File?)
            && (q in fs.nodes ==> IsDir(fs, p))
  {
    var q := p + [name];
    assert Up(q) == p;
    LstatLiteral(fs, q);
    assert forall k :: 0 <= k <= |p| ==> q[..k] == p[..k];
    assert p[..|p|] == p;
    if FileAbove(fs, q) {
      var k :| 0 <= k < |q| && q[..k] in fs.nodes && fs.nodes[q[..k]].File?;
      assert q[..k] == p[..k];
    }
  }

  /** The longer path is settled unless it is a link or lies below a file. */
  lemma SettledDown(fs: FS, root: Path, p: Path, name: string)
    requires WellFormed(fs) && Settled(fs, root, p) && Ordinary(name)
    requires !(p in fs.nodes && fs.nodes[p].File?)
    requires !(p + [name] in fs.nodes && fs.nodes[p + [name]].Link?)
    ensures Settled(fs, root, p + [name])
  {
    var q := p + [name];
    LstatDown(fs, root, p, name);
    assert forall k :: 0 <= k <= |p| ==> q[..k] == p[..k];
    assert q[..|q|] == q;
  }

  /** One ordinary component of secureJoin, with lstat spelled out. */
  lemma ResolveName(fs: FS, root: Path, at: Path, name: string, rest: seq<string>, links: nat)
    requires GoodRoot(fs, root) && Settled(fs, root, root + at) && Ordinary(name)
    ensures var q := root + (at + [name]);
            Resolve(fs, root, at, [name] + rest, links) ==
            if root + at in fs.nodes && fs.nodes[root + at].File? then Fail(ENOTDIR)
            else if q in fs.nodes && fs.nodes[q].Link? then
              var t := fs.nodes[q].target;
              if links == 0 then Fail(TooManyLinks)
              else Resolve(fs, root, if t.abs then [] else at, Clean(RawPath(t.abs, t.parts + rest)), links - 1)
            else Resolve(fs, root, at + [name], rest, links)
    ensures var q := root + (at + [name]);
            !(root + at in fs.nodes && fs.nodes[root + at].File?) && !(q in fs.nodes && fs.nodes[q].Link?)
            ==> Settled(fs, root, q)
  {
    assert root + (at + [name]) == root + at + [name];
    LstatDown(fs, root, root + at, name);
    var parts := [name] + rest;
    assert parts[0] == name && parts[1..] == rest;
    var q := root + (at + [name]);
    if !(root + at in fs.nodes && fs.nodes[root + at].File?) && !(q in fs.nodes && fs.nodes[q].Link?) {
      SettledDown(fs, root, root + at, name);
    }
  }

  /** On success no existing prefix of the result is a symbolic link, no component of it is
      "..", and it lies below root: whatever links the tree holds. */
  lemma {:induction false} ResolveSettled(fs: FS, root: Path, resolved: Path, parts: seq<string>, links: nat)
    requires GoodRoot(fs, root) && Settled(fs, root, root + resolved)
    ensures var r := Resolve(fs, root, resolved, parts, links);
            r.At? ==> Settled(fs, root, r.path)
    decreases links, |parts|
  {
    if parts == [] {
    } else if parts[0] == "" || parts[0] == "." {
      ResolveSettled(fs, root, resolved, parts[1..], links);
    } else if parts[0] == ".." {
      if resolved != [] {
        SettledUp(fs, root, root + resolved);
        assert Up(root + resolved) == root + Up(resolved);
      }
      ResolveSettled(fs, root, Up(resolved), parts[1..], links);
    } else {
      assert parts == [parts[0]] + parts[1..];
      NameSettled(fs, root, resolved, parts[0], parts[1..], links);
    }
  }

  lemma {:induction false} NameSettled(fs: FS, root: Path, resolved: Path, name: string, rest: seq<string>, links: nat)
    requires GoodRoot(fs, root) && Settled(fs, root, root + resolved) && Ordinary(name)
    ensures var r := Resolve(fs, root, resolved, [name] + rest, links);
            r.At? ==> Settled(fs, root, r.path)
    decreases links, |rest| + 1, 0
  {
    var q := root + (resolved + [name]);
    ResolveName(fs, root, resolved, name, rest, links);
    if root + resolved in fs.nodes && fs.nodes[root + resolved].File? {
    } else if q in fs.nodes && fs.nodes[q].Link? {
      if links > 0 {
        var t := fs.nodes[q].target;
        var path := Clean(RawPath(t.abs, t.parts + rest));
        if t.abs {
          RootSettled(fs, root);
          assert root + [] == root;
          ResolveSettled(fs, root, [], path, links - 1);
        } else {
          ResolveSettled(fs, root, resolved, path, links - 1);
        }
      }
    } else {
      ResolveSettled(fs, root, resolved + [name], rest, links);
    }
  }

  lemma SecureJoinSettled(fs: FS, root: Path, unsafePath: seq<string>)
    requires GoodRoot(fs, root)
    ensures var r := SecureJoin(fs, root, unsafePath);
            r.At? ==> Settled(fs, root, r.path)
  {
    RootSettled(fs, root);
    assert root + [] == root;
    ResolveSettled(fs, root, [], unsafePath, MAX_LINKS);
  }

  /** A settled path resolves to itself. */
  lemma {:induction false} ResolveLiteral(fs: FS, root: Path, done: Path, rest: Path, links: nat)
    requires GoodRoot(fs, root) && Settled(fs, root, root + done + rest)
    ensures Resolve(fs, root, done, rest, links) == At(root + done + rest)
    decreases |rest|
  {
    if rest == [] {
      assert root + done + rest == root + done;
    } else {
      var p, next := root + done + rest, done + [rest[0]];
      assert p == root + next + rest[1..];
      assert root + next == p[..|root + next|] && Up(root + next) == p[..|root + done|];
      LinkFreePrefix(fs, p, root + next);
      LinkFreePrefix(fs, p, Up(root + next));
      LstatLiteral(fs, root + next);
      assert forall k :: 0 <= k <= |root + next| ==> (root + next)[..k] == p[..k];
      assert (root + next)[..|root + next|] == root + next;
      ResolveLiteral(fs, root, next, rest[1..], links);
    }
  }

  /** Resolving a result again returns it unchanged. */
  lemma SecureJoinIdempotent(fs: FS, root: Path, unsafePath: seq<string>)
    requires GoodRoot(fs, root) && SecureJoin(fs, root, unsafePath).At?
    ensures var q := SecureJoin(fs, root, unsafePath).path;
            root <= q && SecureJoin(fs, root, q[|root|..]) == At(q)
  {
    SecureJoinSettled(fs, root, unsafePath);
    var q := SecureJoin(fs, root, unsafePath).path;
    assert root + [] + q[|root|..] == q;
    ResolveLiteral(fs, root, [], q[|root|..], MAX_LINKS);
  }

  // ----- What single steps do, in so many words -----

  lemma LinkSeen(fs: FS, root: Path, a: string, l: RawPath)
    requires GoodRoot(fs, root) && Ordinary(a) && root + [a] in fs.nodes && fs.nodes[root + [a]] == Link(l)
    ensures Lstat(fs, root + [a]) == Is(Link(l))
  {
    assert Up(root + [a]) == root;
    RealIsLinkFree(fs, root);
    LstatLiteral(fs, root + [a]);
  }

  lemma JoinLink(fs: FS, root: Path, a: string, l: RawPath)
    requires Ordinary(a) && Lstat(fs, root + [a]) == Is(Link(l))
    ensures SecureJoin(fs, root, [a]) == Resolve(fs, root, [], Clean(l), MAX_LINKS - 1)
  {
    assert [] + [a] == [a] && [a][1..] == [] && l.parts + [] == l.parts;
  }

  /** A link whose target goes into a directory and out again: the two cancel without a look at
      that directory, and the rest of the target is found below the link's own directory. */
  lemma LinkTargetCancels(fs: FS, root: Path, l: string, abs: bool, a: Path, n: string, b: Path)
    requires GoodRoot(fs, root) && Ordinary(l) && Ordinary(n) && Settled(fs, root, root + a + b)
    requires root + [l] in fs.nodes && fs.nodes[root + [l]] == Link(RawPath(abs, a + [n, ".."] + b))
    ensures SecureJoin(fs, root, [l]) == At(root + a + b)
  {
    var t, p := RawPath(abs, a + [n, ".."] + b), a + b;
    assert root + a + b == root + p;
    LinkSeen(fs, root, l, t);
    JoinLink(fs, root, l, t);
    CleanCancels(abs, a, n, b);
    NamesBelow(root, p);
    CleanOfNames(abs, p);
    ResolvesToItself(fs, root, p, MAX_LINKS - 1);
  }

  lemma ResolvesToItself(fs: FS, root: Path, p: Path, links: nat)
    requires GoodRoot(fs, root) && Settled(fs, root, root + p)
    ensures Resolve(fs, root, [], p, links) == At(root + p)
  {
    assert root + [] + p == root + p;
    ResolveLiteral(fs, root, [], p, links);
  }

  /** The same tree, except that link targets with the same cleaned form may be written
      differently. */
  ghost predicate SameWhenCleaned(fs: FS, other: FS) {
    && fs.nodes.Keys == other.nodes.Keys
    && forall p :: p in fs.nodes ==>
         if fs.nodes[p].Link? then
           && other.nodes[p].Link?
           && fs.nodes[p].target.abs == other.nodes[p].target.abs
           && Clean(fs.nodes[p].target) == Clean(other.nodes[p].target)
         else other.nodes[p] == fs.nodes[p]
  }

  lemma CleanWithRest(t: RawPath, u: RawPath, rest: seq<string>)
    requires t.abs == u.abs && Clean(t) == Clean(u)
    ensures Clean(RawPath(t.abs, t.parts + rest)) == Clean(RawPath(u.abs, u.parts + rest))
  {
    CleanOntoSplit(t.abs, [], t.parts, rest);
    CleanOntoSplit(u.abs, [], u.parts, rest);
  }

  /** How a link target is written plays no part beyond its cleaned form, for any path. */
  lemma SecureJoinLexical(fs: FS, other: FS, root: Path, unsafePath: seq<string>)
    requires GoodRoot(fs, root) && GoodRoot(other, root) && SameWhenCleaned(fs, other)
    ensures SecureJoin(fs, root, unsafePath) == SecureJoin(other, root, unsafePath)
  {
    RootSettled(fs, root);
    RootSettled(other, root);
    assert root + [] == root;
    ResolveLexical(fs, other, root, [], unsafePath, MAX_LINKS);
  }

  lemma {:induction false} ResolveLexical(fs: FS, other: FS, root: Path, at: Path, parts: seq<string>, links: nat)
    requires GoodRoot(fs, root) && GoodRoot(other, root) && SameWhenCleaned(fs, other)
    requires Settled(fs, root, root + at) && Settled(other, root, root + at)
    ensures Resolve(fs, root, at, parts, links) == Resolve(other, root, at, parts, links)
    decreases links, |parts|, 1
  {
    if parts == [] {
    } else if parts[0] == "" || parts[0] == "." {
      ResolveLexical(fs, other, root, at, parts[1..], links);
    } else if parts[0] == ".." {
      if at != [] {
        SettledUp(fs, root, root + at);
        SettledUp(other, root, root + at);
        assert Up(root + at) == root + Up(at);
      }
      ResolveLexical(fs, other, root, Up(at), parts[1..], links);
    } else {
      NameLexical(fs, other, root, at, parts, links);
    }
  }

  lemma {:induction false} NameLexical(fs: FS, other: FS, root: Path, at: Path, parts: seq<string>, links: nat)
    requires GoodRoot(fs, root) && GoodRoot(other, root) && SameWhenCleaned(fs, other)
    requires Settled(fs, root, root + at) && Settled(other, root, root + at)
    requires parts != [] && Ordinary(parts[0])
    ensures Resolve(fs, root, at, parts, links) == Resolve(other, root, at, parts, links)
    decreases links, |parts|, 0
  {
    var n, rest, q := parts[0], parts[1..], root + (at + [parts[0]]);
    assert parts == [n] + rest;
    ResolveName(fs, root, at, n, rest, links);
    ResolveName(other, root, at, n, rest, links);
    if root + at in fs.nodes && fs.nodes[root + at].File? {
    } else if q in fs.nodes && fs.nodes[q].Link? {
      if links > 0 {
        var t, u := fs.nodes[q].target, other.nodes[q].target;
        CleanWithRest(t, u, rest);
        if t.abs {
          RootSettled(fs, root);
          RootSettled(other, root);
          assert root + [] == root;
          ResolveLexical(fs, other, root, [], Clean(RawPath(t.abs, t.parts + rest)), links - 1);
        } else {
          ResolveLexical(fs, other, root, at, Clean(RawPath(t.abs, t.parts + rest)), links - 1);
        }
      }
    } else {
      ResolveLexical(fs, other, root, at + [n], rest, links);
    }
  }

  /** For example a link l -> usr/lib/../share in an otherwise empty /t. */
  lemma ShareIsFound()
    ensures var fs := FS(map[[] := Dir, ["t"] := Dir,
                             ["t", "l"] := Link(RawPath(false, ["usr", "lib", "..", "share"]))], []);
            GoodRoot(fs, ["t"]) && SecureJoin(fs, ["t"], ["l"]) == At(["t", "usr", "share"])
  {
    var root: Path, p: Path := ["t"], ["t", "usr", "share"];
    var fs := FS(map[[] := Dir, root := Dir, ["t", "l"] := Link(RawPath(false, ["usr", "lib", "..", "share"]))], []);
    assert Up(root) == [] && Up(["t", "l"]) == root && root + ["l"] == ["t", "l"];
    assert root[..0] == [] && root[..1] == root;
    assert p[..0] == [] && p[..1] == root && p[..2] == ["t", "usr"] && p[..3] == p;
    assert ["usr"] + ["lib", ".."] + ["share"] == ["usr", "lib", "..", "share"];
    assert root + ["usr"] + ["share"] == p;
    LinkTargetCancels(fs, root, "l", false, ["usr"], "lib", ["share"]);
  }

  /** Going into something that is no link and out again leads back. */
  lemma StepBack(fs: FS, root: Path, at: Path, n: string, rest: seq<string>, links: nat)
    requires GoodRoot(fs, root) && Settled(fs, root, root + at) && Ordinary(n)
    requires !(root + at in fs.nodes && fs.nodes[root + at].File?)
    requires !(root + at + [n] in fs.nodes && fs.nodes[root + at + [n]].Link?)
    ensures Resolve(fs, root, at, [n, ".."] + rest, links) == Resolve(fs, root, at, rest, links)
  {
    assert root + (at + [n]) == root + at + [n];
    assert [n, ".."] + rest == [n] + ([".."] + rest);
    ResolveName(fs, root, at, n, [".."] + rest, links);
    assert ([".."] + rest)[0] == ".." && ([".."] + rest)[1..] == rest && Up(at + [n]) == at;
    ResolveTurn(fs, root, at + [n], [".."] + rest, links);
  }

  /** Names in root, each a link to the next; the last is not a link. */
  ghost predicate Chain(fs: FS, root: Path, names: seq<string>) {
    && names != [] && (forall i :: 0 <= i < |names| ==> Ordinary(names[i]))
    && (forall i {:trigger names[i]} :: 0 <= i < |names| - 1 ==>
          root + [names[i]] in fs.nodes && fs.nodes[root + [names[i]]] == Link(RawPath(false, [names[i+1]])))
    && !(root + [Last(names)] in fs.nodes && fs.nodes[root + [Last(names)]].Link?)
  }

  lemma ChainEnd(fs: FS, root: Path, name: string, links: nat)
    requires GoodRoot(fs, root) && Ordinary(name)
    requires !(root + [name] in fs.nodes && fs.nodes[root + [name]].Link?)
    ensures Resolve(fs, root, [], [name], links) == At(root + [name])
  {
    RootSettled(fs, root);
    assert root + [] == root && root[..|root|] == root && [name] + [] == [name] && [] + [name] == [name];
    ResolveName(fs, root, [], name, [], links);
    assert Resolve(fs, root, [name], [], links) == At(root + [name]);
  }

  lemma ChainLink(fs: FS, root: Path, name: string, next: string, links: nat)
    requires GoodRoot(fs, root) && Ordinary(name) && Ordinary(next)
    requires root + [name] in fs.nodes && fs.nodes[root + [name]] == Link(RawPath(false, [next]))
    ensures Resolve(fs, root, [], [name], links) ==
            if links == 0 then Fail(TooManyLinks) else Resolve(fs, root, [], [next], links - 1)
  {
    RootSettled(fs, root);
    assert root + [] == root && root[..|root|] == root && [name] + [] == [name] && [] + [name] == [name];
    ResolveName(fs, root, [], name, [], links);
    assert [next] + [] == [next];
    CleanOfNames(false, [next]);
  }

  lemma {:induction false} FollowChain(fs: FS, root: Path, names: seq<string>, k: nat, links: nat)
    requires GoodRoot(fs, root) && Chain(fs, root, names) && k < |names|
    ensures Resolve(fs, root, [], [names[k]], links) ==
            if |names| - 1 - k <= links then At(root + [Last(names)]) else Fail(TooManyLinks)
    decreases |names| - k
  {
    if k == |names| - 1 {
      ChainEnd(fs, root, names[k], links);
    } else {
      ChainLink(fs, root, names[k], names[k+1], links);
      if links > 0 {
        FollowChain(fs, root, names, k + 1, links - 1);
      }
    }
  }

  /** A chain of links is followed to its end exactly when it has no more than 255. */
  lemma ChainLimit(fs: FS, root: Path, names: seq<string>)
    requires GoodRoot(fs, root) && Chain(fs, root, names)
    ensures SecureJoin(fs, root, [names[0]]) ==
            if |names| - 1 <= 255 then At(root + [Last(names)]) else Fail(TooManyLinks)
  {
    FollowChain(fs, root, names, 0, MAX_LINKS);
  }
}
