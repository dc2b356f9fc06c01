/**
 A mount namespace: mounts hang on directories of other mounts, may stack on one place, and
 a path is looked up through the topmost mount at every step.
 */
module MountTree {
  import opened Wrappers
  import opened Paths

  /** Who made a mount: it was found there, made by the n-th mount call, or copied by one. */
  datatype Origin = Found(id: nat) | Made(step: nat) | Copy(step: nat, source: Origin)

  datatype Device = Disk(n: nat) | Proc | Sysfs

  /** A mount shows the directory `root` of a device; `kids` are the mounts on directories of
      this one. `peer` is its propagation group; None is private. */
  datatype Mount = Mount(origin: Origin, device: Device, root: Path, peer: Option<nat>, kids: map<Path, Mount>)

  /** A directory, in the mount through which it was reached. */
  datatype Spot = Spot(mount: Mount, at: Path)

  /** Which mount, showing what of which device, and where in it. */
  datatype Place = Place(origin: Origin, device: Device, root: Path, at: Path)

  function PlaceOf(s: Spot): Place {
    Place(s.mount.origin, s.mount.device, s.mount.root, s.at)
  }

  /** Walks `rest` from directory d of m, entering whatever is mounted on the way. */
  function Go(m: Mount, d: Path, rest: Path): Spot
    decreases m, |rest|
  {
    if d in m.kids then Go(m.kids[d], m.kids[d].root, rest)
    else if rest == [] then Spot(m, d)
    else Go(m, d + [rest[0]], rest[1..])
  }

  /** m with `new` mounted where `rest` leads. */
  function Put(m: Mount, d: Path, rest: Path, added: Mount): Mount
    decreases m, |rest|
  {
    if d in m.kids then m.(kids := m.kids[d := Put(m.kids[d], m.kids[d].root, rest, added)])
    else if rest == [] then m.(kids := m.kids[d := added])
    else Put(m, d + [rest[0]], rest[1..], added)
  }

  /** `rest` leads to the root of a mount that hangs somewhere below m. */
  predicate Detachable(m: Mount, d: Path, rest: Path)
    decreases m, |rest|
  {
    if d in m.kids then
      var kid := m.kids[d];
      (rest == [] && kid.root !in kid.kids) || Detachable(kid, kid.root, rest)
    else rest != [] && Detachable(m, d + [rest[0]], rest[1..])
  }

  /** m without that mount, and without everything mounted below it. */
  function Detach(m: Mount, d: Path, rest: Path): Mount
    requires Detachable(m, d, rest)
    decreases m, |rest|
  {
    if d in m.kids then
      var kid := m.kids[d];
      if rest == [] && kid.root !in kid.kids then m.(kids := m.kids - {d})
      else m.(kids := m.kids[d := Detach(kid, kid.root, rest)])
    else Detach(m, d + [rest[0]], rest[1..])
  }

  /** The mount on whose directory that mount hangs. */
  function ParentOf(m: Mount, d: Path, rest: Path): Mount
    requires Detachable(m, d, rest)
    decreases m, |rest|
  {
    if d in m.kids then
      var kid := m.kids[d];
      if rest == [] && kid.root !in kid.kids then m else ParentOf(kid, kid.root, rest)
    else ParentOf(m, d + [rest[0]], rest[1..])
  }

  /** m and everything below it, no longer propagating. */
  function Privatize(m: Mount): Mount
    decreases m
  {
    m.(peer := None, kids := map k | k in m.kids :: Privatize(m.kids[k]))
  }

  /** Privatize, applied to the mount that `rest` leads to. */
  function PrivatizeAt(m: Mount, d: Path, rest: Path): Mount
    decreases m, |rest|
  {
    if d in m.kids then m.(kids := m.kids[d := PrivatizeAt(m.kids[d], m.kids[d].root, rest)])
    else if rest == [] then Privatize(m)
    else PrivatizeAt(m, d + [rest[0]], rest[1..])
  }

  ghost predicate AllPrivate(m: Mount)
    decreases m
  {
    m.peer == None && forall k :: k in m.kids ==> AllPrivate(m.kids[k])
  }

  /** The copy of a mount and all below it that a recursive bind makes. */
  function CloneTree(step: nat, m: Mount): Mount
    decreases m
  {
    Mount(Copy(step, m.origin), m.device, m.root, m.peer, map k | k in m.kids :: CloneTree(step, m.kids[k]))
  }

  /** What a bind of a spot attaches. */
  function CloneAt(step: nat, s: Spot, recursive: bool): Mount {
    Mount(Made(step), s.mount.device, s.at, s.mount.peer,
          if recursive then map k | k in s.mount.kids && s.at <= k :: CloneTree(step, s.mount.kids[k]) else map[])
  }

  // ----- Walking -----

  lemma {:induction false} GoThrough(m: Mount, d: Path, a: Path, b: Path)
    ensures var s := Go(m, d, a);
            s.at !in s.mount.kids && Go(m, d, a + b) == Go(s.mount, s.at, b)
    decreases m, |a|
  {
    if d in m.kids {
      GoThrough(m.kids[d], m.kids[d].root, a, b);
    } else if a == [] {
      assert a + b == b;
    } else {
      assert (a + b)[0] == a[0] && (a + b)[1..] == a[1..] + b;
      GoThrough(m, d + [a[0]], a[1..], b);
    }
  }

  /** Two mounts that carry the same kids from d on are walked alike from d. */
  lemma {:induction false} GoAgree(m: Mount, n: Mount, d: Path, rest: Path)
    requires m.origin == n.origin && m.device == n.device && m.root == n.root
    requires forall k :: d <= k ==> (k in m.kids <==> k in n.kids) && (k in m.kids ==> m.kids[k] == n.kids[k])
    ensures PlaceOf(Go(m, d, rest)) == PlaceOf(Go(n, d, rest))
    decreases |rest|
  {
    if d !in m.kids && rest != [] {
      GoAgree(m, n, d + [rest[0]], rest[1..]);
    }
  }

  lemma KeysApart(m: Mount, n: Mount, d: Path, x: string, y: string)
    requires x != y
    requires forall k :: !(d + [x] <= k) ==> (k in m.kids <==> k in n.kids) && (k in m.kids ==> m.kids[k] == n.kids[k])
    ensures forall k :: d + [y] <= k ==> (k in m.kids <==> k in n.kids) && (k in m.kids ==> m.kids[k] == n.kids[k])
  {
    forall k | d + [y] <= k
      ensures k in m.kids <==> k in n.kids
      ensures k in m.kids ==> m.kids[k] == n.kids[k]
    {
      assert k[|d|] == y && (d + [x])[|d|] == x;
    }
  }

  lemma {:induction false} PutShape(m: Mount, d: Path, rest: Path, added: Mount)
    ensures var p := Put(m, d, rest, added);
            && p.origin == m.origin && p.device == m.device && p.root == m.root && p.peer == m.peer
            && (forall k :: !(d <= k) ==> (k in p.kids <==> k in m.kids) && (k in m.kids ==> p.kids[k] == m.kids[k]))
            && (d !in m.kids && rest != [] ==> d !in p.kids)
    decreases |rest|
  {
    if d !in m.kids && rest != [] {
      PutShape(m, d + [rest[0]], rest[1..], added);
    }
  }

  /** Below the mount point, lookups land in the new mount. */
  lemma {:induction false} GoPutUnder(m: Mount, d: Path, rest: Path, added: Mount, q: Path)
    ensures Go(Put(m, d, rest, added), d, rest + q) == Go(added, added.root, q)
    decreases m, |rest|
  {
    PutShape(m, d, rest, added);
    if d in m.kids {
      PutShape(m.kids[d], m.kids[d].root, rest, added);
      GoPutUnder(m.kids[d], m.kids[d].root, rest, added, q);
    } else if rest == [] {
      assert rest + q == q;
    } else {
      assert (rest + q)[0] == rest[0] && (rest + q)[1..] == rest[1..] + q;
      GoPutUnder(m, d + [rest[0]], rest[1..], added, q);
    }
  }

  /** Everywhere else, lookups are as before. */
  lemma {:induction false} GoPutOther(m: Mount, d: Path, rest: Path, added: Mount, p: Path)
    requires !(rest <= p)
    ensures PlaceOf(Go(Put(m, d, rest, added), d, p)) == PlaceOf(Go(m, d, p))
    decreases m, |rest|
  {
    var n := Put(m, d, rest, added);
    PutShape(m, d, rest, added);
    if d in m.kids {
      PutShape(m.kids[d], m.kids[d].root, rest, added);
      GoPutOther(m.kids[d], m.kids[d].root, rest, added, p);
    } else if p != [] {
      var x, y := rest[0], p[0];
      if x == y {
        assert rest == [x] + rest[1..] && p == [x] + p[1..];
        GoPutOther(m, d + [x], rest[1..], added, p[1..]);
      } else {
        PutShape(m, d + [x], rest[1..], added);
        KeysApart(n, m, d, x, y);
        GoAgree(n, m, d + [y], p[1..]);
      }
    }
  }

  // ----- Detaching -----

  /** Reaching the root of a mount other than the start means that it can be detached. */
  lemma {:induction false} RootIsDetachable(m: Mount, d: Path, rest: Path)
    requires m.root <= d
    requires Go(m, d, rest).at == Go(m, d, rest).mount.root
    ensures Detachable(m, d, rest) || (rest == [] && d == m.root && d !in m.kids)
    decreases m, |rest|
  {
    if d in m.kids {
      RootIsDetachable(m.kids[d], m.kids[d].root, rest);
    } else if rest != [] {
      RootIsDetachable(m, d + [rest[0]], rest[1..]);
    }
  }

  lemma {:induction false} DetachShape(m: Mount, d: Path, rest: Path)
    requires Detachable(m, d, rest)
    ensures var p := Detach(m, d, rest);
            && p.origin == m.origin && p.device == m.device && p.root == m.root && p.peer == m.peer
            && (forall k :: !(d <= k) ==> (k in p.kids <==> k in m.kids) && (k in m.kids ==> p.kids[k] == m.kids[k]))
            && (d !in m.kids ==> d !in p.kids)
            && (d in m.kids && rest != [] ==> d in p.kids)
    decreases |rest|
  {
    if d !in m.kids {
      DetachShape(m, d + [rest[0]], rest[1..]);
    }
  }

  lemma {:induction false} GoDetachOther(m: Mount, d: Path, rest: Path, p: Path)
    requires Detachable(m, d, rest) && !(rest <= p)
    ensures PlaceOf(Go(Detach(m, d, rest), d, p)) == PlaceOf(Go(m, d, p))
    decreases m, |rest|
  {
    var n := Detach(m, d, rest);
    DetachShape(m, d, rest);
    if d in m.kids {
      DetachShape(m.kids[d], m.kids[d].root, rest);
      GoDetachOther(m.kids[d], m.kids[d].root, rest, p);
    } else if p != [] {
      var x, y := rest[0], p[0];
      if x == y {
        assert rest == [x] + rest[1..] && p == [x] + p[1..];
        GoDetachOther(m, d + [x], rest[1..], p[1..]);
      } else {
        DetachShape(m, d + [x], rest[1..]);
        KeysApart(n, m, d, x, y);
        GoAgree(n, m, d + [y], p[1..]);
      }
    }
  }

  // ----- Propagation types -----

  lemma {:induction false} PrivatizePrivate(m: Mount)
    ensures AllPrivate(Privatize(m))
    decreases m
  {
    forall k | k in m.kids ensures AllPrivate(Privatize(m).kids[k]) {
      PrivatizePrivate(m.kids[k]);
    }
  }

  lemma {:induction false} GoPrivatize(m: Mount, d: Path, rest: Path)
    ensures PlaceOf(Go(Privatize(m), d, rest)) == PlaceOf(Go(m, d, rest))
    decreases m, |rest|
  {
    if d in m.kids {
      GoPrivatize(m.kids[d], m.kids[d].root, rest);
    } else if rest != [] {
      GoPrivatize(m, d + [rest[0]], rest[1..]);
    }
  }

  /** Changing propagation types moves nothing. */
  lemma {:induction false} GoPrivatizeAt(m: Mount, d: Path, rest: Path, e: Path, p: Path)
    ensures PlaceOf(Go(PrivatizeAt(m, d, rest), e, p)) == PlaceOf(Go(m, e, p))
    ensures PrivatizeAt(m, d, rest).root == m.root
    decreases m, |rest|, |p|
  {
    var n := PrivatizeAt(m, d, rest);
    if d in m.kids {
      if e in m.kids {
        if e == d {
          GoPrivatizeAt(m.kids[d], m.kids[d].root, rest, m.kids[d].root, p);
        }
      } else if p != [] {
        GoPrivatizeAt(m, d, rest, e + [p[0]], p[1..]);
      }
    } else if rest == [] {
      GoPrivatize(m, e, p);
    } else {
      GoPrivatizeAt(m, d + [rest[0]], rest[1..], e, p);
    }
  }

  lemma {:induction false} PrivatizeAtPrivate(m: Mount, d: Path, rest: Path)
    requires AllPrivate(m)
    ensures AllPrivate(PrivatizeAt(m, d, rest))
    decreases m, |rest|
  {
    if d in m.kids {
      PrivatizeAtPrivate(m.kids[d], m.kids[d].root, rest);
    } else if rest == [] {
      PrivatizePrivate(m);
    } else {
      PrivatizeAtPrivate(m, d + [rest[0]], rest[1..]);
    }
  }

  lemma {:induction false} PutPrivate(m: Mount, d: Path, rest: Path, added: Mount)
    requires AllPrivate(m) && AllPrivate(added)
    ensures AllPrivate(Put(m, d, rest, added))
    decreases m, |rest|
  {
    if d in m.kids {
      PutPrivate(m.kids[d], m.kids[d].root, rest, added);
    } else if rest != [] {
      PutPrivate(m, d + [rest[0]], rest[1..], added);
    }
  }

  lemma {:induction false} DetachPrivate(m: Mount, d: Path, rest: Path)
    requires AllPrivate(m) && Detachable(m, d, rest)
    ensures AllPrivate(Detach(m, d, rest)) && AllPrivate(ParentOf(m, d, rest))
    decreases m, |rest|
  {
    if d in m.kids {
      var kid := m.kids[d];
      if !(rest == [] && kid.root !in kid.kids) {
        DetachPrivate(kid, kid.root, rest);
      }
    } else {
      DetachPrivate(m, d + [rest[0]], rest[1..]);
    }
  }

  lemma {:induction false} GoPrivate(m: Mount, d: Path, rest: Path)
    requires AllPrivate(m)
    ensures AllPrivate(Go(m, d, rest).mount)
    decreases m, |rest|
  {
    if d in m.kids {
      GoPrivate(m.kids[d], m.kids[d].root, rest);
    } else if rest != [] {
      GoPrivate(m, d + [rest[0]], rest[1..]);
    }
  }

  lemma {:induction false} CloneTreePrivate(step: nat, m: Mount)
    requires AllPrivate(m)
    ensures AllPrivate(CloneTree(step, m))
    decreases m
  {
    forall k | k in m.kids ensures AllPrivate(CloneTree(step, m).kids[k]) {
      CloneTreePrivate(step, m.kids[k]);
    }
  }

  lemma CloneAtPrivate(step: nat, s: Spot, recursive: bool)
    requires AllPrivate(s.mount)
    ensures AllPrivate(CloneAt(step, s, recursive))
  {
    forall k | k in CloneAt(step, s, recursive).kids ensures AllPrivate(CloneAt(step, s, recursive).kids[k]) {
      CloneTreePrivate(step, s.mount.kids[k]);
    }
  }

  // ----- Binds -----

  /** What is seen at a spot: a directory of a device. */
  function Seen(s: Spot): (Device, Path) {
    (s.mount.device, s.at)
  }

  lemma {:induction false} GoClone(step: nat, m: Mount, d: Path, rest: Path)
    ensures Seen(Go(CloneTree(step, m), d, rest)) == Seen(Go(m, d, rest))
    decreases m, |rest|
  {
    if d in m.kids {
      GoClone(step, m.kids[d], m.kids[d].root, rest);
    } else if rest != [] {
      GoClone(step, m, d + [rest[0]], rest[1..]);
    }
  }

  lemma {:induction false} GoCloneFrom(step: nat, m: Mount, s: Spot, d: Path, rest: Path)
    requires m == CloneAt(step, s, true) && s.at <= d
    ensures Seen(Go(m, d, rest)) == Seen(Go(s.mount, d, rest))
    decreases |rest|
  {
    if d in s.mount.kids {
      GoClone(step, s.mount.kids[d], s.mount.kids[d].root, rest);
    } else if rest != [] {
      GoCloneFrom(step, m, s, d + [rest[0]], rest[1..]);
    }
  }

  /** A mount without kids shows its device and nothing else. */
  lemma {:induction false} GoBare(m: Mount, d: Path, rest: Path)
    requires m.kids == map[]
    ensures Go(m, d, rest) == Spot(m, d + rest)
    decreases |rest|
  {
    if rest == [] {
      assert d + rest == d;
    } else {
      GoBare(m, d + [rest[0]], rest[1..]);
      assert d + [rest[0]] + rest[1..] == d + rest;
    }
  }
}
