/** unmountUnder: emptying the old root after the pivot. */
module OldRootCleanup {
  import opened Paths

  /** u lies below the mount point t. */
  predicate Below(u: string, t: string) {
    u != t && (t == "/" || t + "/" <= u)
  }

  /** The mount table, by target path. No two mounts share a target. */
  class MountTable {
    var targets: set<string>

    constructor (targets: set<string>)
      ensures this.targets == targets
    {
      this.targets := targets;
    }

    /** The targets, in the order in which the kernel happens to list them. */
    method ReadMountTargets() returns (list: seq<string>)
      ensures forall t :: t in list <==> t in targets
      ensures forall i, j :: 0 <= i < j < |list| ==> list[i] != list[j]
    {
      list := [];
      var left := targets;
      while left != {}
        invariant left <= targets
        invariant forall t :: t in list <==> t in targets - left
        invariant forall i, j :: 0 <= i < j < |list| ==> list[i] != list[j]
      {
        var t :| t in left;
        assert t !in list;
        ghost var shorter := list;
        list := list + [t];
        assert forall i :: 0 <= i < |shorter| ==> list[i] == shorter[i] && shorter[i] != t;
        left := left - {t};
      }
    }

    /** umount(2): busy while something is mounted below. */
    method Unmount(t: string) returns (ok: bool)
      modifies this
      ensures ok <==> t in old(targets) && forall u :: u in old(targets) ==> !Below(u, t)
      ensures targets == if ok then old(targets) - {t} else old(targets)
    {
      ok := t in targets && forall u :: u in targets ==> !Below(u, t);
      if ok {
        targets := targets - {t};
      }
    }
  }

  predicate LongestFirst(list: seq<string>) {
    forall i, j :: 0 <= i < j < |list| ==> |list[i]| >= |list[j]|
  }

  lemma InsertAt(list: seq<string>, i: nat, x: string)
    requires i <= |list| && LongestFirst(list)
    requires forall k :: 0 <= k < i ==> |list[k]| >= |x|
    requires i < |list| ==> |list[i]| < |x|
    ensures LongestFirst(list[..i] + [x] + list[i..])
  {
    var out := list[..i] + [x] + list[i..];
    forall j, k | 0 <= j < k < |out| ensures |out[j]| >= |out[k]| {
      if i < |list| && k > i {
        assert |out[k]| <= |list[i]| by {
          assert out[k] == list[k - 1];
        }
      }
      if j < i {
        assert out[j] == list[j];
        if k > i {
          assert out[k] == list[k - 1];
        }
      } else if j > i {
        assert out[j] == list[j - 1] && out[k] == list[k - 1];
      }
    }
  }

  lemma InsertCounts(list: seq<string>, i: nat, x: string)
    requires i <= |list|
    ensures multiset(list[..i] + [x] + list[i..]) == multiset(list + [x])
  {
    assert list == list[..i] + list[i..];
  }

  /** The sort by descending length. Elements of one length come in any order. */
  method SortByLength(list: seq<string>) returns (sorted: seq<string>)
    ensures multiset(sorted) == multiset(list) && LongestFirst(sorted)
  {
    sorted := [];
    for n := 0 to |list|
      invariant multiset(sorted) == multiset(list[..n]) && LongestFirst(sorted)
    {
      var i := 0;
      while i < |sorted| && |sorted[i]| >= |list[n]|
        invariant 0 <= i <= |sorted|
        invariant forall k :: 0 <= k < i ==> |sorted[k]| >= |list[n]|
      {
        i := i + 1;
      }
      assert list[..n+1] == list[..n] + [list[n]];
      InsertAt(sorted, i, list[n]);
      InsertCounts(sorted, i, list[n]);
      sorted := sorted[..i] + [list[n]] + sorted[i..];
    }
    assert list[..|list|] == list;
  }

  predicate Absolute(targets: set<string>) {
    forall t :: t in targets ==> t != "" && t[0] == '/'
  }

  lemma SameElements(a: seq<string>, b: seq<string>)
    requires multiset(a) == multiset(b)
    ensures forall t :: t in a <==> t in b
  {
    forall t ensures t in a <==> t in b {
      assert t in a <==> t in multiset(a);
      assert t in b <==> t in multiset(b);
    }
  }

  lemma NoRepeats(a: seq<string>, b: seq<string>)
    requires multiset(a) == multiset(b)
    requires forall i, j :: 0 <= i < j < |a| ==> a[i] != a[j]
    ensures forall i, j :: 0 <= i < j < |b| ==> b[i] != b[j]
  {
    forall i, j | 0 <= i < j < |b| ensures b[i] != b[j] {
      if b[i] == b[j] {
        CountTwice(b, i, j);
        CountOnce(a, b[i]);
      }
    }
  }

  lemma CountTwice(b: seq<string>, i: nat, j: nat)
    requires i < j < |b| && b[i] == b[j]
    ensures multiset(b)[b[i]] >= 2
  {
    assert b == b[..i] + [b[i]] + b[i+1..j] + [b[j]] + b[j+1..];
  }

  lemma {:induction false} CountOnce(a: seq<string>, t: string)
    requires forall i, j :: 0 <= i < j < |a| ==> a[i] != a[j]
    ensures multiset(a)[t] <= 1
    decreases |a|
  {
    if a != [] {
      assert a == [a[0]] + a[1..];
      CountOnce(a[1..], t);
      if a[0] == t {
        assert t !in a[1..];
        assert multiset(a[1..])[t] == 0;
      }
    }
  }

  // ----- Paths as the mount table prints them -----

  /** Components as they can be printed: not empty, without a slash. */
  predicate Printable(p: Path) {
    forall i :: 0 <= i < |p| ==> p[i] != "" && '/' !in p[i]
  }

  function Slashed(p: Path): string {
    if p == [] then "" else "/" + p[0] + Slashed(p[1..])
  }

  function Printed(p: Path): string {
    if p == [] then "/" else Slashed(p)
  }

  /** q runs through p, except that where p ends q may go on with a longer name. */
  predicate Continues(p: Path, q: Path) {
    p == [] || (|p| <= |q| && Up(p) == q[..|p|-1] && Last(p) <= q[|p|-1])
  }

  lemma WithinName(a: string, b: string, y: string)
    requires '/' !in a && (y == "" || y[0] == '/')
    ensures "/" + a <= "/" + b + y <==> a <= b
  {
    var s, t := "/" + a, "/" + b + y;
    assert s[1..] == a && t[1..|b|+1] == b && t[|b|+1..] == y;
    assert a <= b ==> s <= "/" + b <= t;
    if s <= t {
      assert forall i :: 0 <= i < |a| ==> a[i] == t[i+1];
      assert |a| <= |b|;
      assert forall i :: 0 <= i < |a| ==> a[i] == b[i];
      assert a == b[..|a|];
    }
  }

  lemma OneName(p: Path, q: Path)
    requires |p| == 1 && q != [] && Printable(p) && Printable(q)
    ensures Slashed(p) <= Slashed(q) <==> p[0] <= q[0]
  {
    assert p[1..] == [] && Slashed(p) == "/" + p[0];
    WithinName(p[0], q[0], Slashed(q[1..]));
  }

  lemma FirstNames(p: Path, q: Path)
    requires |p| > 1 && q != [] && Printable(p) && Printable(q)
    ensures Slashed(p) <= Slashed(q) <==> p[0] == q[0] && Slashed(p[1..]) <= Slashed(q[1..])
  {
    var a, x, b, y := p[0], Slashed(p[1..]), q[0], Slashed(q[1..]);
    assert x[0] == '/' && (y == "" || y[0] == '/');
    AfterSame(a, x, b, y);
  }

  lemma AfterSame(a: string, x: string, b: string, y: string)
    requires '/' !in a && '/' !in b && x != "" && x[0] == '/' && (y == "" || y[0] == '/')
    ensures "/" + a + x <= "/" + b + y <==> a == b && x <= y
  {
    var s, t := "/" + a + x, "/" + b + y;
    assert s[1..|a|+1] == a && s[|a|+1..] == x && t[1..|b|+1] == b && t[|b|+1..] == y;
    assert s[|a|+1] == '/';
    if s <= t {
      assert t[|a|+1] == '/';
      assert forall i :: 0 <= i < |a| ==> a[i] == t[i+1];
      assert forall i :: 0 <= i < |b| ==> t[i+1] == b[i];
      assert |a| == |b|;
      assert a == b;
    }
  }

  /** What the comparison of printed paths means for the paths. */
  lemma {:induction false} SlashedPrefixIff(p: Path, q: Path)
    requires Printable(p) && Printable(q)
    ensures Slashed(p) <= Slashed(q) <==> Continues(p, q)
    decreases |p|
  {
    if p != [] && q != [] {
      if |p| == 1 {
        OneName(p, q);
      } else {
        FirstNames(p, q);
        SlashedPrefixIff(p[1..], q[1..]);
        assert p[1..] != [] && Last(p[1..]) == Last(p);
        if |p| <= |q| {
          assert q[1..][..|p|-2] == q[1..|p|-1] && Up(p[1..]) == p[1..|p|-1];
          assert p[0] == q[0] && Up(p[1..]) == q[1..|p|-1] <==> Up(p) == q[..|p|-1] by {
            assert Up(p) == [p[0]] + p[1..|p|-1] && q[..|p|-1] == [q[0]] + q[1..|p|-1];
          }
        }
      }
    }
  }

  lemma PrintedPrefixIff(p: Path, q: Path)
    requires Printable(p) && Printable(q)
    ensures Printed(p) <= Printed(q) <==> Continues(p, q)
  {
    SlashedPrefixIff(p, q);
    if p == [] && q != [] {
      assert Slashed(q)[..1] == "/";
    }
  }

  lemma PrintedInjective(p: Path, q: Path)
    requires Printable(p) && Printable(q) && Printed(p) == Printed(q)
    ensures p == q
  {
    PrintedPrefixIff(p, q);
    PrintedPrefixIff(q, p);
    if p != [] && q != [] {
      assert |p| == |q| && Up(p) == Up(q) && Last(p) == Last(q);
      assert p == Up(p) + [Last(p)] && q == Up(q) + [Last(q)];
    }
  }

  // ----- What the prefix takes -----

  predicate AllPrintable(paths: set<Path>) {
    forall q :: q in paths ==> Printable(q)
  }

  function Table(paths: set<Path>): set<string> {
    set q | q in paths :: Printed(q)
  }

  function StartingWith(targets: set<string>, oldRoot: string): set<string> {
    set t | t in targets && oldRoot <= t
  }

  /** The mounts outside the old root. */
  function Outside(paths: set<Path>, p: Path): set<Path> {
    set q | q in paths && !(p <= q)
  }

  /** Not below p, but with a longer name where p ends. */
  predicate Neighbour(p: Path, q: Path) {
    Continues(p, q) && !(p <= q)
  }

  lemma ContinuesBelow(p: Path, q: Path)
    requires p <= q
    ensures Continues(p, q)
  {
    if p != [] {
      assert Up(p) == q[..|p|-1] && Last(p) == q[|p|-1];
    }
  }

  /** Exactly when taking the targets that start with the old root's path leaves exactly the
      mounts outside the old root: no mount is a neighbour. */
  lemma PrefixIsSubtreeIff(paths: set<Path>, p: Path)
    requires AllPrintable(paths) && Printable(p)
    ensures Table(paths) - StartingWith(Table(paths), Printed(p)) == Table(Outside(paths, p))
            <==> forall q :: q in paths ==> !Neighbour(p, q)
  {
    forall q | q in paths
      ensures Printed(q) in StartingWith(Table(paths), Printed(p)) <==> Continues(p, q)
      ensures Printed(q) in Table(Outside(paths, p)) <==> !(p <= q)
      ensures p <= q ==> Continues(p, q)
    {
      PrintedPrefixIff(p, q);
      if p <= q {
        ContinuesBelow(p, q);
      }
      if r :| r in Outside(paths, p) && Printed(r) == Printed(q) {
        PrintedInjective(r, q);
      }
    }
    if q :| q in paths && Neighbour(p, q) {
      assert Printed(q) in Table(Outside(paths, p));
    }
  }

  /** Every mount is visited after all mounts below it, so nothing is busy: the call reports no
      failure and removes exactly the mounts whose target starts with the old root's path. That
      leaves exactly the mounts outside the old root if and only if there is no neighbour. */
  method UnmountUnder(table: MountTable, oldRoot: string) returns (failed: seq<string>)
    requires Absolute(table.targets)
    modifies table
    ensures failed == []
    ensures table.targets == old(table.targets) - StartingWith(old(table.targets), oldRoot)
    ensures forall paths, p ::
              AllPrintable(paths) && Printable(p) && old(table.targets) == Table(paths) && oldRoot == Printed(p) ==>
                (table.targets == Table(Outside(paths, p)) <==> forall q :: q in paths ==> !Neighbour(p, q))
  {
    forall paths, p | AllPrintable(paths) && Printable(p) {
      PrefixIsSubtreeIff(paths, p);
    }
    var mounts := table.ReadMountTargets();
    var under: seq<string> := [];
    for n := 0 to |mounts|
      invariant forall t :: t in under <==> t in mounts[..n] && oldRoot <= t
      invariant forall i, j :: 0 <= i < j < |under| ==> under[i] != under[j]
    {
      assert mounts[..n+1] == mounts[..n] + [mounts[n]];
      if oldRoot <= mounts[n] {
        assert mounts[n] !in mounts[..n];
        under := under + [mounts[n]];
      }
    }
    assert mounts[..|mounts|] == mounts;
    var sorted := SortByLength(under);
    SameElements(sorted, under);
    NoRepeats(under, sorted);
    failed := [];
    ghost var before := table.targets;
    for n := 0 to |sorted|
      invariant failed == []
      invariant forall t :: t in table.targets <==> t in before && t !in sorted[..n]
    {
      var m := sorted[n];
      assert sorted[..n+1] == sorted[..n] + [m];
      forall u | u in table.targets ensures !Below(u, m) {
        NothingLeftBelow(before, oldRoot, sorted, n, u);
      }
      assert m !in sorted[..n];
      var ok := table.Unmount(m);
      if !ok {
        failed := failed + [m];
      }
    }
    assert sorted[..|sorted|] == sorted;
  }

  lemma NothingLeftBelow(targets: set<string>, oldRoot: string, sorted: seq<string>, n: nat, u: string)
    requires n < |sorted| && LongestFirst(sorted) && Absolute(targets)
    requires forall t :: t in sorted <==> t in targets && oldRoot <= t
    requires u in targets && u !in sorted[..n]
    ensures !Below(u, sorted[n])
  {
    var m := sorted[n];
    assert m in sorted && oldRoot <= m;
    if |u| > |m| {
      assert u !in sorted by {
        forall k | 0 <= k < |sorted| ensures sorted[k] != u {
          assert k < n ==> sorted[..n][k] == sorted[k];
        }
      }
      assert !(oldRoot <= u);
      assert !(m <= u);
    }
  }

  /** A neighbour that shares the spelling is unmounted too. */
  lemma NeighbourIsTaken()
    ensures var paths := {["mnt", "oldroot"], ["mnt", "oldroot2"]};
            var targets := Table(paths);
            && Outside(paths, ["mnt", "oldroot"]) == {["mnt", "oldroot2"]}
            && targets - StartingWith(targets, Printed(["mnt", "oldroot"])) == {}
  {
    var p, q := ["mnt", "oldroot"], ["mnt", "oldroot2"];
    assert q[1][..7] == p[1] && |q[1]| == 8 && |p[1]| == 7;
    assert Up(p) == ["mnt"] == q[..1];
    PrintedPrefixIff(p, p);
    PrintedPrefixIff(p, q);
  }

  lemma {:induction false} SlashedBelowIff(p: Path, q: Path)
    requires Printable(p) && Printable(q)
    ensures Slashed(p) + "/" <= Slashed(q) <==> p < q
    decreases |p|
  {
    if p == [] {
      if q != [] {
        assert Slashed(q)[..1] == "/";
      }
    } else if q != [] {
      var x := Slashed(p[1..]) + "/";
      assert Slashed(p) + "/" == "/" + p[0] + x;
      assert x[0] == '/';
      AfterSame(p[0], x, q[0], Slashed(q[1..]));
      SlashedBelowIff(p[1..], q[1..]);
      assert p == [p[0]] + p[1..] && q == [q[0]] + q[1..];
    }
  }

  /** For printed paths, what keeps a mount busy is what is mounted deeper. */
  lemma BelowIsDeeper(p: Path, q: Path)
    requires Printable(p) && Printable(q)
    ensures Below(Printed(q), Printed(p)) <==> p < q
  {
    SlashedBelowIff(p, q);
    assert forall r: Path :: r != [] && Printable(r) ==> |Slashed(r)| >= 2;
  }
}
