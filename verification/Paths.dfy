/**
 Slash-separated paths as lists of components.

 A path string is represented by its components (the pieces between slashes) and, where it
 matters, by whether it starts with a slash. Empty, "." and ".." components are kept until
 something interprets them, as in the program.
 */
module Paths {

  /** A location, from the top of the host tree. */
  type Path = seq<string>

  /** A path as somebody wrote it: an entry name, a link target. */
  datatype RawPath = RawPath(abs: bool, parts: seq<string>)

  /** Neither empty nor one of the two dot names. */
  predicate Ordinary(name: string) {
    name != "" && name != "." && name != ".."
  }

  predicate Names(p: Path) {
    forall i :: 0 <= i < |p| ==> Ordinary(p[i])
  }

  predicate NoDotDot(parts: seq<string>) {
    forall i :: 0 <= i < |parts| ==> parts[i] != ".."
  }

  /** filepath.Dir of a clean path. */
  function Up(p: Path): Path {
    if p == [] then [] else p[..|p|-1]
  }

  function Last(p: Path): string
    requires p != []
  {
    p[|p|-1]
  }

  /** The lexical rule of filepath.Clean: `out` is the part already cleaned. */
  function CleanOnto(abs: bool, out: Path, parts: seq<string>): Path
    decreases |parts|
  {
    if parts == [] then out
    else if parts[0] == "" || parts[0] == "." then CleanOnto(abs, out, parts[1..])
    else if parts[0] == ".." then
      if out != [] && Last(out) != ".." then CleanOnto(abs, Up(out), parts[1..])
      else if abs then CleanOnto(abs, out, parts[1..])
      else CleanOnto(abs, out + [".."], parts[1..])
    else CleanOnto(abs, out + [parts[0]], parts[1..])
  }

  /** The components of filepath.Clean. */
  function Clean(r: RawPath): Path {
    CleanOnto(r.abs, [], r.parts)
  }

  /** Number of leading ".." components. */
  function Climb(parts: seq<string>): (n: nat)
    ensures n <= |parts|
  {
    if parts != [] && parts[0] == ".." then 1 + Climb(parts[1..]) else 0
  }

  /** What a clean path looks like: climbs first, then ordinary names; no climb from "/". */
  predicate CleanForm(abs: bool, p: Path) {
    && Names(p[Climb(p)..])
    && (abs ==> Climb(p) == 0)
  }

  lemma ClimbAppend(p: Path, s: string)
    ensures Climb(p) < |p| ==> Climb(p + [s]) == Climb(p)
    ensures Climb(p) == |p| ==> Climb(p + [s]) == if s == ".." then |p| + 1 else |p|
  {
    if p == [] {
    } else {
      assert (p + [s])[1..] == p[1..] + [s];
      ClimbAppend(p[1..], s);
    }
  }

  /** A path that does not climb all the way ends in an ordinary name. */
  lemma LastIsName(p: Path, n: nat)
    requires n < |p| && Names(p[n..])
    ensures Ordinary(Last(p))
  {
    assert Last(p) == p[n..][|p| - 1 - n];
  }

  lemma {:induction false} AllClimbs(p: Path)
    requires Climb(p) == |p|
    ensures forall i :: 0 <= i < |p| ==> p[i] == ".."
    decreases |p|
  {
    if p != [] {
      AllClimbs(p[1..]);
      assert forall i :: 0 < i < |p| ==> p[i] == p[1..][i-1];
    }
  }

  lemma {:induction false} ClimbShort(p: Path)
    requires p != [] && Climb(p) < |p|
    ensures Climb(Up(p)) == Climb(p)
    decreases |p|
  {
    if |p| > 1 {
      assert Up(p)[0] == p[0] && Up(p)[1..] == Up(p[1..]);
      if p[0] == ".." {
        ClimbShort(p[1..]);
      }
    }
  }

  lemma ClimbLast(p: Path)
    requires p != [] && CleanForm(false, p)
    ensures Last(p) == ".." <==> Climb(p) == |p|
    ensures Climb(p) < |p| ==> Climb(Up(p)) == Climb(p)
  {
    if Climb(p) == |p| {
      AllClimbs(p);
    } else {
      LastIsName(p, Climb(p));
      ClimbShort(p);
    }
  }

  /** Cleaning leaves ".." only at the front, and nowhere in an absolute path. */
  lemma {:induction false} CleanOntoForm(abs: bool, out: Path, parts: seq<string>)
    requires CleanForm(abs, out)
    ensures CleanForm(abs, CleanOnto(abs, out, parts))
    decreases |parts|
  {
    if parts == [] {
    } else if parts[0] == "" || parts[0] == "." {
      CleanOntoForm(abs, out, parts[1..]);
    } else if parts[0] == ".." {
      if out != [] {
        ClimbLast(out);
      }
      if out != [] && Last(out) != ".." {
        assert Up(out)[Climb(out)..] == out[Climb(out)..][..|out| - 1 - Climb(out)];
        CleanOntoForm(abs, Up(out), parts[1..]);
      } else if abs {
        CleanOntoForm(abs, out, parts[1..]);
      } else {
        ClimbAppend(out, "..");
        CleanOntoForm(abs, out + [".."], parts[1..]);
      }
    } else {
      ClimbAppend(out, parts[0]);
      assert (out + [parts[0]])[Climb(out)..] == out[Climb(out)..] + [parts[0]];
      CleanOntoForm(abs, out + [parts[0]], parts[1..]);
    }
  }

  /** Cleaning a list of ordinary names changes nothing. */
  lemma {:induction false} CleanOntoNames(abs: bool, out: Path, parts: seq<string>)
    requires Names(parts)
    ensures CleanOnto(abs, out, parts) == out + parts
    decreases |parts|
  {
    if parts == [] {
    } else {
      CleanOntoNames(abs, out + [parts[0]], parts[1..]);
      assert out + [parts[0]] + parts[1..] == out + parts;
    }
  }

  /** Cleaning runs left to right, so it can be split anywhere. */
  lemma {:induction false} CleanOntoSplit(abs: bool, out: Path, a: seq<string>, b: seq<string>)
    ensures CleanOnto(abs, out, a + b) == CleanOnto(abs, CleanOnto(abs, out, a), b)
    decreases |a|
  {
    if a == [] {
      assert a + b == b;
    } else {
      assert (a + b)[0] == a[0] && (a + b)[1..] == a[1..] + b;
      if a[0] == "" || a[0] == "." {
        CleanOntoSplit(abs, out, a[1..], b);
      } else if a[0] == ".." {
        if out != [] && Last(out) != ".." {
          CleanOntoSplit(abs, Up(out), a[1..], b);
        } else if abs {
          CleanOntoSplit(abs, out, a[1..], b);
        } else {
          CleanOntoSplit(abs, out + [".."], a[1..], b);
        }
      } else {
        CleanOntoSplit(abs, out + [a[0]], a[1..], b);
      }
    }
  }

  lemma CleanOfNames(abs: bool, p: Path)
    requires Names(p)
    ensures Clean(RawPath(abs, p)) == p
  {
    CleanOntoNames(abs, [], p);
    assert [] + p == p;
  }

  lemma NamesBelow(a: Path, b: Path)
    requires Names(a + b)
    ensures Names(b)
  {
    forall i | 0 <= i < |b| ensures Ordinary(b[i]) {
      assert (a + b)[|a| + i] == b[i];
    }
  }

  /** A name and a ".." after it cancel, wherever they stand and whatever surrounds them. */
  lemma CleanCancels(abs: bool, a: seq<string>, n: string, b: seq<string>)
    requires Ordinary(n)
    ensures Clean(RawPath(abs, a + [n, ".."] + b)) == Clean(RawPath(abs, a + b))
  {
    var out := CleanOnto(abs, [], a);
    CleanOntoSplit(abs, [], a + [n, ".."], b);
    CleanOntoSplit(abs, [], a, [n, ".."]);
    CleanOntoSplit(abs, [], a, b);
    UpAgain(abs, out, n);
  }

  lemma UpAgain(abs: bool, out: Path, n: string)
    requires Ordinary(n)
    ensures CleanOnto(abs, out, [n, ".."]) == out
  {
    assert [n, ".."][1..] == [".."] && [".."][1..] == [];
    assert Up(out + [n]) == out && Last(out + [n]) == n;
    assert CleanOnto(abs, out + [n], [".."]) == CleanOnto(abs, out, []);
  }

  /** Empty and "." components are dropped wherever they stand. */
  lemma CleanDrops(abs: bool, a: seq<string>, n: string, b: seq<string>)
    requires n == "" || n == "."
    ensures Clean(RawPath(abs, a + [n] + b)) == Clean(RawPath(abs, a + b))
  {
    CleanOntoSplit(abs, [], a + [n], b);
    CleanOntoSplit(abs, [], a, [n]);
    CleanOntoSplit(abs, [], a, b);
    assert [n][1..] == [];
  }

  lemma CleanIsForm(t: RawPath)
    ensures CleanForm(t.abs, Clean(t))
  {
    var none: Path := [];
    assert none[0..] == none;
    CleanOntoForm(t.abs, [], t.parts);
  }

  /** A clean name that does not start by climbing is made of ordinary names. */
  lemma CleanNames(t: RawPath)
    requires Clean(t) == [] || Clean(t)[0] != ".."
    ensures Names(Clean(t))
  {
    CleanIsForm(t);
    assert Clean(t)[0..] == Clean(t);
  }
}
