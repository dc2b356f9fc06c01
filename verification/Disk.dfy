/** The mutable host tree: system calls change it in place. */
module HostDisk {
  import opened Paths
  import FT = FileTree

  class Disk {
    var fs: FT.FS

    constructor (fs: FT.FS)
      ensures this.fs == fs
    {
      this.fs := fs;
    }

    method MkdirAll(p: Path) returns (e: FT.Errno)
      modifies this
      ensures FT.Ret(fs, e) == FT.MkdirAll(old(fs), p)
    {
      var r := FT.MkdirAll(fs, p);
      fs, e := r.fs, r.errno;
    }

    method RemoveAll(p: Path) returns (e: FT.Errno)
      modifies this
      ensures FT.Ret(fs, e) == FT.RemoveAll(old(fs), p)
    {
      var r := FT.RemoveAll(fs, p);
      fs, e := r.fs, r.errno;
    }

    method CreateExcl(p: Path, body: string) returns (e: FT.Errno)
      modifies this
      ensures FT.Ret(fs, e) == FT.CreateExcl(old(fs), p, body)
    {
      var r := FT.CreateExcl(fs, p, body);
      fs, e := r.fs, r.errno;
    }

    method CreateTrunc(p: Path, body: string) returns (e: FT.Errno)
      modifies this
      ensures FT.Ret(fs, e) == FT.CreateTrunc(old(fs), p, body)
    {
      var r := FT.CreateTrunc(fs, p, body);
      fs, e := r.fs, r.errno;
    }

    method Symlink(target: RawPath, p: Path) returns (e: FT.Errno)
      modifies this
      ensures FT.Ret(fs, e) == FT.Symlink(old(fs), target, p)
    {
      var r := FT.Symlink(fs, target, p);
      fs, e := r.fs, r.errno;
    }

    method Link(source: Path, p: Path) returns (e: FT.Errno)
      modifies this
      ensures FT.Ret(fs, e) == FT.HardLink(old(fs), source, p)
    {
      var r := FT.HardLink(fs, source, p);
      fs, e := r.fs, r.errno;
    }

    /** os.ReadDir: the names in the directory that p leads to. */
    method ReadDir(p: Path) returns (names: set<string>, e: FT.Errno)
      ensures match FT.OpenDir(fs, p)
              case Fail(x) => e == x
              case At(d) => e == FT.OK && forall n :: n in names <==> d + [n] in fs.nodes
    {
      names := {};
      match FT.OpenDir(fs, p) {
        case Fail(x) => e := x;
        case At(d) =>
          e := FT.OK;
          names := set q | q in fs.nodes && q != [] && Up(q) == d :: Last(q);
          forall n ensures n in names <==> d + [n] in fs.nodes {
            assert Up(d + [n]) == d && Last(d + [n]) == n;
            if n in names {
              var q :| q in fs.nodes && q != [] && Up(q) == d && Last(q) == n;
              assert q == d + [n];
            }
          }
      }
    }
  }
}
