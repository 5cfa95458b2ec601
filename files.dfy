/**
 * The file system as the recording mover sees it: a set of existing paths
 * and the calls `move_to` makes on it. Every call that can fail takes an
 * `allow` argument standing for whatever the operating system decides
 * (permissions, a missing source, a full disk ...).
 */
module Files {
  import opened Text

  /** One file-system call, with whether it succeeded. */
  datatype Op =
    | Mkdir(path: Path, ok: bool)
    | Rename(src: Path, dst: Path, ok: bool)
    | Move(src: Path, dst: Path, ok: bool)
    | Unlink(path: Path, ok: bool)
    | Create(path: Path)

  /** The number of path components; a path's parent is one shorter. */
  function Depth(p: Path): nat {
    match p
    case Root(_) => 0
    case Child(q, _) => Depth(q) + 1
  }

  /** A path and all its ancestors: what `mkdir(parents=True)` brings into
      existence. */
  function Lineage(p: Path): (r: set<Path>)
    ensures p in r
    ensures forall q :: q in r ==> Depth(q) <= Depth(p)
  {
    match p
    case Root(_) => {p}
    case Child(q, _) => {p} + Lineage(q)
  }

  /** The ancestor `n` levels above `p` (`p.parents[n - 1]`); `Up(p, 0)` is `p`. */
  function Up(p: Path, n: nat): Path {
    if n == 0 then p
    else match p
      case Root(_) => p
      case Child(q, _) => Up(q, n - 1)
  }

  /** `mkdir(parents=True)` creates exactly the directory and its ancestors:
      the paths reached by climbing from `p` to their own depth. */
  lemma {:induction false} LineageSpec(p: Path, q: Path)
    ensures q in Lineage(p) <==> Depth(q) <= Depth(p) && Up(p, Depth(p) - Depth(q)) == q
  {
    if q != p && p.Child? {
      LineageSpec(p.parent, q);
      if Depth(q) < Depth(p) {
        assert Up(p, Depth(p) - Depth(q)) == Up(p.parent, Depth(p.parent) - Depth(q));
      }
    }
  }

  /** The existing paths after a move or rename of `src` to `dst`. */
  function Moved(paths: set<Path>, src: Path, dst: Path, ok: bool): (r: set<Path>)
    ensures ok ==> dst in r && (src != dst ==> src !in r)
    ensures !ok ==> r == paths
    ensures forall q :: q != src && q != dst ==> (q in r <==> q in paths)
  {
    if ok then paths - {src} + {dst} else paths
  }

  class FileSystem {
    var paths: set<Path>
    /** Every call made so far, oldest first. */
    ghost var log: seq<Op>

    constructor (initial: set<Path>)
      ensures paths == initial && log == []
    {
      paths := initial;
      log := [];
    }

    /** `Path.exists()`. */
    predicate Exists(p: Path)
      reads this
    {
      p in paths
    }

    /** `Path.mkdir(parents=True)`. */
    method Mkdir(p: Path, allow: bool) returns (ok: bool)
      modifies this
      ensures ok == allow
      ensures paths == if ok then old(paths) + Lineage(p) else old(paths)
      ensures log == old(log) + [Op.Mkdir(p, ok)]
    {
      ok := allow;
      if ok {
        paths := paths + Lineage(p);
      }
      log := log + [Op.Mkdir(p, ok)];
    }

    /** `Path.rename(dst)`. */
    method Rename(src: Path, dst: Path, allow: bool) returns (ok: bool)
      modifies this
      ensures ok == allow
      ensures paths == Moved(old(paths), src, dst, ok)
      ensures log == old(log) + [Op.Rename(src, dst, ok)]
    {
      ok := allow;
      paths := Moved(paths, src, dst, ok);
      log := log + [Op.Rename(src, dst, ok)];
    }

    /** `shutil.move(src, dst)`. */
    method Move(src: Path, dst: Path, allow: bool) returns (ok: bool)
      modifies this
      ensures ok == allow
      ensures paths == Moved(old(paths), src, dst, ok)
      ensures log == old(log) + [Op.Move(src, dst, ok)]
    {
      ok := allow;
      paths := Moved(paths, src, dst, ok);
      log := log + [Op.Move(src, dst, ok)];
    }

    /** `Path.unlink()`. */
    method Unlink(p: Path, allow: bool) returns (ok: bool)
      modifies this
      ensures ok == allow
      ensures paths == if ok then old(paths) - {p} else old(paths)
      ensures log == old(log) + [Op.Unlink(p, ok)]
    {
      ok := allow;
      if ok {
        paths := paths - {p};
      }
      log := log + [Op.Unlink(p, ok)];
    }

    /** Opening a file for writing, which creates it. */
    method Create(p: Path)
      modifies this
      ensures paths == old(paths) + {p}
      ensures log == old(log) + [Op.Create(p)]
    {
      paths := paths + {p};
      log := log + [Op.Create(p)];
    }
  }
}
