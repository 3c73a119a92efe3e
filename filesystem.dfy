/** The on-disk state the repository works on, as a map from path to entry,
    and the handful of os calls the core makes on it. The kernel's own
    failures (a full disk, a permission refused while creating) are a
    boolean the caller passes in. */
module FileSystem {
  import opened Wrappers
  import opened Errors
  import opened Paths

  /** What os.Lstat finds at a path. `Unreadable` stands for an entry whose
      lookup fails with an error other than "does not exist". */
  datatype Entry = Directory | Regular(data: string) | Symlink | Special | Unreadable

  type Tree = map<Path, Entry>

  /** os.Lstat: the entry, or the error the lookup gives. */
  function Lstat(fs: Tree, p: Path): (r: Result<Entry, Error>)
    ensures r.Success? <==> p in fs && !fs[p].Unreadable?
    ensures r.Failure? ==> (r.error == IO(NotExist) <==> p !in fs)
  {
    if p !in fs then Failure(IO(NotExist))
    else if fs[p].Unreadable? then Failure(IO(OtherFailure("lstat")))
    else Success(fs[p])
  }

  /** The directory holding `p` (filepath.Dir for a path with components). */
  function Dir(p: Path): Path
    requires |p.parts| > 0
  {
    Path(p.absolute, p.parts[..|p.parts| - 1])
  }

  /** ioutil.ReadFile: the contents of a regular file, or the error. */
  function ReadFile(fs: Tree, p: Path): (r: Result<string, Error>)
    ensures r.Success? <==> p in fs && fs[p].Regular?
    ensures r.Success? ==> r.value == fs[p].data
    ensures r.Failure? ==> (r.error == IO(NotExist) <==> p !in fs)
  {
    if p !in fs then Failure(IO(NotExist))
    else match fs[p]
      case Regular(data) => Success(data)
      case Directory => Failure(IO(IsDirectory))
      case _ => Failure(IO(OtherFailure("read")))
  }

  /** ioutil.WriteFile: create or truncate a regular file. The containing
      directory must exist; a directory or any other kind of entry at `p`
      refuses the write. */
  function TryWrite(fs: Tree, p: Path, data: string): (r: Result<Tree, Error>)
    ensures r.Success? ==> r.value == fs[p := Regular(data)]
    ensures r.Success? <==>
      |p.parts| > 0 && Dir(p) in fs && fs[Dir(p)].Directory? &&
      (p !in fs || fs[p].Regular?)
  {
    if |p.parts| == 0 then Failure(IO(IsDirectory))
    else if Dir(p) !in fs then Failure(IO(NotExist))
    else if !fs[Dir(p)].Directory? then Failure(IO(NotDirectory))
    else if p in fs && fs[p].Directory? then Failure(IO(IsDirectory))
    else if p in fs && !fs[p].Regular? then Failure(IO(OtherFailure("write")))
    else Success(fs[p := Regular(data)])
  }

  /** `q` is `p` or lies below it. */
  predicate Below(p: Path, q: Path) {
    p.absolute == q.absolute && p.parts <= q.parts
  }

  /** The tree without `p` and everything below it (what os.RemoveAll removes). */
  function Without(fs: Tree, p: Path): (r: Tree)
    ensures forall q :: q in r <==> q in fs && !Below(p, q)
    ensures forall q :: q in r ==> r[q] == fs[q]
  {
    map q | q in fs && !Below(p, q) :: fs[q]
  }

  /** The error os.MkdirAll(p) gives on `fs`, where `ok` says whether the
      kernel lets a missing directory be made. */
  function MkdirAllError(fs: Tree, p: Path, ok: bool): (r: Option<Error>)
    ensures r == None <==> (p in fs && fs[p].Directory?) || (p !in fs && ok)
  {
    if p in fs then
      if fs[p].Directory? then None
      else if fs[p].Unreadable? then Some(IO(OtherFailure("stat")))
      else Some(IO(NotDirectory))
    else if ok then None
    else Some(IO(OtherFailure("mkdir")))
  }

  /** The disk after a successful os.MkdirAll(p). */
  function MadeDir(fs: Tree, p: Path): (r: Tree)
    ensures p in r && r[p].Directory?
    ensures forall q :: q != p ==> (q in r <==> q in fs) && (q in fs ==> r[q] == fs[q])
  {
    if p in fs && fs[p].Directory? then fs else fs[p := Directory]
  }

  class Disk {
    var entries: Tree

    constructor (entries: Tree)
      ensures this.entries == entries
    {
      this.entries := entries;
    }

    /** os.MkdirAll(p): nothing to do when `p` is already a directory; an
        entry of another kind at `p` is "not a directory"; otherwise the
        directory is created when the kernel lets it be (`ok`). */
    method MkdirAll(p: Path, ok: bool) returns (err: Option<Error>)
      modifies this
      ensures p in old(entries) && old(entries)[p].Directory? ==>
        err == None && entries == old(entries)
      ensures p in old(entries) && !old(entries)[p].Directory? ==>
        err.Some? && entries == old(entries)
      ensures p !in old(entries) ==>
        (err == None <==> ok) &&
        entries == if ok then old(entries)[p := Directory] else old(entries)
      ensures err == MkdirAllError(old(entries), p, ok)
      ensures entries == if err == None then MadeDir(old(entries), p) else old(entries)
    {
      if p in entries {
        if entries[p].Directory? {
          err := None;
        } else if entries[p].Unreadable? {
          err := Some(IO(OtherFailure("stat")));
        } else {
          err := Some(IO(NotDirectory));
        }
      } else if ok {
        entries := entries[p := Directory];
        err := None;
      } else {
        err := Some(IO(OtherFailure("mkdir")));
      }
    }

    /** os.RemoveAll(p): `p` and everything below it disappear when the
        kernel lets them (`ok`); a path that is already absent is success. */
    method RemoveAll(p: Path, ok: bool) returns (err: Option<Error>)
      modifies this
      ensures err == None ==> entries == Without(old(entries), p)
      ensures err != None ==> entries == old(entries)
      ensures err == None <==> ok || p !in old(entries)
    {
      if p !in entries {
        err := None;
        entries := Without(entries, p);
      } else if ok {
        entries := Without(entries, p);
        err := None;
      } else {
        err := Some(IO(OtherFailure("remove")));
      }
    }

    /** os.Mkdir(p): create one directory inside an existing directory; an
        existing entry at `p` is "already exists". */
    method Mkdir(p: Path) returns (err: Option<Error>)
      modifies this
      ensures err == None <==>
        p !in old(entries) && |p.parts| > 0 && Dir(p) in old(entries) && old(entries)[Dir(p)].Directory?
      ensures p in old(entries) ==> err == Some(IO(AlreadyExists))
      ensures entries == if err == None then old(entries)[p := Directory] else old(entries)
    {
      if p in entries {
        return Some(IO(AlreadyExists));
      }
      if |p.parts| == 0 || Dir(p) !in entries {
        return Some(IO(NotExist));
      }
      if !entries[Dir(p)].Directory? {
        return Some(IO(NotDirectory));
      }
      entries := entries[p := Directory];
      return None;
    }

    /** ioutil.WriteFile on this disk. */
    method WriteFile(p: Path, data: string) returns (err: Option<Error>)
      modifies this
      ensures err == None <==> TryWrite(old(entries), p, data).Success?
      ensures err == None ==> entries == old(entries)[p := Regular(data)]
      ensures err != None ==> entries == old(entries) && err == Some(TryWrite(old(entries), p, data).error)
    {
      var r := TryWrite(entries, p, data);
      if r.Success? {
        entries := r.value;
        err := None;
      } else {
        err := Some(r.error);
      }
    }
  }

  /** checkDir (util.go): make sure `p` is a real directory, creating it
      when absent. Failures are reported under `wrapErr`, except a lookup
      error other than "does not exist", which is returned as it is. The
      lookup is Lstat, so a symbolic link is "not a directory". */
  method CheckDir(disk: Disk, p: Path, wrapErr: Error, mkdirOk: bool) returns (err: Option<Error>)
    modifies disk
    ensures p !in old(disk.entries) ==>
      (err == None <==> mkdirOk) &&
      (mkdirOk ==> disk.entries == old(disk.entries)[p := Directory]) &&
      (!mkdirOk ==> disk.entries == old(disk.entries) &&
                    err == Some(Wrap(wrapErr, "unable to mkdir")))
    ensures p in old(disk.entries) ==> disk.entries == old(disk.entries)
    ensures p in old(disk.entries) && old(disk.entries)[p].Unreadable? ==>
      err == Some(IO(OtherFailure("lstat")))
    ensures p in old(disk.entries) && old(disk.entries)[p].Directory? ==> err == None
    ensures p in old(disk.entries) && !old(disk.entries)[p].Directory? &&
            !old(disk.entries)[p].Unreadable? ==>
      err == Some(Wrap(wrapErr, "not a directory"))
  {
    var fi := Lstat(disk.entries, p);
    if fi.Failure? {
      if fi.error == IO(NotExist) {
        var mkErr := disk.MkdirAll(p, mkdirOk);
        if mkErr.Some? {
          return Some(Wrap(wrapErr, "unable to mkdir"));
        }
        return None;
      }
      return Some(fi.error);
    }

    if !fi.value.Directory? {
      return Some(Wrap(wrapErr, "not a directory"));
    }

    // The symbolic-link test that follows in the Go code can never succeed:
    // Lstat reports a link as a link, never as a directory, so the branch
    // above has already refused it.
    return None;
  }
}
