/** The repository (repository.go, and the Repository-side half of
    layer.go): a base directory on a disk, a registry from layer ID to
    layer that refuses duplicates, and the ordered list of mounts. The lock
    file and mutex around every edit are left out; each edit is one atomic
    step. */
module Repositories {
  import opened Wrappers
  import opened Errors
  import opened Paths
  import opened FileSystem
  import opened Layers
  import opened Mounts

  // ----- mkdirCheckRel: refuse paths outside the base directory -----

  /** `p` is the directory that holds `base`. */
  predicate ParentOf(p: Path, base: Path) {
    |base.parts| >= 1 && p.absolute == base.absolute &&
    p.parts == base.parts[..|base.parts| - 1]
  }

  const BelowRootMessage: string := "relative path falls below basedir root"

  /** The test of mkdirCheckRel as the Go code writes it: filepath.Rel, then
      refuse when the relative path starts with "../". */
  function RelCheckAsWritten(baseDir: Path, p: Path): Option<Error> {
    match Rel(baseDir, p)
    case Failure(e) => Some(e)
    case Success(rel) =>
      if HasPrefix(rel, "../") then Some(Wrap(MountCannotProceed, BelowRootMessage)) else None
  }

  /** The test as intended: refuse a relative path that climbs out at all,
      which also covers the bare "..". */
  function RelCheck(baseDir: Path, p: Path): Option<Error> {
    match Rel(baseDir, p)
    case Failure(e) => Some(e)
    case Success(rel) =>
      if rel == ".." || HasPrefix(rel, "../") then Some(Wrap(MountCannotProceed, BelowRootMessage))
      else None
  }

  /** The relative path of cleaned paths, in terms of the number of ".."
      steps: none exactly when `p` is within `base`, and one step with
      nothing after it exactly when `p` is the parent of `base`. */
  lemma RelPartsSteps(baseDir: Path, p: Path)
    requires Clean(p) && baseDir.absolute == p.absolute
    ensures var k := CommonPrefix(baseDir.parts, p.parts);
      && RelParts(baseDir, p) == Success(Ups(|baseDir.parts| - k) + p.parts[k..])
      && (Within(baseDir, p) <==> k == |baseDir.parts|)
      && (ParentOf(p, baseDir) <==> k == |p.parts| && |baseDir.parts| - k == 1)
  {
    var k := CommonPrefix(baseDir.parts, p.parts);
    if k == |baseDir.parts| {
      assert baseDir.parts == p.parts[..k];
    }
    if k == |p.parts| && |baseDir.parts| - k == 1 {
      assert p.parts == baseDir.parts[..k];
    }
  }

  /** The rendered relative path is ".." exactly when it is one ".." step. */
  lemma {:induction false} RenderedDotDot(parts: seq<string>)
    requires |parts| >= 1 && RelShaped(parts)
    ensures JoinParts(parts) == ".." <==> parts == [".."]
  {
    if |parts| >= 2 {
      JoinPartsStart(parts);
      var s := JoinParts(parts);
      assert parts[0] != "" && parts[1] != "";
      assert |JoinParts(parts[1..])| >= 1;
      assert |s| >= 3;
    }
  }

  /** What the Go test lets through: every path within the base directory,
      and also the base directory's parent, whose relative form ".." has no
      "../" prefix. */
  lemma RelCheckAsWrittenAccepts(baseDir: Path, p: Path)
    requires Clean(baseDir) && Clean(p)
    ensures RelCheckAsWritten(baseDir, p) == None <==> Within(baseDir, p) || ParentOf(p, baseDir)
  {
    if baseDir.absolute == p.absolute {
      RelPartsSteps(baseDir, p);
      RelPartsShaped(baseDir, p);
      var k := CommonPrefix(baseDir.parts, p.parts);
      var parts := Ups(|baseDir.parts| - k) + p.parts[k..];
      if parts != [] {
        DotDotSlashPrefix(parts);
        assert |baseDir.parts| - k == 0 ==> parts[0] == p.parts[k] && ValidPart(p.parts[k]);
      }
    }
  }

  /** The discrepancy: for a base directory with at least one component,
      its parent is outside it and yet passes the test as written. */
  lemma RelCheckAsWrittenLetsParentThrough(baseDir: Path)
    requires Clean(baseDir) && |baseDir.parts| >= 1
    ensures var parent := Path(baseDir.absolute, baseDir.parts[..|baseDir.parts| - 1]);
      !Within(baseDir, parent) && RelCheckAsWritten(baseDir, parent) == None
  {
    var parent := Path(baseDir.absolute, baseDir.parts[..|baseDir.parts| - 1]);
    assert Clean(parent) by {
      forall i | 0 <= i < |parent.parts| ensures ValidPart(parent.parts[i]) {
        assert parent.parts[i] == baseDir.parts[i];
      }
    }
    assert ParentOf(parent, baseDir);
    RelCheckAsWrittenAccepts(baseDir, parent);
  }

  /** The intended test accepts exactly the paths within the base directory. */
  lemma RelCheckAcceptsWithin(baseDir: Path, p: Path)
    requires Clean(baseDir) && Clean(p)
    ensures RelCheck(baseDir, p) == None <==> Within(baseDir, p)
    ensures RelCheck(baseDir, p).Some? && baseDir.absolute == p.absolute ==>
      Cause(RelCheck(baseDir, p).value) == MountCannotProceed
  {
    if baseDir.absolute == p.absolute {
      RelPartsSteps(baseDir, p);
      RelPartsShaped(baseDir, p);
      var k := CommonPrefix(baseDir.parts, p.parts);
      var parts := Ups(|baseDir.parts| - k) + p.parts[k..];
      if parts != [] {
        DotDotSlashPrefix(parts);
        RenderedDotDot(parts);
        assert |baseDir.parts| - k == 0 ==> parts[0] == p.parts[k] && ValidPart(p.parts[k]);
        assert |baseDir.parts| - k >= 1 && |parts| == 1 ==> parts == [".."];
      }
    }
  }

  // ----- RemoveMount: splicing a slice inside a range loop -----

  /** The Go loop `for i, x := range s { if x == m { s = append(s[:i],
      s[i+1:]...) } }` from index `i` on. `backing` is the slice's array,
      whose length the range fixed when the loop began, and `len` the
      slice's current length. A splice shifts the elements after `i` one
      place down inside the same array and leaves the last slot as it was;
      the loop still visits every slot of the array. The splice of an index
      at or past the current length is an out-of-range slice expression:
      a panic, here None. */
  function SpliceFrom<T(==)>(backing: seq<T>, len: nat, i: nat, x: T): Option<seq<T>>
    requires len <= |backing| && i <= |backing|
    decreases |backing| - i
  {
    if i == |backing| then Some(backing[..len])
    else if backing[i] != x then SpliceFrom(backing, len, i + 1, x)
    else if i + 1 > len then None
    else SpliceFrom(backing[..i] + backing[i + 1..len] + backing[len - 1..], len - 1, i + 1, x)
  }

  /** RemoveMount as written: the list after the loop, or None for a panic. */
  function RemoveAsWritten<T(==)>(s: seq<T>, x: T): Option<seq<T>> {
    SpliceFrom(s, |s|, 0, x)
  }

  /** RemoveMount as intended: every equal entry gone, the others in order. */
  function RemoveEqual<T(==)>(s: seq<T>, x: T): (r: seq<T>)
    ensures x !in r
    ensures forall i :: 0 <= i < |r| ==> r[i] in s
    ensures forall i :: 0 <= i < |s| && s[i] != x ==> s[i] in r
    ensures x !in s ==> r == s
    ensures |r| <= |s|
  {
    if s == [] then []
    else if s[0] == x then RemoveEqual(s[1..], x)
    else [s[0]] + RemoveEqual(s[1..], x)
  }

  function Count<T(==)>(s: seq<T>, x: T): nat {
    if s == [] then 0 else (if s[0] == x then 1 else 0) + Count(s[1..], x)
  }

  /** With no equal element left in the array from `i` on, the loop only
      reads: the result is the current slice. */
  lemma {:induction false} SpliceNoMatch<T>(backing: seq<T>, len: nat, i: nat, x: T)
    requires len <= |backing| && i <= |backing|
    requires forall j :: i <= j < |backing| ==> backing[j] != x
    ensures SpliceFrom(backing, len, i, x) == Some(backing[..len])
    decreases |backing| - i
  {
    if i < |backing| {
      SpliceNoMatch(backing, len, i + 1, x);
    }
  }

  /** Skipping a prefix with no equal element. */
  lemma {:induction false} SpliceSkip<T>(s: seq<T>, i: nat, x: T)
    requires i <= |s|
    requires forall j :: 0 <= j < i ==> s[j] != x
    ensures SpliceFrom(s, |s|, 0, x) == SpliceFrom(s, |s|, i, x)
    decreases i
  {
    if i > 0 {
      SpliceSkip(s, i - 1, x);
    }
  }

  /** With exactly one equal mount, the loop removes it and keeps the
      others in their order, which is also what the intended removal does. */
  lemma RemoveAsWrittenSingle<T>(s: seq<T>, k: nat, x: T)
    requires k < |s| && s[k] == x
    requires forall j :: 0 <= j < |s| && j != k ==> s[j] != x
    ensures RemoveAsWritten(s, x) == Some(s[..k] + s[k + 1..])
    ensures RemoveAsWritten(s, x) == Some(RemoveEqual(s, x))
  {
    SpliceSkip(s, k, x);
    SpliceAtSingle(s, k, x);
    RemoveEqualSingle(s, k, x);
  }

  /** At the one equal element, the splice removes it and nothing after it
      matches. */
  lemma SpliceAtSingle<T>(s: seq<T>, k: nat, x: T)
    requires k < |s| && s[k] == x
    requires forall j :: k < j < |s| ==> s[j] != x
    ensures SpliceFrom(s, |s|, k, x) == Some(s[..k] + s[k + 1..])
  {
    var n := |s|;
    var b := s[..k] + s[k + 1..n] + s[n - 1..];
    assert |b| == n;
    assert SpliceFrom(s, n, k, x) == SpliceFrom(b, n - 1, k + 1, x);
    forall j | k + 1 <= j < n ensures b[j] != x {
      if j < n - 1 {
        assert b[j] == s[j + 1];
      } else {
        assert b[j] == s[n - 1];
      }
    }
    SpliceNoMatch(b, n - 1, k + 1, x);
    assert b[..n - 1] == s[..k] + s[k + 1..];
  }

  lemma {:induction false} RemoveEqualSingle<T>(s: seq<T>, k: nat, x: T)
    requires k < |s| && s[k] == x
    requires forall j :: 0 <= j < |s| && j != k ==> s[j] != x
    ensures RemoveEqual(s, x) == s[..k] + s[k + 1..]
    decreases k
  {
    var t := s[1..];
    if k == 0 {
      assert x !in t by {
        forall j | 0 <= j < |t| ensures t[j] != x {
          assert t[j] == s[j + 1];
        }
      }
    } else {
      assert s[0] != x;
      assert RemoveEqual(s, x) == [s[0]] + RemoveEqual(t, x);
      forall j | 0 <= j < |t| && j != k - 1 ensures t[j] != x {
        assert t[j] == s[j + 1];
      }
      RemoveEqualSingle(t, k - 1, x);
      assert t[..k - 1] + t[k..] == s[1..k] + s[k + 1..];
      assert [s[0]] + (s[1..k] + s[k + 1..]) == s[..k] + s[k + 1..];
    }
  }

  /** A mount that was not there, added and removed again, leaves the list
      as it was. */
  lemma AddThenRemove<T>(s: seq<T>, x: T)
    requires x !in s
    ensures RemoveAsWritten(s + [x], x) == Some(s)
  {
    var t := s + [x];
    assert t[..|s|] + t[|s| + 1..] == s;
    RemoveAsWrittenSingle(t, |s|, x);
  }

  /** The discrepancy: the same mount present twice makes the loop panic. */
  lemma RemoveAsWrittenPanicsOnDuplicate<T>(x: T)
    ensures RemoveAsWritten([x, x], x) == None
  {
    assert SpliceFrom([x, x], 2, 0, x) == SpliceFrom([x, x], 1, 1, x);
  }

  /** The intended removal keeps the relative order of what remains and
      removes one entry per occurrence of the mount. */
  lemma {:induction false} RemoveEqualCount<T>(s: seq<T>, x: T)
    ensures |RemoveEqual(s, x)| == |s| - Count(s, x)
  {
    if s != [] {
      RemoveEqualCount(s[1..], x);
    }
  }

  // ----- TempDir: ioutil.TempDir under <baseDir>/tmp -----

  /** ioutil.TempDir tries at most this many random names. */
  const TempDirAttempts := 10000

  /** The index of the first candidate name that is free under `tmp`, or
      |names| when every one is taken. */
  function FirstFree(fs: Tree, tmp: Path, names: seq<string>): (k: nat)
    ensures k <= |names|
    ensures forall j :: 0 <= j < k ==> Join(tmp, names[j]) in fs
    ensures k < |names| ==> Join(tmp, names[k]) !in fs
  {
    if |names| == 0 || Join(tmp, names[0]) !in fs then 0
    else 1 + FirstFree(fs, tmp, names[1..])
  }

  /** The first free name is the one after a run of taken names. */
  lemma {:induction false} FirstFreeIs(fs: Tree, tmp: Path, names: seq<string>, k: nat)
    requires k <= |names|
    requires forall j :: 0 <= j < k ==> Join(tmp, names[j]) in fs
    requires k < |names| ==> Join(tmp, names[k]) !in fs
    ensures FirstFree(fs, tmp, names) == k
  {
    if k > 0 {
      assert Join(tmp, names[0]) in fs;
      forall j | 0 <= j < k - 1 ensures Join(tmp, names[1..][j]) in fs {
        assert names[1..][j] == names[j + 1];
      }
      FirstFreeIs(fs, tmp, names[1..], k - 1);
    }
  }

  /** What TempDir returns and the disk it leaves. */
  datatype TempOutcome = TempOutcome(dir: Result<string, Error>, entries: Tree)

  /** TempDir on disk `fs`: MkdirAll of <baseDir>/tmp, then os.Mkdir of each
      candidate name in turn until one is not taken. `names` are the random
      names ioutil.TempDir draws, in order. */
  function TempDirSpec(fs: Tree, baseDir: Path, names: seq<string>, mkdirOk: bool): (o: TempOutcome)
    ensures var tmp := Join(baseDir, TmpdirBase);
      o.dir.Success? <==>
        MkdirAllError(fs, tmp, mkdirOk) == None &&
        exists i :: 0 <= i < |names| && Join(tmp, names[i]) !in fs
    ensures var tmp := Join(baseDir, TmpdirBase);
      o.dir.Success? ==>
        exists k :: 0 <= k < |names| && Join(tmp, names[k]) !in fs &&
          (forall j :: 0 <= j < k ==> Join(tmp, names[j]) in fs) &&
          o.dir.value == Render(Join(tmp, names[k])) &&
          o.entries == MadeDir(fs, tmp)[Join(tmp, names[k]) := Directory]
    ensures var tmp := Join(baseDir, TmpdirBase);
      o.dir.Failure? ==>
        o.entries == (if MkdirAllError(fs, tmp, mkdirOk) == None then MadeDir(fs, tmp) else fs)
    ensures var tmp := Join(baseDir, TmpdirBase);
      MkdirAllError(fs, tmp, mkdirOk) == None && o.dir.Failure? ==> o.dir.error == IO(AlreadyExists)
  {
    var tmp := Join(baseDir, TmpdirBase);
    var e := MkdirAllError(fs, tmp, mkdirOk);
    if e.Some? then TempOutcome(Failure(e.value), fs)
    else
      var k := FirstFree(fs, tmp, names);
      if k == |names| then TempOutcome(Failure(IO(AlreadyExists)), MadeDir(fs, tmp))
      else TempOutcome(Success(Render(Join(tmp, names[k]))), MadeDir(fs, tmp)[Join(tmp, names[k]) := Directory])
  }

  class Repository {
    const baseDir: Path
    const disk: Disk
    var layers: map<string, Layer>
    var mounts: seq<Mount>

    /** NewRepository, without the creation of the base directory. */
    constructor (baseDir: Path, disk: Disk)
      ensures this.baseDir == baseDir && this.disk == disk
      ensures layers == map[] && mounts == []
    {
      this.baseDir := baseDir;
      this.disk := disk;
      layers := map[];
      mounts := [];
    }

    /** AddLayer: a registered ID is LayerExists and nothing changes;
        otherwise exactly that binding is added. */
    method AddLayer(layer: Layer) returns (err: Option<Error>)
      modifies this`layers
      ensures layer.id in old(layers) ==> err == Some(LayerExists) && layers == old(layers)
      ensures layer.id !in old(layers) ==> err == None && layers == old(layers)[layer.id := layer]
    {
      if layer.id in layers {
        return Some(LayerExists);
      }
      layers := layers[layer.id := layer];
      return None;
    }

    /** RemoveLayer: drops that ID only; absent, nothing changes. */
    method RemoveLayer(layer: Layer)
      modifies this`layers
      ensures layers == old(layers) - {layer.id}
      ensures layer.id in old(layers) ==> |layers| == |old(layers)| - 1
      ensures layer.id !in old(layers) ==> layers == old(layers)
    {
      layers := layers - {layer.id};
    }

    /** AddMount appends at the end and never fails. */
    method AddMount(m: Mount) returns (err: Option<Error>)
      modifies this`mounts
      ensures err == None && mounts == old(mounts) + [m]
    {
      mounts := mounts + [m];
      return None;
    }

    /** RemoveMount as intended (the loop as written is RemoveAsWritten):
        every entry that is the same mount object goes, the others keep
        their order. */
    method RemoveMount(m: Mount)
      modifies this`mounts
      ensures mounts == RemoveEqual(old(mounts), m)
    {
      var kept := [];
      var i := |mounts|;
      while i > 0
        invariant 0 <= i <= |mounts|
        invariant kept == RemoveEqual(mounts[i..], m)
      {
        i := i - 1;
        assert mounts[i..][1..] == mounts[i + 1..];
        if mounts[i] != m {
          kept := [mounts[i]] + kept;
        }
      }
      mounts := kept;
    }

    /** TempDir: make sure <baseDir>/tmp exists, then create a fresh
        directory in it as ioutil.TempDir does, trying the random names
        `names` in turn and passing over each one already taken. */
    method TempDir(names: seq<string>, mkdirOk: bool) returns (r: Result<string, Error>)
      requires |names| == TempDirAttempts
      modifies disk
      ensures TempOutcome(r, disk.entries) == TempDirSpec(old(disk.entries), baseDir, names, mkdirOk)
      ensures var tmp := Join(baseDir, TmpdirBase);
        tmp !in old(disk.entries) && !mkdirOk ==> r.Failure? && disk.entries == old(disk.entries)
    {
      var tmp := Join(baseDir, TmpdirBase);
      var err := disk.MkdirAll(tmp, mkdirOk);
      if err.Some? {
        return Failure(err.value);
      }
      ghost var fs := disk.entries;
      assert fs == MadeDir(old(disk.entries), tmp);
      for i := 0 to |names|
        invariant disk.entries == fs
        invariant forall j :: 0 <= j < i ==> Join(tmp, names[j]) in old(disk.entries)
      {
        var dir := Join(tmp, names[i]);
        assert Dir(dir) == tmp;
        // With tmp a directory, os.Mkdir of a name inside it fails only
        // when the name is taken; ioutil.TempDir then draws the next one.
        err := disk.Mkdir(dir);
        if err == None {
          FirstFreeIs(old(disk.entries), tmp, names, i);
          return Success(Render(dir));
        }
      }
      FirstFreeIs(old(disk.entries), tmp, names, |names|);
      return Failure(IO(AlreadyExists));
    }

    /** NewMount: a fresh mount with the given target, lower and upper
        directories, a work directory made by TempDir, registered at the
        end of the mount list. A failure to make the work directory is
        MountCannotProceed and registers nothing. */
    method NewMount(target: string, lower: string, upper: string, names: seq<string>, mkdirOk: bool)
      returns (r: Result<Mount, Error>)
      requires |names| == TempDirAttempts
      modifies this`mounts, disk
      ensures var o := TempDirSpec(old(disk.entries), baseDir, names, mkdirOk);
        disk.entries == o.entries && (r.Success? <==> o.dir.Success?)
      ensures r.Success? ==>
        fresh(r.value) && !r.value.mounted &&
        r.value.target == target && r.value.lower == lower && r.value.upper == upper &&
        r.value.work == TempDirSpec(old(disk.entries), baseDir, names, mkdirOk).dir.value &&
        mounts == old(mounts) + [r.value]
      ensures r.Failure? ==> Cause(r.error) == MountCannotProceed && mounts == old(mounts)
    {
      var work := TempDir(names, mkdirOk);
      if work.Failure? {
        return Failure(Wrap(MountCannotProceed, "temporary directory"));
      }
      var m := new Mount(target, lower, upper, work.value);
      var err := AddMount(m);
      return Success(m);
    }

    /** mkdirCheckRel, with the intended test: a path outside the base
        directory (its parent included) is MountCannotProceed and nothing
        is created; otherwise the directory is made. */
    method MkdirCheckRel(p: Path, mkdirOk: bool) returns (err: Option<Error>)
      modifies disk
      ensures RelCheck(baseDir, p).Some? ==>
        err == RelCheck(baseDir, p) && disk.entries == old(disk.entries)
      ensures RelCheck(baseDir, p) == None && p !in old(disk.entries) ==>
        (err == None <==> mkdirOk) &&
        disk.entries == if mkdirOk then old(disk.entries)[p := Directory] else old(disk.entries)
      ensures RelCheck(baseDir, p) == None && p in old(disk.entries) ==>
        disk.entries == old(disk.entries) && (err == None <==> old(disk.entries)[p].Directory?)
    {
      err := RelCheck(baseDir, p);
      if err.Some? {
        return;
      }
      err := disk.MkdirAll(p, mkdirOk);
    }

    // ----- layer.go -----

    /** newLayer. With `create`, the layer's base directory is checked (and
        made) first, and a failure there returns the layer with the error
        and registers nothing. Then the layer is registered (a registered ID
        is LayerExists), and last its store path is checked as NewAsset
        does; a failure there returns no layer but leaves it registered. */
    method NewLayerIn(id: string, parent: Option<Layer>, create: bool, mkdirOk: bool)
      returns (layer: Option<Layer>, err: Option<Error>)
      modifies this`layers, disk
      ensures var lb := LayerBase(baseDir, id);
        disk.entries ==
          if create && lb !in old(disk.entries) && mkdirOk then old(disk.entries)[lb := Directory]
          else old(disk.entries)
      ensures var lb := LayerBase(baseDir, id);
        var created := !create || (lb in old(disk.entries) && old(disk.entries)[lb].Directory?) ||
                       (lb !in old(disk.entries) && mkdirOk);
        && (!created ==> layer == Some(Layer(id, parent)) && err.Some? && layers == old(layers))
        && (created && id in old(layers) ==>
              layer == None && err == Some(LayerExists) && layers == old(layers))
        && (created && id !in old(layers) ==>
              layers == old(layers)[id := Layer(id, parent)] &&
              err == AssetCheck(disk.entries, LayerPath(baseDir, id)) &&
              layer == if err == None then Some(Layer(id, parent)) else None)
    {
      var l := Layer(id, parent);
      if create {
        var e := CheckDir(disk, LayerBase(baseDir, id), InvalidLayer, mkdirOk);
        if e.Some? {
          return Some(l), e;
        }
      }
      err := AddLayer(l);
      if err.Some? {
        return None, err;
      }
      err := AssetCheck(disk.entries, LayerPath(baseDir, id));
      if err.Some? {
        return None, err;
      }
      return Some(l), None;
    }

    /** CreateLayer: newLayer with the base directory made. On a disk
        without the layer's directories, and with the directory made, an
        unregistered ID gives the layer, registered. */
    method CreateLayer(id: string, parent: Option<Layer>, mkdirOk: bool)
      returns (layer: Option<Layer>, err: Option<Error>)
      modifies this`layers, disk
      ensures var lb := LayerBase(baseDir, id);
        disk.entries ==
          if lb !in old(disk.entries) && mkdirOk then old(disk.entries)[lb := Directory]
          else old(disk.entries)
      ensures var lb := LayerBase(baseDir, id);
        var created := (lb in old(disk.entries) && old(disk.entries)[lb].Directory?) ||
                       (lb !in old(disk.entries) && mkdirOk);
        && (!created ==> layer == Some(Layer(id, parent)) && err.Some? && layers == old(layers))
        && (created && id in old(layers) ==>
              layer == None && err == Some(LayerExists) && layers == old(layers))
        && (created && id !in old(layers) ==>
              layers == old(layers)[id := Layer(id, parent)] &&
              err == AssetCheck(disk.entries, LayerPath(baseDir, id)) &&
              layer == if err == None then Some(Layer(id, parent)) else None)
      ensures id !in old(layers) && mkdirOk && LayerBase(baseDir, id) !in old(disk.entries) &&
              LayerPath(baseDir, id) !in old(disk.entries) ==>
        err == None && layer == Some(Layer(id, parent)) && layers == old(layers)[id := Layer(id, parent)]
    {
      LayoutDisjoint(baseDir, id, id);
      layer, err := NewLayerIn(id, parent, true, mkdirOk);
    }

    /** NewLayer: newLayer without touching the disk. On a disk without the
        layer's store path, an unregistered ID gives the layer, registered. */
    method NewLayer(id: string, parent: Option<Layer>)
      returns (layer: Option<Layer>, err: Option<Error>)
      modifies this`layers, disk
      ensures disk.entries == old(disk.entries)
      ensures id in old(layers) ==> layer == None && err == Some(LayerExists) && layers == old(layers)
      ensures id !in old(layers) ==>
        layers == old(layers)[id := Layer(id, parent)] &&
        err == AssetCheck(disk.entries, LayerPath(baseDir, id)) &&
        layer == if err == None then Some(Layer(id, parent)) else None
      ensures id !in old(layers) && LayerPath(baseDir, id) !in old(disk.entries) ==>
        err == None && layer == Some(Layer(id, parent))
    {
      layer, err := NewLayerIn(id, parent, false, false);
    }

    /** OverwriteParent: see OverwriteParentSpec. */
    method OverwriteParent(l: Layer) returns (err: Option<Error>)
      modifies disk
      ensures Saved(disk.entries, err) == OverwriteParentSpec(baseDir, old(disk.entries), l)
    {
      if l.parent.None? {
        return None;
      }
      err := disk.WriteFile(ParentsPath(baseDir, l.id), l.parent.value.id);
    }

    /** SaveParent: see SaveParentSpec. */
    method SaveParent(l: Layer) returns (err: Option<Error>)
      modifies disk
      ensures Saved(disk.entries, err) == SaveParentSpec(baseDir, old(disk.entries), l)
    {
      if l.parent.None? {
        return None;
      }
      var fi := Lstat(disk.entries, ParentsPath(baseDir, l.id));
      if fi.Failure? {
        if fi.error == IO(NotExist) {
          err := OverwriteParent(l);
          return;
        }
        return Some(fi.error);
      } else if !fi.value.Regular? {
        return Some(Wrap(InvalidLayer, "parent configuration is invalid"));
      }
      return None;
    }

    /** LoadParent: see LoadParentSpec. */
    method LoadParent(l: Layer) returns (l': Layer, err: Option<Error>)
      modifies this`layers, disk
      ensures disk.entries == old(disk.entries)
      ensures Loaded(l', layers, err) == LoadParentSpec(baseDir, disk.entries, old(layers), l)
    {
      var data := ReadFile(disk.entries, ParentsPath(baseDir, l.id));
      if data.Failure? {
        if data.error == IO(NotExist) {
          return l, None;
        }
        return l, Some(data.error);
      }
      var id := data.value;
      if |id| == 0 {
        return l, None;
      }
      var parent, e := NewLayer(id, None);
      if e.Some? {
        return l, e;
      }
      var lb := LayerBase(baseDir, id);
      if !(lb in disk.entries && disk.entries[lb].Directory?) {
        return l, Some(Wrap(InvalidLayer, Render(lb)));
      }
      return Layer(l.id, parent), None;
    }

    /** RestoreParent: see RestoreSpec; the recursion ends because every
        parent loaded registers a stored ID that was not registered. */
    method RestoreParent(l: Layer) returns (l': Layer, err: Option<Error>)
      modifies this`layers, disk
      ensures disk.entries == old(disk.entries)
      ensures Loaded(l', layers, err) == RestoreSpec(baseDir, disk.entries, old(layers), l)
      decreases |StoredIds(disk.entries) - layers.Keys|, l
    {
      LoadParentProgress(baseDir, disk.entries, layers, l);
      var loaded, e := LoadParent(l);
      if e.Some? || loaded.parent.None? {
        return loaded, e;
      }
      var up, e2 := RestoreParent(loaded.parent.value);
      return Layer(l.id, Some(up)), e2;
    }

    /** Remove: unregister the layer, then remove its store path. */
    method Remove(l: Layer, removeOk: bool) returns (err: Option<Error>)
      modifies this`layers, disk
      ensures layers == old(layers) - {l.id}
      ensures err == None ==> disk.entries == Without(old(disk.entries), LayerPath(baseDir, l.id))
      ensures err != None ==> disk.entries == old(disk.entries)
      ensures err == None <==> removeOk || LayerPath(baseDir, l.id) !in old(disk.entries)
    {
      RemoveLayer(l);
      err := disk.RemoveAll(LayerPath(baseDir, l.id), removeOk);
    }
  }
}
