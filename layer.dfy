/** Layers (layer.go): a layer is an ID and an optional parent, so a chain of
    layers runs from the top layer down to the root. This module holds the
    repository layout the path getters compute, and what reading a layer's
    `parents.json` does to a layer and to the registry of layers, as
    functions; the Repository class runs them as methods. */
module Layers {
  import opened Wrappers
  import opened Errors
  import opened Paths
  import opened FileSystem

  datatype Layer = Layer(id: string, parent: Option<Layer>)

  const TmpdirBase: string := "tmp"
  const MountBase: string := "mount"
  const LayerBaseDir: string := "layers"
  const RootFSPath: string := "rootfs"
  const ParentsFile: string := "parents.json"

  /** The last component of a path with components (path.Base). */
  function Base(p: Path): string
    requires |p.parts| > 0
  {
    p.parts[|p.parts| - 1]
  }

  /** MountPath: <baseDir>/mount/<id>. */
  function MountPath(baseDir: Path, id: string): Path {
    Join(Join(baseDir, MountBase), id)
  }

  /** layerBase: <baseDir>/layers/<id>, the directory that holds everything
      of one layer. */
  function LayerBase(baseDir: Path, id: string): Path {
    Join(Join(baseDir, LayerBaseDir), id)
  }

  /** Path: <baseDir>/layers/<id>/rootfs, where the layer's files live. */
  function LayerPath(baseDir: Path, id: string): Path {
    Join(LayerBase(baseDir, id), RootFSPath)
  }

  /** parentsPath: <baseDir>/layers/<id>/parents.json. */
  function ParentsPath(baseDir: Path, id: string): Path {
    Join(LayerBase(baseDir, id), ParentsFile)
  }

  /** The layout the tests check: the mount path is <id> inside
      <baseDir>/mount, the store path is rootfs inside <baseDir>/layers/<id>,
      and the parents file sits beside it; all of them lie inside baseDir. */
  lemma {:induction false} LayoutShape(baseDir: Path, id: string)
    ensures var m := MountPath(baseDir, id);
      |m.parts| > 0 && Base(m) == id && Dir(m) == Join(baseDir, MountBase) && Within(baseDir, m)
    ensures var b := LayerBase(baseDir, id);
      |b.parts| > 0 && Base(b) == id && Dir(b) == Join(baseDir, LayerBaseDir) && Within(baseDir, b)
    ensures var p := LayerPath(baseDir, id);
      |p.parts| > 0 && Base(p) == RootFSPath && Dir(p) == LayerBase(baseDir, id)
    ensures var q := ParentsPath(baseDir, id);
      |q.parts| > 0 && Base(q) == ParentsFile && Dir(q) == LayerBase(baseDir, id)
  {
    var b := LayerBase(baseDir, id);
    assert Dir(LayerPath(baseDir, id)).parts == b.parts;
    assert Dir(ParentsPath(baseDir, id)).parts == b.parts;
    assert Dir(b).parts == baseDir.parts + [LayerBaseDir];
    assert Dir(MountPath(baseDir, id)).parts == baseDir.parts + [MountBase];
  }

  /** Two layers never share a mount path, a store path or a parents file,
      and no parents file is a store path. */
  lemma {:induction false} LayoutInjective(baseDir: Path, a: string, b: string)
    requires a != b
    ensures MountPath(baseDir, a) != MountPath(baseDir, b)
    ensures LayerPath(baseDir, a) != LayerPath(baseDir, b)
    ensures ParentsPath(baseDir, a) != ParentsPath(baseDir, b)
    ensures ParentsPath(baseDir, a) != LayerPath(baseDir, b)
  {
    var n := |baseDir.parts|;
    assert MountPath(baseDir, a).parts[n + 1] == a;
    assert MountPath(baseDir, b).parts[n + 1] == b;
    assert LayerPath(baseDir, a).parts[n + 1] == a;
    assert LayerPath(baseDir, b).parts[n + 1] == b;
    assert ParentsPath(baseDir, a).parts[n + 1] == a;
    assert ParentsPath(baseDir, b).parts[n + 1] == b;
    assert ParentsPath(baseDir, a).parts[n + 2] != LayerPath(baseDir, b).parts[n + 2];
  }

  /** A layer's base directory is never a store path, and two layers never
      share a base directory. */
  lemma LayoutDisjoint(baseDir: Path, a: string, b: string)
    ensures LayerPath(baseDir, a) != LayerBase(baseDir, b)
    ensures a != b ==> LayerBase(baseDir, a) != LayerBase(baseDir, b)
  {
    var n := |baseDir.parts|;
    assert |LayerPath(baseDir, a).parts| == n + 3 && |LayerBase(baseDir, b).parts| == n + 2;
    assert LayerBase(baseDir, a).parts[n + 1] == a && LayerBase(baseDir, b).parts[n + 1] == b;
  }

  /** The chain from a layer down to the root, one entry per layer. */
  function Chain(l: Layer): (c: seq<Layer>)
    ensures |c| >= 1 && c[0] == l
    decreases l
  {
    match l.parent
    case None => [l]
    case Some(p) => [l] + Chain(p)
  }

  /** The IDs along the chain, top first. */
  function ChainIds(l: Layer): (ids: seq<string>)
    ensures |ids| >= 1 && ids[0] == l.id
    decreases l
  {
    match l.parent
    case None => [l.id]
    case Some(p) => [l.id] + ChainIds(p)
  }

  /** NewAsset's check on the layer's store path, as the revision newLayer
      calls behaves: a path that is not there yet passes (the layer's files
      are unpacked into it later), a symbolic link is refused, and any
      other lookup error is returned. */
  function AssetCheck(fs: Tree, p: Path): (r: Option<Error>)
    ensures r == None <==> p !in fs || (!fs[p].Unreadable? && !fs[p].Symlink?)
    ensures p in fs && fs[p].Symlink? ==> r == Some(Message("cannot operate on a symlink"))
  {
    match Lstat(fs, p)
    case Failure(e) => if e == IO(NotExist) then None else Some(e)
    case Success(e) =>
      if e.Symlink? then Some(Message("cannot operate on a symlink")) else None
  }

  /** The result of loading parents: the layer as it now stands, the
      registry of layers, and the error. */
  datatype Loaded = Loaded(layer: Layer, registry: map<string, Layer>, err: Option<Error>)

  /** LoadParent: read the layer's parents file. A missing or empty file
      changes nothing; any other read error is returned. */
  function LoadParentSpec(baseDir: Path, fs: Tree, reg: map<string, Layer>, l: Layer): Loaded {
    match ReadFile(fs, ParentsPath(baseDir, l.id))
    case Failure(e) =>
      if e == IO(NotExist) then Loaded(l, reg, None) else Loaded(l, reg, Some(e))
    case Success(id) =>
      if id == "" then Loaded(l, reg, None) else AdoptParent(baseDir, fs, reg, l, id)
  }

  /** The rest of LoadParent once an ID has been read: the ID becomes a new
      layer without a parent, registered first (an ID already registered is
      LayerExists), then checked: its store path as NewAsset checks it, then
      its base directory. Only when every check passes does `l` get that
      parent; a failed check leaves the new layer registered. */
  function AdoptParent(baseDir: Path, fs: Tree, reg: map<string, Layer>, l: Layer, id: string): (o: Loaded)
    ensures o.registry == reg || (id !in reg && o.registry == reg[id := Layer(id, None)])
    ensures o.layer == l || (o.err == None && o.layer == Layer(l.id, Some(Layer(id, None))))
  {
    if id in reg then Loaded(l, reg, Some(LayerExists))
    else
      var parent := Layer(id, None);
      var reg' := reg[id := parent];
      var asset := AssetCheck(fs, LayerPath(baseDir, id));
      if asset.Some? then Loaded(l, reg', asset)
      else if !(LayerBase(baseDir, id) in fs && fs[LayerBase(baseDir, id)].Directory?) then
        Loaded(l, reg', Some(Wrap(InvalidLayer, Render(LayerBase(baseDir, id)))))
      else Loaded(Layer(l.id, Some(parent)), reg', None)
  }

  /** Every ID that some regular file on disk holds. */
  function StoredIds(fs: Tree): set<string> {
    set p | p in fs && fs[p].Regular? :: fs[p].data
  }

  /** Loading a parent either leaves layer and registry as they were or
      registers an ID read from disk that was not registered before, so the
      stored IDs still unregistered become fewer. */
  lemma LoadParentProgress(baseDir: Path, fs: Tree, reg: map<string, Layer>, l: Layer)
    ensures var o := LoadParentSpec(baseDir, fs, reg, l);
      (o.layer == l && o.registry == reg) ||
      |StoredIds(fs) - o.registry.Keys| < |StoredIds(fs) - reg.Keys|
  {
    var pp := ParentsPath(baseDir, l.id);
    var r := ReadFile(fs, pp);
    if r.Success? && r.value != "" {
      var id := r.value;
      var o := AdoptParent(baseDir, fs, reg, l, id);
      if o.registry != reg {
        assert pp in fs && fs[pp].Regular? && fs[pp].data == id;
        assert id in StoredIds(fs);
        assert o.registry.Keys == reg.Keys + {id};
        FewerLeft(StoredIds(fs), reg.Keys, id);
      }
    }
  }

  lemma FewerLeft(stored: set<string>, known: set<string>, id: string)
    requires id in stored && id !in known
    ensures |stored - (known + {id})| < |stored - known|
  {
    assert stored - (known + {id}) == (stored - known) - {id};
  }

  /** RestoreParent: load the parent, then restore the parent's own chain,
      until a layer has no parent or an error stops the walk. It ends
      because each loaded parent registers an ID not registered before, and
      an ID already registered (a stored cycle among them) is LayerExists. */
  function RestoreSpec(baseDir: Path, fs: Tree, reg: map<string, Layer>, l: Layer): Loaded
    decreases |StoredIds(fs) - reg.Keys|, l
  {
    var o := LoadParentSpec(baseDir, fs, reg, l);
    if o.err.Some? || o.layer.parent.None? then o
    else
      LoadParentProgress(baseDir, fs, reg, l);
      var up := RestoreSpec(baseDir, fs, o.registry, o.layer.parent.value);
      Loaded(Layer(l.id, Some(up.layer)), up.registry, up.err)
  }

  /** The parents file of layer `a` names layer `b`. */
  predicate Linked(baseDir: Path, fs: Tree, a: string, b: string) {
    ParentsPath(baseDir, a) in fs && fs[ParentsPath(baseDir, a)] == Regular(b) && b != ""
  }

  /** Layer `a` has its base directory and its store path on disk. */
  predicate Present(baseDir: Path, fs: Tree, a: string) {
    LayerBase(baseDir, a) in fs && fs[LayerBase(baseDir, a)] == Directory &&
    LayerPath(baseDir, a) in fs && fs[LayerPath(baseDir, a)] == Directory
  }

  /** `xs` (top first) is a chain of layers saved on disk: every layer but
      the last has a parents file naming the next one, and every layer but
      the first is present. */
  predicate ChainOnDisk(baseDir: Path, fs: Tree, xs: seq<string>) {
    && |xs| >= 1
    && (forall i :: 0 <= i < |xs| - 1 ==> Linked(baseDir, fs, xs[i], xs[i + 1]))
    && (forall i :: 0 < i < |xs| ==> Present(baseDir, fs, xs[i]))
  }

  predicate Distinct(xs: seq<string>) {
    forall i, j :: 0 <= i < j < |xs| ==> xs[i] != xs[j]
  }

  lemma ChainOnDiskTail(baseDir: Path, fs: Tree, xs: seq<string>)
    requires |xs| >= 2 && ChainOnDisk(baseDir, fs, xs)
    ensures ChainOnDisk(baseDir, fs, xs[1..])
  {
    var ys := xs[1..];
    forall i | 0 <= i < |ys| - 1 ensures Linked(baseDir, fs, ys[i], ys[i + 1]) {
      assert ys[i] == xs[i + 1] && ys[i + 1] == xs[(i + 1) + 1];
    }
    forall i | 0 < i < |ys| ensures Present(baseDir, fs, ys[i]) {
      assert ys[i] == xs[i + 1];
    }
  }

  /** One step of the walk along a saved chain: the top layer gets the next
      ID as its parent, and that ID is registered. */
  lemma LoadStep(baseDir: Path, fs: Tree, reg: map<string, Layer>, xs: seq<string>)
    requires |xs| >= 2 && ChainOnDisk(baseDir, fs, xs) && xs[1] !in reg
    ensures LoadParentSpec(baseDir, fs, reg, Layer(xs[0], None)) ==
      Loaded(Layer(xs[0], Some(Layer(xs[1], None))), reg[xs[1] := Layer(xs[1], None)], None)
  {
    assert Linked(baseDir, fs, xs[0], xs[1]);
    assert Present(baseDir, fs, xs[1]);
    assert ReadFile(fs, ParentsPath(baseDir, xs[0])) == Success(xs[1]);
  }

  /** Saving the parents of a chain of n layers and restoring from the top
      (a layer with no parent yet, whose parents are not registered) gives
      back the whole chain, n layers in order, without error. */
  lemma {:induction false} RestoreRebuildsChain(baseDir: Path, fs: Tree, reg: map<string, Layer>, xs: seq<string>)
    requires ChainOnDisk(baseDir, fs, xs) && Distinct(xs)
    requires ParentsPath(baseDir, xs[|xs| - 1]) !in fs
    requires forall i :: 0 < i < |xs| ==> xs[i] !in reg
    ensures RestoreSpec(baseDir, fs, reg, Layer(xs[0], None)).err == None
    ensures ChainIds(RestoreSpec(baseDir, fs, reg, Layer(xs[0], None)).layer) == xs
    decreases |xs|
  {
    var l := Layer(xs[0], None);
    if |xs| == 1 {
      assert LoadParentSpec(baseDir, fs, reg, l) == Loaded(l, reg, None);
    } else {
      LoadStep(baseDir, fs, reg, xs);
      var reg' := reg[xs[1] := Layer(xs[1], None)];
      ChainOnDiskTail(baseDir, fs, xs);
      var ys := xs[1..];
      assert forall i :: 0 < i < |ys| ==> ys[i] == xs[i + 1] && xs[i + 1] != xs[1];
      RestoreRebuildsChain(baseDir, fs, reg', ys);
      var up := RestoreSpec(baseDir, fs, reg', Layer(xs[1], None));
      assert RestoreSpec(baseDir, fs, reg, l) == Loaded(Layer(xs[0], Some(up.layer)), up.registry, up.err);
      assert [xs[0]] + ys == xs;
    }
  }

  /** When the parents file of the last layer of a saved chain names a layer
      that is registered by the time the walk reaches it (a cycle back to
      the registered top, for one), RestoreParent stops with LayerExists. */
  lemma {:induction false} RestoreStopsOnCycle(baseDir: Path, fs: Tree, reg: map<string, Layer>, xs: seq<string>, back: nat)
    requires ChainOnDisk(baseDir, fs, xs) && Distinct(xs)
    requires back < |xs| && xs[back] != ""
    requires ParentsPath(baseDir, xs[|xs| - 1]) in fs
    requires fs[ParentsPath(baseDir, xs[|xs| - 1])] == Regular(xs[back])
    requires xs[0] in reg
    requires forall i :: 0 < i < |xs| ==> xs[i] !in reg
    ensures RestoreSpec(baseDir, fs, reg, Layer(xs[0], None)).err == Some(LayerExists)
    decreases |xs|
  {
    var l := Layer(xs[0], None);
    if |xs| == 1 {
      assert LoadParentSpec(baseDir, fs, reg, l) == Loaded(l, reg, Some(LayerExists));
    } else {
      LoadStep(baseDir, fs, reg, xs);
      var reg' := reg[xs[1] := Layer(xs[1], None)];
      ChainOnDiskTail(baseDir, fs, xs);
      var ys := xs[1..];
      assert forall i :: 0 < i < |ys| ==> ys[i] == xs[i + 1] && xs[i + 1] != xs[1];
      assert ys[|ys| - 1] == xs[|xs| - 1];
      if back == 0 {
        // The file names the top, which was registered before the walk.
        RestoreStopsOnRegistered(baseDir, fs, reg', ys, xs[0]);
      } else {
        RestoreStopsOnCycle(baseDir, fs, reg', ys, back - 1);
      }
    }
  }

  /** The same walk, when the last parents file names an ID registered
      before the walk began. */
  lemma {:induction false} RestoreStopsOnRegistered(baseDir: Path, fs: Tree, reg: map<string, Layer>, xs: seq<string>, c: string)
    requires ChainOnDisk(baseDir, fs, xs) && Distinct(xs)
    requires c != "" && c in reg
    requires ParentsPath(baseDir, xs[|xs| - 1]) in fs
    requires fs[ParentsPath(baseDir, xs[|xs| - 1])] == Regular(c)
    requires xs[0] in reg
    requires forall i :: 0 < i < |xs| ==> xs[i] !in reg
    ensures RestoreSpec(baseDir, fs, reg, Layer(xs[0], None)).err == Some(LayerExists)
    decreases |xs|
  {
    var l := Layer(xs[0], None);
    if |xs| == 1 {
      assert LoadParentSpec(baseDir, fs, reg, l) == Loaded(l, reg, Some(LayerExists));
    } else {
      LoadStep(baseDir, fs, reg, xs);
      var reg' := reg[xs[1] := Layer(xs[1], None)];
      ChainOnDiskTail(baseDir, fs, xs);
      var ys := xs[1..];
      assert forall i :: 0 < i < |ys| ==> ys[i] == xs[i + 1] && xs[i + 1] != xs[1];
      assert ys[|ys| - 1] == xs[|xs| - 1];
      RestoreStopsOnRegistered(baseDir, fs, reg', ys, c);
    }
  }

  /** Each entry of the chain is linked to the next by its parent, the last
      has none, and ChainIds lists their IDs. */
  lemma {:induction false} ChainShape(l: Layer)
    ensures |ChainIds(l)| == |Chain(l)|
    ensures forall i :: 0 <= i < |Chain(l)| ==> ChainIds(l)[i] == Chain(l)[i].id
    ensures forall i :: 0 <= i < |Chain(l)| - 1 ==> Chain(l)[i].parent == Some(Chain(l)[i + 1])
    ensures Chain(l)[|Chain(l)| - 1].parent.None?
    decreases l
  {
    match l.parent
    case None =>
    case Some(p) =>
      ChainShape(p);
      assert Chain(l) == [l] + Chain(p);
      assert forall i :: 1 <= i < |Chain(l)| ==> Chain(l)[i] == Chain(p)[i - 1];
  }

  /** The disk and the error after writing a parents file. */
  datatype Saved = Saved(fs: Tree, err: Option<Error>)

  /** OverwriteParent: write the parent's ID into the layer's parents file;
      a layer without a parent writes nothing. */
  function OverwriteParentSpec(baseDir: Path, fs: Tree, l: Layer): Saved {
    if l.parent.None? then Saved(fs, None)
    else match TryWrite(fs, ParentsPath(baseDir, l.id), l.parent.value.id)
      case Success(fs') => Saved(fs', None)
      case Failure(e) => Saved(fs, Some(e))
  }

  /** SaveParent: write the parents file only when there is none. A
      regular file already there is left as it is; any other kind of entry
      is InvalidLayer; a lookup error other than "does not exist" is
      returned. */
  function SaveParentSpec(baseDir: Path, fs: Tree, l: Layer): Saved {
    if l.parent.None? then Saved(fs, None)
    else match Lstat(fs, ParentsPath(baseDir, l.id))
      case Failure(e) =>
        if e == IO(NotExist) then OverwriteParentSpec(baseDir, fs, l) else Saved(fs, Some(e))
      case Success(entry) =>
        if entry.Regular? then Saved(fs, None)
        else Saved(fs, Some(Wrap(InvalidLayer, "parent configuration is invalid")))
  }

  /** Saving writes nothing but the layer's parents file, and only when that
      file is absent. */
  lemma SaveParentFrame(baseDir: Path, fs: Tree, l: Layer)
    ensures var s := SaveParentSpec(baseDir, fs, l);
      s.fs == fs ||
      (l.parent.Some? && ParentsPath(baseDir, l.id) !in fs && s.err == None &&
       s.fs == fs[ParentsPath(baseDir, l.id) := Regular(l.parent.value.id)])
  {
  }

  /** Saving twice is fine: once a save succeeded, saving again succeeds and
      changes nothing. */
  lemma SaveParentIdempotent(baseDir: Path, fs: Tree, l: Layer)
    requires SaveParentSpec(baseDir, fs, l).err == None
    ensures var fs' := SaveParentSpec(baseDir, fs, l).fs;
      SaveParentSpec(baseDir, fs', l) == Saved(fs', None)
  {
  }

  /** Save then load round-trips the parent's ID: after saving into the
      layer's own directory, loading gives the layer a parent with that ID,
      provided the parent is present on disk and not yet registered. */
  lemma SaveThenLoad(baseDir: Path, fs: Tree, reg: map<string, Layer>, l: Layer)
    requires l.parent.Some? && l.parent.value.id != ""
    requires LayerBase(baseDir, l.id) in fs && fs[LayerBase(baseDir, l.id)] == Directory
    requires ParentsPath(baseDir, l.id) !in fs
    requires Present(baseDir, fs, l.parent.value.id) && l.parent.value.id !in reg
    ensures SaveParentSpec(baseDir, fs, l).err == None
    ensures var pid := l.parent.value.id;
      LoadParentSpec(baseDir, SaveParentSpec(baseDir, fs, l).fs, reg, l) ==
      Loaded(Layer(l.id, Some(Layer(pid, None))), reg[pid := Layer(pid, None)], None)
  {
    var pid := l.parent.value.id;
    var pp := ParentsPath(baseDir, l.id);
    LayoutShape(baseDir, l.id);
    var fs' := fs[pp := Regular(pid)];
    assert SaveParentSpec(baseDir, fs, l) == Saved(fs', None);
    var n := |baseDir.parts|;
    assert |LayerBase(baseDir, pid).parts| == n + 2 && |pp.parts| == n + 3;
    assert LayerPath(baseDir, pid).parts[n + 2] != pp.parts[n + 2];
  }
}
