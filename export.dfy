/** Docker.Export (imgio/docker_export.go): a layer chain written out as the
    legacy `docker save` archive of the Docker Image Specification v1.2,
    section "Combined Image JSON + Filesystem Changeset Format". For each
    layer from the exported one down to the root there is a directory named
    by its ID holding `json` and `layer.tar`; then come `repositories`,
    `manifest.json` and `<top ID>.json`. The archive is the sequence of its
    entries and the error, if any, with which the stream is closed. */
module DockerExport {
  import opened Wrappers
  import opened Errors
  import opened Layers
  import opened JsonDocs

  /** 0700 and 0600. */
  const DirMode: int := 448
  const FileMode: int := 384

  datatype Kind = TypeDir | TypeReg

  /** What follows a header: nothing, a JSON document, or raw bytes. */
  datatype Body = NoBody | Doc(doc: Json) | Bytes(data: string)

  /** The bytes written after a header; `marshal` is json.Marshal. */
  function Content(marshal: Json -> string, b: Body): string {
    match b
    case NoBody => ""
    case Doc(d) => marshal(d)
    case Bytes(data) => data
  }

  datatype Entry = Entry(name: string, mode: int, kind: Kind, size: int, body: Body)

  datatype Archive = Archive(entries: seq<Entry>, closeErr: Option<Error>)

  /** path.Join(id, name) for a layer ID without slashes. */
  function JoinName(id: string, name: string): string {
    if id == "" then name else id + "/" + name
  }

  function DirEntry(id: string): Entry {
    Entry(id, DirMode, TypeDir, 0, NoBody)
  }

  /** A regular file whose header gives the length of what follows it. */
  function FileEntry(marshal: Json -> string, name: string, body: Body): Entry {
    Entry(name, FileMode, TypeReg, |Content(marshal, body)|, body)
  }

  function ParentId(l: Layer): string {
    if l.parent.Some? then l.parent.value.id else ""
  }

  /** The per-layer JSON: the ID, the parent's ID ("" for the root) and an
      empty configuration, keys in the order json.Marshal sorts them. */
  function LayerJson(l: Layer): Json {
    JObj([Field("config", JObj([])), Field("id", JStr(l.id)), Field("parent", JStr(ParentId(l)))])
  }

  /** The three entries of one layer, given what packing it produced. */
  function LayerEntries(marshal: Json -> string, l: Layer, blob: string): seq<Entry> {
    [DirEntry(l.id), FileEntry(marshal, JoinName(l.id, "json"), Doc(LayerJson(l))),
     FileEntry(marshal, JoinName(l.id, "layer.tar"), Bytes(blob))]
  }

  function Manifest(top: string, ids: seq<string>): Json {
    JArr([JObj([Field("Config", JStr(top + ".json")), Field("Layers", Strings(ids)),
                Field("RepoTags", JArr([]))])])
  }

  /** What follows the layers. */
  function Trailer(marshal: Json -> string, top: string, ids: seq<string>, config: Json): seq<Entry> {
    [FileEntry(marshal, "repositories", Doc(JObj([]))),
     FileEntry(marshal, "manifest.json", Doc(Manifest(top, ids))),
     FileEntry(marshal, top + ".json", Doc(config))]
  }

  /** The walk down the chain: entries written, IDs collected, and the error
      that stopped it. */
  datatype Run = Run(entries: seq<Entry>, ids: seq<string>, err: Option<Error>)

  /** The chain from `l` down. Packing a layer (into a temporary file, then
      copied in) gives its bytes or an error, which ends the stream right
      after that layer's directory entry. */
  function ExportRun(l: Layer, pack: string -> Result<string, Error>, marshal: Json -> string): Run
    decreases l
  {
    match pack(l.id)
    case Failure(e) => Run([DirEntry(l.id)], [l.id], Some(e))
    case Success(blob) =>
      match l.parent
      case None => Run(LayerEntries(marshal, l, blob), [l.id], None)
      case Some(p) =>
        var rest := ExportRun(p, pack, marshal);
        Run(LayerEntries(marshal, l, blob) + rest.entries, [l.id] + rest.ids, rest.err)
  }

  /** Export. A layer that does not exist is InvalidLayer, a configuration
      that cannot be read is InvalidLayer and a missing one is
      ImageCannotBeComposed; these are returned at once. Otherwise the
      archive is the layers' entries, and, when every layer packed, the
      trailer. */
  function ExportSpec(layer: Layer, present: bool, config: Result<Option<Json>, string>,
                      pack: string -> Result<string, Error>, marshal: Json -> string): (r: Result<Archive, Error>)
    ensures r.Failure? <==> !present || !(config.Success? && config.value.Some?)
    ensures !present || config.Failure? ==> r.Failure? && Cause(r.error) == InvalidLayer
    ensures present && config == Success(None) ==> r.Failure? && Cause(r.error) == ImageCannotBeComposed
    ensures r.Success? ==> r.value.closeErr == ExportRun(layer, pack, marshal).err
  {
    if !present then Failure(Wrap(InvalidLayer, "layer does not exist"))
    else if config.Failure? then Failure(Wrap(InvalidLayer, config.error))
    else if config.value.None? then Failure(Wrap(ImageCannotBeComposed, "missing image configuration"))
    else
      var run := ExportRun(layer, pack, marshal);
      if run.err.Some? then Success(Archive(run.entries, run.err))
      else Success(Archive(run.entries + Trailer(marshal, layer.id, run.ids, config.value.value), None))
  }

  /** The stream Export's writer produces, entry by entry, walking the
      parent links. `present` and `config` are what the layer reports. */
  method Export(layer: Layer, present: bool, config: Result<Option<Json>, string>,
                pack: string -> Result<string, Error>, marshal: Json -> string) returns (r: Result<Archive, Error>)
    ensures r == ExportSpec(layer, present, config, pack, marshal)
  {
    if !present {
      return Failure(Wrap(InvalidLayer, "layer does not exist"));
    }
    if config.Failure? {
      return Failure(Wrap(InvalidLayer, config.error));
    }
    if config.value.None? {
      return Failure(Wrap(ImageCannotBeComposed, "missing image configuration"));
    }
    var run := WriteLayers(layer, pack, marshal);
    if run.err.Some? {
      return Success(Archive(run.entries, run.err));
    }
    return Success(Archive(run.entries + Trailer(marshal, layer.id, run.ids, config.value.value), None));
  }

  /** The loop over the chain of Export: for each layer its directory entry,
      then, once it has packed, its JSON and its layer.tar. */
  method WriteLayers(layer: Layer, pack: string -> Result<string, Error>, marshal: Json -> string) returns (run: Run)
    ensures run == ExportRun(layer, pack, marshal)
  {
    var entries: seq<Entry> := [];
    var ids: seq<string> := [];
    var iter := Some(layer);
    while iter.Some?
      invariant ExportRun(layer, pack, marshal) == Prepend(entries, ids, RunFrom(iter, pack, marshal))
      decreases iter
    {
      var l := iter.value;
      var blob := pack(l.id);
      if blob.Failure? {
        return Run(entries + [DirEntry(l.id)], ids + [l.id], Some(blob.error));
      }
      var mine := LayerEntries(marshal, l, blob.value);
      PrependTwice(entries, ids, mine, l.id, RunFrom(l.parent, pack, marshal));
      entries := entries + mine;
      ids := ids + [l.id];
      iter := l.parent;
    }
    assert entries + [] == entries && ids + [] == ids;
    return Run(entries, ids, None);
  }

  lemma PrependTwice(entries: seq<Entry>, ids: seq<string>, mine: seq<Entry>, id: string, rest: Run)
    ensures Prepend(entries, ids, Prepend(mine, [id], rest)) == Prepend(entries + mine, ids + [id], rest)
  {
    assert entries + (mine + rest.entries) == (entries + mine) + rest.entries;
    assert ids + ([id] + rest.ids) == (ids + [id]) + rest.ids;
  }

  /** What is still to be written when the walk has reached `iter`. */
  function RunFrom(iter: Option<Layer>, pack: string -> Result<string, Error>, marshal: Json -> string): Run {
    if iter.Some? then ExportRun(iter.value, pack, marshal) else Run([], [], None)
  }

  function Prepend(entries: seq<Entry>, ids: seq<string>, rest: Run): Run {
    Run(entries + rest.entries, ids + rest.ids, rest.err)
  }

  /** Every layer of the chain from `l` down packs. */
  predicate AllPack(l: Layer, pack: string -> Result<string, Error>) {
    forall i :: 0 <= i < |Chain(l)| ==> pack(Chain(l)[i].id).Success?
  }

  lemma AllPackStep(l: Layer, pack: string -> Result<string, Error>)
    ensures l.parent.None? ==> (AllPack(l, pack) <==> pack(l.id).Success?)
    ensures l.parent.Some? ==>
      (AllPack(l, pack) <==> pack(l.id).Success? && AllPack(l.parent.value, pack))
  {
    if l.parent.Some? {
      var p := l.parent.value;
      var c := Chain(l);
      assert c == [l] + Chain(p);
      if pack(l.id).Success? && AllPack(p, pack) {
        forall i | 0 <= i < |c| ensures pack(c[i].id).Success? {
          if i > 0 { assert c[i] == Chain(p)[i - 1]; }
        }
      }
      if AllPack(l, pack) {
        assert pack(c[0].id).Success?;
        forall i | 0 <= i < |Chain(p)| ensures pack(Chain(p)[i].id).Success? {
          assert c[i + 1] == Chain(p)[i];
        }
      }
    } else {
      assert Chain(l) == [l];
    }
  }

  /** The stream ends without error exactly when every layer packs. */
  lemma {:induction false} ExportRunOk(l: Layer, pack: string -> Result<string, Error>, marshal: Json -> string)
    ensures ExportRun(l, pack, marshal).err == None <==> AllPack(l, pack)
    decreases l
  {
    AllPackStep(l, pack);
    if l.parent.Some? {
      ExportRunOk(l.parent.value, pack, marshal);
    }
  }

  /** When every layer packs, the IDs are the chain from the exported layer
      to the root, and there are three entries per layer. */
  lemma {:induction false} ExportRunIds(l: Layer, pack: string -> Result<string, Error>, marshal: Json -> string)
    requires AllPack(l, pack)
    ensures var run := ExportRun(l, pack, marshal);
      && run.err == None
      && run.ids == ChainIds(l)
      && |run.entries| == 3 * |Chain(l)|
    decreases l
  {
    AllPackStep(l, pack);
    ExportRunOk(l, pack, marshal);
    if l.parent.Some? {
      ExportRunIds(l.parent.value, pack, marshal);
    } else {
      assert Chain(l) == [l];
    }
  }

  /** ... and the entries are those three per layer, in chain order. */
  lemma {:induction false} ExportRunLayout(l: Layer, pack: string -> Result<string, Error>, marshal: Json -> string)
    requires AllPack(l, pack)
    ensures var run := ExportRun(l, pack, marshal);
      && run.err == None
      && run.ids == ChainIds(l)
      && |run.entries| == 3 * |Chain(l)|
      && forall i :: 0 <= i < |Chain(l)| ==>
           run.entries[3 * i..3 * i + 3] == LayerEntries(marshal, Chain(l)[i], pack(Chain(l)[i].id).value)
    decreases l
  {
    AllPackStep(l, pack);
    ExportRunIds(l, pack, marshal);
    var run := ExportRun(l, pack, marshal);
    if l.parent.Some? {
      var p := l.parent.value;
      ExportRunLayout(p, pack, marshal);
      var c := Chain(l);
      assert c == [l] + Chain(p);
      var rest := ExportRun(p, pack, marshal);
      var mine := LayerEntries(marshal, l, pack(l.id).value);
      assert run.entries == mine + rest.entries;
      forall i | 0 <= i < |c|
        ensures run.entries[3 * i..3 * i + 3] == LayerEntries(marshal, c[i], pack(c[i].id).value)
      {
        if i > 0 {
          assert c[i] == Chain(p)[i - 1];
          ShiftThree(mine, rest.entries, i);
        }
      }
    } else {
      assert Chain(l) == [l];
    }
  }

  lemma ShiftThree<T>(a: seq<T>, b: seq<T>, i: nat)
    requires |a| == 3 && 1 <= i && 3 * i + 3 <= |a| + |b|
    ensures (a + b)[3 * i..3 * i + 3] == b[3 * (i - 1)..3 * (i - 1) + 3]
  {
  }

  /** The stream that ends in error holds, for each layer before the one
      that failed to pack, its three entries, and for that one only its
      directory. */
  lemma {:induction false} ExportRunStopsAtFailure(l: Layer, pack: string -> Result<string, Error>, marshal: Json -> string, k: nat)
    requires k < |Chain(l)| && pack(Chain(l)[k].id).Failure?
    requires forall i :: 0 <= i < k ==> pack(Chain(l)[i].id).Success?
    ensures var run := ExportRun(l, pack, marshal);
      && run.err == Some(pack(Chain(l)[k].id).error)
      && |run.entries| == 3 * k + 1
      && run.entries[3 * k] == DirEntry(Chain(l)[k].id)
    decreases l
  {
    if k > 0 {
      var p := l.parent.value;
      var c := Chain(l);
      assert c == [l] + Chain(p);
      assert c[k] == Chain(p)[k - 1];
      forall i | 0 <= i < k - 1 ensures pack(Chain(p)[i].id).Success? {
        assert c[i + 1] == Chain(p)[i];
      }
      ExportRunStopsAtFailure(p, pack, marshal, k - 1);
    }
  }

  /** The archive of a fully packed chain: its layers' entries, then
      exactly `repositories`, `manifest.json` and `<top ID>.json`; the
      manifest is one record naming that config file, no tags, and the
      chain's IDs as its layers. */
  lemma ExportLayout(layer: Layer, config: Json, pack: string -> Result<string, Error>, marshal: Json -> string)
    requires AllPack(layer, pack)
    ensures var r := ExportSpec(layer, true, Success(Some(config)), pack, marshal);
      var n := |Chain(layer)|;
      && r.Success? && r.value.closeErr == None
      && |r.value.entries| == 3 * n + 3
      && r.value.entries[3 * n].name == "repositories"
      && r.value.entries[3 * n + 1].name == "manifest.json"
      && r.value.entries[3 * n + 1].body == Doc(Manifest(layer.id, ChainIds(layer)))
      && r.value.entries[3 * n + 2].name == layer.id + ".json"
      && r.value.entries[3 * n + 2].body == Doc(config)
  {
    ExportRunLayout(layer, pack, marshal);
  }

  /** The per-layer JSON names the layer and its parent in the chain, ""
      for the root. */
  lemma LayerJsonNamesChain(l: Layer, i: nat)
    requires i < |Chain(l)|
    ensures var d := LayerJson(Chain(l)[i]);
      && Get(d.fields, "id") == Some(JStr(Chain(l)[i].id))
      && Get(d.fields, "parent") ==
           Some(JStr(if i + 1 < |Chain(l)| then Chain(l)[i + 1].id else ""))
  {
    ChainShape(l);
  }

  predicate SizeMatches(marshal: Json -> string, e: Entry) {
    e.size == |Content(marshal, e.body)|
  }

  /** Every header's size is the length of the content written after it.
      FileEntry computes the size from the content, so this holds by
      construction; the lemma checks that every entry is built that way. */
  lemma {:induction false} ExportSizesMatch(layer: Layer, present: bool, config: Result<Option<Json>, string>,
                                            pack: string -> Result<string, Error>, marshal: Json -> string)
    requires ExportSpec(layer, present, config, pack, marshal).Success?
    ensures forall e :: e in ExportSpec(layer, present, config, pack, marshal).value.entries ==> SizeMatches(marshal, e)
  {
    RunSizesMatch(layer, pack, marshal);
  }

  lemma {:induction false} RunSizesMatch(l: Layer, pack: string -> Result<string, Error>, marshal: Json -> string)
    ensures forall e :: e in ExportRun(l, pack, marshal).entries ==> SizeMatches(marshal, e)
    decreases l
  {
    if l.parent.Some? && pack(l.id).Success? {
      RunSizesMatch(l.parent.value, pack, marshal);
    }
  }
}
