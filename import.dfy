/** Docker.Import (imgio/docker_import.go, and the variant in imgio/docker.go):
    the unpacked `docker save` archive is walked, each layer's JSON record is
    validated and the layer created, then the layers are linked to their
    parents, unpacked, and the top layer is picked by the last diff ID of
    the image configuration. Unpacking a layer, its digest, and the walk
    of the temporary directory are inputs. */
module DockerImport {
  import opened Wrappers
  import opened Errors
  import opened Paths
  import opened FileSystem
  import opened Layers
  import opened JsonDocs
  import opened Repositories
  import DockerExport

  // ----- the per-layer JSON record -----

  datatype Record = Record(id: string, parent: Option<string>)

  /** The checks the walk makes on a layer's decoded JSON: the document must
      decode into a map (`null` decodes into an empty one), its "id" must be
      there and be a string, and a "parent", when there, must be a string. */
  function ParseRecord(doc: Json): (r: Result<Record, Error>)
    ensures !doc.JObj? ==> r.Failure?
    ensures doc.JNull? || (doc.JObj? && Get(doc.fields, "id").None?) ==> r == Failure(Message("missing layer id"))
    ensures doc.JObj? && Get(doc.fields, "id").Some? && !Get(doc.fields, "id").value.JStr? ==>
      r == Failure(Message("invalid layer id"))
    ensures doc.JObj? && Get(doc.fields, "id").Some? && Get(doc.fields, "id").value.JStr? ==>
      var p := Get(doc.fields, "parent");
      && (p.Some? && !p.value.JStr? ==> r == Failure(Message("invalid parent ID")))
      && (p.None? ==> r == Success(Record(Get(doc.fields, "id").value.s, None)))
      && (p.Some? && p.value.JStr? ==> r == Success(Record(Get(doc.fields, "id").value.s, Some(p.value.s))))
  {
    if doc.JNull? then Failure(Message("missing layer id"))
    else if !doc.JObj? then Failure(Message("cannot decode layer json"))
    else match Get(doc.fields, "id")
      case None => Failure(Message("missing layer id"))
      case Some(idv) =>
        if !idv.JStr? then Failure(Message("invalid layer id"))
        else match Get(doc.fields, "parent")
          case None => Success(Record(idv.s, None))
          case Some(pv) =>
            if pv.JStr? then Success(Record(idv.s, Some(pv.s)))
            else Failure(Message("invalid parent ID"))
  }

  /** The records Export writes pass these checks and give back the layer's
      ID and its parent's ID ("" for the root). */
  lemma ExportedRecordParses(l: Layer)
    ensures ParseRecord(DockerExport.LayerJson(l)) ==
      Success(Record(l.id, Some(DockerExport.ParentId(l))))
  {
    var f := DockerExport.LayerJson(l).fields;
    assert f[..2][..1] == [Field("config", JObj([]))];
    assert Get(f[..2][..1], "id") == None;
    assert Get(f[..2], "id") == Some(JStr(l.id));
    assert Get(f, "id") == Some(JStr(l.id));
    assert Get(f, "parent") == Some(JStr(DockerExport.ParentId(l)));
  }

  // ----- the walk of the unpacked archive -----

  /** One path the walk visits, and the JSON decoded for it: for a
      `layer.tar`, the `json` file beside it; for a configuration file, the
      file itself. */
  datatype Visit = Visit(path: Path, content: Result<Json, Error>)

  const LayerTarName: string := "layer.tar"
  const ManifestName: string := "manifest.json"

  predicate HasSuffix(s: string, suffix: string) {
    |suffix| <= |s| && s[|s| - |suffix|..] == suffix
  }

  predicate IsLayerTar(p: Path) {
    |p.parts| > 0 && Base(p) == LayerTarName
  }

  /** A `.json` file other than the manifest: the image configuration. */
  predicate IsConfigJson(p: Path) {
    |p.parts| > 0 && HasSuffix(Base(p), ".json") && Base(p) != ManifestName
  }

  /** A "diff_ids" array decoded into the slice `prev` the image already
      holds, as encoding/json fills a slice: the slice takes the array's
      length, a string element sets its slot, and a `null` element leaves
      the slot as it was (the old ID below the old length, "" above it).
      Any other element is a type error. */
  function DecodeIdArray(items: seq<Json>, prev: seq<string>): (r: Result<seq<string>, Error>)
    ensures r.Success? <==> forall i :: 0 <= i < |items| ==> items[i].JStr? || items[i].JNull?
    ensures r.Success? ==> |r.value| == |items|
    ensures r.Success? ==> forall i :: 0 <= i < |items| ==>
      r.value[i] == if items[i].JStr? then items[i].s else if i < |prev| then prev[i] else ""
    decreases |items|
  {
    if items == [] then Success([])
    else
      var k := |items| - 1;
      match DecodeIdArray(items[..k], prev)
      case Failure(e) => Failure(e)
      case Success(done) =>
        if items[k].JStr? then Success(done + [items[k].s])
        else if items[k].JNull? then Success(done + [if k < |prev| then prev[k] else ""])
        else Failure(Message("cannot unmarshal diff_ids"))
  }

  /** A value the diff IDs can be decoded from: `null`, or an array of
      strings and nulls. */
  predicate IdsDecodable(v: Json) {
    v.JNull? || (v.JArr? && forall i :: 0 <= i < |v.items| ==> v.items[i].JStr? || v.items[i].JNull?)
  }

  /** Every "diff_ids" field of a "rootfs" object can be decoded. */
  predicate RootFSDecodable(fields: seq<Field>) {
    forall i :: 0 <= i < |fields| && fields[i].key == "diff_ids" ==> IdsDecodable(fields[i].value)
  }

  /** A "rootfs" object decoded into the RootFS value the image holds: each
      "diff_ids" field in turn, `null` setting the slice to nil; the other
      fields leave the diff IDs alone. */
  function DecodeRootFS(fields: seq<Field>, prev: seq<string>): (r: Result<seq<string>, Error>)
    ensures r.Success? <==> RootFSDecodable(fields)
    ensures Get(fields, "diff_ids").None? ==> r == Success(prev)
    decreases |fields|
  {
    if fields == [] then Success(prev)
    else
      var k := |fields| - 1;
      match DecodeRootFS(fields[..k], prev)
      case Failure(e) => Failure(e)
      case Success(ids) =>
        if fields[k].key != "diff_ids" then Success(ids)
        else match fields[k].value
          case JNull => Success([])
          case JArr(items) => DecodeIdArray(items, ids)
          case _ => Failure(Message("cannot unmarshal diff_ids"))
  }

  /** Every "rootfs" field of a configuration can be decoded: `null`, which
      leaves the RootFS value alone, or an object. */
  predicate ImageDecodable(fields: seq<Field>) {
    forall i :: 0 <= i < |fields| && fields[i].key == "rootfs" ==>
      fields[i].value.JNull? || (fields[i].value.JObj? && RootFSDecodable(fields[i].value.fields))
  }

  /** A configuration object decoded into the image: each "rootfs" field in
      turn is merged into the same RootFS value. */
  function DecodeImage(fields: seq<Field>, prev: seq<string>): (r: Result<seq<string>, Error>)
    ensures r.Success? <==> ImageDecodable(fields)
    ensures Get(fields, "rootfs").None? ==> r == Success(prev)
    decreases |fields|
  {
    if fields == [] then Success(prev)
    else
      var k := |fields| - 1;
      match DecodeImage(fields[..k], prev)
      case Failure(e) => Failure(e)
      case Success(ids) =>
        if fields[k].key != "rootfs" then Success(ids)
        else match fields[k].value
          case JNull => Success(ids)
          case JObj(rootfs) => DecodeRootFS(rootfs, ids)
          case _ => Failure(Message("cannot unmarshal rootfs"))
  }

  /** The diff IDs after decoding a configuration document into the image
      decoded so far (json.Unmarshal into the same v1.Image): `null` leaves
      the image alone, an object is merged into it, anything else is a type
      error. */
  function DecodeDiffIds(doc: Json, prev: seq<string>): (r: Result<seq<string>, Error>)
    ensures r.Success? <==> doc.JNull? || (doc.JObj? && ImageDecodable(doc.fields))
    ensures doc.JObj? && Get(doc.fields, "rootfs").None? ==> r == Success(prev)
  {
    match doc
    case JNull => Success(prev)
    case JObj(fields) => DecodeImage(fields, prev)
    case _ => Failure(Message("cannot unmarshal image"))
  }

  /** An array of strings decodes to exactly those strings, whatever the
      slice held before. */
  lemma {:induction false} StringsDecode(xs: seq<string>, prev: seq<string>)
    ensures DecodeIdArray(Strings(xs).items, prev) == Success(xs)
  {
    var r := DecodeIdArray(Strings(xs).items, prev);
    assert r.Success?;
    assert |r.value| == |xs|;
    forall i | 0 <= i < |xs| ensures r.value[i] == xs[i] {
      assert Strings(xs).items[i] == JStr(xs[i]);
    }
    assert r.value == xs;
  }

  /** The last "diff_ids" of a "rootfs" object decides: an array of strings
      gives those strings, and `null` gives the empty list. */
  lemma {:induction false} LastDiffIdsDecide(fields: seq<Field>, prev: seq<string>, xs: seq<string>)
    requires RootFSDecodable(fields)
    ensures Get(fields, "diff_ids") == Some(Strings(xs)) ==> DecodeRootFS(fields, prev) == Success(xs)
    ensures Get(fields, "diff_ids") == Some(JNull) ==> DecodeRootFS(fields, prev) == Success([])
    decreases |fields|
  {
    if fields != [] {
      var k := |fields| - 1;
      if fields[k].key == "diff_ids" {
        var ids := DecodeRootFS(fields[..k], prev).value;
        if fields[k].value.JArr? {
          StringsDecode(xs, ids);
        }
      } else {
        LastDiffIdsDecide(fields[..k], prev, xs);
      }
    }
  }

  /** The diff IDs a configuration leaves are decided by the last "diff_ids"
      of its last "rootfs" object: an array of strings gives exactly those
      strings, and `null` the empty list (which the top-layer lookup then
      indexes), whatever earlier configurations set. */
  lemma {:induction false} ConfigDiffIds(fields: seq<Field>, prev: seq<string>, rootfs: seq<Field>, xs: seq<string>)
    requires ImageDecodable(fields)
    requires Get(fields, "rootfs") == Some(JObj(rootfs))
    ensures Get(rootfs, "diff_ids") == Some(Strings(xs)) ==> DecodeDiffIds(JObj(fields), prev) == Success(xs)
    ensures Get(rootfs, "diff_ids") == Some(JNull) ==> DecodeDiffIds(JObj(fields), prev) == Success([])
    decreases |fields|
  {
    var k := |fields| - 1;
    if fields[k].key == "rootfs" {
      var ids := DecodeImage(fields[..k], prev).value;
      LastDiffIdsDecide(rootfs, ids, xs);
    } else {
      ConfigDiffIds(fields[..k], prev, rootfs, xs);
    }
  }

  predicate RecordOk(v: Visit) {
    v.content.Success? && ParseRecord(v.content.value).Success?
  }

  function RecordOf(v: Visit): Record
    requires RecordOk(v)
  {
    ParseRecord(v.content.value).value
  }

  /** What the walk collects: the file of each layer, the parent ID each
      record names, the layers created, and the image's diff IDs. */
  datatype Walked = Walked(fileMap: map<string, Path>, parentMap: map<string, string>,
                           layers: map<string, Layer>, diffIds: seq<string>)

  /** The walk has collected what the record `rec` read at `p` says. */
  predicate Holds(w: Walked, p: Path, rec: Record) {
    && rec.id in w.fileMap && w.fileMap[rec.id] == p
    && rec.id in w.layers && w.layers[rec.id] == Layer(rec.id, None)
    && (rec.parent.Some? ==> rec.id in w.parentMap && w.parentMap[rec.id] == rec.parent.value)
    && (rec.parent.None? ==> rec.id !in w.parentMap)
  }

  /** `w` is what walking `visits` collects: every layer record is valid
      and collected, nothing else is, and the layers are exactly the files. */
  predicate Collected(visits: seq<Visit>, w: Walked) {
    && (forall i :: 0 <= i < |visits| && IsLayerTar(visits[i].path) ==>
          RecordOk(visits[i]) && Holds(w, visits[i].path, RecordOf(visits[i])))
    && (forall id :: id in w.fileMap ==> Recorded(visits, id))
    && w.layers.Keys == w.fileMap.Keys
    && w.parentMap.Keys <= w.fileMap.Keys
  }

  /** Some layer visit holds a valid record with this ID. */
  predicate Recorded(visits: seq<Visit>, id: string) {
    exists i :: 0 <= i < |visits| && IsLayerTar(visits[i].path) && RecordOk(visits[i]) &&
                RecordOf(visits[i]).id == id
  }

  const NothingWalked: Walked := Walked(map[], map[], map[], [])

  /** One visit of the walk on its own: what it adds to `w`, or the error
      it meets that does not depend on the disk: a record that cannot be
      read or fails the checks, an ID already collected, a configuration
      that cannot be decoded. */
  function Step(v: Visit, w: Walked): Result<Walked, Error> {
    if IsLayerTar(v.path) then
      if v.content.Failure? then Failure(v.content.error)
      else match ParseRecord(v.content.value)
        case Failure(e) => Failure(e)
        case Success(rec) =>
          if rec.id in w.layers then Failure(LayerExists)
          else Success(AddRecord(w, v.path, rec))
    else if IsConfigJson(v.path) then
      if v.content.Failure? then Failure(v.content.error)
      else match DecodeDiffIds(v.content.value, w.diffIds)
        case Failure(e) => Failure(e)
        case Success(ids) => Success(w.(diffIds := ids))
    else Success(w)
  }

  /** The walk on its own, from `w`: the visits in order, up to the first
      error. */
  function CollectSpec(visits: seq<Visit>, w: Walked): Result<Walked, Error>
    decreases |visits|
  {
    if visits == [] then Success(w)
    else match Step(visits[0], w)
      case Failure(e) => Failure(e)
      case Success(w') => CollectSpec(visits[1..], w')
  }

  /** What one valid layer record adds. */
  function AddRecord(w: Walked, p: Path, rec: Record): Walked {
    Walked(w.fileMap[rec.id := p],
           if rec.parent.Some? then w.parentMap[rec.id := rec.parent.value] else w.parentMap,
           w.layers[rec.id := Layer(rec.id, None)], w.diffIds)
  }

  /** Neither the base directory nor the store path of layer `id` is on
      the disk yet. */
  predicate LayerAbsent(fs: Tree, baseDir: Path, id: string) {
    LayerBase(baseDir, id) !in fs && LayerPath(baseDir, id) !in fs
  }

  /** unpackLayers: walk the unpacked archive. For each `layer.tar`, the
      record beside it is validated, the layer's file and parent ID are
      noted, and the layer is created in the repository, which refuses an
      ID it already holds. Each configuration file is decoded into the
      image. The first error ends the walk. Whatever happens, the layers
      registered before stay, and each one added is a fresh layer named by
      a valid record of the walk. A walk that succeeds on its own succeeds
      here too when its layers are new to the repository and to the disk
      and their directories can be made. */
  method UnpackLayers(repo: Repository, visits: seq<Visit>, mkdirOk: bool) returns (r: Result<Walked, Error>)
    modifies repo`layers, repo.disk
    ensures CollectSpec(visits, NothingWalked).Failure? ==> r.Failure?
    ensures r.Success? ==> CollectSpec(visits, NothingWalked) == Success(r.value)
    ensures r.Success? ==>
      (forall id :: id in r.value.layers ==> id !in old(repo.layers)) &&
      repo.layers == old(repo.layers) + r.value.layers
    ensures var c := CollectSpec(visits, NothingWalked);
      c.Success? && mkdirOk &&
      (forall id :: id in c.value.layers ==>
         id !in old(repo.layers) && LayerAbsent(old(repo.disk.entries), repo.baseDir, id))
      ==> r.Success?
    ensures RegistryGrew(old(repo.layers), repo.layers, visits)
  {
    ghost var c := CollectSpec(visits, NothingWalked);
    ghost var good := c.Success? && mkdirOk &&
      (forall id :: id in c.value.layers ==>
         id !in old(repo.layers) && LayerAbsent(old(repo.disk.entries), repo.baseDir, id));
    var w := NothingWalked;
    for i := 0 to |visits|
      invariant c == CollectSpec(visits[i..], w)
      invariant Added(old(repo.layers), w.layers, visits)
      invariant repo.layers == old(repo.layers) + w.layers
      invariant AbsentKept(old(repo.disk.entries), repo.disk.entries, repo.baseDir, w.layers)
    {
      var v := visits[i];
      assert visits[i..][1..] == visits[i + 1..];
      AddedGrew(old(repo.layers), w.layers, visits);
      if IsLayerTar(v.path) {
        if v.content.Failure? {
          return Failure(v.content.error);
        }
        var rec := ParseRecord(v.content.value);
        if rec.Failure? {
          return Failure(rec.error);
        }
        var id := rec.value.id;
        assert Recorded(visits, id) by {
          assert IsLayerTar(visits[i].path) && RecordOk(visits[i]) && RecordOf(visits[i]).id == id;
        }
        if good {
          GoodStep(visits[i..], w, id);
          assert LayerAbsent(repo.disk.entries, repo.baseDir, id) && id !in repo.layers;
        }
        ghost var fs := repo.disk.entries;
        var layer, err := repo.CreateLayer(id, None, mkdirOk);
        if id !in old(repo.layers) {
          MergeUpdate(old(repo.layers), w.layers, id, Layer(id, None));
          AddedGrew(old(repo.layers), w.layers[id := Layer(id, None)], visits);
        }
        if err.Some? {
          return Failure(err.value);
        }
        assert id !in w.layers;
        AbsentKeptStep(old(repo.disk.entries), fs, repo.disk.entries, repo.baseDir, w.layers, id);
        w := AddRecord(w, v.path, rec.value);
      } else {
        // A configuration file (or any other file) touches neither the
        // repository nor the disk.
        var next := Step(v, w);
        if next.Failure? {
          return Failure(next.error);
        }
        w := next.value;
      }
    }
    return Success(w);
  }

  /** The layers in `added` are new, fresh, and named by valid records of
      the walk. */
  ghost predicate Added(before: map<string, Layer>, added: map<string, Layer>, visits: seq<Visit>) {
    forall id :: id in added ==> id !in before && added[id] == Layer(id, None) && Recorded(visits, id)
  }

  /** The registry kept every layer it held, and each layer it gained is a
      fresh layer named by a valid record of the walk. */
  ghost predicate RegistryGrew(before: map<string, Layer>, after: map<string, Layer>, visits: seq<Visit>) {
    && (forall id :: id in before ==> id in after && after[id] == before[id])
    && (forall id :: id in after && id !in before ==> after[id] == Layer(id, None) && Recorded(visits, id))
  }

  lemma AddedGrew(before: map<string, Layer>, added: map<string, Layer>, visits: seq<Visit>)
    requires Added(before, added, visits)
    ensures RegistryGrew(before, before + added, visits)
  {
  }

  /** The layers not yet created whose directories were absent at the
      start are still absent. */
  ghost predicate AbsentKept(before: Tree, now: Tree, baseDir: Path, created: map<string, Layer>) {
    forall id :: id !in created && LayerAbsent(before, baseDir, id) ==> LayerAbsent(now, baseDir, id)
  }

  /** Creating layer `id`, which adds at most its base directory, keeps the
      other layers' directories absent. */
  lemma AbsentKeptStep(before: Tree, fs: Tree, fs': Tree, baseDir: Path, created: map<string, Layer>, id: string)
    requires AbsentKept(before, fs, baseDir, created)
    requires fs' == fs || fs' == fs[LayerBase(baseDir, id) := Directory]
    ensures AbsentKept(before, fs', baseDir, created[id := Layer(id, None)])
  {
    forall x | x !in created[id := Layer(id, None)] && LayerAbsent(before, baseDir, x)
      ensures LayerAbsent(fs', baseDir, x)
    {
      LayoutDisjoint(baseDir, x, id);
    }
  }

  /** A layer visit at the head of a walk that succeeds names an ID not yet
      collected, which the finished walk collects. */
  lemma GoodStep(visits: seq<Visit>, w: Walked, id: string)
    requires visits != [] && IsLayerTar(visits[0].path) && RecordOk(visits[0]) && RecordOf(visits[0]).id == id
    requires CollectSpec(visits, w).Success?
    ensures id !in w.layers && id in CollectSpec(visits, w).value.layers
  {
    var v := visits[0];
    var w' := AddRecord(w, v.path, RecordOf(v));
    assert Step(v, w) == Success(w');
    CollectKeeps(visits[1..], w');
  }

  lemma MergeUpdate<K, V>(a: map<K, V>, b: map<K, V>, k: K, v: V)
    ensures (a + b)[k := v] == a + b[k := v]
  {
  }

  /** One step never loses what was collected. */
  lemma StepKeeps(v: Visit, w: Walked)
    requires Step(v, w).Success?
    ensures var u := Step(v, w).value;
      && w.fileMap.Keys <= u.fileMap.Keys
      && w.layers.Keys <= u.layers.Keys
      && (forall p, rec :: Holds(w, p, rec) ==> Holds(u, p, rec))
      && (w.layers.Keys == w.fileMap.Keys ==> u.layers.Keys == u.fileMap.Keys)
      && (w.parentMap.Keys <= w.fileMap.Keys ==> u.parentMap.Keys <= u.fileMap.Keys)
      && (w.parentMap.Keys <= w.layers.Keys ==> u.parentMap.Keys <= u.layers.Keys)
  {
    var u := Step(v, w).value;
    forall p, rec | Holds(w, p, rec) ensures Holds(u, p, rec) {
      assert rec.id in w.layers;
    }
  }

  /** Collecting never loses what was collected. */
  lemma {:induction false} CollectKeeps(visits: seq<Visit>, w: Walked)
    requires CollectSpec(visits, w).Success?
    ensures var u := CollectSpec(visits, w).value;
      && w.fileMap.Keys <= u.fileMap.Keys
      && w.layers.Keys <= u.layers.Keys
      && (forall p, rec :: Holds(w, p, rec) ==> Holds(u, p, rec))
      && (w.layers.Keys == w.fileMap.Keys ==> u.layers.Keys == u.fileMap.Keys)
      && (w.parentMap.Keys <= w.fileMap.Keys ==> u.parentMap.Keys <= u.fileMap.Keys)
    decreases |visits|
  {
    if visits != [] {
      StepKeeps(visits[0], w);
      CollectKeeps(visits[1..], Step(visits[0], w).value);
    }
  }

  /** Every layer visit of a walk that succeeds holds a valid record, and
      what that record says is what the walk collected. */
  lemma {:induction false} CollectRecords(visits: seq<Visit>, w: Walked)
    requires CollectSpec(visits, w).Success?
    requires w.parentMap.Keys <= w.layers.Keys
    ensures var u := CollectSpec(visits, w).value;
      forall i :: 0 <= i < |visits| && IsLayerTar(visits[i].path) ==>
        RecordOk(visits[i]) && Holds(u, visits[i].path, RecordOf(visits[i]))
    decreases |visits|
  {
    if visits != [] {
      var v := visits[0];
      var u := CollectSpec(visits, w).value;
      var w' := Step(v, w).value;
      StepKeeps(v, w);
      CollectRecords(visits[1..], w');
      if IsLayerTar(v.path) {
        CollectKeeps(visits[1..], w');
        assert Holds(w', v.path, RecordOf(v));
      }
      forall i | 1 <= i < |visits| && IsLayerTar(visits[i].path)
        ensures RecordOk(visits[i]) && Holds(u, visits[i].path, RecordOf(visits[i]))
      {
        assert visits[i] == visits[1..][i - 1];
      }
    }
  }

  /** A walk that succeeds collects nothing but its records. */
  lemma {:induction false} CollectOnly(visits: seq<Visit>, w: Walked)
    requires CollectSpec(visits, w).Success?
    ensures var u := CollectSpec(visits, w).value;
      forall id :: id in u.fileMap ==> id in w.fileMap || Recorded(visits, id)
    decreases |visits|
  {
    if visits != [] {
      var v := visits[0];
      var u := CollectSpec(visits, w).value;
      var w' := Step(v, w).value;
      CollectOnly(visits[1..], w');
      forall id | id in u.fileMap ensures id in w.fileMap || Recorded(visits, id) {
        if id in w'.fileMap && id !in w.fileMap {
          assert IsLayerTar(visits[0].path) && RecordOk(visits[0]) && RecordOf(visits[0]).id == id;
        } else if id !in w'.fileMap {
          var k :| 0 <= k < |visits[1..]| && IsLayerTar(visits[1..][k].path) && RecordOk(visits[1..][k]) &&
                   RecordOf(visits[1..][k]).id == id;
          assert visits[k + 1] == visits[1..][k];
        }
      }
    }
  }

  /** What a successful walk collects is exactly what its records say. */
  lemma WalkCollects(visits: seq<Visit>)
    requires CollectSpec(visits, NothingWalked).Success?
    ensures Collected(visits, CollectSpec(visits, NothingWalked).value)
  {
    CollectKeeps(visits, NothingWalked);
    CollectRecords(visits, NothingWalked);
    CollectOnly(visits, NothingWalked);
  }

  /** A layer record whose ID was already collected makes the walk fail. */
  lemma {:induction false} CollectedIdFails(visits: seq<Visit>, w: Walked, j: nat)
    requires j < |visits| && IsLayerTar(visits[j].path) && RecordOk(visits[j])
    requires RecordOf(visits[j]).id in w.layers
    ensures CollectSpec(visits, w).Failure?
    decreases j
  {
    if j > 0 && Step(visits[0], w).Success? {
      StepKeeps(visits[0], w);

      assert visits[1..][j - 1] == visits[j];
      CollectedIdFails(visits[1..], Step(visits[0], w).value, j - 1);
    }
  }

  /** The same ID in two layer records makes the walk fail. */
  lemma {:induction false} DuplicateIdFails(visits: seq<Visit>, w: Walked, i: nat, j: nat)
    requires i < j < |visits|
    requires IsLayerTar(visits[i].path) && IsLayerTar(visits[j].path)
    requires RecordOk(visits[i]) && RecordOk(visits[j]) && RecordOf(visits[i]).id == RecordOf(visits[j]).id
    ensures CollectSpec(visits, w).Failure?
    decreases i
  {
    if Step(visits[0], w).Success? {
      var w' := Step(visits[0], w).value;
      assert visits[1..][j - 1] == visits[j];
      if i == 0 {
        assert w' == AddRecord(w, visits[0].path, RecordOf(visits[0]));
        CollectedIdFails(visits[1..], w', j - 1);
      } else {
        assert visits[1..][i - 1] == visits[i];
        DuplicateIdFails(visits[1..], w', i - 1, j - 1);
      }
    }
  }

  // ----- linking, unpacking and the top layer -----

  /** What opening and unpacking a layer's `layer.tar` gives: the open
      fails, or the unpack gives the digest, or it fails. */
  datatype UnpackOutcome = OpenFailed(failure: Error) | Unpacked(digest: string) | UnpackFailed(failure: Error)
  {
    predicate Opened() { !OpenFailed? }

    /** The digest Layer.Unpack returns: "" when the unpack failed. */
    function Reported(): string { if Unpacked? then digest else "" }

    function Err(): Option<Error> { if UnpackFailed? then Some(failure) else None }
  }

  /** The parent ID the walk noted for `id`, "" when it noted none. */
  function ParentIdOf(w: Walked, id: string): string {
    if id in w.parentMap then w.parentMap[id] else ""
  }

  /** The layer `id` with its parent link set: the collected layer of the
      noted parent ID, none when no layer has that ID. */
  function Linked(w: Walked, id: string): (l: Layer)
    requires id in w.layers
    ensures l.id == w.layers[id].id
    ensures l.parent.Some? <==> ParentIdOf(w, id) in w.layers
    ensures l.parent.Some? ==> l.parent.value == w.layers[ParentIdOf(w, id)]
  {
    var pid := ParentIdOf(w, id);
    w.layers[id].(parent := if pid in w.layers then Some(w.layers[pid]) else None)
  }

  /** The link of `id` is what the walk says: its parent's ID when a layer
      has that ID, no link otherwise. */
  predicate LinkSet(links: map<string, string>, w: Walked, id: string) {
    && (ParentIdOf(w, id) in w.layers ==> id in links && links[id] == ParentIdOf(w, id))
    && (ParentIdOf(w, id) !in w.layers ==> id !in links)
  }

  /** Setting the parent link of `id` (`layer.Parent = ...`). */
  function SetLink(links: map<string, string>, w: Walked, id: string): (r: map<string, string>)
    ensures LinkSet(r, w, id)
    ensures forall x :: x != id ==> (x in r <==> x in links)
    ensures forall x :: x != id && x in r ==> r[x] == links[x]
  {
    var pid := ParentIdOf(w, id);
    if pid in w.layers then links[id := pid] else links - {id}
  }

  /** Where the loop over the layers got to: the disk, the parent links set
      so far (layer ID to parent ID), the layers by digest, and the error
      that stopped it. */
  datatype Built = Built(fs: Tree, links: map<string, string>, digests: map<string, string>,
                         err: Option<Error>)

  /** What one layer of the loop gives: the loop goes on with the disk, or
      it stops with the disk, whether the layer's link was set before it
      stopped, and the error. */
  datatype LinkOutcome = GoOn(fs: Tree) | Halt(fs: Tree, linked: bool, err: Error)

  /** One layer of the loop of constructImage. The ID must name a collected
      layer; its parent link is set; then its file is opened and unpacked.
      A clean unpack saves the parent ID, an "already exists" unpack goes on
      without saving, any other failure stops the loop. */
  function LinkStep(baseDir: Path, fs: Tree, w: Walked, unpack: string -> UnpackOutcome, id: string): LinkOutcome {
    if id !in w.layers then Halt(fs, false, Message("invalid layer id " + id))
    else match unpack(id)
      case OpenFailed(e) => Halt(fs, false, e)
      case Unpacked(_) =>
        var s := SaveParentSpec(baseDir, fs, Linked(w, id));
        if s.err.Some? then Halt(s.fs, true, s.err.value) else GoOn(s.fs)
      case UnpackFailed(e) => if IsExist(e) then GoOn(fs) else Halt(fs, true, e)
  }

  /** The loop of constructImage over the layer IDs in `order`, the order
      the range over a Go map happened to give. A layer the loop goes on
      from is filed under the digest its unpack reported. */
  function ConstructLoop(baseDir: Path, fs: Tree, order: seq<string>, w: Walked,
                         unpack: string -> UnpackOutcome,
                         links: map<string, string>, digests: map<string, string>): Built
    decreases |order|
  {
    if order == [] then Built(fs, links, digests, None)
    else
      var id := order[0];
      match LinkStep(baseDir, fs, w, unpack, id)
      case Halt(fs', linked, e) => Built(fs', if linked then SetLink(links, w, id) else links, digests, Some(e))
      case GoOn(fs') =>
        ConstructLoop(baseDir, fs', order[1..], w, unpack, SetLink(links, w, id), digests[unpack(id).Reported() := id])
  }

  /** What constructImage gives: the disk, the parent links, the ID of the
      top layer, and the error. */
  datatype Imported = Imported(fs: Tree, links: map<string, string>, top: Option<string>,
                               err: Option<Error>)

  /** constructImage: the loop, then the top layer is the one filed under
      the last diff ID of the image configuration. An empty list of diff IDs
      is indexed all the same, which panics. The top layer's configuration
      is then saved, with `saveConfigErr` the outcome; the top layer is
      returned together with that outcome. */
  function ConstructSpec(baseDir: Path, fs: Tree, order: seq<string>, w: Walked,
                         unpack: string -> UnpackOutcome, saveConfigErr: Option<Error>): Imported
  {
    var b := ConstructLoop(baseDir, fs, order, w, unpack, map[], map[]);
    if b.err.Some? then Imported(b.fs, b.links, None, b.err)
    else if |w.diffIds| == 0 then Imported(b.fs, b.links, None, Some(Panic("index out of range")))
    else
      var t := w.diffIds[|w.diffIds| - 1];
      if t !in b.digests then Imported(b.fs, b.links, None, Some(Message("top layer doesn't appear to exist")))
      else Imported(b.fs, b.links, Some(b.digests[t]), saveConfigErr)
  }

  /** The loop of constructImage, saving parents through the repository. */
  method ConstructLinks(repo: Repository, order: seq<string>, w: Walked, unpack: string -> UnpackOutcome)
    returns (links: map<string, string>, digests: map<string, string>, err: Option<Error>)
    modifies repo.disk
    ensures Built(repo.disk.entries, links, digests, err) ==
      ConstructLoop(repo.baseDir, old(repo.disk.entries), order, w, unpack, map[], map[])
  {
    links, digests := map[], map[];
    for i := 0 to |order|
      invariant ConstructLoop(repo.baseDir, old(repo.disk.entries), order, w, unpack, map[], map[]) ==
        ConstructLoop(repo.baseDir, repo.disk.entries, order[i..], w, unpack, links, digests)
    {
      assert order[i..][1..] == order[i + 1..];
      var id := order[i];
      if id !in w.layers {
        return links, digests, Some(Message("invalid layer id " + id));
      }
      var outcome := unpack(id);
      if outcome.OpenFailed? {
        return links, digests, Some(outcome.failure);
      }
      links := SetLink(links, w, id);
      if outcome.Unpacked? {
        err := repo.SaveParent(Linked(w, id));
        if err.Some? {
          return;
        }
      } else if !IsExist(outcome.failure) {
        return links, digests, Some(outcome.failure);
      }
      digests := digests[outcome.Reported() := id];
    }
    return links, digests, None;
  }

  /** constructImage (imgio/docker_import.go ranges over the layer files,
      imgio/docker.go over the parent IDs; `order` is that range). */
  method ConstructImage(repo: Repository, order: seq<string>, w: Walked,
                        unpack: string -> UnpackOutcome, saveConfigErr: Option<Error>)
    returns (top: Option<string>, links: map<string, string>, err: Option<Error>)
    modifies repo.disk
    ensures Imported(repo.disk.entries, links, top, err) ==
      ConstructSpec(repo.baseDir, old(repo.disk.entries), order, w, unpack, saveConfigErr)
  {
    var digests;
    links, digests, err := ConstructLinks(repo, order, w, unpack);
    if err.Some? {
      return None, links, err;
    }
    if |w.diffIds| == 0 {
      return None, links, Some(Panic("index out of range"));
    }
    var t := w.diffIds[|w.diffIds| - 1];
    if t !in digests {
      return None, links, Some(Message("top layer doesn't appear to exist"));
    }
    return Some(digests[t]), links, saveConfigErr;
  }

  /** The layer `id` was filed under digest `dg`: it is in the range and its
      unpack reported that digest. */
  predicate Filed(order: seq<string>, unpack: string -> UnpackOutcome, dg: string, id: string) {
    id in order && unpack(id).Opened() && unpack(id).Reported() == dg
  }

  /** A link once set stays set by the rest of the loop. */
  lemma {:induction false} ConstructLoopKeepsLink(baseDir: Path, fs: Tree, order: seq<string>, w: Walked,
                                                  unpack: string -> UnpackOutcome,
                                                  links: map<string, string>, digests: map<string, string>,
                                                  x: string)
    requires LinkSet(links, w, x)
    ensures LinkSet(ConstructLoop(baseDir, fs, order, w, unpack, links, digests).links, w, x)
    decreases |order|
  {
    if order != [] && LinkStep(baseDir, fs, w, unpack, order[0]).GoOn? {
      var id := order[0];
      var fs' := LinkStep(baseDir, fs, w, unpack, id).fs;
      ConstructLoopKeepsLink(baseDir, fs', order[1..], w, unpack, SetLink(links, w, id),
                             digests[unpack(id).Reported() := id], x);
    }
  }

  /** A loop that finishes has met only collected layers and set each of
      their links as the walk says; it links nothing outside the range; and
      each digest it files names a layer of the range whose unpack reported
      that digest. */
  lemma {:induction false} ConstructLoopLinks(baseDir: Path, fs: Tree, order: seq<string>, w: Walked,
                                              unpack: string -> UnpackOutcome,
                                              links: map<string, string>, digests: map<string, string>)
    ensures var b := ConstructLoop(baseDir, fs, order, w, unpack, links, digests);
      && (b.err.None? ==> forall i :: 0 <= i < |order| ==> order[i] in w.layers && LinkSet(b.links, w, order[i]))
      && (forall id :: id in b.links ==> id in links || id in order)
      && (forall dg :: dg in b.digests ==>
            (dg in digests && b.digests[dg] == digests[dg]) || Filed(order, unpack, dg, b.digests[dg]))
    decreases |order|
  {
    if order != [] && LinkStep(baseDir, fs, w, unpack, order[0]).GoOn? {
      var id := order[0];
      var fs' := LinkStep(baseDir, fs, w, unpack, id).fs;
      var links' := SetLink(links, w, id);
      var digests' := digests[unpack(id).Reported() := id];
      ConstructLoopLinks(baseDir, fs', order[1..], w, unpack, links', digests');
      ConstructLoopKeepsLink(baseDir, fs', order[1..], w, unpack, links', digests', id);
      forall i | 1 <= i < |order| ensures order[i] == order[1..][i - 1] {
      }
    }
  }

  /** An unpack error other than "already exists" aborts the loop: when
      every layer before position k goes through and layer k's unpack fails
      so, the loop stops with that error, exactly as if the range ended at
      k (no later ID is consulted). */
  lemma {:induction false} ConstructLoopAborts(baseDir: Path, fs: Tree, order: seq<string>, w: Walked,
                                               unpack: string -> UnpackOutcome,
                                               links: map<string, string>, digests: map<string, string>, k: nat)
    requires k < |order|
    requires ConstructLoop(baseDir, fs, order[..k], w, unpack, links, digests).err.None?
    requires order[k] in w.layers && unpack(order[k]).UnpackFailed? && !IsExist(unpack(order[k]).failure)
    ensures ConstructLoop(baseDir, fs, order, w, unpack, links, digests) ==
            ConstructLoop(baseDir, fs, order[..k + 1], w, unpack, links, digests)
    ensures ConstructLoop(baseDir, fs, order, w, unpack, links, digests).err == Some(unpack(order[k]).failure)
    decreases k
  {
    if k > 0 {
      var id := order[0];
      assert order[..k][0] == id && order[..k + 1][0] == id;
      var fs' := LinkStep(baseDir, fs, w, unpack, id).fs;
      assert order[..k][1..] == order[1..][..k - 1];
      assert order[..k + 1][1..] == order[1..][..k];
      ConstructLoopAborts(baseDir, fs', order[1..], w, unpack, SetLink(links, w, id),
                          digests[unpack(id).Reported() := id], k - 1);
    }
  }

  /** The import then fails with that error and returns no top layer. */
  lemma ImportAbortsOnUnpackError(baseDir: Path, fs: Tree, order: seq<string>, w: Walked,
                                  unpack: string -> UnpackOutcome, saveConfigErr: Option<Error>, k: nat)
    requires k < |order|
    requires ConstructLoop(baseDir, fs, order[..k], w, unpack, map[], map[]).err.None?
    requires order[k] in w.layers && unpack(order[k]).UnpackFailed? && !IsExist(unpack(order[k]).failure)
    ensures var r := ConstructSpec(baseDir, fs, order, w, unpack, saveConfigErr);
      r.top.None? && r.err == Some(unpack(order[k]).failure)
  {
    ConstructLoopAborts(baseDir, fs, order, w, unpack, map[], map[], k);
  }

  /** The top layer constructImage returns is a collected layer of the
      range, its unpack reported the last diff ID as its digest, its parent
      link is set as the walk says, and the error returned with it is the
      outcome of saving the configuration. */
  lemma TopIsFiled(baseDir: Path, fs: Tree, order: seq<string>, w: Walked,
                   unpack: string -> UnpackOutcome, saveConfigErr: Option<Error>)
    ensures var r := ConstructSpec(baseDir, fs, order, w, unpack, saveConfigErr);
      r.top.Some? ==>
        && |w.diffIds| > 0
        && r.top.value in order && r.top.value in w.layers
        && unpack(r.top.value).Opened() && unpack(r.top.value).Reported() == w.diffIds[|w.diffIds| - 1]
        && LinkSet(r.links, w, r.top.value)
        && r.err == saveConfigErr
  {
    ConstructLoopLinks(baseDir, fs, order, w, unpack, map[], map[]);
  }

  /** A loop that finishes keeps every digest filed before it and files
      the digest each layer of the range reported. */
  lemma {:induction false} ConstructLoopFilesAll(baseDir: Path, fs: Tree, order: seq<string>, w: Walked,
                                                 unpack: string -> UnpackOutcome,
                                                 links: map<string, string>, digests: map<string, string>)
    ensures var b := ConstructLoop(baseDir, fs, order, w, unpack, links, digests);
      b.err.None? ==>
        && (forall dg :: dg in digests ==> dg in b.digests)
        && (forall i :: 0 <= i < |order| ==> unpack(order[i]).Reported() in b.digests)
    decreases |order|
  {
    if order != [] && LinkStep(baseDir, fs, w, unpack, order[0]).GoOn? {
      var id := order[0];
      var fs' := LinkStep(baseDir, fs, w, unpack, id).fs;
      ConstructLoopFilesAll(baseDir, fs', order[1..], w, unpack, SetLink(links, w, id),
                            digests[unpack(id).Reported() := id]);
      forall i | 1 <= i < |order| ensures order[i] == order[1..][i - 1] {
      }
    }
  }

  /** Once the loop finishes and there are diff IDs, the lookup of the top
      layer succeeds exactly when some layer of the range reported the
      last diff ID; the error is then the outcome of saving the
      configuration. */
  lemma TopFound(baseDir: Path, fs: Tree, order: seq<string>, w: Walked,
                 unpack: string -> UnpackOutcome, saveConfigErr: Option<Error>)
    requires ConstructLoop(baseDir, fs, order, w, unpack, map[], map[]).err.None?
    requires |w.diffIds| > 0
    ensures var r := ConstructSpec(baseDir, fs, order, w, unpack, saveConfigErr);
      (r.top.Some? <==> exists i :: 0 <= i < |order| && unpack(order[i]).Reported() == w.diffIds[|w.diffIds| - 1]) &&
      (r.top.Some? ==> r.err == saveConfigErr) &&
      (r.top.None? ==> r.err == Some(Message("top layer doesn't appear to exist")))
  {
    ConstructLoopFilesAll(baseDir, fs, order, w, unpack, map[], map[]);
    TopIsFiled(baseDir, fs, order, w, unpack, saveConfigErr);
  }

  /** An empty list of diff IDs never gives a top layer: a loop that
      finishes reaches the index, which panics. */
  lemma EmptyDiffIdsPanics(baseDir: Path, fs: Tree, order: seq<string>, w: Walked,
                           unpack: string -> UnpackOutcome, saveConfigErr: Option<Error>)
    requires w.diffIds == []
    ensures var r := ConstructSpec(baseDir, fs, order, w, unpack, saveConfigErr);
      r.top.None? && r.err.Some? &&
      (ConstructLoop(baseDir, fs, order, w, unpack, map[], map[]).err.None? ==> r.err == Some(Panic("index out of range")))
  {
  }

  /** imgio/docker.go ranges over the parent IDs the walk noted: the layers
      whose record has no "parent" are never unpacked (what their unpack
      would give does not matter) and never the top. */
  lemma {:induction false} UnpacksOnlyRange(baseDir: Path, fs: Tree, order: seq<string>, w: Walked,
                                            unpack: string -> UnpackOutcome, unpack': string -> UnpackOutcome,
                                            links: map<string, string>, digests: map<string, string>)
    requires forall i :: 0 <= i < |order| ==> unpack(order[i]) == unpack'(order[i])
    ensures ConstructLoop(baseDir, fs, order, w, unpack, links, digests) ==
            ConstructLoop(baseDir, fs, order, w, unpack', links, digests)
    decreases |order|
  {
    if order != [] && LinkStep(baseDir, fs, w, unpack, order[0]).GoOn? {
      var id := order[0];
      var fs' := LinkStep(baseDir, fs, w, unpack, id).fs;
      forall i | 0 <= i < |order[1..]| ensures unpack(order[1..][i]) == unpack'(order[1..][i]) {
        assert order[1..][i] == order[i + 1];
      }
      UnpacksOnlyRange(baseDir, fs', order[1..], w, unpack, unpack', SetLink(links, w, id),
                       digests[unpack(id).Reported() := id]);
    }
  }

  lemma ByParentsTop(baseDir: Path, fs: Tree, order: seq<string>, w: Walked,
                     unpack: string -> UnpackOutcome, saveConfigErr: Option<Error>)
    requires forall id :: id in order <==> id in w.parentMap
    ensures var r := ConstructSpec(baseDir, fs, order, w, unpack, saveConfigErr);
      r.top.Some? ==> r.top.value in w.parentMap
  {
    TopIsFiled(baseDir, fs, order, w, unpack, saveConfigErr);
  }

  /** One layer of the loop never takes away or changes what was on the
      disk. */
  lemma LinkStepGrows(baseDir: Path, fs: Tree, w: Walked, unpack: string -> UnpackOutcome, id: string)
    ensures var fs' := LinkStep(baseDir, fs, w, unpack, id).fs;
      forall p :: p in fs ==> p in fs' && fs'[p] == fs[p]
  {
    if id in w.layers && unpack(id).Unpacked? {
      SaveParentFrame(baseDir, fs, Linked(w, id));
    }
  }

  /** The loop never takes away or changes what was on the disk. */
  lemma {:induction false} ConstructLoopGrows(baseDir: Path, fs: Tree, order: seq<string>, w: Walked,
                                              unpack: string -> UnpackOutcome,
                                              links: map<string, string>, digests: map<string, string>)
    ensures var b := ConstructLoop(baseDir, fs, order, w, unpack, links, digests);
      forall p :: p in fs ==> p in b.fs && b.fs[p] == fs[p]
    decreases |order|
  {
    if order != [] {
      var id := order[0];
      LinkStepGrows(baseDir, fs, w, unpack, id);
      if LinkStep(baseDir, fs, w, unpack, id).GoOn? {
        var fs' := LinkStep(baseDir, fs, w, unpack, id).fs;
        ConstructLoopGrows(baseDir, fs', order[1..], w, unpack, SetLink(links, w, id),
                           digests[unpack(id).Reported() := id]);
      }
    }
  }

  /** The layer `id` unpacked cleanly and has a collected parent, so the
      loop saves its parent ID: its parents file is then a regular file. */
  predicate ParentSavedIn(baseDir: Path, fs: Tree, w: Walked, unpack: string -> UnpackOutcome, id: string) {
    id in w.layers && unpack(id).Unpacked? && ParentIdOf(w, id) in w.layers ==>
      ParentsPath(baseDir, w.layers[id].id) in fs && fs[ParentsPath(baseDir, w.layers[id].id)].Regular?
  }

  /** A layer the loop goes on from has its parents file saved. */
  lemma LinkStepSaves(baseDir: Path, fs: Tree, w: Walked, unpack: string -> UnpackOutcome, id: string)
    ensures var r := LinkStep(baseDir, fs, w, unpack, id);
      r.GoOn? ==> ParentSavedIn(baseDir, r.fs, w, unpack, id)
  {
  }

  /** A loop that finishes leaves a parents file for every layer of the
      range that unpacked cleanly and has a collected parent. */
  lemma {:induction false} ConstructLoopSaves(baseDir: Path, fs: Tree, order: seq<string>, w: Walked,
                                              unpack: string -> UnpackOutcome,
                                              links: map<string, string>, digests: map<string, string>)
    ensures var b := ConstructLoop(baseDir, fs, order, w, unpack, links, digests);
      b.err.None? ==> forall i :: 0 <= i < |order| ==> ParentSavedIn(baseDir, b.fs, w, unpack, order[i])
    decreases |order|
  {
    if order != [] && LinkStep(baseDir, fs, w, unpack, order[0]).GoOn? {
      var id := order[0];
      var fs' := LinkStep(baseDir, fs, w, unpack, id).fs;
      var links', digests' := SetLink(links, w, id), digests[unpack(id).Reported() := id];
      LinkStepSaves(baseDir, fs, w, unpack, id);
      ConstructLoopSaves(baseDir, fs', order[1..], w, unpack, links', digests');
      ConstructLoopGrows(baseDir, fs', order[1..], w, unpack, links', digests');
      forall i | 1 <= i < |order| ensures order[i] == order[1..][i - 1] {
      }
    }
  }
}
