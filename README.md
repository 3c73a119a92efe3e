# overmount, modelled in Dafny

Overmount is a Go library that stacks Docker image layers into overlayfs
mounts. This project models its bookkeeping core and proves properties of
that model. The kernel, the tar and JSON byte formats, and the goroutines
are left out.

- **Repository** (`repository.dfy`, module `Repositories`). This is a class
  with a base directory, a disk, a registry from layer ID to layer that
  refuses duplicates, and the ordered list of mounts. It also holds:
  - the check that refuses directories outside the base directory;
  - the Repository-side half of `layer.go`: creating layers, and saving,
    loading and restoring parent links.
- **Layers** (`layer.dfy`, module `Layers`).
  - A layer is a value: an ID and an optional parent layer.
  - A layer's paths derive from the base directory and its ID.
  - The parents file is specified as functions over the disk (`SaveParentSpec`,
    `LoadParentSpec`, `RestoreSpec`). The repository's methods are proved
    equal to those functions.
- **Disk** (`filesystem.dfy`, module `FileSystem`). The filesystem is a map
  from path to entry: directory, regular file with contents, symlink, other
  special file, or an entry whose lookup fails. `checkDir` from `util.go` is
  a method over that disk.
- **Paths** (`paths.dfy`). A path is a list of cleaned components.
  `filepath.Rel` is computed on those components.
- **Mount** (`mount.dfy`). This is the overlay mount record: a class whose
  `mounted` flag `Open` and `Close` flip. The kernel's answers are passed in:
  success or failure for the mount, and the error (or none) for the unmount
  and for the removal of the work directory.
- **Image** (`image.dfy`). This is the stack of mounts that `Mount` pushes in
  layer order and `Unmount` pops from the top. Each layer's mount, and each
  close, is passed in as an outcome.
- **Docker export** (`export.dfy`). This is the entry sequence of the legacy
  `docker save` archive, as section "Combined Image JSON + Filesystem
  Changeset Format" of the Docker Image Specification v1.2 describes it:
  - for each layer of the chain, a directory entry, its `json` and its
    `layer.tar`;
  - then `repositories`, `manifest.json` and `<top ID>.json`.
- **Docker import** (`import.dfy`). The walk of the unpacked archive
  validates each layer record and fills the file map, the parent map and
  the layers. `constructImage` then links parents, unpacks, saves parent
  IDs, and picks the top layer by the last diff ID. The two variants,
  `imgio/docker_import.go` and `imgio/docker.go`, differ only in which map
  the final loop ranges over. The range order is an input.
- **JSON** (`json.dfy`). A document is a tree of nulls, booleans, strings,
  arrays and objects. An object is a list of fields, and a lookup finds the
  last field with the key, which is what decoding into a Go map keeps.

Outcomes that the model does not compute are parameters. These are the
kernel's mount and unmount, the removal of a work directory, whether a
MkdirAll succeeds, the random names `ioutil.TempDir` draws, packing and
unpacking a layer, the digest, `json.Marshal`, and Go's map iteration
order.

## Model

| member | source | states |
|---|---|---|
| Repositories.Repository.constructor | repository.go:19-26 | A new repository has the given base directory, no layers and no mounts. |
| Repositories.Repository.AddLayer | repository.go:79-87 | A registered ID gives LayerExists and leaves the registry unchanged. A fresh ID adds exactly that binding. |
| Repositories.Repository.RemoveLayer | repository.go:90-95 | Only that ID goes. Nothing changes when it is absent; otherwise the count drops by one. |
| Repositories.Repository.AddMount | repository.go:98-103 | Appends at the end and returns nil. Existing mounts keep their order. |
| Repositories.Repository.RemoveMount | repository.go:106-115 | The intended removal (see Findings): every entry that is the mount goes, and the rest keep their order. |
| Repositories.RemoveEqual | repository.go:106-115 | The mount is absent from the result. Every other entry stays, nothing new appears, and a list without the mount is unchanged. |
| Repositories.RemoveEqualSingle | repository.go:106-115 | With exactly one equal entry at index k, the result is the list without index k. |
| Repositories.RemoveEqualCount | repository.go:106-115 | The intended removal takes out one entry per occurrence of the mount. |
| Repositories.RemoveAsWrittenSingle | repository.go:106-115 | With exactly one equal mount, the loop as written removes it, keeps the others in order, and agrees with the intended removal. |
| Repositories.AddThenRemove | repository.go:98-115 | Adding a mount that was not there and then removing it gives back the original list. |
| Repositories.RemoveAsWrittenPanicsOnDuplicate | repository.go:106-115 | The loop as written panics on a list holding the same mount twice. |
| Repositories.FirstFree | repository.go:34 | The first candidate name not yet taken under `<base>/tmp`: every earlier one is taken, and this one is free (or none is). |
| Repositories.TempDirSpec | repository.go:29-35 | Succeeds exactly when `<base>/tmp` is or can be made a directory and some candidate name is free under it. It then returns the first free name's directory. The new disk is the old one with `tmp` made a directory and that one directory added. On failure, only the making of `tmp` can have changed the disk, and with `tmp` in place the error is "already exists". |
| Repositories.Repository.TempDir | repository.go:29-35 | Its result and new disk are TempDirSpec's: MkdirAll of `tmp`, then os.Mkdir of each candidate name, passing over the names already taken, as ioutil.TempDir retries. When `tmp` is missing and cannot be made, it fails and the disk is unchanged. |
| Repositories.Repository.NewMount | repository.go:41-59 | Succeeds exactly when TempDir does, and leaves TempDir's disk. On success the mount is new and unmounted, with target, lower and upper as given and TempDir's directory as its work directory. It is appended to the mounts. A failure has cause MountCannotProceed and registers nothing. |
| Repositories.RelCheckAsWrittenAccepts | repository.go:61-72 | The check as written accepts a cleaned path exactly when it lies within the base directory or is the base directory's parent. |
| Repositories.RelCheckAsWrittenLetsParentThrough | repository.go:61-72 | The parent of the base directory lies outside it, yet the check as written accepts it. |
| Repositories.RelCheckAcceptsWithin | repository.go:61-72 | The corrected check accepts exactly the paths within the base directory. It refuses the others with cause MountCannotProceed. |
| Repositories.Repository.MkdirCheckRel | repository.go:61-72 | Uses the corrected check, RelCheck (see Findings). A refused path leaves the disk unchanged. An accepted missing path is created exactly when MkdirAll succeeds. |
| FileSystem.CheckDir | util.go:10-32 | An absent path is created (nil), or on failure the caller's error is wrapped. A lookup error is returned unchanged. A non-directory, symlinks included, gives the wrapped "not a directory". An existing directory gives nil. Only the creation changes the disk. |
| Mounts.MakeMountOptions | mount.go:12-18 | Fails exactly when the lower directory is empty, with cause MountCannotProceed. |
| Mounts.MountOptionsRoundTrip | mount.go:17 | With comma-free fields, splitting the options at commas gives exactly `upperdir=U`, `lowerdir=L`, `workdir=W`, in that order. |
| Mounts.Mount.constructor | repository.go:47-52 | The mount record holds target, lower, upper and work as given and is not mounted. |
| Mounts.Mount.Open | mount.go:21-33 | An empty lower directory fails with cause MountCannotProceed before any mount. Otherwise Open succeeds exactly when the mount call does. The flag becomes true only on success. |
| Mounts.Mount.Close | mount.go:36-47 | Succeeds exactly when both the unmount and the work-directory removal succeed. A failed unmount is returned as it is, and otherwise the removal's error is. Only on success is the flag cleared; otherwise it is unchanged. |
| Mounts.Mount.Mounted | mount.go:50-52 | Returns the flag and changes nothing. |
| Images.FirstFailure | image.go:4-15 | The number of leading layers that mount: all of them succeed, and the next one fails. |
| Images.Image.Mount | image.go:4-15 | Appends one mount per layer, in layer order, up to the first failure. It returns that failure and keeps the earlier mounts, unmounting nothing. |
| Images.Remaining | image.go:19-29 | How many mounts stay: every mount above that point closes, and the topmost one that stays failed to close. |
| Images.RemainingBelow | image.go:19-29 | Closing from mount x-1 downward: the count left is at most x, every mount between it and x closes, and the topmost mount left failed to close. |
| Images.Image.Unmount | image.go:19-29 | Leaves exactly the prefix not yet closed. It returns nil exactly when that prefix is empty, and otherwise the error of the close that failed, the top of that prefix. Every mount closed is no longer mounted. Every mount kept keeps its flag, unless the same mount also sits higher up and was closed there. |
| Images.RemainingAllOk | image.go:19-29 | When every close succeeds, the list ends empty. An empty list stays empty. |
| Images.RemainingSplit | image.go:17-28 | An unmount of `lower + upper` works through `upper` first. It reaches into `lower` only when all of `upper` closes, exactly as a second Unmount over the prefix would. |
| Images.RemainingStable | image.go:17-28 | A retry that meets the same outcomes stops where the first attempt stopped. |
| Layers.LayoutShape | layer.go:68-89 | The mount path is `<base>/mount/<id>`, the store path `<base>/layers/<id>/rootfs` and the parents file `<base>/layers/<id>/parents.json`, all within the base directory. |
| Layers.LayoutInjective | layer.go:68-89 | Different IDs get different mount paths, store paths and parents files. No parents file is another layer's store path. |
| Layers.AssetCheck | layer.go:49-52 | NewAsset's check passes exactly when the store path is absent, or is there, readable and not a symlink. A symlink gives "cannot operate on a symlink". |
| Layers.LayoutDisjoint | layer.go:68-89 | A layer's base directory is never a store path, and different IDs get different base directories. |
| Repositories.Repository.NewLayerIn | layer.go:30-55 | With `create`, a failed layer directory returns the layer with the error and registers nothing. A registered ID gives LayerExists and no layer. Otherwise the layer is registered, and the store-path check decides the error and whether the layer is returned. |
| Repositories.Repository.CreateLayer | layer.go:19-21 | newLayer with `create`. The disk gains the layer directory only when it was missing and could be made. If the directory cannot be had, the layer comes back with the error and nothing is registered. Once it is there, a registered ID gives LayerExists and no layer. Otherwise the layer is registered and the store-path check decides the error. On a disk without the layer's directories, with the directory made, an unregistered ID succeeds and gives the layer. |
| Repositories.Repository.NewLayer | layer.go:26-28 | As newLayer without creating anything on disk: LayerExists for a registered ID, otherwise the layer is registered. When the store path is not on the disk yet, an unregistered ID succeeds and gives the layer. |
| Repositories.Repository.OverwriteParent | layer.go:111-117 | Equals OverwriteParentSpec: no parent writes nothing; otherwise the parent's ID is written to the parents file, or the write's error is returned with the disk unchanged. |
| Repositories.Repository.SaveParent | layer.go:92-108 | Equals SaveParentSpec. No parent writes nothing. A missing parents file is written; an existing regular file is kept. Another kind of entry gives InvalidLayer, and another lookup error is returned. |
| Layers.SaveParentFrame | layer.go:92-108 | Saving writes nothing but the layer's parents file, and only when it was absent. |
| Layers.SaveParentIdempotent | layer.go:92-108 | Once a save succeeds, saving again succeeds and changes nothing. |
| Layers.SaveThenLoad | layer.go:92-147 | Saving into an existing layer directory, then loading, gives the layer a parent with the saved ID and registers that parent. |
| Repositories.Repository.LoadParent | layer.go:121-147 | Equals LoadParentSpec, and the disk is unchanged. A missing or empty file changes nothing. A stored ID is registered first, then the parent is set only if its store path and directory check out. |
| Layers.AdoptParent | layer.go:134-146 | The registry either stays as it was or gains exactly the read ID, which was unregistered. The layer either stays or gets exactly that parent, with no error. |
| Layers.LoadStep | layer.go:121-147 | For a chain stored on disk, loading the head's parent gives it the next ID as parent and registers that ID. |
| Layers.LoadParentProgress | layer.go:150-160 | Each load either changes nothing or registers a stored ID that was unregistered. This is the measure on which RestoreParent terminates. |
| Repositories.Repository.RestoreParent | layer.go:150-160 | Equals RestoreSpec, the recursion down the stored parents, and the disk is unchanged. |
| Layers.RestoreRebuildsChain | layer.go:150-160 | After parents are saved for a chain of distinct IDs, restoring the top rebuilds exactly that chain, with no error. |
| Layers.RestoreStopsOnCycle | layer.go:150-160 | A stored chain that points back into itself fails with LayerExists. |
| Layers.RestoreStopsOnRegistered | layer.go:150-160 | A stored chain that reaches an already registered ID fails with LayerExists. |
| Repositories.Repository.Remove | layer.go:181-184 | The layer's ID leaves the registry. Removal succeeds exactly when the kernel allows it or the store path is already absent. The store path and everything below it then leave the disk; on failure the disk is unchanged. |
| Layers.Chain | imgio/docker_export.go:46 | The walk down the parent links starts at the layer itself. |
| Layers.ChainShape | imgio/docker_export.go:44-47 | The ID list matches the chain one for one. Each element's parent is the next element, and the last has none. |
| DockerExport.ExportSpec | imgio/docker_export.go:18-30 | A missing layer or an unreadable configuration fails with cause InvalidLayer. A missing configuration fails with cause ImageCannotBeComposed. Otherwise an archive comes back, closed with the error of the layer walk. |
| DockerExport.Export | imgio/docker_export.go:18-211 | The stream equals ExportSpec: the layer entries, then the trailer when every layer packed. |
| DockerExport.WriteLayers | imgio/docker_export.go:44-130 | The loop down the parent links writes exactly ExportRun: three entries per layer, and the IDs in chain order. |
| DockerExport.ExportRunOk | imgio/docker_export.go:46-130 | The layer walk ends without error exactly when every layer of the chain packs. |
| DockerExport.ExportRunIds | imgio/docker_export.go:44-130 | When every layer packs, the walk ends without error, its IDs are the chain from the exported layer to the root, and it writes three entries per layer. |
| DockerExport.ExportRunLayout | imgio/docker_export.go:44-130 | When every layer packs, the IDs are the chain's IDs, from the exported layer down to the root. Entries 3i..3i+2 are layer i's directory, `id/json` and `id/layer.tar`. |
| DockerExport.ExportRunStopsAtFailure | imgio/docker_export.go:49-70 | When layer k is the first that fails to pack, the stream holds the 3k entries before it plus layer k's directory entry, and ends with that error. |
| DockerExport.ExportLayout | imgio/docker_export.go:132-201 | After the layers come exactly `repositories`, `manifest.json` and `<top>.json`. The manifest names `<top>.json` and the chain's IDs, and the last entry holds the configuration. |
| DockerExport.LayerJsonNamesChain | imgio/docker_export.go:83-92 | Each layer's JSON has "id" equal to its ID, and "parent" equal to the next layer's ID or "" for the root. |
| DockerExport.ExportSizesMatch | imgio/docker_export.go:98-201 | Every header's size equals the length of the content written after it. This holds by construction, because an entry's header size is computed from its content. |
| DockerExport.RunSizesMatch | imgio/docker_export.go:98-129 | The same, for the entries of the layer walk, and by the same construction. |
| JsonDocs.Get | imgio/docker_import.go:108-123 | None exactly when no field has the key. Otherwise the value is the one held by the last field with that key, as decoding into a Go map keeps it. |
| DockerImport.ParseRecord | imgio/docker_import.go:108-132 | A missing id gives "missing layer id"; a `null` document decodes to a nil map, so its id counts as missing too. A non-string id, `null` included, gives "invalid layer id", since the key is present. A present non-string parent gives "invalid parent ID". An absent parent gives no parent ID; otherwise the parent ID is returned. |
| DockerImport.ExportedRecordParses | imgio/docker_import.go:116-132 | The record Export writes for a layer passes these checks and gives back its ID and its parent's ID, "" for the root. |
| DockerImport.DecodeIdArray | imgio/docker_import.go:146 | Decoding a "diff_ids" array into the slice held so far succeeds exactly when every element is a string or null. The slice then takes the array's length; a string sets its slot, and a null keeps the old ID (or "" beyond the old length). |
| DockerImport.DecodeRootFS | imgio/docker_import.go:146 | A "rootfs" object decodes exactly when every "diff_ids" field in it is null or an array of strings and nulls. Without "diff_ids" the IDs are unchanged. |
| DockerImport.DecodeImage | imgio/docker_import.go:146 | A configuration object decodes exactly when every "rootfs" field is null or a decodable object, each merged in turn. Without "rootfs" the IDs are unchanged. |
| DockerImport.DecodeDiffIds | imgio/docker_import.go:140-148 | A configuration decodes exactly when it is null or a decodable object. A configuration without "rootfs" keeps the diff IDs decoded before it. |
| DockerImport.StringsDecode | imgio/docker_import.go:146 | An array of strings decodes to exactly those strings, whatever the slice held before. |
| DockerImport.LastDiffIdsDecide | imgio/docker_import.go:146 | In a decodable "rootfs" object, the last "diff_ids" decides. An array of strings gives exactly those strings, and null gives the empty list. |
| DockerImport.ConfigDiffIds | imgio/docker_import.go:140-148 | In a decodable configuration, the last "diff_ids" of the last "rootfs" object decides, whatever was decoded before. An array of strings gives exactly those strings, and null gives the empty list. |
| DockerImport.UnpackLayers | imgio/docker_import.go:92-157 | A walk that fails on its own (bad record, repeated ID, bad configuration) makes the method fail. The method succeeds when the walk succeeds on its own and its layers are new to the registry and the disk, with their directories made. On success, the method's result is what the walk collects. Its IDs were not registered before, and the registry gains exactly its layers. Success or not, every layer registered before stays as it was. Each layer added is a fresh layer named by a valid record of the walk. The walk in imgio/docker.go:115-180 is the same. |
| DockerImport.WalkCollects | imgio/docker_import.go:101-151 | After a successful walk, every `layer.tar` record is valid and collected (file, parent ID, layer), nothing else is collected, the layers are exactly the files, and parent IDs are noted only for them. |
| DockerImport.CollectKeeps | imgio/docker_import.go:101-151 | Later visits never lose or change what earlier records put in the maps. |
| DockerImport.CollectRecords | imgio/docker_import.go:116-139 | Each layer record met in a successful walk is valid and fully collected. |
| DockerImport.CollectOnly | imgio/docker_import.go:101-151 | A successful walk collects no ID that some valid layer record does not name. |
| DockerImport.CollectedIdFails | imgio/docker_import.go:134-139 | A record whose ID is already collected makes the walk fail. |
| DockerImport.DuplicateIdFails | imgio/docker_import.go:134-139 | Two layer records with the same ID make the walk fail. |
| DockerImport.Linked | imgio/docker_import.go:67 | The layer gets as parent the collected layer of its noted parent ID. It gets none when that ID is absent or unknown. |
| DockerImport.SetLink | imgio/docker_import.go:67 | Setting one layer's link sets it as the walk says and leaves every other link unchanged. |
| DockerImport.ConstructLinks | imgio/docker_import.go:55-81 | The loop, saving parents through the repository, equals ConstructLoop. |
| DockerImport.ConstructImage | imgio/docker_import.go:52-90 | Equals ConstructSpec: the loop, then the layer filed under the last diff ID, returned together with the outcome of saving the configuration. |
| DockerImport.ConstructLoopLinks | imgio/docker_import.go:55-81 | A loop that finishes met only collected layers and set each one's link as the walk says. It links nothing outside the range, and files each digest under a layer whose unpack reported it. |
| DockerImport.ConstructLoopKeepsLink | imgio/docker_import.go:55-81 | A link once set stays as set for the rest of the loop. |
| DockerImport.TopIsFiled | imgio/docker_import.go:83-89 | A returned top layer is a collected layer of the range. Its unpack reported the last diff ID, its link is set, and the error returned with it is the save-configuration outcome. |
| DockerImport.ConstructLoopFilesAll | imgio/docker_import.go:55-81 | A loop that finishes keeps the digests filed before it and files the digest each layer of the range reported. |
| DockerImport.TopFound | imgio/docker_import.go:83-89 | Once the loop finishes with diff IDs present, a top layer is returned exactly when some layer of the range reported the last diff ID. Otherwise the error is "top layer doesn't appear to exist". |
| DockerImport.EmptyDiffIdsPanics | imgio/docker_import.go:83 | With no diff IDs there is never a top layer. A loop that finishes reaches the index and panics. |
| DockerImport.ConstructLoopGrows | imgio/docker_import.go:71-78 | The loop never removes or changes what was on the disk. |
| DockerImport.ConstructLoopAborts | imgio/docker_import.go:71-78 | When every layer before position k goes through and layer k's unpack fails with an error other than "already exists", the loop stops with that error. No ID after k is consulted. |
| DockerImport.ImportAbortsOnUnpackError | imgio/docker_import.go:52-90 | The import then returns that error and no top layer. |
| DockerImport.ConstructLoopSaves | imgio/docker_import.go:71-78 | After a loop that finishes, every layer that unpacked cleanly and has a collected parent has its parents file. |
| DockerImport.UnpacksOnlyRange | imgio/docker.go:78-104 | The loop consults unpack outcomes only for IDs in its range. A layer whose record has no "parent" is never unpacked by imgio/docker.go. |
| DockerImport.ByParentsTop | imgio/docker.go:78-112 | Ranging over the parent map, the top layer is always one whose record names a parent. |

## Left out

- Mount.Equals (used by RemoveMount) is not part of this model. Equality of mounts is the identity of the mount object.
- The repository's lock file and mutex (`edit`) are left out. Each edit is one atomic step.
- NewRepository's MkdirAll of the base directory is left out. The constructor only builds the record.
- MkdirAll is modelled as creating the one missing directory, with its success as an input. Missing ancestors are not created.
- Symbolic links are never followed: `os.Stat` is modelled as `os.Lstat`, so `LoadParent` sees a symlinked layer directory as not a directory.
- Layer is a value, not a pointer. Layers that share a parent pointer are modelled as equal values. In constructImage, the `layer.Parent` assignments are returned as a map from layer ID to parent ID instead of updating shared objects.
- DockerImport.ConstructImage: returns the top layer's ID and the parent links. It does not return a layer object whose parent pointers were set through that aliasing.
- The goroutine and `io.Pipe` of Export are left out. The archive is the entry sequence with the error the stream is closed with.
- Tar header encoding and the tar writer's own errors are left out, and so are temporary-file creation, Seek and Stat failures. Packing a layer is one outcome per layer ID.
- `json.Marshal` is a parameter. JSON decoding errors of the raw bytes are part of the visit's input.
- Unpack and Pack, the SHA-256 digests, SaveConfig, and opening a layer file are outcomes passed in.
- Layer.Mount (mounting one layer for an image) is not part of this model. Its result per layer is an input to Image.Mount.
- DockerImport.DecodeDiffIds: models only the `rootfs.diff_ids` part of decoding an image configuration. A type error in another field of the configuration (such as a non-string `rootfs.type`) is not modelled. Go's case-insensitive matching of struct field names is not modelled either.
- DockerImport.DecodeIdArray: a null element beyond the old length gives "". Go keeps whatever the slice's spare capacity held there, and capacity is not modelled.
- JSON numbers are not part of the document model, so configurations and layer records carrying numbers are outside it.
- The directory walk is an input: the visited paths in walk order, each with the JSON decoded for it. Errors the walk itself reports to its callback are not modelled.
- Layer IDs are treated as single path components. Paths are lists of cleaned components, and `filepath.Clean` of arbitrary strings is not modelled.
- Repositories.Repository.TempDir: the candidate names are an input of exactly 10000 names, the attempts ioutil.TempDir makes. Its reseeding after repeated collisions is not modelled. os.Mkdir inside a `tmp` that is a directory fails only when the name is taken, so permission failures there are not modelled.
- Repositories.Repository.NewMount: the text of the TempDir error that NewMount wraps is abstract. Only its cause, MountCannotProceed, is kept.
- Error messages are kept where the code fixes them. Messages built from OS errors are abstract.
- The `Import` entry points (temporary directory, untar, cleanup) are I/O glue and are left out. Only `unpackLayers` and `constructImage` are modelled.
- Layers.AssetCheck: asset.go:20-29 as shown takes a digest and fails on a store path that is not there yet. newLayer (layer.go:49) calls a different revision, passing a digester, and the tests of that revision accept a missing path (asset_test.go:36-37, layer_test.go:15-16, overmount_test.go:67). The model follows the called revision: an absent store path passes. The symlink refusal and the other lookup errors are kept as asset.go:20-29 has them.

## Findings

| source | as written | input that shows it | evidently intended | confidence | as-written member | corrected member |
|---|---|---|---|---|---|---|
| repository.go:61-72 | Refuses a path only when its form relative to the base directory starts with `../` | base `/srv/om`, path `/srv`: `filepath.Rel` gives `..`, which has no `../` prefix, so `/srv` is accepted and MkdirAll runs outside the repository | Refuse every path outside the base directory, including its parent (`..`) | high; not executed | Repositories.RelCheckAsWrittenLetsParentThrough | Repositories.RelCheckAcceptsWithin |
| repository.go:106-115 | Splices `r.mounts` inside a `range` over the same slice, so the range keeps visiting the old backing array | mounts `[m, m]`, remove `m`: the first splice leaves length 1, then at index 1 the stale slot still holds `m` and `r.mounts[2:]` is out of range, a panic | Remove the mount (every occurrence), keeping the other mounts in order | high; not executed | Repositories.RemoveAsWrittenPanicsOnDuplicate | Repositories.RemoveEqualCount |
