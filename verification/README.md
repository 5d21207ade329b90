# DogCuisine sync and editing rules in Dafny

This project models the core of the DogCuisine Android recipe app:

- **The incremental WebDAV sync engine** (`WebDavSyncManager`).
  - An upload lists the local files: the three database files of a snapshot, then the `images/` tree.
  - It reads `manifest.json` from the server.
  - It PUTs every file that is new or whose digest or size changed, and DELETEs every path the old manifest lists that is no longer local.
  - Only then does it PUT a fresh version-1 manifest.
  - A restore reads the manifest, which must exist. It downloads every listed file into a workspace, refusing paths outside it and checking each digest. Only when every file has passed does it replace the local database files and images.
- **The coalescing automatic upload** of `App`: two atomic flags and a single-thread executor. Also in `App`, the cleanup of image files no recipe refers to and the seeding of default categories.
- **The rule sets of the editing screens:**
  - level thresholds (`LevelConfig`) and the level-up decision;
  - image subsampling and the JPEG quality schedule;
  - step and ingredient-image list edits;
  - category reordering, renumbering and the delete set;
  - the `StepItem` record;
  - the stored WebDAV configuration.

Code that works by changing state is imperative Dafny:
- classes with `modifies` clauses for the sync manager, the server store and the device files;
- the auto-sync controller's fields;
- the adapter's list and the category entities;
- the recipe screen's step list and ingredient;
- `StepItem`.

Every such method is proved against a pure specification function, and the properties the app relies on are lemmas about those functions:
- the upload is `SyncUpload.UploadRun`;
- the restore download loop is `SyncRestore.StagePhase`;
- one step of the worker is `App.Step`.

The server is a map from URL to bytes. The status it answers with is a parameter, `env.status`. An accepted PUT stores its body, an accepted DELETE removes the object (404 counts as accepted), and any other request changes nothing.

These are parameters of the model, bundled in `SyncProtocol.Env` and `RemoteNaming.Codec`:
- SHA-256 (FIPS 180-4) as lower-case hex;
- UTF-8;
- the base64url alphabet of section 5 of RFC 4648 without the padding of section 3.2;
- Gson in both directions;
- `File.getCanonicalPath`;
- the iteration order of a `HashMap`'s key set.

The lemmas that need them assume only what `ValidEnv`/`ValidCodec` state:
- the encoders are injective;
- base64url emits only alphabet characters;
- parsing a written manifest gives it back;
- the key order lists each key once.

`URLEncoder` followed by `replace("+", "%20")` is modelled character by character.

Three behaviours of the code are easy to misread; the model has them as the code does:
- `WebDavSyncConfig.load` trims the password like the other fields.
- A manifest GET answered 200 whose body Gson reads as `null` counts as "no manifest".
- `AddRecipeActivity.saveRecipe` passes a favourite flag to the `RecipeEntity` constructor, so the entity carries one (`RecipeEntity.java` is not part of this model).

## Model

| member | source | states |
|---|---|---|
| WebDavSyncManagerImpl.RemoteStore.Send | app/src/main/java/com/dogcuisine/sync/WebDavSyncManager.java:318-371 | one request to the server: it is logged, gets the status the server answers in its current state, a GET reads the stored object, and the store changes exactly as an accepted PUT/DELETE prescribes |
| WebDavSyncManagerImpl.WebDavSyncManager.DownloadManifestIfExists | app/src/main/java/com/dogcuisine/sync/WebDavSyncManager.java:267-292 | issues one GET of the manifest URL, changes no stored object, and returns what `FetchManifest` says the answer means |
| WebDavSyncManagerImpl.WebDavSyncManager.PutChangedFiles | app/src/main/java/com/dogcuisine/sync/WebDavSyncManager.java:67-74 | the PUT loop leaves the store, the request log and the outcome exactly as `PutPhase` prescribes, stopping at the first rejected PUT |
| WebDavSyncManagerImpl.WebDavSyncManager.PutFile | app/src/main/java/com/dogcuisine/sync/WebDavSyncManager.java:318-338 | one PUT: logged once, its status is the server's answer, and the body is stored only when the status is 200, 201 or 204 |
| WebDavSyncManagerImpl.WebDavSyncManager.DeleteStaleFiles | app/src/main/java/com/dogcuisine/sync/WebDavSyncManager.java:76-86 | the DELETE loop over the old manifest's paths in key order leaves store, log and outcome as `DeletePhase` prescribes |
| WebDavSyncManagerImpl.WebDavSyncManager.DeleteFileIfExists | app/src/main/java/com/dogcuisine/sync/WebDavSyncManager.java:360-371 | one DELETE: logged once, and the object is removed only when the status is 200, 202, 204 or 404 |
| WebDavSyncManagerImpl.WebDavSyncManager.Upload | app/src/main/java/com/dogcuisine/sync/WebDavSyncManager.java:51-102 | the whole upload leaves store, log and outcome exactly as `UploadRun` over the gathered local files prescribes; the lemmas of `SyncUpload` then hold of it |
| SyncUpload.NeedsPut | app/src/main/java/com/dogcuisine/sync/WebDavSyncManager.java:69-70 | an entry is uploaded when its path is not in the remote map or its digest or size differs |
| SyncUpload.DataPut | app/src/main/java/com/dogcuisine/sync/WebDavSyncManager.java:71-72 | the PUT of a local file: its bytes to the data URL of its path |
| SyncUpload.DataDelete | app/src/main/java/com/dogcuisine/sync/WebDavSyncManager.java:81-86 | the DELETE of a stale remote path's data URL |
| SyncUpload.PutPhase | app/src/main/java/com/dogcuisine/sync/WebDavSyncManager.java:67-79 | the first loop: every entry that needs it is PUT, in local order, and a rejected PUT ends the upload with its status |
| SyncUpload.DeletePhase | app/src/main/java/com/dogcuisine/sync/WebDavSyncManager.java:81-86 | the second loop: every remote path, in map order, that is not local is DELETEd, and a rejected DELETE ends the upload |
| SyncUpload.RemoteMap | app/src/main/java/com/dogcuisine/sync/WebDavSyncManager.java:61-65 | the map the loops compare against: the fetched manifest's map, empty when there is none |
| SyncUpload.ManifestPut | app/src/main/java/com/dogcuisine/sync/WebDavSyncManager.java:88-102 | the final PUT of the version-1 manifest listing every local entry, as JSON in UTF-8, to the manifest URL |
| SyncUpload.UploadRun | app/src/main/java/com/dogcuisine/sync/WebDavSyncManager.java:51-102 | fetch the manifest (a failed fetch ends the upload), run the PUT loop, then the DELETE loop, then PUT the new manifest |
| WebDavSyncManagerImpl.WebDavSyncManager.StageFiles | app/src/main/java/com/dogcuisine/sync/WebDavSyncManager.java:114-129 | the download loop changes no stored object, logs exactly `StagePhase`'s requests and returns its staged files or the error that stopped it |
| WebDavSyncManagerImpl.WebDavSyncManager.StageItem | app/src/main/java/com/dogcuisine/sync/WebDavSyncManager.java:115-129 | one pass of the download loop: its requests and either the error that ends the loop (including a file that cannot be written because its target nests with a staged one) or the file it stages, so that the rest of the loop continues `StagePhase` |
| WebDavSyncManagerImpl.WebDavSyncManager.DownloadFile | app/src/main/java/com/dogcuisine/sync/WebDavSyncManager.java:340-358 | one GET: logged once, returns the server's status and stored object, and changes no stored object |
| WebDavSyncManagerImpl.WebDavSyncManager.RestoreFromWorkspace | app/src/main/java/com/dogcuisine/sync/WebDavSyncManager.java:192-215 | after the swap the device holds exactly the staged database files and staged images, with their staged contents |
| WebDavSyncManagerImpl.WebDavSyncManager.CopyFileIfExists | app/src/main/java/com/dogcuisine/sync/WebDavSyncManager.java:245-253 | a missing source leaves the device as it was; otherwise the target gets the source's bytes and nothing else changes |
| WebDavSyncManagerImpl.WebDavSyncManager.DownloadAndRestore | app/src/main/java/com/dogcuisine/sync/WebDavSyncManager.java:104-133 | changes no stored object and logs `RestoreRun`'s requests; on success the device holds the restored files, and on any error it is untouched |
| SyncProtocol.FetchManifest | app/src/main/java/com/dogcuisine/sync/WebDavSyncManager.java:267-292 | 404, or 200 with a JSON `null`, means no manifest; 200 with a readable body gives that manifest; 200 with an unreadable body is `ManifestCorrupt`; any other status is an HTTP error carrying it |
| SyncProtocol.NewManifest | app/src/main/java/com/dogcuisine/sync/WebDavSyncManager.java:88-99 | the published manifest has version 1 and the upload time, and lists exactly the local entries in local order with path, digest and size copied |
| SyncProtocol.Paths | app/src/main/java/com/dogcuisine/sync/WebDavSyncManager.java:77-80 | a path is in the set if and only if some local entry has it |
| SyncProtocol.NewManifestMap | app/src/main/java/com/dogcuisine/sync/WebDavSyncManager.java:88-99 | reading the published manifest back into a map yields exactly the local paths, each with its own entry |
| SyncProtocol.Effect | app/src/main/java/com/dogcuisine/sync/WebDavSyncManager.java:318-371 | an accepted PUT stores its body, an accepted DELETE (404 included) removes the object, and a GET or a rejected request changes nothing |
| SyncProtocol.Body | app/src/main/java/com/dogcuisine/sync/WebDavSyncManager.java:353-356 | a GET reads the stored object, or nothing when there is none |
| SyncProtocol.EntryRecord | app/src/main/java/com/dogcuisine/sync/WebDavSyncManager.java:92-97 | the manifest entry written for a local file: its path, digest and size |
| SyncProtocol.IsChildPath | app/src/main/java/com/dogcuisine/sync/WebDavSyncManager.java:486-490 | the child's canonical path is the parent's, or starts with the parent's followed by the separator |
| SyncUpload.PutPhaseOnlyChanged | app/src/main/java/com/dogcuisine/sync/WebDavSyncManager.java:68-74 | every request of the PUT loop is the data PUT of a local entry that is new or differs in digest or size |
| SyncUpload.PutPhaseCoversChanged | app/src/main/java/com/dogcuisine/sync/WebDavSyncManager.java:68-74 | when the PUT loop completes, every new or changed entry has been PUT |
| SyncUpload.PutPhaseRequests | app/src/main/java/com/dogcuisine/sync/WebDavSyncManager.java:68-74 | both directions together: the PUT loop puts exactly the new or changed entries |
| SyncUpload.PutPhaseFrame | app/src/main/java/com/dogcuisine/sync/WebDavSyncManager.java:68-74 | a URL no PUT addresses is left as it was |
| SyncUpload.DeletePhaseRequests | app/src/main/java/com/dogcuisine/sync/WebDavSyncManager.java:76-86 | the DELETE loop deletes only remote paths missing locally and, when it completes, all of them |
| SyncUpload.DeletePhaseFrame | app/src/main/java/com/dogcuisine/sync/WebDavSyncManager.java:76-86 | a URL no DELETE addresses is left as it was |
| SyncUpload.UploadLog | app/src/main/java/com/dogcuisine/sync/WebDavSyncManager.java:51-102 | after a successful fetch, an upload's requests are the manifest GET, the PUTs, the DELETEs if the PUTs all passed, and the manifest PUT only if both loops passed |
| SyncUpload.UploadOrder | app/src/main/java/com/dogcuisine/sync/WebDavSyncManager.java:51-102 | the manifest GET comes first; a failed fetch is the only request and changes nothing; a completed upload ends with the manifest PUT, and the server then holds the new manifest |
| SyncUpload.PhasesAvoidManifest | app/src/main/java/com/dogcuisine/sync/WebDavSyncManager.java:67-86 | no data PUT or DELETE addresses the manifest's URL |
| SyncUpload.UploadTouchesManifestLast | app/src/main/java/com/dogcuisine/sync/WebDavSyncManager.java:88-100 | after the initial GET, the only request addressing the manifest is the final manifest PUT |
| SyncUpload.FailedUploadKeepsManifest | app/src/main/java/com/dogcuisine/sync/WebDavSyncManager.java:51-102 | an upload that fails anywhere leaves the stored manifest exactly as it was |
| SyncUpload.UploadPutsExactlyChanged | app/src/main/java/com/dogcuisine/sync/WebDavSyncManager.java:68-74 | every data PUT of an upload is for a new or changed entry, and a completed upload PUT an entry if and only if it was new or changed |
| SyncUpload.UploadDeletesExactlyStale | app/src/main/java/com/dogcuisine/sync/WebDavSyncManager.java:76-86 | every DELETE is for an old-manifest path missing locally, never for the manifest or a local file's object, and a completed upload deletes all such paths |
| SyncUpload.PutPhaseBacks | app/src/main/java/com/dogcuisine/sync/WebDavSyncManager.java:68-74 | if the skipped entries were already on the server, a completed PUT loop leaves every local entry stored with its digest and size |
| SyncUpload.DeletePhaseKeepsLocal | app/src/main/java/com/dogcuisine/sync/WebDavSyncManager.java:76-86 | the DELETE loop never changes the object of a local path |
| SyncUpload.UploadKeepsConsistent | app/src/main/java/com/dogcuisine/sync/WebDavSyncManager.java:51-102 | if the old manifest was backed by the store, a completed upload leaves a readable manifest equal to the new one, every file it lists is stored with the listed digest and size, and every local entry is stored |
| SyncUpload.PutPhaseQuiet | app/src/main/java/com/dogcuisine/sync/WebDavSyncManager.java:68-74 | with nothing new or changed the PUT loop issues no request |
| SyncUpload.DeletePhaseQuiet | app/src/main/java/com/dogcuisine/sync/WebDavSyncManager.java:76-86 | with no stale path the DELETE loop issues no request |
| SyncUpload.SecondUploadIsQuiet | app/src/main/java/com/dogcuisine/sync/WebDavSyncManager.java:51-102 | uploading an unchanged local set over the manifest it published issues only the manifest GET and the manifest PUT |
| SyncUpload.UploadTwiceIsQuiet | app/src/main/java/com/dogcuisine/sync/WebDavSyncManager.java:51-102 | a second upload right after a completed one sends no data request |
| SyncRestore.Installed | app/src/main/java/com/dogcuisine/sync/WebDavSyncManager.java:192-215 | the device after the swap holds exactly the staged files that are one of the three database files or under `images/`, with the staged bytes |
| SyncRestore.Installable | app/src/main/java/com/dogcuisine/sync/WebDavSyncManager.java:192-215 | the staged paths the swap copies: the three database files and everything under `images/` |
| SyncRestore.SafeTarget | app/src/main/java/com/dogcuisine/sync/WebDavSyncManager.java:116-119 | the canonical path of the workspace file for an entry is the workspace or lies inside it |
| SyncRestore.Target | app/src/main/java/com/dogcuisine/sync/WebDavSyncManager.java:116 | the canonical path of the workspace file for a listed path |
| SyncRestore.Below | app/src/main/java/com/dogcuisine/sync/WebDavSyncManager.java:121 | a path lies strictly below a directory |
| SyncRestore.Nested | app/src/main/java/com/dogcuisine/sync/WebDavSyncManager.java:120-122 | two targets one of which would have to be a directory holding the other |
| SyncRestore.BlockedBy | app/src/main/java/com/dogcuisine/sync/WebDavSyncManager.java:120-122 | a target nests with the target of a file staged before, so `mkdirs` meets a file or `FileOutputStream` meets a directory |
| SyncRestore.Apart | app/src/main/java/com/dogcuisine/sync/WebDavSyncManager.java:115-122 | no listed target nests with a file staged before the loop, and no two listed targets nest |
| SyncRestore.Proceeds | app/src/main/java/com/dogcuisine/sync/WebDavSyncManager.java:115-129 | an entry passes its checks and its target does not nest with any staged file |
| SyncRestore.BlockedByUpdate | app/src/main/java/com/dogcuisine/sync/WebDavSyncManager.java:120-122 | after staging one more file, a path is blocked exactly when it was blocked before or nests with that file's target |
| SyncRestore.ApartCons | app/src/main/java/com/dogcuisine/sync/WebDavSyncManager.java:115-129 | a list's targets are apart exactly when the first is not blocked and the rest are apart once the first is staged |
| SyncRestore.TargetsApart | app/src/main/java/com/dogcuisine/sync/WebDavSyncManager.java:115-122 | no two local paths have nested targets in the workspace |
| SyncRestore.UploadedManifestApart | app/src/main/java/com/dogcuisine/sync/WebDavSyncManager.java:115-122 | the entries of a manifest an upload wrote are apart, starting from an empty staging area, whenever the local paths' targets are |
| SyncRestore.StagePhase | app/src/main/java/com/dogcuisine/sync/WebDavSyncManager.java:114-129 | the download loop from entry 0 on: a null entry or path, a target outside the workspace (refused before any request), a GET not answered 200, a target that cannot be written (the workspace itself, or nested with a file staged before, so that `mkdirs` or `FileOutputStream` fails), or a digest that differs from the listed one ends the restore with that error; otherwise the body is staged under the entry's path |
| SyncRestore.RestoreRun | app/src/main/java/com/dogcuisine/sync/WebDavSyncManager.java:104-133 | fetch the manifest, which must exist; a null file list is empty; stage every entry, and only if all pass replace the database files and images |
| SyncRestore.ItemOk | app/src/main/java/com/dogcuisine/sync/WebDavSyncManager.java:115-128 | an entry passes every check of the download loop: it is non-null with a path, its target is safe, its GET is answered 200 and the body's digest matches |
| SyncRestore.CopyIfPresent | app/src/main/java/com/dogcuisine/sync/WebDavSyncManager.java:245-253 | copying a file adds it with its bytes when it was staged and changes nothing else |
| SyncRestore.ImagesOf | app/src/main/java/com/dogcuisine/sync/WebDavSyncManager.java:230-243 | the image tree copied back is exactly the staged files under `images/` |
| SyncRestore.StagePhaseStep | app/src/main/java/com/dogcuisine/sync/WebDavSyncManager.java:115-129 | an entry that passes every check and whose target does not nest with a staged file costs one GET and stages its body; any other entry ends the loop with an error after at most that GET, and none for a null or outside path |
| SyncRestore.StagePhaseCompletes | app/src/main/java/com/dogcuisine/sync/WebDavSyncManager.java:115-129 | the loop completes if and only if every entry is non-null, stays in the workspace, is answered 200 and matches its digest, and no two targets (nor a target and a file staged before) nest |
| SyncRestore.StagePhaseContents | app/src/main/java/com/dogcuisine/sync/WebDavSyncManager.java:115-129 | a completed loop stages exactly the listed paths, each with the body the server stores for it |
| SyncRestore.StagePhaseRequests | app/src/main/java/com/dogcuisine/sync/WebDavSyncManager.java:115-122 | every request of the loop is a GET of a listed path whose canonical target lies inside the workspace |
| SyncRestore.RestoreVerifiesIntegrity | app/src/main/java/com/dogcuisine/sync/WebDavSyncManager.java:124-128 | a successful restore needs a manifest, installs exactly its installable paths, and every installed file has the digest the manifest lists for it |
| SyncRestore.RestoreStaysInWorkspace | app/src/main/java/com/dogcuisine/sync/WebDavSyncManager.java:115-122 | a restore starts with the manifest GET, and every later request downloads a path whose target is inside the workspace |
| SyncRestore.EmptyManifestWipesLocalData | app/src/main/java/com/dogcuisine/sync/WebDavSyncManager.java:104-133 | a manifest with no files restores an empty database and image set after the single GET |
| SyncRestore.RestoreNeedsManifest | app/src/main/java/com/dogcuisine/sync/WebDavSyncManager.java:256-264 | with no manifest on the server the restore fails with "no remote manifest" after the single GET |
| SyncRestore.LocalPathsInstallable | app/src/main/java/com/dogcuisine/sync/WebDavSyncManager.java:150-163 | every path an upload lists is one the restore installs |
| SyncRestore.InstalledKeepsInstallable | app/src/main/java/com/dogcuisine/sync/WebDavSyncManager.java:192-215 | when every staged path is installable the swap installs all of them unchanged |
| SyncRestore.StagingOfUploadedManifest | app/src/main/java/com/dogcuisine/sync/WebDavSyncManager.java:115-129 | downloading the entries of a published manifest whose files are stored and whose targets do not nest completes, staging each path with its digest and size |
| SyncRestore.RestoreOfUploadedManifest | app/src/main/java/com/dogcuisine/sync/WebDavSyncManager.java:104-133 | restoring from a store holding a published manifest and its files, whose targets do not nest, succeeds and yields each listed file with its digest and size |
| SyncRestore.UploadThenRestore | app/src/main/java/com/dogcuisine/sync/WebDavSyncManager.java:51-133 | round trip: after a completed upload of the device's files, a restore into a workspace where their targets stay inside and do not nest yields exactly those paths, each with the uploaded digest and size |
| LocalFiles.AddLocalFile | app/src/main/java/com/dogcuisine/sync/WebDavSyncManager.java:180-190 | a missing or non-regular file adds nothing; a regular file adds one entry with its path, digest, length and bytes |
| LocalFiles.CollectImageFiles | app/src/main/java/com/dogcuisine/sync/WebDavSyncManager.java:165-178 | the recursive walk appends exactly the entries of `CollectDir`, in listing order, to what was collected before |
| LocalFiles.ChildEntries | app/src/main/java/com/dogcuisine/sync/WebDavSyncManager.java:170-177 | one child of a listing: its subtree for a directory, itself for a regular file, nothing otherwise |
| LocalFiles.CollectFrom | app/src/main/java/com/dogcuisine/sync/WebDavSyncManager.java:170-177 | the children of a listing from the i-th on, depth first, in listing order |
| LocalFiles.CollectDir | app/src/main/java/com/dogcuisine/sync/WebDavSyncManager.java:165-178 | a directory's entries under the prefix; an unreadable listing contributes nothing |
| LocalFiles.GatherLocalFiles | app/src/main/java/com/dogcuisine/sync/WebDavSyncManager.java:150-163 | the local list is the three database files, if present, followed by the image tree, if it is a directory |
| LocalFiles.DbEntries | app/src/main/java/com/dogcuisine/sync/WebDavSyncManager.java:153-155 | the three database files of the snapshot, each only if present, in fixed order |
| LocalFiles.ImageEntries | app/src/main/java/com/dogcuisine/sync/WebDavSyncManager.java:157-160 | the image tree when `images/` is a directory, nothing otherwise |
| LocalFiles.BuildLocalFileEntries | app/src/main/java/com/dogcuisine/sync/WebDavSyncManager.java:150-163 | the database entries followed by the image entries |
| LocalFiles.ChildEntriesUnder | app/src/main/java/com/dogcuisine/sync/WebDavSyncManager.java:165-178 | every entry found under a child carries that child's digest and lies under the prefix joined with the child's name |
| LocalFiles.CollectFromFaithful | app/src/main/java/com/dogcuisine/sync/WebDavSyncManager.java:165-178 | every entry of a listing is faithful to its bytes and lies under one of the listed children |
| LocalFiles.CollectDirFaithful | app/src/main/java/com/dogcuisine/sync/WebDavSyncManager.java:165-178 | every collected entry carries the digest and size of its bytes and starts with the prefix |
| LocalFiles.ChildEntriesDistinct | app/src/main/java/com/dogcuisine/sync/WebDavSyncManager.java:165-178 | the entries under one child have distinct paths |
| LocalFiles.CollectFromDistinct | app/src/main/java/com/dogcuisine/sync/WebDavSyncManager.java:165-178 | the entries of a listing with distinct names have distinct paths |
| LocalFiles.CollectDirDistinct | app/src/main/java/com/dogcuisine/sync/WebDavSyncManager.java:165-178 | a directory tree whose sibling names differ and contain no '/' yields distinct paths |
| LocalFiles.DbEntriesSpec | app/src/main/java/com/dogcuisine/sync/WebDavSyncManager.java:153-155 | the database entries are faithful, distinct, and each is one of the three fixed `db/` names |
| LocalFiles.BuildLocalFileEntriesSpec | app/src/main/java/com/dogcuisine/sync/WebDavSyncManager.java:150-163 | every local entry is faithful to its bytes, database entries start with `db/`, image entries with `images/`, and paths are distinct for a well-formed tree |
| Manifest.FilesMapSpec | app/src/main/java/com/dogcuisine/sync/WebDavSyncManager.java:307-316 | a path is in the map if and only if some non-null entry has it, and it maps to the last such entry |
| Manifest.HasPath | app/src/main/java/com/dogcuisine/sync/WebDavSyncManager.java:311 | a non-null entry that carries the given path |
| Manifest.FilesMap | app/src/main/java/com/dogcuisine/sync/WebDavSyncManager.java:310-314 | entries by path; null entries and entries without a path are skipped, and a later entry for a path replaces an earlier one |
| Manifest.ManifestMap | app/src/main/java/com/dogcuisine/sync/WebDavSyncManager.java:307-316 | empty for a null manifest or a null file list, otherwise the map of its entries |
| Manifest.FilesMapOfDistinct | app/src/main/java/com/dogcuisine/sync/WebDavSyncManager.java:307-316 | with distinct paths, each entry is found under its own path |
| Manifest.ToManifestMap | app/src/main/java/com/dogcuisine/sync/WebDavSyncManager.java:307-316 | the loop builds `ManifestMap`, which is empty for a null manifest or file list, skips null entries and paths, and keys every entry by its own path |
| RemoteNaming.StripTrailingSlashes | app/src/main/java/com/dogcuisine/sync/WebDavSyncManager.java:386-388 | removes only '/' characters from the end, and the result does not end in '/' |
| RemoteNaming.Base | app/src/main/java/com/dogcuisine/sync/WebDavSyncManager.java:384-390 | the base URL trimmed, with every trailing slash removed |
| RemoteNaming.TrimTrailingSlash | app/src/main/java/com/dogcuisine/sync/WebDavSyncManager.java:384-390 | the result is a prefix of the whitespace-trimmed URL, differs from it only by trailing '/' characters, and never ends in '/' |
| RemoteNaming.PercentBytes | app/src/main/java/com/dogcuisine/sync/WebDavSyncManager.java:393-395 | each UTF-8 byte becomes three characters |
| RemoteNaming.Base64UrlChar | app/src/main/java/com/dogcuisine/sync/WebDavSyncManager.java:399-401 | the characters of the URL-safe base64 alphabet |
| RemoteNaming.Unreserved | app/src/main/java/com/dogcuisine/sync/WebDavSyncManager.java:394 | the characters `URLEncoder` leaves as they are: letters, digits and `.-*_` |
| RemoteNaming.HexDigit | app/src/main/java/com/dogcuisine/sync/WebDavSyncManager.java:394 | an upper-case hexadecimal digit |
| RemoteNaming.EncodeChar | app/src/main/java/com/dogcuisine/sync/WebDavSyncManager.java:394 | an unreserved character as is, a space as "+", anything else as its UTF-8 bytes in "%XY" form |
| RemoteNaming.UrlEncode | app/src/main/java/com/dogcuisine/sync/WebDavSyncManager.java:394 | `URLEncoder.encode` character by character |
| RemoteNaming.ReplacePlus | app/src/main/java/com/dogcuisine/sync/WebDavSyncManager.java:394 | every "+" replaced by "%20", everything else kept in order |
| RemoteNaming.EncodePathSegment | app/src/main/java/com/dogcuisine/sync/WebDavSyncManager.java:392-395 | URL-encoding followed by the "+" replacement |
| RemoteNaming.RemoteFileName | app/src/main/java/com/dogcuisine/sync/WebDavSyncManager.java:397-403 | "data_", the unpadded URL-safe base64 of the path's UTF-8 bytes, then ".bin" |
| RemoteNaming.ManifestUrl | app/src/main/java/com/dogcuisine/sync/WebDavSyncManager.java:373-376 | the base, "/", then "manifest.json" |
| RemoteNaming.DataFileUrl | app/src/main/java/com/dogcuisine/sync/WebDavSyncManager.java:378-381 | the base, "/", then the encoded remote file name of the path |
| RemoteNaming.EncodeUnreservedIdentity | app/src/main/java/com/dogcuisine/sync/WebDavSyncManager.java:393-395 | a segment of unreserved characters passes through the encoder unchanged |
| RemoteNaming.EncodedSegmentHasNoPlus | app/src/main/java/com/dogcuisine/sync/WebDavSyncManager.java:392-395 | no '+' survives into an encoded path segment |
| RemoteNaming.ReplacePlusHasNoPlus | app/src/main/java/com/dogcuisine/sync/WebDavSyncManager.java:394 | `replace("+", "%20")` leaves no '+' |
| RemoteNaming.UrlEncodeAppend | app/src/main/java/com/dogcuisine/sync/WebDavSyncManager.java:394 | `URLEncoder.encode` of a concatenation is the concatenation of the encodings |
| RemoteNaming.ReplacePlusAppend | app/src/main/java/com/dogcuisine/sync/WebDavSyncManager.java:394 | the replacement of a concatenation is the concatenation of the replacements |
| RemoteNaming.SpaceBecomesPercent20 | app/src/main/java/com/dogcuisine/sync/WebDavSyncManager.java:392-395 | a space in a segment is sent as "%20", and the text around it is encoded as it would be on its own |
| RemoteNaming.RemoteFileNameUnreserved | app/src/main/java/com/dogcuisine/sync/WebDavSyncManager.java:398-403 | a remote file name `data_<base64url>.bin` consists only of unreserved characters |
| RemoteNaming.DataFileUrlShape | app/src/main/java/com/dogcuisine/sync/WebDavSyncManager.java:379-381 | a data URL is the trimmed base, '/', and the remote file name unchanged |
| RemoteNaming.DataFileUrlInjective | app/src/main/java/com/dogcuisine/sync/WebDavSyncManager.java:378-403 | two paths share a data URL if and only if they are the same path |
| RemoteNaming.DataFileUrlIsNotManifestUrl | app/src/main/java/com/dogcuisine/sync/WebDavSyncManager.java:373-381 | no data URL equals the manifest URL |
| HttpStatus.ManifestGetStatus | app/src/main/java/com/dogcuisine/sync/WebDavSyncManager.java:273-283 | 404 means absent, 200 means present, and every other code is a failure carrying the code |
| HttpStatus.GetAccepted | app/src/main/java/com/dogcuisine/sync/WebDavSyncManager.java:348 | `downloadFile` accepts only 200 |
| HttpStatus.PutAccepted | app/src/main/java/com/dogcuisine/sync/WebDavSyncManager.java:332 | `putFile` accepts 200, 201 and 204 |
| HttpStatus.DeleteAccepted | app/src/main/java/com/dogcuisine/sync/WebDavSyncManager.java:368 | `deleteFileIfExists` accepts 200, 202, 204 and 404 |
| HttpStatus.AcceptedCodesAreSuccesses | app/src/main/java/com/dogcuisine/sync/WebDavSyncManager.java:330-370 | data GET and PUT accept only 2xx codes, DELETE accepts 2xx codes and 404, and only DELETE accepts 404 |
| HttpStatus.ReadErrorBodySafe | app/src/main/java/com/dogcuisine/sync/WebDavSyncManager.java:517-530 | no error stream, or a read that fails, gives ""; a body of at most 500 characters is returned whole; a longer one is cut to its first 500 characters followed by "..." |
| JavaText.Trim | app/src/main/java/com/dogcuisine/sync/WebDavSyncConfig.java:40 | `String.trim`: the result is empty exactly when every character is at most U+0020, has no such character at either end, and a trimmed string is left as it is |
| JavaText.LeadingEnd | app/src/main/java/com/dogcuisine/sync/WebDavSyncConfig.java:40 | the start index `trim` settles on: every character it skips is at most U+0020 and the one it stops at is not |
| JavaText.TrailingStart | app/src/main/java/com/dogcuisine/sync/WebDavSyncConfig.java:40 | the end index `trim` settles on, never before the start: every character it drops is at most U+0020 and the last one it keeps is not |
| JavaText.TrimIsSlice | app/src/main/java/com/dogcuisine/sync/WebDavSyncConfig.java:40 | the result is the one contiguous slice of the input that starts after the leading characters at most U+0020, and only such characters are dropped before and after it |
| WebDavSyncConfig.Safe | app/src/main/java/com/dogcuisine/sync/WebDavSyncConfig.java:38-41 | null becomes ""; otherwise the value is trimmed, so the result is never null and has no surrounding whitespace |
| WebDavSyncConfig.Load | app/src/main/java/com/dogcuisine/sync/WebDavSyncConfig.java:26-36 | no configuration exactly when the stored URL is missing or blank; a loaded configuration is the trimmed stored URL, user and password (a missing key read as ""), so the password is trimmed like the other fields |
| WebDavSyncConfig.LoadStoreRoundTrip | app/src/main/java/com/dogcuisine/sync/WebDavSyncConfig.java:26-36 | loading a stored configuration whose URL is non-blank and whose fields are trimmed gives it back |
| WebDavSyncConfig.GetString | app/src/main/java/com/dogcuisine/sync/WebDavSyncConfig.java:29-31 | the stored value for the key, or the default when the key is absent |
| WebDavSyncConfig.Store | app/src/main/java/com/dogcuisine/ui/WebDavSyncActivity.java:167-174 | the settings screen writes the URL, user and password under their keys |
| App.EnsureDefaultCategories | app/src/main/java/com/dogcuisine/App.java:67-91 | a throwing DAO call leaves the table and returns null; an empty table receives the three default names with sort orders 0, 1, 2 and the first id `insertAll` reports is returned; otherwise the table is unchanged and the first listed row's id is returned; a null or empty DAO answer returns null |
| App.WorkingDao | app/src/main/java/com/dogcuisine/App.java:70-85 | a DAO that throws nothing, lists the table as it is and reports the three ids it inserted |
| App.WorkingDaoYieldsDefault | app/src/main/java/com/dogcuisine/App.java:67-91 | with a working DAO the table is non-empty afterwards and the returned id is its first row's |
| App.EnsureDefaultCategoriesIdempotent | app/src/main/java/com/dogcuisine/App.java:67-91 | with a working DAO, seeding again changes nothing and returns the same default category |
| App.StepPathsPrefix | app/src/main/java/com/dogcuisine/App.java:111-126 | every image path of a step before the first null step is referenced |
| App.ReferencedExactly | app/src/main/java/com/dogcuisine/App.java:104-140 | a path is referenced if and only if some recipe keeps it alive through its non-empty cover, a parsed step or its parsed ingredient |
| App.UnreferencedExactly | app/src/main/java/com/dogcuisine/App.java:153-164 | a path is deleted if and only if it is a regular file of the image directory's listing that no recipe references |
| App.PathSet | app/src/main/java/com/dogcuisine/App.java:117-119 | the paths of a possibly null list |
| App.StepPaths | app/src/main/java/com/dogcuisine/App.java:113-122 | the image paths of the steps in order, up to the first null step, where dereferencing throws and the handler keeps what was added before |
| App.NonEmpty | app/src/main/java/com/dogcuisine/App.java:106 | a string that is non-null and non-empty |
| App.RecipePaths | app/src/main/java/com/dogcuisine/App.java:105-139 | the paths one recipe keeps alive: its non-empty cover, the paths of its parsed steps and of its parsed ingredient; a field that does not parse contributes nothing |
| App.Referenced | app/src/main/java/com/dogcuisine/App.java:99-140 | the union of the paths every recipe keeps alive |
| App.Unreferenced | app/src/main/java/com/dogcuisine/App.java:153-164 | the regular files of the image listing, in listing order, whose path is not referenced |
| App.AddStepPaths | app/src/main/java/com/dogcuisine/App.java:113-122 | the step loop adds exactly the step image paths, up to the first null step |
| App.AddRecipePaths | app/src/main/java/com/dogcuisine/App.java:105-139 | one recipe adds exactly the paths it keeps alive |
| App.CollectReferencedImages | app/src/main/java/com/dogcuisine/App.java:99-140 | the first loop collects exactly the referenced set over all recipes |
| App.SelectUnreferenced | app/src/main/java/com/dogcuisine/App.java:153-164 | the second loop selects exactly the unreferenced regular files, in listing order |
| App.CleanupUnusedImages | app/src/main/java/com/dogcuisine/App.java:96-172 | when the recipe list is null or the image directory cannot be listed nothing is deleted; otherwise exactly the unreferenced regular files are, so an empty recipe list deletes every regular image file |
| App.StepKeepsInv | app/src/main/java/com/dogcuisine/App.java:198-224 | every atomic step keeps `running` set exactly while a worker loop is active, and a task that finds the worker idle enters the loop |
| App.RunKeepsInv | app/src/main/java/com/dogcuisine/App.java:198-224 | under any interleaving of requests, task starts, loop checks and pass ends there is never more than one worker loop |
| App.Step | app/src/main/java/com/dogcuisine/App.java:198-224 | one atomic step: a configured request sets the flag and queues a task; a task that finds a worker running ends at once, otherwise it starts one; the loop head clears the flag and stops the worker when it was clear or the configuration is gone, else begins a pass; a pass ends back at the loop head |
| App.Run | app/src/main/java/com/dogcuisine/App.java:198-224 | the steps of an interleaving applied in order |
| App.Inv | app/src/main/java/com/dogcuisine/App.java:220-222 | `running` is set exactly while a worker loop is active |
| App.WorkerEventsSpendBudget | app/src/main/java/com/dogcuisine/App.java:209-219 | without new requests the worker starts no more passes than the pass in flight plus one follow-up |
| App.RequestsRaiseBudgetByOne | app/src/main/java/com/dogcuisine/App.java:198-203 | any number of requests leaves the worker's phase and pass count unchanged and allows at most one follow-up pass |
| App.Coalescing | app/src/main/java/com/dogcuisine/App.java:209-219 | however many requests arrive during a pass, at most one more pass follows it before the next request |
| App.RequestDuringPassIsServed | app/src/main/java/com/dogcuisine/App.java:209-219 | a configured request made during a pass yields exactly one follow-up pass |
| App.RemovedConfigStopsLoop | app/src/main/java/com/dogcuisine/App.java:209-213 | a follow-up pass whose configuration has disappeared is skipped and the worker leaves with both flags cleared |
| App.AutoSyncController.RequestAutoWebDavUploadIfConfigured | app/src/main/java/com/dogcuisine/App.java:198-204 | without a stored configuration nothing changes; otherwise the request flag is raised and one task is queued, keeping the invariant |
| App.AutoSyncController.RaiseRequest | app/src/main/java/com/dogcuisine/App.java:203-204 | the flag is raised and one task queued, keeping the invariant |
| App.AutoSyncController.StartTask | app/src/main/java/com/dogcuisine/App.java:204-207 | a started task finds no loop running, takes the flag and enters the loop |
| App.AutoSyncController.LoopCheck | app/src/main/java/com/dogcuisine/App.java:209-213 | the loop head clears the request flag; it uploads with the reloaded configuration exactly when one was pending and a configuration is stored, and otherwise leaves the loop with `running` reset |
| App.AutoSyncController.FinishPass | app/src/main/java/com/dogcuisine/App.java:214-219 | a pass, failed or not, counts once and returns to the loop head |
| App.AutoSyncController.IsAutoWebDavUploading | app/src/main/java/com/dogcuisine/App.java:226-228 | reports true exactly while a worker loop is active |
| LevelConfig.Size | app/src/main/java/com/dogcuisine/data/LevelConfig.java:19-21 | the smaller of the two array lengths, which is 5 |
| LevelConfig.CountsIncreasing | app/src/main/java/com/dogcuisine/data/LevelConfig.java:14 | the thresholds strictly increase |
| LevelConfig.HighestReachedIndex | app/src/main/java/com/dogcuisine/data/LevelConfig.java:23-34 | the result lies between -1 and size - 1 |
| LevelConfig.ReachedAtOrBelowSpec | app/src/main/java/com/dogcuisine/data/LevelConfig.java:23-34 | the scan up to index i ends at a reached threshold, and no threshold after it up to i is reached |
| LevelConfig.ReachedAtOrBelow | app/src/main/java/com/dogcuisine/data/LevelConfig.java:23-34 | the highest level index at or below i whose threshold the count meets, or -1 |
| LevelConfig.HighestReachedSpec | app/src/main/java/com/dogcuisine/data/LevelConfig.java:23-34 | -1 exactly below the first threshold; otherwise the count reaches the result's threshold and not the next one |
| LevelConfig.GetHighestReachedIndex | app/src/main/java/com/dogcuisine/data/LevelConfig.java:23-34 | the loop with its early exit computes the highest reached index, in range, and -1 exactly below 10 |
| LevelConfig.HighestReachedMonotone | app/src/main/java/com/dogcuisine/data/LevelConfig.java:23-34 | a larger count never gives a smaller level index |
| LevelConfig.IndexFrom | app/src/main/java/com/dogcuisine/data/LevelConfig.java:36-45 | the first matching name at or after i, or -1 when none matches |
| LevelConfig.GetLevelIndex | app/src/main/java/com/dogcuisine/data/LevelConfig.java:36-45 | -1 exactly for null or an unknown name; otherwise an index whose name is the given one |
| LevelConfig.LevelIndex | app/src/main/java/com/dogcuisine/data/LevelConfig.java:36-45 | -1 for null, otherwise the index of the first level with that name, or -1 |
| LevelConfig.GetLevelName | app/src/main/java/com/dogcuisine/data/LevelConfig.java:47-54 | a name exactly for an index in range, and it is a level name |
| LevelConfig.GetRequiredCount | app/src/main/java/com/dogcuisine/data/LevelConfig.java:56-62 | the threshold in range, `Integer.MAX_VALUE` outside it, and never below the first threshold |
| LevelConfig.NameIndexRoundTrip | app/src/main/java/com/dogcuisine/data/LevelConfig.java:36-54 | looking up the name of a valid index gives that index back |
| AddRecipe.ComputeInSampleSize | app/src/main/java/com/dogcuisine/ui/AddRecipeActivity.java:820-827 | the result is a power of two, at least 1 and at most the long edge; it brings the long edge under twice the limit, and no smaller power of two does |
| AddRecipe.CompressToJpegBytes | app/src/main/java/com/dogcuisine/ui/AddRecipeActivity.java:879-891 | the qualities tried are 85, 80, 75, ... in steps of 5, never below 65, so at most five encodings; the output is the encoding at the last quality tried, it fits 600 KiB unless quality 65 was reached, and every earlier quality tried did not fit |
| AddRecipe.LevelUpIsEarned | app/src/main/java/com/dogcuisine/ui/AddRecipeActivity.java:555-599 | any level awarded is a known level whose threshold the recipe count reaches |
| AddRecipe.IsBlank | app/src/main/java/com/dogcuisine/ui/AddRecipeActivity.java:564 | a level that is null or empty after trimming |
| AddRecipe.LevelUpTarget | app/src/main/java/com/dogcuisine/ui/AddRecipeActivity.java:563-594 | a blank or unknown level jumps to the highest level reached, if any; a known level advances by one when the next threshold is met; otherwise no change |
| AddRecipe.KnownLevelStepsByOne | app/src/main/java/com/dogcuisine/ui/AddRecipeActivity.java:587-594 | from a known level the user advances exactly one level, and only when that level exists and its threshold is reached |
| AddRecipe.UnknownLevelJumpsToHighest | app/src/main/java/com/dogcuisine/ui/AddRecipeActivity.java:563-586 | from a blank or unknown level the user gets the highest reached level, and nothing below the first threshold |
| AddRecipe.CheckLevelUpIfNeeded | app/src/main/java/com/dogcuisine/ui/AddRecipeActivity.java:555-599 | returns the level-up decision and stores it in the profile, leaving the profile unchanged when there is none |
| AddRecipe.BuildRecipeEntity | app/src/main/java/com/dogcuisine/ui/AddRecipeActivity.java:395-400 | an edit keeps its id, favourite flag and positive creation time; a new recipe has no id, is not a favourite and is created when it is updated |
| AddRecipe.RemoveFirstAt | app/src/main/java/com/dogcuisine/ui/AddRecipeActivity.java:527-541 | removal deletes only the first occurrence of the path and keeps the rest in order, and an absent path changes nothing |
| AddRecipe.RemoveFirst | app/src/main/java/com/dogcuisine/ui/AddRecipeActivity.java:528-537 | the list with the first element equal to the path removed |
| AddRecipe.AddRecipeScreen.constructor | app/src/main/java/com/dogcuisine/ui/AddRecipeActivity.java:162 | a new editor holds one fresh empty step (no text, no images), a fresh empty ingredient and no recipe being edited |
| AddRecipe.RemoveFirstMultiset | app/src/main/java/com/dogcuisine/ui/AddRecipeActivity.java:527-541 | removal takes away exactly one copy of the path |
| AddRecipe.AddRecipeScreen.OnDelete | app/src/main/java/com/dogcuisine/ui/AddRecipeActivity.java:424-430 | an in-range position removes that step and keeps the others in order; any other position changes nothing |
| AddRecipe.AddRecipeScreen.RemoveIngredientImage | app/src/main/java/com/dogcuisine/ui/AddRecipeActivity.java:527-541 | the iterator loop removes the first occurrence only, and reports whether the path was present |
| AddRecipe.AddRecipeScreen.SaveRecipe | app/src/main/java/com/dogcuisine/ui/AddRecipeActivity.java:375-415 | a blank name saves nothing and changes nothing; otherwise the saved entity is the one built from the trimmed name, the existing or current creation time, the cover, the JSON of the editor's steps (their texts and image paths in order), the JSON of the ingredient's new text and its images, the selected category or else the default one, and the favourite flag; only a new recipe runs the level-up check |
| AddRecipe.StepsSnapshot | app/src/main/java/com/dogcuisine/ui/AddRecipeActivity.java:385 | what the steps JSON is made from: each step's text and image paths, in list order |
| CategoryManageAdapter.Swap | app/src/main/java/com/dogcuisine/ui/CategoryManageAdapter.java:90 | the two positions exchange their elements and every other position keeps its own |
| CategoryManageAdapter.SwapIsPermutation | app/src/main/java/com/dogcuisine/ui/CategoryManageAdapter.java:90 | a swap is a permutation |
| CategoryManageAdapter.SwapInvolution | app/src/main/java/com/dogcuisine/ui/CategoryManageAdapter.java:90 | swapping the same positions again restores the list |
| CategoryManageAdapter.SwapKeepsDistinct | app/src/main/java/com/dogcuisine/ui/CategoryManageAdapter.java:90 | a list of distinct entities stays distinct |
| CategoryManageAdapter.Adapter.SetData | app/src/main/java/com/dogcuisine/ui/CategoryManageAdapter.java:39-45 | the contents become the given list, or empty for null, and the adapter's invariant holds |
| CategoryManageAdapter.Adapter.GetItemCount | app/src/main/java/com/dogcuisine/ui/CategoryManageAdapter.java:81-84 | one row per category plus the add row |
| CategoryManageAdapter.Adapter.GetItemViewType | app/src/main/java/com/dogcuisine/ui/CategoryManageAdapter.java:51-57 | the add type exactly at position size; every other position is an item |
| CategoryManageAdapter.Adapter.OnItemMove | app/src/main/java/com/dogcuisine/ui/CategoryManageAdapter.java:86-92 | two distinct in-range positions are swapped; a negative position, the add row or equal positions change nothing; the contents are always a permutation |
| CategoryManageAdapter.AddRowIsLast | app/src/main/java/com/dogcuisine/ui/CategoryManageAdapter.java:51-84 | among the rows shown, the last is the add row and all others are items |
| CategoryManageActivity.NonNullIdsMembers | app/src/main/java/com/dogcuisine/ui/CategoryManageActivity.java:110-115 | the collected ids are exactly the ids present in the list |
| CategoryManageActivity.NonNullIds | app/src/main/java/com/dogcuisine/ui/CategoryManageActivity.java:110-115 | the non-null ids of the list, in order |
| CategoryManageActivity.IdsOf | app/src/main/java/com/dogcuisine/ui/CategoryManageActivity.java:110-115 | the id of each entity in the list, null included |
| CategoryManageActivity.RowsOf | app/src/main/java/com/dogcuisine/ui/CategoryManageActivity.java:146 | the rows `insertAll` writes: each entity's id, name and sort order, in list order |
| CategoryManageActivity.IdsToDelete | app/src/main/java/com/dogcuisine/ui/CategoryManageActivity.java:137-142 | an id is deleted if and only if it was loaded and is no longer current |
| CategoryManageActivity.CollectIdsToDelete | app/src/main/java/com/dogcuisine/ui/CategoryManageActivity.java:137-142 | the loop computes exactly that delete list, in load order |
| CategoryManageActivity.DeleteSetIsExact | app/src/main/java/com/dogcuisine/ui/CategoryManageActivity.java:132-145 | a loaded id is deleted if and only if no category in the saved list has it |
| CategoryManageActivity.Renumber | app/src/main/java/com/dogcuisine/ui/CategoryManageActivity.java:128-135 | each category's sort order becomes its 1-based position, ids and names are kept, and the non-null ids are collected in order |
| CategoryManageActivity.SetSortOrder | app/src/main/java/com/dogcuisine/data/CategoryEntity.java:48-50 | sets the sort order and nothing else |
| CategoryManageActivity.CategoryManageScreen.LoadCategories | app/src/main/java/com/dogcuisine/ui/CategoryManageActivity.java:106-119 | the original ids are the non-null ids of the loaded list (empty for null), and the adapter shows that list with its invariant established |
| CategoryManageActivity.CategoryManageScreen.SaveCategories | app/src/main/java/com/dogcuisine/ui/CategoryManageActivity.java:121-154 | an empty list saves nothing; otherwise sort orders are renumbered from 1, every row is written, and the delete call is made only with a non-empty set of exactly the vanished ids |
| CategoryManageActivity.CategoryManageScreen.OnEdit | app/src/main/java/com/dogcuisine/ui/CategoryManageActivity.java:156-169 | an empty name is refused; otherwise only the category at an in-range position is renamed, and ids and sort orders are kept |
| CategoryManageActivity.CategoryManageScreen.OnDelete | app/src/main/java/com/dogcuisine/ui/CategoryManageActivity.java:171-206 | an out-of-range position is ignored; an unsaved category is removed at once; a saved one is removed only when no recipe uses it |
| CategoryManageActivity.CategoryManageScreen.OnAddNew | app/src/main/java/com/dogcuisine/ui/CategoryManageActivity.java:208-220 | an empty name adds nothing; otherwise a new unsaved category with sort order size + 1 is appended |
| CategoryEntities.CategoryEntity.constructor | app/src/main/java/com/dogcuisine/data/CategoryEntity.java:21-25 | the fields take the given values |
| StepItems.StepItem.constructor | app/src/main/java/com/dogcuisine/data/StepItem.java:15-16 | no text and no images |
| StepItems.StepItem.WithImages | app/src/main/java/com/dogcuisine/data/StepItem.java:18-23 | the text as given and a copy of the images in order, or none for a null list |
| StepItems.StepItem.SetText | app/src/main/java/com/dogcuisine/data/StepItem.java:25-32 | `getText` then returns the value set, and the images are kept |
| StepItems.StepItem.GetText | app/src/main/java/com/dogcuisine/data/StepItem.java:26-28 | the current text |
| StepItems.StepItem.AddImagePath | app/src/main/java/com/dogcuisine/data/StepItem.java:39-41 | the path is appended after the existing ones |
| StepItems.StepItem.AddImagePaths | app/src/main/java/com/dogcuisine/data/StepItem.java:43-45 | the paths are appended in order after the existing ones |
| StepItems.AppendKeepsPrefix | app/src/main/java/com/dogcuisine/data/StepItem.java:39-45 | appending one path and then several leaves the earlier paths as a prefix, followed by the new ones in order, and the text is left unchanged |

## Left out

- Network I/O is replaced by a status oracle. This covers `HttpURLConnection` setup, timeouts, stream copying and the Basic-auth header. A rejected request is assumed to leave the server unchanged, as the sync itself assumes.
- SHA-256, UTF-8, Android Base64 and Gson are parameters, with only injectivity, the alphabet and the JSON round trip assumed. The hash itself is not modelled.
- File-system plumbing is not modelled:
  - the database snapshot and `reloadDatabase`;
  - `recreateDir`, temporary files, and failures of the copies in `restoreFromWorkspace`;
  - `deleteRecursively`.

  The device after a restore is modelled as a map holding only the database files and images.
- SyncRestore.UploadThenRestore: assumes that the canonical workspace targets of the uploaded paths stay inside the workspace and do not nest. Canonical paths are a parameter, so the model does not derive this from the shape of the local tree.
- Restore staging is keyed by the manifest's logical path. Canonical paths are a parameter, so two logical paths that name the same file are not merged.
- The download loop writes each file into the workspace before its digest is checked. The model stages only files that passed, which is what the swap sees, since the swap never runs after a failure.
- The manifest's `updatedAt` is the `now` parameter. Sizes are unbounded integers, where the source uses `long`.
- `HashMap` key order is the parameter `env.order`; the DELETE order is not fixed by the model beyond that.
- Threads and executors are not modelled:
  - the auto-sync worker is a sequential machine over atomic events;
  - the I/O executor and `runOnUiThread` of the screens are collapsed into one call;
  - the Room DAO calls become parameters or returned values (`insertAll`, `deleteByIds`, `countByCategoryId`, the recipe count).
- An exception thrown by an upload pass is modelled as the pass ending; its cause is not modelled.
- HttpStatus.ReadErrorBodySafe: counts characters of the decoded body as Dafny characters, not UTF-16 code units. A failed read is modelled only by its outcome, the inner `None`, which gives "".
- App.CleanupUnusedImages: does not model whether `File.delete` succeeds or the count of deleted files, and a Gson parse failure is a `ParsedSteps`/`ParsedIngredient` value rather than an exception.
- CategoryManageActivity.CategoryManageScreen.SaveCategories: requires distinct entity objects in the list. Without that, `setSortOrder` on one object would renumber several positions.
- CategoryManageActivity.CategoryManageScreen.OnEdit: requires distinct entity objects in the list, for the same reason.
- CategoryManageActivity.Renumber: requires distinct entity objects in the list, for the same reason.
- CategoryManageAdapter.Adapter.SetData: requires distinct entity objects in a non-null list, as the rows of one query are, so that the adapter's invariant holds afterwards.
- CategoryManageActivity.CategoryManageScreen.LoadCategories: requires distinct entity objects in a non-null list, for the same reason.
- App.EnsureDefaultCategories: a DAO call that throws is modelled as failing before it writes anything; a partly completed `insertAll` is not modelled. The count is the length of the table.
- AddRecipe.ComputeInSampleSize: requires positive dimensions and a limit whose double fits in 32 bits; the app always passes 1600.
- The following are not part of this model:
  - bitmap decoding, scaling, rotation and cropping;
  - `BackupRestoreActivity` ZIP handling;
  - the UI-only screens and adapters;
  - the Room and SQLite layer.
