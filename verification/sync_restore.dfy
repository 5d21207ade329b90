/** `WebDavSyncManager.downloadAndRestore` as a function of the server's state: fetch the
    manifest, download every listed file into a fresh workspace, checking that it stays inside
    the workspace and that its digest matches, and only then replace the local database files
    and images with the staged ones. */
module SyncRestore {
  import opened Wrappers
  import opened JavaText
  import opened RemoteNaming
  import opened Manifest
  import opened LocalFiles
  import opened SyncProtocol
  import opened SyncUpload

  /** The staged files `restoreFromWorkspace` copies: the three database files and everything
      under `images/`. */
  predicate Installable(p: string) {
    p in {DB_PREFIX + DB_MAIN, DB_PREFIX + DB_WAL, DB_PREFIX + DB_SHM} || StartsWith(p, IMAGES_PREFIX)
  }

  /** The local files after `restoreFromWorkspace`: the old database files and images are gone,
      and the installable staged files take their place. */
  function Installed(staged: map<string, seq<byte>>): (r: map<string, seq<byte>>)
    ensures forall p :: p in r <==> p in staged && Installable(p)
    ensures forall p :: p in r ==> r[p] == staged[p]
  {
    var db := CopyIfPresent(CopyIfPresent(CopyIfPresent(map[], staged, DB_PREFIX + DB_MAIN),
                                          staged, DB_PREFIX + DB_WAL),
                            staged, DB_PREFIX + DB_SHM);
    db + ImagesOf(staged)
  }

  /** `copyFileIfExists` of one staged file to the same relative path. */
  function CopyIfPresent(files: map<string, seq<byte>>, staged: map<string, seq<byte>>, path: string): (r: map<string, seq<byte>>)
    ensures forall p :: p in r <==> p in files || (p == path && p in staged)
    ensures forall p :: p in r ==> r[p] == if p == path && p in staged then staged[p] else files[p]
  {
    if path in staged then files[path := staged[path]] else files
  }

  /** `copyDirIfExists` of the staged "images" tree. */
  function ImagesOf(staged: map<string, seq<byte>>): (r: map<string, seq<byte>>)
    ensures forall p :: p in r <==> p in staged && StartsWith(p, IMAGES_PREFIX)
    ensures forall p :: p in r ==> r[p] == staged[p]
  {
    map p | p in staged && StartsWith(p, IMAGES_PREFIX) :: staged[p]
  }

  /** The file `new File(workspace, path)` lands inside the workspace (`isChildPath` on canonical
      paths) and is not the workspace itself. */
  predicate SafeTarget(env: Env, workspace: string, path: string) {
    IsChildPath(env.canonical(workspace), env.canonical(workspace + "/" + path)) &&
    env.canonical(workspace + "/" + path) != env.canonical(workspace)
  }

  /** The canonical path of the file `new File(workspace, path)`. */
  function Target(env: Env, workspace: string, path: string): string {
    env.canonical(workspace + "/" + path)
  }

  /** `b` lies strictly below the directory `a`. */
  predicate Below(a: string, b: string) {
    StartsWith(b, a + "/")
  }

  /** Two targets one of which would have to be a directory holding the other. */
  predicate Nested(a: string, b: string) {
    Below(a, b) || Below(b, a)
  }

  /** Writing `path` fails because of a file staged before: either that file sits where
      `mkdirs` needs a directory, or `mkdirs` made a directory where `path`'s file should go. */
  predicate BlockedBy(env: Env, workspace: string, staged: map<string, seq<byte>>, path: string) {
    exists q :: q in staged && Nested(Target(env, workspace, q), Target(env, workspace, path))
  }

  /** No listed target is blocked by a file staged before the loop, and no two listed targets
      nest. */
  predicate Apart(env: Env, workspace: string, staged: map<string, seq<byte>>, items: seq<Option<ManifestFile>>) {
    (forall i :: 0 <= i < |items| && items[i].Some? && items[i].value.path.Some? ==>
       !BlockedBy(env, workspace, staged, items[i].value.path.value)) &&
    (forall i, j ::
       (0 <= i < j < |items| && items[i].Some? && items[i].value.path.Some? && items[j].Some? && items[j].value.path.Some?) ==>
       !Nested(Target(env, workspace, items[i].value.path.value), Target(env, workspace, items[j].value.path.value)))
  }

  /** The requests of a restore and either the local files it leaves or why it stopped. */
  datatype Restore = Restore(log: seq<Request>, files: Result<map<string, seq<byte>>, SyncError>)

  /** The download loop of `downloadAndRestore` from item 0 of `items` on, with the files
      staged so far. A null item or path is a `NullPointerException`; a target outside the
      workspace is refused before any request; a status other than 200 stops the loop; a target
      that is the workspace directory itself, or that nests with a file staged before (a file
      where a directory is needed, or a directory where the file should go), cannot be written;
      a digest that does not match the
      listed one (or a missing one) stops the loop. */
  function StagePhase(env: Env, baseUrl: string, workspace: string, s: Server,
                      items: seq<Option<ManifestFile>>, staged: map<string, seq<byte>>): Restore
    decreases |items|
  {
    if items == [] then Restore([], Ok(staged))
    else if items[0].None? || items[0].value.path.None? then Restore([], Err(NullEntry))
    else
      var item := items[0].value;
      var path := item.path.value;
      var root := env.canonical(workspace);
      var target := env.canonical(workspace + "/" + path);
      if !IsChildPath(root, target) then Restore([], Err(UnsafePath(path)))
      else
        var get := Get(DataFileUrl(env.codec, baseUrl, path));
        var code := env.status(s, get);
        if code != 200 then Restore([get], Err(DownloadFailed(get.url, code)))
        else if target == root || BlockedBy(env, workspace, staged, path) then Restore([get], Err(StageFailed(path)))
        else
          var body := Body(s, get.url);
          if item.sha256 != Some(env.sha256(body)) then Restore([get], Err(IntegrityError(path)))
          else
            var rest := StagePhase(env, baseUrl, workspace, s, items[1..], staged[path := body]);
            Restore([get] + rest.log, rest.files)
  }

  /** `downloadAndRestore` into workspace `workspace`. */
  function RestoreRun(env: Env, baseUrl: string, workspace: string, s: Server): Restore {
    var get := Get(ManifestUrl(baseUrl));
    var fetched := FetchManifest(env, baseUrl, s);
    if fetched.Err? then Restore([get], Err(fetched.error))
    else if fetched.value.None? then Restore([get], Err(NoRemoteManifest))
    else
      var staging := StagePhase(env, baseUrl, workspace, s, fetched.value.value.files.GetOr([]), map[]);
      Restore([get] + staging.log, if staging.files.Ok? then Ok(Installed(staging.files.value)) else staging.files)
  }

  /** An item passes every check of the download loop. */
  predicate ItemOk(env: Env, baseUrl: string, workspace: string, s: Server, item: Option<ManifestFile>) {
    item.Some? && item.value.path.Some? &&
    var url := DataFileUrl(env.codec, baseUrl, item.value.path.value);
    SafeTarget(env, workspace, item.value.path.value) && env.status(s, Get(url)) == 200 &&
    item.value.sha256 == Some(env.sha256(Body(s, url)))
  }

  predicate ListsPath(items: seq<Option<ManifestFile>>, p: string) {
    exists i :: 0 <= i < |items| && HasPath(items[i], p)
  }

  lemma ListsPathCons(items: seq<Option<ManifestFile>>, p: string)
    requires items != []
    ensures ListsPath(items, p) <==> HasPath(items[0], p) || ListsPath(items[1..], p)
  {
    if ListsPath(items, p) && !HasPath(items[0], p) {
      var i :| 0 <= i < |items| && HasPath(items[i], p);
      assert items[1..][i - 1] == items[i];
    }
    if ListsPath(items[1..], p) {
      var i :| 0 <= i < |items[1..]| && HasPath(items[1..][i], p);
      assert items[i + 1] == items[1..][i];
    }
  }

  /** An item passes its checks and its file can be written next to the ones staged so far. */
  predicate Proceeds(env: Env, baseUrl: string, workspace: string, s: Server,
                     staged: map<string, seq<byte>>, item: Option<ManifestFile>) {
    ItemOk(env, baseUrl, workspace, s, item) && !BlockedBy(env, workspace, staged, item.value.path.value)
  }

  /** Staging one more file blocks a path exactly when it nests with that file's target. */
  lemma BlockedByUpdate(env: Env, workspace: string, staged: map<string, seq<byte>>, p0: string, body: seq<byte>, p: string)
    ensures BlockedBy(env, workspace, staged[p0 := body], p) <==>
      BlockedBy(env, workspace, staged, p) || Nested(Target(env, workspace, p0), Target(env, workspace, p))
  {
    if BlockedBy(env, workspace, staged[p0 := body], p) && !Nested(Target(env, workspace, p0), Target(env, workspace, p)) {
      var q :| q in staged[p0 := body] && Nested(Target(env, workspace, q), Target(env, workspace, p));
      assert q in staged;
    }
    if Nested(Target(env, workspace, p0), Target(env, workspace, p)) {
      assert p0 in staged[p0 := body];
    }
  }

  /** `Apart` for a list is the first target's freedom from the staged files, and `Apart` for
      the rest once that target is staged too. */
  lemma ApartCons(env: Env, workspace: string, staged: map<string, seq<byte>>, items: seq<Option<ManifestFile>>, body: seq<byte>)
    requires items != [] && items[0].Some? && items[0].value.path.Some?
    ensures var p0 := items[0].value.path.value;
      Apart(env, workspace, staged, items) <==>
      !BlockedBy(env, workspace, staged, p0) && Apart(env, workspace, staged[p0 := body], items[1..])
  {
    var p0 := items[0].value.path.value;
    var tail := items[1..];
    var staged' := staged[p0 := body];
    forall i | 0 <= i < |tail| && tail[i].Some? && tail[i].value.path.Some?
      ensures BlockedBy(env, workspace, staged', tail[i].value.path.value) <==>
        BlockedBy(env, workspace, staged, tail[i].value.path.value) ||
        Nested(Target(env, workspace, p0), Target(env, workspace, tail[i].value.path.value))
    {
      BlockedByUpdate(env, workspace, staged, p0, body, tail[i].value.path.value);
    }
    if Apart(env, workspace, staged, items) {
      assert !BlockedBy(env, workspace, staged, p0);
      forall i | 0 <= i < |tail| && tail[i].Some? && tail[i].value.path.Some?
        ensures !BlockedBy(env, workspace, staged', tail[i].value.path.value)
      {
        assert tail[i] == items[i + 1];
      }
      forall i, j | 0 <= i < j < |tail| && tail[i].Some? && tail[i].value.path.Some? &&
                    tail[j].Some? && tail[j].value.path.Some?
        ensures !Nested(Target(env, workspace, tail[i].value.path.value), Target(env, workspace, tail[j].value.path.value))
      {
        assert tail[i] == items[i + 1] && tail[j] == items[j + 1];
      }
    }
    if !BlockedBy(env, workspace, staged, p0) && Apart(env, workspace, staged', tail) {
      forall i | 0 <= i < |items| && items[i].Some? && items[i].value.path.Some?
        ensures !BlockedBy(env, workspace, staged, items[i].value.path.value)
      {
        if i > 0 {
          assert items[i] == tail[i - 1];
        }
      }
      forall i, j | 0 <= i < j < |items| && items[i].Some? && items[i].value.path.Some? &&
                    items[j].Some? && items[j].value.path.Some?
        ensures !Nested(Target(env, workspace, items[i].value.path.value), Target(env, workspace, items[j].value.path.value))
      {
        assert items[j] == tail[j - 1];
        if i > 0 {
          assert items[i] == tail[i - 1];
        }
      }
    }
  }

  /** One step of the download loop: an item that passes its checks is fetched and staged and
      the loop goes on; any other item ends the loop with an error, after at most one GET of a
      path that passed `isChildPath`. */
  lemma StagePhaseStep(env: Env, baseUrl: string, workspace: string, s: Server,
                       items: seq<Option<ManifestFile>>, staged: map<string, seq<byte>>)
    requires items != []
    ensures Proceeds(env, baseUrl, workspace, s, staged, items[0]) ==>
      var path := items[0].value.path.value;
      var url := DataFileUrl(env.codec, baseUrl, path);
      var rest := StagePhase(env, baseUrl, workspace, s, items[1..], staged[path := Body(s, url)]);
      StagePhase(env, baseUrl, workspace, s, items, staged) == Restore([Get(url)] + rest.log, rest.files)
    ensures !Proceeds(env, baseUrl, workspace, s, staged, items[0]) ==>
      var r := StagePhase(env, baseUrl, workspace, s, items, staged);
      r.files.Err? &&
      (r.log == [] ||
       (HasPath(items[0], items[0].value.path.value) &&
        IsChildPath(env.canonical(workspace), env.canonical(workspace + "/" + items[0].value.path.value)) &&
        r.log == [Get(DataFileUrl(env.codec, baseUrl, items[0].value.path.value))]))
  {
    var r := StagePhase(env, baseUrl, workspace, s, items, staged);
    if items[0].Some? && items[0].value.path.Some? {
      var path := items[0].value.path.value;
      var url := DataFileUrl(env.codec, baseUrl, path);
      var root := env.canonical(workspace);
      var target := env.canonical(workspace + "/" + path);
      if IsChildPath(root, target) {
        var code := env.status(s, Get(url));
        if code == 200 && target != root && !BlockedBy(env, workspace, staged, path) &&
           items[0].value.sha256 == Some(env.sha256(Body(s, url))) {
          assert Proceeds(env, baseUrl, workspace, s, staged, items[0]);
        } else {
          assert !Proceeds(env, baseUrl, workspace, s, staged, items[0]);
          assert r.log == [Get(url)];
        }
      } else {
        assert r.log == [];
      }
    }
  }

  /** The download loop completes exactly when every item passes its checks and no two targets
      (nor a target and a file staged before) nest. */
  lemma {:induction false} StagePhaseCompletes(env: Env, baseUrl: string, workspace: string, s: Server,
                                               items: seq<Option<ManifestFile>>, staged: map<string, seq<byte>>)
    ensures StagePhase(env, baseUrl, workspace, s, items, staged).files.Ok? <==>
      (forall i :: 0 <= i < |items| ==> ItemOk(env, baseUrl, workspace, s, items[i])) &&
      Apart(env, workspace, staged, items)
    decreases |items|
  {
    if items != [] {
      StagePhaseStep(env, baseUrl, workspace, s, items, staged);
      var tail := items[1..];
      if ItemOk(env, baseUrl, workspace, s, items[0]) {
        var path := items[0].value.path.value;
        var body := Body(s, DataFileUrl(env.codec, baseUrl, path));
        ApartCons(env, workspace, staged, items, body);
        StagePhaseCompletes(env, baseUrl, workspace, s, tail, staged[path := body]);
        if forall i :: 0 <= i < |tail| ==> ItemOk(env, baseUrl, workspace, s, tail[i]) {
          forall i | 0 < i < |items|
            ensures ItemOk(env, baseUrl, workspace, s, items[i])
          {
            assert items[i] == tail[i - 1];
          }
        } else {
          var i :| 0 <= i < |tail| && !ItemOk(env, baseUrl, workspace, s, tail[i]);
          assert items[i + 1] == tail[i];
        }
      }
    }
  }

  /** A completed download loop has staged, for every listed path, the bytes the server holds
      for it, on top of what was staged before. */
  lemma {:induction false} StagePhaseContents(env: Env, baseUrl: string, workspace: string, s: Server,
                                              items: seq<Option<ManifestFile>>, staged: map<string, seq<byte>>)
    ensures StagePhase(env, baseUrl, workspace, s, items, staged).files.Ok? ==>
      var m := StagePhase(env, baseUrl, workspace, s, items, staged).files.value;
      (forall p :: p in m <==> p in staged || ListsPath(items, p)) &&
      (forall p :: p in m ==> m[p] == if ListsPath(items, p) then Body(s, DataFileUrl(env.codec, baseUrl, p)) else staged[p])
    decreases |items|
  {
    if items != [] {
      StagePhaseStep(env, baseUrl, workspace, s, items, staged);
      if Proceeds(env, baseUrl, workspace, s, staged, items[0]) {
        var path := items[0].value.path.value;
        var body := Body(s, DataFileUrl(env.codec, baseUrl, path));
        var staged' := staged[path := body];
        assert HasPath(items[0], path);
        StagePhaseContents(env, baseUrl, workspace, s, items[1..], staged');
        var rest := StagePhase(env, baseUrl, workspace, s, items[1..], staged');
        if rest.files.Ok? {
          var m := rest.files.value;
          forall p
            ensures (p in m <==> p in staged || ListsPath(items, p))
            ensures p in m ==> m[p] == if ListsPath(items, p) then Body(s, DataFileUrl(env.codec, baseUrl, p)) else staged[p]
          {
            ListsPathCons(items, p);
          }
        }
      }
    }
  }

  /** Every request of the download loop is a GET of a listed path whose target lies inside the
      workspace. */
  lemma {:induction false} StagePhaseRequests(env: Env, baseUrl: string, workspace: string, s: Server,
                                              items: seq<Option<ManifestFile>>, staged: map<string, seq<byte>>)
    ensures forall req :: req in StagePhase(env, baseUrl, workspace, s, items, staged).log ==>
      exists p :: ListsPath(items, p) && IsChildPath(env.canonical(workspace), env.canonical(workspace + "/" + p)) &&
        req == Get(DataFileUrl(env.codec, baseUrl, p))
    decreases |items|
  {
    if items != [] {
      StagePhaseStep(env, baseUrl, workspace, s, items, staged);
      forall p {
        ListsPathCons(items, p);
      }
      if Proceeds(env, baseUrl, workspace, s, staged, items[0]) {
        var path := items[0].value.path.value;
        var body := Body(s, DataFileUrl(env.codec, baseUrl, path));
        assert HasPath(items[0], path);
        StagePhaseRequests(env, baseUrl, workspace, s, items[1..], staged[path := body]);
      }
    }
  }

  // ---------------------------------------------------------------- properties of a restore

  /** A restore that completes leaves only installable files, each holding bytes whose digest is
      the one every manifest entry for its path lists; the local files change in no other
      way. */
  lemma RestoreVerifiesIntegrity(env: Env, baseUrl: string, workspace: string, s: Server)
    ensures var r := RestoreRun(env, baseUrl, workspace, s);
      r.files.Ok? ==>
        FetchManifest(env, baseUrl, s).Ok? && FetchManifest(env, baseUrl, s).value.Some? &&
        var items := FetchManifest(env, baseUrl, s).value.value.files.GetOr([]);
        (forall p :: p in r.files.value <==> ListsPath(items, p) && Installable(p)) &&
        (forall p, i :: p in r.files.value && 0 <= i < |items| && HasPath(items[i], p) ==>
           items[i].value.sha256 == Some(env.sha256(r.files.value[p])))
  {
    var r := RestoreRun(env, baseUrl, workspace, s);
    var fetched := FetchManifest(env, baseUrl, s);
    if fetched.Ok? && fetched.value.Some? {
      var items := fetched.value.value.files.GetOr([]);
      StagePhaseCompletes(env, baseUrl, workspace, s, items, map[]);
      StagePhaseContents(env, baseUrl, workspace, s, items, map[]);
      if r.files.Ok? {
        forall p, i | p in r.files.value && 0 <= i < |items| && HasPath(items[i], p)
          ensures items[i].value.sha256 == Some(env.sha256(r.files.value[p]))
        {
          assert ItemOk(env, baseUrl, workspace, s, items[i]);
        }
      }
    }
  }

  /** A restore never downloads a file whose target lies outside the workspace: apart from the
      manifest GET, every request is a GET of a listed path that passed `isChildPath`. */
  lemma RestoreStaysInWorkspace(env: Env, baseUrl: string, workspace: string, s: Server)
    ensures var r := RestoreRun(env, baseUrl, workspace, s);
      r.log != [] && r.log[0] == Get(ManifestUrl(baseUrl)) &&
      forall req :: req in r.log[1..] ==>
        exists p :: IsChildPath(env.canonical(workspace), env.canonical(workspace + "/" + p)) &&
          req == Get(DataFileUrl(env.codec, baseUrl, p))
  {
    var r := RestoreRun(env, baseUrl, workspace, s);
    var fetched := FetchManifest(env, baseUrl, s);
    if fetched.Ok? && fetched.value.Some? {
      var items := fetched.value.value.files.GetOr([]);
      var staging := StagePhase(env, baseUrl, workspace, s, items, map[]);
      StagePhaseRequests(env, baseUrl, workspace, s, items, map[]);
      assert r.log[1..] == staging.log;
    }
  }

  /** A manifest with no file list, or an empty one, wipes the local database and images. */
  lemma EmptyManifestWipesLocalData(env: Env, baseUrl: string, workspace: string, s: Server)
    requires FetchManifest(env, baseUrl, s).Ok? && FetchManifest(env, baseUrl, s).value.Some?
    requires FetchManifest(env, baseUrl, s).value.value.files.GetOr([]) == []
    ensures RestoreRun(env, baseUrl, workspace, s) == Restore([Get(ManifestUrl(baseUrl))], Ok(map[]))
  {
  }

  /** Without a manifest on the server a restore is refused after the one GET. */
  lemma RestoreNeedsManifest(env: Env, baseUrl: string, workspace: string, s: Server)
    requires env.status(s, Get(ManifestUrl(baseUrl))) == 404
    ensures RestoreRun(env, baseUrl, workspace, s) == Restore([Get(ManifestUrl(baseUrl))], Err(NoRemoteManifest))
  {
  }

  // ---------------------------------------------------------------- upload, then restore

  /** The paths an upload collects are all installable. */
  lemma LocalPathsInstallable(snapshot: map<string, Node>, images: Option<Node>, sha256: seq<byte> -> string)
    ensures forall i :: 0 <= i < |BuildLocalFileEntries(snapshot, images, sha256)| ==>
      Installable(BuildLocalFileEntries(snapshot, images, sha256)[i].path)
  {
    var db := DbEntries(snapshot, sha256);
    var imgs := ImageEntries(images, sha256);
    BuildLocalFileEntriesSpec(snapshot, images, sha256);
    DbEntriesSpec(snapshot, sha256);
    var es := BuildLocalFileEntries(snapshot, images, sha256);
    forall i | 0 <= i < |es|
      ensures Installable(es[i].path)
    {
      if i < |db| {
        assert es[i] == db[i];
      } else {
        assert es[i] == imgs[i - |db|];
      }
    }
  }

  /** Installing a staging area that holds only installable files keeps all of it. */
  lemma InstalledKeepsInstallable(staged: map<string, seq<byte>>)
    requires forall p :: p in staged ==> Installable(p)
    ensures Installed(staged) == staged
  {
  }

  /** No two local paths have nested targets in the workspace. */
  predicate TargetsApart(env: Env, workspace: string, es: seq<LocalFileEntry>) {
    forall i, j :: 0 <= i < j < |es| ==> !Nested(Target(env, workspace, es[i].path), Target(env, workspace, es[j].path))
  }

  /** The targets of a published manifest are apart when those of the local files are. */
  lemma UploadedManifestApart(env: Env, workspace: string, es: seq<LocalFileEntry>, now: int)
    requires TargetsApart(env, workspace, es)
    ensures Apart(env, workspace, map[], NewManifest(es, now).files.value)
  {
    var items := NewManifest(es, now).files.value;
    forall i, j | 0 <= i < j < |items| && items[i].Some? && items[i].value.path.Some? && items[j].Some? && items[j].value.path.Some?
      ensures !Nested(Target(env, workspace, items[i].value.path.value), Target(env, workspace, items[j].value.path.value))
    {
      assert items[i].value.path.value == es[i].path && items[j].value.path.value == es[j].path;
    }
  }

  /** The download loop over the manifest an upload of `es` wrote, on a server where every entry
      is backed, stages exactly the uploaded paths with the uploaded digests and sizes. */
  lemma StagingOfUploadedManifest(env: Env, baseUrl: string, workspace: string, t: Server,
                                  es: seq<LocalFileEntry>, now: int)
    requires ServesStoredObjects(env)
    requires forall i :: 0 <= i < |es| ==> Backed(env, baseUrl, t, es[i]) && SafeTarget(env, workspace, es[i].path)
    requires TargetsApart(env, workspace, es)
    ensures var r := StagePhase(env, baseUrl, workspace, t, NewManifest(es, now).files.value, map[]);
      r.files.Ok? && r.files.value.Keys == Paths(es) &&
      forall i :: 0 <= i < |es| ==>
        env.sha256(r.files.value[es[i].path]) == es[i].sha256 && |r.files.value[es[i].path]| == es[i].size
  {
    var items := NewManifest(es, now).files.value;
    forall i | 0 <= i < |items|
      ensures ItemOk(env, baseUrl, workspace, t, items[i])
    {
      assert Backed(env, baseUrl, t, es[i]);
      assert env.status(t, Get(DataFileUrl(env.codec, baseUrl, es[i].path))) == 200;
    }
    UploadedManifestApart(env, workspace, es, now);
    StagePhaseCompletes(env, baseUrl, workspace, t, items, map[]);
    StagePhaseContents(env, baseUrl, workspace, t, items, map[]);
    var staged := StagePhase(env, baseUrl, workspace, t, items, map[]).files.value;
    forall p
      ensures ListsPath(items, p) <==> p in Paths(es)
    {
      if ListsPath(items, p) {
        var i :| 0 <= i < |items| && HasPath(items[i], p);
        assert es[i].path == p;
      }
      if p in Paths(es) {
        var i :| 0 <= i < |es| && es[i].path == p;
        assert HasPath(items[i], p);
      }
    }
    forall i | 0 <= i < |es|
      ensures es[i].path in staged
      ensures env.sha256(staged[es[i].path]) == es[i].sha256 && |staged[es[i].path]| == es[i].size
    {
      assert Backed(env, baseUrl, t, es[i]);
      assert ListsPath(items, es[i].path);
    }
  }

  /** A restore from a server that holds the manifest an upload of `es` wrote, with every
      entry backed, leaves exactly the uploaded paths with their digests and sizes. */
  lemma RestoreOfUploadedManifest(env: Env, baseUrl: string, workspace: string, t: Server,
                                  es: seq<LocalFileEntry>, now: int)
    requires ServesStoredObjects(env)
    requires ManifestUrl(baseUrl) in t && env.fromJson(t[ManifestUrl(baseUrl)]) == Parsed(NewManifest(es, now))
    requires forall i :: 0 <= i < |es| ==>
      Backed(env, baseUrl, t, es[i]) && SafeTarget(env, workspace, es[i].path) && Installable(es[i].path)
    requires TargetsApart(env, workspace, es)
    ensures var r := RestoreRun(env, baseUrl, workspace, t);
      r.files.Ok? && r.files.value.Keys == Paths(es) &&
      forall i :: 0 <= i < |es| ==>
        env.sha256(r.files.value[es[i].path]) == es[i].sha256 && |r.files.value[es[i].path]| == es[i].size
  {
    var m := NewManifest(es, now);
    assert env.status(t, Get(ManifestUrl(baseUrl))) == 200;
    assert FetchManifest(env, baseUrl, t) == Ok(Some(m));
    StagingOfUploadedManifest(env, baseUrl, workspace, t, es, now);
    var staged := StagePhase(env, baseUrl, workspace, t, m.files.value, map[]).files.value;
    forall p | p in staged
      ensures Installable(p)
    {
      var i :| 0 <= i < |es| && es[i].path == p;
    }
    InstalledKeepsInstallable(staged);
  }

  /** Round trip: after a completed upload of the local files from a consistent server, a
      restore from that server completes and leaves exactly the uploaded paths, each with the
      digest and size of the uploaded file. */
  lemma UploadThenRestore(env: Env, baseUrl: string, workspace: string, s: Server,
                          snapshot: map<string, Node>, images: Option<Node>, now: int)
    requires ValidEnv(env) && ServesStoredObjects(env)
    requires images.None? || WellFormed(images.value)
    requires Backs(env, baseUrl, s, RemoteMap(env, baseUrl, s))
    requires var es := BuildLocalFileEntries(snapshot, images, env.sha256);
      UploadRun(env, baseUrl, s, es, now).outcome.Pass? &&
      (forall i :: 0 <= i < |es| ==> SafeTarget(env, workspace, es[i].path)) &&
      TargetsApart(env, workspace, es)
    ensures var es := BuildLocalFileEntries(snapshot, images, env.sha256);
      var r := RestoreRun(env, baseUrl, workspace, UploadRun(env, baseUrl, s, es, now).server);
      r.files.Ok? && r.files.value.Keys == Paths(es) &&
      forall i :: 0 <= i < |es| ==>
        env.sha256(r.files.value[es[i].path]) == es[i].sha256 && |r.files.value[es[i].path]| == es[i].size
  {
    var es := BuildLocalFileEntries(snapshot, images, env.sha256);
    BuildLocalFileEntriesSpec(snapshot, images, env.sha256);
    LocalPathsInstallable(snapshot, images, env.sha256);
    UploadKeepsConsistent(env, baseUrl, s, es, now);
    RestoreOfUploadedManifest(env, baseUrl, workspace, UploadRun(env, baseUrl, s, es, now).server, es, now);
  }
}
