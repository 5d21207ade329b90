/** `WebDavSyncManager`: the upload and the restore as the source runs them, request by request,
    against a WebDAV server object and the device's local files. Each method's result and new
    state are those of the functions in `SyncProtocol`, `SyncUpload` and `SyncRestore`. */
module WebDavSyncManagerImpl {
  import opened Wrappers
  import opened JavaText
  import opened HttpStatus
  import opened RemoteNaming
  import opened Manifest
  import opened LocalFiles
  import opened SyncProtocol
  import opened SyncUpload
  import opened SyncRestore

  /** The WebDAV server: the objects it stores and every request it has received. */
  class RemoteStore {
    var objects: Server
    var log: seq<Request>

    constructor(objects: Server)
      ensures this.objects == objects && log == []
    {
      this.objects := objects;
      log := [];
    }

    /** One HTTP exchange: the status the server answers with, and for a GET the body it
        sends. */
    method Send(env: Env, req: Request) returns (code: int, body: seq<byte>)
      modifies this
      ensures code == env.status(old(objects), req)
      ensures body == (if req.Get? then Body(old(objects), req.url) else [])
      ensures objects == Effect(old(objects), req, code)
      ensures log == old(log) + [req]
    {
      code := env.status(objects, req);
      body := if req.Get? then Body(objects, req.url) else [];
      objects := Effect(objects, req, code);
      log := log + [req];
    }
  }

  /** The device's database files (under "db/") and images (under "images/"), by the relative
      path an upload gives them. */
  class LocalDevice {
    var files: map<string, seq<byte>>

    constructor(files: map<string, seq<byte>>)
      ensures this.files == files
    {
      this.files := files;
    }
  }

  class WebDavSyncManager {
    const env: Env

    constructor(env: Env)
      ensures this.env == env
    {
      this.env := env;
    }

    /** `downloadManifestIfExists`. */
    method DownloadManifestIfExists(remote: RemoteStore, baseUrl: string)
      returns (fetched: Result<Option<SyncManifest>, SyncError>)
      modifies remote
      ensures fetched == FetchManifest(env, baseUrl, old(remote.objects))
      ensures remote.objects == old(remote.objects)
      ensures remote.log == old(remote.log) + [Get(ManifestUrl(baseUrl))]
    {
      var url := ManifestUrl(baseUrl);
      var code, body := remote.Send(env, Get(url));
      if code == 404 {
        return Ok(None);
      }
      if code != 200 {
        return Err(ManifestHttp(code));
      }
      var parsed := env.fromJson(body);
      match parsed
      case Parsed(m) => fetched := Ok(Some(m));
      case ParsedNull => fetched := Ok(None);
      case Malformed => fetched := Err(ManifestCorrupt);
    }

    /** `upload`'s first loop. */
    method PutChangedFiles(remote: RemoteStore, baseUrl: string, es: seq<LocalFileEntry>,
                           remoteMap: map<string, ManifestFile>) returns (outcome: Outcome<SyncError>)
      modifies remote
      ensures var r := PutPhase(env, baseUrl, old(remote.objects), es, remoteMap);
        remote.objects == r.server && remote.log == old(remote.log) + r.log && outcome == r.outcome
    {
      ghost var goal := PutPhase(env, baseUrl, remote.objects, es, remoteMap);
      ghost var log0 := remote.log;
      ghost var done: seq<Request> := [];
      var rest := es;
      while rest != []
        invariant remote.log == log0 + done
        invariant goal == After(done, PutPhase(env, baseUrl, remote.objects, rest, remoteMap))
        decreases |rest|
      {
        var entry := rest[0];
        if NeedsPut(entry, remoteMap) {
          var req := DataPut(env, baseUrl, entry);
          var code := PutFile(remote, req);
          LogAssoc(log0, done, [req]);
          AfterAfter(done, [req], PutPhase(env, baseUrl, remote.objects, rest[1..], remoteMap));
          done := done + [req];
          if !PutAccepted(code) {
            return Fail(PutFailed(req.url, code));
          }
        }
        rest := rest[1..];
      }
      outcome := Pass;
    }

    /** `putFile`: one PUT; the caller decides what a status means. */
    method PutFile(remote: RemoteStore, req: Request) returns (code: int)
      requires req.Put?
      modifies remote
      ensures code == env.status(old(remote.objects), req)
      ensures remote.objects == Effect(old(remote.objects), req, code)
      ensures remote.log == old(remote.log) + [req]
    {
      var body;
      code, body := remote.Send(env, req);
    }

    /** `upload`'s second loop: every remote path, in map order, missing locally is deleted. */
    method DeleteStaleFiles(remote: RemoteStore, baseUrl: string, remotePaths: seq<string>, local: set<string>)
      returns (outcome: Outcome<SyncError>)
      modifies remote
      ensures var r := DeletePhase(env, baseUrl, old(remote.objects), remotePaths, local);
        remote.objects == r.server && remote.log == old(remote.log) + r.log && outcome == r.outcome
    {
      ghost var goal := DeletePhase(env, baseUrl, remote.objects, remotePaths, local);
      ghost var log0 := remote.log;
      ghost var done: seq<Request> := [];
      var rest := remotePaths;
      while rest != []
        invariant remote.log == log0 + done
        invariant goal == After(done, DeletePhase(env, baseUrl, remote.objects, rest, local))
        decreases |rest|
      {
        var path := rest[0];
        if path !in local {
          var req := DataDelete(env, baseUrl, path);
          var code := DeleteFileIfExists(remote, req);
          LogAssoc(log0, done, [req]);
          AfterAfter(done, [req], DeletePhase(env, baseUrl, remote.objects, rest[1..], local));
          done := done + [req];
          if !DeleteAccepted(code) {
            return Fail(DeleteFailed(req.url, code));
          }
        }
        rest := rest[1..];
      }
      outcome := Pass;
    }

    /** `deleteFileIfExists`: one DELETE; the caller decides what a status means. */
    method DeleteFileIfExists(remote: RemoteStore, req: Request) returns (code: int)
      requires req.Delete?
      modifies remote
      ensures code == env.status(old(remote.objects), req)
      ensures remote.objects == Effect(old(remote.objects), req, code)
      ensures remote.log == old(remote.log) + [req]
    {
      var body;
      code, body := remote.Send(env, req);
    }

    /** `upload` of the snapshot's database files and the images tree at time `now`. */
    method Upload(remote: RemoteStore, baseUrl: string, snapshot: map<string, Node>, images: Option<Node>, now: int)
      returns (outcome: Outcome<SyncError>)
      modifies remote
      ensures var r := UploadRun(env, baseUrl, old(remote.objects), BuildLocalFileEntries(snapshot, images, env.sha256), now);
        remote.objects == r.server && remote.log == old(remote.log) + r.log && outcome == r.outcome
    {
      var localFiles := GatherLocalFiles(snapshot, images, env.sha256);
      ghost var s0 := remote.objects;
      ghost var log0 := remote.log;
      var fetched := DownloadManifestIfExists(remote, baseUrl);
      if fetched.Err? {
        return Fail(fetched.error);
      }
      var remoteMap := ToManifestMap(fetched.value);
      ghost var get := Get(ManifestUrl(baseUrl));
      ghost var puts := PutPhase(env, baseUrl, s0, localFiles, remoteMap);
      outcome := PutChangedFiles(remote, baseUrl, localFiles, remoteMap);
      LogAssoc(log0, [get], puts.log);
      if outcome.Fail? {
        return;
      }
      var localPaths := Paths(localFiles);
      ghost var dels := DeletePhase(env, baseUrl, puts.server, env.order(remoteMap.Keys), localPaths);
      outcome := DeleteStaleFiles(remote, baseUrl, env.order(remoteMap.Keys), localPaths);
      LogAssoc(log0, [get] + puts.log, dels.log);
      if outcome.Fail? {
        return;
      }
      var latest := NewManifest(localFiles, now);
      var url := ManifestUrl(baseUrl);
      var code := PutFile(remote, Put(url, env.toJson(latest)));
      LogAssoc(log0, [get] + puts.log + dels.log, [Put(url, env.toJson(latest))]);
      if !PutAccepted(code) {
        return Fail(PutFailed(url, code));
      }
      outcome := Pass;
    }

    /** `downloadAndRestore`'s loop: fetch every listed file into the workspace, checking its
        target and its digest; `staged` is the workspace's contents by relative path. */
    method StageFiles(remote: RemoteStore, baseUrl: string, workspace: string, items: seq<Option<ManifestFile>>)
      returns (staged: Result<map<string, seq<byte>>, SyncError>)
      modifies remote
      ensures var r := StagePhase(env, baseUrl, workspace, old(remote.objects), items, map[]);
        remote.objects == old(remote.objects) && remote.log == old(remote.log) + r.log && staged == r.files
    {
      var s := remote.objects;
      ghost var goal := StagePhase(env, baseUrl, workspace, s, items, map[]);
      ghost var log0 := remote.log;
      ghost var done: seq<Request> := [];
      var workspaceFiles: map<string, seq<byte>> := map[];
      var rest := items;
      while rest != []
        invariant remote.objects == s
        invariant remote.log == log0 + done
        invariant goal.log == done + StagePhase(env, baseUrl, workspace, s, rest, workspaceFiles).log
        invariant goal.files == StagePhase(env, baseUrl, workspace, s, rest, workspaceFiles).files
        decreases |rest|
      {
        var failure, path, body, step := StageItem(remote, s, baseUrl, workspace, rest, workspaceFiles);
        LogAssoc(log0, done, step);
        if failure.Some? {
          return Err(failure.value);
        }
        LogAssoc(done, step, StagePhase(env, baseUrl, workspace, s, rest[1..], workspaceFiles[path := body]).log);
        done := done + step;
        workspaceFiles := workspaceFiles[path := body];
        rest := rest[1..];
      }
      staged := Ok(workspaceFiles);
    }

    /** The body of `downloadAndRestore`'s loop for the first of `items`: `failure` is the
        exception it throws, if any; otherwise the file at `path` now holds `body`. `step` is the
        requests it sent. */
    method StageItem(remote: RemoteStore, s: Server, baseUrl: string, workspace: string, items: seq<Option<ManifestFile>>,
                     staged: map<string, seq<byte>>)
      returns (failure: Option<SyncError>, path: string, body: seq<byte>, ghost step: seq<Request>)
      requires items != [] && remote.objects == s
      modifies remote
      ensures remote.objects == s
      ensures remote.log == old(remote.log) + step
      ensures failure.Some? ==>
        StagePhase(env, baseUrl, workspace, s, items, staged) == Restore(step, Err(failure.value))
      ensures failure.None? ==>
        var t := StagePhase(env, baseUrl, workspace, s, items[1..], staged[path := body]);
        StagePhase(env, baseUrl, workspace, s, items, staged) == Restore(step + t.log, t.files)
    {
      step := [];
      path, body := "", [];
      var item := items[0];
      if item.None? || item.value.path.None? {
        return Some(NullEntry), path, body, step;
      }
      path := item.value.path.value;
      var root := env.canonical(workspace);
      var target := env.canonical(workspace + "/" + path);
      if !IsChildPath(root, target) {
        return Some(UnsafePath(path)), path, body, step;
      }
      var get := Get(DataFileUrl(env.codec, baseUrl, path));
      var code;
      code, body := DownloadFile(remote, get);
      step := [get];
      if code != 200 {
        return Some(DownloadFailed(get.url, code)), path, body, step;
      }
      if target == root || BlockedBy(env, workspace, staged, path) {
        return Some(StageFailed(path)), path, body, step;
      }
      if item.value.sha256 != Some(env.sha256(body)) {
        return Some(IntegrityError(path)), path, body, step;
      }
      failure := None;
    }

    /** `downloadFile`: one GET, answered from the unchanged store. */
    method DownloadFile(remote: RemoteStore, req: Request) returns (code: int, body: seq<byte>)
      requires req.Get?
      modifies remote
      ensures code == env.status(old(remote.objects), req)
      ensures body == Body(old(remote.objects), req.url)
      ensures remote.objects == old(remote.objects)
      ensures remote.log == old(remote.log) + [req]
    {
      code, body := remote.Send(env, req);
    }

    /** `restoreFromWorkspace`: remove the local database files and images, then copy the
        staged database files and the staged images tree in. */
    method RestoreFromWorkspace(device: LocalDevice, staged: map<string, seq<byte>>)
      modifies device
      ensures device.files == Installed(staged)
    {
      device.files := map[];
      CopyFileIfExists(device, staged, DB_PREFIX + DB_MAIN);
      CopyFileIfExists(device, staged, DB_PREFIX + DB_WAL);
      CopyFileIfExists(device, staged, DB_PREFIX + DB_SHM);
      device.files := device.files + ImagesOf(staged);
    }

    /** `copyFileIfExists` from the workspace into the device, under the same relative path. */
    method CopyFileIfExists(device: LocalDevice, staged: map<string, seq<byte>>, path: string)
      modifies device
      ensures device.files == CopyIfPresent(old(device.files), staged, path)
    {
      if path in staged {
        device.files := device.files[path := staged[path]];
      }
    }

    /** `downloadAndRestore`: the local files change only when every listed file was fetched
        and verified. */
    method DownloadAndRestore(remote: RemoteStore, device: LocalDevice, baseUrl: string, workspace: string)
      returns (outcome: Outcome<SyncError>)
      modifies remote, device
      ensures var r := RestoreRun(env, baseUrl, workspace, old(remote.objects));
        remote.objects == old(remote.objects) && remote.log == old(remote.log) + r.log &&
        (r.files.Ok? ==> outcome == Pass && device.files == r.files.value) &&
        (r.files.Err? ==> outcome == Fail(r.files.error) && device.files == old(device.files))
    {
      ghost var s := remote.objects;
      ghost var log0 := remote.log;
      ghost var goal := RestoreRun(env, baseUrl, workspace, s);
      var fetched := DownloadManifestIfExists(remote, baseUrl);
      if fetched.Err? {
        return Fail(fetched.error);
      }
      if fetched.value.None? {
        return Fail(NoRemoteManifest);
      }
      var files := fetched.value.value.files.GetOr([]);
      ghost var staging := StagePhase(env, baseUrl, workspace, s, files, map[]);
      assert goal.log == [Get(ManifestUrl(baseUrl))] + staging.log;
      var staged := StageFiles(remote, baseUrl, workspace, files);
      LogAssoc(log0, [Get(ManifestUrl(baseUrl))], staging.log);
      if staged.Err? {
        return Fail(staged.error);
      }
      assert goal.files == Ok(Installed(staged.value));
      RestoreFromWorkspace(device, staged.value);
      outcome := Pass;
    }
  }
}
