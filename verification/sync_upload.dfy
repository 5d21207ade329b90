/** `WebDavSyncManager.upload` as a function of the server's state: fetch the manifest, PUT
    every new or changed local file, DELETE every remote file that is no longer local, then PUT
    the new manifest. The first failing request ends the run. */
module SyncUpload {
  import opened Wrappers
  import opened HttpStatus
  import opened RemoteNaming
  import opened Manifest
  import opened LocalFiles
  import opened SyncProtocol

  /** The test in `upload`'s first loop: the path is not in the remote map, or the digest (a
      missing remote digest never matches) or the size differs. */
  predicate NeedsPut(e: LocalFileEntry, remote: map<string, ManifestFile>) {
    e.path !in remote || remote[e.path].sha256 != Some(e.sha256) || e.size != remote[e.path].size
  }

  function DataPut(env: Env, baseUrl: string, e: LocalFileEntry): Request {
    Put(DataFileUrl(env.codec, baseUrl, e.path), e.data)
  }

  function DataDelete(env: Env, baseUrl: string, p: string): Request {
    Delete(DataFileUrl(env.codec, baseUrl, p))
  }

  /** The first loop of `upload`, from entry 0 of `es` on. */
  function PutPhase(env: Env, baseUrl: string, s: Server, es: seq<LocalFileEntry>,
                    remote: map<string, ManifestFile>): Run
    decreases |es|
  {
    if es == [] then Run(s, [], Pass)
    else if NeedsPut(es[0], remote) then
      var req := DataPut(env, baseUrl, es[0]);
      var code := env.status(s, req);
      if PutAccepted(code) then After([req], PutPhase(env, baseUrl, Effect(s, req, code), es[1..], remote))
      else Run(s, [req], Fail(PutFailed(req.url, code)))
    else PutPhase(env, baseUrl, s, es[1..], remote)
  }

  /** The second loop of `upload`: every remote path, in map order, that is not local is
      deleted. */
  function DeletePhase(env: Env, baseUrl: string, s: Server, remotePaths: seq<string>, local: set<string>): Run
    decreases |remotePaths|
  {
    if remotePaths == [] then Run(s, [], Pass)
    else if remotePaths[0] in local then DeletePhase(env, baseUrl, s, remotePaths[1..], local)
    else
      var req := DataDelete(env, baseUrl, remotePaths[0]);
      var code := env.status(s, req);
      if DeleteAccepted(code) then After([req], DeletePhase(env, baseUrl, Effect(s, req, code), remotePaths[1..], local))
      else Run(s, [req], Fail(DeleteFailed(req.url, code)))
  }

  /** The remote map the two loops compare against (empty when the fetch failed). */
  function RemoteMap(env: Env, baseUrl: string, s: Server): map<string, ManifestFile> {
    var fetched := FetchManifest(env, baseUrl, s);
    if fetched.Ok? then ManifestMap(fetched.value) else map[]
  }

  function ManifestPut(env: Env, baseUrl: string, es: seq<LocalFileEntry>, now: int): Request {
    Put(ManifestUrl(baseUrl), env.toJson(NewManifest(es, now)))
  }

  /** `upload` for local entries `es` at time `now`. */
  function UploadRun(env: Env, baseUrl: string, s: Server, es: seq<LocalFileEntry>, now: int): Run {
    var get := Get(ManifestUrl(baseUrl));
    var fetched := FetchManifest(env, baseUrl, s);
    if fetched.Err? then Run(s, [get], Fail(fetched.error))
    else
      var remote := ManifestMap(fetched.value);
      var puts := PutPhase(env, baseUrl, s, es, remote);
      if puts.outcome.Fail? then After([get], puts)
      else
        var dels := DeletePhase(env, baseUrl, puts.server, env.order(remote.Keys), Paths(es));
        if dels.outcome.Fail? then After([get] + puts.log, dels)
        else
          var put := ManifestPut(env, baseUrl, es, now);
          var code := env.status(dels.server, put);
          Run(Effect(dels.server, put, code), [get] + puts.log + dels.log + [put],
              if PutAccepted(code) then Pass else Fail(PutFailed(put.url, code)))
  }

  // ---------------------------------------------------------------- the two loops

  /** The first loop PUTs only new or changed entries, each with its own bytes. */
  lemma {:induction false} PutPhaseOnlyChanged(env: Env, baseUrl: string, s: Server, es: seq<LocalFileEntry>,
                                               remote: map<string, ManifestFile>)
    ensures forall req :: req in PutPhase(env, baseUrl, s, es, remote).log ==>
      exists i :: 0 <= i < |es| && NeedsPut(es[i], remote) && req == DataPut(env, baseUrl, es[i])
    decreases |es|
  {
    if es != [] {
      var r := PutPhase(env, baseUrl, s, es, remote);
      var req0 := DataPut(env, baseUrl, es[0]);
      var code := env.status(s, req0);
      var next := if NeedsPut(es[0], remote) then Effect(s, req0, code) else s;
      if !NeedsPut(es[0], remote) || PutAccepted(code) {
        PutPhaseOnlyChanged(env, baseUrl, next, es[1..], remote);
        forall req | req in r.log
          ensures exists i :: 0 <= i < |es| && NeedsPut(es[i], remote) && req == DataPut(env, baseUrl, es[i])
        {
          if req in PutPhase(env, baseUrl, next, es[1..], remote).log {
            var i :| 0 <= i < |es[1..]| && NeedsPut(es[1..][i], remote) && req == DataPut(env, baseUrl, es[1..][i]);
            assert es[1..][i] == es[i + 1];
          } else {
            assert req == req0;
          }
        }
      }
    }
  }

  /** A completed first loop has PUT every new or changed entry. */
  lemma {:induction false} PutPhaseCoversChanged(env: Env, baseUrl: string, s: Server, es: seq<LocalFileEntry>,
                                                 remote: map<string, ManifestFile>)
    ensures PutPhase(env, baseUrl, s, es, remote).outcome.Pass? ==>
      forall i :: 0 <= i < |es| && NeedsPut(es[i], remote) ==>
        DataPut(env, baseUrl, es[i]) in PutPhase(env, baseUrl, s, es, remote).log
    decreases |es|
  {
    if es != [] {
      var r := PutPhase(env, baseUrl, s, es, remote);
      var req0 := DataPut(env, baseUrl, es[0]);
      var code := env.status(s, req0);
      var next := if NeedsPut(es[0], remote) then Effect(s, req0, code) else s;
      if r.outcome.Pass? {
        assert !NeedsPut(es[0], remote) || PutAccepted(code);
        var rest := PutPhase(env, baseUrl, next, es[1..], remote);
        assert forall req :: req in rest.log ==> req in r.log;
        PutPhaseCoversChanged(env, baseUrl, next, es[1..], remote);
        forall i | 0 < i < |es| && NeedsPut(es[i], remote)
          ensures DataPut(env, baseUrl, es[i]) in r.log
        {
          assert es[1..][i - 1] == es[i];
        }
      }
    }
  }

  lemma PutPhaseRequests(env: Env, baseUrl: string, s: Server, es: seq<LocalFileEntry>,
                         remote: map<string, ManifestFile>)
    ensures forall req :: req in PutPhase(env, baseUrl, s, es, remote).log ==>
      exists i :: 0 <= i < |es| && NeedsPut(es[i], remote) && req == DataPut(env, baseUrl, es[i])
    ensures PutPhase(env, baseUrl, s, es, remote).outcome.Pass? ==>
      forall i :: 0 <= i < |es| && NeedsPut(es[i], remote) ==>
        DataPut(env, baseUrl, es[i]) in PutPhase(env, baseUrl, s, es, remote).log
  {
    PutPhaseOnlyChanged(env, baseUrl, s, es, remote);
    PutPhaseCoversChanged(env, baseUrl, s, es, remote);
  }

  /** The first loop changes the store only at the URLs it PUTs. */
  lemma {:induction false} PutPhaseFrame(env: Env, baseUrl: string, s: Server, es: seq<LocalFileEntry>,
                                         remote: map<string, ManifestFile>, u: string)
    requires forall req :: req in PutPhase(env, baseUrl, s, es, remote).log ==> req.url != u
    ensures Agree(s, PutPhase(env, baseUrl, s, es, remote).server, u)
    decreases |es|
  {
    if es != [] {
      var req0 := DataPut(env, baseUrl, es[0]);
      if NeedsPut(es[0], remote) {
        var code := env.status(s, req0);
        if PutAccepted(code) {
          PutPhaseFrame(env, baseUrl, Effect(s, req0, code), es[1..], remote, u);
        }
      } else {
        PutPhaseFrame(env, baseUrl, s, es[1..], remote, u);
      }
    }
  }

  /** The second loop DELETEs only remote paths that are not local, and when it completes it has
      DELETEd every one of them. */
  lemma {:induction false} DeletePhaseRequests(env: Env, baseUrl: string, s: Server, remotePaths: seq<string>,
                                               local: set<string>)
    ensures forall req :: req in DeletePhase(env, baseUrl, s, remotePaths, local).log ==>
      exists p :: p in remotePaths && p !in local && req == DataDelete(env, baseUrl, p)
    ensures DeletePhase(env, baseUrl, s, remotePaths, local).outcome.Pass? ==>
      forall p :: p in remotePaths && p !in local ==>
        DataDelete(env, baseUrl, p) in DeletePhase(env, baseUrl, s, remotePaths, local).log
    decreases |remotePaths|
  {
    if remotePaths != [] {
      var r := DeletePhase(env, baseUrl, s, remotePaths, local);
      var p0 := remotePaths[0];
      var req0 := DataDelete(env, baseUrl, p0);
      var code := env.status(s, req0);
      if p0 !in local && !DeleteAccepted(code) {
        assert r.log == [req0];
      } else {
        var next := if p0 !in local then Effect(s, req0, code) else s;
        var tail := remotePaths[1..];
        var rest := DeletePhase(env, baseUrl, next, tail, local);
        var front := if p0 !in local then [req0] else [];
        assert r == After(front, rest);
        DeletePhaseRequests(env, baseUrl, next, tail, local);
        if r.outcome.Pass? {
          forall p | p in remotePaths && p !in local && p != p0
            ensures DataDelete(env, baseUrl, p) in r.log
          {
            assert p in tail;
          }
        }
      }
    }
  }

  /** The second loop changes the store only at the URLs it DELETEs. */
  lemma {:induction false} DeletePhaseFrame(env: Env, baseUrl: string, s: Server, remotePaths: seq<string>,
                                            local: set<string>, u: string)
    requires forall req :: req in DeletePhase(env, baseUrl, s, remotePaths, local).log ==> req.url != u
    ensures Agree(s, DeletePhase(env, baseUrl, s, remotePaths, local).server, u)
    decreases |remotePaths|
  {
    if remotePaths != [] {
      var req0 := DataDelete(env, baseUrl, remotePaths[0]);
      if remotePaths[0] !in local {
        var code := env.status(s, req0);
        if DeleteAccepted(code) {
          DeletePhaseFrame(env, baseUrl, Effect(s, req0, code), remotePaths[1..], local, u);
        }
      } else {
        DeletePhaseFrame(env, baseUrl, s, remotePaths[1..], local, u);
      }
    }
  }

  // ---------------------------------------------------------------- the whole upload

  /** The requests of an upload whose manifest fetch succeeded: the GET, the first loop's, the
      second loop's once the first completed, and the manifest PUT once both completed. */
  lemma UploadLog(env: Env, baseUrl: string, s: Server, es: seq<LocalFileEntry>, now: int)
    requires FetchManifest(env, baseUrl, s).Ok?
    ensures var remote := RemoteMap(env, baseUrl, s);
      var puts := PutPhase(env, baseUrl, s, es, remote);
      var dels := DeletePhase(env, baseUrl, puts.server, env.order(remote.Keys), Paths(es));
      var middle := if puts.outcome.Pass? then puts.log + dels.log else puts.log;
      var tail := if puts.outcome.Pass? && dels.outcome.Pass? then [ManifestPut(env, baseUrl, es, now)] else [];
      UploadRun(env, baseUrl, s, es, now).log == [Get(ManifestUrl(baseUrl))] + middle + tail
  {
    var get := Get(ManifestUrl(baseUrl));
    var r := UploadRun(env, baseUrl, s, es, now);
    var remote := RemoteMap(env, baseUrl, s);
    var puts := PutPhase(env, baseUrl, s, es, remote);
    var dels := DeletePhase(env, baseUrl, puts.server, env.order(remote.Keys), Paths(es));
    if puts.outcome.Fail? {
      assert r.log == [get] + puts.log;
      assert [get] + puts.log + [] == [get] + puts.log;
    } else {
      LogAssoc([get], puts.log, dels.log);
      if dels.outcome.Fail? {
        assert r.log == [get] + puts.log + dels.log;
        assert [get] + (puts.log + dels.log) + [] == [get] + (puts.log + dels.log);
      } else {
        assert r.log == [get] + puts.log + dels.log + [ManifestPut(env, baseUrl, es, now)];
      }
    }
  }

  /** An upload starts with the manifest GET; a failed fetch is the only request and changes
      nothing; a completed upload ends with the PUT of the new manifest, which the server then
      holds. */
  lemma UploadOrder(env: Env, baseUrl: string, s: Server, es: seq<LocalFileEntry>, now: int)
    ensures UploadRun(env, baseUrl, s, es, now).log != []
    ensures UploadRun(env, baseUrl, s, es, now).log[0] == Get(ManifestUrl(baseUrl))
    ensures FetchManifest(env, baseUrl, s).Err? ==>
      UploadRun(env, baseUrl, s, es, now) == Run(s, [Get(ManifestUrl(baseUrl))], Fail(FetchManifest(env, baseUrl, s).error))
    ensures UploadRun(env, baseUrl, s, es, now).outcome.Pass? ==>
      var r := UploadRun(env, baseUrl, s, es, now);
      r.log[|r.log| - 1] == ManifestPut(env, baseUrl, es, now) &&
      ManifestUrl(baseUrl) in r.server && r.server[ManifestUrl(baseUrl)] == env.toJson(NewManifest(es, now))
  {
    if FetchManifest(env, baseUrl, s).Ok? {
      UploadLog(env, baseUrl, s, es, now);
    }
  }

  /** The data PUTs and DELETEs of an upload never address the manifest's URL. */
  lemma PhasesAvoidManifest(env: Env, baseUrl: string, s: Server, es: seq<LocalFileEntry>)
    requires ValidCodec(env.codec)
    ensures var remote := RemoteMap(env, baseUrl, s);
      var puts := PutPhase(env, baseUrl, s, es, remote);
      var dels := DeletePhase(env, baseUrl, puts.server, env.order(remote.Keys), Paths(es));
      (forall req :: req in puts.log ==> req.url != ManifestUrl(baseUrl)) &&
      (forall req :: req in dels.log ==> req.url != ManifestUrl(baseUrl))
  {
    var remote := RemoteMap(env, baseUrl, s);
    var puts := PutPhase(env, baseUrl, s, es, remote);
    PutPhaseRequests(env, baseUrl, s, es, remote);
    var dels := DeletePhase(env, baseUrl, puts.server, env.order(remote.Keys), Paths(es));
    DeletePhaseRequests(env, baseUrl, puts.server, env.order(remote.Keys), Paths(es));
    forall req | req in puts.log
      ensures req.url != ManifestUrl(baseUrl)
    {
      var i :| 0 <= i < |es| && NeedsPut(es[i], remote) && req == DataPut(env, baseUrl, es[i]);
      DataFileUrlIsNotManifestUrl(env.codec, baseUrl, es[i].path);
    }
    forall req | req in dels.log
      ensures req.url != ManifestUrl(baseUrl)
    {
      var p :| p in env.order(remote.Keys) && p !in Paths(es) && req == DataDelete(env, baseUrl, p);
      DataFileUrlIsNotManifestUrl(env.codec, baseUrl, p);
    }
  }

  /** In a log made of a GET, requests that avoid `url`, and at most one final request `last`,
      only `last` can address `url` after the first position. */
  lemma OnlyLastAddresses(log: seq<Request>, url: string, middle: seq<Request>, tail: seq<Request>, last: Request)
    requires log == [Get(url)] + middle + tail
    requires forall req :: req in middle ==> req.url != url
    requires tail == [] || tail == [last]
    ensures forall k :: 0 < k < |log| && log[k].url == url ==> k == |log| - 1 && log[k] == last
  {
    forall k | 0 < k <= |middle|
      ensures log[k].url != url
    {
      assert log[k] == middle[k - 1];
    }
  }

  /** No request between the manifest GET and the final manifest PUT addresses the manifest. */
  lemma UploadTouchesManifestLast(env: Env, baseUrl: string, s: Server, es: seq<LocalFileEntry>, now: int)
    requires ValidCodec(env.codec)
    ensures var r := UploadRun(env, baseUrl, s, es, now);
      forall k :: 0 < k < |r.log| && r.log[k].url == ManifestUrl(baseUrl) ==>
        k == |r.log| - 1 && r.log[k] == ManifestPut(env, baseUrl, es, now)
  {
    if FetchManifest(env, baseUrl, s).Ok? {
      var remote := RemoteMap(env, baseUrl, s);
      var puts := PutPhase(env, baseUrl, s, es, remote);
      var dels := DeletePhase(env, baseUrl, puts.server, env.order(remote.Keys), Paths(es));
      var middle := if puts.outcome.Pass? then puts.log + dels.log else puts.log;
      var tail := if puts.outcome.Pass? && dels.outcome.Pass? then [ManifestPut(env, baseUrl, es, now)] else [];
      UploadLog(env, baseUrl, s, es, now);
      PhasesAvoidManifest(env, baseUrl, s, es);
      OnlyLastAddresses(UploadRun(env, baseUrl, s, es, now).log, ManifestUrl(baseUrl), middle, tail, ManifestPut(env, baseUrl, es, now));
    }
  }

  /** A failed upload leaves the stored manifest as it was: data requests never address the
      manifest's URL, and a rejected manifest PUT stores nothing. */
  lemma FailedUploadKeepsManifest(env: Env, baseUrl: string, s: Server, es: seq<LocalFileEntry>, now: int)
    requires ValidCodec(env.codec)
    ensures UploadRun(env, baseUrl, s, es, now).outcome.Fail? ==>
      Agree(s, UploadRun(env, baseUrl, s, es, now).server, ManifestUrl(baseUrl))
  {
    var fetched := FetchManifest(env, baseUrl, s);
    if fetched.Ok? {
      var u := ManifestUrl(baseUrl);
      var remote := ManifestMap(fetched.value);
      var puts := PutPhase(env, baseUrl, s, es, remote);
      PutPhaseRequests(env, baseUrl, s, es, remote);
      forall req | req in puts.log
        ensures req.url != u
      {
        var i :| 0 <= i < |es| && NeedsPut(es[i], remote) && req == DataPut(env, baseUrl, es[i]);
        DataFileUrlIsNotManifestUrl(env.codec, baseUrl, es[i].path);
      }
      PutPhaseFrame(env, baseUrl, s, es, remote, u);
      if puts.outcome.Pass? {
        var paths := env.order(remote.Keys);
        var dels := DeletePhase(env, baseUrl, puts.server, paths, Paths(es));
        DeletePhaseRequests(env, baseUrl, puts.server, paths, Paths(es));
        forall req | req in dels.log
          ensures req.url != u
        {
          var p :| p in paths && p !in Paths(es) && req == DataDelete(env, baseUrl, p);
          DataFileUrlIsNotManifestUrl(env.codec, baseUrl, p);
        }
        DeletePhaseFrame(env, baseUrl, puts.server, paths, Paths(es), u);
      }
    }
  }

  /** Every data PUT of an upload carries a new or changed local file, and a completed upload has
      PUT exactly those entries that are new or changed against the remote manifest. */
  lemma UploadPutsExactlyChanged(env: Env, baseUrl: string, s: Server, es: seq<LocalFileEntry>, now: int)
    requires ValidCodec(env.codec) && DistinctPaths(es)
    ensures forall req :: req in UploadRun(env, baseUrl, s, es, now).log && req.Put? && req.url != ManifestUrl(baseUrl) ==>
      exists i :: 0 <= i < |es| && NeedsPut(es[i], RemoteMap(env, baseUrl, s)) && req == DataPut(env, baseUrl, es[i])
    ensures UploadRun(env, baseUrl, s, es, now).outcome.Pass? ==>
      forall i :: 0 <= i < |es| ==>
        (DataPut(env, baseUrl, es[i]) in UploadRun(env, baseUrl, s, es, now).log <==> NeedsPut(es[i], RemoteMap(env, baseUrl, s)))
  {
    var r := UploadRun(env, baseUrl, s, es, now);
    var fetched := FetchManifest(env, baseUrl, s);
    if fetched.Ok? {
      var remote := ManifestMap(fetched.value);
      assert remote == RemoteMap(env, baseUrl, s);
      var puts := PutPhase(env, baseUrl, s, es, remote);
      PutPhaseRequests(env, baseUrl, s, es, remote);
      var dels := DeletePhase(env, baseUrl, puts.server, env.order(remote.Keys), Paths(es));
      DeletePhaseRequests(env, baseUrl, puts.server, env.order(remote.Keys), Paths(es));
      UploadLog(env, baseUrl, s, es, now);
      forall req | req in r.log && req.Put? && req.url != ManifestUrl(baseUrl)
        ensures req in puts.log
      {
        if req in dels.log && puts.outcome.Pass? {
          assert false;
        }
      }
      if r.outcome.Pass? {
        forall i | 0 <= i < |es| && DataPut(env, baseUrl, es[i]) in r.log
          ensures NeedsPut(es[i], remote)
        {
          DataFileUrlIsNotManifestUrl(env.codec, baseUrl, es[i].path);
          var j :| 0 <= j < |es| && NeedsPut(es[j], remote) && DataPut(env, baseUrl, es[i]) == DataPut(env, baseUrl, es[j]);
          DataFileUrlInjective(env.codec, baseUrl, es[i].path, es[j].path);
        }
      }
    }
  }

  /** Every DELETE of an upload removes a remote file that is no longer local, never a local one
      and never the manifest, and a completed upload has DELETEd every such file. */
  lemma UploadDeletesExactlyStale(env: Env, baseUrl: string, s: Server, es: seq<LocalFileEntry>, now: int)
    requires ValidEnv(env)
    ensures forall req :: req in UploadRun(env, baseUrl, s, es, now).log && req.Delete? ==>
      exists p :: p in RemoteMap(env, baseUrl, s) && p !in Paths(es) && req == DataDelete(env, baseUrl, p)
    ensures forall req :: req in UploadRun(env, baseUrl, s, es, now).log && req.Delete? ==>
      req.url != ManifestUrl(baseUrl) && forall i :: 0 <= i < |es| ==> req.url != DataFileUrl(env.codec, baseUrl, es[i].path)
    ensures UploadRun(env, baseUrl, s, es, now).outcome.Pass? ==>
      forall p :: p in RemoteMap(env, baseUrl, s) && p !in Paths(es) ==>
        DataDelete(env, baseUrl, p) in UploadRun(env, baseUrl, s, es, now).log
  {
    var r := UploadRun(env, baseUrl, s, es, now);
    var fetched := FetchManifest(env, baseUrl, s);
    if fetched.Ok? {
      var remote := ManifestMap(fetched.value);
      assert remote == RemoteMap(env, baseUrl, s);
      var paths := env.order(remote.Keys);
      assert Enumerates(paths, remote.Keys);
      var puts := PutPhase(env, baseUrl, s, es, remote);
      PutPhaseRequests(env, baseUrl, s, es, remote);
      var dels := DeletePhase(env, baseUrl, puts.server, paths, Paths(es));
      DeletePhaseRequests(env, baseUrl, puts.server, paths, Paths(es));
      UploadLog(env, baseUrl, s, es, now);
      forall req | req in r.log && req.Delete?
        ensures exists p :: p in remote && p !in Paths(es) && req == DataDelete(env, baseUrl, p)
        ensures req.url != ManifestUrl(baseUrl) && forall i :: 0 <= i < |es| ==> req.url != DataFileUrl(env.codec, baseUrl, es[i].path)
      {
        if req in puts.log {
          assert false;
        }
        assert req in dels.log;
        var p :| p in paths && p !in Paths(es) && req == DataDelete(env, baseUrl, p);
        DataFileUrlIsNotManifestUrl(env.codec, baseUrl, p);
        forall i | 0 <= i < |es|
          ensures req.url != DataFileUrl(env.codec, baseUrl, es[i].path)
        {
          DataFileUrlInjective(env.codec, baseUrl, p, es[i].path);
        }
      }
    }
  }

  // ---------------------------------------------------------------- consistency and idempotence

  /** Completing the first loop leaves every local entry backed, given that the entries it skips
      were backed before. */
  lemma {:induction false} PutPhaseBacks(env: Env, baseUrl: string, s: Server, es: seq<LocalFileEntry>,
                                         remote: map<string, ManifestFile>)
    requires ValidCodec(env.codec) && Faithful(es, env.sha256) && DistinctPaths(es)
    requires forall i :: 0 <= i < |es| && !NeedsPut(es[i], remote) ==> Backed(env, baseUrl, s, es[i])
    ensures PutPhase(env, baseUrl, s, es, remote).outcome.Pass? ==>
      forall i :: 0 <= i < |es| ==> Backed(env, baseUrl, PutPhase(env, baseUrl, s, es, remote).server, es[i])
    decreases |es|
  {
    var r := PutPhase(env, baseUrl, s, es, remote);
    if es != [] && r.outcome.Pass? {
      var req0 := DataPut(env, baseUrl, es[0]);
      var url0 := req0.url;
      var next := if NeedsPut(es[0], remote) then Effect(s, req0, env.status(s, req0)) else s;
      var tail := es[1..];
      assert r == After(if NeedsPut(es[0], remote) then [req0] else [], PutPhase(env, baseUrl, next, tail, remote));
      assert Backed(env, baseUrl, next, es[0]);
      forall j | 0 <= j < |tail|
        ensures DataFileUrl(env.codec, baseUrl, tail[j].path) != url0
      {
        assert tail[j] == es[j + 1];
        DataFileUrlInjective(env.codec, baseUrl, tail[j].path, es[0].path);
      }
      forall j | 0 <= j < |tail| && !NeedsPut(tail[j], remote)
        ensures Backed(env, baseUrl, next, tail[j])
      {
        assert tail[j] == es[j + 1];
      }
      assert Faithful(tail, env.sha256) by {
        forall j | 0 <= j < |tail|
          ensures tail[j].sha256 == env.sha256(tail[j].data) && tail[j].size == |tail[j].data|
        {
          assert tail[j] == es[j + 1];
        }
      }
      assert DistinctPaths(tail) by {
        forall a, b | 0 <= a < b < |tail|
          ensures tail[a].path != tail[b].path
        {
          assert tail[a] == es[a + 1] && tail[b] == es[b + 1];
        }
      }
      PutPhaseBacks(env, baseUrl, next, tail, remote);
      PutPhaseRequests(env, baseUrl, next, tail, remote);
      PutPhaseFrame(env, baseUrl, next, tail, remote, url0);
      forall i | 0 < i < |es|
        ensures Backed(env, baseUrl, r.server, es[i])
      {
        assert es[i] == tail[i - 1];
      }
    }
  }

  /** The second loop leaves every local entry's object where it was. */
  lemma DeletePhaseKeepsLocal(env: Env, baseUrl: string, s: Server, remotePaths: seq<string>,
                              es: seq<LocalFileEntry>, i: int)
    requires ValidCodec(env.codec) && 0 <= i < |es|
    ensures Agree(s, DeletePhase(env, baseUrl, s, remotePaths, Paths(es)).server, DataFileUrl(env.codec, baseUrl, es[i].path))
  {
    var u := DataFileUrl(env.codec, baseUrl, es[i].path);
    var dels := DeletePhase(env, baseUrl, s, remotePaths, Paths(es));
    DeletePhaseRequests(env, baseUrl, s, remotePaths, Paths(es));
    forall req | req in dels.log
      ensures req.url != u
    {
      var p :| p in remotePaths && p !in Paths(es) && req == DataDelete(env, baseUrl, p);
      DataFileUrlInjective(env.codec, baseUrl, p, es[i].path);
    }
    DeletePhaseFrame(env, baseUrl, s, remotePaths, Paths(es), u);
  }

  /** A completed upload from a consistent server leaves a consistent server: the stored
      manifest reads back as the new manifest, and every file it lists is on the server with the
      listed digest and size. */
  lemma UploadKeepsConsistent(env: Env, baseUrl: string, s: Server, es: seq<LocalFileEntry>, now: int)
    requires ValidEnv(env) && Faithful(es, env.sha256) && DistinctPaths(es)
    requires Backs(env, baseUrl, s, RemoteMap(env, baseUrl, s))
    ensures UploadRun(env, baseUrl, s, es, now).outcome.Pass? ==>
      var t := UploadRun(env, baseUrl, s, es, now).server;
      Consistent(env, baseUrl, t) && env.fromJson(t[ManifestUrl(baseUrl)]) == Parsed(NewManifest(es, now))
    ensures UploadRun(env, baseUrl, s, es, now).outcome.Pass? ==>
      forall i :: 0 <= i < |es| ==> Backed(env, baseUrl, UploadRun(env, baseUrl, s, es, now).server, es[i])
  {
    var r := UploadRun(env, baseUrl, s, es, now);
    if r.outcome.Pass? {
      var fetched := FetchManifest(env, baseUrl, s);
      var remote := ManifestMap(fetched.value);
      var puts := PutPhase(env, baseUrl, s, es, remote);
      var paths := env.order(remote.Keys);
      var dels := DeletePhase(env, baseUrl, puts.server, paths, Paths(es));
      var put := ManifestPut(env, baseUrl, es, now);
      var m := NewManifest(es, now);
      assert r.server == dels.server[ManifestUrl(baseUrl) := env.toJson(m)];
      PutPhaseBacks(env, baseUrl, s, es, remote);
      forall i | 0 <= i < |es|
        ensures Backed(env, baseUrl, r.server, es[i])
      {
        DeletePhaseKeepsLocal(env, baseUrl, puts.server, paths, es, i);
        DataFileUrlIsNotManifestUrl(env.codec, baseUrl, es[i].path);
      }
      NewManifestMap(es, now);
      assert env.fromJson(env.toJson(m)) == Parsed(m);
      forall p | p in ManifestMap(Some(m))
        ensures var url := DataFileUrl(env.codec, baseUrl, p);
          url in r.server && ManifestMap(Some(m))[p].sha256 == Some(env.sha256(r.server[url])) &&
          ManifestMap(Some(m))[p].size == |r.server[url]|
      {
        var i :| 0 <= i < |es| && es[i].path == p;
      }
    }
  }

  /** With no entry to PUT, the first loop issues nothing. */
  lemma {:induction false} PutPhaseQuiet(env: Env, baseUrl: string, s: Server, es: seq<LocalFileEntry>,
                                         remote: map<string, ManifestFile>)
    requires forall i :: 0 <= i < |es| ==> !NeedsPut(es[i], remote)
    ensures PutPhase(env, baseUrl, s, es, remote) == Run(s, [], Pass)
    decreases |es|
  {
    if es != [] {
      assert forall i :: 0 <= i < |es[1..]| ==> es[1..][i] == es[i + 1];
      PutPhaseQuiet(env, baseUrl, s, es[1..], remote);
    }
  }

  /** With every remote path still local, the second loop issues nothing. */
  lemma {:induction false} DeletePhaseQuiet(env: Env, baseUrl: string, s: Server, remotePaths: seq<string>,
                                            local: set<string>)
    requires forall p :: p in remotePaths ==> p in local
    ensures DeletePhase(env, baseUrl, s, remotePaths, local) == Run(s, [], Pass)
    decreases |remotePaths|
  {
    if remotePaths != [] {
      assert forall p :: p in remotePaths[1..] ==> p in remotePaths;
      DeletePhaseQuiet(env, baseUrl, s, remotePaths[1..], local);
    }
  }

  /** Uploading unchanged files again only reads the manifest and writes a new one: when the
      stored manifest is the one an upload of the same entries wrote, no data file is PUT or
      DELETEd. */
  lemma SecondUploadIsQuiet(env: Env, baseUrl: string, s: Server, es: seq<LocalFileEntry>, before: int, now: int)
    requires ValidEnv(env) && DistinctPaths(es)
    requires ManifestUrl(baseUrl) in s && s[ManifestUrl(baseUrl)] == env.toJson(NewManifest(es, before))
    requires env.status(s, Get(ManifestUrl(baseUrl))) == 200
    ensures UploadRun(env, baseUrl, s, es, now).log == [Get(ManifestUrl(baseUrl)), ManifestPut(env, baseUrl, es, now)]
  {
    var stored := NewManifest(es, before);
    assert env.fromJson(env.toJson(stored)) == Parsed(stored);
    assert FetchManifest(env, baseUrl, s) == Ok(Some(stored));
    var remote := ManifestMap(Some(stored));
    NewManifestMap(es, before);
    PutPhaseQuiet(env, baseUrl, s, es, remote);
    var paths := env.order(remote.Keys);
    assert Enumerates(paths, remote.Keys);
    DeletePhaseQuiet(env, baseUrl, s, paths, Paths(es));
  }

  /** Two uploads of the same files in a row: the second PUTs and DELETEs no data file, provided
      the server serves the stored manifest. */
  lemma UploadTwiceIsQuiet(env: Env, baseUrl: string, s: Server, es: seq<LocalFileEntry>, first: int, second: int)
    requires ValidEnv(env) && DistinctPaths(es)
    requires UploadRun(env, baseUrl, s, es, first).outcome.Pass?
    requires env.status(UploadRun(env, baseUrl, s, es, first).server, Get(ManifestUrl(baseUrl))) == 200
    ensures UploadRun(env, baseUrl, UploadRun(env, baseUrl, s, es, first).server, es, second).log ==
      [Get(ManifestUrl(baseUrl)), ManifestPut(env, baseUrl, es, second)]
  {
    UploadOrder(env, baseUrl, s, es, first);
    SecondUploadIsQuiet(env, baseUrl, UploadRun(env, baseUrl, s, es, first).server, es, first, second);
  }
}
