/** What the incremental WebDAV sync exchanges with the server: requests, their effect on the
    stored objects, the manifest fetch, the manifest an upload writes, and the environment the
    sync runs in (digest, codecs, JSON mapping, the server's answers). */
module SyncProtocol {
  import opened Wrappers
  import opened JavaText
  import opened HttpStatus
  import opened RemoteNaming
  import opened Manifest
  import opened LocalFiles

  /** The WebDAV requests the sync issues. */
  datatype Request = Get(url: string) | Put(url: string, body: seq<byte>) | Delete(url: string)

  /** The objects the server stores, by URL. */
  type Server = map<string, seq<byte>>

  /** What Gson makes of a JSON document: a manifest, `null` (an empty or "null" document), or
      a syntax error. */
  datatype ParseResult = Parsed(manifest: SyncManifest) | ParsedNull | Malformed

  /** Everything the sync relies on without modelling it: URL codecs, SHA-256 as lower-case hex,
      Gson in both directions, the status the server answers a request with in a given state,
      and the iteration order of a `HashMap`'s key set; `canonical` is `File.getCanonicalPath`. */
  datatype Env = Env(codec: Codec,
                     sha256: seq<byte> -> string,
                     toJson: SyncManifest -> seq<byte>,
                     fromJson: seq<byte> -> ParseResult,
                     status: (Server, Request) -> int,
                     order: set<string> -> seq<string>,
                     canonical: string -> string)

  /** `order` lists a set exactly once per element. */
  predicate Enumerates(xs: seq<string>, s: set<string>) {
    (forall x :: x in xs ==> x in s) && (forall x :: x in s ==> x in xs) &&
    (forall a, b :: 0 <= a < b < |xs| ==> xs[a] != xs[b])
  }

  /** The hypotheses the properties of the sync rest on. */
  ghost predicate ValidEnv(env: Env) {
    ValidCodec(env.codec) &&
    (forall m :: env.fromJson(env.toJson(m)) == Parsed(m)) &&
    (forall s: set<string> :: Enumerates(env.order(s), s))
  }

  /** A server that answers every GET of a stored object with 200. */
  ghost predicate ServesStoredObjects(env: Env) {
    forall s: Server, u :: u in s ==> env.status(s, Get(u)) == 200
  }

  /** What a request does to the store given the status it got: an accepted PUT stores its body,
      an accepted DELETE (404 included) removes the object, and everything else changes
      nothing. */
  function Effect(s: Server, req: Request, code: int): Server {
    match req
    case Get(_) => s
    case Put(url, body) => if PutAccepted(code) then s[url := body] else s
    case Delete(url) => if DeleteAccepted(code) then s - {url} else s
  }

  /** The body a GET reads: the stored object, or nothing. */
  function Body(s: Server, url: string): seq<byte> {
    if url in s then s[url] else []
  }

  /** Why an upload or a restore stops; each is an exception in the source. */
  datatype SyncError =
    | ManifestHttp(code: int)
    | ManifestCorrupt
    | NoRemoteManifest
    | PutFailed(url: string, code: int)
    | DeleteFailed(url: string, code: int)
    | DownloadFailed(url: string, code: int)
    | NullEntry
    | UnsafePath(path: string)
    | StageFailed(path: string)
    | IntegrityError(path: string)

  /** `downloadManifestIfExists`: 404 or a JSON `null` means no manifest, any other status but
      200 is an error, and a body Gson cannot read is an error. */
  function FetchManifest(env: Env, baseUrl: string, s: Server): (r: Result<Option<SyncManifest>, SyncError>)
    ensures r == Ok(None) <==>
      env.status(s, Get(ManifestUrl(baseUrl))) == 404 ||
      (env.status(s, Get(ManifestUrl(baseUrl))) == 200 && env.fromJson(Body(s, ManifestUrl(baseUrl))) == ParsedNull)
    ensures r.Ok? && r.value.Some? <==>
      env.status(s, Get(ManifestUrl(baseUrl))) == 200 && env.fromJson(Body(s, ManifestUrl(baseUrl))).Parsed?
    ensures r.Ok? && r.value.Some? ==> env.fromJson(Body(s, ManifestUrl(baseUrl))) == Parsed(r.value.value)
    ensures r == Err(ManifestCorrupt) <==>
      env.status(s, Get(ManifestUrl(baseUrl))) == 200 && env.fromJson(Body(s, ManifestUrl(baseUrl))).Malformed?
    ensures r.Err? && r.error != ManifestCorrupt ==>
      r.error == ManifestHttp(env.status(s, Get(ManifestUrl(baseUrl)))) && env.status(s, Get(ManifestUrl(baseUrl))) !in {200, 404}
  {
    var url := ManifestUrl(baseUrl);
    match ManifestGetStatus(env.status(s, Get(url)))
    case ManifestAbsent => Ok(None)
    case ManifestFailed(code) => Err(ManifestHttp(code))
    case ManifestPresent =>
      match env.fromJson(Body(s, url))
      case Parsed(m) => Ok(Some(m))
      case ParsedNull => Ok(None)
      case Malformed => Err(ManifestCorrupt)
  }

  /** The manifest entry an upload writes for a local file. */
  function EntryRecord(e: LocalFileEntry): ManifestFile {
    ManifestFile(Some(e.path), Some(e.sha256), e.size)
  }

  /** The manifest an upload writes: version 1, the upload time, one entry per local file in
      local order. */
  function NewManifest(es: seq<LocalFileEntry>, now: int): (m: SyncManifest)
    ensures m.version == MANIFEST_VERSION && m.updatedAt == now
    ensures m.files.Some? && |m.files.value| == |es|
    ensures forall i :: 0 <= i < |es| ==> m.files.value[i] == Some(ManifestFile(Some(es[i].path), Some(es[i].sha256), es[i].size))
  {
    SyncManifest(MANIFEST_VERSION, now, Some(seq(|es|, i requires 0 <= i < |es| => Some(EntryRecord(es[i])))))
  }

  /** The relative paths of a list of local entries. */
  function Paths(es: seq<LocalFileEntry>): (r: set<string>)
    ensures forall p :: p in r <==> exists i :: 0 <= i < |es| && es[i].path == p
  {
    set i | 0 <= i < |es| :: es[i].path
  }

  /** The map of the manifest an upload writes holds exactly the local paths, each with its own
      digest and size, when no path occurs twice. */
  lemma NewManifestMap(es: seq<LocalFileEntry>, now: int)
    requires DistinctPaths(es)
    ensures ManifestMap(Some(NewManifest(es, now))).Keys == Paths(es)
    ensures forall i :: 0 <= i < |es| ==> ManifestMap(Some(NewManifest(es, now)))[es[i].path] == EntryRecord(es[i])
  {
    var files := NewManifest(es, now).files.value;
    var m := FilesMap(files);
    assert ManifestMap(Some(NewManifest(es, now))) == m;
    forall i | 0 <= i < |es|
      ensures es[i].path in m && m[es[i].path] == EntryRecord(es[i])
    {
      FilesMapOfDistinct(files, i);
    }
    forall p | p in m
      ensures p in Paths(es)
    {
      FilesMapSpec(files, p);
      var i :| 0 <= i < |files| && HasPath(files[i], p);
      assert es[i].path == p;
    }
  }

  /** `isChildPath` on canonical paths ('/' is `File.separator` on Android). */
  predicate IsChildPath(parentPath: string, childPath: string) {
    childPath == parentPath || StartsWith(childPath, parentPath + "/")
  }

  /** The object for local entry `e` is on the server with `e`'s digest and size. */
  predicate Backed(env: Env, baseUrl: string, s: Server, e: LocalFileEntry) {
    var url := DataFileUrl(env.codec, baseUrl, e.path);
    url in s && env.sha256(s[url]) == e.sha256 && |s[url]| == e.size
  }

  /** Every path a manifest map lists has its object on the server, with the listed digest and
      size. */
  predicate Backs(env: Env, baseUrl: string, s: Server, remote: map<string, ManifestFile>) {
    forall p :: p in remote ==>
      var url := DataFileUrl(env.codec, baseUrl, p);
      url in s && remote[p].sha256 == Some(env.sha256(s[url])) && remote[p].size == |s[url]|
  }

  /** The stored manifest is readable and every file it lists is backed. */
  predicate Consistent(env: Env, baseUrl: string, s: Server) {
    var url := ManifestUrl(baseUrl);
    url in s && env.fromJson(s[url]).Parsed? && Backs(env, baseUrl, s, ManifestMap(Some(env.fromJson(s[url]).manifest)))
  }

  /** Two stores agree on one URL. */
  predicate Agree(s: Server, t: Server, url: string) {
    (url in s <==> url in t) && (url in s ==> s[url] == t[url])
  }

  /** The requests issued, the store they leave, and how the run ended. */
  datatype Run = Run(server: Server, log: seq<Request>, outcome: Outcome<SyncError>)

  /** A run with earlier requests in front of its log. */
  function After(earlier: seq<Request>, r: Run): Run {
    Run(r.server, earlier + r.log, r.outcome)
  }

  lemma LogAssoc(a: seq<Request>, b: seq<Request>, c: seq<Request>)
    ensures a + (b + c) == (a + b) + c
  {
  }

  lemma AfterAfter(a: seq<Request>, b: seq<Request>, r: Run)
    ensures After(a, After(b, r)) == After(a + b, r)
  {
    assert a + (b + r.log) == (a + b) + r.log;
  }
}
