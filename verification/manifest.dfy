/** The manifest stored as `manifest.json`: which relative paths the remote copy holds, with
    each file's size and SHA-256 digest. */
module Manifest {
  import opened Wrappers

  /** A manifest entry as Gson fills it: any field may be missing. */
  datatype ManifestFile = ManifestFile(path: Option<string>, sha256: Option<string>, size: int)

  datatype SyncManifest = SyncManifest(version: int, updatedAt: int, files: Option<seq<Option<ManifestFile>>>)

  const MANIFEST_VERSION: int := 1

  predicate HasPath(f: Option<ManifestFile>, p: string) {
    f.Some? && f.value.path == Some(p)
  }

  /** Entries by path; nulls and entries without a path are skipped, and a later entry for a
      path replaces an earlier one. */
  function FilesMap(files: seq<Option<ManifestFile>>): map<string, ManifestFile> {
    if files == [] then map[]
    else
      var m := FilesMap(files[..|files| - 1]);
      var last := files[|files| - 1];
      if last.Some? && last.value.path.Some? then m[last.value.path.value := last.value] else m
  }

  /** The map of a possibly absent manifest: empty when the manifest or its list is null. */
  function ManifestMap(manifest: Option<SyncManifest>): map<string, ManifestFile> {
    if manifest.None? || manifest.value.files.None? then map[] else FilesMap(manifest.value.files.value)
  }

  /** A path is a key exactly when some entry carries it, and it maps to the last such entry. */
  lemma {:induction false} FilesMapSpec(files: seq<Option<ManifestFile>>, p: string)
    ensures p in FilesMap(files) <==> exists i :: 0 <= i < |files| && HasPath(files[i], p)
    ensures p in FilesMap(files) ==>
      exists i :: 0 <= i < |files| && files[i] == Some(FilesMap(files)[p]) &&
        HasPath(files[i], p) && forall j :: i < j < |files| ==> !HasPath(files[j], p)
  {
    if files != [] {
      var init := files[..|files| - 1];
      var n := |files| - 1;
      FilesMapSpec(init, p);
      if HasPath(files[n], p) {
        assert files[n] == Some(FilesMap(files)[p]);
      } else {
        if exists i :: 0 <= i < |files| && HasPath(files[i], p) {
          var i :| 0 <= i < |files| && HasPath(files[i], p);
          assert i < n && init[i] == files[i];
        }
        if p in FilesMap(files) {
          var i :| 0 <= i < |init| && init[i] == Some(FilesMap(init)[p]) &&
            HasPath(init[i], p) && forall j :: i < j < |init| ==> !HasPath(init[j], p);
          assert files[i] == init[i];
          assert forall j :: i < j < |files| ==> !HasPath(files[j], p) by {
            forall j | i < j < |files|
              ensures !HasPath(files[j], p)
            {
              if j < n {
                assert files[j] == init[j];
              }
            }
          }
        }
      }
    }
  }

  /** When no path occurs twice, every entry with a path is exactly what the map holds for it. */
  lemma FilesMapOfDistinct(files: seq<Option<ManifestFile>>, i: int)
    requires 0 <= i < |files| && files[i].Some? && files[i].value.path.Some?
    requires forall a, b :: 0 <= a < b < |files| && files[a].Some? && files[b].Some? && files[a].value.path.Some? ==>
      files[a].value.path != files[b].value.path
    ensures files[i].value.path.value in FilesMap(files)
    ensures FilesMap(files)[files[i].value.path.value] == files[i].value
  {
    var p := files[i].value.path.value;
    FilesMapSpec(files, p);
    var k :| 0 <= k < |files| && files[k] == Some(FilesMap(files)[p]) &&
      HasPath(files[k], p) && forall j :: k < j < |files| ==> !HasPath(files[j], p);
    assert HasPath(files[i], p);
  }

  /** `toManifestMap`. */
  method ToManifestMap(manifest: Option<SyncManifest>) returns (result: map<string, ManifestFile>)
    ensures result == ManifestMap(manifest)
    ensures forall p :: p in result ==> result[p].path == Some(p)
  {
    result := map[];
    if manifest.None? || manifest.value.files.None? {
      return;
    }
    var files := manifest.value.files.value;
    var i := 0;
    while i < |files|
      invariant 0 <= i <= |files|
      invariant result == FilesMap(files[..i])
      invariant forall p :: p in result ==> result[p].path == Some(p)
    {
      assert files[..i + 1][..i] == files[..i];
      var file := files[i];
      if file.Some? && file.value.path.Some? {
        result := result[file.value.path.value := file.value];
      }
      i := i + 1;
    }
    assert files[..|files|] == files;
  }
}
