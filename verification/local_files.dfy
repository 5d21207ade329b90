/** The local side of an upload: the three database files of the snapshot and every regular
    file under `images/`, each with its relative path, size and SHA-256 digest. */
module LocalFiles {
  import opened Wrappers
  import opened JavaText

  /** A filesystem node as `java.io.File` reports it; `listFiles` returns null for a directory
      that is not `listable`. */
  datatype Node = RegularFile(data: seq<byte>) | Directory(listable: bool, children: seq<Child>) | Other
  datatype Child = Child(name: string, node: Node)

  /** `LocalFileEntry` with the bytes the `file` field refers to. */
  datatype LocalFileEntry = LocalFileEntry(path: string, sha256: string, size: int, data: seq<byte>)

  const DB_MAIN: string := "dogcuisine.db"
  const DB_WAL: string := "dogcuisine.db-wal"
  const DB_SHM: string := "dogcuisine.db-shm"
  const DB_PREFIX: string := "db/"
  const IMAGES_PREFIX: string := "images/"

  /** `addLocalFile`: one entry for an existing regular file, nothing otherwise. */
  function AddLocalFile(file: Option<Node>, path: string, sha256: seq<byte> -> string): (r: seq<LocalFileEntry>)
    ensures |r| <= 1
    ensures r != [] <==> file.Some? && file.value.RegularFile?
    ensures r != [] ==> r[0] == LocalFileEntry(path, sha256(file.value.data), |file.value.data|, file.value.data)
  {
    if file.Some? && file.value.RegularFile? then
      var data := file.value.data;
      [LocalFileEntry(path, sha256(data), |data|, data)]
    else []
  }

  predicate IsListedDir(n: Node) {
    n.Directory? && n.listable
  }

  /** What one child of a listing contributes: its subtree for a directory, itself for a
      regular file, nothing for anything else. */
  function ChildEntries(child: Child, prefix: string, sha256: seq<byte> -> string): seq<LocalFileEntry>
    decreases child.node, 2
  {
    var childPath := prefix + child.name;
    if child.node.Directory? then CollectDir(child.node, childPath + "/", sha256)
    else if child.node.RegularFile? then AddLocalFile(Some(child.node), childPath, sha256)
    else []
  }

  /** The entries of a directory's listing from child `i` on, depth first, listing order. */
  function CollectFrom(dir: Node, i: nat, prefix: string, sha256: seq<byte> -> string): seq<LocalFileEntry>
    requires IsListedDir(dir)
    decreases dir, 0, |dir.children| - i
  {
    if i >= |dir.children| then []
    else
      assert dir.children[i] in dir.children;
      ChildEntries(dir.children[i], prefix, sha256) + CollectFrom(dir, i + 1, prefix, sha256)
  }

  /** What `collectImageFiles` appends for a directory; an unreadable listing adds nothing. */
  function CollectDir(dir: Node, prefix: string, sha256: seq<byte> -> string): seq<LocalFileEntry>
    decreases dir, 1
  {
    if IsListedDir(dir) then CollectFrom(dir, 0, prefix, sha256) else []
  }

  /** `collectImageFiles`: appends the entries of `dir`'s subtree to `out`. */
  method CollectImageFiles(out: seq<LocalFileEntry>, dir: Node, prefix: string, sha256: seq<byte> -> string)
    returns (result: seq<LocalFileEntry>)
    ensures result == out + CollectDir(dir, prefix, sha256)
    decreases dir, 1
  {
    result := out;
    if !IsListedDir(dir) {
      return;
    }
    var children := dir.children;
    var i := 0;
    while i < |children|
      invariant 0 <= i <= |children|
      invariant result + CollectFrom(dir, i, prefix, sha256) == out + CollectDir(dir, prefix, sha256)
    {
      var child := children[i];
      assert child in children;
      var childPath := prefix + child.name;
      ghost var before := result;
      assert ChildEntries(child, prefix, sha256) + CollectFrom(dir, i + 1, prefix, sha256) == CollectFrom(dir, i, prefix, sha256);
      if child.node.Directory? {
        result := CollectImageFiles(result, child.node, childPath + "/", sha256);
      } else if child.node.RegularFile? {
        result := result + AddLocalFile(Some(child.node), childPath, sha256);
      }
      assert result + CollectFrom(dir, i + 1, prefix, sha256) == before + CollectFrom(dir, i, prefix, sha256);
      i := i + 1;
    }
  }

  /** `buildLocalFileEntries`: the database files present in the snapshot directory, in fixed
      order, then the images tree when `images/` is a directory. */
  function BuildLocalFileEntries(snapshot: map<string, Node>, images: Option<Node>,
                                 sha256: seq<byte> -> string): seq<LocalFileEntry>
  {
    DbEntries(snapshot, sha256) + ImageEntries(images, sha256)
  }

  /** `buildLocalFileEntries` step by step: the database files, then the images tree. */
  method GatherLocalFiles(snapshot: map<string, Node>, images: Option<Node>, sha256: seq<byte> -> string)
    returns (entries: seq<LocalFileEntry>)
    ensures entries == BuildLocalFileEntries(snapshot, images, sha256)
  {
    entries := [];
    entries := entries + AddLocalFile(if DB_MAIN in snapshot then Some(snapshot[DB_MAIN]) else None, DB_PREFIX + DB_MAIN, sha256);
    entries := entries + AddLocalFile(if DB_WAL in snapshot then Some(snapshot[DB_WAL]) else None, DB_PREFIX + DB_WAL, sha256);
    entries := entries + AddLocalFile(if DB_SHM in snapshot then Some(snapshot[DB_SHM]) else None, DB_PREFIX + DB_SHM, sha256);
    if images.Some? && images.value.Directory? {
      entries := CollectImageFiles(entries, images.value, IMAGES_PREFIX, sha256);
    }
  }

  // ---------------------------------------------------------------- properties

  /** Every entry's size and digest are those of its own bytes. */
  predicate Faithful(es: seq<LocalFileEntry>, sha256: seq<byte> -> string) {
    forall k :: 0 <= k < |es| ==> es[k].sha256 == sha256(es[k].data) && es[k].size == |es[k].data|
  }

  predicate AllStartWith(es: seq<LocalFileEntry>, prefix: string) {
    forall k :: 0 <= k < |es| ==> StartsWith(es[k].path, prefix)
  }

  predicate DistinctPaths(es: seq<LocalFileEntry>) {
    forall a, b :: 0 <= a < b < |es| ==> es[a].path != es[b].path
  }

  /** `path` lies at or below `prefix + name`. */
  predicate Under(path: string, prefix: string, name: string) {
    StartsWith(path, prefix + name) && (|path| == |prefix + name| || path[|prefix + name|] == '/')
  }

  /** A real directory tree: sibling names are distinct and no name contains '/'. */
  predicate WellFormed(n: Node)
    decreases n
  {
    IsListedDir(n) ==>
      var cs := n.children;
      (forall a, b :: 0 <= a < b < |cs| ==> cs[a].name != cs[b].name) &&
      (forall a :: 0 <= a < |cs| ==> '/' !in cs[a].name) &&
      (forall a :: 0 <= a < |cs| ==> assert cs[a] in cs; WellFormed(cs[a].node))
  }

  lemma {:induction false} ChildEntriesUnder(child: Child, prefix: string, sha256: seq<byte> -> string)
    ensures Faithful(ChildEntries(child, prefix, sha256), sha256)
    ensures forall k :: 0 <= k < |ChildEntries(child, prefix, sha256)| ==>
      Under(ChildEntries(child, prefix, sha256)[k].path, prefix, child.name)
    decreases child.node, 2
  {
    var childPath := prefix + child.name;
    var here := ChildEntries(child, prefix, sha256);
    if child.node.Directory? {
      CollectDirFaithful(child.node, childPath + "/", sha256);
      forall k | 0 <= k < |here|
        ensures Under(here[k].path, prefix, child.name)
      {
        var p := here[k].path;
        assert StartsWith(p, childPath + "/");
        assert p[..|childPath|] == (childPath + "/")[..|childPath|];
      }
    }
  }

  lemma {:induction false} CollectFromFaithful(dir: Node, i: nat, prefix: string, sha256: seq<byte> -> string)
    requires IsListedDir(dir)
    ensures Faithful(CollectFrom(dir, i, prefix, sha256), sha256)
    ensures forall k :: 0 <= k < |CollectFrom(dir, i, prefix, sha256)| ==>
      exists j :: i <= j < |dir.children| && Under(CollectFrom(dir, i, prefix, sha256)[k].path, prefix, dir.children[j].name)
    decreases dir, 0, |dir.children| - i
  {
    var cs := dir.children;
    if i < |cs| {
      assert cs[i] in cs;
      var here := ChildEntries(cs[i], prefix, sha256);
      var rest := CollectFrom(dir, i + 1, prefix, sha256);
      var all := CollectFrom(dir, i, prefix, sha256);
      ChildEntriesUnder(cs[i], prefix, sha256);
      CollectFromFaithful(dir, i + 1, prefix, sha256);
      assert all == here + rest;
      forall k | 0 <= k < |all|
        ensures exists j :: i <= j < |cs| && Under(all[k].path, prefix, cs[j].name)
      {
        if k < |here| {
          assert all[k] == here[k];
          assert Under(all[k].path, prefix, cs[i].name);
        } else {
          assert all[k] == rest[k - |here|];
        }
      }
    }
  }

  lemma {:induction false} CollectDirFaithful(dir: Node, prefix: string, sha256: seq<byte> -> string)
    ensures Faithful(CollectDir(dir, prefix, sha256), sha256)
    ensures AllStartWith(CollectDir(dir, prefix, sha256), prefix)
    decreases dir, 1
  {
    if IsListedDir(dir) {
      CollectFromFaithful(dir, 0, prefix, sha256);
      var es := CollectDir(dir, prefix, sha256);
      forall k | 0 <= k < |es|
        ensures StartsWith(es[k].path, prefix)
      {
        var j :| 0 <= j < |dir.children| && Under(es[k].path, prefix, dir.children[j].name);
        assert es[k].path[..|prefix|] == (prefix + dir.children[j].name)[..|prefix|];
      }
    }
  }

  /** Two different '/'-free names, each followed by nothing or by a '/'-led rest, never give the
      same string. */
  lemma Separation(a: string, b: string, x: string, y: string)
    requires a != b && '/' !in a && '/' !in b
    requires x == [] || x[0] == '/'
    requires y == [] || y[0] == '/'
    ensures a + x != b + y
  {
    if |a| == |b| {
      var i :| 0 <= i < |a| && a[i] != b[i];
      assert (a + x)[i] == a[i] && (b + y)[i] == b[i];
    } else if |a| < |b| {
      if a == b[..|a|] {
        if x != [] {
          assert (a + x)[|a|] == '/';
          assert (b + y)[|a|] == b[|a|];
          assert b[|a|] in b;
        }
      } else {
        var i :| 0 <= i < |a| && a[i] != b[i];
        assert (a + x)[i] == a[i] && (b + y)[i] == b[i];
      }
    } else {
      if b == a[..|b|] {
        if y != [] {
          assert (b + y)[|b|] == '/';
          assert (a + x)[|b|] == a[|b|];
          assert a[|b|] in a;
        }
      } else {
        var i :| 0 <= i < |b| && a[i] != b[i];
        assert (a + x)[i] == a[i] && (b + y)[i] == b[i];
      }
    }
  }

  /** Paths under two different sibling names differ. */
  lemma UnderDifferentSiblings(p: string, q: string, prefix: string, a: string, b: string)
    requires a != b && '/' !in a && '/' !in b
    requires Under(p, prefix, a) && Under(q, prefix, b)
    ensures p != q
  {
    var pa := p[|prefix|..];
    var qb := q[|prefix|..];
    assert p == prefix + pa;
    assert q == prefix + qb;
    assert pa == a + pa[|a|..];
    assert qb == b + qb[|b|..];
    Separation(a, b, pa[|a|..], qb[|b|..]);
  }

  lemma {:induction false} ChildEntriesDistinct(child: Child, prefix: string, sha256: seq<byte> -> string)
    requires WellFormed(child.node)
    ensures DistinctPaths(ChildEntries(child, prefix, sha256))
    decreases child.node, 2
  {
    if child.node.Directory? {
      CollectDirDistinct(child.node, prefix + child.name + "/", sha256);
    }
  }

  lemma {:induction false} CollectFromDistinct(dir: Node, i: nat, prefix: string, sha256: seq<byte> -> string)
    requires IsListedDir(dir) && WellFormed(dir)
    ensures DistinctPaths(CollectFrom(dir, i, prefix, sha256))
    decreases dir, 0, |dir.children| - i
  {
    var cs := dir.children;
    if i < |cs| {
      assert cs[i] in cs;
      var here := ChildEntries(cs[i], prefix, sha256);
      var rest := CollectFrom(dir, i + 1, prefix, sha256);
      var all := CollectFrom(dir, i, prefix, sha256);
      assert all == here + rest;
      ChildEntriesDistinct(cs[i], prefix, sha256);
      ChildEntriesUnder(cs[i], prefix, sha256);
      CollectFromDistinct(dir, i + 1, prefix, sha256);
      CollectFromFaithful(dir, i + 1, prefix, sha256);
      forall a, b | 0 <= a < |here| && 0 <= b < |rest|
        ensures here[a].path != rest[b].path
      {
        var jb :| i + 1 <= jb < |cs| && Under(rest[b].path, prefix, cs[jb].name);
        UnderDifferentSiblings(here[a].path, rest[b].path, prefix, cs[i].name, cs[jb].name);
      }
      AppendDistinct(here, rest);
    }
  }

  lemma AppendDistinct(xs: seq<LocalFileEntry>, ys: seq<LocalFileEntry>)
    requires DistinctPaths(xs) && DistinctPaths(ys)
    requires forall a, b :: 0 <= a < |xs| && 0 <= b < |ys| ==> xs[a].path != ys[b].path
    ensures DistinctPaths(xs + ys)
  {
    var all := xs + ys;
    forall a, b | 0 <= a < b < |all|
      ensures all[a].path != all[b].path
    {
      if b < |xs| {
        assert all[a] == xs[a] && all[b] == xs[b];
      } else if a >= |xs| {
        assert all[a] == ys[a - |xs|] && all[b] == ys[b - |xs|];
      } else {
        assert all[a] == xs[a] && all[b] == ys[b - |xs|];
      }
    }
  }

  lemma {:induction false} CollectDirDistinct(dir: Node, prefix: string, sha256: seq<byte> -> string)
    requires WellFormed(dir)
    ensures DistinctPaths(CollectDir(dir, prefix, sha256))
    decreases dir, 1
  {
    if IsListedDir(dir) {
      CollectFromDistinct(dir, 0, prefix, sha256);
    }
  }

  function DbEntries(snapshot: map<string, Node>, sha256: seq<byte> -> string): seq<LocalFileEntry> {
    AddLocalFile(if DB_MAIN in snapshot then Some(snapshot[DB_MAIN]) else None, DB_PREFIX + DB_MAIN, sha256) +
    AddLocalFile(if DB_WAL in snapshot then Some(snapshot[DB_WAL]) else None, DB_PREFIX + DB_WAL, sha256) +
    AddLocalFile(if DB_SHM in snapshot then Some(snapshot[DB_SHM]) else None, DB_PREFIX + DB_SHM, sha256)
  }

  function ImageEntries(images: Option<Node>, sha256: seq<byte> -> string): seq<LocalFileEntry> {
    if images.Some? && images.value.Directory? then CollectDir(images.value, IMAGES_PREFIX, sha256) else []
  }

  lemma DbEntriesSpec(snapshot: map<string, Node>, sha256: seq<byte> -> string)
    ensures Faithful(DbEntries(snapshot, sha256), sha256)
    ensures DistinctPaths(DbEntries(snapshot, sha256))
    ensures forall k :: 0 <= k < |DbEntries(snapshot, sha256)| ==>
      DbEntries(snapshot, sha256)[k].path in {DB_PREFIX + DB_MAIN, DB_PREFIX + DB_WAL, DB_PREFIX + DB_SHM}
  {
    var m := AddLocalFile(if DB_MAIN in snapshot then Some(snapshot[DB_MAIN]) else None, DB_PREFIX + DB_MAIN, sha256);
    var w := AddLocalFile(if DB_WAL in snapshot then Some(snapshot[DB_WAL]) else None, DB_PREFIX + DB_WAL, sha256);
    var h := AddLocalFile(if DB_SHM in snapshot then Some(snapshot[DB_SHM]) else None, DB_PREFIX + DB_SHM, sha256);
    var es := m + w + h;
    assert es == DbEntries(snapshot, sha256);
    assert (DB_PREFIX + DB_MAIN) != (DB_PREFIX + DB_WAL) by {
      assert |DB_PREFIX + DB_MAIN| != |DB_PREFIX + DB_WAL|;
    }
    assert (DB_PREFIX + DB_MAIN) != (DB_PREFIX + DB_SHM) by {
      assert |DB_PREFIX + DB_MAIN| != |DB_PREFIX + DB_SHM|;
    }
    assert (DB_PREFIX + DB_WAL) != (DB_PREFIX + DB_SHM) by {
      assert (DB_PREFIX + DB_WAL)[17] != (DB_PREFIX + DB_SHM)[17];
    }
    forall a, b | 0 <= a < b < |es|
      ensures es[a].path != es[b].path
    {
      if a < |m| {
        assert es[a] == m[0];
        if b < |m| + |w| {
          assert es[b] == w[b - |m|];
        } else {
          assert es[b] == h[b - |m| - |w|];
        }
      } else if a < |m| + |w| {
        assert es[a] == w[0];
        assert es[b] == h[b - |m| - |w|];
      }
    }
  }

  /** The local entry list: sizes and digests match the bytes, database entries come first and
      are among the three fixed "db/" names, the rest live under "images/", and over a real
      directory tree no path occurs twice. */
  lemma BuildLocalFileEntriesSpec(snapshot: map<string, Node>, images: Option<Node>, sha256: seq<byte> -> string)
    ensures Faithful(BuildLocalFileEntries(snapshot, images, sha256), sha256)
    ensures forall k :: 0 <= k < |DbEntries(snapshot, sha256)| ==> StartsWith(DbEntries(snapshot, sha256)[k].path, DB_PREFIX)
    ensures AllStartWith(ImageEntries(images, sha256), IMAGES_PREFIX)
    ensures images.None? || WellFormed(images.value) ==> DistinctPaths(BuildLocalFileEntries(snapshot, images, sha256))
  {
    var db := DbEntries(snapshot, sha256);
    var imgs := ImageEntries(images, sha256);
    DbEntriesSpec(snapshot, sha256);
    if images.Some? && images.value.Directory? {
      CollectDirFaithful(images.value, IMAGES_PREFIX, sha256);
    }
    var es := db + imgs;
    forall k | 0 <= k < |es|
      ensures es[k].sha256 == sha256(es[k].data) && es[k].size == |es[k].data|
    {
      if k < |db| {
        assert es[k] == db[k];
      } else {
        assert es[k] == imgs[k - |db|];
      }
    }
    if images.None? || WellFormed(images.value) {
      if images.Some? && images.value.Directory? {
        CollectDirDistinct(images.value, IMAGES_PREFIX, sha256);
      }
      forall a, b | 0 <= a < |db| && 0 <= b < |imgs|
        ensures db[a].path != imgs[b].path
      {
        assert db[a].path[0] == 'd';
        assert imgs[b].path[..|IMAGES_PREFIX|] == IMAGES_PREFIX;
      }
      AppendDistinct(db, imgs);
    }
  }
}
