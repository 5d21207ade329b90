/** Where the sync engine keeps things on the WebDAV server: one manifest next to one flat
    object per local file, whose name encodes the file's relative path. */
module RemoteNaming {
  import opened JavaText

  const REMOTE_MANIFEST := "manifest.json"
  const REMOTE_DATA_DIR := "data"

  /** The two encoders the naming relies on: UTF-8 and Android's Base64 with URL_SAFE,
      NO_WRAP and NO_PADDING. */
  datatype Codec = Codec(utf8: string -> seq<byte>, base64Url: seq<byte> -> string)

  /** The base64url alphabet of section 5 of RFC 4648. */
  predicate Base64UrlChar(c: char) {
    'A' <= c <= 'Z' || 'a' <= c <= 'z' || '0' <= c <= '9' || c == '-' || c == '_'
  }

  /** What the model relies on: both encoders are injective, and base64url without padding
      (section 3.2 of RFC 4648) only emits alphabet characters. */
  ghost predicate ValidCodec(c: Codec) {
    (forall s, t :: c.utf8(s) == c.utf8(t) ==> s == t) &&
    (forall a, b :: c.base64Url(a) == c.base64Url(b) ==> a == b) &&
    (forall a, i :: 0 <= i < |c.base64Url(a)| ==> Base64UrlChar(c.base64Url(a)[i]))
  }

  // ---------------------------------------------------------------- base URL

  /** Every trailing '/' removed. */
  function StripTrailingSlashes(s: string): (r: string)
    ensures |r| <= |s| && r == s[..|r|]
    ensures forall k :: |r| <= k < |s| ==> s[k] == '/'
    ensures !EndsWith(r, "/")
  {
    if s != [] && s[|s| - 1] == '/' then StripTrailingSlashes(s[..|s| - 1]) else s
  }

  /** The base every URL is built on. */
  function Base(baseUrl: string): string {
    StripTrailingSlashes(Trim(baseUrl))
  }

  /** `trimTrailingSlash`: trim, then drop a trailing '/' while there is one. */
  method TrimTrailingSlash(baseUrl: string) returns (trimmed: string)
    ensures trimmed == Base(baseUrl)
    ensures !EndsWith(trimmed, "/")
    ensures StartsWith(Trim(baseUrl), trimmed)
    ensures forall k :: |trimmed| <= k < |Trim(baseUrl)| ==> Trim(baseUrl)[k] == '/'
  {
    trimmed := Trim(baseUrl);
    while EndsWith(trimmed, "/")
      invariant StripTrailingSlashes(trimmed) == Base(baseUrl)
      invariant StartsWith(Trim(baseUrl), trimmed)
      decreases |trimmed|
    {
      assert trimmed[|trimmed| - 1..] == "/";
      trimmed := trimmed[..|trimmed| - 1];
    }
  }

  // ---------------------------------------------------------------- percent-encoding

  /** The characters `URLEncoder` leaves alone. */
  predicate Unreserved(c: char) {
    'a' <= c <= 'z' || 'A' <= c <= 'Z' || '0' <= c <= '9' || c == '.' || c == '-' || c == '*' || c == '_'
  }

  predicate AllUnreserved(s: string) {
    forall i :: 0 <= i < |s| ==> Unreserved(s[i])
  }

  function HexDigit(n: int): (c: char)
    requires 0 <= n < 16
    ensures ('0' <= c <= '9' || 'A' <= c <= 'F')
  {
    if n < 10 then ('0' as int + n) as char else ('A' as int + n - 10) as char
  }

  /** "%XY" per byte, upper-case hexadecimal. */
  function PercentBytes(bytes: seq<byte>): (r: string)
    ensures |r| == 3 * |bytes|
  {
    if bytes == [] then []
    else ['%', HexDigit(bytes[0] / 16), HexDigit(bytes[0] % 16)] + PercentBytes(bytes[1..])
  }

  function EncodeChar(codec: Codec, c: char): string {
    if Unreserved(c) then [c]
    else if c == ' ' then "+"
    else PercentBytes(codec.utf8([c]))
  }

  /** `URLEncoder.encode(s, UTF_8)`. */
  function UrlEncode(codec: Codec, s: string): string {
    if s == [] then [] else EncodeChar(codec, s[0]) + UrlEncode(codec, s[1..])
  }

  /** `String.replace("+", "%20")`. */
  function ReplacePlus(s: string): string {
    if s == [] then [] else (if s[0] == '+' then "%20" else [s[0]]) + ReplacePlus(s[1..])
  }

  /** `encodePathSegment`. */
  function EncodePathSegment(codec: Codec, segment: string): string {
    ReplacePlus(UrlEncode(codec, segment))
  }

  /** A segment made of unreserved characters is sent as it is. */
  lemma {:induction false} EncodeUnreservedIdentity(codec: Codec, s: string)
    requires AllUnreserved(s)
    ensures EncodePathSegment(codec, s) == s
  {
    if s != [] {
      EncodeUnreservedIdentity(codec, s[1..]);
      assert s[0] != '+';
      assert s == [s[0]] + s[1..];
    }
  }

  /** `replace("+", "%20")` leaves no '+'. */
  lemma {:induction false} ReplacePlusHasNoPlus(s: string)
    ensures '+' !in ReplacePlus(s)
  {
    if s != [] {
      ReplacePlusHasNoPlus(s[1..]);
    }
  }

  /** No '+' survives into an encoded segment. */
  lemma EncodedSegmentHasNoPlus(codec: Codec, s: string)
    ensures '+' !in EncodePathSegment(codec, s)
  {
    ReplacePlusHasNoPlus(UrlEncode(codec, s));
  }

  /** `URLEncoder` works character by character. */
  lemma {:induction false} UrlEncodeAppend(codec: Codec, a: string, b: string)
    ensures UrlEncode(codec, a + b) == UrlEncode(codec, a) + UrlEncode(codec, b)
  {
    if a != [] {
      assert (a + b)[0] == a[0] && (a + b)[1..] == a[1..] + b;
      UrlEncodeAppend(codec, a[1..], b);
    } else {
      assert a + b == b;
    }
  }

  /** The replacement works character by character. */
  lemma {:induction false} ReplacePlusAppend(a: string, b: string)
    ensures ReplacePlus(a + b) == ReplacePlus(a) + ReplacePlus(b)
  {
    if a != [] {
      assert (a + b)[0] == a[0] && (a + b)[1..] == a[1..] + b;
      ReplacePlusAppend(a[1..], b);
    } else {
      assert a + b == b;
    }
  }

  /** Segments are encoded character by character, and a space becomes "%20". */
  lemma SpaceBecomesPercent20(codec: Codec, a: string, b: string)
    ensures EncodePathSegment(codec, a + " " + b) == EncodePathSegment(codec, a) + "%20" + EncodePathSegment(codec, b)
  {
    UrlEncodeAppend(codec, a + " ", b);
    UrlEncodeAppend(codec, a, " ");
    assert UrlEncode(codec, " ") == "+";
    ReplacePlusAppend(UrlEncode(codec, a) + "+", UrlEncode(codec, b));
    ReplacePlusAppend(UrlEncode(codec, a), "+");
  }

  // ---------------------------------------------------------------- names and URLs

  /** `toRemoteFileName`: "data_" + base64url(utf8(path)) + ".bin". */
  function RemoteFileName(codec: Codec, relativePath: string): string {
    REMOTE_DATA_DIR + "_" + codec.base64Url(codec.utf8(relativePath)) + ".bin"
  }

  /** `buildManifestUrl`. */
  function ManifestUrl(baseUrl: string): string {
    Base(baseUrl) + "/" + REMOTE_MANIFEST
  }

  /** `buildDataFileUrl`. */
  function DataFileUrl(codec: Codec, baseUrl: string, relativePath: string): string {
    Base(baseUrl) + "/" + EncodePathSegment(codec, RemoteFileName(codec, relativePath))
  }

  lemma RemoteFileNameUnreserved(codec: Codec, relativePath: string)
    requires ValidCodec(codec)
    ensures AllUnreserved(RemoteFileName(codec, relativePath))
  {
    var e := codec.base64Url(codec.utf8(relativePath));
    var n := RemoteFileName(codec, relativePath);
    forall i | 0 <= i < |n|
      ensures Unreserved(n[i])
    {
      if 5 <= i < 5 + |e| {
        assert n[i] == e[i - 5];
      }
    }
  }

  /** With a valid codec a data URL is the base, a '/', and the remote file name verbatim. */
  lemma DataFileUrlShape(codec: Codec, baseUrl: string, relativePath: string)
    requires ValidCodec(codec)
    ensures DataFileUrl(codec, baseUrl, relativePath) == Base(baseUrl) + "/" + RemoteFileName(codec, relativePath)
  {
    RemoteFileNameUnreserved(codec, relativePath);
    EncodeUnreservedIdentity(codec, RemoteFileName(codec, relativePath));
  }

  /** Distinct relative paths are stored under distinct URLs. */
  lemma DataFileUrlInjective(codec: Codec, baseUrl: string, p: string, q: string)
    requires ValidCodec(codec)
    ensures DataFileUrl(codec, baseUrl, p) == DataFileUrl(codec, baseUrl, q) <==> p == q
  {
    if DataFileUrl(codec, baseUrl, p) == DataFileUrl(codec, baseUrl, q) {
      DataFileUrlShape(codec, baseUrl, p);
      DataFileUrlShape(codec, baseUrl, q);
      var b := Base(baseUrl) + "/";
      var np, nq := RemoteFileName(codec, p), RemoteFileName(codec, q);
      assert b + np == b + nq;
      assert np == (b + np)[|b|..];
      assert np == nq;
      var ep, eq := codec.base64Url(codec.utf8(p)), codec.base64Url(codec.utf8(q));
      assert |ep| == |eq|;
      assert ep == np[5..5 + |ep|];
      assert eq == nq[5..5 + |eq|];
    }
  }

  /** No data object can overwrite or delete the manifest. */
  lemma DataFileUrlIsNotManifestUrl(codec: Codec, baseUrl: string, p: string)
    requires ValidCodec(codec)
    ensures DataFileUrl(codec, baseUrl, p) != ManifestUrl(baseUrl)
  {
    DataFileUrlShape(codec, baseUrl, p);
    var b := Base(baseUrl) + "/";
    assert (b + RemoteFileName(codec, p))[|b|] == 'd';
    assert (b + REMOTE_MANIFEST)[|b|] == 'm';
    assert ManifestUrl(baseUrl) == b + REMOTE_MANIFEST;
  }
}
