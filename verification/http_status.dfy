/** The status codes each WebDAV request accepts (status codes as in section 15 of RFC 9110). */
module HttpStatus {
  import opened Wrappers

  /** What `downloadManifestIfExists` does with the manifest GET's status. */
  datatype ManifestStatus = ManifestAbsent | ManifestPresent | ManifestFailed(code: int)

  function ManifestGetStatus(code: int): (r: ManifestStatus)
    ensures r == ManifestAbsent <==> code == 404
    ensures r == ManifestPresent <==> code == 200
    ensures r.ManifestFailed? ==> r.code == code
  {
    if code == 404 then ManifestAbsent
    else if code != 200 then ManifestFailed(code)
    else ManifestPresent
  }

  /** `downloadFile` accepts only 200. */
  predicate GetAccepted(code: int) {
    code == 200
  }

  /** `putFile` accepts 200, 201 and 204. */
  predicate PutAccepted(code: int) {
    code == 200 || code == 201 || code == 204
  }

  /** `deleteFileIfExists` accepts 200, 202, 204, and 404 (already gone). */
  predicate DeleteAccepted(code: int) {
    code == 200 || code == 202 || code == 204 || code == 404
  }

  /** Every accepted status is a 2xx success except a DELETE's 404; a 404 is never an accepted
      upload or download. */
  lemma AcceptedCodesAreSuccesses(code: int)
    ensures GetAccepted(code) || PutAccepted(code) ==> 200 <= code < 300
    ensures DeleteAccepted(code) ==> 200 <= code < 300 || code == 404
    ensures !GetAccepted(404) && !PutAccepted(404) && DeleteAccepted(404)
  {
  }

  const ERROR_BODY_LIMIT: int := 500

  /** `readErrorBodySafe`: no error stream or a failed read gives "", a long body is cut to
      500 characters followed by "...". */
  function ReadErrorBodySafe(errorStream: Option<Option<string>>): (r: string)
    ensures |r| <= ERROR_BODY_LIMIT + 3
    ensures errorStream.None? || errorStream.value.None? ==> r == []
    ensures errorStream.Some? && errorStream.value.Some? && |errorStream.value.value| <= ERROR_BODY_LIMIT ==>
      r == errorStream.value.value
    ensures errorStream.Some? && errorStream.value.Some? && |errorStream.value.value| > ERROR_BODY_LIMIT ==>
      |r| == ERROR_BODY_LIMIT + 3 && r[..ERROR_BODY_LIMIT] == errorStream.value.value[..ERROR_BODY_LIMIT] && r[ERROR_BODY_LIMIT..] == "..."
  {
    match errorStream
    case None => []
    case Some(read) =>
      match read
      case None => []
      case Some(text) =>
        if |text| > ERROR_BODY_LIMIT then text[..ERROR_BODY_LIMIT] + "..." else text
  }
}
