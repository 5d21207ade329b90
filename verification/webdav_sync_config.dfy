/** The stored WebDAV target: base URL and Basic-auth credentials, read from the
    "webdav_sync" shared-preferences file. */
module WebDavSyncConfig {
  import opened Wrappers
  import opened JavaText

  const PREF_SYNC := "webdav_sync"
  const KEY_URL := "url"
  const KEY_USER := "user"
  const KEY_PASS := "pass"

  /** The record's three final fields. */
  datatype Config = Config(url: string, user: string, pass: string)

  /** The preferences file: stored string values by key. */
  type Prefs = map<string, string>

  /** `SharedPreferences.getString(key, default)`. */
  function GetString(prefs: Prefs, key: string, default: string): string {
    if key in prefs then prefs[key] else default
  }

  /** `safe`: null becomes "", anything else is trimmed. */
  function Safe(value: Option<string>): (r: string)
    ensures Clean(r)
    ensures value.None? ==> r == []
    ensures value.Some? ==> |r| <= |value.value|
    ensures value.Some? && Clean(value.value) ==> r == value.value
  {
    match value
    case None => []
    case Some(v) => Trim(v)
  }

  /** `load`: `None` exactly when the stored URL is missing or blank; every field of a loaded
      configuration, the password included, is trimmed. */
  function Load(prefs: Prefs): (r: Option<Config>)
    ensures r.None? <==> forall k :: 0 <= k < |GetString(prefs, KEY_URL, "")| ==> IsTrimmed(GetString(prefs, KEY_URL, "")[k])
    ensures r.Some? ==> r.value.url != [] && Clean(r.value.url) && Clean(r.value.user) && Clean(r.value.pass)
    ensures r.Some? ==> r.value == Config(Trim(GetString(prefs, KEY_URL, "")), Trim(GetString(prefs, KEY_USER, "")),
                                          Trim(GetString(prefs, KEY_PASS, "")))
  {
    var url := Safe(Some(GetString(prefs, KEY_URL, "")));
    var user := Safe(Some(GetString(prefs, KEY_USER, "")));
    var pass := Safe(Some(GetString(prefs, KEY_PASS, "")));
    if url == [] then None else Some(Config(url, user, pass))
  }

  /** What the settings screen writes back for a configuration. */
  function Store(c: Config): Prefs {
    map[KEY_URL := c.url, KEY_USER := c.user, KEY_PASS := c.pass]
  }

  /** Storing a configuration whose URL is non-blank and whose fields are trimmed, then loading,
      yields that configuration; by `Load`'s contract this covers every loaded configuration. */
  lemma LoadStoreRoundTrip(c: Config)
    requires c.url != [] && Clean(c.url) && Clean(c.user) && Clean(c.pass)
    ensures Load(Store(c)) == Some(c)
  {
    assert KEY_URL != KEY_USER && KEY_URL != KEY_PASS && KEY_USER != KEY_PASS;
    var p := Store(c);
    assert GetString(p, KEY_URL, "") == c.url;
    assert GetString(p, KEY_USER, "") == c.user;
    assert GetString(p, KEY_PASS, "") == c.pass;
  }
}
