/**
 * The configuration `create_app` reads from the environment: the session
 * secret and the database URL, whose legacy "postgres://" scheme is
 * rewritten to the "postgresql://" scheme SQLAlchemy expects.
 */
module Config {
  import opened Options
  import opened Text

  const DefaultSecretKey: string := "dev-key"
  const DefaultDatabaseUrl: string := "sqlite:///fujitsu_incident.db"
  const LegacyScheme: string := "postgres://"
  const CurrentScheme: string := "postgresql://"

  /** os.environ.get("SECRET_KEY", "dev-key"): a set variable wins, even when empty. */
  function SecretKey(env: Option<string>): (key: string)
    ensures env.None? ==> key == DefaultSecretKey
    ensures env.Some? ==> key == env.value
  {
    if env.Some? then env.value else DefaultSecretKey
  }

  /**
   * `url.replace("postgres://", "postgresql://", 1)` applied only when the
   * URL starts with the legacy scheme: the first occurrence is then the
   * scheme itself, so the new scheme is put in front of the unchanged rest;
   * every other URL passes through. No result starts with the legacy scheme.
   */
  function NormalizeDatabaseUrl(url: string): (r: string)
    ensures StartsWith(url, LegacyScheme) ==>
      StartsWith(r, CurrentScheme) && r[|CurrentScheme|..] == url[|LegacyScheme|..]
    ensures !StartsWith(url, LegacyScheme) ==> r == url
    ensures !StartsWith(r, LegacyScheme)
  {
    if StartsWith(url, LegacyScheme) then
      var r := CurrentScheme + url[|LegacyScheme|..];
      assert r[..|CurrentScheme|] == CurrentScheme;
      // "postgres" is followed by 'q' in the new scheme, by ':' in the old one
      assert r[8] == 'q' != ':' == LegacyScheme[8];
      r
    else url
  }

  /**
   * The URI handed to SQLAlchemy for a given DATABASE_URL: the local SQLite
   * file when the variable is unset, a set URL otherwise (rewritten if it
   * uses the legacy scheme), never one with the legacy scheme.
   */
  function DatabaseUri(env: Option<string>): (uri: string)
    ensures env.None? ==> uri == DefaultDatabaseUrl
    ensures env.Some? && !StartsWith(env.value, LegacyScheme) ==> uri == env.value
    ensures !StartsWith(uri, LegacyScheme)
  {
    assert DefaultDatabaseUrl[0] != LegacyScheme[0];
    NormalizeDatabaseUrl(if env.Some? then env.value else DefaultDatabaseUrl)
  }

  /** Rewriting an already rewritten URL changes nothing. */
  lemma NormalizeIdempotent(url: string)
    ensures NormalizeDatabaseUrl(NormalizeDatabaseUrl(url)) == NormalizeDatabaseUrl(url)
  {
  }
}
