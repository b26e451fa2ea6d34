/** The database URL normalisation of `DatabaseMgr`: hosting providers hand
    out "postgres://" URLs, which the database driver only accepts as
    "postgresql://". */
module Database {
  import opened Results
  import opened Text

  const PostgresScheme := "postgres://"
  const PostgresqlScheme := "postgresql://"

  /** `if url and url.startswith("postgres://"): url = url.replace("postgres://", "postgresql://", 1)`;
      a missing or empty URL is left alone. */
  function NormalizeDatabaseUrl(url: Option<string>): (r: Option<string>)
    ensures url.Some? && StartsWith(url.value, PostgresScheme) ==>
      r == Some(PostgresqlScheme + url.value[|PostgresScheme|..])
    ensures !(url.Some? && StartsWith(url.value, PostgresScheme)) ==> r == url
  {
    if url.Some? && |url.value| > 0 && StartsWith(url.value, "postgres://") then
      Some(ReplaceFirst(url.value, "postgres://", "postgresql://"))
    else url
  }

  /** A normalised URL never starts with the old scheme. */
  lemma NormalizedHasNoOldScheme(url: Option<string>)
    requires NormalizeDatabaseUrl(url).Some? && url.Some? && StartsWith(url.value, PostgresScheme)
    ensures !StartsWith(NormalizeDatabaseUrl(url).value, PostgresScheme)
  {
    var r := NormalizeDatabaseUrl(url).value;
    assert r[8] == 'q';
  }

  /** Normalising twice is normalising once. */
  lemma NormalizeIdempotent(url: Option<string>)
    ensures NormalizeDatabaseUrl(NormalizeDatabaseUrl(url)) == NormalizeDatabaseUrl(url)
  {
    if url.Some? && StartsWith(url.value, PostgresScheme) {
      NormalizedHasNoOldScheme(url);
    }
  }

  /** Only the leading scheme is rewritten: later occurrences of "postgres://" stay as they are. */
  lemma NormalizeOnlyFirst(rest: string)
    ensures NormalizeDatabaseUrl(Some(PostgresScheme + rest)) == Some(PostgresqlScheme + rest)
  {
    var u := PostgresScheme + rest;
    assert u[..|PostgresScheme|] == PostgresScheme;
    assert u[|PostgresScheme|..] == rest;
  }
}
