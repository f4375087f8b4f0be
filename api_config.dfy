/** Front-end API configuration: the base URL of the backend (from the build environment,
    with a production default) and `getApiUrl`, which joins the base and an endpoint with
    exactly one slash between them when neither side brings one of its own. */
module ApiConfig {
  import opened Common

  /** The base URL used when `VITE_API_BASE_URL` is not set (or empty). */
  const DefaultApiBase: string := "https://api.vasha.in"

  /** `API_BASE_URL`: the environment variable, or the default when it is absent or empty. */
  function ApiBaseUrl(env: Option<string>): (r: string)
    ensures Truthy(env) ==> r == env.value
    ensures !Truthy(env) ==> r == DefaultApiBase
    ensures r != ""
  {
    OptOrElse(env, DefaultApiBase)
  }

  predicate StartsWithSlash(s: string) {
    |s| > 0 && s[0] == '/'
  }

  predicate EndsWithSlash(s: string) {
    |s| > 0 && s[|s| - 1] == '/'
  }

  /** The endpoint without one leading slash, if it has one. */
  function CleanEndpoint(endpoint: string): (r: string)
    ensures StartsWithSlash(endpoint) ==> "/" + r == endpoint
    ensures !StartsWithSlash(endpoint) ==> r == endpoint
  {
    if StartsWithSlash(endpoint) then endpoint[1..] else endpoint
  }

  /** The base without one trailing slash, if it has one. */
  function TrimmedBase(base: string): (r: string)
    ensures EndsWithSlash(base) ==> r + "/" == base
    ensures !EndsWithSlash(base) ==> r == base
  {
    if EndsWithSlash(base) then base[..|base| - 1] else base
  }

  /** `getApiUrl(endpoint)` against the base URL `base`: the result starts with the
      trimmed base, has a slash right after it, ends with the cleaned endpoint, and has no
      other characters. */
  function GetApiUrl(base: string, endpoint: string): (r: string)
    ensures var b := TrimmedBase(base);
            var e := CleanEndpoint(endpoint);
            |r| == |b| + 1 + |e| && r[..|b|] == b && r[|b|] == '/' && r[|b| + 1..] == e
  {
    TrimmedBase(base) + "/" + CleanEndpoint(endpoint)
  }

  /** A leading slash on the endpoint makes no difference exactly when the endpoint does
      not itself start with a slash: only one slash is ever removed. */
  lemma LeadingSlashIgnored(base: string, x: string)
    ensures GetApiUrl(base, "/" + x) == GetApiUrl(base, x) <==> !StartsWithSlash(x)
  {
    var r1 := GetApiUrl(base, "/" + x);
    var r2 := GetApiUrl(base, x);
    var b := TrimmedBase(base);
    assert CleanEndpoint("/" + x) == x;
    if StartsWithSlash(x) {
      assert |r1| == |r2| + 1;
    }
  }

  /** When neither side brings its own slash, the result is the plain join. */
  lemma PlainJoin(base: string, endpoint: string)
    requires !EndsWithSlash(base) && !StartsWithSlash(endpoint)
    ensures GetApiUrl(base, endpoint) == base + "/" + endpoint
  {
  }

  /** A slash on both sides still gives a single slash at the joint. */
  lemma SlashOnBothSides(base: string, x: string)
    requires !EndsWithSlash(base) && !StartsWithSlash(x)
    ensures GetApiUrl(base + "/", "/" + x) == base + "/" + x
  {
    assert (base + "/")[..|base + "/"| - 1] == base;
  }

  /** An endpoint starting with two slashes keeps one of them: the result has a double
      slash right after the base. */
  lemma DoubleLeadingSlashKept(base: string, y: string)
    ensures var b := TrimmedBase(base);
            var r := GetApiUrl(base, "//" + y);
            r == b + "//" + y && r[|b|] == '/' && r[|b| + 1] == '/'
  {
    assert ("//" + y)[1..] == "/" + y;
  }

  /** Two endpoints give the same URL exactly when their cleaned forms agree: the URL
      determines the endpoint up to one leading slash. */
  lemma GetApiUrlInjective(base: string, e1: string, e2: string)
    ensures GetApiUrl(base, e1) == GetApiUrl(base, e2) <==> CleanEndpoint(e1) == CleanEndpoint(e2)
  {
  }
}
