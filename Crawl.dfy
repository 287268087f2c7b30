/**
 * URL normalisation (`normalizeURL` in src/crawl.ts): the page identity used
 * by the crawler is the URL's host followed by its path, with one trailing
 * "/" removed.
 *
 * The string is first run through the platform URL parser (the WHATWG URL
 * Standard's basic URL parser), which is not part of this model: its result
 * is the input record `ParsedURL`. Dot segments are already resolved in
 * `pathname`, and `host` includes a non-default port as the parser shows it.
 */
module Crawl {

  /** The fields of a parsed URL that the normaliser can see. */
  datatype ParsedURL = ParsedURL(
    scheme: string,
    host: string,
    pathname: string,
    search: string,
    hash: string)

  predicate EndsWithSlash(p: string) {
    |p| > 0 && p[|p| - 1] == '/'
  }

  /**
   * Removes a final "/" from the path. The source's pattern is anchored at the
   * very end of the string (it is not multi-line), so at most one "/" goes.
   */
  function StripTrailingSlash(p: string): (r: string)
    ensures r <= p
    ensures |p| - |r| == if EndsWithSlash(p) then 1 else 0
  {
    if EndsWithSlash(p) then p[..|p| - 1] else p
  }

  /** The page key: the host, then the path with its final "/" (if any) removed. */
  function NormalizeURL(url: ParsedURL): (key: string)
    ensures url.host <= key
    ensures key <= url.host + url.pathname
    ensures |key| == |url.host| + |url.pathname| - (if EndsWithSlash(url.pathname) then 1 else 0)
  {
    url.host + StripTrailingSlash(url.pathname)
  }

  /** The key depends on the host and the path only: scheme, query and fragment are dropped. */
  lemma NormalizeOnlyHostAndPath(u: ParsedURL, v: ParsedURL)
    requires u.host == v.host && u.pathname == v.pathname
    ensures NormalizeURL(u) == NormalizeURL(v)
  {
  }

  /** The key is exactly the host followed by the path with its final "/" (if any) cut off. */
  lemma NormalizeSplits(url: ParsedURL)
    ensures NormalizeURL(url)[..|url.host|] == url.host
    ensures EndsWithSlash(url.pathname) ==>
      NormalizeURL(url) + "/" == url.host + url.pathname
    ensures !EndsWithSlash(url.pathname) ==>
      NormalizeURL(url) == url.host + url.pathname
  {
  }

  /** A root path ("/", or "" for a URL with a non-special scheme) gives just the host. */
  lemma NormalizeRoot(url: ParsedURL)
    requires url.pathname == "/" || url.pathname == ""
    ensures NormalizeURL(url) == url.host
  {
  }

  /** A path not ending in "/" and the same path with one "/" added give the same key. */
  lemma NormalizeTrailingSlashInsensitive(u: ParsedURL, p: string)
    requires !EndsWithSlash(p)
    ensures NormalizeURL(u.(pathname := p + "/")) == NormalizeURL(u.(pathname := p))
  {
  }

  /**
   * Stripping a stripped path changes nothing exactly when the path does not
   * end in "//": only one slash is removed per call.
   */
  lemma StripTwice(p: string)
    ensures StripTrailingSlash(StripTrailingSlash(p)) == StripTrailingSlash(p)
      <==> !(|p| >= 2 && p[|p| - 2..] == "//")
  {
  }

  /**
   * Normalisation is not idempotent: "https://x.com/a//" has key "x.com/a/",
   * and that key, parsed again under a scheme, has path "/a/" and key "x.com/a".
   */
  lemma NormalizeNotIdempotent()
    ensures NormalizeURL(ParsedURL("https", "x.com", "/a//", "", "")) == "x.com/a/"
    ensures NormalizeURL(ParsedURL("https", "x.com", "/a/", "", "")) == "x.com/a"
  {
  }

  /** The scheme is dropped: "https://google.com" ... "nonsense://google.com" all give "google.com". */
  lemma NormalizeDropsScheme(scheme: string, pathname: string)
    requires scheme in ["https", "http", "ftp", "smtp", "nonsense"]
    requires pathname == "/" || pathname == ""
    ensures NormalizeURL(ParsedURL(scheme, "google.com", pathname, "", "")) == "google.com"
  {
  }

  /** "https://yahoo.com/search?q=abc" gives "yahoo.com/search". */
  lemma NormalizeDropsQuery()
    ensures NormalizeURL(ParsedURL("https", "yahoo.com", "/search", "?q=abc", "")) == "yahoo.com/search"
  {
  }

  /** "https://google.com/search/deeper/../" parses to path "/search/" and gives "google.com/search". */
  lemma NormalizeResolvedPath()
    ensures NormalizeURL(ParsedURL("https", "google.com", "/search/", "", "")) == "google.com/search"
  {
  }
}
