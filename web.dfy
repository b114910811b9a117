/** The two pieces of the web the filters depend on: following the redirects
    of a possibly shortened link (fail-open), and taking the network location
    out of a URL the way Python's urlsplit does. */
module Web {

  import opened Strings

  /** What one HEAD request with redirects followed gives back: it raised
      (timeout, DNS failure, refused connection, ...), or it answered and the
      response carries a final URL, which may be empty. */
  datatype HeadReply = Raised | Reached(url: string)

  /** The network, reduced to the answer it gives to a HEAD request for a URL. */
  type HeadOracle = string -> HeadReply

  /** The resolver: the final URL of `shortUrl` after redirects, or `shortUrl`
      itself when the request raised or named no final URL. It never fails. */
  function RedirectedUrl(head: HeadOracle, shortUrl: string): (r: string)
    ensures r == shortUrl || (head(shortUrl).Reached? && r == head(shortUrl).url)
    ensures head(shortUrl).Raised? ==> r == shortUrl
    ensures r != shortUrl ==> r != ""
    ensures head(shortUrl).Reached? && head(shortUrl).url != "" ==> r == head(shortUrl).url
  {
    match head(shortUrl)
    case Raised => shortUrl
    case Reached(url) => if url == "" then shortUrl else url
  }

  // ---------------------------------------------------------------------
  // Network location (urlsplit(url).netloc)

  predicate IsAsciiLetter(c: char) {
    'a' <= c <= 'z' || 'A' <= c <= 'Z'
  }

  /** The characters urlsplit accepts in a scheme: ASCII letters, digits, '+', '-' and '.'. */
  predicate IsSchemeChar(c: char) {
    IsAsciiLetter(c) || '0' <= c <= '9' || c == '+' || c == '-' || c == '.'
  }

  /** The characters that end a network location: '/', '?' and '#'. */
  predicate IsNetLocDelimiter(c: char) {
    c == '/' || c == '?' || c == '#'
  }

  /** Index of the first `c` in `s`, or |s| when there is none (str.find with -1 mapped to |s|). */
  function IndexOf(s: string, c: char): (r: nat)
    ensures r <= |s|
    ensures r < |s| ==> s[r] == c
    ensures forall k :: 0 <= k < r ==> s[k] != c
  {
    if s == [] then 0
    else if s[0] == c then 0
    else 1 + IndexOf(s[1..], c)
  }

  /** Index of the first network-location delimiter in `s`, or |s|. */
  function NetLocEnd(s: string): (r: nat)
    ensures r <= |s|
    ensures r < |s| ==> IsNetLocDelimiter(s[r])
    ensures forall k :: 0 <= k < r ==> !IsNetLocDelimiter(s[k])
  {
    if s == [] then 0
    else if IsNetLocDelimiter(s[0]) then 0
    else 1 + NetLocEnd(s[1..])
  }

  /** True when the text before the first ':' is a scheme: non-empty, starting
      with an ASCII letter and made of scheme characters only. */
  predicate HasScheme(url: string) {
    var i := IndexOf(url, ':');
    0 < i < |url| && IsAsciiLetter(url[0]) && forall k :: 0 <= k < i ==> IsSchemeChar(url[k])
  }

  /** What urlsplit looks at after removing the scheme and its ':'. */
  function AfterScheme(url: string): (r: string)
    ensures |r| <= |url|
  {
    if HasScheme(url) then url[IndexOf(url, ':') + 1..] else url
  }

  /** The network location: after the scheme, when the rest starts with "//",
      everything up to the first '/', '?' or '#'; otherwise empty. */
  function NetLoc(url: string): (r: string)
    ensures forall k :: 0 <= k < |r| ==> !IsNetLocDelimiter(r[k])
    ensures r != "" ==> exists i :: OccursAt(url, r, i)
  {
    var rest := AfterScheme(url);
    if |rest| >= 2 && rest[..2] == "//" then
      var host := rest[2..];
      var n := NetLocEnd(host);
      var r := host[..n];
      ghost var start := |url| - |rest| + 2;
      assert OccursAt(url, r, start) by {
        assert rest == url[|url| - |rest|..];
      }
      r
    else ""
  }

  /** The network location of `scheme://host` followed by a path, query or
      fragment is exactly `host`. */
  lemma {:induction false} NetLocOfUrl(scheme: string, host: string, rest: string)
    requires scheme != [] && IsAsciiLetter(scheme[0])
    requires forall k :: 0 <= k < |scheme| ==> IsSchemeChar(scheme[k])
    requires forall k :: 0 <= k < |host| ==> !IsNetLocDelimiter(host[k])
    requires rest == [] || IsNetLocDelimiter(rest[0])
    ensures NetLoc(scheme + "://" + host + rest) == host
  {
    var url := scheme + "://" + host + rest;
    IndexOfPrefix(scheme, "://" + host + rest, ':');
    assert url == scheme + ("://" + host + rest);
    assert IndexOf(url, ':') == |scheme|;
    assert HasScheme(url);
    var after := AfterScheme(url);
    assert after == "//" + host + rest;
    assert after[2..] == host + rest;
    NetLocEndPrefix(host, rest);
    assert (host + rest)[..|host|] == host;
  }

  /** The first `c` lies after a prefix that does not hold one. */
  lemma {:induction false} IndexOfPrefix(a: string, b: string, c: char)
    requires forall k :: 0 <= k < |a| ==> a[k] != c
    requires b != [] && b[0] == c
    ensures IndexOf(a + b, c) == |a|
  {
    if a != [] {
      assert (a + b)[1..] == a[1..] + b;
      IndexOfPrefix(a[1..], b, c);
    }
  }

  /** A host without delimiters followed by a delimiter (or nothing) ends where the host ends. */
  lemma {:induction false} NetLocEndPrefix(host: string, rest: string)
    requires forall k :: 0 <= k < |host| ==> !IsNetLocDelimiter(host[k])
    requires rest == [] || IsNetLocDelimiter(rest[0])
    ensures NetLocEnd(host + rest) == |host|
  {
    if host != [] {
      assert (host + rest)[1..] == host[1..] + rest;
      NetLocEndPrefix(host[1..], rest);
    }
  }
}
