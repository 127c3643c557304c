/**
 * The part of Python's `urllib.parse` that the link checks use, stated as
 * functions: `urlparse` (split into scheme, netloc, path, params, query and
 * fragment), the `hostname` attribute of its result, and the first value
 * `parse_qs` gives for a key.
 */
module UrlSplit {
  import opened Common
  import opened Text

  datatype ParsedUrl = ParsedUrl(
    scheme: string, netloc: string, path: string, params: string, query: string, fragment: string)

  /** `urlparse` refuses a netloc with an opening bracket and no closing one, or the reverse. */
  datatype ParseError = InvalidIPv6Url

  /** Schemes whose last path segment may carry `;params`. */
  const USES_PARAMS: set<string> :=
    {"", "ftp", "hdl", "prospero", "http", "imap", "https", "shttp", "rtsp", "rtsps",
     "rtspu", "sip", "sips", "mms", "sftp", "tel"}

  /** Tab, carriage return and line feed are deleted wherever they occur. */
  const UNSAFE_CHARS: set<char> := {'\t', '\r', '\n'}

  predicate IsAsciiLetter(c: char) { 'a' <= c <= 'z' || 'A' <= c <= 'Z' }

  predicate IsSchemeChar(c: char) { IsAsciiLetter(c) || IsDigit(c) || c == '+' || c == '-' || c == '.' }

  /** `url[:i]` is a scheme when it is non-empty, starts with a letter and has only scheme characters. */
  predicate IsScheme(s: string) {
    |s| > 0 && IsAsciiLetter(s[0]) && forall j :: 0 <= j < |s| ==> IsSchemeChar(s[j])
  }

  /** `_splitnetloc(url, 2)`: the authority runs up to the first `/`, `?` or `#`. */
  function SplitNetloc(rest: string): (r: (string, string))
    requires |rest| >= 2
    ensures r.0 + r.1 == rest[2..]
    ensures '/' !in r.0 && '?' !in r.0 && '#' !in r.0
  {
    var tail := rest[2..];
    var delim := IndexOfAny(tail, {'/', '?', '#'});
    assert tail == tail[..delim] + tail[delim..];
    (tail[..delim], tail[delim..])
  }

  /** `_splitparams`: `;` parameters of the last path segment. */
  function SplitParams(url: string): (r: (string, string))
    ensures |r.0| <= |url|
  {
    var start := if '/' in url then LastIndexOf(url, '/') else 0;
    var i := IndexOf(url[start..], ';');
    if start + i == |url| then (url, "") else (url[..start + i], url[start + i + 1..])
  }

  /** `s.split(c, 1)` when `c` occurs, otherwise `s` and an empty remainder. */
  function SplitOnce(s: string, c: char): (r: (string, string))
    ensures c !in r.0
    ensures c in s ==> s == r.0 + [c] + r.1
    ensures c !in s ==> r == (s, "")
  {
    if c in s then (BeforeFirst(s, c), AfterFirst(s, c)) else (s, "")
  }

  predicate Unbalanced(netloc: string) {
    ('[' in netloc && ']' !in netloc) || (']' in netloc && '[' !in netloc)
  }

  /** Leading C0 controls and spaces are stripped, then tab, CR and LF deleted. */
  function Sanitize(url: string): string {
    Remove(LStripControlOrSpace(url), UNSAFE_CHARS)
  }

  /** The scheme (lower-cased) and what follows its `:`, or no scheme. */
  function SplitScheme(u: string): (string, string) {
    var i := IndexOf(u, ':');
    if 0 < i < |u| && IsScheme(u[..i]) then (Lower(u[..i]), u[i + 1..]) else ("", u)
  }

  /** The netloc after a leading `//`, and the rest. */
  function SplitAuthority(rest: string): (r: (string, string))
    ensures '/' !in r.0 && '?' !in r.0 && '#' !in r.0
  {
    if |rest| >= 2 && rest[..2] == "//" then SplitNetloc(rest) else ("", rest)
  }

  /** Path and params, query and fragment of what follows the netloc. */
  function SplitTail(scheme: string, rest: string): (r: (string, string, string, string)) {
    var (rest3, fragment) := SplitOnce(rest, '#');
    var (rest4, query) := SplitOnce(rest3, '?');
    var (path, params) :=
      if scheme in USES_PARAMS && ';' in rest4 then SplitParams(rest4) else (rest4, "");
    (path, params, query, fragment)
  }

  /** `urlparse(url)` with the default scheme `''` and fragments allowed. */
  function Parse(url: string): (r: Result<ParsedUrl, ParseError>)
    ensures r.Ok? ==> '/' !in r.value.netloc && '?' !in r.value.netloc && '#' !in r.value.netloc
  {
    var (scheme, rest) := SplitScheme(Sanitize(url));
    var (netloc, rest2) := SplitAuthority(rest);
    if Unbalanced(netloc) then Err(InvalidIPv6Url)
    else
      var (path, params, query, fragment) := SplitTail(scheme, rest2);
      Ok(ParsedUrl(scheme, netloc, path, params, query, fragment))
  }

  /**
   * The `hostname` attribute: the netloc after its last `@`, the bracketed part
   * or the part before `:`, lower-cased up to an IPv6 zone `%`; `None` when empty.
   */
  function Hostname(netloc: string): (r: Option<string>)
    ensures r.Some? ==> r.value != ""
  {
    var hostinfo := AfterLast(netloc, '@');
    var host := if '[' in hostinfo then BeforeFirst(AfterFirst(hostinfo, '['), ']')
                else BeforeFirst(hostinfo, ':');
    if host == "" then None
    else
      var zone := host[IndexOf(host, '%')..];
      Some(Lower(BeforeFirst(host, '%')) + zone)
  }

  /**
   * `parse_qs(query).get(key, [None])[0]`: the value of the first `name=value`
   * piece (pieces separated by `&`) whose name is `key` and whose value is not
   * blank, with `+` read as a space. Pieces without `=` are skipped.
   */
  function FirstQueryValue(query: string, key: string): (r: Option<string>)
    ensures r.Some? ==> r.value != ""
  {
    FirstValueIn(Split(query, '&'), key)
  }

  /** The value of the first piece that gives one for `key`. */
  function FirstValueIn(pieces: seq<string>, key: string): (r: Option<string>)
    ensures r.Some? ==> r.value != ""
  {
    var k := FirstValueIndex(pieces, key);
    if k < |pieces| then PieceValue(pieces[k], key) else None
  }

  /** Index of the first piece that gives a value for `key`, or |pieces|. */
  function FirstValueIndex(pieces: seq<string>, key: string): (k: nat)
    ensures k <= |pieces|
    ensures k < |pieces| ==> PieceValue(pieces[k], key).Some?
    ensures forall j :: 0 <= j < k ==> PieceValue(pieces[j], key).None?
  {
    if pieces == [] || PieceValue(pieces[0], key).Some? then 0
    else
      var k := FirstValueIndex(pieces[1..], key);
      assert forall j :: 1 <= j <= k ==> pieces[j] == pieces[1..][j - 1];
      1 + k
  }

  /** The value one `name=value` piece gives for `key`, if any. */
  function PieceValue(piece: string, key: string): (r: Option<string>)
    ensures r.Some? ==> r.value != ""
  {
    if '=' !in piece then None
    else
      var (name, value) := SplitOnce(piece, '=');
      if value == "" || Replace(name, '+', ' ') != key then None
      else Some(Replace(value, '+', ' '))
  }

  /**
   * How an ordinary `https://host/path?query` link splits: a host free of the
   * delimiter, bracket and control characters, a path that starts with `/` and
   * has no `?`, `#` or `;`, a query without `#`.
   */
  /** Every character of `s` is visible (above U+0020). */
  predicate Visible(s: string) { forall j :: 0 <= j < |s| ==> s[j] > ' ' }

  /** No character of `s` is in `cs`. */
  predicate NoneOf(s: string, cs: set<char>) { forall j :: 0 <= j < |s| ==> s[j] !in cs }

  lemma ParseHttpsLink(host: string, path: string, query: string)
    requires Visible(host) && NoneOf(host, {'/', '?', '#', '[', ']'})
    requires |path| > 0 && path[0] == '/'
    requires Visible(path) && NoneOf(path, {'?', '#', ';'})
    requires Visible(query) && NoneOf(query, {'#'})
    ensures Parse("https://" + host + path + "?" + query) == Ok(ParsedUrl("https", host, path, "", query, ""))
  {
    HttpsSchemeStep(host, path, query);
    HttpsAuthorityStep(host, path, query);
    var url := "https://" + host + path + "?" + query;
    ParseFrom(url, url, "https", "//" + host + path + "?" + query, host, path + "?" + query, path, "", query, "");
  }

  /** Sanitising leaves such a link alone, and its scheme is `https`. */
  lemma HttpsSchemeStep(host: string, path: string, query: string)
    requires Visible(host) && Visible(path) && Visible(query)
    ensures Sanitize("https://" + host + path + "?" + query) == "https://" + host + path + "?" + query
    ensures SplitScheme("https://" + host + path + "?" + query) == ("https", "//" + host + path + "?" + query)
  {
    var rest2 := path + "?" + query;
    var rest := "//" + host + rest2;
    var url := "https:" + rest;
    assert "//" + host + path + "?" + query == rest;
    assert "https://" + host + path + "?" + query == url;
    VisibleRest(path, query);
    SanitizeKeeps(url, host, rest2);
    SchemeOfHttps(url, rest);
  }

  /** The authority of such a link is `host`; path and query split off unchanged. */
  lemma HttpsAuthorityStep(host: string, path: string, query: string)
    requires NoneOf(host, {'/', '?', '#', '[', ']'})
    requires |path| > 0 && path[0] == '/'
    requires NoneOf(path, {'?', '#', ';'}) && NoneOf(query, {'#'})
    ensures SplitAuthority("//" + host + path + "?" + query) == (host, path + "?" + query)
    ensures !Unbalanced(host)
    ensures SplitTail("https", path + "?" + query) == (path, "", query, "")
  {
    assert "//" + host + path + "?" + query == "//" + host + (path + "?" + query);
    AuthorityOf(host, path + "?" + query);
    TailOf(path, query);
  }

  lemma ParseFrom(url: string, u: string, scheme: string, rest: string, netloc: string, rest2: string,
                  path: string, params: string, query: string, fragment: string)
    requires Sanitize(url) == u
    requires SplitScheme(u) == (scheme, rest)
    requires SplitAuthority(rest) == (netloc, rest2)
    requires !Unbalanced(netloc)
    requires SplitTail(scheme, rest2) == (path, params, query, fragment)
    ensures Parse(url) == Ok(ParsedUrl(scheme, netloc, path, params, query, fragment))
  {
  }

  lemma VisibleRest(path: string, query: string)
    requires Visible(path) && Visible(query)
    ensures Visible(path + "?" + query)
  {
    var rest2 := path + "?" + query;
    forall j | 0 <= j < |rest2| ensures rest2[j] > ' ' {
      if j < |path| { assert rest2[j] == path[j]; }
      else if j > |path| { assert rest2[j] == query[j - |path| - 1]; }
    }
  }

  lemma SanitizeKeeps(url: string, host: string, rest2: string)
    requires url == "https://" + host + rest2
    requires Visible(host) && Visible(rest2)
    ensures Sanitize(url) == url
  {
    assert url[0] == 'h';
    assert LStripControlOrSpace(url) == url;
    forall j | 0 <= j < |url| ensures url[j] !in UNSAFE_CHARS {
      if j < 8 {
      } else if j < 8 + |host| {
        assert url[j] == host[j - 8];
      } else {
        assert url[j] == rest2[j - 8 - |host|];
      }
    }
    RemoveAbsent(url, UNSAFE_CHARS);
  }

  lemma SchemeOfHttps(url: string, rest: string)
    requires url == "https:" + rest
    ensures SplitScheme(url) == ("https", rest)
  {
    assert url[5] == ':';
    assert forall j :: 0 <= j < 5 ==> url[j] != ':';
    assert IndexOf(url, ':') == 5;
    assert url[..5] == "https";
    assert IsScheme("https");
    assert Lower("https") == "https";
    assert url[6..] == rest;
  }

  lemma AuthorityOf(host: string, rest2: string)
    requires NoneOf(host, {'/', '?', '#', '[', ']'})
    requires |rest2| > 0 && rest2[0] == '/'
    ensures SplitAuthority("//" + host + rest2) == (host, rest2)
    ensures !Unbalanced(host)
  {
    AuthorityOfAny(host, rest2);
  }

  /** The authority runs up to the delimiter that ends `host`, or to the end. */
  lemma AuthorityOfAny(host: string, rest2: string)
    requires NoneOf(host, {'/', '?', '#'})
    requires rest2 == [] || rest2[0] in {'/', '?', '#'}
    ensures SplitAuthority("//" + host + rest2) == (host, rest2)
  {
    var rest := "//" + host + rest2;
    assert rest[..2] == "//";
    var tail := rest[2..];
    assert tail == host + rest2;
    assert forall j :: 0 <= j < |host| ==> tail[j] == host[j];
    if rest2 != [] {
      assert tail[|host|] == rest2[0];
    }
    assert IndexOfAny(tail, {'/', '?', '#'}) == |host|;
    assert tail[..|host|] == host && tail[|host|..] == rest2;
  }

  /**
   * An `https` link is refused exactly when its netloc has an opening
   * bracket without a closing one, or the reverse; otherwise the netloc
   * is `host` as written.
   */
  lemma HttpsNetlocBrackets(url: string, host: string, rest: string)
    requires url == "https://" + host + rest
    requires Visible(host) && NoneOf(host, {'/', '?', '#'})
    requires Visible(rest) && (rest == [] || rest[0] in {'/', '?', '#'})
    ensures Parse(url).Err? <==> Unbalanced(host)
    ensures Parse(url).Ok? ==> Parse(url).value.netloc == host
  {
    HttpsPrefix(url, host, rest);
    ParseSteps(url, url, "https", "//" + host + rest, host, rest);
  }

  /**
   * Sanitising leaves a visible `https` link alone, its scheme is `https`
   * and its authority is `host`.
   */
  lemma HttpsPrefix(url: string, host: string, rest: string)
    requires url == "https://" + host + rest
    requires Visible(host) && NoneOf(host, {'/', '?', '#'})
    requires Visible(rest) && (rest == [] || rest[0] in {'/', '?', '#'})
    ensures Sanitize(url) == url
    ensures SplitScheme(url) == ("https", "//" + host + rest)
    ensures SplitAuthority("//" + host + rest) == (host, rest)
  {
    SanitizeKeeps(url, host, rest);
    SchemeOfHttps(url, "//" + host + rest);
    AuthorityOfAny(host, rest);
  }

  /** `urlparse` refuses exactly an unbalanced netloc and otherwise keeps it. */
  lemma ParseSteps(url: string, u: string, scheme: string, rest: string, netloc: string, rest2: string)
    requires Sanitize(url) == u
    requires SplitScheme(u) == (scheme, rest)
    requires SplitAuthority(rest) == (netloc, rest2)
    ensures Parse(url).Err? <==> Unbalanced(netloc)
    ensures Parse(url).Ok? ==> Parse(url).value.netloc == netloc
  {
  }

  lemma TailOf(path: string, query: string)
    requires NoneOf(path, {'?', '#', ';'})
    requires NoneOf(query, {'#'})
    ensures SplitTail("https", path + "?" + query) == (path, "", query, "")
  {
    var rest2 := path + "?" + query;
    forall j | 0 <= j < |rest2| ensures rest2[j] != '#' {
      if j < |path| { assert rest2[j] == path[j]; }
      else if j > |path| { assert rest2[j] == query[j - |path| - 1]; }
    }
    assert SplitOnce(rest2, '#') == (rest2, "");
    assert forall j :: 0 <= j < |path| ==> rest2[j] == path[j];
    assert rest2[|path|] == '?';
    assert IndexOf(rest2, '?') == |path|;
    assert rest2[..|path|] == path;
    assert rest2[|path| + 1..] == query;
    assert SplitOnce(rest2, '?') == (path, query);
  }

  /**
   * A netloc with no userinfo, port, bracket or zone has as hostname the
   * string `l` that lower-cases it character by character.
   */
  lemma HostnameOfPlain(h: string, l: string)
    requires h != "" && NoneOf(h, {'@', '[', ':', '%'})
    requires |l| == |h| && forall j :: 0 <= j < |h| ==> l[j] == LowerChar(h[j])
    ensures Hostname(h) == Some(l)
  {
    assert '@' !in h && '[' !in h && ':' !in h && '%' !in h;
    assert AfterLast(h, '@') == h;
    assert BeforeFirst(h, ':') == h;
    assert BeforeFirst(h, '%') == h;
    assert IndexOf(h, '%') == |h|;
    assert h[IndexOf(h, '%')..] == [];
    assert Lower(h) == l;
    assert Lower(h) + [] == l;
  }

  /**
   * With userinfo and a port, the hostname is the part between the last `@`
   * and the first `:`, lower-cased.
   */
  lemma HostnameWithUserinfoAndPort(u: string, h: string, p: string)
    requires h != "" && NoneOf(h, {'@', '[', ':', '%'})
    requires NoneOf(p, {'@', '['})
    ensures Hostname(u + "@" + h + ":" + p) == Some(Lower(h))
  {
    var hostinfo := h + ":" + p;
    assert u + "@" + h + ":" + p == u + ['@'] + hostinfo;
    assert '@' !in hostinfo && '[' !in hostinfo by {
      forall j | 0 <= j < |hostinfo| ensures hostinfo[j] != '@' && hostinfo[j] != '[' {
        if j < |h| { assert hostinfo[j] == h[j]; }
        else if j > |h| { assert hostinfo[j] == p[j - |h| - 1]; }
      }
    }
    AfterLastOf(u, hostinfo, '@');
    assert ':' !in h && '%' !in h;
    BeforeFirstOf(h, p, ':');
    HostnameOfHost(h);
  }

  /** A host without brackets, `:` or zone, once isolated, is lower-cased whole. */
  lemma HostnameOfHost(h: string)
    requires h != "" && '%' !in h
    ensures var zone := h[IndexOf(h, '%')..]; Lower(BeforeFirst(h, '%')) + zone == Lower(h)
  {
    assert h[IndexOf(h, '%')..] == [];
    assert Lower(h) + [] == Lower(h);
  }
}
