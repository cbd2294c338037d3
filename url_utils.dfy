/** The URL <-> filename codec of `utils/url_utils.py`: `url_to_filename`,
    `filename_to_url`, `is_valid_url` and `normalize_url`, over a model of the part of
    `urllib.parse.urlparse` (CPython 3.11) that they rely on. */
module UrlUtils {
  import opened Wrappers
  import opened Strings

  /** The six components `urlparse` returns. */
  datatype Url = Url(scheme: string, netloc: string, path: string, params: string, query: string, fragment: string)

  predicate IsAsciiLetter(c: char) { 'A' <= c <= 'Z' || 'a' <= c <= 'z' }

  predicate IsAsciiDigit(c: char) { '0' <= c <= '9' }

  predicate IsSchemeChar(c: char) { IsAsciiLetter(c) || IsAsciiDigit(c) || c == '+' || c == '-' || c == '.' }

  /** Tab, carriage return and line feed, which `urlsplit` deletes wherever they occur. */
  predicate IsUnsafe(c: char) { c == '\t' || c == '\r' || c == '\n' }

  /** The characters that end the network location. */
  predicate IsDelimiter(c: char) { c == '/' || c == '?' || c == '#' }

  predicate NoUnsafe(s: string) { forall c :: c in s ==> !IsUnsafe(c) }

  /** A scheme as `urlsplit` reports it: an ASCII letter, then scheme characters, lower case. */
  predicate IsSchemeName(s: string) {
    |s| > 0 && IsAsciiLetter(s[0]) && forall c :: c in s ==> IsSchemeChar(c) && !('A' <= c <= 'Z')
  }

  /** Schemes for which `urlparse` splits `;params` off the last path segment. */
  const UsesParams: set<string> :=
    {"", "ftp", "hdl", "prospero", "http", "imap", "https", "shttp", "rtsp", "rtspu", "sip", "sips", "mms", "sftp", "tel"}

  /** Strips leading C0 control characters and spaces. */
  function LStripControls(s: string): (r: string)
    ensures r == [] || r[0] > ' '
    ensures |r| <= |s| && r == s[|s| - |r|..]
  {
    if |s| > 0 && s[0] <= ' ' then LStripControls(s[1..]) else s
  }

  function RemoveUnsafe(s: string): (r: string)
    ensures NoUnsafe(r)
    ensures NoUnsafe(s) ==> r == s
    ensures |s| > 0 && !IsUnsafe(s[0]) ==> |r| > 0 && r[0] == s[0]
  {
    if |s| == 0 then s
    else if IsUnsafe(s[0]) then RemoveUnsafe(s[1..])
    else [s[0]] + RemoveUnsafe(s[1..])
  }

  /** What `urlsplit` does to its input before splitting it. */
  function Sanitize(url: string): (r: string)
    ensures NoUnsafe(r)
    ensures r == [] || r[0] > ' '
  {
    RemoveUnsafe(LStripControls(url))
  }

  /** A `scheme:` prefix, lower-cased, and the rest; or no scheme and the whole input. */
  function SplitScheme(url: string): (r: (string, string))
    ensures r.0 == "" ==> r.1 == url
    ensures r.0 != "" ==> IsSchemeName(r.0) && |r.0| < |url| && url[|r.0|] == ':' && r.1 == url[|r.0| + 1..]
    ensures NoUnsafe(url) ==> NoUnsafe(r.1)
  {
    var i := IndexOf(url, ':');
    if i > 0 && IsAsciiLetter(url[0]) && forall j :: 0 <= j < i ==> IsSchemeChar(url[j]) then
      var scheme := Lower(url[..i]);
      assert forall c :: c in scheme ==> IsSchemeChar(c) && !('A' <= c <= 'Z') by {
        forall c | c in scheme
          ensures IsSchemeChar(c) && !('A' <= c <= 'Z')
        {
          var j :| 0 <= j < i && scheme[j] == c;
          assert IsSchemeChar(url[j]);
        }
      }
      assert url == url[..i + 1] + url[i + 1..];
      (scheme, url[i + 1..])
    else ("", url)
  }

  /** The index of the first '/', '?' or '#' at or after `from`, or the length of `s`. */
  function FirstDelimiter(s: string, from: nat): (d: nat)
    requires from <= |s|
    ensures from <= d <= |s|
    ensures forall j :: from <= j < d ==> !IsDelimiter(s[j])
    ensures d < |s| ==> IsDelimiter(s[d])
    decreases |s| - from
  {
    if from == |s| || IsDelimiter(s[from]) then from else FirstDelimiter(s, from + 1)
  }

  /** A `//netloc` prefix and the rest. */
  function SplitNetloc(url: string): (r: (string, string))
    ensures forall c :: c in r.0 ==> !IsDelimiter(c)
    ensures StartsWith(url, "//") ==> url == "//" + r.0 + r.1 && (r.1 == [] || IsDelimiter(r.1[0]))
    ensures !StartsWith(url, "//") ==> r == ("", url)
    ensures NoUnsafe(url) ==> NoUnsafe(r.0) && NoUnsafe(r.1)
  {
    if StartsWith(url, "//") then
      var d := FirstDelimiter(url, 2);
      assert url == url[..2] + url[2..d] + url[d..];
      (url[2..d], url[d..])
    else ("", url)
  }

  /** The network location after "//" is everything up to the first delimiter. */
  lemma SplitNetlocOf(netloc: string, rest: string)
    requires forall c :: c in netloc ==> !IsDelimiter(c)
    requires rest == [] || IsDelimiter(rest[0])
    ensures SplitNetloc("//" + netloc + rest) == (netloc, rest)
  {
    var url := "//" + netloc + rest;
    var d := FirstDelimiter(url, 2);
    var e := 2 + |netloc|;
    assert forall j :: 2 <= j < e ==> url[j] == netloc[j - 2];
    assert url[2..e] == netloc;
    assert url[e..] == rest;
  }

  /** `s.split(c, 1)` padded: what precedes the first `c` and what follows it. */
  function SplitAt(s: string, c: char): (r: (string, string))
    ensures c !in r.0
    ensures c in s ==> s == r.0 + [c] + r.1
    ensures c !in s ==> r == (s, "")
  {
    var i := IndexOf(s, c);
    if i < 0 then (s, "")
    else
      assert s == s[..i] + [c] + s[i + 1..];
      (s[..i], s[i + 1..])
  }

  /** Splitting at the first `c` recovers the parts around it. */
  lemma SplitAtFirst(a: string, c: char, b: string)
    requires c !in a
    ensures SplitAt(a + [c] + b, c) == (a, b)
  {
    var s := a + [c] + b;
    IndexOfAfter(a, c, b);
    assert s[..|a|] == a;
    assert s[|a| + 1..] == b;
  }

  /** `_splitparams`: the `;params` of the last path segment, for a path holding a ';'. */
  function SplitParams(u: string): (r: (string, string))
    requires ';' in u
    ensures r == (u, "") || u == r.0 + ";" + r.1
  {
    if '/' in u then
      var i := IndexOfFrom(u, ';', RFind(u, '/'));
      if i < 0 then (u, "")
      else
        assert u == u[..i] + ";" + u[i + 1..];
        (u[..i], u[i + 1..])
    else
      var i := IndexOf(u, ';');
      assert u == u[..i] + ";" + u[i + 1..];
      (u[..i], u[i + 1..])
  }

  /** What follows the network location, split into path, params, query and fragment. */
  datatype PathParts = PathParts(path: string, params: string, query: string, fragment: string)

  /** The two sides of a split hold only characters of the whole. */
  lemma PartsWithin(whole: string, a: string, c: char, b: string)
    requires whole == a + [c] + b || (whole == a && b == "")
    ensures forall x :: x in a ==> x in whole
    ensures forall x :: x in b ==> x in whole
  {
  }

  function SplitPath(scheme: string, rest: string): (r: PathParts)
    ensures '?' !in r.path && '#' !in r.path && '#' !in r.query
    ensures NoUnsafe(rest) ==> NoUnsafe(r.path) && NoUnsafe(r.params) && NoUnsafe(r.query) && NoUnsafe(r.fragment)
  {
    var f := SplitAt(rest, '#');
    PartsWithin(rest, f.0, '#', f.1);
    var q := SplitAt(f.0, '?');
    PartsWithin(f.0, q.0, '?', q.1);
    var pp := if scheme in UsesParams && ';' in q.0 then SplitParams(q.0) else (q.0, "");
    PartsWithin(q.0, pp.0, ';', pp.1);
    PathParts(pp.0, pp.1, q.1, f.1)
  }

  /** `c` followed by `x` when `x` is non-empty, else nothing. */
  function Tagged(c: char, x: string): string {
    if x == "" then "" else [c] + x
  }

  /** Splitting at `c` after a prefix without `c` finds the tagged part, if any. */
  lemma SplitAtTagged(a: string, c: char, x: string)
    requires c !in a
    ensures SplitAt(a + Tagged(c, x), c) == (a, x)
  {
    if x == "" {
      assert a + Tagged(c, x) == a;
    } else {
      assert a + Tagged(c, x) == a + [c] + x;
      SplitAtFirst(a, c, x);
    }
  }

  /** A path with neither '?' nor ';', then an optional query and fragment, splits back. */
  lemma SplitPathOf(scheme: string, path: string, query: string, fragment: string)
    requires '?' !in path && '#' !in path && '#' !in query && ';' !in path
    ensures SplitPath(scheme, path + Tagged('?', query) + Tagged('#', fragment)) == PathParts(path, "", query, fragment)
  {
    var pq := path + Tagged('?', query);
    assert '#' !in pq;
    SplitAtTagged(pq, '#', fragment);
    SplitAtTagged(path, '?', query);
  }

  /** `urlparse(url)`. */
  function UrlParse(url: string): (u: Url)
    ensures u.scheme == "" || IsSchemeName(u.scheme)
    ensures forall c :: c in u.netloc ==> !IsDelimiter(c)
    ensures '?' !in u.path && '#' !in u.path && '#' !in u.query
    ensures NoUnsafe(u.netloc) && NoUnsafe(u.path) && NoUnsafe(u.params) && NoUnsafe(u.query) && NoUnsafe(u.fragment)
  {
    var s := SplitScheme(Sanitize(url));
    var n := SplitNetloc(s.1);
    var p := SplitPath(s.0, n.1);
    Url(s.0, n.0, p.path, p.params, p.query, p.fragment)
  }

  lemma UrlParseScheme(url: string)
    ensures UrlParse(url).scheme == SplitScheme(Sanitize(url)).0
  {
  }

  /** The string `urlunsplit` would build from the components (without params). */
  function Unsplit(scheme: string, netloc: string, path: string, query: string, fragment: string): string {
    scheme + "://" + netloc + path + Tagged('?', query) + Tagged('#', fragment)
  }

  /** Parsing a URL assembled from well-formed components gives the components back. */
  lemma ParseUnsplit(scheme: string, netloc: string, path: string, query: string, fragment: string)
    requires IsSchemeName(scheme)
    requires NoUnsafe(netloc) && NoUnsafe(path) && NoUnsafe(query) && NoUnsafe(fragment)
    requires forall c :: c in netloc ==> !IsDelimiter(c)
    requires path == "" || path[0] == '/'
    requires '?' !in path && '#' !in path && '#' !in query && ';' !in path
    ensures UrlParse(Unsplit(scheme, netloc, path, query, fragment)) == Url(scheme, netloc, path, "", query, fragment)
  {
    var rest2 := path + Tagged('?', query) + Tagged('#', fragment);
    var rest := "//" + netloc + rest2;
    var url := Unsplit(scheme, netloc, path, query, fragment);
    UnsplitShape(scheme, netloc, path, query, fragment);
    UnsplitSafe(netloc, path, query, fragment);
    SanitizeUnsplit(scheme, rest);
    SplitSchemeOf(scheme, rest);
    PathStartsRest(path, query, fragment);
    SplitNetlocOf(netloc, rest2);
    SplitPathOf(scheme, path, query, fragment);
    UrlParseSteps(url, scheme, rest, netloc, rest2);
  }

  lemma UnsplitShape(scheme: string, netloc: string, path: string, query: string, fragment: string)
    ensures Unsplit(scheme, netloc, path, query, fragment)
      == scheme + [':'] + ("//" + netloc + (path + Tagged('?', query) + Tagged('#', fragment)))
  {
    assert "://" == [':'] + "//";
  }

  lemma UnsplitSafe(netloc: string, path: string, query: string, fragment: string)
    requires NoUnsafe(netloc) && NoUnsafe(path) && NoUnsafe(query) && NoUnsafe(fragment)
    ensures NoUnsafe("//" + netloc + (path + Tagged('?', query) + Tagged('#', fragment)))
  {
  }

  lemma PathStartsRest(path: string, query: string, fragment: string)
    requires path == "" || path[0] == '/'
    ensures var rest2 := path + Tagged('?', query) + Tagged('#', fragment);
      rest2 == [] || IsDelimiter(rest2[0])
  {
  }

  /** `urlparse` as the three splits it chains. */
  lemma UrlParseSteps(url: string, scheme: string, rest: string, netloc: string, rest2: string)
    requires Sanitize(url) == scheme + [':'] + rest && SplitScheme(scheme + [':'] + rest) == (scheme, rest)
    requires SplitNetloc(rest) == (netloc, rest2)
    ensures var p := SplitPath(scheme, rest2);
      UrlParse(url) == Url(scheme, netloc, p.path, p.params, p.query, p.fragment)
  {
  }

  /** Sanitising a string that starts with a scheme and holds no tab or line break changes nothing. */
  lemma SanitizeUnsplit(scheme: string, rest: string)
    requires IsSchemeName(scheme) && NoUnsafe(rest)
    ensures Sanitize(scheme + [':'] + rest) == scheme + [':'] + rest
  {
    var s := scheme + [':'] + rest;
    assert NoUnsafe(s) by {
      forall c | c in s ensures !IsUnsafe(c) {
        if c in scheme { assert IsSchemeChar(c); }
      }
    }
    assert s[0] == scheme[0];
  }

  /** The scheme is what precedes the first ':'. */
  lemma SplitSchemeOf(scheme: string, rest: string)
    requires IsSchemeName(scheme)
    ensures SplitScheme(scheme + [':'] + rest) == (scheme, rest)
  {
    var s := scheme + [':'] + rest;
    assert !IsSchemeChar(':');
    IndexOfAfter(scheme, ':', rest);
    assert s[..|scheme|] == scheme;
    assert forall j :: 0 <= j < |scheme| ==> s[j] == scheme[j] && scheme[j] in scheme;
    LowerNoCapitals(scheme);
    assert s[|scheme| + 1..] == rest;
  }

  /** Any URL with "http://" in front has the scheme "http". */
  lemma HttpPrefixScheme(x: string)
    ensures UrlParse("http://" + x).scheme == "http"
  {
    SanitizeHttp(x);
    HttpIsScheme();
    SchemeOfSanitized("http://" + x, "http", "//" + RemoveUnsafe(x));
  }

  lemma HttpIsScheme()
    ensures IsSchemeName("http")
  {
    assert forall c :: c in "http" ==> c == 'h' || c == 't' || c == 'p';
  }

  /** A URL that sanitises to a scheme name and ':' parses to that scheme. */
  lemma SchemeOfSanitized(url: string, scheme: string, rest: string)
    requires IsSchemeName(scheme) && Sanitize(url) == scheme + [':'] + rest
    ensures UrlParse(url).scheme == scheme
  {
    SplitSchemeOf(scheme, rest);
    UrlParseScheme(url);
  }

  lemma SanitizeHttp(x: string)
    ensures Sanitize("http://" + x) == "http" + [':'] + ("//" + RemoveUnsafe(x))
  {
    var s := "http://" + x;
    LStripHttp(x);
    RemoveUnsafeHttp(x);
    var y := RemoveUnsafe(x);
    assert Sanitize(s) == RemoveUnsafe(s);
    assert RemoveUnsafe(s) == "http://" + y;
    HttpSplit(y);
  }

  lemma HttpSplit(y: string)
    ensures "http://" + y == "http" + [':'] + ("//" + y)
  {
  }

  lemma LStripHttp(x: string)
    ensures LStripControls("http://" + x) == "http://" + x
  {
    var s := "http://" + x;
    assert s[0] == 'h';
  }

  lemma RemoveUnsafeHttp(x: string)
    ensures RemoveUnsafe("http://" + x) == "http://" + RemoveUnsafe(x)
  {
    assert RemoveUnsafe("http://") == "http://" by { assert NoUnsafe("http://"); }
    RemoveUnsafeAppend("http://", x);
  }

  lemma {:induction false} RemoveUnsafeAppend(a: string, b: string)
    ensures RemoveUnsafe(a + b) == RemoveUnsafe(a) + RemoveUnsafe(b)
    decreases |a|
  {
    if |a| > 0 {
      var ab := a + b;
      assert ab[0] == a[0];
      assert ab[1..] == a[1..] + b;
      RemoveUnsafeAppend(a[1..], b);
      if IsUnsafe(a[0]) {
        assert RemoveUnsafe(ab) == RemoveUnsafe(a[1..] + b);
      } else {
        assert RemoveUnsafe(ab) == [a[0]] + RemoveUnsafe(a[1..] + b);
        assert RemoveUnsafe(a) == [a[0]] + RemoveUnsafe(a[1..]);
      }
    } else {
      assert a + b == b;
    }
  }

  // ----- is_valid_url -----

  predicate IsLabelChar(c: char) { IsAsciiLetter(c) || IsAsciiDigit(c) || c == '-' }

  predicate IsLabel(l: string) {
    l != "" && forall i :: 0 <= i < |l| ==> IsLabelChar(l[i])
  }

  predicate IsTopLevelLabel(l: string) {
    |l| >= 2 && forall i :: 0 <= i < |l| ==> IsAsciiLetter(l[i])
  }

  /** The host part of the pattern, `(?!-)[A-Za-z0-9-]+(\.[A-Za-z0-9-]+)*\.[A-Za-z]{2,}`:
      at least two non-empty dot-separated labels of letters, digits and '-', not starting
      with '-', the last one at least two ASCII letters. */
  predicate IsHostName(h: string) {
    var labels := SplitStr(h, ".");
    |h| > 0 && h[0] != '-' && |labels| >= 2
    && (forall i :: 0 <= i < |labels| ==> IsLabel(labels[i]))
    && IsTopLevelLabel(labels[|labels| - 1])
  }

  /** The pattern without its optional `www.`: no character of the host is '/', so the host
      is everything before the first '/', and what follows (`/.*`) holds no line break. */
  predicate MatchesHostAndPath(s: string) {
    '\n' !in s && var k := IndexOf(s, '/'); IsHostName(if k < 0 then s else s[..k])
  }

  /** `(www\.)?` then the rest; when the host after "www." fails, the regex backtracks and
      reads "www" as the first label. */
  predicate MatchesToEnd(s: string) {
    MatchesHostAndPath(s) || (StartsWith(s, "www.") && MatchesHostAndPath(s[4..]))
  }

  /** `is_valid_url`: `re.match` anchors the pattern at the start, and its final `$` matches
      at the end of the string or just before a final line break. */
  predicate IsValidUrl(s: string) {
    MatchesToEnd(s) || (|s| > 0 && s[|s| - 1] == '\n' && MatchesToEnd(s[..|s| - 1]))
  }

  lemma {:induction false} JoinChars(parts: seq<string>, sep: string, c: char)
    requires c in Join(parts, sep)
    ensures c in sep || exists i :: 0 <= i < |parts| && c in parts[i]
    decreases |parts|
  {
    if |parts| > 1 {
      var rest := Join(parts[1..], sep);
      if c in rest {
        JoinChars(parts[1..], sep, c);
        if c !in sep {
          var i :| 0 <= i < |parts| - 1 && c in parts[1..][i];
          assert c in parts[i + 1];
        }
      } else if c !in sep {
        assert c in parts[0];
      }
    }
  }

  /** A host name is made of label characters and dots, and holds at least one dot. */
  lemma HostNameChars(h: string)
    requires IsHostName(h)
    ensures forall i :: 0 <= i < |h| ==> IsLabelChar(h[i]) || h[i] == '.'
    ensures '.' in h
  {
    var labels := SplitStr(h, ".");
    JoinSplit(h, ".");
    forall i | 0 <= i < |h|
      ensures IsLabelChar(h[i]) || h[i] == '.'
    {
      var c := h[i];
      JoinChars(labels, ".", c);
      if c != '.' {
        var k :| 0 <= k < |labels| && c in labels[k];
        assert IsLabel(labels[k]);
      }
    }
    if '.' !in h {
      ContainsChar(h, '.');
      SplitWithoutSep(h, ".");
    }
  }

  /** Without "www.": a host name, then nothing or a path. */
  lemma HostAndPathParts(body: string) returns (host: string, post: string)
    requires MatchesHostAndPath(body)
    ensures body == host + post && IsHostName(host)
    ensures post == [] || post[0] == '/'
  {
    var k := IndexOf(body, '/');
    if k < 0 {
      host, post := body, [];
    } else {
      host, post := body[..k], body[k..];
      assert body == host + post;
    }
  }

  lemma SplitPrefix(s: string, p: string)
    requires StartsWith(s, p)
    ensures s == p + s[|p|..]
  {
  }

  lemma ConcatAssoc(a: string, b: string, c: string)
    ensures a + (b + c) == a + b + c
  {
  }

  /** With the optional "www." in front. */
  lemma MatchesToEndParts(t: string) returns (pre: string, host: string, post: string)
    requires MatchesToEnd(t)
    ensures t == pre + host + post && IsHostName(host)
    ensures pre == "" || pre == "www."
    ensures pre == "" ==> t == host + post
    ensures pre != "" ==> t[0] == 'w'
    ensures post == [] || post[0] == '/'
  {
    if MatchesHostAndPath(t) {
      pre := "";
      host, post := HostAndPathParts(t);
      assert pre + host + post == host + post;
    } else {
      pre := "www.";
      var body := t[4..];
      host, post := HostAndPathParts(body);
      SplitPrefix(t, pre);
      ConcatAssoc(pre, host, post);
    }
  }

  lemma DropLast(s: string, t: string, pre: string, host: string, p: string)
    requires |s| > 0 && t == s[..|s| - 1] && s[|s| - 1] == '\n'
    requires t == pre + host + p && |host| > 0
    requires pre == "" ==> t == host + p
    ensures s == pre + host + (p + ['\n'])
    ensures pre == "" ==> s == host + (p + ['\n'])
    ensures s[0] == t[0]
  {
    assert s == t + ['\n'];
  }

  /** A valid URL is an optional "www.", a host name, then nothing, a path or a line break. */
  lemma ValidUrlParts(s: string) returns (pre: string, host: string, post: string)
    requires IsValidUrl(s)
    ensures s == pre + host + post
    ensures pre == "" || pre == "www."
    ensures pre == "" ==> s == host + post
    ensures pre != "" ==> s[0] == 'w'
    ensures IsHostName(host)
    ensures post == [] || post[0] == '/' || post == "\n"
  {
    if MatchesToEnd(s) {
      pre, host, post := MatchesToEndParts(s);
    } else {
      var t := s[..|s| - 1];
      var p;
      pre, host, p := MatchesToEndParts(t);
      post := p + ['\n'];
      DropLast(s, t, pre, host, p);
    }
  }

  /** A string without a '.' is never a valid URL. */
  lemma ValidUrlHasDot(s: string)
    requires '.' !in s
    ensures !IsValidUrl(s)
  {
    if IsValidUrl(s) {
      var pre, host, post := ValidUrlParts(s);
      HostNameChars(host);
    }
  }

  /** A string starting with '-' is never a valid URL. */
  lemma ValidUrlNoLeadingHyphen(s: string)
    requires |s| > 0 && s[0] == '-'
    ensures !IsValidUrl(s)
  {
    if IsValidUrl(s) {
      var pre, host, post := ValidUrlParts(s);
    }
  }

  /** A valid URL never starts with a scheme-like prefix ending in ':': the host cannot
      hold ':' and must be followed by nothing, '/' or a line break. */
  lemma ValidUrlNoColonPrefix(s: string, p: string)
    requires IsValidUrl(s)
    requires |p| > 0 && p[|p| - 1] == ':' && p[0] != 'w'
    requires forall i :: 0 <= i < |p| ==> p[i] != '/' && p[i] != '\n'
    ensures !StartsWith(s, p)
  {
    var pre, host, post := ValidUrlParts(s);
    if pre == "" {
      HostNameChars(host);
      HostThenNoColon(s, host, post, p);
    } else {
      assert s[0] != p[0];
    }
  }

  /** The step of the lemma above once the optional "www." is out of the way. */
  lemma HostThenNoColon(s: string, host: string, post: string, p: string)
    requires s == host + post
    requires forall i :: 0 <= i < |host| ==> IsLabelChar(host[i]) || host[i] == '.'
    requires post == [] || post[0] == '/' || post[0] == '\n'
    requires |p| > 0 && p[|p| - 1] == ':'
    requires forall i :: 0 <= i < |p| ==> p[i] != '/' && p[i] != '\n'
    ensures !StartsWith(s, p)
  {
    if |p| <= |host| {
      assert s[|p| - 1] == host[|p| - 1];
    } else if |host| < |s| {
      assert s[|host|] == post[0];
    }
  }

  /** `urlparse` finds no scheme in a valid URL: the first ':' of a valid URL, if any,
      comes after a '/', and '/' cannot occur in a scheme. */
  lemma ValidUrlHasEmptyScheme(u: string)
    requires IsValidUrl(u)
    ensures UrlParse(u).scheme == ""
  {
    var pre, host, post := ValidUrlParts(u);
    HostNameChars(host);
    var h := pre + host;
    HostPrefixFacts(pre, host);
    LStripKeeps(u);
    RemoveUnsafeAppend(h, post);
    var w := RemoveUnsafe(post);
    if post == "\n" {
      assert w == RemoveUnsafe(post[1..]);
    }
    assert Sanitize(u) == h + w;
    NoSchemeBeforeSlash(h, w);
    UrlParseScheme(u);
  }

  /** What precedes the path of a valid URL holds no ':', '/', tab or line break. */
  lemma HostPrefixFacts(pre: string, host: string)
    requires pre == "" || pre == "www."
    requires |host| > 0 && forall i :: 0 <= i < |host| ==> IsLabelChar(host[i]) || host[i] == '.'
    ensures ':' !in pre + host && '/' !in pre + host && NoUnsafe(pre + host)
    ensures (pre + host)[0] > ' '
  {
    var h := pre + host;
    assert forall i :: 0 <= i < |h| ==> h[i] == 'w' || h[i] == '.' || IsLabelChar(h[i]);
  }

  lemma LStripKeeps(s: string)
    requires |s| > 0 && s[0] > ' '
    ensures LStripControls(s) == s
  {
  }

  /** No scheme is found when a '/' (or the end) comes before any ':'. */
  lemma NoSchemeBeforeSlash(h: string, w: string)
    requires ':' !in h && '/' !in h
    requires w == [] || w[0] == '/'
    ensures SplitScheme(h + w).0 == ""
  {
    var v := h + w;
    var i := IndexOf(v, ':');
    if w != [] {
      assert v[|h|] == '/';
      assert !IsSchemeChar(v[|h|]);
      if i >= 0 {
        assert v[..i] == h || |h| < i;
      }
    } else {
      assert v == h;
    }
  }

  /** No valid URL carries an "http:" or "https:" scheme. */
  lemma ValidUrlHasNoScheme(s: string)
    requires IsValidUrl(s)
    ensures !StartsWith(s, "http:") && !StartsWith(s, "https:")
  {
    ValidUrlNoColonPrefix(s, "http:");
    ValidUrlNoColonPrefix(s, "https:");
  }

  // ----- url_to_filename -----

  const MaxFilenameLength: nat := 200

  /** The domain as it appears in a file name: '.' escaped to '_'. */
  function EscapeDomain(netloc: string): (r: string)
    ensures '.' !in r
    ensures '/' in r ==> '/' in netloc
  {
    ReplaceCharRemoves(netloc, '.', '_');
    ReplaceAll(netloc, ".", "_")
  }

  /** The path as it appears in a file name: '/' and '.' escaped to '_'. */
  function EscapePath(path: string): (r: string)
    ensures '.' !in r && '/' !in r
  {
    var noSlash := ReplaceAll(path, "/", "_");
    ReplaceCharRemoves(path, '/', '_');
    ReplaceCharRemoves(noSlash, '.', '_');
    ReplaceAll(noSlash, ".", "_")
  }

  /** The file name before truncation: the escaped domain, and the escaped path without
      one leading '/' unless the path is empty or "/". */
  function FullFilename(u: Url): (r: string)
    ensures '.' !in r && ('/' in r ==> '/' in u.netloc)
  {
    if u.path != "" && u.path != "/" then
      var p := if StartsWith(u.path, "/") then u.path[1..] else u.path;
      EscapeDomain(u.netloc) + "_" + EscapePath(p)
    else EscapeDomain(u.netloc)
  }

  /** `url_to_filename`: the file name of the parsed URL, cut to 200 characters. */
  function UrlToFilename(url: string): (r: string)
    ensures |r| <= MaxFilenameLength
    ensures '.' !in r && '/' !in r
  {
    var u := UrlParse(url);
    var name := FullFilename(u);
    assert '/' !in name by { assert !IsDelimiter('/') ==> '/' !in u.netloc; }
    if |name| > MaxFilenameLength then name[..MaxFilenameLength] else name
  }

  // ----- filename_to_url -----

  /** `name.rsplit('.', 1)[0]` when the name holds a '.', else the name itself. */
  function DropExtension(name: string): (r: string)
    ensures '.' in name ==> |r| < |name| && name[|r|] == '.' && r == name[..|r|] && '.' !in name[|r| + 1..]
    ensures '.' !in name ==> r == name
  {
    if '.' in name then name[..RFind(name, '.')] else name
  }

  /** Only the first of the three markers that occurs is removed, every occurrence of it. */
  function StripMarker(base: string): (r: string)
    ensures Contains(base, "_summarized_qa_csv") ==> r == ReplaceAll(base, "_summarized_qa_csv", "")
    ensures !Contains(base, "_summarized_qa_csv") && Contains(base, "_summarized") ==> r == ReplaceAll(base, "_summarized", "")
    ensures !Contains(base, "_summarized_qa_csv") && !Contains(base, "_summarized") && Contains(base, "_qa_json")
      ==> r == ReplaceAll(base, "_qa_json", "")
    ensures !Contains(base, "_summarized") && !Contains(base, "_qa_json") ==> r == base
    ensures forall c :: c in r ==> c in base
  {
    SummarizedMarkers(base);
    if Contains(base, "_summarized_qa_csv") then ReplaceAll(base, "_summarized_qa_csv", "")
    else if Contains(base, "_summarized") then ReplaceAll(base, "_summarized", "")
    else if Contains(base, "_qa_json") then ReplaceAll(base, "_qa_json", "")
    else base
  }

  /** The "_summarized_qa_csv" marker holds the "_summarized" one. */
  lemma SummarizedMarkers(base: string)
    ensures Contains(base, "_summarized_qa_csv") ==> Contains(base, "_summarized")
  {
    if Contains(base, "_summarized_qa_csv") {
      assert "_summarized_qa_csv" == "_summarized" + "_qa_csv";
      ContainsPrefixOf(base, "_summarized", "_qa_csv");
    }
  }

  /** The candidate URL `filename_to_url` tests: extension dropped, marker removed, '_' → '.'. */
  function DecodeFilename(filename: string): (r: string)
    ensures '_' !in r
    ensures forall c :: c in r ==> c == '.' || c in filename
  {
    var base := StripMarker(DropExtension(filename));
    ReplaceCharRemoves(base, '_', '.');
    ReplaceAll(base, "_", ".")
  }

  /** `filename_to_url`: the candidate if it is a valid URL, else None. */
  function FilenameToUrl(filename: string): (r: Option<string>)
    ensures r.Some? ==> IsValidUrl(r.value) && '_' !in r.value && r.value == DecodeFilename(filename)
    ensures r.None? <==> !IsValidUrl(DecodeFilename(filename))
  {
    var candidate := DecodeFilename(filename);
    if IsValidUrl(candidate) then Some(candidate) else None
  }

  /** The codec does not round-trip: the name of a saved page decodes to a string with no
      '/', which is therefore never an http(s) URL (all of which hold "//"). */
  lemma DecodeEncodedIsNotHttp(url: string)
    ensures '/' !in DecodeFilename(UrlToFilename(url) + ".txt")
    ensures !StartsWith(DecodeFilename(UrlToFilename(url) + ".txt"), "http://")
    ensures !StartsWith(DecodeFilename(UrlToFilename(url) + ".txt"), "https://")
  {
    var file := UrlToFilename(url) + ".txt";
    SavedNameNoSlash(UrlToFilename(url), file);
    DecodedNoSlash(file);
    NoSlashNotHttp(DecodeFilename(file));
  }

  lemma SavedNameNoSlash(name: string, file: string)
    requires '/' !in name && file == name + ".txt"
    ensures '/' !in file
  {
  }

  /** Decoding adds no '/'. */
  lemma DecodedNoSlash(file: string)
    requires '/' !in file
    ensures '/' !in DecodeFilename(file)
  {
  }

  /** A string without '/' starts with neither "http://" nor "https://". */
  lemma NoSlashNotHttp(d: string)
    requires '/' !in d
    ensures !StartsWith(d, "http://") && !StartsWith(d, "https://")
  {
    if |d| >= 7 {
      assert d[..7][5] == d[5];
    }
    if |d| >= 8 {
      assert d[..8][6] == d[6];
    }
  }

  /** Dropping the extension of `name + "." + ext` gives `name` back when neither holds a '.'. */
  lemma DropExtensionOf(name: string, ext: string)
    requires '.' !in name && '.' !in ext
    ensures DropExtension(name + "." + ext) == name
  {
    var file := name + "." + ext;
    var i := RFind(file, '.');
    assert file[|name|] == '.';
    assert forall j :: 0 <= j < |name| ==> file[j] == name[j];
    assert forall j :: |name| < j < |file| ==> file[j] == ext[j - |name| - 1];
    assert file[..|name|] == name;
  }

  /** Whatever `filename_to_url` decodes carries neither an "http:" nor an "https:" scheme. */
  lemma DecodedUrlHasNoScheme(filename: string)
    requires FilenameToUrl(filename).Some?
    ensures !StartsWith(FilenameToUrl(filename).value, "http:")
    ensures !StartsWith(FilenameToUrl(filename).value, "https:")
  {
    ValidUrlHasNoScheme(FilenameToUrl(filename).value);
  }

  // ----- normalize_url -----

  /** The components `normalize_url` works from: the URL's own, or those of "http://" + url
      when it has no scheme. */
  function NormalizeBase(url: string): (p: Url)
    ensures p.scheme != ""
    ensures UrlParse(url).scheme == "" ==> p == UrlParse("http://" + url) && p.scheme == "http"
    ensures UrlParse(url).scheme != "" ==> p == UrlParse(url)
  {
    if UrlParse(url).scheme == "" then
      HttpPrefixScheme(url);
      UrlParse("http://" + url)
    else UrlParse(url)
  }

  /** One trailing '/' is dropped from a path longer than "/". */
  function DropTrailingSlash(path: string): (r: string)
    ensures EndsWith(path, "/") && |path| > 1 ==> path == r + "/"
    ensures !(EndsWith(path, "/") && |path| > 1) ==> r == path
  {
    if EndsWith(path, "/") && |path| > 1 then path[..|path| - 1] else path
  }

  /** Neither '#' nor '?' can occur in a scheme. */
  lemma MarksOutsideScheme()
    ensures !IsSchemeChar('#') && !IsSchemeChar('?')
  {
  }

  /** A URL assembled from components without '?' or '#' before the query begins with those
      components, holds a '#' exactly when the fragment is non-empty and, without a fragment,
      a '?' exactly when the query is non-empty. */
  lemma UnsplitMarks(scheme: string, netloc: string, path: string, query: string, fragment: string)
    requires '#' !in scheme && '#' !in netloc && '#' !in path && '#' !in query
    requires '?' !in scheme && '?' !in netloc && '?' !in path
    ensures var r := Unsplit(scheme, netloc, path, query, fragment);
      StartsWith(r, scheme + "://" + netloc + path)
      && (scheme == "http" ==> StartsWith(r, "http://"))
      && ('#' in r <==> fragment != "")
      && (fragment == "" ==> ('?' in r <==> query != ""))
  {
    var head := scheme + "://" + netloc + path;
    var r := Unsplit(scheme, netloc, path, query, fragment);
    assert r == head + (Tagged('?', query) + Tagged('#', fragment));
    assert r[..|head|] == head;
    if scheme == "http" {
      assert head[..7] == "http://";
      assert r[..7] == head[..7];
    }
    assert '#' !in "://" && '?' !in "://";
    if fragment != "" {
      assert r[|r| - |fragment| - 1] == '#';
    }
    if query != "" {
      assert r[|head|] == '?';
    }
  }

  /** `normalize_url`: scheme "://" netloc path, then "?query" and "#fragment" when they are
      non-empty; params are dropped. The result begins with the scheme (`http` when the URL
      had none), the network location and the path less one trailing '/'; it holds a '#'
      exactly when there is a fragment and, without one, a '?' exactly when there is a query. */
  function NormalizeUrl(url: string): (r: string)
    ensures var p := NormalizeBase(url);
      StartsWith(r, p.scheme + "://" + p.netloc + DropTrailingSlash(p.path))
    ensures UrlParse(url).scheme == "" ==> StartsWith(r, "http://")
    ensures var p := NormalizeBase(url); '#' in r <==> p.fragment != ""
    ensures var p := NormalizeBase(url); p.fragment == "" ==> ('?' in r <==> p.query != "")
  {
    var p := NormalizeBase(url);
    var path := DropTrailingSlash(p.path);
    assert forall c :: c in path ==> c in p.path;
    MarksOutsideScheme();
    UnsplitMarks(p.scheme, p.netloc, path, p.query, p.fragment);
    Unsplit(p.scheme, p.netloc, path, p.query, p.fragment)
  }

  /** A normalised URL parses back to the scheme (http when none was given), netloc, query
      and fragment it was built from, and to the path less one trailing '/'. */
  lemma NormalizeUrlReparses(url: string)
    requires var p := NormalizeBase(url); (p.path == "" || p.path[0] == '/') && ';' !in p.path
    ensures var p := NormalizeBase(url); var n := UrlParse(NormalizeUrl(url));
      n == Url(p.scheme, p.netloc, DropTrailingSlash(p.path), "", p.query, p.fragment)
  {
    var p := NormalizeBase(url);
    var path := DropTrailingSlash(p.path);
    assert path == "" || path[0] == '/';
    assert forall c :: c in path ==> c in p.path;
    ParseUnsplit(p.scheme, p.netloc, path, p.query, p.fragment);
  }

  /** Only one trailing '/' goes per call, so normalising is not idempotent. */
  lemma NormalizeUrlNotIdempotent()
    ensures NormalizeUrl("http://a.com/x//") == "http://a.com/x/"
    ensures NormalizeUrl("http://a.com/x/") == "http://a.com/x"
  {
    SampleUrls();
    NormalizeSample("/x//");
    NormalizeSample("/x/");
  }

  lemma SampleUrls()
    ensures Unsplit("http", "a.com", "/x//", "", "") == "http://a.com/x//"
    ensures Unsplit("http", "a.com", "/x/", "", "") == "http://a.com/x/"
    ensures Unsplit("http", "a.com", "/x", "", "") == "http://a.com/x"
    ensures DropTrailingSlash("/x//") == "/x/" && DropTrailingSlash("/x/") == "/x"
  {
  }

  lemma NormalizeSample(path: string)
    requires path == "/x//" || path == "/x/"
    ensures NormalizeUrl(Unsplit("http", "a.com", path, "", "")) == Unsplit("http", "a.com", DropTrailingSlash(path), "", "")
  {
    assert IsSchemeName("http") by {
      assert forall c :: c in "http" ==> c == 'h' || c == 't' || c == 'p';
    }
    assert forall c :: c in path ==> c == 'x' || c == '/';
    assert forall c :: c in "a.com" ==> c == 'a' || c == '.' || c == 'c' || c == 'o' || c == 'm';
    ParseUnsplit("http", "a.com", path, "", "");
  }
}
