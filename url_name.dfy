/**
  `retri_fn_url` of download_utils.py: the file name a URL is saved under, the
  last segment of the path that Python's `urlparse` extracts. The URL is split
  as in section 3 of RFC 3986, following `urllib.parse.urlsplit` and `urlparse`
  as of CPython 3.12:
  - a scheme is cut off before the first `:`;
  - an authority is cut off after `//`;
  - then the fragment (after the first `#`) and the query (after the first
    `?`) are cut off;
  - for the schemes that use them, the `;params` of the last segment are cut
    off too.
  Earlier 3.x releases differ on what counts as a scheme. Some accept one that
  does not start with a letter. Releases before 3.9 do not split off a scheme
  followed only by digits, and read those digits as a port.
  The checks by which `urlsplit` raises `ValueError` (IPv6 brackets,
  `_checknetloc` on a non-ASCII authority) are not modelled.
 */
module UrlName {
  import opened Text

  /** The six parts `urlparse` returns. */
  datatype Parts = Parts(scheme: string, netloc: string, path: string, params: string, query: string, fragment: string)

  predicate IsAsciiLetter(c: char) {
    'a' <= c <= 'z' || 'A' <= c <= 'Z'
  }

  /** `scheme_chars`: the characters allowed in a scheme. */
  predicate IsSchemeChar(c: char) {
    IsAsciiLetter(c) || '0' <= c <= '9' || c == '+' || c == '-' || c == '.'
  }

  function LowerChar(c: char): char {
    if 'A' <= c <= 'Z' then (c as int + 32) as char else c
  }

  function Lower(s: string): (r: string)
    ensures |r| == |s|
  {
    seq(|s|, i requires 0 <= i < |s| => LowerChar(s[i]))
  }

  /** `uses_params`: the schemes whose last path segment may carry `;params`. */
  const UsesParams: set<string> :=
    {"", "ftp", "hdl", "prospero", "http", "imap", "https", "shttp", "rtsp", "rtsps", "rtspu", "sip", "sips", "mms", "sftp", "tel"}

  /** The text before the first `:` is a scheme when it is non-empty, starts with an ASCII letter and holds only scheme characters. */
  predicate HasScheme(url: string) {
    var i := IndexOf(url, ':');
    0 < i < |url| && IsAsciiLetter(url[0]) && forall k :: 0 <= k < i ==> IsSchemeChar(url[k])
  }

  /** Index of the first character of `s` that is `/`, `?` or `#`, or `|s|`. */
  function AuthorityEnd(s: string): (i: nat)
    ensures i <= |s|
    ensures i < |s| ==> s[i] in "/?#"
    ensures forall j :: 0 <= j < i ==> s[j] !in "/?#"
    decreases |s|
  {
    if |s| == 0 then 0
    else if s[0] in "/?#" then 0
    else 1 + AuthorityEnd(s[1..])
  }

  /** `s` cut at its first `c`: the text before it and the text after it ("" when there is none). */
  function Before(s: string, c: char): (r: string)
    ensures c !in r
    ensures r <= s
  {
    s[..IndexOf(s, c)]
  }

  function After(s: string, c: char): string {
    var i := IndexOf(s, c);
    if i < |s| then s[i + 1..] else ""
  }

  /** The scheme (lower-cased) and the text after its `:`; no scheme leaves the URL whole. */
  function SplitScheme(url: string): (string, string) {
    if HasScheme(url) then (Lower(url[..IndexOf(url, ':')]), url[IndexOf(url, ':') + 1..])
    else ("", url)
  }

  /** `_splitnetloc`: after a leading `//`, the authority runs up to the first `/`, `?` or `#`. */
  function SplitAuthority(s: string): (string, string) {
    if |s| >= 2 && s[..2] == "//" then
      var e := 2 + AuthorityEnd(s[2..]);
      (s[2..e], s[e..])
    else ("", s)
  }

  /** `urlsplit`: scheme, authority, path, query, fragment. */
  function UrlSplit(url: string): (p: Parts)
    ensures '?' !in p.path && '#' !in p.path
  {
    var (scheme, afterScheme) := SplitScheme(url);
    var (netloc, rest) := SplitAuthority(afterScheme);
    var beforeFragment := Before(rest, '#');
    Parts(scheme, netloc, Before(beforeFragment, '?'), "", After(beforeFragment, '?'), After(rest, '#'))
  }

  /** `_splitparams`: the path without the `;params` of its last segment. */
  function StripParams(path: string): (r: string)
    ensures r <= path
  {
    var slash := LastIndexOf(path, '/');
    if slash >= 0 then
      var semi := slash + IndexOf(path[slash..], ';');
      path[..semi]
    else
      Before(path, ';')
  }

  /** `urlparse(url)`: `urlsplit` and, for a scheme in `uses_params` whose path holds a `;`, the params split off. */
  function UrlParse(url: string): (p: Parts)
    ensures '?' !in p.path && '#' !in p.path
  {
    var parts := UrlSplit(url);
    if parts.scheme in UsesParams && ';' in parts.path then
      var path := StripParams(parts.path);
      var params := if |path| < |parts.path| then parts.path[|path| + 1..] else "";
      parts.(path := path, params := params)
    else parts
  }

  /** `os.path.basename(p)`: the text after the last `/`. */
  function Basename(p: string): (r: string)
    ensures '/' !in r
  {
    p[LastIndexOf(p, '/') + 1..]
  }

  /** The basename is the last segment: a suffix of the path, preceded by a `/` unless it is the whole path. */
  lemma LastSegment(p: string)
    ensures |Basename(p)| <= |p| && p[|p| - |Basename(p)|..] == Basename(p)
    ensures |Basename(p)| == |p| || p[|p| - |Basename(p)| - 1] == '/'
    ensures forall c :: c in Basename(p) ==> c in p
  {
  }

  /** `retri_fn_url(url)` */
  function FileName(url: string): (r: string)
    ensures '/' !in r
  {
    Basename(UrlParse(url).path)
  }

  /** The file name is a piece of the path, so it never holds the `?` of a query or the `#` of a fragment. */
  lemma NoQueryOrFragment(url: string)
    ensures '?' !in FileName(url) && '#' !in FileName(url)
  {
    LastSegment(UrlParse(url).path);
  }

  /** Once the params are split off, the last segment holds no `;`. */
  lemma StrippedSegment(path: string)
    requires ';' in path
    ensures ';' !in Basename(StripParams(path))
  {
    var stripped := StripParams(path);
    var r := Basename(stripped);
    LastSegment(stripped);
    var start := |stripped| - |r|;
    var slash := LastIndexOf(path, '/');
    if slash >= 0 {
      var semi := slash + IndexOf(path[slash..], ';');
      assert stripped == path[..semi];
      assert stripped[slash] == '/';
      assert forall k :: start <= k < |stripped| ==> stripped[k] == r[k - start];
      forall j | 0 <= j < |r| ensures r[j] != ';' {
        assert r[j] == path[slash..][start + j - slash];
      }
    } else {
      forall j | 0 <= j < |r| ensures r[j] != ';' {
        assert r[j] == stripped[start + j];
      }
    }
  }

  /** For a scheme that uses params, the file name never holds the `;params` of the last segment. */
  lemma ParamsDropped(url: string)
    requires UrlSplit(url).scheme in UsesParams
    ensures ';' !in FileName(url)
  {
    var path := UrlSplit(url).path;
    if ';' in path {
      StrippedSegment(path);
    }
  }

  /** A name with no `:`, `/`, `;`, `?` or `#` is a relative path with nothing to cut: it is its own file name. */
  lemma PlainName(url: string)
    requires ':' !in url && '/' !in url && ';' !in url && '?' !in url && '#' !in url
    ensures FileName(url) == url
  {
    assert !HasScheme(url);
    assert |url| >= 2 ==> url[..2][0] != '/';
    assert SplitAuthority(url) == ("", url);
    assert Before(url, '#') == url;
    assert UrlSplit(url).path == url;
    assert UrlParse(url).path == url;
    assert LastIndexOf(url, '/') == -1;
  }

  /** The basename of `d/n` is `n` when `n` holds no `/`. */
  lemma BasenameAfterSlash(d: string, n: string)
    requires '/' !in n
    ensures Basename(d + "/" + n) == n
  {
    LastIndexOfAppend(d + "/", n, '/');
    assert (d + "/")[|d|] == '/';
    assert LastIndexOf(d + "/", '/') == |d|;
  }

  /** A scheme followed by `:` is split off, lower-cased, and the rest is kept whole. */
  lemma SchemeSplit(scheme: string, tail: string)
    requires |scheme| > 0 && IsAsciiLetter(scheme[0])
    requires forall k :: 0 <= k < |scheme| ==> IsSchemeChar(scheme[k])
    ensures SplitScheme(scheme + ":" + tail) == (Lower(scheme), tail)
  {
    var u := scheme + ":" + tail;
    assert ':' !in scheme by {
      forall k | 0 <= k < |scheme| ensures scheme[k] != ':' {
        assert IsSchemeChar(scheme[k]);
      }
    }
    assert u == scheme + (":" + tail);
    IndexOfAppend(scheme, ":" + tail, ':');
    assert u[..|scheme|] == scheme;
    assert u[|scheme| + 1..] == tail;
  }

  /** After `//`, an authority without `/`, `?` or `#` is split off up to the first delimiter that follows it. */
  lemma AuthoritySplit(authority: string, rest: string)
    requires '/' !in authority && '?' !in authority && '#' !in authority
    requires rest == "" || rest[0] in "/?#"
    ensures SplitAuthority("//" + authority + rest) == (authority, rest)
  {
    var tail := "//" + authority + rest;
    assert tail[..2] == "//" && tail[2..] == authority + rest;
    assert AuthorityEnd(authority) == |authority|;
    if rest != "" {
      AuthorityEndAppend(authority, rest);
    } else {
      assert authority + rest == authority;
    }
    assert tail[2..2 + |authority|] == authority;
    assert tail[2 + |authority|..] == rest;
  }

  /** Cutting `path + query + fragment` at the first `#` and then at the first `?` leaves the path. */
  lemma PathCut(path: string, query: string, fragment: string)
    requires '?' !in path && '#' !in path
    requires query == "" || (query[0] == '?' && '#' !in query)
    requires fragment == "" || fragment[0] == '#'
    ensures Before(Before(path + query + fragment, '#'), '?') == path
  {
    IndexOfAppend(path + query, fragment, '#');
    assert fragment != "" ==> IndexOf(fragment, '#') == 0;
    assert Before(path + query + fragment, '#') == path + query;
    IndexOfAppend(path, query, '?');
    assert query != "" ==> IndexOf(query, '?') == 0;
  }

  /** `urlsplit` of `scheme://authority/path?query#fragment`: the lower-cased scheme, and the path whole. */
  lemma HierarchicalSplit(scheme: string, authority: string, path: string, query: string, fragment: string)
    requires |scheme| > 0 && IsAsciiLetter(scheme[0])
    requires forall k :: 0 <= k < |scheme| ==> IsSchemeChar(scheme[k])
    requires '/' !in authority && '?' !in authority && '#' !in authority
    requires path == "" || path[0] == '/'
    requires '?' !in path && '#' !in path
    requires query == "" || (query[0] == '?' && '#' !in query)
    requires fragment == "" || fragment[0] == '#'
    ensures UrlSplit(scheme + "://" + authority + path + query + fragment).scheme == Lower(scheme)
    ensures UrlSplit(scheme + "://" + authority + path + query + fragment).path == path
  {
    var url := scheme + "://" + authority + path + query + fragment;
    var rest := path + query + fragment;
    var tail := "//" + authority + rest;
    assert url == scheme + ":" + tail;
    SchemeSplit(scheme, tail);
    assert rest == "" || rest[0] in "/?#" by {
      if path != "" {
        assert rest[0] == path[0];
      } else if query != "" {
        assert rest[0] == query[0];
      } else {
        assert rest == fragment;
      }
    }
    AuthoritySplit(authority, rest);
    PathCut(path, query, fragment);
    PathOfSplit(url);
  }

  /**
    A URL of the shape `scheme://authority/path?query#fragment` of section 3 of
    RFC 3986, the query (`?...`) and the fragment (`#...`) each optional: its file
    name is the last segment of its path.
   */
  lemma HierarchicalUrl(scheme: string, authority: string, path: string, query: string, fragment: string)
    requires |scheme| > 0 && IsAsciiLetter(scheme[0])
    requires forall k :: 0 <= k < |scheme| ==> IsSchemeChar(scheme[k])
    requires '/' !in authority && '?' !in authority && '#' !in authority
    requires path == "" || path[0] == '/'
    requires '?' !in path && '#' !in path && ';' !in path
    requires query == "" || (query[0] == '?' && '#' !in query)
    requires fragment == "" || fragment[0] == '#'
    ensures FileName(scheme + "://" + authority + path + query + fragment) == Basename(path)
  {
    HierarchicalSplit(scheme, authority, path, query, fragment);
  }

  /** The last `/` of `dir/last` is the one before `last` when `last` holds none. */
  lemma LastSlash(dir: string, last: string)
    requires '/' !in last
    ensures LastIndexOf(dir + "/" + last, '/') == |dir|
  {
    LastIndexOfAppend(dir + "/", last, '/');
    assert (dir + "/")[|dir|] == '/';
  }

  /** The first `;` of `/name;params` is the one after `name` when `name` holds none. */
  lemma FirstSemicolon(name: string, params: string)
    requires ';' !in name
    ensures IndexOf("/" + name + ";" + params, ';') == 1 + |name|
  {
    assert "/" + name + ";" + params == ("/" + name) + (";" + params);
    assert ';' !in "/" + name;
    IndexOfAppend("/" + name, ";" + params, ';');
  }

  /** `_splitparams` of `dir/name;params`: the path up to the `;` of the last segment. */
  lemma ParamsStripped(dir: string, name: string, params: string)
    requires '/' !in name && ';' !in name && '/' !in params
    ensures StripParams(dir + "/" + name + ";" + params) == dir + "/" + name
  {
    var path := dir + "/" + name + ";" + params;
    assert path == dir + "/" + (name + ";" + params);
    LastSlash(dir, name + ";" + params);
    assert path[|dir|..] == "/" + name + ";" + params;
    FirstSemicolon(name, params);
    assert path[..|dir| + 1 + |name|] == dir + "/" + name;
  }

  /** `dir/name;params` regrouped as `dir/` followed by the last segment. */
  lemma Regroup(dir: string, name: string, params: string)
    ensures dir + "/" + name + ";" + params == dir + "/" + (name + ";" + params)
  {
  }

  /** `urlparse` of a URL whose split path holds a `;`: the params are split off exactly for a scheme in `uses_params`. */
  lemma ParsedPath(url: string)
    requires ';' in UrlSplit(url).path
    ensures UrlParse(url).path
         == if UrlSplit(url).scheme in UsesParams then StripParams(UrlSplit(url).path) else UrlSplit(url).path
  {
  }

  /** The basename of `dir/name;params`, with the params split off or kept. */
  lemma ParamsBasename(dir: string, name: string, params: string, strip: bool)
    requires '/' !in name && ';' !in name && '/' !in params
    ensures var path := dir + "/" + name + ";" + params;
            Basename(if strip then StripParams(path) else path) == if strip then name else name + ";" + params
  {
    if strip {
      ParamsStripped(dir, name, params);
      BasenameAfterSlash(dir, name);
    } else {
      Regroup(dir, name, params);
      BasenameAfterSlash(dir, name + ";" + params);
    }
  }

  /** `urlsplit` of `scheme://authority/dir/name;params?query#fragment`: the lower-cased scheme and the path `dir/name;params`. */
  lemma ParamsSplit(scheme: string, authority: string, dir: string, name: string, params: string,
                    query: string, fragment: string)
    requires |scheme| > 0 && IsAsciiLetter(scheme[0])
    requires forall k :: 0 <= k < |scheme| ==> IsSchemeChar(scheme[k])
    requires '/' !in authority && '?' !in authority && '#' !in authority
    requires dir == "" || dir[0] == '/'
    requires '?' !in dir && '#' !in dir
    requires '?' !in name && '#' !in name && '?' !in params && '#' !in params
    requires query == "" || (query[0] == '?' && '#' !in query)
    requires fragment == "" || fragment[0] == '#'
    ensures var url := scheme + "://" + authority + dir + "/" + name + ";" + params + query + fragment;
            UrlSplit(url).scheme == Lower(scheme) && UrlSplit(url).path == dir + "/" + name + ";" + params
  {
    var path := dir + "/" + name + ";" + params;
    var url := scheme + "://" + authority + dir + "/" + name + ";" + params + query + fragment;
    assert url == scheme + "://" + authority + path + query + fragment;
    assert path == "" || path[0] == '/' by {
      if dir != "" {
        assert path[0] == dir[0];
      } else {
        assert path[0] == '/';
      }
    }
    assert '?' !in path && '#' !in path;
    HierarchicalSplit(scheme, authority, path, query, fragment);
  }

  /**
    A URL whose last path segment carries `;params`: for a scheme in `uses_params`
    the file name is the segment cut at its `;`; for any other scheme the params
    stay in the name.
   */
  lemma ParamsUrl(scheme: string, authority: string, dir: string, name: string, params: string,
                  query: string, fragment: string)
    requires |scheme| > 0 && IsAsciiLetter(scheme[0])
    requires forall k :: 0 <= k < |scheme| ==> IsSchemeChar(scheme[k])
    requires '/' !in authority && '?' !in authority && '#' !in authority
    requires dir == "" || dir[0] == '/'
    requires '?' !in dir && '#' !in dir
    requires '/' !in name && ';' !in name && '?' !in name && '#' !in name
    requires '/' !in params && '?' !in params && '#' !in params
    requires query == "" || (query[0] == '?' && '#' !in query)
    requires fragment == "" || fragment[0] == '#'
    ensures FileName(scheme + "://" + authority + dir + "/" + name + ";" + params + query + fragment)
         == if Lower(scheme) in UsesParams then name else name + ";" + params
  {
    var path := dir + "/" + name + ";" + params;
    var url := scheme + "://" + authority + dir + "/" + name + ";" + params + query + fragment;
    ParamsSplit(scheme, authority, dir, name, params, query, fragment);
    assert ';' in path by {
      assert path[|dir| + 1 + |name|] == ';';
    }
    ParsedPath(url);
    ParamsBasename(dir, name, params, Lower(scheme) in UsesParams);
  }

  /**
    The link in the source's own example,
    `https://www.dropbox.com/s/h4pypk9s2mxzzme/checkpoint-3.pth.tar?dl=1`, written
    as its scheme, authority, path (directory, `/`, archive name) and query:
    `retri_fn_url` gives `checkpoint-3.pth.tar`.
   */
  lemma DropboxLink()
    ensures FileName("https" + "://" + "www.dropbox.com" + ("/s/h4pypk9s2mxzzme" + "/" + "checkpoint-3.pth.tar") + "?dl=1")
         == "checkpoint-3.pth.tar"
  {
    var path := "/s/h4pypk9s2mxzzme" + "/" + "checkpoint-3.pth.tar";
    DropboxParts();
    DropboxDirectory();
    DropboxName();
    assert path[0] == '/';
    BasenameAfterSlash("/s/h4pypk9s2mxzzme", "checkpoint-3.pth.tar");
    HierarchicalUrl("https", "www.dropbox.com", path, "?dl=1", "");
    assert "https" + "://" + "www.dropbox.com" + path + "?dl=1" + "" == "https" + "://" + "www.dropbox.com" + path + "?dl=1";
  }

  /** The scheme, authority and query of that link have the shape `HierarchicalUrl` asks for. */
  lemma DropboxParts()
    ensures |"https"| > 0 && IsAsciiLetter("https"[0])
    ensures forall k :: 0 <= k < |"https"| ==> IsSchemeChar("https"[k])
    ensures '/' !in "www.dropbox.com" && '?' !in "www.dropbox.com" && '#' !in "www.dropbox.com"
    ensures "?dl=1"[0] == '?' && '#' !in "?dl=1"
  {
  }

  /** The directory of that link starts with `/` and holds no `?`, `#` or `;`. */
  lemma DropboxDirectory()
    ensures "/s/h4pypk9s2mxzzme"[0] == '/'
    ensures '?' !in "/s/h4pypk9s2mxzzme" && '#' !in "/s/h4pypk9s2mxzzme" && ';' !in "/s/h4pypk9s2mxzzme"
  {
  }

  /** The archive name of that link holds no `/`, `?`, `#` or `;`. */
  lemma DropboxName()
    ensures '?' !in "checkpoint-3.pth.tar" && '#' !in "checkpoint-3.pth.tar" && ';' !in "checkpoint-3.pth.tar"
    ensures '/' !in "checkpoint-3.pth.tar"
  {
  }

  /** `retri_fn_url('funny') == 'funny'` */
  lemma BareWord()
    ensures FileName("funny") == "funny"
  {
    PlainName("funny");
  }

  /** Appending text never moves a `:` that is already there. */
  lemma IndexOfKept(u: string, t: string, c: char)
    requires IndexOf(u, c) < |u|
    ensures IndexOf(u + t, c) == IndexOf(u, c)
  {
    var i := IndexOf(u, c);
    assert u + t == u[..i] + (u[i..] + t);
    assert c !in u[..i];
    IndexOfAppend(u[..i], u[i..] + t, c);
  }

  /** Text that starts with a non-scheme character, appended to a URL, only extends what follows the scheme. */
  lemma SchemeAppend(u: string, t: string)
    requires |t| > 0 && !IsSchemeChar(t[0]) && t[0] != ':'
    ensures SplitScheme(u + t) == (SplitScheme(u).0, SplitScheme(u).1 + t)
  {
    var i := IndexOf(u, ':');
    if i < |u| {
      IndexOfKept(u, t, ':');
      assert (u + t)[..i] == u[..i];
      assert HasScheme(u + t) == HasScheme(u);
      assert (u + t)[i + 1..] == u[i + 1..] + t;
    } else {
      assert !HasScheme(u + t) by {
        assert ':' !in u;
        IndexOfAppend(u, t, ':');
        assert (u + t)[|u|] == t[0];
      }
      assert !HasScheme(u);
    }
  }

  /** The authority ends at the first delimiter, so a tail that starts with one does not change where it ends. */
  lemma {:induction false} AuthorityEndAppend(s: string, t: string)
    requires |t| > 0 && t[0] in "/?#"
    ensures AuthorityEnd(s + t) == AuthorityEnd(s)
    decreases |s|
  {
    if |s| > 0 && s[0] !in "/?#" {
      assert (s + t)[1..] == s[1..] + t;
      AuthorityEndAppend(s[1..], t);
    } else if |s| == 0 {
      assert s + t == t;
    }
  }

  lemma AuthorityAppend(s: string, t: string)
    requires |t| > 0 && (t[0] == '?' || t[0] == '#')
    ensures SplitAuthority(s + t) == (SplitAuthority(s).0, SplitAuthority(s).1 + t)
  {
    if |s| >= 2 && s[..2] == "//" {
      assert (s + t)[..2] == s[..2];
      assert (s + t)[2..] == s[2..] + t;
      AuthorityEndAppend(s[2..], t);
      var e := 2 + AuthorityEnd(s[2..]);
      assert (s + t)[2..e] == s[2..e];
      assert (s + t)[e..] == s[e..] + t;
    } else if |s| == 1 {
      assert (s + t)[..2][1] == t[0];
    } else if |s| == 0 {
      assert s + t == t;
      assert |t| >= 2 ==> t[..2][0] == t[0];
    } else {
      assert (s + t)[..2] == s[..2];
    }
  }

  /** What follows the scheme and what follows the authority are suffixes: they hold no character the URL lacks. */
  lemma RestIsPartOfUrl(u: string, c: char)
    requires c !in u
    ensures c !in SplitScheme(u).1 && c !in SplitAuthority(SplitScheme(u).1).1
  {
    var s := SplitScheme(u).1;
    assert s == u || s == u[IndexOf(u, ':') + 1..];
    assert c !in s;
    var r := SplitAuthority(s).1;
    assert r == s || r == s[2 + AuthorityEnd(s[2..])..];
  }

  /** The path `urlsplit` returns: what follows the authority, cut at the first `#` and then at the first `?`. */
  lemma PathOfSplit(url: string)
    ensures UrlSplit(url).scheme == SplitScheme(url).0
    ensures UrlSplit(url).path == Before(Before(SplitAuthority(SplitScheme(url).1).1, '#'), '?')
  {
  }

  /** The file name depends on the URL only through its scheme and its path. */
  lemma SameSchemeAndPath(a: string, b: string)
    requires UrlSplit(a).scheme == UrlSplit(b).scheme && UrlSplit(a).path == UrlSplit(b).path
    ensures FileName(a) == FileName(b)
  {
  }

  /** Cutting at `#` and then at `?` removes a query and whatever fragment follows it. */
  lemma QueryCut(rest: string, q: string)
    requires '?' !in rest && '#' !in rest
    ensures Before(Before(rest + ("?" + q), '#'), '?') == rest
  {
    IndexOfAppend(rest + "?", q, '#');
    assert (rest + "?") + q == rest + ("?" + q);
    var cut := rest + ("?" + Before(q, '#'));
    assert Before(rest + ("?" + q), '#') == cut;
    IndexOfAppend(rest, "?" + Before(q, '#'), '?');
  }

  /** A query string does not change the file name: `retri_fn_url(u + '?' + q) == retri_fn_url(u)`. */
  lemma QueryIgnored(u: string, q: string)
    requires '?' !in u && '#' !in u
    ensures FileName(u + "?" + q) == FileName(u)
  {
    var t := "?" + q;
    assert u + "?" + q == u + t;
    SchemeAppend(u, t);
    var afterScheme := SplitScheme(u).1;
    AuthorityAppend(afterScheme, t);
    var rest := SplitAuthority(afterScheme).1;
    RestIsPartOfUrl(u, '?');
    RestIsPartOfUrl(u, '#');
    assert SplitAuthority(SplitScheme(u + t).1).1 == rest + t;
    QueryCut(rest, q);
    PathOfSplit(u + t);
    PathOfSplit(u);
    SameSchemeAndPath(u + t, u);
  }

  /** A fragment changes neither the scheme nor the path `urlsplit` returns. */
  lemma FragmentKeepsSplit(u: string, f: string)
    requires '#' !in u
    ensures UrlSplit(u + "#" + f).scheme == UrlSplit(u).scheme
    ensures UrlSplit(u + "#" + f).path == UrlSplit(u).path
  {
    var t := "#" + f;
    assert u + "#" + f == u + t;
    SchemeAppend(u, t);
    var rest := SplitAuthority(SplitScheme(u).1).1;
    assert SplitAuthority(SplitScheme(u + t).1).1 == rest + t by {
      AuthorityAppend(SplitScheme(u).1, t);
    }
    assert Before(rest + t, '#') == rest by {
      RestIsPartOfUrl(u, '#');
      IndexOfAppend(rest, t, '#');
    }
    assert UrlSplit(u + t).path == Before(Before(rest + t, '#'), '?') by {
      PathOfSplit(u + t);
    }
    assert UrlSplit(u).path == Before(Before(rest, '#'), '?') by {
      PathOfSplit(u);
    }
    PathOfSplit(u + t);
    PathOfSplit(u);
  }

  /** A fragment does not change the file name: `retri_fn_url(u + '#' + f) == retri_fn_url(u)`. */
  lemma FragmentIgnored(u: string, f: string)
    requires '#' !in u
    ensures FileName(u + "#" + f) == FileName(u)
  {
    FragmentKeepsSplit(u, f);
    SameSchemeAndPath(u + "#" + f, u);
  }
}
