/**
 * The file name the gatherer gives a downloaded image:
 * os.path.basename(urlparse(url).path), with urlparse's splitting of scheme,
 * network location, query, fragment and ";params" written out.
 */
module UrlPaths {
  import opened Text

  /** str.find: the first position of `c`, or |s| when it does not occur. */
  function IndexOf(s: string, c: char): (k: nat)
    ensures k <= |s|
    ensures forall i :: 0 <= i < k ==> s[i] != c
    ensures k < |s| ==> s[k] == c
  {
    if s == [] || s[0] == c then 0 else 1 + IndexOf(s[1..], c)
  }

  /** str.rfind: the last position of `c`, or -1. */
  function LastIndexOf(s: string, c: char): (k: int)
    ensures -1 <= k < |s|
    ensures k >= 0 ==> s[k] == c
    ensures forall i :: k < i < |s| ==> s[i] != c
  {
    if s == [] then -1
    else if s[|s| - 1] == c then |s| - 1
    else LastIndexOf(s[..|s| - 1], c)
  }

  predicate IsAsciiLetter(c: char) { 'a' <= c <= 'z' || 'A' <= c <= 'Z' }

  predicate IsSchemeChar(c: char) { IsAsciiLetter(c) || '0' <= c <= '9' || c == '+' || c == '-' || c == '.' }

  /** The lower-cased scheme and what follows its colon; no scheme gives "" and the whole url. */
  function SplitScheme(url: string): (string, string) {
    var i := IndexOf(url, ':');
    if 0 < i < |url| && IsAsciiLetter(url[0]) && forall j :: 0 <= j < i ==> IsSchemeChar(url[j])
    then (Lower(url[..i]), url[i + 1..])
    else ("", url)
  }

  function Min(a: nat, b: nat): nat { if a <= b then a else b }

  /** Drops a leading "//netloc": the netloc runs to the first '/', '?' or '#'. */
  function SkipNetloc(rest: string): string {
    if |rest| >= 2 && rest[..2] == "//" then
      var t := rest[2..];
      t[Min(IndexOf(t, '/'), Min(IndexOf(t, '?'), IndexOf(t, '#')))..]
    else rest
  }

  /** The part before the first `c` (str.split(c, 1)[0]). */
  function Before(s: string, c: char): (r: string)
    ensures |r| <= |s| && r == s[..|r|]
    ensures forall i :: 0 <= i < |r| ==> r[i] != c
  {
    s[..IndexOf(s, c)]
  }

  /** Schemes whose last path segment may carry ";params". */
  const UsesParams: seq<string> :=
    ["", "ftp", "hdl", "prospero", "http", "imap", "https", "shttp", "rtsp", "rtspu", "sip", "sips", "mms", "sftp", "tel"]

  /** _splitparams: cut at the first ';' after the last '/', or at the first ';' when there is no '/'. */
  function SplitParams(path: string): (r: string)
    ensures |r| <= |path| && r == path[..|r|]
  {
    var slash := LastIndexOf(path, '/');
    if slash >= 0 then
      var k := IndexOf(path[slash..], ';');
      if slash + k == |path| then path else path[..slash + k]
    else path[..IndexOf(path, ';')]
  }

  /** urlparse(url).path. */
  function UrlPath(url: string): (path: string)
    ensures forall i :: 0 <= i < |path| ==> path[i] != '?' && path[i] != '#'
  {
    var (scheme, rest) := SplitScheme(url);
    var path := Before(Before(SkipNetloc(rest), '#'), '?');
    if scheme in UsesParams && ';' in path then SplitParams(path) else path
  }

  /** os.path.basename: what follows the last '/'. */
  function Basename(path: string): (name: string)
    ensures forall i :: 0 <= i < |name| ==> name[i] != '/'
    ensures |name| <= |path| && name == path[|path| - |name|..]
    ensures |name| < |path| ==> path[|path| - |name| - 1] == '/'
  {
    path[LastIndexOf(path, '/') + 1..]
  }

  /** The image's file name: the basename of the URL's path. */
  function ImageFilename(url: string): (name: string)
    ensures forall i :: 0 <= i < |name| ==> name[i] != '/'
  {
    Basename(UrlPath(url))
  }

  /** The file name holds no separator, query or fragment; a path ending in '/' (or empty) gives "". */
  lemma ImageFilenameShape(url: string)
    ensures forall i :: 0 <= i < |ImageFilename(url)| ==>
              ImageFilename(url)[i] !in {'/', '?', '#'}
    ensures UrlPath(url) == [] || UrlPath(url)[|UrlPath(url)| - 1] == '/' ==> ImageFilename(url) == ""
    ensures ImageFilename(url) == UrlPath(url)[|UrlPath(url)| - |ImageFilename(url)|..]
    ensures |ImageFilename(url)| < |UrlPath(url)| ==> UrlPath(url)[|UrlPath(url)| - |ImageFilename(url)| - 1] == '/'
  {
    var path := UrlPath(url);
    var name := ImageFilename(url);
    forall i | 0 <= i < |name| ensures name[i] !in {'/', '?', '#'} {
      assert name[i] == path[|path| - |name| + i];
    }
  }

  lemma IndexOfAppend(a: string, b: string, c: char)
    requires c !in a
    ensures IndexOf(a + b, c) == |a| + IndexOf(b, c)
  {
    if a != [] {
      assert (a + b)[0] == a[0] != c;
      assert (a + b)[1..] == a[1..] + b;
      assert c !in a[1..];
      IndexOfAppend(a[1..], b, c);
    } else {
      assert a + b == b;
    }
  }

  lemma IndexOfAbsent(s: string, c: char)
    requires c !in s
    ensures IndexOf(s, c) == |s|
  {
    if s != [] {
      IndexOfAbsent(s[1..], c);
    }
  }

  lemma LastIndexOfAppend(a: string, b: string, c: char)
    requires c !in b
    ensures LastIndexOf(a + b, c) == LastIndexOf(a, c)
  {
    if b != [] {
      assert (a + b)[..|a + b| - 1] == a + b[..|b| - 1];
      LastIndexOfAppend(a, b[..|b| - 1], c);
    } else {
      assert a + b == a;
    }
  }

  predicate Plain(s: string) {
    forall i :: 0 <= i < |s| ==> s[i] !in {'/', '?', '#', ';'}
  }

  lemma SchemeOfHttps(rest: string)
    ensures SplitScheme("https:" + rest) == ("https", rest)
  {
    var url := "https:" + rest;
    assert url == "https" + (":" + rest);
    IndexOfAppend("https", ":" + rest, ':');
    assert IndexOf(url, ':') == 5;
    assert url[..5] == "https";
    assert forall j :: 0 <= j < 5 ==> IsSchemeChar(url[j]);
    var low := Lower("https");
    assert |low| == 5 && low[0] == 'h' && low[1] == 't' && low[2] == 't' && low[3] == 'p' && low[4] == 's';
    assert low == "https";
    assert url[6..] == rest;
  }

  lemma NetlocOfPlainHost(host: string, rest: string)
    requires Plain(host)
    requires rest != [] && rest[0] == '/'
    ensures SkipNetloc("//" + host + rest) == rest
  {
    var t := host + rest;
    assert ("//" + host + rest)[..2] == "//";
    assert ("//" + host + rest)[2..] == t;
    assert '/' !in host && '?' !in host && '#' !in host;
    IndexOfAppend(host, rest, '/');
    IndexOfAppend(host, rest, '?');
    IndexOfAppend(host, rest, '#');
    assert IndexOf(t, '/') == |host|;
    assert t[|host|..] == rest;
  }

  lemma QueryAndFragmentDropped(path: string, tail: string)
    requires '?' !in path && '#' !in path
    requires tail == [] || tail[0] == '?' || tail[0] == '#'
    ensures Before(Before(path + tail, '#'), '?') == path
  {
    IndexOfAppend(path, tail, '#');
    var beforeHash := Before(path + tail, '#');
    if tail == [] || tail[0] == '#' {
      if tail == [] { IndexOfAbsent(path, '#'); assert path + tail == path; }
      assert beforeHash == path;
      IndexOfAbsent(path, '?');
    } else {
      var h := IndexOf(tail, '#');
      assert beforeHash == path + tail[..h];
      IndexOfAppend(path, tail[..h], '?');
      assert (path + tail[..h])[|path|] == '?';
    }
  }

  /** urlparse keeps "/dir/name" as the path of "https://host/dir/name?query#fragment". */
  lemma UrlPathOfPlainUrl(host: string, path: string, tail: string)
    requires Plain(host)
    requires path != [] && path[0] == '/' && '?' !in path && '#' !in path && ';' !in path
    requires tail == [] || tail[0] == '?' || tail[0] == '#'
    ensures UrlPath("https:" + ("//" + host + (path + tail))) == path
  {
    var rest := "//" + host + (path + tail);
    SchemeOfHttps(rest);
    NetlocOfPlainHost(host, path + tail);
    QueryAndFragmentDropped(path, tail);
  }

  /**
   * For "https://host/dir/name" followed by an optional query or fragment,
   * the file name is `name`.
   */
  lemma ImageFilenameOfPlainUrl(host: string, dir: string, name: string, tail: string)
    requires Plain(host) && Plain(name)
    requires forall i :: 0 <= i < |dir| ==> dir[i] !in {'?', '#', ';'}
    requires dir == [] || dir[0] == '/'
    requires tail == [] || tail[0] == '?' || tail[0] == '#'
    ensures ImageFilename("https://" + host + dir + "/" + name + tail) == name
  {
    var path := dir + "/" + name;
    assert "https://" + host + dir + "/" + name + tail == "https:" + ("//" + host + (path + tail));
    DirPrefixIndex(dir, name, tail);
    UrlPathOfPlainUrl(host, path, tail);
    assert path == (dir + "/") + name;
    LastIndexOfAppend(dir + "/", name, '/');
  }

  /** Where the dir part of a plain URL ends. */
  lemma DirPrefixIndex(dir: string, name: string, tail: string)
    requires forall i :: 0 <= i < |dir| ==> dir[i] !in {'?', '#', ';'}
    requires Plain(name)
    requires tail == [] || tail[0] == '?' || tail[0] == '#'
    ensures '?' !in dir + "/" + name && '#' !in dir + "/" + name && ';' !in dir + "/" + name
  {
    var path := dir + "/" + name;
    forall i | 0 <= i < |path| ensures path[i] !in {'?', '#', ';'} {
      if i < |dir| { assert path[i] == dir[i]; }
      else if i > |dir| { assert path[i] == name[i - |dir| - 1]; }
    }
  }
}
