/** The `path` component that Python's `urllib.parse.urlparse(url)` returns
    (section 3.3 of RFC 3986 as CPython's splitter reads it). */
module UrlParse {
  import opened Wrappers
  import opened Text

  /** C0 control characters and space: `urlsplit` strips them from the front. */
  predicate IsC0OrSpace(c: char) {
    c <= ' '
  }

  /** Tab, carriage return and line feed: `urlsplit` deletes them everywhere. */
  predicate IsUnsafe(c: char) {
    c == '\t' || c == '\r' || c == '\n'
  }

  predicate IsAsciiAlpha(c: char) {
    'a' <= c <= 'z' || 'A' <= c <= 'Z'
  }

  /** The characters a scheme may hold. */
  predicate IsSchemeChar(c: char) {
    IsAsciiAlpha(c) || IsDigit(c) || c == '+' || c == '-' || c == '.'
  }

  function LStripC0(s: string): (r: string)
    ensures |r| <= |s| && r == s[|s| - |r|..]
    ensures r == [] || !IsC0OrSpace(r[0])
  {
    if s != [] && IsC0OrSpace(s[0]) then LStripC0(s[1..]) else s
  }

  function RemoveUnsafe(s: string): (r: string)
    ensures forall c :: c in r ==> c in s && !IsUnsafe(c)
  {
    if s == [] then []
    else if IsUnsafe(s[0]) then RemoveUnsafe(s[1..])
    else [s[0]] + RemoveUnsafe(s[1..])
  }

  function LowerAscii(s: string): string {
    if s == [] then []
    else [if 'A' <= s[0] <= 'Z' then (s[0] as int + 32) as char else s[0]] + LowerAscii(s[1..])
  }

  /** `s.find(c)`, with `|s|` standing for "not found". */
  function Find(s: string, c: char): (i: nat)
    ensures i <= |s| && c !in s[..i]
    ensures i < |s| ==> s[i] == c
  {
    if s == [] || s[0] == c then 0 else 1 + Find(s[1..], c)
  }

  /** Where the network location ends: the first `/`, `?` or `#`, else the end. */
  function NetlocEnd(s: string): (i: nat)
    ensures i <= |s|
    ensures forall j :: 0 <= j < i ==> s[j] != '/' && s[j] != '?' && s[j] != '#'
    ensures i < |s| ==> s[i] == '/' || s[i] == '?' || s[i] == '#'
  {
    if s == [] || s[0] == '/' || s[0] == '?' || s[0] == '#' then 0 else 1 + NetlocEnd(s[1..])
  }

  /** The scheme (lower-cased) and what follows its `:`; no scheme when the
      text before the first `:` is empty, does not start with a letter, or
      holds a character a scheme may not hold. */
  function SplitScheme(u: string): (string, string) {
    var i := Find(u, ':');
    if 0 < i < |u| && IsAsciiAlpha(u[0]) && forall j :: 0 <= j < i ==> IsSchemeChar(u[j])
    then (LowerAscii(u[..i]), u[i + 1..])
    else ([], u)
  }

  /** The network location after a leading `//`, and the rest. */
  function SplitNetloc(rest: string): (string, string) {
    if StartsWith(rest, "//") then
      var t := rest[2..];
      var e := NetlocEnd(t);
      (t[..e], t[e..])
    else ([], rest)
  }

  /** An opening or a closing bracket without its partner: urlsplit raises ValueError. */
  predicate UnbalancedBrackets(netloc: string) {
    ('[' in netloc && ']' !in netloc) || (']' in netloc && '[' !in netloc)
  }

  /** The schemes for which urlparse splits `;params` off the path. */
  const UsesParams: set<string> := {"", "ftp", "hdl", "prospero", "http", "imap", "https", "shttp",
                                     "rtsp", "rtsps", "rtspu", "sip", "sips", "mms", "sftp", "tel"}

  /** The index of the last `/` in `s`, or 0 when there is none. */
  function LastSlash(s: string): (i: nat)
    ensures i <= |s|
    ensures forall j :: i < j < |s| ==> s[j] != '/'
  {
    if s == [] then 0
    else if s[|s| - 1] == '/' then |s| - 1
    else LastSlash(s[..|s| - 1])
  }

  /** `_splitparams(path)[0]`: cut at the first `;` after the last `/`. */
  function StripParams(p: string): (r: string)
    ensures |r| <= |p| && r == p[..|r|]
  {
    var from := LastSlash(p);
    p[..from + Find(p[from..], ';')]
  }

  /** What `urlsplit` reads after its clean-up of the raw text. */
  function Cleaned(url: string): string {
    RemoveUnsafe(LStripC0(url))
  }

  /** The path is what is left after the network location, up to the first `#` or `?`. */
  function RawPath(afterNetloc: string): string {
    BeforeFirst(BeforeFirst(afterNetloc, '#'), '?')
  }

  /** `urlparse` on text already cleaned up. */
  function PathOfCleaned(u: string): Option<string> {
    var (scheme, rest) := SplitScheme(u);
    var (netloc, afterNetloc) := SplitNetloc(rest);
    if UnbalancedBrackets(netloc) then None
    else
      var path := RawPath(afterNetloc);
      Some(if scheme in UsesParams && ';' in path then StripParams(path) else path)
  }

  /** `urlparse(url).path`, or None where urlparse raises ValueError. */
  function UrlPath(url: string): Option<string> {
    PathOfCleaned(Cleaned(url))
  }

  lemma {:induction false} LStripC0Append(a: string, b: string)
    requires b != [] && !IsC0OrSpace(b[0])
    ensures LStripC0(a + b) == LStripC0(a) + b
  {
    if a != [] {
      assert (a + b)[1..] == a[1..] + b;
      if IsC0OrSpace(a[0]) { LStripC0Append(a[1..], b); }
    }
  }

  lemma {:induction false} RemoveUnsafeAppend(a: string, b: string)
    ensures RemoveUnsafe(a + b) == RemoveUnsafe(a) + RemoveUnsafe(b)
  {
    if a != [] {
      assert (a + b)[1..] == a[1..] + b;
      RemoveUnsafeAppend(a[1..], b);
    } else {
      assert a + b == b;
    }
  }

  lemma {:induction false} FindAppend(a: string, b: string, c: char)
    ensures Find(a + b, c) == if c in a then Find(a, c) else |a| + Find(b, c)
  {
    if a != [] {
      assert (a + b)[1..] == a[1..] + b;
      FindAppend(a[1..], b, c);
      assert c in a <==> a[0] == c || c in a[1..];
    } else {
      assert a + b == b;
    }
  }

  lemma {:induction false} NetlocEndAppend(a: string, b: string)
    requires b != [] && (b[0] == '/' || b[0] == '?' || b[0] == '#')
    ensures NetlocEnd(a + b) == NetlocEnd(a)
  {
    if a != [] {
      assert (a + b)[1..] == a[1..] + b;
      NetlocEndAppend(a[1..], b);
    } else {
      assert a + b == b;
    }
  }

  lemma {:induction false} BeforeFirstAppend(a: string, b: string, c: char)
    requires c !in a
    ensures BeforeFirst(a + b, c) == a + BeforeFirst(b, c)
  {
    if a != [] {
      assert (a + b)[1..] == a[1..] + b;
      BeforeFirstAppend(a[1..], b, c);
      assert [a[0]] + a[1..] == a;
    } else {
      assert a + b == b;
    }
  }

  /** Text following the scheme part cannot change where the scheme ends. */
  lemma SplitSchemeAppend(u: string, t: string)
    requires t != [] && !IsSchemeChar(t[0]) && t[0] != ':'
    ensures SplitScheme(u + t) == (SplitScheme(u).0, SplitScheme(u).1 + t)
  {
    var i := Find(u, ':');
    FindAppend(u, t, ':');
    var i' := Find(u + t, ':');
    if ':' in u {
      assert i' == i && i < |u|;
      assert (u + t)[..i] == u[..i];
      assert (u + t)[i + 1..] == u[i + 1..] + t;
    } else {
      assert i == |u|;
      if 0 < i' < |u + t| {
        assert i' > |u| by { assert t[0] != ':'; }
        assert (u + t)[|u|] == t[0];
        assert !IsSchemeChar((u + t)[|u|]);
      }
    }
  }

  /** Text starting with `?` or `#` cannot change where the network location ends. */
  lemma SplitNetlocAppend(r: string, t: string)
    requires t != [] && (t[0] == '?' || t[0] == '#')
    ensures SplitNetloc(r + t) == (SplitNetloc(r).0, SplitNetloc(r).1 + t)
  {
    if |r| >= 2 {
      assert (r + t)[..2] == r[..2];
      if StartsWith(r, "//") {
        assert (r + t)[2..] == r[2..] + t;
        NetlocEndAppend(r[2..], t);
        var e := NetlocEnd(r[2..]);
        assert (r[2..] + t)[..e] == r[2..][..e];
        assert (r[2..] + t)[e..] == r[2..][e..] + t;
      }
    } else {
      assert (r + t)[|r|] == t[0];
    }
  }

  lemma CleanedAppend(u: string, t: string)
    requires t != [] && (t[0] == '?' || t[0] == '#')
    ensures Cleaned(u + t) == Cleaned(u) + RemoveUnsafe(t)
    ensures RemoveUnsafe(t) != [] && RemoveUnsafe(t)[0] == t[0]
  {
    LStripC0Append(u, t);
    RemoveUnsafeAppend(LStripC0(u), t);
    assert !IsUnsafe(t[0]);
    assert RemoveUnsafe(t) == [t[0]] + RemoveUnsafe(t[1..]);
  }

  lemma RawPathAppend(a: string, t: string)
    requires '?' !in a && '#' !in a
    requires t != [] && (t[0] == '?' || t[0] == '#')
    ensures RawPath(a + t) == RawPath(a) == a
  {
    BeforeFirstAppend(a, t, '#');
    var b := BeforeFirst(t, '#');
    if t[0] == '?' {
      BeforeFirstAppend(a, b, '?');
    }
    BeforeFirstAppend(a, [], '#');
    BeforeFirstAppend(a, [], '?');
    assert a + [] == a;
  }

  lemma PathOfCleanedAppend(c: string, t: string)
    requires '?' !in c && '#' !in c
    requires t != [] && (t[0] == '?' || t[0] == '#')
    ensures PathOfCleaned(c + t) == PathOfCleaned(c)
  {
    SplitSchemeAppend(c, t);
    var (scheme, rest) := SplitScheme(c);
    assert '?' !in rest && '#' !in rest;
    SplitNetlocAppend(rest, t);
    var (netloc, after) := SplitNetloc(rest);
    assert '?' !in after && '#' !in after;
    RawPathAppend(after, t);
  }

  /** `urlparse(url).path` ignores a query or fragment appended to a URL
      that has neither: the path never holds text after `?` or `#`. */
  lemma PathIgnoresQueryAndFragment(u: string, t: string)
    requires '?' !in u && '#' !in u
    requires t != [] && (t[0] == '?' || t[0] == '#')
    ensures UrlPath(u + t) == UrlPath(u)
  {
    CleanedAppend(u, t);
    var a := LStripC0(u);
    assert '?' !in a && '#' !in a;
    PathOfCleanedAppend(Cleaned(u), RemoveUnsafe(t));
  }

  lemma {:induction false} RemoveUnsafeNone(s: string)
    requires forall i :: 0 <= i < |s| ==> !IsUnsafe(s[i])
    ensures RemoveUnsafe(s) == s
  {
    if s != [] {
      RemoveUnsafeNone(s[1..]);
      assert [s[0]] + s[1..] == s;
    }
  }

  lemma {:induction false} LowerAsciiLower(s: string)
    requires forall i :: 0 <= i < |s| ==> 'a' <= s[i] <= 'z'
    ensures LowerAscii(s) == s
  {
    if s != [] {
      LowerAsciiLower(s[1..]);
      assert [s[0]] + s[1..] == s;
    }
  }

  lemma {:induction false} NetlocEndNone(s: string)
    requires forall i :: 0 <= i < |s| ==> s[i] != '/' && s[i] != '?' && s[i] != '#'
    ensures NetlocEnd(s) == |s|
  {
    if s != [] { NetlocEndNone(s[1..]); }
  }

  lemma SchemeOfPlainUrl(scheme: string, rest: string)
    requires scheme != []
    requires forall i :: 0 <= i < |scheme| ==> 'a' <= scheme[i] <= 'z'
    ensures SplitScheme(scheme + [':'] + rest) == (scheme, rest)
  {
    var url := scheme + [':'] + rest;
    FindAppend(scheme, [':'] + rest, ':');
    assert ([':'] + rest)[0] == ':';
    assert ':' !in scheme by {
      forall i | 0 <= i < |scheme| ensures scheme[i] != ':' { }
    }
    assert url == scheme + ([':'] + rest);
    assert Find([':'] + rest, ':') == 0;
    assert Find(url, ':') == |scheme|;
    assert url[..|scheme|] == scheme;
    assert url[|scheme| + 1..] == rest;
    assert forall j :: 0 <= j < |scheme| ==> IsSchemeChar(url[j]);
    LowerAsciiLower(scheme);
  }

  lemma NetlocOfPlainUrl(host: string, path: string)
    requires forall i :: 0 <= i < |host| ==> host[i] != '/' && host[i] != '?' && host[i] != '#'
    requires path == [] || path[0] == '/'
    ensures SplitNetloc("//" + host + path) == (host, path)
  {
    var rest := "//" + host + path;
    assert StartsWith(rest, "//");
    assert rest[2..] == host + path;
    NetlocEndNone(host);
    if path == [] {
      assert host + path == host;
    } else {
      NetlocEndAppend(host, path);
    }
    assert (host + path)[..|host|] == host;
    assert (host + path)[|host|..] == path;
  }

  /** For a URL written `scheme://host/path` with a lower-case scheme urlparse
      knows, a host without delimiters or brackets, and a path without
      `?`, `#` or `;`, the path is exactly the text after the host. */
  lemma PathOfPlainUrl(scheme: string, host: string, path: string)
    requires scheme in UsesParams && scheme != []
    requires forall i :: 0 <= i < |scheme| ==> 'a' <= scheme[i] <= 'z'
    requires forall i :: 0 <= i < |host| ==> host[i] > ' ' && host[i] != '/' && host[i] != '?'
                                             && host[i] != '#' && host[i] != '[' && host[i] != ']'
    requires path == [] || path[0] == '/'
    requires forall i :: 0 <= i < |path| ==> path[i] > ' ' && path[i] != '?' && path[i] != '#' && path[i] != ';'
    ensures UrlPath(scheme + "://" + host + path) == Some(path)
  {
    var rest := "//" + host + path;
    var url := scheme + [':'] + rest;
    assert url == scheme + "://" + host + path;
    CleanedPlain(url, scheme, host, path);
    SchemeOfPlainUrl(scheme, rest);
    NetlocOfPlainUrl(host, path);
    assert '[' !in host && ']' !in host;
    assert '?' !in path && '#' !in path && ';' !in path;
    RawPathPlain(path);
    assert PathOfCleaned(url) == Some(path);
  }

  lemma RawPathPlain(path: string)
    requires '?' !in path && '#' !in path
    ensures RawPath(path) == path
  {
    BeforeFirstAppend(path, [], '#');
    BeforeFirstAppend(path, [], '?');
    assert path + [] == path;
  }

  lemma CleanedPlain(url: string, scheme: string, host: string, path: string)
    requires url == scheme + "://" + host + path && scheme != []
    requires forall i :: 0 <= i < |scheme| ==> 'a' <= scheme[i] <= 'z'
    requires forall i :: 0 <= i < |host| ==> host[i] > ' '
    requires forall i :: 0 <= i < |path| ==> path[i] > ' '
    ensures Cleaned(url) == url
  {
    assert forall i :: 0 <= i < |url| ==> url[i] > ' ' by {
      forall i | 0 <= i < |url| ensures url[i] > ' ' {
        if i < |scheme| { assert url[i] == scheme[i]; }
        else if i < |scheme| + 3 { }
        else if i < |scheme| + 3 + |host| { assert url[i] == host[i - |scheme| - 3]; }
        else { assert url[i] == path[i - |scheme| - 3 - |host|]; }
      }
    }
    assert LStripC0(url) == url;
    RemoveUnsafeNone(url);
  }
}
