/**
 * A reduced model of the URL parser the configuration loader calls on the
 * first field of each line.  It follows the parser's split of a reference
 * into fragment, scheme, query, and then either an opaque part or an
 * authority followed by a path; the authority is kept whole as the host.
 */
module Urls {
  import opened Wrappers
  import opened Text

  datatype Url = Url(
    scheme: string,
    rootless: string,
    host: string,
    path: string,
    rawQuery: string,
    fragment: string)

  predicate IsLetter(c: char) {
    'a' <= c <= 'z' || 'A' <= c <= 'Z'
  }

  predicate IsSchemeChar(c: char) {
    IsLetter(c) || '0' <= c <= '9' || c == '+' || c == '-' || c == '.'
  }

  /** A scheme name: a letter followed by letters, digits, '+', '-' or '.'. */
  predicate ValidScheme(s: string) {
    |s| > 0 && IsLetter(s[0]) && forall i :: 0 <= i < |s| ==> IsSchemeChar(s[i])
  }

  /** Outcome of looking for a scheme: an error, or the scheme ("" if none) and what follows it. */
  datatype SchemeSplit = MissingScheme | Split(scheme: string, rest: string)

  /** Index of the first `c` in `s`, or |s| when there is none. */
  function IndexOf(s: string, c: char): (k: nat)
    ensures k <= |s|
    ensures k < |s| ==> s[k] == c
    ensures c !in s[..k]
  {
    if s == [] || s[0] == c then 0
    else
      var m := IndexOf(s[1..], c);
      assert s[..m + 1] == [s[0]] + s[1..][..m];
      m + 1
  }

  /**
   * Scans `s` from position `i` for the ':' that ends a scheme.  A ':' in
   * first position is the "missing protocol scheme" error; a character that
   * cannot belong to a scheme, or the end of the input, means there is no
   * scheme at all.
   */
  function ScanScheme(s: string, i: nat): (r: SchemeSplit)
    requires i <= |s|
    requires i == 0 || ValidScheme(s[..i])
    ensures r.MissingScheme? <==> i == 0 && |s| > 0 && s[0] == ':'
    ensures r.Split? && r.scheme != "" ==> ValidScheme(r.scheme) && s == r.scheme + ":" + r.rest
    ensures r.Split? && r.scheme == "" ==> r.rest == s
    decreases |s| - i
  {
    if i == |s| then Split("", s)
    else if IsLetter(s[i]) || (IsSchemeChar(s[i]) && i > 0) then
      assert s[..i + 1] == s[..i] + [s[i]];
      ScanScheme(s, i + 1)
    else if s[i] == ':' then
      if i == 0 then MissingScheme
      else
        assert s == s[..i] + ":" + s[i + 1..];
        Split(s[..i], s[i + 1..])
    else Split("", s)
  }

  /** The scheme of a reference, as the parser reads it first. */
  function GetScheme(s: string): SchemeSplit {
    ScanScheme(s, 0)
  }

  /** What the parser puts before "//" and the host. */
  function SchemePrefix(scheme: string): string {
    if scheme == "" then "" else scheme + ":"
  }

  /**
   * `s` cut at the first `c`: the part before it, and the part after it
   * ("" when `c` does not occur).
   */
  function Cut(s: string, c: char): (r: (string, string))
    ensures c !in r.0
    ensures (s == r.0 && r.1 == "") || s == r.0 + [c] + r.1
  {
    var k := IndexOf(s, c);
    if k < |s| then
      assert s == s[..k] + [c] + s[k + 1..];
      (s[..k], s[k + 1..])
    else
      assert s[..k] == s;
      (s, "")
  }

  /**
   * Parses `raw` into a URL, or None for the errors this model keeps: a
   * reference starting with ':' and a relative path whose first segment
   * holds a ':'.  A host is only ever read from "//" right after the scheme,
   * and it stops at the first '/', '?' or '#'.
   */
  function ParseUrl(raw: string): (r: Option<Url>)
    ensures |raw| > 0 && raw[0] == ':' ==> r.None?
    ensures r.Some? && r.value.scheme != "" ==> ValidScheme(r.value.scheme)
    ensures r.Some? ==> '/' !in r.value.host && '?' !in r.value.host && '#' !in r.value.host
    ensures r.Some? && r.value.host != "" ==>
              HasPrefix(raw, SchemePrefix(r.value.scheme) + "//" + r.value.host)
  {
    var cut := Cut(raw, '#');
    var r := ParseReference(cut.0, cut.1);
    assert HasPrefix(raw, cut.0);
    if r.Some? && r.value.host != "" then
      PrefixTransitive(raw, cut.0, SchemePrefix(r.value.scheme) + "//" + r.value.host);
      r
    else
      r
  }

  /** Parses a reference whose fragment is already cut off. */
  function ParseReference(u: string, fragment: string): (r: Option<Url>)
    requires '#' !in u
    ensures |u| > 0 && u[0] == ':' ==> r.None?
    ensures r.Some? && r.value.scheme != "" ==> ValidScheme(r.value.scheme)
    ensures r.Some? ==> '/' !in r.value.host && '?' !in r.value.host && '#' !in r.value.host
    ensures r.Some? && r.value.host != "" ==>
              HasPrefix(u, SchemePrefix(r.value.scheme) + "//" + r.value.host)
  {
    match GetScheme(u)
    case MissingScheme => None
    case Split(scheme, afterScheme) =>
      var cut := Cut(afterScheme, '?');
      var rest, query := cut.0, cut.1;
      assert u == SchemePrefix(scheme) + afterScheme + "";
      NotInPart(u, SchemePrefix(scheme), afterScheme, "", '#');
      NotInPart(afterScheme, "", rest, afterScheme[|rest|..], '#');
      var r := ParseRest(scheme, rest, query, fragment);
      if r.Some? && r.value.host != "" then
        var p := SchemePrefix(scheme);
        PrefixAppend(p, afterScheme, rest);
        PrefixAppend(p, rest, "//" + r.value.host);
        assert p + ("//" + r.value.host) == p + "//" + r.value.host;
        PrefixTransitive(u, p + rest, p + "//" + r.value.host);
        r
      else
        r
  }

  /**
   * The part of the parser that runs once scheme, query and fragment are
   * split off: an opaque reference, the first-segment-colon error, an
   * authority and path after "//", or a plain path.
   */
  function ParseRest(scheme: string, rest: string, query: string, fragment: string): (r: Option<Url>)
    requires '?' !in rest && '#' !in rest
    ensures r.Some? ==> r.value.scheme == scheme
    ensures r.Some? ==> '/' !in r.value.host && '?' !in r.value.host && '#' !in r.value.host
    ensures r.Some? && r.value.host != "" ==> HasPrefix(rest, "//" + r.value.host)
  {
    if !HasPrefix(rest, "/") && scheme != "" then
      Some(Url(scheme, rest, "", "", query, fragment))
    else if !HasPrefix(rest, "/") && ':' in rest[..IndexOf(rest, '/')] then
      None
    else if (scheme != "" || !HasPrefix(rest, "///")) && HasPrefix(rest, "//") then
      var authority := rest[2..];
      var k := IndexOf(authority, '/');
      var host := authority[..k];
      assert rest == "//" + host + authority[k..];
      NotInPart(rest, "//", host, authority[k..], '?');
      NotInPart(rest, "//", host, authority[k..], '#');
      Some(Url(scheme, "", host, authority[k..], query, fragment))
    else
      Some(Url(scheme, "", "", rest, query, fragment))
  }

  /** A character missing from `s` is missing from every part of it. */
  lemma NotInPart(s: string, a: string, t: string, b: string, c: char)
    requires c !in s && s == a + t + b
    ensures c !in t
  {
    assert t == s[|a|..|a| + |t|];
  }

  lemma PrefixAppend(p: string, a: string, b: string)
    requires HasPrefix(a, b)
    ensures HasPrefix(p + a, p + b)
  {
    assert (p + a)[..|p + b|] == p + a[..|b|];
  }

  lemma PrefixTransitive(a: string, b: string, c: string)
    requires HasPrefix(a, b) && HasPrefix(b, c)
    ensures HasPrefix(a, c)
  {
    assert a[..|c|] == a[..|b|][..|c|];
  }

  /**
   * A URL in "scheme://host/path?query#fragment" form, with no character in
   * a part that would end that part early.
   */
  predicate IsHierarchical(u: Url) {
    && ValidScheme(u.scheme)
    && u.rootless == ""
    && '/' !in u.host && '?' !in u.host && '#' !in u.host
    && (u.path == "" || u.path[0] == '/')
    && '?' !in u.path && '#' !in u.path
    && '#' !in u.rawQuery
  }

  /** The text of a URL in hierarchical form. */
  function Format(u: Url): string {
    u.scheme + "://" + u.host + u.path
    + (if u.rawQuery == "" then "" else "?" + u.rawQuery)
    + (if u.fragment == "" then "" else "#" + u.fragment)
  }

  lemma {:induction false} ScanSchemeOfScheme(scheme: string, rest: string, i: nat)
    requires ValidScheme(scheme) && i <= |scheme|
    requires i == 0 || ValidScheme((scheme + ":" + rest)[..i])
    ensures ScanScheme(scheme + ":" + rest, i) == Split(scheme, rest)
    decreases |scheme| - i
  {
    var s := scheme + ":" + rest;
    if i == |scheme| {
      assert s[i] == ':';
      assert s[..i] == scheme && s[i + 1..] == rest;
    } else {
      assert s[i] == scheme[i];
      assert s[..i + 1] == s[..i] + [s[i]];
      ScanSchemeOfScheme(scheme, rest, i + 1);
    }
  }

  /** A valid scheme followed by ':' is found as the scheme. */
  lemma GetSchemeOfScheme(scheme: string, rest: string)
    requires ValidScheme(scheme)
    ensures GetScheme(scheme + ":" + rest) == Split(scheme, rest)
  {
    ScanSchemeOfScheme(scheme, rest, 0);
  }

  lemma {:induction false} IndexOfAppend(a: string, b: string, c: char)
    requires c !in a
    ensures IndexOf(a + b, c) == |a| + IndexOf(b, c)
  {
    if a != [] {
      assert (a + b)[1..] == a[1..] + b;
      IndexOfAppend(a[1..], b, c);
    } else {
      assert a + b == b;
    }
  }

  lemma IndexOfAbsent(s: string, c: char)
    requires c !in s
    ensures IndexOf(s, c) == |s|
  {
    assert s + [] == s;
    IndexOfAppend(s, [], c);
  }

  /** Text after the first '#' is the fragment. */
  lemma ParseUrlFragment(u: string, fragment: string)
    requires '#' !in u
    ensures ParseUrl(u + (if fragment == "" then "" else "#" + fragment)) == ParseReference(u, fragment)
  {
    var raw := u + (if fragment == "" then "" else "#" + fragment);
    var cut := Cut(raw, '#');
    if fragment == "" {
      assert raw == u;
      assert cut.0 == u by { IndexOfAbsent(u, '#'); }
    } else {
      assert raw == u + ['#'] + fragment;
      IndexOfAppend(u, ['#'] + fragment, '#');
      assert cut.0 == u && cut.1 == fragment;
    }
  }

  /** Text after the first '?' that follows the scheme is the query. */
  lemma ParseReferenceQuery(scheme: string, rest: string, query: string, fragment: string)
    requires ValidScheme(scheme) && '?' !in rest && '#' !in rest
    requires '#' !in scheme + ":" + rest + (if query == "" then "" else "?" + query)
    ensures ParseReference(scheme + ":" + rest + (if query == "" then "" else "?" + query), fragment)
            == ParseRest(scheme, rest, query, fragment)
  {
    var afterScheme := rest + (if query == "" then "" else "?" + query);
    assert scheme + ":" + rest + (if query == "" then "" else "?" + query) == scheme + ":" + afterScheme;
    GetSchemeOfScheme(scheme, afterScheme);
    var cut := Cut(afterScheme, '?');
    if query == "" {
      assert afterScheme == rest;
      IndexOfAbsent(rest, '?');
    } else {
      assert afterScheme == rest + ['?'] + query;
      IndexOfAppend(rest, ['?'] + query, '?');
    }
    assert cut.0 == rest && cut.1 == query;
  }

  /** After the scheme, "//" starts the host, which runs to the path. */
  lemma ParseRestAuthority(scheme: string, host: string, path: string, query: string, fragment: string)
    requires ValidScheme(scheme)
    requires '/' !in host && '?' !in host && '#' !in host
    requires (path == "" || path[0] == '/') && '?' !in path && '#' !in path
    ensures '?' !in "//" + host + path && '#' !in "//" + host + path
    ensures ParseRest(scheme, "//" + host + path, query, fragment) == Some(Url(scheme, "", host, path, query, fragment))
  {
    var rest := "//" + host + path;
    assert HasPrefix(rest, "/") && HasPrefix(rest, "//");
    assert rest[2..] == host + path;
    IndexOfAppend(host, path, '/');
    if path == "" { IndexOfAbsent(path, '/'); }
    assert (host + path)[..|host|] == host && (host + path)[|host|..] == path;
  }

  lemma NotInScheme(scheme: string, c: char)
    requires ValidScheme(scheme) && !IsSchemeChar(c)
    ensures c !in scheme
  {
  }

  /** The text of a URL, cut where the parser cuts it. */
  lemma FormatParts(u: Url)
    ensures Format(u) == (u.scheme + ":" + ("//" + u.host + u.path) + (if u.rawQuery == "" then "" else "?" + u.rawQuery))
                         + (if u.fragment == "" then "" else "#" + u.fragment)
  {
    assert "://" == ":" + "//";
  }

  /** Parsing the text of a hierarchical URL gives the URL back. */
  lemma ParseFormat(u: Url)
    requires IsHierarchical(u)
    ensures ParseUrl(Format(u)) == Some(u)
  {
    var query := if u.rawQuery == "" then "" else "?" + u.rawQuery;
    var rest := "//" + u.host + u.path;
    var before := u.scheme + ":" + rest + query;
    ParseRestAuthority(u.scheme, u.host, u.path, u.rawQuery, u.fragment);
    NotInScheme(u.scheme, '#');
    assert '#' !in before by {
      assert '#' !in query;
    }
    FormatParts(u);
    ParseUrlFragment(before, u.fragment);
    ParseReferenceQuery(u.scheme, rest, u.rawQuery, u.fragment);
  }
}
