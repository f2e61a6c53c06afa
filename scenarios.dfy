/**
 * Worked configurations: what lines of a given shape load to, and how
 * requests are routed with the loaded table.
 */
module Scenarios {
  import opened Text
  import opened Urls
  import opened Config
  import opened Routing

  /** A line of words separated by single spaces is classified by its words. */
  lemma ParseLineOfWords(words: seq<string>)
    requires |words| > 0 && AllWords(words) && words[0][0] != '#'
    ensures ParseLine(Join(words)) == ParseFields(words)
  {
    var line := Join(words);
    TrimJoin(words);
    FieldsOfJoin(words);
    JoinEnds(words);
    assert line[..1][0] == line[0];
  }

  /** The text of an upstream URL, usable as the first field of a line. */
  predicate UrlField(target: Url) {
    IsHierarchical(target) && target.host != "" && NoSpace(Format(target))
  }

  /** A line whose first word is the text of an upstream URL is accepted. */
  lemma AcceptedWords(words: seq<string>, target: Url)
    requires |words| >= 2 && AllWords(words)
    requires UrlField(target) && Format(target) == words[0]
    ensures ParseLine(Join(words)) == Route(target, HostsBeforeComment(words[1..]))
  {
    assert Format(target)[0] == target.scheme[0];
    ParseFormat(target);
    ParseLineOfWords(words);
  }

  /** A configuration of one line holds what that line registers. */
  lemma RoutesOfOneLine(line: string, target: Url, hosts: seq<string>)
    requires ParseLine(line) == Route(target, hosts)
    ensures Routes([line]) == Register(map[], hosts, target)
  {
    assert [] + [line] == [line];
    ApplySnoc(map[], [], line);
  }

  /** A line with a single hostname adds or overwrites just that entry. */
  lemma ApplySingleHostLine(t: Table, line: string, target: Url, host: string)
    requires ParseLine(line) == Route(target, [host])
    ensures ApplyLine(t, line) == t[host := target]
  {
    assert Register(t, [host], target) == Register(t[host := target], [], target);
  }

  lemma RoutesOfTwoLines(first: string, second: string)
    ensures Routes([first, second]) == ApplyLine(ApplyLine(map[], first), second)
  {
    assert [first, second] == [first] + [second];
    assert [] + [first] == [first];
    ApplySnoc(map[], [], first);
    ApplySnoc(map[], [first], second);
  }

  /** A hostname followed by a "#" field is the only hostname. */
  lemma HostThenComment(host: string, comment: seq<string>)
    requires ValidHost(host)
    ensures HostsBeforeComment([host, "#"] + comment) == [host]
  {
    var fields := [host, "#"] + comment;
    assert fields[0] == host && fields[1] == "#";
    assert HasPrefix("#", "#");
  }

  lemma WordsOfCommentLine(first: string, host: string, comment: seq<string>)
    requires first != "" && NoSpace(first) && ValidHost(host) && AllWords(comment)
    ensures AllWords([first, host, "#"] + comment)
  {
    var words := [first, host, "#"] + comment;
    forall i | 0 <= i < |words| ensures words[i] != "" && NoSpace(words[i]) {
      if i >= 3 { assert words[i] == comment[i - 3]; }
    }
  }

  /**
   * An inline comment ends the hostnames: the line
   * "<url> <host> # <comment words>" routes only <host>.
   */
  lemma InlineCommentLine(target: Url, host: string, comment: seq<string>)
    requires UrlField(target) && ValidHost(host) && AllWords(comment)
    ensures Routes([Join([Format(target), host, "#"] + comment)]) == map[host := target]
  {
    var words := [Format(target), host, "#"] + comment;
    assert Format(target)[0] == target.scheme[0];
    WordsOfCommentLine(Format(target), host, comment);
    assert words[1..] == [host, "#"] + comment;
    HostThenComment(host, comment);
    AcceptedWords(words, target);
    RoutesOfOneLine(Join(words), target, [host]);
    assert Register(map[], [host], target) == Register(map[host := target], [], target);
  }

  /** A line "<url> <host>" routes <host> to <url>. */
  lemma SingleHostLine(target: Url, host: string)
    requires UrlField(target) && ValidHost(host)
    ensures ParseLine(Join([Format(target), host])) == Route(target, [host])
  {
    var words := [Format(target), host];
    assert words[1..] == [host];
    AcceptedWords(words, target);
  }

  /** Two lines that each route one hostname to their own upstream. */
  lemma TwoBackends(apiUrl: Url, api: string, wwwUrl: Url, www: string)
    requires UrlField(apiUrl) && ValidHost(api)
    requires UrlField(wwwUrl) && ValidHost(www)
    requires api != www
    ensures Routes([Join([Format(apiUrl), api]), Join([Format(wwwUrl), www])])
            == map[api := apiUrl, www := wwwUrl]
  {
    var first, second := Join([Format(apiUrl), api]), Join([Format(wwwUrl), www]);
    SingleHostLine(apiUrl, api);
    SingleHostLine(wwwUrl, www);
    RoutesOfTwoLines(first, second);
    ApplySingleHostLine(map[], first, apiUrl, api);
    ApplySingleHostLine(map[api := apiUrl], second, wwwUrl, www);
  }

  /** In a table of two hostnames, the matching keys are those that are suffixes of the request's. */
  lemma MatchesOfTwo(a: string, aUrl: Url, b: string, bUrl: Url, hostname: string)
    ensures Matches(map[a := aUrl, b := bUrl], hostname)
            == (if HasSuffix(hostname, a) then {a} else {}) + (if HasSuffix(hostname, b) then {b} else {})
  {
  }

  /**
   * In the table of two backends whose hostnames are not suffixes of each
   * other, each hostname matches only itself, and a hostname neither of
   * them is a suffix of matches no key.
   */
  lemma TwoBackendMatches(apiUrl: Url, api: string, wwwUrl: Url, www: string, other: string)
    requires !HasSuffix(api, www) && !HasSuffix(www, api)
    requires !HasSuffix(other, api) && !HasSuffix(other, www)
    ensures var t := map[api := apiUrl, www := wwwUrl];
            && Matches(t, api) == {api}
            && Matches(t, www) == {www}
            && forall k :: k in t ==> !HasSuffix(other, k)
  {
    assert api[|api| - |api|..] == api && www[|www| - |www|..] == www;
    MatchesOfTwo(api, apiUrl, www, wwwUrl, api);
    MatchesOfTwo(api, apiUrl, www, wwwUrl, www);
  }

  /**
   * Requests against the table of two backends: each hostname reaches its
   * own upstream, and a hostname neither of them is a suffix of gets 502.
   */
  method RouteTwoBackends(apiUrl: Url, api: string, wwwUrl: Url, www: string, other: string)
    returns (apiRoute: Decision, wwwRoute: Decision, otherRoute: Decision)
    requires UrlField(apiUrl) && ValidHost(api)
    requires UrlField(wwwUrl) && ValidHost(www)
    requires !HasSuffix(api, www) && !HasSuffix(www, api)
    requires !HasSuffix(other, api) && !HasSuffix(other, www)
    ensures apiRoute == Found(api, apiUrl)
    ensures wwwRoute == Found(www, wwwUrl)
    ensures otherRoute == BadGateway
  {
    assert api != www by { assert api[|api| - |api|..] == api; }
    TwoBackends(apiUrl, api, wwwUrl, www);
    var table := Routes([Join([Format(apiUrl), api]), Join([Format(wwwUrl), www])]);
    assert table == map[api := apiUrl, www := wwwUrl];
    TwoBackendMatches(apiUrl, api, wwwUrl, www, other);
    apiRoute := SelectUpstream(table, api);
    wwwRoute := SelectUpstream(table, www);
    otherRoute := SelectUpstream(table, other);
  }
}
