/**
 * The route table builder: reads configuration lines of the form
 *   <upstream-url> <hostname> [<hostname> ...] [# comment]
 * and maps each hostname to the upstream URL.  Malformed lines are skipped
 * and loading goes on; a hostname declared again takes the later URL.
 */
module Config {
  import opened Wrappers
  import opened Text
  import opened Urls

  /** Hostname (suffix) to upstream URL. */
  type Table = map<string, Url>

  /** A hostname key as the builder can produce it. */
  predicate ValidHost(h: string) {
    h != "" && NoSpace(h) && !HasPrefix(h, "#")
  }

  /** An upstream URL the builder accepts. */
  predicate ValidTarget(u: Url) {
    u.scheme != "" && u.host != ""
  }

  predicate WellFormed(t: Table) {
    forall h :: h in t ==> ValidHost(h) && ValidTarget(t[h])
  }

  /**
   * The hostname fields of a line: the longest prefix of `fields` in which
   * no field starts with '#'.
   */
  function HostsBeforeComment(fields: seq<string>): (hosts: seq<string>)
    ensures |hosts| <= |fields| && hosts == fields[..|hosts|]
    ensures forall i :: 0 <= i < |hosts| ==> !HasPrefix(hosts[i], "#")
    ensures |hosts| < |fields| ==> HasPrefix(fields[|hosts|], "#")
  {
    if fields == [] || HasPrefix(fields[0], "#") then []
    else
      var tail := HostsBeforeComment(fields[1..]);
      assert fields[..|tail| + 1] == [fields[0]] + fields[1..][..|tail|];
      [fields[0]] + tail
  }

  /** What one configuration line contributes. */
  datatype LineOutcome =
    | Ignored              // blank, or a comment line
    | InsufficientFields   // fewer than two fields
    | InvalidUrl           // the first field is no URL with scheme and host
    | Route(target: Url, hosts: seq<string>)

  /** Classifies one configuration line the way the loader does. */
  function ParseLine(line: string): (r: LineOutcome)
    ensures r.Route? ==> ValidTarget(r.target)
    ensures r.Route? ==> forall i :: 0 <= i < |r.hosts| ==> ValidHost(r.hosts[i])
  {
    var trimmed := TrimSpace(line);
    if trimmed == "" || HasPrefix(trimmed, "#") then Ignored
    else ParseFields(Fields(trimmed))
  }

  /** Classifies the fields of a line that is neither blank nor a comment. */
  function ParseFields(fields: seq<string>): (r: LineOutcome)
    requires AllWords(fields)
    ensures r.Route? ==> ValidTarget(r.target)
    ensures r.Route? ==> forall i :: 0 <= i < |r.hosts| ==> ValidHost(r.hosts[i])
  {
    if |fields| < 2 then InsufficientFields
    else
      var target := ParseUrl(fields[0]);
      if target.None? || target.value.scheme == "" || target.value.host == "" then InvalidUrl
      else
        var hosts := HostsBeforeComment(fields[1..]);
        assert forall i :: 0 <= i < |hosts| ==> hosts[i] == fields[i + 1];
        Route(target.value, hosts)
  }

  /** Every host in `hosts` now maps to `target`; nothing else changes. */
  function Register(t: Table, hosts: seq<string>, target: Url): (r: Table)
    ensures r.Keys == t.Keys + set h | h in hosts
    ensures forall h :: h in hosts ==> r[h] == target
    ensures forall h :: h in t && h !in hosts ==> r[h] == t[h]
    decreases |hosts|
  {
    if hosts == [] then t
    else
      var r := Register(t[hosts[0] := target], hosts[1..], target);
      assert forall h :: h in hosts <==> h == hosts[0] || h in hosts[1..];
      r
  }

  /**
   * The table after one more line: a line that is no route leaves it as it
   * was; a route maps each of its hostnames to its URL; no key is lost and
   * every new key is one of the line's hostnames.
   */
  function ApplyLine(t: Table, line: string): (r: Table)
    ensures t.Keys <= r.Keys
    ensures !ParseLine(line).Route? ==> r == t
    ensures ParseLine(line).Route? ==>
              forall h :: h in ParseLine(line).hosts ==> h in r && r[h] == ParseLine(line).target
    ensures forall h :: h in r && h !in t ==> ParseLine(line).Route? && h in ParseLine(line).hosts
  {
    match ParseLine(line)
    case Route(target, hosts) => Register(t, hosts, target)
    case _ => t
  }

  /** The table after the lines, in order; no line removes a key. */
  function Apply(t: Table, lines: seq<string>): (r: Table)
    ensures t.Keys <= r.Keys
    decreases |lines|
  {
    if lines == [] then t
    else Apply(ApplyLine(t, lines[0]), lines[1..])
  }

  /**
   * The route table a configuration produces: every key is a hostname
   * field and every URL has a scheme and a host.
   */
  function Routes(lines: seq<string>): (r: Table)
    ensures WellFormed(r)
  {
    ApplyWellFormed(map[], lines);
    Apply(map[], lines)
  }

  /**
   * Builds the route table line by line, skipping blank, comment and
   * malformed lines; a read error of the underlying source discards the
   * whole table.
   */
  method NewHtmProxy(lines: seq<string>, readError: bool) returns (r: Option<Table>)
    ensures r.None? <==> readError
    ensures r.Some? ==> r.value == Routes(lines) && WellFormed(r.value)
  {
    var result: Table := map[];
    var i := 0;
    while i < |lines|
      invariant 0 <= i <= |lines|
      invariant result == Routes(lines[..i])
    {
      var raw := lines[i];
      ghost var before := result;
      RoutesSnoc(lines, i);
      assert Routes(lines[..i + 1]) == ApplyLine(before, raw);
      var line := TrimSpace(raw);
      i := i + 1;

      if line == "" || HasPrefix(line, "#") {
        ParseLineIgnored(raw);
        continue;
      }

      var fields := Fields(line);
      if |fields| < 2 {
        ParseLineShort(raw);
        continue;
      }

      var target := ParseUrl(fields[0]);
      if target.None? || target.value.scheme == "" || target.value.host == "" {
        ParseLineBadUrl(raw);
        continue;
      }

      ParseLineAccepted(raw);
      result := AddHosts(result, fields, target.value);
    }
    assert lines[..|lines|] == lines;
    if readError {
      return None;
    }
    return Some(result);
  }

  lemma ParseLineIgnored(line: string)
    requires TrimSpace(line) == "" || HasPrefix(TrimSpace(line), "#")
    ensures ParseLine(line) == Ignored
  {
  }

  lemma ParseLineShort(line: string)
    requires TrimSpace(line) != "" && !HasPrefix(TrimSpace(line), "#")
    requires |Fields(TrimSpace(line))| < 2
    ensures ParseLine(line) == InsufficientFields
  {
  }

  lemma ParseLineBadUrl(line: string)
    requires TrimSpace(line) != "" && !HasPrefix(TrimSpace(line), "#")
    requires |Fields(TrimSpace(line))| >= 2
    requires var target := ParseUrl(Fields(TrimSpace(line))[0]);
             target.None? || target.value.scheme == "" || target.value.host == ""
    ensures ParseLine(line) == InvalidUrl
  {
  }

  lemma ParseLineAccepted(line: string)
    requires TrimSpace(line) != "" && !HasPrefix(TrimSpace(line), "#")
    requires |Fields(TrimSpace(line))| >= 2
    requires var target := ParseUrl(Fields(TrimSpace(line))[0]);
             target.Some? && target.value.scheme != "" && target.value.host != ""
    ensures var fields := Fields(TrimSpace(line));
            ParseLine(line) == Route(ParseUrl(fields[0]).value, HostsBeforeComment(fields[1..]))
  {
  }

  lemma RoutesSnoc(lines: seq<string>, n: nat)
    requires n < |lines|
    ensures Routes(lines[..n + 1]) == ApplyLine(Routes(lines[..n]), lines[n])
  {
    assert lines[..n + 1] == lines[..n] + [lines[n]];
    ApplySnoc(map[], lines[..n], lines[n]);
  }

  /**
   * Maps each hostname field after the URL to `target`, stopping at the
   * first field that starts with '#'.
   */
  method AddHosts(table: Table, fields: seq<string>, target: Url) returns (result: Table)
    requires |fields| >= 1
    ensures result == Register(table, HostsBeforeComment(fields[1..]), target)
  {
    result := table;
    var i := 1;
    while i < |fields|
      invariant 1 <= i <= |fields|
      invariant forall k :: 1 <= k < i ==> !HasPrefix(fields[k], "#")
      invariant result == Register(table, fields[1..i], target)
    {
      if HasPrefix(fields[i], "#") {
        break;
      }
      RegisterSnoc(table, fields[1..i], fields[i], target);
      assert fields[1..i + 1] == fields[1..i] + [fields[i]];
      result := result[fields[i] := target];
      i := i + 1;
    }
    HostsBeforeCommentUnique(fields[1..], i - 1);
    assert fields[1..][..i - 1] == fields[1..i];
  }

  /** Only one prefix ends exactly where the first comment field starts. */
  lemma HostsBeforeCommentUnique(fields: seq<string>, n: nat)
    requires n <= |fields|
    requires forall k :: 0 <= k < n ==> !HasPrefix(fields[k], "#")
    requires n < |fields| ==> HasPrefix(fields[n], "#")
    ensures HostsBeforeComment(fields) == fields[..n]
  {
  }

  /** Registering one more host is one more map update. */
  lemma RegisterSnoc(t: Table, hosts: seq<string>, h: string, target: Url)
    ensures Register(t, hosts + [h], target) == Register(t, hosts, target)[h := target]
  {
    var all := hosts + [h];
    var a := Register(t, all, target);
    var b := Register(t, hosts, target)[h := target];
    assert forall x :: x in all <==> x in hosts || x == h;
    assert a.Keys == b.Keys;
    forall x | x in a
      ensures a[x] == b[x]
    {
      if x in all {
        assert a[x] == target;
      }
    }
  }

  /** Processing lines one after the other. */
  lemma {:induction false} ApplyAppend(t: Table, a: seq<string>, b: seq<string>)
    ensures Apply(t, a + b) == Apply(Apply(t, a), b)
    decreases a
  {
    if a == [] {
      assert a + b == b;
    } else {
      assert (a + b)[0] == a[0];
      assert (a + b)[1..] == a[1..] + b;
      ApplyAppend(ApplyLine(t, a[0]), a[1..], b);
    }
  }

  /** One line keeps a table well-formed. */
  lemma ApplyLineWellFormed(t: Table, line: string)
    requires WellFormed(t)
    ensures WellFormed(ApplyLine(t, line))
  {
    var outcome := ParseLine(line);
    if outcome.Route? {
      var r := Register(t, outcome.hosts, outcome.target);
      forall h | h in r ensures ValidHost(h) && ValidTarget(r[h]) {
        if h in outcome.hosts {
          var i :| 0 <= i < |outcome.hosts| && outcome.hosts[i] == h;
        }
      }
    }
  }

  /**
   * Every key of a built table is a hostname field (non-empty, without
   * whitespace, not a comment) and every URL has a scheme and a host.
   */
  lemma {:induction false} ApplyWellFormed(t: Table, lines: seq<string>)
    requires WellFormed(t)
    ensures WellFormed(Apply(t, lines))
    decreases lines
  {
    if lines != [] {
      ApplyLineWellFormed(t, lines[0]);
      ApplyWellFormed(ApplyLine(t, lines[0]), lines[1..]);
    }
  }

  lemma ApplySnoc(t: Table, lines: seq<string>, line: string)
    ensures Apply(t, lines + [line]) == ApplyLine(Apply(t, lines), line)
  {
    ApplyAppend(t, lines, [line]);
  }
}

/**
 * What the loaded route table contains, stated over the configuration lines.
 */
module ConfigProperties {
  import opened Text
  import opened Urls
  import opened Config

  /** `line` is accepted and names `h` among its hostnames. */
  predicate Declares(line: string, h: string) {
    ParseLine(line).Route? && h in ParseLine(line).hosts
  }

  /** A line that adds no route can be dropped without changing the table. */
  lemma SkipLine(pre: seq<string>, line: string, post: seq<string>)
    requires !ParseLine(line).Route?
    ensures Routes(pre + [line] + post) == Routes(pre + post)
  {
    ApplyAppend(map[], pre + [line], post);
    ApplyAppend(map[], pre, [line]);
    ApplyAppend(map[], pre, post);
  }

  /** A blank line or a comment line leaves the table as it was, and later lines still count. */
  lemma BlankOrCommentLineSkipped(pre: seq<string>, line: string, post: seq<string>)
    requires TrimSpace(line) == "" || HasPrefix(TrimSpace(line), "#")
    ensures Routes(pre + [line] + post) == Routes(pre + post)
  {
    ParseLineIgnored(line);
    SkipLine(pre, line, post);
  }

  /** A line with fewer than two fields leaves the table as it was, and later lines still count. */
  lemma ShortLineSkipped(pre: seq<string>, line: string, post: seq<string>)
    requires |Fields(TrimSpace(line))| < 2
    ensures Routes(pre + [line] + post) == Routes(pre + post)
  {
    if TrimSpace(line) == "" || HasPrefix(TrimSpace(line), "#") {
      ParseLineIgnored(line);
    } else {
      ParseLineShort(line);
    }
    SkipLine(pre, line, post);
  }

  /**
   * A line whose first field does not parse, or parses without a scheme or
   * without a host, leaves the table as it was, and later lines still count.
   */
  lemma InvalidUrlLineSkipped(pre: seq<string>, line: string, post: seq<string>)
    requires |Fields(TrimSpace(line))| >= 2
    requires var target := ParseUrl(Fields(TrimSpace(line))[0]);
             target.None? || target.value.scheme == "" || target.value.host == ""
    ensures Routes(pre + [line] + post) == Routes(pre + post)
  {
    if TrimSpace(line) == "" || HasPrefix(TrimSpace(line), "#") {
      ParseLineIgnored(line);
    } else {
      ParseLineBadUrl(line);
    }
    SkipLine(pre, line, post);
  }

  /**
   * An accepted line maps every hostname field before the first field
   * starting with '#' to its URL; it adds no other key and changes no other
   * entry.
   */
  lemma AcceptedLine(t: Table, line: string)
    requires TrimSpace(line) != "" && !HasPrefix(TrimSpace(line), "#")
    requires |Fields(TrimSpace(line))| >= 2
    requires var target := ParseUrl(Fields(TrimSpace(line))[0]);
             target.Some? && target.value.scheme != "" && target.value.host != ""
    ensures var fields := Fields(TrimSpace(line));
            var target := ParseUrl(fields[0]).value;
            var hosts := HostsBeforeComment(fields[1..]);
            var r := ApplyLine(t, line);
            && r.Keys == t.Keys + (set h | h in hosts)
            && (forall h :: h in hosts ==> r[h] == target)
            && (forall h :: h in t && h !in hosts ==> r[h] == t[h])
  {
    ParseLineAccepted(line);
  }

  /** Lines that never declare `h` leave its entry, or its absence, as it was. */
  lemma {:induction false} ApplyUndeclared(t: Table, lines: seq<string>, h: string)
    requires forall j :: 0 <= j < |lines| ==> !Declares(lines[j], h)
    ensures h in Apply(t, lines) <==> h in t
    ensures h in t ==> Apply(t, lines)[h] == t[h]
    decreases lines
  {
    if lines != [] {
      var next := ApplyLine(t, lines[0]);
      assert !Declares(lines[0], h);
      assert (h in next <==> h in t) && (h in t ==> next[h] == t[h]);
      ApplyUndeclared(next, lines[1..], h);
    }
  }

  /** A line that names `h` maps it to the line's URL. */
  lemma DeclaredLineMaps(t: Table, line: string, h: string)
    requires Declares(line, h)
    ensures h in ApplyLine(t, line) && ApplyLine(t, line)[h] == ParseLine(line).target
  {
  }

  /**
   * Last write wins: a hostname maps to the URL of the last accepted line
   * that names it.
   */
  lemma LastWriteWins(lines: seq<string>, i: nat, h: string)
    requires i < |lines| && Declares(lines[i], h)
    requires forall j :: i < j < |lines| ==> !Declares(lines[j], h)
    ensures h in Routes(lines) && Routes(lines)[h] == ParseLine(lines[i]).target
  {
    var pre, post := lines[..i + 1], lines[i + 1..];
    assert lines == pre + post;
    ApplyAppend(map[], pre, post);
    RoutesSnoc(lines, i);
    var mid := Apply(map[], pre);
    assert mid == ApplyLine(Routes(lines[..i]), lines[i]);
    DeclaredLineMaps(Routes(lines[..i]), lines[i], h);
    assert h in mid && mid[h] == ParseLine(lines[i]).target;
    forall j | 0 <= j < |post| ensures !Declares(post[j], h) {
      assert post[j] == lines[i + 1 + j];
    }
    ApplyUndeclared(mid, post, h);
    assert Routes(lines) == Apply(mid, post);
  }

  /** A hostname no accepted line names is not in the table. */
  lemma UndeclaredAbsent(lines: seq<string>, h: string)
    requires forall j :: 0 <= j < |lines| ==> !Declares(lines[j], h)
    ensures h !in Routes(lines)
  {
    ApplyUndeclared(map[], lines, h);
  }
}
