# htm route table and routing decision, in Dafny

htm is a small reverse proxy. When it starts, it reads a configuration file. Each line of the file has the form

    <upstream-url> <hostname> [<hostname> ...] [# comment]

From these lines it builds a table that maps hostname suffixes to upstream URLs. The loader handles lines as follows:

- Blank lines and comment lines are ignored.
- Lines with fewer than two fields are skipped, and so are lines whose first field is not a URL with both a scheme and a host. Loading goes on after a skipped line.
- A hostname declared again takes the later line's URL.

For every request, the proxy looks for a table key that is a plain string suffix of the request's `Host`. If it finds one, it forwards the request to that key's upstream. If none matches, it answers 502 Bad Gateway.

The project has one module per file, except `config.dfy`, which holds two:

- `Text` (`text.dfy`): the string operations the loader uses:
  - `TrimSpace`, `Fields`, `HasPrefix`, `HasSuffix`;
  - `Interleave`, which builds a text from words and the whitespace runs around and between them. `FieldsOfInterleave` proves that `Fields` gives back exactly those words, which fixes where `Fields` splits any text;
  - `Join`, which joins words with single spaces. It is a right inverse of `Fields` on lists of words: `Fields(Join(words)) == words`. The converse does not hold, because `Join(Fields(s))` loses the original whitespace.
- `Urls` (`url.dfy`): a reduced model of the URL parser applied to the first field of each line. It splits off the fragment, the scheme (with the "missing protocol scheme" error), the query, then either an opaque part or `//authority` and a path. It also keeps the error for a first path segment that contains `:`. `Format` prints a URL back, and `ParseFormat` proves that parsing gives it back.
- `Config` (`config.dfy`): the route table builder.
  - It is specified by pure functions over the list of lines: `ParseLine` classifies one line; `Register`, `ApplyLine` and `Routes` build the table.
  - `NewHtmProxy` is the builder's loop as a method. It updates a `map` line by line and is proved to produce `Routes(lines)`.
  - `AddHosts` is its inner loop over the hostname fields, with the `break` at the first `#` field.
- `ConfigProperties` (`config.dfy`): what the loaded table contains, stated over the lines:
  - skipped lines do not matter;
  - an accepted line maps its hostnames;
  - the last write wins;
  - undeclared hostnames are absent;
  - keys and URLs are well formed.
- `Routing` (`routing.dfy`): the lookup loop of `ServeHTTP`, as a method. The loop takes an arbitrary unvisited key each time round, because Go's map iteration order is unspecified. The method's contract allows any matching key to be chosen.
- `Scenarios` (`scenarios.dfy`): whole configurations of a given shape, and the requests routed with them.
- `Wrappers` (`wrappers.dfy`): the `Option` type.

The loader's inputs are parameters:

- the file's lines are a `seq<string>`, with line terminators already removed;
- a failure to open or read the file is the boolean `readError`. When it is set, `NewHtmProxy` returns `None`, as `newHTMProxy` returns `nil` with the error.

The request's `Host` is the `hostname` argument of `SelectUpstream`.

## Model

| member | source | states |
|---|---|---|
| Config.NewHtmProxy | htm.go:41-90 | The result is `None` exactly on a read error. Otherwise it is the table `Routes(lines)` of the specification functions, and that table is well formed. A loop invariant ties the map to the lines already processed. |
| Config.AddHosts | htm.go:74-82 | The inner loop maps each hostname field after the URL to the target and stops at the first field starting with `#`. The result equals `Register` applied to `HostsBeforeComment` of those fields. |
| Config.HostsBeforeComment | htm.go:74-77 | The hostnames of a line are a prefix of the fields. None of them starts with `#`. When the prefix is shorter than the fields, the next field starts with `#`. |
| Config.ParseLine | htm.go:54-72 | Definition: a line that is blank or starts with `#` after trimming is ignored; any other line is classified by `ParseFields` on its fields. The four outcomes are stated one by one by `ParseLineIgnored`, `ParseLineShort`, `ParseLineBadUrl` and `ParseLineAccepted`. Ensures: a route's URL has a scheme and a host, and each of its hostnames is non-empty, has no whitespace and does not start with `#`. |
| Config.ParseFields | htm.go:62-76 | Definition: fewer than two fields is "insufficient fields"; a first field that does not parse, or parses without a scheme or without a host, is "invalid url"; otherwise the line is a route with the hostnames before the comment. Ensures: a route's URL has a scheme and a host, and its hostnames are well formed. |
| Config.Register | htm.go:78-81 | After the updates the keys are the old keys plus the hostnames. Each hostname maps to the target. Every other entry is unchanged. |
| Config.RegisterSnoc | htm.go:81 | Registering one more hostname is one more map update `t[h := target]`. |
| Config.ParseLineIgnored | htm.go:55-60 | A line that is blank or starts with `#` after trimming is ignored. |
| Config.ParseLineShort | htm.go:62-66 | A non-comment line with fewer than two fields is "insufficient fields". |
| Config.ParseLineBadUrl | htm.go:68-72 | A line whose first field fails to parse, or lacks a scheme or a host, is "invalid url". |
| Config.ParseLineAccepted | htm.go:68-77 | Any other line is a route to the parsed URL for the fields before the first `#` field. |
| Config.ApplyLine | htm.go:54-82 | One iteration of the loop over lines. A line that is no route leaves the table as it was. A route maps each of its hostnames to its URL. No key is lost, and every new key is one of the line's hostnames. |
| Config.Apply | htm.go:52-83 | The loop over lines, in file order. No line removes a key: the keys before processing are kept after any lines. |
| Config.Routes | htm.go:42-83 | The table built from the empty map. Every key is a non-empty hostname field with no whitespace and no leading `#`, and every URL has a scheme and a host. |
| Config.RoutesSnoc | htm.go:52-54 | The table after `n + 1` lines is the table after `n` lines with line `n` applied. |
| Config.ApplyAppend | htm.go:52-83 | Lines are applied in file order: processing `a + b` is processing `a` and then `b`. |
| Config.ApplySnoc | htm.go:52-83 | Processing one more line at the end applies that line to the table built so far. |
| Config.ApplyLineWellFormed | htm.go:62-81 | One line keeps every key a valid hostname and every URL one with a scheme and a host. |
| Config.ApplyWellFormed | htm.go:52-83 | Any sequence of lines keeps the table well formed. |
| ConfigProperties.SkipLine | htm.go:57-72 | Deleting a line that yields no route does not change the table built from the whole file. |
| ConfigProperties.BlankOrCommentLineSkipped | htm.go:55-60 | A blank or comment line can be deleted without changing the table, and the lines after it still count. |
| ConfigProperties.ShortLineSkipped | htm.go:62-66 | A line with fewer than two fields can be deleted without changing the table, and the lines after it still count. |
| ConfigProperties.InvalidUrlLineSkipped | htm.go:68-72 | A line whose URL fails to parse, or has no scheme or no host, can be deleted without changing the table, and the lines after it still count. |
| ConfigProperties.AcceptedLine | htm.go:62-82 | An accepted line adds exactly its hostnames before the first `#` field and maps each to the parsed URL. It changes no other entry. |
| ConfigProperties.ApplyUndeclared | htm.go:74-82 | Lines that do not name `h` neither add nor remove `h`, and leave its URL unchanged. |
| ConfigProperties.DeclaredLineMaps | htm.go:78-81 | A line that names `h` maps `h` to the line's URL. |
| ConfigProperties.LastWriteWins | htm.go:74-83 | A hostname maps to the URL of the last line that names it. |
| ConfigProperties.UndeclaredAbsent | htm.go:74-82 | A hostname named by no accepted line is not a key. |
| Routing.Matches | htm.go:98-99 | Definition only, no contract: the keys the scan may stop at, those of the table that are plain string suffixes of the hostname. What the scan promises about them is stated by `SelectUpstream`. |
| Routing.SelectUpstream | htm.go:92-110 | A found key is in the table and is a suffix of the hostname, and the URL returned is that key's URL. The answer is 502 exactly when no key is a suffix of the hostname. With exactly one matching key, that key is chosen. |
| Text.LeadingSpace | htm.go:55 | Counts the leading whitespace: everything before the count is whitespace, and the character at the count is not. |
| Text.TrailingSpace | htm.go:55 | Counts the trailing whitespace, in the same way as `LeadingSpace`. |
| Text.WordLength | htm.go:62 | Counts the non-whitespace run at the start: everything before the count is non-whitespace, and the character at the count is whitespace. |
| Text.TrimSpace | htm.go:55 | The result is empty exactly when the line is all whitespace. Otherwise it neither starts nor ends with whitespace. It is the slice of the line after the leading whitespace, and only whitespace follows it. |
| Text.Fields | htm.go:62 | Every field is non-empty and has no whitespace. There are no fields exactly when the text is all whitespace. Concatenated, the fields are the text with its whitespace deleted. `FieldsOfInterleave` pins down where the splits fall. |
| Text.HasPrefix | htm.go:58 | Definition only, no contract: `s` is at least as long as `prefix` and starts with the same characters. The same test is used at htm.go:75. |
| Text.HasSuffix | htm.go:99 | Definition only, no contract: `s` is at least as long as `suffix` and ends with the same characters. |
| Text.FieldsAfterAllSpace | htm.go:62 | Whitespace in front of a text does not change its fields. |
| Text.FieldsOfInterleave | htm.go:62 | For any words and any whitespace runs before, between and after them, with the runs between words non-empty, the fields of the text are exactly those words. Together with the contract of `Fields`, this fixes the split of every text. |
| Text.FieldsOfWordThen | htm.go:62 | A word followed by whitespace or by nothing is the first field. |
| Text.FieldsOfJoin | htm.go:62 | Splitting words joined by single spaces gives the words back. |
| Text.TrimJoin | htm.go:55 | Words joined by single spaces have nothing to trim. |
| Urls.IndexOf | htm.go:68 | Gives the position of the first occurrence of a character, or the length when the character is absent. |
| Urls.ScanScheme | htm.go:68 | A `:` in first position is the "missing protocol scheme" error. A scheme that is found is a valid scheme name and is followed by `:`. When no scheme is found, the whole text remains. |
| Urls.Cut | htm.go:68 | Gives the text before the first occurrence of the separator, and what follows it. |
| Urls.ParseUrl | htm.go:68-69 | A reference starting with `:` fails. A scheme that is found is valid. The host has no `/`, `?` or `#`. A non-empty host is read from `//` right after the scheme. |
| Urls.ParseReference | htm.go:68 | Gives the same guarantees as `ParseUrl`, for the text before the fragment. |
| Urls.ParseRest | htm.go:68 | Keeps the scheme. The host has no `/`, `?` or `#`, and a non-empty host follows `//`. |
| Urls.GetScheme | htm.go:68 | Definition only, no contract: the parser's first step, `ScanScheme` from position 0. Its contract is `ScanScheme`'s with `i = 0`. |
| Urls.GetSchemeOfScheme | htm.go:68 | A valid scheme followed by `:` is read as the scheme, and the rest is left as it was. |
| Urls.ParseUrlFragment | htm.go:68 | The text after the first `#` is the fragment. |
| Urls.ParseReferenceQuery | htm.go:68 | The text after the first `?` following the scheme is the query. |
| Urls.ParseRestAuthority | htm.go:68 | After the scheme, `//` starts the host, which runs up to the path. |
| Urls.ParseFormat | htm.go:68-69 | Parsing the printed form of a `scheme://host/path?query#fragment` URL gives the same URL, with its scheme and host. |
| Scenarios.ParseLineOfWords | htm.go:54-62 | A line of words joined by single spaces is classified by those words. |
| Scenarios.AcceptedWords | htm.go:62-77 | A line whose first word is a printed URL is a route for its hostname words before the comment. |
| Scenarios.RoutesOfOneLine | htm.go:52-83 | A one-line configuration holds exactly what that line registers. |
| Scenarios.ApplySingleHostLine | htm.go:74-82 | A line with one hostname adds or overwrites that entry only. |
| Scenarios.RoutesOfTwoLines | htm.go:52-83 | A two-line configuration is the second line applied after the first. |
| Scenarios.HostThenComment | htm.go:74-77 | A hostname followed by a `#` field is the only hostname. |
| Scenarios.InlineCommentLine | htm.go:74-77 | The line `<url> <host> # <words>` loads to the table `{host: url}`. |
| Scenarios.SingleHostLine | htm.go:62-77 | The line `<url> <host>` is a route for `host` alone. |
| Scenarios.TwoBackends | htm.go:52-83 | Two one-host lines load to a table with both entries. |
| Scenarios.MatchesOfTwo | htm.go:98-99 | In a two-entry table, the matching keys are the entries whose key is a suffix of the hostname. |
| Scenarios.TwoBackendMatches | htm.go:98-99 | In the table of two backends whose hostnames are not suffixes of each other, each hostname's only matching key is itself. A hostname that neither key is a suffix of matches no key. |
| Scenarios.RouteTwoBackends | htm.go:92-110 | With two backends whose hostnames are not suffixes of each other, each hostname reaches its own upstream. A hostname matching neither gets 502. |

## Left out

- Command-line flags, the usage message and `main` (htm.go:28-37, 117-130): process set-up, outside the routing logic.
- Opening and scanning the file (htm.go:44-50, 85-87): I/O. The lines are a parameter, and any open or read error is the single `readError` flag.
- The `lineNum` counter and the warnings printed with `log.Printf`, including the duplicate-hostname warning (htm.go:53, 64, 70, 78-80, 108, 112): logging only. The model keeps every branch those warnings sit in.
- The response writing and forwarding, `httputil.NewSingleHostReverseProxy` and `ServeHTTP` of the proxy (htm.go:106-107, 112-114): `SelectUpstream` returns the decision; the HTTP exchange is not part of this model.
- `http.ListenAndServe` and concurrent requests: the table is never changed after loading, so each request is an independent call of `SelectUpstream`.
- Urls.ParseUrl: net/url is not part of this model. Its parser is reduced as follows:
  - the authority is kept whole as the host: userinfo is not split off, and neither the port nor the host's characters are validated;
  - there is no percent-unescaping of path or fragment, which means no escape errors;
  - there is no lowercasing of the scheme;
  - there is no rejection of control characters;
  - `ForceQuery` is ignored.

  As a result it accepts some first fields that Go rejects. For example, `http://h:abc` is a parse error in Go (invalid port) but is accepted here with host `h:abc`. `http://user@` has an empty host in Go, so the line is skipped, but here its host is `user@` and the line is accepted. Keeping the port in the host is not a difference: Go keeps it too.
- Text.TrimSpace: whitespace is the ASCII set (tab, line feed, vertical tab, form feed, carriage return, space). Unicode spaces, which Go's `strings.TrimSpace` also removes, are not modelled.
- Text.Fields: splits on the same ASCII whitespace as `TrimSpace`, not on Unicode spaces.
- Config.NewHtmProxy: the in-place `result[host] = *target` updates are reassignments of a `map` value.
- Config.AddHosts: the inner `for ... range fields[1:]` loop is a method of its own.
- Routing.SelectUpstream: map iteration order is an arbitrary choice among the unvisited keys. The method promises no particular key when several match, because the Go code does not either.
