# mackerel-plugin-dnsdist, modelled in Dafny

mackerel-plugin-dnsdist is a Mackerel agent plugin. It polls dnsdist's JSON statistics
endpoint over HTTP and reports the counters it finds under a fixed catalog of eight graphs.
This project models the plugin's decision logic, all of it in
`cmd/mackerel-plugin-dnsdist/main.go`:

- `Opt.URL`: the endpoint URL, including `net.JoinHostPort`'s bracketing of IPv6 hosts
  (module `Options`, file `options.dfy`).
- `Opt.GetAPIKey`: which API key is used (module `Options`). The key can come from the flag,
  or from the first match of the configuration-file pattern.
- The pattern itself (module `ApiKeyPattern`, file `apikey_pattern.dfy`). It is a matcher
  written by hand for `setWebserverConfig\(.*\{.*\bapiKey\s*=\s*"(.+?)"`. The matcher follows
  RE2's leftmost-first semantics. It is proved sound and complete against a declarative
  description of every match, and it picks the match RE2 prefers.
- `Plugin.MetricKeyPrefix`: replaces an empty prefix in place (class `DnsdistPlugin.Plugin`).
- `Plugin.GraphDefinition`: the graph catalog with `strings.Title` on the prefix (module
  `Graphs`, file `graphs.dfy`).
- `Plugin.FetchMetrics` (module `DnsdistPlugin`, file `plugin.dfy`): the request it builds,
  with the `X-API-Key` header and Go's canonicalisation of header names (`HeaderGet`, Go's
  `Header.Get`, is the helper the header lemmas read the request through). Also its loop that
  keeps the decoded JSON entries whose `%v` text parses as a float. The `%v` printing of
  decoded JSON values is in module `JsonValues` (file `json_values.dfy`).

Module `Wrappers` holds `Option` and `Result`.

Some outside effects are not modelled directly:

- The contents of `/etc/dnsdist/dnsdist.conf` are an `Option<string>` parameter. `None` means
  the file cannot be read.
- `strconv.ParseFloat` is a parameter `parse: string -> Option<real>`. The predicate
  `StrconvRejects` lists the few facts about it that the model relies on.
- The HTTP round trip and the JSON decoding are a parameter
  `exchange: Request -> Result<map<string, Json>, string>`.

Behaviours of `main.go` that the model keeps as they are:

- `GraphDefinition` (main.go:101) reads the `Prefix` field directly, without calling
  `MetricKeyPrefix`. An empty prefix therefore gives labels that begin with `: `
  (`Graphs.CatalogEmptyPrefix`).
- `MetricKeyPrefix` (main.go:94-96) writes the default into the field the first time it finds
  it empty; the struct built in `main` keeps the prefix as given.
- The coercion loop (main.go:195) parses the `%v` text of every value, whatever its JSON type,
  so a string such as `"55.5"` is kept as 55.5.
- `FetchMetrics` adds the header as `X-API-Key` (main.go:177); `http.Header` stores and sends
  it under the canonical name `X-Api-Key`.
- The labels keep their spelling, including `becaused` (main.go:104) and `widh`
  (main.go:138).

## Model

| member | source | states |
|---|---|---|
| Options.JoinHostPort | cmd/mackerel-plugin-dnsdist/main.go:42 | a host without `:` is joined as `host:port`; a host with `:` is bracketed as `[host]:port` |
| Options.SplitJoinHostPort | cmd/mackerel-plugin-dnsdist/main.go:42 | splitting at the last colon gives back exactly the host and the port, for every port without `:` and every host without `[` |
| Options.URL | cmd/mackerel-plugin-dnsdist/main.go:39-47 | the URL is `http://host:port/jsonstat?command=stats`, with the host bracketed when it contains `:` |
| Options.TargetOfURL | cmd/mackerel-plugin-dnsdist/main.go:39-47 | the configured host and port can be read back out of the URL |
| Options.DefaultURL | cmd/mackerel-plugin-dnsdist/main.go:32-47 | with the default options the URL is `http://127.0.0.1:8083/jsonstat?command=stats` (stated as its three parts) |
| Options.GetAPIKey | cmd/mackerel-plugin-dnsdist/main.go:51-64 | a non-empty explicit key is returned whatever the file holds; an unreadable file gives `""`; otherwise the key is `""` exactly when the pattern matches nowhere, and a non-empty key is the capture of the first match RE2 reports |
| Options.GetAPIKeyFromConfigLine | cmd/mackerel-plugin-dnsdist/main.go:51-64 | without an explicit key, a configuration line `setWebserverConfig({<other> apiKey = "<key>"<rest>` yields exactly its key (for a non-empty single-line key without a quote, and no `a` after the field) |
| Options.GetAPIKeyExample | cmd/mackerel-plugin-dnsdist/main.go:51-64 | `setWebserverConfig({password="pw", apiKey = "secret123"})` yields `secret123` |
| ApiKeyPattern.ConfigLineMatch | cmd/mackerel-plugin-dnsdist/main.go:49 | on such a configuration line the pattern matches at the start of the line, and its capture is exactly the key |
| ApiKeyPattern.MatchAt | cmd/mackerel-plugin-dnsdist/main.go:49 | a match found at position i has the pattern's shape: keyword at i, a `{` and then a word-bounded `apiKey` on the same line, `=` and a quote after optional white space, and a non-empty capture without a newline before the next quote |
| ApiKeyPattern.CloseQuoteComplete | cmd/mackerel-plugin-dnsdist/main.go:49 | the lazy capture `(.+?)` ends at the first quote after at least one character, when the line has one |
| ApiKeyPattern.TailAtComplete | cmd/mackerel-plugin-dnsdist/main.go:49 | `\s*=\s*"` has only one way to match after the field, and the matcher finds it along with the earliest closing quote |
| ApiKeyPattern.FindKeySound | cmd/mackerel-plugin-dnsdist/main.go:49 | every `apiKey` the matcher takes is word-bounded and followed by a complete tail |
| ApiKeyPattern.FindBraceSound | cmd/mackerel-plugin-dnsdist/main.go:49 | every brace the matcher takes is on the keyword's line and is followed by a valid key and tail |
| ApiKeyPattern.FindBraceComplete | cmd/mackerel-plugin-dnsdist/main.go:49 | whenever the pattern's body matches with its brace no later than x, the brace search from x succeeds, and its match is at least as preferred as that one (a later brace, then a later key, then a shorter capture) |
| ApiKeyPattern.MatchAtComplete | cmd/mackerel-plugin-dnsdist/main.go:49 | whenever the pattern can match at i, the matcher finds a match there that is RE2's preferred one |
| ApiKeyPattern.MatchAtNone | cmd/mackerel-plugin-dnsdist/main.go:49 | when the matcher finds nothing at i, no match of any shape starts at i |
| ApiKeyPattern.MatchAtFirst | cmd/mackerel-plugin-dnsdist/main.go:49 | a match found at the search position is the one RE2 reports first from there |
| ApiKeyPattern.CapturesFrom | cmd/mackerel-plugin-dnsdist/main.go:59 | `FindAllSubmatch(buf, -1)` as a list of group-1 captures: every capture is non-empty and contains no newline |
| ApiKeyPattern.CapturesFromFirst | cmd/mackerel-plugin-dnsdist/main.go:59-63 | the capture list is empty exactly when the pattern matches nowhere; otherwise its first element is the capture of the first match RE2 reports |
| JsonValues.Render | cmd/mackerel-plugin-dnsdist/main.go:195 | `%v` prints null as `<nil>`, a boolean as `true`/`false`, a number as its literal text and a string as itself |
| JsonValues.RenderBrackets | cmd/mackerel-plugin-dnsdist/main.go:195 | an array prints between `[` and `]`, and an object as `map[` ... `]` |
| JsonValues.RenderSortsKeys | cmd/mackerel-plugin-dnsdist/main.go:195 | a nested object prints with its keys in sorted order, and a repeated key keeps its last value |
| JsonValues.CompositeRejected | cmd/mackerel-plugin-dnsdist/main.go:195 | null, booleans, arrays and objects print under `%v` as text ParseFloat rejects |
| Graphs.ToTitle | cmd/mackerel-plugin-dnsdist/main.go:101 | ASCII lower-case letters are mapped to upper case; every other character is kept |
| Graphs.TitleFrom | cmd/mackerel-plugin-dnsdist/main.go:101 | `strings.Title` keeps the length and title-cases exactly the characters that follow a separator |
| Graphs.TitleDefault | cmd/mackerel-plugin-dnsdist/main.go:101 | the default prefix `dnsdist` is titled `Dnsdist` |
| Graphs.TitleFoo | cmd/mackerel-plugin-dnsdist/main.go:101 | `foo` is titled `Foo` |
| Graphs.TitleSeparators | cmd/mackerel-plugin-dnsdist/main.go:101 | a word after `-` is capitalised, but a word after `_` is not |
| Graphs.Label | cmd/mackerel-plugin-dnsdist/main.go:104 | a label is the title-cased prefix, then `: `, then the graph's text |
| Graphs.Catalog | cmd/mackerel-plugin-dnsdist/main.go:100-169 | the catalog has exactly the eight graph keys, and every graph's unit is `integer` |
| Graphs.CatalogLabels | cmd/mackerel-plugin-dnsdist/main.go:101-162 | every label starts with `Title(prefix) + ": "` and has text after it |
| Graphs.CatalogStacked | cmd/mackerel-plugin-dnsdist/main.go:103-167 | a metric is stacked exactly when it belongs to `cache` or `rule` |
| Graphs.CatalogDiff | cmd/mackerel-plugin-dnsdist/main.go:103-167 | a metric is a diff exactly when it is neither `latency-avg1000000` nor `fd-usage` |
| Graphs.CatalogLayout | cmd/mackerel-plugin-dnsdist/main.go:103-167 | each graph lists its metric names in the order the source gives |
| Graphs.CatalogNamesUnique | cmd/mackerel-plugin-dnsdist/main.go:103-167 | no metric name occurs twice, in one graph or across graphs |
| Graphs.CatalogCacheLabel | cmd/mackerel-plugin-dnsdist/main.go:110-111 | the cache graph is labelled `Title(prefix) + ": Packet Cache"` |
| Graphs.CatalogFooLabel | cmd/mackerel-plugin-dnsdist/main.go:101-111 | for prefix `foo` the cache label begins with `Foo:` |
| Graphs.CatalogEmptyPrefix | cmd/mackerel-plugin-dnsdist/main.go:101-111 | for an empty prefix the cache label is `: Packet Cache`, since no default is applied |
| DnsdistPlugin.KeyPrefixSettles | cmd/mackerel-plugin-dnsdist/main.go:93-98 | the settled prefix is never empty, keeps a non-empty prefix, and settling it again changes nothing |
| DnsdistPlugin.Plugin.constructor | cmd/mackerel-plugin-dnsdist/main.go:228-233 | the plugin holds the option prefix and timeout, the URL built from the options, and the resolved API key |
| DnsdistPlugin.Plugin.MetricKeyPrefix | cmd/mackerel-plugin-dnsdist/main.go:93-98 | an empty prefix becomes `dnsdist` in the field; a non-empty prefix is returned and left as it is; the result is never empty |
| DnsdistPlugin.Plugin.MetricKeyPrefixTwice | cmd/mackerel-plugin-dnsdist/main.go:93-98 | calling it twice returns the same prefix both times, which is what one call settles on |
| DnsdistPlugin.Plugin.GraphDefinition | cmd/mackerel-plugin-dnsdist/main.go:100-169 | the eight graphs with unit `integer`, every label prefixed with the title of the current `prefix` field |
| DnsdistPlugin.CaseOf | cmd/mackerel-plugin-dnsdist/main.go:177 | characters that are not letters keep their case under header canonicalisation |
| DnsdistPlugin.CanonicalFrom | cmd/mackerel-plugin-dnsdist/main.go:177 | canonical case keeps the length; the first character of each `-`-separated word is upper-cased and every later letter is lower-cased; non-letters are kept |
| DnsdistPlugin.CanonicalKey | cmd/mackerel-plugin-dnsdist/main.go:177 | canonicalisation keeps the length, and leaves a name with a non-token character unchanged |
| DnsdistPlugin.ApiKeyHeaderCanonical | cmd/mackerel-plugin-dnsdist/main.go:177 | `X-API-Key` is stored and sent as `X-Api-Key` |
| DnsdistPlugin.HeaderAdd | cmd/mackerel-plugin-dnsdist/main.go:177 | `Header.Add` appends the value under the canonical name and leaves every other name alone |
| DnsdistPlugin.HeaderAddGet | cmd/mackerel-plugin-dnsdist/main.go:177 | `Header.Get` after `Header.Add` returns the first value stored under the canonical name: the added one when there was none before |
| DnsdistPlugin.StatsRequest | cmd/mackerel-plugin-dnsdist/main.go:172-178 | a GET of the plugin URL whose only header is the API key, present exactly when the key is non-empty |
| DnsdistPlugin.StatsRequestKey | cmd/mackerel-plugin-dnsdist/main.go:176-178 | reading `X-API-Key` back from the request gives exactly the configured key, and the header is present exactly when that key is non-empty |
| DnsdistPlugin.Coerced | cmd/mackerel-plugin-dnsdist/main.go:193-201 | the result's keys are a subset of the object's; a key is kept exactly when the `%v` text of its value parses, and it maps to that parse |
| DnsdistPlugin.CoercedDropsComposite | cmd/mackerel-plugin-dnsdist/main.go:194-198 | null, booleans, arrays and nested objects are always dropped |
| DnsdistPlugin.CoercedKeepsScalars | cmd/mackerel-plugin-dnsdist/main.go:195-199 | a number or a string whose text parses is kept with the parsed value |
| DnsdistPlugin.CoercedUpdate | cmd/mackerel-plugin-dnsdist/main.go:194-200 | each entry is coerced independently: changing one entry of the object changes only that key of the result |
| DnsdistPlugin.CoercedExampleKeys | cmd/mackerel-plugin-dnsdist/main.go:193-201 | of a number, a numeric string, a boolean and an object, only the first two keys survive |
| DnsdistPlugin.CoercedExample | cmd/mackerel-plugin-dnsdist/main.go:193-201 | such an object coerces to its two numeric entries with their parsed values, whatever the keys |
| DnsdistPlugin.CoercedStatsExample | cmd/mackerel-plugin-dnsdist/main.go:193-201 | the same with dnsdist's key names: `queries` and `latency-avg1000000` are kept, `acl-drops` and `nested` are dropped |
| DnsdistPlugin.Plugin.FetchMetrics | cmd/mackerel-plugin-dnsdist/main.go:171-202 | an error of the exchange is returned as it is; otherwise the result is the coercion of the decoded object, built by the loop over its keys, with a skipped entry never an error |

## Left out

- The HTTP client and transport (timeouts, proxy, the no-redirect policy) at
  cmd/mackerel-plugin-dnsdist/main.go:73-91: network plumbing. The timeout is stored in the
  plugin but has no effect in the model.
- The request's execution, the closing of the body and JSON stream decoding
  (cmd/mackerel-plugin-dnsdist/main.go:179-191), and the URL-parse error of `http.NewRequest`
  (172-175): these are library I/O. All of them are folded into the `exchange` parameter,
  which returns their error or the decoded object.
- `os.ReadFile`: the file's content is an `Option<string>` parameter.
- ApiKeyPattern: works on characters rather than on the bytes RE2 sees, so invalid UTF-8 in
  the configuration file is not modelled.
- The numerics of `strconv.ParseFloat` and float64: `parse` is uninterpreted apart from
  `StrconvRejects`, a float64 is a `real`, and range errors count as a failed parse.
- Options.URL: `url.URL.String`'s percent-escaping of the host is not modelled; hosts are
  taken as needing none.
- Graphs.ToTitle: title-cases ASCII letters only. `strings.Title`'s mapping of non-ASCII
  letters is not modelled (the separator set is modelled in full).
- Flag parsing, defaults applied by the flag parser, version printing, exit codes, `Run` and
  `main` (cmd/mackerel-plugin-dnsdist/main.go:204-235): CLI and plugin-host plumbing. The
  constructor covers the struct literal at 228-233.
- Go's randomised map iteration order: FetchMetrics picks the next key arbitrarily, and the
  proof holds for every order.
- JsonValues.Render: `%v` of a `json.Number` prints its literal text. Other float formatting
  never occurs, because the decoder uses `UseNumber`.
