/**
 * The plugin object mackerel-agent drives: its key prefix, its graph definitions, the
 * request it sends to dnsdist and the coercion of dnsdist's statistics into float metrics.
 */
module DnsdistPlugin {
  import opened Wrappers
  import Options
  import opened JsonValues
  import Graphs

  /** The key prefix used when none is configured. */
  const DefaultPrefix: string := "dnsdist"

  /** The header that carries the API key, as written in the plugin. */
  const ApiKeyHeader: string := "X-API-Key"

  /** A byte allowed in an HTTP header name (a token character of section 3.2.6 of RFC 7230). */
  predicate IsTokenChar(c: char) {
    ('a' <= c <= 'z') || ('A' <= c <= 'Z') || ('0' <= c <= '9')
    || c in "!#$%&'*+-.^_`|~"
  }

  /** The case a letter takes in a canonical header name: upper at the start of a word,
      lower elsewhere; other characters are kept. */
  function CaseOf(upper: bool, c: char): (d: char)
    ensures !('a' <= c <= 'z') && !('A' <= c <= 'Z') ==> d == c
  {
    if upper && 'a' <= c <= 'z' then (c as int - 32) as char
    else if !upper && 'A' <= c <= 'Z' then (c as int + 32) as char
    else c
  }

  /** Canonical case from a position, upper telling whether a word starts there; a word
      starts at the beginning and after each `-`. */
  function CanonicalFrom(upper: bool, s: string): (r: string)
    ensures |r| == |s|
    ensures |s| > 0 ==> r[0] == CaseOf(upper, s[0])
    ensures forall k :: 0 < k < |s| ==> r[k] == CaseOf(s[k - 1] == '-', s[k])
    decreases |s|
  {
    if s == [] then [] else [CaseOf(upper, s[0])] + CanonicalFrom(s[0] == '-', s[1..])
  }

  /** textproto.CanonicalMIMEHeaderKey: a name made only of token characters is put in
      canonical case; any other name is left as it is. */
  function CanonicalKey(name: string): (r: string)
    ensures |r| == |name|
    ensures (exists k :: 0 <= k < |name| && !IsTokenChar(name[k])) ==> r == name
  {
    if forall k :: 0 <= k < |name| ==> IsTokenChar(name[k]) then CanonicalFrom(true, name) else name
  }

  lemma CanonicalKeyOfToken(name: string)
    requires forall k :: 0 <= k < |name| ==> IsTokenChar(name[k])
    ensures CanonicalKey(name) == CanonicalFrom(true, name)
  {
  }

  lemma ApiKeyHeaderCases(r: string)
    requires r == CanonicalFrom(true, ApiKeyHeader)
    ensures r == "X-Api-Key"
  {
    var s := ApiKeyHeader;
    assert s == ['X', '-', 'A', 'P', 'I', '-', 'K', 'e', 'y'];
    assert r[0] == CaseOf(true, 'X') == 'X';
    assert r[1] == CaseOf(false, '-') == '-';
    assert r[2] == CaseOf(true, 'A') == 'A';
    assert r[3] == CaseOf(false, 'P') == 'p';
    assert r[4] == CaseOf(false, 'I') == 'i';
    assert r[5] == CaseOf(false, '-') == '-';
    assert r[6] == CaseOf(true, 'K') == 'K';
    assert r[7] == CaseOf(false, 'e') == 'e';
    assert r[8] == CaseOf(false, 'y') == 'y';
    CanonicalSpelling(r);
  }

  /** The nine characters of `X-Api-Key`, one by one. */
  lemma CanonicalSpelling(r: string)
    requires |r| == 9 && r[0] == 'X' && r[1] == '-' && r[2] == 'A' && r[3] == 'p' && r[4] == 'i'
    requires r[5] == '-' && r[6] == 'K' && r[7] == 'e' && r[8] == 'y'
    ensures r == "X-Api-Key"
  {
    assert r == ['X', '-', 'A', 'p', 'i', '-', 'K', 'e', 'y'];
  }

  /** The plugin's header name goes on the wire as `X-Api-Key`. */
  lemma ApiKeyHeaderCanonical()
    ensures CanonicalKey(ApiKeyHeader) == "X-Api-Key"
  {
    assert forall k :: 0 <= k < |ApiKeyHeader| ==> IsTokenChar(ApiKeyHeader[k]);
    CanonicalKeyOfToken(ApiKeyHeader);
    ApiKeyHeaderCases(CanonicalFrom(true, ApiKeyHeader));
  }

  /** http.Header: canonical names mapped to their values in the order they were added. */
  type Header = map<string, seq<string>>

  /** Header.Add: appends a value under the canonical form of the name. */
  function HeaderAdd(h: Header, name: string, value: string): (h': Header)
    ensures h'.Keys == h.Keys + {CanonicalKey(name)}
    ensures h'[CanonicalKey(name)] == (if CanonicalKey(name) in h then h[CanonicalKey(name)] else []) + [value]
    ensures forall n :: n in h && n != CanonicalKey(name) ==> h'[n] == h[n]
  {
    var key := CanonicalKey(name);
    h[key := (if key in h then h[key] else []) + [value]]
  }

  /** Header.Get: the first value under the canonical form of the name, or "". */
  function HeaderGet(h: Header, name: string): string {
    var key := CanonicalKey(name);
    if key in h && |h[key]| > 0 then h[key][0] else ""
  }

  /** Get reads the first value added under a name: a later Add does not change what Get
      returns, and the first Add under a name is what Get returns from then on. */
  lemma HeaderAddGet(h: Header, name: string, value: string)
    ensures var key := CanonicalKey(name);
      HeaderGet(HeaderAdd(h, name, value), name) == if key in h && |h[key]| > 0 then h[key][0] else value
  { }

  /** An outgoing HTTP request. */
  datatype Request = Request(verb: string, url: string, header: Header)

  /** The request FetchMetrics sends: a GET of the statistics URL that carries the API key
      in a header when, and only when, one is configured. */
  function StatsRequest(url: string, apiKey: string): (req: Request)
    ensures req.verb == "GET" && req.url == url
    ensures apiKey == "" ==> req.header == map[]
    ensures apiKey != "" ==> req.header.Keys == {CanonicalKey(ApiKeyHeader)}
    ensures apiKey != "" ==> req.header[CanonicalKey(ApiKeyHeader)] == [apiKey]
  {
    var req := Request("GET", url, map[]);
    if apiKey != "" then req.(header := HeaderAdd(req.header, ApiKeyHeader, apiKey)) else req
  }

  /** The server reads back exactly the configured key (an absent header reads as ""), and
      the header is present exactly when the key is not empty. */
  lemma StatsRequestKey(url: string, apiKey: string)
    ensures HeaderGet(StatsRequest(url, apiKey).header, ApiKeyHeader) == apiKey
    ensures CanonicalKey(ApiKeyHeader) in StatsRequest(url, apiKey).header <==> apiKey != ""
  { }

  /**
   * The metrics kept from a decoded statistics object: the keys whose value, printed with
   * `%v`, parse reads as a float, each mapped to that float.
   */
  function Coerced(t: map<string, Json>, parse: string -> Option<real>): (r: map<string, real>)
    ensures r.Keys <= t.Keys
    ensures forall k :: k in t ==> (k in r <==> parse(Render(t[k])).Some?)
    ensures forall k :: k in r ==> parse(Render(t[k])) == Some(r[k])
  {
    map k | k in t.Keys && parse(Render(t[k])).Some? :: parse(Render(t[k])).value
  }

  /** Booleans, null, arrays and objects are always dropped. */
  lemma CoercedDropsComposite(t: map<string, Json>, parse: string -> Option<real>)
    requires StrconvRejects(parse)
    ensures forall k :: k in t && IsComposite(t[k]) ==> k !in Coerced(t, parse)
  {
    forall k | k in t && IsComposite(t[k]) {
      CompositeRejected(t[k], parse);
    }
  }

  /** A number or a string value is kept when its text parses, with the parsed value. */
  lemma CoercedKeepsScalars(t: map<string, Json>, parse: string -> Option<real>, k: string, text: string, x: real)
    requires k in t && (t[k] == Number(text) || t[k] == Str(text))
    requires parse(text) == Some(x)
    ensures k in Coerced(t, parse) && Coerced(t, parse)[k] == x
  { }

  /** Outside k, coercing t[k := v] agrees with coercing t. */
  lemma CoercedElsewhere(t: map<string, Json>, parse: string -> Option<real>, k: string, v: Json, j: string)
    requires j != k
    ensures var lhs := Coerced(t[k := v], parse); var rhs := Coerced(t, parse);
      (j in lhs <==> j in rhs) && (j in lhs ==> lhs[j] == rhs[j])
  {
    var t' := t[k := v];
    assert (j in t' <==> j in t) && (j in t ==> t'[j] == t[j]);
  }

  /** Coercion works key by key: one entry of the object decides one entry of the result. */
  lemma CoercedUpdate(t: map<string, Json>, parse: string -> Option<real>, k: string, v: Json)
    ensures var p := parse(Render(v));
      Coerced(t[k := v], parse) == if p.Some? then Coerced(t, parse)[k := p.value] else Coerced(t, parse) - {k}
  {
    var p := parse(Render(v));
    var lhs := Coerced(t[k := v], parse);
    var before := Coerced(t, parse);
    var rhs := if p.Some? then before[k := p.value] else before - {k};
    forall j | j != k
      ensures (j in lhs <==> j in rhs) && (j in lhs ==> lhs[j] == rhs[j])
    {
      CoercedElsewhere(t, parse, k, v, j);
    }
    assert lhs.Keys == rhs.Keys;
  }

  /** A statistics object such as dnsdist sends: a counter as a number, a gauge as a
      numeric string, a flag and a nested object, under four distinct keys. */
  predicate IsExampleStats(t: map<string, Json>, keys: seq<string>, nested: Json) {
    |keys| == 4 && nested.Object?
    && keys[0] != keys[1] && keys[0] != keys[2] && keys[0] != keys[3]
    && keys[1] != keys[2] && keys[1] != keys[3] && keys[2] != keys[3]
    && t == map[keys[0] := Number("42"), keys[1] := Str("55.5"), keys[2] := Bool(true), keys[3] := nested]
  }

  /** Only the number and the numeric string survive. */
  lemma CoercedExampleKeys(t: map<string, Json>, keys: seq<string>, nested: Json, parse: string -> Option<real>)
    requires IsExampleStats(t, keys, nested) && StrconvRejects(parse)
    requires parse("42").Some? && parse("55.5").Some?
    ensures Coerced(t, parse).Keys == {keys[0], keys[1]}
  {
    CoercedDropsComposite(t, parse);
    assert IsComposite(t[keys[2]]) && IsComposite(t[keys[3]]);
    assert Render(t[keys[0]]) == "42" && Render(t[keys[1]]) == "55.5";
  }

  /** The example coerces to its two numeric entries, with their parsed values, whatever
      the keys are and whatever the nested object holds. */
  lemma CoercedExample(t: map<string, Json>, keys: seq<string>, nested: Json, parse: string -> Option<real>)
    requires IsExampleStats(t, keys, nested) && StrconvRejects(parse)
    requires parse("42") == Some(42.0) && parse("55.5") == Some(55.5)
    ensures var r := Coerced(t, parse);
      r.Keys == {keys[0], keys[1]} && r[keys[0]] == 42.0 && r[keys[1]] == 55.5
  {
    CoercedExampleKeys(t, keys, nested, parse);
    CoercedKeepsScalars(t, parse, keys[0], "42", 42.0);
    CoercedKeepsScalars(t, parse, keys[1], "55.5", 55.5);
  }

  /** With dnsdist's own key names. */
  lemma CoercedStatsExample(parse: string -> Option<real>)
    requires StrconvRejects(parse)
    requires parse("42") == Some(42.0) && parse("55.5") == Some(55.5)
    ensures Coerced(map["queries" := Number("42"), "latency-avg1000000" := Str("55.5"),
                        "acl-drops" := Bool(true), "nested" := Object([("a", Number("1"))])], parse)
            == map["queries" := 42.0, "latency-avg1000000" := 55.5]
  {
    var keys := ["queries", "latency-avg1000000", "acl-drops", "nested"];
    var nested := Object([("a", Number("1"))]);
    CoercedExample(map[keys[0] := Number("42"), keys[1] := Str("55.5"), keys[2] := Bool(true), keys[3] := nested],
                   keys, nested, parse);
  }

  /** The key prefix MetricKeyPrefix settles on. */
  function KeyPrefix(prefix: string): string {
    if prefix == "" then DefaultPrefix else prefix
  }

  /** The settled prefix is never empty, keeps a configured one and settles again on itself. */
  lemma KeyPrefixSettles(prefix: string)
    ensures KeyPrefix(prefix) != ""
    ensures prefix != "" ==> KeyPrefix(prefix) == prefix
    ensures KeyPrefix(KeyPrefix(prefix)) == KeyPrefix(prefix)
  { }

  class Plugin {
    var prefix: string
    var url: string
    /** Dial, keep-alive and header timeout of the HTTP client, in nanoseconds. */
    var timeout: int
    var apiKey: string

    /** The plugin main builds from the parsed options and the configuration file's content. */
    constructor (o: Options.Opt, config: Option<string>)
      ensures prefix == o.prefix && timeout == o.timeout
      ensures url == Options.URL(o) && apiKey == Options.GetAPIKey(o, config)
    {
      prefix := o.prefix;
      timeout := o.timeout;
      url := Options.URL(o);
      apiKey := Options.GetAPIKey(o, config);
    }

    /** Replaces an empty prefix by the default, in the field, and returns the prefix. */
    method MetricKeyPrefix() returns (r: string)
      modifies this`prefix
      ensures r == KeyPrefix(old(prefix)) && prefix == r
      ensures r != ""
      ensures old(prefix) != "" ==> prefix == old(prefix)
    {
      if prefix == "" {
        prefix := DefaultPrefix;
      }
      r := prefix;
    }

    /** A second call returns what the first did and changes nothing more. */
    method MetricKeyPrefixTwice() returns (first: string, second: string)
      modifies this`prefix
      ensures first == second == prefix == KeyPrefix(old(prefix))
    {
      first := MetricKeyPrefix();
      second := MetricKeyPrefix();
      KeyPrefixSettles(old(prefix));
    }

    /** The eight graphs, labelled with the prefix as it stands, whether or not
        MetricKeyPrefix has replaced an empty one yet. */
    function GraphDefinition(): (r: map<string, Graphs.Graph>)
      reads this
      ensures r.Keys == Graphs.GraphKeys
      ensures forall g :: g in r ==> r[g].unit == "integer"
      ensures forall g :: g in r ==>
        |r[g].labelText| > |Graphs.Title(prefix)| + 2 && r[g].labelText[..|Graphs.Title(prefix)| + 2] == Graphs.Title(prefix) + ": "
      ensures r == Graphs.Catalog(prefix)
    {
      Graphs.CatalogLabels(prefix);
      Graphs.Catalog(prefix)
    }

    /**
     * Sends the statistics request through exchange, which stands for the HTTP round trip
     * and the JSON decoding and returns their error or the decoded object, then keeps the
     * entries whose value reads as a float. An entry that does not is skipped, not an error.
     */
    method FetchMetrics(exchange: Request -> Result<map<string, Json>, string>, parse: string -> Option<real>)
      returns (res: Result<map<string, real>, string>)
      ensures var answer := exchange(StatsRequest(url, apiKey));
        && (answer.Err? ==> res == Err(answer.error))
        && (answer.Ok? ==> res == Ok(Coerced(answer.value, parse)))
    {
      var answer := exchange(StatsRequest(url, apiKey));
      if answer.Err? {
        return Err(answer.error);
      }
      var t := answer.value;
      var result: map<string, real> := map[];
      var rest := t.Keys;
      while rest != {}
        invariant rest <= t.Keys
        invariant forall k :: k in result <==> k in t && k !in rest && parse(Render(t[k])).Some?
        invariant forall k :: k in result ==> parse(Render(t[k])) == Some(result[k])
        decreases rest
      {
        var k :| k in rest;
        var f := parse(Render(t[k]));
        if f.Some? {
          result := result[k := f.value];
        }
        rest := rest - {k};
      }
      assert result.Keys == Coerced(t, parse).Keys;
      assert forall k :: k in result ==> result[k] == Coerced(t, parse)[k];
      assert result == Coerced(t, parse);
      assert answer == exchange(StatsRequest(url, apiKey));
      return Ok(result);
    }
  }
}
