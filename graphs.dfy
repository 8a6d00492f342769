/**
 * The graph catalog the plugin hands to the plugin host: eight graphs, each with a label,
 * a unit and an ordered list of metrics, and the title-casing of the metric key prefix
 * that starts every label.
 */
module Graphs {

  /** One metric of a graph: its key, its label, and whether the host stacks it and
      reports its difference from the previous run. */
  datatype Metric = Metric(name: string, labelText: string, stacked: bool, diff: bool)

  datatype Graph = Graph(labelText: string, unit: string, metrics: seq<Metric>)

  /** Non-ASCII white space in Unicode (none of it is a letter or a digit). */
  predicate IsUnicodeSpace(c: char) {
    c == '\U{85}' || c == '\U{A0}' || c == '\U{1680}' || ('\U{2000}' <= c <= '\U{200A}')
    || c == '\U{2028}' || c == '\U{2029}' || c == '\U{202F}' || c == '\U{205F}' || c == '\U{3000}'
  }

  /** strings.Title's word separators: ASCII other than letters, digits and `_`, and
      Unicode white space. */
  predicate IsSeparator(c: char) {
    if c <= '\U{7F}' then
      !(('0' <= c <= '9') || ('a' <= c <= 'z') || ('A' <= c <= 'Z') || c == '_')
    else IsUnicodeSpace(c)
  }

  /** Title case of a letter; only ASCII letters are mapped. */
  function ToTitle(c: char): (t: char)
    ensures 'a' <= c <= 'z' ==> 'A' <= t <= 'Z' && t as int == c as int - 32
    ensures !('a' <= c <= 'z') ==> t == c
  {
    if 'a' <= c <= 'z' then (c as int - 32) as char else c
  }

  /** strings.Title scanning s with prev the character before it: a character is title-cased
      exactly when the one before it is a separator. */
  function TitleFrom(prev: char, s: string): (r: string)
    decreases |s|
    ensures |r| == |s|
    ensures forall k :: 0 <= k < |s| ==>
      r[k] == (if IsSeparator(if k == 0 then prev else s[k - 1]) then ToTitle(s[k]) else s[k])
  {
    if s == [] then []
    else [if IsSeparator(prev) then ToTitle(s[0]) else s[0]] + TitleFrom(s[0], s[1..])
  }

  /** strings.Title, which starts as if a space came before the text. */
  function Title(s: string): string {
    TitleFrom(' ', s)
  }

  /** The graph keys, as the plugin host sees them. */
  const GraphKeys: set<string> := {"acl-drop", "cache", "downstream-errors", "latency", "queries", "responses", "rule", "fd"}

  /** A graph label: the title-cased prefix, a colon and a space, and the graph's own text. */
  function Label(labelPrefix: string, text: string): (l: string)
    ensures |l| == |labelPrefix| + 2 + |text|
    ensures l[..|labelPrefix| + 2] == labelPrefix + ": "
    ensures l[|labelPrefix| + 2..] == text
  {
    labelPrefix + ": " + text
  }

  /** Plugin.GraphDefinition for the metric key prefix `prefix`. */
  function Catalog(prefix: string): (r: map<string, Graph>)
    ensures r.Keys == GraphKeys
    ensures forall g :: g in r ==> r[g].unit == "integer"
  {
    var labelPrefix := Title(prefix);
    map[
      "acl-drop" := Graph(Label(labelPrefix, "Dropped packets becaused of the ACL"), "integer", [
        Metric("acl-drops", "Dropped", false, true)]),
      "cache" := Graph(Label(labelPrefix, "Packet Cache"), "integer", [
        Metric("cache-hits", "Hits", true, true),
        Metric("cache-misses", "Misses", true, true)]),
      "downstream-errors" := Graph(Label(labelPrefix, "Backend errors"), "integer", [
        Metric("downstream-send-errors", "Send error", false, true),
        Metric("downstream-timeouts", "Timeouts", false, true)]),
      "latency" := Graph(Label(labelPrefix, "Latency (microseconds)"), "integer", [
        Metric("latency-avg1000000", "Latency1000000", false, false)]),
      "queries" := Graph(Label(labelPrefix, "Queries"), "integer", [
        Metric("queries", "Queries", false, true),
        Metric("rdqueries", "Query widh rd bit", false, true)]),
      "responses" := Graph(Label(labelPrefix, "Response"), "integer", [
        Metric("responses", "Backend responses", false, true),
        Metric("self-answered", "Self answered", false, true),
        Metric("servfail-responses", "Backend servfail", false, true)]),
      "rule" := Graph(Label(labelPrefix, "Returned because of rules"), "integer", [
        Metric("rule-drop", "Drop", true, true),
        Metric("rule-nxdomain", "Nxdomain", true, true),
        Metric("rule-refused", "Refused", true, true),
        Metric("rule-servfail", "Servfail", true, true),
        Metric("rule-truncated", "Truncated", true, true)]),
      "fd" := Graph(Label(labelPrefix, "FD usage"), "integer", [
        Metric("fd-usage", "usage", false, false)])
    ]
  }

  /** Every label starts with the title-cased prefix followed by `: `. */
  lemma CatalogLabels(prefix: string)
    ensures var r := Catalog(prefix); var lp := Title(prefix);
      forall g :: g in r ==> |r[g].labelText| > |lp| + 2 && r[g].labelText[..|lp| + 2] == lp + ": "
  {
  }

  /** Only the metrics of `cache` and `rule` are stacked. */
  lemma CatalogStacked(prefix: string)
    ensures var r := Catalog(prefix);
      forall g, i :: g in r && 0 <= i < |r[g].metrics| ==> (r[g].metrics[i].stacked <==> g == "cache" || g == "rule")
  {
  }

  /** Every metric but `latency-avg1000000` and `fd-usage` is reported as a difference. */
  lemma CatalogDiff(prefix: string)
    ensures var r := Catalog(prefix);
      forall g, i :: g in r && 0 <= i < |r[g].metrics| ==>
        (r[g].metrics[i].diff <==> r[g].metrics[i].name != "latency-avg1000000" && r[g].metrics[i].name != "fd-usage")
  {
  }

  /** The metric names of each graph, in the order the host lists them: the layout that
      existing dashboards depend on. */
  const Layout: map<string, seq<string>> := map[
    "acl-drop" := ["acl-drops"],
    "cache" := ["cache-hits", "cache-misses"],
    "downstream-errors" := ["downstream-send-errors", "downstream-timeouts"],
    "latency" := ["latency-avg1000000"],
    "queries" := ["queries", "rdqueries"],
    "responses" := ["responses", "self-answered", "servfail-responses"],
    "rule" := ["rule-drop", "rule-nxdomain", "rule-refused", "rule-servfail", "rule-truncated"],
    "fd" := ["fd-usage"]]

  /** Whatever the prefix, the catalog has exactly the graphs of Layout, each with its
      metrics in Layout's order. */
  lemma CatalogLayout(prefix: string)
    ensures var r := Catalog(prefix);
      forall g :: g in r ==> g in Layout && NamesMatch(r[g].metrics, Layout[g])
  {
    var r := Catalog(prefix);
    assert NamesMatch(r["acl-drop"].metrics, Layout["acl-drop"]);
    assert NamesMatch(r["cache"].metrics, Layout["cache"]);
    assert NamesMatch(r["downstream-errors"].metrics, Layout["downstream-errors"]);
    assert NamesMatch(r["latency"].metrics, Layout["latency"]);
    assert NamesMatch(r["queries"].metrics, Layout["queries"]);
    assert NamesMatch(r["responses"].metrics, Layout["responses"]);
    assert NamesMatch(r["rule"].metrics, Layout["rule"]);
    assert NamesMatch(r["fd"].metrics, Layout["fd"]);
  }

  /** The metrics carry exactly the given names, in that order. */
  ghost predicate NamesMatch(ms: seq<Metric>, names: seq<string>) {
    |ms| == |names| && forall i :: 0 <= i < |ms| ==> ms[i].name == names[i]
  }

  /** No name occurs twice in Layout. */
  lemma LayoutUnique()
    ensures forall g1, i, g2, j ::
      (g1 in Layout && g2 in Layout && 0 <= i < |Layout[g1]| && 0 <= j < |Layout[g2]|
       && Layout[g1][i] == Layout[g2][j]) ==> g1 == g2 && i == j
  {
  }

  /** No metric name occurs twice in the catalog, within a graph or across graphs. */
  lemma CatalogNamesUnique(prefix: string)
    ensures var r := Catalog(prefix);
      forall g1, i, g2, j ::
        (g1 in r && g2 in r && 0 <= i < |r[g1].metrics| && 0 <= j < |r[g2].metrics|
         && r[g1].metrics[i].name == r[g2].metrics[j].name) ==> g1 == g2 && i == j
  {
    var r := Catalog(prefix);
    CatalogLayout(prefix);
    LayoutUnique();
    forall g1, i, g2, j |
      g1 in r && g2 in r && 0 <= i < |r[g1].metrics| && 0 <= j < |r[g2].metrics|
      && r[g1].metrics[i].name == r[g2].metrics[j].name
      ensures g1 == g2 && i == j
    {
      assert Layout[g1][i] == r[g1].metrics[i].name;
      assert Layout[g2][j] == r[g2].metrics[j].name;
    }
  }

  /** The default prefix comes out capitalised. */
  lemma TitleDefault()
    ensures Title("dnsdist") == "Dnsdist"
  {
    var s := "dnsdist";
    var t := Title(s);
    assert IsSeparator(' ') && forall k :: 0 <= k < |s| ==> !IsSeparator(s[k]);
    assert forall k :: 1 <= k < |s| ==> t[k] == s[k];
    assert t[0] == 'D';
  }

  /** A lone lower-case word gets a capital initial. */
  lemma TitleFoo()
    ensures Title("foo") == "Foo"
  {
    var t := Title("foo");
    assert t[0] == 'F' && t[1] == 'o' && t[2] == 'o';
  }

  /** Words after a separator are capitalised; `-` separates words, `_` does not. */
  lemma TitleSeparators()
    ensures Title("a-b_c") == "A-B_c"
  {
    var u := Title("a-b_c");
    assert IsSeparator('-') && !IsSeparator('_');
    assert u[0] == 'A' && u[1] == '-' && u[2] == 'B' && u[3] == '_' && u[4] == 'c';
  }

  /** The cache graph is labelled with the title-cased prefix and `: Packet Cache`. */
  lemma CatalogCacheLabel(prefix: string)
    ensures Catalog(prefix)["cache"].labelText == Title(prefix) + ": Packet Cache"
  {
  }

  /** For the prefix `foo` the cache graph's label begins with `Foo:`. */
  lemma CatalogFooLabel(prefix: string)
    requires prefix == "foo"
    ensures Catalog(prefix)["cache"].labelText[..4] == "Foo:"
  {
    TitleFoo();
    CatalogCacheLabel(prefix);
    var d := Catalog(prefix)["cache"].labelText;
    assert d[0] == 'F' && d[1] == 'o' && d[2] == 'o' && d[3] == ':';
  }

  /** An empty prefix is not replaced by the default here, so the labels start with `: `. */
  lemma CatalogEmptyPrefix(prefix: string)
    requires prefix == ""
    ensures Catalog(prefix)["cache"].labelText == ": Packet Cache"
  {
    assert Title(prefix) == "";
    CatalogCacheLabel(prefix);
  }
}
