/**
 * The plugin's command-line options and the two values derived from them before the
 * plugin runs: the URL of dnsdist's statistics endpoint and the API key.
 */
module Options {
  import opened Wrappers
  import ApiKeyPattern

  /** The options as parsed from the command line; timeout is a duration in nanoseconds. */
  datatype Opt = Opt(version: bool, prefix: string, port: string, host: string, timeout: int, apiKey: string)

  /** The options when no flag is given: the defaults declared on the option fields. */
  const DefaultOpt: Opt := Opt(false, "dnsdist", "8083", "127.0.0.1", 30 * 1_000_000_000, "")

  const Scheme: string := "http://"

  /** Path and query of the statistics endpoint. */
  const StatsPathQuery: string := "/jsonstat?command=stats"

  /** net.JoinHostPort: a host containing a colon (an IPv6 literal) is put in brackets. */
  function JoinHostPort(host: string, port: string): (hp: string)
    ensures ':' !in host ==> hp == host + ":" + port
    ensures ':' in host ==> hp == "[" + host + "]:" + port
  {
    if ':' in host then "[" + host + "]:" + port else host + ":" + port
  }

  /** Opt.URL: the endpoint `http://host:port/jsonstat?command=stats`; hosts are assumed to
      need no percent-escaping. */
  function URL(o: Opt): (u: string)
    ensures ':' !in o.host ==> u == "http://" + o.host + ":" + o.port + "/jsonstat?command=stats"
    ensures ':' in o.host ==> u == "http://[" + o.host + "]:" + o.port + "/jsonstat?command=stats"
  {
    Scheme + JoinHostPort(o.host, o.port) + StatsPathQuery
  }

  /** The index of the last c in s, or -1. */
  function LastIndexOf(s: string, c: char): (r: int)
    ensures -1 <= r < |s|
    ensures r == -1 <==> c !in s
    ensures r >= 0 ==> s[r] == c && c !in s[r + 1..]
  {
    if s == [] then -1
    else if s[|s| - 1] == c then |s| - 1
    else
      var r := LastIndexOf(s[..|s| - 1], c);
      assert s == s[..|s| - 1] + [s[|s| - 1]];
      r
  }

  /** Splits `host:port` or `[host]:port` at the last colon: the inverse of JoinHostPort. */
  function SplitHostPort(hp: string): Option<(string, string)> {
    var i := LastIndexOf(hp, ':');
    if i < 0 then None
    else if hp[0] == '[' then
      if i >= 2 && hp[i - 1] == ']' then Some((hp[1..i - 1], hp[i + 1..])) else None
    else if ':' in hp[..i] then None
    else Some((hp[..i], hp[i + 1..]))
  }

  /** The host and port a URL built by URL names, if it has that shape. */
  function TargetOf(u: string): Option<(string, string)> {
    if |u| >= |Scheme| + |StatsPathQuery| && u[..|Scheme|] == Scheme && u[|u| - |StatsPathQuery|..] == StatsPathQuery
    then SplitHostPort(u[|Scheme|..|u| - |StatsPathQuery|])
    else None
  }

  lemma {:induction false} LastIndexOfJoin(a: string, c: char, b: string)
    requires c !in b
    ensures LastIndexOf(a + [c] + b, c) == |a|
    decreases |b|
  {
    var s := a + [c] + b;
    if b != [] {
      assert s[..|s| - 1] == a + [c] + b[..|b| - 1];
      LastIndexOfJoin(a, c, b[..|b| - 1]);
    }
  }

  /** JoinHostPort loses nothing: the host and port can be read back, for every port without
      a colon and every host without a bracket. */
  lemma SplitJoinHostPort(host: string, port: string)
    requires ':' !in port && '[' !in host
    ensures SplitHostPort(JoinHostPort(host, port)) == Some((host, port))
  {
    var hp := JoinHostPort(host, port);
    if ':' in host {
      assert hp == ("[" + host + "]") + [':'] + port;
      LastIndexOfJoin("[" + host + "]", ':', port);
      var i := |host| + 2;
      assert hp[0] == '[' && hp[i - 1] == ']';
      assert hp[1..i - 1] == host && hp[i + 1..] == port;
    } else {
      assert hp == host + [':'] + port;
      LastIndexOfJoin(host, ':', port);
      assert hp[..|host|] == host;
      if host != [] { assert hp[0] == host[0]; }
    }
  }

  /** The URL names the configured host and port. */
  lemma TargetOfURL(o: Opt)
    requires ':' !in o.port && '[' !in o.host
    ensures TargetOf(URL(o)) == Some((o.host, o.port))
  {
    var hp := JoinHostPort(o.host, o.port);
    var u := URL(o);
    assert u[|Scheme|..|u| - |StatsPathQuery|] == hp;
    SplitJoinHostPort(o.host, o.port);
  }

  /** With every option left at its default the plugin polls dnsdist on the local host:
      `http://127.0.0.1:8083/jsonstat?command=stats`, written here in its three parts. */
  lemma DefaultURL()
    ensures URL(DefaultOpt) == "http://" + "127.0.0.1:8083" + "/jsonstat?command=stats"
  {
    var host := DefaultOpt.host;
    assert ':' !in host by {
      assert host == ['1', '2', '7', '.', '0', '.', '0', '.', '1'];
    }
    assert JoinHostPort(host, DefaultOpt.port) == "127.0.0.1:8083";
  }

  /**
   * Opt.GetAPIKey. An explicit key wins. Otherwise config is the content of dnsdist's
   * configuration file /etc/dnsdist/dnsdist.conf (None when it cannot be read, which yields
   * ""); the key is the capture of the first match of the pattern in it, or "" when there is
   * none. No error is ever reported.
   */
  function GetAPIKey(o: Opt, config: Option<string>): (key: string)
    ensures o.apiKey != "" ==> key == o.apiKey
    ensures o.apiKey == "" && config.None? ==> key == ""
    ensures o.apiKey == "" && config.Some? ==> (key == "" <==> !ApiKeyPattern.HasMatch(config.value))
    ensures o.apiKey == "" && config.Some? && key != "" ==>
      exists i, m :: ApiKeyPattern.IsFirstMatchFrom(config.value, 0, i, m)
                     && key == ApiKeyPattern.Capture(config.value, m)
  {
    if o.apiKey != "" then o.apiKey
    else
      match config
      case None => ""
      case Some(content) =>
        ApiKeyPattern.CapturesFromFirst(content, 0);
        var res := ApiKeyPattern.Captures(content);
        if |res| < 1 then "" else res[0]
  }

  /** Without an explicit key, a configuration line `setWebserverConfig({... apiKey = "<key>"...`
      yields its key. */
  lemma GetAPIKeyFromConfigLine(o: Opt, other: string, key: string, rest: string)
    requires o.apiKey == ""
    requires '\n' !in other && key != [] && '\n' !in key && '"' !in key
    requires 'a' !in key && 'a' !in rest
    ensures GetAPIKey(o, Some(ApiKeyPattern.ConfigLine(other, key, rest))) == key
  {
    var s := ApiKeyPattern.ConfigLine(other, key, rest);
    ApiKeyPattern.ConfigLineMatch(other, key, rest);
    assert ApiKeyPattern.Captures(s)[0] == key;
  }

  /** `setWebserverConfig({password="pw", apiKey = "secret123"})` yields `secret123`. */
  lemma GetAPIKeyExample(o: Opt)
    requires o.apiKey == ""
    ensures GetAPIKey(o, Some(ApiKeyPattern.ConfigLine("password=\"pw\",", "secret123", "})"))) == "secret123"
  {
    GetAPIKeyFromConfigLine(o, "password=\"pw\",", "secret123", "})");
  }
}
