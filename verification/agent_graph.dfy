/** The generic agent's view of its tool servers: the comma-separated list
    of server URLs from its configuration, the host names it tells the model
    about, and the client configuration it builds, one entry per URL. The
    configuration values are parameters. */
module AgentGraph {
  import opened Seqs
  import opened Strings

  predicate NonEmpty(s: string) { s != [] }

  /** No surrounding whitespace. */
  predicate Stripped(s: string) {
    s == [] || (!IsSpace(s[0]) && !IsSpace(s[|s| - 1]))
  }

  /** `_get_mcp_urls`: the comma-separated pieces, stripped, without the
      empty ones, in order. */
  function McpUrls(urlsText: string): (urls: seq<string>)
    ensures |urls| <= CountChar(urlsText, ',') + 1
    ensures forall u :: u in urls ==> u != [] && Stripped(u) && ',' !in u
  {
    var pieces := Map(Split(urlsText, ','), Strip);
    StrippedPieces(Split(urlsText, ','));
    Filter(pieces, NonEmpty)
  }

  /** Stripping pieces without commas gives stripped pieces without commas. */
  lemma StrippedPieces(parts: seq<string>)
    requires forall p :: p in parts ==> ',' !in p
    ensures forall p :: p in Map(parts, Strip) ==> Stripped(p) && ',' !in p
  {
    forall p | p in Map(parts, Strip) ensures Stripped(p) && ',' !in p {
      var k :| 0 <= k < |parts| && Map(parts, Strip)[k] == p;
      assert parts[k] in parts;
    }
  }

  /** A list of clean URLs written out with commas reads back as itself. */
  lemma McpUrlsRoundTrip(urls: seq<string>)
    requires urls != []
    requires forall u :: u in urls ==> u != [] && Stripped(u) && ',' !in u
    ensures McpUrls(Join(urls, ',')) == urls
  {
    JoinSplit(urls, ',');
    var pieces := Map(urls, Strip);
    forall k | 0 <= k < |urls| ensures pieces[k] == urls[k] {
      assert urls[k] in urls;
      StripUnchanged(urls[k]);
    }
    assert pieces == urls;
    FilterAll(urls, NonEmpty);
  }

  /** The pieces around a blank entry. */
  lemma SplitAroundBlank(a: string, b: string)
    requires ',' !in a && ',' !in b
    ensures Split(a + ", ," + b, ',') == [a, " ", b]
  {
    var rest := " " + [','] + b;
    assert a + ", ," + b == a + [','] + rest;
    SplitAfterPiece(a, rest, ',');
    SplitAfterPiece(" ", b, ',');
    SplitNoSeparator(b, ',');
  }

  /** A blank entry between two URLs, and the spaces around it, are dropped. */
  lemma McpUrlsSkipsBlank(a: string, b: string)
    requires a != [] && Stripped(a) && ',' !in a
    requires b != [] && Stripped(b) && ',' !in b
    ensures McpUrls(a + ", ," + b) == [a, b]
  {
    SplitAroundBlank(a, b);
    var pieces := Map(Split(a + ", ," + b, ','), Strip);
    assert pieces[0] == a by {
      StripUnchanged(a);
    }
    assert pieces[1] == [] by {
      StripBlank();
    }
    assert pieces[2] == b by {
      StripUnchanged(b);
    }
    assert pieces == [a, [], b];
    DropBlank(a, b);
  }

  lemma StripBlank()
    ensures Strip(" ") == []
  {
    assert TrimStart(" ") == TrimStart(" "[1..]) == [];
  }

  lemma DropBlank(a: string, b: string)
    requires a != [] && b != []
    ensures Filter([a, [], b], NonEmpty) == [a, b]
  {
    var s := [a, [], b];
    FilterDropsOne(s, 1, NonEmpty);
    assert s[..1] == [a] && s[2..] == [b];
  }

  // ---------------------------------------------------------------- server names

  /** The host part of one URL: every "http://" and then every "https://"
      removed, then the text before the first ':', then before the first '/'. */
  function ServerName(url: string): (name: string)
    ensures ':' !in name && '/' !in name
  {
    var name := ReplaceAll(ReplaceAll(url, "http://", ""), "https://", "");
    var name := Split(name, ':')[0];
    var parts := Split(name, '/');
    assert parts[0] in parts;
    assert ':' !in parts[0] by {
      assert forall c :: c in parts[0] ==> c in name by {
        forall c | c in parts[0] ensures c in name {
          var k :| 0 <= k < |parts[0]| && parts[0][k] == c;
          assert name[k] == c;
        }
      }
    }
    parts[0]
  }

  /** The non-empty host names, in URL order. */
  function ServerNames(urls: seq<string>): (names: seq<string>)
    ensures |names| <= |urls|
    ensures forall k :: 0 <= k < |names| ==> names[k] != [] && ':' !in names[k] && '/' !in names[k]
  {
    var all := Map(urls, ServerName);
    assert forall n :: n in all ==> ':' !in n && '/' !in n;
    var names := Filter(all, NonEmpty);
    assert forall k :: 0 <= k < |names| ==> names[k] in names;
    names
  }

  /** `get_mcp_server_names` as it runs: one name per URL, appended when it
      is not empty. */
  method GetMcpServerNames(urlsText: string) returns (names: seq<string>)
    ensures names == ServerNames(McpUrls(urlsText))
  {
    var urls := McpUrls(urlsText);
    names := [];
    var i := 0;
    while i < |urls|
      invariant 0 <= i <= |urls|
      invariant names == Filter(Map(urls, ServerName)[..i], NonEmpty)
    {
      var url := urls[i];
      var name := ReplaceAll(ReplaceAll(url, "http://", ""), "https://", "");
      name := Split(name, ':')[0];
      name := Split(name, '/')[0];
      assert name == ServerName(url) == Map(urls, ServerName)[i];
      FilterSnoc(Map(urls, ServerName), i, NonEmpty);
      if name != [] {
        names := names + [name];
      }
      i := i + 1;
    }
    assert Map(urls, ServerName)[..i] == Map(urls, ServerName);
  }

  /** The first piece of a split ends at the first separator. */
  lemma SplitFirstPiece(s: string, sep: char, k: int)
    requires 0 <= k <= |s|
    requires sep !in s[..k]
    requires k == |s| || s[k] == sep
    ensures Split(s, sep)[0] == s[..k]
  {
    var first := Split(s, sep)[0];
    assert first in Split(s, sep);
    assert forall j :: 0 <= j < k ==> s[j] == s[..k][j] != sep;
    assert forall j :: 0 <= j < |first| ==> s[j] == first[j] != sep;
  }

  /** Cut at ':' and then at '/', a host followed by a port or a path gives
      back the host. */
  lemma ServerNameOfHttpsUrl(host: string, rest: string)
    requires ':' !in host && '/' !in host
    requires rest == [] || rest[0] == ':' || rest[0] == '/'
    requires !Contains(host + rest, "http://") && !Contains(host + rest, "https://")
    ensures ServerName("https://" + host + rest) == host
  {
    var x := host + rest;
    var pre, pat := "https://", "http://";
    var url := "https://" + host + rest;
    assert url == pre + x;
    // "http://" does not fit across the "https://" prefix either
    assert pre[..|pat|] != pat by {
      assert pre[..|pat|][4] == 's' != pat[4];
    }
    assert forall i :: 1 <= i < |pre| ==> pre[i] != pat[0];
    NotContainsAfterPrefix(pre, x, pat);
    ReplaceAllAbsent(url, pat, "");
    assert url[..|pre|] == pre && url[|pre|..] == x;
    ReplaceAllAbsent(x, pre, "");
    assert ReplaceAll(url, pre, "") == x;
    HostOfHostAndRest(host, rest);
  }

  lemma HostOfHostAndRest(host: string, rest: string)
    requires ':' !in host && '/' !in host
    requires rest == [] || rest[0] == ':' || rest[0] == '/'
    ensures Split(Split(host + rest, ':')[0], '/')[0] == host
  {
    var s := host + rest;
    assert s[..|host|] == host;
    var first := Split(s, ':')[0];
    var p := |first|;
    assert ':' !in first by {
      assert first in Split(s, ':');
    }
    assert forall j :: 0 <= j < |host| ==> s[j] == host[j] != ':';
    assert p >= |host|;
    assert first[..|host|] == host;
    if p == |host| {
      SplitFirstPiece(first, '/', |host|);
    } else {
      assert first[|host|] == s[|host|] == rest[0];
      assert rest[0] == '/';
      SplitFirstPiece(first, '/', |host|);
    }
  }

  /** The host of an "http://" URL whose remainder names no other scheme. */
  lemma ServerNameOfHttpUrl(host: string, rest: string)
    requires ':' !in host && '/' !in host
    requires rest == [] || rest[0] == ':' || rest[0] == '/'
    requires !Contains(host + rest, "http://") && !Contains(host + rest, "https://")
    ensures ServerName("http://" + host + rest) == host
  {
    var x := host + rest;
    var url := "http://" + host + rest;
    assert url == "http://" + x;
    assert url[..7] == "http://" && url[7..] == x;
    ReplaceAllAbsent(x, "http://", "");
    assert ReplaceAll(url, "http://", "") == x;
    ReplaceAllAbsent(x, "https://", "");
    HostOfHostAndRest(host, rest);
  }

  /** The documented example. */
  lemma WeatherToolName()
    ensures ServerName("http://weather-tool:8000/mcp") == "weather-tool"
  {
    var host, rest := "weather-tool", ":8000/mcp";
    assert "http://weather-tool:8000/mcp" == "http://" + host + rest;
    var x := host + rest;
    forall j | 0 <= j < |x| - 1 ensures !(x[j] == '/' && x[j + 1] == '/') {
    }
    NoPairNoMatch(x, "http://", 5);
    NoPairNoMatch(x, "https://", 6);
    ServerNameOfHttpUrl(host, rest);
  }

  // ---------------------------------------------------------------- client configuration

  /** One client entry: `{"url": url, "transport": transport}`. */
  datatype ClientConfig = ClientConfig(url: string, transport: string)

  /** The key of the `n`-th server, counted from 1. */
  function ServerKey(n: nat): string {
    "mcp" + IntToString(n)
  }

  /** Different servers get different keys. */
  lemma ServerKeyInjective(m: nat, n: nat)
    ensures ServerKey(m) == ServerKey(n) ==> m == n
  {
    if ServerKey(m) == ServerKey(n) {
      assert ServerKey(m)[3..] == IntToString(m);
      assert ServerKey(n)[3..] == IntToString(n);
      IntToStringInjective(m, n);
    }
  }

  /** The configuration for the first `|urls|` servers. */
  function ClientConfigs(urls: seq<string>, transport: string): (configs: map<string, ClientConfig>)
    ensures forall k :: k in configs ==> configs[k].transport == transport
  {
    if urls == [] then map[]
    else ClientConfigs(urls[..|urls| - 1], transport)[ServerKey(|urls|) := ClientConfig(urls[|urls| - 1], transport)]
  }

  /** The keys are "mcp1" up to "mcpN", and key "mcpK" holds the K-th URL with
      the configured transport. */
  lemma {:induction false} ClientConfigsExactly(urls: seq<string>, transport: string)
    ensures forall key :: key in ClientConfigs(urls, transport) <==> exists n :: 1 <= n <= |urls| && key == ServerKey(n)
    ensures forall n :: 1 <= n <= |urls| ==> (
              ServerKey(n) in ClientConfigs(urls, transport)
              && ClientConfigs(urls, transport)[ServerKey(n)] == ClientConfig(urls[n - 1], transport))
  {
    if urls != [] {
      var init := urls[..|urls| - 1];
      ClientConfigsExactly(init, transport);
      forall n | 1 <= n <= |urls|
        ensures ServerKey(n) in ClientConfigs(urls, transport)
        ensures ClientConfigs(urls, transport)[ServerKey(n)] == ClientConfig(urls[n - 1], transport)
      {
        ServerKeyInjective(n, |urls|);
        if n < |urls| {
          assert init[n - 1] == urls[n - 1];
        }
      }
      forall key | key in ClientConfigs(urls, transport)
        ensures exists n :: 1 <= n <= |urls| && key == ServerKey(n)
      {
        if key != ServerKey(|urls|) {
          assert key in ClientConfigs(init, transport);
        }
      }
    }
  }

  /** One entry per URL. */
  lemma {:induction false} ClientConfigCount(urls: seq<string>, transport: string)
    ensures |ClientConfigs(urls, transport)| == |urls|
  {
    if urls != [] {
      var init := urls[..|urls| - 1];
      ClientConfigCount(init, transport);
      ClientConfigsExactly(init, transport);
      if ServerKey(|urls|) in ClientConfigs(init, transport) {
        var n :| 1 <= n <= |init| && ServerKey(|urls|) == ServerKey(n);
        ServerKeyInjective(n, |urls|);
        assert false;
      }
    }
  }

  /** One more URL adds one entry. */
  lemma ClientConfigsSnoc(urls: seq<string>, i: nat, transport: string)
    requires i < |urls|
    ensures ClientConfigs(urls[..i + 1], transport)
         == ClientConfigs(urls[..i], transport)[ServerKey(i + 1) := ClientConfig(urls[i], transport)]
  {
    var front := urls[..i + 1];
    assert |front| == i + 1 && front[..i] == urls[..i] && front[i] == urls[i];
  }

  /** `get_mcpclient` as it runs: the configuration filled in one URL at a
      time. */
  method GetMcpClientConfigs(urlsText: string, transport: string) returns (configs: map<string, ClientConfig>)
    ensures configs == ClientConfigs(McpUrls(urlsText), transport)
  {
    var urls := McpUrls(urlsText);
    configs := map[];
    var i := 0;
    while i < |urls|
      invariant 0 <= i <= |urls|
      invariant configs == ClientConfigs(urls[..i], transport)
    {
      ClientConfigsSnoc(urls, i, transport);
      configs := configs[ServerKey(i + 1) := ClientConfig(urls[i], transport)];
      i := i + 1;
    }
    assert urls[..i] == urls;
  }
}
