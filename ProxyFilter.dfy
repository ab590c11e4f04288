/**
 * The filter engine of the free-proxy scraper (freeproxy.py): the caller's
 * settings, the anonymity check, the conjunction of filters every kept record
 * passes, and the proxy list gathered from all listing pages.
 */
module ProxyFilter {
  import opened Util
  import opened Strings
  import opened ProxyRecords

  /** The minimum anonymity a caller asks for. */
  datatype Anonymity = Transparent | Anonymous | Elite

  /** The protocol a caller asks for. */
  datatype Protocol = Http | Https | Socks4 | Socks5
  {
    /** The enum member's value: the URL scheme used for the proxy. */
    function Value(): string
    {
      match this
      case Http => "http"
      case Https => "https"
      case Socks4 => "socks4"
      case Socks5 => "socks5"
    }
  }

  /**
   * The settings the filter reads. A missing country or region list is the
   * empty list, which filters nothing.
   */
  datatype Config = Config(
    countries: seq<string>,
    regions: seq<string>,
    protocol: Protocol,
    anonymityLevel: Anonymity,
    googleCompatible: bool,
    maxProxies: int)

  /** The settings a scraper built with no arguments uses. */
  const DEFAULT_CONFIG: Config := Config([], [], Http, Transparent, false, 100)

  // ---------------------------------------------------------------- anonymity

  /**
   * Whether the anonymity text of a listing meets the level, ignoring case:
   * TRANSPARENT takes anything, ELITE wants "elite" or "high", ANONYMOUS
   * wants "anonymous".
   */
  function CheckAnonymity(level: Anonymity, anonymity: string): bool
  {
    var text := Lower(anonymity);
    match level
    case Elite => Contains(text, "elite") || Contains(text, "high")
    case Anonymous => Contains(text, "anonymous")
    case Transparent => true
  }

  /** The check ignores case: the text and its lower-case form get the same answer. */
  lemma CheckAnonymityIgnoresCase(level: Anonymity, anonymity: string)
    ensures CheckAnonymity(level, Lower(anonymity)) == CheckAnonymity(level, anonymity)
  {
    LowerIdempotent(anonymity);
  }

  /** TRANSPARENT accepts every text, the empty one included. */
  lemma TransparentAcceptsAll(anonymity: string)
    ensures CheckAnonymity(Transparent, anonymity)
  {
  }

  /** "Elite Proxy" passes ELITE and fails ANONYMOUS: the levels are not nested. */
  lemma EliteTextSample()
    ensures CheckAnonymity(Elite, "Elite Proxy")
    ensures !CheckAnonymity(Anonymous, "Elite Proxy")
  {
    LowerEliteProxy();
    EliteProxyWords();
  }

  lemma EliteProxyWords()
    ensures Contains("elite proxy", "elite") && !Contains("elite proxy", "anonymous")
  {
    ContainsAtIndex("elite proxy", "elite", 0);
    MissingCharNotContained("elite proxy", "anonymous", 'a');
  }

  lemma LowerEliteProxy()
    ensures Lower("Elite Proxy") == "elite proxy"
  {
    assert forall i :: 0 <= i < |"Elite Proxy"| ==> Lower("Elite Proxy")[i] == "elite proxy"[i];
  }

  /** "Anonymous" passes ANONYMOUS and fails ELITE. */
  lemma AnonymousTextSample()
    ensures CheckAnonymity(Anonymous, "Anonymous")
    ensures !CheckAnonymity(Elite, "Anonymous")
  {
    LowerAnonymous();
    AnonymousWords();
  }

  lemma AnonymousWords()
    ensures Contains("anonymous", "anonymous")
    ensures !Contains("anonymous", "elite") && !Contains("anonymous", "high")
  {
    ContainsSelf("anonymous");
    MissingCharNotContained("anonymous", "elite", 'e');
    MissingCharNotContained("anonymous", "high", 'h');
  }

  lemma LowerAnonymous()
    ensures Lower("Anonymous") == "anonymous"
  {
    assert forall i :: 0 <= i < |"Anonymous"| ==> Lower("Anonymous")[i] == "anonymous"[i];
  }

  // ---------------------------------------------------------------- protocols

  /** The upper-cased values of the protocols. */
  lemma ProtocolKeywords()
    ensures Upper(Http.Value()) == "HTTP"
    ensures Upper(Https.Value()) == "HTTPS"
    ensures Upper(Socks4.Value()) == "SOCKS4"
    ensures Upper(Socks5.Value()) == "SOCKS5"
  {
    assert forall i :: 0 <= i < 4 ==> Upper("http")[i] == "HTTP"[i];
    assert forall i :: 0 <= i < 5 ==> Upper("https")[i] == "HTTPS"[i];
    assert forall i :: 0 <= i < 6 ==> Upper("socks4")[i] == "SOCKS4"[i];
    assert forall i :: 0 <= i < 6 ==> Upper("socks5")[i] == "SOCKS5"[i];
  }

  /** The protocol names a parsed record can carry. */
  const RECORD_PROTOCOLS: set<string> := {"HTTP", "HTTPS", "SOCKS4", "SOCKS5"}

  /**
   * Among the protocol names, one contains another only when they are equal
   * or when HTTPS contains HTTP.
   */
  lemma ProtocolNamesContain(name: string, keyword: string)
    requires name in RECORD_PROTOCOLS && keyword in RECORD_PROTOCOLS
    ensures Contains(name, keyword) <==> name == keyword || (keyword == "HTTP" && name == "HTTPS")
  {
    if |name| == |keyword| {
      ContainsSameLength(name, keyword);
    } else if |name| < |keyword| {
      if Contains(name, keyword) {
        ContainsLength(name, keyword);
      }
    } else if name == "HTTPS" {
      ContainsAtIndex("HTTPS", "HTTP", 0);
    } else {
      MissingCharNotContained(name, keyword, 'H');
    }
  }

  /**
   * The protocol filter is a substring test: a record passes when its
   * protocol is the one asked for, and asking for HTTP also admits HTTPS.
   */
  lemma ProtocolFilter(c: Protocol, recordProtocol: string)
    requires recordProtocol in RECORD_PROTOCOLS
    ensures Contains(recordProtocol, Upper(c.Value())) <==>
      recordProtocol == Upper(c.Value()) || (c == Http && recordProtocol == "HTTPS")
  {
    ProtocolKeywords();
    ProtocolNamesContain(recordProtocol, Upper(c.Value()));
  }

  // ---------------------------------------------------------------- the filter

  /** Every filter a record must pass to be kept. */
  predicate Keep(cfg: Config, p: ProxyRecord)
  {
    && (cfg.countries == [] || p.code in cfg.countries)
    && (cfg.regions == [] || p.region in cfg.regions)
    && CheckAnonymity(cfg.anonymityLevel, p.anonymity)
    && (!cfg.googleCompatible || Lower(p.google) == "yes")
    && (cfg.protocol != Https || Lower(p.https) == "yes")
    && Contains(p.protocol, Upper(cfg.protocol.Value()))
  }

  /**
   * Asking for HTTPS keeps only records of the standard layout whose https
   * column is exactly "yes": the case-insensitive flag test alone would let
   * "Yes" through, but such a row was parsed as HTTP.
   */
  lemma HttpsKeepsOnlyHttps(cfg: Config, layout: Layout, p: ProxyRecord)
    requires cfg.protocol == Https && WellFormed(layout, p) && Keep(cfg, p)
    ensures layout == Standard && p.protocol == "HTTPS" && p.https == "yes"
  {
    ProtocolFilter(Https, p.protocol);
    ProtocolKeywords();
  }

  /**
   * With the default settings the only active filter is the protocol test
   * for HTTP, which every HTTP and HTTPS record passes and no SOCKS record does.
   */
  lemma DefaultKeepsHttp(p: ProxyRecord)
    requires p.protocol in RECORD_PROTOCOLS
    ensures Keep(DEFAULT_CONFIG, p) <==> p.protocol == "HTTP" || p.protocol == "HTTPS"
  {
    ProtocolFilter(Http, p.protocol);
    ProtocolKeywords();
  }

  /** The records of `ps` that pass every filter, in their order. */
  function Filter(cfg: Config, ps: seq<ProxyRecord>): (r: seq<ProxyRecord>)
    ensures |r| <= |ps|
    ensures forall p :: p in r <==> p in ps && Keep(cfg, p)
  {
    if ps == [] then []
    else if Keep(cfg, ps[0]) then [ps[0]] + Filter(cfg, ps[1..])
    else Filter(cfg, ps[1..])
  }

  /** Filtering keeps the input order. */
  lemma {:induction false} FilterSubsequence(cfg: Config, ps: seq<ProxyRecord>)
    ensures Subsequence(Filter(cfg, ps), ps)
  {
    if ps != [] {
      FilterSubsequence(cfg, ps[1..]);
      var rest := Filter(cfg, ps[1..]);
      if Keep(cfg, ps[0]) {
        assert Filter(cfg, ps)[1..] == rest;
      } else if rest != [] {
        assert rest[0] in ps[1..];
        assert rest[0] != ps[0];
      }
    }
  }

  /** Filtering distributes over concatenation. */
  lemma {:induction false} FilterAppend(cfg: Config, a: seq<ProxyRecord>, b: seq<ProxyRecord>)
    ensures Filter(cfg, a + b) == Filter(cfg, a) + Filter(cfg, b)
  {
    if a != [] {
      assert (a + b)[1..] == a[1..] + b;
      FilterAppend(cfg, a[1..], b);
    } else {
      assert a + b == b;
    }
  }

  /** A list whose every record passes the filters is returned whole. */
  lemma {:induction false} FilterAllKept(cfg: Config, ps: seq<ProxyRecord>)
    requires forall p :: p in ps ==> Keep(cfg, p)
    ensures Filter(cfg, ps) == ps
  {
    if ps != [] {
      FilterAllKept(cfg, ps[1..]);
    }
  }

  /** Filtering twice with the same settings is filtering once. */
  lemma FilterIdempotent(cfg: Config, ps: seq<ProxyRecord>)
    ensures Filter(cfg, Filter(cfg, ps)) == Filter(cfg, ps)
  {
    FilterAllKept(cfg, Filter(cfg, ps));
  }

  /** One more record filtered: it is appended when it passes every filter. */
  lemma FilterStep(cfg: Config, ps: seq<ProxyRecord>, i: int)
    requires 0 <= i < |ps|
    ensures Filter(cfg, ps[..i + 1]) == Filter(cfg, ps[..i]) + if Keep(cfg, ps[i]) then [ps[i]] else []
  {
    assert ps[..i + 1] == ps[..i] + [ps[i]];
    FilterAppend(cfg, ps[..i], [ps[i]]);
  }

  /** The filter loop: each record that passes every check is appended. */
  method FilterProxies(cfg: Config, proxies: seq<ProxyRecord>) returns (filtered: seq<ProxyRecord>)
    ensures filtered == Filter(cfg, proxies)
  {
    filtered := [];
    for i := 0 to |proxies|
      invariant filtered == Filter(cfg, proxies[..i])
    {
      var proxy := proxies[i];
      FilterStep(cfg, proxies, i);
      if cfg.countries != [] && proxy.code !in cfg.countries {
        continue;
      }
      if cfg.regions != [] && proxy.region !in cfg.regions {
        continue;
      }
      if !CheckAnonymity(cfg.anonymityLevel, proxy.anonymity) {
        continue;
      }
      if cfg.googleCompatible && Lower(proxy.google) != "yes" {
        continue;
      }
      if cfg.protocol == Https && Lower(proxy.https) != "yes" {
        continue;
      }
      if !Contains(proxy.protocol, Upper(cfg.protocol.Value())) {
        continue;
      }
      filtered := filtered + [proxy];
    }
    assert proxies[..|proxies|] == proxies;
  }

  // ---------------------------------------------------------------- all pages

  /** The network fetch of one listing page: its table rows, or None on a request error. */
  type Fetch = string -> Option<seq<Row>>

  /** The records one page contributes; a page that failed contributes none. */
  function PageRecords(fetch: Fetch, source: string): seq<ProxyRecord>
  {
    match fetch(source)
    case None => []
    case Some(rows) => ParseRows(source, rows)
  }

  /** The records of the named pages, page after page, given each page's records. */
  function Collect(page: string -> seq<ProxyRecord>, sources: seq<string>): seq<ProxyRecord>
  {
    if sources == [] then [] else page(sources[0]) + Collect(page, sources[1..])
  }

  lemma {:induction false} CollectAppend(page: string -> seq<ProxyRecord>, sources: seq<string>, source: string)
    ensures Collect(page, sources + [source]) == Collect(page, sources) + page(source)
  {
    if sources == [] {
      assert sources + [source] == [source];
      assert [source][1..] == [];
    } else {
      assert (sources + [source])[1..] == sources[1..] + [source];
      CollectAppend(page, sources[1..], source);
    }
  }

  /** A record is collected exactly when some named page holds it. */
  lemma {:induction false} CollectMembers(page: string -> seq<ProxyRecord>, sources: seq<string>, p: ProxyRecord)
    ensures p in Collect(page, sources) <==> exists i :: 0 <= i < |sources| && p in page(sources[i])
  {
    if sources != [] {
      CollectMembers(page, sources[1..], p);
      if exists i :: 0 <= i < |sources| && p in page(sources[i]) {
        var i :| 0 <= i < |sources| && p in page(sources[i]);
        if i > 0 {
          assert sources[1..][i - 1] == sources[i];
        }
      }
      if p in Collect(page, sources[1..]) {
        var i :| 0 <= i < |sources[1..]| && p in page(sources[1..][i]);
        assert sources[i + 1] == sources[1..][i];
      }
    }
  }

  /** The records of every listing page, in page order then row order. */
  function AllRecords(fetch: Fetch): seq<ProxyRecord>
  {
    Collect(source => PageRecords(fetch, source), SOURCES)
  }

  /** The proxy list: the filtered records of all pages, cut to `maxProxies` as a Python slice. */
  function ProxyList(cfg: Config, fetch: Fetch): seq<ProxyRecord>
  {
    SliceTo(Filter(cfg, AllRecords(fetch)), cfg.maxProxies)
  }

  /**
   * With a non-negative bound, the list is the first `min(maxProxies, n)`
   * of the `n` records that pass the filters, in page order then row order.
   */
  lemma ProxyListPrefix(cfg: Config, fetch: Fetch)
    requires cfg.maxProxies >= 0
    ensures var filtered := Filter(cfg, AllRecords(fetch));
      && |ProxyList(cfg, fetch)| == Min(cfg.maxProxies, |filtered|)
      && ProxyList(cfg, fetch) == filtered[..|ProxyList(cfg, fetch)|]
  {
  }

  /**
   * Every listed record passes the filters and was parsed from a row of a
   * page that answered.
   */
  lemma ProxyListProvenance(cfg: Config, fetch: Fetch, p: ProxyRecord)
    requires p in ProxyList(cfg, fetch)
    ensures Keep(cfg, p)
    ensures exists i, j ::
      && 0 <= i < |SOURCES| && fetch(SOURCES[i]).Some?
      && 0 <= j < |fetch(SOURCES[i]).value| && ParseRow(fetch(SOURCES[i]).value[j], SOURCES[i]) == Some(p)
  {
    var filtered := Filter(cfg, AllRecords(fetch));
    assert p in filtered;
    CollectMembers(source => PageRecords(fetch, source), SOURCES, p);
    var i :| 0 <= i < |SOURCES| && p in PageRecords(fetch, SOURCES[i]);
    var rows := fetch(SOURCES[i]).value;
    ParseRowsMembers(SOURCES[i], rows, p);
  }

  /** With the default settings the list holds at most 100 proxies. */
  lemma DefaultListBound(fetch: Fetch)
    ensures |ProxyList(DEFAULT_CONFIG, fetch)| <= 100
  {
    ProxyListPrefix(DEFAULT_CONFIG, fetch);
  }

  /** The loop over the pages: records of each page that answered are gathered, then filtered and cut. */
  method GetProxyList(cfg: Config, fetch: Fetch) returns (proxies: seq<ProxyRecord>)
    ensures proxies == ProxyList(cfg, fetch)
  {
    ghost var page := source => PageRecords(fetch, source);
    var all: seq<ProxyRecord> := [];
    for i := 0 to |SOURCES|
      invariant all == Collect(page, SOURCES[..i])
    {
      var name := SOURCES[i];
      assert SOURCES[..i + 1] == SOURCES[..i] + [name];
      CollectAppend(page, SOURCES[..i], name);
      var fetched := fetch(name);
      if fetched.None? {
        continue;
      }
      var parsed := ParseSource(fetched.value, name);
      all := all + parsed;
    }
    assert SOURCES[..|SOURCES|] == SOURCES;
    var filtered := FilterProxies(cfg, all);
    proxies := SliceTo(filtered, cfg.maxProxies);
  }
}
