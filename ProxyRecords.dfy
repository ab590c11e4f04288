/**
 * The row parser of the free-proxy scraper (freeproxy.py): table rows of the
 * listing pages, given as lists of trimmed cell texts, become proxy records in
 * one of two column layouts, each with a region derived from a static table.
 */
module ProxyRecords {
  import opened Util
  import opened Strings

  /** The trimmed texts of the cells of one table row. */
  type Row = seq<string>

  /** One proxy listing, with the keys of the dictionary the scraper builds. */
  datatype ProxyRecord = ProxyRecord(
    ip: string,
    port: string,
    code: string,
    country: string,
    protocol: string,
    anonymity: string,
    https: string,
    google: string,
    lastChecked: string,
    region: string)

  /** The listing pages by name, in the order they are visited. */
  const SOURCES: seq<string> :=
    ["sslproxies", "us-proxy", "uk-proxy", "socks-proxy", "anonymous-proxy", "general"]

  /** The two column layouts of the listing tables. */
  datatype Layout = Standard | Socks

  /** A source whose name contains "socks-proxy" uses the SOCKS layout. */
  function LayoutOf(source: string): Layout
  {
    if Contains(source, "socks-proxy") then Socks else Standard
  }

  /** Only the "socks-proxy" page among the six uses the SOCKS layout. */
  lemma SourceLayouts()
    ensures forall k :: 0 <= k < |SOURCES| ==>
      (LayoutOf(SOURCES[k]) == Socks <==> SOURCES[k] == "socks-proxy")
  {
    forall k | 0 <= k < |SOURCES|
      ensures LayoutOf(SOURCES[k]) == Socks <==> SOURCES[k] == "socks-proxy"
    {
      var name := SOURCES[k];
      if k == 3 {
        ContainsSelf(name);
      } else {
        assert 'c' !in name;
        MissingCharNotContained(name, "socks-proxy", 'c');
      }
    }
  }

  // ---------------------------------------------------------------- regions

  /** The region table, in the order the lookup scans it. */
  const REGION_TABLE: seq<(string, seq<string>)> := [
    ("North America", ["US", "CA", "MX"]),
    ("Europe", ["GB", "DE", "FR", "IT", "ES"]),
    ("Asia", ["CN", "JP", "KR", "IN"]),
    ("South America", ["BR", "AR", "CL"])
  ]

  const REGION_NAMES: set<string> :=
    {"North America", "Europe", "Asia", "South America", "Other"}

  /**
   * Scan a region table in order: the name of the first region whose codes
   * list `country` exactly, or "Other" when no region lists it.
   */
  function RegionIn(table: seq<(string, seq<string>)>, country: string): (r: string)
    ensures r == "Other" || exists k :: 0 <= k < |table| && r == table[k].0
  {
    if table == [] then "Other"
    else if country in table[0].1 then table[0].0
    else
      var r := RegionIn(table[1..], country);
      assert r != "Other" ==> exists k :: 0 <= k < |table| && r == table[k].0 by {
        if r != "Other" {
          var k :| 0 <= k < |table[1..]| && r == table[1..][k].0;
          assert r == table[k + 1].0;
        }
      }
      r
  }

  /** The scan answers with the first region that lists the code. */
  lemma {:induction false} RegionInFirst(table: seq<(string, seq<string>)>, country: string, k: int)
    requires 0 <= k < |table| && country in table[k].1
    requires forall j :: 0 <= j < k ==> country !in table[j].1
    ensures RegionIn(table, country) == table[k].0
  {
    if k > 0 {
      assert country !in table[0].1;
      forall j | 0 <= j < k - 1
        ensures country !in table[1..][j].1
      {
        assert table[1..][j] == table[j + 1];
      }
      RegionInFirst(table[1..], country, k - 1);
    }
  }

  /** A code that no region lists gives "Other". */
  lemma {:induction false} RegionInNone(table: seq<(string, seq<string>)>, country: string)
    requires forall k :: 0 <= k < |table| ==> country !in table[k].1
    ensures RegionIn(table, country) == "Other"
  {
    if table != [] {
      assert country !in table[0].1;
      forall k | 0 <= k < |table| - 1
        ensures country !in table[1..][k].1
      {
        assert table[1..][k] == table[k + 1];
      }
      RegionInNone(table[1..], country);
    }
  }

  /** The region of a country code; total, with an answer from a closed set. */
  function DetectRegion(country: string): (r: string)
    ensures r in REGION_NAMES
  {
    RegionIn(REGION_TABLE, country)
  }

  /** No code is listed under two regions. */
  lemma RegionTableDisjoint(country: string, j: int, k: int)
    requires 0 <= j < k < |REGION_TABLE| && country in REGION_TABLE[k].1
    ensures country !in REGION_TABLE[j].1
  {
  }

  /** Each listed code maps to the region that lists it; every other string is "Other". */
  lemma DetectRegionTable(country: string)
    ensures forall k :: 0 <= k < |REGION_TABLE| && country in REGION_TABLE[k].1 ==>
      DetectRegion(country) == REGION_TABLE[k].0
    ensures (forall k :: 0 <= k < |REGION_TABLE| ==> country !in REGION_TABLE[k].1) ==>
      DetectRegion(country) == "Other"
  {
    forall k | 0 <= k < |REGION_TABLE| && country in REGION_TABLE[k].1
      ensures DetectRegion(country) == REGION_TABLE[k].0
    {
      forall j | 0 <= j < k
        ensures country !in REGION_TABLE[j].1
      {
        RegionTableDisjoint(country, j, k);
      }
      RegionInFirst(REGION_TABLE, country, k);
    }
    if forall k :: 0 <= k < |REGION_TABLE| ==> country !in REGION_TABLE[k].1 {
      RegionInNone(REGION_TABLE, country);
    }
  }

  /** Every code of the region table is two upper-case letters. */
  lemma RegionCodesUpper(k: int, code: string)
    requires 0 <= k < |REGION_TABLE| && code in REGION_TABLE[k].1
    ensures |code| == 2 && IsUpperChar(code[0]) && IsUpperChar(code[1])
  {
  }

  /** The region table lists upper-case codes only, so no lower-cased string has a region. */
  lemma LowercaseIsOther(s: string)
    ensures DetectRegion(Lower(s)) == "Other"
  {
    var c := Lower(s);
    forall k | 0 <= k < |REGION_TABLE|
      ensures c !in REGION_TABLE[k].1
    {
      if c in REGION_TABLE[k].1 {
        RegionCodesUpper(k, c);
        LowerHasNoUpper(s, 0);
      }
    }
    DetectRegionTable(c);
  }

  // ---------------------------------------------------------------- rows

  /**
   * What a parsed record always satisfies: its region comes from its
   * country column, and its protocol and https flag agree as its layout
   * derives them.
   */
  predicate WellFormed(layout: Layout, p: ProxyRecord)
  {
    && p.region == DetectRegion(p.country)
    && match layout
       case Standard => p.protocol == (if p.https == "yes" then "HTTPS" else "HTTP")
       case Socks =>
         || (p.protocol == "SOCKS5" && p.https == "yes")
         || (p.protocol == "SOCKS4" && (p.https == "yes" || p.https == "no"))
  }

  /** A protocol text naming SOCKS5 also names SOCKS, so the https flag is "yes". */
  lemma Socks5IsSocks(kind: string)
    requires Contains(kind, "socks5")
    ensures Contains(kind, "socks")
  {
    assert OccursAt("socks5", "socks", 0);
    ContainsAtIndex("socks5", "socks", 0);
    ContainsTransitive(kind, "socks5", "socks");
  }

  /** The protocol a SOCKS page's protocol cell names. */
  function SocksProtocol(kind: string): string
  {
    if Contains(Lower(kind), "socks5") then "SOCKS5" else "SOCKS4"
  }

  /** The https flag a SOCKS page's protocol cell gives. */
  function SocksHttps(kind: string): string
  {
    if Contains(Lower(kind), "socks") then "yes" else "no"
  }

  /** A cell that gives SOCKS5 also gives the https flag "yes". */
  lemma SocksProtocolHttps(kind: string)
    ensures SocksProtocol(kind) == "SOCKS5" ==> SocksHttps(kind) == "yes"
  {
    if Contains(Lower(kind), "socks5") {
      Socks5IsSocks(Lower(kind));
    }
  }

  /**
   * One table row as a record, or None when the row has fewer than eight
   * cells. The region is looked up from the country-name column (cell 3).
   */
  function ParseRow(cells: Row, source: string): (r: Option<ProxyRecord>)
    ensures r.None? <==> |cells| < 8
    ensures r.Some? ==> WellFormed(LayoutOf(source), r.value)
  {
    if |cells| < 8 then None
    else if LayoutOf(source) == Socks then
      SocksProtocolHttps(cells[4]);
      Some(ProxyRecord(cells[0], cells[1], cells[2], cells[3], SocksProtocol(cells[4]),
                       cells[5], SocksHttps(cells[4]), cells[6], cells[7], DetectRegion(cells[3])))
    else
      var protocol := if cells[6] == "yes" then "HTTPS" else "HTTP";
      Some(ProxyRecord(cells[0], cells[1], cells[2], cells[3], protocol,
                       cells[4], cells[6], cells[5], cells[7], DetectRegion(cells[3])))
  }

  /** The protocol cell a SOCKS page would show for a record. */
  function SocksKind(p: ProxyRecord): string
  {
    if p.protocol == "SOCKS5" then "socks5" else if p.https == "yes" then "socks4" else ""
  }

  /** The cell "socks5" gives SOCKS5 with https "yes". */
  lemma KindSocks5()
    ensures SocksProtocol("socks5") == "SOCKS5" && SocksHttps("socks5") == "yes"
  {
    LowerOfLowercase("socks5");
    ContainsSelf("socks5");
    Socks5IsSocks("socks5");
  }

  /** The cell "socks4" gives SOCKS4 with https "yes". */
  lemma KindSocks4()
    ensures SocksProtocol("socks4") == "SOCKS4" && SocksHttps("socks4") == "yes"
  {
    LowerOfLowercase("socks4");
    MissingCharNotContained("socks4", "socks5", '5');
    assert OccursAt("socks4", "socks", 0);
    ContainsAtIndex("socks4", "socks", 0);
  }

  /** An empty cell gives SOCKS4 with https "no". */
  lemma KindEmpty()
    ensures SocksProtocol("") == "SOCKS4" && SocksHttps("") == "no"
  {
    assert Lower("") == "";
    MissingCharNotContained("", "socks5", 's');
    MissingCharNotContained("", "socks", 's');
  }

  /** The rendered protocol cell of a well-formed SOCKS record gives its protocol and flag back. */
  lemma SocksKindRoundTrip(p: ProxyRecord)
    requires WellFormed(Socks, p)
    ensures SocksProtocol(SocksKind(p)) == p.protocol && SocksHttps(SocksKind(p)) == p.https
  {
    if p.protocol == "SOCKS5" {
      KindSocks5();
    } else if p.https == "yes" {
      KindSocks4();
    } else {
      KindEmpty();
    }
  }

  /** A record written back as a table row of the given layout. */
  function RenderRow(layout: Layout, p: ProxyRecord): (cells: Row)
    ensures |cells| == 8
  {
    match layout
    case Standard =>
      [p.ip, p.port, p.code, p.country, p.anonymity, p.google, p.https, p.lastChecked]
    case Socks =>
      [p.ip, p.port, p.code, p.country, SocksKind(p), p.anonymity, p.google, p.lastChecked]
  }

  /** Parsing loses nothing: every well-formed record is parsed back from its row. */
  lemma ParseRenderRoundTrip(source: string, p: ProxyRecord)
    requires WellFormed(LayoutOf(source), p)
    ensures ParseRow(RenderRow(LayoutOf(source), p), source) == Some(p)
  {
    if LayoutOf(source) == Socks {
      SocksKindRoundTrip(p);
    }
  }

  /**
   * The record holds every cell of its row but the SOCKS protocol cell, and
   * the row rendered from it parses to the same record.
   */
  lemma RenderParseRoundTrip(cells: Row, source: string)
    requires |cells| >= 8
    ensures LayoutOf(source) == Standard ==>
      RenderRow(Standard, ParseRow(cells, source).value) == cells[..8]
    ensures LayoutOf(source) == Socks ==>
      && RenderRow(Socks, ParseRow(cells, source).value)[..4] == cells[..4]
      && RenderRow(Socks, ParseRow(cells, source).value)[5..] == cells[5..8]
    ensures ParseRow(RenderRow(LayoutOf(source), ParseRow(cells, source).value), source)
         == ParseRow(cells, source)
  {
    ParseRenderRoundTrip(source, ParseRow(cells, source).value);
  }

  /** The SOCKS layout: protocol and https flag from cell 4, the rest from cells 5 to 7. */
  lemma ParseSocksRow(cells: Row, source: string)
    requires |cells| >= 8 && Contains(source, "socks-proxy")
    ensures ParseRow(cells, source).Some?
    ensures ParseRow(cells, source).value.protocol == "SOCKS5" <==> Contains(Lower(cells[4]), "socks5")
    ensures ParseRow(cells, source).value.protocol == "SOCKS4" <==> !Contains(Lower(cells[4]), "socks5")
    ensures ParseRow(cells, source).value.https == "yes" <==> Contains(Lower(cells[4]), "socks")
    ensures ParseRow(cells, source).value.https == "no" <==> !Contains(Lower(cells[4]), "socks")
    ensures ParseRow(cells, source).value.anonymity == cells[5]
    ensures ParseRow(cells, source).value.google == cells[6]
    ensures ParseRow(cells, source).value.lastChecked == cells[7]
    ensures ParseRow(cells, source).value.region == DetectRegion(cells[3])
  {
  }

  /** The standard layout: the https column decides the protocol, case-sensitively. */
  lemma ParseStandardRow(cells: Row, source: string)
    requires |cells| >= 8 && !Contains(source, "socks-proxy")
    ensures ParseRow(cells, source).Some?
    ensures ParseRow(cells, source).value.https == cells[6]
    ensures ParseRow(cells, source).value.protocol == "HTTPS" <==> cells[6] == "yes"
    ensures ParseRow(cells, source).value.protocol == "HTTP" <==> cells[6] != "yes"
    ensures ParseRow(cells, source).value.anonymity == cells[4]
    ensures ParseRow(cells, source).value.google == cells[5]
    ensures ParseRow(cells, source).value.region == DetectRegion(cells[3])
  {
  }

  /** A country name is not a code of the region table. */
  lemma CountryNameIsOther(name: string)
    requires |name| != 2
    ensures DetectRegion(name) == "Other"
  {
    forall k | 0 <= k < |REGION_TABLE|
      ensures name !in REGION_TABLE[k].1
    {
      if name in REGION_TABLE[k].1 {
        RegionCodesUpper(k, name);
      }
    }
    DetectRegionTable(name);
  }

  /**
   * A sample SOCKS row: the country-name column "United States" gives the
   * region "Other", though the code column says "US".
   */
  lemma SampleSocksRow()
    ensures ParseRow(["1.2.3.4", "1080", "US", "United States", "SOCKS5", "anonymous", "yes", "2024-01-01"],
                     "socks-proxy")
         == Some(ProxyRecord("1.2.3.4", "1080", "US", "United States", "SOCKS5", "anonymous", "yes", "yes",
                             "2024-01-01", "Other"))
  {
    ContainsSelf("socks-proxy");
    assert forall i :: 0 <= i < 6 ==> LowerChar("SOCKS5"[i]) == "socks5"[i];
    assert Lower("SOCKS5") == "socks5";
    ContainsSelf("socks5");
    Socks5IsSocks("socks5");
    CountryNameIsOther("United States");
  }

  /** A sample standard row: "yes" in the https column gives HTTPS; "Germany" gives "Other". */
  lemma SampleStandardRow()
    ensures ParseRow(["5.6.7.8", "8080", "DE", "Germany", "elite proxy", "yes", "yes", "2024-01-01"],
                     "general")
         == Some(ProxyRecord("5.6.7.8", "8080", "DE", "Germany", "HTTPS", "elite proxy", "yes", "yes",
                             "2024-01-01", "Other"))
  {
    MissingCharNotContained("general", "socks-proxy", 'c');
    CountryNameIsOther("Germany");
  }

  // ---------------------------------------------------------------- pages

  /** The records of a page's rows: the rows that parse, in row order. */
  function ParseRows(source: string, rows: seq<Row>): seq<ProxyRecord>
  {
    if rows == [] then []
    else
      var rest := ParseRows(source, rows[1..]);
      match ParseRow(rows[0], source)
      case Some(p) => [p] + rest
      case None => rest
  }

  /** The rows with at least the eight cells a record needs, in order. */
  function LongRows(rows: seq<Row>): (r: seq<Row>)
    ensures forall row :: row in r ==> |row| >= 8
  {
    if rows == [] then []
    else if |rows[0]| >= 8 then [rows[0]] + LongRows(rows[1..])
    else LongRows(rows[1..])
  }

  lemma {:induction false} ParseRowsAppend(source: string, rows: seq<Row>, row: Row)
    ensures ParseRows(source, rows + [row])
         == ParseRows(source, rows) + (if |row| >= 8 then [ParseRow(row, source).value] else [])
  {
    if rows != [] {
      assert (rows + [row])[1..] == rows[1..] + [row];
      ParseRowsAppend(source, rows[1..], row);
    }
  }

  /** The long rows are a subsequence of the rows that holds every long row. */
  lemma {:induction false} LongRowsSpec(rows: seq<Row>)
    ensures Subsequence(LongRows(rows), rows)
    ensures forall row :: row in rows && |row| >= 8 ==> row in LongRows(rows)
  {
    if rows != [] {
      LongRowsSpec(rows[1..]);
      assert forall row :: row in rows ==> row == rows[0] || row in rows[1..];
      if |rows[0]| >= 8 {
        assert LongRows(rows)[1..] == LongRows(rows[1..]);
      }
    }
  }

  /** Rows known to have eight or more cells, each parsed. */
  function ParseAll(source: string, rows: seq<Row>): (r: seq<ProxyRecord>)
    requires forall row :: row in rows ==> |row| >= 8
    ensures |r| == |rows|
  {
    if rows == [] then [] else [ParseRow(rows[0], source).value] + ParseAll(source, rows[1..])
  }

  /** Each record of `ParseAll` is the parse of the row at its index. */
  lemma {:induction false} ParseAllIndex(source: string, rows: seq<Row>, k: int)
    requires forall row :: row in rows ==> |row| >= 8
    requires 0 <= k < |rows|
    ensures Some(ParseAll(source, rows)[k]) == ParseRow(rows[k], source)
  {
    if k > 0 {
      assert rows[1..][k - 1] == rows[k];
      ParseAllIndex(source, rows[1..], k - 1);
    }
  }

  /**
   * A page keeps exactly the rows with eight or more cells, in row order,
   * each parsed.
   */
  lemma {:induction false} ParseRowsSpec(source: string, rows: seq<Row>)
    ensures ParseRows(source, rows) == ParseAll(source, LongRows(rows))
  {
    if rows != [] {
      ParseRowsSpec(source, rows[1..]);
      if |rows[0]| >= 8 {
        assert LongRows(rows) == [rows[0]] + LongRows(rows[1..]);
      }
    }
  }

  /** A record comes from a page exactly when some row of it parses to that record. */
  lemma {:induction false} ParseRowsMembers(source: string, rows: seq<Row>, p: ProxyRecord)
    ensures p in ParseRows(source, rows) <==>
      exists j :: 0 <= j < |rows| && ParseRow(rows[j], source) == Some(p)
  {
    if rows != [] {
      ParseRowsMembers(source, rows[1..], p);
      if exists j :: 0 <= j < |rows| && ParseRow(rows[j], source) == Some(p) {
        var j :| 0 <= j < |rows| && ParseRow(rows[j], source) == Some(p);
        if j > 0 {
          assert rows[1..][j - 1] == rows[j];
        }
      }
      if p in ParseRows(source, rows[1..]) {
        var j :| 0 <= j < |rows[1..]| && ParseRow(rows[1..][j], source) == Some(p);
        assert rows[j + 1] == rows[1..][j];
      }
    }
  }

  /** A page never yields more records than it has rows. */
  lemma ParseRowsBound(source: string, rows: seq<Row>)
    ensures |ParseRows(source, rows)| <= |rows|
  {
    ParseRowsSpec(source, rows);
    LongRowsSpec(rows);
    SubsequenceElements(LongRows(rows), rows);
  }

  /** The row loop of the page parser: each row that parses is appended. */
  method ParseSource(rows: seq<Row>, source: string) returns (proxies: seq<ProxyRecord>)
    ensures proxies == ParseRows(source, rows)
  {
    proxies := [];
    for i := 0 to |rows|
      invariant proxies == ParseRows(source, rows[..i])
    {
      var proxy := ParseRow(rows[i], source);
      assert rows[..i + 1] == rows[..i] + [rows[i]];
      ParseRowsAppend(source, rows[..i], rows[i]);
      if proxy.Some? {
        proxies := proxies + [proxy.value];
      }
    }
    assert rows[..|rows|] == rows;
  }
}
