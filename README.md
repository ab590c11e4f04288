# FreeProxy and the reCAPTCHA target matcher in Dafny

This project models the core of FreeProxy, a free-proxy scraper, and proves properties of the model.

- **Fetch and parse.** FreeProxy reads the HTML tables of six public proxy-list sites. Each table row is normalised into one record schema. Two row layouts exist: the SOCKS layout, used by the `socks-proxy` source, and the standard layout, used by every other source. Each record gets a coarse region.
- **Filter.** The records are filtered by country list, region list, minimum anonymity, Google compatibility and protocol. The result is cut to at most `max_proxies` records.
- **Rotate and retry.** `get` optionally shuffles the candidates and tests them in order through the proxy map. It returns the first proxy that passes. If none passes, it turns randomisation on and runs the whole fetch-filter-test round again, until the retry budget is spent. Then it raises "No working proxies found".

The project also models the decision logic of the YOLO-based reCAPTCHA helper:

- the class-name → YOLO class-id table;
- `matches_target`, which decides whether some detection matches the requested object;
- the extraction of the object's name from the challenge text "Select all images with X."

## Files

| file | contents |
|---|---|
| `Util.dfy` | `Option`, `Result`, `Min`, `Max`, subsequences, and Python's slice `xs[:m]` (`SliceTo`) |
| `Strings.dfy` | ASCII `lower()`/`upper()`, Python's substring `in` (`Contains`), `split(sep)[-1]` (`SplitLast`), `split(sep)[0]` (`SplitFirst`) |
| `ProxyRecords.dfy` | the record, the source table, `_detect_region`, `_parse_row` and the row loop of `_parse_source` |
| `ProxyFilter.dfy` | the configuration, `_check_anonymity`, `_filter_proxies` and `get_proxy_list` |
| `ProxyRotation.dfy` | the proxy map, `_test_proxy`, the retry logic of `get`, and the `FreeProxy` object whose `randomize` flag `get` updates |
| `YoloSolver.dfy` | `class_mappings`, `matches_target` and the target-text extraction |

### How the outside world is modelled

The model performs no I/O. What the program reads from the outside becomes a parameter:

- **Pages.** `fetch(source)` gives the table rows of one source's page (as lists of stripped cell texts). It gives `None` when the request raised a `RequestException`, the only error the page loop absorbs (freeproxy.py:99-100). Errors the loop does not absorb are listed under "## Left out".
- **Shuffle.** `shuffle` is an arbitrary function on lists. The lemmas that need it to be a permutation say so with the `ShufflePermutes` precondition.
- **Test responses.** `respond(proxyMap)` says whether the test request raised, or gives its status code and body.

Every round of `get` re-fetches the pages and re-tests the proxies. So in `Env` these oracles are indexed by the retry budget of the round that uses them.

### Region lookup quirk

The region is looked up with the country-name column: `_detect_region(proxy['country'])` (freeproxy.py:151). The region table lists two-letter codes (freeproxy.py:194-199). So for a real listing row the region is "Other": a row with country "United States" gets "Other", and so does one with "Germany". The model does what the code does:

- `ProxyRecords.SampleSocksRow` and `ProxyRecords.SampleStandardRow` prove that these rows get "Other".
- `ProxyRecords.CountryNameIsOther` proves that any country text whose length is not 2 maps to "Other".

### Anonymity level quirk

`anonymity_level` reads like a minimum level, but the ANONYMOUS level accepts only texts containing "anonymous" (freeproxy.py:188-189). An elite listing ("elite proxy") is therefore rejected when ANONYMOUS is asked for. The model keeps this behaviour: `ProxyFilter.EliteTextSample` proves that "Elite Proxy" passes the ELITE level and fails the ANONYMOUS level.

### Defaults

A scraper built with no arguments uses `ProxyFilter.DEFAULT_CONFIG` (freeproxy.py:62-70). Its filter keeps exactly the HTTP and HTTPS records (`ProxyFilter.DefaultKeepsHttp`), and its list holds at most 100 proxies (`ProxyFilter.DefaultListBound`). The scraper shuffles by default (`ProxyRotation.DEFAULT_RANDOMIZE`, freeproxy.py:69); `ProxyRotation.FreeProxy.Default` builds such a scraper. `get` defaults to three retries (`ProxyRotation.DEFAULT_MAX_RETRIES`, freeproxy.py:205), so it runs at most four rounds (`ProxyRotation.DefaultRounds`).

## Model

| member | source | states |
|---|---|---|
| `Util.SliceTo` | freeproxy.py:102 | `xs[:m]` is a prefix of `xs`. For `m >= 0` its length is `min(m, len(xs))`. For negative `m` it drops the last `-m` elements. |
| `Strings.SplitLastSpec` | yolo_solver.py:160 | `s.split(sep)[-1]` is a suffix of `s` with no occurrence of `sep`. When `sep` occurs in `s`, it is preceded by `sep`. Otherwise it is all of `s`. |
| `Strings.SplitLastAfter` | yolo_solver.py:160 | For a separator that cannot overlap itself, `(p + sep + y).split(sep)[-1] == y` whenever `y` has no `sep`. |
| `Strings.SplitFirstSpec` | yolo_solver.py:160 | `s.split(sep)[0]` is a prefix of `s` that is followed by `sep` when `sep` occurs in `s`, and is all of `s` otherwise |
| `Strings.SplitFirstBefore` | yolo_solver.py:160 | `(x + c + q).split(c)[0] == x` whenever `x` has no `c` |
| `ProxyRecords.LayoutOf` | freeproxy.py:126 | the layout chosen for a source name; `SourceLayouts` proves that exactly `socks-proxy` gets the SOCKS layout |
| `ProxyRecords.SourceLayouts` | freeproxy.py:51-58 | of the six sources, exactly `socks-proxy` uses the SOCKS column layout |
| `ProxyRecords.DetectRegion` | freeproxy.py:192-203 | the region is always one of North America, Europe, Asia, South America, Other |
| `ProxyRecords.DetectRegionTable` | freeproxy.py:194-203 | A string listed under a region's codes gets that region. A string listed nowhere gets "Other". |
| `ProxyRecords.RegionTableDisjoint` | freeproxy.py:194-199 | no code is listed under two regions, so the order of the table does not matter |
| `ProxyRecords.RegionCodesUpper` | freeproxy.py:194-199 | every code in the table is two upper-case letters |
| `ProxyRecords.LowercaseIsOther` | freeproxy.py:200-203 | the lookup is case-sensitive: a lower-cased string always gets "Other" |
| `ProxyRecords.CountryNameIsOther` | freeproxy.py:151 | the region comes from the country-name column, and any text that is not two characters long gets "Other" |
| `ProxyRecords.SocksProtocol` | freeproxy.py:132 | the protocol of a SOCKS row from its protocol text; `ParseSocksRow` proves that it is SOCKS5 iff the lower-cased text contains "socks5" |
| `ProxyRecords.SocksHttps` | freeproxy.py:134 | the https flag of a SOCKS row; `ParseSocksRow` proves that it is "yes" iff the lower-cased text contains "socks", and `SocksProtocolHttps` that SOCKS5 implies "yes" |
| `ProxyRecords.SocksProtocolHttps` | freeproxy.py:132-134 | a row classified SOCKS5 is always marked as supporting HTTPS |
| `ProxyRecords.ParseRow` | freeproxy.py:121-154 | A row is rejected exactly when it has fewer than 8 cells (the IndexError path). An accepted row gives a well-formed record for its source's layout. |
| `ProxyRecords.ParseSocksRow` | freeproxy.py:126-137 | SOCKS layout: the protocol is SOCKS5 iff the lower-cased cell 4 contains "socks5", otherwise SOCKS4. `https` is "yes" iff it contains "socks". Anonymity, google, date and region come from cells 5, 6, 7 and 3. |
| `ProxyRecords.ParseStandardRow` | freeproxy.py:138-151 | standard layout: the protocol is HTTPS iff cell 6 is exactly "yes", else HTTP; anonymity, google, https and region come from cells 4, 5, 6 and 3 |
| `ProxyRecords.ParseRenderRoundTrip` | freeproxy.py:121-154 | every well-formed record is the parse of some 8-cell row of its layout |
| `ProxyRecords.RenderParseRoundTrip` | freeproxy.py:121-154 | Parsing keeps every cell of a standard row. For a SOCKS row it keeps every cell except the protocol text, which it reduces to its SOCKS kind. Re-parsing a rendered record gives the same record. |
| `ProxyRecords.SampleSocksRow` | freeproxy.py:126-152 | the parse of a concrete SOCKS row (protocol SOCKS5, https "yes", region "Other") |
| `ProxyRecords.SampleStandardRow` | freeproxy.py:138-152 | the parse of a concrete standard row (protocol HTTPS, region "Other") |
| `ProxyRecords.ParseRows` | freeproxy.py:110-119 | the records of one page in row order; `ParseRowsSpec`, `ParseRowsMembers` and `ParseRowsBound` state what they are |
| `ProxyRecords.LongRowsSpec` | freeproxy.py:110-118 | the rows that survive are an ordered subsequence of the page, and they include every row with at least 8 cells |
| `ProxyRecords.ParseAllIndex` | freeproxy.py:110-119 | among rows of at least 8 cells, the k-th record is the parse of the k-th row |
| `ProxyRecords.ParseRowsSpec` | freeproxy.py:110-119 | the page's records are the parses of its rows with at least 8 cells, in row order |
| `ProxyRecords.ParseRowsMembers` | freeproxy.py:110-119 | a record is on the page's list iff some row of the page parses to it |
| `ProxyRecords.ParseRowsBound` | freeproxy.py:110-119 | a page never yields more records than it has rows |
| `ProxyRecords.ParseSource` | freeproxy.py:110-119 | the row loop returns exactly the page's parsed records, in order |
| `ProxyFilter.ProtocolKeywords` | freeproxy.py:28-32 | the upper-cased protocol values are HTTP, HTTPS, SOCKS4, SOCKS5 |
| `ProxyFilter.CheckAnonymity` | freeproxy.py:183-190 | the anonymity check; `CheckAnonymityIgnoresCase`, `TransparentAcceptsAll`, `EliteTextSample` and `AnonymousTextSample` state its behaviour |
| `ProxyFilter.CheckAnonymityIgnoresCase` | freeproxy.py:183-185 | the anonymity check does not depend on the case of the text |
| `ProxyFilter.TransparentAcceptsAll` | freeproxy.py:190 | at the transparent level every anonymity text is accepted |
| `ProxyFilter.EliteTextSample` | freeproxy.py:186-189 | "Elite Proxy" passes the elite level and fails the anonymous level |
| `ProxyFilter.AnonymousTextSample` | freeproxy.py:186-189 | "Anonymous" passes the anonymous level and fails the elite level |
| `ProxyFilter.ProtocolNamesContain` | freeproxy.py:176 | among the four protocol names, one contains another only when they are equal or when "HTTP" is inside "HTTPS" |
| `ProxyFilter.ProtocolFilter` | freeproxy.py:176 | The protocol test keeps a record exactly when its protocol equals the configured one. The one exception: an HTTP configuration also keeps HTTPS records. |
| `ProxyFilter.Keep` | freeproxy.py:161-177 | the six checks a record must pass; `Filter`, `ProtocolFilter`, `HttpsKeepsOnlyHttps` and `DefaultKeepsHttp` state what they admit |
| `ProxyFilter.DefaultKeepsHttp` | freeproxy.py:62-70 | with the default settings a record is kept iff its protocol is HTTP or HTTPS |
| `ProxyFilter.HttpsKeepsOnlyHttps` | freeproxy.py:173-177 | with HTTPS configured, every kept record comes from the standard layout, has protocol HTTPS and `https` "yes" |
| `ProxyFilter.Filter` | freeproxy.py:156-181 | The filtered list is no longer than its input. A record is in it iff it is in the input and passes all six checks. |
| `ProxyFilter.FilterSubsequence` | freeproxy.py:156-181 | filtering keeps the records' relative order (the result is a subsequence of the input) |
| `ProxyFilter.FilterAppend` | freeproxy.py:160-179 | filtering a concatenation filters each part |
| `ProxyFilter.FilterAllKept` | freeproxy.py:156-181 | a list whose records all pass is returned unchanged |
| `ProxyFilter.FilterIdempotent` | freeproxy.py:156-181 | filtering twice is filtering once |
| `ProxyFilter.FilterProxies` | freeproxy.py:156-181 | the filtering loop returns exactly the filtered list |
| `ProxyFilter.CollectMembers` | freeproxy.py:91-100 | A record is collected iff some source's page holds it. A source whose request raised contributes nothing. |
| `ProxyFilter.ProxyList` | freeproxy.py:102 | the filtered records cut to `max_proxies`; `ProxyListPrefix`, `ProxyListProvenance` and `GetProxyList` state what it is |
| `ProxyFilter.ProxyListPrefix` | freeproxy.py:102 | the proxy list is the first `min(max_proxies, n)` of the `n` filtered records |
| `ProxyFilter.ProxyListProvenance` | freeproxy.py:89-102 | every listed proxy passes the filter and is the parse of a row of some source's page |
| `ProxyFilter.DefaultListBound` | freeproxy.py:70 | with the default settings the list holds at most 100 proxies |
| `ProxyFilter.GetProxyList` | freeproxy.py:89-102 | the loop over the sources returns the filtered and truncated list |
| `ProxyRotation.ProxyUrl` | freeproxy.py:225 | the URL `<protocol>://<ip>:<port>`; `ProxyMap` and `ProxyUrlIdentifies` state its use and that it identifies ip and port |
| `ProxyRotation.ProxyMap` | freeproxy.py:224-227 | the proxy map has exactly the keys `http` and `https`, both mapped to `<protocol>://<ip>:<port>` |
| `ProxyRotation.ProxyUrlIdentifies` | freeproxy.py:225-226 | for colon-free (IPv4) addresses, two proxies give the same URL iff they have the same ip and port |
| `ProxyRotation.TestProxy` | freeproxy.py:229-243 | a proxy can only pass when the request returned a response; a raised request fails |
| `ProxyRotation.TestProxyRules` | freeproxy.py:229-243 | A raised request fails. An answer passes iff its lower-cased body contains "google" in Google-compatible mode, and iff its status is 200 otherwise. |
| `ProxyRotation.GoogleIgnoresStatus` | freeproxy.py:238-239 | with Google compatibility on, the status code does not matter, only the body |
| `ProxyRotation.GoogleIgnoresCase` | freeproxy.py:239 | the search for "google" ignores the case of the body |
| `ProxyRotation.RoundsOfRound` | freeproxy.py:207-213 | round `n` tests the proxy list fetched in that round, through the proxy map |
| `ProxyRotation.CandidatesMembers` | freeproxy.py:209-210 | shuffling or not, the candidates of a round are the round's proxy list |
| `ProxyRotation.FirstWorking` | freeproxy.py:212-214 | a returned proxy is a candidate and passes the test |
| `ProxyRotation.FirstWorkingNone` | freeproxy.py:212-214 | the scan returns nothing iff every candidate fails |
| `ProxyRotation.FirstWorkingAt` | freeproxy.py:212-214 | the scan returns the first candidate that passes |
| `ProxyRotation.Acquire` | freeproxy.py:205-220 | what `get` returns or raises, round by round; `AcquireStep`, `AcquireSound`, `AcquireFails` and `FreeProxy.Get` state what it is |
| `ProxyRotation.AcquireStep` | freeproxy.py:205-220 | A round that finds a proxy returns it. A failed round with budget left retries with randomisation on. A failed round with none left raises. |
| `ProxyRotation.RoundsRun` | freeproxy.py:216-218 | `get` runs at least one round and at most `max(0, max_retries) + 1` |
| `ProxyRotation.AcquireSound` | freeproxy.py:205-220 | a returned proxy was in the list of some round within the budget and passed that round's test |
| `ProxyRotation.GetSound` | freeproxy.py:205-243 | a returned proxy passes the configured filter, was listed in some round within the budget, and its proxy map passed the test in that round |
| `ProxyRotation.RoundFailsSpec` | freeproxy.py:209-214 | a round finds no proxy iff every proxy of its list fails |
| `ProxyRotation.AcquireFails` | freeproxy.py:205-220 | `get` raises iff every round within the budget fails |
| `ProxyRotation.AcquireFailsAfterAllRounds` | freeproxy.py:216-220 | when `get` raises, it has run exactly `max(0, max_retries) + 1` rounds (it never loops forever) |
| `ProxyRotation.DefaultRounds` | freeproxy.py:205 | with the default three retries `get` runs at most four rounds, and exactly four when it raises |
| `ProxyRotation.FreeProxy.constructor` | freeproxy.py:60-81 | the object keeps its configuration and starts with the given `randomize` flag |
| `ProxyRotation.FreeProxy.Default` | freeproxy.py:60-82 | a scraper built with no arguments has the default settings and starts with rotation on |
| `ProxyRotation.FreeProxy.Get` | freeproxy.py:205-220 | The result is that of the round-by-round specification. `randomize` is left set iff it was set before or a retry happened. |
| `YoloSolver.TargetClassIds` | yolo_solver.py:114-118 | the class ids collected for a target; `TargetClassIdsAppend`, `TargetClassIdsMembers` and `CarsTargetHasCarId` state which |
| `YoloSolver.TargetClassIdsAppend` | yolo_solver.py:116-118 | each table entry whose name is related to the target appends its ids, in table order |
| `YoloSolver.TargetClassIdsMembers` | yolo_solver.py:114-118 | an id is collected iff some entry lists it and that entry's lower-cased name and the target contain one another |
| `YoloSolver.Matches` | yolo_solver.py:123-129 | one detection matches: confident, and related by name or by a collected id; `ClassNameCaseIgnored` and `MatchById` state its behaviour |
| `YoloSolver.TargetPresent` | yolo_solver.py:107-131 | some detection matches the lower-cased target; `MatchesTarget`, `LowConfidenceIgnored` and `PermutationIrrelevant` state its behaviour |
| `YoloSolver.AnyMatchSpec` | yolo_solver.py:121-131 | the scan answers true iff some detection matches |
| `YoloSolver.MatchesTarget` | yolo_solver.py:107-131 | The answer is true iff some detection is confident (confidence above 0.4). It must also match by name or by a collected class id. |
| `YoloSolver.NoDetectionsNoMatch` | yolo_solver.py:109-110 | with no detections the answer is false |
| `YoloSolver.LowConfidenceIgnored` | yolo_solver.py:124-128 | adding or removing a detection with confidence at most 0.4 never changes the answer |
| `YoloSolver.OrderIrrelevant` | yolo_solver.py:121-131 | the answer depends only on the set of detections, not on their order |
| `YoloSolver.PermutationIrrelevant` | yolo_solver.py:121-131 | reordering the detections does not change the answer |
| `YoloSolver.TargetCaseIgnored` | yolo_solver.py:112 | targets that agree after lower-casing get the same answer |
| `YoloSolver.UpperTargetIgnored` | yolo_solver.py:112 | upper-casing the target does not change the answer, under the ASCII case mapping of the model |
| `YoloSolver.ClassNameCaseIgnored` | yolo_solver.py:123 | the case of a detection's class name does not matter |
| `YoloSolver.EmptyTargetMatchesConfident` | yolo_solver.py:123-125 | the empty target matches exactly when some detection is confident |
| `YoloSolver.CarsTargetHasCarId` | yolo_solver.py:31-55 | the target "cars" collects the class id of "car" (2) |
| `YoloSolver.MatchById` | yolo_solver.py:128-129 | a confident detection whose class id was collected for the target is a match |
| `YoloSolver.MatchByClassId` | yolo_solver.py:128-129 | a confident "automobile" detection with the car's id 2 matches the target "Cars" by id alone |
| `YoloSolver.ExtractTarget` | yolo_solver.py:160 | the target name taken from the challenge text; `ExtractTargetShape`, `ExtractWithoutWith` and `ExtractTargetRoundTrip` state what it is |
| `YoloSolver.ExtractTargetShape` | yolo_solver.py:160 | the extracted target has no '.', has no "with ", and occurs in the challenge text |
| `YoloSolver.ExtractWithoutWith` | yolo_solver.py:160 | a text without "with " gives its part before the first '.' |
| `YoloSolver.ExtractTargetRoundTrip` | yolo_solver.py:160 | `prefix + "with " + word + "." + rest` gives back `word` when `word` has no '.' and no "with " follows the marker |

## Left out

- HTML parsing: `html.fromstring`, the XPath query for table rows, and `text_content().strip()` of each cell (freeproxy.py:106-113) are not modelled. A page is its list of already-stripped cell texts.
- HTTP: the session, the User-Agent header, timeouts, TLS verification, `raise_for_status` and the one-second sleep are not modelled. A page request that raised is a `None` page. A test request is the `respond` oracle's answer: `Raised`, or a status and a body.
- `random.shuffle` is an arbitrary function. Its randomness is not modelled. Where a proof needs the shuffle to keep the same proxies, it states `ShufflePermutes` as a precondition.
- The `respond` oracle sees only the proxy map, so within one round it gives one answer per ip and port. Any two records with the same ip and port share that answer, even when other fields differ (for example the same proxy listed by two sources). The live program could get different answers for them.
- `ProxyRotation.TestProxy`: its own contract says only that a pass needs a response. Both pass rules, the Google-body rule and the status-200 rule, are stated by `TestProxyRules`.
- Page that cannot be parsed: `_parse_source` calls `html.fromstring(page.content)` (freeproxy.py:97, 106) outside its per-row `try`. lxml raises `ParserError` for an empty body, and that is not a `RequestException`. So the error escapes `get_proxy_list` and `get` instead of skipping the source. The model's `Fetch` has no such outcome: every page that answered gives rows. `ProxyList`, `CollectMembers` and `FreeProxy.Get` therefore do not capture this abort.
- Recursion depth: `get` recurses once per retry (freeproxy.py:218). Near Python's recursion limit (about 1000 frames), an all-failing run raises `RecursionError` instead of `ProxyException`. `Acquire`, `FreeProxy.Get` and `AcquireFailsAfterAllRounds` have no depth bound, so they describe the program only for budgets below that limit.
- `YoloSolver.UpperTargetIgnored`: holds for the model's ASCII case mapping only. Under Python's Unicode mapping, `"ß".upper()` is `"SS"`, which lower-cases to `"ss"`; a confident "wine glass" detection then matches `"ß".upper()` but not `"ß"`. The same happens with Turkish `"ı"`, whose `upper()` is `"I"`.
- `ProxyRotation.RoundsRun`: its contract bounds the number of rounds only. The exact count on failure is `AcquireFailsAfterAllRounds`.
- `lower()` and `upper()` are modelled for ASCII letters only. Python's full Unicode case mapping is not.
- The `except (IndexError, ValueError)` around each row (freeproxy.py:117-118) has nothing left to catch once `_parse_row` handles short rows. The `if proxy:` test holds for every parsed record, a non-empty dict.
- `__enter__`, `__exit__` and the closing of the session are not modelled. They hold no logic about proxies.
- The `timeout`, `test_url`, `verify_ssl` and `user_agent` settings only parameterise I/O and are not part of `Config`.
- Detection confidences are `real`s. IEEE floating-point rounding is not modelled.
- From `yolo_solver.py`, only `matches_target`, the class table and the target extraction are modelled. Model loading, image download and preprocessing, `detect_objects`, the Selenium navigation around the extraction (including its exception path that returns `None`) and the clicking loop are not.
- `recaptcha_solver.py` and `test.py` are not part of this model.
