/**
 * Proxy rotation in freeproxy.py: each listed proxy is tried through the
 * HTTP session, and the whole list is fetched again, shuffled, while the
 * retry budget lasts. The network, the clock and the random shuffle are
 * oracles handed in as an `Env`.
 */
module ProxyRotation {
  import opened Util
  import opened Strings
  import opened ProxyRecords
  import opened ProxyFilter

  /** What the HTTP session gives back for one request: an exception, or a status and body text. */
  datatype Response = Raised | Answered(status: int, body: string)

  /** The `ProxyException` raised when no round finds a working proxy. */
  datatype ProxyError = NoWorkingProxies

  /** `get` is called with three retries unless told otherwise. */
  const DEFAULT_MAX_RETRIES: int := 3

  /** A scraper shuffles its list unless told otherwise. */
  const DEFAULT_RANDOMIZE: bool := true

  /**
   * The outside world of `get`, indexed by the retry budget of the round that
   * consults it: the pages each round downloads, the shuffle each round
   * applies, and the session's answer to a test request sent through a given
   * proxy map.
   */
  datatype Env = Env(
    fetch: int -> Fetch,
    shuffle: int -> seq<ProxyRecord> -> seq<ProxyRecord>,
    respond: int -> map<string, string> -> Response)

  // ---------------------------------------------------------------- testing one proxy

  /** The proxy URL: the configured protocol's scheme, then `ip:port`. */
  function ProxyUrl(cfg: Config, p: ProxyRecord): string
  {
    cfg.protocol.Value() + "://" + p.ip + ":" + p.port
  }

  /** The `proxies` argument of the test request: HTTP and HTTPS traffic both go through the proxy URL. */
  function ProxyMap(cfg: Config, p: ProxyRecord): (m: map<string, string>)
    ensures m.Keys == {"http", "https"}
    ensures m["http"] == m["https"] == ProxyUrl(cfg, p)
  {
    map["http" := ProxyUrl(cfg, p), "https" := ProxyUrl(cfg, p)]
  }

  /** `a:b` splits back into `a` and `b` at its first colon when `a` has none. */
  lemma ColonSplit(a: string, b: string, c: string, d: string)
    requires ':' !in a && ':' !in c
    ensures a + ":" + b == c + ":" + d <==> a == c && b == d
  {
    var u := a + ":" + b;
    var v := c + ":" + d;
    if u == v {
      assert u[|a|] == ':' && v[|c|] == ':';
      assert a == u[..|a|] && c == v[..|c|];
      assert b == u[|a| + 1..] && d == v[|c| + 1..];
    }
  }

  /**
   * For addresses without a colon, the proxy URL names exactly one address
   * and port: two records share it just when they share both.
   */
  lemma ProxyUrlIdentifies(cfg: Config, p: ProxyRecord, q: ProxyRecord)
    requires ':' !in p.ip && ':' !in q.ip
    ensures ProxyUrl(cfg, p) == ProxyUrl(cfg, q) <==> p.ip == q.ip && p.port == q.port
  {
    var scheme := cfg.protocol.Value() + "://";
    var x := p.ip + ":" + p.port;
    var y := q.ip + ":" + q.port;
    assert ProxyUrl(cfg, p) == scheme + x && ProxyUrl(cfg, q) == scheme + y;
    assert x == (scheme + x)[|scheme|..] && y == (scheme + y)[|scheme|..];
    ColonSplit(p.ip, p.port, q.ip, q.port);
  }

  /**
   * Whether a test response shows a working proxy: an exception fails it;
   * in Google-compatible mode the body must mention "google" in any case;
   * otherwise the status must be 200.
   */
  function TestProxy(cfg: Config, resp: Response): (ok: bool)
    ensures ok ==> resp.Answered?
  {
    match resp
    case Raised => false
    case Answered(status, body) =>
      if cfg.googleCompatible then Contains(Lower(body), "google") else status == 200
  }

  /**
   * The two rules of the test: a raised request fails; an answer passes, in
   * Google-compatible mode, iff its body mentions "google" in any case, and
   * otherwise iff its status is 200.
   */
  lemma TestProxyRules(cfg: Config, resp: Response)
    ensures resp.Raised? ==> !TestProxy(cfg, resp)
    ensures resp.Answered? ==>
      (TestProxy(cfg, resp) <==>
        if cfg.googleCompatible then Contains(Lower(resp.body), "google") else resp.status == 200)
  {
  }

  /** In Google-compatible mode the status code is never looked at: an error page mentioning Google passes. */
  lemma GoogleIgnoresStatus(cfg: Config, s1: int, s2: int, body: string)
    requires cfg.googleCompatible
    ensures TestProxy(cfg, Answered(s1, body)) == TestProxy(cfg, Answered(s2, body))
  {
  }

  /** The Google check ignores the case of the body. */
  lemma GoogleIgnoresCase(cfg: Config, status: int, body: string)
    ensures TestProxy(cfg, Answered(status, body)) == TestProxy(cfg, Answered(status, Lower(body)))
  {
    LowerIdempotent(body);
  }

  /** Whether proxy `p` passes its test in the round with retry budget `n`. */
  predicate Works(cfg: Config, env: Env, n: int, p: ProxyRecord)
  {
    TestProxy(cfg, env.respond(n)(ProxyMap(cfg, p)))
  }

  // ---------------------------------------------------------------- one round

  /**
   * What each round of `get` sees, by its retry budget: the freshly built
   * proxy list, the shuffle it may apply, and whether each proxy passes its
   * test.
   */
  datatype Rounds = Rounds(
    list: int -> seq<ProxyRecord>,
    shuffle: int -> seq<ProxyRecord> -> seq<ProxyRecord>,
    passes: int -> ProxyRecord -> bool)

  /** The rounds a scraper with settings `cfg` runs against the world `env`. */
  function RoundsOf(cfg: Config, env: Env): Rounds
  {
    Rounds(n => ProxyList(cfg, env.fetch(n)), env.shuffle, n => p => Works(cfg, env, n, p))
  }

  /** Round `n` walks the proxy list built from that round's pages, and tests each proxy through its proxy map. */
  lemma RoundsOfRound(cfg: Config, env: Env, n: int, p: ProxyRecord)
    ensures RoundsOf(cfg, env).list(n) == ProxyList(cfg, env.fetch(n))
    ensures RoundsOf(cfg, env).shuffle(n) == env.shuffle(n)
    ensures RoundsOf(cfg, env).passes(n)(p) == TestProxy(cfg, env.respond(n)(ProxyMap(cfg, p)))
  {
  }

  /** `random.shuffle` only reorders the list it is given. */
  ghost predicate ShufflePermutes(w: Rounds)
  {
    forall n, xs :: multiset(w.shuffle(n)(xs)) == multiset(xs)
  }

  /** The list a round walks: the fresh proxy list, shuffled when rotation is on. */
  function Candidates(w: Rounds, n: int, shuffled: bool): seq<ProxyRecord>
  {
    if shuffled then w.shuffle(n)(w.list(n)) else w.list(n)
  }

  /** Rotation changes the order of a round's list, never its contents. */
  lemma CandidatesMembers(w: Rounds, n: int, shuffled: bool, p: ProxyRecord)
    requires ShufflePermutes(w)
    ensures p in Candidates(w, n, shuffled) <==> p in w.list(n)
  {
    var ps := w.list(n);
    assert multiset(w.shuffle(n)(ps)) == multiset(ps);
    assert p in w.shuffle(n)(ps) <==> p in multiset(w.shuffle(n)(ps));
  }

  /** The first proxy of `ps` that passes its test, walking in list order. */
  function FirstWorking(w: Rounds, n: int, ps: seq<ProxyRecord>): (r: Option<ProxyRecord>)
    ensures r.Some? ==> r.value in ps && w.passes(n)(r.value)
  {
    if ps == [] then None
    else if w.passes(n)(ps[0]) then Some(ps[0])
    else FirstWorking(w, n, ps[1..])
  }

  /** A round walks past every proxy without a result exactly when none of them works. */
  lemma {:induction false} FirstWorkingNone(w: Rounds, n: int, ps: seq<ProxyRecord>)
    ensures FirstWorking(w, n, ps).None? <==> forall i :: 0 <= i < |ps| ==> !w.passes(n)(ps[i])
  {
    if ps != [] && !w.passes(n)(ps[0]) {
      FirstWorkingNone(w, n, ps[1..]);
      assert forall i :: 0 < i < |ps| ==> ps[i] == ps[1..][i - 1];
    }
  }

  /** A working proxy with none working before it is the one a round returns. */
  lemma {:induction false} FirstWorkingAt(w: Rounds, n: int, ps: seq<ProxyRecord>, i: int)
    requires 0 <= i < |ps| && w.passes(n)(ps[i])
    requires forall j :: 0 <= j < i ==> !w.passes(n)(ps[j])
    ensures FirstWorking(w, n, ps) == Some(ps[i])
  {
    if i > 0 {
      assert !w.passes(n)(ps[0]);
      assert forall j :: 0 <= j < i - 1 ==> ps[1..][j] == ps[j + 1];
      FirstWorkingAt(w, n, ps[1..], i - 1);
    }
  }

  // ---------------------------------------------------------------- all rounds

  /** The retry budgets the rounds run with: `n` first, then `n - 1` down to 0. */
  predicate RoundBudget(n: int, k: int)
  {
    k == n || 0 <= k < n
  }

  /**
   * What `get(n)` returns or raises when rotation starts as `shuffled`: the
   * first working proxy of this round, else a retry with one less and
   * rotation on, else `ProxyException`.
   */
  function Acquire(w: Rounds, n: int, shuffled: bool): Result<ProxyRecord, ProxyError>
    decreases n
  {
    match FirstWorking(w, n, Candidates(w, n, shuffled))
    case Some(p) => Ok(p)
    case None => if n > 0 then Acquire(w, n - 1, true) else Err(NoWorkingProxies)
  }

  /** How many rounds `get(n)` runs: at least one and at most one more than a non-negative budget. */
  function RoundsRun(w: Rounds, n: int, shuffled: bool): (rounds: nat)
    ensures 1 <= rounds <= Max(0, n) + 1
    decreases n
  {
    if FirstWorking(w, n, Candidates(w, n, shuffled)).Some? then 1
    else if n > 0 then 1 + RoundsRun(w, n - 1, true)
    else 1
  }

  /** One round of `get`: it returns what it found, or hands over to the next round, or gives up. */
  lemma AcquireStep(w: Rounds, n: int, shuffled: bool)
    ensures var found := FirstWorking(w, n, Candidates(w, n, shuffled));
      && (found.Some? ==> Acquire(w, n, shuffled) == Ok(found.value) && RoundsRun(w, n, shuffled) == 1)
      && (found.None? && n > 0 ==>
            Acquire(w, n, shuffled) == Acquire(w, n - 1, true) && RoundsRun(w, n, shuffled) == 1 + RoundsRun(w, n - 1, true))
      && (found.None? && n <= 0 ==> Acquire(w, n, shuffled) == Err(NoWorkingProxies) && RoundsRun(w, n, shuffled) == 1)
  {
  }

  /**
   * A returned proxy was listed in some round, and passed its test in that
   * same round.
   */
  lemma {:induction false} AcquireSound(w: Rounds, n: int, shuffled: bool, p: ProxyRecord)
    requires ShufflePermutes(w)
    requires Acquire(w, n, shuffled) == Ok(p)
    ensures exists k :: RoundBudget(n, k) && p in w.list(k) && w.passes(k)(p)
    decreases n
  {
    var r := FirstWorking(w, n, Candidates(w, n, shuffled));
    if r.Some? {
      CandidatesMembers(w, n, shuffled, p);
      assert RoundBudget(n, n);
    } else {
      AcquireSound(w, n - 1, true, p);
      var k :| RoundBudget(n - 1, k) && p in w.list(k) && w.passes(k)(p);
      assert RoundBudget(n, k);
    }
  }

  /**
   * What `get` returns passes every filter of the scraper, was on the list
   * built in one of its rounds, and passed its connection test in that round.
   */
  lemma GetSound(cfg: Config, env: Env, n: int, shuffled: bool, p: ProxyRecord)
    requires ShufflePermutes(RoundsOf(cfg, env))
    requires Acquire(RoundsOf(cfg, env), n, shuffled) == Ok(p)
    ensures Keep(cfg, p)
    ensures exists k ::
      && RoundBudget(n, k)
      && p in ProxyList(cfg, env.fetch(k))
      && TestProxy(cfg, env.respond(k)(ProxyMap(cfg, p)))
  {
    var w := RoundsOf(cfg, env);
    AcquireSound(w, n, shuffled, p);
    var k :| RoundBudget(n, k) && p in w.list(k) && w.passes(k)(p);
    RoundsOfRound(cfg, env, k, p);
    ProxyListProvenance(cfg, env.fetch(k), p);
  }

  /** No proxy on a round's list passes that round's test. */
  ghost predicate RoundFails(w: Rounds, k: int)
  {
    forall p :: p in w.list(k) ==> !w.passes(k)(p)
  }

  /** A round finds nothing exactly when none of its listed proxies works, however it is shuffled. */
  lemma RoundFailsSpec(w: Rounds, n: int, shuffled: bool)
    requires ShufflePermutes(w)
    ensures FirstWorking(w, n, Candidates(w, n, shuffled)).None? <==> RoundFails(w, n)
  {
    var ps := Candidates(w, n, shuffled);
    FirstWorkingNone(w, n, ps);
    if !RoundFails(w, n) {
      var p :| p in w.list(n) && w.passes(n)(p);
      CandidatesMembers(w, n, shuffled, p);
      var i :| 0 <= i < |ps| && ps[i] == p;
    } else {
      forall i | 0 <= i < |ps|
        ensures !w.passes(n)(ps[i])
      {
        CandidatesMembers(w, n, shuffled, ps[i]);
      }
    }
  }

  /**
   * `get(n)` raises exactly when every round it may run comes up empty: the
   * round with budget `n` and each retry down to budget 0.
   */
  lemma {:induction false} AcquireFails(w: Rounds, n: int, shuffled: bool)
    requires ShufflePermutes(w)
    ensures Acquire(w, n, shuffled).Err? <==> forall k :: RoundBudget(n, k) ==> RoundFails(w, k)
    decreases n
  {
    RoundFailsSpec(w, n, shuffled);
    assert RoundBudget(n, n);
    if n > 0 {
      AcquireFails(w, n - 1, true);
      assert forall k :: RoundBudget(n, k) <==> k == n || RoundBudget(n - 1, k);
    }
  }

  /** A failure always took every round the budget allows. */
  lemma {:induction false} AcquireFailsAfterAllRounds(w: Rounds, n: int, shuffled: bool)
    requires Acquire(w, n, shuffled).Err?
    ensures RoundsRun(w, n, shuffled) == Max(0, n) + 1
    decreases n
  {
    if n > 0 {
      AcquireFailsAfterAllRounds(w, n - 1, true);
    }
  }

  /** With the default budget `get` runs at most four rounds, and exactly four when it raises. */
  lemma DefaultRounds(w: Rounds, shuffled: bool)
    ensures RoundsRun(w, DEFAULT_MAX_RETRIES, shuffled) <= 4
    ensures Acquire(w, DEFAULT_MAX_RETRIES, shuffled).Err? ==> RoundsRun(w, DEFAULT_MAX_RETRIES, shuffled) == 4
  {
    if Acquire(w, DEFAULT_MAX_RETRIES, shuffled).Err? {
      AcquireFailsAfterAllRounds(w, DEFAULT_MAX_RETRIES, shuffled);
    }
  }

  // ---------------------------------------------------------------- the scraper object

  /** The part of a `FreeProxy` scraper that `get` reads and writes. */
  class FreeProxy {
    const config: Config
    var randomize: bool

    constructor(config: Config, randomize: bool)
      ensures this.config == config && this.randomize == randomize
    {
      this.config := config;
      this.randomize := randomize;
    }

    /** A scraper built with no arguments: the default settings, with rotation on. */
    constructor Default()
      ensures config == DEFAULT_CONFIG && randomize == DEFAULT_RANDOMIZE
    {
      config := DEFAULT_CONFIG;
      randomize := DEFAULT_RANDOMIZE;
    }

    /**
     * `get(max_retries)`: walk the (possibly shuffled) list and return the
     * first proxy that passes; otherwise switch rotation on and retry with
     * one less, or raise when the budget is spent. Rotation stays on after
     * any retry.
     */
    method Get(maxRetries: int, env: Env) returns (r: Result<ProxyRecord, ProxyError>)
      modifies this
      ensures r == Acquire(RoundsOf(config, env), maxRetries, old(randomize))
      ensures randomize == (old(randomize) || RoundsRun(RoundsOf(config, env), maxRetries, old(randomize)) > 1)
      decreases maxRetries
    {
      ghost var w := RoundsOf(config, env);
      var proxies := GetProxyList(config, env.fetch(maxRetries));
      RoundsOfRound(config, env, maxRetries, ProxyRecord("", "", "", "", "", "", "", "", "", ""));
      if randomize {
        proxies := env.shuffle(maxRetries)(proxies);
      }
      assert proxies == Candidates(w, maxRetries, randomize);
      AcquireStep(w, maxRetries, randomize);
      for i := 0 to |proxies|
        invariant FirstWorking(w, maxRetries, proxies[i..]) == FirstWorking(w, maxRetries, proxies)
        invariant randomize == old(randomize)
      {
        var proxy := proxies[i];
        RoundsOfRound(config, env, maxRetries, proxy);
        assert proxies[i..][1..] == proxies[i + 1..];
        if TestProxy(config, env.respond(maxRetries)(ProxyMap(config, proxy))) {
          return Ok(proxy);
        }
      }
      if maxRetries > 0 {
        randomize := true;
        r := Get(maxRetries - 1, env);
        return;
      }
      return Err(NoWorkingProxies);
    }
  }
}
