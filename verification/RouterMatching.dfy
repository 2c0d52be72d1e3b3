/** What the matchers and the checks of a route mean, and which matching routes are answered. */
module RoutingMatches {
  import opened Routing
  import opened RoutingTheorems
  import opened Wrappers

  // -------------------------------------------------------------- hosts

  lemma WildcardAccepts(re: RegexEngine, domain: string, req: RequestInfo, front: string)
    requires req.host == front + ['.'] + domain
    ensures MatchesSingle(re, Host(['*', '.'] + domain), req)
  {
    var pattern := ['*', '.'] + domain;
    assert pattern[1..] == ['.'] + domain;
    assert req.host[|front|..] == ['.'] + domain;
  }

  lemma WildcardSplits(re: RegexEngine, domain: string, req: RequestInfo) returns (front: string)
    requires MatchesSingle(re, Host(['*', '.'] + domain), req)
    ensures req.host == front + ['.'] + domain
  {
    var pattern, at := ['*', '.'] + domain, |req.host| - |domain| - 1;
    assert pattern[1..] == ['.'] + domain;
    front := req.host[..at];
    assert req.host == req.host[..at] + req.host[at..];
  }

  /** "*." and a domain: the host is anything that ends with a dot and the domain. */
  lemma WildcardMeaning(re: RegexEngine, domain: string, req: RequestInfo)
    ensures MatchesSingle(re, Host(['*', '.'] + domain), req) <==>
      exists front: string :: req.host == front + ['.'] + domain
  {
    if MatchesSingle(re, Host(['*', '.'] + domain), req) {
      var front := WildcardSplits(re, domain, req);
    }
    if front: string :| req.host == front + ['.'] + domain {
      WildcardAccepts(re, domain, req, front);
    }
  }

  /** Any other pattern is the host itself. */
  lemma PlainHostMeaning(re: RegexEngine, pattern: string, req: RequestInfo)
    requires |pattern| < 2 || pattern[..2] != ['*', '.']
    ensures MatchesSingle(re, Host(pattern), req) <==> req.host == pattern
  {
    assert |pattern| >= 2 ==> pattern[..2] == [pattern[0], pattern[1]];
  }

  /** A request for /p/q on host a.b against each of the other kinds of matchers, and near misses of each. */
  lemma MatchersByExample(re: RegexEngine, pattern: string)
    ensures var req := RequestInfo("GET", "a.b", "/p/q", map["h" := "1"], map["k" := "2"]);
      && (MatchesSingle(re, HostRegex(pattern), req) <==> re.compiles(pattern) && re.isMatch(pattern, "a.b"))
      && (MatchesSingle(re, PathRegex(pattern), req) <==> re.compiles(pattern) && re.isMatch(pattern, "/p/q"))
      && MatchesSingle(re, Path("/p/q"), req) && !MatchesSingle(re, Path("/p"), req)
      && MatchesSingle(re, PathPrefix("/p"), req) && !MatchesSingle(re, PathPrefix("/q"), req)
      && MatchesSingle(re, PathPrefix("/p/q"), req) && !MatchesSingle(re, PathPrefix("/p/q/"), req)
      && MatchesSingle(re, Header("h", "1"), req) && !MatchesSingle(re, Header("h", "2"), req)
      && !MatchesSingle(re, Header("k", "2"), req)
      && MatchesSingle(re, Query("k", "2"), req) && !MatchesSingle(re, Query("k", "1"), req)
      && !MatchesSingle(re, Query("h", "1"), req)
      && MatchesSingle(re, Method("GET"), req) && !MatchesSingle(re, Method("PUT"), req)
  {
    assert "/p" <= "/p/q" && "/q"[1] != "/p/q"[1];
    assert "h"[0] != "k"[0] && "1"[0] != "2"[0] && "GET"[0] != "PUT"[0] && |"/p"| != |"/p/q"|;
  }

  /** A request that lacks the header or the parameter fails it, whatever the value asked for. */
  lemma MissingFieldFails(re: RegexEngine, name: string, value: string, req: RequestInfo)
    ensures name !in req.headers ==> !MatchesSingle(re, Header(name, value), req)
    ensures name !in req.query ==> !MatchesSingle(re, Query(name, value), req)
  {
  }

  // ------------------------------------------------------------ refusals

  /** Each refusal of a route, in the order of the checks. */
  lemma RefusedIff(re: RegexEngine, r: Route)
    ensures var e := Validation(re, r);
      && (e == Some(EmptyId) <==> r.id == [])
      && (e == Some(NoUpstream) <==> r.id != [] && r.upstreams == [])
      && (e == Some(EmptyUpstreamUrl) <==> r.id != [] && HasEmptyUrl(r))
      && (e == Some(InvalidRegex) <==> r.id != [] && r.upstreams != [] && !HasEmptyUrl(r) && HasBadRegex(re, r))
      && (e == None <==> r.id != [] && r.upstreams != [] && !HasEmptyUrl(r) && !HasBadRegex(re, r))
  {
    forall i | 0 <= i < |r.upstreams| ensures r.upstreams[i] in r.upstreams {
    }
    forall i | 0 <= i < |r.matchers| ensures r.matchers[i] in r.matchers {
    }
  }

  ghost predicate HasEmptyUrl(r: Route) { exists i :: 0 <= i < |r.upstreams| && r.upstreams[i].url == [] }

  ghost predicate HasBadRegex(re: RegexEngine, r: Route) {
    || (exists p: string :: HostRegex(p) in r.matchers && !re.compiles(p))
    || (exists p: string :: PathRegex(p) in r.matchers && !re.compiles(p))
  }

  // -------------------------------------------------- routes that are answered

  /** If a route matches that asks for no host, though perhaps for a regex of hosts, there is an answer. */
  lemma HostFreeMatchIsAnswered(re: RegexEngine, table: seq<Route>, r: Route, req: RequestInfo)
    requires r in table && MatchesRoute(re, r, req) && forall m | m in r.matchers :: !m.Host?
    ensures TableScan(re, table, req).Some?
  {
    ScanAnswersIff(re, table, req);
    assert !BareSuffixOnly(r, req.host);
  }

  /** A route for exactly the host is answered, or one registered before it for exactly the host. */
  lemma ExactHostIsAnswered(re: RegexEngine, table: seq<Route>, i: nat, req: RequestInfo)
    requires i < |table| && MatchesRoute(re, table[i], req) && Host(req.host) in table[i].matchers
    requires |req.host| < 2 || req.host[..2] != ['*', '.']
    ensures exists j: nat :: j <= i && TableScan(re, table, req) == Some(table[j]) &&
              Host(req.host) in table[j].matchers
  {
    assert |req.host| >= 2 ==> req.host[..2] == [req.host[0], req.host[1]];
    assert Hit(re, table[i], ExactHost, req);
    FirstInIsFirst(re, table, ExactHost, req);
    var r := FirstIn(re, table, ExactHost, req).value;
    var j: nat :| j < |table| && table[j] == r && Hit(re, r, ExactHost, req) &&
      forall k | 0 <= k < j :: !Hit(re, table[k], ExactHost, req);
    var m :| m in r.matchers && m.Host? && !IsWildcard(m.host);
    assert MatchesSingle(re, m, req);
    assert m == Host(req.host);
  }

  /** Both of the router after careful runs. */
  lemma RunAnswersHostFreeMatch(re: RegexEngine, ops: seq<Op>, r: Route, req: RequestInfo)
    requires Careful(re, ops) && r in LiveTable(re, ops) && MatchesRoute(re, r, req)
    requires forall m | m in r.matchers :: !m.Host?
    ensures Answer(re, Run(re, ops), req).Some?
  {
    RouterRefinesScan(re, ops, req);
    HostFreeMatchIsAnswered(re, LiveTable(re, ops), r, req);
  }

  lemma RunAnswersExactHost(re: RegexEngine, ops: seq<Op>, i: nat, req: RequestInfo)
    requires var table := LiveTable(re, ops);
      Careful(re, ops) && i < |table| && MatchesRoute(re, table[i], req) && Host(req.host) in table[i].matchers
    requires |req.host| < 2 || req.host[..2] != ['*', '.']
    ensures var table := LiveTable(re, ops);
      exists j: nat :: j <= i && Answer(re, Run(re, ops), req) == Some(table[j]) && Host(req.host) in table[j].matchers
  {
    RouterRefinesScan(re, ops, req);
    ExactHostIsAnswered(re, LiveTable(re, ops), i, req);
  }
}
