/** The edge router's route table and its three derived indexes. */
module Routing {
  import opened Sorting
  import opened Wrappers

  datatype Matcher =
    | Host(host: string)
    | HostRegex(hostPattern: string)
    | Path(path: string)
    | PathPrefix(prefix: string)
    | PathRegex(pathPattern: string)
    | Header(name: string, value: string)
    | Query(key: string, expected: string)
    | Method(verb: string)

  datatype Upstream = Upstream(url: string, weight: nat, healthy: bool)

  datatype LoadBalancerStrategy = RoundRobin | LeastConnections | IpHash | Random | WeightedRoundRobin

  datatype Route = Route(
    id: string,
    priority: int,
    matchers: seq<Matcher>,
    upstreams: seq<Upstream>,
    loadBalancer: LoadBalancerStrategy,
    enabled: bool)

  datatype RequestInfo = RequestInfo(
    verb: string,
    host: string,
    path: string,
    headers: map<string, string>,
    query: map<string, string>)

  /** The regex library: which patterns compile, and what a compiled pattern matches. */
  datatype RegexEngine = RegexEngine(compiles: string -> bool, isMatch: (string, string) -> bool)

  datatype RoutingError = EmptyId | NoUpstream | EmptyUpstreamUrl | InvalidRegex | RouteNotFound

  // ---------------------------------------------------------------- matching

  predicate IsWildcard(pattern: string) { |pattern| >= 2 && pattern[0] == '*' && pattern[1] == '.' }

  predicate EndsWith(s: string, suffix: string) {
    |suffix| <= |s| && s[|s| - |suffix|..] == suffix
  }

  predicate MatchesHost(pattern: string, host: string) {
    if IsWildcard(pattern) then EndsWith(host, pattern[1..]) else host == pattern
  }

  /** The wildcard index asks for more than `MatchesHost`: the bare suffix itself is refused. */
  predicate MatchesWildcard(pattern: string, host: string)
    requires IsWildcard(pattern)
  {
    EndsWith(host, pattern[1..]) && |host| > |pattern[1..]|
  }

  predicate MatchesSingle(re: RegexEngine, m: Matcher, req: RequestInfo) {
    match m
    case Host(h) => MatchesHost(h, req.host)
    case HostRegex(p) => re.compiles(p) && re.isMatch(p, req.host)
    case Path(p) => req.path == p
    case PathPrefix(p) => p <= req.path
    case PathRegex(p) => re.compiles(p) && re.isMatch(p, req.path)
    case Header(n, v) => n in req.headers && req.headers[n] == v
    case Query(k, v) => k in req.query && req.query[k] == v
    case Method(v) => req.verb == v
  }

  predicate MatchesRoute(re: RegexEngine, route: Route, req: RequestInfo) {
    forall m | m in route.matchers :: MatchesSingle(re, m, req)
  }

  function HostsOf(ms: seq<Matcher>): seq<string> {
    if ms == [] then []
    else
      var last := ms[|ms| - 1];
      var front := HostsOf(ms[..|ms| - 1]);
      if last.Host? then front + [last.host] else front
  }

  lemma {:induction false} HostsMember(ms: seq<Matcher>, h: string)
    ensures h in HostsOf(ms) <==> Host(h) in ms
  {
    if ms != [] {
      HostsMember(ms[..|ms| - 1], h);
      assert ms == ms[..|ms| - 1] + [ms[|ms| - 1]];
    }
  }

  function Validation(re: RegexEngine, route: Route): Option<RoutingError> {
    if route.id == "" then Some(EmptyId)
    else if route.upstreams == [] then Some(NoUpstream)
    else if exists u | u in route.upstreams :: u.url == "" then Some(EmptyUpstreamUrl)
    else if exists m | m in route.matchers ::
        (m.PathRegex? && !re.compiles(m.pathPattern)) || (m.HostRegex? && !re.compiles(m.hostPattern))
      then Some(InvalidRegex)
    else None
  }

  // ------------------------------------------------- registrations and indexes

  /** What one `add_route` call put into the indexes and later removals left there. */
  datatype Registration = Registration(id: string, hosts: seq<string>, priority: int, ranked: bool)

  /** The table, with the registrations in the order of the calls that made them. */
  datatype State = State(routes: map<string, Route>, log: seq<Registration>)

  function Register(route: Route): Registration {
    Registration(route.id, HostsOf(route.matchers), route.priority, true)
  }

  function Lookup(index: map<string, seq<string>>, host: string): seq<string> {
    if host in index then index[host] else []
  }

  /** The list kept for one exact host, after the hosts were indexed for the id. */
  function ExactOnto(ids: seq<string>, id: string, hosts: seq<string>, host: string): seq<string> {
    if hosts == [] then ids
    else
      var last := hosts[|hosts| - 1];
      var front := ExactOnto(ids, id, hosts[..|hosts| - 1], host);
      if last == host && !IsWildcard(last) then front + [id] else front
  }

  /** The image of the log in `host_index`. */
  function ExactIds(log: seq<Registration>, host: string): seq<string> {
    if log == [] then []
    else
      var last := log[|log| - 1];
      ExactOnto(ExactIds(log[..|log| - 1], host), last.id, last.hosts, host)
  }

  function WildcardsOnto(pairs: seq<(string, string)>, id: string, hosts: seq<string>): seq<(string, string)> {
    if hosts == [] then pairs
    else
      var last := hosts[|hosts| - 1];
      var front := WildcardsOnto(pairs, id, hosts[..|hosts| - 1]);
      if IsWildcard(last) then front + [(last, id)] else front
  }

  /** The image of the log in `wildcard_hosts`. */
  function WildcardPairs(log: seq<Registration>): seq<(string, string)> {
    if log == [] then []
    else
      var last := log[|log| - 1];
      WildcardsOnto(WildcardPairs(log[..|log| - 1]), last.id, last.hosts)
  }

  predicate AllWildcards(pairs: seq<(string, string)>) {
    forall i | 0 <= i < |pairs| :: IsWildcard(pairs[i].0)
  }

  lemma {:induction false} OntoKeepsWildcards(pairs: seq<(string, string)>, id: string, hosts: seq<string>)
    requires AllWildcards(pairs)
    ensures AllWildcards(WildcardsOnto(pairs, id, hosts))
  {
    if hosts != [] {
      OntoKeepsWildcards(pairs, id, hosts[..|hosts| - 1]);
    }
  }

  lemma {:induction false} OnlyWildcardsIndexed(log: seq<Registration>)
    ensures AllWildcards(WildcardPairs(log))
  {
    if log != [] {
      OnlyWildcardsIndexed(log[..|log| - 1]);
      OntoKeepsWildcards(WildcardPairs(log[..|log| - 1]), log[|log| - 1].id, log[|log| - 1].hosts);
    }
  }

  function RankedPairs(log: seq<Registration>): seq<(int, string)> {
    if log == [] then []
    else
      var last := log[|log| - 1];
      var front := RankedPairs(log[..|log| - 1]);
      if last.ranked then front + [(last.priority, last.id)] else front
  }

  function Descending(): ((int, string)) -> int { (e: (int, string)) => -e.0 }

  /** The image of the log in `priorities`: highest priority first, ties in registration order. */
  function Ranking(log: seq<Registration>): seq<(int, string)> {
    StableSort(RankedPairs(log), Descending())
  }

  // ------------------------------------------------------ what removal leaves

  function IdIsNot(id: string): string -> bool { (x: string) => x != id }
  function PatternNotIn(removed: set<string>): ((string, string)) -> bool { (e: (string, string)) => e.0 !in removed }
  function OwnerIsNot(id: string): ((int, string)) -> bool { (e: (int, string)) => e.1 != id }

  /** A removal strips its hosts from its own registrations and its wildcard patterns from everyone's. */
  function HostStays(removed: set<string>, own: bool): string -> bool {
    (h: string) => !(h in removed && (own || IsWildcard(h)))
  }

  function Detach(reg: Registration, id: string, removed: set<string>): Registration {
    reg.(hosts := Filter(reg.hosts, HostStays(removed, reg.id == id)),
         ranked := reg.ranked && reg.id != id)
  }

  function DetachAll(log: seq<Registration>, id: string, removed: set<string>): seq<Registration> {
    if log == [] then []
    else
      var reg := Detach(log[|log| - 1], id, removed);
      var front := DetachAll(log[..|log| - 1], id, removed);
      if reg.hosts == [] && !reg.ranked then front else front + [reg]
  }

  function HostSet(route: Route): set<string> { set h | h in HostsOf(route.matchers) }

  function Added(re: RegexEngine, st: State, route: Route): State {
    if Validation(re, route).Some? then st
    else State(st.routes[route.id := route], st.log + [Register(route)])
  }

  function Removed(st: State, id: string): State {
    if id !in st.routes then st
    else State(st.routes - {id}, DetachAll(st.log, id, HostSet(st.routes[id])))
  }

  lemma HostsStep(ms: seq<Matcher>, i: nat)
    requires i < |ms|
    ensures HostsOf(ms[..i + 1]) == if ms[i].Host? then HostsOf(ms[..i]) + [ms[i].host] else HostsOf(ms[..i])
  {
    assert ms[..i + 1][..i] == ms[..i];
  }

  lemma OntoPush(
    ids: seq<string>, pairs: seq<(string, string)>, id: string, hosts: seq<string>, last: string, h: string)
    ensures ExactOnto(ids, id, hosts + [last], h) ==
        if last == h && !IsWildcard(last) then ExactOnto(ids, id, hosts, h) + [id] else ExactOnto(ids, id, hosts, h)
    ensures WildcardsOnto(pairs, id, hosts + [last]) ==
      if IsWildcard(last) then WildcardsOnto(pairs, id, hosts) + [(last, id)] else WildcardsOnto(pairs, id, hosts)
  {
    assert (hosts + [last])[..|hosts|] == hosts;
  }

  lemma ImagesPush(log: seq<Registration>, reg: Registration, h: string)
    ensures ExactIds(log + [reg], h) == ExactOnto(ExactIds(log, h), reg.id, reg.hosts, h)
    ensures WildcardPairs(log + [reg]) == WildcardsOnto(WildcardPairs(log), reg.id, reg.hosts)
    ensures RankedPairs(log + [reg]) ==
      if reg.ranked then RankedPairs(log) + [(reg.priority, reg.id)] else RankedPairs(log)
  {
    assert (log + [reg])[..|log|] == log;
  }

  lemma DetachPush(log: seq<Registration>, reg: Registration, id: string, removed: set<string>)
    ensures var d, r := DetachAll(log, id, removed), Detach(reg, id, removed);
      DetachAll(log + [reg], id, removed) == if r.hosts == [] && !r.ranked then d else d + [r]
  {
    assert (log + [reg])[..|log|] == log;
  }

  lemma {:induction false} ExactStays(
    ids: seq<string>, owner: string, hosts: seq<string>, host: string, id: string, removed: set<string>)
    ensures ExactOnto(if host in removed then Filter(ids, IdIsNot(id)) else ids,
                      owner, Filter(hosts, HostStays(removed, owner == id)), host) ==
      if host in removed then Filter(ExactOnto(ids, owner, hosts, host), IdIsNot(id))
      else ExactOnto(ids, owner, hosts, host)
  {
    if hosts != [] {
      var front, last := hosts[..|hosts| - 1], hosts[|hosts| - 1];
      ExactStays(ids, owner, front, host, id, removed);
      var f := Filter(front, HostStays(removed, owner == id));
      assert (f + [last])[..|f|] == f;
      FilterPush(ExactOnto(ids, owner, front, host), owner, IdIsNot(id));
    }
  }

  lemma ExactDetached(ids: seq<string>, reg: Registration, host: string, id: string, removed: set<string>)
    ensures var r := Detach(reg, id, removed);
      ExactOnto(if host in removed then Filter(ids, IdIsNot(id)) else ids, r.id, r.hosts, host) ==
        if host in removed then Filter(ExactOnto(ids, reg.id, reg.hosts, host), IdIsNot(id))
        else ExactOnto(ids, reg.id, reg.hosts, host)
  {
    ExactStays(ids, reg.id, reg.hosts, host, id, removed);
  }

  lemma {:induction false} WildcardsDetached(
    pairs: seq<(string, string)>, reg: Registration, id: string, removed: set<string>)
    ensures var r := Detach(reg, id, removed);
      WildcardsOnto(Filter(pairs, PatternNotIn(removed)), r.id, r.hosts) ==
        Filter(WildcardsOnto(pairs, reg.id, reg.hosts), PatternNotIn(removed))
    decreases |reg.hosts|
  {
    if reg.hosts != [] {
      var front, last := reg.hosts[..|reg.hosts| - 1], reg.hosts[|reg.hosts| - 1];
      WildcardsDetached(pairs, reg.(hosts := front), id, removed);
      var f := Filter(front, HostStays(removed, reg.id == id));
      assert (f + [last])[..|f|] == f;
      FilterPush(WildcardsOnto(pairs, reg.id, front), (last, reg.id), PatternNotIn(removed));
    }
  }

  /** Removing a route's entries from each index leaves the images of what is left of the log. */
  lemma {:induction false} DetachImages(log: seq<Registration>, id: string, removed: set<string>, h: string)
    ensures ExactIds(DetachAll(log, id, removed), h) ==
      if h in removed then Filter(ExactIds(log, h), IdIsNot(id)) else ExactIds(log, h)
    ensures WildcardPairs(DetachAll(log, id, removed)) == Filter(WildcardPairs(log), PatternNotIn(removed))
    ensures RankedPairs(DetachAll(log, id, removed)) == Filter(RankedPairs(log), OwnerIsNot(id))
  {
    if log != [] {
      var front, last := log[..|log| - 1], log[|log| - 1];
      DetachImages(front, id, removed, h);
      ExactDetached(ExactIds(front, h), last, h, id, removed);
      WildcardsDetached(WildcardPairs(front), last, id, removed);
      ImagesPush(DetachAll(front, id, removed), Detach(last, id, removed), h);
      FilterPush(RankedPairs(front), (last.priority, last.id), OwnerIsNot(id));
    }
  }

  lemma {:induction false} NoPatternRemoved(pairs: seq<(string, string)>)
    ensures Filter(pairs, PatternNotIn({})) == pairs
  {
    if pairs != [] {
      NoPatternRemoved(pairs[..|pairs| - 1]);
    }
  }

  lemma {:induction false} PatternsOneByOne(pairs: seq<(string, string)>, done: set<string>, host: string)
    ensures Filter(Filter(pairs, PatternNotIn(done)), PatternNotIn({host})) ==
      Filter(pairs, PatternNotIn(done + {host}))
  {
    if pairs != [] {
      var front, last := pairs[..|pairs| - 1], pairs[|pairs| - 1];
      PatternsOneByOne(front, done, host);
      FilterPush(Filter(front, PatternNotIn(done)), last, PatternNotIn({host}));
    }
  }

  lemma {:induction false} FilterIdsTwice(ids: seq<string>, id: string)
    ensures Filter(Filter(ids, IdIsNot(id)), IdIsNot(id)) == Filter(ids, IdIsNot(id))
  {
    if ids != [] {
      var front, last := ids[..|ids| - 1], ids[|ids| - 1];
      FilterIdsTwice(front, id);
      FilterPush(Filter(front, IdIsNot(id)), last, IdIsNot(id));
    }
  }

  // ------------------------------------------------------------ the answer

  /** The first of the ids whose stored route matches. */
  function FirstStored(re: RegexEngine, routes: map<string, Route>, ids: seq<string>, req: RequestInfo): Option<Route> {
    if ids == [] then None
    else
      var id := ids[|ids| - 1];
      FirstStored(re, routes, ids[..|ids| - 1], req).OrElse(
        if id in routes && MatchesRoute(re, routes[id], req) then Some(routes[id]) else None)
  }

  function StrictIds(pairs: seq<(string, string)>, host: string): seq<string> {
    if pairs == [] then []
    else
      var last := pairs[|pairs| - 1];
      var front := StrictIds(pairs[..|pairs| - 1], host);
      if IsWildcard(last.0) && MatchesWildcard(last.0, host) then front + [last.1] else front
  }

  predicate HostFree(route: Route) { forall m | m in route.matchers :: !m.Host? }

  function HostFreeIds(routes: map<string, Route>, ranking: seq<(int, string)>): seq<string> {
    if ranking == [] then []
    else
      var id := ranking[|ranking| - 1].1;
      var front := HostFreeIds(routes, ranking[..|ranking| - 1]);
      if id in routes && HostFree(routes[id]) then front + [id] else front
  }

  /** What `match_request` answers in any state, reachable or not. */
  function Answer(re: RegexEngine, st: State, req: RequestInfo): (r: Option<Route>) {
    FirstStored(re, st.routes, ExactIds(st.log, req.host), req)
    .OrElse(FirstStored(re, st.routes, StrictIds(WildcardPairs(st.log), req.host), req))
    .OrElse(FirstStored(re, st.routes, HostFreeIds(st.routes, Ranking(st.log)), req))
  }

  ghost predicate Listed(index: map<string, seq<string>>, log: seq<Registration>) {
    forall h: string {:trigger Lookup(index, h)} :: Lookup(index, h) == ExactIds(log, h)
  }

  ghost predicate Indexed(
    index: map<string, seq<string>>, was: map<string, seq<string>>, id: string, hosts: seq<string>)
  {
    forall h: string {:trigger Lookup(index, h)} :: Lookup(index, h) == ExactOnto(Lookup(was, h), id, hosts, h)
  }

  ghost predicate Unindexed(
    index: map<string, seq<string>>, was: map<string, seq<string>>, id: string, removed: set<string>)
  {
    forall h: string {:trigger Lookup(index, h)} ::
      Lookup(index, h) == if h in removed then Filter(Lookup(was, h), IdIsNot(id)) else Lookup(was, h)
  }

  lemma IndexStep(
    index: map<string, seq<string>>, was: map<string, seq<string>>, id: string, hosts: seq<string>, host: string)
    requires Indexed(index, was, id, hosts)
    ensures Indexed(
      if IsWildcard(host) then index else index[host := Lookup(index, host) + [id]], was, id, hosts + [host])
  {
    var next := if IsWildcard(host) then index else index[host := Lookup(index, host) + [id]];
    forall h: string ensures Lookup(next, h) == ExactOnto(Lookup(was, h), id, hosts + [host], h) {
      OntoPush(Lookup(was, h), [], id, hosts, host, h);
      assert Lookup(index, h) == ExactOnto(Lookup(was, h), id, hosts, h);
    }
  }

  lemma UnindexStep(
    index: map<string, seq<string>>, was: map<string, seq<string>>, id: string, removed: set<string>, host: string)
    requires Unindexed(index, was, id, removed)
    ensures Unindexed(if host in index then index[host := Filter(index[host], IdIsNot(id))] else index,
                      was, id, removed + {host})
  {
    var next := if host in index then index[host := Filter(index[host], IdIsNot(id))] else index;
    forall h: string
      ensures Lookup(next, h) == if h in removed + {host} then Filter(Lookup(was, h), IdIsNot(id)) else Lookup(was, h)
    {
      assert Lookup(index, h) == if h in removed then Filter(Lookup(was, h), IdIsNot(id)) else Lookup(was, h);
      FilterIdsTwice(Lookup(was, h), id);
    }
  }

  lemma ListedAfterAdd(
    index: map<string, seq<string>>, was: map<string, seq<string>>, log: seq<Registration>, reg: Registration)
    requires Listed(was, log) && Indexed(index, was, reg.id, reg.hosts)
    ensures Listed(index, log + [reg])
    ensures WildcardPairs(log + [reg]) == WildcardsOnto(WildcardPairs(log), reg.id, reg.hosts)
    ensures reg.ranked ==>
      Ranking(log + [reg]) == StableSort(Ranking(log) + [(reg.priority, reg.id)], Descending())
  {
    forall h: string ensures Lookup(index, h) == ExactIds(log + [reg], h) {
      ImagesPush(log, reg, h);
      assert Lookup(was, h) == ExactIds(log, h);
    }
    ImagesPush(log, reg, "");
    SortAfterPush(RankedPairs(log), (reg.priority, reg.id), Descending());
  }

  lemma {:induction false} ListedAfterRemove(
    index: map<string, seq<string>>, was: map<string, seq<string>>, log: seq<Registration>, id: string,
    removed: set<string>)
    requires Listed(was, log) && Unindexed(index, was, id, removed)
    ensures Listed(index, DetachAll(log, id, removed))
    ensures WildcardPairs(DetachAll(log, id, removed)) == Filter(WildcardPairs(log), PatternNotIn(removed))
    ensures Ranking(DetachAll(log, id, removed)) == Filter(Ranking(log), OwnerIsNot(id))
  {
    forall h: string ensures Lookup(index, h) == ExactIds(DetachAll(log, id, removed), h) {
      DetachImages(log, id, removed, h);
      assert Lookup(was, h) == ExactIds(log, h);
    }
    DetachImages(log, id, removed, "");
    FilterSort(RankedPairs(log), Descending(), OwnerIsNot(id));
  }

  class Router {
    const regex: RegexEngine
    var routes: map<string, Route>
    var hostIndex: map<string, seq<string>>
    var wildcardHosts: seq<(string, string)>
    var priorities: seq<(int, string)>
    ghost var log: seq<Registration>

    /** Every index is the image of the registrations. */
    ghost predicate Valid()
      reads this
    {
      && Listed(hostIndex, log)
      && wildcardHosts == WildcardPairs(log)
      && priorities == Ranking(log)
    }

    ghost function Now(): State
      reads this
    {
      State(routes, log)
    }

    constructor (regex: RegexEngine)
      ensures Valid() && this.regex == regex
      ensures Now() == State(map[], [])
    {
      this.regex := regex;
      routes, hostIndex, wildcardHosts, priorities := map[], map[], [], [];
      log := [];
    }

    method AddRoute(route: Route) returns (r: Result<(), RoutingError>)
      requires Valid()
      modifies this
      ensures Valid()
      ensures Now() == Added(regex, old(Now()), route)
      ensures r == match Validation(regex, route) { case Some(e) => Err(e) case None => Ok(()) }
    {
      var error := Validation(regex, route);
      if error.Some? {
        return Err(error.value);
      }
      IndexHosts(route.matchers, route.id);
      priorities := StableSort(priorities + [(route.priority, route.id)], Descending());
      routes := routes[route.id := route];
      ListedAfterAdd(hostIndex, old(hostIndex), log, Register(route));
      log := log + [Register(route)];
      return Ok(());
    }

    /** The loop over the matchers of a new route. */
    method IndexHosts(matchers: seq<Matcher>, id: string)
      modifies `hostIndex, `wildcardHosts
      ensures Indexed(hostIndex, old(hostIndex), id, HostsOf(matchers))
      ensures wildcardHosts == WildcardsOnto(old(wildcardHosts), id, HostsOf(matchers))
    {
      ghost var was, pairs := hostIndex, wildcardHosts;
      for i := 0 to |matchers|
        invariant Indexed(hostIndex, was, id, HostsOf(matchers[..i]))
        invariant wildcardHosts == WildcardsOnto(pairs, id, HostsOf(matchers[..i]))
      {
        HostsStep(matchers, i);
        if matchers[i].Host? {
          IndexHost(matchers[i].host, id, was, pairs, HostsOf(matchers[..i]));
        }
      }
      assert matchers[..|matchers|] == matchers;
    }

    /** One host matcher, after those before it. */
    method IndexHost(host: string, id: string, ghost was: map<string, seq<string>>, ghost pairs: seq<(string, string)>,
                     ghost before: seq<string>)
      requires Indexed(hostIndex, was, id, before) && wildcardHosts == WildcardsOnto(pairs, id, before)
      modifies `hostIndex, `wildcardHosts
      ensures Indexed(hostIndex, was, id, before + [host])
      ensures wildcardHosts == WildcardsOnto(pairs, id, before + [host])
    {
      IndexStep(hostIndex, was, id, before, host);
      OntoPush([], pairs, id, before, host, host);
      if IsWildcard(host) {
        wildcardHosts := wildcardHosts + [(host, id)];
      } else {
        hostIndex := hostIndex[host := Lookup(hostIndex, host) + [id]];
      }
    }

    method RemoveRoute(id: string) returns (r: Result<(), RoutingError>)
      requires Valid()
      modifies this
      ensures Valid()
      ensures Now() == Removed(old(Now()), id)
      ensures r == if id in old(routes) then Ok(()) else Err(RouteNotFound)
    {
      if id !in routes {
        return Err(RouteNotFound);
      }
      var route := routes[id];
      routes := routes - {id};
      UnindexHosts(route.matchers, id);
      priorities := Filter(priorities, OwnerIsNot(id));
      ListedAfterRemove(hostIndex, old(hostIndex), log, id, HostSet(route));
      log := DetachAll(log, id, HostSet(route));
      return Ok(());
    }

    /** The loop over the matchers of a removed route. */
    method UnindexHosts(matchers: seq<Matcher>, id: string)
      modifies `hostIndex, `wildcardHosts
      ensures Unindexed(hostIndex, old(hostIndex), id, set h | h in HostsOf(matchers))
      ensures wildcardHosts == Filter(old(wildcardHosts), PatternNotIn(set h | h in HostsOf(matchers)))
    {
      ghost var gone: set<string> := {};
      NoPatternRemoved(wildcardHosts);
      for i := 0 to |matchers|
        invariant gone == set h | h in HostsOf(matchers[..i])
        invariant Unindexed(hostIndex, old(hostIndex), id, gone)
        invariant wildcardHosts == Filter(old(wildcardHosts), PatternNotIn(gone))
      {
        HostsStep(matchers, i);
        if matchers[i].Host? {
          var host := matchers[i].host;
          UnindexStep(hostIndex, old(hostIndex), id, gone, host);
          PatternsOneByOne(old(wildcardHosts), gone, host);
          if host in hostIndex {
            hostIndex := hostIndex[host := Filter(hostIndex[host], IdIsNot(id))];
          }
          wildcardHosts := Filter(wildcardHosts, PatternNotIn({host}));
          gone := gone + {host};
        }
      }
      assert matchers[..|matchers|] == matchers;
    }

    method MatchRequest(req: RequestInfo) returns (r: Option<Route>)
      requires Valid()
      ensures r == Answer(regex, Now(), req)
    {
      r := FirstOf(Lookup(hostIndex, req.host), req);
      if r == None {
        r := MatchWildcards(req);
        if r == None {
          r := MatchHostFree(req);
        }
      }
    }

    /** The loop over the ids of one exact host. */
    method FirstOf(ids: seq<string>, req: RequestInfo) returns (r: Option<Route>)
      ensures r == FirstStored(regex, routes, ids, req)
    {
      for i := 0 to |ids|
        invariant FirstStored(regex, routes, ids[..i], req) == None
      {
        assert ids[..i + 1][..i] == ids[..i];
        if ids[i] in routes && MatchesRoute(regex, routes[ids[i]], req) {
          FirstStoredPrefix(regex, routes, ids, i + 1, req);
          return Some(routes[ids[i]]);
        }
      }
      assert ids[..|ids|] == ids;
      return None;
    }

    /** The loop over the wildcard index. */
    method MatchWildcards(req: RequestInfo) returns (r: Option<Route>)
      requires Valid()
      ensures r == FirstStored(regex, routes, StrictIds(wildcardHosts, req.host), req)
    {
      OnlyWildcardsIndexed(log);
      for i := 0 to |wildcardHosts|
        invariant FirstStored(regex, routes, StrictIds(wildcardHosts[..i], req.host), req) == None
      {
        var (pattern, id) := wildcardHosts[i];
        if MatchesWildcard(pattern, req.host) && id in routes && MatchesRoute(regex, routes[id], req) {
          StrictHit(regex, routes, wildcardHosts, i, req);
          return Some(routes[id]);
        }
        StrictMiss(regex, routes, wildcardHosts, i, req);
      }
      assert wildcardHosts[..|wildcardHosts|] == wildcardHosts;
      return None;
    }

    /** The loop over the priority list, for routes without a host matcher. */
    method MatchHostFree(req: RequestInfo) returns (r: Option<Route>)
      ensures r == FirstStored(regex, routes, HostFreeIds(routes, priorities), req)
    {
      for i := 0 to |priorities|
        invariant FirstStored(regex, routes, HostFreeIds(routes, priorities[..i]), req) == None
      {
        var id := priorities[i].1;
        if id in routes && HostFree(routes[id]) && MatchesRoute(regex, routes[id], req) {
          HostFreeHit(regex, routes, priorities, i, req);
          return Some(routes[id]);
        }
        HostFreeMiss(regex, routes, priorities, i, req);
      }
      assert priorities[..|priorities|] == priorities;
      return None;
    }

    method Clear()
      requires Valid()
      modifies this
      ensures Valid()
      ensures Now() == State(map[], [])
    {
      routes, hostIndex, wildcardHosts, priorities := map[], map[], [], [];
      log := [];
    }
  }

  lemma {:induction false} FirstStoredPrefix(
    re: RegexEngine, routes: map<string, Route>, ids: seq<string>, n: nat, req: RequestInfo)
    requires n <= |ids| && FirstStored(re, routes, ids[..n], req).Some?
    ensures FirstStored(re, routes, ids, req) == FirstStored(re, routes, ids[..n], req)
    decreases |ids|
  {
    if n == |ids| {
      assert ids[..n] == ids;
    } else {
      assert ids[..|ids| - 1][..n] == ids[..n];
      FirstStoredPrefix(re, routes, ids[..|ids| - 1], n, req);
    }
  }

  lemma {:induction false} StrictPrefix(pairs: seq<(string, string)>, n: nat, host: string)
    requires n <= |pairs|
    ensures StrictIds(pairs[..n], host) <= StrictIds(pairs, host)
    decreases |pairs|
  {
    if n == |pairs| {
      assert pairs[..n] == pairs;
    } else {
      assert pairs[..|pairs| - 1][..n] == pairs[..n];
      StrictPrefix(pairs[..|pairs| - 1], n, host);
    }
  }

  /** The first hit of a list is the answer of every list it begins. */
  lemma FirstHit(
    re: RegexEngine, routes: map<string, Route>, sofar: seq<string>, id: string, all: seq<string>, req: RequestInfo)
    requires sofar + [id] <= all && FirstStored(re, routes, sofar, req) == None
    requires id in routes && MatchesRoute(re, routes[id], req)
    ensures FirstStored(re, routes, all, req) == Some(routes[id])
  {
    assert (sofar + [id])[..|sofar|] == sofar;
    assert all[..|sofar| + 1] == sofar + [id];
    FirstStoredPrefix(re, routes, all, |sofar| + 1, req);
  }

  lemma StrictHit(
    re: RegexEngine, routes: map<string, Route>, pairs: seq<(string, string)>, i: nat, req: RequestInfo)
    requires i < |pairs| && FirstStored(re, routes, StrictIds(pairs[..i], req.host), req) == None
    requires IsWildcard(pairs[i].0) && MatchesWildcard(pairs[i].0, req.host)
    requires pairs[i].1 in routes && MatchesRoute(re, routes[pairs[i].1], req)
    ensures FirstStored(re, routes, StrictIds(pairs, req.host), req) == Some(routes[pairs[i].1])
  {
    assert pairs[..i + 1][..i] == pairs[..i];
    StrictPrefix(pairs, i + 1, req.host);
    FirstHit(re, routes, StrictIds(pairs[..i], req.host), pairs[i].1, StrictIds(pairs, req.host), req);
  }

  lemma StrictMiss(
    re: RegexEngine, routes: map<string, Route>, pairs: seq<(string, string)>, i: nat, req: RequestInfo)
    requires i < |pairs| && FirstStored(re, routes, StrictIds(pairs[..i], req.host), req) == None
    requires IsWildcard(pairs[i].0)
    requires !(MatchesWildcard(pairs[i].0, req.host) && pairs[i].1 in routes &&
               MatchesRoute(re, routes[pairs[i].1], req))
    ensures FirstStored(re, routes, StrictIds(pairs[..i + 1], req.host), req) == None
  {
    assert pairs[..i + 1][..i] == pairs[..i];
    var sofar := StrictIds(pairs[..i], req.host);
    assert (sofar + [pairs[i].1])[..|sofar|] == sofar;
  }

  lemma {:induction false} HostFreePrefix(routes: map<string, Route>, ranking: seq<(int, string)>, n: nat)
    requires n <= |ranking|
    ensures HostFreeIds(routes, ranking[..n]) <= HostFreeIds(routes, ranking)
    decreases |ranking|
  {
    if n == |ranking| {
      assert ranking[..n] == ranking;
    } else {
      assert ranking[..|ranking| - 1][..n] == ranking[..n];
      HostFreePrefix(routes, ranking[..|ranking| - 1], n);
    }
  }

  lemma HostFreeHit(
    re: RegexEngine, routes: map<string, Route>, ranking: seq<(int, string)>, i: nat, req: RequestInfo)
    requires i < |ranking| && FirstStored(re, routes, HostFreeIds(routes, ranking[..i]), req) == None
    requires var id := ranking[i].1; id in routes && HostFree(routes[id]) && MatchesRoute(re, routes[id], req)
    ensures FirstStored(re, routes, HostFreeIds(routes, ranking), req) == Some(routes[ranking[i].1])
  {
    assert ranking[..i + 1][..i] == ranking[..i];
    HostFreePrefix(routes, ranking, i + 1);
    FirstHit(re, routes, HostFreeIds(routes, ranking[..i]), ranking[i].1, HostFreeIds(routes, ranking), req);
  }

  lemma HostFreeMiss(
    re: RegexEngine, routes: map<string, Route>, ranking: seq<(int, string)>, i: nat, req: RequestInfo)
    requires i < |ranking| && FirstStored(re, routes, HostFreeIds(routes, ranking[..i]), req) == None
    requires var id := ranking[i].1;
      !(id in routes && HostFree(routes[id]) && MatchesRoute(re, routes[id], req))
    ensures FirstStored(re, routes, HostFreeIds(routes, ranking[..i + 1]), req) == None
  {
    assert ranking[..i + 1][..i] == ranking[..i];
    var sofar := HostFreeIds(routes, ranking[..i]);
    assert (sofar + [ranking[i].1])[..|sofar|] == sofar;
  }
}
