/** What the router's answers mean: the indexes refine a scan of the route table. */
module RoutingTheorems {
  import opened Routing
  import opened Sorting
  import opened Wrappers

  // ------------------------------------------------------- the reference scan

  datatype Tier = ExactHost | WildcardHost | NoHost

  /** A tier is read off the route's own matchers, without any index. */
  predicate InTier(route: Route, tier: Tier, host: string) {
    match tier
    case ExactHost => exists m | m in route.matchers :: m.Host? && !IsWildcard(m.host)
    case WildcardHost =>
      exists m | m in route.matchers :: m.Host? && IsWildcard(m.host) && MatchesWildcard(m.host, host)
    case NoHost => HostFree(route)
  }

  predicate Hit(re: RegexEngine, route: Route, tier: Tier, req: RequestInfo) {
    InTier(route, tier, req.host) && MatchesRoute(re, route, req)
  }

  function FirstIn(re: RegexEngine, table: seq<Route>, tier: Tier, req: RequestInfo): Option<Route> {
    if table == [] then None
    else
      var last := table[|table| - 1];
      FirstIn(re, table[..|table| - 1], tier, req).OrElse(if Hit(re, last, tier, req) then Some(last) else None)
  }

  function RouteRank(): Route -> int { (r: Route) => -r.priority }

  function ByPriority(table: seq<Route>): seq<Route> { StableSort(table, RouteRank()) }

  /** The reference: exact hosts, then wildcards, then host-free routes by descending priority. */
  function TableScan(re: RegexEngine, table: seq<Route>, req: RequestInfo): Option<Route> {
    FirstIn(re, table, ExactHost, req)
    .OrElse(FirstIn(re, table, WildcardHost, req))
    .OrElse(FirstIn(re, ByPriority(table), NoHost, req))
  }

  lemma {:induction false} FirstInIsFirst(re: RegexEngine, table: seq<Route>, tier: Tier, req: RequestInfo)
    ensures match FirstIn(re, table, tier, req)
      case Some(r) => exists i :: 0 <= i < |table| && table[i] == r && Hit(re, r, tier, req)
                               && forall j | 0 <= j < i :: !Hit(re, table[j], tier, req)
      case None => forall i | 0 <= i < |table| :: !Hit(re, table[i], tier, req)
  {
    if table != [] {
      var front := table[..|table| - 1];
      FirstInIsFirst(re, front, tier, req);
      if FirstIn(re, front, tier, req).Some? {
        var i :| 0 <= i < |front| && front[i] == FirstIn(re, front, tier, req).value
                 && Hit(re, front[i], tier, req) && forall j | 0 <= j < i :: !Hit(re, front[j], tier, req);
        assert table[i] == front[i] && forall j | 0 <= j < i :: table[j] == front[j];
      }
    }
  }

  // ---------------------------------------------------------- tidy states

  function Regs(table: seq<Route>): seq<Registration> {
    if table == [] then [] else Regs(table[..|table| - 1]) + [Register(table[|table| - 1])]
  }

  ghost predicate Stored(routes: map<string, Route>, table: seq<Route>) {
    forall i | 0 <= i < |table| :: table[i].id in routes && routes[table[i].id] == table[i]
  }

  ghost predicate DistinctIds(table: seq<Route>) {
    forall i, j | 0 <= i < j < |table| :: table[i].id != table[j].id
  }

  ghost predicate Listing(routes: map<string, Route>, table: seq<Route>) {
    forall id | id in routes :: exists i :: 0 <= i < |table| && table[i].id == id
  }

  /** The state holds exactly the table, and each of its routes is still indexed as it was added. */
  ghost predicate Tidy(st: State, table: seq<Route>) {
    && DistinctIds(table)
    && Stored(st.routes, table)
    && Listing(st.routes, table)
    && st.log == Regs(table)
  }

  function StoredHit(re: RegexEngine, routes: map<string, Route>, id: string, req: RequestInfo): Option<Route> {
    if id in routes && MatchesRoute(re, routes[id], req) then Some(routes[id]) else None
  }

  lemma FirstStoredPush(re: RegexEngine, routes: map<string, Route>, ids: seq<string>, id: string, req: RequestInfo)
    ensures FirstStored(re, routes, ids + [id], req)
         == FirstStored(re, routes, ids, req).OrElse(StoredHit(re, routes, id, req))
  {
    assert (ids + [id])[..|ids|] == ids;
  }

  lemma {:induction false} ExactOntoHit(
    re: RegexEngine, routes: map<string, Route>, ids: seq<string>, id: string, hosts: seq<string>, req: RequestInfo)
    ensures FirstStored(re, routes, ExactOnto(ids, id, hosts, req.host), req)
         == FirstStored(re, routes, ids, req).OrElse(
              if req.host in hosts && !IsWildcard(req.host) then StoredHit(re, routes, id, req) else None)
  {
    if hosts != [] {
      var front, last := hosts[..|hosts| - 1], hosts[|hosts| - 1];
      ExactOntoHit(re, routes, ids, id, front, req);
      FirstStoredPush(re, routes, ExactOnto(ids, id, front, req.host), id, req);
      assert hosts == front + [last];
    }
  }

  ghost predicate StrictAmong(hosts: seq<string>, host: string) {
    exists h | h in hosts :: IsWildcard(h) && MatchesWildcard(h, host)
  }

  lemma {:induction false} WildcardOntoHit(
    re: RegexEngine, routes: map<string, Route>, pairs: seq<(string, string)>, id: string, hosts: seq<string>,
    req: RequestInfo)
    ensures FirstStored(re, routes, StrictIds(WildcardsOnto(pairs, id, hosts), req.host), req)
         == FirstStored(re, routes, StrictIds(pairs, req.host), req).OrElse(
              if StrictAmong(hosts, req.host) then StoredHit(re, routes, id, req) else None)
  {
    if hosts != [] {
      var front, last := hosts[..|hosts| - 1], hosts[|hosts| - 1];
      WildcardOntoHit(re, routes, pairs, id, front, req);
      assert hosts == front + [last];
      StrictAmongPush(front, last, req.host);
      if IsWildcard(last) {
        StrictPush(WildcardsOnto(pairs, id, front), (last, id), req.host);
        FirstStoredPush(re, routes, StrictIds(WildcardsOnto(pairs, id, front), req.host), id, req);
      }
    }
  }

  lemma StrictAmongPush(hosts: seq<string>, last: string, host: string)
    ensures StrictAmong(hosts + [last], host) <==>
      StrictAmong(hosts, host) || (IsWildcard(last) && MatchesWildcard(last, host))
  {
    assert forall h: string :: h in hosts + [last] <==> h in hosts || h == last;
  }

  lemma StrictPush(pairs: seq<(string, string)>, e: (string, string), host: string)
    ensures StrictIds(pairs + [e], host) ==
      if IsWildcard(e.0) && MatchesWildcard(e.0, host) then StrictIds(pairs, host) + [e.1] else StrictIds(pairs, host)
  {
    assert (pairs + [e])[..|pairs|] == pairs;
  }

  lemma TierHosts(route: Route, host: string)
    ensures InTier(route, ExactHost, host) <==> exists h | h in HostsOf(route.matchers) :: !IsWildcard(h)
    ensures InTier(route, WildcardHost, host) <==> StrictAmong(HostsOf(route.matchers), host)
  {
    forall h: string { HostsMember(route.matchers, h); }
    forall m | m in route.matchers && m.Host? ensures m.host in HostsOf(route.matchers) {
      HostsMember(route.matchers, m.host);
      assert m == Host(m.host);
    }
  }

  lemma {:induction false} HostTiersRefine(
    re: RegexEngine, routes: map<string, Route>, table: seq<Route>, req: RequestInfo)
    requires Stored(routes, table)
    ensures FirstStored(re, routes, ExactIds(Regs(table), req.host), req) == FirstIn(re, table, ExactHost, req)
    ensures FirstStored(re, routes, StrictIds(WildcardPairs(Regs(table)), req.host), req)
         == FirstIn(re, table, WildcardHost, req)
  {
    if table != [] {
      var front, last := table[..|table| - 1], table[|table| - 1];
      HostTiersRefine(re, routes, front, req);
      ImagesPush(Regs(front), Register(last), req.host);
      ExactOntoHit(re, routes, ExactIds(Regs(front), req.host), last.id, HostsOf(last.matchers), req);
      WildcardOntoHit(re, routes, WildcardPairs(Regs(front)), last.id, HostsOf(last.matchers), req);
      TierHosts(last, req.host);
      if MatchesRoute(re, last, req) {
        ExactHostIsTheHost(re, last, req);
      }
    }
  }

  lemma ExactHostIsTheHost(re: RegexEngine, route: Route, req: RequestInfo)
    requires MatchesRoute(re, route, req)
    ensures InTier(route, ExactHost, req.host) <==> req.host in HostsOf(route.matchers) && !IsWildcard(req.host)
  {
    TierHosts(route, req.host);
    forall h | h in HostsOf(route.matchers) && !IsWildcard(h) ensures h == req.host {
      HostsMember(route.matchers, h);
      assert MatchesSingle(re, Host(h), req);
    }
  }

  function Pairs(table: seq<Route>): seq<(int, string)> {
    if table == [] then []
    else Pairs(table[..|table| - 1]) + [(table[|table| - 1].priority, table[|table| - 1].id)]
  }

  lemma {:induction false} PairsInsert(s: seq<Route>, x: Route)
    ensures Insert(Pairs(s), (x.priority, x.id), Descending()) == Pairs(Insert(s, x, RouteRank()))
  {
    if s == [] || RouteRank()(s[|s| - 1]) <= RouteRank()(x) {
      assert (s + [x])[..|s|] == s;
    } else {
      var front, last := s[..|s| - 1], s[|s| - 1];
      PairsInsert(front, x);
      var p := Pairs(front);
      assert (p + [(last.priority, last.id)])[..|p|] == p;
      var t := Insert(front, x, RouteRank());
      assert (t + [last])[..|t|] == t;
    }
  }

  lemma {:induction false} PairsSort(table: seq<Route>)
    ensures RankedPairs(Regs(table)) == Pairs(table)
    ensures Ranking(Regs(table)) == Pairs(ByPriority(table))
  {
    if table != [] {
      var front, last := table[..|table| - 1], table[|table| - 1];
      PairsSort(front);
      ImagesPush(Regs(front), Register(last), "");
      PairsInsert(ByPriority(front), last);
      var p := Pairs(front);
      assert (p + [(last.priority, last.id)])[..|p|] == p;
    }
  }

  lemma HostFreePush(routes: map<string, Route>, ranking: seq<(int, string)>, e: (int, string))
    ensures HostFreeIds(routes, ranking + [e]) ==
      if e.1 in routes && HostFree(routes[e.1]) then HostFreeIds(routes, ranking) + [e.1]
      else HostFreeIds(routes, ranking)
  {
    assert (ranking + [e])[..|ranking|] == ranking;
  }

  lemma {:induction false} HostFreeTierRefines(
    re: RegexEngine, routes: map<string, Route>, ranked: seq<Route>, req: RequestInfo)
    requires Stored(routes, ranked)
    ensures FirstStored(re, routes, HostFreeIds(routes, Pairs(ranked)), req) == FirstIn(re, ranked, NoHost, req)
  {
    if ranked != [] {
      var front, last := ranked[..|ranked| - 1], ranked[|ranked| - 1];
      HostFreeTierRefines(re, routes, front, req);
      HostFreePush(routes, Pairs(front), (last.priority, last.id));
      FirstStoredPush(re, routes, HostFreeIds(routes, Pairs(front)), last.id, req);
    }
  }

  lemma SortStaysStored(routes: map<string, Route>, table: seq<Route>)
    requires Stored(routes, table)
    ensures Stored(routes, ByPriority(table))
  {
    var sorted := ByPriority(table);
    SortPermutes(table, RouteRank());
    forall i | 0 <= i < |sorted| ensures sorted[i].id in routes && routes[sorted[i].id] == sorted[i] {
      assert sorted[i] in multiset(sorted);
      assert sorted[i] in table;
    }
  }

  /** In a tidy state the indexes give exactly the answer of the scan, order included. */
  lemma IndexRefinesScan(re: RegexEngine, st: State, table: seq<Route>, req: RequestInfo)
    requires Tidy(st, table)
    ensures Answer(re, st, req) == TableScan(re, table, req)
  {
    HostTiersRefine(re, st.routes, table, req);
    PairsSort(table);
    SortStaysStored(st.routes, table);
    HostFreeTierRefines(re, st.routes, ByPriority(table), req);
  }

  // ------------------------------------------------- when there is an answer

  /** All hosts the route asks for are wildcards whose bare suffix is the request's host. */
  predicate BareSuffixOnly(route: Route, host: string) {
    !HostFree(route) && forall m | m in route.matchers && m.Host? :: IsWildcard(m.host) && m.host[1..] == host
  }

  lemma TiersOfMatching(re: RegexEngine, r: Route, req: RequestInfo)
    requires MatchesRoute(re, r, req)
    ensures BareSuffixOnly(r, req.host) <==> forall tier :: !InTier(r, tier, req.host)
  {
    forall m | m in r.matchers && m.Host? && IsWildcard(m.host)
      ensures MatchesWildcard(m.host, req.host) <==> m.host[1..] != req.host
    {
      assert MatchesSingle(re, m, req);
    }
    if !BareSuffixOnly(r, req.host) && !HostFree(r) {
      var m :| m in r.matchers && m.Host? && !(IsWildcard(m.host) && m.host[1..] == req.host);
      assert InTier(r, if IsWildcard(m.host) then WildcardHost else ExactHost, req.host);
    }
    assert HostFree(r) ==> InTier(r, NoHost, req.host);
  }

  lemma FirstInSomeIff(re: RegexEngine, table: seq<Route>, tier: Tier, req: RequestInfo)
    ensures FirstIn(re, table, tier, req).Some? <==> exists r :: r in table && Hit(re, r, tier, req)
  {
    FirstInIsFirst(re, table, tier, req);
  }

  lemma ScanFindsTier(re: RegexEngine, table: seq<Route>, req: RequestInfo)
    ensures TableScan(re, table, req).Some? <==> exists r, tier :: r in table && Hit(re, r, tier, req)
  {
    var sorted := ByPriority(table);
    SortPermutes(table, RouteRank());
    forall r ensures r in table <==> r in sorted {
      assert r in table <==> r in multiset(table);
      assert r in sorted <==> r in multiset(sorted);
    }
    FirstInSomeIff(re, table, ExactHost, req);
    FirstInSomeIff(re, table, WildcardHost, req);
    FirstInSomeIff(re, sorted, NoHost, req);
    if r, tier :| r in table && Hit(re, r, tier, req) {
      assert r in sorted;
      match tier
      case ExactHost =>
      case WildcardHost =>
      case NoHost =>
    }
  }

  /** The scan answers exactly when a stored route matches and is not reached by its bare suffix alone. */
  lemma ScanAnswersIff(re: RegexEngine, table: seq<Route>, req: RequestInfo)
    ensures TableScan(re, table, req).Some? <==>
      exists r :: r in table && MatchesRoute(re, r, req) && !BareSuffixOnly(r, req.host)
  {
    ScanFindsTier(re, table, req);
    if r, tier :| r in table && Hit(re, r, tier, req) {
      TiersOfMatching(re, r, req);
      assert !BareSuffixOnly(r, req.host);
    }
    if r :| r in table && MatchesRoute(re, r, req) && !BareSuffixOnly(r, req.host) {
      TiersOfMatching(re, r, req);
      var tier :| InTier(r, tier, req.host);
      assert Hit(re, r, tier, req);
    }
  }

  /** A route whose one host is a wildcard matches the bare suffix, and is not answered for it. */
  lemma BareSuffixIsRefused(re: RegexEngine, r: Route, pattern: string, req: RequestInfo)
    requires r.matchers == [Host(pattern)] && IsWildcard(pattern) && req.host == pattern[1..]
    ensures MatchesRoute(re, r, req) && TableScan(re, [r], req) == None
  {
    assert req.host[|req.host| - |pattern[1..]|..] == pattern[1..];
    assert r.matchers[0] == Host(pattern);
    assert MatchesSingle(re, Host(pattern), req);
    assert forall m | m in r.matchers :: m == Host(pattern);
    assert BareSuffixOnly(r, req.host);
    ScanAnswersIff(re, [r], req);
  }

  lemma {:induction false} FirstStoredIsSound(
    re: RegexEngine, routes: map<string, Route>, ids: seq<string>, req: RequestInfo)
    ensures var r := FirstStored(re, routes, ids, req);
      r.Some? ==> MatchesRoute(re, r.value, req) && exists id :: id in routes && routes[id] == r.value
  {
    if ids != [] {
      FirstStoredIsSound(re, routes, ids[..|ids| - 1], req);
    }
  }

  /** Whatever the history, an answered route is stored and satisfies all its matchers. */
  lemma AnswersAreSound(re: RegexEngine, st: State, req: RequestInfo)
    ensures var r := Answer(re, st, req);
      r.Some? ==> MatchesRoute(re, r.value, req) && exists id :: id in st.routes && st.routes[id] == r.value
  {
    FirstStoredIsSound(re, st.routes, ExactIds(st.log, req.host), req);
    FirstStoredIsSound(re, st.routes, StrictIds(WildcardPairs(st.log), req.host), req);
    FirstStoredIsSound(re, st.routes, HostFreeIds(st.routes, Ranking(st.log)), req);
  }

  // --------------------------------------------------------------- removal

  function RouteIdIsNot(id: string): Route -> bool { (r: Route) => r.id != id }

  function Without(table: seq<Route>, id: string): seq<Route> { Filter(table, RouteIdIsNot(id)) }

  ghost predicate CarriesNone(route: Route, removed: set<string>) {
    forall h | h in removed && IsWildcard(h) :: Host(h) !in route.matchers
  }

  /** No other route of the table carries one of the removed wildcard patterns. */
  ghost predicate Unshared(table: seq<Route>, id: string, removed: set<string>) {
    forall r | r in table && r.id != id :: CarriesNone(r, removed)
  }

  lemma {:induction false} AllStay(hosts: seq<string>, removed: set<string>)
    ensures Filter(hosts, HostStays(removed, false)) == hosts
       <==> forall h | h in hosts :: !(h in removed && IsWildcard(h))
    ensures |Filter(hosts, HostStays(removed, false))| <= |hosts|
  {
    if hosts != [] {
      var front, last := hosts[..|hosts| - 1], hosts[|hosts| - 1];
      AllStay(front, removed);
      assert hosts == front + [last];
      if HostStays(removed, false)(last) {
        var f := Filter(front, HostStays(removed, false));
        if f + [last] == hosts {
          assert f == (f + [last])[..|f|] == front;
        }
      }
    }
  }

  lemma {:induction false} NoneStay(hosts: seq<string>, removed: set<string>)
    requires forall h | h in hosts :: h in removed
    ensures Filter(hosts, HostStays(removed, true)) == []
  {
    if hosts != [] {
      var front := hosts[..|hosts| - 1];
      assert hosts == front + [hosts[|hosts| - 1]];
      NoneStay(front, removed);
    }
  }

  lemma DetachOther(route: Route, id: string, removed: set<string>)
    requires route.id != id
    ensures Detach(Register(route), id, removed).ranked
    ensures Detach(Register(route), id, removed) == Register(route) <==> CarriesNone(route, removed)
  {
    AllStay(HostsOf(route.matchers), removed);
    forall h: string { HostsMember(route.matchers, h); }
  }

  lemma {:induction false} SamePush<T>(a: seq<T>, x: T, b: seq<T>, y: T)
    ensures a + [x] == b + [y] <==> a == b && x == y
  {
    if a + [x] == b + [y] {
      assert a == (a + [x])[..|a|] == (b + [y])[..|b|] == b;
      assert x == (a + [x])[|a|] == (b + [y])[|b|] == y;
    }
  }

  lemma {:induction false} RegsPush(table: seq<Route>, route: Route)
    ensures Regs(table + [route]) == Regs(table) + [Register(route)]
    ensures |Regs(table)| == |table|
  {
    assert (table + [route])[..|table|] == table;
    if table != [] {
      var front, last := table[..|table| - 1], table[|table| - 1];
      RegsPush(front, last);
    }
  }

  /** Removing leaves the registrations of the other routes intact exactly when no pattern is shared. */
  lemma {:induction false} DetachTidy(table: seq<Route>, id: string, removed: set<string>)
    requires forall r | r in table && r.id == id :: HostSet(r) == removed
    ensures DetachAll(Regs(table), id, removed) == Regs(Without(table, id)) <==> Unshared(table, id, removed)
  {
    if table != [] {
      var front, last := table[..|table| - 1], table[|table| - 1];
      assert table == front + [last];
      DetachTidy(front, id, removed);
      RegsPush(front, last);
      assert Regs(table)[..|front|] == Regs(front);
      if last.id == id {
        NoneStay(HostsOf(last.matchers), removed);
      } else {
        DetachOther(last, id, removed);
        RegsPush(Without(front, id), last);
        SamePush(DetachAll(Regs(front), id, removed), Detach(Register(last), id, removed),
                 Regs(Without(front, id)), Register(last));
      }
    }
  }

  lemma {:induction false} WithoutKeeps(table: seq<Route>, id: string)
    requires DistinctIds(table)
    ensures DistinctIds(Without(table, id))
    ensures forall r :: r in Without(table, id) <==> r in table && r.id != id
  {
    if table != [] {
      var front, last := table[..|table| - 1], table[|table| - 1];
      assert table == front + [last];
      WithoutKeeps(front, id);
      if last.id != id {
        var w := Without(front, id);
        forall i | 0 <= i < |w| ensures w[i].id != last.id {
          assert w[i] in w;
          assert w[i] in front;
        }
      }
    }
  }

  /** A removal keeps the state tidy exactly when no other route shares a wildcard pattern. */
  lemma RemovalStaysTidyIff(st: State, table: seq<Route>, id: string)
    requires Tidy(st, table) && id in st.routes
    ensures Tidy(Removed(st, id), Without(table, id)) <==> Unshared(table, id, HostSet(st.routes[id]))
  {
    var removed := HostSet(st.routes[id]);
    assert forall r | r in table && r.id == id :: HostSet(r) == removed;
    DetachTidy(table, id, removed);
    TableAfterRemoval(st, table, id);
  }

  lemma TableAfterRemoval(st: State, table: seq<Route>, id: string)
    requires Tidy(st, table) && id in st.routes
    ensures var next, rest := Removed(st, id), Without(table, id);
      DistinctIds(rest) && Stored(next.routes, rest) && Listing(next.routes, rest)
  {
    WithoutKeeps(table, id);
    var next, rest := Removed(st, id), Without(table, id);
    forall i | 0 <= i < |rest| ensures rest[i].id in next.routes && next.routes[rest[i].id] == rest[i] {
      assert rest[i] in rest;
      assert rest[i] in table;
    }
    forall other | other in next.routes ensures exists i :: 0 <= i < |rest| && rest[i].id == other {
      var i :| 0 <= i < |table| && table[i].id == other;
      assert table[i] in table;
      assert table[i] in rest;
    }
  }

  /** An accepted addition keeps the state tidy exactly when its id is fresh. */
  lemma AdditionStaysTidyIff(re: RegexEngine, st: State, table: seq<Route>, route: Route)
    requires Tidy(st, table) && Validation(re, route).None?
    ensures Tidy(Added(re, st, route), table + [route]) <==> route.id !in st.routes
  {
    RegsPush(table, route);
    if route.id in st.routes {
      var i :| 0 <= i < |table| && table[i].id == route.id;
      var all := table + [route];
      assert all[i].id == all[|table|].id;
    } else {
      TableAfterAddition(st.routes, table, route);
    }
  }

  lemma TableAfterAddition(routes: map<string, Route>, table: seq<Route>, route: Route)
    requires DistinctIds(table) && Stored(routes, table) && Listing(routes, table) && route.id !in routes
    ensures var next, all := routes[route.id := route], table + [route];
      DistinctIds(all) && Stored(next, all) && Listing(next, all)
  {
    var next, all := routes[route.id := route], table + [route];
    forall i | 0 <= i < |table| ensures all[i].id != route.id {
      assert all[i] == table[i];
    }
    forall id | id in next ensures exists i :: 0 <= i < |all| && all[i].id == id {
      if id == route.id {
        assert all[|table|].id == id;
      } else {
        var i :| 0 <= i < |table| && table[i].id == id;
        assert all[i].id == id;
      }
    }
  }

  /** Adding a route and removing it again restores the state, ranking ties included,
      exactly when its id was fresh and its wildcard patterns were its own. */
  lemma AddThenRemoveIff(re: RegexEngine, st: State, table: seq<Route>, route: Route)
    requires Tidy(st, table) && Validation(re, route).None?
    ensures Removed(Added(re, st, route), route.id) == st
       <==> route.id !in st.routes && Unshared(table, route.id, HostSet(route))
  {
    if route.id !in st.routes {
      FreshThenRemoved(re, st, table, route);
    } else {
      assert route.id !in Removed(Added(re, st, route), route.id).routes;
    }
  }

  lemma FreshThenRemoved(re: RegexEngine, st: State, table: seq<Route>, route: Route)
    requires st.log == Regs(table) && forall i | 0 <= i < |table| :: table[i].id != route.id
    requires Validation(re, route).None? && route.id !in st.routes
    ensures Removed(Added(re, st, route), route.id) == st <==> Unshared(table, route.id, HostSet(route))
  {
    FreshDetached(table, route);
    RegsPush(table, route);
    AddedThenRemoved(re, st, route);
  }

  /** What is left of a state after a fresh route was added and removed again. */
  lemma AddedThenRemoved(re: RegexEngine, st: State, route: Route)
    requires Validation(re, route).None? && route.id !in st.routes
    ensures Removed(Added(re, st, route), route.id) ==
      State(st.routes, DetachAll(st.log + [Register(route)], route.id, HostSet(route)))
  {
    assert st.routes[route.id := route] - {route.id} == st.routes;
    assert st.routes[route.id := route][route.id] == route;
  }

  lemma {:induction false} FreshDetached(table: seq<Route>, route: Route)
    requires forall i | 0 <= i < |table| :: table[i].id != route.id
    ensures DetachAll(Regs(table + [route]), route.id, HostSet(route)) == Regs(table)
       <==> Unshared(table, route.id, HostSet(route))
  {
    var all, removed := table + [route], HostSet(route);
    KeepsAllOthers(table, route.id);
    FilterPush(table, route, RouteIdIsNot(route.id));
    assert Without(all, route.id) == table;
    forall r | r in all ensures r.id == route.id <==> r !in table {
      assert r == route || r in table;
    }
    assert forall r | r in all && r.id == route.id :: r == route;
    DetachTidy(all, route.id, removed);
    assert Unshared(all, route.id, removed) ==> Unshared(table, route.id, removed) by {
      assert forall r | r in table :: r in all;
    }
  }

  lemma {:induction false} KeepsAllOthers(table: seq<Route>, id: string)
    requires forall i | 0 <= i < |table| :: table[i].id != id
    ensures Without(table, id) == table
  {
    if table != [] {
      KeepsAllOthers(table[..|table| - 1], id);
    }
  }

  // --------------------------------------- adding and removing, in any state

  lemma {:induction false} DeadIdIsSkipped(re: RegexEngine, routes: map<string, Route>, ids: seq<string>, id: string,
                                           req: RequestInfo)
    requires id !in routes
    ensures FirstStored(re, routes, Filter(ids, IdIsNot(id)), req) == FirstStored(re, routes, ids, req)
  {
    if ids != [] {
      var front, last := ids[..|ids| - 1], ids[|ids| - 1];
      DeadIdIsSkipped(re, routes, front, id, req);
      FirstStoredPush(re, routes, Filter(front, IdIsNot(id)), last, req);
    }
  }

  lemma {:induction false} NotOnto(ids: seq<string>, id: string, hosts: seq<string>, host: string)
    requires host !in hosts
    ensures ExactOnto(ids, id, hosts, host) == ids
  {
    if hosts != [] {
      NotOnto(ids, id, hosts[..|hosts| - 1], host);
    }
  }

  /** No stored route owns an entry under one of the patterns. */
  ghost predicate NoLiveEntry(routes: map<string, Route>, pairs: seq<(string, string)>, removed: set<string>) {
    forall i | 0 <= i < |pairs| :: pairs[i].0 in removed ==> pairs[i].1 !in routes
  }

  lemma {:induction false} OntoAddsNoLiveEntry(
    routes: map<string, Route>, pairs: seq<(string, string)>, id: string, hosts: seq<string>, removed: set<string>)
    requires NoLiveEntry(routes, pairs, removed) && id !in routes
    ensures NoLiveEntry(routes, WildcardsOnto(pairs, id, hosts), removed)
  {
    if hosts != [] {
      OntoAddsNoLiveEntry(routes, pairs, id, hosts[..|hosts| - 1], removed);
    }
  }

  lemma {:induction false} DeadEntriesAreSkipped(
    re: RegexEngine, routes: map<string, Route>, pairs: seq<(string, string)>, removed: set<string>, req: RequestInfo)
    requires NoLiveEntry(routes, pairs, removed)
    ensures FirstStored(re, routes, StrictIds(Filter(pairs, PatternNotIn(removed)), req.host), req) ==
      FirstStored(re, routes, StrictIds(pairs, req.host), req)
  {
    if pairs != [] {
      var front, last := pairs[..|pairs| - 1], pairs[|pairs| - 1];
      DeadEntriesAreSkipped(re, routes, front, removed, req);
      StrictPush(Filter(front, PatternNotIn(removed)), last, req.host);
      FirstStoredPush(re, routes, StrictIds(Filter(front, PatternNotIn(removed)), req.host), last.1, req);
      FirstStoredPush(re, routes, StrictIds(front, req.host), last.1, req);
    }
  }

  lemma {:induction false} DeadOwnerIsNotRanked(routes: map<string, Route>, ranking: seq<(int, string)>, id: string)
    requires id !in routes
    ensures HostFreeIds(routes, Filter(ranking, OwnerIsNot(id))) == HostFreeIds(routes, ranking)
  {
    if ranking != [] {
      var front, last := ranking[..|ranking| - 1], ranking[|ranking| - 1];
      DeadOwnerIsNotRanked(routes, front, id);
      HostFreePush(routes, Filter(front, OwnerIsNot(id)), last);
    }
  }

  lemma RankingWithout(log: seq<Registration>, route: Route)
    ensures Ranking(DetachAll(log + [Register(route)], route.id, HostSet(route))) ==
      Filter(Ranking(log), OwnerIsNot(route.id))
  {
    DetachImages(log + [Register(route)], route.id, HostSet(route), "");
    ImagesPush(log, Register(route), "");
    FilterPush(RankedPairs(log), (route.priority, route.id), OwnerIsNot(route.id));
    FilterSort(RankedPairs(log), Descending(), OwnerIsNot(route.id));
  }

  lemma HostTiersWithout(re: RegexEngine, st: State, route: Route, req: RequestInfo)
    requires route.id !in st.routes && NoLiveEntry(st.routes, WildcardPairs(st.log), HostSet(route))
    ensures var log := DetachAll(st.log + [Register(route)], route.id, HostSet(route));
      && FirstStored(re, st.routes, ExactIds(log, req.host), req) ==
           FirstStored(re, st.routes, ExactIds(st.log, req.host), req)
      && FirstStored(re, st.routes, StrictIds(WildcardPairs(log), req.host), req) ==
           FirstStored(re, st.routes, StrictIds(WildcardPairs(st.log), req.host), req)
  {
    var hosts, ids, pairs := HostsOf(route.matchers), ExactIds(st.log, req.host), WildcardPairs(st.log);
    DetachImages(st.log + [Register(route)], route.id, HostSet(route), req.host);
    ImagesPush(st.log, Register(route), req.host);
    if req.host in hosts {
      DeadIdIsSkipped(re, st.routes, ExactOnto(ids, route.id, hosts, req.host), route.id, req);
      ExactOntoHit(re, st.routes, ids, route.id, hosts, req);
    } else {
      NotOnto(ids, route.id, hosts, req.host);
    }
    OntoAddsNoLiveEntry(st.routes, pairs, route.id, hosts, HostSet(route));
    DeadEntriesAreSkipped(re, st.routes, WildcardsOnto(pairs, route.id, hosts), HostSet(route), req);
    WildcardOntoHit(re, st.routes, pairs, route.id, hosts, req);
  }

  /** In every state, tidy or not: adding a fresh route and removing it again leaves the answer to every request
      unchanged if no stored route has an entry under one of its patterns. */
  lemma AddThenRemoveKeepsAnswers(re: RegexEngine, st: State, route: Route, req: RequestInfo)
    requires route.id !in st.routes && NoLiveEntry(st.routes, WildcardPairs(st.log), HostSet(route))
    ensures Answer(re, Removed(Added(re, st, route), route.id), req) == Answer(re, st, req)
  {
    if Validation(re, route).None? {
      AddedThenRemoved(re, st, route);
      HostTiersWithout(re, st, route, req);
      RankingWithout(st.log, route);
      DeadOwnerIsNotRanked(st.routes, Ranking(st.log), route.id);
    }
  }

  /** With a shared pattern the other route is stored, matches, and is never answered again. */
  lemma SharedPatternLosesTheOtherRoute(re: RegexEngine, a: Route, b: Route, pattern: string, req: RequestInfo)
    requires a.id != b.id && a.matchers == b.matchers == [Host(pattern)]
    requires IsWildcard(pattern) && MatchesWildcard(pattern, req.host)
    ensures var st := State(map[a.id := a, b.id := b], [Register(a), Register(b)]);
      && Tidy(st, [a, b])
      && Answer(re, st, req) == Some(a)
      && b.id in Removed(st, a.id).routes && MatchesRoute(re, b, req)
      && Answer(re, Removed(st, a.id), req) == None
  {
    var st := State(map[a.id := a, b.id := b], [Register(a), Register(b)]);
    BothRegistered(a, b);
    assert Host(pattern) in a.matchers;
    IndexRefinesScan(re, st, [a, b], req);
    OnlyHostMatcher(re, a, pattern, req);
    OnlyHostMatcher(re, b, pattern, req);
    FirstOfTwo(re, a, b, ExactHost, req);
    FirstOfTwo(re, a, b, WildcardHost, req);
    LostPatternState(a, b, pattern);
    LostPatternAnswer(re, st.routes - {a.id}, b, req);
  }

  lemma RegsOfTwo(a: Route, b: Route)
    ensures Regs([a, b]) == [Register(a), Register(b)]
  {
    RegsPush([], a);
    RegsPush([a], b);
    assert [] + [a] == [a] && [a] + [b] == [a, b];
    assert [Register(a)] + [Register(b)] == [Register(a), Register(b)];
  }

  lemma TableOfTwo(a: Route, b: Route, routes: map<string, Route>)
    requires a.id != b.id && routes == map[a.id := a, b.id := b]
    ensures DistinctIds([a, b]) && Stored(routes, [a, b]) && Listing(routes, [a, b])
  {
    var table := [a, b];
    forall id | id in routes ensures exists i :: 0 <= i < |table| && table[i].id == id {
      assert table[0].id == a.id && table[1].id == b.id;
    }
  }

  lemma BothRegistered(a: Route, b: Route)
    requires a.id != b.id
    ensures Tidy(State(map[a.id := a, b.id := b], [Register(a), Register(b)]), [a, b])
  {
    RegsOfTwo(a, b);
    TableOfTwo(a, b, map[a.id := a, b.id := b]);
  }

  lemma OnlyHostMatcher(re: RegexEngine, r: Route, pattern: string, req: RequestInfo)
    requires r.matchers == [Host(pattern)] && IsWildcard(pattern) && MatchesWildcard(pattern, req.host)
    ensures MatchesRoute(re, r, req) && InTier(r, WildcardHost, req.host) && !InTier(r, ExactHost, req.host)
  {
    assert r.matchers[0] == Host(pattern);
  }

  lemma FirstOfTwo(re: RegexEngine, a: Route, b: Route, tier: Tier, req: RequestInfo)
    ensures FirstIn(re, [a, b], tier, req) ==
      (if Hit(re, a, tier, req) then Some(a) else if Hit(re, b, tier, req) then Some(b) else None)
  {
    assert [a, b][..1] == [a] && [a][..0] == [];
    assert FirstIn(re, [a], tier, req) == if Hit(re, a, tier, req) then Some(a) else None;
  }

  lemma LostPatternAnswer(re: RegexEngine, routes: map<string, Route>, b: Route, req: RequestInfo)
    requires b.id in routes && routes[b.id] == b && !HostFree(b)
    ensures Answer(re, State(routes, [Registration(b.id, [], b.priority, true)]), req) == None
  {
    var lost := Registration(b.id, [], b.priority, true);
    ImagesPush([], lost, req.host);
    assert [] + [lost] == [lost];
    var ranked := [(b.priority, b.id)];
    SortOfSorted(ranked, Descending());
    assert ranked[..0] == [];
    assert HostFreeIds(routes, ranked) == [];
  }

  lemma LostPatternState(a: Route, b: Route, pattern: string)
    requires a.id != b.id && a.matchers == b.matchers == [Host(pattern)] && IsWildcard(pattern)
    ensures DetachAll([Register(a), Register(b)], a.id, HostSet(a)) == [Registration(b.id, [], b.priority, true)]
  {
    var removed, first, second := HostSet(a), Register(a), Register(b);
    OnePattern(a, pattern, removed);
    OnePattern(b, pattern, removed);
    assert Detach(first, a.id, removed) == Registration(a.id, [], a.priority, false);
    assert Detach(second, a.id, removed) == Registration(b.id, [], b.priority, true);
    DetachTwo(first, second, a.id, removed);
  }

  lemma DetachTwo(first: Registration, second: Registration, id: string, removed: set<string>)
    requires var d := Detach(first, id, removed); d.hosts == [] && !d.ranked
    requires Detach(second, id, removed).ranked
    ensures DetachAll([first, second], id, removed) == [Detach(second, id, removed)]
  {
    DetachPush([], first, id, removed);
    DetachPush([first], second, id, removed);
    assert [] + [first] == [first] && [first] + [second] == [first, second];
  }

  lemma OnePattern(r: Route, pattern: string, removed: set<string>)
    requires r.matchers == [Host(pattern)] && IsWildcard(pattern)
    ensures HostSet(r) == {pattern}
    ensures pattern in removed ==> forall own :: Filter(HostsOf(r.matchers), HostStays(removed, own)) == []
  {
    assert r.matchers[..0] == [];
    assert HostsOf(r.matchers) == [pattern];
    assert [pattern][..0] == [];
  }

  // ------------------------------------------------------------- whole runs

  datatype Op = Add(route: Route) | Remove(id: string) | Clear

  function Apply(re: RegexEngine, st: State, op: Op): State {
    match op
    case Add(route) => Added(re, st, route)
    case Remove(id) => Removed(st, id)
    case Clear => State(map[], [])
  }

  function Run(re: RegexEngine, ops: seq<Op>): State {
    if ops == [] then State(map[], []) else Apply(re, Run(re, ops[..|ops| - 1]), ops[|ops| - 1])
  }

  /** The live routes in registration order. */
  function LiveTable(re: RegexEngine, ops: seq<Op>): seq<Route> {
    if ops == [] then []
    else
      var table := LiveTable(re, ops[..|ops| - 1]);
      match ops[|ops| - 1]
      case Add(route) => if Validation(re, route).Some? then table else table + [route]
      case Remove(id) => Without(table, id)
      case Clear => []
  }

  /** Accepted additions use fresh ids; no removal touches a pattern another live route carries. */
  ghost predicate Careful(re: RegexEngine, ops: seq<Op>) {
    ops != [] ==>
      var st, table := Run(re, ops[..|ops| - 1]), LiveTable(re, ops[..|ops| - 1]);
      && Careful(re, ops[..|ops| - 1])
      && match ops[|ops| - 1]
         case Add(route) => Validation(re, route).None? ==> route.id !in st.routes
         case Remove(id) => id in st.routes ==> Unshared(table, id, HostSet(st.routes[id]))
         case Clear => true
  }

  lemma {:induction false} CarefulRunsStayTidy(re: RegexEngine, ops: seq<Op>)
    requires Careful(re, ops)
    ensures Tidy(Run(re, ops), LiveTable(re, ops))
  {
    if ops != [] {
      var before := ops[..|ops| - 1];
      CarefulRunsStayTidy(re, before);
      var st, table := Run(re, before), LiveTable(re, before);
      match ops[|ops| - 1]
      case Add(route) =>
        if Validation(re, route).None? {
          AdditionStaysTidyIff(re, st, table, route);
        }
      case Remove(id) =>
        if id in st.routes {
          RemovalStaysTidyIff(st, table, id);
        } else {
          KeepsAllOthers(table, id);
        }
      case Clear =>
    }
  }

  /** After every careful run the router answers as a scan of the live routes would, and it answers
      exactly when one of them matches by more than its bare suffix. */
  lemma RouterRefinesScan(re: RegexEngine, ops: seq<Op>, req: RequestInfo)
    requires Careful(re, ops)
    ensures Answer(re, Run(re, ops), req) == TableScan(re, LiveTable(re, ops), req)
    ensures Answer(re, Run(re, ops), req).Some? <==>
      exists r :: r in LiveTable(re, ops) && MatchesRoute(re, r, req) && !BareSuffixOnly(r, req.host)
  {
    CarefulRunsStayTidy(re, ops);
    IndexRefinesScan(re, Run(re, ops), LiveTable(re, ops), req);
    ScanAnswersIff(re, LiveTable(re, ops), req);
  }
}
