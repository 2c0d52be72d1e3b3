/** What the router makes of a route's `enabled` flag and of its priority. */
module RoutingPriorities {
  import opened Routing
  import opened RoutingTheorems
  import opened Sorting
  import opened Wrappers

  // ------------------------------------------------------- the enabled flag

  function Reflag(route: Route, flag: Route -> bool): Route { route.(enabled := flag(route)) }

  function ReflagAll(routes: map<string, Route>, flag: Route -> bool): map<string, Route> {
    map id | id in routes :: Reflag(routes[id], flag)
  }

  function Reflagged(r: Option<Route>, flag: Route -> bool): Option<Route> {
    if r.Some? then Some(Reflag(r.value, flag)) else None
  }

  lemma {:induction false} FirstStoredIgnoresFlags(
    re: RegexEngine, routes: map<string, Route>, flag: Route -> bool, ids: seq<string>, req: RequestInfo)
    ensures FirstStored(re, ReflagAll(routes, flag), ids, req) == Reflagged(FirstStored(re, routes, ids, req), flag)
  {
    if ids != [] {
      FirstStoredIgnoresFlags(re, routes, flag, ids[..|ids| - 1], req);
    }
  }

  lemma {:induction false} HostFreeIdsIgnoreFlags(
    routes: map<string, Route>, flag: Route -> bool, ranking: seq<(int, string)>)
    ensures HostFreeIds(ReflagAll(routes, flag), ranking) == HostFreeIds(routes, ranking)
  {
    if ranking != [] {
      HostFreeIdsIgnoreFlags(routes, flag, ranking[..|ranking| - 1]);
    }
  }

  /** In every state, however the `enabled` flags of its routes are set, the same route is answered. */
  lemma EnabledIsIgnored(re: RegexEngine, st: State, flag: Route -> bool, req: RequestInfo)
    ensures Answer(re, State(ReflagAll(st.routes, flag), st.log), req) == Reflagged(Answer(re, st, req), flag)
  {
    FirstStoredIgnoresFlags(re, st.routes, flag, ExactIds(st.log, req.host), req);
    FirstStoredIgnoresFlags(re, st.routes, flag, StrictIds(WildcardPairs(st.log), req.host), req);
    HostFreeIdsIgnoreFlags(st.routes, flag, Ranking(st.log));
    FirstStoredIgnoresFlags(re, st.routes, flag, HostFreeIds(st.routes, Ranking(st.log)), req);
  }

  // ------------------------------------------------------- host-free routes

  lemma FirstInPush(re: RegexEngine, table: seq<Route>, r: Route, tier: Tier, req: RequestInfo)
    ensures FirstIn(re, table + [r], tier, req) ==
      FirstIn(re, table, tier, req).OrElse(if Hit(re, r, tier, req) then Some(r) else None)
  {
    assert (table + [r])[..|table|] == table;
  }

  /** Of two hits the one of higher priority, and the first if neither is higher. */
  function Better(first: Option<Route>, second: Option<Route>): Option<Route> {
    if first.None? then second
    else if second.Some? && second.value.priority > first.value.priority then second
    else first
  }

  function HitOf(re: RegexEngine, r: Route, tier: Tier, req: RequestInfo): Option<Route> {
    if Hit(re, r, tier, req) then Some(r) else None
  }

  lemma {:induction false} FirstInInsert(re: RegexEngine, s: seq<Route>, x: Route, tier: Tier, req: RequestInfo)
    requires SortedBy(s, RouteRank())
    ensures FirstIn(re, Insert(s, x, RouteRank()), tier, req) ==
      Better(FirstIn(re, s, tier, req), HitOf(re, x, tier, req))
  {
    if s == [] || RouteRank()(s[|s| - 1]) <= RouteRank()(x) {
      FirstInPush(re, s, x, tier, req);
      FirstInIsFirst(re, s, tier, req);
    } else {
      var front, last := s[..|s| - 1], s[|s| - 1];
      FirstInInsert(re, front, x, tier, req);
      FirstInPush(re, Insert(front, x, RouteRank()), last, tier, req);
      FirstInIsFirst(re, front, tier, req);
    }
  }

  /** Place i holds a hit that no other hit outranks and no earlier one equals. */
  ghost predicate BestAt(re: RegexEngine, table: seq<Route>, tier: Tier, req: RequestInfo, i: nat) {
    && i < |table| && Hit(re, table[i], tier, req)
    && forall j | 0 <= j < |table| && Hit(re, table[j], tier, req) ::
         table[j].priority < table[i].priority || (table[j].priority == table[i].priority && i <= j)
  }

  ghost predicate IsBest(re: RegexEngine, table: seq<Route>, tier: Tier, req: RequestInfo, r: Option<Route>) {
    if r.Some? then exists i: nat :: BestAt(re, table, tier, req, i) && table[i] == r.value
    else forall j | 0 <= j < |table| :: !Hit(re, table[j], tier, req)
  }

  lemma BestAfterPush(re: RegexEngine, front: seq<Route>, last: Route, tier: Tier, req: RequestInfo, r: Option<Route>)
    requires IsBest(re, front, tier, req, r)
    ensures IsBest(re, front + [last], tier, req, Better(r, HitOf(re, last, tier, req)))
  {
    var table := front + [last];
    assert forall j | 0 <= j < |front| :: table[j] == front[j];
    if r.Some? {
      var i: nat :| BestAt(re, front, tier, req, i) && front[i] == r.value;
      if Hit(re, last, tier, req) && last.priority > front[i].priority {
        assert BestAt(re, table, tier, req, |front|);
      } else {
        assert BestAt(re, table, tier, req, i);
      }
    } else if Hit(re, last, tier, req) {
      assert BestAt(re, table, tier, req, |front|);
    }
  }

  lemma AnswerAfterPush(re: RegexEngine, front: seq<Route>, last: Route, tier: Tier, req: RequestInfo)
    ensures FirstIn(re, ByPriority(front + [last]), tier, req) ==
      Better(FirstIn(re, ByPriority(front), tier, req), HitOf(re, last, tier, req))
  {
    assert (front + [last])[..|front|] == front;
    SortIsSorted(front, RouteRank());
    FirstInInsert(re, ByPriority(front), last, tier, req);
  }

  lemma StaysBest(re: RegexEngine, front: seq<Route>, last: Route, tier: Tier, req: RequestInfo)
    requires IsBest(re, front, tier, req, FirstIn(re, ByPriority(front), tier, req))
    ensures IsBest(re, front + [last], tier, req, FirstIn(re, ByPriority(front + [last]), tier, req))
  {
    AnswerAfterPush(re, front, last, tier, req);
    BestAfterPush(re, front, last, tier, req, FirstIn(re, ByPriority(front), tier, req));
  }

  lemma {:induction false} SortedAnswerIsBest(re: RegexEngine, table: seq<Route>, tier: Tier, req: RequestInfo)
    ensures IsBest(re, table, tier, req, FirstIn(re, ByPriority(table), tier, req))
  {
    if table != [] {
      SortedAnswerIsBest(re, table[..|table| - 1], tier, req);
      StaysBest(re, table[..|table| - 1], table[|table| - 1], tier, req);
      assert table[..|table| - 1] + [table[|table| - 1]] == table;
    }
  }

  /** A host-free answer has the highest priority of all host-free routes that match; of several such routes it is the
      one registered first. */
  lemma HostFreeAnswerIsBest(re: RegexEngine, table: seq<Route>, req: RequestInfo, r: Route)
    requires TableScan(re, table, req) == Some(r) && HostFree(r)
    ensures exists i: nat :: BestAt(re, table, NoHost, req, i) && table[i] == r
  {
    FirstInIsFirst(re, table, ExactHost, req);
    FirstInIsFirst(re, table, WildcardHost, req);
    SortedAnswerIsBest(re, table, NoHost, req);
  }

  // ------------------------------------------------- priority over all tiers

  /** The answer of a host tier is the tier's first hit, and no tier before it has one. */
  ghost predicate AnsweredAt(re: RegexEngine, table: seq<Route>, req: RequestInfo, tier: Tier, i: nat) {
    && i < |table| && Hit(re, table[i], tier, req)
    && (tier != ExactHost ==> forall j | 0 <= j < |table| :: !Hit(re, table[j], ExactHost, req))
    && (tier == NoHost ==> forall j | 0 <= j < |table| :: !Hit(re, table[j], WildcardHost, req))
    && (tier != NoHost ==> forall j | 0 <= j < i :: !Hit(re, table[j], tier, req))
    && (tier == NoHost ==> BestAt(re, table, NoHost, req, i))
  }

  lemma ScanAnswersAt(re: RegexEngine, table: seq<Route>, req: RequestInfo, r: Route)
    returns (tier: Tier, i: nat)
    requires TableScan(re, table, req) == Some(r)
    ensures AnsweredAt(re, table, req, tier, i) && table[i] == r
  {
    FirstInIsFirst(re, table, ExactHost, req);
    FirstInIsFirst(re, table, WildcardHost, req);
    SortedAnswerIsBest(re, table, NoHost, req);
    if FirstIn(re, table, ExactHost, req).Some? {
      tier := ExactHost;
      i :| 0 <= i < |table| && table[i] == r && Hit(re, r, tier, req) &&
        forall j | 0 <= j < i :: !Hit(re, table[j], tier, req);
    } else if FirstIn(re, table, WildcardHost, req).Some? {
      tier := WildcardHost;
      i :| 0 <= i < |table| && table[i] == r && Hit(re, r, tier, req) &&
        forall j | 0 <= j < i :: !Hit(re, table[j], tier, req);
    } else {
      tier := NoHost;
      i :| BestAt(re, table, NoHost, req, i) && table[i] == r;
    }
  }

  /** Route j is behind route i in the order of the walk, or is not walked to at all: it was registered later in the
      same host tier, or it is not in that tier, or only its bare suffix is asked for. */
  ghost predicate PassedOver(table: seq<Route>, host: string, tier: Tier, i: nat, j: nat)
    requires i < |table| && j < |table|
  {
    if tier == NoHost then BareSuffixOnly(table[j], host)
    else i < j || !InTier(table[j], tier, host)
  }

  ghost predicate Outranks(re: RegexEngine, req: RequestInfo, s: Route, r: Route) {
    MatchesRoute(re, s, req) && s.priority > r.priority
  }

  lemma OutrankingIsNoHit(re: RegexEngine, table: seq<Route>, req: RequestInfo, i: nat, j: nat, tier: Tier)
    requires AnsweredAt(re, table, req, tier, i) && j < |table| && Outranks(re, req, table[j], table[i])
    ensures tier == NoHost ==> forall other :: !InTier(table[j], other, req.host)
  {
    forall other ensures tier == NoHost ==> !Hit(re, table[j], other, req) {
      match other
      case ExactHost =>
      case WildcardHost =>
      case NoHost =>
    }
    assert forall other :: Hit(re, table[j], other, req) <==> InTier(table[j], other, req.host);
  }

  lemma OutrankedByPassedOver(re: RegexEngine, table: seq<Route>, req: RequestInfo, tier: Tier, i: nat, j: nat)
    requires AnsweredAt(re, table, req, tier, i) && j < |table| && Outranks(re, req, table[j], table[i])
    ensures PassedOver(table, req.host, tier, i, j)
  {
    TiersOfMatching(re, table[j], req);
    assert tier == NoHost ==> forall other :: !InTier(table[j], other, req.host) by {
      OutrankingIsNoHit(re, table, req, i, j, tier);
    }
  }

  /** The answered route has the highest priority of all matching routes iff no route it passed over outranks it.  A
      host-free answer passes over bare suffixes only; the answer of a host tier, over all the rest of the table. */
  lemma HighestPriorityIff(re: RegexEngine, table: seq<Route>, req: RequestInfo, r: Route)
    returns (tier: Tier, i: nat)
    requires TableScan(re, table, req) == Some(r)
    ensures AnsweredAt(re, table, req, tier, i) && table[i] == r
    ensures (exists j: nat | j < |table| :: Outranks(re, req, table[j], r)) <==>
      (exists j: nat | j < |table| :: PassedOver(table, req.host, tier, i, j) && Outranks(re, req, table[j], r))
  {
    tier, i := ScanAnswersAt(re, table, req, r);
    if j: nat :| j < |table| && Outranks(re, req, table[j], r) {
      OutrankedByPassedOver(re, table, req, tier, i, j);
    }
  }

  /** A route that matches in a host tier is answered over a host-free route of higher priority that matches as well. */
  lemma HostBeatsPriority(re: RegexEngine, a: Route, b: Route, req: RequestInfo, tier: Tier)
    requires tier != NoHost && Hit(re, a, tier, req)
    requires HostFree(b) && MatchesRoute(re, b, req) && b.priority > a.priority
    ensures TableScan(re, [a, b], req) == TableScan(re, [b, a], req) == Some(a) && Outranks(re, req, b, a)
  {
    FirstOfTwo(re, a, b, ExactHost, req);
    FirstOfTwo(re, b, a, ExactHost, req);
    FirstOfTwo(re, a, b, WildcardHost, req);
    FirstOfTwo(re, b, a, WildcardHost, req);
  }

  // ------------------------------------------- tables in order of priority

  /** The first tier of the walk that can answer with the route. */
  function TierOf(r: Route): Tier {
    if exists m | m in r.matchers :: m.Host? && !IsWildcard(m.host) then ExactHost
    else if HostFree(r) then NoHost
    else WildcardHost
  }

  predicate Before(s: Tier, t: Tier) { s != t && (s == ExactHost || t == NoHost) }

  /** The walk prefers route j to route i: its tier comes first, or it was registered first in the same host tier, or
      both are host-free. */
  predicate Ahead(table: seq<Route>, j: nat, i: nat)
    requires i < |table| && j < |table|
  {
    Before(TierOf(table[j]), TierOf(table[i])) ||
    (TierOf(table[j]) == TierOf(table[i]) && (TierOf(table[j]) == NoHost || j < i))
  }

  /** The walk does not prefer the route of higher priority. */
  predicate Inverted(table: seq<Route>, i: nat, j: nat) {
    i < |table| && j < |table| && table[j].priority > table[i].priority && !Ahead(table, j, i)
  }

  /** Priorities descend along the tiers, and within a host tier along the registrations. */
  ghost predicate Descends(table: seq<Route>) { forall i: nat, j: nat :: !Inverted(table, i, j) }

  ghost predicate NoBareSuffix(re: RegexEngine, table: seq<Route>, req: RequestInfo) {
    forall i | 0 <= i < |table| && MatchesRoute(re, table[i], req) :: !BareSuffixOnly(table[i], req.host)
  }

  /** No matching route outranks the answer. */
  ghost predicate AnswersHighest(re: RegexEngine, table: seq<Route>, req: RequestInfo) {
    var r := TableScan(re, table, req);
    r.Some? ==> forall j | 0 <= j < |table| :: !Outranks(re, req, table[j], r.value)
  }

  lemma HitsItsTier(re: RegexEngine, r: Route, req: RequestInfo)
    requires MatchesRoute(re, r, req) && !BareSuffixOnly(r, req.host)
    ensures Hit(re, r, TierOf(r), req)
    ensures forall tier :: Hit(re, r, tier, req) ==> tier == TierOf(r) || Before(TierOf(r), tier)
  {
    TiersOfMatching(re, r, req);
    var tier :| InTier(r, tier, req.host);
  }

  lemma AnsweredInItsTier(re: RegexEngine, table: seq<Route>, req: RequestInfo, tier: Tier, i: nat)
    requires AnsweredAt(re, table, req, tier, i)
    ensures tier == TierOf(table[i])
    ensures forall j: nat | j < |table| && MatchesRoute(re, table[j], req) && !BareSuffixOnly(table[j], req.host) ::
      TierOf(table[j]) == tier || Before(tier, TierOf(table[j]))
  {
    TiersOfMatching(re, table[i], req);
    HitsItsTier(re, table[i], req);
    forall j: nat | j < |table| && MatchesRoute(re, table[j], req) && !BareSuffixOnly(table[j], req.host)
      ensures Hit(re, table[j], TierOf(table[j]), req)
    {
      HitsItsTier(re, table[j], req);
    }
  }

  /** Such a table answers every request by a matching route of highest priority, unless a bare suffix is asked for. */
  lemma DescendingAnswersHighest(re: RegexEngine, table: seq<Route>, req: RequestInfo)
    requires Descends(table) && NoBareSuffix(re, table, req)
    ensures AnswersHighest(re, table, req)
  {
    if TableScan(re, table, req).Some? {
      var r := TableScan(re, table, req).value;
      var tier, i := ScanAnswersAt(re, table, req, r);
      AnsweredInItsTier(re, table, req, tier, i);
      forall j: nat | j < |table| ensures !Outranks(re, req, table[j], r) {
        assert !Inverted(table, i, j);
        if Outranks(re, req, table[j], r) {
          HitsItsTier(re, table[j], req);
        }
      }
    }
  }

  /** Only routes i and j match, and neither by its bare suffix alone. */
  ghost predicate OnlyThese(re: RegexEngine, table: seq<Route>, req: RequestInfo, i: nat, j: nat) {
    && NoBareSuffix(re, table, req)
    && forall k: nat | k < |table| :: MatchesRoute(re, table[k], req) <==> k == i || k == j
  }

  lemma InvertedIsOutranked(re: RegexEngine, table: seq<Route>, req: RequestInfo, i: nat, j: nat)
    requires Inverted(table, i, j) && OnlyThese(re, table, req, i, j)
    ensures !AnswersHighest(re, table, req)
  {
    ScanAnswersIff(re, table, req);
    assert table[i] in table && MatchesRoute(re, table[i], req);
    var r := TableScan(re, table, req).value;
    var tier, a := ScanAnswersAt(re, table, req, r);
    AnsweredInItsTier(re, table, req, tier, a);
    HitsItsTier(re, table[i], req);
    assert a == i;
    assert Outranks(re, req, table[j], r);
  }

  /** The order is necessary as well where every pair that breaks it has a request that only the two routes match. */
  lemma DescendsIff(re: RegexEngine, table: seq<Route>)
    requires forall i: nat, j: nat | Inverted(table, i, j) :: exists req :: OnlyThese(re, table, req, i, j)
    ensures Descends(table) <==> forall req | NoBareSuffix(re, table, req) :: AnswersHighest(re, table, req)
  {
    if Descends(table) {
      forall req | NoBareSuffix(re, table, req) ensures AnswersHighest(re, table, req) {
        DescendingAnswersHighest(re, table, req);
      }
    }
    if i: nat, j: nat :| Inverted(table, i, j) {
      var req :| OnlyThese(re, table, req, i, j);
      InvertedIsOutranked(re, table, req, i, j);
    }
  }

  // ----------------------------------------------------------- whole runs

  /** Both over whole runs: after a careful run every answer is the first hit of its host tier or the best host-free
      one, and it has the highest priority of all live matching routes iff no route passed over outranks it. */
  lemma RunAnswersByPriorityIff(re: RegexEngine, ops: seq<Op>, req: RequestInfo)
    returns (tier: Tier, i: nat)
    requires Careful(re, ops) && Answer(re, Run(re, ops), req).Some?
    ensures var table := LiveTable(re, ops);
      && AnsweredAt(re, table, req, tier, i) && Answer(re, Run(re, ops), req) == Some(table[i])
      && ((exists j: nat | j < |table| :: Outranks(re, req, table[j], table[i])) <==>
          (exists j: nat | j < |table| ::
             PassedOver(table, req.host, tier, i, j) && Outranks(re, req, table[j], table[i])))
  {
    RouterRefinesScan(re, ops, req);
    tier, i := HighestPriorityIff(re, LiveTable(re, ops), req, Answer(re, Run(re, ops), req).value);
  }

  /** After a careful run whose live routes are in that order, no matching route outranks the answer. */
  lemma RunAnswersHighest(re: RegexEngine, ops: seq<Op>, req: RequestInfo)
    requires Careful(re, ops) && Descends(LiveTable(re, ops)) && NoBareSuffix(re, LiveTable(re, ops), req)
    ensures Answer(re, Run(re, ops), req).Some? ==> forall j | 0 <= j < |LiveTable(re, ops)| ::
              !Outranks(re, req, LiveTable(re, ops)[j], Answer(re, Run(re, ops), req).value)
  {
    RouterRefinesScan(re, ops, req);
    DescendingAnswersHighest(re, LiveTable(re, ops), req);
  }
}
