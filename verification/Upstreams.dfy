/** Upstream selection: the strategies, and how evenly the shared round-robin counter serves. */
module Upstreams {
  import opened Division
  import opened Powers
  import Routing
  import opened Sorting
  import opened Wrappers

  /** The counter is a 64-bit word and wraps around. */
  const WORD: nat := 0x1_0000_0000_0000_0000

  datatype EdgeError = Unavailable

  predicate IsHealthy(u: Routing.Upstream) { u.healthy }

  function Healthy(route: Routing.Route): seq<Routing.Upstream> { Filter(route.upstreams, IsHealthy) }

  function Next(counter: nat): nat { (counter + 1) % WORD }

  function ActiveFor(active: map<string, nat>, url: string): nat { if url in active then active[url] else 0 }

  /** One less, but not below zero. */
  function Saturated(count: nat): nat { if count == 0 then 0 else count - 1 }

  /** The first upstream with the fewest active connections. */
  ghost predicate IsLeast(active: map<string, nat>, healthy: seq<Routing.Upstream>, i: nat) {
    && i < |healthy|
    && (forall j | 0 <= j < |healthy| :: ActiveFor(active, healthy[i].url) <= ActiveFor(active, healthy[j].url))
    && (forall j | 0 <= j < i :: ActiveFor(active, healthy[i].url) < ActiveFor(active, healthy[j].url))
  }

  /** The place among the healthy upstreams that a strategy picks. */
  ghost predicate IsPlace(s: Routing.LoadBalancerStrategy, healthy: seq<Routing.Upstream>, active: map<string, nat>,
                          counter: nat, random: nat, i: nat) {
    && i < |healthy|
    && match s
       case RoundRobin => i == counter % |healthy|
       case WeightedRoundRobin => i == counter % |healthy|
       case LeastConnections => IsLeast(active, healthy, i)
       case IpHash => i == 0
       case Random => i == random
  }

  class ConnectionPool {
    var rrCounter: nat
    var active: map<string, nat>

    constructor ()
      ensures rrCounter == 0 && active == map[]
    {
      rrCounter := 0;
      active := map[];
    }

    method FetchAdd() returns (was: nat)
      requires rrCounter < WORD
      modifies this`rrCounter
      ensures was == old(rrCounter) && rrCounter == Next(old(rrCounter))
    {
      was := rrCounter;
      rrCounter := (rrCounter + 1) % WORD;
    }

    method IncrementActive(upstream: string)
      modifies this`active
      ensures active == old(active)[upstream := ActiveFor(old(active), upstream) + 1]
    {
      if upstream !in active {
        active := active[upstream := 0];
      }
      active := active[upstream := active[upstream] + 1];
    }

    method DecrementActive(upstream: string)
      modifies this`active
      ensures ActiveFor(active, upstream) == Saturated(ActiveFor(old(active), upstream))
      ensures forall url | url != upstream :: ActiveFor(active, url) == ActiveFor(old(active), url)
    {
      if upstream in active {
        active := active[upstream := Saturated(active[upstream])];
      }
    }
  }

  class HttpProxy {
    const pool: ConnectionPool

    constructor (pool: ConnectionPool)
      ensures this.pool == pool
    {
      this.pool := pool;
    }

    method MinByConnections(healthy: seq<Routing.Upstream>) returns (least: nat)
      requires healthy != []
      ensures IsLeast(pool.active, healthy, least)
    {
      least := 0;
      for i := 1 to |healthy|
        invariant least < i && IsLeast(pool.active, healthy[..i], least)
      {
        if ActiveFor(pool.active, healthy[i].url) < ActiveFor(pool.active, healthy[least].url) {
          least := i;
        }
      }
      assert healthy[..|healthy|] == healthy;
    }

    /** `random` is the number drawn for the random strategy, below the number of healthy upstreams. */
    method SelectUpstream(route: Routing.Route, random: nat) returns (r: Result<Routing.Upstream, EdgeError>)
      requires pool.rrCounter < WORD && (Healthy(route) != [] ==> random < |Healthy(route)|)
      modifies pool`rrCounter
      ensures r.Err? <==> forall u | u in route.upstreams :: !u.healthy
      ensures r.Ok? ==> r.value in route.upstreams && r.value.healthy
      ensures r.Ok? ==> exists i: nat |
        IsPlace(route.loadBalancer, Healthy(route), pool.active, old(pool.rrCounter), random, i) ::
        r.value == Healthy(route)[i]
      ensures if r.Ok? && route.loadBalancer in {Routing.RoundRobin, Routing.WeightedRoundRobin}
              then Turn(route, old(pool.rrCounter), r.value, pool.rrCounter)
              else pool.rrCounter == old(pool.rrCounter)
    {
      var healthy := Healthy(route);
      NoneHealthyIff(route);
      if healthy == [] {
        return Err(Unavailable);
      }
      var idx: nat;
      match route.loadBalancer {
        case RoundRobin =>
          var count := pool.FetchAdd();
          idx := count % |healthy|;
        case LeastConnections =>
          idx := MinByConnections(healthy);
        case IpHash =>
          idx := 0 % |healthy|;
        case Random =>
          idx := random;
        case WeightedRoundRobin =>
          var count := pool.FetchAdd();
          idx := count % |healthy|;
      }
      FilterMember(route.upstreams, IsHealthy, healthy[idx]);
      return Ok(healthy[idx]);
    }
  }

  lemma NoneHealthyIff(route: Routing.Route)
    ensures Healthy(route) == [] <==> forall u | u in route.upstreams :: !u.healthy
  {
    if u :| u in route.upstreams && u.healthy {
      FilterMember(route.upstreams, IsHealthy, u);
    } else if Healthy(route) != [] {
      FilterMember(route.upstreams, IsHealthy, Healthy(route)[0]);
    }
  }

  // --------------------------------------------------------------- fairness

  function CounterAfter(c: nat, picks: nat): nat { if picks == 0 then c else Next(CounterAfter(c, picks - 1)) }

  /** Of m consecutive picks among n upstreams from counter c, those that fall on the upstream in place u. */
  function Picks(c: nat, n: nat, m: nat, u: nat): nat
    requires n > 0
  {
    if m == 0 then 0 else Picks(c, n, m - 1, u) + (if CounterAfter(c, m - 1) % n == u then 1 else 0)
  }

  ghost predicate Fair(c: nat, n: nat, m: nat, u: nat)
    requires n > 0
  {
    m / n <= Picks(c, n, m, u) <= (m + n - 1) / n
  }

  lemma {:induction false} CounterCounts(c: nat, picks: nat)
    requires c < WORD
    ensures CounterAfter(c, picks) == (c + picks) % WORD
  {
    if picks > 0 {
      CounterCounts(c, picks - 1);
      AddSmall(c + (picks - 1), 1, WORD);
    }
  }

  /** The numbers below y that leave remainder u. */
  function Hits(y: nat, n: nat, u: nat): nat
    requires n > 0
  {
    y / n + (if y % n > u then 1 else 0)
  }

  lemma OneMoreHit(y: nat, n: nat, u: nat)
    requires u < n
    ensures Hits(y + 1, n, u) == Hits(y, n, u) + (if y % n == u then 1 else 0)
  {
    if n == 1 {
    } else {
      AddSmall(y, 1, n);
    }
  }

  /** The wrapped counter leaves the same remainders as one that never wraps. */
  ghost predicate Aligned(c: nat, n: nat, m: nat)
    requires n > 0
  {
    forall i: nat | i < m :: CounterAfter(c, i) % n == (c + i) % n
  }

  lemma {:induction false} PicksAreHits(c: nat, n: nat, m: nat, u: nat)
    requires u < n && Aligned(c, n, m)
    ensures Picks(c, n, m, u) == Hits(c + m, n, u) - Hits(c, n, u)
  {
    if m > 0 {
      PicksAreHits(c, n, m - 1, u);
      OneMoreHit(c + m - 1, n, u);
      assert CounterAfter(c, m - 1) % n == (c + (m - 1)) % n;
    }
  }

  lemma RoundedUp(m: nat, n: nat)
    requires n > 0
    ensures (m + n - 1) / n == m / n + (if m % n > 0 then 1 else 0)
  {
    AddSmall(m, n - 1, n);
    assert m + n - 1 == m + (n - 1);
  }

  lemma HitsAreEven(c: nat, n: nat, m: nat, u: nat)
    requires u < n
    ensures m / n <= Hits(c + m, n, u) - Hits(c, n, u) <= (m + n - 1) / n
  {
    var p, s := Split(m, n);
    AddSmall(c, s, n);
    AddMultiple(c + s, p, n);
    assert c + m == c + s + p * n;
    RoundedUp(m, n);
  }

  lemma {:induction false} CounterBeforeWrap(c: nat, picks: nat)
    requires c + picks < WORD
    ensures CounterAfter(c, picks) == c + picks
  {
    if picks > 0 {
      CounterBeforeWrap(c, picks - 1);
    }
  }

  lemma NoWrapIsAligned(c: nat, n: nat, m: nat)
    requires n > 0 && c + m <= WORD && c < WORD
    ensures Aligned(c, n, m)
  {
    forall i: nat | i < m ensures CounterAfter(c, i) % n == (c + i) % n {
      CounterBeforeWrap(c, i);
    }
  }

  /** Over any m consecutive turns that do not wrap the counter, every healthy upstream gets its share, rounded down
      or up. */
  lemma TurnsAreFair(c: nat, n: nat, m: nat, u: nat)
    requires u < n && c + m <= WORD && c < WORD
    ensures Fair(c, n, m, u)
  {
    NoWrapIsAligned(c, n, m);
    PicksAreHits(c, n, m, u);
    HitsAreEven(c, n, m, u);
  }

  // ---------------------------------------------------------- wrapping around

  lemma DivisorIsAligned(c: nat, n: nat, m: nat)
    requires n > 0 && c < WORD && WORD % n == 0
    ensures Aligned(c, n, m)
  {
    forall i: nat | i < m ensures CounterAfter(c, i) % n == (c + i) % n {
      CounterCounts(c, i);
      RemainderOfRemainder(c + i, WORD, n);
    }
  }

  /** Turns are fair from every counter and over every stretch. */
  ghost predicate AlwaysFair(n: nat)
    requires n > 0
  {
    forall c: nat, m: nat, u: nat | c < WORD && u < n :: Fair(c, n, m, u)
  }

  lemma UnfairAcrossWrap(n: nat)
    requires 0 < n < WORD && WORD % n != 0
    ensures !AlwaysFair(n)
  {
    var q, r := Split(WORD, n);
    var c := q * n;
    DivisionIsUnique(c, n, q, 0);
    CounterCounts(c, r);
    assert CounterAfter(c, r) == 0;
    PicksGrow(c, n, r, 0);
    assert Picks(c, n, 1, 0) == 1;
    assert Picks(c, n, r + 1, 0) >= 2;
    RoundedUp(r + 1, n);
    assert !Fair(c, n, r + 1, 0) by {
      if r + 1 < n {
        DivisionIsUnique(r + 1, n, 0, r + 1);
      } else {
        DivisionIsUnique(r + 1, n, 1, 0);
      }
    }
  }

  lemma {:induction false} PicksGrow(c: nat, n: nat, m: nat, u: nat)
    requires 0 < n && m > 0
    ensures Picks(c, n, m, u) >= Picks(c, n, 1, u)
  {
    if m > 1 {
      PicksGrow(c, n, m - 1, u);
    }
  }

  /** Counting the wrap-around too, turns are fair exactly when the number of healthy upstreams divides 2^64. */
  lemma FairAcrossWrapIff(n: nat)
    requires 0 < n < WORD
    ensures AlwaysFair(n) <==> WORD % n == 0
  {
    if WORD % n == 0 {
      forall c: nat, m: nat, u: nat | c < WORD && u < n ensures Fair(c, n, m, u) {
        DivisorIsAligned(c, n, m);
        PicksAreHits(c, n, m, u);
        HitsAreEven(c, n, m, u);
      }
    } else {
      UnfairAcrossWrap(n);
    }
  }

  // ------------------------------------------------- runs of SelectUpstream

  /** What one call of `SelectUpstream` does for a route that takes turns: its answer, and the counter after it. */
  ghost predicate Turn(route: Routing.Route, before: nat, u: Routing.Upstream, after: nat) {
    && Healthy(route) != []
    && u == Healthy(route)[before % |Healthy(route)|]
    && after == Next(before)
  }

  /** Consecutive calls for one route, with the counter before and after each. */
  ghost predicate Turns(route: Routing.Route, counters: seq<nat>, answers: seq<Routing.Upstream>) {
    && |counters| == |answers| + 1
    && forall i | 0 <= i < |answers| :: Turn(route, counters[i], answers[i], counters[i + 1])
  }

  function Count(answers: seq<Routing.Upstream>, u: Routing.Upstream): nat {
    if answers == [] then 0 else Count(answers[..|answers| - 1], u) + (if answers[|answers| - 1] == u then 1 else 0)
  }

  /** The upstream in place u is listed nowhere else among the healthy ones. */
  ghost predicate ListedOnce(route: Routing.Route, u: nat) {
    u < |Healthy(route)| && forall v | 0 <= v < |Healthy(route)| && v != u :: Healthy(route)[v] != Healthy(route)[u]
  }

  lemma {:induction false} CountersFollow(
    route: Routing.Route, counters: seq<nat>, answers: seq<Routing.Upstream>, i: nat)
    requires Turns(route, counters, answers) && i < |counters|
    ensures counters[i] == CounterAfter(counters[0], i)
  {
    if i > 0 {
      CountersFollow(route, counters, answers, i - 1);
      assert Turn(route, counters[i - 1], answers[i - 1], counters[i]);
    }
  }

  lemma {:induction false} AnswersAreTurns(
    route: Routing.Route, counters: seq<nat>, answers: seq<Routing.Upstream>, u: nat, m: nat)
    requires Turns(route, counters, answers) && m <= |answers| && ListedOnce(route, u)
    ensures Count(answers[..m], Healthy(route)[u]) == Picks(counters[0], |Healthy(route)|, m, u)
  {
    if m > 0 {
      AnswersAreTurns(route, counters, answers, u, m - 1);
      CountersFollow(route, counters, answers, m - 1);
      assert answers[..m][..m - 1] == answers[..m - 1];
      assert Turn(route, counters[m - 1], answers[m - 1], counters[m]);
    }
  }

  /** Of m consecutive answers that do not wrap the counter, each of n healthy upstreams listed once is floor(m/n) or
      ceil(m/n). */
  lemma AnswersAreFair(route: Routing.Route, counters: seq<nat>, answers: seq<Routing.Upstream>, u: nat)
    requires Turns(route, counters, answers) && ListedOnce(route, u)
    requires counters[0] < WORD && counters[0] + |answers| <= WORD
    ensures var n, m := |Healthy(route)|, |answers|;
      m / n <= Count(answers, Healthy(route)[u]) <= (m + n - 1) / n
  {
    AnswersAreTurns(route, counters, answers, u, |answers|);
    assert answers[..|answers|] == answers;
    TurnsAreFair(counters[0], |Healthy(route)|, |answers|, u);
  }

  // ------------------------------------------------------ active connections

  /** A connection to an upstream begins, as `IncrementActive` counts it, or ends, as `DecrementActive` does. */
  datatype Event = Begins(url: string) | Ends(url: string)

  /** The number of active connections to an upstream after the events. */
  function ActiveAfter(events: seq<Event>, url: string): nat {
    if events == [] then 0
    else
      var before, last := ActiveAfter(events[..|events| - 1], url), events[|events| - 1];
      if last.url != url then before else if last.Begins? then before + 1 else Saturated(before)
  }

  /** Connections begun less connections ended, from event i on. */
  function Balance(events: seq<Event>, i: nat, url: string): int
    requires i <= |events|
    decreases |events| - i
  {
    if i == |events| then 0
    else
      (if events[i].url != url then 0 else if events[i].Begins? then 1 else -1) + Balance(events, i + 1, url)
  }

  lemma {:induction false} BalancePush(events: seq<Event>, e: Event, i: nat, url: string)
    requires i <= |events|
    ensures Balance(events + [e], i, url) ==
      Balance(events, i, url) + if e.url != url then 0 else if e.Begins? then 1 else -1
    decreases |events| - i
  {
    if i < |events| {
      BalancePush(events, e, i + 1, url);
      assert (events + [e])[i] == events[i];
    } else {
      assert Balance(events + [e], i + 1, url) == 0;
    }
  }

  /** An event changes the pool's counts as the contract of its method says. */
  ghost predicate Counts(before: map<string, nat>, e: Event, after: map<string, nat>) {
    if e.Begins? then after == before[e.url := ActiveFor(before, e.url) + 1]
    else
      && ActiveFor(after, e.url) == Saturated(ActiveFor(before, e.url))
      && forall url | url != e.url :: ActiveFor(after, url) == ActiveFor(before, url)
  }

  /** The counts of a pool over time. */
  ghost predicate Counting(counts: seq<map<string, nat>>, events: seq<Event>) {
    && |counts| == |events| + 1 && counts[0] == map[]
    && forall i | 0 <= i < |events| :: Counts(counts[i], events[i], counts[i + 1])
  }

  lemma {:induction false} PoolCounts(counts: seq<map<string, nat>>, events: seq<Event>, url: string, i: nat)
    requires Counting(counts, events) && i <= |events|
    ensures ActiveFor(counts[i], url) == ActiveAfter(events[..i], url)
  {
    if i > 0 {
      PoolCounts(counts, events, url, i - 1);
      assert Counts(counts[i - 1], events[i - 1], counts[i]);
      assert events[..i][..i - 1] == events[..i - 1];
    }
  }

  /** The count is the largest balance of any stretch up to now: an end without a beginning is not counted, and takes
      nothing from later ones. */
  lemma {:induction false} ActiveIsBalance(events: seq<Event>, url: string) returns (i: nat)
    ensures i <= |events| && ActiveAfter(events, url) == Balance(events, i, url)
    ensures forall j: nat | j <= |events| :: Balance(events, j, url) <= ActiveAfter(events, url)
  {
    if events == [] {
      i := 0;
    } else {
      var front, last := events[..|events| - 1], events[|events| - 1];
      assert events == front + [last];
      i := ActiveIsBalance(front, url);
      forall j: nat | j <= |front|
        ensures Balance(events, j, url) ==
          Balance(front, j, url) + if last.url != url then 0 else if last.Begins? then 1 else -1
      {
        BalancePush(front, last, j, url);
      }
      if last == Ends(url) && ActiveAfter(front, url) == 0 {
        i := |events|;
      }
    }
  }

  /** Where no connection ends before it begins, the count is those begun less those ended. */
  lemma ActiveIsOpen(events: seq<Event>, url: string)
    requires forall i: nat | i <= |events| :: Balance(events, i, url) <= Balance(events, 0, url)
    ensures ActiveAfter(events, url) == Balance(events, 0, url)
  {
    var i := ActiveIsBalance(events, url);
  }

  // ------------------------------------------------------------ the word size

  lemma WordIsPower()
    ensures WORD == Pow2(64)
  {
    assert Pow2(2) == 4;
    PowersMultiply(2, 2);
    PowersMultiply(4, 4);
    PowersMultiply(8, 8);
    PowersMultiply(16, 16);
    PowersMultiply(32, 32);
  }

  lemma EvenDivisor(p: nat, q: nat, m: nat)
    requires m > 0 && 2 * p == q * (2 * m)
    ensures p % m == 0
  {
    assert q * (2 * m) == 2 * (q * m);
    MultipleHasNoRemainder(q, m);
  }

  lemma OddDivisor(p: nat, q: nat, k: nat)
    requires 2 * p == q * (2 * k + 1)
    ensures p % (2 * k + 1) == 0
  {
    assert q * (2 * k + 1) == 2 * (q * k) + q;
    var h: nat := p - q * k;
    assert q == 2 * h;
    assert 2 * (h * (2 * k + 1)) == (2 * h) * (2 * k + 1);
    MultipleHasNoRemainder(h, 2 * k + 1);
  }

  /** Half of an even divisor of an even number divides half of it, and an odd divisor does itself. */
  lemma HalfDivides(n: nat, p: nat)
    requires n > 0 && (2 * p) % n == 0
    ensures if n % 2 == 0 then p % (n / 2) == 0 else p % n == 0
  {
    var q, r := Split(2 * p, n);
    if n % 2 == 0 {
      EvenDivisor(p, q, n / 2);
    } else {
      OddDivisor(p, q, n / 2);
    }
  }

  /** A number divides a power of two iff it is one itself. */
  lemma {:induction false} DividesPowerIff(n: nat, k: nat)
    requires n > 0
    ensures Pow2(k) % n == 0 <==> exists j: nat :: j <= k && n == Pow2(j)
  {
    if j: nat :| j <= k && n == Pow2(j) {
      PowersMultiply(k - j, j);
      MultipleHasNoRemainder(Pow2(k - j), n);
    }
    if Pow2(k) % n == 0 {
      if k == 0 {
        assert n == Pow2(0);
      } else {
        HalfDivides(n, Pow2(k - 1));
        DividesPowerIff(if n % 2 == 0 then n / 2 else n, k - 1);
        var j: nat :| j <= k - 1 && (if n % 2 == 0 then n / 2 else n) == Pow2(j);
        assert n % 2 == 0 ==> n == Pow2(j + 1);
      }
    }
  }

  /** So turns are fair across the wrap exactly for powers of two. */
  lemma FairForPowersOfTwoIff(n: nat)
    requires 0 < n < WORD
    ensures AlwaysFair(n) <==> exists j: nat :: j <= 64 && n == Pow2(j)
  {
    FairAcrossWrapIff(n);
    WordIsPower();
    DividesPowerIff(n, 64);
  }
}
