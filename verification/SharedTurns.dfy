/** One counter for all routes: which upstreams a route reaches when turns of other routes fall between its own. */
module SharedTurns {
  import opened Division
  import opened Sets
  import opened Sorting
  import opened Upstreams

  /** The place among n healthy upstreams that a route's turn falls on, when each of its turns is k turns of the counter
      after the one before. */
  function Place(c: nat, n: nat, k: nat, turn: nat): nat
    requires n > 0
  {
    CounterAfter(c, turn * k) % n
  }

  ghost predicate Reached(c: nat, n: nat, k: nat, u: nat)
    requires n > 0
  {
    exists turn: nat :: turn < n && Place(c, n, k, turn) == u
  }

  // ------------------------------------------------- steps of k modulo n

  /** The greatest common divisor of k and n divides the distance from c to u. */
  predicate InStep(c: nat, n: nat, k: nat, u: nat)
    requires n > 0
  {
    u % Gcd(k, n) == c % Gcd(k, n)
  }

  lemma StepsKeepRemainder(c: nat, n: nat, k: nat, turn: nat)
    requires n > 0
    ensures InStep(c, n, k, (c + turn * k) % n)
  {
    GcdDivides(k, n);
    var g := Gcd(k, n);
    RemainderOfRemainder(c + turn * k, n, g);
    var t, zero := Split(k, g);
    Nest(turn, t, g);
    AddMultiple(c, turn * t, g);
  }

  /** Where remainders by the greatest common divisor agree, some number of steps below n leads from c to u. */
  lemma StepsReach(c: nat, n: nat, k: nat, u: nat) returns (turn: nat)
    requires u < n && InStep(c, n, k, u)
    ensures turn < n && (c + turn * k) % n == u
  {
    var w := Difference(u, c, Gcd(k, n));
    var m: int;
    turn, m := Solve(c, u, n, k, w);
    RemainderByDifference(c + turn * k, n, m, u);
  }

  lemma Difference(u: nat, c: nat, g: nat) returns (w: int)
    requires g > 0 && u % g == c % g
    ensures u - c == w * g
  {
    var p, r := Split(u, g);
    var q, s := Split(c, g);
    w := p - q;
    assert w * g == p * g - q * g;
  }

  lemma IntDivision(x: int, n: nat) returns (q: int, r: nat)
    requires n > 0
    ensures x == q * n + r && r < n
  {
    q, r := x / n, x % n;
  }

  lemma Solve(c: nat, u: nat, n: nat, k: nat, w: int) returns (turn: nat, m: int)
    requires n > 0 && u - c == w * Gcd(k, n)
    ensures turn < n && c + turn * k == m * n + u
  {
    var x, y := GcdCombines(k, n);
    var z: int;
    z, turn := IntDivision(x * w, n);
    m := -(y * w + k * z);
    Eliminate(c, u, n, k, Gcd(k, n), x, y, w, z, turn);
  }

  lemma Eliminate(c: int, u: int, n: int, k: int, g: int, x: int, y: int, w: int, z: int, turn: int)
    requires k * x + n * y == g && u - c == w * g && x * w == z * n + turn
    ensures c + turn * k == -(y * w + k * z) * n + u
  {
    assert w * g == w * (k * x) + w * (n * y);
    assert w * (k * x) == k * (x * w);
    assert k * (x * w) == k * (z * n) + k * turn;
    assert k * (z * n) == (k * z) * n && w * (n * y) == (y * w) * n;
    assert (y * w + k * z) * n == (y * w) * n + (k * z) * n;
    assert -(y * w + k * z) * n == -((y * w + k * z) * n);
  }

  // ------------------------------------------------------------- the turns

  /** The route's n turns see a counter that leaves the remainders of one that never wraps. */
  ghost predicate Straight(c: nat, n: nat, k: nat)
    requires n > 0
  {
    forall turn: nat | turn < n :: Place(c, n, k, turn) == (c + turn * k) % n
  }

  lemma TurnIsStraight(c: nat, n: nat, k: nat, turn: nat)
    requires n > 0 && c < WORD && (c + turn * k < WORD || WORD % n == 0)
    ensures Place(c, n, k, turn) == (c + turn * k) % n
  {
    if c + turn * k < WORD {
      CounterBeforeWrap(c, turn * k);
    } else {
      CounterCounts(c, turn * k);
      RemainderOfRemainder(c + turn * k, WORD, n);
    }
  }

  lemma TurnsAreStraight(c: nat, n: nat, k: nat)
    requires n > 0 && c < WORD && (c + (n - 1) * k < WORD || WORD % n == 0)
    ensures Straight(c, n, k)
  {
    forall turn: nat | turn < n ensures Place(c, n, k, turn) == (c + turn * k) % n {
      assert turn * k <= (n - 1) * k by {
        Add(turn, n - 1 - turn, k);
        assert turn + (n - 1 - turn) == n - 1;
      }
      TurnIsStraight(c, n, k, turn);
    }
  }

  lemma ReachedWhenStraightIff(c: nat, n: nat, k: nat, u: nat)
    requires u < n && Straight(c, n, k)
    ensures Reached(c, n, k, u) <==> InStep(c, n, k, u)
  {
    if Reached(c, n, k, u) {
      var turn: nat :| turn < n && Place(c, n, k, turn) == u;
      StepsKeepRemainder(c, n, k, turn);
    }
    if InStep(c, n, k, u) {
      var turn := StepsReach(c, n, k, u);
      assert Place(c, n, k, turn) == u;
    }
  }

  /** With k - 1 turns of other routes between any two of this one's, and no wrap (or one that n divides away), the
      upstream in place u is picked within n turns iff gcd(k, n) divides the distance from the first place to u. */
  lemma PlaceIsReachedIff(c: nat, n: nat, k: nat, u: nat)
    requires u < n && c < WORD && (c + (n - 1) * k < WORD || WORD % n == 0)
    ensures Reached(c, n, k, u) <==> InStep(c, n, k, u)
  {
    TurnsAreStraight(c, n, k);
    ReachedWhenStraightIff(c, n, k, u);
  }

  ghost predicate AllReached(c: nat, n: nat, k: nat)
    requires n > 0
  {
    forall u: nat | u < n :: Reached(c, n, k, u)
  }

  lemma CoprimeIff(c: nat, n: nat, k: nat)
    requires n > 0
    ensures (forall u: nat | u < n :: InStep(c, n, k, u)) <==> Gcd(k, n) == 1
  {
    GcdDivides(k, n);
    var g := Gcd(k, n);
    if g > 1 {
      SmallestDivisor(g, n);
      var u := (c + 1) % g;
      AddSmall(c, 1, g);
      DivisionIsUnique(u, g, 0, u);
      assert u < n && !InStep(c, n, k, u);
    } else {
      forall u: nat | u < n ensures InStep(c, n, k, u) {
        DivisionIsUnique(u, 1, u, 0);
        DivisionIsUnique(c, 1, c, 0);
      }
    }
  }

  /** All healthy upstreams are served within n turns iff the stride and their number are coprime. */
  lemma AllReachedIffCoprime(c: nat, n: nat, k: nat)
    requires n > 0 && c < WORD && (c + (n - 1) * k < WORD || WORD % n == 0)
    ensures AllReached(c, n, k) <==> Gcd(k, n) == 1
  {
    forall u: nat | u < n ensures Reached(c, n, k, u) <==> InStep(c, n, k, u) {
      PlaceIsReachedIff(c, n, k, u);
    }
    CoprimeIff(c, n, k);
  }

  /** A place at another remainder by gcd(k, n) is never picked before the counter wraps, and not after either if the
      divisor divides 2^64. */
  lemma SharedCounterStarves(c: nat, n: nat, k: nat, turn: nat, u: nat)
    requires u < n && c < WORD && !InStep(c, n, k, u)
    requires c + turn * k < WORD || WORD % Gcd(k, n) == 0
    ensures Place(c, n, k, turn) != u
  {
    GcdDivides(k, n);
    var g := Gcd(k, n);
    StepsKeepRemainder(c, n, k, turn);
    RemainderOfRemainder(CounterAfter(c, turn * k), n, g);
    RemainderOfRemainder(c + turn * k, n, g);
    if c + turn * k < WORD {
      CounterBeforeWrap(c, turn * k);
    } else {
      CounterCounts(c, turn * k);
      RemainderOfRemainder(c + turn * k, WORD, g);
    }
  }

  // ---------------------------------------------------------- across the wrap

  /** From every counter, wrapping or not, every healthy upstream is served within n turns. */
  ghost predicate AlwaysReached(n: nat, k: nat)
    requires n > 0
  {
    forall c: nat | c < WORD :: AllReached(c, n, k)
  }

  function Places(c: nat, n: nat, k: nat): (s: seq<nat>)
    requires n > 0
    ensures |s| == n && forall turn: nat | turn < n :: s[turn] == Place(c, n, k, turn)
  {
    seq(n, (turn: nat) requires n > 0 => Place(c, n, k, turn))
  }

  ghost function Below(n: nat): (s: set<nat>)
    ensures |s| == n && forall u: nat :: u in s <==> u < n
  {
    if n == 0 then {} else Below(n - 1) + {n - 1}
  }

  lemma RepeatIsNotOnto(s: seq<nat>, i: nat, j: nat)
    requires i < j < |s| && s[i] == s[j]
    ensures exists u: nat :: u < |s| && u !in s
  {
    var rest := s[..j] + s[j + 1..];
    forall u: nat | u in s ensures u in rest {
      var t :| 0 <= t < |s| && s[t] == u;
      if t < j {
        assert rest[t] == u;
      } else if t > j {
        assert rest[t - 1] == u;
      } else {
        assert rest[i] == u;
      }
    }
    DistinctSize(rest);
    if Below(|s|) <= Elements(rest) {
      SubsetSize(Below(|s|), Elements(rest));
    }
    var u :| u in Below(|s|) && u !in Elements(rest);
    assert u < |s| && u !in s;
  }

  /** n turns that reach all n places pick none of them twice. */
  lemma NoPlaceTwice(c: nat, n: nat, k: nat, i: nat, j: nat)
    requires n > 0 && AllReached(c, n, k) && i < j < n
    ensures Place(c, n, k, i) != Place(c, n, k, j)
  {
    var s := Places(c, n, k);
    forall u: nat | u < n ensures u in s {
      assert Reached(c, n, k, u);
      var turn: nat :| turn < n && Place(c, n, k, turn) == u;
      assert s[turn] == u;
    }
    if s[i] == s[j] {
      RepeatIsNotOnto(s, i, j);
    }
  }

  lemma {:induction false} CounterAdds(c: nat, a: nat, b: nat)
    ensures CounterAfter(CounterAfter(c, a), b) == CounterAfter(c, a + b)
  {
    if b > 0 {
      CounterAdds(c, a, b - 1);
      assert a + (b - 1) == a + b - 1;
    }
  }

  lemma CounterIsWord(c: nat, picks: nat)
    requires c < WORD
    ensures CounterAfter(c, picks) < WORD
  {
    CounterCounts(c, picks);
  }

  /** One turn later, the turn before. */
  lemma NextTurn(c: nat, n: nat, k: nat, turn: nat)
    requires n > 0
    ensures Place(CounterAfter(c, k), n, k, turn) == Place(c, n, k, turn + 1)
  {
    Add(turn, 1, k);
    CounterAdds(c, k, turn * k);
  }

  /** If every stretch of n turns reaches every place, turn n falls on the place of turn 0. */
  lemma TurnsRepeat(c: nat, n: nat, k: nat)
    requires n > 0 && AlwaysReached(n, k) && c < WORD
    ensures Place(c, n, k, n) == Place(c, n, k, 0)
  {
    var v := Place(c, n, k, n);
    assert AllReached(c, n, k);
    assert Reached(c, n, k, v);
    var turn: nat :| turn < n && Place(c, n, k, turn) == v;
    if turn > 0 {
      var next := CounterAfter(c, k);
      CounterIsWord(c, k);
      NextTurn(c, n, k, turn - 1);
      NextTurn(c, n, k, n - 1);
      NoPlaceTwice(next, n, k, turn - 1, n - 1);
    }
  }

  lemma ShiftedPlace(c: nat, n: nat, k: nat)
    requires n > 0 && AlwaysReached(n, k) && c < WORD
    ensures ((c + n * k) % WORD) % n == c % n
  {
    TurnsRepeat(c, n, k);
    CounterCounts(c, n * k);
    assert 0 * k == 0;
  }

  lemma WholeWraps(n: nat, k: nat)
    requires n > 0 && AlwaysReached(n, k) && (n * k) % WORD == 0
    ensures WORD % n == 0
  {
    GcdDivides(n, WORD);
    var d := Gcd(n, WORD);
    SmallestDivisor(d, n);
    if d < n {
      var x, y := GcdCombines(n, WORD);
      var e, zero := Split(n * k, WORD);
      assert d * k == (e * x + y * k) * WORD by { Combine(n, k, d, e, x, y, WORD); }
      RemainderByDifference(d * k, WORD, e * x + y * k, 0);
      CounterCounts(0, d * k);
      assert AllReached(0, n, k);
      assert 0 * k == 0;
      NoPlaceTwice(0, n, k, 0, d);
    }
  }

  lemma Combine(n: int, k: int, d: int, e: int, x: int, y: int, word: int)
    requires n * x + word * y == d && n * k == e * word
    ensures d * k == (e * x + y * k) * word
  {
    assert d * k == (n * x) * k + (word * y) * k;
    assert (n * x) * k == (n * k) * x;
    assert (e * word) * x == (e * x) * word && (word * y) * k == (y * k) * word;
    assert (e * x + y * k) * word == (e * x) * word + (y * k) * word;
  }

  /** Turns that always reach every place force n to divide the word. */
  lemma AlwaysReachedDivides(n: nat, k: nat)
    requires n > 0 && AlwaysReached(n, k)
    ensures WORD % n == 0
  {
    var p := (n * k) % WORD;
    if p == 0 {
      WholeWraps(n, k);
    } else {
      ShiftedPlace(0, n, k);
      ShiftedPlace(WORD - p, n, k);
      var q, r := Split(n * k, WORD);
      AddMultiple(WORD, q, WORD);
      assert (WORD - p) + n * k == WORD + q * WORD;
      assert p % n == 0 && (WORD - p) % n == 0;
      SumHasNoRemainder(WORD - p, p, n);
    }
  }

  /** Counting the wrap too: from every counter all n healthy upstreams are served within n turns iff the stride is
      coprime to n and n divides 2^64. */
  lemma AlwaysReachedIff(n: nat, k: nat)
    requires n > 0
    ensures AlwaysReached(n, k) <==> Gcd(k, n) == 1 && WORD % n == 0
  {
    if AlwaysReached(n, k) {
      AlwaysReachedDivides(n, k);
      assert AllReached(0, n, k);
      AllReachedIffCoprime(0, n, k);
    }
    if Gcd(k, n) == 1 && WORD % n == 0 {
      forall c: nat | c < WORD ensures AllReached(c, n, k) {
        AllReachedIffCoprime(c, n, k);
      }
    }
  }
}
