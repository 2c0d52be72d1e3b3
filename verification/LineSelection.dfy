/** Which usage the lines of an invoice count: when a line selects an event, and when an event is billed once. */
module LineSelection {
  import opened Invoicing
  import opened Metering
  import opened Wrappers

  // -------------------------------------------------------- fields of a key

  predicate ColonFree(s: string) { ':' !in s }

  lemma {:induction false} FieldsAroundColon(s: string, rest: string)
    requires ColonFree(s)
    ensures BeforeColon(s + [':'] + rest) == s && AfterColon(s + [':'] + rest) == Some(rest)
  {
    var all := s + [':'] + rest;
    if s == [] {
      assert all[1..] == rest;
    } else {
      assert all[1..] == s[1..] + [':'] + rest;
      FieldsAroundColon(s[1..], rest);
    }
  }

  lemma {:induction false} FieldBegins(s: string)
    ensures BeforeColon(s) <= s && ColonFree(BeforeColon(s))
    ensures ColonFree(s) <==> BeforeColon(s) == s
    ensures !ColonFree(s) ==> BeforeColon(s) + [':'] <= s
  {
    if s != [] {
      FieldBegins(s[1..]);
      assert s == [s[0]] + s[1..];
    }
  }

  /** A key that begins with a colon-free id and a colon has a second field, which begins what follows. */
  lemma FieldAfterCustomer(customer: string, key: string)
    requires ColonFree(customer) && customer + [':'] <= key
    ensures SecondField(key) == Some(BeforeColon(key[|customer| + 1..]))
    ensures Key(customer, BeforeColon(key[|customer| + 1..])) <= key
  {
    var rest := key[|customer| + 1..];
    assert key == customer + [':'] + rest;
    FieldsAroundColon(customer, rest);
    FieldBegins(rest);
    assert key[..|customer| + 1 + |BeforeColon(rest)|] == Key(customer, BeforeColon(rest));
  }

  lemma KeyInjective(customer: string, s: string, t: string)
    requires Key(customer, s) == Key(customer, t)
    ensures s == t
  {
    assert Key(customer, s)[|customer| + 1..] == s && Key(customer, t)[|customer| + 1..] == t;
  }

  lemma PrefixOfOwnKey(customer: string, t: string, resource: string)
    ensures Key(customer, t) <= Key(customer, resource) <==> t <= resource
    ensures customer + [':'] <= Key(customer, resource)
  {
    var k := Key(customer, resource);
    assert k[|customer| + 1..] == resource && Key(customer, t)[|customer| + 1..] == t;
    assert k[..|customer| + 1] == customer + [':'];
    if t <= resource {
      assert k[..|customer| + 1 + |t|] == Key(customer, t);
    }
  }

  /** A colon-free id and a colon begin the keys of that customer, and of those whose ids begin so too. */
  lemma BeginsKeyIff(customer: string, id: string, resource: string)
    requires ColonFree(customer)
    ensures customer + [':'] <= Key(id, resource) <==> id == customer || customer + [':'] <= id
  {
    var k, p := Key(id, resource), customer + [':'];
    assert k[..|id|] == id && k[|id|] == ':';
    PrefixOfOwnKey(id, [], resource);
    assert forall n | 0 <= n < |customer| :: p[n] == customer[n] && customer[n] in customer;
    if p <= k {
      assert forall n | 0 <= n < |p| :: k[n] == p[n];
      assert |id| >= |customer|;
      if |id| == |customer| {
        assert id == k[..|id|] == p[..|id|] == customer;
      } else {
        assert id[..|p|] == k[..|p|] == p;
      }
    }
    if p <= id {
      assert k[..|p|] == id[..|p|];
    }
  }

  // ----------------------------------------------------- lines that select

  /** The line made for the listed key k selects the usage of a key. */
  predicate Covers(customer: string, k: string, key: string) {
    SecondField(k).Some? && Key(customer, SecondField(k).value) <= key
  }

  function Coverings(keys: seq<string>, customer: string, key: string): nat {
    if keys == [] then 0
    else Coverings(keys[..|keys| - 1], customer, key) + if Covers(customer, keys[|keys| - 1], key) then 1 else 0
  }

  lemma {:induction false} SelectionsAreCoverings(keys: seq<string>, customer: string, key: string)
    ensures Selections(TypesOf(keys), customer, key) == Coverings(keys, customer, key)
  {
    if keys != [] {
      var front, k := keys[..|keys| - 1], keys[|keys| - 1];
      SelectionsAreCoverings(front, customer, key);
      if SecondField(k).Some? {
        SelectionsPush(TypesOf(front), SecondField(k).value, customer, key);
      }
    }
  }

  /** No line but its own, if it has one, selects the usage of the key. */
  ghost predicate CoveredAlone(keys: seq<string>, customer: string, key: string) {
    forall k | k in keys && Covers(customer, k, key) :: k == key
  }

  lemma CoveredAlonePush(keys: seq<string>, k: string, customer: string, key: string)
    ensures CoveredAlone(keys + [k], customer, key) <==>
      CoveredAlone(keys, customer, key) && (Covers(customer, k, key) ==> k == key)
  {
    assert forall x: string :: x in keys + [k] <==> x in keys || x == k;
  }

  lemma {:induction false} CoveringsCount(keys: seq<string>, customer: string, key: string)
    requires forall i, j | 0 <= i < j < |keys| :: keys[i] != keys[j]
    ensures Coverings(keys, customer, key) >= 1 ==> exists k :: k in keys && Covers(customer, k, key)
    ensures key in keys && Covers(customer, key, key) ==>
      && Coverings(keys, customer, key) >= 1
      && (Coverings(keys, customer, key) == 1 <==> CoveredAlone(keys, customer, key))
    ensures key !in keys ==> (Coverings(keys, customer, key) == 0 <==> CoveredAlone(keys, customer, key))
  {
    if keys != [] {
      var front, k := keys[..|keys| - 1], keys[|keys| - 1];
      assert keys == front + [k];
      CoveringsCount(front, customer, key);
      CoveredAlonePush(front, k, customer, key);
    }
  }

  /** If a logged event's key begins with the customer's id and a colon, it is listed and its own line selects it. */
  lemma OwnLineSelects(keys: seq<string>, log: seq<UsageEvent>, customer: string, i: nat)
    requires ColonFree(customer) && Lists(keys, log, customer) && i < |log| && customer + [':'] <= EventKey(log[i])
    ensures EventKey(log[i]) in keys && Covers(customer, EventKey(log[i]), EventKey(log[i]))
  {
    LoggedIsBuffered(log, i);
    FieldAfterCustomer(customer, EventKey(log[i]));
  }

  lemma CoveredBegins(customer: string, k: string, key: string)
    requires Covers(customer, k, key)
    ensures customer + [':'] <= key
  {
    var p := Key(customer, SecondField(k).value);
    assert p[..|customer| + 1] == customer + [':'];
  }

  /** Whatever ids and names hold: some line of a customer selects an event iff the customer's id and a colon begin the
      event's key. */
  lemma SelectedIff(keys: seq<string>, log: seq<UsageEvent>, customer: string, i: nat)
    requires ColonFree(customer) && Lists(keys, log, customer) && i < |log|
    ensures Selections(TypesOf(keys), customer, EventKey(log[i])) >= 1 <==> customer + [':'] <= EventKey(log[i])
  {
    var key := EventKey(log[i]);
    SelectionsAreCoverings(keys, customer, key);
    CoveringsCount(keys, customer, key);
    if customer + [':'] <= key {
      OwnLineSelects(keys, log, customer, i);
    }
    if Coverings(keys, customer, key) >= 1 {
      var k :| k in keys && Covers(customer, k, key);
      CoveredBegins(customer, k, key);
    }
  }

  /** Exactly one line selects the event iff moreover the line of no other listed key does. */
  lemma SelectedOnceIff(keys: seq<string>, log: seq<UsageEvent>, customer: string, i: nat)
    requires ColonFree(customer) && Lists(keys, log, customer) && i < |log|
    ensures Selections(TypesOf(keys), customer, EventKey(log[i])) == 1 <==>
      customer + [':'] <= EventKey(log[i]) && CoveredAlone(keys, customer, EventKey(log[i]))
  {
    var key := EventKey(log[i]);
    SelectedIff(keys, log, customer, i);
    SelectionsAreCoverings(keys, customer, key);
    CoveringsCount(keys, customer, key);
    if customer + [':'] <= key {
      OwnLineSelects(keys, log, customer, i);
    }
  }

  /** A customer's lines select another customer's event iff that other id begins with the customer's and a colon. */
  lemma BillsAnotherIff(keys: seq<string>, log: seq<UsageEvent>, customer: string, i: nat)
    requires ColonFree(customer) && Lists(keys, log, customer) && i < |log| && log[i].customerId != customer
    ensures Selections(TypesOf(keys), customer, EventKey(log[i])) >= 1 <==> customer + [':'] <= log[i].customerId
  {
    SelectedIff(keys, log, customer, i);
    BeginsKeyIff(customer, log[i].customerId, log[i].resourceType);
  }

  // --------------------------------------------------- ids that hold a colon

  lemma {:induction false} AfterFirstColon(s: string, rest: string)
    requires !ColonFree(s)
    ensures AfterColon(s).Some? && AfterColon(s + rest) == Some(AfterColon(s).value + rest)
  {
    assert (s + rest)[1..] == s[1..] + rest;
    if s[0] != ':' {
      assert s == [s[0]] + s[1..];
      AfterFirstColon(s[1..], rest);
    }
  }

  lemma {:induction false} BeforeNextColon(s: string, rest: string)
    ensures BeforeColon(s + [':'] + rest) == BeforeColon(s)
  {
    var all := s + [':'] + rest;
    if s != [] && s[0] != ':' {
      assert all[1..] == s[1..] + [':'] + rest;
      BeforeNextColon(s[1..], rest);
    }
  }

  /** The second field of a key whose customer id holds a colon is the id's own. */
  function FieldOf(customer: string): string
    requires !ColonFree(customer)
  {
    AfterFirstColon(customer, []);
    SecondField(customer).value
  }

  lemma FieldIsOfId(customer: string, key: string)
    requires !ColonFree(customer) && customer + [':'] <= key
    ensures SecondField(key) == Some(FieldOf(customer))
  {
    var rest := key[|customer| + 1..];
    assert key == customer + ([':'] + rest);
    AfterFirstColon(customer, [':'] + rest);
    var after := AfterColon(customer).value;
    assert after + ([':'] + rest) == after + [':'] + rest;
    BeforeNextColon(after, rest);
  }

  lemma {:induction false} SameFieldCoverings(keys: seq<string>, customer: string, key: string)
    requires !ColonFree(customer) && forall i | 0 <= i < |keys| :: customer + [':'] <= keys[i]
    ensures Coverings(keys, customer, key) == if Key(customer, FieldOf(customer)) <= key then |keys| else 0
  {
    if keys != [] {
      SameFieldCoverings(keys[..|keys| - 1], customer, key);
      FieldIsOfId(customer, keys[|keys| - 1]);
    }
  }

  /** Where a customer's id holds a colon all its lines ask for the field behind that colon: an event is selected by all
      of them or by none. */
  lemma ColonIdSelections(keys: seq<string>, log: seq<UsageEvent>, customer: string, key: string)
    requires !ColonFree(customer) && Lists(keys, log, customer)
    ensures Selections(TypesOf(keys), customer, key) ==
      if Key(customer, FieldOf(customer)) <= key then |keys| else 0
  {
    forall i | 0 <= i < |keys| ensures customer + [':'] <= keys[i] {
      assert keys[i] in keys;
    }
    SelectionsAreCoverings(keys, customer, key);
    SameFieldCoverings(keys, customer, key);
  }

  /** So its own usage is billed once iff the field begins the resource's name and no second key is listed. */
  lemma ColonIdIsBilledOnceIff(keys: seq<string>, log: seq<UsageEvent>, customer: string, i: nat)
    requires !ColonFree(customer) && Lists(keys, log, customer) && i < |log| && log[i].customerId == customer
    ensures var n := Selections(TypesOf(keys), customer, EventKey(log[i]));
      && n == (if FieldOf(customer) <= log[i].resourceType then |keys| else 0)
      && (n == 1 <==> FieldOf(customer) <= log[i].resourceType && |keys| == 1)
  {
    ColonIdSelections(keys, log, customer, EventKey(log[i]));
    PrefixOfOwnKey(customer, FieldOf(customer), log[i].resourceType);
  }

  /** Usage of "a:x" is a line of "a" under the name "x", and a line of "a:x" itself only if "x" happens to begin the
      resource's name. */
  lemma ColonBillsAnother(a: string, x: string, e: UsageEvent)
    requires ColonFree(a) && ColonFree(x) && e.customerId == a + [':'] + x
    ensures var keys := [EventKey(e)];
      && Lists(keys, [e], a) && Lists(keys, [e], e.customerId) && TypesOf(keys) == [x]
      && Selections(TypesOf(keys), a, EventKey(e)) == 1
      && Selections(TypesOf(keys), e.customerId, EventKey(e)) == if x <= e.resourceType then 1 else 0
  {
    var k, rest := EventKey(e), x + [':'] + e.resourceType;
    assert k == a + [':'] + rest;
    FieldsAroundColon(a, rest);
    FieldsAroundColon(x, e.resourceType);
    var keys, names, log := [k], [x], [e];
    assert keys[..0] == [] && names[..0] == [] && log[..0] == [];
    assert TypesOf(keys) == names;
    assert Key(a, x) <= k by { assert k[..|a| + 1 + |x|] == Key(a, x); }
    PrefixOfOwnKey(e.customerId, x, e.resourceType);
    assert a + [':'] <= k && e.customerId + [':'] <= k;
    forall other: string ensures other in [k] <==> EventsAt([e], other) != [] {
    }
  }

  // ----------------------------------------------- usage that is billed once

  function CustomerSum(log: seq<UsageEvent>, customer: string, from: int, to: int): real {
    if log == [] then 0.0
    else
      var e := log[|log| - 1];
      CustomerSum(log[..|log| - 1], customer, from, to)
      + if e.customerId == customer && InWindow(e, from, to) then e.quantity else 0.0
  }

  /** One line selects the event if it is the customer's, and none otherwise. */
  ghost predicate Counted(e: UsageEvent, types: seq<string>, customer: string, from: int, to: int) {
    InWindow(e, from, to) && e.quantity > 0.0 ==>
      Selections(types, customer, EventKey(e)) == if e.customerId == customer then 1 else 0
  }

  ghost predicate AllCounted(log: seq<UsageEvent>, types: seq<string>, customer: string, from: int, to: int) {
    forall i | 0 <= i < |log| :: Counted(log[i], types, customer, from, to)
  }

  lemma AllCountedPush(
    log: seq<UsageEvent>, e: UsageEvent, types: seq<string>, customer: string, from: int, to: int)
    ensures AllCounted(log + [e], types, customer, from, to)
       <==> AllCounted(log, types, customer, from, to) && Counted(e, types, customer, from, to)
  {
    var all := log + [e];
    if AllCounted(all, types, customer, from, to) {
      assert forall i | 0 <= i < |log| :: log[i] == all[i];
      assert all[|log|] == e;
    }
  }

  lemma {:induction false} WeightExceeds(log: seq<UsageEvent>, types: seq<string>, customer: string, from: int, to: int)
    requires NonNegative(log)
    requires forall i | 0 <= i < |log| && log[i].customerId == customer ::
               Selections(types, customer, EventKey(log[i])) >= 1
    ensures Weighted(log, types, customer, from, to) >= CustomerSum(log, customer, from, to)
    ensures Weighted(log, types, customer, from, to) == CustomerSum(log, customer, from, to)
       <==> AllCounted(log, types, customer, from, to)
  {
    if log != [] {
      var front, e := log[..|log| - 1], log[|log| - 1];
      WeightExceeds(front, types, customer, from, to);
      WeightOfOne(e.quantity, Selections(types, customer, EventKey(e)));
      AllCountedPush(front, e, types, customer, from, to);
      assert front + [e] == log;
    }
  }

  lemma {:induction false} WeightOfOne(q: real, n: nat)
    requires q >= 0.0
    ensures Times(q, n) >= 0.0
    ensures Times(q, n) == 0.0 <==> q == 0.0 || n == 0
    ensures n >= 1 ==> Times(q, n) >= q && (Times(q, n) == q <==> q == 0.0 || n == 1)
  {
    if n >= 1 {
      WeightOfOne(q, n - 1);
    }
  }

  /** Usage the customer's id and a colon begin the key of is the customer's own, and no other listed key's line selects
      it. */
  ghost predicate BilledOnce(e: UsageEvent, keys: seq<string>, customer: string, from: int, to: int) {
    InWindow(e, from, to) && e.quantity > 0.0 && customer + [':'] <= EventKey(e) ==>
      e.customerId == customer && CoveredAlone(keys, customer, EventKey(e))
  }

  /** Whatever other ids and the names hold, the lines count the customer's usage in the covered interval, never less;
      and exactly iff all usage there whose key the customer's id begins is the customer's own and no other listed
      key's line selects it. */
  lemma UsageIsBilledOnceIff(log: seq<UsageEvent>, customer: string, keys: seq<string>, start: int, end: int)
    requires NonNegative(log) && ColonFree(customer) && Lists(keys, log, customer)
    ensures var to := Cover(start, end, Duration(Month));
      var billed := Quantities(UsageLines(log, customer, TypesOf(keys), start, end));
      && billed >= CustomerSum(log, customer, start, to)
      && (billed == CustomerSum(log, customer, start, to) <==>
            forall i | 0 <= i < |log| :: BilledOnce(log[i], keys, customer, start, to))
  {
    var types, to := TypesOf(keys), Cover(start, end, Duration(Month));
    LinesWeighEvents(log, customer, types, start, end);
    forall i | 0 <= i < |log|
      ensures log[i].customerId == customer ==> Selections(types, customer, EventKey(log[i])) >= 1
      ensures Counted(log[i], types, customer, start, to) <==> BilledOnce(log[i], keys, customer, start, to)
    {
      SelectedIff(keys, log, customer, i);
      SelectedOnceIff(keys, log, customer, i);
      PrefixOfOwnKey(log[i].customerId, [], log[i].resourceType);
    }
    WeightExceeds(log, types, customer, start, to);
  }

  /** Where the customer's id holds a colon, the lines count all usage behind its field, once for every listed key. */
  lemma ColonIdIsBilled(log: seq<UsageEvent>, customer: string, keys: seq<string>, start: int, end: int)
    requires NonNegative(log) && !ColonFree(customer) && Lists(keys, log, customer)
    ensures Quantities(UsageLines(log, customer, TypesOf(keys), start, end)) ==
      Times(WindowSum(log, Key(customer, FieldOf(customer)), start, Cover(start, end, Duration(Month))), |keys|)
  {
    var types, to := TypesOf(keys), Cover(start, end, Duration(Month));
    LinesWeighEvents(log, customer, types, start, end);
    forall i | 0 <= i < |log|
      ensures Selections(types, customer, EventKey(log[i])) ==
        if Key(customer, FieldOf(customer)) <= EventKey(log[i]) then |keys| else 0
    {
      ColonIdSelections(keys, log, customer, EventKey(log[i]));
    }
    EqualWeights(log, types, customer, Key(customer, FieldOf(customer)), |keys|, start, to);
  }

  lemma {:induction false} EqualWeights(
    log: seq<UsageEvent>, types: seq<string>, customer: string, prefix: string, n: nat, from: int, to: int)
    requires forall i | 0 <= i < |log| ::
               Selections(types, customer, EventKey(log[i])) == if prefix <= EventKey(log[i]) then n else 0
    ensures Weighted(log, types, customer, from, to) == Times(WindowSum(log, prefix, from, to), n)
  {
    if log == [] {
      TimesOfSum(0.0, 0.0, n);
    } else {
      var front, e := log[..|log| - 1], log[|log| - 1];
      EqualWeights(front, types, customer, prefix, n, from, to);
      TimesOfSum(WindowSum(front, prefix, from, to), e.quantity, n);
    }
  }

  lemma {:induction false} TimesOfSum(a: real, b: real, n: nat)
    ensures Times(a + b, n) == Times(a, n) + Times(b, n)
  {
    if n > 0 {
      TimesOfSum(a, b, n - 1);
    }
  }

  // ------------------------------------------------ names without colons

  /** A name the customer has usage recorded under. */
  ghost predicate Names(log: seq<UsageEvent>, customer: string, t: string) {
    exists i :: 0 <= i < |log| && log[i].customerId == customer && log[i].resourceType == t
  }

  /** The types are the customer's recorded names, each once. */
  ghost predicate Recorded(types: seq<string>, log: seq<UsageEvent>, customer: string) {
    && (forall i, j | 0 <= i < j < |types| :: types[i] != types[j])
    && (forall t: string :: t in types <==> Names(log, customer, t))
  }

  /** All usage whose key the customer's id begins is the customer's own, under a name without colons. */
  ghost predicate Plain(log: seq<UsageEvent>, customer: string) {
    forall i | 0 <= i < |log| && customer + [':'] <= EventKey(log[i]) ::
      log[i].customerId == customer && ColonFree(log[i].resourceType)
  }

  lemma {:induction false} BufferedEvent(log: seq<UsageEvent>, key: string) returns (i: nat)
    requires EventsAt(log, key) != []
    ensures i < |log| && EventKey(log[i]) == key
  {
    if EventKey(log[|log| - 1]) == key {
      i := |log| - 1;
    } else {
      i := BufferedEvent(log[..|log| - 1], key);
    }
  }

  lemma {:induction false} TypeOfEach(keys: seq<string>, customer: string)
    requires ColonFree(customer) && forall i | 0 <= i < |keys| :: customer + [':'] <= keys[i]
    ensures |TypesOf(keys)| == |keys|
    ensures forall i | 0 <= i < |keys| :: TypesOf(keys)[i] == BeforeColon(keys[i][|customer| + 1..])
  {
    if keys != [] {
      TypeOfEach(keys[..|keys| - 1], customer);
      FieldAfterCustomer(customer, keys[|keys| - 1]);
    }
  }

  /** The types of a customer: each listed key up to the colon behind its own. */
  lemma TypesOfListed(keys: seq<string>, log: seq<UsageEvent>, customer: string)
    requires ColonFree(customer) && Lists(keys, log, customer)
    ensures |TypesOf(keys)| == |keys|
    ensures forall i | 0 <= i < |keys| ::
              customer + [':'] <= keys[i] && TypesOf(keys)[i] == BeforeColon(keys[i][|customer| + 1..])
  {
    forall i | 0 <= i < |keys| ensures customer + [':'] <= keys[i] {
      assert keys[i] in keys;
    }
    TypeOfEach(keys, customer);
  }

  lemma ListedAt(keys: seq<string>, log: seq<UsageEvent>, customer: string, i: nat) returns (n: nat)
    requires ColonFree(customer) && Lists(keys, log, customer) && i < |log| && customer + [':'] <= EventKey(log[i])
    ensures n < |keys| && keys[n] == EventKey(log[i])
  {
    OwnLineSelects(keys, log, customer, i);
    n :| 0 <= n < |keys| && keys[n] == EventKey(log[i]);
  }

  lemma PlainKey(keys: seq<string>, log: seq<UsageEvent>, customer: string, n: nat)
    requires ColonFree(customer) && Lists(keys, log, customer) && Plain(log, customer) && n < |keys|
    ensures n < |TypesOf(keys)| && keys[n] == Key(customer, TypesOf(keys)[n])
    ensures Names(log, customer, TypesOf(keys)[n])
  {
    TypesOfListed(keys, log, customer);
    assert keys[n] in keys;
    var i := BufferedEvent(log, keys[n]);
    var r := log[i].resourceType;
    assert keys[n] == Key(customer, r) && keys[n][|customer| + 1..] == r;
    FieldBegins(r);
  }

  lemma PlainIsRecorded(keys: seq<string>, log: seq<UsageEvent>, customer: string)
    requires ColonFree(customer) && Lists(keys, log, customer) && Plain(log, customer)
    ensures Recorded(TypesOf(keys), log, customer)
  {
    var types := TypesOf(keys);
    TypesOfListed(keys, log, customer);
    forall n | 0 <= n < |keys| ensures keys[n] == Key(customer, types[n]) && Names(log, customer, types[n]) {
      PlainKey(keys, log, customer, n);
    }
    forall t: string | Names(log, customer, t) ensures t in types {
      var i :| 0 <= i < |log| && log[i].customerId == customer && log[i].resourceType == t;
      PrefixOfOwnKey(customer, [], t);
      var n := ListedAt(keys, log, customer, i);
      KeyInjective(customer, t, types[n]);
    }
  }

  lemma RecordedIsPlain(keys: seq<string>, log: seq<UsageEvent>, customer: string, i: nat)
    requires ColonFree(customer) && Lists(keys, log, customer) && Recorded(TypesOf(keys), log, customer)
    requires i < |log| && customer + [':'] <= EventKey(log[i])
    ensures log[i].customerId == customer && ColonFree(log[i].resourceType)
  {
    var types := TypesOf(keys);
    TypesOfListed(keys, log, customer);
    var n := ListedAt(keys, log, customer, i);
    var rest := EventKey(log[i])[|customer| + 1..];
    FieldBegins(rest);
    assert types[n] == BeforeColon(rest) && types[n] in types;
    var j :| 0 <= j < |log| && log[j].customerId == customer && log[j].resourceType == types[n];
    PrefixOfOwnKey(customer, [], types[n]);
    var m := ListedAt(keys, log, customer, j);
    assert keys[m][|customer| + 1..] == types[n];
    FieldBegins(types[n]);
    assert types[m] == types[n];
    assert m == n;
    assert EventKey(log[i]) == Key(customer, types[n]);
    OwnKeyOnly(customer, log[i].customerId, log[i].resourceType, types[n]);
  }

  lemma OwnKeyOnly(customer: string, id: string, resource: string, t: string)
    requires ColonFree(customer) && ColonFree(t) && Key(id, resource) == Key(customer, t)
    ensures id == customer && resource == t
  {
    var k := Key(id, resource);
    PrefixOfOwnKey(customer, [], t);
    BeginsKeyIff(customer, id, resource);
    assert k[|id|] == ':' && k[|customer| + 1..] == t;
    assert forall n | 0 <= n < |t| :: t[n] == k[|customer| + 1 + n] && t[n] in t;
    assert |id| <= |customer|;
    KeyInjective(customer, resource, t);
  }

  /** The types are the customer's recorded names, each once, iff no colon gets in the way: every key the customer's id
      begins is the customer's own, under a name without colons. */
  lemma TypesAreRecordedIff(keys: seq<string>, log: seq<UsageEvent>, customer: string)
    requires ColonFree(customer) && Lists(keys, log, customer)
    ensures Recorded(TypesOf(keys), log, customer) <==> Plain(log, customer)
  {
    if Plain(log, customer) {
      PlainIsRecorded(keys, log, customer);
    }
    if Recorded(TypesOf(keys), log, customer) {
      forall i | 0 <= i < |log| && customer + [':'] <= EventKey(log[i])
        ensures log[i].customerId == customer && ColonFree(log[i].resourceType)
      {
        RecordedIsPlain(keys, log, customer, i);
      }
    }
  }

  /** No other recorded name begins the resource's. */
  ghost predicate PrefixFreeFor(types: seq<string>, resource: string) {
    forall t | t in types :: t <= resource ==> t == resource
  }

  lemma PlainIsCoveredAlone(keys: seq<string>, log: seq<UsageEvent>, customer: string, resource: string)
    requires ColonFree(customer) && Lists(keys, log, customer) && Plain(log, customer)
    ensures CoveredAlone(keys, customer, Key(customer, resource)) <==> PrefixFreeFor(TypesOf(keys), resource)
  {
    var types, key := TypesOf(keys), Key(customer, resource);
    TypesOfListed(keys, log, customer);
    forall n | 0 <= n < |keys|
      ensures Covers(customer, keys[n], key) <==> types[n] <= resource
      ensures keys[n] == key <==> types[n] == resource
    {
      PlainKey(keys, log, customer, n);
      FieldAfterCustomer(customer, keys[n]);
      PrefixOfOwnKey(customer, types[n], resource);
      if keys[n] == key {
        KeyInjective(customer, types[n], resource);
      }
    }
    assert forall k | k in keys :: exists n :: 0 <= n < |keys| && keys[n] == k;
    if PrefixFreeFor(types, resource) {
      forall k | k in keys && Covers(customer, k, key) ensures k == key {
        var n :| 0 <= n < |keys| && keys[n] == k;
        assert types[n] in types;
      }
    }
    if CoveredAlone(keys, customer, key) {
      forall t | t in types ensures t <= resource ==> t == resource {
        var n :| 0 <= n < |types| && types[n] == t;
        assert keys[n] in keys;
      }
    }
  }

  /** Without colons, a customer's event is selected by exactly one line iff no other recorded name begins its own. */
  lemma NameIsSelectedOnceIff(keys: seq<string>, log: seq<UsageEvent>, customer: string, i: nat)
    requires ColonFree(customer) && Lists(keys, log, customer) && Plain(log, customer)
    requires i < |log| && log[i].customerId == customer
    ensures Selections(TypesOf(keys), customer, EventKey(log[i])) == 1 <==>
      PrefixFreeFor(TypesOf(keys), log[i].resourceType)
  {
    SelectedOnceIff(keys, log, customer, i);
    PrefixOfOwnKey(customer, [], log[i].resourceType);
    PlainIsCoveredAlone(keys, log, customer, log[i].resourceType);
  }

  /** Without colons, usage is billed once iff no recorded name is a proper prefix of one with usage there. */
  lemma NamesAreBilledOnceIff(log: seq<UsageEvent>, customer: string, keys: seq<string>, start: int, end: int)
    requires NonNegative(log) && ColonFree(customer) && Lists(keys, log, customer) && Plain(log, customer)
    ensures var to := Cover(start, end, Duration(Month));
      Quantities(UsageLines(log, customer, TypesOf(keys), start, end)) == CustomerSum(log, customer, start, to) <==>
        forall i | 0 <= i < |log| && log[i].customerId == customer && log[i].quantity > 0.0
                   && InWindow(log[i], start, to) :: PrefixFreeFor(TypesOf(keys), log[i].resourceType)
  {
    var to := Cover(start, end, Duration(Month));
    UsageIsBilledOnceIff(log, customer, keys, start, end);
    forall i | 0 <= i < |log|
      ensures BilledOnce(log[i], keys, customer, start, to) <==>
        (log[i].customerId == customer && log[i].quantity > 0.0 && InWindow(log[i], start, to) ==>
           PrefixFreeFor(TypesOf(keys), log[i].resourceType))
    {
      PlainIsCoveredAlone(keys, log, customer, log[i].resourceType);
      PrefixOfOwnKey(log[i].customerId, [], log[i].resourceType);
    }
  }

  // ------------------------------------------- usage that is billed twice

  /** A name is billed for another's usage too if, up to its first colon, it begins the other. */
  lemma FieldIsBilledTwice(keys: seq<string>, log: seq<UsageEvent>, customer: string, s: string, t: string)
    requires ColonFree(customer) && Lists(keys, log, customer)
    requires Names(log, customer, s) && Names(log, customer, t) && s != t && BeforeColon(s) <= t
    ensures Selections(TypesOf(keys), customer, Key(customer, t)) >= 2
  {
    var i :| 0 <= i < |log| && log[i].customerId == customer && log[i].resourceType == t;
    var j :| 0 <= j < |log| && log[j].customerId == customer && log[j].resourceType == s;
    PrefixOfOwnKey(customer, BeforeColon(s), t);
    PrefixOfOwnKey(customer, [], s);
    OwnLineSelects(keys, log, customer, j);
    FieldAfterCustomer(customer, EventKey(log[j]));
    assert EventKey(log[j])[|customer| + 1..] == s;
    if EventKey(log[j]) == EventKey(log[i]) {
      KeyInjective(customer, s, t);
    }
    SelectedIff(keys, log, customer, i);
    SelectedOnceIff(keys, log, customer, i);
  }

  /** A recorded name that is a proper prefix of another is billed for the other's usage too. */
  lemma PrefixNameIsBilledTwice(
    keys: seq<string>, log: seq<UsageEvent>, customer: string, short: string, long: string)
    requires ColonFree(customer) && Lists(keys, log, customer)
    requires Names(log, customer, short) && Names(log, customer, long) && short <= long && short != long
    ensures Selections(TypesOf(keys), customer, Key(customer, long)) >= 2
  {
    FieldBegins(short);
    FieldIsBilledTwice(keys, log, customer, short, long);
  }

  /** Two names that agree up to a colon are billed for each other's usage, though neither begins the other: both lines
      ask for what is before the colon. */
  lemma ColonNamesAreBilledTwice(
    keys: seq<string>, log: seq<UsageEvent>, customer: string, x: string, y: string, z: string)
    requires ColonFree(customer) && Lists(keys, log, customer) && ColonFree(x) && y != z
    requires Names(log, customer, x + [':'] + y) && Names(log, customer, x + [':'] + z)
    ensures Selections(TypesOf(keys), customer, Key(customer, x + [':'] + y)) >= 2
    ensures Selections(TypesOf(keys), customer, Key(customer, x + [':'] + z)) >= 2
  {
    var one, two := x + [':'] + y, x + [':'] + z;
    assert one[..|x|] == x == two[..|x|] && one[|x| + 1..] == y && two[|x| + 1..] == z;
    FieldsAroundColon(x, y);
    FieldsAroundColon(x, z);
    FieldIsBilledTwice(keys, log, customer, one, two);
    FieldIsBilledTwice(keys, log, customer, two, one);
  }
}
