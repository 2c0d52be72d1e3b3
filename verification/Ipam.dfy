/** Addresses of one subnet: allocation, release and exhaustion. */
module Ipam {
  import opened Identifiers
  import opened Powers
  import opened Sets
  import opened Totals
  import opened Wrappers

  datatype NetworkError = SubnetExhausted | NotInSubnet | Reserved | InUse

  type Address = int

  const ADDRESSES: nat := 0x1_0000_0000

  /** A subnet of at least two addresses, from its first address. */
  datatype Subnet = Subnet(network: Address, size: nat) {
    function Gateway(): Address { network + 1 }

    function Broadcast(): Address { network + size - 1 }

    predicate Contains(ip: Address) { network <= ip < network + size }

    predicate IsReserved(ip: Address) { ip == network || ip == Gateway() || ip == Broadcast() }

    /** An address that may be handed out. */
    predicate Usable(ip: Address) { Contains(ip) && !IsReserved(ip) }
  }

  ghost predicate Taken(leases: map<AppId, Address>, ip: Address) {
    exists app | app in leases :: leases[app] == ip
  }

  ghost predicate Free(net: Subnet, leases: map<AppId, Address>, ip: Address) {
    net.Usable(ip) && !Taken(leases, ip)
  }

  ghost predicate NoneFreeBelow(net: Subnet, leases: map<AppId, Address>, ip: Address) {
    forall j: Address | j < ip :: !Free(net, leases, j)
  }

  ghost predicate LowestFree(net: Subnet, leases: map<AppId, Address>, ip: Address) {
    Free(net, leases, ip) && NoneFreeBelow(net, leases, ip)
  }

  /** What every operation keeps: usable addresses, no address twice. */
  ghost predicate Sound(net: Subnet, leases: map<AppId, Address>) {
    && (forall app | app in leases :: net.Usable(leases[app]))
    && (forall a, b | a in leases && b in leases && a != b :: leases[a] != leases[b])
  }

  /** The subnet's addresses less the distinct reserved ones. */
  function Capacity(net: Subnet): nat
    requires net.size >= 2
  {
    if net.size == 2 then 0 else net.size - 3
  }

  class Ipam {
    const subnet: Subnet
    var leases: map<AppId, Address>

    ghost predicate Valid()
      reads this
    {
      && (subnet.size == 2 || subnet.size >= 4)
      && Sound(subnet, leases)
    }

    /** A prefix of 32 leaves no second address for the gateway, and the source panics. */
    constructor (address: Address, prefix: nat)
      requires 0 <= address < ADDRESSES && prefix <= 31
      ensures Valid() && leases == map[]
      ensures subnet.size == Pow2(32 - prefix) && subnet.Contains(address)
      ensures subnet.network == address / subnet.size * subnet.size && subnet.Broadcast() < ADDRESSES
    {
      SizeIsEven(32 - prefix);
      BlockFits(address, prefix);
      var size := Pow2(32 - prefix);
      subnet := Subnet(address - address % size, size);
      leases := map[];
    }

    method Allocate(app: AppId) returns (r: Result<Address, NetworkError>)
      requires Valid()
      modifies this
      ensures Valid()
      ensures app in old(leases) ==> r == Ok(old(leases)[app]) && leases == old(leases)
      ensures app !in old(leases) && r.Ok? ==>
        LowestFree(subnet, old(leases), r.value) && leases == old(leases)[app := r.value]
      ensures r.Err? ==> r.error == SubnetExhausted && leases == old(leases)
      ensures r.Err? <==> app !in old(leases) && |old(leases)| == Capacity(subnet)
      ensures Step(subnet, old(leases), AllocateOp(app), leases)
    {
      if app in leases {
        return Ok(leases[app]);
      }
      var ip := subnet.network;
      while ip < subnet.network + subnet.size
        invariant subnet.network <= ip <= subnet.network + subnet.size
        invariant NoneFreeBelow(subnet, leases, ip)
        invariant leases == old(leases)
      {
        if !subnet.IsReserved(ip) && ip !in leases.Values {
          FirstFit(subnet, leases, app, ip);
          leases := leases[app := ip];
          return Ok(ip);
        }
        ip := ip + 1;
      }
      NoneLeft(subnet, leases);
      return Err(SubnetExhausted);
    }

    /** Also moves an app that already has an address; asking for the address it has is refused. */
    method AllocateSpecific(app: AppId, requested: Address) returns (r: Result<Address, NetworkError>)
      requires Valid()
      modifies this
      ensures Valid()
      ensures r == if !subnet.Contains(requested) then Err(NotInSubnet)
                   else if subnet.IsReserved(requested) then Err(Reserved)
                   else if Taken(old(leases), requested) then Err(InUse)
                   else Ok(requested)
      ensures leases == if r.Ok? then old(leases)[app := requested] else old(leases)
      ensures Step(subnet, old(leases), SpecificOp(app, requested), leases)
    {
      if !subnet.Contains(requested) {
        return Err(NotInSubnet);
      }
      if subnet.IsReserved(requested) {
        return Err(Reserved);
      }
      if requested in leases.Values {
        return Err(InUse);
      }
      leases := leases[app := requested];
      return Ok(requested);
    }

    method Release(app: AppId)
      requires Valid()
      modifies this
      ensures Valid() && leases == old(leases) - {app}
      ensures Step(subnet, old(leases), ReleaseOp(app), leases)
    {
      leases := leases - {app};
    }

    method List() returns (entries: seq<(AppId, Address)>)
      requires Valid()
      ensures |entries| == |leases|
      ensures forall app | app in leases :: (app, leases[app]) in entries
    {
      entries := [];
      var left := leases;
      while left != map[]
        invariant |entries| + |left| == |leases|
        invariant forall app | app in left :: app in leases && left[app] == leases[app]
        invariant forall app | app in leases && app !in left :: (app, leases[app]) in entries
        decreases |left|
      {
        var app :| app in left;
        entries := entries + [(app, left[app])];
        RemovedSize(left, app);
        left := left - {app};
      }
    }
  }

  // --------------------------------------------------------------- counting

  lemma SizeIsEven(n: nat)
    requires n >= 1
    ensures Pow2(n) == 2 || Pow2(n) >= 4
  {
    if n >= 2 {
      assert Pow2(n) == 2 * (2 * Pow2(n - 2));
    }
  }

  lemma PowerOf32()
    ensures Pow2(32) == ADDRESSES
  {
    assert Pow2(2) == 4;
    PowersMultiply(2, 2);
    PowersMultiply(4, 4);
    PowersMultiply(8, 8);
    PowersMultiply(16, 16);
  }

  lemma {:induction false} ScaleUp(a: nat, b: nat, size: nat)
    requires a <= b
    ensures a * size <= b * size
    decreases b - a
  {
    if a < b {
      ScaleUp(a, b - 1, size);
      assert b * size == (b - 1) * size + size;
    }
  }

  /** Block q of the address space is one of the whole blocks that make it up. */
  lemma WholeBlock(q: nat, size: nat, blocks: nat)
    requires q * size < blocks * size
    ensures q * size + size <= blocks * size
  {
    if q >= blocks {
      ScaleUp(blocks, q, size);
      assert false;
    } else {
      ScaleUp(q + 1, blocks, size);
      assert (q + 1) * size == q * size + size;
    }
  }

  lemma BlockFits(address: Address, prefix: nat)
    requires 0 <= address < ADDRESSES && prefix <= 32
    ensures var size := Pow2(32 - prefix);
      var network := address - address % size;
      network == address / size * size && network <= address < network + size <= ADDRESSES
  {
    PowersMultiply(prefix, 32 - prefix);
    PowerOf32();
    BlockOf(address, Pow2(32 - prefix), Pow2(prefix));
  }

  lemma BlockOf(address: nat, size: nat, blocks: nat)
    requires size > 0 && address < blocks * size
    ensures address - address % size == address / size * size
    ensures address - address % size <= address < address - address % size + size <= blocks * size
  {
    var q := address / size;
    assert address == q * size + address % size;
    WholeBlock(q, size, blocks);
  }

  ghost function Interval(lo: Address, hi: Address): (s: set<Address>)
    requires lo <= hi
    ensures |s| == hi - lo
    ensures forall i: Address :: i in s <==> lo <= i < hi
    decreases hi - lo
  {
    if lo == hi then {} else Interval(lo, hi - 1) + {hi - 1}
  }

  ghost function UsableSet(net: Subnet): set<Address> {
    set ip: Address | net.network <= ip < net.network + net.size && net.Usable(ip)
  }

  lemma UsableSize(net: Subnet)
    requires net.size == 2 || net.size >= 4
    ensures |UsableSet(net)| == Capacity(net)
  {
    if net.size == 2 {
      assert UsableSet(net) == {};
    } else {
      var free := Interval(net.network + 2, net.network + net.size - 1);
      forall ip: Address ensures ip in UsableSet(net) <==> ip in free {
        assert ip in UsableSet(net) <==> net.Usable(ip);
      }
      assert UsableSet(net) == free;
    }
  }

  /** As many addresses are in use as there are apps. */
  lemma {:induction false} AddressesInUse(net: Subnet, leases: map<AppId, Address>)
    requires Sound(net, leases)
    ensures |leases.Values| == |leases|
    decreases |leases|
  {
    if app :| app in leases {
      var rest := leases - {app};
      RemovedSize(leases, app);
      AddressesInUse(net, rest);
      forall ip | ip in leases.Values ensures ip in rest.Values + {leases[app]} {
        var a :| a in leases && leases[a] == ip;
        assert a != app ==> a in rest && rest[a] == ip;
      }
      assert leases.Values == rest.Values + {leases[app]};
      assert leases[app] !in rest.Values;
    }
  }

  /** The pigeonhole: no address is free exactly when as many apps hold one as the subnet can serve. */
  lemma ExhaustedIff(net: Subnet, leases: map<AppId, Address>)
    requires (net.size == 2 || net.size >= 4) && Sound(net, leases)
    ensures |leases| <= Capacity(net)
    ensures |leases| == Capacity(net) <==> forall ip: Address :: !Free(net, leases, ip)
  {
    UsableSize(net);
    AddressesInUse(net, leases);
    SubsetSize(leases.Values, UsableSet(net));
    if |leases| == Capacity(net) {
      forall ip: Address ensures !Free(net, leases, ip) {
        if net.Usable(ip) {
          assert ip in leases.Values;
        }
      }
    }
    if forall ip: Address :: !Free(net, leases, ip) {
      forall ip | ip in UsableSet(net) ensures ip in leases.Values {
        assert !Free(net, leases, ip);
      }
      assert leases.Values == UsableSet(net);
    }
  }

  lemma FirstFit(net: Subnet, leases: map<AppId, Address>, app: AppId, ip: Address)
    requires (net.size == 2 || net.size >= 4) && Sound(net, leases) && app !in leases
    requires LowestFree(net, leases, ip)
    ensures |leases| < Capacity(net)
    ensures Sound(net, leases[app := ip]) && Step(net, leases, AllocateOp(app), leases[app := ip])
  {
    ExhaustedIff(net, leases);
  }

  lemma NoneLeft(net: Subnet, leases: map<AppId, Address>)
    requires (net.size == 2 || net.size >= 4) && Sound(net, leases)
    requires NoneFreeBelow(net, leases, net.network + net.size)
    ensures |leases| == Capacity(net)
  {
    ExhaustedIff(net, leases);
  }

  // ------------------------------------------------------------------- runs

  datatype Op = AllocateOp(app: AppId) | SpecificOp(app: AppId, requested: Address) | ReleaseOp(app: AppId)

  /** What the three methods above may do to the table. */
  ghost predicate Step(net: Subnet, before: map<AppId, Address>, op: Op, after: map<AppId, Address>) {
    match op
    case AllocateOp(app) =>
      || after == before
      || (app !in before && exists ip: Address | LowestFree(net, before, ip) :: after == before[app := ip])
    case SpecificOp(app, requested) =>
      || after == before
      || (Free(net, before, requested) && after == before[app := requested])
    case ReleaseOp(app) => after == before - {app}
  }

  ghost predicate Run(net: Subnet, states: seq<map<AppId, Address>>, ops: seq<Op>) {
    && |states| == |ops| + 1
    && states[0] == map[]
    && forall i | 0 <= i < |ops| :: Step(net, states[i], ops[i], states[i + 1])
  }

  lemma StepKeepsSound(net: Subnet, before: map<AppId, Address>, op: Op, after: map<AppId, Address>)
    requires Sound(net, before) && Step(net, before, op, after)
    ensures Sound(net, after)
  {
  }

  /** In every reachable state the addresses in use are distinct, inside the subnet and not reserved. */
  lemma {:induction false} RunsStaySound(net: Subnet, states: seq<map<AppId, Address>>, ops: seq<Op>, i: nat)
    requires Run(net, states, ops) && i < |states|
    ensures Sound(net, states[i])
  {
    if i > 0 {
      RunsStaySound(net, states, ops, i - 1);
      StepKeepsSound(net, states[i - 1], ops[i - 1], states[i]);
    }
  }

  /** The usable addresses below one address. */
  ghost function Below(net: Subnet, ip: Address): set<Address> {
    set j: Address | net.network <= j < ip && net.Usable(j)
  }

  ghost predicate AllBelow(net: Subnet, leases: map<AppId, Address>, peak: nat) {
    forall app | app in leases :: |Below(net, leases[app])| < peak
  }

  lemma FirstFitIsLow(net: Subnet, leases: map<AppId, Address>, ip: Address)
    requires Sound(net, leases) && LowestFree(net, leases, ip)
    ensures |Below(net, ip)| <= |leases|
  {
    AddressesInUse(net, leases);
    forall j | j in Below(net, ip) ensures j in leases.Values {
      assert !Free(net, leases, j);
    }
    SubsetSize(Below(net, ip), leases.Values);
  }

  lemma StepStaysLow(net: Subnet, before: map<AppId, Address>, op: Op, after: map<AppId, Address>, peak: nat)
    requires Sound(net, before) && Step(net, before, op, after) && !op.SpecificOp?
    requires AllBelow(net, before, peak) && |after| <= peak
    ensures AllBelow(net, after, peak)
  {
    if op.AllocateOp? && after != before {
      var ip: Address :| LowestFree(net, before, ip) && after == before[op.app := ip];
      FirstFitIsLow(net, before, ip);
      RemovedSize(after, op.app);
      assert after - {op.app} == before;
    }
  }

  /** First fit keeps the subnet packed: when no more than `peak` apps ever hold an address at once, and none asks for a
      particular one, only the lowest `peak` usable addresses are ever handed out. */
  lemma {:induction false} RunsStayPacked(
    net: Subnet, states: seq<map<AppId, Address>>, ops: seq<Op>, peak: nat, i: nat)
    requires Run(net, states, ops) && i < |states|
    requires forall j | 0 <= j < |ops| :: !ops[j].SpecificOp?
    requires forall j | 0 <= j < |states| :: |states[j]| <= peak
    ensures AllBelow(net, states[i], peak)
  {
    if i > 0 {
      RunsStayPacked(net, states, ops, peak, i - 1);
      RunsStaySound(net, states, ops, i - 1);
      StepStaysLow(net, states[i - 1], ops[i - 1], states[i], peak);
    }
  }

  // ------------------------------------------------- which addresses these are

  /** In no reachable state does an app hold the first address of the subnet, the one after it or the last. */
  lemma ReservedStayFree(net: Subnet, states: seq<map<AppId, Address>>, ops: seq<Op>, i: nat, app: AppId)
    requires Run(net, states, ops) && i < |states| && app in states[i]
    ensures net.network + 2 <= states[i][app] < net.network + net.size - 1
  {
    RunsStaySound(net, states, ops, i);
    assert net.Usable(states[i][app]);
  }

  /** Every other address of the subnet is granted to whoever asks for it first. */
  lemma OthersAreGranted(net: Subnet, leases: map<AppId, Address>, ip: Address)
    requires !Taken(leases, ip)
    ensures Free(net, leases, ip) <==> net.network + 2 <= ip < net.network + net.size - 1
  {
  }

  /** Where just the first k of the addresses from the third on are taken, the next of them is the lowest free. */
  lemma NextInOrder(net: Subnet, leases: map<AppId, Address>, k: nat, ip: Address)
    requires forall j: Address :: Taken(leases, j) <==> net.network + 2 <= j < net.network + 2 + k
    ensures LowestFree(net, leases, ip) <==> ip == net.network + 2 + k && k + 3 < net.size
  {
    var next := net.network + 2 + k;
    if k + 3 < net.size {
      assert Free(net, leases, next);
      forall j: Address | j < next ensures !Free(net, leases, j) {
        assert Taken(leases, j) || j < net.network + 2;
      }
    }
    if LowestFree(net, leases, ip) {
      assert !Taken(leases, ip) && net.network + 2 <= ip;
      assert next <= ip < net.network + net.size - 1;
    }
  }

  lemma TakenAfter(leases: map<AppId, Address>, app: AppId, ip: Address)
    requires app !in leases
    ensures forall j: Address :: Taken(leases[app := ip], j) <==> Taken(leases, j) || j == ip
  {
    var after := leases[app := ip];
    forall j: Address ensures Taken(after, j) <==> Taken(leases, j) || j == ip {
      if Taken(leases, j) {
        var a :| a in leases && leases[a] == j;
        assert a in after && after[a] == j;
      }
      assert app in after && after[app] == ip;
    }
  }

  /** Apps that only ask for any address get them in order from the third on, until the last but one is taken. */
  lemma {:induction false} AllocatedInOrder(net: Subnet, states: seq<map<AppId, Address>>, ops: seq<Op>, k: nat)
    requires Run(net, states, ops) && k < |states|
    requires forall j | 0 <= j < |ops| :: ops[j].AllocateOp? && states[j + 1] != states[j]
    ensures forall ip: Address :: Taken(states[k], ip) <==> net.network + 2 <= ip < net.network + 2 + k
    ensures k > 0 ==> ops[k - 1].app in states[k] && states[k][ops[k - 1].app] == net.network + 1 + k
  {
    if k > 0 {
      AllocatedInOrder(net, states, ops, k - 1);
      var before, op := states[k - 1], ops[k - 1];
      assert Step(net, before, op, states[k]) && states[k] != before;
      var ip: Address :| LowestFree(net, before, ip) && states[k] == before[op.app := ip];
      NextInOrder(net, before, k - 1, ip);
      TakenAfter(before, op.app, ip);
      forall j: Address ensures Taken(states[k], j) <==> net.network + 2 <= j < net.network + 2 + k {
        assert Taken(states[k], j) <==> Taken(before, j) || j == ip;
      }
    }
  }
}
