/** The microVM manager: its map of running VMs, and the cap check made under a separate lock. */
module Vmm {
  import opened Identifiers
  import opened Totals
  import opened Wrappers

  datatype MicrovmConfig = MicrovmConfig(appId: AppId, memoryMb: nat, cpuShares: nat, filesExist: bool)

  datatype VmmError =
    InvalidConfig | CapReached | AlreadyExists | LaunchFailed | NotFound | PreparationFailed | VolumeFailed

  type Vms = map<AppId, MicrovmConfig>

  /** 32 MB to 32 GB of memory, 64 to 16384 CPU shares, and every named file on disk. */
  predicate ValidConfig(c: MicrovmConfig) {
    32 <= c.memoryMb <= 32 * 1024 && 64 <= c.cpuShares <= 16384 && c.filesExist
  }

  /** The first half of `start`, under the read lock. */
  function CheckError(vms: Vms, max: nat, c: MicrovmConfig): Option<VmmError> {
    if !ValidConfig(c) then Some(InvalidConfig)
    else if |vms| >= max then Some(CapReached)
    else None
  }

  /** The second half of `start`, under the write lock. */
  function InsertError(vms: Vms, c: MicrovmConfig, launches: bool): Option<VmmError> {
    if c.appId in vms then Some(AlreadyExists)
    else if !launches then Some(LaunchFailed)
    else None
  }

  function Inserted(vms: Vms, c: MicrovmConfig, launches: bool): Vms {
    if InsertError(vms, c, launches).Some? then vms else vms[c.appId := c]
  }

  function ToResult(e: Option<VmmError>): Result<(), VmmError> {
    if e.Some? then Err(e.value) else Ok(())
  }

  class VmmManager {
    const maxMicrovms: nat
    var vms: Vms

    constructor (maxMicrovms: nat)
      ensures this.maxMicrovms == maxMicrovms && vms == map[]
    {
      this.maxMicrovms := maxMicrovms;
      vms := map[];
    }

    method CheckCapacity(c: MicrovmConfig) returns (r: Result<(), VmmError>)
      ensures r == ToResult(CheckError(vms, maxMicrovms, c))
    {
      if !ValidConfig(c) {
        return Err(InvalidConfig);
      }
      if |vms| >= maxMicrovms {
        return Err(CapReached);
      }
      return Ok(());
    }

    method InsertVm(c: MicrovmConfig, launches: bool) returns (r: Result<(), VmmError>)
      modifies this
      ensures vms == Inserted(old(vms), c, launches)
      ensures r == ToResult(InsertError(old(vms), c, launches))
    {
      if c.appId in vms {
        return Err(AlreadyExists);
      }
      if !launches {
        return Err(LaunchFailed);
      }
      vms := vms[c.appId := c];
      return Ok(());
    }

    /** `start` when no other call comes between its two halves. */
    method Start(c: MicrovmConfig, launches: bool) returns (r: Result<(), VmmError>)
      modifies this
      ensures var check := CheckError(old(vms), maxMicrovms, c);
        && vms == (if check.Some? then old(vms) else Inserted(old(vms), c, launches))
        && r == ToResult(if check.Some? then check else InsertError(old(vms), c, launches))
    {
      r := CheckCapacity(c);
      if r.Ok? {
        r := InsertVm(c, launches);
      }
    }

    method Stop(app: AppId) returns (r: Result<(), VmmError>)
      modifies this
      ensures vms == old(vms) - {app}
      ensures r == if app in old(vms) then Ok(()) else Err(NotFound)
    {
      r := if app in vms then Ok(()) else Err(NotFound);
      vms := vms - {app};
    }

    /** The running apps, in the arbitrary order in which a hash map is walked. */
    method ListRunning() returns (apps: seq<AppId>)
      ensures forall a :: a in apps <==> a in vms
      ensures forall i, j | 0 <= i < j < |apps| :: apps[i] != apps[j]
    {
      apps := [];
      var left := vms.Keys;
      while left != {}
        invariant left <= vms.Keys
        invariant forall a :: a in apps <==> a in vms && a !in left
        invariant forall i, j | 0 <= i < j < |apps| :: apps[i] != apps[j]
        decreases left
      {
        var a :| a in left;
        apps, left := apps + [a], left - {a};
      }
    }
  }

  // --------------------------------------------- starts and stops interleaved

  /** One ticket for each `start` call that passed its check and has not yet taken the write lock. */
  datatype Machine = Machine(vms: Vms, pending: map<nat, MicrovmConfig>)

  datatype Step =
    | Check(ticket: nat, config: MicrovmConfig)
    | Insert(ticket: nat, launches: bool)
    | Stop(app: AppId)

  /** At most k starts are in flight, the one being checked included. */
  predicate Enabled(m: Machine, k: nat, step: Step) {
    match step
    case Check(t, _) => t !in m.pending && |m.pending| < k
    case Insert(t, _) => t in m.pending
    case Stop(_) => true
  }

  function Next(m: Machine, max: nat, step: Step): Machine {
    match step
    case Check(t, c) => if CheckError(m.vms, max, c).Some? then m else m.(pending := m.pending[t := c])
    case Insert(t, launches) =>
      if t in m.pending then Machine(Inserted(m.vms, m.pending[t], launches), m.pending - {t}) else m
    case Stop(app) => m.(vms := m.vms - {app})
  }

  function Run(m: Machine, max: nat, steps: seq<Step>): Machine {
    if steps == [] then m else Next(Run(m, max, steps[..|steps| - 1]), max, steps[|steps| - 1])
  }

  ghost predicate Legal(m: Machine, max: nat, k: nat, steps: seq<Step>) {
    steps != [] ==>
      Legal(m, max, k, steps[..|steps| - 1]) && Enabled(Run(m, max, steps[..|steps| - 1]), k, steps[|steps| - 1])
  }

  /** Running VMs and pending starts together stay below the cap plus the starts in flight. */
  ghost predicate WithinCap(m: Machine, max: nat, k: nat) {
    |m.vms| + |m.pending| <= max + k - 1
  }

  lemma StepStaysWithinCap(m: Machine, max: nat, k: nat, step: Step)
    requires k >= 1 && WithinCap(m, max, k) && Enabled(m, k, step)
    ensures WithinCap(Next(m, max, step), max, k)
  {
    match step
    case Check(t, c) => AddedSize(m.pending, t, c);
    case Insert(t, launches) =>
      RemovedSize(m.pending, t);
      AddedSize(m.vms, m.pending[t].appId, m.pending[t]);
    case Stop(app) => RemovedSize(m.vms, app);
  }

  /** No interleaving of at most k concurrent starts with any stops exceeds the cap by k or more. */
  lemma {:induction false} CapOvershootIsBounded(vms: Vms, max: nat, k: nat, steps: seq<Step>)
    requires k >= 1 && |vms| <= max && Legal(Machine(vms, map[]), max, k, steps)
    ensures WithinCap(Run(Machine(vms, map[]), max, steps), max, k)
    ensures |Run(Machine(vms, map[]), max, steps).vms| <= max + k - 1
  {
    if steps != [] {
      var front := steps[..|steps| - 1];
      var m := Machine(vms, map[]);
      CapOvershootIsBounded(vms, max, k, front);
      StepStaysWithinCap(Run(m, max, front), max, k, steps[|steps| - 1]);
    }
  }

  /** A running VM is replaced by no start: only a stop of its own app touches its entry. */
  lemma {:induction false} OneVmPerApp(m: Machine, max: nat, steps: seq<Step>, app: AppId)
    requires app in m.vms && forall i | 0 <= i < |steps| :: steps[i] != Step.Stop(app)
    ensures app in Run(m, max, steps).vms && Run(m, max, steps).vms[app] == m.vms[app]
  {
    if steps != [] {
      OneVmPerApp(m, max, steps[..|steps| - 1], app);
    }
  }

  // ------------------------------------------------- the bound is attained

  function Plain(app: nat): MicrovmConfig { MicrovmConfig(AppId(app), 128, 1024, true) }

  /** Apps below n run, and the starts of the next j apps wait, each under its app's number. */
  ghost predicate Shape(m: Machine, n: nat, j: nat) {
    && |m.vms| == n && |m.pending| == j
    && (forall a: AppId :: a in m.vms <==> a.uuid < n)
    && (forall t: nat :: t in m.pending <==> n <= t < n + j)
    && (forall t: nat | t in m.pending :: m.pending[t] == Plain(t))
  }

  lemma CheckShape(m: Machine, max: nat, n: nat, j: nat)
    requires n < max && Shape(m, n, j)
    ensures Shape(Next(m, max, Check(n + j, Plain(n + j))), n, j + 1)
  {
    assert Next(m, max, Check(n + j, Plain(n + j))) == Machine(m.vms, m.pending[n + j := Plain(n + j)]);
    WaitingGrows(m.pending, m.pending[n + j := Plain(n + j)], n, j);
  }

  lemma WaitingGrows(pending: map<nat, MicrovmConfig>, next: map<nat, MicrovmConfig>, n: nat, j: nat)
    requires forall t: nat :: t in pending <==> n <= t < n + j
    requires next == pending[n + j := Plain(n + j)]
    ensures |next| == |pending| + 1
    ensures forall t: nat :: t in next <==> n <= t < n + j + 1
  {
    assert n + j !in pending;
    AddedSize(pending, n + j, Plain(n + j));
  }

  lemma InsertShape(m: Machine, max: nat, n: nat, j: nat)
    requires j > 0 && Shape(m, n, j)
    ensures Shape(Next(m, max, Insert(n, true)), n + 1, j - 1)
  {
    AddedSize(m.vms, AppId(n), Plain(n));
    RemovedSize(m.pending, n);
  }

  ghost predicate Reachable(max: nat, k: nat, m: Machine) {
    exists steps :: Legal(Machine(map[], map[]), max, k, steps) && Run(Machine(map[], map[]), max, steps) == m
  }

  lemma ReachNext(max: nat, k: nat, m: Machine, step: Step)
    requires Reachable(max, k, m) && Enabled(m, k, step)
    ensures Reachable(max, k, Next(m, max, step))
  {
    var start := Machine(map[], map[]);
    var steps :| Legal(start, max, k, steps) && Run(start, max, steps) == m;
    assert (steps + [step])[..|steps|] == steps;
    assert Legal(start, max, k, steps + [step]) && Run(start, max, steps + [step]) == Next(m, max, step);
  }

  lemma StartReachable(max: nat, k: nat) returns (m: Machine)
    ensures Reachable(max, k, m) && Shape(m, 0, 0)
  {
    m := Machine(map[], map[]);
    var none: seq<Step> := [];
    assert Legal(m, max, k, none) && Run(m, max, none) == m;
  }

  lemma CheckOne(max: nat, k: nat, before: Machine, n: nat, j: nat) returns (m: Machine)
    requires n < max && j < k && Reachable(max, k, before) && Shape(before, n, j)
    ensures Reachable(max, k, m) && Shape(m, n, j + 1)
  {
    var step := Check(n + j, Plain(n + j));
    CheckShape(before, max, n, j);
    ReachNext(max, k, before, step);
    m := Next(before, max, step);
  }

  lemma InsertOne(max: nat, k: nat, before: Machine, n: nat, j: nat) returns (m: Machine)
    requires j > 0 && Reachable(max, k, before) && Shape(before, n, j)
    ensures Reachable(max, k, m) && Shape(m, n + 1, j - 1)
  {
    InsertShape(before, max, n, j);
    ReachNext(max, k, before, Insert(n, true));
    m := Next(before, max, Insert(n, true));
  }

  /** n starts one after the other, then j checks. */
  lemma {:induction false} ReachWaiting(max: nat, k: nat, n: nat, j: nat) returns (m: Machine)
    requires n < max && j <= k && k >= 1
    ensures Reachable(max, k, m) && Shape(m, n, j)
    decreases n, j
  {
    if j > 0 {
      m := ReachWaiting(max, k, n, j - 1);
      m := CheckOne(max, k, m, n, j - 1);
    } else if n > 0 {
      m := ReachWaiting(max, k, n - 1, 1);
      m := InsertOne(max, k, m, n - 1, 1);
    } else {
      m := StartReachable(max, k);
    }
  }

  /** Then the waiting starts insert, lowest ticket first. */
  lemma {:induction false} ReachInserted(max: nat, k: nat, done: nat) returns (m: Machine)
    requires max >= 1 && k >= 1 && done <= k
    ensures Reachable(max, k, m) && Shape(m, max - 1 + done, k - done)
  {
    if done == 0 {
      m := ReachWaiting(max, k, max - 1, k);
    } else {
      m := ReachInserted(max, k, done - 1);
      m := InsertOne(max, k, m, max - 2 + done, k - done + 1);
    }
  }

  /** For every positive cap and every k, some interleaving reaches the bound exactly. */
  lemma CapOvershootIsTight(max: nat, k: nat)
    requires max >= 1 && k >= 1
    ensures exists m :: Reachable(max, k, m) && |m.vms| == max + k - 1
  {
    var m := ReachInserted(max, k, k);
  }
}
