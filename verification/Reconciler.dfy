/** One reconcile pass: create what is missing, then stop what is not wanted. */
module Reconciling {
  import opened DesiredState
  import opened Identifiers
  import opened Totals
  import opened Vmm
  import opened Wrappers

  /** What the host lets succeed during a pass. */
  datatype World = World(
    prepares: DesiredApp -> bool,
    filesExist: DesiredApp -> bool,
    launches: DesiredApp -> bool,
    volumesReady: bool)

  function ConfigOf(world: World, app: DesiredApp): MicrovmConfig {
    MicrovmConfig(app.appId, app.memoryMb, app.cpuShares, world.filesExist(app))
  }

  /** Why creating the app fails, in the order the checks are made. */
  function CreateError(vms: Vms, max: nat, world: World, app: DesiredApp): Option<VmmError> {
    if !world.prepares(app) then Some(PreparationFailed)
    else CheckError(vms, max, ConfigOf(world, app)).OrElse(
      InsertError(vms, ConfigOf(world, app), world.launches(app)))
  }

  datatype Progress = Progress(vms: Vms, created: nat, error: Option<VmmError>)

  function CreateStep(actual: Vms, max: nat, world: World, before: Progress, app: DesiredApp): Progress {
    if before.error.Some? || app.appId in actual then before
    else
      var e := CreateError(before.vms, max, world, app);
      if e.Some? then before.(error := e)
      else Progress(before.vms[app.appId := ConfigOf(world, app)], before.created + 1, None)
  }

  /** The create loop over a list, against the VMs that ran when the pass began. */
  function Creating(actual: Vms, max: nat, world: World, apps: seq<DesiredApp>): Progress {
    if apps == [] then Progress(actual, 0, None)
    else CreateStep(actual, max, world, Creating(actual, max, world, apps[..|apps| - 1]), apps[|apps| - 1])
  }

  function Ids(apps: seq<DesiredApp>): set<AppId> {
    if apps == [] then {} else Ids(apps[..|apps| - 1]) + {apps[|apps| - 1].appId}
  }

  /** The state after a pass and what the pass returned. */
  datatype Pass = Pass(vms: Vms, result: Result<nat, VmmError>)

  function Finish(actual: Vms, p: Progress, ids: set<AppId>, volumesReady: bool): Pass {
    if p.error.Some? then Pass(p.vms, Err(p.error.value))
    else
      var extra := actual.Keys - ids;
      Pass(p.vms - extra, if volumesReady then Ok(p.created + |extra|) else Err(VolumeFailed))
  }

  function Reconciled(actual: Vms, max: nat, world: World, apps: seq<DesiredApp>): Pass {
    Finish(actual, Creating(actual, max, world, apps), Ids(apps), world.volumesReady)
  }

  lemma {:induction false} ListsIds(apps: seq<DesiredApp>, app: AppId)
    ensures app in Ids(apps) <==> Lists(apps, app)
  {
    if apps != [] {
      ListsIds(apps[..|apps| - 1], app);
    }
  }

  lemma {:induction false} ErrorSticks(actual: Vms, max: nat, world: World, apps: seq<DesiredApp>, n: nat)
    requires n <= |apps| && Creating(actual, max, world, apps[..n]).error.Some?
    ensures Creating(actual, max, world, apps) == Creating(actual, max, world, apps[..n])
    decreases |apps|
  {
    if n == |apps| {
      assert apps[..n] == apps;
    } else {
      assert apps[..|apps| - 1][..n] == apps[..n];
      ErrorSticks(actual, max, world, apps[..|apps| - 1], n);
    }
  }

  /** The create loop keeps what ran, adds only listed apps, and adds all of them unless it fails. */
  ghost predicate Extends(actual: Vms, p: Progress, ids: set<AppId>) {
    && (forall a | a in actual :: a in p.vms && p.vms[a] == actual[a])
    && (forall a | a in p.vms :: a in actual || a in ids)
    && (p.error.None? ==> forall a | a in ids :: a in p.vms)
    && |p.vms| == |actual| + p.created
  }

  lemma StepExtends(actual: Vms, max: nat, world: World, before: Progress, app: DesiredApp, ids: set<AppId>)
    requires Extends(actual, before, ids)
    ensures Extends(actual, CreateStep(actual, max, world, before, app), ids + {app.appId})
  {
    var next := CreateStep(actual, max, world, before, app);
    if next.created != before.created {
      ExtendByOne(actual, before, ConfigOf(world, app), ids);
    }
  }

  lemma ExtendByOne(actual: Vms, before: Progress, c: MicrovmConfig, ids: set<AppId>)
    requires Extends(actual, before, ids) && before.error.None? && c.appId !in before.vms
    ensures Extends(actual, Progress(before.vms[c.appId := c], before.created + 1, None), ids + {c.appId})
  {
    AddedSize(before.vms, c.appId, c);
  }

  lemma {:induction false} CreatingExtends(actual: Vms, max: nat, world: World, apps: seq<DesiredApp>)
    ensures Extends(actual, Creating(actual, max, world, apps), Ids(apps))
  {
    if apps != [] {
      CreatingExtends(actual, max, world, apps[..|apps| - 1]);
      StepExtends(actual, max, world, Creating(actual, max, world, apps[..|apps| - 1]), apps[|apps| - 1],
                  Ids(apps[..|apps| - 1]));
    }
  }

  lemma {:induction false} RunningStays(actual: Vms, max: nat, world: World, apps: seq<DesiredApp>)
    ensures actual.Keys <= Creating(actual, max, world, apps).vms.Keys
  {
    CreatingExtends(actual, max, world, apps);
  }

  class Reconciler {
    const vmm: VmmManager

    constructor (vmm: VmmManager)
      ensures this.vmm == vmm
    {
      this.vmm := vmm;
    }

    method Reconcile(apps: seq<DesiredApp>, world: World) returns (r: Result<nat, VmmError>)
      modifies vmm
      ensures var pass := Reconciled(old(vmm.vms), vmm.maxMicrovms, world, apps);
        vmm.vms == pass.vms && r == pass.result
    {
      ghost var was := vmm.vms;
      ghost var p := Creating(was, vmm.maxMicrovms, world, apps);
      var actual := vmm.ListRunning();
      var created := CreateMissing(actual, apps, world);
      if created.Err? {
        return Err(created.error);
      }
      assert was.Keys <= p.vms.Keys by { RunningStays(was, vmm.maxMicrovms, world, apps); }
      r := FinishPass(actual, apps, created.value, world.volumesReady, was, p, Ids(apps));
    }

    /** Everything after phase 1. */
    method FinishPass(actual: seq<AppId>, apps: seq<DesiredApp>, created: nat, volumesReady: bool,
                      ghost was: Vms, ghost p: Progress, ghost ids: set<AppId>) returns (r: Result<nat, VmmError>)
      requires ids == Ids(apps)
      requires forall i, j | 0 <= i < j < |actual| :: actual[i] != actual[j]
      requires forall a :: a in actual <==> a in was
      requires was.Keys <= p.vms.Keys && p.error.None? && vmm.vms == p.vms && created == p.created
      modifies vmm
      ensures vmm.vms == Finish(was, p, ids, volumesReady).vms && r == Finish(was, p, ids, volumesReady).result
    {
      var removed := RemoveExtra(actual, apps, was.Keys, ids);
      if !volumesReady {
        return Err(VolumeFailed);
      }
      return Ok(created + removed);
    }

    /** Phase 1: the loop over the desired apps.  The drift check of an app that runs always answers no. */
    method CreateMissing(actual: seq<AppId>, apps: seq<DesiredApp>, world: World) returns (r: Result<nat, VmmError>)
      requires forall a :: a in actual <==> a in vmm.vms
      modifies vmm
      ensures var p := Creating(old(vmm.vms), vmm.maxMicrovms, world, apps);
        vmm.vms == p.vms && r == if p.error.Some? then Err(p.error.value) else Ok(p.created)
    {
      ghost var was := vmm.vms;
      var changes := 0;
      for i := 0 to |apps|
        invariant Progress(vmm.vms, changes, None) == Creating(was, vmm.maxMicrovms, world, apps[..i])
      {
        assert apps[..i + 1][..i] == apps[..i];
        if apps[i].appId !in actual {
          var created := CreateMicrovm(apps[i], world);
          if created.Err? {
            ErrorSticks(was, vmm.maxMicrovms, world, apps, i + 1);
            return Err(created.error);
          }
          changes := changes + 1;
        }
      }
      assert apps[..|apps|] == apps;
      return Ok(changes);
    }

    /** Phase 2: the loop over the VMs that ran when the pass began. */
    method RemoveExtra(actual: seq<AppId>, apps: seq<DesiredApp>, ghost running: set<AppId>, ghost ids: set<AppId>)
      returns (removed: nat)
      requires ids == Ids(apps)
      requires forall i, j | 0 <= i < j < |actual| :: actual[i] != actual[j]
      requires running <= vmm.vms.Keys && forall a :: a in actual <==> a in running
      modifies vmm
      ensures vmm.vms == old(vmm.vms) - (running - ids)
      ensures removed == |running - ids|
    {
      ghost var was, gone: set<AppId> := vmm.vms, {};
      removed := 0;
      for i := 0 to |actual|
        invariant vmm.vms == was - gone && removed == |gone| && gone <= running
        invariant forall a :: a in gone <==> a in actual[..i] && a !in ids
      {
        var wanted := IsWanted(apps, actual[i]);
        assert actual[i] !in actual[..i];
        assert forall a :: a in actual[..i + 1] <==> a in actual[..i] || a == actual[i];
        if !wanted {
          var stopped := vmm.Stop(actual[i]);
          assert stopped.Ok?;
          OneMoreGone(was, gone, actual[i]);
          gone := gone + {actual[i]};
          removed := removed + 1;
        }
      }
      assert actual[..|actual|] == actual;
      assert gone == running - ids;
    }

    method CreateMicrovm(app: DesiredApp, world: World) returns (r: Result<(), VmmError>)
      modifies vmm
      ensures r == ToResult(CreateError(old(vmm.vms), vmm.maxMicrovms, world, app))
      ensures vmm.vms == if r.Ok? then old(vmm.vms)[app.appId := ConfigOf(world, app)] else old(vmm.vms)
    {
      if !world.prepares(app) {
        return Err(PreparationFailed);
      }
      r := vmm.Start(ConfigOf(world, app), world.launches(app));
    }

    method IsWanted(apps: seq<DesiredApp>, app: AppId) returns (wanted: bool)
      ensures wanted <==> app in Ids(apps)
    {
      ListsIds(apps, app);
      for i := 0 to |apps|
        invariant forall j | 0 <= j < i :: apps[j].appId != app
      {
        if apps[i].appId == app {
          return true;
        }
      }
      return false;
    }
  }

  lemma OneMoreGone(was: Vms, gone: set<AppId>, app: AppId)
    ensures (was - gone) - {app} == was - (gone + {app})
  {
  }

  // ------------------------------------------------- the convergence dichotomy

  /** Nothing fails but the cap. */
  ghost predicate Willing(world: World, apps: seq<DesiredApp>) {
    && world.volumesReady
    && forall i | 0 <= i < |apps| ::
         world.prepares(apps[i]) && world.launches(apps[i]) && ValidConfig(ConfigOf(world, apps[i]))
  }

  lemma UnionSize(a: set<AppId>, b: set<AppId>)
    ensures |a + b| == |a| + |b - a|
  {
    assert a + b == a + (b - a);
  }

  /** With m apps missing the loop completes if they fit, else it creates up to the cap and fails. */
  ghost predicate Capped(running: nat, max: nat, p: Progress, m: nat) {
    if m == 0 || running + m <= max
    then p.error == None && p.created == m
    else p.error == Some(CapReached) && p.created == if running <= max then max - running else 0
  }

  lemma StepCapped(
    actual: Vms, max: nat, world: World, before: Progress, app: DesiredApp, ids: set<AppId>, m: nat)
    requires Extends(actual, before, ids) && Capped(|actual|, max, before, m)
    requires app.appId !in ids && app.appId !in actual
    requires world.prepares(app) && world.launches(app) && ValidConfig(ConfigOf(world, app))
    ensures Capped(|actual|, max, CreateStep(actual, max, world, before, app), m + 1)
  {
    assert app.appId !in before.vms;
  }

  lemma MissingGrows(ids: set<AppId>, app: AppId, running: set<AppId>)
    requires app !in ids
    ensures |(ids + {app}) - running| == |ids - running| + if app in running then 0 else 1
  {
    if app in running {
      assert (ids + {app}) - running == ids - running;
    } else {
      assert (ids + {app}) - running == (ids - running) + {app};
    }
  }

  lemma {:induction false} CreatesUpToTheCap(actual: Vms, max: nat, world: World, apps: seq<DesiredApp>)
    requires OnePerApp(apps) && Willing(world, apps)
    ensures Capped(|actual|, max, Creating(actual, max, world, apps), |Ids(apps) - actual.Keys|)
  {
    if apps != [] {
      var front, app := apps[..|apps| - 1], apps[|apps| - 1];
      CreatesUpToTheCap(actual, max, world, front);
      CreatingExtends(actual, max, world, front);
      ListsIds(front, app.appId);
      MissingGrows(Ids(front), app.appId, actual.Keys);
      if app.appId !in actual {
        StepCapped(actual, max, world, Creating(actual, max, world, front), app, Ids(front),
                   |Ids(front) - actual.Keys|);
      }
    }
  }

  /** The VMs a pass is asked to end up with can be reached without exceeding the cap on the way. */
  ghost predicate Fits(actual: Vms, max: nat, ids: set<AppId>) {
    ids <= actual.Keys || |actual.Keys + ids| <= max
  }

  lemma FitsSize(actual: Vms, max: nat, ids: set<AppId>)
    ensures Fits(actual, max, ids) <==> |ids - actual.Keys| == 0 || |actual| + |ids - actual.Keys| <= max
  {
    UnionSize(actual.Keys, ids);
    assert |actual| == |actual.Keys|;
    NoneMissing(ids, actual.Keys);
  }

  lemma NoneMissing(ids: set<AppId>, running: set<AppId>)
    ensures ids <= running <==> |ids - running| == 0
  {
    if ids <= running {
      assert ids - running == {};
    } else {
      var a :| a in ids && a !in running;
      assert a in ids - running;
    }
  }

  lemma SettledPass(vms: Vms, max: nat, world: World, apps: seq<DesiredApp>)
    requires OnePerApp(apps) && Willing(world, apps) && vms.Keys == Ids(apps)
    ensures Reconciled(vms, max, world, apps) == Pass(vms, Ok(0))
  {
    CreatesUpToTheCap(vms, max, world, apps);
    CreatingExtends(vms, max, world, apps);
    var p := Creating(vms, max, world, apps);
    assert Ids(apps) - vms.Keys == {} && vms.Keys - Ids(apps) == {};
    SameKeys(vms, p.vms);
    assert vms - {} == vms;
  }

  /** If running and desired together fit under the cap, one pass makes running equal desired,
      keeps the VMs wanted before, and counts every creation and removal. */
  lemma PassConverges(actual: Vms, max: nat, world: World, apps: seq<DesiredApp>)
    requires OnePerApp(apps) && Willing(world, apps) && Fits(actual, max, Ids(apps))
    ensures Converged(actual, Reconciled(actual, max, world, apps), Ids(apps))
  {
    FittingListIsCreated(actual, max, world, apps);
    CreatingExtends(actual, max, world, apps);
    FinishConverges(actual, Creating(actual, max, world, apps), Ids(apps));
  }

  ghost predicate Converged(actual: Vms, pass: Pass, ids: set<AppId>) {
    && pass.vms.Keys == ids
    && (forall a | a in ids && a in actual :: pass.vms[a] == actual[a])
    && pass.result == Ok(|ids - actual.Keys| + |actual.Keys - ids|)
  }

  lemma FinishConverges(actual: Vms, p: Progress, ids: set<AppId>)
    requires Extends(actual, p, ids) && p.error.None? && p.created == |ids - actual.Keys|
    ensures Converged(actual, Finish(actual, p, ids, true), ids)
  {
    WantedRemain(actual, p, ids);
  }

  lemma FittingListIsCreated(actual: Vms, max: nat, world: World, apps: seq<DesiredApp>)
    requires OnePerApp(apps) && Willing(world, apps) && Fits(actual, max, Ids(apps))
    ensures var p := Creating(actual, max, world, apps);
      p.error.None? && p.created == |Ids(apps) - actual.Keys|
  {
    FitsSize(actual, max, Ids(apps));
    CreatesUpToTheCap(actual, max, world, apps);
  }

  lemma WantedRemain(actual: Vms, p: Progress, ids: set<AppId>)
    requires Extends(actual, p, ids) && p.error.None?
    ensures (p.vms - (actual.Keys - ids)).Keys == ids
    ensures forall a | a in ids && a in actual :: p.vms[a] == actual[a]
  {
    assert forall a :: a in p.vms <==> a in actual || a in ids;
  }

  /** Otherwise the pass fills the node to the cap, removes nothing and fails. */
  lemma PassGetsStuck(actual: Vms, max: nat, world: World, apps: seq<DesiredApp>)
    requires OnePerApp(apps) && Willing(world, apps) && !Fits(actual, max, Ids(apps))
    ensures var Pass(vms, r) := Reconciled(actual, max, world, apps);
      && r == Err(CapReached)
      && actual.Keys <= vms.Keys && (forall a | a in actual :: vms[a] == actual[a])
      && |vms| == (if |actual| <= max then max else |actual|)
      && vms.Keys + Ids(apps) == actual.Keys + Ids(apps)
  {
    FitsSize(actual, max, Ids(apps));
    CreatesUpToTheCap(actual, max, world, apps);
    CreatingExtends(actual, max, world, apps);
    var vms := Reconciled(actual, max, world, apps).vms;
    assert vms.Keys + Ids(apps) == actual.Keys + Ids(apps);
  }

  /** A pass over the state a failed pass left fails again and changes nothing. */
  lemma StuckStaysStuck(actual: Vms, max: nat, world: World, apps: seq<DesiredApp>)
    requires OnePerApp(apps) && Willing(world, apps) && !Fits(actual, max, Ids(apps))
    ensures var vms := Reconciled(actual, max, world, apps).vms;
      !Fits(vms, max, Ids(apps)) && Reconciled(vms, max, world, apps) == Pass(vms, Err(CapReached))
  {
    PassGetsStuck(actual, max, world, apps);
    var vms := Reconciled(actual, max, world, apps).vms;
    if Ids(apps) <= vms.Keys {
      StuckMisses(actual, vms, max, Ids(apps));
      assert false;
    }
    PassGetsStuck(vms, max, world, apps);
    SameKeys(vms, Reconciled(vms, max, world, apps).vms);
  }

  lemma StuckMisses(actual: Vms, vms: Vms, max: nat, ids: set<AppId>)
    requires !Fits(actual, max, ids) && vms.Keys + ids == actual.Keys + ids
    requires actual.Keys <= vms.Keys && |vms| == if |actual| <= max then max else |actual|
    ensures !(ids <= vms.Keys)
  {
    if ids <= vms.Keys {
      forall a ensures a in actual.Keys + ids <==> a in vms.Keys {
        assert a in vms.Keys + ids <==> a in actual.Keys + ids;
      }
      assert actual.Keys + ids == vms.Keys;
      assert |vms.Keys| == |vms| && |actual.Keys| == |actual|;
      UnionSize(actual.Keys, ids);
      NoneMissing(ids, actual.Keys);
    }
  }

  lemma SameKeys(a: Vms, b: Vms)
    requires a.Keys <= b.Keys && |a| == |b| && forall k | k in a :: b[k] == a[k]
    ensures a == b
  {
    assert |a| == |a.Keys| && |b| == |b.Keys|;
    assert b.Keys == a.Keys + (b.Keys - a.Keys);
    assert b.Keys - a.Keys == {};
  }

  function Passes(actual: Vms, max: nat, world: World, apps: seq<DesiredApp>, n: nat): Vms {
    if n == 0 then actual else Reconciled(Passes(actual, max, world, apps, n - 1), max, world, apps).vms
  }

  lemma NextPass(actual: Vms, before: Vms, max: nat, world: World, apps: seq<DesiredApp>, n: nat)
    requires Passes(actual, max, world, apps, n) == before
    ensures Passes(actual, max, world, apps, n + 1) == Reconciled(before, max, world, apps).vms
  {
  }

  lemma StaysFrom<T>(f: nat -> T, x: T, first: nat, n: nat)
    requires first <= n && f(first) == x && forall i: nat | f(i) == x :: f(i + 1) == x
    ensures f(n) == x
    decreases n
  {
    if first < n {
      StaysFrom(f, x, first, n - 1);
    }
  }

  /** What the first pass leaves is what every later pass leaves. */
  lemma FirstPassIsFinal(actual: Vms, max: nat, world: World, apps: seq<DesiredApp>)
    requires OnePerApp(apps) && Willing(world, apps)
    ensures var vms, ids := Reconciled(actual, max, world, apps).vms, Ids(apps);
      && (vms.Keys == ids <==> Fits(actual, max, ids))
      && Reconciled(vms, max, world, apps).vms == vms
      && Reconciled(vms, max, world, apps).result == if Fits(actual, max, ids) then Ok(0) else Err(CapReached)
  {
    if Fits(actual, max, Ids(apps)) {
      PassConverges(actual, max, world, apps);
      SettledPass(Reconciled(actual, max, world, apps).vms, max, world, apps);
    } else {
      StuckStaysStuck(actual, max, world, apps);
    }
  }

  lemma FirstPassStays(actual: Vms, max: nat, world: World, apps: seq<DesiredApp>, n: nat)
    requires OnePerApp(apps) && Willing(world, apps)
    requires Passes(actual, max, world, apps, n) == Passes(actual, max, world, apps, 1)
    ensures Passes(actual, max, world, apps, n + 1) == Passes(actual, max, world, apps, 1)
  {
    var settled := Passes(actual, max, world, apps, 1);
    NextPass(actual, actual, max, world, apps, 0);
    FirstPassIsFinal(actual, max, world, apps);
    NextPass(actual, settled, max, world, apps, n);
  }

  lemma PassesStay(actual: Vms, max: nat, world: World, apps: seq<DesiredApp>, n: nat)
    requires OnePerApp(apps) && Willing(world, apps) && n >= 1
    ensures Passes(actual, max, world, apps, n) == Passes(actual, max, world, apps, 1)
  {
    var f := (i: nat) => Passes(actual, max, world, apps, i);
    forall i: nat | f(i) == f(1) ensures f(i + 1) == f(1) {
      FirstPassStays(actual, max, world, apps, i);
    }
    StaysFrom(f, f(1), 1, n);
  }

  /** The dichotomy over any number of passes: the list is reached by the first pass or never. */
  lemma ConvergesFirstOrNever(actual: Vms, max: nat, world: World, apps: seq<DesiredApp>, n: nat)
    requires OnePerApp(apps) && Willing(world, apps) && n >= 1
    ensures Passes(actual, max, world, apps, n) == Reconciled(actual, max, world, apps).vms
    ensures Passes(actual, max, world, apps, n).Keys == Ids(apps) <==> Fits(actual, max, Ids(apps))
    ensures Reconciled(Passes(actual, max, world, apps, n), max, world, apps).result ==
      if Fits(actual, max, Ids(apps)) then Ok(0) else Err(CapReached)
  {
    PassesStay(actual, max, world, apps, n);
    NextPass(actual, actual, max, world, apps, 0);
    FirstPassIsFinal(actual, max, world, apps);
  }

  /** Every list the daemon can build from commands meets the dichotomy's premises on a willing host. */
  lemma CommandsConverge(msgs: seq<Message>, actual: Vms, max: nat, world: World, n: nat)
    requires n >= 1 && world.volumesReady
    requires forall app: DesiredApp :: world.prepares(app) && world.launches(app) && world.filesExist(app)
    ensures Passes(actual, max, world, Fold(msgs), n).Keys == Ids(Fold(msgs)) <==> Fits(actual, max, Ids(Fold(msgs)))
  {
    FoldIsFaithful(msgs);
    var apps := Fold(msgs);
    forall i | 0 <= i < |apps| ensures ValidConfig(ConfigOf(world, apps[i])) {
      assert Placed(apps[i], msgs);
    }
    ConvergesFirstOrNever(actual, max, world, apps, n);
  }

  /** A full node never swaps one app for another, though the wanted list alone would fit. */
  lemma FullNodeNeverSwaps(a: AppId, b: AppId, config: MicrovmConfig, world: World, n: nat)
    requires a != b && n >= 1 && Willing(world, [Skeleton(b)])
    ensures Passes(map[a := config], 1, world, [Skeleton(b)], n) == map[a := config]
  {
    var actual: Vms := map[a := config];
    var apps := [Skeleton(b)];
    assert apps[..0] == [];
    assert Ids(apps) == {b} && actual.Keys == {a};
    assert actual.Keys + Ids(apps) == {a, b};
    ConvergesFirstOrNever(actual, 1, world, apps, n);
    PassGetsStuck(actual, 1, world, apps);
    SameKeys(actual, Reconciled(actual, 1, world, apps).vms);
  }
}
