/** What the VMs that reconcile passes create look like, and when one cannot be created. */
module CreatedVms {
  import opened DesiredState
  import opened Identifiers
  import opened Reconciling
  import opened Vmm
  import opened Wrappers

  /** Everything the host has to grant before an app gets a VM, in the order it is asked. */
  lemma CreatedIff(vms: Vms, max: nat, world: World, app: DesiredApp)
    ensures var e := CreateError(vms, max, world, app);
      var bounds := 32 <= app.memoryMb <= 32768 && 64 <= app.cpuShares <= 16384 && world.filesExist(app);
      && (e == Some(PreparationFailed) <==> !world.prepares(app))
      && (e == Some(InvalidConfig) <==> world.prepares(app) && !bounds)
      && (e == Some(CapReached) <==> world.prepares(app) && bounds && |vms| >= max)
      && (e == Some(AlreadyExists) <==> world.prepares(app) && bounds && |vms| < max && app.appId in vms)
      && (e == Some(LaunchFailed) <==>
            world.prepares(app) && bounds && |vms| < max && app.appId !in vms && !world.launches(app))
      && (e == None <==> world.prepares(app) && bounds && |vms| < max && app.appId !in vms && world.launches(app))
  {
  }

  /** Some listed app has the id, and the VM has that app's memory and CPU shares. */
  ghost predicate MadeFor(vm: MicrovmConfig, a: AppId, apps: seq<DesiredApp>) {
    exists i :: 0 <= i < |apps| && apps[i].appId == a && vm.appId == a
                && vm.memoryMb == apps[i].memoryMb && vm.cpuShares == apps[i].cpuShares
  }

  lemma MadeForPush(vm: MicrovmConfig, a: AppId, apps: seq<DesiredApp>, app: DesiredApp)
    ensures MadeFor(vm, a, apps) ==> MadeFor(vm, a, apps + [app])
    ensures a == app.appId == vm.appId && vm.memoryMb == app.memoryMb && vm.cpuShares == app.cpuShares ==>
      MadeFor(vm, a, apps + [app])
  {
    var all := apps + [app];
    assert all[|apps|] == app && forall i | 0 <= i < |apps| :: all[i] == apps[i];
  }

  /** Every VM that the create phase adds was asked for, with that memory and those CPU shares. */
  lemma {:induction false} CreatedAsListed(actual: Vms, max: nat, world: World, apps: seq<DesiredApp>, a: AppId)
    requires a in Creating(actual, max, world, apps).vms && a !in actual
    ensures MadeFor(Creating(actual, max, world, apps).vms[a], a, apps)
  {
    var front, app := apps[..|apps| - 1], apps[|apps| - 1];
    var before, vm := Creating(actual, max, world, front).vms, Creating(actual, max, world, apps).vms[a];
    assert front + [app] == apps;
    if a in before && vm == before[a] {
      CreatedAsListed(actual, max, world, front, a);
    }
    MadeForPush(vm, a, front, app);
  }

  /** Whatever a pass ran into, the VMs it leaves ran before as they are, or were created as listed. */
  lemma PassLeavesListed(actual: Vms, max: nat, world: World, apps: seq<DesiredApp>, a: AppId)
    requires a in Reconciled(actual, max, world, apps).vms
    ensures var vm := Reconciled(actual, max, world, apps).vms[a];
      if a in actual then vm == actual[a] else MadeFor(vm, a, apps)
  {
    if a in actual {
      CreatingExtends(actual, max, world, apps);
    } else {
      CreatedAsListed(actual, max, world, apps, a);
    }
  }

  /** A converging pass leaves one VM for each listed app; one that it had to create is sized as listed. */
  lemma ConvergedAsListed(actual: Vms, max: nat, world: World, apps: seq<DesiredApp>, i: nat)
    requires OnePerApp(apps) && Willing(world, apps) && Fits(actual, max, Ids(apps)) && i < |apps|
    ensures var vms, a := Reconciled(actual, max, world, apps).vms, apps[i].appId;
      && vms.Keys == Ids(apps) && a in vms
      && if a in actual then vms[a] == actual[a]
         else vms[a].appId == a && vms[a].memoryMb == apps[i].memoryMb && vms[a].cpuShares == apps[i].cpuShares
  {
    var a := apps[i].appId;
    PassConverges(actual, max, world, apps);
    ListsIds(apps, a);
    PassLeavesListed(actual, max, world, apps, a);
    if a !in actual {
      var vm := Reconciled(actual, max, world, apps).vms[a];
      var j :| 0 <= j < |apps| && apps[j].appId == a && vm.appId == a
               && vm.memoryMb == apps[j].memoryMb && vm.cpuShares == apps[j].cpuShares;
      assert j == i;
    }
  }

  /** What commands ask for: the default image, 128 MB and 1024 CPU shares for every wanted app. */
  lemma CommandedSizes(msgs: seq<Message>, i: nat)
    requires i < |Fold(msgs)|
    ensures var app := Fold(msgs)[i]; app.image == "default" && app.memoryMb == 128 && app.cpuShares == 1024
  {
    FoldIsFaithful(msgs);
    assert Placed(Fold(msgs)[i], msgs);
  }

  /** Every VM that passes over a commanded list create has that size, whatever the host refuses on the way. */
  lemma CommandedVms(msgs: seq<Message>, actual: Vms, max: nat, world: World, a: AppId)
    requires a in Reconciled(actual, max, world, Fold(msgs)).vms && a !in actual
    ensures var vm := Reconciled(actual, max, world, Fold(msgs)).vms[a];
      vm.appId == a && vm.memoryMb == 128 && vm.cpuShares == 1024
  {
    PassLeavesListed(actual, max, world, Fold(msgs), a);
    var vm := Reconciled(actual, max, world, Fold(msgs)).vms[a];
    var i :| 0 <= i < |Fold(msgs)| && Fold(msgs)[i].appId == a && vm.appId == a
             && vm.memoryMb == Fold(msgs)[i].memoryMb && vm.cpuShares == Fold(msgs)[i].cpuShares;
    CommandedSizes(msgs, i);
  }

  /** Volumes come last: when they fail, the pass has done all the rest and returns only their error. */
  lemma FailedVolumesComeLast(actual: Vms, max: nat, world: World, apps: seq<DesiredApp>)
    requires world.volumesReady && Reconciled(actual, max, world, apps).result.Ok?
    ensures Reconciled(actual, max, world.(volumesReady := false), apps) ==
      Pass(Reconciled(actual, max, world, apps).vms, Err(VolumeFailed))
  {
    SameCreating(actual, max, world, apps);
  }

  lemma {:induction false} SameCreating(actual: Vms, max: nat, world: World, apps: seq<DesiredApp>)
    ensures Creating(actual, max, world.(volumesReady := false), apps) == Creating(actual, max, world, apps)
  {
    if apps != [] {
      SameCreating(actual, max, world, apps[..|apps| - 1]);
    }
  }

  /** The first app that cannot be created ends the phase: what is missing before it was created, nothing after it. */
  lemma {:induction false} FirstFailureEnds(actual: Vms, max: nat, world: World, apps: seq<DesiredApp>)
    returns (n: nat)
    requires Creating(actual, max, world, apps).error.Some?
    ensures n < |apps| && apps[n].appId !in actual
    ensures var before, p := Creating(actual, max, world, apps[..n]), Creating(actual, max, world, apps);
      && before.error.None? && p.vms == before.vms && p.created == before.created
      && p.error == CreateError(before.vms, max, world, apps[n]) && p.error.Some?
  {
    var front := apps[..|apps| - 1];
    if Creating(actual, max, world, front).error.Some? {
      n := FirstFailureEnds(actual, max, world, front);
      assert front[..n] == apps[..n];
    } else {
      n := |front|;
    }
  }
}
