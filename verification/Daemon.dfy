/** The daemon folds control-plane commands into the desired list. */
module DesiredState {
  import opened Identifiers
  import opened Wrappers

  datatype DesiredApp = DesiredApp(appId: AppId, image: string, memoryMb: nat, cpuShares: nat)

  datatype Message = ScheduleApp(scheduled: AppId) | TerminateApp(terminated: AppId) | Other

  /** The entry a schedule command creates: only the id comes from the message. */
  function Skeleton(app: AppId): DesiredApp { DesiredApp(app, "default", 128, 1024) }

  predicate Lists(apps: seq<DesiredApp>, app: AppId) {
    exists i :: 0 <= i < |apps| && apps[i].appId == app
  }

  function Retain(apps: seq<DesiredApp>, app: AppId): seq<DesiredApp> {
    if apps == [] then []
    else
      var front := Retain(apps[..|apps| - 1], app);
      if apps[|apps| - 1].appId != app then front + [apps[|apps| - 1]] else front
  }

  function Handled(apps: seq<DesiredApp>, msg: Message): seq<DesiredApp> {
    match msg
    case ScheduleApp(app) => if Lists(apps, app) then apps else apps + [Skeleton(app)]
    case TerminateApp(app) => Retain(apps, app)
    case Other => apps
  }

  class Daemon {
    var apps: seq<DesiredApp>

    constructor ()
      ensures apps == []
    {
      apps := [];
    }

    method HandleMessage(msg: Message)
      modifies this
      ensures apps == Handled(old(apps), msg)
    {
      match msg {
        case ScheduleApp(app) =>
          var found := Contains(app);
          if !found {
            apps := apps + [Skeleton(app)];
          }
        case TerminateApp(app) =>
          var kept := [];
          for i := 0 to |apps|
            invariant apps == old(apps) && kept == Retain(apps[..i], app)
          {
            assert apps[..i + 1][..i] == apps[..i];
            if apps[i].appId != app {
              kept := kept + [apps[i]];
            }
          }
          assert apps[..|apps|] == apps;
          apps := kept;
        case Other =>
      }
    }

    method Contains(app: AppId) returns (found: bool)
      ensures found == Lists(apps, app)
    {
      for i := 0 to |apps|
        invariant forall j | 0 <= j < i :: apps[j].appId != app
      {
        if apps[i].appId == app {
          return true;
        }
      }
      return false;
    }
  }

  // ------------------------------------------------------------- whole runs

  function Fold(msgs: seq<Message>): seq<DesiredApp> {
    if msgs == [] then [] else Handled(Fold(msgs[..|msgs| - 1]), msgs[|msgs| - 1])
  }

  /** The command since which the app has been wanted without interruption. */
  function WantedSince(msgs: seq<Message>, app: AppId): (r: Option<nat>)
    ensures r.Some? ==> r.value < |msgs| && msgs[r.value] == ScheduleApp(app)
  {
    if msgs == [] then None
    else
      var before := WantedSince(msgs[..|msgs| - 1], app);
      var last := msgs[|msgs| - 1];
      if last == TerminateApp(app) then None
      else if last == ScheduleApp(app) && before.None? then Some(|msgs| - 1)
      else before
  }

  /** Wanted means: scheduled, and not terminated after that. */
  lemma {:induction false} WantedMeaning(msgs: seq<Message>, app: AppId)
    ensures WantedSince(msgs, app).Some? <==>
      exists i :: 0 <= i < |msgs| && msgs[i] == ScheduleApp(app) &&
        forall j | i < j < |msgs| :: msgs[j] != TerminateApp(app)
  {
    if msgs != [] {
      var front, n := msgs[..|msgs| - 1], |msgs| - 1;
      WantedMeaning(front, app);
      if WantedSince(front, app).Some? && msgs[n] != TerminateApp(app) {
        var i :| 0 <= i < |front| && front[i] == ScheduleApp(app) &&
          forall j | i < j < |front| :: front[j] != TerminateApp(app);
        assert msgs[i] == front[i] && forall j | i < j < n :: msgs[j] == front[j];
      }
      if i :| 0 <= i < n && msgs[i] == ScheduleApp(app) && forall j | i < j < |msgs| :: msgs[j] != TerminateApp(app) {
        assert front[i] == msgs[i] && forall j | i < j < |front| :: front[j] == msgs[j];
      }
    }
  }

  ghost predicate OnePerApp(apps: seq<DesiredApp>) {
    forall i, j | 0 <= i < j < |apps| :: apps[i].appId != apps[j].appId
  }

  ghost predicate ListsWanted(apps: seq<DesiredApp>, msgs: seq<Message>) {
    forall a: AppId | WantedSince(msgs, a).Some? :: Lists(apps, a)
  }

  ghost predicate Placed(app: DesiredApp, msgs: seq<Message>) {
    app == Skeleton(app.appId) && WantedSince(msgs, app.appId).Some?
  }

  ghost predicate Earlier(a: DesiredApp, b: DesiredApp, msgs: seq<Message>) {
    && WantedSince(msgs, a.appId).Some? && WantedSince(msgs, b.appId).Some?
    && WantedSince(msgs, a.appId).value < WantedSince(msgs, b.appId).value
  }

  /** Only wanted apps are listed, each as its skeleton, in the order they became wanted. */
  ghost predicate OnlyWanted(apps: seq<DesiredApp>, msgs: seq<Message>) {
    && (forall i | 0 <= i < |apps| :: Placed(apps[i], msgs))
    && (forall i, j | 0 <= i < j < |apps| :: Earlier(apps[i], apps[j], msgs))
  }

  lemma {:induction false} RetainKeeps(apps: seq<DesiredApp>, app: AppId) returns (at: seq<nat>)
    ensures |at| == |Retain(apps, app)|
    ensures forall i | 0 <= i < |at| ::
      at[i] < |apps| && Retain(apps, app)[i] == apps[at[i]] && apps[at[i]].appId != app
    ensures forall i, j | 0 <= i < j < |at| :: at[i] < at[j]
    ensures forall k | 0 <= k < |apps| && apps[k].appId != app :: k in at
  {
    at := [];
    if apps != [] {
      at := RetainKeeps(apps[..|apps| - 1], app);
      if apps[|apps| - 1].appId != app {
        at := at + [|apps| - 1];
      }
    }
  }

  /** After any commands the list is duplicate-free and holds exactly the wanted apps. */
  lemma {:induction false} FoldIsFaithful(msgs: seq<Message>)
    ensures ListsWanted(Fold(msgs), msgs) && OnlyWanted(Fold(msgs), msgs)
    ensures OnePerApp(Fold(msgs))
  {
    if msgs != [] {
      var front, last := msgs[..|msgs| - 1], msgs[|msgs| - 1];
      assert front + [last] == msgs;
      FoldIsFaithful(front);
      HandledListsWanted(Fold(front), front, last);
      HandledOnlyWanted(Fold(front), front, last);
    }
  }

  lemma WantedPush(msgs: seq<Message>, msg: Message, app: AppId)
    ensures WantedSince(msgs + [msg], app) ==
      if msg == TerminateApp(app) then None
      else if msg == ScheduleApp(app) && WantedSince(msgs, app).None? then Some(|msgs|)
      else WantedSince(msgs, app)
  {
    assert (msgs + [msg])[..|msgs|] == msgs;
  }

  lemma HandledListsWanted(apps: seq<DesiredApp>, msgs: seq<Message>, msg: Message)
    requires ListsWanted(apps, msgs)
    ensures ListsWanted(Handled(apps, msg), msgs + [msg])
  {
    var next := Handled(apps, msg);
    forall a: AppId | WantedSince(msgs + [msg], a).Some? ensures Lists(next, a) {
      WantedPush(msgs, msg, a);
      if msg == ScheduleApp(a) && !Lists(apps, a) {
        assert next[|apps|].appId == a;
      } else if msg.TerminateApp? {
        RetainLists(apps, msg.terminated, a);
      } else {
        var k :| 0 <= k < |apps| && apps[k].appId == a;
        assert next[k].appId == a;
      }
    }
  }

  lemma RetainLists(apps: seq<DesiredApp>, app: AppId, other: AppId)
    requires other != app && Lists(apps, other)
    ensures Lists(Retain(apps, app), other)
  {
    var k :| 0 <= k < |apps| && apps[k].appId == other;
    var at := RetainKeeps(apps, app);
    var i :| 0 <= i < |at| && at[i] == k;
    assert Retain(apps, app)[i].appId == other;
  }

  lemma StillPlaced(a: DesiredApp, b: DesiredApp, msgs: seq<Message>, msg: Message)
    requires msg != TerminateApp(a.appId) && msg != TerminateApp(b.appId)
    requires Placed(a, msgs) && Placed(b, msgs)
    ensures Placed(a, msgs + [msg]) && Placed(b, msgs + [msg])
    ensures Earlier(a, b, msgs + [msg]) == Earlier(a, b, msgs)
  {
    WantedPush(msgs, msg, a.appId);
    WantedPush(msgs, msg, b.appId);
  }

  lemma HandledOnlyWanted(apps: seq<DesiredApp>, msgs: seq<Message>, msg: Message)
    requires OnlyWanted(apps, msgs) && ListsWanted(apps, msgs)
    ensures OnlyWanted(Handled(apps, msg), msgs + [msg])
  {
    var next := Handled(apps, msg);
    if msg.TerminateApp? {
      var at := RetainKeeps(apps, msg.terminated);
      forall i | 0 <= i < |next| ensures Placed(next[i], msgs + [msg]) {
        StillPlaced(apps[at[i]], apps[at[i]], msgs, msg);
      }
      forall i, j | 0 <= i < j < |next| ensures Earlier(next[i], next[j], msgs + [msg]) {
        StillPlaced(apps[at[i]], apps[at[j]], msgs, msg);
      }
    } else {
      forall i | 0 <= i < |apps| ensures Placed(apps[i], msgs + [msg]) {
        StillPlaced(apps[i], apps[i], msgs, msg);
      }
      forall i, j | 0 <= i < j < |apps| ensures Earlier(apps[i], apps[j], msgs + [msg]) {
        StillPlaced(apps[i], apps[j], msgs, msg);
      }
      if msg.ScheduleApp? && !Lists(apps, msg.scheduled) {
        NewlyPlaced(apps, msgs, msg.scheduled);
      }
    }
  }

  lemma NewlyPlaced(apps: seq<DesiredApp>, msgs: seq<Message>, app: AppId)
    requires OnlyWanted(apps, msgs) && ListsWanted(apps, msgs) && !Lists(apps, app)
    ensures Placed(Skeleton(app), msgs + [ScheduleApp(app)])
    ensures forall i | 0 <= i < |apps| :: Earlier(apps[i], Skeleton(app), msgs + [ScheduleApp(app)])
  {
    WantedPush(msgs, ScheduleApp(app), app);
    forall i | 0 <= i < |apps| ensures Earlier(apps[i], Skeleton(app), msgs + [ScheduleApp(app)]) {
      assert Placed(apps[i], msgs);
      WantedPush(msgs, ScheduleApp(app), apps[i].appId);
    }
  }
}
