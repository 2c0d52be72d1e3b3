/** Snapshot retention: group by app, sort newest first, delete what is both surplus and old. */
module Snapshots {
  import opened Identifiers
  import opened Sets
  import opened Sorting
  import opened Totals
  import opened Wrappers

  datatype Snapshot = Snapshot(id: string, app: AppId, createdAt: int, size: nat)

  type Metadata = map<string, Snapshot>

  type Groups = map<AppId, seq<Snapshot>>

  ghost predicate Keyed(m: Metadata) { forall id | id in m :: m[id].id == id }

  ghost predicate Holds(m: Metadata, s: Snapshot) { s.id in m && m[s.id] == s }

  function GroupFor(groups: Groups, app: AppId): seq<Snapshot> { if app in groups then groups[app] else [] }

  /** The group lists the app's snapshots, each once, in the order the hash map happened to give. */
  ghost predicate Enumerates(m: Metadata, app: AppId, group: seq<Snapshot>) {
    Distinct(group) && forall s: Snapshot :: s in group <==> s.app == app && Holds(m, s)
  }

  ghost predicate Grouped(m: Metadata, groups: Groups) {
    forall app: AppId :: Enumerates(m, app, GroupFor(groups, app))
  }

  function Age(s: Snapshot): int { -s.createdAt }

  function SizeOf(s: Snapshot): int { s.size }

  function NewestFirst(group: seq<Snapshot>): seq<Snapshot> { StableSort(group, Age) }

  /** Of a list sorted newest first: what lies past the first `keep` and was made before the cutoff. */
  function Surplus(sorted: seq<Snapshot>, keep: nat, cutoff: int): seq<Snapshot> {
    if sorted == [] then []
    else
      var front, last := sorted[..|sorted| - 1], sorted[|sorted| - 1];
      if |front| >= keep && last.createdAt < cutoff then Surplus(front, keep, cutoff) + [last]
      else Surplus(front, keep, cutoff)
  }

  ghost predicate Doomed(groups: Groups, keep: nat, cutoff: int, s: Snapshot) {
    s in Surplus(NewestFirst(GroupFor(groups, s.app)), keep, cutoff)
  }

  /** Only doomed snapshots are gone; the others are as they were. */
  ghost predicate Collected(before: Metadata, groups: Groups, keep: nat, cutoff: int, after: Metadata) {
    && Grouped(before, groups)
    && (forall id | id in after :: id in before && after[id] == before[id])
    && (forall id | id in before && id !in after :: Doomed(groups, keep, cutoff, before[id]))
  }

  /** No doomed snapshot is left. */
  ghost predicate Complete(groups: Groups, keep: nat, cutoff: int, after: Metadata) {
    forall id | id in after :: !Doomed(groups, keep, cutoff, after[id])
  }

  ghost function Storage(m: Metadata): int { SumOf(m, SizeOf) }

  class SnapshotManager {
    var metadata: Metadata

    ghost predicate Valid()
      reads this
    {
      Keyed(metadata)
    }

    constructor ()
      ensures Valid() && metadata == map[]
    {
      metadata := map[];
    }

    method Store(s: Snapshot)
      requires Valid()
      modifies this
      ensures Valid() && metadata == old(metadata)[s.id := s]
    {
      metadata := metadata[s.id := s];
    }

    /** The entry goes first; whether the table could then be written is `saved`. */
    method DeleteSnapshot(id: string, saved: bool) returns (ok: bool)
      requires Valid()
      modifies this
      ensures Valid() && metadata == old(metadata) - {id} && ok == saved
    {
      if id in metadata {
        metadata := metadata - {id};
      }
      return saved;
    }

    method TotalStorageUsed() returns (total: int)
      ensures total == Storage(metadata)
    {
      total := 0;
      var left := metadata;
      while left != map[]
        invariant total + Storage(left) == Storage(metadata)
        decreases |left|
      {
        var id :| id in left;
        SumRemove(left, SizeOf, id);
        RemovedSize(left, id);
        total := total + left[id].size;
        left := left - {id};
      }
    }

    method GroupByApp() returns (groups: Groups)
      requires Valid()
      ensures Grouped(metadata, groups)
    {
      groups := map[];
      var left := metadata;
      ghost var seen: Metadata := map[];
      while left != map[]
        invariant Grouped(seen, groups)
        invariant forall id | id in metadata :: id in left <==> id !in seen
        invariant forall id | id in left :: id in metadata && left[id] == metadata[id]
        invariant forall id | id in seen :: id in metadata && seen[id] == metadata[id]
        decreases |left|
      {
        var id :| id in left;
        var s := left[id];
        PushKeepsGrouped(seen, groups, s);
        groups := groups[s.app := GroupFor(groups, s.app) + [s]];
        seen := seen[id := s];
        RemovedSize(left, id);
        left := left - {id};
      }
      assert seen == metadata;
    }

    method SelectFrom(sorted: seq<Snapshot>, keep: nat, cutoff: int) returns (picked: seq<Snapshot>)
      ensures picked == Surplus(sorted, keep, cutoff)
    {
      picked := [];
      for i := 0 to |sorted|
        invariant picked == Surplus(sorted[..i], keep, cutoff)
      {
        assert sorted[..i + 1][..i] == sorted[..i];
        if i >= keep && sorted[i].createdAt < cutoff {
          picked := picked + [sorted[i]];
        }
      }
      assert sorted[..|sorted|] == sorted;
    }

    method Select(groups: Groups, keep: nat, cutoff: int) returns (toDelete: seq<Snapshot>)
      requires Grouped(metadata, groups)
      ensures Distinct(toDelete)
      ensures forall s: Snapshot :: s in toDelete <==> Doomed(groups, keep, cutoff, s)
    {
      toDelete := [];
      var left := groups;
      while left != map[]
        invariant forall app | app in left :: app in groups && left[app] == groups[app]
        invariant Chosen(groups, left, keep, cutoff, toDelete)
        decreases |left|
      {
        var app :| app in left;
        var picked := SelectFrom(NewestFirst(left[app]), keep, cutoff);
        ChooseFromGroup(metadata, groups, left, app, keep, cutoff, toDelete);
        toDelete := toDelete + picked;
        RemovedSize(left, app);
        left := left - {app};
      }
    }

    /** None: a failed write stopped the collection after the entry it belongs to. */
    method GcOldSnapshots(cutoff: int, keep: nat, saved: string -> bool)
      returns (deleted: Option<nat>, ghost groups: Groups)
      requires Valid()
      modifies this
      ensures Valid()
      ensures Collected(old(metadata), groups, keep, cutoff, metadata)
      ensures deleted.Some? ==>
        Complete(groups, keep, cutoff, metadata) && deleted.value == |old(metadata)| - |metadata|
      ensures deleted.None? ==> exists id | id in old(metadata) && id !in metadata :: !saved(id)
    {
      var byApp := GroupByApp();
      groups := byApp;
      var toDelete := Select(byApp, keep, cutoff);
      forall s | s in toDelete ensures Holds(metadata, s) {
        DoomedIsHeld(metadata, groups, keep, cutoff, s);
      }
      var i := 0;
      while i < |toDelete|
        invariant 0 <= i <= |toDelete|
        invariant Valid() && Without(old(metadata), toDelete, i, metadata)
      {
        var s := toDelete[i];
        OneLess(old(metadata), toDelete, i, metadata);
        var ok := DeleteSnapshot(s.id, saved(s.id));
        i := i + 1;
        if !ok {
          StoppedIsCollected(old(metadata), groups, keep, cutoff, toDelete, i, metadata);
          return None, groups;
        }
      }
      StoppedIsCollected(old(metadata), groups, keep, cutoff, toDelete, i, metadata);
      return Some(|toDelete|), groups;
    }
  }

  // ---------------------------------------------------------------- grouping

  lemma PushKeepsGrouped(seen: Metadata, groups: Groups, s: Snapshot)
    requires Grouped(seen, groups) && s.id !in seen
    ensures Grouped(seen[s.id := s], groups[s.app := GroupFor(groups, s.app) + [s]])
  {
    var pushed := groups[s.app := GroupFor(groups, s.app) + [s]];
    forall app: AppId ensures Enumerates(seen[s.id := s], app, GroupFor(pushed, app)) {
      assert Enumerates(seen, app, GroupFor(groups, app));
    }
  }

  lemma {:induction false} InSurplus(sorted: seq<Snapshot>, keep: nat, cutoff: int, s: Snapshot)
    ensures s in Surplus(sorted, keep, cutoff) <==>
      s.createdAt < cutoff && exists i | keep <= i < |sorted| :: sorted[i] == s
  {
    if sorted != [] {
      InSurplus(sorted[..|sorted| - 1], keep, cutoff, s);
    }
  }

  lemma {:induction false} SurplusIsDistinct(sorted: seq<Snapshot>, keep: nat, cutoff: int)
    requires Distinct(sorted)
    ensures Distinct(Surplus(sorted, keep, cutoff))
  {
    if sorted != [] {
      var front, last := sorted[..|sorted| - 1], sorted[|sorted| - 1];
      SurplusIsDistinct(front, keep, cutoff);
      InSurplus(front, keep, cutoff, last);
    }
  }

  lemma SortedGroup(m: Metadata, app: AppId, group: seq<Snapshot>)
    requires Enumerates(m, app, group)
    ensures Enumerates(m, app, NewestFirst(group)) && SortedBy(NewestFirst(group), Age)
    ensures |NewestFirst(group)| == |group|
  {
    SortPermutes(group, Age);
    SortIsSorted(group, Age);
    PermutationIsDistinct(group, NewestFirst(group));
    forall s: Snapshot ensures s in group <==> s in NewestFirst(group) {
      assert s in group <==> s in multiset(group);
    }
  }

  lemma PickedFromGroup(m: Metadata, app: AppId, group: seq<Snapshot>, keep: nat, cutoff: int)
    requires Enumerates(m, app, group)
    ensures Distinct(Surplus(NewestFirst(group), keep, cutoff))
    ensures forall s | s in Surplus(NewestFirst(group), keep, cutoff) :: s.app == app
  {
    var sorted := NewestFirst(group);
    SortedGroup(m, app, group);
    SurplusIsDistinct(sorted, keep, cutoff);
    forall s | s in Surplus(sorted, keep, cutoff) ensures s.app == app {
      InSurplus(sorted, keep, cutoff, s);
      assert s in sorted;
    }
  }

  /** The groups visited so far have given up their doomed snapshots. */
  ghost predicate Chosen(groups: Groups, left: Groups, keep: nat, cutoff: int, toDelete: seq<Snapshot>) {
    && Distinct(toDelete)
    && forall s: Snapshot :: s in toDelete <==> s.app in groups && s.app !in left && Doomed(groups, keep, cutoff, s)
  }

  lemma ChooseFromGroup(
    m: Metadata, groups: Groups, left: Groups, app: AppId, keep: nat, cutoff: int, toDelete: seq<Snapshot>)
    requires Grouped(m, groups) && Chosen(groups, left, keep, cutoff, toDelete)
    requires app in left && app in groups && left[app] == groups[app]
    ensures Chosen(groups, left - {app}, keep, cutoff, toDelete + Surplus(NewestFirst(left[app]), keep, cutoff))
  {
    var picked := Surplus(NewestFirst(left[app]), keep, cutoff);
    assert GroupFor(groups, app) == left[app];
    PickedFromGroup(m, app, left[app], keep, cutoff);
    forall s: Snapshot
      ensures s in toDelete + picked <==>
        s.app in groups && s.app !in left - {app} && Doomed(groups, keep, cutoff, s)
    {
      assert s in toDelete + picked <==> s in toDelete || s in picked;
    }
  }

  lemma DoomedIsHeld(m: Metadata, groups: Groups, keep: nat, cutoff: int, s: Snapshot)
    requires Grouped(m, groups) && Doomed(groups, keep, cutoff, s)
    ensures Holds(m, s)
  {
    var sorted := NewestFirst(GroupFor(groups, s.app));
    SortedGroup(m, s.app, GroupFor(groups, s.app));
    InSurplus(sorted, keep, cutoff, s);
    assert s in sorted;
  }

  /** The table without the first i of the entries to delete. */
  ghost predicate Without(before: Metadata, toDelete: seq<Snapshot>, i: nat, after: Metadata)
    requires i <= |toDelete|
  {
    && (forall id | id in after :: id in before && after[id] == before[id])
    && (forall id | id in before :: id in after <==> before[id] !in toDelete[..i])
    && |after| == |before| - i
  }

  lemma OneLess(before: Metadata, toDelete: seq<Snapshot>, i: nat, after: Metadata)
    requires i < |toDelete| && Without(before, toDelete, i, after)
    requires Keyed(before) && Distinct(toDelete) && forall s | s in toDelete :: Holds(before, s)
    ensures toDelete[i].id in after && Without(before, toDelete, i + 1, after - {toDelete[i].id})
  {
    var s := toDelete[i];
    assert s in toDelete && s !in toDelete[..i];
    assert toDelete[..i + 1] == toDelete[..i] + [s];
    RemovedSize(after, s.id);
  }

  lemma StoppedIsCollected(before: Metadata, groups: Groups, keep: nat, cutoff: int, toDelete: seq<Snapshot>, i: nat,
                           after: Metadata)
    requires i <= |toDelete| && Without(before, toDelete, i, after) && Grouped(before, groups)
    requires forall s: Snapshot :: s in toDelete <==> Doomed(groups, keep, cutoff, s)
    ensures Collected(before, groups, keep, cutoff, after)
    ensures i == |toDelete| ==> Complete(groups, keep, cutoff, after)
  {
    forall id | id in before && id !in after ensures Doomed(groups, keep, cutoff, before[id]) {
      assert before[id] in toDelete[..i] && before[id] in toDelete;
    }
    if i == |toDelete| {
      assert toDelete[..i] == toDelete;
      forall id | id in after ensures !Doomed(groups, keep, cutoff, after[id]) {
        assert before[id] !in toDelete;
      }
    }
  }

  // ----------------------------------------------------- what a run leaves

  ghost function OfApp(m: Metadata, app: AppId): set<Snapshot> {
    set id | id in m && m[id].app == app :: m[id]
  }

  lemma GroupIsApp(m: Metadata, app: AppId, group: seq<Snapshot>)
    requires Keyed(m) && Enumerates(m, app, group)
    ensures Elements(group) == OfApp(m, app) && |OfApp(m, app)| == |group|
  {
    DistinctSize(group);
    assert forall s: Snapshot | Holds(m, s) && s.app == app :: s.id in m && m[s.id] == s;
  }

  /** The `keep` newest of an app, or all it has, are never collected. */
  lemma FrontSurvives(before: Metadata, groups: Groups, keep: nat, cutoff: int, after: Metadata, app: AppId, k: nat)
    requires Keyed(before) && Collected(before, groups, keep, cutoff, after)
    requires k <= keep && k <= |GroupFor(groups, app)|
    ensures |NewestFirst(GroupFor(groups, app))| == |GroupFor(groups, app)|
    ensures var front := NewestFirst(GroupFor(groups, app))[..k];
      |Elements(front)| == k && Elements(front) <= OfApp(after, app)
  {
    var sorted := NewestFirst(GroupFor(groups, app));
    SortedGroup(before, app, GroupFor(groups, app));
    DistinctSize(sorted[..k]);
    forall s | s in sorted[..k] ensures s in OfApp(after, app) {
      assert s in sorted;
      assert Holds(before, s) && s.app == app;
      InSurplus(sorted, keep, cutoff, s);
      assert s.id in after && after[s.id] == s;
    }
  }

  /** Whether or not the run was cut short, every app keeps `keep` snapshots, or all it had. */
  lemma EnoughRemain(before: Metadata, groups: Groups, keep: nat, cutoff: int, after: Metadata, app: AppId)
    requires Keyed(before) && Collected(before, groups, keep, cutoff, after)
    ensures |OfApp(after, app)| >= if |OfApp(before, app)| < keep then |OfApp(before, app)| else keep
  {
    var group := GroupFor(groups, app);
    GroupIsApp(before, app, group);
    var k := if |group| < keep then |group| else keep;
    FrontSurvives(before, groups, keep, cutoff, after, app, k);
    SubsetSize(Elements(NewestFirst(group)[..k]), OfApp(after, app));
  }

  /** What is collected was made before the cutoff, and `keep` snapshots of its app at least as new survive it. */
  lemma OnlyOldSurplusGoes(before: Metadata, groups: Groups, keep: nat, cutoff: int, after: Metadata, id: string)
    returns (survivors: set<Snapshot>)
    requires Keyed(before) && Collected(before, groups, keep, cutoff, after)
    requires id in before && id !in after
    ensures before[id].createdAt < cutoff
    ensures |survivors| == keep && survivors <= OfApp(after, before[id].app)
    ensures forall s | s in survivors :: s.createdAt >= before[id].createdAt
  {
    var gone := before[id];
    var sorted := NewestFirst(GroupFor(groups, gone.app));
    SortedGroup(before, gone.app, GroupFor(groups, gone.app));
    InSurplus(sorted, keep, cutoff, gone);
    FrontSurvives(before, groups, keep, cutoff, after, gone.app, keep);
    survivors := Elements(sorted[..keep]);
    var i :| keep <= i < |sorted| && sorted[i] == gone;
    forall s | s in survivors ensures s.createdAt >= gone.createdAt {
      var j :| 0 <= j < keep && sorted[j] == s;
      NewestOrder(sorted, j, i);
    }
  }

  lemma NewestOrder(sorted: seq<Snapshot>, i: nat, j: nat)
    requires i <= j < |sorted| && SortedBy(sorted, Age)
    ensures sorted[i].createdAt >= sorted[j].createdAt
  {
  }

  ghost function Newer(m: Metadata, s: Snapshot): set<Snapshot> {
    set t | t in OfApp(m, s.app) && t.createdAt > s.createdAt
  }

  ghost function AtLeastAsNew(m: Metadata, s: Snapshot): set<Snapshot> {
    set t | t in OfApp(m, s.app) && t.createdAt >= s.createdAt && t != s
  }

  /** Retention without the sort: an old snapshot goes if `keep` others of its app are newer, and only if `keep` others
      are at least as new.  Where no two were made at once these are the same condition. */
  lemma DoomedMeansSurplus(m: Metadata, groups: Groups, keep: nat, cutoff: int, s: Snapshot)
    requires Keyed(m) && Grouped(m, groups) && Holds(m, s)
    ensures s.createdAt < cutoff && |Newer(m, s)| >= keep ==> Doomed(groups, keep, cutoff, s)
    ensures Doomed(groups, keep, cutoff, s) ==> s.createdAt < cutoff && |AtLeastAsNew(m, s)| >= keep
  {
    var sorted := NewestFirst(GroupFor(groups, s.app));
    SortedGroup(m, s.app, GroupFor(groups, s.app));
    assert s in sorted;
    var i :| 0 <= i < |sorted| && sorted[i] == s;
    DistinctSize(sorted[..i]);
    NewerAreInFront(m, sorted, i);
    SubsetSize(Newer(m, s), Elements(sorted[..i]));
    SubsetSize(Elements(sorted[..i]), AtLeastAsNew(m, s));
    InSurplus(sorted, keep, cutoff, s);
  }

  lemma NewerAreInFront(m: Metadata, sorted: seq<Snapshot>, i: nat)
    requires i < |sorted| && SortedBy(sorted, Age)
    requires Keyed(m) && Enumerates(m, sorted[i].app, sorted)
    ensures Newer(m, sorted[i]) <= Elements(sorted[..i]) <= AtLeastAsNew(m, sorted[i])
  {
    var s := sorted[i];
    GroupIsApp(m, s.app, sorted);
    forall t | t in Newer(m, s) ensures t in sorted[..i] {
      assert t in sorted;
      var j :| 0 <= j < |sorted| && sorted[j] == t;
      if i <= j {
        NewestOrder(sorted, i, j);
        assert false;
      }
      assert sorted[..i][j] == t;
    }
    forall t | t in sorted[..i] ensures t in AtLeastAsNew(m, s) {
      var j :| 0 <= j < i && sorted[j] == t;
      NewestOrder(sorted, j, i);
      assert t in Elements(sorted);
    }
  }

  lemma {:induction false} StorageSplits(before: Metadata, after: Metadata)
    requires forall id | id in after :: id in before && after[id] == before[id]
    ensures Storage(after) == Storage(before) - Storage(before - after.Keys)
    decreases |after|
  {
    if id :| id in after {
      SumRemove(before, SizeOf, id);
      SumRemove(after, SizeOf, id);
      RemovedSize(after, id);
      StorageSplits(before - {id}, after - {id});
      assert (before - {id}) - (after - {id}).Keys == before - after.Keys;
    } else {
      assert before - after.Keys == before;
    }
  }

  /** The doomed snapshots of the table, by id. */
  ghost function DoomedOf(before: Metadata, groups: Groups, keep: nat, cutoff: int): Metadata {
    map id | id in before && Doomed(groups, keep, cutoff, before[id]) :: before[id]
  }

  lemma PartIsSmaller(m: Metadata, part: Metadata)
    requires forall id | id in part :: id in m && part[id] == m[id]
    ensures 0 <= Storage(part) <= Storage(m)
  {
    StorageSplits(m, part);
    SumNonNegative(part, SizeOf);
    SumNonNegative(m - part.Keys, SizeOf);
  }

  lemma StorageOfGone(before: Metadata, after: Metadata, doomed: Metadata)
    requires forall id | id in after :: id in before && after[id] == before[id]
    requires forall id | id in doomed :: id in before && doomed[id] == before[id]
    requires forall id | id in before && id !in after :: id in doomed
    ensures Storage(after) == Storage(before) - Storage(before - after.Keys)
    ensures 0 <= Storage(before - after.Keys) <= Storage(doomed)
    ensures (forall id | id in doomed :: id !in after) ==> Storage(after) == Storage(before) - Storage(doomed)
  {
    StorageSplits(before, after);
    PartIsSmaller(doomed, before - after.Keys);
    if forall id | id in doomed :: id !in after {
      assert before - after.Keys == doomed;
    }
  }

  lemma NoneDoomedIsLeft(before: Metadata, groups: Groups, keep: nat, cutoff: int, after: Metadata)
    requires Collected(before, groups, keep, cutoff, after) && Complete(groups, keep, cutoff, after)
    ensures forall id | id in DoomedOf(before, groups, keep, cutoff) :: id !in after
  {
    forall id | id in after ensures id !in DoomedOf(before, groups, keep, cutoff) {
      assert after[id] == before[id];
    }
  }

  /** A collection, cut short or not, frees the sizes of the entries that went and no more than the doomed ones hold; a
      whole one frees exactly the sizes of the doomed ones. */
  lemma StorageDrops(before: Metadata, groups: Groups, keep: nat, cutoff: int, after: Metadata)
    requires Collected(before, groups, keep, cutoff, after)
    ensures Storage(after) == Storage(before) - Storage(before - after.Keys)
    ensures 0 <= Storage(before - after.Keys) <= Storage(DoomedOf(before, groups, keep, cutoff))
    ensures Complete(groups, keep, cutoff, after) ==>
      Storage(after) == Storage(before) - Storage(DoomedOf(before, groups, keep, cutoff))
  {
    StorageOfGone(before, after, DoomedOf(before, groups, keep, cutoff));
    if Complete(groups, keep, cutoff, after) {
      NoneDoomedIsLeft(before, groups, keep, cutoff, after);
    }
  }

  lemma KeyedAfter(before: Metadata, groups: Groups, keep: nat, cutoff: int, after: Metadata)
    requires Keyed(before) && Collected(before, groups, keep, cutoff, after)
    ensures Keyed(after)
  {
  }

  /** A second run with the same limits finds nothing, in whatever order it meets the snapshots. */
  lemma SecondRunFindsNothing(
    before: Metadata, groups: Groups, keep: nat, cutoff: int, after: Metadata, again: Groups, s: Snapshot)
    requires Keyed(before) && Collected(before, groups, keep, cutoff, after) && Complete(groups, keep, cutoff, after)
    requires Grouped(after, again)
    ensures !Doomed(again, keep, cutoff, s)
  {
    if Doomed(again, keep, cutoff, s) {
      DoomedIsHeld(after, again, keep, cutoff, s);
      KeyedAfter(before, groups, keep, cutoff, after);
      DoomedMeansSurplus(after, again, keep, cutoff, s);
      SurvivorHasFewNewer(before, groups, keep, cutoff, after, s);
      assert false;
    }
  }

  lemma OldSurvivorIsInFront(groups: Groups, keep: nat, cutoff: int, after: Metadata, s: Snapshot, i: nat)
    requires Complete(groups, keep, cutoff, after) && Holds(after, s) && s.createdAt < cutoff
    requires i < |NewestFirst(GroupFor(groups, s.app))| && NewestFirst(GroupFor(groups, s.app))[i] == s
    ensures i < keep
  {
    InSurplus(NewestFirst(GroupFor(groups, s.app)), keep, cutoff, s);
  }

  lemma SurvivorHasPlace(before: Metadata, groups: Groups, keep: nat, cutoff: int, after: Metadata,
                         t: Snapshot) returns (j: nat)
    requires Collected(before, groups, keep, cutoff, after) && Holds(after, t)
    ensures j < |NewestFirst(GroupFor(groups, t.app))| && NewestFirst(GroupFor(groups, t.app))[j] == t
    ensures SortedBy(NewestFirst(GroupFor(groups, t.app)), Age)
  {
    SortedGroup(before, t.app, GroupFor(groups, t.app));
    assert Holds(before, t);
    j :| 0 <= j < |NewestFirst(GroupFor(groups, t.app))| && NewestFirst(GroupFor(groups, t.app))[j] == t;
  }

  /** An old survivor, and any survivor of its app at least as new, is among the `keep` newest. */
  lemma SurvivorIsInFront(before: Metadata, groups: Groups, keep: nat, cutoff: int, after: Metadata,
                          s: Snapshot, t: Snapshot) returns (j: nat)
    requires Collected(before, groups, keep, cutoff, after) && Complete(groups, keep, cutoff, after)
    requires Holds(after, s) && Holds(after, t) && s.createdAt < cutoff && t.app == s.app && t.createdAt >= s.createdAt
    ensures var sorted := NewestFirst(GroupFor(groups, s.app)); j < keep && j < |sorted| && sorted[j] == t
  {
    var i := SurvivorHasPlace(before, groups, keep, cutoff, after, s);
    j := SurvivorHasPlace(before, groups, keep, cutoff, after, t);
    OldSurvivorIsInFront(groups, keep, cutoff, after, s, i);
    if i <= j {
      NewestOrder(NewestFirst(GroupFor(groups, s.app)), i, j);
      OldSurvivorIsInFront(groups, keep, cutoff, after, t, j);
    }
  }

  function Least(a: nat, b: nat): nat { if a < b then a else b }

  lemma AtMostFront(others: set<Snapshot>, s: Snapshot, front: seq<Snapshot>)
    requires s in front && s !in others && forall t | t in others :: t in front
    ensures |others| < |front|
  {
    DistinctSize(front);
    SubsetSize(others, Elements(front) - {s});
  }

  /** The `keep` newest of an app. */
  function Kept(groups: Groups, app: AppId, keep: nat): (front: seq<Snapshot>)
    ensures |front| <= keep
  {
    var sorted := NewestFirst(GroupFor(groups, app));
    sorted[..Least(keep, |sorted|)]
  }

  lemma SurvivorIsKept(before: Metadata, groups: Groups, keep: nat, cutoff: int, after: Metadata,
                       s: Snapshot, t: Snapshot)
    requires Collected(before, groups, keep, cutoff, after) && Complete(groups, keep, cutoff, after)
    requires Holds(after, s) && Holds(after, t) && s.createdAt < cutoff && t.app == s.app && t.createdAt >= s.createdAt
    ensures t in Kept(groups, s.app, keep)
  {
    var j := SurvivorIsInFront(before, groups, keep, cutoff, after, s, t);
    assert Kept(groups, s.app, keep)[j] == t;
  }

  /** An old survivor has fewer than `keep` other survivors of its app at least as new. */
  lemma SurvivorHasFewNewer(
    before: Metadata, groups: Groups, keep: nat, cutoff: int, after: Metadata, s: Snapshot)
    requires Collected(before, groups, keep, cutoff, after) && Complete(groups, keep, cutoff, after)
    requires Keyed(after) && Holds(after, s) && s.createdAt < cutoff
    ensures |AtLeastAsNew(after, s)| < keep
  {
    SurvivorIsKept(before, groups, keep, cutoff, after, s, s);
    forall t | t in AtLeastAsNew(after, s) ensures t in Kept(groups, s.app, keep) {
      OfAppHolds(after, s.app, t);
      SurvivorIsKept(before, groups, keep, cutoff, after, s, t);
    }
    AtMostFront(AtLeastAsNew(after, s), s, Kept(groups, s.app, keep));
  }

  lemma OfAppHolds(m: Metadata, app: AppId, t: Snapshot)
    requires Keyed(m) && t in OfApp(m, app)
    ensures Holds(m, t) && t.app == app
  {
  }

  /** A stored snapshot adds its size. */
  lemma SnapshotAdds(m: Metadata, s: Snapshot)
    requires s.id !in m
    ensures m == map[] ==> Storage(m) == 0
    ensures Storage(m[s.id := s]) == Storage(m) + s.size
  {
    SumUpdate(m, SizeOf, s.id, s);
  }
}
