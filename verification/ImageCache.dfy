/** The image cache: eviction of the least recently used images, and its statistics. */
module ImageCache {
  import opened Sorting
  import opened Totals
  import opened Wrappers

  datatype CachedImage = CachedImage(sizeBytes: nat, layerCount: nat, lastAccessed: int, pullCount: nat)

  type Index = map<string, CachedImage>

  /** What `zfs destroy` did: removed the dataset, refused, or could not be started. */
  datatype Destroy = Destroyed | Refused | NotStarted

  datatype CacheError = SpawnError

  datatype Entry = Entry(ref: string, image: CachedImage)

  datatype CacheStats = CacheStats(totalBytes: int, layerCount: int, imageCount: nat, hits: int, hitRate: real)

  ghost predicate Holds(index: Index, e: Entry) { e.ref in index && index[e.ref] == e.image }

  /** The images in the order the hash map happened to give. */
  ghost predicate Enumerates(index: Index, images: seq<Entry>) {
    Distinct(images) && |images| == |index| && forall e: Entry :: e in images <==> Holds(index, e)
  }

  function LastAccessed(e: Entry): int { e.image.lastAccessed }

  function OldestFirst(images: seq<Entry>): seq<Entry> { StableSort(images, LastAccessed) }

  function SizeOf(image: CachedImage): int { image.sizeBytes }

  function LayersOf(image: CachedImage): int { image.layerCount }

  function PullsOf(image: CachedImage): int { image.pullCount }

  ghost function TotalBytes(index: Index): int { SumOf(index, SizeOf) }

  /** How many images are looked at: up to the first destroy that could not be started. */
  function Reached(victims: seq<Entry>, destroy: string -> Destroy): (n: nat)
    ensures n <= |victims|
  {
    if victims == [] || destroy(victims[0].ref) == NotStarted then 0 else 1 + Reached(victims[1..], destroy)
  }

  /** The index once the first `count` victims were tried: those destroyed are gone. */
  ghost predicate Tried(before: Index, victims: seq<Entry>, count: nat, destroy: string -> Destroy, after: Index)
    requires count <= |victims|
  {
    && (forall ref | ref in after :: ref in before && after[ref] == before[ref])
    && (forall ref | ref in before ::
          ref in after <==> !(Entry(ref, before[ref]) in victims[..count] && destroy(ref) == Destroyed))
  }

  class LayerCache {
    var index: Index

    constructor ()
      ensures index == map[]
    {
      index := map[];
    }

    method List() returns (images: seq<Entry>)
      ensures Enumerates(index, images)
    {
      images := [];
      var left := index;
      while left != map[]
        invariant Distinct(images) && |images| + |left| == |index|
        invariant forall ref | ref in left :: ref in index && left[ref] == index[ref]
        invariant forall e: Entry :: e in images <==> Holds(index, e) && e.ref !in left
        decreases |left|
      {
        var ref :| ref in left;
        images := images + [Entry(ref, left[ref])];
        RemovedSize(left, ref);
        left := left - {ref};
      }
    }

    /** `freed` is what was freed; an error keeps it from being reported. */
    method Gc(keepRecent: nat, destroy: string -> Destroy)
      returns (r: Result<nat, CacheError>, ghost victims: seq<Entry>, ghost freed: nat)
      modifies this
      ensures exists images :: Enumerates(old(index), images) && victims == Victims(images, keepRecent)
      ensures Tried(old(index), victims, Reached(victims, destroy), destroy, index)
      ensures TotalBytes(old(index)) == TotalBytes(index) + freed
      ensures r == if Reached(victims, destroy) == |victims| then Ok(freed) else Err(SpawnError)
    {
      var images := List();
      victims := Victims(images, keepRecent);
      freed := 0;
      if |index| <= keepRecent {
        return Ok(0), victims, 0;
      }
      SortPermutes(images, LastAccessed);
      var toRemove := OldestFirst(images)[..|index| - keepRecent];
      var bytesFreed: nat := 0;
      var i := 0;
      while i < |toRemove|
        invariant 0 <= i <= |toRemove| && toRemove == victims
        invariant i + Reached(toRemove[i..], destroy) == Reached(victims, destroy)
        invariant Tried(old(index), victims, i, destroy, index)
        invariant TotalBytes(old(index)) == TotalBytes(index) + bytesFreed
      {
        var ref := toRemove[i].ref;
        NextVictim(old(index), images, keepRecent, i, destroy, index);
        match destroy(ref) {
          case NotStarted =>
            freed := bytesFreed;
            return Err(SpawnError), victims, freed;
          case Destroyed =>
            bytesFreed := bytesFreed + index[ref].sizeBytes;
            SumRemove(index, SizeOf, ref);
            index := index - {ref};
          case Refused =>
        }
        assert toRemove[i..][1..] == toRemove[i + 1..];
        i := i + 1;
      }
      freed := bytesFreed;
      return Ok(bytesFreed), victims, freed;
    }

    method Stats() returns (s: CacheStats)
      ensures s.totalBytes == TotalBytes(index) && s.layerCount == SumOf(index, LayersOf)
      ensures s.imageCount == |index| && s.hits == SumOf(index, PullsOf)
      ensures s.hitRate == if exists ref | ref in index :: index[ref].pullCount > 0 then 1.0 else 0.0
    {
      var bytes, layers, hits := 0, 0, 0;
      var left := index;
      while left != map[]
        invariant bytes + TotalBytes(left) == TotalBytes(index)
        invariant layers + SumOf(left, LayersOf) == SumOf(index, LayersOf)
        invariant hits + SumOf(left, PullsOf) == SumOf(index, PullsOf)
        invariant hits >= 0
        invariant forall ref | ref in left :: ref in index && left[ref] == index[ref]
        invariant hits > 0 <==> exists ref | ref in index && ref !in left :: index[ref].pullCount > 0
        decreases |left|
      {
        var ref :| ref in left;
        SumRemove(left, SizeOf, ref);
        SumRemove(left, LayersOf, ref);
        SumRemove(left, PullsOf, ref);
        RemovedSize(left, ref);
        bytes, layers, hits := bytes + left[ref].sizeBytes, layers + left[ref].layerCount, hits + left[ref].pullCount;
        left := left - {ref};
      }
      s := CacheStats(bytes, layers, |index|, hits, if hits > 0 then 1.0 else 0.0);
    }
  }

  /** All but the `keepRecent` most recently used. */
  function Victims(images: seq<Entry>, keepRecent: nat): (victims: seq<Entry>)
    ensures |victims| == if |images| <= keepRecent then 0 else |images| - keepRecent
  {
    if |images| <= keepRecent then []
    else
      SortPermutes(images, LastAccessed);
      OldestFirst(images)[..|images| - keepRecent]
  }

  lemma SortedImages(index: Index, images: seq<Entry>)
    requires Enumerates(index, images)
    ensures Enumerates(index, OldestFirst(images)) && SortedBy(OldestFirst(images), LastAccessed)
  {
    SortPermutes(images, LastAccessed);
    SortIsSorted(images, LastAccessed);
    PermutationIsDistinct(images, OldestFirst(images));
    forall e: Entry ensures e in images <==> e in OldestFirst(images) {
      assert e in images <==> e in multiset(images);
    }
  }

  lemma NextVictim(before: Index, images: seq<Entry>, keepRecent: nat, i: nat, destroy: string -> Destroy, index: Index)
    requires Enumerates(before, images) && i < |Victims(images, keepRecent)|
    requires Tried(before, Victims(images, keepRecent), i, destroy, index)
    ensures var victims := Victims(images, keepRecent);
      var ref := victims[i].ref;
      && ref in index
      && (destroy(ref) == Destroyed ==> Tried(before, victims, i + 1, destroy, index - {ref}))
      && (destroy(ref) != Destroyed ==> Tried(before, victims, i + 1, destroy, index))
  {
    var sorted := OldestFirst(images);
    SortedImages(before, images);
    var victims := Victims(images, keepRecent);
    var e := victims[i];
    assert victims[i] == sorted[i];
    assert e in sorted;
    assert e !in victims[..i];
    assert victims[..i + 1] == victims[..i] + [e];
  }

  // ----------------------------------------------------- what a run leaves

  lemma {:induction false} CountHeld(index: Index, images: seq<Entry>)
    requires Distinct(images) && forall e | e in images :: Holds(index, e)
    ensures |images| <= |index|
    ensures (forall ref | ref in index :: Entry(ref, index[ref]) in images) ==> |images| == |index|
  {
    if images == [] {
      if (forall ref | ref in index :: Entry(ref, index[ref]) in images) {
        assert index == map[];
      }
    } else {
      var front, last := images[..|images| - 1], images[|images| - 1];
      assert images == front + [last];
      assert last in images;
      RemovedSize(index, last.ref);
      forall e | e in front ensures Holds(index - {last.ref}, e) {
        assert e in images && e != last;
        assert e.ref == last.ref ==> e == last;
      }
      CountHeld(index - {last.ref}, front);
    }
  }

  /** The `keepRecent` most recently used, or all there are. */
  function Recent(images: seq<Entry>, keepRecent: nat): (recent: seq<Entry>)
    ensures |recent| == if |images| <= keepRecent then |images| else keepRecent
  {
    SortPermutes(images, LastAccessed);
    OldestFirst(images)[|Victims(images, keepRecent)|..]
  }

  /** Victims and recent images share out the index, and no victim was used later than a recent image. */
  lemma IndexIsShared(before: Index, images: seq<Entry>, keepRecent: nat)
    requires Enumerates(before, images)
    ensures Distinct(Recent(images, keepRecent)) && Distinct(Victims(images, keepRecent))
    ensures forall e: Entry :: Holds(before, e) <==> e in Victims(images, keepRecent) || e in Recent(images, keepRecent)
    ensures forall v, e | v in Victims(images, keepRecent) && e in Recent(images, keepRecent) ::
      v != e && v.image.lastAccessed <= e.image.lastAccessed
  {
    var sorted := OldestFirst(images);
    SortedImages(before, images);
    ShareOut(sorted, |Victims(images, keepRecent)|);
    if |images| <= keepRecent {
      assert sorted[..0] == [];
    }
  }

  lemma ShareOut(sorted: seq<Entry>, n: nat)
    requires Distinct(sorted) && SortedBy(sorted, LastAccessed) && n <= |sorted|
    ensures Distinct(sorted[..n]) && Distinct(sorted[n..])
    ensures forall e: Entry :: e in sorted <==> e in sorted[..n] || e in sorted[n..]
    ensures forall v, e | v in sorted[..n] && e in sorted[n..] :: v != e && LastAccessed(v) <= LastAccessed(e)
  {
    assert sorted == sorted[..n] + sorted[n..];
  }

  lemma UntriedStays(before: Index, victims: seq<Entry>, count: nat, destroy: string -> Destroy, after: Index, e: Entry)
    requires count <= |victims| && Tried(before, victims, count, destroy, after)
    requires Holds(before, e) && e !in victims
    ensures Holds(after, e)
  {
    assert e == Entry(e.ref, before[e.ref]);
    assert e !in victims[..count];
  }

  /** The `keepRecent` most recently used images outlive any run. */
  lemma RecentStay(before: Index, images: seq<Entry>, keepRecent: nat, count: nat,
                   destroy: string -> Destroy, after: Index, e: Entry)
    requires Enumerates(before, images)
    requires count <= |Victims(images, keepRecent)| && Tried(before, Victims(images, keepRecent), count, destroy, after)
    requires e in Recent(images, keepRecent)
    ensures Holds(after, e)
  {
    IndexIsShared(before, images, keepRecent);
    UntriedStays(before, Victims(images, keepRecent), count, destroy, after, e);
  }

  /** Whichever destroys fail, no fewer images remain than were to be kept, or all there were. */
  lemma EnoughRemain(before: Index, images: seq<Entry>, keepRecent: nat, count: nat,
                     destroy: string -> Destroy, after: Index)
    requires Enumerates(before, images)
    requires count <= |Victims(images, keepRecent)| && Tried(before, Victims(images, keepRecent), count, destroy, after)
    ensures |after| >= if |before| < keepRecent then |before| else keepRecent
  {
    IndexIsShared(before, images, keepRecent);
    forall e | e in Recent(images, keepRecent) ensures Holds(after, e) {
      RecentStay(before, images, keepRecent, count, destroy, after, e);
    }
    CountHeld(after, Recent(images, keepRecent));
  }

  /** An image is removed only while `keepRecent` others, used no less recently, remain. */
  lemma OnlyOldImagesGo(before: Index, images: seq<Entry>, keepRecent: nat, count: nat,
                        destroy: string -> Destroy, after: Index, ref: string)
    returns (survivors: seq<Entry>)
    requires Enumerates(before, images)
    requires count <= |Victims(images, keepRecent)| && Tried(before, Victims(images, keepRecent), count, destroy, after)
    requires ref in before && ref !in after
    ensures Distinct(survivors) && |survivors| == keepRecent && destroy(ref) == Destroyed
    ensures forall e | e in survivors :: Holds(after, e) && before[ref].lastAccessed <= LastAccessed(e)
  {
    survivors := Recent(images, keepRecent);
    var gone := Entry(ref, before[ref]);
    assert gone in Victims(images, keepRecent);
    IndexIsShared(before, images, keepRecent);
    forall e | e in survivors ensures Holds(after, e) && before[ref].lastAccessed <= LastAccessed(e) {
      RecentStay(before, images, keepRecent, count, destroy, after, e);
      assert LastAccessed(gone) <= LastAccessed(e);
    }
  }

  lemma {:induction false} AllReached(victims: seq<Entry>, destroy: string -> Destroy)
    requires forall e | e in victims :: destroy(e.ref) != NotStarted
    ensures Reached(victims, destroy) == |victims|
  {
    if victims != [] {
      assert victims[0] in victims;
      AllReached(victims[1..], destroy);
    }
  }

  /** When every destroy succeeds, exactly the recent images remain. */
  lemma CleanRunLeavesRecent(before: Index, images: seq<Entry>, keepRecent: nat,
                             destroy: string -> Destroy, after: Index, e: Entry)
    requires Enumerates(before, images) && forall ref | ref in before :: destroy(ref) == Destroyed
    requires Tried(before, Victims(images, keepRecent), Reached(Victims(images, keepRecent), destroy), destroy, after)
    ensures Holds(after, e) <==> e in Recent(images, keepRecent)
  {
    var victims := Victims(images, keepRecent);
    IndexIsShared(before, images, keepRecent);
    forall v | v in victims ensures destroy(v.ref) != NotStarted {
      assert Holds(before, v);
    }
    AllReached(victims, destroy);
    assert victims[..|victims|] == victims;
    if e in Recent(images, keepRecent) {
      RecentStay(before, images, keepRecent, |victims|, destroy, after, e);
    }
    if Holds(after, e) {
      assert Holds(before, e);
    }
  }

  /** When every destroy succeeds, as many remain as were to be kept, and none of them was used before a removed one. */
  lemma CleanRunKeepsMostRecent(before: Index, images: seq<Entry>, keepRecent: nat,
                                destroy: string -> Destroy, after: Index)
    requires Enumerates(before, images) && forall ref | ref in before :: destroy(ref) == Destroyed
    requires Tried(before, Victims(images, keepRecent), Reached(Victims(images, keepRecent), destroy), destroy, after)
    ensures |after| == if |before| < keepRecent then |before| else keepRecent
    ensures forall gone, kept | gone in before && gone !in after && kept in after ::
      before[gone].lastAccessed <= after[kept].lastAccessed
  {
    forall e: Entry ensures Holds(after, e) <==> e in Recent(images, keepRecent) {
      CleanRunLeavesRecent(before, images, keepRecent, destroy, after, e);
    }
    IndexIsShared(before, images, keepRecent);
    AllHeld(after, Recent(images, keepRecent));
    forall gone, kept | gone in before && gone !in after && kept in after
      ensures before[gone].lastAccessed <= after[kept].lastAccessed
    {
      var v, e := Entry(gone, before[gone]), Entry(kept, after[kept]);
      assert Holds(before, v) && !Holds(after, v) && Holds(after, e);
      assert LastAccessed(v) <= LastAccessed(e);
    }
  }

  lemma AllHeld(index: Index, images: seq<Entry>)
    requires Distinct(images) && forall e: Entry :: Holds(index, e) <==> e in images
    ensures |index| == |images|
  {
    forall ref | ref in index ensures Entry(ref, index[ref]) in images {
      assert Holds(index, Entry(ref, index[ref]));
    }
    CountHeld(index, images);
  }

  /** What the sums are made of: each image adds its own bytes, layers and pulls, and an empty cache has none. */
  lemma ImageAdds(index: Index, ref: string, image: CachedImage)
    requires ref !in index
    ensures index == map[] ==> TotalBytes(index) == 0 && SumOf(index, LayersOf) == 0 && SumOf(index, PullsOf) == 0
    ensures TotalBytes(index[ref := image]) == TotalBytes(index) + image.sizeBytes
    ensures SumOf(index[ref := image], LayersOf) == SumOf(index, LayersOf) + image.layerCount
    ensures SumOf(index[ref := image], PullsOf) == SumOf(index, PullsOf) + image.pullCount
  {
    SumUpdate(index, SizeOf, ref, image);
    SumUpdate(index, LayersOf, ref, image);
    SumUpdate(index, PullsOf, ref, image);
  }
}
