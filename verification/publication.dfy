/** Temporary Ownership: staged files, and their publication through one-use receipts. */
module Publication {
  import opened Attempts
  import opened DurableDisk
  import opened GamePaths

  datatype Policy = Replace | NoReplace

  datatype State = NotPublished | PublishedStillOwned | PublishedAndReleased

  function MutationOf(state: State): Mutation {
    if state == NotPublished then NoMutation else Committed
  }

  predicate IsSafe(state: State) {
    state != PublishedStillOwned
  }

  /** One staged file: what it holds, whether it was published, and whether its temporary name is still owned. */
  datatype Artifact = Artifact(bytes: Bytes, committed: bool, owned: bool)

  /** A destination as it stood before its producer loaded the original bytes. */
  datatype Target = Target(destination: string, leaf: Option<File>)

  /** One-use authority to publish a staged file; Asset output is bound to its captured destination. */
  datatype Receipt = Receipt(index: nat, target: Option<Target>)

  /** A staging step's result; only a failed lookup is safe to continue from. */
  datatype Staging<T> = Ready(value: T) | Unready(lookup: bool)

  class Registry {
    const disk: Disk
    var artifacts: seq<Artifact>
    var cleaned: bool

    constructor (disk: Disk)
      ensures this.disk == disk && artifacts == [] && !cleaned
    {
      this.disk, artifacts, cleaned := disk, [], false;
    }

    /** Whether a receipt still has authority here. */
    predicate Owns(receipt: Receipt)
      reads this
    {
      !cleaned && receipt.index < |artifacts| && !artifacts[receipt.index].committed
    }

    method CapturePublicationTarget(destination: string) returns (target: Staging<Target>)
      modifies disk`quiet
      ensures disk.quiet ==> old(disk.quiet) && (target.Ready? || cleaned)
      ensures target.Ready? ==> !cleaned && target.value == Target(destination, disk.At(destination))
    {
      if cleaned { return Unready(false); }
      var fails := disk.Fails();
      if fails {
        var lookup: bool := *;
        return Unready(lookup);
      }
      target := Ready(Target(destination, disk.At(destination)));
    }

    /** Stages a sibling of a captured destination that has not changed since. */
    method StageFileForPublication(target: Target) returns (receipt: Staging<Receipt>)
      modifies this`artifacts, disk`quiet
      ensures disk.quiet ==> old(disk.quiet)
      ensures disk.quiet && !cleaned && disk.At(target.destination) == target.leaf ==> receipt.Ready?
      ensures receipt.Unready? ==> artifacts == old(artifacts)
      ensures receipt.Ready? ==>
                && !cleaned && receipt.value == Receipt(|old(artifacts)|, Some(target))
                && artifacts == old(artifacts) + [Artifact([], false, true)]
    {
      if cleaned { return Unready(false); }
      var fails := disk.Fails();
      if fails {
        var lookup: bool := *;
        return Unready(lookup);
      }
      if disk.At(target.destination) != target.leaf { return Unready(false); }
      receipt := Ready(Receipt(|artifacts|, Some(target)));
      artifacts := artifacts + [Artifact([], false, true)];
    }

    method StageArchiveFileForPublication() returns (receipt: Staging<Receipt>)
      modifies this`artifacts, disk`quiet
      ensures disk.quiet ==> old(disk.quiet) && (receipt.Ready? || cleaned)
      ensures receipt.Unready? ==> artifacts == old(artifacts)
      ensures receipt.Ready? ==>
                && !cleaned && receipt.value == Receipt(|old(artifacts)|, None)
                && artifacts == old(artifacts) + [Artifact([], false, true)]
    {
      if cleaned { return Unready(false); }
      var fails := disk.Fails();
      if fails { return Unready(false); }
      receipt := Ready(Receipt(|artifacts|, None));
      artifacts := artifacts + [Artifact([], false, true)];
    }

    /** A producer writes the staged path it was given, and nothing else. */
    method Write(receipt: Receipt, bytes: Bytes)
      requires receipt.index < |artifacts|
      modifies this`artifacts
      ensures artifacts == old(artifacts)[receipt.index := old(artifacts)[receipt.index].(bytes := bytes)]
    {
      artifacts := artifacts[receipt.index := artifacts[receipt.index].(bytes := bytes)];
    }

    /** Whether nothing but a failure of the system itself stands in a publication's way. */
    ghost predicate MayPublish(receipt: Receipt, destination: string, policy: Policy)
      reads this, disk
    {
      && Owns(receipt)
      && (receipt.target.Some? ==>
            receipt.target.value.destination == destination && receipt.target.value.leaf == disk.At(destination))
      && (policy == NoReplace ==> disk.At(destination) == None)
    }

    /**
     * Revalidates, renames into place, then releases the temporary name. The state says how far it got: nothing is
     * changed before the rename, and a failed release hides no committed destination.
     */
    method Publish(receipt: Receipt, destination: string, policy: Policy) returns (state: State)
      modifies this`artifacts, disk
      ensures disk.quiet ==> old(disk.quiet)
      ensures disk.alone ==> old(disk.alone)
      ensures disk.quiet && old(MayPublish(receipt, destination, policy)) ==> state == PublishedAndReleased
      ensures state == NotPublished ==>
                && disk.changes == old(disk.changes) && artifacts == old(artifacts)
                && (disk.quiet || disk.alone ==> disk.files == old(disk.files))
      ensures state != NotPublished ==>
                && old(Owns(receipt)) && |disk.changes| == |old(disk.changes)| + 1
                && IsPublication(disk.changes[|old(disk.changes)|], receipt, destination, policy,
                                 old(artifacts)[receipt.index].bytes)
                && disk.changes == old(disk.changes) + [disk.changes[|old(disk.changes)|]]
                && disk.At(destination) == Some(disk.changes[|old(disk.changes)|].after)
                && (disk.quiet || disk.alone ==>
                      disk.files == old(disk.files)[destination := disk.changes[|old(disk.changes)|].after])
      ensures state == PublishedStillOwned ==> artifacts == old(artifacts)
      ensures state == PublishedAndReleased ==>
                artifacts == old(artifacts)[
                  receipt.index := old(artifacts)[receipt.index].(committed := true, owned := false)]
    {
      if !Owns(receipt) { return NotPublished; }
      if receipt.target.Some? && receipt.target.value.destination != destination { return NotPublished; }
      var fails := disk.Fails();
      if fails { return NotPublished; }
      disk.Interfere();
      if receipt.target.Some? && disk.At(destination) != receipt.target.value.leaf { return NotPublished; }
      fails := disk.Fails();
      if fails || (policy == NoReplace && destination in disk.files) { return NotPublished; }
      var file := disk.Create(artifacts[receipt.index].bytes);
      disk.Place(destination, file);
      fails := disk.Fails();
      if fails { return PublishedStillOwned; }
      artifacts := artifacts[receipt.index := artifacts[receipt.index].(committed := true, owned := false)];
      state := PublishedAndReleased;
    }
  }

  /** A publication puts the staged bytes, over exactly what was captured, and never over a file under `NoReplace`. */
  ghost predicate IsPublication(change: Change, receipt: Receipt, destination: string, policy: Policy, bytes: Bytes) {
    && change.Put? && change.path == destination && change.after.bytes == bytes
    && (policy == NoReplace ==> change.before == None)
    && (receipt.target.Some? ==> change.before == receipt.target.value.leaf
                                 && destination == receipt.target.value.destination)
  }
}
