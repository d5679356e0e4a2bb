/** One Asset attempt: load, optimize, stage, publish, and for a conversion delete the verified source. */
module AssetExecution {
  import opened AssetAttempts
  import opened Attempts
  import opened DurableDisk
  import opened GamePaths
  import opened Publication

  /** A conversion's input, held from before it is loaded: what is removed later is this object or nothing. */
  class PinnedSource {
    const path: string
    const file: File
    var held: bool

    constructor (path: string, file: File)
      ensures this.path == path && this.file == file && held
    {
      this.path, this.file, held := path, file, true;
    }

    predicate UnchangedAtPath(disk: Disk)
      reads this, disk
    {
      held && disk.At(path) == Some(file)
    }

    /** Removes the path's file only while it is still the one held; whatever took its place stays. Lets go after. */
    method RemoveVerified(disk: Disk) returns (removed: bool)
      modifies this, disk
      ensures disk.quiet ==> old(disk.quiet)
      ensures removed ==> old(held) && !held && disk.changes == old(disk.changes) + [Removed(path, file)]
      ensures disk.alone ==> old(disk.alone)
      ensures removed && (disk.quiet || disk.alone) ==> disk.files == old(disk.files) - {path}
      ensures !removed ==> held == old(held) && disk.changes == old(disk.changes)
      ensures !removed && (disk.quiet || disk.alone) ==> disk.files == old(disk.files)
      ensures disk.quiet && old(UnchangedAtPath(disk)) ==> removed
    {
      disk.Interfere();
      if !UnchangedAtPath(disk) { return false; }
      var fails := disk.Fails();
      if fails { return false; }
      disk.Remove(path);
      held := false;
      removed := true;
    }
  }

  /** Staging the captured target, saving into it, and publishing: shared by every producer. */
  method Publish(receipt: Receipt, asset: Asset, registry: Registry, ghost captured: Option<File>)
    returns (failure: Option<Result>, ghost put: seq<Change>)
    requires asset.apply && receipt.target == Some(Target(asset.Output(), captured))
    requires receipt.index < |registry.artifacts| && registry.artifacts[receipt.index].bytes != []
    modifies registry`artifacts, registry.disk
    ensures registry.disk.quiet ==> old(registry.disk.quiet)
    ensures registry.disk.changes == old(registry.disk.changes) + put
    ensures registry.disk.alone ==>
              old(registry.disk.alone) && registry.disk.files == Replayed(old(registry.disk.files), put)
    ensures failure.Some? ==>
              |put| <= 1 && failure.value.Failed? && failure.value.left != PartialOrUnknown
              && IsTrue(failure.value, put, asset, captured) && HasVerdict(failure.value, asset)
    ensures failure.None? ==> |put| == 1
    ensures put != [] ==>
              && put[0].Put? && put[0].path == asset.Output() && put[0].before == captured
              && put[0].after.bytes == old(registry.artifacts)[receipt.index].bytes
              && registry.disk.At(asset.Output()) == Some(put[0].after)
    ensures registry.disk.quiet && old(registry.Owns(receipt)) && captured == old(registry.disk.At(asset.Output())) ==>
              failure.None?
    ensures registry.disk.quiet && put != [] ==>
              registry.disk.files == old(registry.disk.files)[asset.Output() := put[0].after]
  {
    ghost var before, files := registry.disk.changes, registry.disk.files;
    var state := registry.Publish(receipt, asset.Output(), Replace);
    put := if state == NotPublished then [] else [registry.disk.changes[|before|]];
    if put != [] { ReplayedOneMore(files, [], put[0]); }
    failure := if state == PublishedAndReleased then None
               else Some(Failed(CommitFailed, MutationOf(state), IsSafe(state)));
  }

  /** Whether a usable file was saved at the staged path. */
  method Save(receipt: Receipt, backend: Backend, registry: Registry) returns (saved: bool)
    requires receipt.index < |registry.artifacts|
    modifies registry`artifacts
    ensures |registry.artifacts| == |old(registry.artifacts)| && saved == backend.SavesUsable()
    ensures registry.artifacts[receipt.index].committed == old(registry.artifacts)[receipt.index].committed
    ensures saved ==> registry.artifacts[receipt.index].bytes == backend.saves.value
  {
    if backend.saves.Some? { registry.Write(receipt, backend.saves.value); }
    saved := backend.SavesUsable();
  }

  /** However often the backend asks, and whatever it reports, the pinned source goes at most once. */
  method RemoveSource(pin: PinnedSource, backend: Backend, disk: Disk)
    returns (removed: bool, ghost change: seq<Change>)
    requires pin.held
    modifies pin, disk
    ensures disk.quiet ==> old(disk.quiet)
    ensures disk.changes == old(disk.changes) + change
    ensures disk.alone ==> old(disk.alone) && disk.files == Replayed(old(disk.files), change)
    ensures change == if removed then [Removed(pin.path, pin.file)] else []
    ensures removed <==> !pin.held
    ensures disk.quiet ==> disk.files == if removed then old(disk.files) - {pin.path} else old(disk.files)
    ensures disk.quiet && old(pin.UnchangedAtPath(disk)) ==> (removed <==> backend.removals > 0)
  {
    var attempted := false;
    removed, change := false, [];
    ReplayedOneMore(disk.files, [], Removed(pin.path, pin.file));
    for i := 0 to backend.removals
      invariant disk.quiet ==> old(disk.quiet)
      invariant change == if removed then [Removed(pin.path, pin.file)] else []
      invariant disk.changes == old(disk.changes) + change
      invariant disk.alone ==> old(disk.alone) && disk.files == Replayed(old(disk.files), change)
      invariant removed <==> !pin.held
      invariant removed ==> attempted
      invariant attempted <==> i > 0
      invariant disk.quiet ==> disk.files == if removed then old(disk.files) - {pin.path} else old(disk.files)
      invariant disk.quiet && old(pin.UnchangedAtPath(disk)) ==> (removed <==> i > 0)
    {
      if !attempted {
        attempted := true;
        removed := pin.RemoveVerified(disk);
        change := if removed then [Removed(pin.path, pin.file)] else [];
      }
    }
  }

  /** Whether the output still holds what was saved and the source is still the pinned one. */
  predicate RetainedUsable(pin: PinnedSource, asset: Asset, saved: Bytes, disk: Disk)
    reads pin, disk
  {
    disk.At(asset.Output()).Some? && disk.At(asset.Output()).value.bytes == saved && pin.UnchangedAtPath(disk)
  }

  /** Deletes a conversion's source once its output is published, and reports how that went. */
  method FinishConversion(pin: PinnedSource, asset: Asset, backend: Backend, saved: Bytes, disk: Disk,
                          ghost put: seq<Change>, ghost captured: Option<File>)
    returns (result: Result, ghost removal: seq<Change>)
    requires pin.held && pin.path == asset.path && asset.Converting() && asset.apply
    requires |put| == 1 && put[0].Put? && put[0].path == asset.Output() && put[0].before == captured
    requires put[0].after.bytes != [] && backend.loads && backend.operation == Changed && backend.SavesUsable()
    modifies pin, disk
    ensures disk.quiet ==> old(disk.quiet)
    ensures disk.changes == old(disk.changes) + removal && |removal| <= 1
    ensures disk.alone ==> old(disk.alone) && disk.files == Replayed(old(disk.files), removal)
    ensures IsTrue(result, put + removal, asset, captured) && HasVerdict(result, asset)
    ensures removal != [] ==> removal == [Removed(asset.path, pin.file)]
    ensures disk.quiet && result.Mutation() == PartialOrUnknown ==> removal != []
    ensures disk.quiet && old(RetainedUsable(pin, asset, saved, disk)) && asset.path != asset.Output() ==>
              result == WhenQuiet(asset, backend)
  {
    removal := [];
    disk.Interfere();
    if !RetainedUsable(pin, asset, saved, disk) {
      return Failed(SourceRemovalFailed, Committed, false), removal;
    }
    var removed;
    removed, removal := RemoveSource(pin, backend, disk);
    if !backend.reportsRemoval || !removed {
      disk.Interfere();
      var usable := RetainedUsable(pin, asset, saved, disk);
      return Failed(SourceRemovalFailed, if usable then Committed else PartialOrUnknown, usable), removal;
    }
    result := Succeeded(true);
  }

  /** Stages the captured target, saves into it, and publishes: the end of a Texture's or a Mesh's attempt. */
  method StageAndPublish(target: Target, asset: Asset, backend: Backend, registry: Registry)
    returns (failure: Option<Result>, ghost put: seq<Change>)
    requires asset.apply && target.destination == asset.Output()
    modifies registry`artifacts, registry.disk
    ensures registry.disk.quiet ==> old(registry.disk.quiet)
    ensures registry.disk.changes == old(registry.disk.changes) + put
    ensures registry.disk.alone ==>
              old(registry.disk.alone) && registry.disk.files == Replayed(old(registry.disk.files), put)
    ensures failure.Some? ==>
              |put| <= 1 && failure.value.Failed? && failure.value.left != PartialOrUnknown
              && IsTrue(failure.value, put, asset, target.leaf) && HasVerdict(failure.value, asset)
    ensures failure.None? ==> |put| == 1
    ensures put != [] ==>
              && put[0].Put? && put[0].path == asset.Output() && put[0].before == target.leaf
              && backend.SavesUsable() && put[0].after.bytes == backend.saves.value
              && registry.disk.At(asset.Output()) == Some(put[0].after)
    ensures registry.disk.quiet && !registry.cleaned && target.leaf == old(registry.disk.At(asset.Output())) ==>
              failure == if backend.SavesUsable() then None else Some(Fail(SaveFailed))
    ensures registry.disk.quiet && put != [] ==>
              registry.disk.files == old(registry.disk.files)[asset.Output() := put[0].after]
  {
    put := [];
    registry.disk.Interfere();
    var staged := registry.StageFileForPublication(target);
    if staged.Unready? { return Some(StagingFailure(staged.lookup)), put; }
    var saved := Save(staged.value, backend, registry);
    if !saved { return Some(Fail(SaveFailed)), put; }
    failure, put := Publish(staged.value, asset, registry, target.leaf);
  }

  // Attempts.

  /** An attempt that can run to its end: open staging, agreeing routing, and a source to convert. */
  ghost predicate IsReady(asset: Asset, registry: Registry)
    reads registry, registry.disk
  {
    && !registry.cleaned && asset.identity == asset.target && asset.target != Archive
    && (asset.target == Animation ==> asset.optimizes)
    && (asset.Converting() ==>
          asset.path in registry.disk.files && registry.disk.files[asset.path].bytes != []
          && asset.path != asset.Output())
  }

  /** Before a Texture loads: its source pinned, if it is to be converted, and its destination captured. */
  method CaptureTexture(asset: Asset, registry: Registry)
    returns (failure: Option<Result>, pin: PinnedSource?, target: Option<Target>)
    requires asset.apply
    modifies registry.disk
    ensures registry.disk.changes == old(registry.disk.changes)
    ensures registry.disk.quiet ==> old(registry.disk.quiet)
    ensures registry.disk.quiet || registry.disk.alone ==> registry.disk.files == old(registry.disk.files)
    ensures registry.disk.alone ==> old(registry.disk.alone)
    ensures failure.Some? ==> exists lookup :: failure == Some(StagingFailure(lookup))
    ensures failure.None? ==>
              && target.Some? && target.value.destination == asset.Output()
              && (asset.Converting() ==> pin != null && fresh(pin) && pin.held && pin.path == asset.path)
    ensures registry.disk.quiet && old(IsReady(asset, registry)) ==> failure.None?
    ensures registry.disk.quiet && failure.None? ==>
              && target.value.leaf == registry.disk.At(asset.Output())
              && (asset.Converting() ==> pin != null && registry.disk.At(asset.path) == Some(pin.file))
  {
    var disk := registry.disk;
    pin, target := null, None;
    if asset.Converting() {
      var fails := disk.Fails();
      if fails || disk.At(asset.path).None? || disk.files[asset.path].bytes == [] {
        return Some(StagingFailure(false)), pin, target;
      }
      pin := new PinnedSource(asset.path, disk.files[asset.path]);
    }
    disk.Interfere();
    var staging := registry.CapturePublicationTarget(asset.Output());
    if staging.Unready? { return Some(StagingFailure(staging.lookup)), pin, target; }
    failure, target := None, Some(staging.value);
  }

  /**
   * What every attempt promises: a true report, nothing staged by a Dry Run, and nothing unknown while all is quiet.
   */
  method ExecuteTexture(asset: Asset, backend: Backend, registry: Registry)
    returns (result: Result, ghost changes: seq<Change>, ghost captured: Option<File>)
    requires asset.target == Texture
    modifies registry`artifacts, registry.disk
    ensures registry.disk.quiet ==> old(registry.disk.quiet)
    ensures registry.disk.changes == old(registry.disk.changes) + changes && IsTrue(result, changes, asset, captured)
    ensures registry.disk.alone ==>
              old(registry.disk.alone) && registry.disk.files == Replayed(old(registry.disk.files), changes)
    ensures HasVerdict(result, asset)
    ensures !asset.apply ==> registry.artifacts == old(registry.artifacts) && changes == []
    ensures changes != [] ==> backend.saves == Some(changes[0].after.bytes)
    ensures registry.disk.quiet && old(IsReady(asset, registry)) ==> result == WhenQuiet(asset, backend)
    ensures registry.disk.quiet ==> captured == old(registry.disk.At(asset.Output()))
    ensures registry.disk.quiet && result.Mutation() == PartialOrUnknown ==> |changes| == 2
    ensures registry.disk.quiet && |changes| == 2 ==> old(registry.disk.At(asset.path)) == Some(changes[1].file)
  {
    var disk := registry.disk;
    changes, captured := [], disk.At(asset.Output());
    if asset.identity != Texture { return Failed(IdentityMismatch, NoMutation, false), changes, captured; }
    var failure: Option<Result>, pin: PinnedSource?, target := None, null, None;
    if asset.apply {
      failure, pin, target := CaptureTexture(asset, registry);
      if failure.Some? { return failure.value, changes, captured; }
      captured := target.value.leaf;
    }
    if !backend.loads { return Fail(LoadFailed), changes, captured; }
    if backend.operation == Failing { return Fail(OperationFailed), changes, captured; }
    if target.None? || backend.operation == Unchanged { return Succeeded(false), changes, captured; }
    failure, changes := StageAndPublish(target.value, asset, backend, registry);
    if failure.Some? { return failure.value, changes, captured; }
    if !asset.Converting() { return Succeeded(true), changes, captured; }
    ghost var removal;
    result, removal := FinishConversion(pin, asset, backend, backend.saves.value, disk, changes, captured);
    ReplayedInTurn(old(registry.disk.files), changes, removal);
    changes := changes + removal;
  }

  method ExecuteMesh(asset: Asset, backend: Backend, registry: Registry)
    returns (result: Result, ghost changes: seq<Change>, ghost captured: Option<File>)
    requires asset.target == Mesh
    modifies registry`artifacts, registry.disk
    ensures registry.disk.quiet ==> old(registry.disk.quiet)
    ensures registry.disk.changes == old(registry.disk.changes) + changes && IsTrue(result, changes, asset, captured)
    ensures registry.disk.alone ==>
              old(registry.disk.alone) && registry.disk.files == Replayed(old(registry.disk.files), changes)
    ensures HasVerdict(result, asset)
    ensures !asset.apply ==> registry.artifacts == old(registry.artifacts) && changes == []
    ensures changes != [] ==> backend.saves == Some(changes[0].after.bytes)
    ensures registry.disk.quiet && old(IsReady(asset, registry)) ==> result == WhenQuiet(asset, backend)
    ensures registry.disk.quiet ==> captured == old(registry.disk.At(asset.Output()))
    ensures result.Mutation() != PartialOrUnknown
  {
    var disk := registry.disk;
    changes, captured := [], disk.At(asset.Output());
    if asset.identity != Mesh { return Failed(IdentityMismatch, NoMutation, false), changes, captured; }
    var target := None;
    if asset.apply {
      disk.Interfere();
      var staging := registry.CapturePublicationTarget(asset.path);
      if staging.Unready? { return StagingFailure(staging.lookup), changes, captured; }
      target, captured := Some(staging.value), staging.value.leaf;
    }
    if !backend.loads { return Fail(LoadFailed), changes, captured; }
    var wouldChange := false;
    if asset.optimizes {
      if backend.operation == Failing { return Fail(OperationFailed), changes, captured; }
      wouldChange := backend.operation == Changed;
    }
    if asset.maintains {
      if backend.maintenance == Failing { return Fail(OperationFailed), changes, captured; }
      wouldChange := wouldChange || backend.maintenance == Changed;
    }
    if target.None? || !wouldChange { return Succeeded(false), changes, captured; }
    var failure;
    failure, changes := StageAndPublish(target.value, asset, backend, registry);
    result := if failure.Some? then failure.value else Succeeded(true);
  }

  /** An Animation's output is staged before its backend runs, because the backend writes straight to its path. */
  method ExecuteAnimation(asset: Asset, backend: Backend, registry: Registry)
    returns (result: Result, ghost changes: seq<Change>, ghost captured: Option<File>)
    requires asset.target == Animation
    modifies registry`artifacts, registry.disk
    ensures registry.disk.quiet ==> old(registry.disk.quiet)
    ensures registry.disk.changes == old(registry.disk.changes) + changes && IsTrue(result, changes, asset, captured)
    ensures registry.disk.alone ==>
              old(registry.disk.alone) && registry.disk.files == Replayed(old(registry.disk.files), changes)
    ensures HasVerdict(result, asset)
    ensures !asset.apply ==> registry.artifacts == old(registry.artifacts) && changes == []
    ensures changes != [] ==> backend.saves == Some(changes[0].after.bytes)
    ensures registry.disk.quiet && old(IsReady(asset, registry)) ==> result == WhenQuiet(asset, backend)
    ensures registry.disk.quiet ==> captured == old(registry.disk.At(asset.Output()))
    ensures result.Mutation() != PartialOrUnknown
  {
    var disk := registry.disk;
    changes, captured := [], disk.At(asset.Output());
    if asset.identity != Animation { return Failed(IdentityMismatch, NoMutation, false), changes, captured; }
    if !asset.optimizes { return Failed(OperationFailed, NoMutation, false), changes, captured; }
    var receipt, usable := None, false;
    if asset.apply {
      disk.Interfere();
      var staging := registry.CapturePublicationTarget(asset.path);
      if staging.Unready? { return StagingFailure(staging.lookup), changes, captured; }
      captured := staging.value.leaf;
      disk.Interfere();
      var staged := registry.StageFileForPublication(staging.value);
      if staged.Unready? { return StagingFailure(staged.lookup), changes, captured; }
      receipt := Some(staged.value);
      usable := Save(staged.value, backend, registry);
    }
    if backend.operation == Failing { return Fail(OperationFailed), changes, captured; }
    if receipt.None? || backend.operation == Unchanged { return Succeeded(false), changes, captured; }
    if !usable { return Fail(SaveFailed), changes, captured; }
    var failure;
    failure, changes := Publish(receipt.value, asset, registry, captured);
    result := if failure.Some? then failure.value else Succeeded(true);
  }

  method Execute(asset: Asset, backend: Backend, registry: Registry)
    returns (result: Result, ghost changes: seq<Change>, ghost captured: Option<File>)
    modifies registry`artifacts, registry.disk
    ensures registry.disk.quiet ==> old(registry.disk.quiet)
    ensures registry.disk.changes == old(registry.disk.changes) + changes && IsTrue(result, changes, asset, captured)
    ensures registry.disk.alone ==>
              old(registry.disk.alone) && registry.disk.files == Replayed(old(registry.disk.files), changes)
    ensures HasVerdict(result, asset)
    ensures !asset.apply ==> registry.artifacts == old(registry.artifacts) && changes == []
    ensures changes != [] ==> backend.saves == Some(changes[0].after.bytes)
    ensures registry.disk.quiet && old(IsReady(asset, registry)) ==> result == WhenQuiet(asset, backend)
    ensures registry.disk.quiet ==> captured == old(registry.disk.At(asset.Output()))
    ensures registry.disk.quiet && result.Mutation() == PartialOrUnknown ==> |changes| == 2
  {
    changes, captured := [], registry.disk.At(asset.Output());
    match asset.target
    case Texture => result, changes, captured := ExecuteTexture(asset, backend, registry);
    case Mesh => result, changes, captured := ExecuteMesh(asset, backend, registry);
    case Animation => result, changes, captured := ExecuteAnimation(asset, backend, registry);
    case Archive => result := Fail(UnsupportedTarget);
  }
}
