/** Asset attempts as values: what is routed, what the backend answers, and what a report must be true of. */
module AssetAttempts {
  import opened Attempts
  import opened DurableDisk
  import opened GamePaths

  datatype Failure =
    | UnsupportedTarget | IdentityMismatch | LoadFailed | OperationFailed | SaveFailed
    | SourceRemovalFailed | StagingFailed | CommitFailed

  datatype Kind = Texture | Mesh | Animation | Archive

  /** A routed Asset. Its identity may disagree with its target; only a convertible Texture changes its extension. */
  datatype Asset = Asset(
    target: Kind, identity: Kind, path: string, apply: bool,
    convertible: bool, convertedPath: string,
    converts: bool, optimizes: bool, maintains: bool)
  {
    function Output(): string {
      if target == Texture && convertible then convertedPath else path
    }

    predicate Converting() {
      target == Texture && convertible && converts
    }
  }

  type Result = Outcome<Failure>

  function Fail(failure: Failure): Result {
    Failed(failure, NoMutation, true)
  }

  /** A staging boundary that failed: safe to continue from only after a failed lookup. */
  function StagingFailure(lookup: bool): Result {
    Failed(StagingFailed, NoMutation, lookup)
  }

  /**
   * A report that is true of the durable files. `captured` is what stood at the output before the original bytes were
   * loaded.
   */
  ghost predicate IsTrue(result: Result, changes: seq<Change>, asset: Asset, captured: Option<File>) {
    && |changes| <= 2
    && (changes != [] ==>
          asset.apply && changes[0].Put? && changes[0].before == captured && changes[0].after.bytes != []
          && changes[0].path
             == if asset.target == Texture && asset.convertible then asset.convertedPath else asset.path)
    && (|changes| == 2 ==>
          asset.target == Texture && asset.convertible && asset.converts
          && changes[1].Removed? && changes[1].path == asset.path)
    && (result.Mutation() == NoMutation ==> changes == [])
    && (result.Mutation() == Committed ==> changes != [])
    && (result.Succeeded? && changes != [] ==>
          |changes| == if asset.target == Texture && asset.convertible && asset.converts then 2 else 1)
    && (result.Failed? && |changes| == 2 ==> result.left == PartialOrUnknown)
    && (result.Failed? && changes != [] ==> result.failure == CommitFailed || result.failure == SourceRemovalFailed)
    && (result.Mutation() == PartialOrUnknown ==> changes != [] && !result.SafeToContinue())
  }

  /** What a failure leaves behind and whether the run may go on after it, by what failed. */
  ghost predicate HasVerdict(result: Result, asset: Asset) {
    result.Failed? ==>
      match result.failure
      case UnsupportedTarget | LoadFailed | SaveFailed => result.left == NoMutation && result.SafeToContinue()
      case IdentityMismatch => result.left == NoMutation && !result.SafeToContinue()
      case OperationFailed =>
        result.left == NoMutation && (result.SafeToContinue() <==> asset.target != Animation || asset.optimizes)
      case StagingFailed => result.left == NoMutation
      case CommitFailed =>
        result.left != PartialOrUnknown && (result.SafeToContinue() <==> result.left == NoMutation)
      case SourceRemovalFailed => asset.Converting() && result.left != NoMutation
  }

  // The backend: any answers, and bytes only where it was told to write.

  datatype Operation = Failing | Unchanged | Changed

  /**
   * What the backend does in one attempt: whether the Asset loads, what its operations find, what it saves if
   * anything, how often it asks for the source's removal, and what it reports of that.
   */
  datatype Backend = Backend(loads: bool, operation: Operation, maintenance: Operation, saves: Option<Bytes>,
                             removals: nat, reportsRemoval: bool)
  {
    predicate SavesUsable() {
      saves.Some? && saves.value != []
    }
  }

  /** Whether the operations would change the Asset: a Mesh has two, each run only when it carries that work. */
  function Worked(asset: Asset, backend: Backend): Operation {
    var first := if asset.target == Mesh && !asset.optimizes then Unchanged else backend.operation;
    var second := if asset.target == Mesh && asset.maintains then backend.maintenance else Unchanged;
    if first == Failing || second == Failing then Failing
    else if first == Changed || second == Changed then Changed
    else Unchanged
  }

  /** The one result of an attempt whose routing agrees with itself, while nothing fails and nobody interferes. */
  function WhenQuiet(asset: Asset, backend: Backend): Result {
    if asset.target != Animation && !backend.loads then Fail(LoadFailed)
    else if Worked(asset, backend) == Failing then Fail(OperationFailed)
    else if Worked(asset, backend) == Unchanged || !asset.apply then Succeeded(false)
    else if !backend.SavesUsable() then Fail(SaveFailed)
    else if !asset.Converting() || (backend.removals > 0 && backend.reportsRemoval) then Succeeded(true)
    else if backend.removals == 0 then Failed(SourceRemovalFailed, Committed, true)
    else Failed(SourceRemovalFailed, PartialOrUnknown, false)
  }

  /** Whether an operation fails, and whether any finds work: a Mesh's two count only when they are asked for. */
  ghost predicate AnyFails(asset: Asset, backend: Backend) {
    || ((asset.target != Mesh || asset.optimizes) && backend.operation == Failing)
    || (asset.target == Mesh && asset.maintains && backend.maintenance == Failing)
  }

  ghost predicate AnyChanges(asset: Asset, backend: Backend) {
    || ((asset.target != Mesh || asset.optimizes) && backend.operation == Changed)
    || (asset.target == Mesh && asset.maintains && backend.maintenance == Changed)
  }

  /** While all is quiet an attempt commits exactly when it is to apply a change that it could save. */
  lemma {:induction false} QuietOutcomes(asset: Asset, backend: Backend)
    ensures var result := WhenQuiet(asset, backend);
            var loaded := asset.target == Animation || backend.loads;
            var done := loaded && !AnyFails(asset, backend);
            var saved := done && asset.apply && AnyChanges(asset, backend) && backend.saves.Some?
                         && backend.saves.value != [];
            var removed := backend.removals > 0 && backend.reportsRemoval;
            && (result == Succeeded(true) <==> saved && (asset.Converting() ==> removed))
            && (result == Succeeded(false) <==> done && (!asset.apply || !AnyChanges(asset, backend)))
            && (result == Failed(LoadFailed, NoMutation, true) <==> !loaded)
            && (result == Failed(OperationFailed, NoMutation, true) <==> loaded && AnyFails(asset, backend))
            && (result == Failed(SaveFailed, NoMutation, true)
                <==> done && asset.apply && AnyChanges(asset, backend) && !saved)
            && (result == Failed(SourceRemovalFailed, Committed, true)
                <==> saved && asset.Converting() && backend.removals == 0)
            && (result == Failed(SourceRemovalFailed, PartialOrUnknown, false)
                <==> saved && asset.Converting() && backend.removals > 0 && !backend.reportsRemoval)
  {
  }
}
