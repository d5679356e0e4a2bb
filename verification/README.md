# A verified model of Cathedral Assets Optimizer's core

Cathedral Assets Optimizer (CAO) prepares game mods: it extracts their Archives, optimizes Textures, Meshes and
Animations in place, and packs the result into Archives again. This project models the code whose mistakes would cost a
user files or leave a wrong account of what a run did, and proves what that code promises. The whole project verifies
with `dafny verify dfyconfig.toml`.

The parts, each in the modules named:

- **Paths** (`PathText`, `PathFolding`, `LexicalNormal`, `LexicalNormalLaws`, `RootNames`, `WeaklyCanonical`,
  `WeaklyCanonicalLaws`, `WeaklyCanonicalWalk`): UTF-16 path text under MSVC's root-name grammar. `lexically_normal` is
  the source's own loop over an array of slots; it is proved equal to a fold, and the fold is proved to be the one
  normal form that rewriting rules 4 to 7 of N4950 [fs.path.generic] paragraph 6 lead to, in whatever order they are
  applied.
- **Archive planning** (`ArchivePlan`, `ArchiveSplit`, `ArchiveSplitLaws`, `ArchiveMergeLaws`, `ArchivePacking`,
  `GameArchivePacker`, `ArchiveWriting`): classes that update sizes, bounds, folder sets and file lists in place refine
  a specification on values with closed-form bounds. Every plan can be rebuilt file by file, holds exactly its sources,
  and is never written past its game's size cap.
- **Archive extraction** (`GamePaths`, `EntryNames`, `ArchivePreflight`, `ArchiveWinners`, `ArchiveDiscovery`,
  `StandingPaths`, `ArchiveStaging`, `ArchiveExtraction`, `ArchiveOffers`, `ArchiveTurns`, `ArchivePass`,
  `ArchiveBackups`): what a preflight freezes, and a whole pass over a Mod Root that follows it, merges and source
  cleanups, down to the durable files.
- **Asset attempts** (`Attempts`, `DurableDisk`, `Publication`, `AssetAttempts`, `AssetExecution`, `Quarantine`,
  `Decimals`): a disk whose steps may fail at any time, and which others may change between any two steps. Each attempt
  lists its own durable changes in a ghost record; as long as nobody else touched the disk, replaying that record on the
  files before gives the files after, so a report of no mutation means that the files are unchanged.
- **Archive names and plugins** (`ArchiveNames`, `ArchiveNameLaws`, `Frames`, `Headparts`, `HeadpartLaws`, `CleanPaths`,
  `CleanPathLaws`): names parsed, rendered and parsed again; the reader of a plugin's headparts against the
  serialization it inverts.
- **Capacity** (`CapacityDemand`, `CapacityCheck`): 64-bit saturating sums and volume identities frozen once a run.
- **The log** (`LogTab`, `LogFeed`): the sink, its feed and the Log tab's rows as a state machine, over every
  interleaving of its steps.
- **Run Evidence** (`RunFacts`, `RunEvidence`, `RunHistory`, `MutationSummaries`, `RunFactLaws`): the mutable owner of a
  run's facts, and every sequence of its operations.

Where a method is proved equal to a function, that function is pinned in turn by laws told without it: what a root name
is, which entries escape, what a merge merges, what a walk replaces, which sequence phases follow.

Three statements that read like promises are false of the code; each has a witness and its exact condition.

- `lexically_normal` is not idempotent: `./C:.` becomes `C:.`, which becomes `C:`
  (`LexicalNormalLaws.NotIdempotentInGeneral`). It is idempotent on exactly the texts that do not fold again: a text
  does if it has no root name and no root directory, and the first filename its folding leaves is `X:.`, or is `X:..`
  with nothing but a separator behind it (`LexicalNormalLaws.IdempotentUnlessFoldsAgain`). Names that are never exactly
  `X:.` or `X:..` are enough (`LexicalNormalLaws.IdempotentWithoutDriveDotNames`).
- Rendering an Archive's name is not idempotent: `Foo0 - Textures5` becomes `Foo05 - Textures`, and that becomes `Foo5 -
  Textures` (`ArchiveNames.RenderingLosesAZero`). `ArchiveNames.RenderingIsIdempotent` says exactly for which stems it
  is; one rendering and reparsing always suffices for the parsed name (`ArchiveNames.OneRenderingSuffices`).
- A preflight that succeeds does not make sure that the pass behind it can: with sources backed up, extracting `A.bsa`
  moves it to `A.bsa.bak`, and if that is what `B.bsa` lists, its merge then finds its destination taken
  (`ArchiveBackups.BackupsCanBeInTheWay`). A pass with nothing failing and nobody interfering is completed if and only
  if no backup's name is in the way of a later winner, which is always so when sources are removed
  (`ArchivePass.ExtractRoot`).

## Model

| member | source | states |
|---|---|---|
| `LexicalNormal.Compact` | crates/cao-winfs/src/canonical.rs:375-411 | the in-place compaction, whose write cursor is even at each filename and never passes the read cursor, leaves exactly the folded names with one separator slot between them, and a trailing one as the fold says |
| `LexicalNormal.LexicallyNormalInPlace` | crates/cao-winfs/src/canonical.rs:329-431 | for every text the imperative routine returns the root with preferred separators, then the folded names, then the trailing separator and lone-dot rules |
| `LexicalNormalLaws.EveryRunEndsInLexicallyNormal` | crates/cao-winfs/src/canonical.rs:329-431 | every run of the standard's rules that can go no further, in whatever order they were applied, ends in that normal form |
| `LexicalNormalLaws.LexicallyNormalIsReached` | crates/cao-winfs/src/canonical.rs:329-431 | such a run exists for every text, so the normal form is the rules' only one |
| `PathFolding.RunsEndInFold` | crates/cao-winfs/src/canonical.rs:375-416 | confluence: whatever rules were applied, the fold of the path never changed |
| `PathFolding.FoldIsReached` | crates/cao-winfs/src/canonical.rs:375-416 | termination: from every path some run of the rules reaches its fold |
| `PathText.ParseInvertsRender` | crates/cao-winfs/src/canonical.rs:347-373 | reading a rendered relative path gives back its filenames and its trailing separator |
| `LexicalNormalLaws.IdempotentUnlessDriveDot` | crates/cao-winfs/src/canonical.rs:329-431 | a second normalization changes nothing exactly when the first left no drive-relative dots, and every normal form has one separator between filenames |
| `LexicalNormalLaws.IdempotentUnlessFoldsAgain` | crates/cao-winfs/src/canonical.rs:329-431 | told from the text: normalizing is idempotent on it if and only if it has a root, or the first filename that folding leaves is not `X:.`, nor `X:..` with only a separator behind it |
| `LexicalNormalLaws.IdempotentWhenRootLengthKept` | crates/cao-winfs/src/canonical.rs:329-431 | idempotent whenever the result keeps the root name's length |
| `LexicalNormalLaws.NotIdempotentInGeneral` | crates/cao-winfs/src/canonical.rs:329-431 | a text on which normalizing twice differs from normalizing once |
| `LexicalNormalLaws.RootNameKept` | crates/cao-winfs/src/canonical.rs:224-252 | normalizing keeps a root name, at its length; only a text without one can gain one |
| `RootNames.RootNameIsKept` | crates/cao-winfs/src/canonical.rs:224-252 | a drive, two slashes and a server's name, or `\??` before one slash, told from the text alone, starts the normal form with preferred separators, and what follows is folded by itself |
| `RootNames.ServerIsKept` | crates/cao-winfs/src/canonical.rs:245-250 | for any two slashes, name and rest, the server's name stays and no `..` reaches it |
| `RootNames.DriveIsKept` | crates/cao-winfs/src/canonical.rs:218-231 | so does a drive, whose rest is folded under a root directory only behind a slash |
| `RootNames.ObjectRootIsKept` | crates/cao-winfs/src/canonical.rs:237-244 | and `\??\` |
| `RootNames.NoRootNameIsAdded` | crates/cao-winfs/src/canonical.rs:329-431 | a text with none of these is folded whole, under a root directory if it starts with a slash |
| `RootNames.AbsoluteTexts` | crates/cao-winfs/src/canonical.rs:265-270 | a text is absolute exactly with a root name, and a drive's only with a slash behind it |
| `WeaklyCanonical.FileElements` | crates/cao-winfs/src/canonical.rs:273-300 | the element iterator yields each filename, and one empty element exactly when slashes come last |
| `WeaklyCanonical.WeaklyCanonical` | crates/cao-winfs/src/canonical.rs:66-93 | the imperative walk asks the disk about each prefix until one is missing, and stops at the first refusal |
| `WeaklyCanonicalLaws.NothingOnDisk` | crates/cao-winfs/src/canonical.rs:66-93 | with nothing on disk the result is the lexical normal form exactly when no filename behind its root starts with a letter and a colon |
| `WeaklyCanonicalLaws.NothingOnDiskWithoutDrives` | crates/cao-winfs/src/canonical.rs:66-93 | so it is for every text none of whose own filenames does |
| `WeaklyCanonicalWalk.LongestPrefixIsReplaced` | crates/cao-winfs/src/canonical.rs:66-93 | what exists is what it is found as; of what is missing the longest existing prefix is replaced by what it is found as and the rest appended; the first refusal is the result |
| `WeaklyCanonicalWalk.NothingElseIsAsked` | crates/cao-winfs/src/canonical.rs:66-93 | the disk is asked for the path and those prefixes alone |
| `WeaklyCanonicalWalk.MissingNamesFollow` | crates/cao-winfs/src/canonical.rs:80-93 | without drive names, the missing names follow the last text found behind one separator each |
| `WeaklyCanonicalWalk.AppendedTo` | crates/cao-winfs/src/canonical.rs:302-327 | appending replaces a text by an absolute one or another root, keeps its root name before a slash, and otherwise puts one separator between |
| `ArchivePlan.BoundIgnoresOrder` | crates/cao-archive/src/data.rs:287-298 | the closed form of a BSA's bound is the same for any permutation of its files |
| `ArchivePlan.BoundOfAppend` | crates/cao-archive/src/data.rs:351-360 | the bound of two file lists together is what both bounds say less one header and the folders they share |
| `ArchivePlan.ShippedRulesAreSound` | crates/cao-archive/src/settings.rs:315-381 | the shipped games' rules, under any requested limit, meet what planning assumes, and never plan past their cap |
| `ArchivePacking.CappedLayout.Add` | crates/cao-archive/src/data.rs:332-349 | counts a file exactly when the closed-form bound with it stays within the cap, through 64-bit saturating sums, and is otherwise unchanged |
| `ArchivePacking.CappedLayout.MergedBound` | crates/cao-archive/src/data.rs:353-360 | the loop over shared folders gives the bound of the union planned from scratch |
| `ArchivePacking.CappedLayout.Absorb` | crates/cao-archive/src/data.rs:363-367 | takes the other's files, within the cap, and leaves it empty |
| `ArchivePacking.ArchiveData.AddFile` | crates/cao-archive/src/data.rs:79-94 | takes a file exactly when the sizes add in 64 bits, the limit or emptiness allows it, and the cap does; otherwise nothing changes |
| `ArchivePacking.ArchiveData.Absorb` | crates/cao-archive/src/data.rs:151-168 | moves the files in order, keeps the container, sets the type as a merge does, and empties the other |
| `ArchivePacking.Split` | crates/cao-archive/src/data.rs:222-255 | sorting, then filling one open Archive per type in place, refines the specification of a split, with its error and the cap it names |
| `ArchivePacking.MergePartitions` | crates/cao-archive/src/data.rs:268-284 | folding the open Archives in place and dropping empty ones refines the specification of a merge |
| `ArchiveSplitLaws.SortSorts` | crates/cao-archive/src/data.rs:227-227 | the sources are read in key order, and none is lost or repeated |
| `ArchiveSplitLaws.SplitHolds` | crates/cao-archive/src/data.rs:234-253 | after any number of sources each type's Archives hold exactly its sources so far, in order, each Archive accepted and closed for a reason |
| `ArchiveSplitLaws.SplitFailsOnFirstTooBig` | crates/cao-archive/src/data.rs:241-252 | a split fails if and only if some packable source passes the cap alone, and names the first such source in sorted order |
| `ArchiveSplitLaws.MergeKeepsSources` | crates/cao-archive/src/data.rs:268-284 | under any merge settings the Archives hold exactly the packable sources, each once, in sorted order within each type |
| `ArchiveSplitLaws.MergeAddsNothing` | crates/cao-archive/src/data.rs:268-284 | every file in an Archive was offered and is of a packable type |
| `ArchiveSplitLaws.EveryPlanIsRebuilt` | crates/cao-optimizers/src/archives.rs:261-269 | every merged Archive is non-empty, and adding its files to an empty one of its type in order is never refused: "no longer fits" is unreachable |
| `ArchiveSplitLaws.FewArchivesPerType` | crates/cao-archive/src/data.rs:79-94 | without a cap, a type split into k >= 2 Archives has more than k / 2 limits' worth of source bytes, over-limit files included |
| `ArchiveSplitLaws.ClosedForAReason` | crates/cao-archive/src/data.rs:241-246 | every closed Archive was closed because the next file broke the limit or the cap |
| `ArchiveMergeLaws.MergesWhatMayShare` | crates/cao-archive/src/data.rs:268-284 | the merged Archives: those that were full, the open Standard one with the open Incompressible and Texture files behind its own where asked for and below the limit and within the cap together, and what stays apart; only the Incompressible one changes its type |
| `ArchiveMergeLaws.TypesStayApart` | crates/cao-archive/src/data.rs:233-240 | without merging, an Archive of a type holds files of that type only |
| `ArchiveMergeLaws.NothingIsLeftOut` | crates/cao-archive/src/data.rs:233-255 | a source is in some Archive if and only if it is Standard, Incompressible or a Texture |
| `ArchiveMergeLaws.ContainersOfMerge` | crates/cao-archive/src/data.rs:46-77 | every Archive has its game's container, limit and, for a BSA, cap, and passes the limit only as a single file |
| `ArchiveMergeLaws.KeyOrder` | crates/cao-archive/src/data.rs:200-227 | keys are ordered by their first differing component |
| `ArchiveMergeLaws.UnitOrder` | crates/cao-archive/src/data.rs:200-227 | and components by their first differing unit, a beginning first |
| `ArchiveMergeLaws.FirstDifference` | crates/cao-archive/src/data.rs:200-227 | any two keys or components have a first difference, so those two settle every comparison |
| `ArchiveMergeLaws.SortIsStable` | crates/cao-archive/src/data.rs:227-227 | sources with one key keep the order they came in |
| `GameArchivePacker.PartitionSources` | crates/cao-optimizers/src/archives.rs:210-247 | fails exactly when a source is too big alone, and names the first such in sorted order with the cap; otherwise the plans are the merged Archives with each file's own size, none empty, each rebuilt without refusal |
| `GameArchivePacker.RebuildAll` | crates/cao-optimizers/src/archives.rs:254-269 | rebuilding plans that specification accepts yields Archives that hold exactly them |
| `ArchiveWriting.SmallerStored` | crates/cao-archive/src/write.rs:246-259 | a file is never stored in more bytes than its source, and compressed exactly when that saves bytes after the prefix |
| `ArchiveWriting.FirstNameWins` | crates/cao-archive/src/write.rs:279-299 | a stored name holds exactly the first file given for it, and nothing else is stored |
| `ArchiveWriting.WrittenWithinBound` | crates/cao-archive/src/write.rs:246-299 | however files compress and names collide, the written BSA takes at most the bound it was planned by |
| `ArchiveWriting.BoundIsReached` | crates/cao-archive/src/data.rs:287-298 | the bound is tight: uncompressed files whose names are stored apart and at full length take exactly it |
| `ArchiveWriting.WrittenWithinCap` | crates/cao-archive/src/write.rs:336-352 | no Archive of any split and merge is written past its cap: the over-cap error is unreachable |
| `GamePaths.CanonicalArchiveEntryPath` | crates/cao-core/src/run/archives.rs:599-638 | the loop with its part stack accepts and rejects as the specification: a contained, forward-slash path, or why not |
| `GamePaths.CanonicalIsIdempotent` | crates/cao-core/src/run/archives.rs:599-638 | an accepted name's canonical form is its own canonical form |
| `EntryNames.RefusedAsMisspelled` | crates/cao-core/src/run/archives.rs:600-607 | a name is invalid exactly when it is empty, starts with a slash or holds a forbidden character |
| `EntryNames.RefusedAsEscaping` | crates/cao-core/src/run/archives.rs:608-630 | a spelled name escapes exactly when its walk is ever above its start, ends there, or its last step is no name |
| `EntryNames.DetoursDoNotMatter` | crates/cao-core/src/run/archives.rs:614-628 | leaving out a `.`, an empty step or a name with `..` behind it changes neither the verdict nor the meaning |
| `EntryNames.PartsAreTheirOwnMeaning` | crates/cao-core/src/run/archives.rs:631-638 | ordinary parts are their own meaning, and are refused exactly when one ends in a dot or space or is reserved |
| `EntryNames.AcceptedAreParts` | crates/cao-core/src/run/archives.rs:599-638 | what is accepted means ordinary parts, none of them aliased |
| `EntryNames.StepsAreWhole` | crates/cao-core/src/run/archives.rs:599-613 | every spelled name is the join of its steps, so those laws are laws of all names |
| `GamePaths.AncestorFolds` | crates/cao-core/src/run/archives.rs:902-905 | comparing folded prefixes is being a component-wise ancestor of the folded path, for every fold that keeps the separator apart |
| `GamePaths.NeighbourDecides` | crates/cao-core/src/run/archives.rs:889-894 | the first key at or after `path/` is below the path if and only if any planned key is |
| `ArchivePreflight.ReadArchive` | crates/cao-core/src/run/archives.rs:727-806 | succeeds exactly on a readable manifest all of whose entries are canonical, admitted and distinct under the fold, and then lists exactly those, in order |
| `ArchivePreflight.ReadRoot` | crates/cao-core/src/run/archives.rs:726-809 | every Archive is read or none counts; each provided game path's participants are exactly its providers, high to low; reading is cancelled exactly when that is seen before an Archive it reaches |
| `ArchivePreflight.KeyIsInDirectory` | crates/cao-core/src/run/archives.rs:781-797 | an entry's game path is its own within its Archive's directory |
| `ArchiveWinners.ConflictsWithPlanned` | crates/cao-core/src/run/archives.rs:885-896 | true if and only if some planned output is the path's component-wise ancestor or descendant |
| `ArchiveWinners.MergedByExactlyOne` | crates/cao-core/src/run/archives.rs:811-832 | every provided game path without a Loose Asset is merged by exactly one Archive, the highest |
| `ArchiveWinners.CollisionNamesTheMerger` | crates/cao-core/src/run/archives.rs:834-848 | a reported collision names the Archive that merges the path and shadows all its other providers, and says truly whether a Loose Asset wins |
| `ArchiveDiscovery.FreezeRoot` | crates/cao-core/src/run/archives.rs:811-832 | winners freeze exactly when no game path to be merged is below another, whatever order they are planned in |
| `ArchiveDiscovery.FrozenRootIsSound` | crates/cao-core/src/run/archives.rs:811-832 | in a frozen Mod Root a plan merges a path if and only if it provides it, nothing loose holds it and no higher plan provides it; the merged paths form an antichain |
| `ArchiveDiscovery.MergedOnce` | crates/cao-core/src/run/archives.rs:811-832 | no two frozen plans merge one game path |
| `ArchiveDiscovery.ValidateArchiveOrder` | crates/cao-core/src/run/archives.rs:910-963 | accepted exactly when every enabled Archive is named once and nothing else is; the result is then a reordering of them as named |
| `ArchiveDiscovery.RunPreflight` | crates/cao-core/src/run/archives.rs:704-881 | all or nothing, each outcome exactly for its cause: a refused order; cancellation seen before an Archive that is reached; else a failed discovery when some Mod Root cannot be frozen; else a shortage; else every Mod Root frozen |
| `ArchiveStaging.CheckPlan` | crates/cao-core/src/run/archives.rs:255-274 | accepts a plan if and only if its entries are canonical and distinct under the fold and its winners are among them |
| `ArchiveStaging.StageEntries` | crates/cao-core/src/run/archives.rs:276-298 | succeeds, while nothing fails, exactly when the manifest lists exactly the plan's entries, in any order and none twice; each is staged with its own bytes |
| `StandingPaths.PrepareMergeTarget` | crates/cao-core/src/run/archives.rs:476-504 | the walk over a destination's parents finds room exactly when no file stands at it, above it or below it |
| `StandingPaths.RoomMeansApart` | crates/cao-core/src/run/archives.rs:476-504 | room is told by beginnings: no file's folded path is the same, begins the destination's at a separator, or goes on behind it |
| `StandingPaths.BackupIsFirstFree` | crates/cao-core/src/run/source_pin.rs:172-191 | the search for a backup's name ends, at the first of `.bak`, `.bak.bak` and so on at which nothing stands |
| `ArchiveExtraction.PublishMerged` | crates/cao-core/src/run/archives.rs:300-319 | publishes a prefix of the winners, in order, each with its own bytes where there was room for it; all of them when there is room for all and nothing fails |
| `ArchiveExtraction.ExtractStaged` | crates/cao-core/src/run/archives.rs:155-206 | a failure is partial or unknown, and unsafe, exactly when an entry was published; a manifest that does not fit is a shortage, which stages nothing, and nothing else is one; whatever is published was contained, fitting, well formed and listed exactly; a plan that is ready completes while nothing fails |
| `ArchiveExtraction.ExtractArchive` | crates/cao-core/src/run/archives.rs:361-452 | the source is backed up or removed only once every winner is published; no mutation means no change at all; what does not fit fails as such with nothing staged; a ready plan whose source is there succeeds while nothing fails and nobody interferes, and leaves exactly its winners and the backup |
| `ArchiveExtraction.FrozenPlanIsUnobstructed` | crates/cao-core/src/run/archives.rs:255-317 | a frozen plan with an unchanged manifest passes extraction's checks, and no winner of it is in another's way: that the winners form an antichain is what makes it so |
| `ArchiveOffers.OfferedIsReady` | crates/cao-core/src/run/archives.rs:255-317 | the same of any plan a preflight produced, as extraction is handed it |
| `ArchiveOffers.WinnersAreApart` | crates/cao-core/src/run/archives.rs:811-832 | no winner of one plan is in the way of another plan's: not at its destination, nor above or below it |
| `ArchiveOffers.FrozenLieApart` | crates/cao-core/src/run/archives.rs:811-832 | so any two plans of a frozen Mod Root lie apart |
| `ArchiveOffers.OfferOutlivesCleanup` | crates/cao-core/src/run/source_pin.rs:172-191 | extracting one Archive whole leaves any plan that lies apart from it its room if and only if the source is removed or its backup is in none of that plan's winners' way |
| `ArchiveTurns.StillOffered` | crates/cao-core/src/run/executor/work_phases.rs:473-490 | while backups stand clear, each plan finds its room, its Archive and its manifest when its turn comes |
| `ArchiveTurns.RoomMeansClear` | crates/cao-core/src/run/executor/work_phases.rs:473-490 | and only then: when every plan of a pass found room, no backup was in the way |
| `ArchivePass.ExtractAll` | crates/cao-core/src/run/executor/work_phases.rs:473-498 | plans are extracted and cleaned up in turn until one is unsafe or cancellation is seen; each publishes a prefix of its winners and cleans up only after all of them |
| `ArchivePass.ExtractRoot` | crates/cao-core/src/run/executor/work_phases.rs:473-498 | with nothing failing and nobody interfering, a frozen Mod Root is extracted whole, up to cancellation, if and only if no source is backed up into a later winner's way |
| `ArchiveBackups.BackupsCanBeInTheWay` | crates/cao-core/src/run/source_pin.rs:172-191 | an accepted Mod Root, offered all it needs, whose pass cannot be completed |
| `Publication.Registry.StageFileForPublication` | crates/cao-core/src/run/artifacts.rs:366-394 | stages one fresh artifact bound to the captured destination, only while that is as captured; refusing changes nothing |
| `Publication.Registry.Publish` | crates/cao-core/src/run/artifacts.rs:205-255 | nothing changes before the rename; after it exactly the staged bytes stand over what was captured, never over a file under no-replace; a failed release hides no commit |
| `AssetExecution.PinnedSource.RemoveVerified` | crates/cao-core/src/execution.rs:504-541 | removes only the pinned file object at its path, unchanged, and at most once |
| `AssetExecution.RemoveSource` | crates/cao-core/src/execution.rs:517-540 | however often a backend asks and whatever it reports, at most the pinned file goes |
| `AssetExecution.FinishConversion` | crates/cao-core/src/execution.rs:578-762 | the source goes only after its output was published; a removal that is misreported is partial or unknown and unsafe unless both files prove usable |
| `AssetExecution.StageAndPublish` | crates/cao-core/src/execution.rs:398-415 | at most the captured destination changes, to usable saved bytes; each failure reports truly whether it did |
| `AssetExecution.ExecuteTexture` | crates/cao-core/src/execution.rs:578-762 | for any backend and any failure the report is true of the durable files; a Dry Run changes and stages nothing; what is unknown is so only after a removal |
| `AssetExecution.ExecuteMesh` | crates/cao-core/src/execution.rs:766-877 | the same, and never partial or unknown; with nothing failing, the outcome is decided by the backend alone |
| `AssetExecution.ExecuteAnimation` | crates/cao-core/src/execution.rs:881-970 | the same for an output staged before its backend runs |
| `AssetExecution.Execute` | crates/cao-core/src/execution.rs:559-577 | every attempt, of any route, reports truly, and each kind of failure carries its verdict on going on |
| `AssetAttempts.QuietOutcomes` | crates/cao-core/src/execution.rs:559-970 | what that is, outcome by outcome: a commit exactly for an applied change that could be saved, and each failure exactly for its cause |
| `Attempts.UnknownIsNeverSafe` | crates/cao-core/src/run/executor/work_phases.rs:478-490 | an attempt is safe to continue from exactly when its mutation is known and, if it failed, it says so |
| `Quarantine.FirstFree` | crates/cao-core/src/execution.rs:1034-1068 | the candidate search ends, at the first name nothing stands at |
| `Quarantine.CandidateNames` | crates/cao-core/src/execution.rs:1034-1068 | the names tried: `.caobad` appended, then with a number from one up |
| `Quarantine.QuarantineFailedLoad` | crates/cao-core/src/execution.rs:986-1032 | exactly a failed load of an applied Texture or Mesh is quarantined, to the first free name; the rename is its committed mutation, and an Asset left in place makes continuing unsafe |
| `Decimals.DigitsAreDistinct` | crates/cao-core/src/execution.rs:1034-1068 | no two candidate numbers are printed alike |
| `ArchiveNames.CanonicalRoundTrip` | crates/cao-archive/src/name.rs:57-96 | a name survives rendering and reparsing if and only if it is canonical |
| `ArchiveNames.ParsedIsCanonicalUnlessDigits` | crates/cao-archive/src/name.rs:57-81 | a parsed name is canonical except exactly when its counter stood after the suffix and digits, or nothing, come before it |
| `ArchiveNames.OneRenderingSuffices` | crates/cao-archive/src/name.rs:57-96 | for every stem one rendering and reparsing reaches a fixed point of reparsing |
| `ArchiveNames.RenderingIsIdempotent` | crates/cao-archive/src/name.rs:86-96 | rendering a second time changes nothing exactly on the stems whose digits before the suffix do not lead a counter with a zero |
| `ArchiveNames.RenderingLosesAZero` | crates/cao-archive/src/name.rs:83-96 | a stem on which a second rendering loses a zero |
| `ArchiveNames.AppendedCounter` | crates/cao-archive/src/name.rs:161-170 | what is eaten of a name with a number appended: that number behind the name's own digits, or nothing for all digits and past 32 bits |
| `ArchiveNames.RenderedFileIsFound` | crates/cao-archive/src/name.rs:57-103 | the file a listed name renders as is listed too, with its extension, and renders as itself |
| `ArchiveNameLaws.SuffixedStems` | crates/cao-archive/src/name.rs:57-81 | a number behind the suffix is the counter and one before it then stays with the name; otherwise the one before it is |
| `ArchiveNameLaws.PlainStems` | crates/cao-archive/src/name.rs:57-81 | without a suffix the number at the end is the counter |
| `ArchiveNameLaws.DigitStems` | crates/cao-archive/src/name.rs:153-170 | a stem of digits only has none |
| `ArchiveNameLaws.LargeNumbersStay` | crates/cao-archive/src/name.rs:153-170 | more digits than 32 bits hold stay in the name |
| `ArchiveNameLaws.RenderedPieces` | crates/cao-archive/src/name.rs:83-96 | rendered are the name, the counter without leading zeros, and the suffix behind its separator |
| `Frames.ReadsWholeDecompositions` | crates/cao-optimizers/src/plugins.rs:175-188 | bytes are read if and only if they decompose wholly into frames, and then there is one decomposition |
| `Headparts.RecordHeadparts` | crates/cao-optimizers/src/plugins.rs:175-188 | the field loop, on strictly fewer bytes each time, collects exactly the MODL payloads or the first failure |
| `Headparts.GroupHeadparts` | crates/cao-optimizers/src/plugins.rs:126-148 | the record loop collects them over all records, in order, or the first failure in reading order |
| `Headparts.GroupReadsWholeDecompositions` | crates/cao-optimizers/src/plugins.rs:126-188 | a group reads if and only if its bytes are a serialization of records whose fields are one of fields; what is read is exactly their MODL payloads |
| `Headparts.FirstHdptGroupIsRead` | crates/cao-optimizers/src/plugins.rs:62-97 | behind any other top-level groups the first HDPT group's contents are read, whatever follows |
| `Headparts.NoHdptGroupNamesNothing` | crates/cao-optimizers/src/plugins.rs:62-97 | without one the walk ends and names nothing |
| `HeadpartLaws.HdptGroupIsReadFrom` | crates/cao-optimizers/src/plugins.rs:62-97 | in a whole plugin the first HDPT group behind the file's header and any other groups is read |
| `HeadpartLaws.NothingIsNamed` | crates/cao-optimizers/src/plugins.rs:62-97 | without one nothing is named |
| `HeadpartLaws.NoPlugin` | crates/cao-optimizers/src/plugins.rs:64-70 | nor by a file that does not start with a plugin's header |
| `HeadpartLaws.CutGroupFails` | crates/cao-optimizers/src/plugins.rs:87-89 | an HDPT group smaller than its header or running past the end is cut short |
| `HeadpartLaws.U32IsRead` | crates/cao-optimizers/src/plugins.rs:115-119 | numbers are read lowest byte first |
| `HeadpartLaws.FieldFrames` | crates/cao-optimizers/src/plugins.rs:175-188 | a field is its signature, its size in two bytes and that many bytes |
| `HeadpartLaws.RecordFrames` | crates/cao-optimizers/src/plugins.rs:126-141 | a record is its signature, its size in four, sixteen more and that many bytes |
| `HeadpartLaws.CompressedWhenFlagged` | crates/cao-optimizers/src/plugins.rs:126-141 | a record is compressed exactly when the nineteenth bit of its flags is set |
| `HeadpartLaws.CompressedFields` | crates/cao-optimizers/src/plugins.rs:150-173 | a compressed record's fields are as many bytes of what its stream inflates to as it declares, at most 16 MiB |
| `CleanPaths.CleanPath` | crates/cao-optimizers/src/plugins.rs:211-238 | the segment loop leaves the folded component stack, joined |
| `CleanPaths.CleanIsIdempotent` | crates/cao-optimizers/src/plugins.rs:211-238 | cleaning twice is cleaning once, for every path |
| `CleanPathLaws.DetoursDoNotMatter` | crates/cao-optimizers/src/plugins.rs:211-238 | leaving out a `.`, an empty step or a name with `..` behind it changes nothing |
| `CleanPathLaws.RootHasNoParent` | crates/cao-optimizers/src/plugins.rs:222-230 | `..` directly behind the root may be left out as well |
| `CleanPathLaws.TheRestIsKept` | crates/cao-optimizers/src/plugins.rs:211-238 | what is left, ordinary names behind a relative path's leading `..`, is kept |
| `CleanPathLaws.NothingIsLeft` | crates/cao-optimizers/src/plugins.rs:232-237 | a relative path of which nothing is left is `.`, an absolute one the root, and an empty one stays empty |
| `CapacityDemand.Demand.Add` | crates/cao-core/src/run/capacity.rs:361-367 | saturating additions in place keep each root once, in first-added order, at its true sum clamped, and the clamped total |
| `CapacityDemand.SumsIgnoreOrder` | crates/cao-core/src/run/capacity.rs:361-367 | those sums are the same for every order of the additions |
| `CapacityDemand.DemandIgnoresOrder` | crates/cao-core/src/run/capacity.rs:361-367 | a root's demand, and the whole, come out the same whatever order the estimates were added in |
| `CapacityCheck.FrozenVolumes.VolumeIdentity` | crates/cao-core/src/run/capacity.rs:284-299 | a root gets one identity, which stands whatever other checks freeze while the probe runs |
| `CapacityCheck.RequirementIsFrozen` | crates/cao-core/src/run/capacity.rs:246-274 | every later check of a run charges a root the same, whatever was looked up in between |
| `CapacityCheck.RequirementIsConservative` | crates/cao-core/src/run/capacity.rs:246-274 | whatever identities are known, a root is charged at least the true demand on its volume and at most the whole demand, both clamped |
| `CapacityCheck.RequirementIsExact` | crates/cao-core/src/run/capacity.rs:246-274 | with the volumes of all demand known, a root is charged exactly the true demand on its own, clamped; with any unknown, exactly everything |
| `CapacityCheck.FirstShortage` | crates/cao-core/src/run/capacity.rs:204-225 | the first root in order with demand and too little known space, with the bytes it was checked against; none when every such root fits |
| `CapacityCheck.NoShortageMeansRoom` | crates/cao-core/src/run/capacity.rs:204-274 | a root that fits can hold everything demanded of its actual volume |
| `LogTab.Tab.Apply` | crates/cao-gui/src/log_tab.rs:139-165 | one drained update leaves the newest rows of old and new together within the cap, before the detail rows, which stay |
| `LogTab.Tab.ShowDetails` | crates/cao-gui/src/log_tab.rs:171-190 | detail rows end as the given ones, appended when they only grew and rebuilt when they shrank; log rows stay |
| `LogTab.NewestAreKept` | crates/cao-gui/src/log_tab.rs:139-165 | the rows kept within the cap are the newest, as many as fit, in place |
| `LogFeed.LevelsKept` | crates/cao-optimizers/src/application_log.rs:282-316 | every level is kept for debugging, and otherwise exactly those down to Info |
| `LogFeed.ApplicationLog.Log` | crates/cao-optimizers/src/application_log.rs:282-316 | a record the level lets through enters the history and the queue once, and owes a wake exactly when the queue was idle |
| `LogFeed.ApplicationLog.Redirect` | crates/cao-optimizers/src/application_log.rs:220-242 | a file that cannot be opened changes nothing; a new file starts a new session and queues its reset |
| `LogFeed.ApplicationLog.Settle` | crates/cao-gui/src/log_tab.rs:109-165 | from any reachable state, taking the wakes and drains that are due shows exactly the capped history, then the details: no row is stranded |
| `LogFeed.Run` | crates/cao-optimizers/src/application_log.rs:108-147 | over every interleaving of its steps, the tab after the update in flight and the queue shows the capped history, and a queue that is not idle has a wake owed or a drain due |
| `RunFacts.AttemptKeepsConsistent` | crates/cao-core/src/run/evidence.rs:682-704 | retaining an attempt and advancing progress keep lengths, successes and totals equal |
| `RunFactLaws.PhasesFollowSequence` | crates/cao-core/src/run/lifecycle.rs:66-79 | recorded phases follow the canonical sequence, none twice |
| `RunFactLaws.FirstToBeAccepted` | crates/cao-core/src/run/evidence.rs:461-480 | a traversal begins exactly with Preparing or Safety Cleanup, with nothing done |
| `RunFactLaws.NextToBeAccepted` | crates/cao-core/src/run/evidence.rs:488-505 | a record of another phase is accepted exactly when its phase comes later in the sequence and it starts with nothing done |
| `RunFactLaws.ReplacementToBeAccepted` | crates/cao-core/src/run/evidence.rs:326-375 | one of the current phase exactly when it continues the current record within its total |
| `RunFactLaws.EachPhaseCountsItsOwn` | crates/cao-core/src/run/evidence.rs:682-704 | each attempt phase's progress counts exactly the attempts of its own list |
| `RunFactLaws.RoomForAttempt` | crates/cao-core/src/run/evidence.rs:682-704 | an attempt fits exactly while its own phase is current, has a total and has not reached it |
| `RunFactLaws.EachAttemptIsKept` | crates/cao-core/src/run/evidence.rs:682-704 | an attempt joins the end of its own kind's list, and the other lists stay |
| `RunFactLaws.PhasesOfWork` | crates/cao-core/src/run/evidence.rs:418-445 | exactly the three kinds' phases bear attempts, and only the two of Archives can be planned ahead |
| `RunEvidence.MutableRunEvidence.AcceptPhase` | crates/cao-core/src/run/evidence.rs:459-506 | accepts a record exactly when it can come next, in canonical order with its total fixed; refusing changes nothing |
| `RunEvidence.MutableRunEvidence.PublishDiagnostics` | crates/cao-core/src/run/evidence.rs:522-533 | each retained diagnostic is published once, in order, even to an observer that panics, and nothing else retained changes |
| `RunEvidence.MutableRunEvidence.RecordPhase` | crates/cao-core/src/run/evidence.rs:418-445 | attempt phases enter here only skipped or planned; consistent evidence stays so |
| `RunEvidence.MutableRunEvidence.OpenProcessingAssets` | crates/cao-core/src/run/evidence.rs:798-828 | writes the routing before acceptance, which then cannot fail: retained with the phase it opens, or nothing changes |
| `RunEvidence.MutableRunEvidence.PlanArchiveFinalization` | crates/cao-core/src/run/evidence.rs:605-635 | the plan is recorded once, before any attempt, and whole or not at all |
| `RunEvidence.MutableRunEvidence.FinishArchiveFinalization` | crates/cao-core/src/run/evidence.rs:637-669 | finishes once, keeping the attempts as streamed |
| `RunEvidence.MutableRunEvidence.RecordAttempt` | crates/cao-core/src/run/evidence.rs:682-704 | an attempt is retained with its progress if and only if its phase is current, planned and not complete; refused, it leaves every fact |
| `RunHistory.Run` | crates/cao-core/src/run/evidence.rs:377-960 | any sequence of operations, refused ones among them, leaves consistent evidence in which every fact ever retained still stands |
| `RunHistory.ProgressCountsAttempts` | crates/cao-core/src/run/evidence.rs:682-704 | in all consistent evidence an executed phase's progress counts exactly its retained attempts and successes, within its total |
| `RunFacts.EvolutionIsTransitive` | crates/cao-core/src/run/evidence.rs:377-960 | what one state of a run holds, every later state holds |
| `MutationSummaries.Derive` | crates/cao-core/src/run/evidence.rs:997-1033 | a key is summarized exactly when it has a durable effect, by its true counts |
| `MutationSummaries.SummariesConserve` | crates/cao-core/src/run/evidence.rs:997-1033 | the summaries together count every durable effect once |
| `RunFactLaws.EveryEffectIsCounted` | crates/cao-core/src/run/evidence.rs:997-1033 | each kind's summary tallies exactly its own attempts, and finalization's also the effects recorded beside them |
| `RunFactLaws.LocalFailuresInOrder` | crates/cao-core/src/run/evidence.rs:974-981 | every attempt's own cleanup failures are sealed, in attempt order |
| `MutationSummaries.Consume` | crates/cao-core/src/run/evidence.rs:965-988 | evidence is sealed exactly in Safety Cleanup, with every retained fact, its summaries and the cleanup failures in order |

## Left out

- Windows itself: final path names, share modes, handles and volume queries. `canonical` is a function from texts to
  found, missing or refused; a volume probe and free space are functions.
- Containment in a Mod Root by `weakly_canonical`, an existing destination's own checks, and staging and device names:
  predicates the model is given (`admits`, `reserved`). What they accept is not modelled.
- A file's fingerprint is its bytes and its identity its object number; hash collisions and link counts are not
  modelled.
- Publishing checks its destination and renames in one step; others may act before it and after it, not within it.
- A panic of a reader, packer or backend is a failure of its step; its message is dropped, as all message texts are.
- Whether cancellation is seen is a function of the check that looks, in the preflight and in the pass, and a choice
  elsewhere. The model does not say that a cancelled token stays cancelled, and a preflight does not look between
  entries.
- The search for a free `.bak` name is one step: others may act before it and after it, not within it.
- Directories are there exactly above files: an empty one, as a failed merge may leave behind, is in nobody's way.
  Links, reparse points and names that differ only in case are not modelled, nor is the removal of staged files by
  Safety Cleanup.
- Extraction's disk holds one Mod Root's files, by their paths within it; passes over several Mod Roots are taken one by
  one. Publishing never replaces a file at exactly its path; room around it is looked for under the fold.
- The sort by key is an insertion sort, which is stable as the source's is; its cost is not modelled.
- Path and name lengths as UTF-8 are numbers a path carries; case folding is a function of one unit that keeps the
  separator, over strings of units.
- ArchivePacking.ArchiveData.CanAbsorbOther: requires the two sizes to add in 64 bits, which is proved of every split
  whose source bytes do, because the source's own sum is unchecked.
- ArchivePacking.Split: full Archives are kept as values once they are closed, because nothing adds to them any more.
- ArchiveWriting.CheckSizeCap: takes the written chunks' sum as the layout's size, because the `ba2` writer is foreign
  code; `ArchiveWriting.CheckPlanned` only adds them up again, so it is no result of its own.
- ArchiveDiscovery.RunPreflight: the order of the reported collisions, and the capacity verdict beside the plans, are
  not part of its result; the stage and mode table and the estimate formula are not modelled.
- Decompression, the text a MODL path's bytes stand for, and file bytes behind a plugin's reader: functions of bytes.
- Headparts.ReadHeadparts: reads the plugin from memory, so seeking past the end and read errors are not modelled.
- Log file bytes, timestamps, colours and rotation; a second attached feed. A log line's text is a function of its
  record.
- Skip counts of the routing ledger, and the presentation of evidence as text.
- Floating-point sizes, the Slint window, settings files, profiles, routing tables, and `ba2`, texture, mesh and
  animation code: they would add only easy members or are foreign.
