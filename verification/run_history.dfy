/** Whole runs of Run Evidence: whatever is recorded in whatever order, nothing retained is lost or rewritten. */
module RunHistory {
  import opened GamePaths
  import opened RunEvidence
  import opened RunFacts

  lemma {:induction false} ReportedEvolves(before: Storage, expected: Storage, actual: Storage, phase: Phase)
    requires Evolves(before, expected) && IsReported(expected, actual, phase)
    ensures Evolves(before, actual)
  {
  }

  /** Entering a phase beside once-only facts evolves, as they did. */
  lemma {:induction false} EnteringEvolves(before: Storage, with: Storage, actual: Storage, record: Record)
    requires AreCanonical(before.phases) && CanAccept(before.phases, record)
    requires Evolves(before, with) && with.phases == before.phases && IsEntered(with, actual, record)
    ensures Evolves(before, actual)
  {
    AcceptedEvolves(before.phases, record);
    ReportedEvolves(before, with.(phases := Accepted(with.phases, record)), actual, record.phase);
  }

  lemma {:induction false} AttemptEvolves(before: Storage, kind: Kind, attempt: Attempt, actual: Storage)
    requires IsConsistent(before) && CanAttempt(before, kind)
    requires IsReported(Attempted(before, kind, attempt), actual, PhaseOf(kind))
    ensures Evolves(before, actual)
  {
    AttemptIsAccepted(before, kind, attempt);
    AcceptedEvolves(before.phases, AttemptRecord(before, kind, attempt));
    AttemptsOfRetained(before, kind, attempt, Finalization);
    ReportedEvolves(before, Attempted(before, kind, attempt), actual, PhaseOf(kind));
  }

  lemma {:induction false} SamePhasesEvolve(phases: seq<Record>)
    ensures PhasesEvolve(phases, phases)
  {
  }

  datatype Report =
    | Retain(phase: Phase, detail: string)
    | Diagnose(phase: Phase, detail: string)
    | Publish
    | Fail(failure: Failure)

  datatype Fact =
    | Prepared(preparation: string)
    | Collided(collisions: seq<string>)
    | SkippedCounts(counts: map<string, nat>)
    | NestedCount(count: nat)
    | PlannedFrom(basis: string)
    | Cancelled

  datatype Item =
    | CleanupFailed(failure: Failure)
    | PlannedExtraction(extraction: string)
    | PlannedOutput(output: string)

  /** One operation of the evidence's producers. */
  datatype Step =
    | Entering(record: Record)
    | Opening(kind: Kind, total: nat, ledger: seq<string>)
    | Planning(total: nat)
    | Finishing(account: Account)
    | Attempting(kind: Kind, attempt: Attempt)
    | Reporting(report: Report)
    | Retaining(fact: Fact)
    | Appending(item: Item)

  predicate MayRoute(facts: Storage) {
    && IsCurrent(facts.phases, BuildingEffectiveAssetTree)
    && facts.skippedArchives.Some? && facts.nestedArchives.Some?
  }

  lemma {:induction false} RoutedEvolves(before: Storage, ledger: seq<string>)
    requires IsConsistent(before)
    ensures MayRoute(before) ==>
              && Evolves(before, before.(ledger := Some(ledger)))
              && CanAccept(before.phases, Executed(ProcessingAssets, Some(Progress(|ledger|, 0, 0))))
  {
    SamePhasesEvolve(before.phases);
    if MayRoute(before) {
      RoutingKeepsConsistent(before, ledger);
    }
  }

  lemma {:induction false} PlannedEvolves(before: Storage, total: nat)
    requires IsConsistent(before)
    ensures Evolves(before, before)
    ensures CanPlanFinalization(before) ==>
              && Evolves(before, before.(finalization := Some(FinalizationResult([], DEFAULT_ACCOUNT))))
              && CanAccept(before.phases, Executed(ArchiveFinalization, Some(Progress(total, 0, 0))))
  {
    SamePhasesEvolve(before.phases);
    if CanPlanFinalization(before) { PlanKeepsConsistent(before, total); }
  }

  /** Phases that are entered, opened or advanced. */
  method Enter(evidence: MutableRunEvidence, record: Record) returns (ok: bool)
    requires evidence.Valid()
    modifies evidence
    ensures evidence.Valid() && Evolves(old(evidence.storage), evidence.storage)
    ensures !ok ==> evidence.storage == old(evidence.storage)
  {
    ghost var before := evidence.storage;
    SamePhasesEvolve(before.phases);
    ok := evidence.RecordPhase(record);
    if ok { EnteringEvolves(before, before, evidence.storage, record); }
  }

  method Open(evidence: MutableRunEvidence, kind: Kind, total: nat, ledger: seq<string>) returns (ok: bool)
    requires evidence.Valid()
    modifies evidence
    ensures evidence.Valid() && Evolves(old(evidence.storage), evidence.storage)
    ensures !ok ==> evidence.storage == old(evidence.storage)
  {
    ghost var before := evidence.storage;
    SamePhasesEvolve(before.phases);
    match kind
    case Extraction =>
      ok := evidence.OpenArchiveExtraction(total);
      if ok {
        EnteringEvolves(before, before, evidence.storage, Executed(ExtractingArchives, Some(Progress(total, 0, 0))));
      }
    case Asset =>
      RoutedEvolves(before, ledger);
      ok := evidence.OpenProcessingAssets(ledger);
      if ok {
        EnteringEvolves(before, before.(ledger := Some(ledger)), evidence.storage,
                        Executed(ProcessingAssets, Some(Progress(|ledger|, 0, 0))));
      }
    case Finalization =>
      ok := evidence.OpenArchiveFinalization();
      if ok { EnteringEvolves(before, before, evidence.storage, Executed(ArchiveFinalization, None)); }
  }

  method Plan(evidence: MutableRunEvidence, total: nat) returns (ok: bool)
    requires evidence.Valid()
    modifies evidence
    ensures evidence.Valid() && Evolves(old(evidence.storage), evidence.storage)
    ensures !ok ==> evidence.storage == old(evidence.storage)
  {
    ghost var before := evidence.storage;
    PlannedEvolves(before, total);
    ok := evidence.PlanArchiveFinalization(total);
    if ok {
      EnteringEvolves(before, before.(finalization := Some(FinalizationResult([], DEFAULT_ACCOUNT))), evidence.storage,
                      Executed(ArchiveFinalization, Some(Progress(total, 0, 0))));
    }
  }

  method Finish(evidence: MutableRunEvidence, account: Account) returns (ok: bool)
    requires evidence.Valid()
    modifies evidence
    ensures evidence.Valid() && Evolves(old(evidence.storage), evidence.storage)
    ensures !ok ==> evidence.storage == old(evidence.storage)
  {
    SamePhasesEvolve(evidence.storage.phases);
    ok := evidence.FinishArchiveFinalization(account);
  }

  method TryAttempt(evidence: MutableRunEvidence, kind: Kind, attempt: Attempt) returns (ok: bool)
    requires evidence.Valid()
    modifies evidence
    ensures evidence.Valid() && Evolves(old(evidence.storage), evidence.storage)
    ensures !ok ==> evidence.storage == old(evidence.storage)
  {
    ghost var before := evidence.storage;
    SamePhasesEvolve(before.phases);
    ok := evidence.RecordAttempt(kind, attempt);
    if ok { AttemptEvolves(before, kind, attempt, evidence.storage); }
  }

  /** Diagnostics and failures, wherever they are reported, leave the rest as it was. */
  lemma {:induction false} ReportsEvolve(before: Storage, after: Storage)
    requires IsConsistent(before) && after == before.(diagnostics := after.diagnostics, failures := after.failures)
    requires before.diagnostics <= after.diagnostics && before.failures <= after.failures
    ensures Evolves(before, after)
  {
    SamePhasesEvolve(before.phases);
  }

  /** Diagnostics and failures. */
  method TakeReport(evidence: MutableRunEvidence, report: Report) returns (ok: bool)
    requires evidence.Valid()
    modifies evidence
    ensures evidence.Valid() && Evolves(old(evidence.storage), evidence.storage)
    ensures !ok ==> evidence.storage == old(evidence.storage)
  {
    ghost var before := evidence.storage;
    ok := true;
    match report {
      case Retain(phase, detail) => evidence.RetainDiagnostic(phase, detail);
      case Diagnose(phase, detail) => evidence.RecordDiagnostic(phase, detail);
      case Publish => evidence.PublishDiagnostics();
      case Fail(failure) => evidence.RecordFailure(failure);
    }
    ReportsEvolve(before, evidence.storage);
  }

  /** Once-only facts, wherever they are recorded, leave the rest as it was. */
  lemma {:induction false} FactsEvolve(before: Storage, after: Storage)
    requires IsConsistent(before) && after == before.(
               preparation := after.preparation, collisions := after.collisions,
               skippedArchives := after.skippedArchives, nestedArchives := after.nestedArchives,
               outputBasis := after.outputBasis, cancellationObserved := after.cancellationObserved)
    requires Keeps(before.preparation, after.preparation) && Keeps(before.collisions, after.collisions)
    requires Keeps(before.skippedArchives, after.skippedArchives) && Keeps(before.nestedArchives, after.nestedArchives)
    requires Keeps(before.outputBasis, after.outputBasis)
    requires before.cancellationObserved ==> after.cancellationObserved
    ensures Evolves(before, after)
  {
    SamePhasesEvolve(before.phases);
  }

  /** Facts recorded once, and lists that only grow. */
  method TakeFact(evidence: MutableRunEvidence, fact: Fact) returns (ok: bool)
    requires evidence.Valid()
    modifies evidence
    ensures evidence.Valid() && Evolves(old(evidence.storage), evidence.storage)
    ensures !ok ==> evidence.storage == old(evidence.storage)
  {
    ghost var before := evidence.storage;
    ok := true;
    match fact {
      case Prepared(preparation) => ok := evidence.RecordPreparation(preparation);
      case Collided(collisions) => ok := evidence.RecordArchiveCollisions(collisions);
      case SkippedCounts(counts) => ok := evidence.RecordSkippedArchives(counts);
      case NestedCount(count) => ok := evidence.RecordNestedArchives(count);
      case PlannedFrom(basis) => ok := evidence.RecordOutputPlanBasis(basis);
      case Cancelled => evidence.RecordCancellation();
    }
    FactsEvolve(before, evidence.storage);
  }

  method TakeItem(evidence: MutableRunEvidence, item: Item) returns (ok: bool)
    requires evidence.Valid()
    modifies evidence
    ensures evidence.Valid() && Evolves(old(evidence.storage), evidence.storage)
    ensures !ok ==> evidence.storage == old(evidence.storage)
  {
    SamePhasesEvolve(evidence.storage.phases);
    match item
    case CleanupFailed(failure) => ok := evidence.RecordSafetyCleanupFailure(failure);
    case PlannedExtraction(extraction) => ok := evidence.RecordPlannedExtraction(extraction);
    case PlannedOutput(output) => ok := evidence.RecordPlannedOutput(output);
  }

  method Take(evidence: MutableRunEvidence, step: Step) returns (ok: bool)
    requires evidence.Valid()
    modifies evidence
    ensures evidence.Valid() && Evolves(old(evidence.storage), evidence.storage)
    ensures !ok ==> evidence.storage == old(evidence.storage)
  {
    match step
    case Entering(record) => ok := Enter(evidence, record);
    case Opening(kind, total, ledger) => ok := Open(evidence, kind, total, ledger);
    case Planning(total) => ok := Plan(evidence, total);
    case Finishing(account) => ok := Finish(evidence, account);
    case Attempting(kind, attempt) => ok := TryAttempt(evidence, kind, attempt);
    case Reporting(report) => ok := TakeReport(evidence, report);
    case Retaining(fact) => ok := TakeFact(evidence, fact);
    case Appending(item) => ok := TakeItem(evidence, item);
  }

  /**
   * Any sequence of operations, refused ones among them, leaves consistent evidence that holds every fact retained on
   * the way.
   */
  method Run(evidence: MutableRunEvidence, steps: seq<Step>)
    requires evidence.Valid()
    modifies evidence
    ensures evidence.Valid() && Evolves(old(evidence.storage), evidence.storage)
  {
    ghost var first := evidence.storage;
    SamePhasesEvolve(first.phases);
    for i := 0 to |steps|
      invariant evidence.Valid() && Evolves(first, evidence.storage)
    {
      ghost var before := evidence.storage;
      var _ := Take(evidence, steps[i]);
      EvolutionIsTransitive(first, before, evidence.storage);
    }
  }

  /** In any reachable evidence, an executed phase with a total accounts for exactly its retained attempts. */
  lemma {:induction false} ProgressCountsAttempts(facts: Storage, kind: Kind, record: Record)
    requires IsConsistent(facts) && Find(facts.phases, PhaseOf(kind)) == Some(record) && ProgressOf(record).Some?
    ensures var progress := ProgressOf(record).value;
            && |AttemptsOf(facts, kind)| == progress.succeeded + progress.failed <= progress.total
            && Successes(AttemptsOf(facts, kind)) == progress.succeeded
  {
    FoundIsThere(facts.phases, PhaseOf(kind));
  }

  lemma {:induction false} FoundIsThere(phases: seq<Record>, phase: Phase)
    requires Find(phases, phase).Some?
    ensures exists i :: 0 <= i < |phases| && Some(phases[i]) == Find(phases, phase) && phases[i].phase == phase
  {
    if phases[|phases| - 1].phase != phase {
      FoundIsThere(phases[..|phases| - 1], phase);
      var i :| 0 <= i < |phases| - 1 && Some(phases[..|phases| - 1][i]) == Find(phases, phase);
      assert phases[i] == phases[..|phases| - 1][i];
    } else {
      assert Some(phases[|phases| - 1]) == Find(phases, phase);
    }
  }
}
