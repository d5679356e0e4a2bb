/** Run Evidence: the one mutable owner of a run's facts, whose every operation is retained whole or refused whole. */
module RunEvidence {
  import opened GamePaths
  import opened RunFacts

  class MutableRunEvidence {
    /** Whether anything observes this run. */
    const observed: bool
    var storage: Storage
    /** The diagnostics to publish, by position, and how many have been. */
    var publications: seq<nat>
    var published: nat
    /** What the observer was called with. */
    ghost var seenPhases: seq<Record>
    ghost var seenDiagnostics: seq<nat>

    ghost predicate Valid()
      reads this
    {
      && IsConsistent(storage) && IsQueued(storage.diagnostics, publications, published)
      && (observed ==> IsSeen(storage.phases, seenPhases) && HasSeen(seenDiagnostics, publications, published))
    }

    constructor (observed: bool)
      ensures Valid() && storage == Empty() && this.observed == observed && publications == []
    {
      this.observed := observed;
      storage, publications, published, seenPhases, seenDiagnostics := Empty(), [], 0, [], [];
    }

    // Publication.

    /** Calls the observer, containing its panic. */
    method ReportSafely(phase: Phase)
      modifies this`storage
      ensures IsReported(old(storage), storage, phase) && (!observed ==> storage == old(storage))
      ensures ReportedAt(storage.diagnostics) == ReportedAt(old(storage).diagnostics)
    {
      if observed {
        var panics: bool := *;
        if panics {
          OneMoreDiagnostic(storage.diagnostics, ObserverFailed(phase));
          storage := storage.(diagnostics := storage.diagnostics + [ObserverFailed(phase)]);
        }
      }
    }

    /** Accepts a record into the traversal; refuses it, changing nothing, when it cannot come next. */
    method Enter(record: Record) returns (ok: bool)
      modifies this`storage
      ensures ok <==> CanAccept(old(storage).phases, record)
      ensures !ok ==> storage == old(storage)
      ensures ok ==> storage == old(storage).(phases := Accepted(old(storage).phases, record))
    {
      if !HasValidProgress(record) { return false; }
      var latest := Current(storage.phases);
      if latest.None? {
        if record.phase != Preparing && record.phase != SafetyCleanup { return false; }
        if !StartsAtZero(record) { return false; }
        storage := storage.(phases := storage.phases + [record]);
      } else if latest.value.phase == record.phase {
        if !Advances(latest.value, record) { return false; }
        storage := storage.(phases := storage.phases[..|storage.phases| - 1] + [record]);
      } else {
        if Rank(record.phase) <= Rank(latest.value.phase) { return false; }
        if !StartsAtZero(record) { return false; }
        storage := storage.(phases := storage.phases + [record]);
      }
      ok := true;
    }

    /** Accepts a record, then publishes it. */
    method AcceptPhase(record: Record) returns (ok: bool)
      modifies this`storage, this`seenPhases
      ensures ok <==> CanAccept(old(storage).phases, record)
      ensures !ok ==> unchanged(this)
      ensures ok ==> IsEntered(old(storage), storage, record)
      ensures ok && observed ==> IsSeen(storage.phases, seenPhases) && seenPhases == old(seenPhases) + [record]
      ensures ReportedAt(storage.diagnostics) == ReportedAt(old(storage).diagnostics)
    {
      ok := Enter(record);
      if ok {
        if observed { seenPhases := seenPhases + [record]; }
        ReportSafely(record.phase);
      }
    }

    /** Writes facts that the phase's opening depends on, then accepts its record, which by then cannot fail. */
    method AcceptWith(facts: Storage, record: Record)
      requires facts.phases == storage.phases && facts.diagnostics == storage.diagnostics
      requires CanAccept(storage.phases, record)
      modifies this`storage, this`seenPhases
      ensures IsEntered(facts, storage, record)
      ensures observed ==> IsSeen(storage.phases, seenPhases) && seenPhases == old(seenPhases) + [record]
      ensures ReportedAt(storage.diagnostics) == ReportedAt(facts.diagnostics)
    {
      storage := facts;
      var _ := AcceptPhase(record);
    }

    /** Retains a diagnostic, leaving its publication for a later boundary. */
    method RetainDiagnostic(phase: Phase, detail: string)
      requires Valid()
      modifies this`storage, this`publications
      ensures Valid()
      ensures storage == old(storage).(diagnostics := old(storage).diagnostics + [Reported(phase, detail)])
      ensures publications == old(publications) + [|old(storage).diagnostics|]
    {
      ghost var _ := QueuedOneMore(storage, phase, detail, publications, published, seenDiagnostics);
      storage := storage.(diagnostics := storage.diagnostics + [Reported(phase, detail)]);
      publications := publications + [|storage.diagnostics| - 1];
    }

    /** Publishes the next diagnostic, claimed before the call, so an observer that fails cannot see it twice. */
    method PublishNext()
      requires Valid() && published < |publications|
      modifies this`storage, this`published, this`seenDiagnostics
      ensures Valid() && published == old(published) + 1
      ensures storage == old(storage)
           || (observed && exists phase ::
                 storage == old(storage).(diagnostics := old(storage).diagnostics + [ObserverFailed(phase)]))
    {
      var index := publications[published];
      ReportedAtIsInRange(storage.diagnostics, published);
      if observed {
        SeesNext(seenDiagnostics, publications, published);
        seenDiagnostics := seenDiagnostics + [index];
      }
      published := published + 1;
      var phase := storage.diagnostics[index].phase;
      ghost var before := storage;
      ReportSafely(phase);
      ReportingKeeps(before, storage, phase);
    }

    /** Brings the observer up to date: nothing twice, nothing skipped, even when it fails or asks for more. */
    method PublishDiagnostics()
      requires Valid()
      modifies this`storage, this`published, this`seenDiagnostics
      ensures Valid() && published == |publications|
      ensures observed ==> seenDiagnostics == publications
      ensures storage == old(storage).(diagnostics := storage.diagnostics)
      ensures old(storage).diagnostics <= storage.diagnostics
      ensures !observed ==> storage == old(storage)
    {
      while published < |publications|
        invariant Valid()
        invariant storage == old(storage).(diagnostics := storage.diagnostics)
        invariant old(storage).diagnostics <= storage.diagnostics
        invariant !observed ==> storage == old(storage)
        decreases |publications| - published
      {
        PublishNext();
      }
    }

    method RecordDiagnostic(phase: Phase, detail: string)
      requires Valid()
      modifies this`storage, this`publications, this`published, this`seenDiagnostics
      ensures Valid() && published == |publications|
      ensures publications == old(publications) + [|old(storage).diagnostics|]
      ensures old(storage).diagnostics + [Reported(phase, detail)] <= storage.diagnostics
      ensures storage == old(storage).(diagnostics := storage.diagnostics)
    {
      RetainDiagnostic(phase, detail);
      PublishDiagnostics();
    }

    method RecordFailure(failure: Failure)
      requires Valid()
      modifies this`storage
      ensures Valid()
      ensures IsReported(old(storage).(failures := old(storage).failures + [failure]), storage, failure.phase)
    {
      ghost var retained := storage.(failures := storage.failures + [failure]);
      BesideTheAccounts(storage, storage.diagnostics, storage.failures + [failure]);
      storage := storage.(failures := storage.failures + [failure]);
      ReportSafely(failure.phase);
      ReportingKeeps(retained, storage, failure.phase);
    }

    // Phases.

    /** Enters or updates a phase that no attempt handle owns: attempt phases enter here only skipped or planned. */
    method RecordPhase(record: Record) returns (ok: bool)
      requires Valid()
      modifies this`storage, this`seenPhases
      ensures Valid()
      ensures ok <==>
              && CanAccept(old(storage).phases, record)
              && (record.Executed? ==> !BearsAttempts(record.phase)) && (record.Planned? ==> IsPlannable(record.phase))
      ensures !ok ==> unchanged(this)
      ensures ok ==> IsEntered(old(storage), storage, record)
    {
      if record.Executed? && BearsAttempts(record.phase) { return false; }
      if record.Planned? && !IsPlannable(record.phase) { return false; }
      ghost var before := storage;
      ok := AcceptPhase(record);
      if ok {
        RecordReported(before, record, storage);
      }
    }

    /** Enters an attempt phase, once: not even a record that could replace its own is taken twice. */
    method OpenAttemptPhase(record: Record) returns (ok: bool)
      modifies this`storage, this`seenPhases
      ensures ok <==> Find(old(storage).phases, record.phase).None? && CanAccept(old(storage).phases, record)
      ensures !ok ==> unchanged(this)
      ensures ok ==> IsEntered(old(storage), storage, record)
      ensures ok && observed ==> IsSeen(storage.phases, seenPhases) && seenPhases == old(seenPhases) + [record]
      ensures ReportedAt(storage.diagnostics) == ReportedAt(old(storage).diagnostics)
    {
      if Find(storage.phases, record.phase).Some? { return false; }
      ok := AcceptPhase(record);
    }

    method OpenArchiveExtraction(total: nat) returns (ok: bool)
      requires Valid()
      modifies this`storage, this`seenPhases
      ensures Valid() && (!ok ==> unchanged(this))
      ensures ok <==> var record := Executed(ExtractingArchives, Some(Progress(total, 0, 0)));
                      Find(old(storage).phases, ExtractingArchives).None? && CanAccept(old(storage).phases, record)
      ensures ok ==> IsEntered(old(storage), storage, Executed(ExtractingArchives, Some(Progress(total, 0, 0))))
    {
      ghost var before := storage;
      var record := Executed(ExtractingArchives, Some(Progress(total, 0, 0)));
      ok := OpenAttemptPhase(record);
      if ok {
        OpeningReported(before, Extraction, Some(Progress(total, 0, 0)), storage);
      }
    }

    /** Archive Finalization opens unplanned: its total is known only once it has planned. */
    method OpenArchiveFinalization() returns (ok: bool)
      requires Valid()
      modifies this`storage, this`seenPhases
      ensures Valid() && (!ok ==> unchanged(this))
      ensures ok <==> var record := Executed(ArchiveFinalization, None);
                      Find(old(storage).phases, ArchiveFinalization).None? && CanAccept(old(storage).phases, record)
      ensures ok ==> IsEntered(old(storage), storage, Executed(ArchiveFinalization, None))
    {
      ghost var before := storage;
      var record := Executed(ArchiveFinalization, None);
      ok := OpenAttemptPhase(record);
      if ok {
        OpeningReported(before, Finalization, None, storage);
      }
    }

    /**
     * Retains definitive routing and opens Processing Assets against its routed total. Routing is written before the
     * phase is accepted, which by then cannot fail.
     */
    method OpenProcessingAssets(ledger: seq<string>) returns (ok: bool)
      requires Valid()
      modifies this`storage, this`seenPhases
      ensures Valid() && (!ok ==> unchanged(this))
      ensures ok <==>
              && IsCurrent(old(storage).phases, BuildingEffectiveAssetTree) && old(storage).failures == []
              && old(storage).skippedArchives.Some? && old(storage).nestedArchives.Some?
      ensures ok ==> IsEntered(old(storage).(ledger := Some(ledger)), storage,
                               Executed(ProcessingAssets, Some(Progress(|ledger|, 0, 0))))
    {
      if !IsCurrent(storage.phases, BuildingEffectiveAssetTree) || storage.skippedArchives.None?
         || storage.nestedArchives.None? || storage.failures != [] {
        return false;
      }
      var record := Executed(ProcessingAssets, Some(Progress(|ledger|, 0, 0)));
      NothingBeforeRouting(storage, record);
      if storage.ledger.Some? { return false; }
      ghost var before := storage;
      AcceptWith(storage.(ledger := Some(ledger)), record);
      RoutingReported(before, ledger, storage);
      ok := true;
    }

    /** The output total, recorded once, before any attempt. */
    method PlanArchiveFinalization(total: nat) returns (ok: bool)
      requires Valid()
      modifies this`storage, this`seenPhases
      ensures Valid() && (!ok ==> unchanged(this))
      ensures ok <==> CanPlanFinalization(old(storage))
      ensures ok ==> IsEntered(old(storage).(finalization := Some(FinalizationResult([], DEFAULT_ACCOUNT))), storage,
                               Executed(ArchiveFinalization, Some(Progress(total, 0, 0))))
    {
      if !CanPlanFinalization(storage) { return false; }
      ghost var before := storage;
      var record := Executed(ArchiveFinalization, Some(Progress(total, 0, 0)));
      var result := FinalizationResult([], DEFAULT_ACCOUNT);
      NothingBeforePlan(before, record);
      AcceptWith(storage.(finalization := Some(result)), record);
      PlanReported(before, total, storage);
      ok := true;
    }

    /** Finishes Archive Finalization, once, planned or not; the attempts stay as streamed. */
    method FinishArchiveFinalization(account: Account) returns (ok: bool)
      requires Valid()
      modifies this`storage
      ensures Valid() && (!ok ==> unchanged(this))
      ensures ok <==> !old(storage).finalizationCompleted && Current(old(storage).phases).Some?
                      && Current(old(storage).phases).value.phase == ArchiveFinalization
                      && Current(old(storage).phases).value.Executed?
      ensures ok ==> storage == old(storage).(
                finalization := Some(FinalizationResult(AttemptsOf(old(storage), Finalization), account)),
                finalizationCompleted := true,
                cancellationObserved := old(storage).cancellationObserved || account.cancelled)
    {
      var current := Current(storage.phases);
      var executing := current.Some? && current.value.phase == ArchiveFinalization && current.value.Executed?;
      if storage.finalizationCompleted || !executing { return false; }
      var attempts := if storage.finalization.Some? then storage.finalization.value.attempts else [];
      storage := storage.(finalization := Some(FinalizationResult(attempts, account)));
      if account.cancelled { storage := storage.(cancellationObserved := true); }
      storage := storage.(finalizationCompleted := true);
      ok := true;
    }

    /**
     * The one progress step of every attempt kind: an attempt beyond its phase's total is refused; otherwise it is
     * retained, and progress advanced by one, which by then cannot fail.
     */
    method RecordAttempt(kind: Kind, attempt: Attempt) returns (ok: bool)
      requires Valid()
      modifies this`storage, this`seenPhases
      ensures Valid() && (!ok ==> unchanged(this))
      ensures ok <==> CanAttempt(old(storage), kind)
      ensures ok ==> IsReported(Attempted(old(storage), kind, attempt), storage, PhaseOf(kind))
    {
      var current := Current(storage.phases);
      if current.None? || current.value.phase != PhaseOf(kind) || !current.value.Executed? { return false; }
      if current.value.progress.None? { return false; }
      var progress := current.value.progress.value;
      if progress.Completed() >= progress.total { return false; }
      ghost var before := storage;
      var record := Executed(PhaseOf(kind), Some(AfterAttempt(progress, attempt.outcome.Succeeded?)));
      AttemptIsAccepted(before, kind, attempt);
      ok := RetainAttempt(kind, attempt, record);
      AttemptReported(before, kind, attempt, storage);
    }

    /** Retains the attempt in its kind's own list, then has its progress accepted. */
    method RetainAttempt(kind: Kind, attempt: Attempt, record: Record) returns (ok: bool)
      requires CanAttempt(storage, kind) && record == AttemptRecord(storage, kind, attempt)
      requires CanAccept(storage.phases, record)
      modifies this`storage, this`seenPhases
      ensures ok && IsReported(Attempted(old(storage), kind, attempt), storage, PhaseOf(kind))
      ensures observed ==> IsSeen(storage.phases, seenPhases)
      ensures ReportedAt(storage.diagnostics) == ReportedAt(old(storage).diagnostics)
    {
      storage := Retained(storage, kind, attempt);
      ok := AcceptPhase(record);
    }

    // Once-only facts.

    method RecordPreparation(preparation: string) returns (ok: bool)
      requires Valid()
      modifies this`storage
      ensures Valid() && (!ok ==> unchanged(this))
      ensures ok <==> old(storage).preparation.None? && IsCurrent(old(storage).phases, Preparing)
      ensures ok ==> storage == old(storage).(preparation := Some(preparation))
    {
      if storage.preparation.Some? || !IsCurrent(storage.phases, Preparing) { return false; }
      storage := storage.(preparation := Some(preparation));
      ok := true;
    }

    method RecordArchiveCollisions(collisions: seq<string>) returns (ok: bool)
      requires Valid()
      modifies this`storage
      ensures Valid() && (!ok ==> unchanged(this))
      ensures ok <==> IsCurrent(old(storage).phases, DiscoveringArchives) && old(storage).collisions.None?
      ensures ok ==> storage == old(storage).(collisions := Some(collisions))
    {
      if !IsCurrent(storage.phases, DiscoveringArchives) || storage.collisions.Some? { return false; }
      storage := storage.(collisions := Some(collisions));
      ok := true;
    }

    /** Whether the current phase is one of Archive discovery's. */
    predicate DiscoveringNow()
      reads this
    {
      Current(storage.phases).Some?
      && Rank(DiscoveringArchives) <= Rank(Current(storage.phases).value.phase) <= Rank(BuildingEffectiveAssetTree)
    }

    method RecordSkippedArchives(counts: map<string, nat>) returns (ok: bool)
      requires Valid()
      modifies this`storage
      ensures Valid() && (!ok ==> unchanged(this))
      ensures ok <==> IsDiscovering(old(storage).phases) && old(storage).skippedArchives.None?
      ensures ok ==> storage == old(storage).(skippedArchives := Some(counts))
    {
      if !DiscoveringNow() || storage.skippedArchives.Some? { return false; }
      storage := storage.(skippedArchives := Some(counts));
      ok := true;
    }

    method RecordNestedArchives(count: nat) returns (ok: bool)
      requires Valid()
      modifies this`storage
      ensures Valid() && (!ok ==> unchanged(this))
      ensures ok <==> IsDiscovering(old(storage).phases) && old(storage).nestedArchives.None?
      ensures ok ==> storage == old(storage).(nestedArchives := Some(count))
    {
      if !DiscoveringNow() || storage.nestedArchives.Some? { return false; }
      storage := storage.(nestedArchives := Some(count));
      ok := true;
    }

    method RecordPlannedExtraction(extraction: string) returns (ok: bool)
      requires Valid()
      modifies this`storage
      ensures Valid() && (!ok ==> unchanged(this))
      ensures ok <==> Current(old(storage).phases) == Some(Planned(ExtractingArchives))
      ensures ok ==> storage == old(storage).(plannedExtractions := old(storage).plannedExtractions + [extraction])
    {
      if Current(storage.phases) != Some(Planned(ExtractingArchives)) { return false; }
      storage := storage.(plannedExtractions := storage.plannedExtractions + [extraction]);
      ok := true;
    }

    method RecordOutputPlanBasis(basis: string) returns (ok: bool)
      requires Valid()
      modifies this`storage
      ensures Valid() && (!ok ==> unchanged(this))
      ensures ok
         <==> Current(old(storage).phases) == Some(Planned(ArchiveFinalization)) && old(storage).outputBasis.None?
      ensures ok ==> storage == old(storage).(outputBasis := Some(basis))
    {
      if Current(storage.phases) != Some(Planned(ArchiveFinalization)) || storage.outputBasis.Some? { return false; }
      storage := storage.(outputBasis := Some(basis));
      ok := true;
    }

    method RecordPlannedOutput(output: string) returns (ok: bool)
      requires Valid()
      modifies this`storage
      ensures Valid() && (!ok ==> unchanged(this))
      ensures ok
         <==> Current(old(storage).phases) == Some(Planned(ArchiveFinalization)) && old(storage).outputBasis.Some?
      ensures ok ==> storage == old(storage).(plannedOutputs := old(storage).plannedOutputs + [output])
    {
      if Current(storage.phases) != Some(Planned(ArchiveFinalization)) || storage.outputBasis.None? { return false; }
      storage := storage.(plannedOutputs := storage.plannedOutputs + [output]);
      ok := true;
    }

    method RecordSafetyCleanupFailure(failure: Failure) returns (ok: bool)
      requires Valid()
      modifies this`storage
      ensures Valid() && (!ok ==> unchanged(this))
      ensures ok
         <==> IsCurrent(old(storage).phases, SafetyCleanup) && failure.phase == SafetyCleanup && failure.cleanupCode
      ensures ok ==> storage == old(storage).(cleanupFailures := old(storage).cleanupFailures + [failure])
    {
      if !IsCurrent(storage.phases, SafetyCleanup) || failure.phase != SafetyCleanup || !failure.cleanupCode {
        return false;
      }
      storage := storage.(cleanupFailures := storage.cleanupFailures + [failure]);
      ok := true;
    }

    method RecordCancellation()
      requires Valid()
      modifies this`storage
      ensures Valid()
      ensures storage == old(storage).(cancellationObserved := true)
    {
      storage := storage.(cancellationObserved := true);
    }
  }

  lemma {:induction false} RecordReported(facts: Storage, record: Record, actual: Storage)
    requires IsConsistent(facts) && CanAccept(facts.phases, record) && IsEntered(facts, actual, record)
    requires (record.Executed? ==> !BearsAttempts(record.phase)) && (record.Planned? ==> IsPlannable(record.phase))
    ensures IsConsistent(actual)
  {
    AcceptKeepsConsistent(facts, record);
    ReportingKeeps(facts.(phases := Accepted(facts.phases, record)), actual, record.phase);
  }

  lemma {:induction false} OpeningReported(facts: Storage, kind: Kind, progress: Option<Progress>, actual: Storage)
    requires IsConsistent(facts) && kind != Asset && Find(facts.phases, PhaseOf(kind)).None?
    requires CanAccept(facts.phases, Executed(PhaseOf(kind), progress))
    requires StartsAtZero(Executed(PhaseOf(kind), progress))
    requires kind == Finalization ==> progress.None?
    requires IsEntered(facts, actual, Executed(PhaseOf(kind), progress))
    ensures IsConsistent(actual)
  {
    OpeningKeepsConsistent(facts, kind, progress);
    ReportingKeeps(facts.(phases := Accepted(facts.phases, Executed(PhaseOf(kind), progress))), actual, PhaseOf(kind));
  }

  lemma {:induction false} RoutingReported(facts: Storage, ledger: seq<string>, actual: Storage)
    requires IsConsistent(facts) && IsCurrent(facts.phases, BuildingEffectiveAssetTree)
    requires facts.skippedArchives.Some? && facts.nestedArchives.Some?
    requires IsEntered(facts.(ledger := Some(ledger)), actual,
                       Executed(ProcessingAssets, Some(Progress(|ledger|, 0, 0))))
    ensures IsConsistent(actual)
  {
    var record := Executed(ProcessingAssets, Some(Progress(|ledger|, 0, 0)));
    RoutingKeepsConsistent(facts, ledger);
    ReportingKeeps(facts.(ledger := Some(ledger), phases := Accepted(facts.phases, record)), actual, ProcessingAssets);
  }

  lemma {:induction false} PlanReported(facts: Storage, total: nat, actual: Storage)
    requires IsConsistent(facts) && CanPlanFinalization(facts)
    requires IsEntered(facts.(finalization := Some(FinalizationResult([], DEFAULT_ACCOUNT))), actual,
                       Executed(ArchiveFinalization, Some(Progress(total, 0, 0))))
    ensures IsConsistent(actual)
  {
    var record := Executed(ArchiveFinalization, Some(Progress(total, 0, 0)));
    PlanKeepsConsistent(facts, total);
    ReportingKeeps(facts.(finalization := Some(FinalizationResult([], DEFAULT_ACCOUNT)),
                          phases := Accepted(facts.phases, record)), actual, ArchiveFinalization);
  }

  lemma {:induction false} AttemptReported(facts: Storage, kind: Kind, attempt: Attempt, actual: Storage)
    requires IsConsistent(facts) && CanAttempt(facts, kind)
    requires IsReported(Attempted(facts, kind, attempt), actual, PhaseOf(kind))
    ensures IsConsistent(actual)
  {
    AttemptKeepsConsistent(facts, kind, attempt);
    ReportingKeeps(Attempted(facts, kind, attempt), actual, PhaseOf(kind));
  }
}
