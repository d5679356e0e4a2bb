/** What one Optimization Run retains: its phases, attempts and once-only facts, and what makes them consistent. */
module RunFacts {
  import opened Attempts
  import opened GamePaths

  datatype Phase =
    | Preparing | DiscoveringArchives | ExtractingArchives | BuildingEffectiveAssetTree
    | ProcessingAssets | ArchiveFinalization | SafetyCleanup

  /** The canonical traversal order. */
  function Rank(phase: Phase): nat {
    match phase
    case Preparing => 0
    case DiscoveringArchives => 1
    case ExtractingArchives => 2
    case BuildingEffectiveAssetTree => 3
    case ProcessingAssets => 4
    case ArchiveFinalization => 5
    case SafetyCleanup => 6
  }

  datatype Progress = Progress(total: nat, succeeded: nat, failed: nat)
  {
    function Completed(): nat { succeeded + failed }
  }

  /** A traversed phase: only an executed one can account progress, and only a skipped one has a reason. */
  datatype Record =
    | Executed(phase: Phase, progress: Option<Progress>)
    | Skipped(phase: Phase, reason: string)
    | Planned(phase: Phase)

  function ProgressOf(record: Record): Option<Progress> {
    if record.Executed? then record.progress else None
  }

  datatype Kind = Extraction | Asset | Finalization

  function PhaseOf(kind: Kind): Phase {
    match kind
    case Extraction => ExtractingArchives
    case Asset => ProcessingAssets
    case Finalization => ArchiveFinalization
  }

  predicate BearsAttempts(phase: Phase) {
    phase == ExtractingArchives || phase == ProcessingAssets || phase == ArchiveFinalization
  }

  predicate IsPlannable(phase: Phase) {
    phase == ExtractingArchives || phase == ArchiveFinalization
  }

  datatype Attempt = Attempt(root: string, outcome: Outcome<string>, cleanupFailures: seq<string>)

  /** A durable effect of finalization outside its output attempts. */
  datatype Effect = Effect(root: string, mutation: Mutation, count: nat)

  datatype Account = Account(failed: bool, cancelled: bool, safeToContinue: bool, effects: seq<Effect>)

  /** Before the phase finishes, the account is the default one. */
  datatype FinalizationResult = FinalizationResult(attempts: seq<Attempt>, account: Account)

  const DEFAULT_ACCOUNT := Account(false, false, true, [])

  datatype Diagnostic = Reported(phase: Phase, detail: string) | ObserverFailed(phase: Phase)

  datatype Failure = Failure(phase: Phase, cleanupCode: bool, detail: string)

  datatype Storage = Storage(
    preparation: Option<string>,
    phases: seq<Record>,
    diagnostics: seq<Diagnostic>,
    failures: seq<Failure>,
    collisions: Option<seq<string>>,
    extractionAttempts: seq<Attempt>,
    skippedArchives: Option<map<string, nat>>,
    nestedArchives: Option<nat>,
    ledger: Option<seq<string>>,
    assetAttempts: seq<Attempt>,
    finalization: Option<FinalizationResult>,
    finalizationCompleted: bool,
    plannedExtractions: seq<string>,
    outputBasis: Option<string>,
    plannedOutputs: seq<string>,
    cleanupFailures: seq<Failure>,
    cancellationObserved: bool)

  function Empty(): Storage {
    Storage(None, [], [], [], None, [], None, None, None, [], None, false, [], None, [], [], false)
  }

  function AttemptsOf(facts: Storage, kind: Kind): seq<Attempt> {
    match kind
    case Extraction => facts.extractionAttempts
    case Asset => facts.assetAttempts
    case Finalization => if facts.finalization.Some? then facts.finalization.value.attempts else []
  }

  function Retained(facts: Storage, kind: Kind, attempt: Attempt): Storage {
    match kind
    case Extraction => facts.(extractionAttempts := facts.extractionAttempts + [attempt])
    case Asset => facts.(assetAttempts := facts.assetAttempts + [attempt])
    case Finalization =>
      var empty := FinalizationResult([], DEFAULT_ACCOUNT);
      var result := if facts.finalization.Some? then facts.finalization.value else empty;
      facts.(finalization := Some(result.(attempts := result.attempts + [attempt])))
  }

  function Successes(attempts: seq<Attempt>): nat {
    if attempts == [] then 0
    else Successes(attempts[..|attempts| - 1]) + if attempts[|attempts| - 1].outcome.Succeeded? then 1 else 0
  }

  // Phases.

  function Find(phases: seq<Record>, phase: Phase): Option<Record> {
    if phases == [] then None
    else if phases[|phases| - 1].phase == phase then Some(phases[|phases| - 1])
    else Find(phases[..|phases| - 1], phase)
  }

  function Current(phases: seq<Record>): Option<Record> {
    if phases == [] then None else Some(phases[|phases| - 1])
  }

  predicate IsCurrent(phases: seq<Record>, phase: Phase) {
    Current(phases).Some? && Current(phases).value.phase == phase
  }

  /** The current phase finds Archives, extracts them, or looks for those that extraction brought. */
  predicate IsDiscovering(phases: seq<Record>) {
    || IsCurrent(phases, DiscoveringArchives) || IsCurrent(phases, ExtractingArchives)
    || IsCurrent(phases, BuildingEffectiveAssetTree)
  }

  predicate HasValidProgress(record: Record) {
    ProgressOf(record).Some? ==> ProgressOf(record).value.Completed() <= ProgressOf(record).value.total
  }

  predicate StartsAtZero(record: Record) {
    ProgressOf(record).Some? ==> ProgressOf(record).value.Completed() == 0
  }

  /** A replacement of the current record: same status and reason, and progress that only advances against one total. */
  predicate Advances(before: Record, after: Record) {
    && before.phase == after.phase
    && (before.Skipped? <==> after.Skipped?) && (before.Planned? <==> after.Planned?)
    && (before.Skipped? ==> before.reason == after.reason)
    && (if ProgressOf(before).None? then StartsAtZero(after)
        else
          && ProgressOf(after).Some?
          && ProgressOf(after).value.total == ProgressOf(before).value.total
          && ProgressOf(after).value.succeeded >= ProgressOf(before).value.succeeded
          && ProgressOf(after).value.failed >= ProgressOf(before).value.failed)
  }

  /** Canonical traversal: what may come next, or replace the current record. */
  predicate CanAccept(phases: seq<Record>, record: Record) {
    && HasValidProgress(record)
    && (if phases == [] then (record.phase == Preparing || record.phase == SafetyCleanup) && StartsAtZero(record)
        else
          var latest := phases[|phases| - 1];
          if latest.phase == record.phase then Advances(latest, record)
          else Rank(record.phase) > Rank(latest.phase) && StartsAtZero(record))
  }

  function Accepted(phases: seq<Record>, record: Record): seq<Record> {
    if IsCurrent(phases, record.phase) then phases[..|phases| - 1] + [record] else phases + [record]
  }

  ghost predicate AreCanonical(phases: seq<Record>) {
    && (forall i, j :: 0 <= i < j < |phases| ==> Rank(phases[i].phase) < Rank(phases[j].phase))
    && (forall i :: 0 <= i < |phases| ==> HasValidProgress(phases[i]))
    && (phases != [] ==> phases[0].phase == Preparing || phases[0].phase == SafetyCleanup)
  }

  lemma {:induction false} AcceptedIsCanonical(phases: seq<Record>, record: Record)
    requires AreCanonical(phases) && CanAccept(phases, record)
    ensures AreCanonical(Accepted(phases, record))
  {
    var after, n := Accepted(phases, record), |Accepted(phases, record)| - 1;
    forall i | 0 <= i < n ensures Rank(after[i].phase) < Rank(record.phase) {
      if !IsCurrent(phases, record.phase) {
        assert i == |phases| - 1 || Rank(phases[i].phase) < Rank(phases[|phases| - 1].phase);
      }
    }
  }

  lemma {:induction false} RanksAboveAreAbsent(phases: seq<Record>, phase: Phase)
    requires forall i :: 0 <= i < |phases| ==> Rank(phases[i].phase) < Rank(phase)
    ensures Find(phases, phase).None?
  {
    if phases != [] { RanksAboveAreAbsent(phases[..|phases| - 1], phase); }
  }

  /** Accepting a record changes what is found for its own phase, and for no other. */
  lemma {:induction false} FindAccepted(phases: seq<Record>, record: Record, phase: Phase)
    requires AreCanonical(phases) && CanAccept(phases, record)
    ensures Find(Accepted(phases, record), phase) == if phase == record.phase then Some(record) else Find(phases, phase)
    ensures !IsCurrent(phases, record.phase) ==> Find(phases, record.phase).None?
    ensures IsCurrent(phases, record.phase) ==> Find(phases, record.phase) == Current(phases)
  {
    var after := Accepted(phases, record);
    assert after[..|after| - 1] == if IsCurrent(phases, record.phase) then phases[..|phases| - 1] else phases;
    if !IsCurrent(phases, record.phase) { RanksAboveAreAbsent(phases, record.phase); }
  }

  // Consistency.

  /** The retained attempts are exactly those that the phase's progress accounts for. */
  ghost predicate IsAccounted(facts: Storage, kind: Kind) {
    var record := Find(facts.phases, PhaseOf(kind));
    var attempts := AttemptsOf(facts, kind);
    if record.Some? && ProgressOf(record.value).Some? then
      && |attempts| == ProgressOf(record.value).value.Completed()
      && Successes(attempts) == ProgressOf(record.value).value.succeeded
    else attempts == []
  }

  /** Definitive routing is retained exactly when Processing Assets was opened, against its routed total. */
  ghost predicate IsRouted(facts: Storage) {
    var record := Find(facts.phases, ProcessingAssets);
    && (facts.ledger.Some? <==> record.Some? && record.value.Executed?)
    && (facts.ledger.Some? ==>
          && ProgressOf(record.value).Some? && ProgressOf(record.value).value.total == |facts.ledger.value|
          && facts.skippedArchives.Some? && facts.nestedArchives.Some?)
  }

  ghost predicate IsFinalized(facts: Storage) {
    var record := Find(facts.phases, ArchiveFinalization);
    && (facts.finalization.Some? ==> record.Some? && record.value.Executed?)
    && (record.Some? && ProgressOf(record.value).Some? ==> facts.finalization.Some?)
    && (facts.finalization.Some? && ProgressOf(record.value).None? ==> facts.finalizationCompleted)
    && (facts.finalizationCompleted ==> facts.finalization.Some?)
    && (facts.finalization.Some? && !facts.finalizationCompleted ==>
          facts.finalization.value.account == DEFAULT_ACCOUNT)
  }

  ghost predicate IsPlannedWork(facts: Storage) {
    && (facts.plannedExtractions != [] ==> Find(facts.phases, ExtractingArchives) == Some(Planned(ExtractingArchives)))
    && (facts.plannedOutputs != [] ==> facts.outputBasis.Some?)
    && (facts.outputBasis.Some? ==> Find(facts.phases, ArchiveFinalization) == Some(Planned(ArchiveFinalization)))
  }

  ghost predicate IsConsistent(facts: Storage) {
    && AreCanonical(facts.phases)
    && IsAccounted(facts, Extraction) && IsAccounted(facts, Asset) && IsAccounted(facts, Finalization)
    && IsRouted(facts) && IsFinalized(facts) && IsPlannedWork(facts)
  }

  lemma {:induction false} SuccessesOfOneMore(attempts: seq<Attempt>, attempt: Attempt)
    ensures Successes(attempts + [attempt]) == Successes(attempts) + if attempt.outcome.Succeeded? then 1 else 0
  {
    assert (attempts + [attempt])[..|attempts|] == attempts;
  }

  /** A record that opens or advances no attempt phase leaves every account as it was. */
  lemma {:induction false} AcceptKeepsConsistent(facts: Storage, record: Record)
    requires IsConsistent(facts) && CanAccept(facts.phases, record)
    requires record.Executed? ==> !BearsAttempts(record.phase)
    requires record.Planned? ==> IsPlannable(record.phase)
    ensures IsConsistent(facts.(phases := Accepted(facts.phases, record)))
  {
    AcceptedIsCanonical(facts.phases, record);
    FindAccepted(facts.phases, record, ExtractingArchives);
    FindAccepted(facts.phases, record, ProcessingAssets);
    FindAccepted(facts.phases, record, ArchiveFinalization);
  }

  /** Opening an attempt phase starts its account at nothing. */
  lemma {:induction false} OpeningKeepsConsistent(facts: Storage, kind: Kind, progress: Option<Progress>)
    requires IsConsistent(facts) && kind != Asset && Find(facts.phases, PhaseOf(kind)).None?
    requires var record := Executed(PhaseOf(kind), progress); CanAccept(facts.phases, record) && StartsAtZero(record)
    requires kind == Finalization ==> progress.None?
    ensures IsConsistent(facts.(phases := Accepted(facts.phases, Executed(PhaseOf(kind), progress))))
  {
    var record := Executed(PhaseOf(kind), progress);
    AcceptedIsCanonical(facts.phases, record);
    FindAccepted(facts.phases, record, ExtractingArchives);
    FindAccepted(facts.phases, record, ProcessingAssets);
    FindAccepted(facts.phases, record, ArchiveFinalization);
  }

  /** The current phase of an attempt kind, executed and planned, with room for another attempt. */
  predicate CanAttempt(facts: Storage, kind: Kind) {
    && IsCurrent(facts.phases, PhaseOf(kind))
    && ProgressOf(Current(facts.phases).value).Some?
    && var progress := ProgressOf(Current(facts.phases).value).value; progress.Completed() < progress.total
  }

  function AfterAttempt(progress: Progress, succeeded: bool): Progress {
    if succeeded then progress.(succeeded := progress.succeeded + 1) else progress.(failed := progress.failed + 1)
  }

  /** The progress record that one more attempt publishes. */
  function AttemptRecord(facts: Storage, kind: Kind, attempt: Attempt): Record
    requires CanAttempt(facts, kind)
  {
    var progress := ProgressOf(Current(facts.phases).value).value;
    Executed(PhaseOf(kind), Some(AfterAttempt(progress, attempt.outcome.Succeeded?)))
  }

  lemma {:induction false} AttemptIsAccepted(facts: Storage, kind: Kind, attempt: Attempt)
    requires IsConsistent(facts) && CanAttempt(facts, kind)
    ensures CanAccept(facts.phases, AttemptRecord(facts, kind, attempt))
  {
  }

  lemma {:induction false} AttemptsOfRetained(facts: Storage, kind: Kind, attempt: Attempt, other: Kind)
    ensures AttemptsOf(Retained(facts, kind, attempt), other)
         == AttemptsOf(facts, other) + if other == kind then [attempt] else []
  {
  }

  function Attempted(facts: Storage, kind: Kind, attempt: Attempt): Storage
    requires CanAttempt(facts, kind)
  {
    Retained(facts, kind, attempt).(phases := Accepted(facts.phases, AttemptRecord(facts, kind, attempt)))
  }

  lemma {:induction false} AttemptIsAccounted(facts: Storage, kind: Kind, attempt: Attempt, other: Kind)
    requires IsConsistent(facts) && CanAttempt(facts, kind)
    ensures IsAccounted(Attempted(facts, kind, attempt), other)
  {
    var record, after := AttemptRecord(facts, kind, attempt), Attempted(facts, kind, attempt);
    AttemptIsAccepted(facts, kind, attempt);
    FindAccepted(facts.phases, record, PhaseOf(other));
    AttemptsOfRetained(facts, kind, attempt, other);
    assert AttemptsOf(after, other) == AttemptsOf(Retained(facts, kind, attempt), other);
    if other == kind {
      OneMoreAccounted(facts, after, kind, attempt);
    } else {
      SameAccount(facts, after, other);
    }
  }

  lemma {:induction false} SameAccount(before: Storage, after: Storage, kind: Kind)
    requires IsAccounted(before, kind) && Find(after.phases, PhaseOf(kind)) == Find(before.phases, PhaseOf(kind))
    requires AttemptsOf(after, kind) == AttemptsOf(before, kind)
    ensures IsAccounted(after, kind)
  {
  }

  lemma {:induction false} OneMoreAccounted(before: Storage, after: Storage, kind: Kind, attempt: Attempt)
    requires IsAccounted(before, kind) && CanAttempt(before, kind)
    requires Find(before.phases, PhaseOf(kind)) == Current(before.phases)
    requires Find(after.phases, PhaseOf(kind)) == Some(AttemptRecord(before, kind, attempt))
    requires AttemptsOf(after, kind) == AttemptsOf(before, kind) + [attempt]
    ensures IsAccounted(after, kind)
  {
    SuccessesOfOneMore(AttemptsOf(before, kind), attempt);
  }

  /** Retaining an attempt and advancing its phase's progress keep them in step. */
  lemma {:induction false} AttemptKeepsConsistent(facts: Storage, kind: Kind, attempt: Attempt)
    requires IsConsistent(facts) && CanAttempt(facts, kind)
    ensures IsConsistent(Attempted(facts, kind, attempt))
  {
    var record := AttemptRecord(facts, kind, attempt);
    AttemptIsAccepted(facts, kind, attempt);
    AcceptedIsCanonical(facts.phases, record);
    AttemptIsAccounted(facts, kind, attempt, Extraction);
    AttemptIsAccounted(facts, kind, attempt, Asset);
    AttemptIsAccounted(facts, kind, attempt, Finalization);
    FindAccepted(facts.phases, record, ExtractingArchives);
    FindAccepted(facts.phases, record, ProcessingAssets);
    FindAccepted(facts.phases, record, ArchiveFinalization);
  }

  /** Routing is the first thing known of Processing Assets, whose phase then opens. */
  lemma {:induction false} NothingBeforeRouting(facts: Storage, record: Record)
    requires IsConsistent(facts) && IsCurrent(facts.phases, BuildingEffectiveAssetTree)
    requires record.phase == ProcessingAssets && StartsAtZero(record)
    ensures CanAccept(facts.phases, record) && Find(facts.phases, ProcessingAssets).None? && facts.ledger.None?
  {
    FindAccepted(facts.phases, record, ProcessingAssets);
  }

  /** Routing is retained with the phase it opens. */
  lemma {:induction false} RoutingKeepsConsistent(facts: Storage, ledger: seq<string>)
    requires IsConsistent(facts) && IsCurrent(facts.phases, BuildingEffectiveAssetTree)
    requires facts.skippedArchives.Some? && facts.nestedArchives.Some?
    ensures var record := Executed(ProcessingAssets, Some(Progress(|ledger|, 0, 0)));
            && CanAccept(facts.phases, record) && Find(facts.phases, ProcessingAssets).None?
            && IsConsistent(facts.(ledger := Some(ledger), phases := Accepted(facts.phases, record)))
  {
    var record := Executed(ProcessingAssets, Some(Progress(|ledger|, 0, 0)));
    AcceptedIsCanonical(facts.phases, record);
    FindAccepted(facts.phases, record, ExtractingArchives);
    FindAccepted(facts.phases, record, ProcessingAssets);
    FindAccepted(facts.phases, record, ArchiveFinalization);
  }

  predicate CanPlanFinalization(facts: Storage) {
    !facts.finalizationCompleted && Current(facts.phases) == Some(Executed(ArchiveFinalization, None))
  }

  /** The finalization plan loses no attempt: none was retained before it. */
  lemma {:induction false} PlanKeepsConsistent(facts: Storage, total: nat)
    requires IsConsistent(facts) && CanPlanFinalization(facts)
    ensures var record := Executed(ArchiveFinalization, Some(Progress(total, 0, 0)));
            && CanAccept(facts.phases, record) && facts.finalization.None?
            && IsConsistent(facts.(finalization := Some(FinalizationResult([], DEFAULT_ACCOUNT)),
                                   phases := Accepted(facts.phases, record)))
  {
    var record := Executed(ArchiveFinalization, Some(Progress(total, 0, 0)));
    var result := FinalizationResult([], DEFAULT_ACCOUNT);
    var after := facts.(finalization := Some(result), phases := Accepted(facts.phases, record));
    NothingBeforePlan(facts, record);
    AcceptedIsCanonical(facts.phases, record);
    FindAccepted(facts.phases, record, ExtractingArchives);
    FindAccepted(facts.phases, record, ProcessingAssets);
    KeptElsewhere(facts, after, Extraction);
    KeptElsewhere(facts, after, Asset);
    PlanIsFinalized(facts, after, record);
  }

  /** An account whose phase and attempts are as they were, and routing that is. */
  lemma {:induction false} KeptElsewhere(before: Storage, after: Storage, kind: Kind)
    requires IsAccounted(before, kind) && IsRouted(before)
    requires Find(after.phases, PhaseOf(kind)) == Find(before.phases, PhaseOf(kind))
    requires AttemptsOf(after, kind) == AttemptsOf(before, kind)
    requires after.ledger == before.ledger
    requires after.skippedArchives == before.skippedArchives && after.nestedArchives == before.nestedArchives
    ensures IsAccounted(after, kind) && (kind == Asset ==> IsRouted(after))
  {
  }

  lemma {:induction false} PlanIsFinalized(facts: Storage, after: Storage, record: Record)
    requires IsFinalized(facts) && IsPlannedWork(facts)
    requires Find(facts.phases, ArchiveFinalization) == Some(Executed(ArchiveFinalization, None))
    requires record.Executed? && record.progress.Some? && Find(after.phases, ArchiveFinalization) == Some(record)
    requires record.progress.value.succeeded == record.progress.value.failed == 0
    requires Find(after.phases, ExtractingArchives) == Find(facts.phases, ExtractingArchives)
    requires !facts.finalizationCompleted && after == facts.(
               finalization := Some(FinalizationResult([], DEFAULT_ACCOUNT)), phases := after.phases)
    ensures IsFinalized(after) && IsPlannedWork(after) && IsAccounted(after, Finalization)
  {
  }

  lemma {:induction false} NothingBeforePlan(facts: Storage, record: Record)
    requires IsConsistent(facts) && CanPlanFinalization(facts)
    requires record.Executed? && record.phase == ArchiveFinalization && record.progress.Some?
    requires record.progress.value.succeeded == record.progress.value.failed == 0
    ensures CanAccept(facts.phases, record) && facts.finalization.None?
    ensures Find(facts.phases, ArchiveFinalization) == Some(Executed(ArchiveFinalization, None))
    ensures Find(Accepted(facts.phases, record), ArchiveFinalization) == Some(record)
  {
    FindAccepted(facts.phases, record, ArchiveFinalization);
  }

  // Nothing retained is ever lost or rewritten.

  ghost predicate Keeps<T>(before: Option<T>, after: Option<T>) {
    before.Some? ==> after == before
  }

  /** The same phase, status and reason; a total once known stays, and its account only advances. */
  ghost predicate Continues(before: Record, after: Record) {
    && before.phase == after.phase
    && (before.Skipped? <==> after.Skipped?) && (before.Planned? <==> after.Planned?)
    && (before.Skipped? ==> before.reason == after.reason)
    && (ProgressOf(before).Some? ==>
          && ProgressOf(after).Some?
          && ProgressOf(after).value.total == ProgressOf(before).value.total
          && ProgressOf(after).value.succeeded >= ProgressOf(before).value.succeeded
          && ProgressOf(after).value.failed >= ProgressOf(before).value.failed)
  }

  /** Records only advance in place, and new ones follow. */
  ghost predicate PhasesEvolve(before: seq<Record>, after: seq<Record>) {
    && |before| <= |after|
    && forall i :: 0 <= i < |before| ==> Continues(before[i], after[i])
  }

  /**
   * Every later state holds every earlier fact: lists grow at their ends, once-only facts stay as they were recorded.
   */
  ghost predicate Evolves(before: Storage, after: Storage) {
    && PhasesEvolve(before.phases, after.phases)
    && before.diagnostics <= after.diagnostics && before.failures <= after.failures
    && before.cleanupFailures <= after.cleanupFailures
    && before.extractionAttempts <= after.extractionAttempts && before.assetAttempts <= after.assetAttempts
    && AttemptsOf(before, Finalization) <= AttemptsOf(after, Finalization)
    && before.plannedExtractions <= after.plannedExtractions && before.plannedOutputs <= after.plannedOutputs
    && Keeps(before.preparation, after.preparation) && Keeps(before.collisions, after.collisions)
    && Keeps(before.skippedArchives, after.skippedArchives) && Keeps(before.nestedArchives, after.nestedArchives)
    && Keeps(before.ledger, after.ledger) && Keeps(before.outputBasis, after.outputBasis)
    && (before.finalizationCompleted ==>
          && after.finalizationCompleted && before.finalization.Some? && after.finalization.Some?
          && before.finalization.value.account == after.finalization.value.account)
    && (before.cancellationObserved ==> after.cancellationObserved)
  }

  lemma {:induction false} AcceptedEvolves(phases: seq<Record>, record: Record)
    requires CanAccept(phases, record) && AreCanonical(phases)
    ensures PhasesEvolve(phases, Accepted(phases, record))
  {
  }

  /** Over a whole run: what one state holds, every state after it holds. */
  lemma {:induction false} EvolutionIsTransitive(a: Storage, b: Storage, c: Storage)
    requires Evolves(a, b) && Evolves(b, c)
    ensures Evolves(a, c)
  {
    forall i | 0 <= i < |a.phases| ensures Continues(a.phases[i], c.phases[i]) {
      assert Continues(a.phases[i], b.phases[i]) && Continues(b.phases[i], c.phases[i]);
    }
  }

  // Publication.

  /** What is retained once an observer was called: nothing more, or its panic as an unpublished diagnostic. */
  ghost predicate IsReported(expected: Storage, actual: Storage, phase: Phase) {
    actual == expected || actual == expected.(diagnostics := expected.diagnostics + [ObserverFailed(phase)])
  }

  /** A record accepted and published. */
  ghost predicate IsEntered(before: Storage, after: Storage, record: Record) {
    IsReported(before.(phases := Accepted(before.phases, record)), after, record.phase)
  }

  /** Diagnostics and failures are beside the accounts. */
  lemma {:induction false} BesideTheAccounts(facts: Storage, diagnostics: seq<Diagnostic>, failures: seq<Failure>)
    requires IsConsistent(facts)
    ensures IsConsistent(facts.(diagnostics := diagnostics, failures := failures))
  {
  }

  lemma {:induction false} ReportingKeeps(expected: Storage, actual: Storage, phase: Phase)
    requires IsConsistent(expected) && IsReported(expected, actual, phase)
    ensures IsConsistent(actual)
  {
  }

  /** The positions of the diagnostics that were reported to the evidence, rather than of an observer. */
  function ReportedAt(diagnostics: seq<Diagnostic>): seq<nat> {
    if diagnostics == [] then []
    else ReportedAt(diagnostics[..|diagnostics| - 1])
         + if diagnostics[|diagnostics| - 1].Reported? then [|diagnostics| - 1] else []
  }

  lemma {:induction false} OneMoreDiagnostic(diagnostics: seq<Diagnostic>, diagnostic: Diagnostic)
    ensures ReportedAt(diagnostics + [diagnostic])
         == ReportedAt(diagnostics) + if diagnostic.Reported? then [|diagnostics|] else []
  {
    assert (diagnostics + [diagnostic])[..|diagnostics|] == diagnostics;
  }

  lemma {:induction false} ReportedAtIsInRange(diagnostics: seq<Diagnostic>, k: nat)
    requires k < |ReportedAt(diagnostics)|
    ensures ReportedAt(diagnostics)[k] < |diagnostics| && diagnostics[ReportedAt(diagnostics)[k]].Reported?
  {
    if k < |ReportedAt(diagnostics[..|diagnostics| - 1])| { ReportedAtIsInRange(diagnostics[..|diagnostics| - 1], k); }
  }

  /** Reported diagnostics queue once each, in order; observer failures never do. */
  ghost predicate IsQueued(diagnostics: seq<Diagnostic>, publications: seq<nat>, published: nat) {
    publications == ReportedAt(diagnostics) && published <= |publications|
  }

  /** The observer has been called with exactly what was published, in order. */
  ghost predicate HasSeen(seen: seq<nat>, publications: seq<nat>, published: nat) {
    published <= |publications| && seen == publications[..published]
  }

  lemma {:induction false} SeesNext(seen: seq<nat>, publications: seq<nat>, published: nat)
    requires HasSeen(seen, publications, published) && published < |publications|
    ensures HasSeen(seen + [publications[published]], publications, published + 1)
  {
  }

  /** A diagnostic retained joins the queue's end, unseen, beside the accounts. */
  lemma {:induction false} QueuedOneMore(facts: Storage, phase: Phase, detail: string, publications: seq<nat>,
                                         published: nat, seen: seq<nat>)
    returns (queue: seq<nat>)
    requires IsConsistent(facts) && IsQueued(facts.diagnostics, publications, published)
    ensures queue == publications + [|facts.diagnostics|]
    ensures var after := facts.(diagnostics := facts.diagnostics + [Reported(phase, detail)]);
            IsConsistent(after) && IsQueued(after.diagnostics, queue, published)
    ensures HasSeen(seen, publications, published) ==> HasSeen(seen, queue, published)
  {
    queue := publications + [|facts.diagnostics|];
    OneMoreDiagnostic(facts.diagnostics, Reported(phase, detail));
    BesideTheAccounts(facts, facts.diagnostics + [Reported(phase, detail)], facts.failures);
  }

  /** The record the observer saw last is the current one. */
  ghost predicate IsSeen(phases: seq<Record>, seen: seq<Record>) {
    phases != [] ==> seen != [] && seen[|seen| - 1] == phases[|phases| - 1]
  }
}
