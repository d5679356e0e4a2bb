/** What Run Evidence accepts, told by the canonical sequence of phases and by each attempt list's own name. */
module RunFactLaws {
  import opened Attempts
  import opened GamePaths
  import opened MutationSummaries
  import opened RunFacts

  /** The phases every run traverses, in this order. */
  const SEQUENCE: seq<Phase> := [
    Preparing, DiscoveringArchives, ExtractingArchives, BuildingEffectiveAssetTree,
    ProcessingAssets, ArchiveFinalization, SafetyCleanup]

  ghost predicate IsBefore(a: Phase, b: Phase) {
    exists i, j :: 0 <= i < j < |SEQUENCE| && SEQUENCE[i] == a && SEQUENCE[j] == b
  }

  lemma {:induction false} RankIsPlace(phase: Phase)
    ensures Rank(phase) < |SEQUENCE| && SEQUENCE[Rank(phase)] == phase
  {
  }

  lemma {:induction false} PlaceIsRank(i: nat)
    requires i < |SEQUENCE|
    ensures Rank(SEQUENCE[i]) == i
  {
  }

  lemma {:induction false} RankedBefore(a: Phase, b: Phase)
    ensures IsBefore(a, b) <==> Rank(a) < Rank(b)
  {
    RankIsPlace(a);
    RankIsPlace(b);
    if i, j :| 0 <= i < j < |SEQUENCE| && SEQUENCE[i] == a && SEQUENCE[j] == b {
      PlaceIsRank(i);
      PlaceIsRank(j);
    }
  }

  /** No phase is ever recorded after one that follows it, nor twice. */
  lemma {:induction false} PhasesFollowSequence(facts: Storage, i: nat, j: nat)
    requires IsConsistent(facts) && i < j < |facts.phases|
    ensures IsBefore(facts.phases[i].phase, facts.phases[j].phase)
  {
    RankedBefore(facts.phases[i].phase, facts.phases[j].phase);
  }

  predicate HasNoneDone(record: Record) {
    record.Executed? && record.progress.Some? ==>
      record.progress.value.succeeded == 0 && record.progress.value.failed == 0
  }

  predicate IsWithinTotal(record: Record) {
    record.Executed? && record.progress.Some? ==>
      record.progress.value.succeeded + record.progress.value.failed <= record.progress.value.total
  }

  /** A traversal begins with Preparing, or with Safety Cleanup when nothing was scheduled. */
  lemma {:induction false} FirstToBeAccepted(record: Record)
    ensures CanAccept([], record)
       <==> (record.phase == Preparing || record.phase == SafetyCleanup) && HasNoneDone(record)
  {
  }

  /** A later phase of the sequence may follow at any time, with nothing done yet. */
  lemma {:induction false} NextToBeAccepted(phases: seq<Record>, record: Record)
    requires phases != [] && phases[|phases| - 1].phase != record.phase
    ensures CanAccept(phases, record)
       <==> IsBefore(phases[|phases| - 1].phase, record.phase) && HasNoneDone(record)
  {
    RankedBefore(phases[|phases| - 1].phase, record.phase);
  }

  /** The current record may be replaced by one that continues it, within its total; a new total has nothing done. */
  lemma {:induction false} ReplacementToBeAccepted(phases: seq<Record>, record: Record)
    requires phases != [] && phases[|phases| - 1].phase == record.phase
    ensures CanAccept(phases, record)
       <==> Continues(phases[|phases| - 1], record) && IsWithinTotal(record)
            && (phases[|phases| - 1].Executed? && phases[|phases| - 1].progress.None? ==> HasNoneDone(record))
  {
  }

  // Attempts, by the names of their lists.

  /** What a phase's progress counts, if it has any. */
  ghost predicate Counts(facts: Storage, phase: Phase, attempts: seq<Attempt>) {
    match Find(facts.phases, phase)
    case Some(Executed(_, Some(progress))) =>
      |attempts| == progress.succeeded + progress.failed && Successes(attempts) == progress.succeeded
    case _ => attempts == []
  }

  /** Each attempt phase's progress counts the attempts retained for it, and for no other. */
  lemma {:induction false} EachPhaseCountsItsOwn(facts: Storage)
    requires IsConsistent(facts)
    ensures Counts(facts, ExtractingArchives, facts.extractionAttempts)
    ensures Counts(facts, ProcessingAssets, facts.assetAttempts)
    ensures Counts(facts, ArchiveFinalization,
                   if facts.finalization.Some? then facts.finalization.value.attempts else [])
  {
    assert IsAccounted(facts, Extraction) && IsAccounted(facts, Asset) && IsAccounted(facts, Finalization);
  }

  /** There is room for an attempt exactly while its phase is the current one, has a total, and has not reached it. */
  lemma {:induction false} RoomForAttempt(facts: Storage, kind: Kind)
    ensures CanAttempt(facts, kind)
       <==> facts.phases != []
            && match facts.phases[|facts.phases| - 1]
               case Executed(phase, Some(progress)) =>
                 && phase == (if kind == Extraction then ExtractingArchives
                              else if kind == Asset then ProcessingAssets else ArchiveFinalization)
                 && progress.succeeded + progress.failed < progress.total
               case _ => false
  {
  }

  /** An attempt joins the end of its own kind's list, and the others stay. */
  lemma {:induction false} EachAttemptIsKept(facts: Storage, kind: Kind, attempt: Attempt)
    requires IsConsistent(facts) && CanAttempt(facts, kind)
    ensures var after := Attempted(facts, kind, attempt);
            && after.extractionAttempts
               == facts.extractionAttempts + (if kind == Extraction then [attempt] else [])
            && after.assetAttempts == facts.assetAttempts + (if kind == Asset then [attempt] else [])
            && (kind != Finalization ==> after.finalization == facts.finalization)
            && (kind == Finalization ==>
                  && after.finalization.Some? && facts.finalization.Some?
                  && after.finalization.value.attempts == facts.finalization.value.attempts + [attempt]
                  && after.finalization.value.account == facts.finalization.value.account)
  {
  }

  /** Only the phases that attempts belong to bear any, and of those only the Archives' can be planned ahead. */
  lemma {:induction false} PhasesOfWork(phase: Phase)
    ensures BearsAttempts(phase) <==> exists kind :: PhaseOf(kind) == phase
    ensures IsPlannable(phase) <==> phase == PhaseOf(Extraction) || phase == PhaseOf(Finalization)
  {
    if BearsAttempts(phase) {
      var kind := if phase == ExtractingArchives then Extraction
                  else if phase == ProcessingAssets then Asset else Finalization;
      assert PhaseOf(kind) == phase;
    }
  }

  // What is summarized.

  /** The attempts of a Mod Root that left this behind. */
  function Tally(attempts: seq<Attempt>, root: string, mutation: Mutation): nat {
    if attempts == [] then 0
    else (if attempts[0].root == root && attempts[0].outcome.Mutation() == mutation then 1 else 0)
         + Tally(attempts[1..], root, mutation)
  }

  /** What finalization did for a Mod Root beside its attempts, as recorded. */
  function Recorded(effects: seq<Effect>, root: string, mutation: Mutation): nat {
    if effects == [] then 0
    else (if effects[0].root == root && effects[0].mutation == mutation then effects[0].count else 0)
         + Recorded(effects[1..], root, mutation)
  }

  lemma {:induction false} CountOfAppend(a: seq<Counted>, b: seq<Counted>, key: Key, mutation: Mutation)
    ensures CountOf(a + b, key, mutation) == CountOf(a, key, mutation) + CountOf(b, key, mutation)
    decreases |b|
  {
    if b == [] {
      assert a + b == a;
    } else {
      var front, last := b[..|b| - 1], b[|b| - 1];
      CountOfAppend(a, front, key, mutation);
      assert a + b == (a + front) + [last] && b == front + [last];
      CountOfOneMore(a + front, last, key, mutation);
      CountOfOneMore(front, last, key, mutation);
    }
  }

  lemma {:induction false} TallyOfLast(attempts: seq<Attempt>, last: Attempt, root: string, mutation: Mutation)
    ensures Tally(attempts + [last], root, mutation)
         == Tally(attempts, root, mutation)
            + if last.root == root && last.outcome.Mutation() == mutation then 1 else 0
  {
    if attempts == [] {
      assert attempts + [last] == [last] && [last][1..] == [];
    } else {
      assert (attempts + [last])[1..] == attempts[1..] + [last];
      TallyOfLast(attempts[1..], last, root, mutation);
    }
  }

  lemma {:induction false} RecordedOfLast(effects: seq<Effect>, last: Effect, root: string, mutation: Mutation)
    ensures Recorded(effects + [last], root, mutation)
         == Recorded(effects, root, mutation)
            + if last.root == root && last.mutation == mutation then last.count else 0
  {
    if effects == [] {
      assert effects + [last] == [last] && [last][1..] == [];
    } else {
      assert (effects + [last])[1..] == effects[1..] + [last];
      RecordedOfLast(effects[1..], last, root, mutation);
    }
  }

  lemma {:induction false} AttemptsAreTallied(attempts: seq<Attempt>, of: Kind, root: string, kind: Kind,
                                              mutation: Mutation)
    ensures CountOf(OfAttempts(attempts, of), Key(root, kind), mutation)
         == if of == kind then Tally(attempts, root, mutation) else 0
    decreases |attempts|
  {
    if attempts != [] {
      var front, last := attempts[..|attempts| - 1], attempts[|attempts| - 1];
      assert attempts == front + [last];
      AttemptsAreTallied(front, of, root, kind, mutation);
      TallyOfLast(front, last, root, mutation);
      CountOfOneMore(OfAttempts(front, of), Counted(Key(last.root, of), last.outcome.Mutation(), 1), Key(root, kind),
                     mutation);
    }
  }

  lemma {:induction false} EffectsAreRecorded(effects: seq<Effect>, root: string, kind: Kind, mutation: Mutation)
    ensures CountOf(OfEffects(effects), Key(root, kind), mutation)
         == if kind == Finalization then Recorded(effects, root, mutation) else 0
    decreases |effects|
  {
    if effects != [] {
      var front, last := effects[..|effects| - 1], effects[|effects| - 1];
      assert effects == front + [last];
      EffectsAreRecorded(front, root, kind, mutation);
      RecordedOfLast(front, last, root, mutation);
      CountOfOneMore(OfEffects(front), Counted(Key(last.root, Finalization), last.mutation, last.count),
                     Key(root, kind), mutation);
    }
  }

  /**
   * A summary counts each attempt of its Mod Root and kind once, by what it left behind, and to finalization's the
   * effects recorded beside its attempts.
   */
  lemma {:induction false} EveryEffectIsCounted(facts: Storage, root: string, kind: Kind, mutation: Mutation)
    ensures CountOf(EffectsOf(facts), Key(root, kind), mutation)
         == match kind
            case Extraction => Tally(facts.extractionAttempts, root, mutation)
            case Asset => Tally(facts.assetAttempts, root, mutation)
            case Finalization =>
              if facts.finalization.None? then 0
              else Tally(facts.finalization.value.attempts, root, mutation)
                   + Recorded(facts.finalization.value.account.effects, root, mutation)
  {
    var a := OfAttempts(facts.extractionAttempts, Extraction);
    var b := OfAttempts(facts.assetAttempts, Asset);
    var c := OfAttempts(AttemptsOf(facts, Finalization), Finalization);
    var effects := if facts.finalization.Some? then facts.finalization.value.account.effects else [];
    var key := Key(root, kind);
    CountOfAppend(a + b + c, OfEffects(effects), key, mutation);
    CountOfAppend(a + b, c, key, mutation);
    CountOfAppend(a, b, key, mutation);
    AttemptsAreTallied(facts.extractionAttempts, Extraction, root, kind, mutation);
    AttemptsAreTallied(facts.assetAttempts, Asset, root, kind, mutation);
    AttemptsAreTallied(AttemptsOf(facts, Finalization), Finalization, root, kind, mutation);
    EffectsAreRecorded(effects, root, kind, mutation);
  }

  // What is sealed.

  lemma {:induction false} LocalFailuresOfAppend(a: seq<Attempt>, b: seq<Attempt>)
    ensures LocalFailures(a + b) == LocalFailures(a) + LocalFailures(b)
    decreases |b|
  {
    if b == [] {
      assert a + b == a;
    } else {
      assert (a + b)[..|a + b| - 1] == a + b[..|b| - 1];
      LocalFailuresOfAppend(a, b[..|b| - 1]);
    }
  }

  /** An attempt's own cleanup failures stand behind those of the attempts before it, and before those of later ones. */
  lemma {:induction false} LocalFailuresInOrder(before: seq<Attempt>, attempt: Attempt, after: seq<Attempt>)
    ensures LocalFailures(before + [attempt] + after)
         == LocalFailures(before) + attempt.cleanupFailures + LocalFailures(after)
    ensures LocalFailures([]) == []
  {
    LocalFailuresOfAppend(before + [attempt], after);
    LocalFailuresOfAppend(before, [attempt]);
    assert [attempt][..0] == [];
    assert LocalFailures([attempt]) == [] + attempt.cleanupFailures;
  }

  /** Safety Cleanup's own failures are kept one by one. */
  lemma {:induction false} DetailsInOrder(failures: seq<Failure>)
    ensures |Details(failures)| == |failures|
    ensures forall i :: 0 <= i < |failures| ==> Details(failures)[i] == failures[i].detail
  {
    if failures != [] {
      var front := failures[..|failures| - 1];
      DetailsInOrder(front);
      assert forall i :: 0 <= i < |front| ==> front[i] == failures[i];
    }
  }
}
