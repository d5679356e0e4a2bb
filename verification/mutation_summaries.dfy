/**
 * What sealed Run Evidence derives: durable effects counted per Mod Root and kind of work, none lost or counted twice.
 */
module MutationSummaries {
  import opened Attempts
  import opened GamePaths
  import opened RunEvidence
  import opened RunFacts

  datatype Key = Key(root: string, kind: Kind)

  datatype Summary = Summary(committed: nat, partialOrUnknown: nat)

  datatype Counted = Counted(key: Key, mutation: Mutation, count: nat)

  /** Each attempt of a kind, counting once. */
  function OfAttempts(attempts: seq<Attempt>, kind: Kind): seq<Counted> {
    if attempts == [] then []
    else
      var last := attempts[|attempts| - 1];
      OfAttempts(attempts[..|attempts| - 1], kind) + [Counted(Key(last.root, kind), last.outcome.Mutation(), 1)]
  }

  /** Finalization's effects outside its attempts, counting as recorded. */
  function OfEffects(effects: seq<Effect>): seq<Counted> {
    if effects == [] then []
    else
      var last := effects[|effects| - 1];
      OfEffects(effects[..|effects| - 1]) + [Counted(Key(last.root, Finalization), last.mutation, last.count)]
  }

  function EffectsOf(facts: Storage): seq<Counted> {
    OfAttempts(facts.extractionAttempts, Extraction) + OfAttempts(facts.assetAttempts, Asset)
    + OfAttempts(AttemptsOf(facts, Finalization), Finalization)
    + OfEffects(if facts.finalization.Some? then facts.finalization.value.account.effects else [])
  }

  /** The true count of one mutation for one key. */
  function CountOf(effects: seq<Counted>, key: Key, mutation: Mutation): nat {
    if effects == [] then 0
    else
      var last := effects[|effects| - 1];
      CountOf(effects[..|effects| - 1], key, mutation)
      + if last.key == key && last.mutation == mutation then last.count else 0
  }

  ghost predicate IsDurable(effects: seq<Counted>, key: Key) {
    exists i :: 0 <= i < |effects| && effects[i].key == key && effects[i].mutation != NoMutation
  }

  /** A key is summarised exactly when it has a durable effect, and its summary is the true counts. */
  ghost predicate Summarises(grouped: map<Key, Summary>, effects: seq<Counted>) {
    forall key :: (key in grouped <==> IsDurable(effects, key))
                  && (key in grouped ==>
                        grouped[key] == Summary(CountOf(effects, key, Committed),
                                                CountOf(effects, key, PartialOrUnknown)))
  }

  function Grown(grouped: map<Key, Summary>, effect: Counted): map<Key, Summary> {
    if effect.mutation == NoMutation then grouped
    else
      var summary := if effect.key in grouped then grouped[effect.key] else Summary(0, 0);
      grouped[effect.key := if effect.mutation == Committed then summary.(committed := summary.committed + effect.count)
                            else summary.(partialOrUnknown := summary.partialOrUnknown + effect.count)]
  }

  lemma {:induction false} NotDurableCountsNothing(effects: seq<Counted>, key: Key, mutation: Mutation)
    requires !IsDurable(effects, key) && mutation != NoMutation
    ensures CountOf(effects, key, mutation) == 0
  {
    if effects != [] {
      assert !IsDurable(effects[..|effects| - 1], key) by {
        assert forall i :: 0 <= i < |effects| - 1 ==> effects[..|effects| - 1][i] == effects[i];
      }
      NotDurableCountsNothing(effects[..|effects| - 1], key, mutation);
    }
  }

  lemma {:induction false} DurableOfOneMore(effects: seq<Counted>, effect: Counted, key: Key)
    ensures IsDurable(effects + [effect], key)
       <==> IsDurable(effects, key) || (effect.key == key && effect.mutation != NoMutation)
  {
    var more := effects + [effect];
    if i :| 0 <= i < |effects| && effects[i].key == key && effects[i].mutation != NoMutation {
      assert more[i] == effects[i];
    }
    assert more[|effects|] == effect;
  }

  lemma {:induction false} CountOfOneMore(effects: seq<Counted>, effect: Counted, key: Key, mutation: Mutation)
    ensures CountOf(effects + [effect], key, mutation)
         == CountOf(effects, key, mutation)
            + if effect.key == key && effect.mutation == mutation then effect.count else 0
  {
    assert (effects + [effect])[..|effects|] == effects;
  }

  lemma {:induction false} OneMoreEffect(grouped: map<Key, Summary>, effects: seq<Counted>, effect: Counted)
    requires Summarises(grouped, effects)
    ensures Summarises(Grown(grouped, effect), effects + [effect])
  {
    forall key
      ensures IsDurable(effects + [effect], key) <==> key in Grown(grouped, effect)
      ensures key in Grown(grouped, effect) ==>
                Grown(grouped, effect)[key] == Summary(CountOf(effects + [effect], key, Committed),
                                                       CountOf(effects + [effect], key, PartialOrUnknown))
    {
      DurableOfOneMore(effects, effect, key);
      CountOfOneMore(effects, effect, key, Committed);
      CountOfOneMore(effects, effect, key, PartialOrUnknown);
      if key !in grouped {
        NotDurableCountsNothing(effects, key, Committed);
        NotDurableCountsNothing(effects, key, PartialOrUnknown);
      }
    }
  }

  method Derive(effects: seq<Counted>) returns (grouped: map<Key, Summary>)
    ensures Summarises(grouped, effects)
  {
    grouped := map[];
    for i := 0 to |effects|
      invariant Summarises(grouped, effects[..i])
    {
      var effect := effects[i];
      OneMoreEffect(grouped, effects[..i], effect);
      assert effects[..i + 1] == effects[..i] + [effect];
      if effect.mutation != NoMutation {
        var summary := if effect.key in grouped then grouped[effect.key] else Summary(0, 0);
        if effect.mutation == Committed {
          summary := summary.(committed := summary.committed + effect.count);
        } else {
          summary := summary.(partialOrUnknown := summary.partialOrUnknown + effect.count);
        }
        grouped := grouped[effect.key := summary];
      }
    }
    assert effects[..|effects|] == effects;
  }

  // Conservation.

  function TotalOf(effects: seq<Counted>, mutation: Mutation): nat {
    if effects == [] then 0
    else
      var last := effects[|effects| - 1];
      TotalOf(effects[..|effects| - 1], mutation) + if last.mutation == mutation then last.count else 0
  }

  ghost function SumOver(keys: set<Key>, effects: seq<Counted>, mutation: Mutation): nat {
    if keys == {} then 0
    else
      var key :| key in keys;
      CountOf(effects, key, mutation) + SumOver(keys - {key}, effects, mutation)
  }

  lemma {:induction false} SumOverOneMore(keys: set<Key>, effects: seq<Counted>, effect: Counted, mutation: Mutation)
    ensures SumOver(keys, effects + [effect], mutation)
         == SumOver(keys, effects, mutation)
            + if effect.key in keys && effect.mutation == mutation then effect.count else 0
    decreases |keys|
  {
    if keys != {} {
      var key :| key in keys && SumOver(keys, effects, mutation)
                                == CountOf(effects, key, mutation) + SumOver(keys - {key}, effects, mutation)
                 && SumOver(keys, effects + [effect], mutation)
                    == CountOf(effects + [effect], key, mutation) + SumOver(keys - {key}, effects + [effect], mutation);
      CountOfOneMore(effects, effect, key, mutation);
      SumOverOneMore(keys - {key}, effects, effect, mutation);
    }
  }

  lemma {:induction false} SumOverNothing(keys: set<Key>, effects: seq<Counted>, mutation: Mutation)
    requires effects == []
    ensures SumOver(keys, effects, mutation) == 0
    decreases |keys|
  {
    if keys != {} {
      var key :| key in keys && SumOver(keys, effects, mutation)
                                == CountOf(effects, key, mutation) + SumOver(keys - {key}, effects, mutation);
      SumOverNothing(keys - {key}, effects, mutation);
      assert CountOf(effects, key, mutation) == 0;
    }
  }

  /** The summaries together count every durable effect once: nothing is lost in grouping. */
  lemma {:induction false} SummariesConserve(keys: set<Key>, effects: seq<Counted>, mutation: Mutation)
    requires mutation != NoMutation
    requires forall i :: 0 <= i < |effects| && effects[i].mutation != NoMutation ==> effects[i].key in keys
    ensures SumOver(keys, effects, mutation) == TotalOf(effects, mutation)
    decreases |effects|
  {
    if effects == [] {
      SumOverNothing(keys, effects, mutation);
    } else {
      var rest, last := effects[..|effects| - 1], effects[|effects| - 1];
      assert effects == rest + [last];
      assert forall i :: 0 <= i < |rest| ==> rest[i] == effects[i];
      SummariesConserve(keys, rest, mutation);
      SumOverOneMore(keys, rest, last, mutation);
    }
  }

  // Sealing.

  datatype Sealed = Sealed(facts: Storage, summaries: map<Key, Summary>, cleanupFailures: seq<string>)

  /** Attempt-local cleanup failures in attempt order. */
  function LocalFailures(attempts: seq<Attempt>): seq<string> {
    if attempts == [] then []
    else LocalFailures(attempts[..|attempts| - 1]) + attempts[|attempts| - 1].cleanupFailures
  }

  function Details(failures: seq<Failure>): seq<string> {
    if failures == [] then [] else Details(failures[..|failures| - 1]) + [failures[|failures| - 1].detail]
  }

  /** Evidence is sealed only after Safety Cleanup, with every retained fact and what follows from them. */
  method Consume(evidence: MutableRunEvidence) returns (sealed: Option<Sealed>)
    requires evidence.Valid()
    ensures sealed.Some? <==> IsCurrent(evidence.storage.phases, SafetyCleanup)
    ensures sealed.Some? ==>
              && sealed.value.facts == evidence.storage
              && Summarises(sealed.value.summaries, EffectsOf(evidence.storage))
              && sealed.value.cleanupFailures
                 == LocalFailures(evidence.storage.assetAttempts) + Details(evidence.storage.cleanupFailures)
  {
    if !IsCurrent(evidence.storage.phases, SafetyCleanup) { return None; }
    var summaries := Derive(EffectsOf(evidence.storage));
    sealed := Some(Sealed(evidence.storage, summaries,
                          LocalFailures(evidence.storage.assetAttempts) + Details(evidence.storage.cleanupFailures)));
  }
}
