/** The first half of an Archive's extraction: revalidate its frozen plan, then stage every entry it lists. */
module ArchiveStaging {
  import opened ArchivePreflight
  import opened ArchiveWinners
  import opened Attempts
  import opened DurableDisk
  import opened GamePaths
  import opened Publication
  import opened StandingPaths

  /** What extraction finds: the manifest now, whether it fits, each entry's bytes, and where each entry would go. */
  datatype Source = Source(
    contained: bool,
    manifest: Option<seq<Entry>>,
    fits: bool,
    payload: string -> Bytes,
    target: string -> string)

  /** Extraction's own checks of a plan, before anything is staged. */
  ghost predicate IsWellFormed(plan: Plan, world: World) {
    && AreCheckedNames(plan.entries, world)
    && (forall entry :: entry in plan.mergeEntries ==> entry in plan.entries)
  }

  /** Every plan a preflight emits passes those checks. */
  lemma {:induction false} PreflightPlansAreWellFormed(plan: Plan, entries: seq<Entry>, root: Root, world: World)
    requires Checked(plan, entries, root, world)
    requires forall entry :: entry in plan.mergeEntries ==> entry in plan.entries
    ensures IsWellFormed(plan, world)
  {
    forall i | 0 <= i < |plan.entries|
      ensures CanonicalEntry(plan.entries[i], world.reserved) == Canonical(plan.entries[i])
    {
      CanonicalIsIdempotent(entries[i].name, world.reserved);
    }
    forall i, j | 0 <= i < j < |plan.entries|
      ensures Folded(plan.entries[i], world.fold) != Folded(plan.entries[j], world.fold)
    {
      if Folded(plan.entries[i], world.fold) == Folded(plan.entries[j], world.fold) {
        SameFoldSameKey(plan.archive, plan.entries[i], plan.entries[j], world);
      }
    }
  }

  lemma {:induction false} SameFoldSameKey(archive: Archive, a: string, b: string, world: World)
    requires Folded(a, world.fold) == Folded(b, world.fold)
    ensures Key(archive, a, world) == Key(archive, b, world)
  {
    var atA, atB := GamePath(archive, a), GamePath(archive, b);
    var before := atA[..|atA| - |a|];
    assert before == atB[..|atB| - |b|];
    assert Key(archive, a, world) == Folded(before, world.fold) + Folded(a, world.fold);
    assert Key(archive, b, world) == Folded(before, world.fold) + Folded(b, world.fold);
  }

  /** The plan's own manifest: the listed names, canonical, are the plan's entries, in order. */
  ghost predicate SameManifest(plan: Plan, entries: seq<Entry>, world: World) {
    && |plan.entries| == |entries|
    && forall i :: 0 <= i < |entries| ==> CanonicalEntry(entries[i].name, world.reserved) == Canonical(plan.entries[i])
  }

  function Meaning(entry: Entry, world: World): EntryResult {
    CanonicalEntry(entry.name, world.reserved)
  }

  ghost predicate IsListed(entries: seq<Entry>, name: string, world: World) {
    exists i :: 0 <= i < |entries| && Meaning(entries[i], world) == Canonical(name)
  }

  /** Exactly these names are listed, in any order, none twice and none that cannot be read. */
  ghost predicate ListsExactly(entries: seq<Entry>, names: set<string>, world: World) {
    && (forall i :: 0 <= i < |entries| ==> Meaning(entries[i], world).Canonical?)
    && (forall i, j :: 0 <= i < j < |entries| ==> Meaning(entries[i], world) != Meaning(entries[j], world))
    && (forall name :: name in names <==> IsListed(entries, name, world))
  }

  function NamesOf(entries: seq<string>): set<string> {
    set entry | entry in entries
  }

  /** The manifest a plan was frozen from lists exactly its entries. */
  lemma {:induction false} SameManifestListsExactly(plan: Plan, entries: seq<Entry>, world: World)
    requires SameManifest(plan, entries, world) && IsWellFormed(plan, world)
    ensures ListsExactly(entries, NamesOf(plan.entries), world)
  {
    forall i, j | 0 <= i < j < |entries| ensures Meaning(entries[i], world) != Meaning(entries[j], world) {
      assert Folded(plan.entries[i], world.fold) != Folded(plan.entries[j], world.fold);
    }
    forall name ensures name in NamesOf(plan.entries) <==> IsListed(entries, name, world) {
      if name in plan.entries {
        var k :| 0 <= k < |plan.entries| && plan.entries[k] == name;
        assert Meaning(entries[k], world) == Canonical(name);
      }
    }
  }

  // Checks.

  function FoldedNames(entries: seq<string>, world: World): set<string> {
    if entries == [] then {}
    else FoldedNames(entries[..|entries| - 1], world) + {Folded(entries[|entries| - 1], world.fold)}
  }

  lemma {:induction false} InFoldedNames(entries: seq<string>, name: string, world: World)
    ensures name in FoldedNames(entries, world)
       <==> exists i :: 0 <= i < |entries| && Folded(entries[i], world.fold) == name
  {
    if entries != [] {
      InFoldedNames(entries[..|entries| - 1], name, world);
      assert forall i :: 0 <= i < |entries| - 1 ==> entries[..|entries| - 1][i] == entries[i];
    }
  }

  /** The entries canonical and no two alike under the fold, as far as they were checked. */
  ghost predicate AreCheckedNames(entries: seq<string>, world: World) {
    && (forall i :: 0 <= i < |entries| ==> CanonicalEntry(entries[i], world.reserved) == Canonical(entries[i]))
    && (forall i, j :: 0 <= i < j < |entries| ==> Folded(entries[i], world.fold) != Folded(entries[j], world.fold))
  }

  lemma {:induction false} CheckedOneMore(entries: seq<string>, i: nat, world: World)
    requires i < |entries| && AreCheckedNames(entries[..i], world)
    ensures AreCheckedNames(entries[..i + 1], world)
       <==> CanonicalEntry(entries[i], world.reserved) == Canonical(entries[i])
            && Folded(entries[i], world.fold) !in FoldedNames(entries[..i], world)
    ensures FoldedNames(entries[..i + 1], world) == FoldedNames(entries[..i], world) + {Folded(entries[i], world.fold)}
  {
    var fewer, more := entries[..i], entries[..i + 1];
    assert more == fewer + [entries[i]] && more[..i] == fewer;
    InFoldedNames(fewer, Folded(entries[i], world.fold), world);
    CheckedWithLast(fewer, entries[i], world);
  }

  lemma {:induction false} CheckedWithLast(entries: seq<string>, last: string, world: World)
    requires AreCheckedNames(entries, world)
    ensures AreCheckedNames(entries + [last], world)
       <==> CanonicalEntry(last, world.reserved) == Canonical(last)
            && !exists i :: 0 <= i < |entries| && Folded(entries[i], world.fold) == Folded(last, world.fold)
  {
    var more := entries + [last];
    assert more[|entries|] == last && forall i :: 0 <= i < |entries| ==> more[i] == entries[i];
  }

  lemma {:induction false} CheckedPart(entries: seq<string>, i: nat, world: World)
    requires i <= |entries| && AreCheckedNames(entries, world)
    ensures AreCheckedNames(entries[..i], world)
  {
  }

  method CheckPlan(plan: Plan, world: World) returns (ok: bool)
    ensures ok <==> IsWellFormed(plan, world)
  {
    var keys: set<string> := {};
    for i := 0 to |plan.entries|
      invariant AreCheckedNames(plan.entries[..i], world) && keys == FoldedNames(plan.entries[..i], world)
    {
      var entry := plan.entries[i];
      CheckedOneMore(plan.entries, i, world);
      if AreCheckedNames(plan.entries, world) { CheckedPart(plan.entries, i + 1, world); }
      var canonical := CanonicalArchiveEntryPath(entry, world.reserved);
      if canonical != Canonical(entry) { return false; }
      if Folded(entry, world.fold) in keys { return false; }
      keys := keys + {Folded(entry, world.fold)};
    }
    assert plan.entries[..|plan.entries|] == plan.entries;
    ok := forall entry :: entry in plan.mergeEntries ==> entry in plan.entries;
  }

  // Staging.

  /** `bytes` is what the manifest holds under a name whose canonical form is `entry`. */
  ghost predicate IsPayload(bytes: Bytes, entry: string, entries: seq<Entry>, source: Source, world: World) {
    exists i :: 0 <= i < |entries| && CanonicalEntry(entries[i].name, world.reserved) == Canonical(entry)
                && bytes == source.payload(entries[i].name)
  }

  /** Each staged entry has its own live receipt, and its staged file holds the entry's bytes. */
  ghost predicate IsStaged(staged: map<string, Receipt>, artifacts: seq<Artifact>, entries: seq<Entry>, source: Source,
                           world: World) {
    && (forall name :: name in staged ==>
          && staged[name].target == None && staged[name].index < |artifacts|
          && !artifacts[staged[name].index].committed
          && IsPayload(artifacts[staged[name].index].bytes, name, entries, source, world))
    && (forall a, b :: a in staged && b in staged && staged[a].index == staged[b].index ==> a == b)
  }

  lemma {:induction false} ListedWithLast(entries: seq<Entry>, last: Entry, name: string, world: World)
    ensures IsListed(entries + [last], name, world)
       <==> IsListed(entries, name, world) || Meaning(last, world) == Canonical(name)
  {
    var more := entries + [last];
    if k :| 0 <= k < |entries| && Meaning(entries[k], world) == Canonical(name) { assert more[k] == entries[k]; }
    assert more[|entries|] == last;
  }

  lemma {:induction false} ListedOneMore(entries: seq<Entry>, last: Entry, names: set<string>, name: string,
                                         world: World)
    requires ListsExactly(entries, names, world) && name !in names && Meaning(last, world) == Canonical(name)
    ensures ListsExactly(entries + [last], names + {name}, world)
  {
    assert !IsListed(entries, name, world);
    forall other ensures other in names + {name} <==> IsListed(entries + [last], other, world) {
      ListedWithLast(entries, last, other, world);
    }
  }

  lemma {:induction false} ListedNext(entries: seq<Entry>, i: nat, names: set<string>, name: string, world: World)
    requires i < |entries| && ListsExactly(entries[..i], names, world)
    requires name !in names && Meaning(entries[i], world) == Canonical(name)
    ensures ListsExactly(entries[..i + 1], names + {name}, world)
  {
    ListedOneMore(entries[..i], entries[i], names, name, world);
    assert entries[..i + 1] == entries[..i] + [entries[i]];
  }

  lemma {:induction false} NextIsListed(entries: seq<Entry>, all: set<string>, i: nat, names: set<string>, world: World)
    requires i < |entries| && ListsExactly(entries, all, world) && ListsExactly(entries[..i], names, world)
    ensures Meaning(entries[i], world).Canonical?
    ensures Meaning(entries[i], world).name in all && Meaning(entries[i], world).name !in names
  {
    var name := Meaning(entries[i], world).name;
    assert IsListed(entries, name, world);
  }

  lemma {:induction false} StagedGrows(staged: map<string, Receipt>, name: string, receipt: Receipt,
                                       artifacts: seq<Artifact>, i: nat, entries: seq<Entry>, source: Source,
                                       world: World)
    requires artifacts != [] && IsStaged(staged, artifacts[..|artifacts| - 1], entries, source, world)
    requires name !in staged && i < |entries| && CanonicalEntry(entries[i].name, world.reserved) == Canonical(name)
    requires receipt == Receipt(|artifacts| - 1, None)
    requires artifacts[|artifacts| - 1] == Artifact(source.payload(entries[i].name), false, true)
    ensures IsStaged(staged[name := receipt], artifacts, entries, source, world)
  {
    assert IsPayload(source.payload(entries[i].name), name, entries, source, world);
  }

  method StageEntry(name: string, source: Source, registry: Registry) returns (receipt: Option<Receipt>)
    modifies registry`artifacts, registry.disk`quiet
    ensures registry.disk.quiet ==> old(registry.disk.quiet) && (receipt.Some? || registry.cleaned)
    ensures receipt.Some? ==>
              && receipt.value == Receipt(|old(registry.artifacts)|, None)
              && |registry.artifacts| == |old(registry.artifacts)| + 1
              && registry.artifacts[..|registry.artifacts| - 1] == old(registry.artifacts)
              && registry.artifacts[|registry.artifacts| - 1] == Artifact(source.payload(name), false, true)
  {
    var staged := registry.StageArchiveFileForPublication();
    if staged.Unready? { return None; }
    var fails := registry.disk.Fails();
    if fails { return None; }
    registry.Write(staged.value, source.payload(name));
    receipt := Some(staged.value);
  }

  /** One listed entry staged, unless it is not one the plan lists, or was listed before. */
  method StageNext(entries: seq<Entry>, i: nat, plan: Plan, staged: map<string, Receipt>, source: Source, world: World,
                   registry: Registry)
    returns (more: map<string, Receipt>, ok: bool)
    requires i < |entries| && IsStaged(staged, registry.artifacts, entries, source, world)
    requires ListsExactly(entries[..i], staged.Keys, world) && staged.Keys <= NamesOf(plan.entries)
    modifies registry`artifacts, registry.disk`quiet
    ensures registry.disk.quiet ==> old(registry.disk.quiet)
    ensures ok ==>
              && IsStaged(more, registry.artifacts, entries, source, world)
              && ListsExactly(entries[..i + 1], more.Keys, world) && more.Keys <= NamesOf(plan.entries)
    ensures registry.disk.quiet && !registry.cleaned ==> ListsExactly(entries, NamesOf(plan.entries), world) ==> ok
  {
    var canonical := CanonicalArchiveEntryPath(entries[i].name, world.reserved);
    if ListsExactly(entries, NamesOf(plan.entries), world) {
      NextIsListed(entries, NamesOf(plan.entries), i, staged.Keys, world);
    }
    if canonical.Rejected? || canonical.name !in plan.entries || canonical.name in staged { return staged, false; }
    var receipt := StageEntry(entries[i].name, source, registry);
    if receipt.None? { return staged, false; }
    StagedGrows(staged, canonical.name, receipt.value, registry.artifacts, i, entries, source, world);
    ListedNext(entries, i, staged.Keys, canonical.name, world);
    more, ok := staged[canonical.name := receipt.value], true;
  }

  /** Stages every listed entry, shadowed ones too: none unless exactly the plan's entries are listed. */
  method StageEntries(entries: seq<Entry>, plan: Plan, source: Source, world: World, registry: Registry)
    returns (staged: map<string, Receipt>, ok: bool)
    modifies registry`artifacts, registry.disk`quiet
    ensures registry.disk.quiet ==> old(registry.disk.quiet)
    ensures ok ==>
              && staged.Keys == NamesOf(plan.entries) && ListsExactly(entries, NamesOf(plan.entries), world)
              && IsStaged(staged, registry.artifacts, entries, source, world)
    ensures registry.disk.quiet && !registry.cleaned ==> ListsExactly(entries, NamesOf(plan.entries), world) ==> ok
  {
    staged := map[];
    for i := 0 to |entries|
      invariant registry.disk.quiet ==> old(registry.disk.quiet)
      invariant IsStaged(staged, registry.artifacts, entries, source, world)
      invariant ListsExactly(entries[..i], staged.Keys, world) && staged.Keys <= NamesOf(plan.entries)
    {
      var more, staging := StageNext(entries, i, plan, staged, source, world, registry);
      if !staging { return staged, false; }
      staged := more;
    }
    assert entries[..|entries|] == entries;
    if ListsExactly(entries, NamesOf(plan.entries), world) {
      OneListing(entries, staged.Keys, NamesOf(plan.entries), world);
    }
    ok := staged.Keys == NamesOf(plan.entries);
  }

  lemma {:induction false} OneListing(entries: seq<Entry>, names: set<string>, others: set<string>, world: World)
    requires ListsExactly(entries, names, world) && ListsExactly(entries, others, world)
    ensures names == others
  {
  }

  // Publishing.

  /** One entry merged: its own bytes, where nothing stood before. */
  ghost predicate IsMerge(change: Change, entry: string, entries: seq<Entry>, source: Source, world: World) {
    change.Put? && change.path == source.target(entry) && change.before == None
    && IsPayload(change.after.bytes, entry, entries, source, world)
  }

  ghost predicate AreMerges(changes: seq<Change>, merged: seq<string>, entries: seq<Entry>, source: Source,
                            world: World)
  {
    |changes| == |merged| && forall k :: 0 <= k < |merged| ==> IsMerge(changes[k], merged[k], entries, source, world)
  }

  /** There is room for every winner: nothing that stands is in the way, and no two winners are in each other's. */
  ghost predicate IsClear(plan: Plan, source: Source, standing: set<string>, fold: char -> char) {
    IsClearUpTo(plan, |plan.mergeEntries|, source, standing, fold)
  }

  /** A sound plan that its manifest still lists exactly, with room to stage it. */
  ghost predicate IsCurrent(plan: Plan, source: Source, world: World) {
    && source.contained && source.manifest.Some? && source.fits && IsWellFormed(plan, world)
    && ListsExactly(source.manifest.value, NamesOf(plan.entries), world)
  }

  /** And there is room to merge its winners. */
  ghost predicate IsReady(plan: Plan, source: Source, world: World, standing: set<string>) {
    IsCurrent(plan, source, world) && IsClear(plan, source, standing, world.fold)
  }

  /** Room for the first `n` winners. */
  ghost predicate IsClearUpTo(plan: Plan, n: nat, source: Source, standing: set<string>, fold: char -> char) {
    && n <= |plan.mergeEntries|
    && (forall i :: 0 <= i < n ==> IsFree(source.target(plan.mergeEntries[i]), standing, fold))
    && (forall i, j :: 0 <= i < j < n ==>
          !Blocks(source.target(plan.mergeEntries[i]), source.target(plan.mergeEntries[j]), fold))
  }

  /** The winners from the `i`th on are still staged, and there is room for them all. */
  ghost predicate IsOpen(plan: Plan, i: nat, left: set<string>, source: Source, standing: set<string>,
                         fold: char -> char) {
    && (forall k :: i <= k < |plan.mergeEntries| ==>
          plan.mergeEntries[k] in left && IsFree(source.target(plan.mergeEntries[k]), standing, fold))
    && (forall j, k :: i <= j < k < |plan.mergeEntries| ==>
          !Blocks(source.target(plan.mergeEntries[j]), source.target(plan.mergeEntries[k]), fold))
  }

  lemma {:induction false} ClearIsOpen(plan: Plan, left: set<string>, source: Source, standing: set<string>,
                                       fold: char -> char)
    requires IsClear(plan, source, standing, fold) && forall entry :: entry in plan.mergeEntries ==> entry in left
    ensures IsOpen(plan, 0, left, source, standing, fold)
  {
  }

  lemma {:induction false} NextIsOpen(plan: Plan, i: nat, left: set<string>, source: Source, before: set<string>,
                                      after: set<string>, fold: char -> char)
    requires i < |plan.mergeEntries| && IsOpen(plan, i, left, source, before, fold)
    requires after <= before + {source.target(plan.mergeEntries[i])}
    ensures IsOpen(plan, i + 1, left - {plan.mergeEntries[i]}, source, after, fold)
  {
    var target := source.target(plan.mergeEntries[i]);
    forall k | i < k < |plan.mergeEntries|
      ensures plan.mergeEntries[k] in left - {plan.mergeEntries[i]}
      ensures IsFree(source.target(plan.mergeEntries[k]), after, fold)
    {
      assert !Blocks(target, source.target(plan.mergeEntries[k]), fold);
      assert Blocks(target, target, fold);
    }
  }

  /** The first `n` winners stand beside what stood at the start, each put where there was room. */
  ghost predicate TookRoom(plan: Plan, n: nat, source: Source, start: set<string>, now: set<string>,
                           fold: char -> char) {
    IsClearUpTo(plan, n, source, start, fold) && now == start + TargetsOf(plan.mergeEntries[..n], source)
  }

  lemma {:induction false} NothingTookRoom(plan: Plan, source: Source, start: set<string>, fold: char -> char)
    ensures TookRoom(plan, 0, source, start, start, fold)
  {
  }

  lemma {:induction false} NextTookRoom(plan: Plan, i: nat, source: Source, start: set<string>, now: set<string>,
                                        fold: char -> char)
    requires i < |plan.mergeEntries| && TookRoom(plan, i, source, start, now, fold)
    requires IsFree(source.target(plan.mergeEntries[i]), now, fold)
    ensures TookRoom(plan, i + 1, source, start, now + {source.target(plan.mergeEntries[i])}, fold)
  {
    var winners := plan.mergeEntries[..i];
    forall k | 0 <= k < i ensures source.target(plan.mergeEntries[k]) in now {
      assert winners[k] == plan.mergeEntries[k] && winners[k] in winners;
    }
    assert plan.mergeEntries[..i + 1] == winners + [plan.mergeEntries[i]];
  }

  /** Where entries would go. */
  function TargetsOf(entries: seq<string>, source: Source): set<string> {
    set entry | entry in entries :: source.target(entry)
  }
}
