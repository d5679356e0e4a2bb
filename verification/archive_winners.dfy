/** Archive discovery's winners: who merges each game path, and when a Mod Root's winners cannot coexist. */
module ArchiveWinners {
  import opened GamePaths
  import opened ArchivePreflight

  /** An entry wins when its Archive is the highest that provides its game path and no Loose Asset holds it. */
  predicate Wins(plans: seq<Plan>, plan: Plan, local: string, root: Root, world: World) {
    var key := Key(plan.archive, local, world);
    && Providers(plans, key, world) != [] && Providers(plans, key, world)[0] == plan.archive
    && key !in root.loose
  }

  function Winning(plans: seq<Plan>, plan: Plan, entries: seq<string>, root: Root, world: World): seq<string> {
    if entries == [] then []
    else Winning(plans, plan, entries[..|entries| - 1], root, world)
         + if Wins(plans, plan, entries[|entries| - 1], root, world) then [entries[|entries| - 1]] else []
  }

  function MergedBy(plan: Plan, world: World): set<string> {
    KeysOf(plan.archive, plan.mergeEntries, world)
  }

  /** A plan merges a game path exactly when it provides it, nothing loose holds it, and no plan before provides it. */
  ghost predicate MergesHighest(plans: seq<Plan>, i: nat, key: string, root: Root, world: World)
    requires i < |plans|
  {
    key in MergedBy(plans[i], world)
    <==> Provides(plans[i], key, world) && key !in root.loose
         && forall j :: 0 <= j < i ==> !Provides(plans[j], key, world)
  }

  /** The folded game paths merged by a Mod Root's Archives. */
  ghost function MergedKeys(plans: seq<Plan>, world: World): set<string> {
    if plans == [] then {} else MergedKeys(plans[..|plans| - 1], world) + MergedBy(plans[|plans| - 1], world)
  }

  /** The folded game paths some Archive provides and no Loose Asset holds. */
  ghost function Contested(plans: seq<Plan>, root: Root, world: World): set<string> {
    if plans == [] then {}
    else
      var last := plans[|plans| - 1];
      Contested(plans[..|plans| - 1], root, world) + (KeysOf(last.archive, last.entries, world) - root.loose)
  }

  /** No merged game path lies below another: a file and a directory cannot share one. */
  ghost predicate Antichain(keys: set<string>) {
    forall a, b {:trigger IsAncestor(a, b)} :: a in keys && b in keys ==> !IsAncestor(a, b)
  }

  /** The first `i` entries of a plan frozen: its winners so far, planned beside what was planned before. */
  ghost predicate IsFrozenUpTo(plans: seq<Plan>, plan: Plan, i: nat, merged: seq<string>, before: set<string>,
                               planned: map<string, string>, root: Root, world: World) {
    && i <= |plan.entries| && merged == Winning(plans, plan, plan.entries[..i], root, world)
    && IsPlanned(planned, before + KeysOf(plan.archive, merged, world), world) && Antichain(planned.Keys)
  }

  /** The planned set as the source keeps it: each folded key with the spelling first planned for it. */
  ghost predicate IsPlanned(planned: map<string, string>, keys: set<string>, world: World) {
    planned.Keys == keys && forall key :: key in planned ==> Folded(planned[key], world.fold) == key
  }

  /** Finds a planned path above by slicing at each separator, and one below as the neighbour in key order. */
  method ConflictsWithPlanned(planned: map<string, string>, gamePath: string, world: World) returns (conflicts: bool)
    requires KeepsSlash(world.fold) && IsPlanned(planned, planned.Keys, world)
    ensures conflicts <==> exists k :: k in planned && (IsAncestor(k, Folded(gamePath, world.fold))
                                                        || IsAncestor(Folded(gamePath, world.fold), k))
  {
    var key := Folded(gamePath, world.fold);
    for i := 0 to |gamePath|
      invariant forall j :: 0 <= j < i && key[j] == SLASH ==> key[..j] !in planned
    {
      assert Folded(gamePath[..i], world.fold) == key[..i];
      if gamePath[i] == SLASH && Folded(gamePath[..i], world.fold) in planned {
        assert IsAncestor(key[..i], key);
        return true;
      }
    }
    assert world.fold(SLASH) == SLASH;
    assert Folded(gamePath + [SLASH], world.fold) == key + [SLASH];
    var first := FirstFrom(planned.Keys, Folded(gamePath + [SLASH], world.fold));
    NeighbourDecides(planned.Keys, key);
    if first.Some? {
      AncestorFolds(planned[first.value], gamePath, world.fold);
      OneFirst(planned.Keys, key + [SLASH], first.value);
      conflicts := HasGamePathAncestor(planned[first.value], gamePath, world.fold);
    } else {
      conflicts := false;
    }
  }

  lemma {:induction false} AtMostIsAntisymmetric(a: string, b: string)
    requires AtMost(a, b) && AtMost(b, a)
    ensures a == b
    decreases |a|
  {
    if a != "" {
      AtMostIsAntisymmetric(a[1..], b[1..]);
      assert a == [a[0]] + a[1..] && b == [b[0]] + b[1..];
    }
  }

  lemma {:induction false} OneFirst(keys: set<string>, probe: string, first: string)
    requires IsFirstFrom(keys, probe, first)
    ensures forall other :: IsFirstFrom(keys, probe, other) ==> other == first
  {
    forall other | IsFirstFrom(keys, probe, other) ensures other == first {
      AtMostIsAntisymmetric(other, first);
    }
  }

  // Freezing.

  function Frozen(plans: seq<Plan>, plan: Plan, root: Root, world: World): Plan {
    plan.(mergeEntries := Winning(plans, plan, plan.entries, root, world))
  }

  ghost predicate DistinctArchives(plans: seq<Plan>) {
    forall i, j :: 0 <= i < j < |plans| ==> plans[i].archive != plans[j].archive
  }

  /** The first participant is the first Archive, in precedence order, that provides the game path. */
  lemma {:induction false} FirstProvider(plans: seq<Plan>, i: nat, key: string, world: World)
    returns (providers: seq<Archive>)
    requires DistinctArchives(plans) && i < |plans|
    ensures providers == Providers(plans, key, world)
    ensures (providers != [] && providers[0] == plans[i].archive)
       <==> (Provides(plans[i], key, world) && forall j :: 0 <= j < i ==> !Provides(plans[j], key, world))
  {
    if j :| 0 <= j < |plans| && Provides(plans[j], key, world) {
      var first := HighestProvider(plans, j, key, world);
      providers := HeadProvider(plans, first, key, world);
      assert plans[first].archive == plans[i].archive ==> first == i;
    } else {
      NoProvider(plans, key, world);
      providers := [];
    }
  }

  lemma {:induction false} NoProvider(plans: seq<Plan>, key: string, world: World)
    ensures Providers(plans, key, world) == [] <==> forall i :: 0 <= i < |plans| ==> !Provides(plans[i], key, world)
  {
    if plans != [] { NoProvider(plans[..|plans| - 1], key, world); }
  }

  lemma {:induction false} HeadProvider(plans: seq<Plan>, i: nat, key: string, world: World)
    returns (providers: seq<Archive>)
    requires i < |plans| && Provides(plans[i], key, world)
    requires forall k :: 0 <= k < i ==> !Provides(plans[k], key, world)
    ensures providers == Providers(plans, key, world) && providers != [] && providers[0] == plans[i].archive
    decreases |plans|
  {
    var rest, last := plans[..|plans| - 1], plans[|plans| - 1];
    providers := Providers(plans, key, world);
    if i < |rest| {
      var before := HeadProvider(rest, i, key, world);
      assert providers == before + if Provides(last, key, world) then [last.archive] else [];
    } else {
      NoProvider(rest, key, world);
    }
  }

  lemma {:induction false} HighestProvider(plans: seq<Plan>, j: nat, key: string, world: World) returns (i: nat)
    requires j < |plans| && Provides(plans[j], key, world)
    ensures i <= j && Provides(plans[i], key, world)
    ensures forall k :: 0 <= k < i ==> !Provides(plans[k], key, world)
  {
    if k :| 0 <= k < j && Provides(plans[k], key, world) {
      i := HighestProvider(plans, k, key, world);
    } else {
      i := j;
    }
  }

  lemma {:induction false} WinningIsWhatWins(plans: seq<Plan>, plan: Plan, entries: seq<string>, root: Root,
                                             world: World)
    ensures forall local :: local in Winning(plans, plan, entries, root, world)
                       <==> local in entries && Wins(plans, plan, local, root, world)
  {
    if entries != [] { WinningIsWhatWins(plans, plan, entries[..|entries| - 1], root, world); }
  }

  /**
   * A frozen plan merges exactly the game paths it provides that no Loose Asset holds and no Archive before it
   * provides.
   */
  lemma {:induction false} HighestMerges(plans: seq<Plan>, i: nat, key: string, root: Root, world: World)
    requires DistinctArchives(plans) && i < |plans|
    ensures key in MergedBy(Frozen(plans, plans[i], root, world), world)
       <==> (Provides(plans[i], key, world) && key !in root.loose
             && forall j :: 0 <= j < i ==> !Provides(plans[j], key, world))
  {
    var plan := plans[i];
    var winning := Winning(plans, plan, plan.entries, root, world);
    WinningIsWhatWins(plans, plan, plan.entries, root, world);
    var providers := FirstProvider(plans, i, key, world);
    InKeysOf(plan.archive, winning, key, world);
    if key in MergedBy(Frozen(plans, plan, root, world), world) {
      var k :| 0 <= k < |winning| && Key(plan.archive, winning[k], world) == key;
      assert winning[k] in winning;
      assert Wins(plans, plan, winning[k], root, world);
    }
    if Provides(plan, key, world) && key !in root.loose && forall j :: 0 <= j < i ==> !Provides(plans[j], key, world) {
      var k :| 0 <= k < |plan.entries| && Key(plan.archive, plan.entries[k], world) == key;
      assert Wins(plans, plan, plan.entries[k], root, world);
      assert plan.entries[k] in winning;
    }
  }

  /** In a frozen Mod Root, each provided game path with no Loose Asset is merged by exactly one Archive. */
  lemma {:induction false} MergedByExactlyOne(plans: seq<Plan>, key: string, root: Root, world: World) returns (i: nat)
    requires DistinctArchives(plans)
    requires key !in root.loose && exists j :: 0 <= j < |plans| && Provides(plans[j], key, world)
    ensures i < |plans| && key in MergedBy(Frozen(plans, plans[i], root, world), world)
    ensures forall j :: 0 <= j < |plans| && j != i ==> key !in MergedBy(Frozen(plans, plans[j], root, world), world)
    ensures forall j :: 0 <= j < i ==> !Provides(plans[j], key, world)
  {
    var j :| 0 <= j < |plans| && Provides(plans[j], key, world);
    i := HighestProvider(plans, j, key, world);
    HighestMerges(plans, i, key, root, world);
    forall j | 0 <= j < |plans| && j != i ensures key !in MergedBy(Frozen(plans, plans[j], root, world), world) {
      HighestMerges(plans, j, key, root, world);
    }
  }

  lemma {:induction false} InMergedKeys(plans: seq<Plan>, key: string, world: World)
    ensures key in MergedKeys(plans, world) <==> exists i :: 0 <= i < |plans| && key in MergedBy(plans[i], world)
  {
    if plans != [] {
      InMergedKeys(plans[..|plans| - 1], key, world);
      assert forall i :: 0 <= i < |plans| - 1 ==> plans[..|plans| - 1][i] == plans[i];
    }
  }

  lemma {:induction false} InContested(plans: seq<Plan>, key: string, root: Root, world: World)
    ensures key in Contested(plans, root, world)
       <==> key !in root.loose && exists i :: 0 <= i < |plans| && Provides(plans[i], key, world)
  {
    if plans != [] {
      InContested(plans[..|plans| - 1], key, root, world);
      InKeysOf(plans[|plans| - 1].archive, plans[|plans| - 1].entries, key, world);
      assert forall i :: 0 <= i < |plans| - 1 ==> plans[..|plans| - 1][i] == plans[i];
    }
  }

  ghost predicate AreFrozen(frozen: seq<Plan>, plans: seq<Plan>, root: Root, world: World) {
    |frozen| <= |plans| && forall i :: 0 <= i < |frozen| ==> frozen[i] == Frozen(plans, plans[i], root, world)
  }

  lemma {:induction false} FrozenGrows(frozen: seq<Plan>, plans: seq<Plan>, next: Plan, root: Root, world: World)
    requires AreFrozen(frozen, plans, root, world) && |frozen| < |plans|
    requires next == Frozen(plans, plans[|frozen|], root, world)
    ensures AreFrozen(frozen + [next], plans, root, world)
  {
  }

  lemma {:induction false} MergedIsContested(frozen: seq<Plan>, plans: seq<Plan>, key: string, root: Root, world: World)
    requires DistinctArchives(plans) && AreFrozen(frozen, plans, root, world)
    requires key in MergedKeys(frozen, world)
    ensures key in Contested(plans, root, world)
  {
    InMergedKeys(frozen, key, world);
    InContested(plans, key, root, world);
    var i :| 0 <= i < |frozen| && key in MergedBy(frozen[i], world);
    HighestMerges(plans, i, key, root, world);
  }

  /** Nothing provided is lost: the frozen plans merge every game path no Loose Asset holds. */
  lemma {:induction false} AllContestedAreMerged(frozen: seq<Plan>, plans: seq<Plan>, root: Root, world: World)
    requires DistinctArchives(plans) && AreFrozen(frozen, plans, root, world) && |frozen| == |plans|
    ensures MergedKeys(frozen, world) == Contested(plans, root, world)
  {
    forall key ensures key in MergedKeys(frozen, world) <==> key in Contested(plans, root, world) {
      InMergedKeys(frozen, key, world);
      InContested(plans, key, root, world);
      if key in MergedKeys(frozen, world) { MergedIsContested(frozen, plans, key, root, world); }
      if key in Contested(plans, root, world) {
        var i := MergedByExactlyOne(plans, key, root, world);
      }
    }
  }

  ghost predicate NoRepeats<T>(items: seq<T>) {
    forall i, j :: 0 <= i < j < |items| ==> items[i] != items[j]
  }

  /** A Mod Root read in full: every distinct Archive's plan, and who provides each game path. */
  ghost predicate IsReadWhole(plans: seq<Plan>, provided: map<string, seq<Archive>>, root: Root, world: World) {
    AllRead(plans, root, world) && AreParticipants(provided, plans, world) && NoRepeats(root.archives)
  }

  /** Every Archive reads, and the winners can coexist. */
  ghost predicate CanFreeze(root: Root, world: World) {
    exists plans :: AllRead(plans, root, world) && Antichain(Contested(plans, root, world))
  }

  /** A Mod Root's frozen plans, from one reading of it. */
  ghost predicate IsFrozenFrom(frozen: seq<Plan>, plans: seq<Plan>, root: Root, world: World) {
    && AllRead(plans, root, world) && DistinctArchives(plans) && Antichain(Contested(plans, root, world))
    && |frozen| == |plans| && AreFrozen(frozen, plans, root, world)
  }

  /** The plans as they were read, before any winner was frozen. */
  function AsRead(frozen: seq<Plan>): (plans: seq<Plan>)
    ensures |plans| == |frozen|
    ensures forall i :: 0 <= i < |plans| ==> plans[i] == frozen[i].(mergeEntries := [])
  {
    seq(|frozen|, i requires 0 <= i < |frozen| => frozen[i].(mergeEntries := []))
  }

  ghost predicate IsFrozen(frozen: seq<Plan>, root: Root, world: World) {
    IsFrozenFrom(frozen, AsRead(frozen), root, world)
  }

  lemma {:induction false} ReadBeforeFrozen(frozen: seq<Plan>, plans: seq<Plan>, root: Root, world: World)
    requires AllRead(plans, root, world) && AreFrozen(frozen, plans, root, world) && |frozen| == |plans|
    ensures AsRead(frozen) == plans
  {
    assert forall i :: 0 <= i < |plans| ==> plans[i].mergeEntries == [];
  }

  // Many Mod Roots.

  ghost predicate AreReadWhole(
    read: seq<seq<Plan>>, provided: seq<map<string, seq<Archive>>>, roots: seq<Root>, world: World)
  {
    && |read| == |provided| <= |roots|
    && forall k :: 0 <= k < |read| ==> IsReadWhole(read[k], provided[k], roots[k], world)
  }

  ghost predicate AllFrozen(frozen: seq<seq<Plan>>, roots: seq<Root>, world: World) {
    |frozen| <= |roots| && forall k :: 0 <= k < |frozen| ==> IsFrozen(frozen[k], roots[k], world)
  }

  ghost predicate AllCanFreeze(roots: seq<Root>, world: World) {
    forall k :: 0 <= k < |roots| ==> CanFreeze(roots[k], world)
  }

  lemma {:induction false} OneMoreRead(
    read: seq<seq<Plan>>, provided: seq<map<string, seq<Archive>>>, plans: seq<Plan>,
    more: map<string, seq<Archive>>, roots: seq<Root>, world: World)
    requires AreReadWhole(read, provided, roots, world) && |read| < |roots|
    requires IsReadWhole(plans, more, roots[|read|], world)
    ensures AreReadWhole(read + [plans], provided + [more], roots, world)
  {
  }

  lemma {:induction false} OneMoreFrozen(frozen: seq<seq<Plan>>, plans: seq<Plan>, roots: seq<Root>, world: World)
    requires AllFrozen(frozen, roots, world) && |frozen| < |roots| && IsFrozen(plans, roots[|frozen|], world)
    ensures AllFrozen(frozen + [plans], roots, world)
  {
  }

  lemma {:induction false} OneCannotFreeze(roots: seq<Root>, i: nat, world: World)
    requires i < |roots| && !CanFreeze(roots[i], world)
    ensures !AllCanFreeze(roots, world)
  {
  }

  // What the user is told of shared game paths.

  datatype Collision = Collision(key: string, winning: Archive, shadowed: seq<Archive>, looseWins: bool)

  function Collisions(provided: map<string, seq<Archive>>, root: Root): set<Collision> {
    set key | key in provided && |provided[key]| >= 2 ::
      Collision(key, provided[key][0], provided[key][1..], key in root.loose)
  }

  /** A reported collision names the one Archive whose frozen plan merges the path, unless a Loose Asset wins it. */
  lemma {:induction false} CollisionNamesTheMerger(plans: seq<Plan>, provided: map<string, seq<Archive>>,
                                                   collision: Collision, root: Root, world: World)
    returns (i: nat)
    requires DistinctArchives(plans) && AreParticipants(provided, plans, world)
    requires collision in Collisions(provided, root)
    ensures i < |plans| && plans[i].archive == collision.winning
    ensures [collision.winning] + collision.shadowed == Providers(plans, collision.key, world)
    ensures collision.looseWins <==> collision.key !in MergedBy(Frozen(plans, plans[i], root, world), world)
  {
    var key := collision.key;
    var j := SomeProvider(plans, key, world);
    i := HighestProvider(plans, j, key, world);
    var providers := HeadProvider(plans, i, key, world);
    assert [providers[0]] + providers[1..] == providers;
    HighestMerges(plans, i, key, root, world);
  }

  lemma {:induction false} SomeProvider(plans: seq<Plan>, key: string, world: World) returns (j: nat)
    requires Providers(plans, key, world) != []
    ensures j < |plans| && Provides(plans[j], key, world)
  {
    NoProvider(plans, key, world);
    j :| 0 <= j < |plans| && Provides(plans[j], key, world);
  }
}
