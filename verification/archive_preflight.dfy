/** Archive discovery's preflight: read every manifest, decide each game path's winner, freeze the plans. */
module ArchivePreflight {
  import opened GamePaths

  datatype Entry = Entry(name: string, size: nat)

  /** An Archive, by its path and by its directory's game path within the Mod Root. */
  datatype Archive = Archive(path: string, directory: string)

  /** One Mod Root's pass: its Archives from high to low precedence, and the folded game paths of Loose Assets. */
  datatype Root = Root(path: string, archives: seq<Archive>, loose: set<string>)

  /** What the preflight asks of its surroundings. */
  datatype World = World(
    manifest: Archive -> Option<seq<Entry>>,
    admits: (string, string, bool) -> bool,
    reserved: string -> bool,
    fold: char -> char)

  datatype Plan = Plan(archive: Archive, entries: seq<string>, mergeEntries: seq<string>)

  datatype Failure = ArchiveUnreadable(archive: Archive) | EntryInvalid(archive: Archive)

  datatype Listing = Listed(plan: Plan) | Refused(failure: Failure)

  function GamePath(archive: Archive, local: string): string {
    if archive.directory == "" then local else archive.directory + [SLASH] + local
  }

  function Key(archive: Archive, local: string, world: World): string {
    Folded(GamePath(archive, local), world.fold)
  }

  /** An entry's game path is its own path within its Archive's directory, under the fold. */
  lemma {:induction false} KeyIsInDirectory(archive: Archive, local: string, world: World)
    requires KeepsSlash(world.fold)
    ensures Key(archive, local, world)
         == (if archive.directory == "" then "" else Folded(archive.directory, world.fold) + [SLASH])
            + Folded(local, world.fold)
  {
    assert world.fold(SLASH) == SLASH;
    assert archive.directory == "" ==> "" + Folded(local, world.fold) == Folded(local, world.fold);
  }

  /** A manifest entry's canonical name, admitted by the Mod Root. */
  ghost predicate IsAdmitted(archive: Archive, local: string, entry: Entry, root: Root, world: World) {
    && CanonicalEntry(entry.name, world.reserved) == Canonical(local)
    && world.admits(root.path, GamePath(archive, local), Key(archive, local, world) in root.loose)
  }

  ghost predicate DistinctKeys(archive: Archive, entries: seq<string>, world: World) {
    forall i, j :: 0 <= i < j < |entries| ==> Key(archive, entries[i], world) != Key(archive, entries[j], world)
  }

  /** Every entry canonical and admitted by the Mod Root, in manifest order, no two for one game path. */
  ghost predicate Checked(plan: Plan, entries: seq<Entry>, root: Root, world: World) {
    && |plan.entries| == |entries|
    && (forall i :: 0 <= i < |entries| ==> IsAdmitted(plan.archive, plan.entries[i], entries[i], root, world))
    && DistinctKeys(plan.archive, plan.entries, world)
  }

  /** Whether an Archive's plan provides the folded game path `key`. */
  predicate Provides(plan: Plan, key: string, world: World) {
    exists i :: 0 <= i < |plan.entries| && Key(plan.archive, plan.entries[i], world) == key
  }

  /** The Archives that provide `key`, from high to low precedence. */
  function Providers(plans: seq<Plan>, key: string, world: World): seq<Archive> {
    if plans == [] then []
    else Providers(plans[..|plans| - 1], key, world)
         + if Provides(plans[|plans| - 1], key, world) then [plans[|plans| - 1].archive] else []
  }

  /** An entry that is no canonical game path, repeats one of `locals`, or is not admitted by the Mod Root. */
  ghost predicate Blocked(archive: Archive, locals: seq<string>, entry: Entry, root: Root, world: World) {
    var canonical := CanonicalEntry(entry.name, world.reserved);
    canonical.Rejected?
    || (exists k :: 0 <= k < |locals| && Key(archive, locals[k], world) == Key(archive, canonical.name, world))
    || !world.admits(root.path, GamePath(archive, canonical.name), Key(archive, canonical.name, world) in root.loose)
  }

  /** An Archive whose manifest can be listed and checked in full. */
  ghost predicate IsReadable(archive: Archive, root: Root, world: World) {
    && world.manifest(archive).Some?
    && exists plan: Plan :: plan.archive == archive && Checked(plan, world.manifest(archive).value, root, world)
  }

  /** The folded game paths of an Archive's entries. */
  function KeysOf(archive: Archive, entries: seq<string>, world: World): set<string> {
    if entries == [] then {}
    else KeysOf(archive, entries[..|entries| - 1], world) + {Key(archive, entries[|entries| - 1], world)}
  }

  lemma {:induction false} InKeysOf(archive: Archive, entries: seq<string>, key: string, world: World)
    ensures key in KeysOf(archive, entries, world)
       <==> exists i :: 0 <= i < |entries| && Key(archive, entries[i], world) == key
  {
    if entries != [] {
      InKeysOf(archive, entries[..|entries| - 1], key, world);
      assert forall i :: 0 <= i < |entries| - 1 ==> entries[..|entries| - 1][i] == entries[i];
    }
  }

  lemma {:induction false} BlockedWhen(archive: Archive, locals: seq<string>, entry: Entry, own: set<string>,
                                       root: Root, world: World)
    requires own == KeysOf(archive, locals, world) && CanonicalEntry(entry.name, world.reserved).Canonical?
    ensures var local := CanonicalEntry(entry.name, world.reserved).name;
            var key := Key(archive, local, world);
            Blocked(archive, locals, entry, root, world)
            <==> key in own || !world.admits(root.path, GamePath(archive, local), key in root.loose)
  {
    InKeysOf(archive, locals, Key(archive, CanonicalEntry(entry.name, world.reserved).name, world), world);
  }

  lemma {:induction false} KeysOfOneMore(archive: Archive, entries: seq<string>, entry: string, world: World)
    ensures KeysOf(archive, entries + [entry], world) == KeysOf(archive, entries, world) + {Key(archive, entry, world)}
  {
    assert (entries + [entry])[..|entries|] == entries;
  }

  method ReadArchive(archive: Archive, root: Root, world: World) returns (listing: Listing)
    ensures listing.Listed? ==>
              && listing.plan.archive == archive && listing.plan.mergeEntries == []
              && world.manifest(archive).Some? && Checked(listing.plan, world.manifest(archive).value, root, world)
    ensures listing.Listed? <==> IsReadable(archive, root, world)
  {
    var listed := world.manifest(archive);
    if listed.None? { return Refused(ArchiveUnreadable(archive)); }
    var entries := listed.value;
    var own: set<string> := {};
    var locals: seq<string> := [];
    for i := 0 to |entries|
      invariant |locals| == i
      invariant Checked(Plan(archive, locals, []), entries[..i], root, world)
      invariant own == KeysOf(archive, locals, world)
    {
      var canonical := CanonicalArchiveEntryPath(entries[i].name, world.reserved);
      if canonical.Rejected? {
        NotChecked(archive, entries, locals, i, root, world);
        return Refused(EntryInvalid(archive));
      }
      var local := canonical.name;
      var key := Key(archive, local, world);
      BlockedWhen(archive, locals, entries[i], own, root, world);
      if key in own || !world.admits(root.path, GamePath(archive, local), key in root.loose) {
        NotChecked(archive, entries, locals, i, root, world);
        return Refused(EntryInvalid(archive));
      }
      ReadingGrows(archive, locals, entries, i, root, world);
      KeysOfOneMore(archive, locals, local, world);
      own := own + {key};
      locals := locals + [local];
    }
    assert entries[..|entries|] == entries;
    return Listed(Plan(archive, locals, []));
  }

  /** Two readings of one manifest agree as far as both go. */
  lemma {:induction false} ReadingsAgree(plan: Plan, locals: seq<string>, entries: seq<Entry>, i: nat, root: Root,
                                         world: World)
    requires i <= |entries|
    requires Checked(plan, entries, root, world) && Checked(Plan(plan.archive, locals, []), entries[..i], root, world)
    ensures plan.entries[..i] == locals
  {
    assert forall k :: 0 <= k < i ==> entries[..i][k] == entries[k];
  }

  /** What any complete reading says of the entry after a partial one. */
  lemma {:induction false} NextIsChecked(plan: Plan, locals: seq<string>, entries: seq<Entry>, i: nat, root: Root,
                                         world: World)
    requires i < |entries|
    requires Checked(plan, entries, root, world) && Checked(Plan(plan.archive, locals, []), entries[..i], root, world)
    ensures !Blocked(plan.archive, locals, entries[i], root, world)
  {
    ReadingsAgree(plan, locals, entries, i, root, world);
    forall k | 0 <= k < i ensures locals[k] == plan.entries[k] {
      assert plan.entries[..i][k] == plan.entries[k];
    }
  }

  lemma {:induction false} NotChecked(archive: Archive, entries: seq<Entry>, locals: seq<string>, i: nat, root: Root,
                                      world: World)
    requires i < |entries| && Checked(Plan(archive, locals, []), entries[..i], root, world)
    requires Blocked(archive, locals, entries[i], root, world)
    ensures !exists plan: Plan :: plan.archive == archive && Checked(plan, entries, root, world)
  {
    if plan: Plan :| plan.archive == archive && Checked(plan, entries, root, world) {
      NextIsChecked(plan, locals, entries, i, root, world);
    }
  }

  /** A reading of one more entry. */
  lemma {:induction false} ReadingGrows(archive: Archive, locals: seq<string>, entries: seq<Entry>, i: nat, root: Root,
                                        world: World)
    requires i < |entries| && Checked(Plan(archive, locals, []), entries[..i], root, world)
    requires !Blocked(archive, locals, entries[i], root, world)
    ensures var more := locals + [CanonicalEntry(entries[i].name, world.reserved).name];
            Checked(Plan(archive, more, []), entries[..i + 1], root, world)
  {
    var local := CanonicalEntry(entries[i].name, world.reserved).name;
    DistinctKeysGrow(archive, locals, local, world);
    AdmittedGrow(archive, locals, local, entries, i, root, world);
  }

  lemma {:induction false} DistinctKeysGrow(archive: Archive, locals: seq<string>, local: string, world: World)
    requires DistinctKeys(archive, locals, world)
    requires forall k :: 0 <= k < |locals| ==> Key(archive, locals[k], world) != Key(archive, local, world)
    ensures DistinctKeys(archive, locals + [local], world)
  {
  }

  lemma {:induction false} AdmittedGrow(archive: Archive, locals: seq<string>, local: string, entries: seq<Entry>,
                                        i: nat, root: Root, world: World)
    requires i < |entries| && |locals| == i && IsAdmitted(archive, local, entries[i], root, world)
    requires forall k :: 0 <= k < i ==> IsAdmitted(archive, locals[k], entries[..i][k], root, world)
    ensures forall k :: 0 <= k < i + 1 ==> IsAdmitted(archive, (locals + [local])[k], entries[..i + 1][k], root, world)
  {
    forall k | 0 <= k < i + 1 ensures IsAdmitted(archive, (locals + [local])[k], entries[..i + 1][k], root, world) {
      if k < i {
        assert (locals + [local])[k] == locals[k] && entries[..i + 1][k] == entries[..i][k];
      } else {
        assert (locals + [local])[k] == local && entries[..i + 1][k] == entries[i];
      }
    }
  }

  /** Every Archive of a Mod Root listed and checked, in precedence order, before anything is won. */
  ghost predicate AllRead(plans: seq<Plan>, root: Root, world: World) {
    && |plans| == |root.archives|
    && forall i :: 0 <= i < |plans| ==>
         && plans[i].archive == root.archives[i] && plans[i].mergeEntries == []
         && world.manifest(root.archives[i]).Some?
         && Checked(plans[i], world.manifest(root.archives[i]).value, root, world)
  }

  /** The participants of every provided game path. */
  ghost predicate AreParticipants(provided: map<string, seq<Archive>>, plans: seq<Plan>, world: World) {
    forall key :: (key in provided <==> Providers(plans, key, world) != [])
                  && (key in provided ==> provided[key] == Providers(plans, key, world))
  }

  lemma {:induction false} ProvidersOfOneMore(plans: seq<Plan>, plan: Plan, key: string, world: World)
    ensures Providers(plans + [plan], key, world)
         == Providers(plans, key, world) + if Provides(plan, key, world) then [plan.archive] else []
  {
    assert (plans + [plan])[..|plans|] == plans;
  }

  lemma {:induction false} OneMoreEntry(plan: Plan, i: nat, key: string, world: World)
    requires i < |plan.entries|
    ensures Provides(plan.(entries := plan.entries[..i + 1]), key, world)
       <==> Provides(plan.(entries := plan.entries[..i]), key, world)
            || Key(plan.archive, plan.entries[i], world) == key
  {
    var fewer, more := plan.entries[..i], plan.entries[..i + 1];
    assert forall k :: 0 <= k < i ==> more[k] == fewer[k];
    assert more[i] == plan.entries[i];
  }

  lemma {:induction false} NothingAdded(provided: map<string, seq<Archive>>, plans: seq<Plan>, plan: Plan, world: World)
    requires AreParticipants(provided, plans, world) && plan.entries == []
    ensures AreParticipants(provided, plans + [plan], world)
  {
    forall key { ProvidersOfOneMore(plans, plan, key, world); }
  }

  /** Adds one plan's keys to the participants, each once. */
  method AddParticipants(provided: map<string, seq<Archive>>, plan: Plan, ghost plans: seq<Plan>, world: World)
    returns (more: map<string, seq<Archive>>)
    requires AreParticipants(provided, plans, world)
    requires DistinctKeys(plan.archive, plan.entries, world)
    ensures AreParticipants(more, plans + [plan], world)
  {
    more := provided;
    ghost var all := plans + [plan.(entries := plan.entries[..0])];
    NothingAdded(provided, plans, plan.(entries := plan.entries[..0]), world);
    for i := 0 to |plan.entries|
      invariant all == plans + [plan.(entries := plan.entries[..i])] && AreParticipants(more, all, world)
    {
      var key := Key(plan.archive, plan.entries[i], world);
      ghost var next;
      next, all := AddedKey(more, plans, plan, i, world);
      more := more[key := (if key in more then more[key] else []) + [plan.archive]];
    }
    assert plan.entries[..|plan.entries|] == plan.entries;
  }

  lemma {:induction false} AddedKey(provided: map<string, seq<Archive>>, plans: seq<Plan>, plan: Plan, i: nat,
                                    world: World)
    returns (next: map<string, seq<Archive>>, all: seq<Plan>)
    requires i < |plan.entries|
    requires AreParticipants(provided, plans + [plan.(entries := plan.entries[..i])], world)
    requires forall j :: 0 <= j < i ==>
               Key(plan.archive, plan.entries[j], world) != Key(plan.archive, plan.entries[i], world)
    ensures var key := Key(plan.archive, plan.entries[i], world);
            next == provided[key := (if key in provided then provided[key] else []) + [plan.archive]]
    ensures all == plans + [plan.(entries := plan.entries[..i + 1])] && AreParticipants(next, all, world)
  {
    var key := Key(plan.archive, plan.entries[i], world);
    var fewer, more := plan.(entries := plan.entries[..i]), plan.(entries := plan.entries[..i + 1]);
    next := provided[key := (if key in provided then provided[key] else []) + [plan.archive]];
    all := plans + [more];
    assert !Provides(fewer, key, world);
    forall other
      ensures Providers(all, other, world)
           == Providers(plans + [fewer], other, world) + if other == key then [plan.archive] else []
    {
      ProvidersOfOneMore(plans, fewer, other, world);
      ProvidersOfOneMore(plans, more, other, world);
      OneMoreEntry(plan, i, other, world);
    }
  }

  /** A Mod Root reads in one way only. */
  lemma {:induction false} OneReading(plans: seq<Plan>, others: seq<Plan>, root: Root, world: World)
    requires AllRead(plans, root, world) && AllRead(others, root, world)
    ensures plans == others
  {
    forall i | 0 <= i < |plans| ensures plans[i] == others[i] {
      var entries := world.manifest(root.archives[i]).value;
      forall k | 0 <= k < |entries| ensures plans[i].entries[k] == others[i].entries[k] {
        assert CanonicalEntry(entries[k].name, world.reserved) == Canonical(plans[i].entries[k]);
      }
    }
  }

  /** Where cancellation is seen: before the `j`th Archive of the `i`th Mod Root. */
  type Seen = (nat, nat) -> bool

  datatype Stop = Failing(failure: Failure) | Stopping

  /** The `r`th Mod Root's first `n` Archives are readable, and cancellation is seen before none of them. */
  ghost predicate ReadsUpTo(root: Root, r: nat, n: nat, world: World, seen: Seen) {
    n <= |root.archives| && forall i :: 0 <= i < n ==> IsReadable(root.archives[i], root, world) && !seen(r, i)
  }

  ghost predicate ReadsWhole(root: Root, r: nat, world: World, seen: Seen) {
    ReadsUpTo(root, r, |root.archives|, world, seen)
  }

  ghost predicate IsStoppedAt(root: Root, r: nat, i: nat, world: World, seen: Seen) {
    i < |root.archives| && ReadsUpTo(root, r, i, world, seen) && seen(r, i)
  }

  ghost predicate FailsAt(root: Root, r: nat, i: nat, world: World, seen: Seen) {
    i < |root.archives| && ReadsUpTo(root, r, i, world, seen) && !seen(r, i)
    && !IsReadable(root.archives[i], root, world)
  }

  /** Cancellation is seen before a Mod Root's reading ends of itself. */
  ghost predicate IsStopped(root: Root, r: nat, world: World, seen: Seen) {
    exists i :: IsStoppedAt(root, r, i, world, seen)
  }

  method ReadRoot(root: Root, r: nat, world: World, seen: Seen)
    returns (stop: Option<Stop>, plans: seq<Plan>, provided: map<string, seq<Archive>>)
    ensures stop.None? <==> ReadsWhole(root, r, world, seen)
    ensures stop.None? ==> AllRead(plans, root, world) && AreParticipants(provided, plans, world)
    ensures stop == Some(Stopping) <==> IsStopped(root, r, world, seen)
    ensures stop.Some? && stop.value.Failing? ==> exists i :: FailsAt(root, r, i, world, seen)
  {
    stop, plans, provided := None, [], map[];
    for i := 0 to |root.archives|
      invariant |plans| == i && AreParticipants(provided, plans, world)
      invariant ReadsUpTo(root, r, i, world, seen)
      invariant forall k :: 0 <= k < i ==>
                  && plans[k].archive == root.archives[k] && plans[k].mergeEntries == []
                  && world.manifest(root.archives[k]).Some?
                  && Checked(plans[k], world.manifest(root.archives[k]).value, root, world)
    {
      if seen(r, i) {
        assert IsStoppedAt(root, r, i, world, seen);
        return Some(Stopping), [], map[];
      }
      var listing := ReadArchive(root.archives[i], root, world);
      if listing.Refused? {
        assert FailsAt(root, r, i, world, seen);
        return Some(Failing(listing.failure)), [], map[];
      }
      provided := AddParticipants(provided, listing.plan, plans, world);
      plans := plans + [listing.plan];
    }
  }
}
