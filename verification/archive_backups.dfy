/** A Mod Root whose pass cannot be completed: one Archive's backup takes the name of another's only winner. */
module ArchiveBackups {
  import opened ArchiveExtraction
  import opened ArchiveOffers
  import opened ArchivePreflight
  import opened ArchiveStaging
  import opened ArchiveWinners
  import opened GamePaths
  import opened StandingPaths

  const HIGH := Archive("A.bsa", "")
  const LOW := Archive("B.bsa", "")
  const ROOT := Root("", [HIGH, LOW], {})

  function Manifest(archive: Archive): Option<seq<Entry>> {
    if archive == HIGH then Some([Entry("a", 0)])
    else if archive == LOW then Some([Entry("A.bsa.bak", 0)])
    else None
  }

  function TheWorld(): World {
    World(Manifest, (root: string, path: string, loose: bool) => true, (part: string) => false, (c: char) => c)
  }

  function TheSource(archive: Archive): Source {
    Source(true, Manifest(archive), true, (name: string) => [], (entry: string) => entry)
  }

  function TheFrozen(): seq<Plan> {
    [Plan(HIGH, ["a"], ["a"]), Plan(LOW, ["A.bsa.bak"], ["A.bsa.bak"])]
  }

  function TheSources(): seq<Source> {
    [TheSource(HIGH), TheSource(LOW)]
  }

  lemma {:induction false} FoldedIsSame(path: string)
    ensures Folded(path, TheWorld().fold) == path
  {
  }

  predicate IsPlain(name: string) {
    IsPart(name) && name[|name| - 1] !in ". "
  }

  lemma {:induction false} BothArePlain()
    ensures IsPlain("a") && IsPlain("A.bsa.bak")
  {
  }

  lemma {:induction false} NamesAreCanonical(name: string)
    requires IsPlain(name)
    ensures CanonicalEntry(name, TheWorld().reserved) == Canonical(name)
  {
    CanonicalOfJoin([name], TheWorld().reserved);
  }

  /** A plan of one entry that nothing else provides. */
  lemma {:induction false} OneEntry(archive: Archive, name: string, plan: Plan)
    requires archive.directory == "" && IsPlain(name)
    requires plan == Plan(archive, [name], []) && Manifest(archive) == Some([Entry(name, 0)])
    ensures Checked(plan, [Entry(name, 0)], ROOT, TheWorld())
    ensures forall key :: Provides(plan, key, TheWorld()) <==> key == name
  {
    NamesAreCanonical(name);
    FoldedIsSame(name);
    assert Key(archive, plan.entries[0], TheWorld()) == name;
  }

  lemma {:induction false} ProvidersOfTwo(plans: seq<Plan>, key: string)
    requires |plans| == 2 && plans[0].archive == HIGH && plans[1].archive == LOW
    requires forall k :: Provides(plans[0], k, TheWorld()) <==> k == "a"
    requires forall k :: Provides(plans[1], k, TheWorld()) <==> k == "A.bsa.bak"
    ensures Providers(plans, key, TheWorld())
         == (if key == "a" then [HIGH] else []) + (if key == "A.bsa.bak" then [LOW] else [])
  {
    assert plans == [] + [plans[0]] + [plans[1]];
    ProvidersOfOneMore([], plans[0], key, TheWorld());
    ProvidersOfOneMore([] + [plans[0]], plans[1], key, TheWorld());
  }

  lemma {:induction false} WinsAlone(plans: seq<Plan>, plan: Plan, name: string)
    requires plan.archive.directory == "" && plan.entries == [name]
    requires Providers(plans, name, TheWorld()) == [plan.archive]
    ensures Frozen(plans, plan, ROOT, TheWorld()) == plan.(mergeEntries := [name])
  {
    FoldedIsSame(name);
    assert Key(plan.archive, name, TheWorld()) == name;
    assert Wins(plans, plan, name, ROOT, TheWorld());
    var none: seq<string> := [];
    assert [name][..0] == none;
    assert Winning(plans, plan, none, ROOT, TheWorld()) == [];
    assert Winning(plans, plan, [name], ROOT, TheWorld()) == [] + [name];
  }

  lemma {:induction false} FlatIsAntichain(keys: set<string>)
    requires forall key :: key in keys ==> SLASH !in key
    ensures Antichain(keys)
  {
  }

  lemma {:induction false} NamesAreFlat()
    ensures SLASH !in "a" && SLASH !in "A.bsa.bak"
  {
  }

  lemma {:induction false} ContestedIsFlat(plans: seq<Plan>, key: string, root: Root, world: World)
    requires forall i :: 0 <= i < |plans| && Provides(plans[i], key, world) ==> SLASH !in key
    requires key in Contested(plans, root, world)
    ensures SLASH !in key
  {
    InContested(plans, key, root, world);
  }

  lemma {:induction false} ContestedLieApart(plans: seq<Plan>)
    requires |plans| == 2
    requires forall k :: Provides(plans[0], k, TheWorld()) <==> k == "a"
    requires forall k :: Provides(plans[1], k, TheWorld()) <==> k == "A.bsa.bak"
    ensures Antichain(Contested(plans, ROOT, TheWorld()))
  {
    NamesAreFlat();
    var contested := Contested(plans, ROOT, TheWorld());
    forall key | key in contested ensures SLASH !in key {
      ContestedIsFlat(plans, key, ROOT, TheWorld());
    }
    FlatIsAntichain(contested);
  }

  lemma {:induction false} TwoArchives()
    ensures HIGH != LOW
  {
    assert HIGH.path[0] != LOW.path[0];
  }

  lemma {:induction false} BothAreRead() returns (plans: seq<Plan>)
    ensures plans == [Plan(HIGH, ["a"], []), Plan(LOW, ["A.bsa.bak"], [])] == AsRead(TheFrozen())
    ensures AllRead(plans, ROOT, TheWorld()) && DistinctArchives(plans)
    ensures forall k :: Provides(plans[0], k, TheWorld()) <==> k == "a"
    ensures forall k :: Provides(plans[1], k, TheWorld()) <==> k == "A.bsa.bak"
  {
    plans := [Plan(HIGH, ["a"], []), Plan(LOW, ["A.bsa.bak"], [])];
    BothArePlain();
    OneEntry(HIGH, "a", plans[0]);
    OneEntry(LOW, "A.bsa.bak", plans[1]);
    TwoArchives();
  }

  /** A preflight freezes both plans whole. */
  lemma {:induction false} BothAreFrozen()
    ensures IsFrozen(TheFrozen(), ROOT, TheWorld())
  {
    var plans := BothAreRead();
    ProvidersOfTwo(plans, "a");
    ProvidersOfTwo(plans, "A.bsa.bak");
    WinsAlone(plans, plans[0], "a");
    WinsAlone(plans, plans[1], "A.bsa.bak");
    ContestedLieApart(plans);
  }

  // What the two find.

  function TheStart(): set<string> {
    {HIGH.path, LOW.path}
  }

  /** Without separators, only a path itself is in its way. */
  lemma {:induction false} FlatBlocks(standing: string, path: string)
    requires SLASH !in standing && SLASH !in path
    ensures Blocks(standing, path, TheWorld().fold) <==> standing == path
    ensures !IsAncestor(path, Folded(standing, TheWorld().fold))
  {
    FoldedIsSame(standing);
    FoldedIsSame(path);
  }

  /** A name that nothing stands at, among names without separators, has room. */
  lemma {:induction false} FlatIsFree(name: string, standing: set<string>)
    requires SLASH !in name && name !in standing && forall other :: other in standing ==> SLASH !in other
    ensures IsFree(name, standing, TheWorld().fold)
    ensures !IsFound(Folded(name, TheWorld().fold), standing, TheWorld().fold)
  {
    FoldedIsSame(name);
    forall other | other in standing
      ensures !Blocks(other, name, TheWorld().fold) && Folded(other, TheWorld().fold) != name
      ensures !IsAncestor(name, Folded(other, TheWorld().fold))
    {
      FlatBlocks(other, name);
      FoldedIsSame(other);
    }
  }

  lemma {:induction false} PathsAreOwn()
    ensures HaveOwnPaths(TheFrozen())
  {
    assert HIGH.path[0] != LOW.path[0];
  }

  lemma {:induction false} BothAreOffered()
    ensures AreOffered(TheFrozen(), 0, TheSources(), TheWorld(), TheStart())
  {
    FlatIsFree("a", TheStart());
    FlatIsFree("A.bsa.bak", TheStart());
  }

  /** Extracting the first Archive backs it up to where the second one's winner goes. */
  lemma {:induction false} FirstIsBackedUp()
    ensures BackupOf(TheFrozen(), TheSources(), 0, TheStart(), TheWorld().fold) == "A.bsa.bak"
  {
    var targets := TargetsOf(["a"], TheSource(HIGH));
    assert forall other :: other in targets ==> other == "a";
    var merged := TheStart() + targets;
    assert "A.bsa" + ".bak" == "A.bsa.bak";
    FlatIsFree("A.bsa.bak", merged);
  }

  lemma {:induction false} SecondIsBlocked()
    ensures !BackupsStandClear(TheFrozen(), TheSources(), TheStart(), TheWorld().fold)
  {
    FirstIsBackedUp();
    var second, source := TheFrozen()[1], TheSources()[1];
    FlatBlocks("A.bsa.bak", source.target("A.bsa.bak"));
    assert "A.bsa.bak" in second.mergeEntries;
    assert IsInTheWay("A.bsa.bak", second, source, TheWorld().fold);
  }

  /**
   * A preflight accepts the two, each is offered all it needs, and yet backing the first one up leaves the second no
   * room: an accepted pass that cannot be completed.
   */
  lemma {:induction false} BackupsCanBeInTheWay()
    returns (frozen: seq<Plan>, sources: seq<Source>, root: Root, world: World, start: set<string>)
    ensures IsFrozen(frozen, root, world) && HaveOwnPaths(frozen) && AreOffered(frozen, 0, sources, world, start)
    ensures !KeepsClear(frozen, sources, Backup, start, world.fold)
  {
    frozen, sources, root, world, start := TheFrozen(), TheSources(), ROOT, TheWorld(), TheStart();
    BothAreFrozen();
    PathsAreOwn();
    BothAreOffered();
    SecondIsBlocked();
  }
}
