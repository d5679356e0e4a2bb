/** The Capacity Check: each Mod Root against the demand on its volume, over volume identities frozen for the run. */
module CapacityCheck {
  import opened CapacityDemand
  import opened GamePaths

  type Volume = string

  /** The identities frozen so far; an unknown answer is frozen like any other. */
  type Identities = map<string, Option<Volume>>

  /** Later checks see every answer that earlier ones froze. */
  ghost predicate Extends(later: Identities, earlier: Identities) {
    forall root :: root in earlier ==> root in later && later[root] == earlier[root]
  }

  function Known(ids: Identities, root: string): Option<Volume> {
    if root in ids then ids[root] else None
  }

  function OnVolume(ids: Identities, volume: Option<Volume>): string -> bool {
    other => Known(ids, other) == volume
  }

  /** The rows with demand. */
  predicate Needs(row: Row) {
    row.bytes != 0
  }

  predicate OnlyRoot(rows: seq<Row>, root: string) {
    forall i :: 0 <= i < |rows| && Needs(rows[i]) ==> rows[i].root == root
  }

  predicate AllKnown(rows: seq<Row>, ids: Identities) {
    forall i :: 0 <= i < |rows| && Needs(rows[i]) ==> Known(ids, rows[i].root).Some?
  }

  /**
   * What a root is checked against, given the identities: the demand on its volume, or all of it when any is unknown.
   */
  function Required(rows: seq<Row>, total: U64, root: string, ids: Identities): U64 {
    if OnlyRoot(rows, root) || Known(ids, root).None? || !AllKnown(rows, ids) then total
    else Sat(Grouped(rows, OnVolume(ids, Known(ids, root))))
  }

  /** Enough has been frozen that nothing frozen later changes what the root is checked against. */
  ghost predicate IsSettled(rows: seq<Row>, root: string, ids: Identities) {
    || OnlyRoot(rows, root)
    || (root in ids
        && (|| ids[root].None?
            || (exists i :: 0 <= i < |rows| && Needs(rows[i]) && rows[i].root in ids && ids[rows[i].root].None?)
            || (forall i :: 0 <= i < |rows| && Needs(rows[i]) ==> rows[i].root in ids)))
  }

  lemma {:induction false} SameGroups(rows: seq<Row>, on: string -> bool, same: string -> bool)
    requires forall i :: 0 <= i < |rows| && Needs(rows[i]) ==> on(rows[i].root) == same(rows[i].root)
    ensures Grouped(rows, on) == Grouped(rows, same)
  {
    if rows != [] {
      assert forall i :: 0 <= i < |rows| - 1 ==> rows[..|rows| - 1][i] == rows[i];
      SameGroups(rows[..|rows| - 1], on, same);
    }
  }

  /** Every later check over the frozen volumes charges the root the same, whatever was looked up in between. */
  lemma {:induction false} RequirementIsFrozen(rows: seq<Row>, total: U64, root: string, earlier: Identities,
                                               later: Identities)
    requires IsSettled(rows, root, earlier) && Extends(later, earlier)
    ensures IsSettled(rows, root, later) && Required(rows, total, root, later) == Required(rows, total, root, earlier)
  {
    if !OnlyRoot(rows, root) && earlier[root].Some? {
      if i :| 0 <= i < |rows| && Needs(rows[i]) && rows[i].root in earlier && earlier[rows[i].root].None? {
        assert Known(earlier, rows[i].root).None? && Known(later, rows[i].root).None?;
      } else {
        assert forall i :: 0 <= i < |rows| && Needs(rows[i]) ==>
                 Known(later, rows[i].root) == Known(earlier, rows[i].root);
        SameGroups(rows, OnVolume(earlier, earlier[root]), OnVolume(later, later[root]));
      }
    }
  }

  /** The identities are true: whatever is known is the root's actual volume. */
  ghost predicate AreTrue(ids: Identities, volumeOf: string -> Volume) {
    forall root :: root in ids && ids[root].Some? ==> ids[root].value == volumeOf(root)
  }

  /**
   * Unknown volumes only raise a requirement, and never past the whole demand: whatever is known, a root is charged at
   * least the true demand on its own volume, clamped, and at most the total.
   */
  lemma {:induction false} RequirementIsConservative(estimates: seq<Estimate>, root: string, ids: Identities,
                                                     volumeOf: string -> Volume)
    requires AreTrue(ids, volumeOf)
    ensures var rows := Rows(Order(estimates), estimates);
            Sat(Where(estimates, other => volumeOf(other) == volumeOf(root)))
            <= Required(rows, Sat(Total(estimates)), root, ids) <= Sat(Total(estimates))
  {
    var rows := Rows(Order(estimates), estimates);
    var shared := other => volumeOf(other) == volumeOf(root);
    WhereIsMonotone(estimates, shared, shared);
    if !OnlyRoot(rows, root) && Known(ids, root).Some? && AllKnown(rows, ids) {
      SameGroups(rows, OnVolume(ids, Known(ids, root)), shared);
      GroupsAreTrue(estimates, shared);
    }
  }

  lemma {:induction false} WhereAll(estimates: seq<Estimate>, all: string -> bool)
    requires forall root :: all(root)
    ensures Where(estimates, all) == Total(estimates)
  {
    if estimates != [] { WhereAll(estimates[..|estimates| - 1], all); }
  }

  /**
   * With every volume in question known, a root is charged exactly the true demand on its own; with any unknown,
   * exactly everything.
   */
  lemma {:induction false} RequirementIsExact(estimates: seq<Estimate>, root: string, ids: Identities,
                                              volumeOf: string -> Volume)
    requires AreTrue(ids, volumeOf)
    ensures var rows := Rows(Order(estimates), estimates);
            Required(rows, Sat(Total(estimates)), root, ids)
            == if Known(ids, root).Some?
                  && forall i :: 0 <= i < |rows| && rows[i].bytes != 0 ==> Known(ids, rows[i].root).Some?
               then Sat(Where(estimates, other => volumeOf(other) == volumeOf(root))) else Sat(Total(estimates))
  {
    var rows := Rows(Order(estimates), estimates);
    var shared := other => volumeOf(other) == volumeOf(root);
    var all := (other: string) => true;
    GroupsAreTrue(estimates, shared);
    GroupsAreTrue(estimates, all);
    WhereAll(estimates, all);
    if OnlyRoot(rows, root) {
      SameGroups(rows, shared, all);
    } else if Known(ids, root).Some? && AllKnown(rows, ids) {
      SameGroups(rows, OnVolume(ids, Known(ids, root)), shared);
    }
  }

  // Checking.

  datatype Shortage = Shortage(root: string, required: U64, available: U64)

  /** The probe's answers: a volume's identity, or unknown. */
  type Probe = string -> Option<Volume>

  /** What looking up volumes may do: freeze some more, as the probe answers, or as unknown when it cannot. */
  ghost predicate FrozenBy(later: Identities, earlier: Identities, probe: Probe) {
    && Extends(later, earlier)
    && forall root :: root in later && root !in earlier ==> later[root] == None || later[root] == probe(root)
  }

  /** The volume identities that one run's Capacity Checks share. */
  class FrozenVolumes {
    var frozen: Identities

    constructor ()
      ensures frozen == map[]
    {
      frozen := map[];
    }

    /** Another check over these volumes may freeze roots at any time, but never changes an answer. */
    method OtherChecks(probe: Probe)
      modifies this
      ensures FrozenBy(frozen, old(frozen), probe)
    {
      var roots: set<string> := *;
      var unknown: set<string> := *;
      frozen := (map root | root in roots :: if root in unknown then None else probe(root)) + frozen;
    }

    /** A root's identity, frozen the first time any check asks; the probe runs without the lock and may fail. */
    method VolumeIdentity(root: string, probe: Probe) returns (volume: Option<Volume>)
      modifies this
      ensures FrozenBy(frozen, old(frozen), probe) && root in frozen && volume == frozen[root]
    {
      if root in frozen { return frozen[root]; }
      var panics: bool := *;
      var answer := if panics then None else probe(root);
      OtherChecks(probe);
      if root !in frozen { frozen := frozen[root := answer]; }
      volume := frozen[root];
    }
  }

  /** Rows looked up and known, with the clamped sum of those on a volume. */
  ghost predicate IsSummed(rows: seq<Row>, required: U64, volume: Option<Volume>, ids: Identities) {
    && (forall k :: 0 <= k < |rows| && Needs(rows[k]) ==> rows[k].root in ids && ids[rows[k].root].Some?)
    && required == Sat(Grouped(rows, OnVolume(ids, volume)))
  }

  lemma {:induction false} SumGrows(rows: seq<Row>, row: Row, required: U64, volume: Option<Volume>, before: Identities,
                                    after: Identities)
    requires volume.Some? && IsSummed(rows, required, volume, before) && Extends(after, before)
    requires Needs(row) ==> row.root in after && after[row.root].Some?
    ensures IsSummed(rows + [row],
                     if Needs(row) && after[row.root] == volume then Sat(required + row.bytes) else required,
                     volume, after)
  {
    SameGroups(rows, OnVolume(before, volume), OnVolume(after, volume));
    assert (rows + [row])[..|rows|] == rows;
  }

  method RequiredAt(rows: seq<Row>, total: U64, root: string, volumes: FrozenVolumes, probe: Probe)
    returns (required: U64)
    modifies volumes
    ensures FrozenBy(volumes.frozen, old(volumes.frozen), probe) && IsSettled(rows, root, volumes.frozen)
    ensures required == Required(rows, total, root, volumes.frozen)
  {
    if OnlyRoot(rows, root) { return total; }
    var volume := volumes.VolumeIdentity(root, probe);
    if volume.None? { return total; }
    required := 0;
    for i := 0 to |rows|
      invariant FrozenBy(volumes.frozen, old(volumes.frozen), probe)
      invariant root in volumes.frozen && volumes.frozen[root] == volume
      invariant IsSummed(rows[..i], required, volume, volumes.frozen)
    {
      ghost var before := volumes.frozen;
      assert rows[..i + 1] == rows[..i] + [rows[i]];
      if Needs(rows[i]) {
        var other := volumes.VolumeIdentity(rows[i].root, probe);
        if other.None? { return total; }
        SumGrows(rows[..i], rows[i], required, volume, before, volumes.frozen);
        if other == volume { required := Sat(required + rows[i].bytes); }
      } else {
        SumGrows(rows[..i], rows[i], required, volume, before, volumes.frozen);
      }
    }
    assert rows[..|rows|] == rows;
  }

  /** The shortage at one root, unless its demand fits or its free space is unknown. */
  method ShortageAt(rows: seq<Row>, total: U64, root: string, volumes: FrozenVolumes, probe: Probe,
                    free: string -> Option<U64>)
    returns (shortage: Option<Shortage>)
    modifies volumes
    ensures FrozenBy(volumes.frozen, old(volumes.frozen), probe) && IsSettled(rows, root, volumes.frozen)
    ensures shortage.Some? <==> free(root).Some? && free(root).value < Required(rows, total, root, volumes.frozen)
    ensures shortage.Some? ==>
              shortage.value == Shortage(root, Required(rows, total, root, volumes.frozen), free(root).value)
  {
    var required := RequiredAt(rows, total, root, volumes, probe);
    if free(root).None? { return None; }
    shortage := if free(root).value < required then Some(Shortage(root, required, free(root).value)) else None;
  }

  /** A root that its free space is known to hold. */
  ghost predicate Fits(rows: seq<Row>, total: U64, root: string, ids: Identities, free: string -> Option<U64>) {
    IsSettled(rows, root, ids) && (free(root).Some? ==> Required(rows, total, root, ids) <= free(root).value)
  }

  lemma {:induction false} StillFits(rows: seq<Row>, total: U64, root: string, earlier: Identities, later: Identities,
                                     free: string -> Option<U64>)
    requires Fits(rows, total, root, earlier, free) && Extends(later, earlier)
    ensures Fits(rows, total, root, later, free)
  {
    RequirementIsFrozen(rows, total, root, earlier, later);
  }

  /** The first shortage, in the order roots were added, among those with demand of their own. */
  method FirstShortage(rows: seq<Row>, total: U64, volumes: FrozenVolumes, probe: Probe, free: string -> Option<U64>)
    returns (shortage: Option<Shortage>, ghost at: nat)
    modifies volumes
    ensures FrozenBy(volumes.frozen, old(volumes.frozen), probe) && at <= |rows|
    ensures forall k :: 0 <= k < at && rows[k].bytes != 0 ==> Fits(rows, total, rows[k].root, volumes.frozen, free)
    ensures if shortage.None? then at == |rows|
            else && at < |rows| && rows[at].bytes != 0 && shortage.value.root == rows[at].root
                 && free(rows[at].root) == Some(shortage.value.available)
                 && shortage.value.required == Required(rows, total, rows[at].root, volumes.frozen)
                 && shortage.value.available < shortage.value.required
  {
    for i := 0 to |rows|
      invariant FrozenBy(volumes.frozen, old(volumes.frozen), probe)
      invariant forall k :: 0 <= k < i && Needs(rows[k]) ==> Fits(rows, total, rows[k].root, volumes.frozen, free)
    {
      if Needs(rows[i]) {
        ghost var before := volumes.frozen;
        shortage := ShortageAt(rows, total, rows[i].root, volumes, probe, free);
        forall k | 0 <= k < i && Needs(rows[k]) ensures Fits(rows, total, rows[k].root, volumes.frozen, free) {
          StillFits(rows, total, rows[k].root, before, volumes.frozen, free);
        }
        if shortage.Some? { return shortage, i; }
      }
    }
    return None, |rows|;
  }

  /**
   * No shortage is a promise: a root with demand and known free space, short of what 64 bits can count, can hold
   * everything demanded of its actual volume.
   */
  lemma {:induction false} NoShortageMeansRoom(estimates: seq<Estimate>, root: string, ids: Identities,
                                               volumeOf: string -> Volume, free: string -> Option<U64>)
    requires AreTrue(ids, volumeOf)
    requires Fits(Rows(Order(estimates), estimates), Sat(Total(estimates)), root, ids, free)
    requires free(root).Some? && free(root).value < U64_MAX
    ensures Where(estimates, other => volumeOf(other) == volumeOf(root)) <= free(root).value
  {
    RequirementIsConservative(estimates, root, ids, volumeOf);
  }
}
