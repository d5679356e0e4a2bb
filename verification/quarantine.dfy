/** Quarantine: an Asset that fails to load is renamed aside, under the first free name. */
module Quarantine {
  import opened AssetAttempts
  import opened Attempts
  import opened Decimals
  import opened DurableDisk
  import opened GamePaths

  function Candidate(path: string, k: nat): string {
    path + ".caobad" + if k == 0 then "" else "." + Digits(k)
  }

  lemma {:induction false} CandidatesAreDistinct(path: string, j: nat, k: nat)
    requires Candidate(path, j) == Candidate(path, k)
    ensures j == k
  {
    var a := if j == 0 then "" else "." + Digits(j);
    var b := if k == 0 then "" else "." + Digits(k);
    assert Candidate(path, j)[|path + ".caobad"|..] == a;
    assert Candidate(path, k)[|path + ".caobad"|..] == b;
    if j != 0 && k != 0 {
      assert a[1..] == Digits(j) && b[1..] == Digits(k);
      DigitsAreDistinct(j, k);
    }
  }

  /** The names tried: the path with `.caobad`, then with a number behind that, from one up. */
  lemma {:induction false} CandidateNames(path: string, k: nat) returns (digits: string)
    ensures k == 0 ==> Candidate(path, k) == path + ".caobad"
    ensures k > 0 ==> Candidate(path, k) == path + ".caobad." + digits && AreDigits(digits) && Value(digits) == k
  {
    digits := Digits(k);
    ValueOfDigits(k);
    assert ".caobad" + "." == ".caobad.";
  }

  function Candidates(path: string, n: nat): set<string> {
    if n == 0 then {} else Candidates(path, n - 1) + {Candidate(path, n - 1)}
  }

  lemma {:induction false} NewCandidate(path: string, n: nat, k: nat)
    requires n <= k
    ensures Candidate(path, k) !in Candidates(path, n)
  {
    if n > 0 {
      NewCandidate(path, n - 1, k);
      if Candidate(path, n - 1) == Candidate(path, k) { CandidatesAreDistinct(path, n - 1, k); }
    }
  }

  lemma {:induction false} Shrinks(all: set<string>, seen: set<string>, next: string)
    requires next in all && next !in seen
    ensures |all - (seen + {next})| < |all - seen|
  {
    assert all - seen == (all - (seen + {next})) + {next};
  }

  /** The first candidate that nothing stands at; finitely many files cannot occupy them all. */
  method FirstFree(path: string, files: map<string, File>) returns (suffix: nat)
    ensures Candidate(path, suffix) !in files
    ensures forall j: nat :: j < suffix ==> Candidate(path, j) in files
  {
    suffix := 0;
    while Candidate(path, suffix) in files
      invariant forall j: nat :: j < suffix ==> Candidate(path, j) in files
      invariant Candidates(path, suffix) <= files.Keys
      decreases |files.Keys - Candidates(path, suffix)|
    {
      NewCandidate(path, suffix, suffix);
      Shrinks(files.Keys, Candidates(path, suffix), Candidate(path, suffix));
      suffix := suffix + 1;
    }
  }

  /** Renames the Asset to its first free candidate; nothing is overwritten, and a refused rename changes nothing. */
  method QuarantineAsset(path: string, disk: Disk) returns (done: bool, ghost k: nat, ghost file: File)
    modifies disk
    ensures disk.quiet ==> old(disk.quiet)
    ensures disk.quiet && path in old(disk.files) ==> done
    ensures disk.changes == old(disk.changes) + if done then [Renamed(path, Candidate(path, k), file)] else []
    ensures disk.alone ==>
              && old(disk.alone)
              && disk.files == Replayed(old(disk.files), if done then [Renamed(path, Candidate(path, k), file)] else [])
    ensures done && disk.quiet ==>
              && path in old(disk.files) && file == old(disk.files)[path] && Candidate(path, k) !in old(disk.files)
              && forall j: nat :: j < k ==> Candidate(path, j) in old(disk.files)
  {
    k, file := 0, File(0, []);
    var fails := disk.Fails();
    disk.Interfere();
    if fails || path !in disk.files { return false, k, file; }
    var suffix := FirstFree(path, disk.files);
    fails := disk.Fails();
    if fails { return false, k, file; }
    k, file := suffix, disk.files[path];
    ReplayedOneMore(disk.files, [], Renamed(path, Candidate(path, k), file));
    disk.Rename(path, Candidate(path, suffix));
    done := true;
  }

  /** The name is the first candidate that nothing stands at. */
  ghost predicate IsFirstFree(path: string, name: string, files: map<string, File>) {
    exists k: nat :: name == Candidate(path, k) && name !in files
                     && forall j: nat :: j < k ==> Candidate(path, j) in files
  }

  /** An Apply attempt at a Texture or Mesh that failed to load. */
  predicate FailedToLoad(asset: Asset, result: Result) {
    asset.apply && (asset.target == Texture || asset.target == Mesh) && result.Failed? && result.failure == LoadFailed
  }

  /**
   * Moves aside what could not be loaded, which turns the attempt's report into one of a committed change. Where the
   * move fails the file would still be packed, so the run must stop.
   */
  method QuarantineFailedLoad(asset: Asset, result: Result, disk: Disk)
    returns (finished: Result, ghost change: seq<Change>)
    modifies disk
    ensures disk.changes == old(disk.changes) + change && |change| <= 1
    ensures disk.alone ==> old(disk.alone) && disk.files == Replayed(old(disk.files), change)
    ensures !FailedToLoad(asset, result) ==> finished == result && change == []
    ensures change != [] ==>
              change[0].Renamed? && change[0].path == asset.path && finished == result.(left := Committed)
    ensures FailedToLoad(asset, result) && change == [] ==>
              finished == result.(claimedSafe := false) && !finished.SafeToContinue()
    ensures disk.quiet && asset.path in old(disk.files) ==>
              (change != [] <==> asset.apply && (asset.target == Texture || asset.target == Mesh)
                                 && result.Failed? && result.failure == LoadFailed)
    ensures disk.quiet && change != [] ==>
              && asset.path in old(disk.files) && change[0].file == old(disk.files)[asset.path]
              && IsFirstFree(asset.path, change[0].to, old(disk.files))
  {
    change := [];
    if !FailedToLoad(asset, result) { return result, change; }
    var done, k, file := QuarantineAsset(asset.path, disk);
    if done {
      change := [Renamed(asset.path, Candidate(asset.path, k), file)];
      finished := result.(left := Committed);
    } else {
      finished := result.(claimedSafe := false);
    }
  }
}
