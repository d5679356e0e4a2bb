/** What stands where in a Mod Root: which destinations have room, and which name a backup takes. */
module StandingPaths {
  import opened GamePaths

  /** Two folded paths that no two files can have at once: one path, or one below the other. */
  predicate Meets(a: string, b: string) {
    a == b || IsAncestor(a, b) || IsAncestor(b, a)
  }

  /** A file at `standing` leaves no room for one at `path`. */
  predicate Blocks(standing: string, path: string, fold: char -> char) {
    Meets(Folded(standing, fold), Folded(path, fold))
  }

  /** Room for a new file: nothing at its path, no file where its directories would be, no directory in its place. */
  ghost predicate IsFree(path: string, standing: set<string>, fold: char -> char) {
    forall other :: other in standing ==> !Blocks(other, path, fold)
  }

  /** There is room exactly when no folded path is the same, begins this one up to a separator, or goes on behind it. */
  lemma {:induction false} RoomMeansApart(path: string, standing: set<string>, fold: char -> char)
    ensures IsFree(path, standing, fold)
       <==> forall other :: other in standing ==>
              var a, b := Folded(other, fold), Folded(path, fold);
              a != b && !(a + [SLASH] <= b) && !(b + [SLASH] <= a)
  {
    forall other ensures Blocks(other, path, fold)
                    <==> (var a, b := Folded(other, fold), Folded(path, fold);
                          a == b || a + [SLASH] <= b || b + [SLASH] <= a)
    {
      AncestorIsBeginning(Folded(other, fold), Folded(path, fold));
      AncestorIsBeginning(Folded(path, fold), Folded(other, fold));
    }
  }

  lemma {:induction false} AncestorIsBeginning(a: string, b: string)
    ensures IsAncestor(a, b) <==> a + [SLASH] <= b
  {
    if a + [SLASH] <= b {
      assert b[|a|] == (a + [SLASH])[|a|] && b[..|a|] == (a + [SLASH])[..|a|] == a;
    }
    if i :| 0 <= i < |b| && b[i] == SLASH && b[..i] == a {
      assert b[..i + 1] == a + [SLASH];
    }
  }

  /** Whether a file stands exactly at a folded path. */
  predicate StandsAtKey(key: string, standing: set<string>, fold: char -> char) {
    exists other :: other in standing && Folded(other, fold) == key
  }

  /** Whether anything is found at a folded path: a file, or the directory of one further down. */
  predicate IsFound(key: string, standing: set<string>, fold: char -> char) {
    exists other :: other in standing && (Folded(other, fold) == key || IsAncestor(key, Folded(other, fold)))
  }

  lemma {:induction false} FreeWhen(path: string, standing: set<string>, fold: char -> char)
    ensures var key := Folded(path, fold);
            IsFree(path, standing, fold)
            <==> !IsFound(key, standing, fold)
                 && forall i :: 0 <= i < |key| && key[i] == SLASH ==> !StandsAtKey(key[..i], standing, fold)
  {
    var key := Folded(path, fold);
    if IsFound(key, standing, fold) {
      var other :| other in standing && (Folded(other, fold) == key || IsAncestor(key, Folded(other, fold)));
      assert Blocks(other, path, fold);
    }
    if i :| 0 <= i < |key| && key[i] == SLASH && StandsAtKey(key[..i], standing, fold) {
      var other :| other in standing && Folded(other, fold) == key[..i];
      assert IsAncestor(Folded(other, fold), key);
      assert Blocks(other, path, fold);
    }
    if !IsFree(path, standing, fold) && !IsFound(key, standing, fold) {
      var other :| other in standing && Blocks(other, path, fold);
      var i :| 0 <= i < |key| && key[i] == SLASH && key[..i] == Folded(other, fold);
      assert StandsAtKey(key[..i], standing, fold);
    }
  }

  /** Walks a destination's parents, each of which must be a directory or be missing, to a leaf that must be missing. */
  method PrepareMergeTarget(path: string, standing: set<string>, fold: char -> char) returns (free: bool)
    ensures free <==> IsFree(path, standing, fold)
  {
    var key := Folded(path, fold);
    FreeWhen(path, standing, fold);
    for i := 0 to |key|
      invariant forall j :: 0 <= j < i && key[j] == SLASH ==> !StandsAtKey(key[..j], standing, fold)
    {
      if key[i] == SLASH && StandsAtKey(key[..i], standing, fold) { return false; }
    }
    free := !IsFound(key, standing, fold);
  }

  lemma {:induction false} StandingBlocksItself(path: string, standing: set<string>, fold: char -> char)
    requires IsFree(path, standing, fold)
    ensures path !in standing
  {
    assert Blocks(path, path, fold);
  }

  // Backups.

  ghost function Longest(paths: set<string>): (length: nat)
    ensures forall path :: path in paths ==> |path| <= length
  {
    if paths == {} then 0
    else
      var path :| path in paths;
      var rest := Longest(paths - {path});
      assert forall other :: other in paths ==> other == path || other in paths - {path};
      if |path| > rest then |path| else rest
  }

  lemma {:induction false} FoundIsShort(key: string, standing: set<string>, fold: char -> char)
    requires IsFound(key, standing, fold)
    ensures |key| <= Longest(standing)
  {
  }

  lemma {:induction false} NotFoundIsAbsent(path: string, standing: set<string>, fold: char -> char)
    requires !IsFound(Folded(path, fold), standing, fold)
    ensures path !in standing
  {
  }

  /** The first of `name.bak`, `name.bak.bak` and so on at which nothing is found. */
  ghost function FirstBackup(name: string, standing: set<string>, fold: char -> char): (backup: string)
    ensures name < backup && !IsFound(Folded(backup, fold), standing, fold)
    decreases if |name| <= Longest(standing) then Longest(standing) + 1 - |name| else 0
  {
    var next := name + ".bak";
    if IsFound(Folded(next, fold), standing, fold) then
      FoundIsShort(Folded(next, fold), standing, fold);
      FirstBackup(next, standing, fold)
    else next
  }

  /** The search for it, by attempts that fail on an occupied name; finitely many files cannot occupy them all. */
  method FindBackup(name: string, standing: set<string>, fold: char -> char) returns (backup: string)
    ensures backup == FirstBackup(name, standing, fold)
  {
    backup := name + ".bak";
    ghost var before := name;
    while IsFound(Folded(backup, fold), standing, fold)
      invariant backup == before + ".bak" && FirstBackup(before, standing, fold) == FirstBackup(name, standing, fold)
      decreases if |backup| <= Longest(standing) then Longest(standing) + 1 - |backup| else 0
    {
      FoundIsShort(Folded(backup, fold), standing, fold);
      before := backup;
      backup := backup + ".bak";
    }
  }

  /** `n` times `.bak`. */
  function BackupName(name: string, n: nat): string {
    if n == 0 then name else BackupName(name, n - 1) + ".bak"
  }

  /** The name found is free, and every shorter one is occupied. */
  lemma {:induction false} BackupIsFirstFree(name: string, standing: set<string>, fold: char -> char) returns (n: nat)
    ensures n > 0 && FirstBackup(name, standing, fold) == BackupName(name, n)
    ensures !IsFound(Folded(BackupName(name, n), fold), standing, fold)
    ensures forall k :: 0 < k < n ==> IsFound(Folded(BackupName(name, k), fold), standing, fold)
  {
    n := BackupFrom(name, 0, standing, fold);
  }

  lemma {:induction false} BackupFrom(name: string, k: nat, standing: set<string>, fold: char -> char) returns (n: nat)
    requires forall j :: 0 < j <= k ==> IsFound(Folded(BackupName(name, j), fold), standing, fold)
    ensures n > k && FirstBackup(BackupName(name, k), standing, fold) == BackupName(name, n)
    ensures !IsFound(Folded(BackupName(name, n), fold), standing, fold)
    ensures forall j :: 0 < j < n ==> IsFound(Folded(BackupName(name, j), fold), standing, fold)
    decreases if |BackupName(name, k)| <= Longest(standing) then Longest(standing) + 1 - |BackupName(name, k)| else 0
  {
    n := k + 1;
    if IsFound(Folded(BackupName(name, n), fold), standing, fold) {
      FoundIsShort(Folded(BackupName(name, n), fold), standing, fold);
      n := BackupFrom(name, n, standing, fold);
    }
  }
}
