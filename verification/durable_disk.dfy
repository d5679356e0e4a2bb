/** The durable files an attempt may change, what it changed, and what others may do meanwhile. */
module DurableDisk {
  import opened GamePaths

  type Bytes = seq<bv8>

  /** A file object and the bytes it holds. */
  datatype File = File(id: nat, bytes: Bytes)

  /** One durable effect: a file put at a path over what stood there, one removed, or one renamed. */
  datatype Change =
    | Put(path: string, before: Option<File>, after: File)
    | Removed(path: string, file: File)
    | Renamed(path: string, to: string, file: File)

  function Applied(files: map<string, File>, change: Change): map<string, File> {
    match change
    case Put(path, _, after) => files[path := after]
    case Removed(path, _) => files - {path}
    case Renamed(path, to, file) => files[to := file] - {path}
  }

  /** The files after the changes were made to them, in order. */
  function Replayed(files: map<string, File>, changes: seq<Change>): map<string, File> {
    if changes == [] then files else Applied(Replayed(files, changes[..|changes| - 1]), changes[|changes| - 1])
  }

  lemma {:induction false} ReplayedOneMore(files: map<string, File>, changes: seq<Change>, change: Change)
    ensures Replayed(files, changes + [change]) == Applied(Replayed(files, changes), change)
    ensures Replayed(files, [change]) == Applied(files, change)
  {
    assert (changes + [change])[..|changes|] == changes;
    assert [change][..0] == [];
  }

  lemma {:induction false} ReplayedInTurn(files: map<string, File>, first: seq<Change>, then_: seq<Change>)
    ensures Replayed(files, first + then_) == Replayed(Replayed(files, first), then_)
    decreases |then_|
  {
    if then_ == [] {
      assert first + then_ == first;
    } else {
      var rest := then_[..|then_| - 1];
      ReplayedInTurn(files, first, rest);
      assert (first + then_)[..|first + then_| - 1] == first + rest;
    }
  }

  class Disk {
    var files: map<string, File>
    var nextId: nat
    /** Every durable change made through this object, in order. */
    ghost var changes: seq<Change>
    /** Nothing has failed of itself, and nobody else has touched the files. */
    ghost var quiet: bool
    /** Nobody else has touched the files, whatever has failed. */
    ghost var alone: bool

    function At(path: string): Option<File>
      reads this
    {
      if path in files then Some(files[path]) else None
    }

    /** Anyone else may change any file between two steps. */
    method Interfere()
      modifies this`files, this`quiet, this`alone
      ensures quiet ==> old(quiet) && files == old(files)
      ensures alone ==> old(alone) && files == old(files)
    {
      if * {
        files := *;
        quiet, alone := false, false;
      }
    }

    /** A step of the operating system may fail for its own reasons. */
    method Fails() returns (fails: bool)
      modifies this`quiet
      ensures quiet == (old(quiet) && !fails)
    {
      fails := *;
      quiet := quiet && !fails;
    }

    method Create(bytes: Bytes) returns (file: File)
      modifies this`nextId
      ensures file == File(old(nextId), bytes) && nextId == old(nextId) + 1
    {
      file := File(nextId, bytes);
      nextId := nextId + 1;
    }

    /** Renames a staged file into place, in one step. */
    method Place(path: string, file: File)
      modifies this`files, this`changes
      ensures files == old(files)[path := file]
      ensures changes == old(changes) + [Put(path, old(At(path)), file)]
    {
      changes := changes + [Put(path, At(path), file)];
      files := files[path := file];
    }

    method Remove(path: string)
      requires path in files
      modifies this`files, this`changes
      ensures files == old(files) - {path}
      ensures changes == old(changes) + [Removed(path, old(files)[path])]
    {
      changes := changes + [Removed(path, files[path])];
      files := files - {path};
    }

    method Rename(path: string, to: string)
      requires path in files && to !in files
      modifies this`files, this`changes
      ensures files == old(files)[to := old(files)[path]] - {path}
      ensures changes == old(changes) + [Renamed(path, to, old(files)[path])]
    {
      changes := changes + [Renamed(path, to, files[path])];
      files := files[to := files[path]] - {path};
    }
  }

  /** A disk's record at one moment: its files, what was changed so far, and whether anybody else changed any. */
  datatype Record = Record(files: map<string, File>, changes: seq<Change>, alone: bool)

  ghost function RecordOf(disk: Disk): Record
    reads disk
  {
    Record(disk.files, disk.changes, disk.alone)
  }

  /** Between two moments exactly these changes were made, and with nobody else about they account for the files. */
  ghost predicate IsRecorded(before: Record, after: Record, changes: seq<Change>) {
    && after.changes == before.changes + changes
    && (after.alone ==> before.alone && after.files == Replayed(before.files, changes))
  }

  lemma {:induction false} RecordedInTurn(
    before: Record, middle: Record, after: Record, first: seq<Change>, then_: seq<Change>)
    requires IsRecorded(before, middle, first) && IsRecorded(middle, after, then_)
    ensures IsRecorded(before, after, first + then_)
  {
    assert before.changes + first + then_ == before.changes + (first + then_);
    ReplayedInTurn(before.files, first, then_);
  }
}
