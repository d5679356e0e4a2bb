/** `path::lexically_normal` as the source runs it: split into slots, compact them in place, join. */
module LexicalNormal {
  import opened PathText
  import opened PathFolding

  predicate HasRootDirectory(text: Text) {
    FindRootNameEnd(text) < |text| && IsSlash(text[FindRootNameEnd(text)])
  }

  /** The root name with preferred separators, then one separator for the root directory. */
  function Root(text: Text): Text {
    Preferred(text[..FindRootNameEnd(text)]) + if HasRootDirectory(text) then [SEPARATOR] else []
  }

  /** What follows the root, read and folded. */
  function Body(text: Text): Path {
    FoldPath(ParseRelative(text[FindRelativePath(text)..]), HasRootDirectory(text))
  }

  /** The whole normal form of a path text; an empty one becomes a dot. */
  function LexicallyNormal(text: Text): (normal: Text) {
    if text == [] then []
    else if Root(text) == [] && Render(Body(text)) == [] then DOT
    else Root(text) + Render(Body(text))
  }

  /** Root-name text with each `/` replaced by the preferred separator. */
  function Preferred(text: Text): (t: Text)
    ensures |t| == |text|
    ensures forall k :: 0 <= k < |t| ==> t[k] == if text[k] == ALT_SEPARATOR then SEPARATOR else text[k]
  {
    seq(|text|, k requires 0 <= k < |text| => if text[k] == ALT_SEPARATOR then SEPARATOR else text[k])
  }

  function SlotCount(p: Path): nat {
    if p.names == [] then 0 else 2 * |p.names| - if p.trailing then 0 else 1
  }

  /** The vector the source works on: filename, separator, filename, ...; a separator is empty. */
  ghost predicate AreSlots(slots: seq<Text>, p: Path) {
    && |slots| == SlotCount(p)
    && (forall i :: 0 <= i < |p.names| ==> slots[2 * i] == p.names[i])
    && (forall k :: 0 <= k < |slots| && k % 2 == 1 ==> slots[k] == [])
  }

  /** `NameLength` as a position, so the split needs no suffixes of the text. */
  function NameEnd(text: Text, at: nat): (end: nat)
    requires at <= |text|
    ensures at <= end <= |text|
    ensures end < |text| ==> IsSlash(text[end])
    ensures forall k :: at <= k < end ==> !IsSlash(text[k])
    decreases |text| - at
  {
    if at == |text| || IsSlash(text[at]) then at else NameEnd(text, at + 1)
  }

  /** `Names` read from a position. */
  ghost function NamesFrom(text: Text, at: nat): seq<Text>
    requires at <= |text|
    decreases |text| - at
  {
    if at == |text| then []
    else if IsSlash(text[at]) then NamesFrom(text, at + 1)
    else [text[at..NameEnd(text, at + 1)]] + NamesFrom(text, NameEnd(text, at + 1))
  }

  lemma {:induction false} NamesOfSuffix(text: Text, at: nat)
    requires at < |text|
    ensures IsSlash(text[at]) ==> Names(text[at..]) == Names(text[at + 1..])
    ensures !IsSlash(text[at]) ==>
              var end := NameEnd(text, at + 1);
              Names(text[at..]) == [text[at..end]] + Names(text[end..])
  {
    var t := text[at..];
    if IsSlash(text[at]) {
      assert t[1..] == text[at + 1..];
    } else {
      var end := NameEnd(text, at + 1);
      NameLengthIs(t, end - at);
      assert t[..end - at] == text[at..end] && t[end - at..] == text[end..];
    }
  }

  lemma {:induction false} NamesFromIsNames(text: Text, at: nat)
    requires at <= |text|
    ensures NamesFrom(text, at) == Names(text[at..])
    decreases |text| - at
  {
    if at < |text| {
      NamesOfSuffix(text, at);
      NamesFromIsNames(text, if IsSlash(text[at]) then at + 1 else NameEnd(text, at + 1));
    }
  }

  lemma {:induction false} PushName(slots: seq<Text>, p: Path, name: Text)
    requires AreSlots(slots, p) && (p.names == [] || p.trailing)
    ensures AreSlots(slots + [name], Path(p.names + [name], false))
  {
  }

  lemma {:induction false} PushSeparator(slots: seq<Text>, p: Path)
    requires p.names != [] && AreSlots(slots, p) && !p.trailing
    ensures AreSlots(slots + [[]], p.(trailing := true))
  {
  }

  /** What has been read when the split stands at a position of the text. */
  ghost predicate IsRead(text: Text, start: nat, at: nat, done: Path) {
    && start <= at <= |text|
    && NamesFrom(text, start) == done.names + NamesFrom(text, at)
    && (done.names == [] <==> at == start)
    && (at < |text| && !IsSlash(text[at]) ==> done.names == [] || done.trailing)
    && (at > start ==> (done.trailing <==> IsSlash(text[at - 1])))
    && forall k :: 0 <= k < |done.names| ==> done.names[k] != []
  }

  lemma {:induction false} ReadSlash(text: Text, start: nat, at: nat, done: Path)
    requires IsRead(text, start, at, done) && at < |text| && IsSlash(text[at]) && !IsSlash(text[start])
    ensures done.names != [] && IsRead(text, start, at + 1, done.(trailing := true))
  {
  }

  lemma {:induction false} ReadName(text: Text, start: nat, at: nat, done: Path) returns (end: nat)
    requires IsRead(text, start, at, done) && at < |text| && !IsSlash(text[at])
    ensures end == NameEnd(text, at + 1) && IsRead(text, start, end, Path(done.names + [text[at..end]], false))
  {
    end := NameEnd(text, at + 1);
  }

  /** What has been read when an iterator stands at a filename or at the end, and whether slashes came last. */
  ghost predicate HasRead(text: Text, relative: nat, at: nat, names: seq<Text>, trailing: bool) {
    && relative <= at <= |text|
    && (at < |text| ==> !IsSlash(text[at]) && !trailing)
    && (at == |text| ==> trailing == (at > relative && IsSlash(text[at - 1])))
    && NamesFrom(text, relative) == names + NamesFrom(text, at)
    && (names != [] <==> at > relative)
  }

  lemma {:induction false} LastSlot(slots: seq<Text>, p: Path)
    requires AreSlots(slots, p) && p.names != [] && forall k :: 0 <= k < |p.names| ==> p.names[k] != []
    ensures slots != [] && (slots[|slots| - 1] == [] <==> p.trailing)
  {
    if !p.trailing { assert slots[2 * (|p.names| - 1)] == p.names[|p.names| - 1]; }
  }

  /** Splits a relative path, collapsing runs of slashes into one separator slot. */
  method SplitParts(text: Text, start: nat) returns (parts: seq<Text>)
    requires start <= |text| && (start < |text| ==> !IsSlash(text[start]))
    ensures AreSlots(parts, ParseRelative(text[start..]))
  {
    parts := [];
    var at := start;
    ghost var done := Path([], false);
    while at < |text|
      invariant AreSlots(parts, done) && IsRead(text, start, at, done)
    {
      if IsSlash(text[at]) {
        ReadSlash(text, start, at, done);
        LastSlot(parts, done);
        if parts == [] || parts[|parts| - 1] != [] {
          PushSeparator(parts, done);
          parts := parts + [[]];
        }
        at, done := at + 1, done.(trailing := true);
      } else {
        var end := NameEnd(text, at + 1);
        ghost var _ := ReadName(text, start, at, done);
        PushName(parts, done, text[at..end]);
        parts, done := parts + [text[at..end]], Path(done.names + [text[at..end]], false);
        at := end;
      }
    }
    NamesFromIsNames(text, start);
  }

  lemma {:induction false} FoldNext(p: Path, j: nat, rooted: bool)
    requires j < |p.names|
    ensures Fold(START, p.names[..j + 1], rooted) == Next(Fold(START, p.names[..j], rooted), p.names[j], rooted)
  {
    assert p.names[..j + 1] == p.names[..j] + [p.names[j]];
    FoldLast(START, p.names[..j], p.names[j], rooted);
  }

  /** What the slots hold while the write cursor stands at `end`: the stack, one separator between names. */
  ghost predicate Holds(parts: array<Text>, end: nat, stack: seq<Text>)
    reads parts
  {
    && end <= parts.Length
    && (end + 1) / 2 == |stack|
    && (forall i :: 0 <= i < |stack| ==> parts[2 * i] == stack[i])
    && (forall k :: 0 <= k < parts.Length && k % 2 == 1 ==> parts[k] == [])
  }

  lemma {:induction false} HoldsClosed(parts: array<Text>, end: nat, p: Path)
    requires Holds(parts, end, p.names) && end == SlotCount(p)
    ensures AreSlots(parts[..end], p)
  {
  }

  /**
   * One filename: kept at the write cursor, dropped, or folded into the one before. The cursor is even
   * here, so a separator slot it skips over is still a separator. `last` leaves it on a kept filename.
   */
  method Place(parts: array<Text>, end: nat, part: Text, last: bool, rooted: bool, ghost f: Folded)
    returns (newEnd: nat)
    requires end == 2 * |f.stack| && end < parts.Length - (if last then 0 else 1) && Holds(parts, end, f.stack)
    modifies parts
    ensures var g := Next(f, part, rooted);
            Holds(parts, newEnd, g.stack) && newEnd == 2 * |g.stack| - if last && g.kept then 1 else 0
    ensures forall k :: end < k < parts.Length ==> parts[k] == old(parts[k])
  {
    newEnd := end;
    if part == DOT {
    } else if part != DOT_DOT {
      parts[newEnd] := part;
      newEnd := newEnd + 1;
      if last { return; }
      newEnd := newEnd + 1;
    } else if newEnd != 0 && parts[newEnd - 2] != DOT_DOT {
      newEnd := newEnd - 2;
    } else if !rooted {
      parts[newEnd] := DOT_DOT;
      newEnd := newEnd + 1;
      if last { return; }
      newEnd := newEnd + 1;
    }
  }

  /** Folds dots in place, behind a write cursor that never passes the read cursor. */
  method Compact(parts: array<Text>, rooted: bool, ghost p: Path) returns (newEnd: nat)
    requires WellFormed(p) && AreSlots(parts[..], p)
    modifies parts
    ensures newEnd <= parts.Length
    ensures AreSlots(parts[..newEnd], FoldSlots(p, rooted))
  {
    newEnd := 0;
    var position := 0;
    ghost var f, j := START, 0;
    assert forall k :: 0 <= k < parts.Length ==> parts[..][k] == parts[k];
    while position < parts.Length
      invariant position == 2 * j && j <= |p.names|
      invariant position < parts.Length ==> j < |p.names|
      invariant position >= parts.Length ==> j == |p.names| && SlotCount(p) == 2 * j
      invariant f == Fold(START, p.names[..j], rooted)
      invariant newEnd == 2 * |f.stack| && newEnd <= position
      invariant Holds(parts, newEnd, f.stack)
      invariant forall i :: j <= i < |p.names| ==> parts[2 * i] == p.names[i]
    {
      var part := parts[position];
      FoldNext(p, j, rooted);
      position := position + 1;
      newEnd := Place(parts, newEnd, part, position == parts.Length, rooted, f);
      f, j := Next(f, part, rooted), j + 1;
      if position == parts.Length { break; }
      position := position + 1;
    }
    assert p.names[..|p.names|] == p.names;
    HoldsClosed(parts, newEnd, Closed(f, p.trailing));
  }

  /** A trailing `..` loses its trailing separator. */
  method DropTrailingSlot(parts: array<Text>, newEnd: nat, ghost p: Path) returns (end: nat)
    requires WellFormed(p) && newEnd <= parts.Length && AreSlots(parts[..newEnd], p)
    ensures end <= newEnd && AreSlots(parts[..end], DropTrailing(p))
  {
    assert forall k :: 0 <= k < newEnd ==> parts[k] == parts[..newEnd][k];
    assert newEnd >= 2 && p.trailing ==> parts[2 * (|p.names| - 1)] == p.names[|p.names| - 1];
    assert newEnd >= 2 && !p.trailing ==> parts[2 * (|p.names| - 1)] == p.names[|p.names| - 1] != [];
    end := newEnd;
    if newEnd >= 2 && parts[newEnd - 1] == [] && parts[newEnd - 2] == DOT_DOT {
      end := newEnd - 1;
    }
  }

  /** The text of a slot vector: an empty slot is one preferred separator. */
  function Emit(slots: seq<Text>): Text {
    if slots == [] then []
    else (if slots[0] == [] then [SEPARATOR] else slots[0]) + Emit(slots[1..])
  }

  lemma {:induction false} EmitOfSlots(slots: seq<Text>, p: Path)
    requires WellFormed(p) && AreSlots(slots, p)
    ensures Emit(slots) == Render(p)
    decreases |p.names|
  {
    if p.names != [] {
      assert slots[2 * 0] == p.names[0] && IsName(p.names[0]);
      var rest := Path(p.names[1..], |p.names| > 1 && p.trailing);
      if |slots| > 1 {
        assert slots[1] == [] && slots[1..][1..] == slots[2..];
        assert forall i :: 0 <= i < |rest.names| ==> slots[2 * (i + 1)] == rest.names[i];
        EmitOfSlots(slots[2..], rest);
      }
    }
  }

  /** Appends the kept slots to the root text. */
  method Join(parts: array<Text>, newEnd: nat, root: Text, ghost p: Path) returns (normalized: Text)
    requires WellFormed(p) && newEnd <= parts.Length && AreSlots(parts[..newEnd], p)
    ensures normalized == root + Render(p)
  {
    EmitOfSlots(parts[..newEnd], p);
    normalized := root;
    for i := 0 to newEnd
      invariant normalized + Emit(parts[i..newEnd]) == root + Render(p)
    {
      assert parts[i..newEnd][1..] == parts[i + 1..newEnd];
      normalized := normalized + (if parts[i] == [] then [SEPARATOR] else parts[i]);
    }
    assert parts[newEnd..newEnd] == [];
  }

  method SkipSlashes(text: Text, from: nat) returns (at: nat)
    requires from <= |text|
    ensures at == from + SlashLength(text[from..]) <= |text|
    ensures forall k :: from <= k < at ==> IsSlash(text[k])
    ensures at < |text| ==> !IsSlash(text[at])
  {
    at := from;
    while at < |text| && IsSlash(text[at])
      invariant from <= at <= |text|
      invariant forall k :: from <= k < at ==> IsSlash(text[k])
    {
      at := at + 1;
    }
    SlashLengthIs(text[from..], at - from);
  }

  /** Steps 3 to 7 on the text behind the root. */
  method NormalizeRelative(text: Text, at: nat, rooted: bool, root: Text) returns (normalized: Text)
    requires at <= |text| && (at < |text| ==> !IsSlash(text[at]))
    ensures normalized == root + Render(FoldPath(ParseRelative(text[at..]), rooted))
  {
    var slots := SplitParts(text, at);
    ghost var p := ParseRelative(text[at..]);
    var parts := new Text[|slots|](k requires 0 <= k < |slots| => slots[k]);
    assert parts[..] == slots;
    var newEnd := Compact(parts, rooted, p);
    FoldIsNormal(START, p.names, rooted);
    newEnd := DropTrailingSlot(parts, newEnd, FoldSlots(p, rooted));
    normalized := Join(parts, newEnd, root, FoldPath(p, rooted));
  }

  method LexicallyNormalInPlace(text: Text) returns (normalized: Text)
    ensures normalized == LexicallyNormal(text)
  {
    if text == [] { return []; }
    var rootNameEnd := FindRootNameEnd(text);
    normalized := Preferred(text[..rootNameEnd]);
    var hasRootDirectory := rootNameEnd < |text| && IsSlash(text[rootNameEnd]);
    if hasRootDirectory { normalized := normalized + [SEPARATOR]; }
    var at := SkipSlashes(text, rootNameEnd);
    assert normalized == Root(text) && at == FindRelativePath(text);
    normalized := NormalizeRelative(text, at, hasRootDirectory, normalized);
    assert normalized == Root(text) + Render(Body(text));
    if normalized == [] { normalized := DOT; }
  }
}
