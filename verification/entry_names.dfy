/** Which Archive entry names are accepted, and what an accepted one means: the directory walk it spells. */
module EntryNames {
  import opened GamePaths

  /** How far below the start a walk along the segments ends: an ordinary name goes down one, `..` up one. */
  function Depth(segments: seq<string>): int {
    if segments == [] then 0
    else
      var last := segments[|segments| - 1];
      Depth(segments[..|segments| - 1]) + if last == ".." then -1 else if last == "" || last == "." then 0 else 1
  }

  /** Some step of the walk is above its start. */
  ghost predicate Escapes(segments: seq<string>) {
    exists k :: 0 <= k <= |segments| && Depth(segments[..k]) < 0
  }

  lemma {:induction false} FoldAppend(parts: seq<string>, a: seq<string>, b: seq<string>)
    ensures FoldParts(parts, a + b)
         == (var folded := FoldParts(parts, a); if folded.None? then None else FoldParts(folded.value, b))
    decreases |a|
  {
    if a == [] {
      assert a + b == b;
    } else {
      assert (a + b)[1..] == a[1..] + b;
      if a[0] == "" || a[0] == "." {
        FoldAppend(parts, a[1..], b);
      } else if a[0] == ".." {
        if parts != [] { FoldAppend(parts[..|parts| - 1], a[1..], b); }
      } else {
        FoldAppend(parts + [a[0]], a[1..], b);
      }
    }
  }

  lemma {:induction false} FoldOfOne(parts: seq<string>, segment: string)
    ensures FoldParts(parts, [segment])
         == if segment == "" || segment == "." then Some(parts)
            else if segment != ".." then Some(parts + [segment])
            else if parts == [] then None else Some(parts[..|parts| - 1])
  {
    assert [segment][1..] == [];
  }

  /** What is kept is as many names as the walk is deep, and folding fails exactly on a walk that escapes. */
  lemma {:induction false} FoldIsWalk(segments: seq<string>)
    ensures FoldParts([], segments).None? <==> Escapes(segments)
    ensures FoldParts([], segments).Some? ==> |FoldParts([], segments).value| == Depth(segments)
  {
    if segments != [] {
      var front, last := segments[..|segments| - 1], segments[|segments| - 1];
      assert segments == front + [last];
      FoldIsWalk(front);
      FoldAppend([], front, [last]);
      if FoldParts([], front).Some? { FoldOfOne(FoldParts([], front).value, last); }
      EscapesOneMore(front, last);
    }
  }

  lemma {:induction false} EscapesOneMore(front: seq<string>, last: string)
    ensures Escapes(front + [last]) <==> Escapes(front) || Depth(front + [last]) < 0
    ensures Depth(front + [last])
         == Depth(front) + if last == ".." then -1 else if last == "" || last == "." then 0 else 1
  {
    var segments := front + [last];
    assert segments[..|front|] == front && segments[..|segments|] == segments;
    assert forall k :: 0 <= k <= |front| ==> segments[..k] == front[..k];
    if Escapes(front) {
      var k :| 0 <= k <= |front| && Depth(front[..k]) < 0;
      assert Depth(segments[..k]) < 0;
    }
    if Depth(segments) < 0 { assert Depth(segments[..|segments|]) < 0; }
    if Escapes(segments) {
      var k :| 0 <= k <= |segments| && Depth(segments[..k]) < 0;
      if k <= |front| { assert Depth(front[..k]) < 0; }
    }
  }

  // The names refused.

  /** A name that can spell a path at all. */
  ghost predicate IsSpelled(name: string) {
    && name != "" && name[0] != SLASH && name[0] != '\\'
    && forall i :: 0 <= i < |name| ==> name[i] >= ' ' && name[i] !in ":*?\"<>|"
  }

  lemma {:induction false} RefusedAsMisspelled(name: string, reserved: string -> bool)
    ensures CanonicalEntry(name, reserved) == Rejected(InvalidGamePath) <==> !IsSpelled(name)
  {
    var s := ForwardSlashes(name);
    if i :| 0 <= i < |s| && IsForbidden(s[i]) { assert s[i] == name[i]; }
    if !IsSpelled(name) && name != "" && s[0] != SLASH {
      var i :| 0 <= i < |name| && (name[i] < ' ' || name[i] in ":*?\"<>|");
      assert IsForbidden(s[i]);
    }
  }

  /** The walk a name spells, either slash between its steps. */
  function StepsOf(name: string): seq<string> {
    Segments(ForwardSlashes(name))
  }

  /**
   * A spelled name escapes exactly when some step of its walk is above the start, when it ends where it started, or
   * when its last step is no name.
   */
  lemma {:induction false} RefusedAsEscaping(name: string, reserved: string -> bool)
    requires IsSpelled(name)
    ensures CanonicalEntry(name, reserved) == Rejected(EscapesDirectory)
       <==> Escapes(StepsOf(name)) || Depth(StepsOf(name)) == 0 || IsSpecial(StepsOf(name)[|StepsOf(name)| - 1])
  {
    RefusedAsMisspelled(name, reserved);
    FoldIsWalk(StepsOf(name));
  }

  // What an accepted name means.

  /** Steps that a spelled name can have: no separator or forbidden character in them, and an ordinary first one. */
  ghost predicate AreSteps(steps: seq<string>) {
    && steps != [] && steps[0] != ""
    && forall i :: 0 <= i < |steps| ==> IsPlain(steps[i]) && SLASH !in steps[i]
  }

  lemma {:induction false} JoinOfSteps(steps: seq<string>)
    requires AreSteps(steps)
    ensures IsPlain(Join(steps)) && Join(steps) != "" && Join(steps)[0] != SLASH
  {
    JoinIsPlainToo(steps);
    assert steps[0][0] != SLASH;
    assert Join(steps)[0] == steps[0][0];
  }

  lemma {:induction false} JoinIsPlainToo(steps: seq<string>)
    requires forall i :: 0 <= i < |steps| ==> IsPlain(steps[i])
    ensures IsPlain(Join(steps))
    decreases |steps|
  {
    if |steps| > 1 { JoinIsPlainToo(steps[1..]); }
  }

  lemma {:induction false} StepsOfJoin(steps: seq<string>)
    requires AreSteps(steps)
    ensures StepsOf(Join(steps)) == steps && IsSpelled(Join(steps))
  {
    JoinOfSteps(steps);
    SegmentsOfJoin(steps);
    var name := Join(steps);
    assert ForwardSlashes(name) == name;
    forall i | 0 <= i < |name| ensures name[i] >= ' ' && name[i] !in ":*?\"<>|" {
      assert !IsForbidden(name[i]);
    }
  }

  lemma {:induction false} SameWalk(a: string, b: string, reserved: string -> bool)
    requires IsSpelled(a) && IsSpelled(b)
    requires FoldParts([], StepsOf(a)) == FoldParts([], StepsOf(b))
    requires IsSpecial(StepsOf(a)[|StepsOf(a)| - 1]) <==> IsSpecial(StepsOf(b)[|StepsOf(b)| - 1])
    ensures CanonicalEntry(a, reserved) == CanonicalEntry(b, reserved)
  {
    RefusedAsMisspelled(a, reserved);
    RefusedAsMisspelled(b, reserved);
  }

  /** Steps that take the walk nowhere: `.`, nothing, or a name and `..` behind it. */
  predicate IsDetour(steps: seq<string>) {
    || steps == ["."] || steps == [""]
    || (|steps| == 2 && !IsSpecial(steps[0]) && steps[1] == "..")
  }

  lemma {:induction false} DetourFolds(parts: seq<string>, steps: seq<string>)
    requires IsDetour(steps)
    ensures FoldParts(parts, steps) == Some(parts)
  {
    FoldOfOne(parts, steps[0]);
    if |steps| == 2 {
      assert steps == [steps[0]] + [".."];
      FoldAppend(parts, [steps[0]], [".."]);
      FoldOfOne(parts + [steps[0]], "..");
    } else {
      assert steps == [steps[0]];
    }
  }

  /** Leaving a detour out changes nothing, wherever it stands: both names are refused alike or mean the same. */
  lemma {:induction false} DetoursDoNotMatter(a: seq<string>, detour: seq<string>, b: seq<string>,
                                              reserved: string -> bool)
    requires AreSteps(a + detour + b) && AreSteps(a + b) && IsDetour(detour) && b != []
    ensures CanonicalEntry(Join(a + detour + b), reserved) == CanonicalEntry(Join(a + b), reserved)
  {
    var there, here := a + detour + b, a + b;
    StepsOfJoin(there);
    StepsOfJoin(here);
    FoldAppend([], a + detour, b);
    FoldAppend([], a, detour);
    FoldAppend([], a, b);
    if FoldParts([], a).Some? { DetourFolds(FoldParts([], a).value, detour); }
    assert there[|there| - 1] == b[|b| - 1] == here[|here| - 1];
    SameWalk(Join(there), Join(here), reserved);
  }

  /** Windows would read the part as another name, or it is one of those kept for staging or a device. */
  predicate IsAliased(part: string, reserved: string -> bool)
    requires part != ""
  {
    part[|part| - 1] == '.' || part[|part| - 1] == ' ' || reserved(part)
  }

  /** A name of ordinary parts only is its own meaning, unless one of them is aliased. */
  lemma {:induction false} PartsAreTheirOwnMeaning(parts: seq<string>, reserved: string -> bool)
    requires AreParts(parts) && parts != []
    ensures CanonicalEntry(Join(parts), reserved)
         == if exists i :: 0 <= i < |parts| && parts[i] != "" && IsAliased(parts[i], reserved)
            then Rejected(AliasesReserved) else Canonical(Join(parts))
  {
    SegmentsOfPartsJoined(parts);
    JoinIsPlain(parts);
    FoldKeepsParts([], parts);
    assert [] + parts == parts;
    assert ForwardSlashes(Join(parts)) == Join(parts);
    assert forall i :: 0 <= i < |parts| ==> IsPart(parts[i]);
    assert forall i :: 0 <= i < |parts| ==> (IsUnsafe(parts[i], reserved) <==> IsAliased(parts[i], reserved));
  }

  /** What is accepted is accepted as ordinary parts, none of them aliased. */
  lemma {:induction false} AcceptedAreParts(name: string, reserved: string -> bool) returns (parts: seq<string>)
    requires CanonicalEntry(name, reserved).Canonical?
    ensures parts != [] && AreParts(parts) && CanonicalEntry(name, reserved) == Canonical(Join(parts))
    ensures forall i :: 0 <= i < |parts| ==> parts[i] != "" && !IsAliased(parts[i], reserved)
  {
    var s := ForwardSlashes(name);
    assert IsPlain(s);
    SegmentsArePlain(s);
    FoldGivesParts([], Segments(s));
    parts := FoldParts([], Segments(s)).value;
    forall i | 0 <= i < |parts| ensures parts[i] != "" && !IsAliased(parts[i], reserved) {
      assert IsPart(parts[i]) && !IsUnsafe(parts[i], reserved);
    }
  }

  /** Either slash separates. */
  lemma {:induction false} SlashesAreAlike(a: string, b: string, reserved: string -> bool)
    requires ForwardSlashes(a) == ForwardSlashes(b)
    ensures CanonicalEntry(a, reserved) == CanonicalEntry(b, reserved)
  {
  }

  /** Every spelled name is the join of its steps, so the laws of steps are laws of all names. */
  lemma {:induction false} StepsAreWhole(name: string)
    requires IsSpelled(name)
    ensures AreSteps(StepsOf(name)) && Join(StepsOf(name)) == ForwardSlashes(name)
  {
    var s := ForwardSlashes(name);
    forall i | 0 <= i < |s| ensures s[i] != '\\' && !IsForbidden(s[i]) {
      assert s[i] == SLASH || s[i] == name[i];
    }
    SegmentsArePlain(s);
    JoinOfSegments(s);
    assert s[0] != SLASH;
  }

  lemma {:induction false} JoinOfSegments(s: string)
    ensures Join(Segments(s)) == s
    decreases |s|
  {
    if s != "" {
      var rest := Segments(s[1..]);
      JoinOfSegments(s[1..]);
      assert s == [s[0]] + s[1..];
      if s[0] == SLASH {
        assert ([""] + rest)[1..] == rest;
      } else {
        var first := [s[0]] + rest[0];
        assert ([first] + rest[1..])[1..] == rest[1..];
      }
    }
  }
}
