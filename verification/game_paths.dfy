/** Game paths: an Archive entry's canonical name, folded comparison, and the planned-set neighbour lookup. */
module GamePaths {
  datatype Option<T> = None | Some(value: T)

  const SLASH := '/'

  // Canonical entry names.

  datatype EntryError = InvalidGamePath | EscapesDirectory | AliasesReserved

  datatype EntryResult = Canonical(name: string) | Rejected(error: EntryError)

  function ForwardSlashes(name: string): (s: string)
    ensures |s| == |name|
    ensures forall i :: 0 <= i < |s| ==> s[i] == if name[i] == '\\' then SLASH else name[i]
  {
    seq(|name|, i requires 0 <= i < |name| => if name[i] == '\\' then SLASH else name[i])
  }

  predicate IsForbidden(c: char) {
    c < ' ' || c in ":*?\"<>|"
  }

  /** The text before the first slash, and the segments after it. */
  function Segments(s: string): (segments: seq<string>)
    ensures segments != []
  {
    if s == [] then [""]
    else
      var rest := Segments(s[1..]);
      if s[0] == SLASH then [""] + rest else [[s[0]] + rest[0]] + rest[1..]
  }

  function Join(parts: seq<string>): string {
    if parts == [] then "" else if |parts| == 1 then parts[0] else parts[0] + [SLASH] + Join(parts[1..])
  }

  /** `.` and empty segments go; `..` removes the part before it, or escapes. */
  function FoldParts(parts: seq<string>, segments: seq<string>): Option<seq<string>>
    decreases |segments|
  {
    if segments == [] then Some(parts)
    else if segments[0] == "" || segments[0] == "." then FoldParts(parts, segments[1..])
    else if segments[0] == ".." then
      if parts == [] then None else FoldParts(parts[..|parts| - 1], segments[1..])
    else FoldParts(parts + [segments[0]], segments[1..])
  }

  /** A part Windows would alias: a trailing dot or space, or a name reserved for staging or a device. */
  predicate IsUnsafe(part: string, reserved: string -> bool) {
    (part != "" && part[|part| - 1] in ". ") || reserved(part)
  }

  predicate IsSpecial(segment: string) {
    segment == "" || segment == "." || segment == ".."
  }

  function CanonicalEntry(name: string, reserved: string -> bool): EntryResult {
    var s := ForwardSlashes(name);
    if s == "" || s[0] == SLASH || (exists i :: 0 <= i < |s| && IsForbidden(s[i])) then Rejected(InvalidGamePath)
    else
      var segments := Segments(s);
      var folded := FoldParts([], segments);
      if IsSpecial(segments[|segments| - 1]) || folded.None? || folded.value == [] then Rejected(EscapesDirectory)
      else if exists i :: 0 <= i < |folded.value| && IsUnsafe(folded.value[i], reserved)
      then Rejected(AliasesReserved)
      else Canonical(Join(folded.value))
  }

  method CanonicalArchiveEntryPath(name: string, reserved: string -> bool) returns (result: EntryResult)
    ensures result == CanonicalEntry(name, reserved)
  {
    var s := ForwardSlashes(name);
    if s == "" || s[0] == SLASH || exists i :: 0 <= i < |s| && IsForbidden(s[i]) {
      return Rejected(InvalidGamePath);
    }
    var segments := Segments(s);
    if IsSpecial(segments[|segments| - 1]) { return Rejected(EscapesDirectory); }
    var parts: seq<string> := [];
    var i := 0;
    while i < |segments|
      invariant i <= |segments|
      invariant FoldParts([], segments) == FoldParts(parts, segments[i..])
    {
      var segment := segments[i];
      assert segments[i..][1..] == segments[i + 1..];
      if segment == "" || segment == "." {
      } else if segment == ".." {
        if parts == [] { return Rejected(EscapesDirectory); }
        parts := parts[..|parts| - 1];
      } else {
        parts := parts + [segment];
      }
      i := i + 1;
    }
    if parts == [] { return Rejected(EscapesDirectory); }
    if exists i :: 0 <= i < |parts| && IsUnsafe(parts[i], reserved) { return Rejected(AliasesReserved); }
    return Canonical(Join(parts));
  }

  /** A part that comes from a checked name: ordinary, without a separator or a forbidden character. */
  predicate IsPart(part: string) {
    && !IsSpecial(part)
    && forall i :: 0 <= i < |part| ==> part[i] != SLASH && part[i] != '\\' && !IsForbidden(part[i])
  }

  predicate AreParts(parts: seq<string>) {
    forall i :: 0 <= i < |parts| ==> IsPart(parts[i])
  }

  predicate IsPlain(s: string) {
    forall i :: 0 <= i < |s| ==> s[i] != '\\' && !IsForbidden(s[i])
  }

  lemma {:induction false} SegmentsArePlain(s: string)
    requires IsPlain(s)
    ensures forall k :: 0 <= k < |Segments(s)| ==> IsPlain(Segments(s)[k]) && SLASH !in Segments(s)[k]
    decreases |s|
  {
    if s != [] { SegmentsArePlain(s[1..]); }
  }

  lemma {:induction false} FoldGivesParts(parts: seq<string>, segments: seq<string>)
    requires AreParts(parts)
    requires forall k :: 0 <= k < |segments| ==> IsPlain(segments[k]) && SLASH !in segments[k]
    ensures var folded := FoldParts(parts, segments); folded.Some? ==> AreParts(folded.value)
    decreases |segments|
  {
    if segments != [] {
      if segments[0] == "" || segments[0] == "." {
        FoldGivesParts(parts, segments[1..]);
      } else if segments[0] == ".." {
        if parts != [] { FoldGivesParts(parts[..|parts| - 1], segments[1..]); }
      } else {
        FoldGivesParts(parts + [segments[0]], segments[1..]);
      }
    }
  }

  lemma {:induction false} FoldKeepsParts(before: seq<string>, parts: seq<string>)
    requires AreParts(parts)
    ensures FoldParts(before, parts) == Some(before + parts)
    decreases |parts|
  {
    if parts == [] {
      assert before + parts == before;
    } else {
      assert IsPart(parts[0]);
      FoldKeepsParts(before + [parts[0]], parts[1..]);
      assert before + [parts[0]] + parts[1..] == before + parts;
    }
  }

  lemma {:induction false} SegmentsOfPart(part: string, rest: string)
    requires SLASH !in part
    ensures Segments(part + [SLASH] + rest) == [part] + Segments(rest)
    ensures Segments(part) == [part]
    decreases |part|
  {
    if part == "" {
      assert part + [SLASH] + rest == [SLASH] + rest;
      assert ([SLASH] + rest)[1..] == rest;
    } else {
      SegmentsOfPart(part[1..], rest);
      assert (part + [SLASH] + rest)[1..] == part[1..] + [SLASH] + rest;
      assert [part[0]] + part[1..] == part;
    }
  }

  lemma {:induction false} SegmentsOfJoin(parts: seq<string>)
    requires parts != [] && forall i :: 0 <= i < |parts| ==> SLASH !in parts[i]
    ensures Segments(Join(parts)) == parts
    decreases |parts|
  {
    if |parts| == 1 {
      SegmentsOfPart(parts[0], "");
    } else {
      SegmentsOfJoin(parts[1..]);
      SegmentsOfPart(parts[0], Join(parts[1..]));
    }
  }

  lemma {:induction false} SegmentsOfPartsJoined(parts: seq<string>)
    requires AreParts(parts) && parts != []
    ensures Segments(Join(parts)) == parts
  {
    assert forall i :: 0 <= i < |parts| ==> IsPart(parts[i]);
    SegmentsOfJoin(parts);
  }

  lemma {:induction false} JoinIsPlain(parts: seq<string>)
    requires AreParts(parts) && parts != []
    ensures IsPlain(Join(parts)) && Join(parts) != "" && Join(parts)[0] != SLASH
    decreases |parts|
  {
    assert IsPart(parts[0]);
    if |parts| > 1 { JoinIsPlain(parts[1..]); }
  }

  lemma {:induction false} CanonicalOfJoin(parts: seq<string>, reserved: string -> bool)
    requires AreParts(parts) && parts != []
    requires forall i :: 0 <= i < |parts| ==> !IsUnsafe(parts[i], reserved)
    ensures CanonicalEntry(Join(parts), reserved) == Canonical(Join(parts))
  {
    SegmentsOfPartsJoined(parts);
    JoinIsPlain(parts);
    FoldKeepsParts([], parts);
    assert [] + parts == parts;
    assert ForwardSlashes(Join(parts)) == Join(parts);
    assert IsPart(parts[|parts| - 1]);
  }

  /** A canonical name is its own canonical name, so a plan's entries pass extraction's own check. */
  lemma {:induction false} CanonicalIsIdempotent(name: string, reserved: string -> bool)
    requires CanonicalEntry(name, reserved).Canonical?
    ensures CanonicalEntry(CanonicalEntry(name, reserved).name, reserved) == CanonicalEntry(name, reserved)
  {
    var s := ForwardSlashes(name);
    assert IsPlain(s);
    SegmentsArePlain(s);
    FoldGivesParts([], Segments(s));
    CanonicalOfJoin(FoldParts([], Segments(s)).value, reserved);
  }

  // Folded keys.

  /** A per-unit case fold that keeps the separator apart from everything else. */
  ghost predicate KeepsSlash(fold: char -> char) {
    forall c :: fold(c) == SLASH <==> c == SLASH
  }

  function Folded(s: string, fold: char -> char): (k: string)
    ensures |k| == |s|
    ensures forall i :: 0 <= i < |s| ==> k[i] == fold(s[i])
  {
    seq(|s|, i requires 0 <= i < |s| => fold(s[i]))
  }

  predicate AtMost(a: string, b: string) {
    a == "" || (b != "" && (a[0] < b[0] || (a[0] == b[0] && AtMost(a[1..], b[1..]))))
  }

  /** Component-wise: `a` is what stands before one of `b`'s separators. */
  predicate IsAncestor(a: string, b: string) {
    exists i :: 0 <= i < |b| && b[i] == SLASH && b[..i] == a
  }

  /** `has_game_path_ancestor`: each prefix is folded and compared, rather than sliced by length. */
  predicate HasGamePathAncestor(path: string, ancestor: string, fold: char -> char) {
    exists i :: 0 <= i < |path| && path[i] == SLASH && Folded(path[..i], fold) == Folded(ancestor, fold)
  }

  lemma {:induction false} AncestorFolds(path: string, ancestor: string, fold: char -> char)
    requires KeepsSlash(fold)
    ensures HasGamePathAncestor(path, ancestor, fold) <==> IsAncestor(Folded(ancestor, fold), Folded(path, fold))
  {
    assert forall i :: 0 <= i < |path| ==> Folded(path[..i], fold) == Folded(path, fold)[..i];
    if HasGamePathAncestor(path, ancestor, fold) {
      var i :| 0 <= i < |path| && path[i] == SLASH && Folded(path[..i], fold) == Folded(ancestor, fold);
      assert Folded(path, fold)[i] == SLASH;
    }
    if IsAncestor(Folded(ancestor, fold), Folded(path, fold)) {
      var i :| 0 <= i < |Folded(path, fold)| && Folded(path, fold)[i] == SLASH
               && Folded(path, fold)[..i] == Folded(ancestor, fold);
      assert path[i] == SLASH;
    }
  }

  lemma {:induction false} AncestorIsPrefix(a: string, b: string)
    ensures IsAncestor(a, b) <==> a + [SLASH] <= b
  {
    if IsAncestor(a, b) {
      var i :| 0 <= i < |b| && b[i] == SLASH && b[..i] == a;
      assert b[..i + 1] == a + [SLASH];
    }
    if a + [SLASH] <= b {
      assert b[|a|] == (a + [SLASH])[|a|];
      assert b[..|a|] == a;
    }
  }

  lemma {:induction false} AtMostIsTotal(a: string, b: string)
    ensures AtMost(a, b) || AtMost(b, a)
    decreases |a|
  {
    if a != "" && b != "" { AtMostIsTotal(a[1..], b[1..]); }
  }

  lemma {:induction false} AtMostIsTransitive(a: string, b: string, c: string)
    requires AtMost(a, b) && AtMost(b, c)
    ensures AtMost(a, c)
    decreases |a|
  {
    if a != "" && a[0] == b[0] && b[0] == c[0] { AtMostIsTransitive(a[1..], b[1..], c[1..]); }
  }

  lemma {:induction false} PrefixIsAtMost(prefix: string, s: string)
    requires prefix <= s
    ensures AtMost(prefix, s)
    decreases |prefix|
  {
    if prefix != "" {
      assert prefix[1..] <= s[1..];
      PrefixIsAtMost(prefix[1..], s[1..]);
    }
  }

  /** What sorts between a prefix and something it starts starts with it too. */
  lemma {:induction false} BetweenHasPrefix(prefix: string, s: string, t: string)
    requires prefix <= t && AtMost(prefix, s) && AtMost(s, t)
    ensures prefix <= s
    decreases |prefix|
  {
    if prefix != "" {
      assert prefix[1..] <= t[1..];
      BetweenHasPrefix(prefix[1..], s[1..], t[1..]);
      assert prefix == [prefix[0]] + prefix[1..] && s == [s[0]] + s[1..];
    }
  }

  /** The sorted set's first key at or after `probe`. */
  ghost predicate IsFirstFrom(keys: set<string>, probe: string, first: string) {
    && first in keys && AtMost(probe, first)
    && forall k :: k in keys && AtMost(probe, k) ==> AtMost(first, k)
  }

  method FirstFrom(keys: set<string>, probe: string) returns (first: Option<string>)
    ensures first.None? ==> forall k :: k in keys ==> !AtMost(probe, k)
    ensures first.Some? ==> IsFirstFrom(keys, probe, first.value)
  {
    first := None;
    var left := keys;
    while left != {}
      invariant left <= keys
      invariant first.None? ==> forall k :: k in keys - left ==> !AtMost(probe, k)
      invariant first.Some? ==> IsFirstFrom(keys - left, probe, first.value)
      decreases left
    {
      var k :| k in left;
      if AtMost(probe, k) {
        AtMostIsTotal(k, k);
        if first.Some? { AtMostIsTotal(k, first.value); }
        if first.None? || AtMost(k, first.value) {
          forall j | j in keys - left && AtMost(probe, j) ensures AtMost(k, j) {
            AtMostIsTransitive(k, first.value, j);
          }
          first := Some(k);
        }
      }
      left := left - {k};
    }
  }

  /** One look at the first key at or after `path/` decides whether any planned key lies below `path`. */
  lemma {:induction false} NeighbourDecides(keys: set<string>, path: string)
    ensures (exists first :: IsFirstFrom(keys, path + [SLASH], first) && IsAncestor(path, first))
       <==> (exists k :: k in keys && IsAncestor(path, k))
  {
    if k :| k in keys && IsAncestor(path, k) {
      AncestorIsPrefix(path, k);
      PrefixIsAtMost(path + [SLASH], k);
      var first := LeastFrom(keys, path + [SLASH], k);
      BetweenHasPrefix(path + [SLASH], first, k);
      AncestorIsPrefix(path, first);
    }
  }

  lemma {:induction false} LeastFrom(keys: set<string>, probe: string, k: string) returns (first: string)
    requires k in keys && AtMost(probe, k)
    ensures IsFirstFrom(keys, probe, first) && AtMost(first, k)
    decreases |keys|
  {
    AtMostIsTotal(k, k);
    if IsFirstFrom(keys, probe, k) {
      first := k;
    } else {
      var j :| j in keys && AtMost(probe, j) && !AtMost(k, j);
      AtMostIsTotal(k, j);
      first := LeastFrom(keys - {k}, probe, j);
      AtMostIsTransitive(first, j, k);
    }
  }
}
