/** Cleaning a path that a plugin names: one separator, no `.`, and `..` folded where something stands before it. */
module CleanPaths {
  import opened GamePaths

  /** A component that cleaning keeps; `..` is one of them. */
  predicate IsComponent(part: string) {
    part != "" && part != "." && SLASH !in part
  }

  /**
   * The component stack after each segment: above the root there is nothing, above a relative path's start there is.
   */
  function Pushed(stack: seq<string>, segment: string, absolute: bool): seq<string> {
    if segment == "" || segment == "." then stack
    else if segment != ".." then stack + [segment]
    else if stack != [] && stack[|stack| - 1] != ".." then stack[..|stack| - 1]
    else if absolute then stack
    else stack + [".."]
  }

  function Folded(stack: seq<string>, segments: seq<string>, absolute: bool): seq<string>
    decreases |segments|
  {
    if segments == [] then stack else Folded(Pushed(stack, segments[0], absolute), segments[1..], absolute)
  }

  predicate IsAbsolute(path: string) {
    path != "" && path[0] == SLASH
  }

  function Rendered(stack: seq<string>, absolute: bool): string {
    if absolute then [SLASH] + Join(stack) else if Join(stack) == "" then "." else Join(stack)
  }

  function Cleaned(path: string): string {
    var slashed := ForwardSlashes(path);
    if slashed == "" then "" else Rendered(Folded([], Segments(slashed), IsAbsolute(slashed)), IsAbsolute(slashed))
  }

  method CleanPath(path: string) returns (cleaned: string)
    ensures cleaned == Cleaned(path)
  {
    var slashed := ForwardSlashes(path);
    if slashed == "" { return ""; }
    var absolute := IsAbsolute(slashed);
    var segments := Segments(slashed);
    var components: seq<string> := [];
    for i := 0 to |segments|
      invariant Folded(components, segments[i..], absolute) == Folded([], segments, absolute)
    {
      var segment := segments[i];
      assert segments[i..][1..] == segments[i + 1..];
      if segment == ".." {
        if components != [] && components[|components| - 1] != ".." {
          components := components[..|components| - 1];
        } else if !absolute {
          components := components + [".."];
        }
      } else if segment != "" && segment != "." {
        components := components + [segment];
      }
    }
    var joined := Join(components);
    cleaned := if absolute then [SLASH] + joined else if joined == "" then "." else joined;
  }

  /** What a cleaned stack looks like: kept components, and `..` only as a leading run of a relative path. */
  ghost predicate IsClean(stack: seq<string>, absolute: bool) {
    && (forall i :: 0 <= i < |stack| ==> IsComponent(stack[i]) && '\\' !in stack[i])
    && (forall i :: 0 <= i < |stack| && stack[i] == ".." ==> !absolute && forall j :: 0 <= j < i ==> stack[j] == "..")
  }

  lemma {:induction false} FoldIsClean(stack: seq<string>, segments: seq<string>, absolute: bool)
    requires IsClean(stack, absolute)
    requires forall i :: 0 <= i < |segments| ==> SLASH !in segments[i] && '\\' !in segments[i]
    ensures IsClean(Folded(stack, segments, absolute), absolute)
    decreases |segments|
  {
    if segments != [] { FoldIsClean(Pushed(stack, segments[0], absolute), segments[1..], absolute); }
  }

  /** Folding what is clean already pushes every component. */
  lemma {:induction false} FoldKeepsClean(stack: seq<string>, more: seq<string>, absolute: bool)
    requires IsClean(stack + more, absolute)
    ensures Folded(stack, more, absolute) == stack + more
    decreases |more|
  {
    if more == [] {
      assert stack + more == stack;
    } else {
      assert (stack + more)[|stack|] == more[0] && stack + [more[0]] + more[1..] == stack + more;
      if stack != [] { assert (stack + more)[|stack| - 1] == stack[|stack| - 1]; }
      FoldKeepsClean(stack + [more[0]], more[1..], absolute);
    }
  }

  lemma {:induction false} SegmentsHold(s: string)
    requires '\\' !in s
    ensures forall k :: 0 <= k < |Segments(s)| ==> '\\' !in Segments(s)[k] && SLASH !in Segments(s)[k]
    decreases |s|
  {
    if s != [] { SegmentsHold(s[1..]); }
  }

  lemma {:induction false} JoinHolds(parts: seq<string>, absolute: bool)
    requires IsClean(parts, absolute) && parts != []
    ensures '\\' !in Join(parts) && Join(parts) != "" && Join(parts)[0] != SLASH
    decreases |parts|
  {
    assert IsComponent(parts[0]);
    if |parts| > 1 {
      assert forall i :: 0 <= i < |parts| - 1 ==> parts[1..][i] == parts[i + 1];
      JoinHolds(parts[1..], absolute);
    }
  }

  lemma {:induction false} SlashesStay(s: string)
    requires '\\' !in s
    ensures ForwardSlashes(s) == s
  {
  }

  lemma {:induction false} SegmentsOfNothing()
    ensures Segments("") == [""] && Segments(".") == ["."] && Segments([SLASH]) == ["", ""]
  {
    SegmentsOfPart("", "");
    SegmentsOfPart(".", "");
    assert "" + [SLASH] + "" == [SLASH];
  }

  lemma {:induction false} CleanedOfNothing(absolute: bool)
    ensures Cleaned(Rendered([], absolute)) == Rendered([], absolute)
  {
    SegmentsOfNothing();
    SlashesStay(".");
    SlashesStay([SLASH]);
    assert [SLASH] + "" == [SLASH];
    assert Folded([], ["", ""], true) == [] && Folded([], ["."], false) == [];
  }

  lemma {:induction false} CleanedOfRendered(stack: seq<string>, absolute: bool)
    requires IsClean(stack, absolute) && stack != []
    ensures Cleaned(Rendered(stack, absolute)) == Rendered(stack, absolute)
  {
    JoinHolds(stack, absolute);
    SegmentsOfJoin(stack);
    assert [] + stack == stack;
    FoldKeepsClean([], stack, absolute);
    SlashesStay(Rendered(stack, absolute));
    assert ([SLASH] + Join(stack))[1..] == Join(stack);
    assert ([""] + stack)[1..] == stack;
  }

  /** Cleaning twice is cleaning once. */
  lemma {:induction false} CleanIsIdempotent(path: string)
    ensures Cleaned(Cleaned(path)) == Cleaned(path)
  {
    var slashed := ForwardSlashes(path);
    if slashed != "" {
      SegmentsHold(slashed);
      FoldIsClean([], Segments(slashed), IsAbsolute(slashed));
      var stack := Folded([], Segments(slashed), IsAbsolute(slashed));
      if stack == [] { CleanedOfNothing(IsAbsolute(slashed)); } else { CleanedOfRendered(stack, IsAbsolute(slashed)); }
    }
  }
}
