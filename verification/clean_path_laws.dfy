/** What cleaning a path means: which steps may be left out of it, and which stay. */
module CleanPathLaws {
  import opened CleanPaths
  import opened GamePaths

  /** The steps of a path that is not empty; an empty first one makes it absolute. */
  ghost predicate AreSteps(steps: seq<string>) {
    && steps != [] && steps != [""]
    && forall i :: 0 <= i < |steps| ==> SLASH !in steps[i] && '\\' !in steps[i]
  }

  lemma {:induction false} JoinOfSteps(steps: seq<string>)
    requires AreSteps(steps)
    ensures '\\' !in Join(steps) && Join(steps) != "" && (IsAbsolute(Join(steps)) <==> steps[0] == "")
  {
    JoinHasNone(steps, '\\');
    if |steps| > 1 && steps[0] != "" { assert Join(steps)[0] == steps[0][0]; }
  }

  lemma {:induction false} JoinHasNone(steps: seq<string>, c: char)
    requires c != SLASH && forall i :: 0 <= i < |steps| ==> c !in steps[i]
    ensures c !in Join(steps)
    decreases |steps|
  {
    if |steps| > 1 { JoinHasNone(steps[1..], c); }
  }

  lemma {:induction false} CleanedSteps(steps: seq<string>)
    requires AreSteps(steps)
    ensures Cleaned(Join(steps)) == Rendered(CleanPaths.Folded([], steps, steps[0] == ""), steps[0] == "")
  {
    JoinOfSteps(steps);
    SlashesStay(Join(steps));
    SegmentsOfJoin(steps);
  }

  lemma {:induction false} FoldedAppend(stack: seq<string>, a: seq<string>, b: seq<string>, absolute: bool)
    ensures CleanPaths.Folded(stack, a + b, absolute)
         == CleanPaths.Folded(CleanPaths.Folded(stack, a, absolute), b, absolute)
    decreases |a|
  {
    if a == [] {
      assert a + b == b;
    } else {
      assert (a + b)[1..] == a[1..] + b;
      FoldedAppend(Pushed(stack, a[0], absolute), a[1..], b, absolute);
    }
  }

  /** Steps that lead nowhere: `.`, nothing, or a name and `..` behind it. */
  predicate IsDetour(steps: seq<string>) {
    || steps == ["."] || steps == [""]
    || (|steps| == 2 && !IsSpecial(steps[0]) && steps[1] == "..")
  }

  lemma {:induction false} DetourFolds(stack: seq<string>, steps: seq<string>, absolute: bool)
    requires IsDetour(steps)
    ensures CleanPaths.Folded(stack, steps, absolute) == stack
  {
    if |steps| == 2 {
      var down := Pushed(stack, steps[0], absolute);
      assert steps[1..] == [".."] && [".."][1..] == [];
      assert down == stack + [steps[0]] && Pushed(down, "..", absolute) == stack;
      assert CleanPaths.Folded(down, [".."], absolute) == CleanPaths.Folded(stack, [], absolute);
    } else {
      assert steps[1..] == [];
    }
  }

  /** Leaving a detour out changes nothing, wherever it stands. */
  lemma {:induction false} DetoursDoNotMatter(a: seq<string>, detour: seq<string>, b: seq<string>)
    requires AreSteps(a + detour + b) && AreSteps(a + b) && IsDetour(detour)
    requires (a + detour + b)[0] == "" <==> (a + b)[0] == ""
    ensures Cleaned(Join(a + detour + b)) == Cleaned(Join(a + b))
  {
    var absolute := (a + b)[0] == "";
    CleanedSteps(a + detour + b);
    CleanedSteps(a + b);
    FoldedAppend([], a + detour, b, absolute);
    FoldedAppend([], a, detour, absolute);
    FoldedAppend([], a, b, absolute);
    DetourFolds(CleanPaths.Folded([], a, absolute), detour, absolute);
  }

  /** The root has no parent: `..` directly behind it may be left out as well. */
  lemma {:induction false} RootHasNoParent(steps: seq<string>)
    requires AreSteps(["", ".."] + steps) && AreSteps([""] + steps)
    ensures Cleaned(Join(["", ".."] + steps)) == Cleaned(Join([""] + steps))
  {
    CleanedSteps(["", ".."] + steps);
    CleanedSteps([""] + steps);
    FoldedAppend([], ["", ".."], steps, true);
    FoldedAppend([], [""], steps, true);
    assert ["", ".."][1..] == [".."] && [".."][1..] == [] && [""][1..] == [];
    assert CleanPaths.Folded([], [".."], true) == CleanPaths.Folded(Pushed([], "..", true), [], true);
    assert CleanPaths.Folded([], ["", ".."], true) == [] == CleanPaths.Folded([], [""], true);
  }

  /** What is left is kept: ordinary names, behind as many `..` as a relative path starts with. */
  lemma {:induction false} TheRestIsKept(parents: seq<string>, names: seq<string>)
    requires forall i :: 0 <= i < |parents| ==> parents[i] == ".."
    requires forall i :: 0 <= i < |names| ==> !IsSpecial(names[i]) && SLASH !in names[i] && '\\' !in names[i]
    requires parents + names != []
    ensures Cleaned(Join(parents + names)) == Join(parents + names)
    ensures parents == [] ==> Cleaned([SLASH] + Join(names)) == [SLASH] + Join(names)
  {
    var stack := parents + names;
    assert IsClean(stack, false);
    CleanedOfRendered(stack, false);
    JoinHolds(stack, false);
    if parents == [] {
      assert stack == names && IsClean(names, true);
      CleanedOfRendered(names, true);
    }
  }

  /** When nothing is left of it, a relative path is `.`, and an absolute one the root. */
  lemma {:induction false} NothingIsLeft(detour: seq<string>)
    requires IsDetour(detour) && AreSteps(detour)
    ensures Cleaned(Join(detour)) == "."
    ensures Cleaned(Join([""] + detour)) == [SLASH]
    ensures Cleaned("") == ""
  {
    CleanedSteps(detour);
    CleanedSteps([""] + detour);
    DetourFolds([], detour, false);
    FoldedAppend([], [""], detour, true);
    assert [""][1..] == [];
    assert CleanPaths.Folded([], [""], true) == [];
    DetourFolds([], detour, true);
  }
}
