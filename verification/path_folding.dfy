/**
 * Dot folding of a relative path, twice: as the one-pass stack the source computes, and as the
 * rewriting rules 4 to 7 of N4950 [fs.path.generic] paragraph 6. The stack reaches the only normal
 * form the rules have.
 */
module PathFolding {
  import opened PathText

  /** The names kept so far, and whether the latest one read is itself the last of them. */
  datatype Folded = Folded(stack: seq<Text>, kept: bool)

  const START := Folded([], false)

  function Next(f: Folded, name: Text, rooted: bool): Folded {
    if name == DOT then Folded(f.stack, false)
    else if name != DOT_DOT then Folded(f.stack + [name], true)
    else if f.stack != [] && f.stack[|f.stack| - 1] != DOT_DOT then Folded(f.stack[..|f.stack| - 1], false)
    else if !rooted then Folded(f.stack + [DOT_DOT], true)
    else Folded(f.stack, false)
  }

  function Fold(f: Folded, names: seq<Text>, rooted: bool): Folded
    decreases |names|
  {
    if names == [] then f else Fold(Next(f, names[0], rooted), names[1..], rooted)
  }

  /** The folded names, with a separator after them unless the last filename was kept without one. */
  function Closed(f: Folded, trailing: bool): Path {
    Path(f.stack, if f.kept then trailing else f.stack != [])
  }

  function FoldSlots(p: Path, rooted: bool): Path {
    Closed(Fold(START, p.names, rooted), p.trailing)
  }

  /** Rule 7: a trailing `..` loses its separator. */
  function DropTrailing(p: Path): Path {
    if p.names != [] && p.names[|p.names| - 1] == DOT_DOT then p.(trailing := false) else p
  }

  function FoldPath(p: Path, rooted: bool): Path {
    DropTrailing(FoldSlots(p, rooted))
  }

  // The standard's rules.

  /** Removes `n` filenames from `i` with the separators after them; what stood before keeps its own. */
  function Cut(p: Path, i: nat, n: nat): Path
    requires i + n <= |p.names|
  {
    var names := p.names[..i] + p.names[i + n..];
    Path(names, if i + n < |p.names| then p.trailing else names != [])
  }

  /** Rule 4 applies: a dot filename. */
  predicate HasDot(names: seq<Text>, i: nat) {
    i < |names| && names[i] == DOT
  }

  /** Rule 5 applies: a filename that is not dot-dot, directly before dot-dot. */
  predicate HasParent(names: seq<Text>, i: nat) {
    i + 1 < |names| && names[i] != DOT_DOT && names[i + 1] == DOT_DOT
  }

  ghost predicate NoDot(names: seq<Text>) {
    forall i :: !HasDot(names, i)
  }

  ghost predicate NoParent(names: seq<Text>) {
    forall i :: !HasParent(names, i)
  }

  /** A stack of normal names: what the fold keeps, and what it leaves alone. */
  ghost predicate NormalNames(names: seq<Text>, rooted: bool) {
    NoDot(names) && NoParent(names) && (rooted ==> DOT_DOT !in names)
  }

  /** No rule applies any more. */
  ghost predicate Normal(p: Path, rooted: bool) {
    && NormalNames(p.names, rooted)
    && (p.trailing ==> p.names != [] && p.names[|p.names| - 1] != DOT_DOT)
  }

  ghost predicate Rule4(p: Path, q: Path, i: nat) {
    HasDot(p.names, i) && q == Cut(p, i, 1)
  }

  ghost predicate Rule5(p: Path, q: Path, i: nat) {
    NoDot(p.names) && HasParent(p.names, i) && q == Cut(p, i, 2)
  }

  ghost predicate Rule6(p: Path, q: Path, i: nat, rooted: bool) {
    rooted && NoDot(p.names) && NoParent(p.names)
    && i < |p.names| && p.names[i] == DOT_DOT && q == Cut(p, i, 1)
  }

  ghost predicate Rule7(p: Path, q: Path, rooted: bool) {
    NormalNames(p.names, rooted) && p.trailing
    && p.names != [] && p.names[|p.names| - 1] == DOT_DOT && q == p.(trailing := false)
  }

  /** One application of one rule; each rule waits until those before it are exhausted. */
  ghost predicate Rewrites(p: Path, q: Path, rooted: bool) {
    || (exists i: nat :: Rule4(p, q, i))
    || (exists i: nat :: Rule5(p, q, i))
    || (exists i: nat :: Rule6(p, q, i, rooted))
    || Rule7(p, q, rooted)
  }

  ghost function Size(p: Path): nat {
    2 * |p.names| + if p.trailing then 1 else 0
  }

  lemma {:induction false} FoldAppend(f: Folded, a: seq<Text>, b: seq<Text>, rooted: bool)
    ensures Fold(f, a + b, rooted) == Fold(Fold(f, a, rooted), b, rooted)
    decreases |a|
  {
    if a == [] {
      assert a + b == b;
    } else {
      assert (a + b)[1..] == a[1..] + b;
      FoldAppend(Next(f, a[0], rooted), a[1..], b, rooted);
    }
  }

  lemma {:induction false} FoldLast(f: Folded, a: seq<Text>, name: Text, rooted: bool)
    ensures Fold(f, a + [name], rooted) == Next(Fold(f, a, rooted), name, rooted)
  {
    FoldAppend(f, a, [name], rooted);
    var g := Fold(f, a, rooted);
    assert Fold(g, [name], rooted) == Fold(Next(g, name, rooted), [name][1..], rooted);
  }

  lemma {:induction false} NormalPrefix(names: seq<Text>, rooted: bool)
    requires names != [] && NormalNames(names, rooted)
    ensures NormalNames(names[..|names| - 1], rooted)
    ensures names[|names| - 1] != DOT
    ensures names[|names| - 1] == DOT_DOT ==>
              !rooted && (|names| > 1 ==> names[|names| - 2] == DOT_DOT)
  {
    var a := names[..|names| - 1];
    forall i ensures !HasDot(a, i) && !HasParent(a, i) {
      assert !HasDot(names, i) && !HasParent(names, i);
    }
    assert !HasDot(names, |names| - 1);
    if |names| > 1 { assert !HasParent(names, |names| - 2); }
  }

  /** Normal names pass through the stack unchanged. */
  lemma {:induction false} FoldOfNormal(names: seq<Text>, rooted: bool)
    requires NormalNames(names, rooted)
    ensures Fold(START, names, rooted) == Folded(names, names != [])
    decreases |names|
  {
    if names != [] {
      var a := names[..|names| - 1];
      NormalPrefix(names, rooted);
      FoldOfNormal(a, rooted);
      assert names == a + [names[|names| - 1]];
      FoldLast(START, a, names[|names| - 1], rooted);
    }
  }

  lemma {:induction false} NextIsNormal(f: Folded, name: Text, rooted: bool)
    requires NormalNames(f.stack, rooted)
    ensures NormalNames(Next(f, name, rooted).stack, rooted)
  {
    var s := Next(f, name, rooted).stack;
    forall i ensures !HasDot(s, i) && !HasParent(s, i) {
      assert !HasDot(f.stack, i) && !HasParent(f.stack, i);
    }
  }

  /** The stack never holds anything a rule would still remove, and keeps only names it was given. */
  lemma {:induction false} FoldIsNormal(f: Folded, names: seq<Text>, rooted: bool)
    requires NormalNames(f.stack, rooted) && (f.kept ==> f.stack != [])
    requires forall k :: 0 <= k < |f.stack| ==> IsName(f.stack[k])
    requires forall k :: 0 <= k < |names| ==> IsName(names[k])
    ensures var g := Fold(f, names, rooted);
            && NormalNames(g.stack, rooted) && (g.kept ==> g.stack != [])
            && forall k :: 0 <= k < |g.stack| ==> IsName(g.stack[k])
    decreases |names|
  {
    if names != [] {
      NextIsNormal(f, names[0], rooted);
      FoldIsNormal(Next(f, names[0], rooted), names[1..], rooted);
    }
  }

  lemma {:induction false} FoldPathIsNormal(p: Path, rooted: bool)
    requires WellFormed(p)
    ensures Normal(FoldPath(p, rooted), rooted) && WellFormed(FoldPath(p, rooted))
  {
    FoldIsNormal(START, p.names, rooted);
  }

  lemma {:induction false} FoldPathOfNormal(p: Path, rooted: bool)
    requires WellFormed(p) && Normal(p, rooted)
    ensures FoldPath(p, rooted) == p
  {
    FoldOfNormal(p.names, rooted);
  }

  /** Folding makes no names up. */
  lemma {:induction false} FoldKeepsNames(f: Folded, names: seq<Text>, rooted: bool, name: Text)
    requires name in Fold(f, names, rooted).stack
    ensures name in f.stack || name in names
    decreases |names|
  {
    if names != [] {
      FoldKeepsNames(Next(f, names[0], rooted), names[1..], rooted, name);
    }
  }

  /** A run of names that leaves the stack as it was: `.`, a folded `name\..`, or `..` under a root directory. */
  ghost predicate NoEffect(f: Folded, m: seq<Text>, rooted: bool) {
    Fold(f, m, rooted) == Folded(f.stack, false)
  }

  lemma {:induction false} FoldForgets(f: Folded, g: Folded, b: seq<Text>, rooted: bool)
    requires f.stack == g.stack && b != []
    ensures Fold(f, b, rooted) == Fold(g, b, rooted)
  {
  }

  lemma {:induction false} FoldWithout(a: seq<Text>, m: seq<Text>, b: seq<Text>, rooted: bool)
    requires NoEffect(Fold(START, a, rooted), m, rooted)
    ensures b != [] ==> Fold(START, a + m + b, rooted) == Fold(START, a + b, rooted)
    ensures b == [] ==> Fold(START, a + m + b, rooted) == Folded(Fold(START, a, rooted).stack, false)
  {
    var f := Fold(START, a, rooted);
    FoldAppend(START, a, m, rooted);
    FoldAppend(START, a + m, b, rooted);
    FoldAppend(START, a, b, rooted);
    if b != [] { FoldForgets(f, Folded(f.stack, false), b, rooted); }
  }

  lemma {:induction false} InThreeParts(names: seq<Text>, i: nat, n: nat)
    requires i + n <= |names|
    ensures names == names[..i] + names[i..i + n] + names[i + n..]
  {
  }

  lemma {:induction false} CutKeepsFold(p: Path, i: nat, n: nat, rooted: bool)
    requires WellFormed(p) && i + n <= |p.names|
    requires NoEffect(Fold(START, p.names[..i], rooted), p.names[i..i + n], rooted)
    ensures WellFormed(Cut(p, i, n)) && FoldPath(Cut(p, i, n), rooted) == FoldPath(p, rooted)
  {
    var a, m, b := p.names[..i], p.names[i..i + n], p.names[i + n..];
    InThreeParts(p.names, i, n);
    FoldWithout(a, m, b, rooted);
    if b == [] {
      assert a + b == a;
      FoldIsNormal(START, a, rooted);
    }
  }

  lemma {:induction false} ParentHasNoEffect(f: Folded, name: Text, rooted: bool)
    requires name != DOT && name != DOT_DOT
    ensures NoEffect(f, [name, DOT_DOT], rooted)
  {
    assert [name, DOT_DOT] == [name] + [DOT_DOT];
    FoldLast(f, [name], DOT_DOT, rooted);
    FoldLast(f, [], name, rooted);
    assert [] + [name] == [name];
    assert (f.stack + [name])[..|f.stack|] == f.stack;
  }

  lemma {:induction false} OneHasNoEffect(f: Folded, name: Text, rooted: bool)
    requires name == DOT || (name == DOT_DOT && rooted && f.stack == [])
    ensures NoEffect(f, [name], rooted)
  {
    FoldLast(f, [], name, rooted);
    assert [] + [name] == [name];
  }

  lemma {:induction false} Rule4KeepsFold(p: Path, q: Path, i: nat, rooted: bool)
    requires WellFormed(p) && Rule4(p, q, i)
    ensures WellFormed(q) && FoldPath(q, rooted) == FoldPath(p, rooted)
  {
    OneHasNoEffect(Fold(START, p.names[..i], rooted), DOT, rooted);
    assert p.names[i..i + 1] == [DOT];
    CutKeepsFold(p, i, 1, rooted);
  }

  lemma {:induction false} Rule5KeepsFold(p: Path, q: Path, i: nat, rooted: bool)
    requires WellFormed(p) && Rule5(p, q, i)
    ensures WellFormed(q) && FoldPath(q, rooted) == FoldPath(p, rooted)
  {
    assert !HasDot(p.names, i);
    ParentHasNoEffect(Fold(START, p.names[..i], rooted), p.names[i], rooted);
    assert p.names[i..i + 2] == [p.names[i], DOT_DOT];
    CutKeepsFold(p, i, 2, rooted);
  }

  lemma {:induction false} Rule6KeepsFold(p: Path, q: Path, i: nat, rooted: bool)
    requires WellFormed(p) && Rule6(p, q, i, rooted)
    ensures WellFormed(q) && FoldPath(q, rooted) == FoldPath(p, rooted)
  {
    ParentsFirst(p.names, i);
    OneHasNoEffect(Fold(START, p.names[..i], rooted), DOT_DOT, rooted);
    assert p.names[i..i + 1] == [DOT_DOT];
    CutKeepsFold(p, i, 1, rooted);
  }

  /** Every rule preserves the folded path, so whatever order they run in, it is what they lead to. */
  lemma {:induction false} RewritesKeepsFold(p: Path, q: Path, rooted: bool)
    requires WellFormed(p) && Rewrites(p, q, rooted)
    ensures WellFormed(q) && FoldPath(q, rooted) == FoldPath(p, rooted) && Size(q) < Size(p)
  {
    if i: nat :| Rule4(p, q, i) {
      Rule4KeepsFold(p, q, i, rooted);
    } else if i: nat :| Rule5(p, q, i) {
      Rule5KeepsFold(p, q, i, rooted);
    } else if i: nat :| Rule6(p, q, i, rooted) {
      Rule6KeepsFold(p, q, i, rooted);
    } else {
      FoldOfNormal(p.names, rooted);
    }
  }

  /** Once rules 4 and 5 are exhausted, only `..` comes before `..`, and a rooted stack drops those. */
  lemma {:induction false} ParentsFirst(names: seq<Text>, i: nat)
    requires NoParent(names) && i < |names| && names[i] == DOT_DOT
    ensures Fold(START, names[..i], true) == START
    decreases i
  {
    if i > 0 {
      assert !HasParent(names, i - 1);
      ParentsFirst(names, i - 1);
      FoldLast(START, names[..i - 1], DOT_DOT, true);
      assert names[..i] == names[..i - 1] + [DOT_DOT];
    }
  }

  /** A run of the rules from `p`, one rule a step. */
  ghost predicate IsRun(run: seq<Path>, rooted: bool) {
    run != [] && forall k :: 0 < k < |run| ==> Rewrites(run[k - 1], run[k], rooted)
  }

  /** Confluence: every run that can go no further ends in the folded path. */
  lemma {:induction false} RunsEndInFold(run: seq<Path>, rooted: bool)
    requires IsRun(run, rooted) && WellFormed(run[0])
    ensures WellFormed(run[|run| - 1]) && FoldPath(run[|run| - 1], rooted) == FoldPath(run[0], rooted)
    ensures Normal(run[|run| - 1], rooted) ==> run[|run| - 1] == FoldPath(run[0], rooted)
    decreases |run|
  {
    if |run| > 1 {
      var front := run[..|run| - 1];
      RunsEndInFold(front, rooted);
      assert Rewrites(run[|run| - 2], run[|run| - 1], rooted);
      RewritesKeepsFold(run[|run| - 2], run[|run| - 1], rooted);
    }
    if Normal(run[|run| - 1], rooted) {
      FoldPathOfNormal(run[|run| - 1], rooted);
    }
  }

  /** Termination: the rules do reach the folded path, so it is their one normal form. */
  lemma {:induction false} FoldIsReached(p: Path, rooted: bool) returns (run: seq<Path>)
    requires WellFormed(p)
    ensures IsRun(run, rooted) && run[0] == p && run[|run| - 1] == FoldPath(p, rooted)
    decreases Size(p)
  {
    if Normal(p, rooted) {
      FoldPathOfNormal(p, rooted);
      run := [p];
    } else {
      var q := SomeRewrite(p, rooted);
      RewritesKeepsFold(p, q, rooted);
      var rest := FoldIsReached(q, rooted);
      run := [p] + rest;
      forall k | 0 < k < |run| ensures Rewrites(run[k - 1], run[k], rooted) {
        if k > 1 { assert Rewrites(rest[k - 2], rest[k - 1], rooted); }
      }
    }
  }

  lemma {:induction false} SomeRewrite(p: Path, rooted: bool) returns (q: Path)
    requires WellFormed(p) && !Normal(p, rooted)
    ensures Rewrites(p, q, rooted)
  {
    if i: nat :| HasDot(p.names, i) {
      q := Cut(p, i, 1);
      assert Rule4(p, q, i);
    } else if i: nat :| HasParent(p.names, i) {
      q := Cut(p, i, 2);
      assert Rule5(p, q, i);
    } else if rooted && DOT_DOT in p.names {
      var i: nat :| i < |p.names| && p.names[i] == DOT_DOT;
      q := Cut(p, i, 1);
      assert Rule6(p, q, i, rooted);
    } else {
      q := p.(trailing := false);
      assert Rule7(p, q, rooted);
    }
  }
}
