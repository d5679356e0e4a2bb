/** When the lexical walk of `weakly_canonical` gives back the normal form it started from. */
module WeaklyCanonicalLaws {
  import opened PathText
  import opened LexicalNormal
  import opened LexicalNormalLaws
  import opened WeaklyCanonical

  /** A disk that holds nothing; only the empty path is canonical without being looked up. */
  ghost predicate HoldsNothing(disk: Text -> Probe) {
    disk([]) == Found([]) && forall t :: t != [] ==> disk(t) == Missing
  }

  function AppendAll(result: Text, elements: seq<Text>): Text
    decreases |elements|
  {
    if elements == [] then result else AppendAll(AppendPath(result, elements[0]), elements[1..])
  }

  lemma {:induction false} WalkInTheDark(result: Text, elements: seq<Text>, asking: bool, disk: Text -> Probe)
    requires HoldsNothing(disk)
    requires asking && elements != [] ==> elements[0] != []
    ensures Walk(result, elements, asking, disk) == Canonical(AppendAll(result, elements))
    decreases |elements|
  {
    if elements != [] {
      var next := AppendPath(result, elements[0]);
      if asking { assert next != []; }
      WalkInTheDark(next, elements[1..], false, disk);
    }
  }

  // Appending a name that is not `X:..` adds exactly a separator and that name.

  lemma {:induction false} PrefixIsNotAllRoot(n: Text, m: nat)
    requires FindRelativePath(n) < m <= |n|
    ensures FindRootNameEnd(n[..m]) < m
  {
    var t, r := n[..m], FindRootNameEnd(n);
    if |t| >= 3 && !IsDrivePrefix(t) && IsSlash(t[0]) && IsSlash(t[1]) && !IsSlash(t[2]) {
      assert 3 <= r < m && IsSlash(n[r]);
      assert t[3..][r - 3] == n[r];
    }
  }

  lemma {:induction false} RootIsNotAllRoot(root: Text)
    requires root != [] && IsSlash(root[|root| - 1])
    ensures FindRootNameEnd(root) < |root|
  {
    DrivePrefixIsLetterColon(root);
    if |root| > 3 { assert IsSlash(root[3..][|root| - 4]); }
  }

  lemma {:induction false} AppendName(result: Text, name: Text)
    requires IsName(name) && !IsDrivePrefix(name)
    ensures AppendPath(result, name)
         == result + (if FindRootNameEnd(result) == |result| then (if |result| >= 3 then [SEPARATOR] else [])
                      else if IsSlash(result[|result| - 1]) then [] else [SEPARATOR]) + name
  {
    assert name[0..] == name;
  }

  lemma {:induction false} AppendAllOf(result: Text, a: seq<Text>, b: seq<Text>)
    ensures AppendAll(result, a + b) == AppendAll(AppendAll(result, a), b)
    decreases |a|
  {
    if a == [] {
      assert a + b == b;
    } else {
      assert (a + b)[1..] == a[1..] + b;
      AppendAllOf(AppendPath(result, a[0]), a[1..], b);
    }
  }

  lemma {:induction false} AppendAllLast(result: Text, a: seq<Text>, e: Text)
    ensures AppendAll(result, a + [e]) == AppendPath(AppendAll(result, a), e)
  {
    AppendAllOf(result, a, [e]);
    var r := AppendAll(result, a);
    assert AppendAll(r, [e]) == AppendAll(AppendPath(r, e), [e][1..]);
  }

  lemma {:induction false} RenderLast(names: seq<Text>, k: nat)
    requires k < |names|
    ensures Render(Path(names[..k + 1], false))
         == Render(Path(names[..k], false)) + (if k > 0 then [SEPARATOR] else []) + names[k]
    decreases |names|
  {
    if k > 0 {
      RenderLast(names[1..], k - 1);
      assert names[..k + 1][1..] == names[1..][..k] && names[..k][1..] == names[1..][..k - 1];
    }
  }

  lemma {:induction false} RenderTrailing(names: seq<Text>)
    requires names != []
    ensures Render(Path(names, true)) == Render(Path(names, false)) + [SEPARATOR]
    decreases |names|
  {
    if |names| > 1 { RenderTrailing(names[1..]); }
  }

  /** The text after the root and the first `k` names, without a separator after them. */
  function Partial(root: Text, names: seq<Text>, k: nat): Text
    requires k <= |names|
  {
    root + Render(Path(names[..k], false))
  }

  lemma {:induction false} PartialIsPrefix(root: Text, p: Path, k: nat)
    requires k <= |p.names|
    ensures Partial(root, p.names, k) <= root + Render(p)
    decreases |p.names| - k
  {
    if k == |p.names| {
      assert p.names[..k] == p.names;
      if p.names != [] { RenderTrailing(p.names); }
    } else {
      PartialIsPrefix(root, p, k + 1);
      RenderLast(p.names, k);
    }
  }

  /** A normalized text, its root and what follows. */
  ghost predicate Normalized(n: Text, root: Text, p: Path) {
    && Collapsed(n) && n != []
    && root == Root(n) && p == ParseRelative(n[FindRelativePath(n)..])
  }

  lemma {:induction false} NormalizedShape(n: Text, root: Text, p: Path)
    requires Normalized(n, root, p)
    ensures root == n[..FindRelativePath(n)] && n == root + Render(p) && n[FindRelativePath(n)..] == Render(p)
    ensures root != [] && IsSlash(root[|root| - 1]) ==> FindRootNameEnd(root) < |root|
    ensures p.names != [] && (root == [] || !IsSlash(root[|root| - 1])) ==>
              |root| < 3 && FindRootNameEnd(root) == |root|
  {
    if root != [] && IsSlash(root[|root| - 1]) { RootIsNotAllRoot(root); }
    if p.names != [] {
      RenderShape(p);
      DrivePrefixIsLetterColon(n);
      DrivePrefixIsLetterColon(root);
      assert n[|root|] == Render(p)[0];
      assert HasRootDirectory(n) ==> root[|root| - 1] == SEPARATOR;
    }
  }

  lemma {:induction false} BetweenNames(n: Text, root: Text, p: Path, k: nat)
    requires n == root + Render(p) && |root| == FindRelativePath(n) && WellFormed(p) && 0 < k <= |p.names|
    ensures var t := Partial(root, p.names, k);
            t != [] && FindRootNameEnd(t) < |t| && !IsSlash(t[|t| - 1])
  {
    var t, body := Partial(root, p.names, k), Path(p.names[..k], false);
    PartialIsPrefix(root, p, k);
    RenderShape(body);
    assert t[|t| - 1] == Render(body)[|Render(body)| - 1];
    PrefixIsNotAllRoot(n, |t|);
    assert t == n[..|t|];
  }

  /** What appending relies on: no partial text is all root name, unless it is empty or just `X:`. */
  ghost predicate Appendable(root: Text, p: Path) {
    && WellFormed(p)
    && (root != [] && IsSlash(root[|root| - 1]) ==> FindRootNameEnd(root) < |root|)
    && (p.names != [] && (root == [] || !IsSlash(root[|root| - 1])) ==>
          |root| < 3 && FindRootNameEnd(root) == |root|)
    && forall k :: 0 < k <= |p.names| ==>
         var t := Partial(root, p.names, k);
         t != [] && FindRootNameEnd(t) < |t| && !IsSlash(t[|t| - 1])
  }

  lemma {:induction false} NormalizedIsAppendable(n: Text, root: Text, p: Path)
    requires Normalized(n, root, p)
    ensures Appendable(root, p) && n == root + Render(p)
  {
    NormalizedShape(n, root, p);
    forall k | 0 < k <= |p.names|
      ensures var t := Partial(root, p.names, k); t != [] && FindRootNameEnd(t) < |t| && !IsSlash(t[|t| - 1])
    {
      BetweenNames(n, root, p, k);
    }
  }

  lemma {:induction false} AppendOne(root: Text, p: Path, k: nat)
    requires Appendable(root, p) && k < |p.names| && !IsDrivePrefix(p.names[k])
    ensures AppendPath(Partial(root, p.names, k), p.names[k]) == Partial(root, p.names, k + 1)
  {
    AppendName(Partial(root, p.names, k), p.names[k]);
    RenderLast(p.names, k);
    if k == 0 { assert Partial(root, p.names, 0) == root; }
  }

  /** As long as no name is `X:..`, appending rebuilds the normal form piece by piece. */
  lemma {:induction false} AppendNames(root: Text, p: Path, k: nat)
    requires Appendable(root, p) && k <= |p.names|
    requires forall j :: 0 <= j < k ==> !IsDrivePrefix(p.names[j])
    ensures AppendAll(root, p.names[..k]) == Partial(root, p.names, k)
  {
    if k > 0 {
      AppendNames(root, p, k - 1);
      assert p.names[..k] == p.names[..k - 1] + [p.names[k - 1]];
      AppendAllLast(root, p.names[..k - 1], p.names[k - 1]);
      AppendOne(root, p, k - 1);
    }
  }

  lemma {:induction false} AppendEmpty(t: Text)
    requires t != [] && FindRootNameEnd(t) < |t| && !IsSlash(t[|t| - 1])
    ensures AppendPath(t, []) == t + [SEPARATOR]
  {
    var none: Text := [];
    assert FindRootNameEnd(none) == 0 && !IsAbsolute(none) && none[0..] == [];
  }

  lemma {:induction false} WholeText(root: Text, p: Path)
    requires WellFormed(p)
    ensures root + Render(p) == Partial(root, p.names, |p.names|) + if p.trailing then [SEPARATOR] else []
  {
    assert p.names[..|p.names|] == p.names;
    if p.trailing { RenderTrailing(p.names); }
  }

  lemma {:induction false} RebuiltExactly(root: Text, p: Path)
    requires Appendable(root, p)
    requires forall j :: 0 <= j < |p.names| ==> !IsDrivePrefix(p.names[j])
    ensures AppendAll(root, p.names + if p.trailing then [[]] else []) == root + Render(p)
  {
    AppendNames(root, p, |p.names|);
    WholeText(root, p);
    assert p.names[..|p.names|] == p.names;
    if p.trailing {
      AppendAllLast(root, p.names, []);
      AppendEmpty(Partial(root, p.names, |p.names|));
    } else {
      assert p.names + [] == p.names;
    }
  }

  lemma {:induction false} NoRoot(q: Text)
    requires q == [] || (!IsSlash(q[0]) && !IsDrivePrefix(q))
    ensures FindRootNameEnd(q) == 0 && FindRelativePath(q) == 0
  {
    SlashLengthIs(q, 0);
    assert q[0..] == q;
  }

  lemma {:induction false} DriveRoot(q: Text, at: nat)
    requires IsDrivePrefix(q) && 2 <= at <= |q|
    requires (forall k :: 2 <= k < at ==> IsSlash(q[k])) && (at < |q| ==> !IsSlash(q[at]))
    ensures FindRootNameEnd(q) == 2 && FindRelativePath(q) == at
  {
    SlashLengthIs(q[2..], at - 2);
  }

  /** Whether a text starts with a drive is settled by its first name. */
  lemma {:induction false} FirstNameHasDrive(q: Text, first: Text)
    requires IsName(first) && first <= q && (|first| < |q| ==> IsSlash(q[|first|]))
    ensures IsDrivePrefix(q) <==> IsDrivePrefix(first)
  {
    assert q[0] == first[0] && (|first| > 1 ==> q[1] == first[1]);
  }

  lemma {:induction false} ElementsWithoutDrive(p: Path)
    requires WellFormed(p) && (p.names != [] ==> !IsDrivePrefix(p.names[0]))
    ensures Elements(Render(p)) == p.names + if p.trailing then [[]] else []
  {
    var q := Render(p);
    RenderShape(p);
    if p.names != [] { FirstNameHasDrive(q, p.names[0]); }
    NoRoot(q);
    ParseInvertsRender(p);
    assert q[0..] == q;
  }

  // A name `X:..` is read as a root name of its own, and what it replaces or swallows is never made up.

  /** The length of a text once a separator is sure to end it: the most an append can build on. */
  function Cost(t: Text): nat {
    |t| + if t != [] && IsSlash(t[|t| - 1]) then 0 else 1
  }

  lemma {:induction false} AppendCost(result: Text, e: Text)
    requires e == [] || IsName(e)
    ensures |AppendPath(result, e)| <= Cost(result) + |e|
    ensures IsDrivePrefix(e) && result != [] ==> |AppendPath(result, e)| < Cost(result) + |e| - 1
                                                 || |AppendPath(result, e)| == |e|
  {
    if result != [] && IsSlash(result[|result| - 1]) { RootIsNotAllRoot(result); }
  }

  lemma {:induction false} DriveShrinks(result: Text, e: Text)
    requires IsName(e) && IsDrivePrefix(e) && result != []
    ensures Cost(AppendPath(result, e)) < Cost(result) + |e| + 1
  {
    AppendCost(result, e);
  }

  function Weight(names: seq<Text>): nat {
    if names == [] then 0 else |names[0]| + 1 + Weight(names[1..])
  }

  lemma {:induction false} WeightOf(a: seq<Text>, b: seq<Text>)
    ensures Weight(a + b) == Weight(a) + Weight(b)
    decreases |a|
  {
    if a == [] {
      assert a + b == b;
    } else {
      assert (a + b)[1..] == a[1..] + b;
      WeightOf(a[1..], b);
    }
  }

  lemma {:induction false} RenderWeight(names: seq<Text>)
    requires names != []
    ensures |Render(Path(names, false))| + 1 == Weight(names)
    decreases |names|
  {
    if |names| > 1 { RenderWeight(names[1..]); }
  }

  lemma {:induction false} AppendAllCost(result: Text, names: seq<Text>)
    requires forall k :: 0 <= k < |names| ==> IsName(names[k])
    ensures Cost(AppendAll(result, names)) <= Cost(result) + Weight(names)
    decreases |names|
  {
    if names != [] {
      AppendCost(result, names[0]);
      AppendAllCost(AppendPath(result, names[0]), names[1..]);
    }
  }

  /** Once something was lost, the trailing separator cannot make up for it. */
  lemma {:induction false} StaysShort(root: Text, p: Path, result: Text)
    requires WellFormed(p) && p.names != [] && Cost(result) < |root| + Weight(p.names)
    ensures AppendAll(result, if p.trailing then [[]] else []) != root + Render(p)
  {
    var n := root + Render(p);
    RenderWeight(p.names);
    RenderShape(p);
    assert n[|n| - 1] == Render(p)[|Render(p)| - 1];
    if p.trailing {
      RenderTrailing(p.names);
      AppendCost(result, []);
      AppendAllLast(result, [], []);
      var none: seq<Text> := [];
      assert none + [[]] == [[]];
    }
  }

  /** The names left after `head`, which lost something: `w` counts the names `head` stands for. */
  lemma {:induction false} ShortFrom(root: Text, p: Path, head: seq<Text>, tail: seq<Text>, w: nat)
    requires WellFormed(p) && p.names != [] && w + Weight(tail) == Weight(p.names)
    requires forall k :: 0 <= k < |tail| ==> IsName(tail[k])
    requires Cost(AppendAll(root, head)) < |root| + w
    ensures AppendAll(root, head + tail + if p.trailing then [[]] else []) != root + Render(p)
  {
    AppendAllOf(root, head, tail);
    AppendAllOf(root, head + tail, if p.trailing then [[]] else []);
    AppendAllCost(AppendAll(root, head), tail);
    StaysShort(root, p, AppendAll(root, head + tail));
  }

  lemma {:induction false} WeightAround(names: seq<Text>, k: nat)
    requires k < |names|
    ensures Weight(names) == Weight(names[..k]) + |names[k]| + 1 + Weight(names[k + 1..])
  {
    assert names == names[..k] + names[k..];
    WeightOf(names[..k], names[k..]);
    assert names[k..][1..] == names[k + 1..];
  }

  lemma {:induction false} CostBeforeDrive(root: Text, p: Path, k: nat)
    requires Appendable(root, p) && 0 < k <= |p.names|
    ensures Cost(Partial(root, p.names, k)) == |root| + Weight(p.names[..k])
  {
    RenderWeight(p.names[..k]);
  }

  lemma {:induction false} CostAfterDrive(root: Text, p: Path, k: nat)
    requires Appendable(root, p) && 0 < k < |p.names| && IsDrivePrefix(p.names[k])
    requires AppendAll(root, p.names[..k]) == Partial(root, p.names, k)
    ensures Cost(AppendAll(root, p.names[..k] + [p.names[k]])) < |root| + (Weight(p.names[..k]) + |p.names[k]| + 1)
  {
    var before := Partial(root, p.names, k);
    CostBeforeDrive(root, p, k);
    AppendAllLast(root, p.names[..k], p.names[k]);
    DriveShrinks(before, p.names[k]);
  }

  lemma {:induction false} LaterDriveIsLost(root: Text, p: Path, k: nat)
    requires Appendable(root, p) && 0 < k < |p.names| && IsDrivePrefix(p.names[k])
    requires forall j :: 0 <= j < k ==> !IsDrivePrefix(p.names[j])
    ensures AppendAll(root, Elements(Render(p))) != root + Render(p)
  {
    ShortAfterDrive(root, p, k);
    ElementsWithoutDrive(p);
  }

  lemma {:induction false} ShortAfterDrive(root: Text, p: Path, k: nat)
    requires Appendable(root, p) && 0 < k < |p.names| && IsDrivePrefix(p.names[k])
    requires forall j :: 0 <= j < k ==> !IsDrivePrefix(p.names[j])
    ensures AppendAll(root, p.names + if p.trailing then [[]] else []) != root + Render(p)
  {
    AppendNames(root, p, k);
    CostAfterDrive(root, p, k);
    WeightAround(p.names, k);
    var head, tail := p.names[..k] + [p.names[k]], p.names[k + 1..];
    assert head + tail == p.names;
    ShortFrom(root, p, head, tail, Weight(p.names[..k]) + |p.names[k]| + 1);
  }

  /** Ends in a slash, or is nothing but a drive: appending to it adds no separator. */
  predicate NeedsNoSeparator(r: Text) {
    r != [] && (if IsSlash(r[|r| - 1]) then FindRootNameEnd(r) < |r| else |r| < 3 && FindRootNameEnd(r) == |r|)
  }

  lemma {:induction false} AppendBareDrive(root: Text, drive: Text)
    requires NeedsNoSeparator(root) && |drive| == 2 && IsDrivePrefix(drive)
    ensures var r := AppendPath(root, drive);
            FindRootNameEnd(r) == 2 && (r == drive || r == root) && NeedsNoSeparator(r)
  {
    assert drive[2..] == [];
    DrivePrefixIsLetterColon(drive);
  }

  /** Behind a bare drive its own rest comes without the separator a name would get. */
  lemma {:induction false} AppendDriveRest(root: Text, r: Text, drive: Text, x: Text)
    requires NeedsNoSeparator(r) && |drive| == 2 && (r == drive || r == root) && root != [] && IsName(x)
    ensures Cost(AppendPath(r, x)) < |root| + |x| + 3
  {
    if IsDrivePrefix(x) {
      AppendCost(r, x);
    } else {
      AppendName(r, x);
    }
  }

  lemma {:induction false} AppendRootDirectory(r: Text)
    requires FindRootNameEnd(r) == 2
    ensures Cost(AppendPath(r, [SEPARATOR])) == 3
  {
    var sep: Text := [SEPARATOR];
    assert FindRootNameEnd(sep) == 0 && !IsAbsolute(sep);
    assert AppendPath(r, sep) == r[..2] + sep[0..];
    assert sep[0..] == sep;
  }

  lemma {:induction false} DriveRestRoot(p: Path)
    requires WellFormed(p) && p.names != [] && IsDrivePrefix(p.names[0]) && |p.names[0]| > 2
    ensures var q := Render(p);
            FindRootNameEnd(q) == FindRelativePath(q) == 2 && q[..2] == p.names[0][..2]
            && ParseRelative(q[2..]) == WithoutDrive(p)
  {
    var q, first := Render(p), p.names[0];
    RenderShape(p);
    assert IsName(first) && q[..2] == first[..2] && q[2] == first[2];
    DriveRoot(q, 2);
    DriveSplit(p);
    ParseInvertsRender(WithoutDrive(p));
  }

  /** `X:rest` is two elements: the drive and the rest. */
  lemma {:induction false} ElementsOfDriveRest(p: Path)
    requires WellFormed(p) && p.names != [] && IsDrivePrefix(p.names[0]) && |p.names[0]| > 2
    ensures Elements(Render(p))
         == [p.names[0][..2], p.names[0][2..]] + p.names[1..] + if p.trailing then [[]] else []
  {
    DriveRestRoot(p);
    ElementsWithoutDirectory(Render(p), 2, WithoutDrive(p));
    var a, b, rest := p.names[0][..2], p.names[0][2..], p.names[1..];
    assert [a] + ([b] + rest) == [a, b] + rest;
  }

  lemma {:induction false} ElementsWithoutDirectory(q: Text, end: nat, p: Path)
    requires end == FindRootNameEnd(q) == FindRelativePath(q) && p == ParseRelative(q[end..]) && 0 < end
    ensures Elements(q) == [q[..end]] + p.names + if p.trailing then [[]] else []
  {
    assert [q[..end]] + [] == [q[..end]];
  }

  lemma {:induction false} ElementsByParts(q: Text, end: nat, at: nat, p: Path)
    requires end == FindRootNameEnd(q) && at == FindRelativePath(q) && p == ParseRelative(q[at..])
    requires 0 < end < at
    ensures Elements(q) == [q[..end], q[end..at]] + p.names + if p.trailing then [[]] else []
  {
    assert [q[..end]] + [q[end..at]] == [q[..end], q[end..at]];
  }

  lemma {:induction false} BareDriveText(p: Path)
    requires WellFormed(p) && p.names != [] && |p.names[0]| == 2 && (|p.names| > 1 || p.trailing)
    ensures var q := Render(p);
            |q| >= 3 && q[..2] == p.names[0] && q[2..3] == [SEPARATOR] && q[3..] == Render(Tail(p))
            && (IsDrivePrefix(p.names[0]) ==> IsDrivePrefix(q))
  {
    RenderTail(p);
  }

  /** A bare `X:` before a separator is a root name and a root directory. */
  lemma {:induction false} ElementsOfBareDrive(p: Path)
    requires WellFormed(p) && p.names != [] && IsDrivePrefix(p.names[0]) && |p.names[0]| == 2
    requires |p.names| > 1 || p.trailing
    ensures Elements(Render(p)) == [p.names[0], [SEPARATOR]] + p.names[1..] + if Tail(p).trailing then [[]] else []
  {
    var q, rest := Render(p), Tail(p);
    BareDriveText(p);
    RenderShape(rest);
    assert q[2] == q[2..3][0] && (|q| > 3 ==> q[3] == q[3..][0]);
    DriveRoot(q, 3);
    ParseInvertsRender(rest);
    ElementsByParts(q, 2, 3, rest);
  }

  lemma {:induction false} AppendTwo(result: Text, a: Text, b: Text)
    ensures AppendAll(result, [a, b]) == AppendPath(AppendPath(result, a), b)
  {
    AppendAllLast(result, [a], b);
    AppendAllLast(result, [], a);
    var none: seq<Text> := [];
    assert none + [a] == [a] && [a] + [b] == [a, b];
  }

  lemma {:induction false} FirstDriveIsLost(root: Text, p: Path)
    requires Appendable(root, p) && root != [] && p.names != [] && IsDrivePrefix(p.names[0])
    ensures AppendAll(root, Elements(Render(p))) != root + Render(p)
  {
    var name := p.names[0];
    var drive := name[..2];
    AppendBareDrive(root, drive);
    var r := AppendPath(root, drive);
    if |name| > 2 {
      ElementsOfDriveRest(p);
      AppendTwo(root, drive, name[2..]);
      assert IsName(name);
      AppendDriveRest(root, r, drive, name[2..]);
      ShortFrom(root, p, [drive, name[2..]], p.names[1..], |name| + 1);
    } else if |p.names| == 1 && !p.trailing {
      BareDriveAlone(root, p, r);
    } else {
      assert drive == name;
      ElementsOfBareDrive(p);
      AppendTwo(root, drive, [SEPARATOR]);
      AppendRootDirectory(r);
      BareDriveThenMore(root, p, [drive, [SEPARATOR]]);
    }
  }

  lemma {:induction false} BareDriveAlone(root: Text, p: Path, r: Text)
    requires Appendable(root, p) && root != [] && |p.names| == 1 && !p.trailing
    requires |p.names[0]| == 2 && IsDrivePrefix(p.names[0])
    requires r == AppendPath(root, p.names[0]) && (r == p.names[0] || r == root)
    ensures AppendAll(root, Elements(Render(p))) != root + Render(p)
  {
    var q := Render(p);
    assert q == p.names[0] && q[..2] == q && q[2..] == [];
    assert Elements(q) == [q] + [] + [];
    AppendAllLast(root, [], q);
    var none: seq<Text> := [];
    assert none + [q] == [q];
  }

  lemma {:induction false} BareDriveThenMore(root: Text, p: Path, head: seq<Text>)
    requires WellFormed(p) && root != [] && p.names != [] && |p.names[0]| == 2 && (|p.names| > 1 || p.trailing)
    requires Cost(AppendAll(root, head)) == 3
    ensures AppendAll(root, head + p.names[1..] + if Tail(p).trailing then [[]] else []) != root + Render(p)
  {
    var name := p.names[0];
    if |p.names| > 1 {
      ShortFrom(root, p, head, p.names[1..], |name| + 1);
    } else {
      assert p.names[1..] == [] && head + [] + [] == head;
      assert |AppendAll(root, head)| <= 3;
      assert |root + Render(p)| == |root| + 3;
    }
  }

  /** No name behind the root starts with a letter and a colon. */
  predicate NoDriveBehindRoot(n: Text) {
    var names := Names(n[FindRelativePath(n)..]);
    forall k :: 0 <= k < |names| ==> !IsDrivePrefix(names[k])
  }

  lemma {:induction false} RebuiltUnlessDrive(n: Text, root: Text, p: Path)
    requires Normalized(n, root, p)
    ensures AppendAll(root, Elements(Render(p))) == n <==> forall k :: 0 <= k < |p.names| ==> !IsDrivePrefix(p.names[k])
  {
    NormalizedIsAppendable(n, root, p);
    assert |root| == FindRelativePath(n);
    if k :| 0 <= k < |p.names| && IsDrivePrefix(p.names[k]) {
      var i := FirstDrive(p.names, k);
      if i > 0 {
        LaterDriveIsLost(root, p, i);
      } else {
        RenderShape(p);
        RootIsThere(n, root, Render(p), p.names[0]);
        FirstDriveIsLost(root, p);
      }
    } else {
      ElementsWithoutDrive(p);
      RebuiltExactly(root, p);
    }
  }

  lemma {:induction false} WalkRebuilds(n: Text, root: Text, p: Path, disk: Text -> Probe)
    requires HoldsNothing(disk) && Normalized(n, root, p)
    ensures Walk(root, Elements(Render(p)), true, disk) == Canonical(n)
       <==> forall k :: 0 <= k < |p.names| ==> !IsDrivePrefix(p.names[k])
  {
    FirstElementIsNotEmpty(p);
    WalkInTheDark(root, Elements(Render(p)), true, disk);
    RebuiltUnlessDrive(n, root, p);
  }

  /**
   * With nothing on disk, `weakly_canonical` is `lexically_normal` exactly when no name behind the
   * root starts with a letter and a colon.
   */
  lemma {:induction false} NothingOnDisk(text: Text, disk: Text -> Probe)
    requires HoldsNothing(disk)
    ensures (WeaklyCanonicalOf(text, disk) == Canonical(LexicallyNormal(text)))
         == NoDriveBehindRoot(LexicallyNormal(text))
  {
    if text != [] {
      IdempotentUnlessDriveDot(text);
      var n := LexicallyNormal(text);
      assert n != [];
      var p := ParseRelative(n[FindRelativePath(n)..]);
      NormalizedShape(n, Root(n), p);
      WalkRebuilds(n, Root(n), p, disk);
    }
  }

  /** What a caller can check beforehand: without drive prefixes in the filenames given, the two agree. */
  lemma {:induction false} NothingOnDiskWithoutDrives(text: Text, disk: Text -> Probe)
    requires HoldsNothing(disk) && NoDriveNames(text)
    ensures WeaklyCanonicalOf(text, disk) == Canonical(LexicallyNormal(text))
  {
    NothingOnDisk(text, disk);
    if text != [] {
      NormalFormNames(text);
      BodyHasNoDrive(text);
    }
  }

  lemma {:induction false} FirstElementIsNotEmpty(p: Path)
    requires WellFormed(p)
    ensures var e := Elements(Render(p)); e != [] ==> e[0] != []
  {
    if p.names == [] || !IsDrivePrefix(p.names[0]) {
      ElementsWithoutDrive(p);
      if p.names != [] { assert IsName(p.names[0]); }
    } else {
      assert p.names[0] <= Render(p);
      assert IsDrivePrefix(Render(p));
    }
  }

  lemma {:induction false} RootIsThere(n: Text, root: Text, q: Text, first: Text)
    requires n == root + q && |root| == FindRelativePath(n)
    requires first <= q && IsDrivePrefix(first)
    ensures root != []
  {
    assert q[0] == first[0] && q[1] == first[1];
    assert root == [] ==> IsDrivePrefix(n);
  }

  lemma {:induction false} FirstDrive(names: seq<Text>, k: nat) returns (i: nat)
    requires k < |names| && IsDrivePrefix(names[k])
    ensures i <= k && IsDrivePrefix(names[i]) && forall j :: 0 <= j < i ==> !IsDrivePrefix(names[j])
  {
    i := 0;
    while !IsDrivePrefix(names[i])
      invariant i <= k && forall j :: 0 <= j < i ==> !IsDrivePrefix(names[j])
      decreases k - i
    {
      i := i + 1;
    }
  }
}
