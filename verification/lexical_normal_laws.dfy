/** What `lexically_normal` promises: the standard's normal form, and when normalizing twice is normalizing once. */
module LexicalNormalLaws {
  import opened PathText
  import opened PathFolding
  import opened LexicalNormal

  /**
   * Whatever order rules 4 to 7 are applied in, once none applies the text behind the root is the one
   * the in-place compaction leaves.
   */
  lemma {:induction false} EveryRunEndsInLexicallyNormal(text: Text, run: seq<Path>)
    requires text != [] && IsRun(run, HasRootDirectory(text))
    requires run[0] == ParseRelative(text[FindRelativePath(text)..])
    requires Normal(run[|run| - 1], HasRootDirectory(text))
    ensures LexicallyNormal(text)
         == if Root(text) == [] && run[|run| - 1].names == [] then DOT else Root(text) + Render(run[|run| - 1])
  {
    RunsEndInFold(run, HasRootDirectory(text));
    RenderShape(run[|run| - 1]);
  }

  /** Such a run exists for every text. */
  lemma {:induction false} LexicallyNormalIsReached(text: Text) returns (run: seq<Path>)
    requires text != []
    ensures IsRun(run, HasRootDirectory(text)) && Normal(run[|run| - 1], HasRootDirectory(text))
    ensures run[0] == ParseRelative(text[FindRelativePath(text)..])
    ensures LexicallyNormal(text)
         == if Root(text) == [] && run[|run| - 1].names == [] then DOT else Root(text) + Render(run[|run| - 1])
  {
    var p := ParseRelative(text[FindRelativePath(text)..]);
    run := FoldIsReached(p, HasRootDirectory(text));
    FoldPathIsNormal(p, HasRootDirectory(text));
    RenderShape(run[|run| - 1]);
  }

  /** `X:.` as a whole first component, or exactly `X:..\`: the drive-relative dots a second pass still folds. */
  predicate DriveDot(n: Text) {
    && IsDrivePrefix(n)
    && ((|n| >= 3 && n[2] == FULL_STOP && (|n| == 3 || IsSlash(n[3])))
        || n[2..] == DOT_DOT + [SEPARATOR])
  }

  /** One separator after the root, one between filenames: the form every normalized text has. */
  ghost predicate Collapsed(n: Text) {
    && FindRelativePath(n) == |Root(n)|
    && n == Root(n) + Render(ParseRelative(n[FindRelativePath(n)..]))
  }

  /** A text of root and rendered path is its own normal form exactly when no rule applies to the path. */
  lemma {:induction false} FixedPoint(n: Text, p: Path)
    requires WellFormed(p) && n != [] && n != DOT
    requires n == Root(n) + Render(p) && FindRelativePath(n) == |Root(n)|
    ensures LexicallyNormal(n) == n <==> Normal(p, HasRootDirectory(n))
    ensures Collapsed(n)
  {
    var head := |Root(n)|;
    assert n[head..] == Render(p);
    ParseInvertsRender(p);
    if Normal(p, HasRootDirectory(n)) {
      FoldPathOfNormal(p, HasRootDirectory(n));
    } else if LexicallyNormal(n) == n {
      FoldPathIsNormal(p, HasRootDirectory(n));
      assert n[head..] == Render(Body(n));
      ParseInvertsRender(Body(n));
    }
  }

  /** What a normal form keeps of the root name in front of it. */
  ghost predicate KeepsRootName(text: Text, n: Text) {
    var r := FindRootNameEnd(text);
    && r <= |n|
    && (forall k :: 0 <= k < r ==> n[k] == if text[k] == ALT_SEPARATOR then SEPARATOR else text[k])
    && (if HasRootDirectory(text) then r < |n| && n[r] == SEPARATOR && (r + 1 < |n| ==> !IsSlash(n[r + 1]))
        else r < |n| ==> !IsSlash(n[r]) && r < |text|)
  }

  lemma {:induction false} NormalFormKeepsRootName(text: Text)
    requires text != [] && LexicallyNormal(text) == Root(text) + Render(Body(text))
    ensures KeepsRootName(text, LexicallyNormal(text))
    ensures var n, head := LexicallyNormal(text), |Root(text)|;
            n[head..] == Render(Body(text)) && (head < |n| ==> !IsSlash(n[head]))
  {
    var n, head := LexicallyNormal(text), |Root(text)|;
    FoldPathIsNormal(ParseRelative(text[FindRelativePath(text)..]), HasRootDirectory(text));
    RenderShape(Body(text));
    assert n[head..] == Render(Body(text));
    assert head < |n| ==> n[head] == Render(Body(text))[0];
    EmptyBody(text);
  }

  /** Without anything behind the root there is no body. */
  lemma {:induction false} EmptyBody(text: Text)
    ensures FindRelativePath(text) == |text| ==> Render(Body(text)) == []
  {
  }

  /** When the normal form has a root name as long as before, it has the same root. */
  lemma {:induction false} SameRoot(text: Text)
    requires text != [] && LexicallyNormal(text) == Root(text) + Render(Body(text))
    requires FindRootNameEnd(LexicallyNormal(text)) == FindRootNameEnd(text)
    ensures var n := LexicallyNormal(text);
            Root(n) == Root(text) && FindRelativePath(n) == |Root(text)|
            && HasRootDirectory(n) == HasRootDirectory(text)
  {
    NormalFormKeepsRootName(text);
    SameRootOf(text, LexicallyNormal(text));
  }

  lemma {:induction false} SameRootOf(text: Text, n: Text)
    requires KeepsRootName(text, n) && FindRootNameEnd(n) == FindRootNameEnd(text)
    ensures Root(n) == Root(text) && FindRelativePath(n) == |Root(text)|
            && HasRootDirectory(n) == HasRootDirectory(text)
  {
    var r := FindRootNameEnd(text);
    SlashLengthIs(n[r..], |Root(text)| - r);
    assert Preferred(n[..r]) == Preferred(text[..r]);
  }

  /** A root name survives normalization; only a text without one can gain one. */
  lemma {:induction false} RootNameKept(text: Text)
    requires FindRootNameEnd(text) > 0
    ensures LexicallyNormal(text) == Root(text) + Render(Body(text))
    ensures FindRootNameEnd(LexicallyNormal(text)) == FindRootNameEnd(text)
  {
    assert Root(text) != [];
    NormalFormKeepsRootName(text);
    RootNameKeptBy(text, LexicallyNormal(text));
  }

  lemma {:induction false} RootNameKeptBy(text: Text, n: Text)
    requires FindRootNameEnd(text) > 0 && KeepsRootName(text, n)
    ensures FindRootNameEnd(n) == FindRootNameEnd(text)
  {
    var r := FindRootNameEnd(text);
    DrivePrefixIsLetterColon(text);
    DrivePrefixIsLetterColon(n);
    if r > 2 && IsSlash(text[1]) && !IsSlash(text[2]) && r == 3 + NameLength(text[3..]) {
      ServerNameLength(text, n, r);
    }
  }

  lemma {:induction false} ServerNameLength(text: Text, n: Text, r: nat)
    requires 3 <= r <= |text| && r <= |n| && (r < |n| ==> IsSlash(n[r]))
    requires forall k :: 0 <= k < r ==> (IsSlash(n[k]) <==> IsSlash(text[k]))
    requires r == 3 + NameLength(text[3..])
    ensures NameLength(n[3..]) == r - 3
  {
    assert forall k :: 0 <= k < r - 3 ==> !IsSlash(text[3..][k]) && n[3..][k] == n[k + 3];
    NameLengthIs(n[3..], r - 3);
  }

  lemma {:induction false} DotIsFixed()
    ensures LexicallyNormal(DOT) == DOT && Collapsed(DOT)
  {
    NamesAfterName(DOT, []);
    assert DOT + [] == DOT;
    assert Names(DOT) == [DOT];
    assert Fold(START, [DOT], false) == Fold(Next(START, DOT, false), [DOT][1..], false);
  }

  /** A component that is text followed by a slash or the end is the first name read. */
  lemma {:induction false} FirstName(p: Path, name: Text, rest: Text)
    requires WellFormed(p) && Render(p) == name + rest && IsName(name)
    requires rest == [] || IsSlash(rest[0])
    ensures p.names != [] && p.names[0] == name
  {
    NamesAfterName(name, rest);
    NamesOfRender(p);
  }

  lemma {:induction false} NormalBodyHasNoDriveDot(b: Path)
    requires WellFormed(b) && Normal(b, false)
    ensures var t := Render(b);
            && (t == [] || t[0] != FULL_STOP || (|t| > 1 && !IsSlash(t[1])))
            && t != DOT_DOT + [SEPARATOR]
  {
    var t := Render(b);
    var rest := if t == [] then [] else t[1..];
    assert !HasDot(b.names, 0);
    if t != [] && t[0] == FULL_STOP && (|t| == 1 || IsSlash(t[1])) {
      FirstName(b, DOT, rest);
      assert false;
    }
    if t == DOT_DOT + [SEPARATOR] {
      ParseInvertsRender(b);
      ParseInvertsRender(Path([DOT_DOT], true));
      assert false;
    }
  }

  /** Normal names after a first name that is not `..` hold no `..` at all. */
  lemma {:induction false} NoLaterParents(names: seq<Text>, i: nat)
    requires NoParent(names) && i < |names| && names[0] != DOT_DOT
    ensures names[i] != DOT_DOT
  {
    if i > 0 {
      NoLaterParents(names, i - 1);
      assert !HasParent(names, i - 1);
    }
  }

  lemma {:induction false} NormalTail(names: seq<Text>)
    requires NormalNames(names, false) && names != [] && names[0] != DOT_DOT
    ensures NormalNames(names[1..], true)
  {
    forall i | 0 <= i < |names[1..]| ensures names[1..][i] != DOT_DOT && names[1..][i] != DOT {
      NoLaterParents(names, i + 1);
      assert !HasDot(names, i + 1);
    }
  }

  /** The path behind a first name, with the separator that follows that name taken away. */
  function Tail(b: Path): Path
    requires b.names != []
  {
    Path(b.names[1..], |b.names| > 1 && b.trailing)
  }

  lemma {:induction false} RenderTail(b: Path)
    requires b.names != [] && (|b.names| > 1 || b.trailing)
    ensures Render(b) == b.names[0] + [SEPARATOR] + Render(Tail(b))
  {
  }

  lemma {:induction false} QuestionRootShape(n: Text, t: Text)
    requires n == [SEPARATOR] + t && (t != [] ==> !IsSlash(t[0])) && FindRootNameEnd(n) != 0
    ensures FindRootNameEnd(n) == 3 && |t| >= 3 && t[0] == t[1] == QUESTION && IsSlash(t[2])
  {
    DrivePrefixIsLetterColon(n);
    assert |t| > 0 ==> n[1] == t[0];
    assert |t| > 1 ==> n[2] == t[1];
    assert |t| > 2 ==> n[3] == t[2];
  }

  lemma {:induction false} QuestionFirst(t: Text, b: Path)
    requires WellFormed(b) && t == Render(b) && |t| >= 3 && t[0] == t[1] == QUESTION && IsSlash(t[2])
    ensures b.names != [] && (|b.names| > 1 || b.trailing) && t[2] == SEPARATOR && t[3..] == Render(Tail(b))
  {
    var first: Text := [QUESTION, QUESTION];
    assert t == first + t[2..] && t[2..][0] == t[2];
    FirstName(b, first, t[2..]);
    assert t != b.names[0];
    RenderTail(b);
    assert t[3..] == Render(Tail(b));
  }

  lemma {:induction false} QuestionRootSplit(n: Text, b: Path)
    requires WellFormed(b) && n == [SEPARATOR] + Render(b) && FindRootNameEnd(n) != 0
    ensures b.names != [] && (|b.names| > 1 || b.trailing)
    ensures FindRootNameEnd(n) == 3 && |n| >= 4 && n[4..] == Render(Tail(b)) && n[3] == SEPARATOR
    ensures n[1] == QUESTION && b.names[0] != DOT_DOT
  {
    var t := Render(b);
    RenderShape(b);
    QuestionRootShape(n, t);
    QuestionFirst(t, b);
    assert n[4..] == t[3..] && n[1] == t[0] && n[3] == t[2];
    assert b.names[0][0] == t[0];
  }

  /** `\??\..` is read as a root name on the second pass, which then finds nothing to fold. */
  lemma {:induction false} QuestionRootIsFixed(n: Text, b: Path)
    requires WellFormed(b) && Normal(b, true) && n == [SEPARATOR] + Render(b)
    requires FindRootNameEnd(n) != 0
    ensures LexicallyNormal(n) == n && !DriveDot(n) && Collapsed(n)
  {
    QuestionRootSplit(n, b);
    assert n == n[..4] + n[4..];
    NormalTail(b.names);
    RenderShape(Tail(b));
    assert |n| > 4 ==> n[4] == n[4..][0];
    SlashLengthIs(n[3..], 1);
    assert Root(n) == n[..4];
    FixedPoint(n, Tail(b));
  }

  lemma {:induction false} DriveRootIsFixed(n: Text, b: Path)
    requires WellFormed(b) && Normal(b, false) && n == Render(b) && b.names != []
    requires IsDrivePrefix(n) && |b.names[0]| == 2
    ensures LexicallyNormal(n) == n && !DriveDot(n) && Collapsed(n)
  {
    DrivePrefixIsLetterColon(n);
    if |b.names| == 1 && !b.trailing {
      assert n == b.names[0];
      assert Root(n) == n && n[2..] == [];
      assert n == Root(n) + Render(Path([], false));
      FixedPoint(n, Path([], false));
    } else {
      RenderTail(b);
      NormalTail(b.names);
      RenderShape(Tail(b));
      assert n[2] == SEPARATOR && (|n| > 3 ==> n[3] == Render(Tail(b))[0]);
      SlashLengthIs(n[2..], 1);
      assert Root(n) == n[..3];
      FixedPoint(n, Tail(b));
    }
  }

  /** A path whose first name loses its drive prefix. */
  function WithoutDrive(b: Path): Path
    requires b.names != [] && |b.names[0]| > 2
  {
    Path([b.names[0][2..]] + b.names[1..], b.trailing)
  }

  lemma {:induction false} DriveSplit(b: Path)
    requires WellFormed(b) && b.names != [] && |b.names[0]| > 2
    ensures WellFormed(WithoutDrive(b)) && Render(WithoutDrive(b)) == Render(b)[2..]
  {
    var p := WithoutDrive(b);
    assert IsName(b.names[0]) && IsName(p.names[0]);
    if |b.names| > 1 { assert p.names[1..] == b.names[1..]; }
  }

  /** Only the first name can hold a dot once the drive is taken off. */
  lemma {:induction false} WithoutDriveNormal(b: Path)
    requires WellFormed(b) && Normal(b, false) && b.names != [] && |b.names[0]| > 2
    requires var x := b.names[0][2..]; x != DOT && !(x == DOT_DOT && |b.names| == 1 && b.trailing)
    ensures Normal(WithoutDrive(b), false)
  {
    var p := WithoutDrive(b);
    NormalTail(b.names);
    forall i: nat ensures !HasDot(p.names, i) && !HasParent(p.names, i) {
      if 0 < i < |p.names| { assert !HasDot(b.names[1..], i - 1) && p.names[i] == b.names[1..][i - 1]; }
      if i + 1 < |p.names| { assert p.names[i + 1] == b.names[1..][i]; }
    }
    if |b.names| > 1 { assert p.names[|p.names| - 1] == b.names[1..][|b.names| - 2]; }
  }

  lemma {:induction false} DriveRelativeIsFixed(n: Text, b: Path)
    requires WellFormed(b) && Normal(b, false) && n == Render(b) && b.names != []
    requires IsDrivePrefix(n) && |b.names[0]| > 2 && b.names[0] <= n
    ensures (LexicallyNormal(n) == n <==> !DriveDot(n)) && Collapsed(n)
  {
    DrivePrefixIsLetterColon(n);
    var x, p := b.names[0][2..], WithoutDrive(b);
    DriveSplit(b);
    assert IsName(x) && n[2] == x[0];
    SlashLengthIs(n[2..], 0);
    assert Root(n) == n[..2];
    FixedPoint(n, p);
    if Normal(p, false) {
      NormalBodyHasNoDriveDot(p);
      assert n[2..] == Render(p) && n[2] == Render(p)[0] && (|n| > 3 ==> n[3] == Render(p)[1]);
    } else {
      DriveDotOf(n, b);
    }
  }

  lemma {:induction false} DriveDotOf(n: Text, b: Path)
    requires WellFormed(b) && Normal(b, false) && n == Render(b) && b.names != []
    requires IsDrivePrefix(n) && |b.names[0]| > 2 && !Normal(WithoutDrive(b), false)
    ensures DriveDot(n)
  {
    var x := b.names[0][2..];
    if x != DOT && !(x == DOT_DOT && |b.names| == 1 && b.trailing) { WithoutDriveNormal(b); }
    assert n[..|b.names[0]|] == b.names[0];
    assert n[2..|b.names[0]|] == x;
    if x == DOT {
      assert |n| > 3 ==> n[3] == SEPARATOR;
    }
  }

  /** Normalizing twice is normalizing once exactly when the normal form has no drive-relative dots. */
  lemma {:induction false} IdempotentUnlessDriveDot(text: Text)
    ensures var n := LexicallyNormal(text); LexicallyNormal(n) == n <==> !DriveDot(n)
    ensures Collapsed(LexicallyNormal(text))
  {
    var n := LexicallyNormal(text);
    if n == DOT {
      DotIsFixed();
    } else if text != [] {
      var b := Body(text);
      FoldPathIsNormal(ParseRelative(text[FindRelativePath(text)..]), HasRootDirectory(text));
      RenderShape(b);
      if FindRootNameEnd(text) > 0 { RootNameKept(text); }
      if FindRootNameEnd(n) == FindRootNameEnd(text) {
        SameRoot(text);
        FixedPoint(n, b);
        SameRootHasNoDriveDot(text);
      } else if HasRootDirectory(text) {
        assert Root(text) == [SEPARATOR];
        QuestionRootIsFixed(n, b);
      } else {
        assert Root(text) == [] && n == Render(b);
        NamesOfRender(b);
        DrivePrefixIsLetterColon(n);
        if |b.names[0]| == 2 { DriveRootIsFixed(n, b); } else { DriveRelativeIsFixed(n, b); }
      }
    }
  }

  lemma {:induction false} SameRootHasNoDriveDot(text: Text)
    requires text != [] && LexicallyNormal(text) == Root(text) + Render(Body(text))
    requires FindRootNameEnd(LexicallyNormal(text)) == FindRootNameEnd(text)
    ensures !DriveDot(LexicallyNormal(text))
  {
    var n, b := LexicallyNormal(text), Body(text);
    if IsDrivePrefix(n) {
      FoldPathIsNormal(ParseRelative(text[FindRelativePath(text)..]), HasRootDirectory(text));
      if !HasRootDirectory(text) {
        assert n[2..] == Render(b);
        assert |n| > 2 ==> n[2] == Render(b)[0];
        assert |n| > 3 ==> n[3] == Render(b)[1];
        NormalBodyHasNoDriveDot(b);
      } else {
        assert n[2] == SEPARATOR;
      }
    }
  }

  /** A filename that is exactly a drive prefix and a dot or dot-dot: the only kind a second pass can still fold. */
  predicate IsDriveDotName(name: Text) {
    IsDrivePrefix(name) && (name[2..] == DOT || name[2..] == DOT_DOT)
  }

  lemma {:induction false} DriveDotIsFirstName(n: Text, b: Path)
    requires WellFormed(b) && n == Render(b) && DriveDot(n)
    ensures b.names != [] && IsDriveDotName(b.names[0])
  {
    DrivePrefixIsLetterColon(n);
    var length := if |n| == 3 || IsSlash(n[3]) then 3 else 4;
    var name, rest := n[..length], n[length..];
    assert n == name + rest;
    assert n[2..] == DOT_DOT + [SEPARATOR] ==> n[2] == n[3] == FULL_STOP && n[4] == SEPARATOR;
    FirstName(b, name, rest);
    assert name[2..] == if length == 3 then DOT else DOT_DOT;
    DrivePrefixIsLetterColon(name);
  }

  /** A root the text already has rules the exception out. */
  lemma {:induction false} RootedHasNoDriveDot(text: Text)
    requires FindRootNameEnd(text) > 0 || HasRootDirectory(text)
    ensures !DriveDot(LexicallyNormal(text))
  {
    var n, b := LexicallyNormal(text), Body(text);
    assert n == Root(text) + Render(b);
    FoldPathIsNormal(ParseRelative(text[FindRelativePath(text)..]), HasRootDirectory(text));
    RenderShape(b);
    if FindRootNameEnd(text) > 0 { RootNameKept(text); }
    if FindRootNameEnd(n) == FindRootNameEnd(text) {
      SameRootHasNoDriveDot(text);
    } else {
      assert Root(text) == [SEPARATOR];
      QuestionRootIsFixed(n, b);
    }
  }

  /**
   * The texts normalized further by a second pass: no root of their own, and the first filename that folding leaves is
   * `X:.`, or it is `X:..` and a separator is all that follows.
   */
  predicate FoldsAgain(text: Text) {
    var b := Body(text);
    && FindRootNameEnd(text) == 0 && !HasRootDirectory(text)
    && b.names != [] && IsDrivePrefix(b.names[0])
    && (b.names[0][2..] == DOT || (b.names[0][2..] == DOT_DOT && b == Path([b.names[0]], true)))
  }

  lemma {:induction false} DriveDotOfFirstName(n: Text, b: Path)
    requires WellFormed(b) && n == Render(b) && b.names != [] && IsDrivePrefix(b.names[0])
    requires b.names[0][2..] == DOT || (b.names[0][2..] == DOT_DOT && b == Path([b.names[0]], true))
    ensures DriveDot(n)
  {
    var name := b.names[0];
    DrivePrefixIsLetterColon(name);
    RenderShape(b);
    DrivePrefixIsLetterColon(n);
    if |b.names| > 1 || b.trailing { RenderTail(b); }
    assert name == name[..2] + name[2..];
    if name[2..] == DOT {
      assert n[2] == name[2] && (|n| > 3 ==> n[3] == SEPARATOR);
    } else {
      assert n == name + [SEPARATOR];
    }
  }

  lemma {:induction false} FirstNameOfDriveDot(n: Text, b: Path)
    requires WellFormed(b) && n == Render(b) && DriveDot(n)
    ensures b.names != [] && IsDrivePrefix(b.names[0])
    ensures b.names[0][2..] == DOT || (b.names[0][2..] == DOT_DOT && b == Path([b.names[0]], true))
  {
    DriveDotIsFirstName(n, b);
    var name := b.names[0];
    if name[2..] == DOT_DOT {
      RenderShape(b);
      assert n[3] == name[3] == name[2..][1];
      assert n == n[..2] + n[2..] && n[..2] == name[..2] && name == name[..2] + name[2..];
      assert n == name + [SEPARATOR];
      ParseInvertsRender(b);
      ParseInvertsRender(Path([name], true));
    }
  }

  /** What a caller can tell from the text: normalizing is idempotent on exactly those that do not fold again. */
  lemma {:induction false} IdempotentUnlessFoldsAgain(text: Text)
    ensures LexicallyNormal(LexicallyNormal(text)) == LexicallyNormal(text) <==> !FoldsAgain(text)
  {
    var n, b := LexicallyNormal(text), Body(text);
    IdempotentUnlessDriveDot(text);
    if FindRootNameEnd(text) > 0 || HasRootDirectory(text) {
      RootedHasNoDriveDot(text);
    } else {
      FoldPathIsNormal(ParseRelative(text[FindRelativePath(text)..]), false);
      RenderShape(b);
      if b.names != [] {
        assert text != [] && n == Render(b);
        if DriveDot(n) { FirstNameOfDriveDot(n, b); }
        if FoldsAgain(text) { DriveDotOfFirstName(n, b); }
      }
    }
  }

  lemma {:induction false} DriveDotIsAmongNames(text: Text) returns (name: Text)
    requires FoldsAgain(text)
    ensures IsDriveDotName(name) && name in Names(text[FindRelativePath(text)..])
  {
    name := Body(text).names[0];
    FoldKeepsNames(START, ParseRelative(text[FindRelativePath(text)..]).names, false, name);
  }

  /** In particular, a root is enough, and so is no filename that is exactly `X:.` or `X:..`. */
  lemma {:induction false} IdempotentWithoutDriveDotNames(text: Text)
    requires FindRootNameEnd(text) > 0 || HasRootDirectory(text)
          || forall name :: name in Names(text[FindRelativePath(text)..]) ==> !IsDriveDotName(name)
    ensures LexicallyNormal(LexicallyNormal(text)) == LexicallyNormal(text)
  {
    IdempotentUnlessFoldsAgain(text);
    if FoldsAgain(text) { var _ := DriveDotIsAmongNames(text); }
  }

  /** And so is keeping the root name's length. */
  lemma {:induction false} IdempotentWhenRootLengthKept(text: Text)
    requires FindRootNameEnd(LexicallyNormal(text)) == FindRootNameEnd(text)
    ensures LexicallyNormal(LexicallyNormal(text)) == LexicallyNormal(text)
  {
    var n := LexicallyNormal(text);
    IdempotentUnlessDriveDot(text);
    if text != [] && n != DOT {
      SameRootHasNoDriveDot(text);
    }
  }

  /** No filename of the given text starts with a letter and a colon. */
  ghost predicate NoDriveNames(text: Text) {
    forall name :: name in Names(text[FindRelativePath(text)..]) ==> !IsDrivePrefix(name)
  }

  lemma {:induction false} BodyHasNoDrive(text: Text)
    requires NoDriveNames(text)
    ensures forall name :: name in Body(text).names ==> !IsDrivePrefix(name)
  {
    var p, rooted := ParseRelative(text[FindRelativePath(text)..]), HasRootDirectory(text);
    forall name | name in Body(text).names ensures !IsDrivePrefix(name) {
      FoldKeepsNames(START, p.names, rooted, name);
    }
  }

  /** A normal form without a root name of its own making lists the body's names behind its root. */
  lemma {:induction false} NormalFormNames(text: Text)
    requires text != [] && NoDriveNames(text)
    ensures var n := LexicallyNormal(text);
            forall name :: name in Names(n[FindRelativePath(n)..]) ==> name == DOT || name in Body(text).names
  {
    var n, b := LexicallyNormal(text), Body(text);
    FoldPathIsNormal(ParseRelative(text[FindRelativePath(text)..]), HasRootDirectory(text));
    RenderShape(b);
    NamesOfRender(b);
    if FindRootNameEnd(text) > 0 { RootNameKept(text); }
    if n == DOT {
      NamesOfDot();
    } else if FindRootNameEnd(n) == FindRootNameEnd(text) {
      SameRoot(text);
      assert n[|Root(text)|..] == Render(b);
    } else {
      NewRootNames(text, n, b);
    }
  }

  lemma {:induction false} NamesOfDot()
    ensures Names(DOT[FindRelativePath(DOT)..]) == [DOT]
  {
    NamesAfterName(DOT, []);
    assert DOT + [] == DOT && DOT[FindRelativePath(DOT)..] == DOT;
  }

  lemma {:induction false} QuestionRootNames(n: Text, b: Path)
    requires WellFormed(b) && n == [SEPARATOR] + Render(b) && FindRootNameEnd(n) > 0
    ensures forall name :: name in Names(n[FindRelativePath(n)..]) ==> name in b.names
  {
    QuestionRootSplit(n, b);
    RenderShape(Tail(b));
    assert |n| > 4 ==> n[4] == n[4..][0];
    SlashLengthIs(n[3..], 1);
    NamesOfRender(Tail(b));
  }

  lemma {:induction false} NewRootNames(text: Text, n: Text, b: Path)
    requires NoDriveNames(text) && FindRootNameEnd(text) == 0 && FindRootNameEnd(n) > 0
    requires b == Body(text) && WellFormed(b) && Normal(b, HasRootDirectory(text)) && n == Root(text) + Render(b)
    ensures forall name :: name in Names(n[FindRelativePath(n)..]) ==> name in b.names
  {
    RenderShape(b);
    if HasRootDirectory(text) {
      assert Root(text) == [SEPARATOR];
      QuestionRootNames(n, b);
    } else {
      assert n == Render(b);
      BodyHasNoDrive(text);
      DrivePrefixIsLetterColon(n);
      DriveIsInFirstName(n, b);
    }
  }

  lemma {:induction false} DriveIsInFirstName(n: Text, b: Path)
    requires WellFormed(b) && n == Render(b) && FindRootNameEnd(n) > 0
    ensures b.names != [] && IsDrivePrefix(b.names[0])
  {
    RenderShape(b);
    NamesOfRender(b);
    DrivePrefixIsLetterColon(n);
  }

  /** `./C:.` becomes `C:.`, which becomes `C:`. */
  lemma {:induction false} NotIdempotentInGeneral()
    ensures var text: Text := [0x2E, 0x2F, 0x43, 0x3A, 0x2E];
            LexicallyNormal(text) == [0x43, 0x3A, 0x2E]
            && LexicallyNormal(LexicallyNormal(text)) != LexicallyNormal(text)
  {
    var text: Text := [0x2E, 0x2F, 0x43, 0x3A, 0x2E];
    var name: Text := [0x43, 0x3A, 0x2E];
    DrivePrefixIsLetterColon(text);
    DrivePrefixIsLetterColon(name);
    NamesAfterName(DOT, [0x2F] + name);
    assert ([0x2F] + name)[1..] == name;
    NamesAfterName(name, []);
    assert name + [] == name && DOT + ([0x2F] + name) == text;
    assert Names(text) == [DOT, name];
    assert text[FindRelativePath(text)..] == text;
    FoldLast(START, [DOT], name, false);
    FoldLast(START, [], DOT, false);
    assert [] + [DOT] == [DOT] && [DOT] + [name] == [DOT, name];
    assert Fold(START, [DOT, name], false) == Folded([name], true);
    assert LexicallyNormal(text) == name;
    IdempotentUnlessDriveDot(text);
  }
}
