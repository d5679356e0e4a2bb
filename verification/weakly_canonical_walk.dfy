/** What `weakly_canonical` makes of a disk that holds part of a path: the longest existing prefix, replaced. */
module WeaklyCanonicalWalk {
  import opened LexicalNormal
  import opened LexicalNormalLaws
  import opened PathText
  import opened RootNames
  import opened WeaklyCanonical
  import opened WeaklyCanonicalLaws

  // Appending, told by root names.

  /** A text's root name and what is behind it. */
  ghost predicate IsSplit(root: Text, rest: Text) {
    IsRootName(root, rest) || (root == [] && HasNoRootName(rest))
  }

  /** A text as it stands before the next name: a separator follows unless a slash, a bare drive or nothing ends it. */
  function Ended(root: Text, rest: Text): Text {
    root + rest
    + if (if rest == [] then IsServer(root) else !IsSlash(rest[|rest| - 1])) then [SEPARATOR] else []
  }

  lemma {:induction false} SplitLengths(root: Text, rest: Text)
    requires IsSplit(root, rest)
    ensures FindRootNameEnd(root + rest) == |root|
    ensures (root + rest)[..|root|] == root && (root + rest)[|root|..] == rest
    ensures rest == [] && |root| >= 3 <==> rest == [] && IsServer(root)
  {
    if root == [] {
      NoRootNameFound(rest);
      assert root + rest == rest;
    } else {
      RootNameEndsHere(root, rest);
    }
  }

  /**
   * What is appended replaces the text when it is absolute or names another root, keeps only the root name when it
   * starts with a slash, and otherwise follows behind a separator.
   */
  lemma {:induction false} AppendedTo(root: Text, rest: Text, otherRoot: Text, otherRest: Text)
    requires IsSplit(root, rest) && IsSplit(otherRoot, otherRest)
    ensures AppendPath(root + rest, otherRoot + otherRest)
         == if otherRoot != [] && (!IsDrive(otherRoot) || StartsWithSlash(otherRest) || otherRoot != root)
            then otherRoot + otherRest
            else (if StartsWithSlash(otherRest) then root else Ended(root, rest)) + otherRest
  {
    var result, other := root + rest, otherRoot + otherRest;
    SplitLengths(root, rest);
    SplitLengths(otherRoot, otherRest);
    AbsoluteTexts(otherRoot, otherRest);
    assert otherRest != [] ==> other[|otherRoot|] == otherRest[0];
    assert rest != [] ==> result[|result| - 1] == rest[|rest| - 1];
    assert rest == [] ==> result == root;
  }

  /** Ends in a name: whatever is appended next gets a separator. */
  predicate EndsInName(t: Text) {
    t != [] && !IsSlash(t[|t| - 1]) && !(|t| == 2 && IsDrivePrefix(t))
  }

  lemma {:induction false} AppendNameTo(t: Text, name: Text)
    requires EndsInName(t) && IsName(name) && !IsDrivePrefix(name)
    ensures AppendPath(t, name) == t + [SEPARATOR] + name && EndsInName(t + [SEPARATOR] + name)
  {
    AppendName(t, name);
  }

  lemma {:induction false} AppendEmptyTo(t: Text)
    requires EndsInName(t)
    ensures AppendPath(t, []) == t + [SEPARATOR]
  {
    var none: Text := [];
    assert FindRootNameEnd(none) == 0 && !IsAbsolute(none) && none[0..] == [];
  }

  ghost predicate HasNoDrives(names: seq<Text>) {
    forall k :: 0 <= k < |names| ==> !IsDrivePrefix(names[k])
  }

  lemma {:induction false} SameText(a: Text, b: Text, c: Text)
    ensures a + b + c == a + (b + c)
  {
  }

  /** Names appended one by one, and a trailing separator, are the rendered path behind one separator. */
  lemma {:induction false} AppendFiles(t: Text, p: Path)
    requires EndsInName(t) && WellFormed(p) && p.names != [] && HasNoDrives(p.names)
    ensures AppendAll(t, Files(p)) == t + [SEPARATOR] + Render(p)
    decreases |p.names|
  {
    var name, rest := p.names[0], Path(p.names[1..], p.trailing);
    var next := t + [SEPARATOR] + name;
    assert IsName(name);
    AppendNameTo(t, name);
    assert Files(p)[0] == name;
    if |p.names| > 1 {
      assert Files(p)[1..] == Files(rest);
      AppendFiles(next, rest);
      SameText(t + [SEPARATOR], name + [SEPARATOR], Render(rest));
      assert next + [SEPARATOR] == t + [SEPARATOR] + (name + [SEPARATOR]);
    } else {
      AppendLastFile(t, p);
    }
  }

  lemma {:induction false} AppendLastFile(t: Text, p: Path)
    requires EndsInName(t) && WellFormed(p) && |p.names| == 1 && HasNoDrives(p.names)
    ensures AppendAll(t, Files(p)) == t + [SEPARATOR] + Render(p)
  {
    var name := p.names[0];
    var next := t + [SEPARATOR] + name;
    assert IsName(name);
    AppendNameTo(t, name);
    if p.trailing {
      AppendEmptyTo(next);
      assert Files(p) == [name, []];
      AppendTwo(t, name, []);
      assert next + [SEPARATOR] == t + [SEPARATOR] + (name + [SEPARATOR]);
    } else {
      assert Files(p) == [name];
      AppendAllLast(t, [], name);
      var none: seq<Text> := [];
      assert none + [name] == [name];
    }
  }

  // The walk.

  /** The canonical texts found for the prefixes, in turn: each prefix appends an element to the text found before. */
  ghost predicate IsChain(chain: seq<Text>, root: Text, elements: seq<Text>, disk: Text -> Probe) {
    && 0 < |chain| <= |elements| + 1 && chain[0] == root
    && forall i :: 0 <= i < |chain| - 1 ==> disk(AppendPath(chain[i], elements[i])) == Found(chain[i + 1])
  }

  /** And no prefix after it is found. */
  ghost predicate IsLongest(chain: seq<Text>, root: Text, elements: seq<Text>, disk: Text -> Probe) {
    && IsChain(chain, root, elements, disk)
    && (|chain| <= |elements| ==> !disk(AppendPath(chain[|chain| - 1], elements[|chain| - 1])).Found?)
  }

  /** What the walk comes to: the last text found, with the elements from the first missing one on appended to it. */
  ghost function Outcome(chain: seq<Text>, elements: seq<Text>, disk: Text -> Probe): Resolved
    requires 0 < |chain| <= |elements| + 1
  {
    var k := |chain| - 1;
    if k == |elements| then Canonical(chain[k])
    else
      match disk(AppendPath(chain[k], elements[k]))
      case Refused(error) => Failed(error)
      case _ => Canonical(AppendAll(chain[k], elements[k..]))
  }

  lemma {:induction false} WalkUnasked(result: Text, elements: seq<Text>, disk: Text -> Probe)
    ensures Walk(result, elements, false, disk) == Canonical(AppendAll(result, elements))
    decreases |elements|
  {
    if elements != [] { WalkUnasked(AppendPath(result, elements[0]), elements[1..], disk); }
  }

  lemma {:induction false} WalkStops(result: Text, elements: seq<Text>, disk: Text -> Probe)
    requires elements != [] && !disk(AppendPath(result, elements[0])).Found?
    ensures Walk(result, elements, true, disk) == Outcome([result], elements, disk)
  {
    WalkUnasked(AppendPath(result, elements[0]), elements[1..], disk);
    assert elements[0..] == elements;
  }

  lemma {:induction false} RestOfChain(chain: seq<Text>, root: Text, elements: seq<Text>, disk: Text -> Probe)
    requires IsLongest(chain, root, elements, disk) && |chain| > 1
    ensures IsLongest(chain[1..], chain[1], elements[1..], disk)
    ensures Outcome(chain[1..], elements[1..], disk) == Outcome(chain, elements, disk)
  {
    var k := |chain| - 1;
    assert forall i :: 0 <= i < k ==> chain[1..][i] == chain[i + 1];
    assert forall i :: 0 <= i < |elements| - 1 ==> elements[1..][i] == elements[i + 1];
    assert elements[1..][k - 1..] == elements[k..];
  }

  lemma {:induction false} WalkOfChain(chain: seq<Text>, root: Text, elements: seq<Text>, disk: Text -> Probe)
    requires IsLongest(chain, root, elements, disk)
    ensures Walk(root, elements, true, disk) == Outcome(chain, elements, disk)
    decreases |elements|
  {
    if |chain| > 1 {
      RestOfChain(chain, root, elements, disk);
      WalkOfChain(chain[1..], chain[1], elements[1..], disk);
    } else if elements != [] {
      assert chain == [root];
      WalkStops(root, elements, disk);
    }
  }

  lemma {:induction false} LongestChain(root: Text, elements: seq<Text>, disk: Text -> Probe) returns (chain: seq<Text>)
    ensures IsLongest(chain, root, elements, disk)
    decreases |elements|
  {
    if elements == [] || !disk(AppendPath(root, elements[0])).Found? {
      chain := [root];
    } else {
      var rest := LongestChain(disk(AppendPath(root, elements[0])).text, elements[1..], disk);
      chain := [root] + rest;
      ChainGrows(rest, root, elements, disk);
    }
  }

  lemma {:induction false} ChainGrows(rest: seq<Text>, root: Text, elements: seq<Text>, disk: Text -> Probe)
    requires elements != [] && disk(AppendPath(root, elements[0])).Found?
    requires IsLongest(rest, disk(AppendPath(root, elements[0])).text, elements[1..], disk)
    ensures IsLongest([root] + rest, root, elements, disk)
  {
    var chain := [root] + rest;
    forall i | 0 <= i < |chain| - 1 ensures disk(AppendPath(chain[i], elements[i])) == Found(chain[i + 1]) {
      if i > 0 { assert chain[i] == rest[i - 1] && elements[i] == elements[1..][i - 1]; }
    }
    assert |rest| < |elements| ==> elements[|chain| - 1] == elements[1..][|rest| - 1];
  }

  // The whole.

  /** The root of the normal form, and the elements behind it. */
  ghost predicate IsWalked(text: Text, root: Text, elements: seq<Text>) {
    var normal := LexicallyNormal(text);
    root == normal[..FindRelativePath(normal)] && elements == Elements(normal[FindRelativePath(normal)..])
  }

  /**
   * A path that exists is what it is found as; a refusal is passed on; and of one that is missing the longest prefix
   * that exists is replaced by what it is found as, until the first refusal.
   */
  lemma {:induction false} LongestPrefixIsReplaced(text: Text, disk: Text -> Probe)
    returns (chain: seq<Text>, root: Text, elements: seq<Text>)
    ensures IsWalked(text, root, elements) && IsLongest(chain, root, elements, disk)
    ensures WeaklyCanonicalOf(text, disk)
         == match disk(text)
            case Found(result) => Canonical(result)
            case Refused(error) => Failed(error)
            case Missing => Outcome(chain, elements, disk)
  {
    var normal := LexicallyNormal(text);
    root, elements := normal[..FindRelativePath(normal)], Elements(normal[FindRelativePath(normal)..]);
    chain := LongestChain(root, elements, disk);
    WalkOfChain(chain, root, elements, disk);
  }

  /** Nothing is asked but the path and those prefixes: a disk that agrees about them is resolved alike. */
  lemma {:induction false} NothingElseIsAsked(text: Text, root: Text, elements: seq<Text>, chain: seq<Text>,
                                              disk: Text -> Probe, other: Text -> Probe)
    requires IsWalked(text, root, elements) && IsLongest(chain, root, elements, disk) && disk(text) == other(text)
    requires forall i :: 0 <= i < |chain| && i < |elements| ==>
               disk(AppendPath(chain[i], elements[i])) == other(AppendPath(chain[i], elements[i]))
    ensures WeaklyCanonicalOf(text, disk) == WeaklyCanonicalOf(text, other)
  {
    assert IsLongest(chain, root, elements, other);
    WalkOfChain(chain, root, elements, disk);
    WalkOfChain(chain, root, elements, other);
  }

  lemma {:induction false} WalkedFiles(text: Text, root: Text, elements: seq<Text>, p: Path)
    requires text != [] && IsWalked(text, root, elements) && NoDriveBehindRoot(LexicallyNormal(text))
    requires p == ParseRelative(LexicallyNormal(text)[FindRelativePath(LexicallyNormal(text))..])
    ensures elements == Files(p) && HasNoDrives(p.names)
  {
    var normal := LexicallyNormal(text);
    IdempotentUnlessDriveDot(text);
    assert normal != [];
    NormalizedShape(normal, Root(normal), p);
    ElementsWithoutDrive(p);
  }

  lemma {:induction false} FilesFrom(p: Path, k: nat)
    requires WellFormed(p) && k < |p.names|
    ensures Files(p)[k..] == Files(Path(p.names[k..], p.trailing)) && Files(p)[k] == p.names[k]
    ensures WellFormed(Path(p.names[k..], p.trailing))
  {
  }

  lemma {:induction false} OutcomeOfMissing(chain: seq<Text>, p: Path, disk: Text -> Probe)
    requires WellFormed(p) && HasNoDrives(p.names) && 0 < |chain| <= |p.names| && EndsInName(chain[|chain| - 1])
    requires disk(AppendPath(chain[|chain| - 1], p.names[|chain| - 1])) == Missing
    ensures Outcome(chain, Files(p), disk)
         == Canonical(chain[|chain| - 1] + [SEPARATOR] + Render(Path(p.names[|chain| - 1..], p.trailing)))
  {
    var k := |chain| - 1;
    FilesFrom(p, k);
    AppendFiles(chain[k], Path(p.names[k..], p.trailing));
  }

  /** The names from the first missing one on follow what the last existing prefix was found as. */
  lemma {:induction false} MissingNamesFollow(text: Text, root: Text, elements: seq<Text>, chain: seq<Text>, p: Path,
                                              disk: Text -> Probe)
    requires text != [] && disk(text) == Missing && NoDriveBehindRoot(LexicallyNormal(text))
    requires p == ParseRelative(LexicallyNormal(text)[FindRelativePath(LexicallyNormal(text))..])
    requires IsWalked(text, root, elements) && IsLongest(chain, root, elements, disk) && |chain| <= |p.names|
    requires EndsInName(chain[|chain| - 1])
    requires disk(AppendPath(chain[|chain| - 1], p.names[|chain| - 1])) == Missing
    ensures WeaklyCanonicalOf(text, disk)
         == Canonical(chain[|chain| - 1] + [SEPARATOR] + Render(Path(p.names[|chain| - 1..], p.trailing)))
  {
    WalkedFiles(text, root, elements, p);
    WalkOfChain(chain, root, elements, disk);
    OutcomeOfMissing(chain, p, disk);
  }
}
