/** What a root name is, told from the text alone, and that normalizing keeps every one of them whatever follows. */
module RootNames {
  import opened LexicalNormal
  import opened PathFolding
  import opened PathText

  predicate IsDrive(root: Text) {
    |root| == 2 && root[1] == COLON && (0x41 <= root[0] <= 0x5A || 0x61 <= root[0] <= 0x7A)
  }

  /** `\\server`; `\\?` and `\\.` are of this form. */
  predicate IsServer(root: Text) {
    |root| >= 3 && IsSlash(root[0]) && IsSlash(root[1]) && IsName(root[2..])
  }

  predicate IsObjectRoot(root: Text) {
    |root| == 3 && IsSlash(root[0]) && root[1] == QUESTION && root[2] == QUESTION
  }

  predicate StartsWithSlash(rest: Text) {
    rest != [] && IsSlash(rest[0])
  }

  /** A root name before what follows it: a server's name ends at a slash, and `\??` stands before exactly one. */
  predicate IsRootName(root: Text, rest: Text) {
    || IsDrive(root)
    || (IsServer(root) && (rest == [] || StartsWithSlash(rest)))
    || (IsObjectRoot(root) && StartsWithSlash(rest) && !StartsWithSlash(rest[1..]))
  }

  /** No beginning of the text is a root name. */
  ghost predicate HasNoRootName(text: Text) {
    forall n :: 0 <= n <= |text| ==> !IsRootName(text[..n], text[n..])
  }

  lemma {:induction false} ServerEndsHere(root: Text, rest: Text)
    requires IsServer(root) && (rest == [] || StartsWithSlash(rest))
    ensures FindRootNameEnd(root + rest) == |root|
  {
    var text, name := root + rest, root[2..];
    assert forall k :: 0 <= k < |root| ==> text[k] == root[k];
    assert name[0] == text[2] && |root| < |text| ==> text[|root|] == rest[0];
    forall k | 0 <= k < |root| - 3 ensures !IsSlash(text[3..][k]) {
      assert text[3..][k] == name[k + 1];
    }
    NameLengthIs(text[3..], |root| - 3);
    assert !IsSlash(name[0]);
    if |root| > 3 { assert text[3] == name[1] && !IsSlash(name[1]); }
  }

  lemma {:induction false} RootNameEndsHere(root: Text, rest: Text)
    requires IsRootName(root, rest)
    ensures FindRootNameEnd(root + rest) == |root|
  {
    var text := root + rest;
    assert forall k :: 0 <= k < |root| ==> text[k] == root[k];
    DrivePrefixIsLetterColon(text);
    if IsServer(root) && (rest == [] || StartsWithSlash(rest)) {
      ServerEndsHere(root, rest);
    } else if IsObjectRoot(root) {
      assert text[3] == rest[0] && (|rest| > 1 ==> text[4] == rest[1] == rest[1..][0]);
    }
  }

  lemma {:induction false} FoundIsRootName(text: Text)
    requires FindRootNameEnd(text) > 0
    ensures IsRootName(text[..FindRootNameEnd(text)], text[FindRootNameEnd(text)..])
  {
    var end := FindRootNameEnd(text);
    var root, rest := text[..end], text[end..];
    DrivePrefixIsLetterColon(text);
    assert forall k :: 0 <= k < end ==> root[k] == text[k];
    if !IsDrivePrefix(text) {
      assert end < |text| ==> rest[0] == text[end];
      if end == 3 && text[1] == QUESTION {
        assert |text| > 4 ==> rest[1..][0] == text[4];
      } else {
        forall k | 2 <= k < end ensures !IsSlash(text[k]) {
          if k > 2 && end > 3 { assert text[k] == text[3..][k - 3]; }
        }
        assert forall k :: 0 <= k < end - 2 ==> root[2..][k] == text[k + 2];
      }
    }
  }

  lemma {:induction false} NoRootNameFound(text: Text)
    requires HasNoRootName(text)
    ensures FindRootNameEnd(text) == 0
  {
    if FindRootNameEnd(text) > 0 { FoundIsRootName(text); }
  }

  /** Which texts are absolute: any root name but a drive's makes one so, and a drive's with a slash behind it. */
  lemma {:induction false} AbsoluteTexts(root: Text, rest: Text)
    requires IsRootName(root, rest) || (root == [] && HasNoRootName(rest))
    ensures IsAbsolute(root + rest) <==> root != [] && (IsDrive(root) ==> StartsWithSlash(rest))
  {
    var text := root + rest;
    DrivePrefixIsLetterColon(text);
    if root == [] {
      assert text == rest;
      NoRootNameFound(text);
    } else {
      RootNameEndsHere(root, rest);
      assert text[0] == root[0] && text[1] == root[1];
      assert |rest| > 0 && |root| == 2 ==> text[2] == rest[0];
    }
  }

  // Normal forms.

  lemma {:induction false} NamesBehindSlashes(t: Text)
    ensures Names(t) == Names(t[SlashLength(t)..])
    ensures ParseRelative(t) == ParseRelative(t[SlashLength(t)..])
  {
    if StartsWithSlash(t) {
      NamesBehindSlashes(t[1..]);
      assert t[1..][SlashLength(t[1..])..] == t[SlashLength(t)..];
    }
    var rest := t[SlashLength(t)..];
    assert rest == [] ==> Names(rest) == [];
    assert rest != [] ==> rest[|rest| - 1] == t[|t| - 1];
  }

  /** The folded names of what follows a root name, under a root directory if it starts with a slash. */
  function Behind(rest: Text): Path {
    FoldPath(ParseRelative(rest), StartsWithSlash(rest))
  }

  /** What stands in front: the root name with preferred separators, and one separator for the root directory. */
  function Front(root: Text, rest: Text): Text {
    Preferred(root) + if StartsWithSlash(rest) then [SEPARATOR] else []
  }

  lemma {:induction false} SplitAt(root: Text, rest: Text)
    requires FindRootNameEnd(root + rest) == |root|
    ensures Root(root + rest) == Front(root, rest) && Body(root + rest) == Behind(rest)
  {
    var text, end := root + rest, |root|;
    assert text[..end] == root && text[end..] == rest;
    assert end < |text| ==> text[end] == rest[0];
    assert text[FindRelativePath(text)..] == rest[SlashLength(rest)..];
    NamesBehindSlashes(rest);
  }

  /** Behind a root name everything is folded by itself: the normal form starts with that name, whatever follows. */
  lemma {:induction false} RootNameIsKept(root: Text, rest: Text) returns (normal: Text)
    requires IsRootName(root, rest)
    ensures normal == LexicallyNormal(root + rest) == Front(root, rest) + Render(Behind(rest))
  {
    RootNameEndsHere(root, rest);
    SplitAt(root, rest);
    normal := Front(root, rest) + Render(Behind(rest));
  }

  /** A text without a root name gains none: it is all folded, under a root directory if it starts with a slash. */
  lemma {:induction false} NoRootNameIsAdded(text: Text) returns (normal: Text)
    requires text != [] && HasNoRootName(text)
    ensures normal == LexicallyNormal(text)
    ensures normal == (if StartsWithSlash(text) then [SEPARATOR] + Render(Behind(text))
                       else if Behind(text).names == [] then DOT else Render(Behind(text)))
  {
    NoRootNameFound(text);
    assert [] + text == text;
    SplitAt([], text);
    FoldPathIsNormal(ParseRelative(text), StartsWithSlash(text));
    RenderShape(Behind(text));
    normal := if Front([], text) == [] && Behind(text).names == [] then DOT else Front([], text) + Render(Behind(text));
    assert Front([], text) == if StartsWithSlash(text) then [SEPARATOR] else [];
  }

  lemma {:induction false} PreferredServer(root: Text)
    requires IsServer(root)
    ensures Preferred(root) == [SEPARATOR, SEPARATOR] + root[2..]
  {
    forall k | 2 <= k < |root| ensures Preferred(root)[k] == root[k] {
      assert !IsSlash(root[2..][k - 2]);
    }
  }

  /** A server's name stays, with what follows folded behind it: no `..` reaches it. */
  lemma {:induction false} ServerIsKept(a: Unit, b: Unit, name: Text, rest: Text) returns (normal: Text)
    requires IsSlash(a) && IsSlash(b) && IsName(name) && (rest == [] || StartsWithSlash(rest))
    ensures normal == LexicallyNormal([a, b] + name + rest)
    ensures normal == [SEPARATOR, SEPARATOR] + name + (if rest == [] then [] else [SEPARATOR]) + Render(Behind(rest))
  {
    var root := [a, b] + name;
    assert root[2..] == name;
    normal := RootNameIsKept(root, rest);
    PreferredServer(root);
    assert Preferred(root) == [SEPARATOR, SEPARATOR] + name;
  }

  /** So does a drive, whose names are folded under a root directory only when a slash follows it. */
  lemma {:induction false} DriveIsKept(letter: Unit, rest: Text) returns (normal: Text)
    requires IsDrive([letter, COLON])
    ensures normal == LexicallyNormal([letter, COLON] + rest)
    ensures normal == [letter, COLON] + (if StartsWithSlash(rest) then [SEPARATOR] else []) + Render(Behind(rest))
  {
    normal := RootNameIsKept([letter, COLON], rest);
    assert Preferred([letter, COLON]) == [letter, COLON];
  }

  lemma {:induction false} BehindSlash(b: Unit, rest: Text)
    requires IsSlash(b)
    ensures Behind([b] + rest) == FoldPath(ParseRelative(rest), true)
  {
    NamesBehindSlashes([b] + rest);
    NamesBehindSlashes(rest);
    assert ([b] + rest)[1..] == rest;
  }

  lemma {:induction false} PreferredObjectRoot(root: Text)
    requires IsObjectRoot(root)
    ensures Preferred(root) == [SEPARATOR, QUESTION, QUESTION]
  {
  }

  /** And so does `\??\`. */
  lemma {:induction false} ObjectRootIsKept(root: Text, b: Unit, rest: Text) returns (normal: Text)
    requires IsObjectRoot(root) && IsSlash(b) && !StartsWithSlash(rest)
    ensures normal == LexicallyNormal(root + ([b] + rest))
    ensures normal == [SEPARATOR, QUESTION, QUESTION] + [SEPARATOR] + Render(FoldPath(ParseRelative(rest), true))
  {
    assert ([b] + rest)[1..] == rest;
    normal := RootNameIsKept(root, [b] + rest);
    BehindSlash(b, rest);
    PreferredObjectRoot(root);
  }
}
