/** UTF-16 path text, MSVC's root-name grammar and the relative path behind it. */
module PathText {
  type Unit = u: int | 0 <= u < 0x1_0000
  type Text = seq<Unit>

  const SEPARATOR: Unit := 0x5C
  const ALT_SEPARATOR: Unit := 0x2F
  const COLON: Unit := 0x3A
  const QUESTION: Unit := 0x3F
  const FULL_STOP: Unit := 0x2E
  const DOT: Text := [FULL_STOP]
  const DOT_DOT: Text := [FULL_STOP, FULL_STOP]

  predicate IsSlash(u: Unit) {
    u == SEPARATOR || u == ALT_SEPARATOR
  }

  /** `u & !0x20` on a 16-bit unit. */
  function ClearBit5(u: Unit): Unit {
    if (u / 0x20) % 2 == 1 then u - 0x20 else u
  }

  /** An ASCII letter followed by `:`, by the wrapping 16-bit test the source uses. */
  predicate IsDrivePrefix(text: Text) {
    |text| >= 2 && text[1] == COLON && (ClearBit5(text[0]) - 0x41) % 0x1_0000 < 26
  }

  lemma {:induction false} DrivePrefixIsLetterColon(text: Text)
    ensures IsDrivePrefix(text) <==>
            |text| >= 2 && text[1] == COLON && (0x41 <= text[0] <= 0x5A || 0x61 <= text[0] <= 0x7A)
  {
    if |text| >= 2 {
      var u := text[0];
      assert u == 0x20 * (u / 0x20) + u % 0x20;
      var c: int := ClearBit5(u);
      assert (c - 0x41) % 0x1_0000 == if c >= 0x41 then c - 0x41 else c - 0x41 + 0x1_0000;
    }
  }

  /** How many units come before the first slash. */
  function NameLength(t: Text): (n: nat)
    ensures n <= |t|
    ensures forall k :: 0 <= k < n ==> !IsSlash(t[k])
    ensures n < |t| ==> IsSlash(t[n])
  {
    if t == [] || IsSlash(t[0]) then 0 else 1 + NameLength(t[1..])
  }

  /** How many slashes the text starts with. */
  function SlashLength(t: Text): (n: nat)
    ensures n <= |t|
    ensures forall k :: 0 <= k < n ==> IsSlash(t[k])
    ensures n < |t| ==> !IsSlash(t[n])
  {
    if t == [] || !IsSlash(t[0]) then 0 else 1 + SlashLength(t[1..])
  }

  /** `X:`, a three-unit prefix such as `\\?` before its slash, or `\\server`. */
  function FindRootNameEnd(text: Text): (end: nat)
    ensures end <= |text|
  {
    if |text| < 2 then 0
    else if IsDrivePrefix(text) then 2
    else if !IsSlash(text[0]) then 0
    else if
      && |text| >= 4
      && IsSlash(text[3])
      && (|text| == 4 || !IsSlash(text[4]))
      && ((IsSlash(text[1]) && (text[2] == QUESTION || text[2] == FULL_STOP))
          || (text[1] == QUESTION && text[2] == QUESTION))
    then 3
    else if |text| >= 3 && IsSlash(text[1]) && !IsSlash(text[2]) then 3 + NameLength(text[3..])
    else 0
  }

  /** The first unit after the root name that is not a slash. */
  function FindRelativePath(text: Text): (at: nat)
    ensures FindRootNameEnd(text) <= at <= |text|
    ensures forall k :: FindRootNameEnd(text) <= k < at ==> IsSlash(text[k])
    ensures at < |text| ==> !IsSlash(text[at])
  {
    var end := FindRootNameEnd(text);
    end + SlashLength(text[end..])
  }

  predicate IsAbsolute(text: Text) {
    if IsDrivePrefix(text) then |text| >= 3 && IsSlash(text[2]) else FindRootNameEnd(text) != 0
  }

  /** A relative path as the standard reads it: its filenames, and whether a separator follows the last. */
  datatype Path = Path(names: seq<Text>, trailing: bool)

  predicate IsName(name: Text) {
    name != [] && forall k :: 0 <= k < |name| ==> !IsSlash(name[k])
  }

  predicate WellFormed(p: Path) {
    (forall k :: 0 <= k < |p.names| ==> IsName(p.names[k])) && (p.names == [] ==> !p.trailing)
  }

  /** The maximal runs of non-slash units, in order. */
  function Names(t: Text): (names: seq<Text>)
    ensures forall k :: 0 <= k < |names| ==> IsName(names[k])
    decreases |t|
  {
    if t == [] then []
    else if IsSlash(t[0]) then Names(t[1..])
    else [t[..NameLength(t)]] + Names(t[NameLength(t)..])
  }

  function ParseRelative(t: Text): (p: Path)
    ensures WellFormed(p)
  {
    var names := Names(t);
    Path(names, names != [] && IsSlash(t[|t| - 1]))
  }

  /** The normal text of a relative path: one preferred separator between filenames. */
  function Render(p: Path): (t: Text)
    decreases |p.names|
  {
    if p.names == [] then []
    else if |p.names| == 1 then p.names[0] + (if p.trailing then [SEPARATOR] else [])
    else p.names[0] + [SEPARATOR] + Render(Path(p.names[1..], p.trailing))
  }

  lemma {:induction false} NameLengthIs(t: Text, n: nat)
    requires n <= |t|
    requires forall k :: 0 <= k < n ==> !IsSlash(t[k])
    requires n < |t| ==> IsSlash(t[n])
    ensures NameLength(t) == n
  {
  }

  lemma {:induction false} SlashLengthIs(t: Text, n: nat)
    requires n <= |t|
    requires forall k :: 0 <= k < n ==> IsSlash(t[k])
    requires n < |t| ==> !IsSlash(t[n])
    ensures SlashLength(t) == n
  {
  }

  lemma {:induction false} RenderShape(p: Path)
    requires WellFormed(p)
    ensures Render(p) == [] <==> p.names == []
    ensures p.names != [] ==> p.names[0] <= Render(p) && !IsSlash(Render(p)[0])
    ensures p.names != [] ==> (IsSlash(Render(p)[|Render(p)| - 1]) <==> p.trailing)
    decreases |p.names|
  {
    if p.names != [] {
      assert IsName(p.names[0]);
      if |p.names| > 1 {
        var rest := Path(p.names[1..], p.trailing);
        RenderShape(rest);
        assert Render(p)[|Render(p)| - 1] == Render(rest)[|Render(rest)| - 1];
      }
    }
  }

  lemma {:induction false} NamesAfterName(name: Text, rest: Text)
    requires IsName(name)
    requires rest == [] || IsSlash(rest[0])
    ensures Names(name + rest) == [name] + Names(rest)
  {
    var t := name + rest;
    assert forall k :: 0 <= k < |name| ==> t[k] == name[k];
    NameLengthIs(t, |name|);
    assert t[..|name|] == name && t[|name|..] == rest;
  }

  lemma {:induction false} NamesAfterSlash(rest: Text)
    ensures Names([SEPARATOR] + rest) == Names(rest)
  {
    assert ([SEPARATOR] + rest)[1..] == rest;
  }

  lemma {:induction false} NamesOfRender(p: Path)
    requires WellFormed(p)
    ensures Names(Render(p)) == p.names
    decreases |p.names|
  {
    if |p.names| == 1 {
      NamesAfterName(p.names[0], if p.trailing then [SEPARATOR] else []);
      NamesAfterSlash([]);
      assert [SEPARATOR] + [] == [SEPARATOR];
    } else if |p.names| > 1 {
      var rest := Path(p.names[1..], p.trailing);
      NamesOfRender(rest);
      assert Render(p) == p.names[0] + ([SEPARATOR] + Render(rest));
      NamesAfterName(p.names[0], [SEPARATOR] + Render(rest));
      NamesAfterSlash(Render(rest));
      assert [p.names[0]] + p.names[1..] == p.names;
    }
  }

  /** Parsing inverts rendering: a normal form's text loses neither a filename nor the trailing separator. */
  lemma {:induction false} ParseInvertsRender(p: Path)
    requires WellFormed(p)
    ensures ParseRelative(Render(p)) == p
  {
    RenderShape(p);
    NamesOfRender(p);
  }
}
