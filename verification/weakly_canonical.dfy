/** `weakly_canonical`: the lexical walk over a path's elements, joined by `operator/=`. */
module WeaklyCanonical {
  import opened PathText
  import opened PathFolding
  import opened LexicalNormal

  /** What the filesystem answers for one path: its canonical text, that it is missing, or another error. */
  datatype Probe = Found(text: Text) | Missing | Refused(error: int)

  datatype Resolved = Canonical(text: Text) | Failed(error: int)

  /** A text taken apart: its root in up to two pieces, its names, and an empty piece when separators end it. */
  function Elements(text: Text): seq<Text> {
    var end, at := FindRootNameEnd(text), FindRelativePath(text);
    var p := ParseRelative(text[at..]);
    (if end != 0 then [text[..end]] else [])
    + (if at != end then [text[end..at]] else [])
    + Files(p)
  }

  lemma {:induction false} NamesPastSlashes(text: Text, from: nat, at: nat)
    requires from <= at <= |text| && forall k :: from <= k < at ==> IsSlash(text[k])
    ensures NamesFrom(text, from) == NamesFrom(text, at)
    decreases at - from
  {
    if from < at { NamesPastSlashes(text, from + 1, at); }
  }

  /** The filenames, and the empty element of a trailing separator. */
  function Files(p: Path): seq<Text> {
    if p.trailing then p.names + [[]] else p.names
  }

  lemma {:induction false} NextFile(text: Text, relative: nat, at: nat, next: nat, names: seq<Text>)
    returns (more: seq<Text>, trailing: bool)
    requires at < |text| && HasRead(text, relative, at, names, false) && NameEnd(text, at + 1) <= next <= |text|
    requires forall k :: NameEnd(text, at + 1) <= k < next ==> IsSlash(text[k])
    requires next < |text| ==> !IsSlash(text[next])
    ensures more == names + [text[at..NameEnd(text, at + 1)]] && HasRead(text, relative, next, more, trailing)
    ensures trailing == (next == |text| && NameEnd(text, at + 1) != |text|)
  {
    more := names + [text[at..NameEnd(text, at + 1)]];
    trailing := next == |text| && NameEnd(text, at + 1) != |text|;
    NamesPastSlashes(text, NameEnd(text, at + 1), next);
  }

  /** One filename, and the empty element after it when only slashes are left. */
  method ReadFile(text: Text, relative: nat, at: nat, elements: seq<Text>)
    returns (next: nat, more: seq<Text>, ghost names: seq<Text>, ghost trailing: bool)
    requires at < |text| && HasRead(text, relative, at, elements, false)
    ensures at < next && HasRead(text, relative, next, names, trailing) && more == Files(Path(names, trailing))
  {
    var end := NameEnd(text, at + 1);
    next := SkipSlashes(text, end);
    names, trailing := NextFile(text, relative, at, next, elements);
    more := elements + [text[at..end]];
    if next == |text| && end != |text| { more := more + [[]]; }
  }

  method FileElements(text: Text, relative: nat) returns (elements: seq<Text>)
    requires relative <= |text| && (relative < |text| ==> !IsSlash(text[relative]))
    ensures elements == Files(ParseRelative(text[relative..]))
  {
    elements := [];
    var at := relative;
    ghost var names, trailing := [], false;
    while at < |text|
      invariant HasRead(text, relative, at, names, trailing) && elements == Files(Path(names, trailing))
    {
      at, elements, names, trailing := ReadFile(text, relative, at, elements);
    }
    FilesRead(text, relative, names, trailing);
  }

  lemma {:induction false} FilesRead(text: Text, relative: nat, names: seq<Text>, trailing: bool)
    requires HasRead(text, relative, |text|, names, trailing)
    ensures ParseRelative(text[relative..]) == Path(names, trailing)
  {
    var t := text[relative..];
    NamesFromIsNames(text, relative);
    if relative < |text| { assert t[|t| - 1] == text[|text| - 1]; }
  }

  method PathElements(text: Text) returns (elements: seq<Text>)
    ensures elements == Elements(text)
  {
    var rootNameEnd, relative := FindRootNameEnd(text), FindRelativePath(text);
    elements := [];
    if rootNameEnd != 0 { elements := elements + [text[..rootNameEnd]]; }
    if relative != rootNameEnd { elements := elements + [text[rootNameEnd..relative]]; }
    var files := FileElements(text, relative);
    elements := elements + files;
  }

  /** `operator/=`. */
  function AppendPath(result: Text, other: Text): Text {
    if IsAbsolute(other) then other
    else
      var mine, theirs := FindRootNameEnd(result), FindRootNameEnd(other);
      if theirs != 0 && result[..mine] != other[..theirs] then other
      else
        var base :=
          if theirs != |other| && IsSlash(other[theirs]) then result[..mine]
          else if mine == |result| then (if mine >= 3 then result + [SEPARATOR] else result)
          else if !IsSlash(result[|result| - 1]) then result + [SEPARATOR]
          else result;
        base + other[theirs..]
  }

  /** Appends each element, canonicalizing the prefix until it is first missing. */
  function Walk(result: Text, elements: seq<Text>, asking: bool, disk: Text -> Probe): Resolved
    decreases |elements|
  {
    if elements == [] then Canonical(result)
    else
      var next := AppendPath(result, elements[0]);
      if !asking then Walk(next, elements[1..], false, disk)
      else
        match disk(next)
        case Found(text) => Walk(text, elements[1..], true, disk)
        case Missing => Walk(next, elements[1..], false, disk)
        case Refused(error) => Failed(error)
  }

  function WeaklyCanonicalOf(text: Text, disk: Text -> Probe): Resolved {
    match disk(text)
    case Found(result) => Canonical(result)
    case Refused(error) => Failed(error)
    case Missing =>
      var normal := LexicallyNormal(text);
      var relative := FindRelativePath(normal);
      Walk(normal[..relative], Elements(normal[relative..]), true, disk)
  }

  /** Appends each element in turn, asking the disk about each prefix until one is missing. */
  method WalkElements(root: Text, elements: seq<Text>, disk: Text -> Probe) returns (resolved: Resolved)
    ensures resolved == Walk(root, elements, true, disk)
  {
    var result, callCanonical := root, true;
    var i := 0;
    while i < |elements|
      invariant i <= |elements|
      invariant Walk(root, elements, true, disk) == Walk(result, elements[i..], callCanonical, disk)
    {
      assert elements[i..][1..] == elements[i + 1..];
      result := AppendPath(result, elements[i]);
      if callCanonical {
        match disk(result) {
          case Found(canonical) => result := canonical;
          case Missing => callCanonical := false;
          case Refused(error) => return Failed(error);
        }
      }
      i := i + 1;
    }
    return Canonical(result);
  }

  method WeaklyCanonical(text: Text, disk: Text -> Probe) returns (resolved: Resolved)
    ensures resolved == WeaklyCanonicalOf(text, disk)
  {
    match disk(text) {
      case Found(result) => return Canonical(result);
      case Refused(error) => return Failed(error);
      case Missing =>
    }
    var normalized := LexicallyNormalInPlace(text);
    var relative := FindRelativePath(normalized);
    var elements := PathElements(normalized[relative..]);
    resolved := WalkElements(normalized[..relative], elements, disk);
  }
}
