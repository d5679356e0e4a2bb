/** Plugin and Archive names: a stem's counter and suffix parsed off it, and rendered back. */
module ArchiveNames {
  import opened Decimals
  import opened GamePaths

  const SEPARATOR := " - "

  const U32_MAX: nat := 0xFFFF_FFFF

  /** A stem in parts: `Foo2 - Textures` is name `Foo`, counter 2 and suffix `Textures`. */
  datatype Parsed = Parsed(name: string, counter: Option<nat>, suffix: string)

  /** How many digits a text ends with. */
  function Run(s: string): (n: nat)
    ensures n <= |s| && (forall i :: |s| - n <= i < |s| ==> IsDigit(s[i]))
    ensures n < |s| ==> !IsDigit(s[|s| - n - 1])
  {
    if s == "" || !IsDigit(s[|s| - 1]) then 0 else 1 + Run(s[..|s| - 1])
  }

  predicate EndsInDigit(s: string) {
    s != "" && IsDigit(s[|s| - 1])
  }

  /** A name without the digits it ends with, and those digits. */
  function Head(s: string): string {
    s[..|s| - Run(s)]
  }

  function Tail(s: string): (digits: string)
    ensures AreDigits(digits)
  {
    s[|s| - Run(s)..]
  }

  /** The trailing digits as a counter; an all-digit name, or more than 32 bits hold, stays whole. */
  function EatDigits(name: string): (string, Option<nat>) {
    if Tail(name) == "" || Head(name) == "" || Value(Tail(name)) > U32_MAX then (name, None)
    else (Head(name), Some(Value(Tail(name))))
  }

  predicate HasAt(s: string, pattern: string, i: int) {
    0 <= i <= |s| - |pattern| && s[i..i + |pattern|] == pattern
  }

  function LastIndexOf(s: string, pattern: string): (at: Option<nat>)
    ensures at.Some? ==> HasAt(s, pattern, at.value) && forall i :: HasAt(s, pattern, i) ==> i <= at.value
    ensures at.None? ==> forall i :: !HasAt(s, pattern, i)
  {
    LastIndexUpTo(s, pattern, |s| - |pattern|)
  }

  function LastIndexUpTo(s: string, pattern: string, from: int): (at: Option<nat>)
    ensures at.Some? ==> HasAt(s, pattern, at.value) && at.value <= from
    ensures at.Some? ==> forall i :: HasAt(s, pattern, i) && i <= from ==> i <= at.value
    ensures at.None? ==> forall i :: HasAt(s, pattern, i) ==> i > from
    decreases from + 1
  {
    if from < 0 then None
    else if HasAt(s, pattern, from) then Some(from)
    else LastIndexUpTo(s, pattern, from - 1)
  }

  /** The text after the last ` - `, when it is exactly one of the game's suffixes. */
  function EatSuffix(name: string, suffixes: set<string>): (string, string) {
    var at := LastIndexOf(name, SEPARATOR);
    if at.Some? && name[at.value + |SEPARATOR|..] in suffixes then (name[..at.value], name[at.value + |SEPARATOR|..])
    else (name, "")
  }

  function Parse(stem: string, suffixes: set<string>): Parsed {
    var (named, first) := EatDigits(stem);
    var (name, suffix) := EatSuffix(named, suffixes);
    if first.Some? then Parsed(name, first, suffix)
    else
      var (rest, second) := EatDigits(name);
      Parsed(rest, second, suffix)
  }

  function Counted(name: string, counter: Option<nat>): string {
    if counter.Some? then name + Digits(counter.value) else name
  }

  function FullName(parsed: Parsed): string {
    Counted(parsed.name, parsed.counter) + if parsed.suffix == "" then "" else SEPARATOR + parsed.suffix
  }

  /** What every shipped game's suffixes satisfy: not empty, no final digit, and no separator after their own. */
  ghost predicate SoundSuffixes(suffixes: set<string>) {
    forall suffix :: suffix in suffixes ==>
      suffix != "" && !EndsInDigit(suffix) && forall i :: HasAt(SEPARATOR + suffix, SEPARATOR, i) ==> i == 0
  }

  lemma {:induction false} ShippedSuffixesAreSound()
    ensures SoundSuffixes({"Textures"}) && SoundSuffixes({}) && SoundSuffixes({"Main", "Textures"})
  {
    OneSeparator("Textures");
    OneSeparator("Main");
  }

  lemma {:induction false} OneSeparator(suffix: string)
    requires '-' !in suffix
    ensures forall i :: HasAt(SEPARATOR + suffix, SEPARATOR, i) ==> i == 0
  {
    var whole := SEPARATOR + suffix;
    assert forall k :: |SEPARATOR| <= k < |whole| ==> whole[k] in suffix;
    forall i | HasAt(whole, SEPARATOR, i) ensures i == 0 {
      assert whole[i..i + |SEPARATOR|][1] == whole[i + 1] == '-';
    }
  }

  // Digits.

  lemma {:induction false} RunIsUnique(s: string, n: nat)
    requires n <= |s| && (forall i :: |s| - n <= i < |s| ==> IsDigit(s[i]))
    requires n < |s| ==> !IsDigit(s[|s| - n - 1])
    ensures Run(s) == n
  {
    assert forall i :: |s| - Run(s) <= i < |s| ==> IsDigit(s[i]);
    assert Run(s) < |s| ==> !IsDigit(s[|s| - Run(s) - 1]);
  }

  lemma {:induction false} RunOfAppended(name: string, digits: string)
    requires AreDigits(digits)
    ensures Run(name + digits) == Run(name) + |digits|
  {
    var s, n := name + digits, Run(name) + |digits|;
    forall i | |s| - n <= i < |s| ensures IsDigit(s[i]) {
      if i < |name| { assert s[i] == name[i]; } else { assert s[i] == digits[i - |name|]; }
    }
    if n < |s| { assert s[|s| - n - 1] == name[|name| - Run(name) - 1]; }
    RunIsUnique(s, n);
  }

  /** The exact condition for a counter, or its absence, to survive being appended and eaten again. */
  predicate IsCounted(name: string, counter: Option<nat>) {
    if counter.Some? then name != "" && !EndsInDigit(name) && counter.value <= U32_MAX
    else !EndsInDigit(name) || Head(name) == "" || Value(Tail(name)) > U32_MAX
  }

  lemma {:induction false} CountedSurvives(name: string, counter: Option<nat>)
    ensures EatDigits(Counted(name, counter)) == (name, counter) <==> IsCounted(name, counter)
  {
    if counter.Some? { AppendedCounter(name, counter.value); }
  }

  lemma {:induction false} PartsOfAppended(name: string, digits: string)
    requires AreDigits(digits)
    ensures Head(name + digits) == Head(name) && Tail(name + digits) == Tail(name) + digits
  {
    RunOfAppended(name, digits);
  }

  /** What is eaten after a counter is appended: it, behind any digits the name ended with. */
  lemma {:induction false} AppendedCounter(name: string, counter: nat)
    ensures var all := Tail(name) + Digits(counter);
            EatDigits(name + Digits(counter))
            == if Head(name) == "" || Value(all) > U32_MAX then (name + Digits(counter), None)
               else (Head(name), Some(Value(all)))
    ensures Tail(name) == "" ==> Head(name) == name && Value(Tail(name) + Digits(counter)) == counter
  {
    PartsOfAppended(name, Digits(counter));
    ValueOfDigits(counter);
    assert "" + Digits(counter) == Digits(counter);
  }

  lemma {:induction false} EatenIsCounted(name: string)
    ensures IsCounted(EatDigits(name).0, EatDigits(name).1)
  {
  }

  // Suffixes.

  lemma {:induction false} SuffixEndsWithoutDigit(head: string, suffix: string, suffixes: set<string>)
    requires SoundSuffixes(suffixes) && suffix in suffixes
    ensures EatDigits(head + SEPARATOR + suffix) == (head + SEPARATOR + suffix, None)
  {
    var whole := head + SEPARATOR + suffix;
    assert whole[|whole| - 1] == suffix[|suffix| - 1];
  }

  lemma {:induction false} SuffixIsLast(head: string, suffix: string, suffixes: set<string>)
    requires SoundSuffixes(suffixes) && suffix in suffixes
    ensures EatSuffix(head + SEPARATOR + suffix, suffixes) == (head, suffix)
  {
    var whole, tail := head + SEPARATOR + suffix, SEPARATOR + suffix;
    assert whole[|head|..|head| + |SEPARATOR|] == SEPARATOR && HasAt(whole, SEPARATOR, |head|);
    var at := LastIndexOf(whole, SEPARATOR);
    var i := at.value - |head|;
    assert tail[i..i + |SEPARATOR|] == whole[at.value..at.value + |SEPARATOR|];
    assert HasAt(tail, SEPARATOR, i);
    assert whole[|head| + |SEPARATOR|..] == suffix && whole[..|head|] == head;
  }

  // Round trips.

  /** The exact condition for a name to survive being rendered and parsed. */
  predicate IsCanonical(parsed: Parsed, suffixes: set<string>) {
    && IsCounted(parsed.name, parsed.counter)
    && (if parsed.suffix == "" then EatSuffix(parsed.name, suffixes).1 == "" else parsed.suffix in suffixes)
  }

  /** With a suffix, only the counter is parsed anew. */
  lemma {:induction false} Reparsed(parsed: Parsed, suffixes: set<string>)
    requires SoundSuffixes(suffixes) && parsed.suffix in suffixes
    ensures var (name, counter) := EatDigits(Counted(parsed.name, parsed.counter));
            Parse(FullName(parsed), suffixes) == Parsed(name, counter, parsed.suffix)
  {
    var head := Counted(parsed.name, parsed.counter);
    assert FullName(parsed) == head + SEPARATOR + parsed.suffix;
    SuffixEndsWithoutDigit(head, parsed.suffix, suffixes);
    SuffixIsLast(head, parsed.suffix, suffixes);
  }

  lemma {:induction false} SuffixOfParsed(stem: string, suffixes: set<string>)
    ensures var (name, counter) := EatDigits(stem);
            && Parse(stem, suffixes).suffix == EatSuffix(name, suffixes).1
            && (EatSuffix(name, suffixes).1 == "" || EatSuffix(name, suffixes).1 in suffixes)
            && (EatSuffix(name, suffixes).1 == "" && "" !in suffixes ==>
                  Parse(stem, suffixes) == Parsed(name, counter, ""))
  {
  }

  lemma {:induction false} PlainRoundTrip(name: string, counter: Option<nat>, suffixes: set<string>)
    requires SoundSuffixes(suffixes)
    ensures Parse(Counted(name, counter), suffixes) == Parsed(name, counter, "")
       <==> EatDigits(Counted(name, counter)) == (name, counter) && EatSuffix(name, suffixes).1 == ""
  {
    assert "" !in suffixes;
    SuffixOfParsed(Counted(name, counter), suffixes);
  }

  lemma {:induction false} CanonicalRoundTrip(parsed: Parsed, suffixes: set<string>)
    requires SoundSuffixes(suffixes)
    ensures Parse(FullName(parsed), suffixes) == parsed <==> IsCanonical(parsed, suffixes)
  {
    CountedSurvives(parsed.name, parsed.counter);
    if parsed.suffix == "" {
      PlainFullName(parsed);
      PlainRoundTrip(parsed.name, parsed.counter, suffixes);
    } else if parsed.suffix in suffixes {
      Reparsed(parsed, suffixes);
    } else {
      SuffixOfParsed(FullName(parsed), suffixes);
    }
  }

  lemma {:induction false} PlainFullName(parsed: Parsed)
    requires parsed.suffix == ""
    ensures FullName(parsed) == Counted(parsed.name, parsed.counter)
  {
  }

  /** A parsed name is canonical, unless digits of its own come before a counter that stood after the suffix. */
  lemma {:induction false} ParsedIsCanonicalUnlessDigits(stem: string, suffixes: set<string>)
    requires SoundSuffixes(suffixes)
    ensures var parsed := Parse(stem, suffixes);
            && (parsed.suffix == "" || parsed.suffix in suffixes)
            && (IsCanonical(parsed, suffixes)
                <==> (parsed.suffix != "" && parsed.counter.Some? ==> parsed.name != "" && !EndsInDigit(parsed.name)))
  {
  }

  /** For every stem, one rendering and reparsing reaches a name that survives any further ones. */
  lemma {:induction false} OneRenderingSuffices(stem: string, suffixes: set<string>)
    requires SoundSuffixes(suffixes)
    ensures var again := Parse(FullName(Parse(stem, suffixes)), suffixes);
            IsCanonical(again, suffixes) && Parse(FullName(again), suffixes) == again
  {
    var parsed := Parse(stem, suffixes);
    ParsedIsCanonicalUnlessDigits(stem, suffixes);
    CanonicalRoundTrip(parsed, suffixes);
    if !IsCanonical(parsed, suffixes) {
      Reparsed(parsed, suffixes);
      EatenIsCounted(Counted(parsed.name, parsed.counter));
    }
    CanonicalRoundTrip(Parse(FullName(parsed), suffixes), suffixes);
  }

  // Rendering twice.

  function Rendered(stem: string, suffixes: set<string>): string {
    FullName(Parse(stem, suffixes))
  }

  /** A counter after the suffix, behind a name whose own final digits start with a zero and still leave a counter. */
  predicate LosesZeros(parsed: Parsed) {
    && parsed.suffix != "" && parsed.counter.Some?
    && Head(parsed.name) != "" && Tail(parsed.name) != "" && Tail(parsed.name)[0] == '0'
    && Value(Tail(parsed.name) + Digits(parsed.counter.value)) <= U32_MAX
  }

  lemma {:induction false} DigitsOfValue(s: string)
    requires AreDigits(s) && s != ""
    ensures Digits(Value(s)) == s <==> s == "0" || s[0] != '0'
    decreases |s|
  {
    NoLeadingZero(Value(s));
    var rest := s[..|s| - 1];
    if s[0] != '0' {
      if rest == "" {
        assert s == [s[0]];
      } else {
        DigitsOfValue(rest);
        NotZero(rest);
        assert Value(s) / 10 == Value(rest) && DigitOf(Value(s) % 10) == s[|s| - 1];
        assert s == rest + [s[|s| - 1]];
      }
    }
  }

  lemma {:induction false} NotZero(s: string)
    requires AreDigits(s) && s != "" && s[0] != '0'
    ensures Value(s) > 0
    decreases |s|
  {
    if |s| > 1 { NotZero(s[..|s| - 1]); }
  }

  lemma {:induction false} SameAfterHead(head: string, a: string, b: string)
    ensures head + a == head + b <==> a == b
  {
    if head + a == head + b {
      assert (head + a)[|head|..] == a && (head + b)[|head|..] == b;
    }
  }

  lemma {:induction false} SplitAtTail(name: string, digits: string)
    ensures name + digits == Head(name) + (Tail(name) + digits)
  {
  }

  /** A counter put behind a name's own digits is rendered again as it was, unless they lead with a zero. */
  lemma {:induction false} CountedAgain(name: string, counter: nat)
    requires name == "" || EndsInDigit(name)
    ensures var whole := name + Digits(counter);
            Counted(EatDigits(whole).0, EatDigits(whole).1) == whole
            <==> !(Head(name) != "" && Tail(name)[0] == '0' && Value(Tail(name) + Digits(counter)) <= U32_MAX)
  {
    var head, tail, digits := Head(name), Tail(name), Digits(counter);
    AppendedCounter(name, counter);
    if head != "" && Value(tail + digits) <= U32_MAX {
      SplitAtTail(name, digits);
      AllDigitsAgain(tail, digits);
      CountedAgainFrom(head, tail + digits, name + digits);
    }
  }

  lemma {:induction false} CountedAgainFrom(head: string, all: string, whole: string)
    requires AreDigits(all) && whole == head + all
    ensures Counted(head, Some(Value(all))) == whole <==> Digits(Value(all)) == all
  {
    SameAfterHead(head, Digits(Value(all)), all);
  }

  lemma {:induction false} AllDigitsAgain(tail: string, digits: string)
    requires AreDigits(tail) && tail != "" && AreDigits(digits) && digits != ""
    ensures Digits(Value(tail + digits)) == tail + digits <==> tail[0] != '0'
  {
    DigitsOfValue(tail + digits);
    assert |tail + digits| > 1;
  }

  /** Rendering is idempotent, except on exactly the names whose leading zeros it turns into part of a counter. */
  lemma {:induction false} RenderingIsIdempotent(stem: string, suffixes: set<string>)
    requires SoundSuffixes(suffixes)
    ensures Rendered(Rendered(stem, suffixes), suffixes) == Rendered(stem, suffixes)
       <==> !LosesZeros(Parse(stem, suffixes))
  {
    var parsed := Parse(stem, suffixes);
    ParsedIsCanonicalUnlessDigits(stem, suffixes);
    CanonicalRoundTrip(parsed, suffixes);
    if !IsCanonical(parsed, suffixes) {
      var head := Counted(parsed.name, parsed.counter);
      var (name, counter) := EatDigits(head);
      Reparsed(parsed, suffixes);
      CountedAgain(parsed.name, parsed.counter.value);
      SameBeforeSuffix(Counted(name, counter), head, SEPARATOR + parsed.suffix);
    }
  }

  lemma {:induction false} SameBeforeSuffix(a: string, b: string, tail: string)
    ensures a + tail == b + tail <==> a == b
  {
    if a + tail == b + tail {
      assert |a| == |b|;
      assert (a + tail)[..|a|] == a && (b + tail)[..|b|] == b;
    }
  }

  lemma {:induction false} FiveIsEaten()
    ensures EatDigits("Foo0 - Textures5") == ("Foo0 - Textures", Some(5))
  {
    assert Digits(5) == "5" && "Foo0 - Textures" + "5" == "Foo0 - Textures5";
    AppendedCounter("Foo0 - Textures", 5);
  }

  lemma {:induction false} ZeroIsParsedAsName()
    ensures Parse("Foo0 - Textures5", {"Textures"}) == Parsed("Foo0", Some(5), "Textures")
  {
    FiveIsEaten();
    ShippedSuffixesAreSound();
    assert "Foo0" + SEPARATOR + "Textures" == "Foo0 - Textures";
    SuffixIsLast("Foo0", "Textures", {"Textures"});
  }

  /** `Foo0 - Textures5` renders as `Foo05 - Textures`, and that as `Foo5 - Textures`. */
  lemma {:induction false} RenderingLosesAZero()
    ensures Rendered(Rendered("Foo0 - Textures5", {"Textures"}), {"Textures"})
         != Rendered("Foo0 - Textures5", {"Textures"})
  {
    ShippedSuffixesAreSound();
    ZeroIsParsedAsName();
    RenderingIsIdempotent("Foo0 - Textures5", {"Textures"});
    assert "Foo0"[..3] == "Foo" && Run("Foo") == 0;
    assert Digits(5) == "5" && "0" + "5" == "05" && "05"[..1] == "0" && Value("05") == 5;
  }

  // File names.

  datatype FilePath = FilePath(parsed: Parsed, ext: string)

  /** The stem and the extension, which starts at the last dot unless that leads the name. */
  function SplitFileName(name: string): (string, string) {
    var dot := LastIndexOf(name, ".");
    if name == "." || name == ".." || dot.None? || dot.value == 0 then (name, "")
    else (name[..dot.value], name[dot.value..])
  }

  function Made(fileName: string, extensions: set<string>, suffixes: set<string>): Option<FilePath> {
    var (stem, ext) := SplitFileName(fileName);
    if ext !in extensions then None else Some(FilePath(Parse(stem, suffixes), ext))
  }

  function FullPath(path: FilePath): string {
    FullName(path.parsed) + path.ext
  }

  /** A text's digits are counted from its end, and truncated away when they make a counter. */
  method EatDigitsOf(name: string) returns (left: string, counter: Option<nat>)
    ensures (left, counter) == EatDigits(name)
  {
    var digits := 0;
    while digits < |name| && IsDigit(name[|name| - digits - 1])
      invariant digits <= |name| && (forall i :: |name| - digits <= i < |name| ==> IsDigit(name[i]))
    {
      digits := digits + 1;
    }
    RunIsUnique(name, digits);
    var start := |name| - digits;
    if digits == 0 || digits == |name| || Value(name[start..]) > U32_MAX { return name, None; }
    left, counter := name[..start], Some(Value(name[start..]));
  }

  method Make(fileName: string, extensions: set<string>, suffixes: set<string>) returns (made: Option<FilePath>)
    ensures made == Made(fileName, extensions, suffixes)
  {
    var (stem, ext) := SplitFileName(fileName);
    if ext !in extensions { return None; }
    var name, counter := EatDigitsOf(stem);
    var (head, suffix) := EatSuffix(name, suffixes);
    name := head;
    if counter.None? { name, counter := EatDigitsOf(name); }
    made := Some(FilePath(Parsed(name, counter, suffix), ext));
  }

  /** What the games' extensions satisfy: a dot, then something without one. */
  ghost predicate SoundExtensions(extensions: set<string>) {
    forall ext :: ext in extensions ==> |ext| > 1 && forall i :: HasAt(ext, ".", i) <==> i == 0
  }

  lemma {:induction false} SplitOfJoined(stem: string, ext: string, extensions: set<string>)
    requires SoundExtensions(extensions) && ext in extensions && stem != ""
    ensures SplitFileName(stem + ext) == (stem, ext)
  {
    var name := stem + ext;
    assert HasAt(ext, ".", 0) && ext[0..1] == ".";
    assert name[|stem|..|stem| + 1] == ".";
    assert HasAt(name, ".", |stem|);
    var dot := LastIndexOf(name, ".");
    var i := dot.value - |stem|;
    assert ext[i..i + 1] == name[dot.value..dot.value + 1];
    assert HasAt(ext, ".", i);
    if |ext| == 2 { assert !HasAt(ext, ".", 1); }
  }

  /**
   * A listed file's canonical name is listed too, and is its own: the Archive an output is named after is found again.
   */
  lemma {:induction false} RenderedFileIsFound(fileName: string, extensions: set<string>, suffixes: set<string>)
    requires SoundExtensions(extensions) && SoundSuffixes(suffixes) && Made(fileName, extensions, suffixes).Some?
    ensures var found := Made(FullPath(Made(fileName, extensions, suffixes).value), extensions, suffixes);
            && found.Some? && found.value.ext == Made(fileName, extensions, suffixes).value.ext
            && Made(FullPath(found.value), extensions, suffixes) == found
  {
    var path := Made(fileName, extensions, suffixes).value;
    var stem := SplitFileName(fileName).0;
    RenderedIsNotEmpty(stem, suffixes);
    SplitOfJoined(FullName(path.parsed), path.ext, extensions);
    var again := Parse(FullName(path.parsed), suffixes);
    OneRenderingSuffices(stem, suffixes);
    RenderedIsNotEmpty(FullName(path.parsed), suffixes);
    SplitOfJoined(FullName(again), path.ext, extensions);
  }

  lemma {:induction false} RenderedIsNotEmpty(stem: string, suffixes: set<string>)
    requires SoundSuffixes(suffixes) && stem != ""
    ensures Rendered(stem, suffixes) != ""
  {
  }
}
