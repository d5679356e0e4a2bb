/** What each spelling of a stem is parsed as, told by its pieces. */
module ArchiveNameLaws {
  import opened ArchiveNames
  import opened Decimals
  import opened GamePaths

  /** A name that no digit ends. */
  predicate IsUncounted(name: string) {
    name != "" && !EndsInDigit(name)
  }

  lemma {:induction false} DigitsAreEaten(name: string, digits: string)
    requires IsUncounted(name) && AreDigits(digits) && Value(digits) <= U32_MAX
    ensures EatDigits(name + digits) == if digits == "" then (name, None) else (name, Some(Value(digits)))
  {
    RunOfAppended(name, digits);
    assert Run(name) == 0;
    assert (name + digits)[..|name|] == name && (name + digits)[|name|..] == digits;
    assert digits == "" ==> name + digits == name;
  }

  /**
   * With a suffix: a number behind it is the counter, and then one before it belongs to the name; otherwise the number
   * before it is the counter, if there is one.
   */
  lemma {:induction false} SuffixedStems(name: string, before: string, suffix: string, after: string,
                                         suffixes: set<string>)
    requires SoundSuffixes(suffixes) && suffix in suffixes && IsUncounted(name)
    requires AreDigits(before) && AreDigits(after) && Value(before) <= U32_MAX && Value(after) <= U32_MAX
    ensures Parse(name + before + SEPARATOR + suffix + after, suffixes)
         == if after != "" then Parsed(name + before, Some(Value(after)), suffix)
            else if before != "" then Parsed(name, Some(Value(before)), suffix) else Parsed(name, None, suffix)
  {
    var whole := name + before + SEPARATOR + suffix;
    assert whole[|whole| - 1] == suffix[|suffix| - 1];
    DigitsAreEaten(whole, after);
    assert whole + "" == whole;
    SuffixIsLast(name + before, suffix, suffixes);
    DigitsAreEaten(name, before);
  }

  /** No suffix of the game's ends the name. */
  ghost predicate IsUnsuffixed(name: string, suffixes: set<string>) {
    forall suffix :: suffix in suffixes ==>
      !(|SEPARATOR + suffix| <= |name| && name[|name| - |SEPARATOR + suffix|..] == SEPARATOR + suffix)
  }

  lemma {:induction false} NothingIsEaten(name: string, suffixes: set<string>)
    requires IsUnsuffixed(name, suffixes)
    ensures EatSuffix(name, suffixes) == (name, "")
  {
    var at := LastIndexOf(name, SEPARATOR);
    if at.Some? {
      var i := at.value;
      assert name[i..] == name[i..i + |SEPARATOR|] + name[i + |SEPARATOR|..];
    }
  }

  /** Without one, the number at the end is the counter. */
  lemma {:induction false} PlainStems(name: string, digits: string, suffixes: set<string>)
    requires IsUncounted(name) && IsUnsuffixed(name, suffixes) && AreDigits(digits) && Value(digits) <= U32_MAX
    ensures Parse(name + digits, suffixes) == Parsed(name, if digits == "" then None else Some(Value(digits)), "")
  {
    DigitsAreEaten(name, digits);
    NothingIsEaten(name, suffixes);
    DigitsAreEaten(name, "");
    assert name + "" == name;
  }

  /** A stem of digits only has no counter, however small a number it spells. */
  lemma {:induction false} DigitStems(digits: string, suffixes: set<string>)
    requires AreDigits(digits)
    ensures Parse(digits, suffixes) == Parsed(digits, None, "")
  {
    AllDigitsAreTail(digits);
    assert LastIndexOf(digits, SEPARATOR).None? by {
      forall i { NoSeparatorAt(digits, i); }
    }
  }

  lemma {:induction false} AllDigitsAreTail(digits: string)
    requires AreDigits(digits)
    ensures Head(digits) == ""
  {
    RunIsUnique(digits, |digits|);
  }

  lemma {:induction false} NoSeparatorAt(digits: string, i: int)
    requires AreDigits(digits)
    ensures !HasAt(digits, SEPARATOR, i)
  {
    if 0 <= i <= |digits| - |SEPARATOR| {
      assert digits[i..i + |SEPARATOR|][0] == digits[i];
    }
  }

  /** And more digits than 32 bits hold stay in the name. */
  lemma {:induction false} LargeNumbersStay(name: string, digits: string, suffixes: set<string>)
    requires IsUncounted(name) && AreDigits(digits) && Value(digits) > U32_MAX
    requires IsUnsuffixed(name + digits, suffixes)
    ensures Parse(name + digits, suffixes) == Parsed(name + digits, None, "")
  {
    RunOfAppended(name, digits);
    assert Run(name) == 0;
    assert (name + digits)[|name|..] == digits;
    NothingIsEaten(name + digits, suffixes);
  }

  /** What is rendered: the name, its counter without leading zeros, and the suffix behind its separator. */
  lemma {:induction false} RenderedPieces(parsed: Parsed) returns (digits: string)
    ensures AreDigits(digits) && (parsed.counter.None? <==> digits == "")
    ensures parsed.counter.Some? ==> Value(digits) == parsed.counter.value && (digits[0] == '0' ==> digits == "0")
    ensures FullName(parsed) == parsed.name + digits + if parsed.suffix == "" then "" else SEPARATOR + parsed.suffix
  {
    if parsed.counter.Some? {
      digits := Digits(parsed.counter.value);
      ValueOfDigits(parsed.counter.value);
      NoLeadingZero(parsed.counter.value);
    } else {
      digits := "";
      assert parsed.name + "" == parsed.name;
    }
  }
}
