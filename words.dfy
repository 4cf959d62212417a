/** Dictionary entries: one line of the CMU pronouncing dictionary parsed into
    a `Word` (`Word::from_cmu_entry`), and the per-word length helpers of
    `Word` and `WordEntry`. */
module Words {
  import opened Wrappers
  import opened Pronunciations

  /** A word key with one of its pronunciations. */
  datatype Word = Word(word: string, pronunciation: Pronunciation)

  /** A word with all its known pronunciations. */
  datatype WordEntry = WordEntry(word: Word, pronunciations: seq<Pronunciation>)

  /** The two-space separator between a key and its phonemes. */
  const Separator: string := "  "

  predicate SeparatorAt(s: string, i: int)
  {
    0 <= i && i + 1 < |s| && s[i] == ' ' && s[i + 1] == ' '
  }

  predicate HasSeparator(s: string)
  {
    exists i :: 0 <= i < |s| && SeparatorAt(s, i)
  }

  /** The first separator at or after `from`. */
  function FindSeparator(s: string, from: nat): (r: Option<nat>)
    requires from <= |s|
    ensures r.None? ==> forall i :: from <= i ==> !SeparatorAt(s, i)
    ensures r.Some? ==> from <= r.value && SeparatorAt(s, r.value)
                        && forall i :: from <= i < r.value ==> !SeparatorAt(s, i)
    decreases |s| - from
  {
    if from + 1 >= |s| then None
    else if s[from] == ' ' && s[from + 1] == ' ' then Some(from)
    else FindSeparator(s, from + 1)
  }

  /** `str::split_once("  ")`: the text before and after the first separator. */
  function SplitOnce(s: string): (r: Option<(string, string)>)
    ensures r.None? <==> !HasSeparator(s)
    ensures r.Some? ==> s == r.value.0 + Separator + r.value.1
    ensures r.Some? ==> SeparatorAt(s, |r.value.0|) && forall i :: 0 <= i < |r.value.0| ==> !SeparatorAt(s, i)
  {
    match FindSeparator(s, 0)
    case None => None
    case Some(i) =>
      assert s == s[..i] + Separator + s[i + 2..];
      Some((s[..i], s[i + 2..]))
  }

  predicate EndsWithParen(key: string)
  {
    |key| > 0 && key[|key| - 1] == ')'
  }

  /** What `Word::from_cmu_entry` computes from one line. */
  function ParseEntry(line: string): Result<Word, ParseError>
  {
    match SplitOnce(line)
    case None => Err(MissingSeparator(line))
    case Some((key, rest)) =>
      if EndsWithParen(key) && |key| < 3 then Err(VariantSuffixUnderflow(key))
      else
        var word := if EndsWithParen(key) then key[..|key| - 3] else key;
        match PronunciationFromStr(rest)
        case Err(e) => Err(e)
        case Ok(p) => Ok(Word(word, p))
  }

  /** `w` is what a line with its first separator at `i` denotes. */
  predicate EntryAt(line: string, i: int, w: Word)
  {
    && SeparatorAt(line, i)
    && (forall j :: 0 <= j < i ==> !SeparatorAt(line, j))
    && (if EndsWithParen(line[..i]) then i >= 3 && w.word == line[..i - 3] else w.word == line[..i])
    && PronunciationFromStr(line[i + 2..]) == Ok(w.pronunciation)
  }

  /** The meaning of an entry line: it fails for want of a separator exactly
      when it has none. With its first separator at `i`, it parses exactly
      when the key `line[..i]` is not a too-short variant and no digit after
      the separator is bad; a too-short variant key is its own error, and a
      bad digit is `from_str`'s error passed through. On success the key is
      the text before the first separator, losing exactly three characters (a
      variant suffix such as "(2)") when it ends with ')', so it never
      contains a separator; the pronunciation is decoded from the text after
      the separator. */
  lemma ParseEntrySpec(line: string)
    ensures ParseEntry(line).Err? && ParseEntry(line).error.MissingSeparator? <==> !HasSeparator(line)
    ensures HasSeparator(line) ==>
      var i := |SplitOnce(line).value.0|;
      && SeparatorAt(line, i) && (forall j :: 0 <= j < i ==> !SeparatorAt(line, j))
      && (ParseEntry(line).Ok? <==>
            !(EndsWithParen(line[..i]) && i < 3) && forall k :: i + 2 <= k < |line| ==> !IsBadDigit(line[k]))
      && (EndsWithParen(line[..i]) && i < 3 ==> ParseEntry(line) == Err(VariantSuffixUnderflow(line[..i])))
      && (!(EndsWithParen(line[..i]) && i < 3) && PronunciationFromStr(line[i + 2..]).Err? ==>
            ParseEntry(line) == Err(PronunciationFromStr(line[i + 2..]).error))
    ensures ParseEntry(line).Ok? ==>
      exists i :: EntryAt(line, i, ParseEntry(line).value)
    ensures ParseEntry(line).Ok? ==> !HasSeparator(ParseEntry(line).value.word)
  {
    var r := ParseEntry(line);
    if HasSeparator(line) {
      var (key, rest) := SplitOnce(line).value;
      var i := |key|;
      assert key == line[..i] && rest == line[i + 2..];
      assert forall k :: i + 2 <= k < |line| ==> line[k] == rest[k - (i + 2)];
      assert forall k :: 0 <= k < |rest| ==> rest[k] == line[k + i + 2];
    }
    if r.Ok? {
      var (key, rest) := SplitOnce(line).value;
      var i := |key|;
      assert key == line[..i] && rest == line[i + 2..];
      assert forall j :: SeparatorAt(r.value.word, j) ==> SeparatorAt(line, j);
      assert EntryAt(line, i, r.value);
    }
  }

  /** `Word::from_cmu_entry`, truncating the key in place. */
  method FromCmuEntry(line: string) returns (r: Result<Word, ParseError>)
    ensures r == ParseEntry(line)
  {
    var split := SplitOnce(line);
    if split.None? {
      return Err(MissingSeparator(line));
    }
    var (wordStr, pronunciationStr) := split.value;
    var word := wordStr;
    if |word| > 0 && word[|word| - 1] == ')' {
      if |word| < 3 {
        return Err(VariantSuffixUnderflow(word));
      }
      word := word[..|word| - 3];
    }
    var pronunciation := PronunciationFromStr(pronunciationStr);
    if pronunciation.Err? {
      return Err(pronunciation.error);
    }
    r := Ok(Word(word, pronunciation.value));
  }

  /** A line written as key, separator and stress digits parses back to that
      key and pronunciation, when the key has no separator and does not end
      in a space or ')'. */
  lemma ParseFormattedEntry(key: string, p: Pronunciation)
    requires !HasSeparator(key)
    requires !EndsWithParen(key) && (|key| > 0 ==> key[|key| - 1] != ' ')
    ensures ParseEntry(key + Separator + Rendered(p)) == Ok(Word(key, p))
  {
    var line := key + Separator + Rendered(p);
    forall i | 0 <= i < |key| ensures !SeparatorAt(line, i) {
      if i + 1 < |key| {
        assert !SeparatorAt(key, i);
      }
    }
    assert SeparatorAt(line, |key|);
    assert FindSeparator(line, 0) == Some(|key|);
    assert line[..|key|] == key;
    assert line[|key| + 2..] == Rendered(p);
    FromStrOfRendered(p);
  }

  /** A variant line "KEY(d)  digits" parses to the base key. */
  lemma ParseVariantEntry(key: string, d: char, p: Pronunciation)
    requires !HasSeparator(key)
    ensures ParseEntry(key + ['(', d, ')'] + Separator + Rendered(p)) == Ok(Word(key, p))
  {
    var variant := key + ['(', d, ')'];
    var line := variant + Separator + Rendered(p);
    forall i | 0 <= i < |variant| ensures !SeparatorAt(line, i) {
      if i + 1 < |key| {
        assert !SeparatorAt(key, i);
      }
    }
    assert SeparatorAt(line, |variant|);
    assert FindSeparator(line, 0) == Some(|variant|);
    assert line[..|variant|] == variant;
    assert variant[..|variant| - 3] == key;
    assert line[|variant| + 2..] == Rendered(p);
    FromStrOfRendered(p);
  }

  /** A line whose first separator is at `i`, with a key not ending in ')'. */
  lemma PlainEntry(line: string, i: nat, p: Pronunciation)
    requires FindSeparator(line, 0) == Some(i)
    requires !EndsWithParen(line[..i])
    requires PronunciationFromStr(line[i + 2..]) == Ok(p)
    ensures ParseEntry(line) == Ok(Word(line[..i], p))
  {
  }

  /** A string without bad digits decodes to the pronunciation its digits render. */
  lemma DecodesTo(s: string, p: Pronunciation)
    requires forall k :: 0 <= k < |s| ==> !IsBadDigit(s[k])
    requires Digits(s) == Rendered(p)
    ensures PronunciationFromStr(s) == Ok(p)
  {
    var r := PronunciationFromStr(s);
    FromStrOfRendered(r.value);
    FromStrOfRendered(p);
  }

  /** A real dictionary line loads: "RECORD  R EH1 K ER0 D" is the key RECORD
      with stress "10". */
  lemma RecordLineParses()
    ensures ParseEntry("RECORD  R EH1 K ER0 D") == Ok(Word("RECORD", Pronunciation([PrimaryStress, Unstressed])))
  {
    var line := "RECORD  R EH1 K ER0 D";
    RecordLineSplits();
    assert line[..6] == "RECORD" && line[8..] == "R EH1 K ER0 D";
    RecordPhonemes(line[8..]);
    PlainEntry(line, 6, Pronunciation([PrimaryStress, Unstressed]));
  }

  /** The RECORD line's first separator follows its six-letter key. */
  lemma RecordLineSplits()
    ensures FindSeparator("RECORD  R EH1 K ER0 D", 0) == Some(6)
  {
  }

  /** The phonemes of the RECORD line decode to "10". */
  lemma RecordPhonemes(rest: string)
    requires rest == "R EH1 K ER0 D"
    ensures PronunciationFromStr(rest) == Ok(Pronunciation([PrimaryStress, Unstressed]))
  {
    var noun := Pronunciation([PrimaryStress, Unstressed]);
    RecordPhonemeDigits(rest);
    assert forall k :: 0 <= k < |rest| ==> !IsBadDigit(rest[k]);
    assert Rendered(noun) == "10";
    DecodesTo(rest, noun);
  }

  /** The digits among the RECORD phonemes are "1" then "0". */
  lemma RecordPhonemeDigits(rest: string)
    requires rest == "R EH1 K ER0 D"
    ensures Digits(rest) == "10"
  {
    // one character at a time, from the back
    assert Digits(rest[13..]) == "";
    assert Digits(rest[12..]) == "";
    assert Digits(rest[11..]) == "";
    assert Digits(rest[10..]) == "0";
    assert Digits(rest[9..]) == "0";
    assert Digits(rest[8..]) == "0";
    assert Digits(rest[7..]) == "0";
    assert Digits(rest[6..]) == "0";
    assert Digits(rest[5..]) == "0";
    assert Digits(rest[4..]) == "10";
    assert Digits(rest[3..]) == "10";
    assert Digits(rest[2..]) == "10";
    assert Digits(rest[1..]) == "10";
    assert Digits(rest) == "10";
  }

  /** `Word::len`: the word's syllable count as `u8` (wrapping at 256). */
  function WordLen(w: Word): (n: u8)
    ensures |w.pronunciation.syllables| < 256 ==> n as int == |w.pronunciation.syllables|
    ensures (|w.pronunciation.syllables| - n as int) % 256 == 0
  {
    PronunciationLen(w.pronunciation) as u8
  }

  /** `WordEntry::get_syllables`: the stress sequence of each pronunciation. */
  function GetSyllables(e: WordEntry): (r: seq<seq<Syllable>>)
    ensures |r| == |e.pronunciations|
    ensures forall i :: 0 <= i < |r| ==> Pronunciation(r[i]) == e.pronunciations[i]
  {
    seq(|e.pronunciations|, i requires 0 <= i < |e.pronunciations| => e.pronunciations[i].syllables)
  }

  /** `WordEntry::get_syllable_lengths`: one `u8` length per pronunciation,
      in order. */
  function GetSyllableLengths(e: WordEntry): (r: seq<u8>)
    ensures |r| == |e.pronunciations|
    ensures forall i :: 0 <= i < |r| && |e.pronunciations[i].syllables| < 256 ==>
              r[i] as int == |e.pronunciations[i].syllables|
  {
    seq(|e.pronunciations|, i requires 0 <= i < |e.pronunciations| => PronunciationLen(e.pronunciations[i]))
  }

  /** The lengths are those of `get_syllables`' stress sequences, modulo 256. */
  lemma LengthsOfSyllables(e: WordEntry)
    ensures |GetSyllableLengths(e)| == |GetSyllables(e)|
    ensures forall i :: 0 <= i < |GetSyllables(e)| ==>
              (|GetSyllables(e)[i]| - GetSyllableLengths(e)[i] as int) % 256 == 0
  {
  }

  /** `WordEntry::get_unique_syllable_lengths` as written: the same list as
      `get_syllable_lengths`, duplicates included. */
  function GetUniqueSyllableLengths(e: WordEntry): (r: seq<u8>)
    ensures r == GetSyllableLengths(e)
  {
    seq(|e.pronunciations|, i requires 0 <= i < |e.pronunciations| => PronunciationLen(e.pronunciations[i]))
  }

  predicate NoDuplicates(xs: seq<u8>)
  {
    forall i, j :: 0 <= i < j < |xs| ==> xs[i] != xs[j]
  }

  /** "RECORD", with the noun and verb pronunciations "10" and "01". */
  function RecordEntry(): WordEntry
  {
    var noun := Pronunciation([PrimaryStress, Unstressed]);
    var verb := Pronunciation([Unstressed, PrimaryStress]);
    WordEntry(Word("RECORD", noun), [noun, verb])
  }

  /** The as-written helper repeats a length shared by two pronunciations. */
  lemma UniqueLengthsAsWrittenRepeat()
    ensures GetUniqueSyllableLengths(RecordEntry()) == [2, 2]
    ensures !NoDuplicates(GetUniqueSyllableLengths(RecordEntry()))
  {
    var r := GetUniqueSyllableLengths(RecordEntry());
    assert r[0] == 2 && r[1] == 2;
  }

  /** The position of the first occurrence of `x` in `xs`. */
  function IndexOf(xs: seq<u8>, x: u8): (k: nat)
    requires x in xs
    ensures k < |xs| && xs[k] == x
    ensures forall j :: 0 <= j < k ==> xs[j] != x
  {
    if xs[0] == x then 0 else 1 + IndexOf(xs[1..], x)
  }

  /** Appending an element moves no first occurrence, and gives a new
      element its own position. */
  lemma IndexOfSnoc(init: seq<u8>, last: u8)
    ensures forall y :: y in init ==> IndexOf(init + [last], y) == IndexOf(init, y)
    ensures last !in init ==> IndexOf(init + [last], last) == |init|
  {
    forall y | y in init ensures IndexOf(init + [last], y) == IndexOf(init, y) {
      var k := IndexOf(init, y);
      assert (init + [last])[k] == y;
    }
  }

  /** Each distinct element of `xs` once, in order of first occurrence (what
      itertools' `unique()` yields). */
  function Dedup(xs: seq<u8>): (r: seq<u8>)
    ensures NoDuplicates(r)
    ensures forall x :: x in r <==> x in xs
    ensures forall i, j :: 0 <= i < j < |r| ==> IndexOf(xs, r[i]) < IndexOf(xs, r[j])
  {
    if xs == [] then []
    else
      var init, last := xs[..|xs| - 1], xs[|xs| - 1];
      var d := Dedup(init);
      assert xs == init + [last];
      IndexOfSnoc(init, last);
      if last in d then d else d + [last]
  }

  /** `get_unique_syllable_lengths` as evidently intended: the distinct
      lengths of `get_syllable_lengths`, each once, in first-occurrence order. */
  function UniqueSyllableLengths(e: WordEntry): (r: seq<u8>)
    ensures NoDuplicates(r)
    ensures forall n :: n in r <==> n in GetSyllableLengths(e)
    ensures forall i, j :: 0 <= i < j < |r| ==>
              IndexOf(GetSyllableLengths(e), r[i]) < IndexOf(GetSyllableLengths(e), r[j])
  {
    Dedup(GetSyllableLengths(e))
  }

  /** The corrected helper lists the shared length once. */
  lemma UniqueLengthsCorrected()
    ensures UniqueSyllableLengths(RecordEntry()) == [2]
  {
    var lengths: seq<u8> := [2, 2];
    assert GetSyllableLengths(RecordEntry()) == lengths;
    assert lengths[..1] == [2] && [2][..0] == [];
    assert Dedup([2]) == [2];
  }
}
