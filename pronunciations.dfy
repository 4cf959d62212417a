/** Stress markers and pronunciations: the value types of src/cmu_dict.rs,
    the stress-string decoder (`Pronunciation::from_str`, `Syllable::from_char`),
    its encoder (`Display for Pronunciation`) and the `u8` length. */
module Pronunciations {
  import opened Wrappers

  /** The target of Rust's `as u8` cast. */
  newtype u8 = x: int | 0 <= x < 256

  datatype Syllable = PrimaryStress | SecondaryStress | Unstressed

  /** Only the stress of each syllable is kept, not the phonemes. */
  datatype Pronunciation = Pronunciation(syllables: seq<Syllable>)

  /** The conditions under which the original loader panics. */
  datatype ParseError =
    | MissingSeparator(line: string)        // `split_once("  ")` found nothing
    | VariantSuffixUnderflow(key: string)   // `word.len() - 3` on a key shorter than 3
    | UnexpectedStressDigit(digit: char)    // a stress marker outside 0, 1, 2

  predicate IsAsciiDigit(c: char) { '0' <= c <= '9' }

  predicate IsStressDigit(c: char) { c == '0' || c == '1' || c == '2' }

  /** A digit the decoder keeps but cannot map: '3' to '9'. */
  predicate IsBadDigit(c: char) { IsAsciiDigit(c) && !IsStressDigit(c) }

  /** The ASCII digits of `s`, in order: `chars().filter(is_ascii_digit)`. */
  function Digits(s: string): (d: string)
    ensures |d| <= |s|
    ensures forall i :: 0 <= i < |d| ==> IsAsciiDigit(d[i])
  {
    if s == [] then []
    else (if IsAsciiDigit(s[0]) then [s[0]] else []) + Digits(s[1..])
  }

  /** The digit `Display` writes for a syllable. */
  function StressDigit(s: Syllable): (c: char)
    ensures IsStressDigit(c)
  {
    match s
    case Unstressed => '0'
    case PrimaryStress => '1'
    case SecondaryStress => '2'
  }

  /** `Syllable::from_char`: the inverse of StressDigit on '0', '1', '2';
      every other character is an error. */
  function SyllableFromChar(c: char): (r: Result<Syllable, ParseError>)
    ensures r.Ok? <==> IsStressDigit(c)
    ensures r.Ok? ==> StressDigit(r.value) == c
    ensures r.Err? ==> r.error == UnexpectedStressDigit(c)
  {
    match c
    case '0' => Ok(Unstressed)
    case '1' => Ok(PrimaryStress)
    case '2' => Ok(SecondaryStress)
    case _ => Err(UnexpectedStressDigit(c))
  }

  /** The string `Display` renders: one stress digit per syllable. */
  function Rendered(p: Pronunciation): string
  {
    seq(|p.syllables|, i requires 0 <= i < |p.syllables| => StressDigit(p.syllables[i]))
  }

  /** Puts `s` in front of a decoded pronunciation, passing errors through. */
  function Prepend(s: Syllable, r: Result<Pronunciation, ParseError>): (r': Result<Pronunciation, ParseError>)
    ensures r.Ok? ==> r'.Ok? && Rendered(r'.value) == [StressDigit(s)] + Rendered(r.value)
    ensures r.Err? ==> r' == r
  {
    match r
    case Ok(p) =>
      var p' := Pronunciation([s] + p.syllables);
      assert Rendered(p') == [StressDigit(s)] + Rendered(p);
      Ok(p')
    case Err(e) => Err(e)
  }

  /** `Pronunciation::from_str`: keeps the ASCII digits of a phoneme string and
      maps each to a syllable. The iterator is lazy, so the first digit outside
      0..2 (in string order) is the one reported. Succeeds exactly when no digit
      is bad, and then renders back to the digits of `s`. */
  function PronunciationFromStr(s: string): (r: Result<Pronunciation, ParseError>)
    ensures r.Ok? <==> forall i :: 0 <= i < |s| ==> !IsBadDigit(s[i])
    ensures r.Ok? ==> Rendered(r.value) == Digits(s)
    ensures r.Err? ==> exists i :: 0 <= i < |s| && IsBadDigit(s[i]) && r.error == UnexpectedStressDigit(s[i])
                                   && forall j :: 0 <= j < i ==> !IsBadDigit(s[j])
  {
    if s == [] then Ok(Pronunciation([]))
    else
      var rest := PronunciationFromStr(s[1..]);
      assert forall i :: 1 <= i < |s| ==> s[i] == s[1..][i - 1];
      assert rest.Err? ==> exists i :: 1 <= i < |s| && IsBadDigit(s[i]) && rest.error == UnexpectedStressDigit(s[i])
                                       && forall j :: 1 <= j < i ==> !IsBadDigit(s[j]);
      if !IsAsciiDigit(s[0]) then rest
      else
        match s[0]
        case '0' => Prepend(Unstressed, rest)
        case '1' => Prepend(PrimaryStress, rest)
        case '2' => Prepend(SecondaryStress, rest)
        case _ => Err(UnexpectedStressDigit(s[0]))
  }

  /** `Display::fmt`: pushes one digit per syllable into a buffer. */
  method Fmt(p: Pronunciation) returns (s: string)
    ensures s == Rendered(p)
  {
    s := [];
    for i := 0 to |p.syllables|
      invariant |s| == i
      invariant forall k :: 0 <= k < i ==> s[k] == StressDigit(p.syllables[k])
    {
      match p.syllables[i]
      case Unstressed => s := s + ['0'];
      case PrimaryStress => s := s + ['1'];
      case SecondaryStress => s := s + ['2'];
    }
  }

  /** `Pronunciation::len`: the syllable count cast to `u8`, so it wraps at 256. */
  function PronunciationLen(p: Pronunciation): (n: u8)
    ensures |p.syllables| < 256 ==> n as int == |p.syllables|
    ensures (|p.syllables| - n as int) % 256 == 0
  {
    (|p.syllables| % 256) as u8
  }

  /** Decoding what `Display` renders gives back the pronunciation. */
  lemma {:induction false} FromStrOfRendered(p: Pronunciation)
    ensures PronunciationFromStr(Rendered(p)) == Ok(p)
    decreases |p.syllables|
  {
    if p.syllables != [] {
      var tail := Pronunciation(p.syllables[1..]);
      FromStrOfRendered(tail);
      assert Rendered(p)[1..] == Rendered(tail);
      assert [p.syllables[0]] + tail.syllables == p.syllables;
    }
  }

  /** The two copies of the digit mapping agree: every syllable `from_str`
      produces is what `from_char` gives for the digit it came from, and the
      error `from_str` reports is `from_char`'s error on some digit of `s`. */
  lemma FromStrAgreesWithFromChar(s: string)
    ensures PronunciationFromStr(s).Ok? ==>
      forall i :: 0 <= i < |Digits(s)| ==>
        SyllableFromChar(Digits(s)[i]) == Ok(PronunciationFromStr(s).value.syllables[i])
    ensures PronunciationFromStr(s).Err? ==>
      exists i :: 0 <= i < |s| && IsAsciiDigit(s[i]) && SyllableFromChar(s[i]) == Err(PronunciationFromStr(s).error)
  {
    var r := PronunciationFromStr(s);
    if r.Ok? {
      forall i | 0 <= i < |Digits(s)|
        ensures SyllableFromChar(Digits(s)[i]) == Ok(r.value.syllables[i])
      {
        assert Rendered(r.value)[i] == StressDigit(r.value.syllables[i]);
      }
    } else {
      var i :| 0 <= i < |s| && IsBadDigit(s[i]) && r.error == UnexpectedStressDigit(s[i]);
      assert SyllableFromChar(s[i]) == Err(r.error);
    }
  }

  /** Pronunciations decoded from a string with fewer than 256 digits have
      the `u8` length of exactly that many syllables. */
  lemma LenOfDecoded(s: string)
    requires PronunciationFromStr(s).Ok?
    requires |Digits(s)| < 256
    ensures PronunciationLen(PronunciationFromStr(s).value) as int == |Digits(s)|
  {
  }
}
