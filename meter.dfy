/** The intent stated by the doc comment of `Sentence::turtle_trochaic_tetrameter`
    and by the name of `can_be_eight_syllables`: some choice of one
    pronunciation per word gives exactly eight syllables, stressed and
    unstressed in turn (four trochees, the meter of the TMNT theme song).
    In the original both bodies are unfinished stubs; the functions here are
    what the comment describes, not what the stubs compute. */
module Meter {
  import opened Pronunciations
  import opened Words

  /** A sentence or phrase: its words, each with all its pronunciations. */
  datatype Sentence = Sentence(words: seq<WordEntry>)

  /** The number of syllables of trochaic tetrameter. */
  const MeterLength: nat := 8

  /** `picks` chooses one pronunciation (by index) for every word. */
  predicate IsChoice(words: seq<WordEntry>, picks: seq<nat>)
  {
    |picks| == |words| && forall i :: 0 <= i < |words| ==> picks[i] < |words[i].pronunciations|
  }

  /** The stress sequence a choice produces: the chosen pronunciations in
      sentence order, concatenated. */
  function Chosen(words: seq<WordEntry>, picks: seq<nat>): seq<Syllable>
    requires IsChoice(words, picks)
    decreases |words|
  {
    if words == [] then []
    else words[0].pronunciations[picks[0]].syllables + Chosen(words[1..], picks[1..])
  }

  /** Position `k` of the template: Primary or Secondary stress on even
      positions, Unstressed on odd ones. */
  predicate SlotAccepts(k: int, s: Syllable)
  {
    if k % 2 == 0 then s == PrimaryStress || s == SecondaryStress else s == Unstressed
  }

  predicate IsTrochaicTetrameter(s: seq<Syllable>)
  {
    |s| == MeterLength && forall k :: 0 <= k < |s| ==> SlotAccepts(k, s[k])
  }

  /** The doc-comment contract of `turtle_trochaic_tetrameter`. */
  ghost predicate HasTrochaicReading(sentence: Sentence)
  {
    exists picks :: IsChoice(sentence.words, picks) && IsTrochaicTetrameter(Chosen(sentence.words, picks))
  }

  /** What `can_be_eight_syllables` is named for. */
  ghost predicate HasEightSyllableReading(sentence: Sentence)
  {
    exists picks :: IsChoice(sentence.words, picks) && |Chosen(sentence.words, picks)| == MeterLength
  }

  /** `s` fills the template from position `pos` on without running past it. */
  predicate FitsAt(s: seq<Syllable>, pos: nat)
  {
    pos + |s| <= MeterLength && forall i :: 0 <= i < |s| ==> SlotAccepts(pos + i, s[i])
  }

  /** Whether the words can be chosen to fill the template exactly from
      position `pos` to its end. */
  function CanSingFrom(words: seq<WordEntry>, pos: nat): bool
    requires pos <= MeterLength
    decreases |words|
  {
    if words == [] then pos == MeterLength
    else
      exists j :: 0 <= j < |words[0].pronunciations|
        && FitsAt(words[0].pronunciations[j].syllables, pos)
        && CanSingFrom(words[1..], pos + |words[0].pronunciations[j].syllables|)
  }

  /** Whether the words can be chosen to have exactly `n` syllables. */
  function CanReach(words: seq<WordEntry>, n: nat): bool
    decreases |words|
  {
    if words == [] then n == 0
    else
      exists j :: 0 <= j < |words[0].pronunciations|
        && |words[0].pronunciations[j].syllables| <= n
        && CanReach(words[1..], n - |words[0].pronunciations[j].syllables|)
  }

  /** Choosing pronunciation `j` for the first word and `picks` for the rest. */
  lemma ChosenCons(words: seq<WordEntry>, j: nat, picks: seq<nat>)
    requires words != [] && j < |words[0].pronunciations| && IsChoice(words[1..], picks)
    ensures IsChoice(words, [j] + picks)
    ensures Chosen(words, [j] + picks) == words[0].pronunciations[j].syllables + Chosen(words[1..], picks)
  {
    assert ([j] + picks)[1..] == picks;
  }

  lemma FitsAtConcat(x: seq<Syllable>, y: seq<Syllable>, pos: nat)
    ensures FitsAt(x + y, pos) <==> FitsAt(x, pos) && FitsAt(y, pos + |x|)
  {
    if FitsAt(x, pos) && FitsAt(y, pos + |x|) {
      forall i | 0 <= i < |x + y| ensures SlotAccepts(pos + i, (x + y)[i]) {
        if i >= |x| {
          assert (x + y)[i] == y[i - |x|];
          assert SlotAccepts(pos + |x| + (i - |x|), y[i - |x|]);
        }
      }
    }
    if FitsAt(x + y, pos) {
      forall i | 0 <= i < |x| ensures SlotAccepts(pos + i, x[i]) {
        assert (x + y)[i] == x[i];
      }
      forall i | 0 <= i < |y| ensures SlotAccepts(pos + |x| + i, y[i]) {
        assert (x + y)[|x| + i] == y[i];
      }
    }
  }

  /** `picks` fills the template exactly from position `pos` to its end. */
  predicate FillsFrom(words: seq<WordEntry>, picks: seq<nat>, pos: nat)
  {
    IsChoice(words, picks) && pos + |Chosen(words, picks)| == MeterLength && FitsAt(Chosen(words, picks), pos)
  }

  /** Every success of the search is backed by a choice of pronunciations. */
  lemma {:induction false} CanSingFromSound(words: seq<WordEntry>, pos: nat) returns (picks: seq<nat>)
    requires pos <= MeterLength && CanSingFrom(words, pos)
    ensures FillsFrom(words, picks, pos)
    decreases |words|
  {
    if words == [] {
      picks := [];
    } else {
      var options := words[0].pronunciations;
      var j :| 0 <= j < |options| && FitsAt(options[j].syllables, pos)
               && CanSingFrom(words[1..], pos + |options[j].syllables|);
      var x := options[j].syllables;
      var rest := CanSingFromSound(words[1..], pos + |x|);
      ChosenCons(words, j, rest);
      FitsAtConcat(x, Chosen(words[1..], rest), pos);
      picks := [j] + rest;
    }
  }

  /** The search misses no choice of pronunciations that fits. */
  lemma {:induction false} CanSingFromComplete(words: seq<WordEntry>, picks: seq<nat>, pos: nat)
    requires pos <= MeterLength && FillsFrom(words, picks, pos)
    ensures CanSingFrom(words, pos)
    decreases |words|
  {
    if words != [] {
      var options := words[0].pronunciations;
      var j, rest := picks[0], picks[1..];
      assert IsChoice(words[1..], rest);
      assert picks == [j] + rest;
      var x := options[j].syllables;
      ChosenCons(words, j, rest);
      FitsAtConcat(x, Chosen(words[1..], rest), pos);
      CanSingFromComplete(words[1..], rest, pos + |x|);
      assert 0 <= j < |options| && FitsAt(x, pos) && CanSingFrom(words[1..], pos + |x|);
    }
  }

  /** The search is exact: it succeeds if and only if some choice of
      pronunciations fills the template from `pos` to its end. */
  lemma CanSingFromCorrect(words: seq<WordEntry>, pos: nat)
    requires pos <= MeterLength
    ensures CanSingFrom(words, pos) <==> exists picks :: FillsFrom(words, picks, pos)
  {
    if CanSingFrom(words, pos) {
      var picks := CanSingFromSound(words, pos);
    }
    forall picks | FillsFrom(words, picks, pos) ensures CanSingFrom(words, pos) {
      CanSingFromComplete(words, picks, pos);
    }
  }

  /** Every success of the syllable-count search is backed by a choice. */
  lemma {:induction false} CanReachSound(words: seq<WordEntry>, n: nat) returns (picks: seq<nat>)
    requires CanReach(words, n)
    ensures IsChoice(words, picks) && |Chosen(words, picks)| == n
    decreases |words|
  {
    if words == [] {
      picks := [];
    } else {
      var options := words[0].pronunciations;
      var j :| 0 <= j < |options| && |options[j].syllables| <= n
               && CanReach(words[1..], n - |options[j].syllables|);
      var rest := CanReachSound(words[1..], n - |options[j].syllables|);
      ChosenCons(words, j, rest);
      picks := [j] + rest;
    }
  }

  /** The syllable-count search misses no choice with `n` syllables. */
  lemma {:induction false} CanReachComplete(words: seq<WordEntry>, picks: seq<nat>, n: nat)
    requires IsChoice(words, picks) && |Chosen(words, picks)| == n
    ensures CanReach(words, n)
    decreases |words|
  {
    if words != [] {
      var options := words[0].pronunciations;
      var j, rest := picks[0], picks[1..];
      assert IsChoice(words[1..], rest);
      assert picks == [j] + rest;
      ChosenCons(words, j, rest);
      CanReachComplete(words[1..], rest, n - |options[j].syllables|);
      assert 0 <= j < |options| && |options[j].syllables| <= n
             && CanReach(words[1..], n - |options[j].syllables|);
    }
  }

  /** The syllable-count search is exact. */
  lemma CanReachCorrect(words: seq<WordEntry>, n: nat)
    ensures CanReach(words, n) <==> exists picks :: IsChoice(words, picks) && |Chosen(words, picks)| == n
  {
    if CanReach(words, n) {
      var picks := CanReachSound(words, n);
    }
    forall picks | IsChoice(words, picks) && |Chosen(words, picks)| == n ensures CanReach(words, n) {
      CanReachComplete(words, picks, n);
    }
  }

  /** `turtle_trochaic_tetrameter` as its doc comment describes it. */
  function TurtleTrochaicTetrameter(sentence: Sentence): (r: bool)
    ensures r <==> HasTrochaicReading(sentence)
  {
    var words := sentence.words;
    CanSingFromCorrect(words, 0);
    assert forall picks :: FillsFrom(words, picks, 0) <==>
                           IsChoice(words, picks) && IsTrochaicTetrameter(Chosen(words, picks));
    CanSingFrom(words, 0)
  }

  /** `can_be_eight_syllables` as its name describes it. */
  function CanBeEightSyllables(sentence: Sentence): (r: bool)
    ensures r <==> HasEightSyllableReading(sentence)
  {
    CanReachCorrect(sentence.words, MeterLength);
    CanReach(sentence.words, MeterLength)
  }

  /** A sentence in trochaic tetrameter can be eight syllables. */
  lemma TrochaicIsEightSyllables(sentence: Sentence)
    ensures TurtleTrochaicTetrameter(sentence) ==> CanBeEightSyllables(sentence)
  {
    if TurtleTrochaicTetrameter(sentence) {
      var picks :| IsChoice(sentence.words, picks) && IsTrochaicTetrameter(Chosen(sentence.words, picks));
      assert |Chosen(sentence.words, picks)| == MeterLength;
    }
  }
}
