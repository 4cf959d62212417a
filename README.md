# Stress dictionary of tmnt-wiki-bot-rs, modelled in Dafny

The bot looks for phrases that fit the meter of the TMNT theme song: trochaic
tetrameter, eight syllables that are stressed and unstressed in turn. Its core is
`src/cmu_dict.rs`. That file loads the CMU pronouncing dictionary into a map from
each word to its pronunciations. It keeps only the stress of each syllable
(`0` unstressed, `1` primary, `2` secondary). The model covers:

- `pronunciations.dfy` (module `Pronunciations`): `Syllable` and `Pronunciation`.
  It has the stress-string decoder `Pronunciation::from_str`, the per-character
  decoder `Syllable::from_char`, the encoder `Display for Pronunciation` (the
  method `Fmt` with its loop) and the `u8` length `Pronunciation::len`. It proves
  both round trips and shows that the two digit mappings agree.
- `words.dfy` (module `Words`): `Word` and `WordEntry`. It models the line parser
  `Word::from_cmu_entry`: split at the first two-space separator, then drop a
  `(n)` variant suffix in place. It also has `Word::len` and the `WordEntry`
  length helpers.
- `cmu_dict.dfy` (module `CmuDict`): `cmu_dict_file_to_map`, taken over the
  file's lines. It skips `;` comment lines, parses every other line and appends
  each pronunciation to its key's list. The method is proved against a grouping
  specification, and lemmas prove the shape of the resulting map.
- `meter.dfy` (module `Meter`): the contract stated by the doc comment of
  `Sentence::turtle_trochaic_tetrameter` and by the name of
  `can_be_eight_syllables`. In the repository both bodies are unfinished stubs:
  one returns `false`, the other runs loops with empty bodies. The model states
  what they are documented to decide, as a predicate that some choice of one
  pronunciation per word exists. It adds a search function for each and proves
  the search equivalent to its predicate. The model does not claim that the Rust
  bodies compute this.
- `wrappers.dfy` (module `Wrappers`): `Option` and `Result`.

Wherever the modelled functions panic, the model returns `Err(ParseError)`. There
are three such cases: a line without the separator, a key shorter than three
characters that ends in `)`, and a character outside `0`–`2` handed to
`Syllable::from_char` (inside `from_str` that is only ever a digit `3`–`9`, since
non-digits are filtered out first). The panics of `read_to_string` and of a
`truncate` off a character boundary are not modelled; see "Left out".

## Model

| member | source | states |
|---|---|---|
| `Pronunciations.SyllableFromChar` | src/cmu_dict.rs:139-146 | Succeeds exactly on '0', '1', '2' and then inverts the digit `Display` writes (`StressDigit(r) == c`). Every other character is the error `UnexpectedStressDigit(c)`. |
| `Pronunciations.StressDigit` | src/cmu_dict.rs:122-126 | Every syllable is rendered as one of the stress digits 0, 1, 2. |
| `Pronunciations.PronunciationFromStr` | src/cmu_dict.rs:101-113 | Succeeds if and only if no ASCII digit of the input lies outside 0..2. Then the result renders back to exactly the ASCII digits of the input, in order: all other characters are ignored, and the syllable count equals the digit count (round trip 1). Otherwise the error names the first bad digit in string order. |
| `Pronunciations.Fmt` | src/cmu_dict.rs:118-130 | The loop writes one stress digit per syllable, in order, and the result equals `Rendered(p)`. |
| `Pronunciations.FromStrOfRendered` | src/cmu_dict.rs:101-129 | Decoding what `Display` renders gives back the same pronunciation (round trip 2). |
| `Pronunciations.FromStrAgreesWithFromChar` | src/cmu_dict.rs:105-110 | The mapping inside `from_str` agrees with `Syllable::from_char`. Each decoded syllable is `from_char` of the digit it came from, and a failing decode reports `from_char`'s error on one of the input's digits. |
| `Pronunciations.PronunciationLen` | src/cmu_dict.rs:114-116 | The syllable count cast to `u8`. It is exact below 256 and congruent to the count modulo 256 otherwise. |
| `Pronunciations.LenOfDecoded` | src/cmu_dict.rs:114-116 | A pronunciation decoded from a string with fewer than 256 digits has `len` equal to that number of digits. |
| `Words.FindSeparator` | src/cmu_dict.rs:76-77 | Finds the first two-space separator at or after a position, or reports that there is none. |
| `Words.SplitOnce` | src/cmu_dict.rs:76-77 | `split_once("  ")`: none exactly when the line has no separator. Otherwise the line is `before + "  " + after`, and the separator is the first one in the line. |
| `Words.ParseEntrySpec` | src/cmu_dict.rs:75-86 | An entry fails for want of a separator exactly when the line has none. With its first separator at `i`, the line parses if and only if the key `line[..i]` is not a too-short variant (ends in ')' with fewer than three characters) and no digit after the separator is outside 0..2. A too-short variant key is the error `VariantSuffixUnderflow(key)`, and otherwise a failing `from_str` on the text after the separator passes its error through unchanged. On success the key is `line[..i]` with exactly its last three characters removed when it ends in ')', it never contains the separator, and the pronunciation is `from_str` of the text after the separator. |
| `Words.DecodesTo` | src/cmu_dict.rs:101-113 | A string with no digit outside 0..2 decodes to the pronunciation whose rendering is its digits. |
| `Words.RecordLineParses` | src/cmu_dict.rs:75-86 | The real dictionary line `RECORD  R EH1 K ER0 D` parses to the key RECORD with stresses primary, unstressed. |
| `Words.FromCmuEntry` | src/cmu_dict.rs:75-86 | The imperative parser, which truncates the key in place, returns what `ParseEntry` describes, errors included. |
| `Words.ParseFormattedEntry` | src/cmu_dict.rs:76-85 | Inverse: a line written as key, separator and rendered stress digits parses back to that key and pronunciation. This holds when the key has no separator and does not end in a space or ')'. |
| `Words.ParseVariantEntry` | src/cmu_dict.rs:78-84 | A variant line `KEY(d)  digits` parses to the base key `KEY`, so every variant lands on the same dictionary key. |
| `Words.WordLen` | src/cmu_dict.rs:87-89 | `Word::len`: the pronunciation's syllable count as `u8`. It is exact below 256 and wraps modulo 256 otherwise. |
| `Words.GetSyllables` | src/cmu_dict.rs:51-55 | One stress sequence per pronunciation, in order: entry i is exactly the syllables of pronunciation i. |
| `Words.GetSyllableLengths` | src/cmu_dict.rs:56-60 | One length per pronunciation, in the same order. Entry i is the syllable count of pronunciation i whenever that count is below 256. |
| `Words.LengthsOfSyllables` | src/cmu_dict.rs:51-60 | `get_syllable_lengths` lines up with `get_syllables`. Each length is the corresponding stress sequence's length modulo 256. |
| `Words.GetUniqueSyllableLengths` | src/cmu_dict.rs:61-65 | As written, it returns the very list `get_syllable_lengths` returns. |
| `Words.UniqueLengthsAsWrittenRepeat` | src/cmu_dict.rs:61-65 | For RECORD, with the pronunciations "10" and "01", the as-written helper returns [2, 2]. That list has duplicates. |
| `Words.UniqueSyllableLengths` | src/cmu_dict.rs:61-65 | The corrected helper has no duplicates and holds exactly the values of `get_syllable_lengths`. They are in order of first occurrence. |
| `Words.UniqueLengthsCorrected` | src/cmu_dict.rs:61-65 | For RECORD the corrected helper returns [2]. |
| `CmuDict.Collect` | src/cmu_dict.rs:169-175 | The lazy chain stops at the first failing line. It succeeds if and only if every result succeeds, and then keeps all values in order. Otherwise the error is that of the first failure. |
| `CmuDict.EntryResults` | src/cmu_dict.rs:168-169 | There is one parse result per non-comment line. |
| `CmuDict.EntryResultsAt` | src/cmu_dict.rs:168-169 | Result i is `from_cmu_entry` of non-comment line i. |
| `CmuDict.CmuDictFileToMap` | src/cmu_dict.rs:150-176 | The loop over lines fails with the first bad non-comment line's error. Otherwise it returns the grouping of all parsed words by key, each key's pronunciations in line order. |
| `CmuDict.FirstErrorStops` | src/cmu_dict.rs:168-175 | After a clean prefix, a failing non-comment line makes the whole load fail with that line's error. |
| `CmuDict.CommentLinesIgnored` | src/cmu_dict.rs:168 | A line starting with ';' contributes nothing, wherever it stands. |
| `CmuDict.GroupedSnoc` | src/cmu_dict.rs:170-175 | Folding one more word appends its pronunciation to its own key's list, creating the list when missing (`or_insert(Vec::new()).push`). No other key changes. |
| `CmuDict.PronunciationsOfPresent` | src/cmu_dict.rs:170-175 | Every key that occurs among the parsed words has a non-empty list. |
| `CmuDict.TotalStoredGrouped` | src/cmu_dict.rs:170-175 | The lists hold exactly as many pronunciations as there are parsed words. |
| `CmuDict.LoadsIffEveryLineParses` | src/cmu_dict.rs:163-175 | A file loads if and only if every non-comment line parses. The loaded words are then exactly those lines' parses, one per line, in order. |
| `CmuDict.DictionaryShape` | src/cmu_dict.rs:163-175 | For a file that loads, the key set is the set of parsed keys. Every list is non-empty and holds that key's pronunciations in line order. The total stored equals the number of non-comment lines. |
| `Meter.CanSingFromCorrect` | src/cmu_dict.rs:15-17 | The template search succeeds from a position exactly when some choice of pronunciations fills the template from there to its end. |
| `Meter.CanReachCorrect` | src/cmu_dict.rs:23-40 | The syllable-count search succeeds exactly when some choice of pronunciations has the requested number of syllables. |
| `Meter.TurtleTrochaicTetrameter` | src/cmu_dict.rs:15-21 | True if and only if some choice of one pronunciation per word concatenates to exactly 8 syllables. Even positions are Primary or Secondary, odd positions Unstressed. This is the doc-comment contract, not the stub's body. |
| `Meter.CanBeEightSyllables` | src/cmu_dict.rs:23-40 | True if and only if some choice of one pronunciation per word has exactly 8 syllables. This is the intent of the stub, not its body. |
| `Meter.TrochaicIsEightSyllables` | src/cmu_dict.rs:15-40 | Every sentence that passes the meter check passes the eight-syllable check. |

## Findings

| source | as written | input that shows it | evidently intended | confidence | as-written member | corrected member |
|---|---|---|---|---|---|---|
| src/cmu_dict.rs:61-65 | `get_unique_syllable_lengths` has the same body as `get_syllable_lengths` and removes no duplicates | RECORD with pronunciations "10" and "01" gives [2, 2] | each distinct length once, in first-occurrence order, as itertools' `unique()` gives (the file imports `itertools::Itertools` and never uses it) | high, not executed | `Words.UniqueLengthsAsWrittenRepeat` | `Words.UniqueSyllableLengths` |

## Left out

- `src/wiki.rs` is the Wikipedia client with its retry and backoff. It is network I/O, sleeping and logging, and is not part of this model.
- `src/main.rs` only wires a fixed file path to the loader and prints titles. It holds no logic.
- Reading the file (`read_to_string`) and splitting it with `lines()` are not modelled. The loader takes the file's lines as a sequence of strings, so the stripping of a trailing `\r` is not modelled either.
- `AHashMap` is a Dafny `map`. The hashing and iteration order have no effect on what the map holds.
- Panics are `Err` results instead of process aborts.
- `VariantSuffixUnderflow` models the panic of `word.len() - 3` in a debug build. In a release build the subtraction wraps and `truncate` leaves the key unchanged. That alternative is not modelled.
- Strings are sequences of characters. Rust measures `len()` and `truncate()` in bytes, and `truncate` panics off a character boundary. The two agree only on ASCII text, which is what the CMU dictionary holds, so the non-ASCII cases are not modelled.
- The code does not require a pronunciation to have at least one syllable. A line whose phonemes carry no digits yields an empty pronunciation, and the model keeps it.
- The Rust does not compile as written: it derives `Copy` on types that hold `String` and `Vec`, and it returns `&Vec` from `collect()`. The model gives each function the value-returning behaviour its code evidently intends.
- The stub bodies of `turtle_trochaic_tetrameter` (returns `false`) and `can_be_eight_syllables` (empty loops over the lengths and a queue of words, then `false`) are not modelled. `Meter` states and decides their documented intent instead.
- Meter.CanBeEightSyllables: counts syllables exactly. It does not use the `u8` lengths of `get_syllable_lengths` that the stub iterates, so it leaves out their wrap-around at 256.
- `Sentence` has no constructor or tokenizer in the source, so the model takes a sentence as a sequence of `WordEntry` values. There is no enumeration of candidate assignments, exploration budget or unknown-word handling in the code, and none is modelled.
