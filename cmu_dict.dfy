/** `cmu_dict_file_to_map`: folds the lines of the CMU pronouncing dictionary
    into a map from word key to its pronunciations, in file order. The file is
    given as its sequence of lines. */
module CmuDict {
  import opened Wrappers
  import opened Pronunciations
  import opened Words

  type Dictionary = map<string, seq<Pronunciation>>

  /** `line.starts_with(";")` */
  predicate IsComment(line: string)
  {
    |line| > 0 && line[0] == ';'
  }

  /** The lines that are not comments, in order. */
  function NonComment(lines: seq<string>): seq<string>
  {
    if lines == [] then []
    else
      var init, last := lines[..|lines| - 1], lines[|lines| - 1];
      NonComment(init) + (if IsComment(last) then [] else [last])
  }

  /** Collecting results in order, stopping at the first failure: how the
      lazy iterator chain behaves when a line panics. */
  function Collect<T, E>(results: seq<Result<T, E>>): (r: Result<seq<T>, E>)
    ensures r.Ok? <==> forall i :: 0 <= i < |results| ==> results[i].Ok?
    ensures r.Ok? ==> |r.value| == |results| && forall i :: 0 <= i < |results| ==> results[i] == Ok(r.value[i])
    ensures r.Err? ==> exists i :: 0 <= i < |results| && results[i] == Err(r.error)
                                   && forall j :: 0 <= j < i ==> results[j].Ok?
  {
    if results == [] then Ok([])
    else
      var init, last := results[..|results| - 1], results[|results| - 1];
      assert forall i :: 0 <= i < |init| ==> results[i] == init[i];
      match Collect(init)
      case Err(e) => Err(e)
      case Ok(vs) =>
        match last
        case Err(e) => Err(e)
        case Ok(v) => Ok(vs + [v])
  }

  /** The parse of every non-comment line, in order. */
  function EntryResults(lines: seq<string>): (r: seq<Result<Word, ParseError>>)
    ensures |r| == |NonComment(lines)|
  {
    if lines == [] then []
    else
      var init, last := lines[..|lines| - 1], lines[|lines| - 1];
      EntryResults(init) + (if IsComment(last) then [] else [ParseEntry(last)])
  }

  /** Result `i` is the parse of non-comment line `i`. */
  lemma {:induction false} EntryResultsAt(lines: seq<string>)
    ensures forall i :: 0 <= i < |EntryResults(lines)| ==>
              EntryResults(lines)[i] == ParseEntry(NonComment(lines)[i])
    decreases |lines|
  {
    if lines != [] {
      EntryResultsAt(lines[..|lines| - 1]);
    }
  }

  /** The words of a dictionary file, or the error of its first bad line. */
  function ParseLines(lines: seq<string>): Result<seq<Word>, ParseError>
  {
    Collect(EntryResults(lines))
  }

  /** The pronunciations of the words with key `key`, in order. */
  function PronunciationsOf(words: seq<Word>, key: string): seq<Pronunciation>
  {
    if words == [] then []
    else
      var init, last := words[..|words| - 1], words[|words| - 1];
      PronunciationsOf(init, key) + (if last.word == key then [last.pronunciation] else [])
  }

  function KeysOf(words: seq<Word>): set<string>
  {
    set w | w in words :: w.word
  }

  /** The map the fold builds from a sequence of parsed words. */
  function Grouped(words: seq<Word>): Dictionary
  {
    map k | k in KeysOf(words) :: PronunciationsOf(words, k)
  }

  /** The sum of the lengths of all stored lists. */
  ghost function TotalStored(d: Dictionary): nat
    decreases |d.Keys|
  {
    if d == map[] then 0
    else
      var k :| k in d;
      assert (d - {k}).Keys < d.Keys;
      |d[k]| + TotalStored(d - {k})
  }

  lemma {:induction false} EntryResultsAppend(a: seq<string>, b: seq<string>)
    ensures EntryResults(a + b) == EntryResults(a) + EntryResults(b)
    decreases |b|
  {
    if b != [] {
      var init := b[..|b| - 1];
      EntryResultsAppend(a, init);
      assert (a + b)[..|a + b| - 1] == a + init;
      assert (a + b)[|a + b| - 1] == b[|b| - 1];
    } else {
      assert a + b == a;
    }
  }

  lemma {:induction false} CollectErrPrefix<T, E>(xs: seq<Result<T, E>>, ys: seq<Result<T, E>>)
    requires Collect(xs).Err?
    ensures Collect(xs + ys) == Collect(xs)
    decreases |ys|
  {
    if ys != [] {
      var init := ys[..|ys| - 1];
      CollectErrPrefix(xs, init);
      assert (xs + ys)[..|xs + ys| - 1] == xs + init;
      assert (xs + ys)[|xs + ys| - 1] == ys[|ys| - 1];
    } else {
      assert xs + ys == xs;
    }
  }

  lemma CollectSnocErr<T, E>(xs: seq<Result<T, E>>, e: E)
    requires Collect(xs).Ok?
    ensures Collect(xs + [Err(e)]) == Err(e)
  {
    assert (xs + [Err(e)])[..|xs|] == xs;
  }

  /** Once a non-comment line fails to parse after a clean prefix, the whole
      file fails with that line's error. */
  lemma FirstErrorStops(lines: seq<string>, i: nat)
    requires i < |lines|
    requires ParseLines(lines[..i]).Ok?
    requires !IsComment(lines[i]) && ParseEntry(lines[i]).Err?
    ensures ParseLines(lines) == Err(ParseEntry(lines[i]).error)
  {
    var a, b := lines[..i + 1], lines[i + 1..];
    var e := ParseEntry(lines[i]).error;
    assert a[..i] == lines[..i] && a[i] == lines[i];
    assert EntryResults(a) == EntryResults(lines[..i]) + [Err(e)];
    CollectSnocErr(EntryResults(lines[..i]), e);
    assert lines == a + b;
    EntryResultsAppend(a, b);
    CollectErrPrefix(EntryResults(a), EntryResults(b));
  }

  lemma {:induction false} PronunciationsOfAbsent(words: seq<Word>, key: string)
    requires key !in KeysOf(words)
    ensures PronunciationsOf(words, key) == []
    decreases |words|
  {
    if words != [] {
      var init := words[..|words| - 1];
      assert KeysOf(init) <= KeysOf(words);
      PronunciationsOfAbsent(init, key);
    }
  }

  /** Appending a word extends exactly its key's list by its pronunciation. */
  lemma GroupedSnoc(words: seq<Word>, w: Word)
    ensures var g := Grouped(words);
            Grouped(words + [w]) == g[w.word := (if w.word in g then g[w.word] else []) + [w.pronunciation]]
  {
    var words' := words + [w];
    assert words'[..|words'| - 1] == words;
    assert KeysOf(words') == KeysOf(words) + {w.word};
    var g := Grouped(words);
    var m := g[w.word := (if w.word in g then g[w.word] else []) + [w.pronunciation]];
    forall k | k in m ensures Grouped(words')[k] == m[k] {
      if k !in g {
        PronunciationsOfAbsent(words, k);
      }
      assert PronunciationsOf(words', k) == PronunciationsOf(words, k) + (if w.word == k then [w.pronunciation] else []);
    }
    if w.word !in KeysOf(words) {
      PronunciationsOfAbsent(words, w.word);
    }
  }

  /** Every key of the fold has at least one pronunciation. */
  lemma {:induction false} PronunciationsOfPresent(words: seq<Word>, key: string)
    requires key in KeysOf(words)
    ensures |PronunciationsOf(words, key)| > 0
    decreases |words|
  {
    var init, last := words[..|words| - 1], words[|words| - 1];
    assert words == init + [last];
    if last.word != key {
      assert key in KeysOf(init);
      PronunciationsOfPresent(init, key);
    }
  }

  lemma {:induction false} TotalStoredRemove(d: Dictionary, k: string)
    requires k in d
    ensures TotalStored(d) == |d[k]| + TotalStored(d - {k})
    decreases |d.Keys|
  {
    var k' :| k' in d && TotalStored(d) == |d[k']| + TotalStored(d - {k'});
    if k' != k {
      assert (d - {k'}).Keys < d.Keys;
      assert (d - {k}).Keys < d.Keys;
      TotalStoredRemove(d - {k'}, k);
      TotalStoredRemove(d - {k}, k');
      assert d - {k'} - {k} == d - {k} - {k'};
    }
  }

  /** Appending one pronunciation to a key's list raises the total by one. */
  lemma TotalStoredPush(d: Dictionary, k: string, p: Pronunciation)
    ensures TotalStored(d[k := (if k in d then d[k] else []) + [p]]) == TotalStored(d) + 1
  {
    var d' := d[k := (if k in d then d[k] else []) + [p]];
    TotalStoredRemove(d', k);
    assert d' - {k} == d - {k};
    if k in d {
      TotalStoredRemove(d, k);
    } else {
      assert d - {k} == d;
    }
  }

  /** The lists of the fold hold every parsed word once. */
  lemma {:induction false} TotalStoredGrouped(words: seq<Word>)
    ensures TotalStored(Grouped(words)) == |words|
    decreases |words|
  {
    if words == [] {
      assert Grouped(words) == map[];
    } else {
      var init, w := words[..|words| - 1], words[|words| - 1];
      assert words == init + [w];
      TotalStoredGrouped(init);
      GroupedSnoc(init, w);
      TotalStoredPush(Grouped(init), w.word, w.pronunciation);
    }
  }

  /** A file loads exactly when each of its non-comment lines parses; the
      words are then those lines' parses, in order. */
  lemma LoadsIffEveryLineParses(lines: seq<string>)
    ensures ParseLines(lines).Ok? <==>
              forall i :: 0 <= i < |NonComment(lines)| ==> ParseEntry(NonComment(lines)[i]).Ok?
    ensures ParseLines(lines).Ok? ==>
              |ParseLines(lines).value| == |NonComment(lines)|
              && forall i :: 0 <= i < |NonComment(lines)| ==>
                   ParseEntry(NonComment(lines)[i]) == Ok(ParseLines(lines).value[i])
  {
    EntryResultsAt(lines);
  }

  /** What the dictionary built from a file holds: a key for each parsed word
      and no other, each key with a non-empty list of its pronunciations in
      line order, and one stored pronunciation per non-comment line. */
  lemma DictionaryShape(lines: seq<string>)
    requires ParseLines(lines).Ok?
    ensures var words := ParseLines(lines).value;
            var d := Grouped(words);
            && d.Keys == (set w | w in words :: w.word)
            && (forall k :: k in d ==> |d[k]| > 0 && d[k] == PronunciationsOf(words, k))
            && TotalStored(d) == |NonComment(lines)|
  {
    var words := ParseLines(lines).value;
    forall k | k in Grouped(words) ensures |Grouped(words)[k]| > 0 {
      PronunciationsOfPresent(words, k);
    }
    TotalStoredGrouped(words);
  }

  /** Comment lines contribute nothing, wherever they stand. */
  lemma CommentLinesIgnored(before: seq<string>, comment: string, after: seq<string>)
    requires IsComment(comment)
    ensures ParseLines(before + [comment] + after) == ParseLines(before + after)
  {
    EntryResultsAppend(before + [comment], after);
    EntryResultsAppend(before, [comment]);
    EntryResultsAppend(before, after);
    assert [comment][..0] == [];
    assert EntryResults([comment]) == [];
    assert EntryResults(before) + [] == EntryResults(before);
  }

  /** `cmu_dict_file_to_map`: skips comment lines, parses the rest with
      `Word::from_cmu_entry` and appends each pronunciation to its key's list
      (`entry().or_insert(Vec::new()).push(..)`). */
  method CmuDictFileToMap(lines: seq<string>) returns (r: Result<Dictionary, ParseError>)
    ensures ParseLines(lines).Err? ==> r == Err(ParseLines(lines).error)
    ensures ParseLines(lines).Ok? ==> r == Ok(Grouped(ParseLines(lines).value))
  {
    var dict: Dictionary := map[];
    ghost var words: seq<Word> := [];
    var i := 0;
    while i < |lines|
      invariant 0 <= i <= |lines|
      invariant ParseLines(lines[..i]) == Ok(words)
      invariant dict == Grouped(words)
    {
      var line := lines[i];
      assert lines[..i + 1][..i] == lines[..i];
      if IsComment(line) {
        assert EntryResults(lines[..i + 1]) == EntryResults(lines[..i]) + [];
        assert EntryResults(lines[..i]) + [] == EntryResults(lines[..i]);
      } else {
        var word := FromCmuEntry(line);
        if word.Err? {
          FirstErrorStops(lines, i);
          return Err(word.error);
        }
        var w := word.value;
        var list := if w.word in dict then dict[w.word] else [];
        GroupedSnoc(words, w);
        dict := dict[w.word := list + [w.pronunciation]];
        assert EntryResults(lines[..i + 1]) == EntryResults(lines[..i]) + [Ok(w)];
        ghost var before := EntryResults(lines[..i]);
        assert (before + [Ok(w)])[..|before|] == before;
        assert Collect(before + [Ok(w)]) == Ok(words + [w]);
        words := words + [w];
      }
      i := i + 1;
    }
    assert lines[..i] == lines;
    r := Ok(dict);
  }
}
