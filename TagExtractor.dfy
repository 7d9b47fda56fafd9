/** The session state of `TagExtractor` (the fields `tagMap`, `stopWords` and
    `textFile`) and the operations that change or read it: `pickTextFile`,
    `scanFile`, `loadStopWords`, `displayTags` and `saveTagsToFile`. */
module TagExtractor {
  import opened Text
  import opened Tokenizer
  import opened StopWords
  import opened Frequency
  import opened Ranking

  /** The words of one line that the test of `scanFile` lets through: not
      blank after trimming, and not a stop word. */
  function Kept(words: seq<string>, stop: set<string>): seq<string>
    decreases |words|
  {
    if words == [] then []
    else (if !IsBlank(words[0]) && words[0] !in stop then [words[0]] else []) + Kept(words[1..], stop)
  }

  /** The tokens that are not stop words. */
  function Unstopped(ts: seq<string>, stop: set<string>): seq<string>
    decreases |ts|
  {
    if ts == [] then []
    else (if ts[0] !in stop then [ts[0]] else []) + Unstopped(ts[1..], stop)
  }

  /** Every word `scanFile` counts for `lines`, line after line. */
  function ScanTokens(lines: seq<string>, stop: set<string>): seq<string>
    decreases |lines|
  {
    if lines == [] then []
    else ScanTokens(lines[..|lines| - 1], stop) + Kept(Split(Lower(lines[|lines| - 1])), stop)
  }

  lemma {:induction false} KeptAppend(a: seq<string>, b: seq<string>, stop: set<string>)
    ensures Kept(a + b, stop) == Kept(a, stop) + Kept(b, stop)
    decreases |a|
  {
    if a != [] {
      KeptAppend(a[1..], b, stop);
      assert (a + b)[0] == a[0];
      assert (a + b)[1..] == a[1..] + b;
    } else {
      assert a + b == b;
    }
  }

  /** The combined test of `scanFile` is the blank check of the tokenizer
      followed by the stop-word check. */
  lemma {:induction false} KeptIsUnstoppedNonBlank(words: seq<string>, stop: set<string>)
    ensures Kept(words, stop) == Unstopped(NonBlank(words), stop)
    decreases |words|
  {
    if words != [] {
      KeptIsUnstoppedNonBlank(words[1..], stop);
      var w := words[0];
      var rest := NonBlank(words[1..]);
      assert NonBlank(words) == KeepNonBlank(w) + rest;
      if !IsBlank(w) {
        assert NonBlank(words) == [w] + rest;
        assert ([w] + rest)[0] == w;
        assert ([w] + rest)[1..] == rest;
      } else {
        assert NonBlank(words) == rest;
      }
    }
  }

  lemma {:induction false} UnstoppedElements(ts: seq<string>, stop: set<string>)
    ensures forall t :: t in Unstopped(ts, stop) <==> t in ts && t !in stop
    decreases |ts|
  {
    if ts != [] {
      UnstoppedElements(ts[1..], stop);
      assert ts == [ts[0]] + ts[1..];
    }
  }

  /** `t` is a token of one of `lines`. */
  ghost predicate InSomeLine(t: string, lines: seq<string>) {
    exists i :: 0 <= i < |lines| && t in Tokens(lines[i])
  }

  lemma {:induction false} InSomeLineSnoc(t: string, lines: seq<string>)
    requires lines != []
    ensures InSomeLine(t, lines) <==>
      InSomeLine(t, lines[..|lines| - 1]) || t in Tokens(lines[|lines| - 1])
  {
    var init := lines[..|lines| - 1];
    if InSomeLine(t, lines) {
      var i :| 0 <= i < |lines| && t in Tokens(lines[i]);
      if i < |init| { assert init[i] == lines[i]; }
    }
    if InSomeLine(t, init) {
      var i :| 0 <= i < |init| && t in Tokens(init[i]);
      assert lines[i] == init[i];
    }
  }

  /** The words a scan counts on the last line are that line's tokens that
      are not stop words. */
  lemma {:induction false} KeptOfLine(line: string, stop: set<string>)
    ensures forall t :: t in Kept(Split(Lower(line)), stop) <==> t in Tokens(line) && t !in stop
  {
    KeptIsUnstoppedNonBlank(Split(Lower(line)), stop);
    UnstoppedElements(Tokens(line), stop);
  }

  /** A word is counted by a scan exactly when it is a token of one of the
      lines and not a stop word. */
  lemma {:induction false} ScanTokensElements(lines: seq<string>, stop: set<string>)
    ensures forall t :: t in ScanTokens(lines, stop) <==> t !in stop && InSomeLine(t, lines)
    decreases |lines|
  {
    if lines != [] {
      var init, last := lines[..|lines| - 1], lines[|lines| - 1];
      assert ScanTokens(lines, stop) == ScanTokens(init, stop) + Kept(Split(Lower(last)), stop);
      ScanTokensElements(init, stop);
      KeptOfLine(last, stop);
      forall t
        ensures InSomeLine(t, lines) <==> InSomeLine(t, init) || t in Tokens(last)
      {
        InSomeLineSnoc(t, lines);
      }
    }
  }

  /** The table a scan builds: keys are exactly the surviving tokens (never a
      stop word, always a lower-case word), counts are at least 1 and add up
      to the number of surviving tokens. */
  lemma {:induction false} ScanTable(lines: seq<string>, stop: set<string>)
    ensures forall k :: k in Frequencies(ScanTokens(lines, stop)) <==> k !in stop && InSomeLine(k, lines)
    ensures forall k :: k in Frequencies(ScanTokens(lines, stop)) ==>
      IsLowerWord(k) && Frequencies(ScanTokens(lines, stop))[k] >= 1
    ensures Sum(Frequencies(ScanTokens(lines, stop))) == |ScanTokens(lines, stop)|
  {
    var ts := ScanTokens(lines, stop);
    FrequenciesCount(ts);
    ScanTokensElements(lines, stop);
    SumOfFrequencies(ts);
    forall k | k in Frequencies(ts)
      ensures IsLowerWord(k)
    {
      var i :| 0 <= i < |lines| && k in Tokens(lines[i]);
      TokensAreLowerWords(lines[i]);
    }
  }

  /** For a one-line file the counted words are the line's tokens minus the
      stop words, in order. */
  lemma {:induction false} ScanOneLine(line: string, stop: set<string>)
    ensures ScanTokens([line], stop) == Unstopped(Tokens(line), stop)
  {
    assert [line][..0] == [];
    KeptIsUnstoppedNonBlank(Split(Lower(line)), stop);
  }

  /** One step of the inner loop of `scanFile`: the word is counted exactly
      when it passes the test `!word.trim().isEmpty() && !stopWords.contains(word)`. */
  lemma {:induction false} KeptFrom(words: seq<string>, j: nat, stop: set<string>)
    requires j < |words|
    ensures Trim(words[j]) != [] && words[j] !in stop ==>
      Kept(words[j..], stop) == [words[j]] + Kept(words[j + 1..], stop)
    ensures !(Trim(words[j]) != [] && words[j] !in stop) ==>
      Kept(words[j..], stop) == Kept(words[j + 1..], stop)
  {
    BlankIffTrimEmpty(words[j]);
    assert words[j..][0] == words[j];
    assert words[j..][1..] == words[j + 1..];
  }

  /** Merging a word into the table of `done + kept` gives the table of
      `done + kept` extended by that word. */
  lemma {:induction false} CountStep(done: seq<string>, kept: seq<string>, word: string)
    ensures Merge(Frequencies(done + kept), word) == Frequencies(done + (kept + [word]))
  {
    FrequenciesSnoc(done + kept, word);
    assert (done + kept) + [word] == done + (kept + [word]);
  }

  /** One step of the outer loop of `scanFile`. */
  lemma {:induction false} ScanLineStep(lines: seq<string>, i: nat, stop: set<string>)
    requires i < |lines|
    ensures ScanTokens(lines[..i + 1], stop) == ScanTokens(lines[..i], stop) + Kept(Split(Lower(lines[i])), stop)
  {
    assert lines[..i + 1][..i] == lines[..i];
  }

  lemma {:induction false} LowerWordIsPlain(s: string)
    requires IsLowerWord(s)
    ensures Plain(s)
  {
    assert forall i :: 0 <= i < |s| ==> IsLowerWordChar(s[i]);
  }

  /** What `saveTagsToFile` reports. */
  datatype SaveOutcome =
    | NothingToSave        // no text file chosen yet, or no tags
    | WriteFailed          // `new FileWriter(...)` threw an `IOException`
    | Saved(lines: seq<string>)

  class Session {
    var tagMap: map<string, nat>
    var stopWords: set<string>
    /** `textFile != null`: a text file has been chosen. */
    var hasTextFile: bool

    /** Every key is a lower-case word with a positive count. */
    ghost predicate Valid()
      reads this
    {
      forall k :: k in tagMap ==> IsLowerWord(k) && tagMap[k] >= 1
    }

    constructor ()
      ensures Valid()
      ensures tagMap == map[] && stopWords == {} && !hasTextFile
    {
      tagMap := map[];
      stopWords := {};
      hasTextFile := false;
    }

    /** `scanFile`: `lines` are the lines read before the end of the file or
        before a read error (`failed`).  The table is cleared first, so in
        both cases it ends up holding exactly the counts of those lines; the
        result says whether the scan completed (and `displayTags` runs). */
    method ScanFile(lines: seq<string>, failed: bool) returns (ok: bool)
      requires Valid()
      modifies this`tagMap
      ensures Valid()
      ensures tagMap == Frequencies(ScanTokens(lines, stopWords))
      ensures forall k :: k in tagMap ==> k !in stopWords
      ensures Sum(tagMap) == |ScanTokens(lines, stopWords)|
      ensures ok == !failed
    {
      tagMap := map[];
      var i := 0;
      while i < |lines|
        invariant 0 <= i <= |lines|
        invariant tagMap == Frequencies(ScanTokens(lines[..i], stopWords))
      {
        CountWords(Split(Lower(lines[i])), ScanTokens(lines[..i], stopWords));
        ScanLineStep(lines, i, stopWords);
        i := i + 1;
      }
      assert lines[..i] == lines;
      ScanTable(lines, stopWords);
      ok := !failed;
    }

    /** The inner loop of `scanFile` over the words of one lower-cased line:
        when the table holds the counts of `done`, it ends up holding the
        counts of `done` followed by the words of the line that pass the test. */
    method CountWords(words: seq<string>, ghost done: seq<string>)
      requires tagMap == Frequencies(done)
      modifies this`tagMap
      ensures tagMap == Frequencies(done + Kept(words, stopWords))
    {
      var stop := stopWords;
      assert words[0..] == words;
      ghost var kept: seq<string> := [];
      var j := 0;
      while j < |words|
        invariant 0 <= j <= |words|
        invariant Kept(words, stop) == kept + Kept(words[j..], stop)
        invariant tagMap == Frequencies(done + kept)
      {
        var word := words[j];
        var counted := Trim(word) != [] && word !in stop;
        ghost var next := if counted then kept + [word] else kept;
        assert Kept(words, stop) == next + Kept(words[j + 1..], stop) by {
          KeptFrom(words, j, stop);
          if counted {
            var rest := Kept(words[j + 1..], stop);
            assert kept + ([word] + rest) == (kept + [word]) + rest;
          }
        }
        if counted {
          CountStep(done, kept, word);
          tagMap := Merge(tagMap, word);
        }
        kept := next;
        j := j + 1;
      }
      assert words[j..] == [];
    }

    /** `pickTextFile`: when the chooser is approved the chosen file becomes
        the text file and is scanned; otherwise nothing changes. */
    method PickTextFile(approved: bool, lines: seq<string>, failed: bool) returns (scanned: bool)
      requires Valid()
      modifies this`tagMap, this`hasTextFile
      ensures Valid()
      ensures approved ==> hasTextFile && tagMap == Frequencies(ScanTokens(lines, stopWords))
      ensures !approved ==> hasTextFile == old(hasTextFile) && tagMap == old(tagMap)
      ensures scanned == (approved && !failed)
    {
      scanned := false;
      if approved {
        hasTextFile := true;
        scanned := ScanFile(lines, failed);
      }
    }

    /** `loadStopWords`: the set is cleared first, then every line read
        (before the end of the file or a read error) is added trimmed and
        lower-cased.  The tag table is left as it is. */
    method LoadStopWords(lines: seq<string>, failed: bool) returns (ok: bool)
      requires Valid()
      modifies this`stopWords
      ensures Valid()
      ensures stopWords == StopSet(lines)
      ensures ok == !failed
    {
      stopWords := {};
      var i := 0;
      while i < |lines|
        invariant 0 <= i <= |lines|
        invariant stopWords == StopSet(lines[..i])
      {
        assert StopSet(lines[..i + 1]) == StopSet(lines[..i]) + {Normalize(lines[i])} by {
          assert lines[..i + 1] == lines[..i] + [lines[i]];
          assert forall l :: l in lines[..i + 1] <==> l in lines[..i] || l == lines[i];
        }
        stopWords := stopWords + {Lower(Trim(lines[i]))};
        i := i + 1;
      }
      assert lines[..i] == lines;
      ok := !failed;
    }

    /** `displayTags`: the text put in the display area, for the iteration
        order `order` of the table. */
    method DisplayTags(order: seq<string>) returns (text: string)
      requires Valid() && Enumerates(order, tagMap)
      ensures text == Render(Ranked(tagMap, order))
      ensures LinesOf(text) == Lines(Ranked(tagMap, order))
    {
      var ranked := Ranked(tagMap, order);
      text := "";
      var i := 0;
      while i < |ranked|
        invariant 0 <= i <= |ranked|
        invariant text + Render(ranked[i..]) == Render(ranked)
      {
        var line := FormatLine(ranked[i]) + "\n";
        RenderFrom(ranked, i);
        assert (text + line) + Render(ranked[i + 1..]) == text + (line + Render(ranked[i + 1..]));
        text := text + line;
        i := i + 1;
      }
      assert ranked[i..] == [];
      RankedListing(tagMap, order);
    }

    /** `saveTagsToFile`: refused with nothing written unless a text file has
        been chosen and the table is non-empty; otherwise one line per entry,
        in the table's iteration order `order`, unless the output file cannot
        be opened (`canOpen` false).  The table is not modified. */
    method SaveTags(order: seq<string>, canOpen: bool) returns (r: SaveOutcome)
      requires Valid() && Enumerates(order, tagMap)
      ensures r.NothingToSave? <==> !hasTextFile || tagMap == map[]
      ensures r.WriteFailed? <==> hasTextFile && tagMap != map[] && !canOpen
      ensures r.Saved? ==> r.lines == Lines(Entries(tagMap, order))
      ensures r.Saved? ==> |r.lines| == |tagMap|
      ensures r.Saved? ==> Decode(r.lines) == Some(tagMap)
      ensures r.Saved? ==> forall k :: k in tagMap ==> multiset(r.lines)[FormatLine(Entry(k, tagMap[k]))] == 1
    {
      if !hasTextFile || |tagMap| == 0 {
        return NothingToSave;
      }
      if !canOpen {
        return WriteFailed;
      }
      var out := [];
      var i := 0;
      while i < |order|
        invariant 0 <= i <= |order|
        invariant out == Lines(Entries(tagMap, order[..i]))
      {
        assert order[..i + 1] == order[..i] + [order[i]];
        out := out + [FormatLine(Entry(order[i], tagMap[order[i]]))];
        i := i + 1;
      }
      assert order[..i] == order;
      forall k | k in tagMap
        ensures Plain(k)
      {
        LowerWordIsPlain(k);
      }
      DecodeSavedLines(tagMap, order);
      SavedLinesExact(tagMap, order);
      r := Saved(out);
    }
  }

  lemma {:induction false} RenderFrom(es: seq<Entry>, i: nat)
    requires i < |es|
    ensures Render(es[i..]) == FormatLine(es[i]) + "\n" + Render(es[i + 1..])
  {
    assert es[i..][1..] == es[i + 1..];
  }

  /** The displayed text of a valid table splits into the listing's lines. */
  lemma {:induction false} RankedListing(m: map<string, nat>, order: seq<string>)
    requires forall k :: k in m ==> IsLowerWord(k)
    requires Enumerates(order, m)
    ensures LinesOf(Render(Ranked(m, order))) == Lines(Ranked(m, order))
  {
    RankedTagsPlain(m, order);
    LinesOfRender(Ranked(m, order));
  }

  /** Every tag in the ranked listing of a valid table is plain. */
  lemma {:induction false} RankedTagsPlain(m: map<string, nat>, order: seq<string>)
    requires forall k :: k in m ==> IsLowerWord(k)
    requires Enumerates(order, m)
    ensures forall i :: 0 <= i < |Ranked(m, order)| ==> Plain(Ranked(m, order)[i].tag)
  {
    var r := Ranked(m, order);
    forall i | 0 <= i < |r|
      ensures Plain(r[i].tag)
    {
      assert r[i] in multiset(EntrySet(m));
      LowerWordIsPlain(r[i].tag);
    }
  }
}
