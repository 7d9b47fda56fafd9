/** A worked example: the stop words `the` and `on`, and a text file holding
    the single line `The Cat sat on the MAT. The cat ran.` */
module Example {
  import opened Text
  import opened Tokenizer
  import opened StopWords
  import opened Frequency
  import opened Ranking
  import opened TagExtractor

  predicate Word(w: string) {
    w != [] && AllWordChars(w)
  }

  /** Nine words laid out as in the example line, whatever the words are. */
  lemma {:induction false} NineWords(s: string, t1: string, t2: string, t3: string, t4: string, t5: string,
                  t6: string, t7: string, t8: string, t9: string)
    requires Word(t1) && Word(t2) && Word(t3) && Word(t4) && Word(t5)
    requires Word(t6) && Word(t7) && Word(t8) && Word(t9)
    requires s == t1 + ([' '] + (t2 + ([' '] + (t3 + ([' '] + (t4 + ([' '] + (t5 + ([' '] +
      (t6 + (['.'] + ([' '] + (t7 + ([' '] + (t8 + ([' '] + (t9 + (['.'] + []))))))))))))))))))
    ensures Words(s) == [t1, t2, t3, t4, t5, t6, t7, t8, t9]
  {
    var r9 := t9 + (['.'] + []);
    var r8 := t8 + ([' '] + r9);
    var r7 := t7 + ([' '] + r8);
    var r6 := t6 + (['.'] + ([' '] + r7));
    var r5 := t5 + ([' '] + r6);
    var r4 := t4 + ([' '] + r5);
    var r3 := t3 + ([' '] + r4);
    var r2 := t2 + ([' '] + r3);
    WordsCons(t9, '.', []);
    WordsCons(t8, ' ', r9);
    WordsCons(t7, ' ', r8);
    WordsSkip(' ', r7);
    WordsCons(t6, '.', [' '] + r7);
    WordsCons(t5, ' ', r6);
    WordsCons(t4, ' ', r5);
    WordsCons(t3, ' ', r4);
    WordsCons(t2, ' ', r3);
    WordsCons(t1, ' ', r2);
  }

  /** Lower-casing a word followed by a character that is no upper-case letter. */
  lemma {:induction false} LowerCons(t: string, d: char, rest: string)
    requires !('A' <= d <= 'Z')
    ensures Lower(t + ([d] + rest)) == Lower(t) + ([d] + Lower(rest))
  {
    LowerAppend(t, [d] + rest);
    LowerAppend([d], rest);
    assert Lower([d]) == [d];
  }

  /** Lower-casing the example layout lower-cases each of its nine words. */
  lemma {:induction false} LowerNine(s: string, t1: string, t2: string, t3: string, t4: string, t5: string,
                  t6: string, t7: string, t8: string, t9: string)
    requires s == t1 + ([' '] + (t2 + ([' '] + (t3 + ([' '] + (t4 + ([' '] + (t5 + ([' '] +
      (t6 + (['.'] + ([' '] + (t7 + ([' '] + (t8 + ([' '] + (t9 + (['.'] + []))))))))))))))))))
    ensures Lower(s) == Lower(t1) + ([' '] + (Lower(t2) + ([' '] + (Lower(t3) + ([' '] + (Lower(t4) +
      ([' '] + (Lower(t5) + ([' '] + (Lower(t6) + (['.'] + ([' '] + (Lower(t7) + ([' '] + (Lower(t8) +
      ([' '] + (Lower(t9) + (['.'] + []))))))))))))))))))
  {
    var r9 := t9 + (['.'] + []);
    var r8 := t8 + ([' '] + r9);
    var r7 := t7 + ([' '] + r8);
    var r6 := t6 + (['.'] + ([' '] + r7));
    var r5 := t5 + ([' '] + r6);
    var r4 := t4 + ([' '] + r5);
    var r3 := t3 + ([' '] + r4);
    var r2 := t2 + ([' '] + r3);
    LowerCons(t9, '.', []);
    assert Lower([]) == [];
    LowerCons(t8, ' ', r9);
    LowerCons(t7, ' ', r8);
    LowerCons(t6, '.', [' '] + r7);
    LowerCons([], ' ', r7);
    assert [] + ([' '] + r7) == [' '] + r7;
    assert Lower([]) + ([' '] + Lower(r7)) == [' '] + Lower(r7);
    LowerCons(t5, ' ', r6);
    LowerCons(t4, ' ', r5);
    LowerCons(t3, ' ', r4);
    LowerCons(t2, ' ', r3);
    LowerCons(t1, ' ', r2);
  }

  /** The example line, laid out as nine words. */
  lemma {:induction false} LineLayout(line: string)
    requires line == "The Cat sat on the MAT. The cat ran."
    ensures line == "The" + ([' '] + ("Cat" + ([' '] + ("sat" + ([' '] + ("on" + ([' '] + ("the" + ([' '] +
      ("MAT" + (['.'] + ([' '] + ("The" + ([' '] + ("cat" + ([' '] + ("ran" + (['.'] + []))))))))))))))))))
  {
  }

  lemma {:induction false} CapitalsLowered()
    ensures Lower("The") == "the" && Lower("Cat") == "cat" && Lower("MAT") == "mat"
  {
  }

  lemma {:induction false} SmallUnchanged()
    ensures Lower("sat") == "sat" && Lower("on") == "on" && Lower("the") == "the"
    ensures Lower("cat") == "cat" && Lower("ran") == "ran"
  {
  }

  lemma {:induction false} LineWordsAreWords()
    ensures Word("the") && Word("cat") && Word("sat")
    ensures Word("on") && Word("mat") && Word("ran")
  {
  }

  /** The lower-cased example line scans to its nine words. */
  lemma {:induction false} LineWords(line: string)
    requires line == "The Cat sat on the MAT. The cat ran."
    ensures Words(Lower(line)) == ["the", "cat", "sat", "on", "the", "mat", "the", "cat", "ran"]
  {
    LineLayout(line);
    LowerNine(line, "The", "Cat", "sat", "on", "the", "MAT", "The", "cat", "ran");
    CapitalsLowered();
    SmallUnchanged();
    LineWordsAreWords();
    NineWords(Lower(line), "the", "cat", "sat", "on", "the", "mat", "the", "cat", "ran");
  }

  lemma {:induction false} StopLines(lines: seq<string>)
    requires lines == ["the", "on"]
    ensures StopSet(lines) == {"the", "on"}
  {
    NormalizeWord(lines[0]);
    NormalizeWord(lines[1]);
  }

  /** A stop-word line that is already a lower-case word is kept as it is. */
  lemma {:induction false} NormalizeWord(w: string)
    requires IsLowerWord(w)
    ensures Normalize(w) == w
  {
    TrimLowerWord(w);
    LowerLowerWord(w);
  }

  lemma {:induction false} TrimLowerWord(w: string)
    requires IsLowerWord(w)
    ensures Trim(w) == w
  {
    assert w[0] > ' ' && w[|w| - 1] > ' ' by {
      assert IsLowerWordChar(w[0]) && IsLowerWordChar(w[|w| - 1]);
    }
    TrimOfTrimmed(w);
  }

  lemma {:induction false} LowerLowerWord(w: string)
    requires IsLowerWord(w)
    ensures Lower(w) == w
  {
    forall i | 0 <= i < |w|
      ensures Lower(w)[i] == w[i]
    {
      assert IsLowerWordChar(w[i]);
    }
  }

  lemma {:induction false} LineUnstopped(ws: seq<string>, stop: set<string>)
    requires ws == ["the", "cat", "sat", "on", "the", "mat", "the", "cat", "ran"]
    requires stop == {"the", "on"}
    ensures Unstopped(ws, stop) == ["cat", "sat", "mat", "cat", "ran"]
  {
    LineUnstoppedTail(ws[4..], stop);
    assert Unstopped(ws[3..], stop) == ["mat", "cat", "ran"];
    assert Unstopped(ws[2..], stop) == ["sat", "mat", "cat", "ran"];
    assert Unstopped(ws[1..], stop) == ["cat", "sat", "mat", "cat", "ran"];
  }

  lemma {:induction false} LineUnstoppedTail(ws: seq<string>, stop: set<string>)
    requires ws == ["the", "mat", "the", "cat", "ran"]
    requires stop == {"the", "on"}
    ensures Unstopped(ws, stop) == ["mat", "cat", "ran"]
  {
    assert Unstopped(ws[4..], stop) == ["ran"];
    assert Unstopped(ws[3..], stop) == ["cat", "ran"];
    assert Unstopped(ws[2..], stop) == ["cat", "ran"];
    assert Unstopped(ws[1..], stop) == ["mat", "cat", "ran"];
  }

  lemma {:induction false} LineCounts(ts: seq<string>)
    requires ts == ["cat", "sat", "mat", "cat", "ran"]
    ensures Frequencies(ts) == map["cat" := 2, "sat" := 1, "mat" := 1, "ran" := 1]
  {
  }

  /** Loading the stop words and scanning the line gives
      {cat: 2, sat: 1, mat: 1, ran: 1}. */
  lemma {:induction false} ExampleTable(line: string, stopLines: seq<string>)
    requires line == "The Cat sat on the MAT. The cat ran."
    requires stopLines == ["the", "on"]
    ensures Frequencies(ScanTokens([line], StopSet(stopLines))) ==
      map["cat" := 2, "sat" := 1, "mat" := 1, "ran" := 1]
  {
    var stop := StopSet(stopLines);
    StopLines(stopLines);
    ScanOneLine(line, stop);
    TokensMatchScan(line);
    LineWords(line);
    LineUnstopped(Tokens(line), stop);
    LineCounts(Unstopped(Tokens(line), stop));
  }

  /** The same example run through a session: whatever the table held before,
      loading the stop words and scanning the file leaves exactly the table of
      the example, and scanning the file again leaves the same table. */
  method ScanTwice(s: Session) returns (first: map<string, nat>, second: map<string, nat>)
    requires s.Valid()
    modifies s
    ensures first == second == map["cat" := 2, "sat" := 1, "mat" := 1, "ran" := 1]
  {
    var stopLines := ["the", "on"];
    var lines := ["The Cat sat on the MAT. The cat ran."];
    var _ := s.LoadStopWords(stopLines, false);
    var _ := s.ScanFile(lines, false);
    ExampleTable(lines[0], stopLines);
    first := s.tagMap;
    var _ := s.ScanFile(lines, false);
    second := s.tagMap;
  }

  lemma {:induction false} SortOne(c: Entry)
    ensures SortByCount([c]) == [c]
  {
    assert [c][1..] == [];
  }

  lemma {:induction false} SortTwo(b: Entry, c: Entry)
    requires c.count <= b.count
    ensures SortByCount([b, c]) == [b, c]
  {
    assert [b, c][1..] == [c];
    SortOne(c);
  }

  lemma {:induction false} InsertLast(a: Entry, b: Entry, c: Entry)
    requires a.count < c.count <= b.count
    ensures Insert(a, [b, c]) == [b, c, a]
  {
    assert [b, c][1..] == [c] && [c][1..] == [];
    assert Insert(a, [c]) == [c, a];
  }

  /** Three entries where the first has the smallest count and the other two
      are already in order. */
  lemma {:induction false} SortThree(a: Entry, b: Entry, c: Entry)
    requires a.count < c.count <= b.count
    ensures SortByCount([a, b, c]) == [b, c, a]
  {
    assert [a, b, c][1..] == [b, c];
    SortTwo(b, c);
    InsertLast(a, b, c);
  }

  lemma {:induction false} EntriesExample(m: map<string, nat>, order: seq<string>)
    requires m == map["a" := 3, "b" := 5, "c" := 5]
    requires order == ["a", "b", "c"]
    ensures Enumerates(order, m)
    ensures Entries(m, order) == [Entry("a", 3), Entry("b", 5), Entry("c", 5)]
  {
    assert m.Keys == {"a", "b", "c"};
  }

  /** Ranking {a: 3, b: 5, c: 5} walked in the order a, b, c lists b and c
      (the two largest counts, in the order they were met) and then a. */
  lemma {:induction false} RankingExample(m: map<string, nat>, order: seq<string>)
    requires m == map["a" := 3, "b" := 5, "c" := 5]
    requires order == ["a", "b", "c"]
    ensures Enumerates(order, m)
    ensures Ranked(m, order) == [Entry("b", 5), Entry("c", 5), Entry("a", 3)]
  {
    EntriesExample(m, order);
    SortThree(Entry("a", 3), Entry("b", 5), Entry("c", 5));
  }
}
