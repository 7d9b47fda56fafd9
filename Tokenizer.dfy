/** The tokenizer of `scanFile`: a line is lower-cased, split on maximal runs
    of non-word characters exactly as Java's `String.split("\\W+")` does, and
    the pieces that are blank after trimming are dropped. */
module Tokenizer {
  import opened Text

  /** Length of the longest prefix of `s` made of word characters. */
  function WordRun(s: string): (n: nat)
    ensures n <= |s|
    ensures n < |s| ==> !IsWordChar(s[n])
    decreases |s|
  {
    if s == [] || !IsWordChar(s[0]) then 0 else 1 + WordRun(s[1..])
  }

  lemma {:induction false} WordRunChars(s: string)
    ensures forall i :: 0 <= i < WordRun(s) ==> IsWordChar(s[i])
    decreases |s|
  {
    if s != [] && IsWordChar(s[0]) {
      WordRunChars(s[1..]);
      assert forall i :: 0 < i < WordRun(s) ==> s[i] == s[1..][i - 1];
    }
  }

  /** Length of the longest prefix of `s` made of non-word characters. */
  function DelimiterRun(s: string): (n: nat)
    ensures n <= |s|
    ensures n < |s| ==> IsWordChar(s[n])
    decreases |s|
  {
    if s == [] || IsWordChar(s[0]) then 0 else 1 + DelimiterRun(s[1..])
  }

  lemma {:induction false} DelimiterRunChars(s: string)
    ensures forall i :: 0 <= i < DelimiterRun(s) ==> !IsWordChar(s[i])
    decreases |s|
  {
    if s != [] && !IsWordChar(s[0]) {
      DelimiterRunChars(s[1..]);
      assert forall i :: 0 < i < DelimiterRun(s) ==> s[i] == s[1..][i - 1];
    }
  }

  /** The index where the line after the first piece and its delimiter run
      resumes. */
  function Resume(s: string): (k: nat)
    requires WordRun(s) < |s|
    ensures WordRun(s) < k <= |s|
    ensures k < |s| ==> IsWordChar(s[k])
  {
    var w := WordRun(s);
    w + DelimiterRun(s[w..])
  }

  /** The substrings of `s` between its maximal runs of non-word characters,
      in order, before Java drops trailing empty strings.  The first piece is
      empty when `s` starts with a delimiter, the last when it ends with one. */
  function Pieces(s: string): (r: seq<string>)
    ensures |r| >= 1
    decreases |s|
  {
    var w := WordRun(s);
    if w == |s| then [s] else [s[..w]] + Pieces(s[Resume(s)..])
  }

  /** Java's `split` with limit 0 removes the trailing empty strings. */
  function DropTrailingEmpty(ps: seq<string>): (r: seq<string>)
    ensures |r| <= |ps| && r == ps[..|r|]
    ensures r == [] || r[|r| - 1] != []
    ensures forall i :: |r| <= i < |ps| ==> ps[i] == []
    decreases |ps|
  {
    if ps != [] && ps[|ps| - 1] == [] then DropTrailingEmpty(ps[..|ps| - 1]) else ps
  }

  predicate HasDelimiter(s: string) {
    exists i :: 0 <= i < |s| && !IsWordChar(s[i])
  }

  /** `s.split("\\W+")`: when the pattern never matches the result is `[s]`
      itself (so `""` gives `[""]`); otherwise the pieces between the matches
      with the trailing empty ones removed. */
  function Split(s: string): seq<string> {
    if HasDelimiter(s) then DropTrailingEmpty(Pieces(s)) else [s]
  }

  /** The pieces that pass `!word.trim().isEmpty()` (see `Text.BlankIffTrimEmpty`). */
  function NonBlank(ws: seq<string>): seq<string>
    decreases |ws|
  {
    if ws == [] then [] else KeepNonBlank(ws[0]) + NonBlank(ws[1..])
  }

  function KeepNonBlank(w: string): seq<string> {
    if !IsBlank(w) then [w] else []
  }

  /** The tokens of one line, in order. */
  function Tokens(line: string): seq<string> {
    NonBlank(Split(Lower(line)))
  }

  // ----- shape of the pieces -----

  predicate NoUpper(s: string) {
    forall i :: 0 <= i < |s| ==> !('A' <= s[i] <= 'Z')
  }

  /** The first piece and the pieces of the rest of the line. */
  lemma {:induction false} PiecesCons(s: string)
    requires WordRun(s) < |s|
    ensures Pieces(s) == [s[..WordRun(s)]] + Pieces(s[Resume(s)..])
  {
  }

  /** A line that starts with a word character has a non-empty first piece. */
  lemma {:induction false} PiecesHead(s: string)
    requires s != [] && IsWordChar(s[0])
    ensures Pieces(s)[0] != []
  {
    if WordRun(s) < |s| {
      PiecesCons(s);
      assert s[..WordRun(s)] != [];
    }
  }

  /** Every piece consists of word characters. */
  lemma {:induction false} PiecesWordChars(s: string)
    ensures forall i :: 0 <= i < |Pieces(s)| ==> AllWordChars(Pieces(s)[i])
    decreases |s|
  {
    var w := WordRun(s);
    WordRunChars(s);
    if w < |s| {
      var rest := s[Resume(s)..];
      PiecesCons(s);
      PiecesWordChars(rest);
      var p, tail := Pieces(s), Pieces(rest);
      forall i | 0 <= i < |p|
        ensures AllWordChars(p[i])
      {
        if i == 0 {
          assert forall j :: 0 <= j < w ==> s[..w][j] == s[j];
        } else {
          assert p[i] == tail[i - 1];
        }
      }
    }
  }

  /** Every piece other than the first and the last is non-empty. */
  lemma {:induction false} PiecesInnerNonEmpty(s: string)
    ensures forall i :: 0 < i < |Pieces(s)| - 1 ==> Pieces(s)[i] != []
    decreases |s|
  {
    var w := WordRun(s);
    if w < |s| {
      var rest := s[Resume(s)..];
      PiecesCons(s);
      PiecesInnerNonEmpty(rest);
      var p, tail := Pieces(s), Pieces(rest);
      forall i | 0 < i < |p| - 1
        ensures p[i] != []
      {
        assert p[i] == tail[i - 1];
        if i == 1 {
          assert rest != [];
          PiecesHead(rest);
        }
      }
    }
  }

  /** The pieces of a line without upper-case letters have none either. */
  lemma {:induction false} PiecesNoUpper(s: string)
    requires NoUpper(s)
    ensures forall i :: 0 <= i < |Pieces(s)| ==> NoUpper(Pieces(s)[i])
    decreases |s|
  {
    var w := WordRun(s);
    if w < |s| {
      var k := Resume(s);
      var rest := s[k..];
      PiecesCons(s);
      NoUpperSlice(s, k, |s|);
      assert s[k..|s|] == rest;
      PiecesNoUpper(rest);
      NoUpperSlice(s, 0, w);
      assert s[0..w] == s[..w];
      var p, tail := Pieces(s), Pieces(rest);
      assert forall i :: 0 < i < |p| ==> p[i] == tail[i - 1];
    } else {
      assert Pieces(s) == [s];
    }
  }

  lemma {:induction false} NoUpperSlice(s: string, a: nat, b: nat)
    requires a <= b <= |s| && NoUpper(s)
    ensures NoUpper(s[a..b])
  {
    assert forall j :: 0 <= j < b - a ==> s[a..b][j] == s[a + j];
  }

  /** Every element of `Split(s)` consists of word characters, and every
      element other than the first is non-empty. */
  lemma {:induction false} SplitShape(s: string)
    ensures forall i :: 0 <= i < |Split(s)| ==> AllWordChars(Split(s)[i])
    ensures forall i :: 0 < i < |Split(s)| ==> Split(s)[i] != []
    ensures NoUpper(s) ==> forall i :: 0 <= i < |Split(s)| ==> NoUpper(Split(s)[i])
  {
    if HasDelimiter(s) {
      PiecesWordChars(s);
      PiecesInnerNonEmpty(s);
      if NoUpper(s) {
        PiecesNoUpper(s);
      }
      var p := Pieces(s);
      var r := DropTrailingEmpty(p);
      assert forall i :: 0 <= i < |r| ==> r[i] == p[i];
    } else {
      assert forall i :: 0 <= i < |s| ==> IsWordChar(s[i]);
    }
  }

  /** A (lower-cased) line that starts with a delimiter and holds a word
      character yields an empty first piece, and the blank check discards
      exactly that piece. */
  lemma {:induction false} LeadingDelimiter(s: string, k: nat)
    requires s != [] && !IsWordChar(s[0])
    requires k < |s| && IsWordChar(s[k])
    ensures Split(s) != [] && Split(s)[0] == []
    ensures NonBlank(Split(s)) == NonBlank(Split(s)[1..])
  {
    assert HasDelimiter(s);
    assert WordRun(s) == 0;
    PiecesCons(s);
    var t := s[0..];
    assert t == s;
    DelimiterRunChars(t);
    var rest := s[Resume(s)..];
    assert Resume(s) <= k;
    PiecesHead(rest);
    assert s[..0] == [];
    var p := Pieces(s);
    assert p == [[]] + Pieces(rest);
    assert p[1] != [];
    var r := DropTrailingEmpty(p);
    assert |r| > 1;
    assert r == [r[0]] + r[1..];
  }

  // ----- what survives the blank check -----

  lemma {:induction false} NonBlankAppend(a: seq<string>, b: seq<string>)
    ensures NonBlank(a + b) == NonBlank(a) + NonBlank(b)
    decreases |a|
  {
    if a != [] {
      NonBlankAppend(a[1..], b);
      assert (a + b)[0] == a[0];
      assert (a + b)[1..] == a[1..] + b;
      calc {
        NonBlank(a + b);
        KeepNonBlank(a[0]) + NonBlank(a[1..] + b);
        KeepNonBlank(a[0]) + (NonBlank(a[1..]) + NonBlank(b));
        NonBlank(a) + NonBlank(b);
      }
    } else {
      assert a + b == b;
    }
  }

  lemma {:induction false} NonBlankElements(ws: seq<string>)
    ensures forall t :: t in NonBlank(ws) ==> t in ws && !IsBlank(t)
    decreases |ws|
  {
    if ws != [] {
      NonBlankElements(ws[1..]);
    }
  }

  lemma {:induction false} NonBlankOfEmpties(ws: seq<string>)
    requires forall i :: 0 <= i < |ws| ==> ws[i] == []
    ensures NonBlank(ws) == []
    decreases |ws|
  {
    if ws != [] {
      NonBlankOfEmpties(ws[1..]);
    }
  }

  /** Dropping trailing empty strings never changes what survives the blank check. */
  lemma {:induction false} NonBlankDropTrailingEmpty(ps: seq<string>)
    ensures NonBlank(DropTrailingEmpty(ps)) == NonBlank(ps)
  {
    var r := DropTrailingEmpty(ps);
    assert ps == r + ps[|r|..];
    NonBlankAppend(r, ps[|r|..]);
    NonBlankOfEmpties(ps[|r|..]);
  }

  /** Every token is a non-empty lower-case word over `[a-z0-9_]`; in
      particular no token is the empty string. */
  lemma {:induction false} TokensAreLowerWords(line: string)
    ensures forall t :: t in Tokens(line) ==> IsLowerWord(t)
  {
    var s := Lower(line);
    SplitShape(s);
    NonBlankElements(Split(s));
    forall t | t in Tokens(line)
      ensures IsLowerWord(t)
    {
      var i :| 0 <= i < |Split(s)| && Split(s)[i] == t;
      assert AllWordChars(t) && NoUpper(t);
    }
  }

  // ----- an independent reference tokenizer -----

  function Flush(cur: string): seq<string> {
    if cur == [] then [] else [cur]
  }

  /** One left-to-right pass over `s` that accumulates the current word in
      `cur` and emits it at each non-word character and at the end. */
  function ScanWords(s: string, cur: string): seq<string>
    decreases |s|
  {
    if s == [] then Flush(cur)
    else if IsWordChar(s[0]) then ScanWords(s[1..], cur + [s[0]])
    else Flush(cur) + ScanWords(s[1..], [])
  }

  /** The maximal runs of word characters of `s`, in order. */
  function Words(s: string): seq<string> {
    ScanWords(s, [])
  }

  lemma {:induction false} ScanWordRun(s: string, cur: string, w: nat)
    requires w <= |s| && forall i :: 0 <= i < w ==> IsWordChar(s[i])
    ensures ScanWords(s, cur) == ScanWords(s[w..], cur + s[..w])
    decreases w
  {
    if w > 0 {
      var c, t := s[0], s[1..];
      assert IsWordChar(c);
      assert ScanWords(s, cur) == ScanWords(t, cur + [c]);
      assert forall i :: 0 <= i < w - 1 ==> IsWordChar(t[i]) by {
        assert forall i :: 0 <= i < w - 1 ==> t[i] == s[i + 1];
      }
      ScanWordRun(t, cur + [c], w - 1);
      assert t[w - 1..] == s[w..];
      assert s[..w] == [c] + t[..w - 1];
      assert (cur + [c]) + t[..w - 1] == cur + ([c] + t[..w - 1]);
    } else {
      assert s[w..] == s && cur + s[..w] == cur;
    }
  }

  lemma {:induction false} ScanDelimiterRun(s: string, d: nat)
    requires d <= |s| && forall i :: 0 <= i < d ==> !IsWordChar(s[i])
    ensures ScanWords(s, []) == ScanWords(s[d..], [])
    decreases d
  {
    if d > 0 {
      ScanDelimiterRun(s[1..], d - 1);
      assert s[1..][d - 1..] == s[d..];
    }
  }

  /** The scan passes over a whole delimiter run without emitting anything. */
  lemma {:induction false} SkipDelimiterRun(t: string)
    ensures ScanWords(t, []) == ScanWords(t[DelimiterRun(t)..], [])
  {
    DelimiterRunChars(t);
    ScanDelimiterRun(t, DelimiterRun(t));
  }

  /** The scan emits the first run of word characters when it reaches the
      delimiter that ends it. */
  lemma {:induction false} ScanFirstWord(s: string)
    requires WordRun(s) < |s|
    ensures ScanWords(s, []) == Flush(s[..WordRun(s)]) + ScanWords(s[WordRun(s) + 1..], [])
  {
    var w := WordRun(s);
    var t := s[w..];
    WordRunChars(s);
    ScanWordRun(s, [], w);
    assert [] + s[..w] == s[..w];
    assert t[0] == s[w] && t[1..] == s[w + 1..];
  }

  /** After the delimiter that ends a word the scan skips the rest of the
      delimiter run. */
  lemma {:induction false} ScanRestOfDelimiters(t: string)
    requires t != [] && !IsWordChar(t[0])
    ensures ScanWords(t[1..], []) == ScanWords(t[DelimiterRun(t)..], [])
  {
    var u := t[1..];
    assert DelimiterRun(t) == 1 + DelimiterRun(u);
    SkipDelimiterRun(u);
    assert u[DelimiterRun(u)..] == t[DelimiterRun(t)..];
  }

  /** The same, for a delimiter at index `w` of a longer string. */
  lemma {:induction false} ScanRestOfDelimitersAt(s: string, w: nat)
    requires w < |s| && !IsWordChar(s[w])
    ensures ScanWords(s[w + 1..], []) == ScanWords(s[w + DelimiterRun(s[w..])..], [])
  {
    var t := s[w..];
    ScanRestOfDelimiters(t);
    DropDrop(s, w, 1);
    DropDrop(s, w, DelimiterRun(t));
  }

  /** The scan emits the first run of word characters (if any) and resumes
      after the delimiter run that follows it. */
  lemma {:induction false} WordsResume(s: string)
    requires WordRun(s) < |s|
    ensures Words(s) == Flush(s[..WordRun(s)]) + Words(s[Resume(s)..])
  {
    ScanFirstWord(s);
    ScanRestOfDelimitersAt(s, WordRun(s));
  }

  lemma {:induction false} DropDrop(s: string, a: nat, b: nat)
    requires a + b <= |s|
    ensures s[a..][b..] == s[a + b..]
  {
  }

  /** A run of word characters is emitted by the scan exactly when it passes
      the blank check. */
  lemma {:induction false} FlushIsNonBlank(x: string)
    requires AllWordChars(x)
    ensures Flush(x) == NonBlank([x])
  {
    WordBlank(x);
    assert [x][1..] == [];
  }

  lemma {:induction false} PiecesMatchScan(s: string)
    ensures NonBlank(Pieces(s)) == Words(s)
    decreases |s|
  {
    var w := WordRun(s);
    WordRunChars(s);
    FlushIsNonBlank(s[..w]);
    if w == |s| {
      ScanWordRun(s, [], w);
      assert s[w..] == [] && [] + s[..w] == s && s[..w] == s;
    } else {
      var rest := s[Resume(s)..];
      WordsResume(s);
      PiecesCons(s);
      PiecesMatchScan(rest);
      NonBlankAppend([s[..w]], Pieces(rest));
    }
  }

  /** The tokens of a line are exactly the maximal runs of word characters of
      the lower-cased line: splitting on `\W+` and discarding blank pieces
      agrees with a single left-to-right scan. */
  lemma {:induction false} TokensMatchScan(line: string)
    ensures Tokens(line) == Words(Lower(line))
  {
    var s := Lower(line);
    PiecesMatchScan(s);
    if HasDelimiter(s) {
      NonBlankDropTrailingEmpty(Pieces(s));
    } else {
      assert WordRun(s) == |s|;
    }
  }

  /** A word followed by a delimiter contributes exactly that word. */
  lemma {:induction false} WordsCons(w: string, d: char, rest: string)
    requires w != [] && AllWordChars(w) && !IsWordChar(d)
    ensures Words(w + ([d] + rest)) == [w] + Words(rest)
  {
    var s := w + ([d] + rest);
    ScanWordRun(s, [], |w|);
    assert s[|w|..] == [d] + rest && [] + s[..|w|] == w;
    assert ([d] + rest)[1..] == rest;
  }

  /** A delimiter with no word before it contributes nothing. */
  lemma {:induction false} WordsSkip(d: char, rest: string)
    requires !IsWordChar(d)
    ensures Words([d] + rest) == Words(rest)
  {
    assert ([d] + rest)[1..] == rest;
  }
}
