/** The stop-word set of `loadStopWords`: every line of the stop-word file,
    trimmed and lower-cased. */
module StopWords {
  import opened Text
  import opened Tokenizer

  /** `line.trim().toLowerCase()`. */
  function Normalize(line: string): string {
    Lower(Trim(line))
  }

  /** The set that loading the stop-word file `lines` leaves behind. */
  function StopSet(lines: seq<string>): set<string> {
    set l | l in lines :: Normalize(l)
  }

  lemma {:induction false} TrimOfTrimmed(s: string)
    requires s == [] || (s[0] > ' ' && s[|s| - 1] > ' ')
    ensures Trim(s) == s
  {
    assert TrimStart(s) == s;
  }

  /** Trimming twice is trimming once. */
  lemma {:induction false} TrimIdempotent(s: string)
    ensures Trim(Trim(s)) == Trim(s)
  {
    var a := TrimStart(s);
    var t := TrimEnd(a);
    assert t == [] || t[0] == a[0];
    TrimOfTrimmed(t);
  }

  /** Stop words are stored normalised: nothing to trim, nothing to lower. */
  lemma {:induction false} StopWordsNormalized(lines: seq<string>)
    ensures forall w :: w in StopSet(lines) ==> Trim(w) == w && Lower(w) == w
  {
    forall w | w in StopSet(lines)
      ensures Trim(w) == w && Lower(w) == w
    {
      var l :| l in lines && Normalize(l) == w;
      TrimLowerCommute(l);
      TrimIdempotent(Lower(l));
      LowerIdempotent(Trim(l));
    }
  }

  /** Membership is case-insensitive by construction: two stop-word lines that
      differ only in the case of ASCII letters give the same stop word. */
  lemma {:induction false} NormalizeIgnoresCase(l1: string, l2: string)
    requires Lower(l1) == Lower(l2)
    ensures Normalize(l1) == Normalize(l2)
  {
    TrimLowerCommute(l1);
    TrimLowerCommute(l2);
  }

  /** A blank line of the stop-word file contributes the empty string, and
      only a blank line does; the empty string is never a token, so it never
      filters anything. */
  lemma {:induction false} BlankStopWord(lines: seq<string>, line: string)
    ensures "" in StopSet(lines) <==> exists l :: l in lines && IsBlank(l)
    ensures "" !in Tokens(line)
  {
    forall l | l in lines
      ensures Normalize(l) == "" <==> IsBlank(l)
    {
      BlankIffTrimEmpty(l);
    }
    TokensAreLowerWords(line);
  }
}
