/** The frequency table that `scanFile` builds in `tagMap`. */
module Frequency {

  /** The occurrence counts of `ts`: each distinct element maps to the number
      of times it occurs in `ts`. */
  function Frequencies(ts: seq<string>): map<string, nat> {
    map t | t in multiset(ts) :: multiset(ts)[t]
  }

  /** `tagMap.merge(word, 1, Integer::sum)`: a new word enters with 1, a
      known word has its count raised by 1. */
  function Merge(m: map<string, nat>, w: string): map<string, nat> {
    m[w := if w in m then m[w] + 1 else 1]
  }

  /** The keys are exactly the distinct elements, and every count is the
      element's number of occurrences, hence at least 1. */
  lemma {:induction false} FrequenciesCount(ts: seq<string>)
    ensures forall k :: k in Frequencies(ts) <==> k in ts
    ensures forall k :: k in Frequencies(ts) ==> Frequencies(ts)[k] == multiset(ts)[k] >= 1
  {
  }

  /** Merging one more word into the table of `ts` gives the table of `ts`
      extended by that word: this is what the scan loop relies on. */
  lemma {:induction false} FrequenciesSnoc(ts: seq<string>, t: string)
    ensures Frequencies(ts + [t]) == Merge(Frequencies(ts), t)
  {
    var a, b := Frequencies(ts + [t]), Merge(Frequencies(ts), t);
    assert multiset(ts + [t]) == multiset(ts) + multiset{t};
    assert a.Keys == b.Keys;
    forall k | k in a
      ensures a[k] == b[k]
    {
    }
  }

  /** The sum of all counts of a table. */
  ghost function Sum(m: map<string, nat>): nat
    decreases |m|
  {
    if m == map[] then 0
    else
      var k :| k in m;
      assert |m - {k}| == |m| - 1 by {
        assert (m - {k}).Keys == m.Keys - {k};
      }
      m[k] + Sum(m - {k})
  }

  /** `Sum` does not depend on which key it takes out first. */
  lemma {:induction false} SumRemove(m: map<string, nat>, k: string)
    requires k in m
    ensures Sum(m) == m[k] + Sum(m - {k})
    decreases |m|
  {
    var j :| j in m && Sum(m) == m[j] + Sum(m - {j});
    if j != k {
      assert (m - {j}).Keys == m.Keys - {j};
      assert (m - {k}).Keys == m.Keys - {k};
      SumRemove(m - {j}, k);
      SumRemove(m - {k}, j);
      assert m - {j} - {k} == m - {k} - {j};
    }
  }

  /** Every merge adds exactly 1 to the sum of the counts. */
  lemma {:induction false} SumMerge(m: map<string, nat>, w: string)
    ensures Sum(Merge(m, w)) == Sum(m) + 1
  {
    var r := Merge(m, w);
    SumRemove(r, w);
    if w in m {
      SumRemove(m, w);
      assert r - {w} == m - {w};
    } else {
      assert r - {w} == m;
    }
  }

  /** The counts of the table add up to the number of words counted. */
  lemma {:induction false} SumOfFrequencies(ts: seq<string>)
    ensures Sum(Frequencies(ts)) == |ts|
    decreases |ts|
  {
    if ts == [] {
      assert Frequencies(ts) == map[];
    } else {
      var init, t := ts[..|ts| - 1], ts[|ts| - 1];
      assert ts == init + [t];
      SumOfFrequencies(init);
      FrequenciesSnoc(init, t);
      SumMerge(Frequencies(init), t);
    }
  }
}
