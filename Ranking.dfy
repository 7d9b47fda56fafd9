/** Presentation of the tag table: the ranked listing of `displayTags`, the
    `"<tag>: <count>"` line format shared by the listing and by
    `saveTagsToFile`, and the functions that read such lines back. */
module Ranking {
  import opened Text

  /** One `Map.Entry<String, Integer>` of the tag table. */
  datatype Entry = Entry(tag: string, count: nat)

  /** `order` lists every key of `m` exactly once.  Java leaves the iteration
      order of a `HashMap` unspecified, so every operation that walks the map
      takes that order as a parameter constrained only by this predicate. */
  predicate Enumerates(order: seq<string>, m: map<string, nat>) {
    && multiset(order) == multiset(m.Keys)
    // implied by the line above; spelled out for the index-based definitions
    && forall i :: 0 <= i < |order| ==> order[i] in m
  }

  /** The entries of `m` visited in `order`. */
  function Entries(m: map<string, nat>, order: seq<string>): seq<Entry>
    requires forall i :: 0 <= i < |order| ==> order[i] in m
  {
    seq(|order|, i requires 0 <= i < |order| => Entry(order[i], m[order[i]]))
  }

  /** The entries of `m`, as a set. */
  function EntrySet(m: map<string, nat>): set<Entry> {
    set k | k in m :: Entry(k, m[k])
  }

  predicate NonIncreasing(es: seq<Entry>) {
    forall i, j :: 0 <= i < j < |es| ==> es[i].count >= es[j].count
  }

  // ----- the ranked listing -----

  function Insert(e: Entry, s: seq<Entry>): (r: seq<Entry>)
    requires NonIncreasing(s)
    ensures NonIncreasing(r)
    ensures multiset(r) == multiset(s) + multiset{e}
    ensures r[0] == e || (s != [] && r[0] == s[0])
    decreases |s|
  {
    if s == [] || s[0].count <= e.count then
      InsertCons(e, s);
      [e] + s
    else
      var t := Insert(e, s[1..]);
      InsertBehind(s, e, t);
      [s[0]] + t
  }

  /** An entry with a smaller count than the head goes behind the head. */
  lemma {:induction false} InsertBehind(s: seq<Entry>, e: Entry, t: seq<Entry>)
    requires s != [] && NonIncreasing(s) && s[0].count > e.count
    requires NonIncreasing(t) && multiset(t) == multiset(s[1..]) + multiset{e}
    requires t != [] && (t[0] == e || (s[1..] != [] && t[0] == s[1..][0]))
    ensures NonIncreasing([s[0]] + t)
    ensures multiset([s[0]] + t) == multiset(s) + multiset{e}
  {
    assert s == [s[0]] + s[1..];
    assert s[0].count >= t[0].count by {
      if t[0] != e { assert t[0] == s[1]; }
    }
    InsertCons(s[0], t);
  }

  lemma {:induction false} InsertCons(h: Entry, t: seq<Entry>)
    requires NonIncreasing(t)
    requires t != [] ==> h.count >= t[0].count
    ensures NonIncreasing([h] + t)
  {
    var r := [h] + t;
    forall i, j | 0 <= i < j < |r|
      ensures r[i].count >= r[j].count
    {
      if i == 0 && j > 1 {
        assert t[0].count >= t[j - 1].count;
      }
    }
  }

  /** Sorting by count, largest first (`comparingByValue().reversed()`). */
  function SortByCount(es: seq<Entry>): (r: seq<Entry>)
    ensures NonIncreasing(r)
    ensures multiset(r) == multiset(es)
    decreases |es|
  {
    if es == [] then []
    else
      assert es == [es[0]] + es[1..];
      Insert(es[0], SortByCount(es[1..]))
  }

  /** The ranked listing of `displayTags`: every entry of the table exactly
      once, counts non-increasing.  The order among equal counts is whatever
      the sort makes of the map's iteration order; no tie order is promised. */
  function Ranked(m: map<string, nat>, order: seq<string>): (r: seq<Entry>)
    requires Enumerates(order, m)
    ensures NonIncreasing(r)
    ensures multiset(r) == multiset(EntrySet(m))
  {
    EnumeratedEntries(m, order);
    SortByCount(Entries(m, order))
  }

  lemma {:induction false} EntriesOfDistinct(m: map<string, nat>, o: seq<string>)
    requires forall i :: 0 <= i < |o| ==> o[i] in m
    requires forall x :: multiset(o)[x] <= 1
    ensures multiset(Entries(m, o)) == multiset(set k | k in o :: Entry(k, m[k]))
    decreases |o|
  {
    if o != [] {
      var init, k := o[..|o| - 1], o[|o| - 1];
      assert o == init + [k];
      assert multiset(o) == multiset(init) + multiset{k};
      assert forall x :: multiset(init)[x] <= multiset(o)[x];
      EntriesOfDistinct(m, init);
      assert Entries(m, o) == Entries(m, init) + [Entry(k, m[k])];
      var prev := set j | j in init :: Entry(j, m[j]);
      assert multiset(init)[k] == 0;
      assert k !in init;
      assert Entry(k, m[k]) !in prev;
      assert (set j | j in o :: Entry(j, m[j])) == prev + {Entry(k, m[k])};
    }
  }

  /** Walking the map in any iteration order visits each of its entries
      exactly once. */
  lemma {:induction false} EnumeratedEntries(m: map<string, nat>, order: seq<string>)
    requires Enumerates(order, m)
    ensures forall i :: 0 <= i < |order| ==> order[i] in m
    ensures multiset(Entries(m, order)) == multiset(EntrySet(m))
  {
    assert forall i :: 0 <= i < |order| ==> order[i] in multiset(order);
    assert forall x :: multiset(order)[x] <= 1;
    EntriesOfDistinct(m, order);
    assert forall k :: k in order <==> k in m by {
      assert forall k :: k in order <==> k in multiset(order);
    }
    assert (set k | k in order :: Entry(k, m[k])) == EntrySet(m);
  }

  // ----- the line format -----

  /** A tag that can be written on a line and read back: no `:` and no line break. */
  predicate Plain(tag: string) {
    forall i :: 0 <= i < |tag| ==> tag[i] != ':' && tag[i] != '\n'
  }

  /** `entry.getKey() + ": " + entry.getValue()`. */
  function FormatLine(e: Entry): string {
    e.tag + ": " + NatToString(e.count)
  }

  /** One line per entry, in the given order. */
  function Lines(es: seq<Entry>): seq<string> {
    seq(|es|, i requires 0 <= i < |es| => FormatLine(es[i]))
  }

  /** Reads one `"<tag>: <count>"` line: the tag runs up to the first `:`. */
  function ParseLine(line: string): Option<Entry> {
    var i := IndexOf(line, ':');
    if i + 2 < |line| && line[i + 1] == ' '
       && forall j :: i + 2 <= j < |line| ==> IsDigit(line[j])
    then Some(Entry(line[..i], DigitsValue(line[i + 2..])))
    else None
  }

  /** Reads a whole tag file back into a table; a later line for the same tag wins. */
  function Decode(lines: seq<string>): Option<map<string, nat>>
    decreases |lines|
  {
    if lines == [] then Some(map[])
    else
      match (Decode(lines[..|lines| - 1]), ParseLine(lines[|lines| - 1]))
      case (Some(m), Some(e)) => Some(m[e.tag := e.count])
      case _ => None
  }

  /** Every formatted line reads back as the entry it was made from. */
  lemma {:induction false} ParseFormatLine(e: Entry)
    requires Plain(e.tag)
    ensures ParseLine(FormatLine(e)) == Some(e)
  {
    var digits := NatToString(e.count);
    var line := FormatLine(e);
    assert line == e.tag + [':'] + ([' '] + digits);
    IndexOfAfter(e.tag, ':', [' '] + digits);
    assert line[|e.tag| + 2..] == digits;
    assert line[..|e.tag|] == e.tag;
    DigitsValueOfNatToString(e.count);
  }

  /** Distinct entries with plain tags give distinct lines. */
  lemma {:induction false} FormatLineInjective(e1: Entry, e2: Entry)
    requires Plain(e1.tag) && Plain(e2.tag)
    ensures FormatLine(e1) == FormatLine(e2) <==> e1 == e2
  {
    ParseFormatLine(e1);
    ParseFormatLine(e2);
  }

  lemma {:induction false} DecodeLinesOf(m: map<string, nat>, o: seq<string>)
    requires forall i :: 0 <= i < |o| ==> o[i] in m && Plain(o[i])
    ensures Decode(Lines(Entries(m, o))) == Some(map k | k in o :: m[k])
    decreases |o|
  {
    var ls := Lines(Entries(m, o));
    if o == [] {
      assert ls == [];
    } else {
      var init, k := o[..|o| - 1], o[|o| - 1];
      DecodeLinesOf(m, init);
      assert ls[..|ls| - 1] == Lines(Entries(m, init));
      assert ls[|ls| - 1] == FormatLine(Entry(k, m[k]));
      ParseFormatLine(Entry(k, m[k]));
      assert (map j | j in init :: m[j])[k := m[k]] == map j | j in o :: m[j] by {
        assert o == init + [k];
      }
    }
  }

  /** Saving round-trips: reading back the lines written for `m` in any
      iteration order gives back `m`. */
  lemma {:induction false} DecodeSavedLines(m: map<string, nat>, order: seq<string>)
    requires Enumerates(order, m)
    requires forall k :: k in m ==> Plain(k)
    ensures Decode(Lines(Entries(m, order))) == Some(m)
  {
    EnumeratedEntries(m, order);
    DecodeLinesOf(m, order);
    assert forall k :: k in order <==> k in multiset(order);
    assert (map k | k in order :: m[k]) == m;
  }

  lemma {:induction false} LineMultiplicity(m: map<string, nat>, o: seq<string>, k: string)
    requires forall i :: 0 <= i < |o| ==> o[i] in m && Plain(o[i])
    requires k in m && Plain(k)
    ensures multiset(Lines(Entries(m, o)))[FormatLine(Entry(k, m[k]))] == multiset(o)[k]
    decreases |o|
  {
    if o != [] {
      var init, j := o[..|o| - 1], o[|o| - 1];
      assert o == init + [j];
      LineMultiplicity(m, init, k);
      assert Lines(Entries(m, o)) == Lines(Entries(m, init)) + [FormatLine(Entry(j, m[j]))];
      FormatLineInjective(Entry(j, m[j]), Entry(k, m[k]));
    } else {
      assert Lines(Entries(m, o)) == [];
    }
  }

  /** The saved file holds exactly one line per entry of the table, and
      nothing else. */
  lemma {:induction false} SavedLinesExact(m: map<string, nat>, order: seq<string>)
    requires Enumerates(order, m)
    requires forall k :: k in m ==> Plain(k)
    ensures forall i :: 0 <= i < |order| ==> order[i] in m
    ensures |Lines(Entries(m, order))| == |m|
    ensures forall k :: k in m ==> multiset(Lines(Entries(m, order)))[FormatLine(Entry(k, m[k]))] == 1
  {
    EnumeratedEntries(m, order);
    assert |order| == |multiset(order)| == |m.Keys|;
    forall k | k in m
      ensures multiset(Lines(Entries(m, order)))[FormatLine(Entry(k, m[k]))] == 1
    {
      LineMultiplicity(m, order, k);
      assert multiset(m.Keys)[k] == 1;
    }
  }

  // ----- the text of the listing -----

  /** The text `displayTags` builds: each line followed by `"\n"`. */
  function Render(es: seq<Entry>): string
    decreases |es|
  {
    if es == [] then [] else FormatLine(es[0]) + "\n" + Render(es[1..])
  }

  /** The lines of a text, each ended by `"\n"` (a last unterminated line counts too). */
  function LinesOf(text: string): seq<string>
    decreases |text|
  {
    if text == [] then []
    else
      var i := IndexOf(text, '\n');
      if i < |text| then [text[..i]] + LinesOf(text[i + 1..]) else [text]
  }

  /** A formatted line never holds a line break. */
  lemma {:induction false} FormatLineNoBreak(e: Entry)
    requires Plain(e.tag)
    ensures forall j :: 0 <= j < |FormatLine(e)| ==> FormatLine(e)[j] != '\n'
  {
    var digits := NatToString(e.count);
    assert forall j :: 0 <= j < |digits| ==> IsDigit(digits[j]);
  }

  /** A line without a line break, its `"\n"` and the rest of a text. */
  lemma {:induction false} LinesOfLine(line: string, rest: string)
    requires forall j :: 0 <= j < |line| ==> line[j] != '\n'
    ensures LinesOf(line + "\n" + rest) == [line] + LinesOf(rest)
  {
    var t := line + "\n" + rest;
    assert t == line + ['\n'] + rest;
    IndexOfAfter(line, '\n', rest);
    assert t[..|line|] == line;
    assert t[|line| + 1..] == rest;
  }

  /** The first entry of a listing contributes exactly its own line. */
  lemma {:induction false} RenderCons(e: Entry, es: seq<Entry>)
    requires Plain(e.tag)
    ensures LinesOf(Render([e] + es)) == [FormatLine(e)] + LinesOf(Render(es))
  {
    assert ([e] + es)[0] == e && ([e] + es)[1..] == es;
    FormatLineNoBreak(e);
    LinesOfLine(FormatLine(e), Render(es));
  }

  /** The listing shows exactly one formatted line per entry, in order. */
  lemma {:induction false} LinesOfRender(es: seq<Entry>)
    requires forall i :: 0 <= i < |es| ==> Plain(es[i].tag)
    ensures LinesOf(Render(es)) == Lines(es)
    decreases |es|
  {
    if es != [] {
      RenderCons(es[0], es[1..]);
      assert es == [es[0]] + es[1..];
      LinesOfRender(es[1..]);
      assert Lines(es) == [FormatLine(es[0])] + Lines(es[1..]);
    } else {
      assert Lines(es) == [];
    }
  }
}
