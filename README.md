# Tag Extractor — a verified model of its word-frequency engine

`TagExtractor.java` is a small Swing application. The user picks a text file and a
stop-word file, and the application shows how often each word ("tag") of the
text occurs, largest counts first. It can also save the table to a file. The
engine behind the window is what this project models:

- **tokenizer** (`scanFile`, lines 86-88): each line is lower-cased, split on
  maximal runs of non-word characters exactly as Java's `String.split("\\W+")`
  does, and the pieces that are blank after `trim()` are discarded
  (module `Tokenizer`, on the character functions of module `Text`);
- **stop words** (`loadStopWords`): the set is cleared, then every line is
  added trimmed and lower-cased (module `StopWords`, method
  `Session.LoadStopWords`);
- **frequency scan** (`scanFile`): the table is cleared, then every token that
  is not a stop word has its count raised with `merge(word, 1, Integer::sum)`
  (module `Frequency`, method `Session.ScanFile`);
- **presentation** (`displayTags`): the entries sorted by count, descending,
  one `"<tag>: <count>"` line each (module `Ranking`, method
  `Session.DisplayTags`);
- **saving** (`saveTagsToFile`): refused unless a text file has been chosen and
  the table is non-empty, otherwise one `"<tag>: <count>"` line per entry
  (method `Session.SaveTags`).

The three fields `tagMap`, `stopWords` and `textFile` become the class
`TagExtractor.Session`. `textFile` becomes the flag `hasTextFile`, because only
`textFile != null` matters to the logic. The methods that change the fields
have the source's loops. Each is proved against a function that defines its result:

- `ScanTokens(lines, stop)` is the sequence of words the scan counts;
- `Frequencies` gives their occurrence counts;
- `StopSet` is the stop-word set;
- `Ranked` is the listing, with `Render` its text;
- `Lines(Entries(...))` is the saved file.

The properties of these functions are proved as lemmas. Module `Example`
works through a concrete scenario. The stop words `the` and
`on` and the line `The Cat sat on the MAT. The cat ran.` give
{cat: 2, sat: 1, mat: 1, ran: 1}.

Modelling choices:

- A file's contents are the sequence of lines `readLine` returns. An I/O error
  is a flag `failed`, and `lines` are then the lines read before the error.
  Both `scanFile` and `loadStopWords` clear their field before reading. So,
  as in the source, the field is left holding the result for the lines read,
  and the method's result only reports whether the read completed.
- Java leaves the iteration order of a `HashMap` unspecified. Every operation
  that walks the table therefore takes an iteration order `order`, constrained
  by `Ranking.Enumerates` to list every key exactly once.
- Word characters are `[A-Za-z0-9_]`, as `\W` means in Java's default regex
  mode. Lower-casing is ASCII. `trim` removes characters up to and including
  `' '`, as Java's does.
- Integers are unbounded (`nat`).

Behaviours of the code that the model keeps as they are:

- `scanFile` and `loadStopWords` clear `tagMap` and `stopWords` before
  reading (lines 82 and 100), so a read that fails part-way leaves the table
  for the lines read so far.
- The listing sorts a `HashMap` stream, which has no defined encounter order.
  So the order of entries with equal counts is not fixed: the model promises
  that the listing is a permutation of the entries in non-increasing count
  order.
- Saving writes the entries in the map's iteration order (line 126), not in
  ranked order.

## Model

| member | source | states |
|---|---|---|
| `Text.Lower` | TagExtractor.java:86 | `toLowerCase`, ASCII: defines the lower-casing; its properties are `Text.LowerOfWordChars`, `Text.LowerIdempotent`, `Text.LowerAppend` and `Text.TrimLowerCommute` |
| `Text.Trim` | TagExtractor.java:104 | `trim`: defines the trimming as `Text.TrimStart` then `Text.TrimEnd`, whose contracts state what is removed; `StopWords.TrimIdempotent` and `Text.TrimLowerCommute` are proved about it |
| `Text.IsBlank` | TagExtractor.java:88 | `word.trim().isEmpty()`: defines the blank check; `Text.BlankIffTrimEmpty` proves it equals the emptiness of `Text.Trim` |
| `Text.LowerOfWordChars` | TagExtractor.java:86 | lower-casing a string of word characters leaves only `[a-z0-9_]` |
| `Text.LowerIdempotent` | TagExtractor.java:86 | lower-casing twice is lower-casing once |
| `Text.LowerAppend` | TagExtractor.java:86 | lower-casing distributes over concatenation |
| `Text.TrimStart` | TagExtractor.java:104 | the result is a suffix of the input; every removed character is at most `' '`; the result is empty or starts above `' '` |
| `Text.TrimEnd` | TagExtractor.java:104 | the result is a prefix of the input; every removed character is at most `' '`; the result is empty or ends above `' '` |
| `Text.BlankIffTrimEmpty` | TagExtractor.java:88 | `word.trim().isEmpty()` holds exactly when every character of the word is at most `' '` |
| `Text.TrimLowerCommute` | TagExtractor.java:104 | trimming and ASCII lower-casing commute |
| `Text.NatToString` | TagExtractor.java:115 | the decimal text of a count is non-empty, all digits, and has no leading zero |
| `Text.DigitsValueOfNatToString` | TagExtractor.java:115 | reading back the decimal text of a count gives the count |
| `Tokenizer.WordRun` | TagExtractor.java:86 | the length of the leading run of word characters: within the string, and followed by a non-word character or the end (that the run holds only word characters is `Tokenizer.WordRunChars`) |
| `Tokenizer.WordRunChars` | TagExtractor.java:86 | every character of the leading run `Tokenizer.WordRun` measures is a word character |
| `Tokenizer.DelimiterRun` | TagExtractor.java:86 | the length of the leading match of `\W+`: within the string, and followed by a word character or the end (that the match holds only non-word characters is `Tokenizer.DelimiterRunChars`) |
| `Tokenizer.DelimiterRunChars` | TagExtractor.java:86 | every character of the leading delimiter run `Tokenizer.DelimiterRun` measures is a non-word character |
| `Tokenizer.Pieces` | TagExtractor.java:86 | the substrings between maximal delimiter runs, at least one; their shape is `Tokenizer.PiecesWordChars`, `Tokenizer.PiecesInnerNonEmpty` and `Tokenizer.PiecesNoUpper`, and `Tokenizer.PiecesMatchScan` ties them to an independent scan |
| `Tokenizer.Split` | TagExtractor.java:86 | `split("\\W+")` with limit 0: `[s]` when nothing matches, otherwise the pieces without trailing empty strings; its shape is `Tokenizer.SplitShape` and `Tokenizer.LeadingDelimiter` |
| `Tokenizer.NonBlank` | TagExtractor.java:88 | the pieces that pass the blank check, in order; `Tokenizer.NonBlankElements` and `Tokenizer.NonBlankDropTrailingEmpty` are proved about it |
| `Tokenizer.Tokens` | TagExtractor.java:86-88 | the non-blank pieces of the lower-cased line; `Tokenizer.TokensAreLowerWords` bounds them and `Tokenizer.TokensMatchScan` equates them with the word runs of the lower-cased line |
| `Tokenizer.DropTrailingEmpty` | TagExtractor.java:86 | `split` drops exactly the trailing empty strings: the result is a prefix, it does not end in `""`, and everything dropped is `""` |
| `Tokenizer.PiecesWordChars` | TagExtractor.java:86 | every piece between delimiters is made of word characters |
| `Tokenizer.PiecesInnerNonEmpty` | TagExtractor.java:86 | every piece except the first and the last is non-empty |
| `Tokenizer.PiecesNoUpper` | TagExtractor.java:86 | the pieces of a lower-cased line have no upper-case letter |
| `Tokenizer.SplitShape` | TagExtractor.java:86 | every element of `split("\\W+")` is made of word characters, and every element except the first is non-empty |
| `Tokenizer.LeadingDelimiter` | TagExtractor.java:86-88 | a line that starts with a delimiter and holds a word character yields an empty first piece, and the blank check discards exactly that piece |
| `Tokenizer.NonBlankDropTrailingEmpty` | TagExtractor.java:86-88 | dropping trailing empty pieces never changes what passes the blank check |
| `Tokenizer.NonBlankElements` | TagExtractor.java:88 | every word that passes the blank check is one of the pieces and is not blank |
| `Tokenizer.TokensAreLowerWords` | TagExtractor.java:86-88 | every token is a non-empty word over `[a-z0-9_]`; no token is `""` |
| `Tokenizer.WordsResume` | TagExtractor.java:86 | the scan emits the first run of word characters, if any, and resumes after the delimiter run that follows it |
| `Tokenizer.PiecesMatchScan` | TagExtractor.java:86-88 | the pieces between delimiter runs that pass the blank check are exactly the words of the scan |
| `Tokenizer.TokensMatchScan` | TagExtractor.java:86-88 | the tokens of a line are exactly the maximal runs of word characters of the lower-cased line, as found by an independent left-to-right scan |
| `Tokenizer.WordsCons` | TagExtractor.java:86 | a word followed by a delimiter contributes exactly that word to the scan |
| `Tokenizer.WordsSkip` | TagExtractor.java:86 | a delimiter with no word before it contributes nothing |
| `StopWords.Normalize` | TagExtractor.java:104 | `line.trim().toLowerCase()`; `StopWords.NormalizeIgnoresCase` and `StopWords.StopWordsNormalized` are proved about it |
| `StopWords.StopSet` | TagExtractor.java:100-104 | the set of normalized lines; `TagExtractor.Session.LoadStopWords` builds it and `StopWords.BlankStopWord` characterises its `""` member |
| `StopWords.TrimIdempotent` | TagExtractor.java:104 | trimming twice is trimming once |
| `StopWords.StopWordsNormalized` | TagExtractor.java:104 | every stored stop word is already trimmed and lower-case |
| `StopWords.NormalizeIgnoresCase` | TagExtractor.java:104 | two stop-word lines that differ only in ASCII case give the same stop word |
| `StopWords.BlankStopWord` | TagExtractor.java:100-104 | `""` is a stop word exactly when the file has a blank line; `""` is never a token, so it never filters anything |
| `Frequency.Frequencies` | TagExtractor.java:85-91 | the table of occurrence counts of a word sequence; `Frequency.FrequenciesCount` states its keys and counts and `Frequency.FrequenciesSnoc` ties it to `Frequency.Merge` |
| `Frequency.Merge` | TagExtractor.java:89 | `merge(word, 1, Integer::sum)`; `Frequency.FrequenciesSnoc` and `Frequency.SumMerge` are proved about it |
| `Frequency.Sum` | TagExtractor.java:89 | the sum of a table's counts; `Frequency.SumRemove`, `Frequency.SumMerge` and `Frequency.SumOfFrequencies` are proved about it |
| `Frequency.FrequenciesCount` | TagExtractor.java:89 | the keys of the table are exactly the counted words, and each count is the word's number of occurrences, at least 1 |
| `Frequency.FrequenciesSnoc` | TagExtractor.java:89 | `merge(word, 1, Integer::sum)` on the table of `ts` gives the table of `ts` followed by `word` |
| `Frequency.SumRemove` | TagExtractor.java:89 | the sum of the counts does not depend on the order the keys are taken |
| `Frequency.SumMerge` | TagExtractor.java:89 | each merge adds exactly 1 to the sum of the counts |
| `Frequency.SumOfFrequencies` | TagExtractor.java:85-91 | the counts of the table add up to the number of words counted |
| `Ranking.Entries` | TagExtractor.java:113-126 | the entries of the table in a given iteration order; `Ranking.EnumeratedEntries` proves each entry is visited exactly once |
| `Ranking.Insert` | TagExtractor.java:113-114 | inserting into a non-increasing listing keeps it non-increasing and adds exactly that entry |
| `Ranking.SortByCount` | TagExtractor.java:113-114 | the sorted listing has counts non-increasing and is a permutation of its input |
| `Ranking.Ranked` | TagExtractor.java:113-114 | the ranked listing is a permutation of the table's entries (each entry exactly once), ordered by count non-increasing, for any iteration order |
| `Ranking.EnumeratedEntries` | TagExtractor.java:113-126 | walking the map in any iteration order visits each entry exactly once |
| `Ranking.FormatLine` | TagExtractor.java:115-126 | `tag + ": " + count`; `Ranking.ParseFormatLine` reads it back and `Ranking.FormatLineInjective` proves it one-to-one |
| `Ranking.Lines` | TagExtractor.java:126 | one formatted line per entry, in order; `Ranking.DecodeSavedLines` and `Ranking.SavedLinesExact` are proved about the saved lines |
| `Ranking.Render` | TagExtractor.java:115 | the text of the listing, each line followed by `"\n"`; `Ranking.LinesOfRender` splits it back into exactly the formatted lines |
| `Ranking.ParseFormatLine` | TagExtractor.java:115-126 | a `"<tag>: <count>"` line reads back as the entry it was made from, when the tag has no `:` or line break |
| `Ranking.FormatLineInjective` | TagExtractor.java:126 | two entries with such tags give the same line exactly when they are equal |
| `Ranking.DecodeSavedLines` | TagExtractor.java:126 | reading back the saved lines, in any iteration order, gives back the table |
| `Ranking.SavedLinesExact` | TagExtractor.java:126 | the saved lines are exactly one per entry: as many lines as entries, and each entry's line occurs once |
| `Ranking.LinesOfRender` | TagExtractor.java:115 | the text of the listing, split at line breaks, is exactly one formatted line per entry, in order |
| `TagExtractor.Kept` | TagExtractor.java:87-88 | the words of a line that pass `!word.trim().isEmpty() && !stopWords.contains(word)`, in order; `TagExtractor.KeptIsUnstoppedNonBlank`, `TagExtractor.KeptFrom` and `TagExtractor.KeptOfLine` are proved about it |
| `TagExtractor.ScanTokens` | TagExtractor.java:85-91 | the words `scanFile` counts, line after line; `TagExtractor.ScanTokensElements`, `TagExtractor.ScanLineStep` and `TagExtractor.ScanTable` are proved about it |
| `TagExtractor.KeptIsUnstoppedNonBlank` | TagExtractor.java:88 | the test `!word.trim().isEmpty() && !stopWords.contains(word)` is the blank check followed by the stop-word check |
| `TagExtractor.UnstoppedElements` | TagExtractor.java:88 | a word survives the stop-word check exactly when it is a token and not a stop word |
| `TagExtractor.KeptOfLine` | TagExtractor.java:86-88 | the words counted on one line are exactly its tokens that are not stop words |
| `TagExtractor.ScanOneLine` | TagExtractor.java:85-91 | for a one-line file the counted words are the line's tokens minus the stop words, in order |
| `TagExtractor.ScanTokensElements` | TagExtractor.java:85-91 | a word is counted exactly when it is a token of some line and not a stop word |
| `TagExtractor.ScanTable` | TagExtractor.java:85-91 | after a scan the keys are exactly the tokens of the file that are not stop words (with no stop words, every distinct word), each a lower-case word with count at least 1, and the counts add up to the number of words counted |
| `TagExtractor.KeptFrom` | TagExtractor.java:87-88 | one pass of the inner loop keeps the word exactly when it passes the blank and stop-word test |
| `TagExtractor.CountStep` | TagExtractor.java:89 | merging the next kept word gives the table of the words counted so far followed by that word |
| `TagExtractor.ScanLineStep` | TagExtractor.java:85-91 | one pass of the outer loop appends that line's counted words |
| `TagExtractor.RankedTagsPlain` | TagExtractor.java:113-115 | every tag in the listing of a scanned table can be written on a line and read back |
| `TagExtractor.RankedListing` | TagExtractor.java:111-115 | the lines of the rendered listing of a scanned table are exactly the formatted lines of the ranked entries |
| `TagExtractor.Session.constructor` | TagExtractor.java:25-28 | a new session has an empty table, no stop words and no text file |
| `TagExtractor.Session.PickTextFile` | TagExtractor.java:67-72 | an approved choice records the text file and scans it; a cancelled one changes nothing |
| `TagExtractor.Session.ScanFile` | TagExtractor.java:81-97 | the table becomes the frequencies of the file's non-stop-word tokens, whatever it held before; no key is a stop word, every count is at least 1, and the counts add up to the number of words counted; the stop words are unchanged |
| `TagExtractor.Session.CountWords` | TagExtractor.java:87-91 | after the loop over one line's words the table is the table of the words counted before followed by that line's kept words; the stop words are unchanged |
| `TagExtractor.Session.LoadStopWords` | TagExtractor.java:99-109 | the stop-word set becomes exactly the set of `lower(trim(l))` over the lines `l`, whatever it held before; the table is unchanged |
| `TagExtractor.Session.DisplayTags` | TagExtractor.java:111-117 | the displayed text is the ranked listing, one `"<tag>: <count>\n"` per entry, and its lines are exactly the listing's lines |
| `TagExtractor.Session.SaveTags` | TagExtractor.java:119-129 | nothing is saved exactly when there is no text file or no tag; otherwise, if the file opens, one line per entry in iteration order, reading back as the table; the session is not modified |
| `Example.NineWords` | TagExtractor.java:86 | nine words separated as in the example line scan to exactly those nine words |
| `Example.LineWords` | TagExtractor.java:86-88 | the lower-cased example line scans to `the cat sat on the mat the cat ran` |
| `Example.ExampleTable` | TagExtractor.java:81-109 | stop words `the`, `on` and the example line give {cat: 2, sat: 1, mat: 1, ran: 1} |
| `Example.ScanTwice` | TagExtractor.java:82 | through a session, loading the stop words and scanning the example file gives that table, and scanning it again gives the same table |
| `Example.SortThree` | TagExtractor.java:113-114 | an entry with a smaller count moves behind two entries already in order |
| `Example.RankingExample` | TagExtractor.java:113-114 | {a: 3, b: 5, c: 5} walked in the order a, b, c ranks as b, c, a |

## Left out

- Swing and AWT: the window, the buttons, the text area, the file chooser and the `JOptionPane` dialogs (lines 15-65, 95, 107, 121, 128, 131-135). Dialogs only report outcomes, and the methods return those outcomes instead.
- `pickStopWordsFile` (lines 74-79) is the chooser dialog followed by `loadStopWords`, so it is `Session.LoadStopWords` itself. Only `Session.PickTextFile` is modelled separately, because it also sets `textFile`.
- Real file I/O: `BufferedReader`, `FileReader`, `PrintWriter` and `FileWriter`. Files are sequences of lines, and what the platform takes as a line separator is not modelled.
- The output path `new File(textFile.getParent(), "tags_output.txt")` (line 124). A path is not state the logic depends on.
- `Session.SaveTags`: an open failure of `FileWriter` is the flag `canOpen`. `PrintWriter` swallows later write errors, and those are not modelled.
- `Session.ScanFile`: the model returns whether the read completed instead of calling `displayTags`. The caller then runs `Session.DisplayTags`, which needs the table's iteration order as an input.
- `Session.CountWords`: it neither requires nor ensures `Valid()`. It is the inner loop of `scanFile`, and its contract fixes the table exactly as the frequencies of the words counted so far. `Session.ScanFile` re-establishes `Valid()` from that table through `TagExtractor.ScanTable`.
- `Session.DisplayTags`: the listing is returned as text, not placed in a text area.
- `Ranking.Ranked`: order among equal counts is not promised. Java's `sorted` on a `HashMap` stream has no defined encounter order.
- Lower-casing is ASCII only. Java's locale-sensitive `toLowerCase` also maps non-ASCII letters, and in some locales maps `I` to a dotless `ı`. Such characters are outside the model.
- The Java regex engine is replaced by the character predicate `Text.IsWordChar`.
- `Integer` overflow of a count past 2^31 - 1 is not modelled; counts are `nat`.
