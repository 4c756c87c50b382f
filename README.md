# Word count (Apache Beam `wordcount_minimal`)

This project models the counting logic of the minimal word-count example
shipped with the Apache Beam Python SDK
(`sdks/python/apache_beam/examples/wordcount_minimal.py`), and proves
properties of that model.

The lines of text read from the input go through four transforms:

- **Split**: `FlatMap` of `re.findall(r'[A-Za-z\']+', x)`. Each line becomes
  the list of its maximal runs of ASCII letters and apostrophes.
- **PairWithOne**: `Map`. Every word becomes the pair `(word, 1)`.
- **GroupAndSum**: `CombinePerKey(sum)`. There is one `(word, total)` entry
  per distinct word.
- **Format**: `Map` of `format_result`. Every entry becomes the line
  `'%s: %s' % (word, count)`.

The chain is pure, so the model consists of functions and lemmas. There are
four modules, one per step and one for the whole chain:

- `Split` (`Split.dfy`): the tokeniser `Tokenize`. It is characterised by
  three laws that fix it completely:
  - an empty line has no words;
  - a single run of word characters is one word;
  - a separator splits the word list where it splits the line.

  It also states what "no normalisation" means: case and apostrophes are
  kept, and every word is an isolated slice of its line.
- `GroupAndSum` (`GroupAndSum.dfy`): `PairWithOne`, and `GroupSum`, which
  stands for `CombinePerKey(sum)`. `GroupSum` fills one accumulator table in
  input order. It is proved against a reference definition `SumFor` (the sum
  of a key's values, wherever they occur). It is also proved independent of
  the order of its input and of how that input is sharded and merged.
  `GroupSum` is generic in the key type.
- `Format` (`Format.dfy`): `FormatResult`, and `NatToString`, which is
  Python's `str` on a non-negative `int`. `NatToString` is proved to be a
  bijection onto canonical decimal numerals, and `FormatResult` to be
  injective.
- `WordCount` (`WordCount.dfy`): `Counts`, the counts table of a sequence
  of lines, and `Run`, the set of output lines.

Beam's output collection is unordered and, because the keys are distinct and
`FormatResult` is injective, holds no duplicate line. It is therefore
modelled as a `set<string>`.

Input lines are `string`s, Dafny's `seq<char>`. The word class is exactly the
ASCII range of the pattern. Any other character is a separator, including
non-ASCII letters, as the pattern at wordcount_minimal.py:124 says.

## Model

| member | source | states |
|---|---|---|
| Split.IsWordChar | sdks/python/apache_beam/examples/wordcount_minimal.py:124 | the character class `[A-Za-z']`: ASCII upper- and lower-case letters and the apostrophe, nothing else; what the class means for whole lines is stated by `TokenizeYieldsWords`, `TokenizeKeepsWordChars` and `TokenizeEmpty` |
| Split.Tokenize | sdks/python/apache_beam/examples/wordcount_minimal.py:124 | `re.findall(r'[A-Za-z\']+', x)`: the maximal runs of word characters, left to right. It has no contract of its own; `TokenizeSplitsIntoMaximalRuns` proves it obeys the three laws of maximal runs and `MaximalRunsAreUnique` that those laws determine it on every line |
| Split.LeadingRun | sdks/python/apache_beam/examples/wordcount_minimal.py:124 | the run of `[A-Za-z']` characters at the start of a string: every character in it is a word character, and the next character, if any, is not (the `+` is greedy) |
| Split.TokenizeYieldsWords | sdks/python/apache_beam/examples/wordcount_minimal.py:124 | every word Split emits is non-empty and made only of characters of `[A-Za-z']` |
| Split.TokenizeWord | sdks/python/apache_beam/examples/wordcount_minimal.py:124 | a line that is one run of word characters yields exactly that one word |
| Split.TokenizeSeparator | sdks/python/apache_beam/examples/wordcount_minimal.py:124 | a separator character between two parts of a line splits the word list into the words of the two parts: no match spans a separator |
| Split.SplitAt | sdks/python/apache_beam/examples/wordcount_minimal.py:124 | the same separator law, with the separator given by its index in the line |
| Split.TokenizeSplitsIntoMaximalRuns | sdks/python/apache_beam/examples/wordcount_minimal.py:124 | `Tokenize` obeys the three laws of "maximal runs in left-to-right order" (empty line, one run, split at a separator) |
| Split.MaximalRunsAreUnique | sdks/python/apache_beam/examples/wordcount_minimal.py:124 | any splitter obeying those laws agrees with `Tokenize` on every line, so the laws define the `findall` result completely |
| Split.TokenizeKeepsWordChars | sdks/python/apache_beam/examples/wordcount_minimal.py:124 | the concatenated words are exactly the line's word characters, in order, with case and apostrophes unchanged: no normalisation |
| Split.TokenizeWordsAreSlices | sdks/python/apache_beam/examples/wordcount_minimal.py:124 | every emitted word occurs in the line as a contiguous slice whose neighbouring characters, where they exist, are separators: words are maximal and never adjacent |
| Split.TokenizeEmpty | sdks/python/apache_beam/examples/wordcount_minimal.py:124 | a line yields no words if and only if it contains no letter and no apostrophe |
| Split.WordThenSeparator | sdks/python/apache_beam/examples/wordcount_minimal.py:124 | a word followed by a separator is emitted first, before the words of the rest of the line |
| Split.SentenceShape | sdks/python/apache_beam/examples/wordcount_minimal.py:124 | a line laid out as `a b: c d.` splits into exactly `[a, b, c, d]` |
| Split.HearHimExample | sdks/python/apache_beam/examples/wordcount_minimal.py:124 | `"Hear him: He's dead."` splits into `Hear`, `him`, `He's`, `dead`; `He's` keeps its apostrophe and its capital letter |
| GroupAndSum.PairWithOne | sdks/python/apache_beam/examples/wordcount_minimal.py:128 | one pair per input word, in the same order: the output has the input's length and pair `i` is `(keys[i], 1)` |
| GroupAndSum.PairWithOneAppend | sdks/python/apache_beam/examples/wordcount_minimal.py:128 | pairing is element-wise, so it distributes over concatenation of the input |
| GroupAndSum.Accumulate | sdks/python/apache_beam/examples/wordcount_minimal.py:129 | the per-key accumulator of `CombinePerKey(sum)`, adding each pair into a table in input order. It has no contract of its own; `AccumulateMeaning` states its result and `AccumulateTotal` that it preserves the grand total |
| GroupAndSum.AccumulateMeaning | sdks/python/apache_beam/examples/wordcount_minimal.py:129 | accumulating a stream into a table gives every starting or met key, each with its starting value plus the sum of its values in the stream |
| GroupAndSum.AccumulateTotal | sdks/python/apache_beam/examples/wordcount_minimal.py:129 | accumulating a stream adds the sum of all its values to the table's grand total: no value is lost or counted twice |
| GroupAndSum.GroupSum | sdks/python/apache_beam/examples/wordcount_minimal.py:129 | `CombinePerKey(sum)`: exactly one entry per distinct key of the stream, and its value is the reference sum `SumFor` of that key's values |
| GroupAndSum.Merge | sdks/python/apache_beam/examples/wordcount_minimal.py:129 | the runner's merge of two per-shard accumulator tables: the union of their keys, each with the sum of its partial totals. It is not written in the source file; it stands for what `CombinePerKey(sum)` does inside Beam when it combines partial results. It has no contract of its own; `MergeUnit`, `MergeCommutative` and `MergeAssociative` characterise it, and `GroupSumSharded` ties it to `GroupSum` |
| GroupAndSum.MergeUnit | sdks/python/apache_beam/examples/wordcount_minimal.py:129 | the empty table is the unit of the merge of partial tables: merging in a shard with no pairs changes nothing |
| GroupAndSum.MergeCommutative | sdks/python/apache_beam/examples/wordcount_minimal.py:129 | merging two partial tables gives the same table in either order |
| GroupAndSum.MergeAssociative | sdks/python/apache_beam/examples/wordcount_minimal.py:129 | merging three partial tables gives the same table under either grouping, so the tables of many shards can be merged in any tree order |
| GroupAndSum.SumForAppend | sdks/python/apache_beam/examples/wordcount_minimal.py:129 | the sum of a key's values over two concatenated streams is the sum of the two partial sums |
| GroupAndSum.GroupSumSharded | sdks/python/apache_beam/examples/wordcount_minimal.py:129 | combining two shards apart and merging gives the same table as combining the whole stream: `sum` can be computed in parallel |
| GroupAndSum.SumForPermutation | sdks/python/apache_beam/examples/wordcount_minimal.py:129 | a key's sum depends only on the multiset of pairs |
| GroupAndSum.GroupSumPermutation | sdks/python/apache_beam/examples/wordcount_minimal.py:129 | the combined table depends only on the multiset of pairs, not on their arrival order |
| GroupAndSum.GroupSumTotal | sdks/python/apache_beam/examples/wordcount_minimal.py:129 | the values of the combined table add up to the sum of every value in the stream |
| GroupAndSum.CountsOfOnes | sdks/python/apache_beam/examples/wordcount_minimal.py:128-129 | after PairWithOne, a word's sum is its number of occurrences, and all the values add up to the number of words |
| GroupAndSum.KeysOfOnes | sdks/python/apache_beam/examples/wordcount_minimal.py:128-129 | the keys after PairWithOne are exactly the distinct words |
| Format.DigitValue | sdks/python/apache_beam/examples/wordcount_minimal.py:134 | reading a decimal digit back gives the digit that writes it |
| Format.NatToString | sdks/python/apache_beam/examples/wordcount_minimal.py:134 | `str` of a non-negative int is a canonical decimal numeral: non-empty, only digits, and no leading zero unless it is `0` |
| Format.NatToStringRoundTrip | sdks/python/apache_beam/examples/wordcount_minimal.py:134 | the numeral `str` writes reads back as the number written |
| Format.CanonicalNumeralRoundTrip | sdks/python/apache_beam/examples/wordcount_minimal.py:134 | every canonical numeral is the one `str` writes for its value, so `str` on counts is one-to-one and onto canonical numerals |
| Format.FormatResult | sdks/python/apache_beam/examples/wordcount_minimal.py:132-134 | `'%s: %s' % (word, count)` is the word, then `": "`, then a canonical numeral whose value is the count |
| Format.FormatResultInjective | sdks/python/apache_beam/examples/wordcount_minimal.py:132-134 | two (word, count) pairs that format to the same line are the same pair, whatever characters the words hold |
| Format.ColonPosition | sdks/python/apache_beam/examples/wordcount_minimal.py:134 | two layouts `word: digits` of one line cannot have words of different lengths |
| Format.NoColonAfterWord | sdks/python/apache_beam/examples/wordcount_minimal.py:134 | in a formatted line, no colon follows the one that ends the word |
| Format.FormatAll | sdks/python/apache_beam/examples/wordcount_minimal.py:136 | `beam.Map(format_result)` over the counts table: one formatted line per entry. It has no contract of its own; `FormatAllRemove` and `FormatAllSize` characterise it |
| Format.FormatAllRemove | sdks/python/apache_beam/examples/wordcount_minimal.py:136 | formatting a table is formatting the table without one word, plus that word's line |
| Format.FormatAllSize | sdks/python/apache_beam/examples/wordcount_minimal.py:136 | the Format step emits as many distinct lines as the table has words |
| WordCount.AllWords | sdks/python/apache_beam/examples/wordcount_minimal.py:121-124 | the Split step over all the lines emits only words |
| WordCount.AllWordsAppend | sdks/python/apache_beam/examples/wordcount_minimal.py:121-124 | the words of two batches of lines are the words of the first batch followed by those of the second |
| WordCount.AllWordsPermutation | sdks/python/apache_beam/examples/wordcount_minimal.py:121-124 | reordering the input lines only reorders the words |
| WordCount.Counts | sdks/python/apache_beam/examples/wordcount_minimal.py:121-129 | the counts table has exactly the distinct words of the input as keys, and each count is that word's number of occurrences across all lines |
| WordCount.WordCountKeysAndCounts | sdks/python/apache_beam/examples/wordcount_minimal.py:121-129 | every key is a word and every count is at least 1 |
| WordCount.WordCountTotal | sdks/python/apache_beam/examples/wordcount_minimal.py:121-129 | the counts add up to the number of words Split extracted from all lines |
| WordCount.AllWordsLength | sdks/python/apache_beam/examples/wordcount_minimal.py:121-124 | the number of words is the sum over the lines of each line's number of words |
| WordCount.WordCountOrderIndependent | sdks/python/apache_beam/examples/wordcount_minimal.py:121-129 | the counts depend only on the multiset of input lines, not on their order |
| WordCount.WordCountSharded | sdks/python/apache_beam/examples/wordcount_minimal.py:121-129 | counting two parts of the input apart and merging the tables gives the counts of the whole input |
| WordCount.AllWordsEmpty | sdks/python/apache_beam/examples/wordcount_minimal.py:121-124 | no words are extracted if and only if every line yields none |
| WordCount.WordCountEmpty | sdks/python/apache_beam/examples/wordcount_minimal.py:121-136 | the counts are empty if and only if no line holds a letter or an apostrophe, and no lines give no output |
| WordCount.Run | sdks/python/apache_beam/examples/wordcount_minimal.py:121-136 | the whole chain from input lines to output lines. It has no contract of its own; `RunLines` states which lines it emits (both directions) and `RunSize` how many |
| WordCount.RunLines | sdks/python/apache_beam/examples/wordcount_minimal.py:121-136 | an output line is `<w>: <n>` for a word `w` that occurs `n` times in the input, and every such line is output |
| WordCount.RunSize | sdks/python/apache_beam/examples/wordcount_minimal.py:121-136 | the output has exactly one line per distinct word |
| WordCount.TwoWordLine | sdks/python/apache_beam/examples/wordcount_minimal.py:124 | a line `a b` of two words splits into `[a, b]` |
| WordCount.TwoDistinctWords | sdks/python/apache_beam/examples/wordcount_minimal.py:121-129 | a line of two different words separated by a space counts each of them exactly once |
| WordCount.CaseSensitiveCounts | sdks/python/apache_beam/examples/wordcount_minimal.py:121-129 | no case folding: the line `He's he's` gives the counts table `He's: 1, he's: 1`, two separate words |
| WordCount.CatsAndDogExample | sdks/python/apache_beam/examples/wordcount_minimal.py:121-136 | the lines `the cat`, `the dog`, `the cat` produce exactly `the: 3`, `cat: 2` and `dog: 1` |
| WordCount.HearHimRun | sdks/python/apache_beam/examples/wordcount_minimal.py:121-136 | the line `Hear him: He's dead.` produces exactly `Hear: 1`, `him: 1`, `He's: 1` and `dead: 1` |

## Left out

- Command-line parsing with `argparse` (wordcount_minimal.py:65-81), and the runner, project, staging and temp-location options with `PipelineOptions` and `save_main_session` (83-107): this is configuration handed to Beam, with no logic of its own.
- `ReadFromText` and `WriteToText` (117, 140): file and cloud-storage I/O, glob expansion, encoding and output shard naming. The input is a `seq<string>` of lines and the output is the set of formatted lines.
- Building and executing the pipeline graph (`beam.Pipeline`, the `|` and `>>` operators, the runner): these are library internals. Distributed execution is represented only by the sharding and permutation lemmas on `GroupSum` and `WordCount`.
- The `unicode` output-type hint (125) and the logging setup (145): type metadata and side effects, with no behaviour to model.
- Python's regular-expression engine: only the meaning of the one pattern used, maximal runs of a character class, is modelled.
- GroupAndSum.GroupSum: it fixes one accumulation order, the input order, and does not model the runner's partial combining. The order- and shard-independence lemmas show that the result does not depend on this choice.
- WordCount.Run: the output is a set, not the sequence of lines in output files. Beam gives the lines no order, and the lines are pairwise distinct (`Format.FormatAllSize`).
