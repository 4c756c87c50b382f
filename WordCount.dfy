/**
  The word-count chain of wordcount_minimal.py: the lines read from the input
  go through Split (a FlatMap), PairWithOne (a Map), GroupAndSum
  (CombinePerKey(sum)) and Format (a Map). The input is the sequence of lines;
  the output collection has no order, and since its lines are distinct it is
  modelled as a set of strings.
 */
module WordCount {
  import opened Split
  import opened GroupAndSum
  import opened Format

  /** The Split step over the whole input: every line's words, line after line. */
  function AllWords(lines: seq<string>): (words: seq<string>)
    ensures forall w <- words :: IsWord(w)
  {
    if lines == [] then []
    else
      TokenizeYieldsWords(lines[0]);
      Tokenize(lines[0]) + AllWords(lines[1..])
  }

  /** The counts collection: Split, then PairWithOne, then GroupAndSum. It
      holds one entry per distinct word of the input, and that entry is the
      number of times the word occurs across all lines. */
  function Counts(lines: seq<string>): (counts: map<string, nat>)
    ensures counts.Keys == set w | w in AllWords(lines)
    ensures forall w :: w in counts ==> counts[w] == multiset(AllWords(lines))[w]
  {
    var words := AllWords(lines);
    KeysOfOnes(words);
    OnesCount(words);
    GroupSum(PairWithOne(words))
  }

  /** The whole pipeline up to the write: the formatted output lines. */
  function Run(lines: seq<string>): set<string> {
    FormatAll(Counts(lines))
  }

  lemma OnesCount(words: seq<string>)
    ensures forall w :: SumFor(PairWithOne(words), w) == multiset(words)[w]
  {
    forall w | true ensures SumFor(PairWithOne(words), w) == multiset(words)[w] {
      CountsOfOnes(words, w);
    }
  }

  lemma {:induction false} AllWordsAppend(a: seq<string>, b: seq<string>)
    ensures AllWords(a + b) == AllWords(a) + AllWords(b)
    decreases |a|
  {
    if a == [] {
      assert a + b == b;
    } else {
      assert (a + b)[0] == a[0];
      assert (a + b)[1..] == a[1..] + b;
      AllWordsAppend(a[1..], b);
    }
  }

  /** Every key is a word of the input and every count is at least 1. */
  lemma WordCountKeysAndCounts(lines: seq<string>)
    ensures forall w :: w in Counts(lines) ==> IsWord(w) && Counts(lines)[w] >= 1
  {
  }

  /** The counts add up to the number of words Split extracted from all lines. */
  lemma WordCountTotal(lines: seq<string>)
    ensures SumValues(Counts(lines)) == |AllWords(lines)|
  {
    var words := AllWords(lines);
    GroupSumTotal(PairWithOne(words));
    CountsOfOnes(words, "");
  }

  /** The number of words of the input is the sum of the numbers of words of its lines. */
  lemma {:induction false} AllWordsLength(lines: seq<string>)
    ensures |AllWords(lines)| == SumOfLengths(lines)
    decreases |lines|
  {
    if lines != [] {
      AllWordsLength(lines[1..]);
    }
  }

  function SumOfLengths(lines: seq<string>): nat {
    if lines == [] then 0 else |Tokenize(lines[0])| + SumOfLengths(lines[1..])
  }

  /** Reordering the lines reorders the words and nothing else. */
  lemma {:induction false} AllWordsPermutation(lines: seq<string>, other: seq<string>)
    requires multiset(lines) == multiset(other)
    ensures multiset(AllWords(lines)) == multiset(AllWords(other))
    decreases |lines|
  {
    if lines == [] {
      assert |other| == |multiset(other)| == 0;
    } else {
      var x := lines[0];
      assert x in multiset(other);
      var j :| 0 <= j < |other| && other[j] == x;
      var rest := other[..j] + other[j + 1..];
      MultisetWithout(other, j);
      assert lines == [x] + lines[1..];
      assert multiset(lines[1..]) == multiset(lines) - multiset{x};
      AllWordsPermutation(lines[1..], rest);
      AllWordsWithout(other, j);
    }
  }

  lemma AllWordsWithout(lines: seq<string>, j: nat)
    requires j < |lines|
    ensures multiset(AllWords(lines))
         == multiset(Tokenize(lines[j])) + multiset(AllWords(lines[..j] + lines[j + 1..]))
  {
    AllWordsAt(lines, j);
    AllWordsAppend(lines[..j], lines[j + 1..]);
    MultisetMiddle(AllWords(lines[..j]), Tokenize(lines[j]), AllWords(lines[j + 1..]));
  }

  lemma AllWordsAt(lines: seq<string>, j: nat)
    requires j < |lines|
    ensures AllWords(lines) == AllWords(lines[..j]) + (Tokenize(lines[j]) + AllWords(lines[j + 1..]))
  {
    var before, from := lines[..j], lines[j..];
    assert before + from == lines;
    AllWordsAppend(before, from);
    assert from[0] == lines[j] && from[1..] == lines[j + 1..];
  }

  lemma MultisetMiddle<T>(a: seq<T>, t: seq<T>, b: seq<T>)
    ensures multiset(a + (t + b)) == multiset(t) + multiset(a + b)
  {
  }

  /** The counts depend only on the multiset of lines, not on their order. */
  lemma WordCountOrderIndependent(lines: seq<string>, other: seq<string>)
    requires multiset(lines) == multiset(other)
    ensures Counts(lines) == Counts(other)
  {
    AllWordsPermutation(lines, other);
    SameElements(AllWords(lines), AllWords(other));
  }

  lemma SameElements<T>(a: seq<T>, b: seq<T>)
    requires multiset(a) == multiset(b)
    ensures (set x | x in a) == (set x | x in b)
  {
    assert forall x :: x in a <==> x in multiset(a);
    assert forall x :: x in b <==> x in multiset(b);
  }

  /** Counting two halves of the input apart and merging the two tables gives
      the counts of the whole input: a sharded run agrees with a one-process run. */
  lemma WordCountSharded(a: seq<string>, b: seq<string>)
    ensures Counts(a + b) == Merge(Counts(a), Counts(b))
  {
    AllWordsAppend(a, b);
    var wa, wb := AllWords(a), AllWords(b);
    PairWithOneAppend(wa, wb);
    GroupSumSharded(PairWithOne(wa), PairWithOne(wb));
  }

  lemma {:induction false} AllWordsEmpty(lines: seq<string>)
    ensures AllWords(lines) == [] <==> forall i :: 0 <= i < |lines| ==> Tokenize(lines[i]) == []
    decreases |lines|
  {
    if lines != [] {
      AllWordsEmpty(lines[1..]);
      assert forall i :: 1 <= i < |lines| ==> lines[i] == lines[1..][i - 1];
    }
  }

  /** The output is empty exactly when no line holds a letter or an
      apostrophe; in particular, no input lines give no output. */
  lemma WordCountEmpty(lines: seq<string>)
    ensures Counts(lines) == map[] <==>
      forall i, j :: 0 <= i < |lines| && 0 <= j < |lines[i]| ==> !IsWordChar(lines[i][j])
    ensures lines == [] ==> Run(lines) == {}
  {
    AllWordsEmpty(lines);
    forall i | 0 <= i < |lines| {
      TokenizeEmpty(lines[i]);
    }
    var words := AllWords(lines);
    if words != [] {
      assert words[0] in Counts(lines);
    }
  }

  /** The output has a line '<w>: <n>' for every word w that occurs n times in
      the input, and no other line. */
  lemma RunLines(lines: seq<string>, line: string)
    ensures line in Run(lines) <==>
      exists w :: w in AllWords(lines) && line == FormatResult(w, multiset(AllWords(lines))[w])
  {
    var words, counts := AllWords(lines), Counts(lines);
    if line in Run(lines) {
      var w :| w in counts && line == FormatResult(w, counts[w]);
      assert w in words && counts[w] == multiset(words)[w];
    }
    if exists w :: w in words && line == FormatResult(w, multiset(words)[w]) {
      var w :| w in words && line == FormatResult(w, multiset(words)[w]);
      assert w in counts && line in FormatAll(counts);
    }
  }

  /** The output has one line per distinct word. */
  lemma RunSize(lines: seq<string>)
    ensures |Run(lines)| == |set w | w in AllWords(lines)|
  {
    FormatAllSize(Counts(lines));
  }

  lemma TwoWordLine(a: string, b: string)
    requires IsWord(a) && IsWord(b)
    ensures Tokenize(a + " " + b) == [a, b]
  {
    WordThenSeparator(a, ' ', b);
    TokenizeWord(b);
    assert a + [' '] + b == a + " " + b;
  }

  /** A line of two different words counts each of them once. */
  lemma TwoDistinctWords(a: string, b: string)
    requires IsWord(a) && IsWord(b) && a != b
    ensures Counts([a + " " + b]) == map[a := 1, b := 1]
  {
    TwoWordLine(a, b);
    OneLineWords(a + " " + b);
    DistinctPair(a, b);
    TableOfTwo(Counts([a + " " + b]), a, b);
  }

  lemma OneLineWords(line: string)
    ensures AllWords([line]) == Tokenize(line)
  {
    assert [line][1..] == [];
  }

  lemma DistinctPair(a: string, b: string)
    requires a != b
    ensures (set w | w in [a, b]) == {a, b}
    ensures multiset([a, b])[a] == 1 && multiset([a, b])[b] == 1
  {
  }

  lemma TableOfTwo(counts: map<string, nat>, a: string, b: string)
    requires counts.Keys == {a, b} && counts[a] == 1 && counts[b] == 1
    ensures counts == map[a := 1, b := 1]
  {
  }

  /** No case folding: "He's" and "he's" are counted as two different words. */
  lemma CaseSensitiveCounts()
    ensures Counts(["He's" + " " + "he's"]) == map["He's" := 1, "he's" := 1]
  {
    TwoDistinctWords("He's", "he's");
  }

  lemma CatsAndDogWords(cat: string, dog: string)
    requires cat == "the" + " " + "cat" && dog == "the" + " " + "dog"
    ensures AllWords([cat, dog, cat]) == ["the", "cat", "the", "dog", "the", "cat"]
  {
    TwoWordLine("the", "cat");
    TwoWordLine("the", "dog");
    assert [cat, dog, cat][1..] == [dog, cat] && [dog, cat][1..] == [cat] && [cat][1..] == [];
    assert AllWords([cat]) == ["the", "cat"];
    assert AllWords([dog, cat]) == ["the", "dog"] + ["the", "cat"];
  }

  lemma CatsAndDogCounts(words: seq<string>)
    requires words == ["the", "cat", "the", "dog", "the", "cat"]
    ensures (set w | w in words) == {"the", "cat", "dog"}
    ensures multiset(words)["the"] == 3 && multiset(words)["cat"] == 2 && multiset(words)["dog"] == 1
  {
  }

  lemma ThreeLines(counts: map<string, nat>, a: string, b: string, c: string)
    requires counts.Keys == {a, b, c}
    ensures FormatAll(counts) == {FormatResult(a, counts[a]), FormatResult(b, counts[b]), FormatResult(c, counts[c])}
  {
  }

  lemma CatsAndDogLines(counts: map<string, nat>)
    requires counts.Keys == {"the", "cat", "dog"}
    requires counts["the"] == 3 && counts["cat"] == 2 && counts["dog"] == 1
    ensures FormatAll(counts) == {"the: 3", "cat: 2", "dog: 1"}
  {
    ThreeLines(counts, "the", "cat", "dog");
    CatsAndDogStrings();
  }

  lemma CatsAndDogStrings()
    ensures FormatResult("the", 3) == "the: 3"
    ensures FormatResult("cat", 2) == "cat: 2"
    ensures FormatResult("dog", 1) == "dog: 1"
  {
  }

  /** The lines "the cat", "the dog", "the cat" give the output lines
      "the: 3", "cat: 2" and "dog: 1". */
  lemma CatsAndDogExample()
    ensures Run(["the" + " " + "cat", "the" + " " + "dog", "the" + " " + "cat"]) == {"the: 3", "cat: 2", "dog: 1"}
  {
    var lines := ["the" + " " + "cat", "the" + " " + "dog", "the" + " " + "cat"];
    CatsAndDogWords(lines[0], lines[1]);
    var words := AllWords(lines);
    CatsAndDogCounts(words);
    var counts := Counts(lines);
    assert counts.Keys == {"the", "cat", "dog"};
    assert counts["the"] == 3 && counts["cat"] == 2 && counts["dog"] == 1;
    CatsAndDogLines(counts);
  }

  lemma FourLines(counts: map<string, nat>, a: string, b: string, c: string, d: string)
    requires counts.Keys == {a, b, c, d}
    ensures FormatAll(counts)
         == {FormatResult(a, counts[a]), FormatResult(b, counts[b]), FormatResult(c, counts[c]), FormatResult(d, counts[d])}
  {
  }

  lemma CountOfOne(w: string)
    ensures FormatResult(w, 1) == w + ": 1"
  {
  }

  lemma FourSingleWords(counts: map<string, nat>, a: string, b: string, c: string, d: string)
    requires counts.Keys == {a, b, c, d}
    requires counts[a] == 1 && counts[b] == 1 && counts[c] == 1 && counts[d] == 1
    ensures FormatAll(counts) == {a + ": 1", b + ": 1", c + ": 1", d + ": 1"}
  {
    FourLines(counts, a, b, c, d);
    CountOfOne(a);
    CountOfOne(b);
    CountOfOne(c);
    CountOfOne(d);
  }

  lemma HearHimLines(counts: map<string, nat>)
    requires counts.Keys == {"Hear", "him", "He's", "dead"}
    requires counts["Hear"] == 1 && counts["him"] == 1 && counts["He's"] == 1 && counts["dead"] == 1
    ensures FormatAll(counts) == {"Hear: 1", "him: 1", "He's: 1", "dead: 1"}
  {
    FourSingleWords(counts, "Hear", "him", "He's", "dead");
    HearHimStrings();
  }

  lemma HearHimStrings()
    ensures "Hear" + ": 1" == "Hear: 1" && "him" + ": 1" == "him: 1"
    ensures "He's" + ": 1" == "He's: 1" && "dead" + ": 1" == "dead: 1"
  {
  }

  lemma HearHimCounts(words: seq<string>)
    requires words == ["Hear", "him", "He's", "dead"]
    ensures (set w | w in words) == {"Hear", "him", "He's", "dead"}
    ensures multiset(words)["Hear"] == 1 && multiset(words)["him"] == 1
    ensures multiset(words)["He's"] == 1 && multiset(words)["dead"] == 1
  {
  }

  /** The single line "Hear him: He's dead." gives the output lines
      "Hear: 1", "him: 1", "He's: 1" and "dead: 1". */
  lemma HearHimRun()
    ensures Run(["Hear" + " " + "him" + ": " + "He's" + " " + "dead" + "."])
         == {"Hear: 1", "him: 1", "He's: 1", "dead: 1"}
  {
    var line := "Hear" + " " + "him" + ": " + "He's" + " " + "dead" + ".";
    HearHimExample();
    assert [line][1..] == [];
    var words := AllWords([line]);
    assert words == Tokenize(line) + AllWords([]);
    assert words == ["Hear", "him", "He's", "dead"];
    HearHimCounts(words);
    HearHimLines(Counts([line]));
  }
}
