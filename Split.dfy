/**
  The 'Split' step of the word-count pipeline: every text line is broken into
  the left-to-right list of maximal, non-empty runs of the characters matched
  by the regular-expression class [A-Za-z'] (ASCII letters and the
  apostrophe). Every other character separates words and is dropped. Nothing
  is normalised: case and apostrophes are kept as they are.
 */
module Split {

  /** The character class [A-Za-z']: ASCII letters and the apostrophe. */
  predicate IsWordChar(c: char) {
    ('A' <= c <= 'Z') || ('a' <= c <= 'z') || c == '\''
  }

  /** A word as Split emits it: non-empty and made only of word characters. */
  predicate IsWord(w: string) {
    |w| > 0 && forall i :: 0 <= i < |w| ==> IsWordChar(w[i])
  }

  /** The length of the run of word characters at the start of `s`; the run
      cannot be extended, because it is followed by a separator or the end. */
  function LeadingRun(s: string): (n: nat)
    ensures n <= |s|
    ensures forall i :: 0 <= i < n ==> IsWordChar(s[i])
    ensures n < |s| ==> !IsWordChar(s[n])
  {
    if s == [] || !IsWordChar(s[0]) then 0 else 1 + LeadingRun(s[1..])
  }

  /** re.findall(r'[A-Za-z\']+', line): the maximal runs of word characters,
      in the order they occur in the line. */
  function Tokenize(line: string): seq<string>
    decreases |line|
  {
    if line == [] then []
    else if !IsWordChar(line[0]) then Tokenize(line[1..])
    else
      var n := LeadingRun(line);
      [line[..n]] + Tokenize(line[n..])
  }

  /** Every word Split emits is non-empty and made only of letters and apostrophes. */
  lemma {:induction false} TokenizeYieldsWords(line: string)
    ensures forall w <- Tokenize(line) :: IsWord(w)
    decreases |line|
  {
    if line != [] {
      if !IsWordChar(line[0]) {
        TokenizeYieldsWords(line[1..]);
      } else {
        var n := LeadingRun(line);
        TokenizeYieldsWords(line[n..]);
      }
    }
  }

  /** The characters of `s` that are word characters, in order. */
  function WordChars(s: string): (r: string)
    ensures |r| <= |s|
    ensures forall i :: 0 <= i < |r| ==> IsWordChar(r[i])
  {
    if s == [] then []
    else if IsWordChar(s[0]) then [s[0]] + WordChars(s[1..])
    else WordChars(s[1..])
  }

  /** All the words of a list, joined without anything between them. */
  function Concat(words: seq<string>): string {
    if words == [] then [] else words[0] + Concat(words[1..])
  }

  lemma ConcatAppend(a: seq<string>, b: seq<string>)
    ensures Concat(a + b) == Concat(a) + Concat(b)
  {
    if a != [] {
      assert (a + b)[0] == a[0];
      assert (a + b)[1..] == a[1..] + b;
      ConcatAppend(a[1..], b);
    } else {
      assert a + b == b;
    }
  }

  lemma WordCharsAppend(a: string, b: string)
    ensures WordChars(a + b) == WordChars(a) + WordChars(b)
  {
    if a != [] {
      assert (a + b)[0] == a[0];
      assert (a + b)[1..] == a[1..] + b;
      WordCharsAppend(a[1..], b);
    } else {
      assert a + b == b;
    }
  }

  /** A line that is one run of word characters is one word, never split:
      the runs Split returns are maximal. */
  lemma {:induction false} TokenizeWord(w: string)
    requires IsWord(w)
    ensures Tokenize(w) == [w]
  {
    var n := LeadingRun(w);
    assert n == |w|;
    assert w[..n] == w;
    assert w[n..] == [];
  }

  /** A separator ends every word before it and starts none: splitting the
      line at any separator splits the word list at the same place. */
  lemma {:induction false} TokenizeSeparator(a: string, c: char, b: string)
    requires !IsWordChar(c)
    ensures Tokenize(a + [c] + b) == Tokenize(a) + Tokenize(b)
    decreases |a|
  {
    var s := a + [c] + b;
    if a == [] {
      assert s == [c] + b;
      assert s[1..] == b;
    } else if !IsWordChar(a[0]) {
      assert s[1..] == a[1..] + [c] + b;
      TokenizeSeparator(a[1..], c, b);
    } else {
      var m := LeadingRun(a);
      LeadingRunSeparator(a, c, b);
      assert s[..m] == a[..m];
      assert s[m..] == a[m..] + [c] + b;
      TokenizeSeparator(a[m..], c, b);
    }
  }

  lemma {:induction false} LeadingRunSeparator(a: string, c: char, b: string)
    requires !IsWordChar(c)
    ensures LeadingRun(a + [c] + b) == LeadingRun(a)
    decreases |a|
  {
    if a != [] && IsWordChar(a[0]) {
      assert (a + [c] + b)[1..] == a[1..] + [c] + b;
      LeadingRunSeparator(a[1..], c, b);
    } else if a == [] {
      assert (a + [c] + b)[0] == c;
    }
  }

  /** The same split, with the separator given by its position in the line. */
  lemma SplitAt(s: string, i: nat)
    requires i < |s| && !IsWordChar(s[i])
    ensures Tokenize(s) == Tokenize(s[..i]) + Tokenize(s[i + 1..])
  {
    Around(s, i);
    TokenizeSeparator(s[..i], s[i], s[i + 1..]);
  }

  lemma Around(s: string, i: nat)
    requires i < |s|
    ensures s[..i] + [s[i]] + s[i + 1..] == s
  {
    var around := s[..i] + [s[i]] + s[i + 1..];
    assert |around| == |s|;
    forall k | 0 <= k < |s| ensures around[k] == s[k] {
      if k > i {
        assert around[k] == s[i + 1..][k - i - 1];
      }
    }
  }

  /** The three laws that say what "the maximal runs in left-to-right order" means. */
  ghost predicate SplitsIntoMaximalRuns(f: string -> seq<string>) {
    && f([]) == []
    && (forall w :: IsWord(w) ==> f(w) == [w])
    && (forall s, i :: 0 <= i < |s| && !IsWordChar(s[i]) ==> f(s) == f(s[..i]) + f(s[i + 1..]))
  }

  lemma TokenizeSplitsIntoMaximalRuns()
    ensures SplitsIntoMaximalRuns(Tokenize)
  {
    forall w | IsWord(w) ensures Tokenize(w) == [w] {
      TokenizeWord(w);
    }
    forall s, i | 0 <= i < |s| && !IsWordChar(s[i])
      ensures Tokenize(s) == Tokenize(s[..i]) + Tokenize(s[i + 1..])
    {
      SplitAt(s, i);
    }
  }

  /** The laws determine the split completely: any splitter that obeys them
      returns what Tokenize returns, on every line. */
  lemma {:induction false} MaximalRunsAreUnique(f: string -> seq<string>, s: string)
    requires SplitsIntoMaximalRuns(f)
    ensures f(s) == Tokenize(s)
    decreases |s|
  {
    if s == [] {
    } else if IsWord(s) {
      TokenizeWord(s);
    } else {
      var i :| 0 <= i < |s| && !IsWordChar(s[i]);
      MaximalRunsAreUnique(f, s[..i]);
      MaximalRunsAreUnique(f, s[i + 1..]);
      SplitAt(s, i);
    }
  }

  /** No normalisation: joined back together, the words are exactly the word
      characters of the line, with their case and apostrophes, in order. */
  lemma {:induction false} TokenizeKeepsWordChars(line: string)
    ensures Concat(Tokenize(line)) == WordChars(line)
    decreases |line|
  {
    if line == [] {
    } else if !IsWordChar(line[0]) {
      TokenizeKeepsWordChars(line[1..]);
    } else {
      var n := LeadingRun(line);
      TokenizeKeepsWordChars(line[n..]);
      assert line == line[..n] + line[n..];
      WordCharsAppend(line[..n], line[n..]);
      AllWordChars(line[..n]);
      assert Tokenize(line)[1..] == Tokenize(line[n..]);
    }
  }

  lemma {:induction false} AllWordChars(s: string)
    requires forall i :: 0 <= i < |s| ==> IsWordChar(s[i])
    ensures WordChars(s) == s
    decreases |s|
  {
    if s != [] {
      AllWordChars(s[1..]);
    }
  }

  /** line[i..j] is the word w, and the characters on either side of it, where
      there are any, are separators: the occurrence cannot be extended. */
  predicate IsIsolatedOccurrence(line: string, w: string, i: nat, j: nat) {
    && i <= j <= |line|
    && line[i..j] == w
    && (i == 0 || !IsWordChar(line[i - 1]))
    && (j == |line| || !IsWordChar(line[j]))
  }

  /** Every word is a contiguous piece of the line, copied unchanged, and
      no word touches another: the character before it and the character
      after it, where there is one, is a separator. */
  lemma {:induction false} TokenizeWordsAreSlices(line: string, w: string) returns (i: nat, j: nat)
    requires w in Tokenize(line)
    ensures IsIsolatedOccurrence(line, w, i, j)
    decreases |line|
  {
    TokenizeStep(line, w);
    if IsWordChar(line[0]) && w == line[..FirstStep(line)] {
      i, j := LeadingWordSlice(line, w);
    } else {
      var i', j' := TokenizeWordsAreSlices(line[FirstStep(line)..], w);
      i, j := ShiftSlice(line, w, i', j');
    }
  }

  /** How far Tokenize moves along a non-empty line in one step: past the
      leading word, or past one separator. */
  function FirstStep(line: string): (m: nat)
    requires line != []
    ensures 0 < m <= |line|
    ensures m < |line| ==> !IsWordChar(line[m]) || !IsWordChar(line[m - 1])
  {
    if IsWordChar(line[0]) then LeadingRun(line) else 1
  }

  lemma LeadingWordSlice(line: string, w: string) returns (i: nat, j: nat)
    requires line != [] && IsWordChar(line[0]) && w == line[..FirstStep(line)]
    ensures IsIsolatedOccurrence(line, w, i, j)
  {
    i, j := 0, FirstStep(line);
  }

  /** One step of Tokenize: a word of the line is its leading word or a word
      of what follows the first step. */
  lemma TokenizeStep(line: string, w: string)
    requires w in Tokenize(line)
    ensures line != [] && IsWord(w)
    ensures (IsWordChar(line[0]) && w == line[..FirstStep(line)]) || w in Tokenize(line[FirstStep(line)..])
  {
    TokenizeYieldsWords(line);
  }

  /** An isolated occurrence after the first step is an isolated
      occurrence in the whole line. */
  lemma ShiftSlice(line: string, w: string, i: nat, j: nat) returns (i': nat, j': nat)
    requires line != [] && IsWord(w)
    requires IsIsolatedOccurrence(line[FirstStep(line)..], w, i, j)
    ensures IsIsolatedOccurrence(line, w, i', j')
  {
    i', j' := FirstStep(line) + i, FirstStep(line) + j;
    var m := FirstStep(line);
    var rest := line[m..];
    SliceOfSuffix(line, m, i, j);
    assert rest[i] == w[0];
    if i > 0 {
      assert line[m + i - 1] == rest[i - 1];
    }
    if j < |rest| {
      assert line[m + j] == rest[j];
    }
  }

  lemma SliceOfSuffix(s: string, n: nat, i: nat, j: nat)
    requires n <= |s| && i <= j <= |s| - n
    ensures s[n..][i..j] == s[n + i..n + j]
  {
  }

  /** A line with no letters and no apostrophes yields no words, and only such a line does. */
  lemma {:induction false} TokenizeEmpty(line: string)
    ensures Tokenize(line) == [] <==> forall i :: 0 <= i < |line| ==> !IsWordChar(line[i])
    decreases |line|
  {
    if line != [] {
      TokenizeEmpty(line[1..]);
      if !IsWordChar(line[0]) {
        forall i | 1 <= i < |line| ensures line[i] == line[1..][i - 1] { }
      }
    }
  }

  lemma {:induction false} WordThenSeparator(w: string, c: char, rest: string)
    requires IsWord(w) && !IsWordChar(c)
    ensures Tokenize(w + [c] + rest) == [w] + Tokenize(rest)
  {
    TokenizeWord(w);
    TokenizeSeparator(w, c, rest);
  }

  lemma SentenceTail(c: string, d: string)
    requires IsWord(c) && IsWord(d)
    ensures Tokenize([' '] + (c + [' '] + (d + ['.']))) == [c, d]
  {
    var last := d + ['.'];
    WordThenEnd(d, '.');
    WordThenSeparator(c, ' ', last);
    SeparatorFirst(' ', c + [' '] + last);
    assert [c] + [d] == [c, d];
  }

  lemma WordThenEnd(w: string, c: char)
    requires IsWord(w) && !IsWordChar(c)
    ensures Tokenize(w + [c]) == [w]
  {
    WordThenSeparator(w, c, []);
    assert w + [c] + [] == w + [c];
  }

  lemma SeparatorFirst(c: char, s: string)
    requires !IsWordChar(c)
    ensures Tokenize([c] + s) == Tokenize(s)
  {
    assert ([c] + s)[0] == c && ([c] + s)[1..] == s;
  }

  lemma SentenceHead(a: string, b: string, tail: string)
    requires IsWord(a) && IsWord(b)
    ensures Tokenize(a + [' '] + (b + [':'] + tail)) == [a, b] + Tokenize(tail)
  {
    var rest := b + [':'] + tail;
    WordThenSeparator(b, ':', tail);
    WordThenSeparator(a, ' ', rest);
    PrependTwo(a, b, Tokenize(tail));
  }

  lemma PrependTwo(a: string, b: string, words: seq<string>)
    ensures [a] + ([b] + words) == [a, b] + words
  {
  }

  /** Any line shaped like "Hear him: He's dead." splits into its four words. */
  lemma SentenceShape(a: string, b: string, c: string, d: string)
    requires IsWord(a) && IsWord(b) && IsWord(c) && IsWord(d)
    ensures Tokenize(a + " " + b + ": " + c + " " + d + ".") == [a, b, c, d]
  {
    SentenceTail(c, d);
    SentenceHead(a, b, [' '] + (c + [' '] + (d + ['.'])));
    SentenceLayout(a, b, c, d);
  }

  lemma SentenceLayout(a: string, b: string, c: string, d: string)
    ensures a + [' '] + (b + [':'] + ([' '] + (c + [' '] + (d + ['.'])))) == a + " " + b + ": " + c + " " + d + "."
  {
  }

  /** The line "Hear him: He's dead." splits into Hear, him, He's and dead:
      the colon, the spaces and the full stop are dropped, case and the
      apostrophe are kept. */
  lemma HearHimExample()
    ensures Tokenize("Hear" + " " + "him" + ": " + "He's" + " " + "dead" + ".") == ["Hear", "him", "He's", "dead"]
  {
    SentenceShape("Hear", "him", "He's", "dead");
  }
}
