/**
  The 'Format' step of the word-count pipeline: format_result turns the pair
  (word, count) into the output line '%s: %s' % (word, count), that is the
  word, a colon, a space and the count written the way Python's str writes a
  non-negative int: decimal digits without leading zeros.
 */
module Format {

  predicate IsDigit(c: char) {
    '0' <= c <= '9'
  }

  predicate IsDigits(s: string) {
    forall i :: 0 <= i < |s| ==> IsDigit(s[i])
  }

  /** A decimal numeral as str writes one: at least one digit, and no leading
      zero unless the numeral is "0" itself. */
  predicate IsCanonicalNumeral(s: string) {
    |s| > 0 && IsDigits(s) && (s[0] == '0' ==> s == "0")
  }

  function Digit(d: nat): (c: char)
    requires d < 10
    ensures IsDigit(c)
  {
    (('0' as int) + d) as char
  }

  function DigitValue(c: char): (d: nat)
    requires IsDigit(c)
    ensures d < 10 && Digit(d) == c
  {
    (c as int) - ('0' as int)
  }

  /** The value of a string of decimal digits, most significant digit first. */
  function DecimalValue(s: string): nat
    requires IsDigits(s)
  {
    if s == [] then 0 else 10 * DecimalValue(s[..|s| - 1]) + DigitValue(s[|s| - 1])
  }

  /** str(n) for a non-negative int n. */
  function NatToString(n: nat): (s: string)
    ensures IsCanonicalNumeral(s)
    decreases n
  {
    if n < 10 then [Digit(n)] else NatToString(n / 10) + [Digit(n % 10)]
  }

  /** Reading the numeral back gives the number that was written. */
  lemma {:induction false} NatToStringRoundTrip(n: nat)
    ensures DecimalValue(NatToString(n)) == n
    decreases n
  {
    var s := NatToString(n);
    if n >= 10 {
      NatToStringRoundTrip(n / 10);
      assert s[..|s| - 1] == NatToString(n / 10);
    }
  }

  lemma {:induction false} LeadingDigitPositive(s: string)
    requires |s| > 0 && IsDigits(s) && s[0] != '0'
    ensures DecimalValue(s) > 0
    decreases |s|
  {
    if |s| > 1 {
      LeadingDigitPositive(s[..|s| - 1]);
    }
  }

  /** Every canonical numeral is the one str writes for its value, so
      NatToString is a one-to-one correspondence between the non-negative
      numbers and the canonical numerals. */
  lemma {:induction false} CanonicalNumeralRoundTrip(s: string)
    requires IsCanonicalNumeral(s)
    ensures NatToString(DecimalValue(s)) == s
    decreases |s|
  {
    if |s| > 1 {
      var prefix := s[..|s| - 1];
      assert s[0] != '0';
      LeadingDigitPositive(prefix);
      CanonicalNumeralRoundTrip(prefix);
      var n := DecimalValue(s);
      assert n / 10 == DecimalValue(prefix) && n % 10 == DigitValue(s[|s| - 1]);
      assert s == prefix + [s[|s| - 1]];
    } else if s[0] != '0' {
      assert DecimalValue(s[..0]) == 0;
    }
  }

  /** format_result((word, count)): the line '<word>: <count>'. */
  function FormatResult(word: string, count: nat): (line: string)
    ensures |line| > |word| + 2
    ensures line[..|word|] == word && line[|word|..|word| + 2] == ": "
    ensures IsCanonicalNumeral(line[|word| + 2..])
    ensures DecimalValue(line[|word| + 2..]) == count
  {
    NatToStringRoundTrip(count);
    var line := word + ": " + NatToString(count);
    assert line[|word| + 2..] == NatToString(count);
    line
  }

  /** Distinct pairs give distinct lines, whatever the words contain: the
      numeral holds no colon, so the last colon of a line is the one
      format_result put there. */
  lemma FormatResultInjective(w1: string, c1: nat, w2: string, c2: nat)
    requires FormatResult(w1, c1) == FormatResult(w2, c2)
    ensures w1 == w2 && c1 == c2
  {
    var line := FormatResult(w1, c1);
    var d1, d2 := line[|w1| + 2..], line[|w2| + 2..];
    assert line == w1 + ": " + d1 && line == w2 + ": " + d2;
    if |w1| < |w2| {
      ColonPosition(w1, d1, w2, d2, line);
    } else if |w2| < |w1| {
      ColonPosition(w2, d2, w1, d1, line);
    }
    assert w1 == line[..|w1|] == w2;
    CanonicalNumeralRoundTrip(d1);
  }

  /** Where a longer word would put its colon, the layout with the shorter
      word has its space or one of its digits: two layouts of one line cannot
      have words of different lengths. */
  lemma ColonPosition(short: string, ds: string, long: string, dl: string, line: string)
    requires line == short + ": " + ds && line == long + ": " + dl
    requires IsDigits(ds)
    ensures |long| <= |short|
  {
    assert line[|long|] == ':';
    NoColonAfterWord(short, ds, line);
  }

  lemma NoColonAfterWord(word: string, digits: string, line: string)
    requires line == word + ": " + digits && IsDigits(digits)
    ensures forall k :: |word| < k < |line| ==> line[k] != ':'
  {
    forall k | |word| < k < |line| ensures line[k] != ':' {
      if k > |word| + 1 {
        assert line[k] == digits[k - |word| - 2];
      }
    }
  }

  /** The Format step over the whole combined table: one line per word. */
  function FormatAll(counts: map<string, nat>): set<string> {
    set w | w in counts :: FormatResult(w, counts[w])
  }

  lemma FormatAllRemove(counts: map<string, nat>, w: string)
    requires w in counts
    ensures FormatAll(counts) == FormatAll(counts - {w}) + {FormatResult(w, counts[w])}
  {
    var rest := counts - {w};
    forall line | line in FormatAll(counts)
      ensures line in FormatAll(rest) + {FormatResult(w, counts[w])}
    {
      var w' :| w' in counts && line == FormatResult(w', counts[w']);
      if w' != w {
        LineOfRest(counts, w, w');
      }
    }
    forall line | line in FormatAll(rest) ensures line in FormatAll(counts) {
      var w' :| w' in rest && line == FormatResult(w', rest[w']);
      assert w' in counts;
    }
  }

  lemma LineOfRest(counts: map<string, nat>, w: string, w': string)
    requires w' in counts && w' != w
    ensures FormatResult(w', counts[w']) in FormatAll(counts - {w})
  {
    var rest := counts - {w};
    assert w' in rest && rest[w'] == counts[w'];
  }

  /** As many output lines as distinct words: no two words share a line. */
  lemma {:induction false} FormatAllSize(counts: map<string, nat>)
    ensures |FormatAll(counts)| == |counts|
    decreases |counts|
  {
    if counts != map[] {
      var w :| w in counts;
      var rest := counts - {w};
      assert rest.Keys == counts.Keys - {w};
      FormatAllSize(rest);
      FormatAllRemove(counts, w);
      LineOfRemovedWord(counts, w);
    }
  }

  lemma LineOfRemovedWord(counts: map<string, nat>, w: string)
    requires w in counts
    ensures FormatResult(w, counts[w]) !in FormatAll(counts - {w})
  {
    var rest := counts - {w};
    var line := FormatResult(w, counts[w]);
    if line in FormatAll(rest) {
      var w' :| w' in rest && line == FormatResult(w', rest[w']);
      FormatResultInjective(w, counts[w], w', rest[w']);
      assert false;
    }
  }
}
