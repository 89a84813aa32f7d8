/** Decimal numbers as C prints them and as the plotter reads them. */
module Decimal {
  import opened Wrappers

  predicate IsDigit(c: char) {
    '0' <= c <= '9'
  }

  predicate AllDigits(s: string) {
    forall c | c in s :: IsDigit(c)
  }

  function DigitChar(d: nat): char
    requires d < 10
  {
    ('0' as int + d) as char
  }

  function PrintNat(n: nat): string {
    if n < 10 then [DigitChar(n)] else PrintNat(n / 10) + [DigitChar(n % 10)]
  }

  /** What %d prints. */
  function PrintInt(n: int): string {
    if n < 0 then "-" + PrintNat(-n) else PrintNat(n)
  }

  function DigitValue(c: char): nat
    requires IsDigit(c)
  {
    c as int - '0' as int
  }

  function ValueOf(s: string): nat
    requires AllDigits(s)
  {
    if s == "" then 0 else ValueOf(s[..|s| - 1]) * 10 + DigitValue(s[|s| - 1])
  }

  /** Python's int() on a string without white space; None is ValueError. */
  function PyInt(s: string): Option<int> {
    if s != "" && s[0] in "+-" then
      if s[1..] != "" && AllDigits(s[1..]) then Some(ValueOf(s[1..]) * if s[0] == '-' then -1 else 1)
      else None
    else if s != "" && AllDigits(s) then Some(ValueOf(s))
    else None
  }

  /** split(',')[0] */
  function BeforeComma(s: string): string {
    if s == "" || s[0] == ',' then "" else [s[0]] + BeforeComma(s[1..])
  }

  /** string_to_number: a leading minus is taken off and applied again after int(). */
  function StringToNumber(s: string): Option<int> {
    if s == "" then None
    else if s[0] == '-' then
      match PyInt(BeforeComma(s[1..]))
      case Some(n) => Some(-n)
      case None => None
    else PyInt(BeforeComma(s))
  }

  lemma {:induction false} PrintNatDigits(n: nat)
    ensures PrintNat(n) != "" && AllDigits(PrintNat(n)) && ValueOf(PrintNat(n)) == n
  {
    if n < 10 {
      assert ValueOf([]) == 0;
      assert PrintNat(n)[..0] == [];
    } else {
      PrintNatDigits(n / 10);
      assert PrintNat(n)[..|PrintNat(n)| - 1] == PrintNat(n / 10);
    }
  }

  lemma {:induction false} NoComma(s: string)
    requires ',' !in s
    ensures BeforeComma(s) == s
  {
    if s != "" {
      NoComma(s[1..]);
    }
  }

  /** Printing and reading are inverse on all signed integers, for both ways the parser reads a
      number. */
  lemma NumberRoundTrip(n: int)
    ensures PrintInt(n) != "" && StringToNumber(PrintInt(n)) == Some(n)
    ensures PyInt(PrintInt(n)) == Some(n)
  {
    var digits := PrintNat(if n < 0 then -n else n);
    PrintNatDigits(if n < 0 then -n else n);
    assert digits[0] in digits;
    NoComma(digits);
    if n < 0 {
      assert PrintInt(n)[1..] == digits;
    }
  }

  /** A number is read up to the first comma, whatever follows. */
  lemma NumberUpToComma(n: int, rest: string)
    ensures StringToNumber(PrintInt(n) + "," + rest) == Some(n)
  {
    var digits := PrintNat(if n < 0 then -n else n);
    PrintNatDigits(if n < 0 then -n else n);
    assert digits[0] in digits && digits[0] != '-';
    CommaEnds(digits, rest);
    NumberRoundTrip(if n < 0 then -n else n);
    assert PrintInt(n) == if n < 0 then "-" + digits else digits;
    hide PrintInt, PrintNat, PyInt, BeforeComma, ValueOf;
    var s := PrintInt(n) + "," + rest;
    assert s == if n < 0 then "-" + (digits + "," + rest) else digits + "," + rest;
    if n < 0 {
      assert s[0] == '-' && s[1..] == digits + "," + rest;
    } else {
      assert s[0] == digits[0];
    }
  }

  lemma {:induction false} CommaEnds(s: string, rest: string)
    requires ',' !in s
    ensures BeforeComma(s + "," + rest) == s
  {
    if s == "" {
      assert s + "," + rest == "," + rest;
    } else {
      assert (s + "," + rest)[1..] == s[1..] + "," + rest;
      CommaEnds(s[1..], rest);
    }
  }

  /** int() takes digits with at most one sign before them, and nothing else. */
  lemma PyIntExactly(s: string, n: int)
    ensures PyInt(s) == Some(n) <==> exists digits :: Signed(s, n, digits)
  {
    if PyInt(s) == Some(n) {
      var digits := if s[0] in "+-" then s[1..] else s;
      assert s[0] in "+-" ==> s == [s[0]] + digits;
      assert Signed(s, n, digits);
    }
    if digits :| Signed(s, n, digits) {
      assert digits[0] in digits;
      if s != digits {
        assert s[1..] == digits;
      }
    }
  }

  predicate Signed(s: string, n: int, digits: string) {
    && digits != "" && AllDigits(digits)
    && ((s == digits && n == ValueOf(digits)) || (s == "+" + digits && n == ValueOf(digits))
        || (s == "-" + digits && n == 0 - ValueOf(digits)))
  }

  /** Leading zeros do not count. */
  lemma {:induction false} LeadingZero(digits: string)
    requires AllDigits(digits)
    ensures AllDigits("0" + digits) && ValueOf("0" + digits) == ValueOf(digits)
  {
    var s := "0" + digits;
    if digits == "" {
      assert s[..0] == "" && ValueOf("") == 0;
    } else {
      assert s[..|s| - 1] == "0" + digits[..|digits| - 1];
      LeadingZero(digits[..|digits| - 1]);
    }
  }

  lemma PrintIntChars(n: int)
    ensures PrintInt(n) != ""
    ensures forall c | c in PrintInt(n) :: IsDigit(c) || c == '-'
  {
    PrintNatDigits(if n < 0 then -n else n);
  }
}

/** The Python string operations the plotter uses. */
module Text {

  /** What Python's str.isspace() holds for; the second range ends with the blank. */
  predicate IsSpace(c: char) {
    || '\t' <= c <= '\r' || '\U{1C}' <= c <= ' '
    || (c >= '\U{85}' && IsWideSpace(c))
  }

  /** The spaces outside ASCII. */
  predicate IsWideSpace(c: char) {
    || c == '\U{85}' || c == '\U{A0}' || c == '\U{1680}' || '\U{2000}' <= c <= '\U{200A}'
    || c == '\U{2028}' || c == '\U{2029}' || c == '\U{202F}' || c == '\U{205F}' || c == '\U{3000}'
  }

  predicate IsWord(w: string) {
    w != "" && forall c | c in w :: !IsSpace(c)
  }

  /** `pat in s` */
  predicate Contains(s: string, pat: string) {
    exists i | 0 <= i <= |s| :: StandsAt(s, pat, i)
  }

  predicate StandsAt(s: string, pat: string, i: nat) {
    i + |pat| <= |s| && s[i..i + |pat|] == pat
  }

  function WordLength(s: string): (n: nat)
    ensures n <= |s|
  {
    if s == "" || IsSpace(s[0]) then 0 else 1 + WordLength(s[1..])
  }

  /** str.split() */
  function Split(s: string): seq<string>
    decreases |s|
  {
    if s == "" then []
    else if IsSpace(s[0]) then Split(s[1..])
    else var n := WordLength(s); [s[..n]] + Split(s[n..])
  }

  /** How the text of a file is read: '\r' and "\r\n" end a line as '\n' does. */
  function Universal(s: string): string
    decreases |s|
  {
    if s == "" then ""
    else if s[0] == '\r' then "\n" + Universal(if |s| > 1 && s[1] == '\n' then s[2..] else s[1..])
    else [s[0]] + Universal(s[1..])
  }

  function LineLength(s: string): (n: nat)
    ensures n <= |s| && (s != "" ==> n > 0)
  {
    if s == "" then 0 else if s[0] == '\n' then 1 else 1 + LineLength(s[1..])
  }

  /** The lines of a text, each with its '\n'. */
  function SplitLines(s: string): seq<string>
    decreases |s|
  {
    if s == "" then [] else [s[..LineLength(s)]] + SplitLines(s[LineLength(s)..])
  }

  /** readlines() */
  function ReadLines(s: string): seq<string> {
    SplitLines(Universal(s))
  }

  // ----- Splitting -----

  lemma {:induction false} WordLengthOf(w: string, rest: string)
    requires forall c | c in w :: !IsSpace(c)
    requires rest == "" || IsSpace(rest[0])
    ensures WordLength(w + rest) == |w|
  {
    if w == "" {
      assert w + rest == rest;
    } else {
      assert w[0] in w;
      assert (w + rest)[1..] == w[1..] + rest;
      WordLengthOf(w[1..], rest);
    }
  }

  lemma {:induction false} WordLengthWithin(a: string, rest: string)
    requires rest != "" && IsSpace(rest[0])
    ensures WordLength(a + rest) == WordLength(a)
  {
    if a == "" {
      assert a + rest == rest;
    } else if !IsSpace(a[0]) {
      assert (a + rest)[1..] == a[1..] + rest;
      WordLengthWithin(a[1..], rest);
    }
  }

  /** Among the ASCII characters the blanks are these ten. */
  lemma AsciiBlanks(c: char)
    requires c < '\U{80}'
    ensures IsSpace(c) <==> c in "\t\n\r \U{B}\U{C}\U{1C}\U{1D}\U{1E}\U{1F}"
  {
  }

  /** A space separates words wherever it stands. */
  lemma {:induction false} SplitAt(a: string, c: char, b: string)
    requires IsSpace(c)
    ensures Split(a + [c] + b) == Split(a) + Split(b)
    decreases |a|
  {
    var s := a + [c] + b;
    if a == "" {
      assert s[1..] == b;
    } else if IsSpace(a[0]) {
      assert s[1..] == a[1..] + [c] + b;
      SplitAt(a[1..], c, b);
    } else {
      var n := WordLength(a);
      assert s == a + ([c] + b);
      WordLengthWithin(a, [c] + b);
      assert s[..n] == a[..n] && s[n..] == a[n..] + [c] + b;
      SplitAt(a[n..], c, b);
      assert Split(s) == [a[..n]] + (Split(a[n..]) + Split(b));
    }
  }

  lemma SplitWord(w: string)
    requires IsWord(w)
    ensures Split(w) == [w]
  {
    WordLengthOf(w, "");
    assert w + "" == w;
    assert w[0] in w;
    assert Split(w[|w|..]) == [];
  }

  lemma SplitLineEnd(a: string)
    ensures Split(a + "\n") == Split(a)
  {
    SplitAt(a, '\n', "");
    assert a + ['\n'] + "" == a + "\n";
  }

  /** Words with single spaces between them. */
  function Join(words: seq<string>): string {
    if words == [] then "" else if |words| == 1 then words[0] else words[0] + " " + Join(words[1..])
  }

  lemma {:induction false} SplitJoin(words: seq<string>)
    requires forall w | w in words :: IsWord(w)
    ensures Split(Join(words)) == words
  {
    if words != [] {
      assert words[0] in words;
      SplitWord(words[0]);
      if |words| > 1 {
        SplitJoin(words[1..]);
        SplitAt(words[0], ' ', Join(words[1..]));
      }
    }
  }

  // ----- Containment -----

  lemma ContainsAt(a: string, pat: string, b: string)
    ensures Contains(a + pat + b, pat)
  {
    assert (a + pat + b)[|a|..|a| + |pat|] == pat;
    assert StandsAt(a + pat + b, pat, |a|);
  }

  lemma MissingChar(s: string, pat: string, c: char)
    requires c in pat && c !in s
    ensures !Contains(s, pat)
  {
  }

  /** A pattern whose first character does not stand before s and whose last does not stand
      after it is found in s or not at all. */
  lemma ContainsInside(before: string, s: string, after: string, pat: string)
    requires pat != "" && pat[0] !in before && forall c | c in after :: c !in pat
    ensures Contains(before + s + after, pat) <==> Contains(s, pat)
  {
    var whole := before + s + after;
    if Contains(s, pat) {
      var i :| 0 <= i <= |s| && StandsAt(s, pat, i);
      hide Contains;
      StandsFurther(before, s, after, pat, i);
      ContainsFrom(whole, pat, |before| + i);
    }
    if Contains(whole, pat) {
      var i :| 0 <= i <= |whole| && StandsAt(whole, pat, i);
      hide Contains;
      StandsWithin(before, s, after, pat, i);
      ContainsFrom(s, pat, i - |before|);
    }
  }

  lemma ContainsFrom(s: string, pat: string, i: nat)
    requires StandsAt(s, pat, i)
    ensures Contains(s, pat)
  {
  }

  lemma StandsFurther(before: string, s: string, after: string, pat: string, i: nat)
    requires StandsAt(s, pat, i)
    ensures StandsAt(before + s + after, pat, |before| + i)
  {
    var whole := before + s + after;
    assert whole[|before| + i..|before| + i + |pat|] == s[i..i + |pat|];
  }

  lemma StandsWithin(before: string, s: string, after: string, pat: string, i: nat)
    requires pat != "" && pat[0] !in before && forall c | c in after :: c !in pat
    requires StandsAt(before + s + after, pat, i)
    ensures i >= |before| && StandsAt(s, pat, i - |before|)
  {
    var whole, end := before + s + after, i + |pat|;
    assert forall k | 0 <= k < |before| :: whole[k] in before;
    assert forall k | |before| + |s| <= k < |whole| :: whole[k] in after;
    assert pat[0] == whole[i] && pat[|pat| - 1] == whole[end - 1] && pat[|pat| - 1] in pat;
    assert i >= |before| && end <= |before| + |s|;
    assert s[i - |before|..end - |before|] == whole[i..end];
  }

  // ----- Lines -----

  lemma {:induction false} LineLengthOf(body: string, rest: string)
    requires '\n' !in body
    ensures LineLength(body + "\n" + rest) == |body| + 1
  {
    if body == "" {
      assert body + "\n" + rest == "\n" + rest;
    } else {
      assert (body + "\n" + rest)[1..] == body[1..] + "\n" + rest;
      LineLengthOf(body[1..], rest);
    }
  }

  /** One line of a file that is read as it was written. */
  predicate IsLine(line: string) {
    line != "" && line[|line| - 1] == '\n' && '\n' !in line[..|line| - 1] && '\r' !in line
  }

  function Concat(lines: seq<string>): string {
    if lines == [] then "" else lines[0] + Concat(lines[1..])
  }

  lemma {:induction false} UniversalKeeps(s: string)
    requires '\r' !in s
    ensures Universal(s) == s
  {
    if s != "" {
      assert s[0] in s;
      UniversalKeeps(s[1..]);
    }
  }

  /** The text with each line ended in the given way. */
  function WithEnds(s: string, end: string): string {
    if s == "" then "" else (if s[0] == '\n' then end else [s[0]]) + WithEnds(s[1..], end)
  }

  /** A file whose lines end with "\r\n", or with '\r' alone, is read like one whose lines end with
      '\n'. */
  lemma {:induction false} EndsDoNotMatter(s: string, end: string)
    requires '\r' !in s && (end == "\r\n" || end == "\r")
    ensures Universal(WithEnds(s, end)) == s && ReadLines(WithEnds(s, end)) == ReadLines(s)
  {
    UniversalKeeps(s);
    if s != "" {
      assert s[0] in s;
      EndsDoNotMatter(s[1..], end);
      var rest := WithEnds(s[1..], end);
      NotANewline(s[1..], end);
      if s[0] == '\n' {
        assert WithEnds(s, end)[|end|..] == rest;
      } else {
        assert WithEnds(s, end)[1..] == rest;
      }
    }
  }

  lemma NotANewline(s: string, end: string)
    requires end == "\r\n" || end == "\r"
    ensures WithEnds(s, end) == "" || WithEnds(s, end)[0] != '\n'
  {
  }

  /** Reading the lines of a text loses nothing: put together they are the text, and only the last may
      lack its line end. */
  lemma {:induction false} LinesLoseNothing(s: string)
    ensures Concat(SplitLines(s)) == s
    ensures forall i | 0 <= i < |SplitLines(s)| ::
      && SplitLines(s)[i] != "" && '\n' !in SplitLines(s)[i][..|SplitLines(s)[i]| - 1]
      && (i < |SplitLines(s)| - 1 ==> SplitLines(s)[i][|SplitLines(s)[i]| - 1] == '\n')
    decreases |s|
  {
    if s != "" {
      var n := LineLength(s);
      FirstLine(s);
      LinesLoseNothing(s[n..]);
      assert SplitLines(s) == [s[..n]] + SplitLines(s[n..]);
      assert s == s[..n] + s[n..];
    }
  }

  lemma {:induction false} FirstLine(s: string)
    requires s != ""
    ensures '\n' !in s[..LineLength(s) - 1] && (LineLength(s) < |s| ==> s[LineLength(s) - 1] == '\n')
  {
    if s[0] != '\n' && |s| > 1 {
      FirstLine(s[1..]);
      var n := LineLength(s[1..]);
      assert s[..n] == [s[0]] + s[1..][..n - 1];
    }
  }

  lemma {:induction false} SplitLinesConcat(lines: seq<string>)
    requires forall line | line in lines :: IsLine(line)
    ensures SplitLines(Concat(lines)) == lines && '\r' !in Concat(lines)
  {
    if lines != [] {
      var line, rest := lines[0], Concat(lines[1..]);
      assert line in lines;
      var body := line[..|line| - 1];
      assert line + rest == body + "\n" + rest;
      LineLengthOf(body, rest);
      assert (line + rest)[..|line|] == line && (line + rest)[|line|..] == rest;
      SplitLinesConcat(lines[1..]);
    }
  }

  lemma ReadLinesConcat(lines: seq<string>)
    requires forall line | line in lines :: IsLine(line)
    ensures ReadLines(Concat(lines)) == lines
  {
    SplitLinesConcat(lines);
    UniversalKeeps(Concat(lines));
  }

  lemma {:induction false} ConcatAppend(a: seq<string>, b: seq<string>)
    ensures Concat(a + b) == Concat(a) + Concat(b)
  {
    if a == [] {
      assert a + b == b;
    } else {
      ConcatAppend(a[1..], b);
      assert (a + b)[0] == a[0] && (a + b)[1..] == a[1..] + b;
      assert a[0] + (Concat(a[1..]) + Concat(b)) == Concat(a) + Concat(b);
    }
  }
}
