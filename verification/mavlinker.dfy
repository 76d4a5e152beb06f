/**
 The console-line reader: it splits each line the instrumentation program
 prints into whitespace-separated tokens and builds a measurement from
 `ADC<k> <adc> <value><unit> <field>`. Python's `float()` is a parameter;
 `split()`, `int()` and the reading loop are written out.
 */
module Mavlinker {
  import opened Text

  // ---------------------------------------------------------------------
  // str.split()
  // ---------------------------------------------------------------------

  /** The characters `str.isspace()` accepts. */
  predicate IsSpace(c: char) {
    c == ' ' || '\t' <= c <= '\r' || '\U{1c}' <= c <= '\U{1f}' || c == '\U{85}' || c == '\U{a0}' ||
    c == '\U{1680}' || '\U{2000}' <= c <= '\U{200a}' || c == '\U{2028}' || c == '\U{2029}' ||
    c == '\U{202f}' || c == '\U{205f}' || c == '\U{3000}'
  }

  /** A token `split()` can produce: non-empty, no white space. */
  predicate IsWord(w: string) {
    |w| > 0 && forall i :: 0 <= i < |w| ==> !IsSpace(w[i])
  }

  predicate Blank(s: string) {
    forall i :: 0 <= i < |s| ==> IsSpace(s[i])
  }

  /** Length of the run of non-space characters at the start of `s`. */
  function WordLen(s: string): (k: nat)
    ensures k <= |s| && forall i :: 0 <= i < k ==> !IsSpace(s[i])
    ensures k < |s| ==> IsSpace(s[k])
  {
    if |s| > 0 && !IsSpace(s[0]) then
      var k := 1 + WordLen(s[1..]);
      assert forall i :: 1 <= i < k ==> s[i] == s[1..][i - 1];
      k
    else 0
  }

  /** `str.split()` with no separator: the maximal runs of non-space characters. */
  function Split(s: string): (w: seq<string>)
    ensures forall i :: 0 <= i < |w| ==> IsWord(w[i])
    decreases |s|
  {
    if |s| == 0 then []
    else if IsSpace(s[0]) then Split(s[1..])
    else
      var k := WordLen(s);
      [s[..k]] + Split(s[k..])
  }

  /** Words separated by white space: `gaps[i]` comes before `words[i]`, the last gap after the last word. */
  function Spaced(words: seq<string>, gaps: seq<string>): string
    requires |gaps| == |words| + 1
  {
    if |words| == 0 then gaps[0] else gaps[0] + words[0] + Spaced(words[1..], gaps[1..])
  }

  /** Inner gaps are non-empty white space; the outer ones may be empty. */
  predicate Gaps(words: seq<string>, gaps: seq<string>) {
    |gaps| == |words| + 1 &&
    (forall i :: 0 <= i < |gaps| ==> Blank(gaps[i])) &&
    (forall i :: 0 < i < |words| ==> |gaps[i]| > 0)
  }

  lemma {:induction false} SplitAfterBlank(b: string, rest: string)
    requires Blank(b)
    ensures Split(b + rest) == Split(rest)
  {
    if |b| > 0 {
      assert (b + rest)[1..] == b[1..] + rest;
      SplitAfterBlank(b[1..], rest);
    } else {
      assert b + rest == rest;
    }
  }

  lemma {:induction false} WordLenOfWord(w: string, rest: string)
    requires forall i :: 0 <= i < |w| ==> !IsSpace(w[i])
    requires |rest| == 0 || IsSpace(rest[0])
    ensures WordLen(w + rest) == |w|
  {
    if |w| > 0 {
      assert (w + rest)[1..] == w[1..] + rest;
      WordLenOfWord(w[1..], rest);
    } else {
      assert w + rest == rest;
    }
  }

  lemma SplitWord(w: string, rest: string)
    requires IsWord(w)
    requires |rest| == 0 || IsSpace(rest[0])
    ensures Split(w + rest) == [w] + Split(rest)
  {
    WordLenOfWord(w, rest);
    assert (w + rest)[..|w|] == w;
    assert (w + rest)[|w|..] == rest;
  }

  /** After the first word, the rest of a spaced text is empty or starts with white space. */
  lemma SpacedTail(words: seq<string>, gaps: seq<string>)
    requires Gaps(words, gaps) && |words| > 0
    ensures Gaps(words[1..], gaps[1..])
    ensures var rest := Spaced(words[1..], gaps[1..]);
            |rest| == 0 || IsSpace(rest[0])
  {
    var rest := Spaced(words[1..], gaps[1..]);
    if |words| > 1 {
      assert |gaps[1]| > 0 && Blank(gaps[1]);
      assert rest == gaps[1] + (words[1..][0] + Spaced(words[1..][1..], gaps[1..][1..]));
      assert rest[0] == gaps[1][0];
    } else {
      assert rest == gaps[1];
    }
  }

  /** Splitting recovers the words, whatever white space separates them. */
  lemma {:induction false} SplitSpaced(words: seq<string>, gaps: seq<string>)
    requires Gaps(words, gaps)
    requires forall i :: 0 <= i < |words| ==> IsWord(words[i])
    ensures Split(Spaced(words, gaps)) == words
    decreases |words|
  {
    if |words| == 0 {
      SplitAfterBlank(gaps[0], []);
      assert gaps[0] + [] == gaps[0];
    } else {
      var rest := Spaced(words[1..], gaps[1..]);
      SpacedTail(words, gaps);
      SplitSpaced(words[1..], gaps[1..]);
      SplitWord(words[0], rest);
      SplitAfterBlank(gaps[0], words[0] + rest);
      assert Spaced(words, gaps) == gaps[0] + (words[0] + rest);
      assert words == [words[0]] + words[1..];
    }
  }

  // ---------------------------------------------------------------------
  // int()
  // ---------------------------------------------------------------------

  /** Digits with single underscores allowed between two digits, as `int()` accepts them. */
  predicate DigitBody(s: string) {
    |s| > 0 && IsDigit(s[0]) && forall i :: 0 <= i < |s| ==> BodyChar(s, i)
  }

  /** Character `i` is a digit, or an underscore with a digit right after it. */
  predicate BodyChar(s: string, i: nat)
    requires i < |s|
  {
    IsDigit(s[i]) || (s[i] == '_' && i + 1 < |s| && IsDigit(s[i + 1]))
  }

  lemma DigitBodyChars(s: string)
    requires DigitBody(s)
    ensures forall i :: 0 <= i < |s| ==> IsDigit(s[i]) || s[i] == '_'
  {
    forall i | 0 <= i < |s| ensures IsDigit(s[i]) || s[i] == '_' {
      assert BodyChar(s, i);
    }
  }

  /** The number of decimal digits in `s`. */
  function DigitCount(s: string): nat {
    if |s| == 0 then 0 else (if IsDigit(s[0]) then 1 else 0) + DigitCount(s[1..])
  }

  /** The digits of `s` with underscores dropped. */
  function Undersc(s: string): (d: string)
    requires forall i :: 0 <= i < |s| ==> IsDigit(s[i]) || s[i] == '_'
    ensures AllDigits(d) && |d| == DigitCount(s)
  {
    if |s| == 0 then []
    else if s[0] == '_' then Undersc(s[1..])
    else [s[0]] + Undersc(s[1..])
  }

  lemma {:induction false} UnderscOfDigits(s: string)
    requires AllDigits(s)
    ensures Undersc(s) == s
  {
    if |s| > 0 {
      UnderscOfDigits(s[1..]);
      assert s == [s[0]] + s[1..];
    }
  }

  /**
   The most digits `int()` converts from a decimal string: the default of
   `sys.get_int_max_str_digits()` (CPython 3.11 and later, and the 3.7.14,
   3.8.14, 3.9.14 and 3.10.7 security releases). Underscores and the sign do
   not count; leading zeros do.
   */
  const IntMaxStrDigits := 4300

  /**
   `int(s)` for decimal text without surrounding white space; `None` where
   Python raises `ValueError`, for bad syntax or for too many digits.
   */
  function PyInt(s: string): (r: Option<int>)
    ensures var body := if |s| > 0 && (s[0] == '+' || s[0] == '-') then s[1..] else s;
            r.Some? <==> DigitBody(body) && DigitCount(body) <= IntMaxStrDigits
  {
    var start := if |s| > 0 && (s[0] == '+' || s[0] == '-') then 1 else 0;
    var body := s[start..];
    if !DigitBody(body) then None
    else
      DigitBodyChars(body);
      var d := Undersc(body);
      if |d| > IntMaxStrDigits then None
      else
        var v: int := DigitsValue(d);
        Some(if start == 1 && s[0] == '-' then -v else v)
  }

  /** The number of digits C's `%d` prints for `n`, the sign left out. */
  function DecimalDigits(n: int): nat {
    |NatToDigits(if n < 0 then -n else n)|
  }

  /**
   `int()` reads back what C's `%d` prints, as long as it has at most 4300
   digits; a longer rendering raises `ValueError`.
   */
  lemma PyIntReadsDecimal(n: int)
    ensures DecimalDigits(n) <= IntMaxStrDigits ==> PyInt(IntToDecimal(n)) == Some(n)
    ensures DecimalDigits(n) > IntMaxStrDigits ==> PyInt(IntToDecimal(n)) == None
  {
    var d := NatToDigits(if n < 0 then -n else n);
    var s := IntToDecimal(n);
    assert s[if n < 0 then 1 else 0..] == d;
    assert (s[0] == '-' <==> n < 0) && s[0] != '+';
    UnderscOfDigits(d);
    DigitsRoundTrip(if n < 0 then -n else n);
  }

  /** A one-character string is an integer exactly when it is a decimal digit. */
  lemma PyIntOfChar(c: char)
    ensures PyInt([c]).Some? <==> IsDigit(c)
    ensures IsDigit(c) ==> PyInt([c]) == Some(DigitValue(c) as int)
  {
    if IsDigit(c) {
      assert [c][1..] == [];
      assert Undersc([c]) == [c];
      assert [c][..0] == [];
      assert DigitsValue([c]) == DigitValue(c);
    }
  }

  // ---------------------------------------------------------------------
  // extract_value, extract_unit, extract_values
  // ---------------------------------------------------------------------

  /** The Python `Measurement` record. */
  datatype ConsoleMeasurement = ConsoleMeasurement(channel: int, adc: int, value: real, unit: char, fieldName: string)

  /** The outcome of `extract_values`: a measurement, or the exception it raises. */
  datatype Parsed = Parsed(m: ConsoleMeasurement) | ValueError | IndexError

  /** `extract_value`: the number in all characters but the last (an empty token gives `float("")`). */
  function ExtractValue(token: string, parseFloat: string -> Option<real>): (r: Option<real>)
    ensures |token| > 0 ==> r == parseFloat(token[..|token| - 1])
    ensures |token| == 0 ==> r == parseFloat("")
  {
    parseFloat(if |token| == 0 then "" else token[..|token| - 1])
  }

  /** `extract_unit`: the last character; `None` where Python raises `IndexError`. */
  function ExtractUnit(token: string): (r: Option<char>)
    ensures r.Some? <==> |token| > 0
    ensures r.Some? ==> [r.value] == token[|token| - 1..]
  {
    if |token| == 0 then None else Some(token[|token| - 1])
  }

  /**
   The two extractors undo how the program prints a value token, the
   rendered number followed by its one-character unit: the unit comes back
   from the last character and the number from the text before it.
   */
  lemma ValueTokenSplits(text: string, unit: char, parseFloat: string -> Option<real>)
    ensures ExtractUnit(text + [unit]) == Some(unit)
    ensures ExtractValue(text + [unit], parseFloat) == parseFloat(text)
  {
  }

  /** `extract_values`, with the checks in the order Python evaluates them. */
  function ExtractValues(line: string, parseFloat: string -> Option<real>): (r: Parsed)
    ensures var parts := Split(line);
            (r.IndexError? <==> |parts| == 4 && |parts[0]| < 4) &&
            (r.Parsed? <==>
               |parts| == 4 && |parts[0]| >= 4 && IsDigit(parts[0][3]) && PyInt(parts[1]).Some? &&
               ExtractValue(parts[2], parseFloat).Some?)
    ensures var parts := Split(line);
            r.Parsed? ==>
              r.m.channel == DigitValue(parts[0][3]) && Some(r.m.adc) == PyInt(parts[1]) &&
              Some(r.m.value) == parseFloat(parts[2][..|parts[2]| - 1]) &&
              r.m.unit == parts[2][|parts[2]| - 1] && r.m.fieldName == parts[3]
  {
    var parts := Split(line);
    if |parts| != 4 then ValueError
    else if |parts[0]| < 4 then IndexError
    else
      var channel := PyInt([parts[0][3]]);
      PyIntOfChar(parts[0][3]);
      if channel.None? then ValueError
      else
        var adc := PyInt(parts[1]);
        if adc.None? then ValueError
        else
          var value := ExtractValue(parts[2], parseFloat);
          if value.None? then ValueError
          else
            var unit := ExtractUnit(parts[2]);
            Parsed(ConsoleMeasurement(channel.value, adc.value, value.value, unit.value, parts[3]))
  }

  /**
   The line format the parser expects, as the sample in the script shows
   it: `ADC<k>`, the raw reading, the value with its unit letter, and the
   field name, separated by tabs. `render` is the program's rendering of
   the value.
   */
  function ConsoleLine(m: ConsoleMeasurement, render: real -> string): string
    requires 0 <= m.channel < 10
  {
    "ADC" + [DigitChar(m.channel)] + "\t" + IntToDecimal(m.adc) + "\t" + render(m.value) + [m.unit] + "\t" +
    m.fieldName + "\n"
  }

  /** Four words with the given gaps around and between them. */
  lemma SpacedFour(a: string, b: string, c: string, d: string, g: seq<string>)
    requires |g| == 5
    ensures Spaced([a, b, c, d], g) == g[0] + a + g[1] + b + g[2] + c + g[3] + d + g[4]
  {
    var w := [a, b, c, d];
    var s4 := Spaced(w[4..], g[4..]);
    assert s4 == g[4];
    var s3 := Spaced(w[3..], g[3..]);
    assert w[3..][1..] == w[4..] && g[3..][1..] == g[4..];
    assert s3 == g[3] + d + s4;
    var s2 := Spaced(w[2..], g[2..]);
    assert w[2..][1..] == w[3..] && g[2..][1..] == g[3..];
    assert s2 == g[2] + c + s3;
    var s1 := Spaced(w[1..], g[1..]);
    assert w[1..][1..] == w[2..] && g[1..][1..] == g[2..];
    assert s1 == g[1] + b + s2;
    assert Spaced(w, g) == g[0] + a + s1;
  }

  lemma DecimalIsWord(n: int)
    ensures IsWord(IntToDecimal(n))
  {
    var t := IntToDecimal(n);
    forall i | 0 <= i < |t| ensures !IsSpace(t[i]) {
      assert IsDigit(t[i]) || t[i] == '-';
    }
  }

  lemma ChannelTokenIsWord(k: nat)
    requires k < 10
    ensures IsWord("ADC" + [DigitChar(k)])
  {
    var t := "ADC" + [DigitChar(k)];
    assert t[0] == 'A' && t[1] == 'D' && t[2] == 'C' && IsDigit(t[3]);
  }

  lemma ValueTokenIsWord(r: string, unit: char)
    requires forall i :: 0 <= i < |r| ==> !IsSpace(r[i])
    requires !IsSpace(unit)
    ensures IsWord(r + [unit])
  {
  }

  /** The tokens of a printed line. */
  lemma ConsoleLineSplits(m: ConsoleMeasurement, render: real -> string)
    requires 0 <= m.channel < 10
    requires forall i :: 0 <= i < |render(m.value)| ==> !IsSpace(render(m.value)[i])
    requires !IsSpace(m.unit) && IsWord(m.fieldName)
    ensures Split(ConsoleLine(m, render)) ==
            ["ADC" + [DigitChar(m.channel)], IntToDecimal(m.adc), render(m.value) + [m.unit], m.fieldName]
  {
    var words := ["ADC" + [DigitChar(m.channel)], IntToDecimal(m.adc), render(m.value) + [m.unit], m.fieldName];
    ChannelTokenIsWord(m.channel);
    DecimalIsWord(m.adc);
    ValueTokenIsWord(render(m.value), m.unit);
    var gaps := ["", "\t", "\t", "\t", "\n"];
    SpacedFour(words[0], words[1], words[2], words[3], gaps);
    assert Spaced(words, gaps) == ConsoleLine(m, render);
    SplitSpaced(words, gaps);
  }

  /**
   Parsing a printed line gives the measurement back, when the value's
   rendering reads back through `float()` and no part holds white space.
   A reading of more than 4300 digits is refused by `int()` instead.
   */
  lemma ExtractValuesReadsConsoleLine(m: ConsoleMeasurement, render: real -> string, parseFloat: string -> Option<real>)
    requires 0 <= m.channel < 10
    requires parseFloat(render(m.value)) == Some(m.value)
    requires forall i :: 0 <= i < |render(m.value)| ==> !IsSpace(render(m.value)[i])
    requires !IsSpace(m.unit) && IsWord(m.fieldName)
    ensures DecimalDigits(m.adc) <= IntMaxStrDigits ==> ExtractValues(ConsoleLine(m, render), parseFloat) == Parsed(m)
    ensures DecimalDigits(m.adc) > IntMaxStrDigits ==> ExtractValues(ConsoleLine(m, render), parseFloat) == ValueError
  {
    ConsoleLineSplits(m, render);
    var v := render(m.value) + [m.unit];
    assert v[..|v| - 1] == render(m.value);
    PyIntReadsDecimal(m.adc);
    PyIntOfChar(DigitChar(m.channel));
    assert ("ADC" + [DigitChar(m.channel)])[3] == DigitChar(m.channel);
  }

  // ---------------------------------------------------------------------
  // The reading loop
  // ---------------------------------------------------------------------

  /** The measurements of the lines that parse, in order: what the loop means to print. */
  function Kept(lines: seq<string>, parseFloat: string -> Option<real>): (out: seq<ConsoleMeasurement>)
    ensures |out| <= |lines|
  {
    if |lines| == 0 then []
    else
      var rest := Kept(lines[1..], parseFloat);
      match ExtractValues(lines[0], parseFloat)
      case Parsed(m) => [m] + rest
      case _ => rest
  }

  /** Whether the loop ran to the end, and what it printed. */
  datatype LoopResult = LoopResult(printed: seq<ConsoleMeasurement>, finished: bool)

  /** Index of the first line that raises `IndexError`, or the number of lines. */
  function FirstIndexError(lines: seq<string>, parseFloat: string -> Option<real>): (k: nat)
    ensures k <= |lines|
    ensures forall i :: 0 <= i < k ==> !ExtractValues(lines[i], parseFloat).IndexError?
    ensures k < |lines| ==> ExtractValues(lines[k], parseFloat).IndexError?
  {
    if |lines| == 0 then 0
    else if ExtractValues(lines[0], parseFloat).IndexError? then 0
    else 1 + FirstIndexError(lines[1..], parseFloat)
  }

  /**
   The loop as the script writes it: only `ValueError` is caught, so an
   `IndexError` ends the script with everything before it printed.
   */
  function ReadAsWritten(lines: seq<string>, parseFloat: string -> Option<real>): (r: LoopResult)
    ensures r.finished <==> FirstIndexError(lines, parseFloat) == |lines|
    ensures r.printed == Kept(lines[..FirstIndexError(lines, parseFloat)], parseFloat)
  {
    if |lines| == 0 then LoopResult([], true)
    else
      match ExtractValues(lines[0], parseFloat)
      case IndexError => LoopResult([], false)
      case ValueError =>
        assert lines[..FirstIndexError(lines, parseFloat)][1..] ==
               lines[1..][..FirstIndexError(lines[1..], parseFloat)];
        ReadAsWritten(lines[1..], parseFloat)
      case Parsed(m) =>
        assert lines[..FirstIndexError(lines, parseFloat)][1..] ==
               lines[1..][..FirstIndexError(lines[1..], parseFloat)];
        var rest := ReadAsWritten(lines[1..], parseFloat);
        LoopResult([m] + rest.printed, rest.finished)
  }

  /** A line with four tokens whose first token is shorter than four characters: `IndexError`. */
  lemma ShortChannelTokenRaises(parseFloat: string -> Option<real>)
    ensures ExtractValues("AD 24 0.86V x", parseFloat).IndexError?
  {
    var words := ["AD", "24", "0.86V", "x"];
    var gaps := ["", " ", " ", " ", ""];
    SpacedFour("AD", "24", "0.86V", "x", gaps);
    assert Spaced(words, gaps) == "AD 24 0.86V x";
    SplitSpaced(words, gaps);
  }

  /** One such line stops the script: the well-formed line after it is never printed. */
  lemma IndexErrorStopsReading(bad: string, good: string, parseFloat: string -> Option<real>)
    requires ExtractValues(bad, parseFloat).IndexError? && ExtractValues(good, parseFloat).Parsed?
    ensures ReadAsWritten([bad, good], parseFloat) == LoopResult([], false)
    ensures Kept([bad, good], parseFloat) == [ExtractValues(good, parseFloat).m]
  {
    assert [bad, good][1..] == [good];
  }

  /** One more line read: `Kept` grows by that line's measurement when it parses. */
  lemma {:induction false} KeptSnoc(lines: seq<string>, line: string, parseFloat: string -> Option<real>)
    ensures Kept(lines + [line], parseFloat) ==
            Kept(lines, parseFloat) + (match ExtractValues(line, parseFloat)
                                       case Parsed(m) => [m]
                                       case _ => [])
    decreases |lines|
  {
    if |lines| == 0 {
      assert ([] + [line])[1..] == [];
    } else {
      assert (lines + [line])[1..] == lines[1..] + [line];
      KeptSnoc(lines[1..], line, parseFloat);
    }
  }

  /** The loop as intended: every malformed line is skipped, the rest printed in order. */
  method ReadLoop(lines: seq<string>, parseFloat: string -> Option<real>) returns (printed: seq<ConsoleMeasurement>)
    ensures printed == Kept(lines, parseFloat)
  {
    printed := [];
    var i := 0;
    while i < |lines|
      invariant 0 <= i <= |lines|
      invariant printed == Kept(lines[..i], parseFloat)
    {
      assert lines[..i + 1] == lines[..i] + [lines[i]];
      KeptSnoc(lines[..i], lines[i], parseFloat);
      var parsed := ExtractValues(lines[i], parseFloat);
      if parsed.Parsed? {
        printed := printed + [parsed.m];
      }
      i := i + 1;
    }
    assert lines[..|lines|] == lines;
  }

  /** The two loops agree on every input with no `IndexError`. */
  lemma ReadLoopsAgree(lines: seq<string>, parseFloat: string -> Option<real>)
    requires forall i :: 0 <= i < |lines| ==> !ExtractValues(lines[i], parseFloat).IndexError?
    ensures ReadAsWritten(lines, parseFloat) == LoopResult(Kept(lines, parseFloat), true)
  {
    assert lines[..|lines|] == lines;
  }
}
