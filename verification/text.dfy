/**
 Character-level helpers shared by the record builder, the calibration
 command parser and the console-line parser: the optional-value datatype,
 decimal rendering as C's `%d` / `%ld` print it, and the integer prefix
 scan that `sscanf`'s `%d` performs.
 */
module Text {

  datatype Option<+T> = None | Some(value: T)

  predicate IsDigit(c: char) {
    '0' <= c <= '9'
  }

  predicate AllDigits(s: string) {
    forall i :: 0 <= i < |s| ==> IsDigit(s[i])
  }

  function DigitValue(c: char): (d: nat)
    requires IsDigit(c)
    ensures d < 10
  {
    c as int - '0' as int
  }

  function DigitChar(d: nat): (c: char)
    requires d < 10
    ensures IsDigit(c) && DigitValue(c) == d
  {
    ('0' as int + d) as char
  }

  /** The value of a string of decimal digits, most significant first. */
  function DigitsValue(s: string): nat
    requires AllDigits(s)
  {
    if |s| == 0 then 0 else DigitsValue(s[..|s| - 1]) * 10 + DigitValue(s[|s| - 1])
  }

  /** The decimal digits of `n` without leading zeros ("0" for zero). */
  function NatToDigits(n: nat): (s: string)
    ensures |s| > 0 && AllDigits(s)
    ensures |s| > 1 ==> s[0] != '0'
  {
    if n < 10 then [DigitChar(n)] else NatToDigits(n / 10) + [DigitChar(n % 10)]
  }

  lemma {:induction false} DigitsRoundTrip(n: nat)
    ensures DigitsValue(NatToDigits(n)) == n
  {
    if n >= 10 {
      var s := NatToDigits(n);
      assert s[..|s| - 1] == NatToDigits(n / 10);
      DigitsRoundTrip(n / 10);
    }
  }

  /** Rendering of a signed integer as `printf("%d")` / `printf("%ld")` writes it. */
  function IntToDecimal(n: int): (s: string)
    ensures |s| > 0
    ensures forall i :: 0 <= i < |s| ==> IsDigit(s[i]) || (i == 0 && s[i] == '-')
    ensures n >= 0 <==> s[0] != '-'
  {
    if n < 0 then "-" + NatToDigits(-n) else NatToDigits(n)
  }

  /** Number of leading decimal digits of `s`. */
  function DigitRun(s: string): (k: nat)
    ensures k <= |s| && AllDigits(s[..k])
    ensures k < |s| ==> !IsDigit(s[k])
  {
    if |s| > 0 && IsDigit(s[0]) then
      var k := 1 + DigitRun(s[1..]);
      assert s[..k] == [s[0]] + s[1..][..k - 1];
      k
    else 0
  }

  lemma {:induction false} DigitRunOfDigits(d: string, rest: string)
    requires AllDigits(d)
    requires |rest| == 0 || !IsDigit(rest[0])
    ensures DigitRun(d + rest) == |d|
  {
    if |d| > 0 {
      assert (d + rest)[1..] == d[1..] + rest;
      DigitRunOfDigits(d[1..], rest);
    } else {
      assert d + rest == rest;
    }
  }

  /**
   The conversion `sscanf`'s `%d` performs on text with no leading white
   space: an optional sign followed by at least one digit; the longest such
   prefix is consumed and anything after it is ignored. `None` when no digit
   follows the optional sign (the conversion fails).
   */
  function ScanInt(s: string): (r: Option<int>)
    ensures r.Some? <==>
      exists k :: 0 <= k < |s| && k <= 1 && IsDigit(s[k]) && (k == 1 ==> s[0] == '+' || s[0] == '-')
  {
    var neg := |s| > 0 && s[0] == '-';
    var start := if |s| > 0 && (s[0] == '-' || s[0] == '+') then 1 else 0;
    var k := DigitRun(s[start..]);
    if k == 0 then
      None
    else
      var v: int := DigitsValue(s[start..][..k]);
      Some(if neg then -v else v)
  }

  /** Scanning a rendered integer gives it back, whatever non-digit text follows it. */
  lemma ScanIntRoundTrip(n: int, rest: string)
    requires |rest| == 0 || !IsDigit(rest[0])
    ensures ScanInt(IntToDecimal(n) + rest) == Some(n)
  {
    var d := NatToDigits(if n < 0 then -n else n);
    var s := IntToDecimal(n) + rest;
    var start := if n < 0 then 1 else 0;
    assert s[start..] == d + rest;
    assert (s[0] == '-' <==> n < 0) && s[0] != '+' by {
      assert s[0] == IntToDecimal(n)[0];
    }
    DigitRunOfDigits(d, rest);
    assert DigitRun(s[start..]) == |d|;
    assert s[start..][..|d|] == d;
    DigitsRoundTrip(if n < 0 then -n else n);
  }

  /** Position of the first occurrence of `c` in `s` (`strchr` / `strcspn`). */
  function IndexOf(s: string, c: char): (r: Option<nat>)
    ensures r.Some? ==> r.value < |s| && s[r.value] == c && c !in s[..r.value]
    ensures r.None? ==> c !in s
  {
    if |s| == 0 then None
    else if s[0] == c then Some(0)
    else match IndexOf(s[1..], c)
      case None => None
      case Some(j) => assert s[..j + 1] == [s[0]] + s[1..][..j]; Some(j + 1)
  }

  lemma {:induction false} IndexOfAfter(p: string, c: char, rest: string)
    requires c !in p
    ensures IndexOf(p + [c] + rest, c) == Some(|p|)
  {
    if |p| > 0 {
      assert (p + [c] + rest)[1..] == p[1..] + [c] + rest;
      IndexOfAfter(p[1..], c, rest);
    }
  }

  /** The parts of `s` between occurrences of `c`; always at least one part. */
  function SplitOn(s: string, c: char): (parts: seq<string>)
    ensures |parts| > 0
    decreases |s|
  {
    match IndexOf(s, c)
    case None => [s]
    case Some(j) => [s[..j]] + SplitOn(s[j + 1..], c)
  }

  /** The parts joined with `c` between consecutive ones. */
  function JoinWith(parts: seq<string>, c: char): string
    requires |parts| > 0
  {
    if |parts| == 1 then parts[0] else parts[0] + [c] + JoinWith(parts[1..], c)
  }

  /** Splitting undoes joining when no part contains the separator. */
  lemma {:induction false} SplitJoin(parts: seq<string>, c: char)
    requires |parts| > 0
    requires forall i :: 0 <= i < |parts| ==> c !in parts[i]
    ensures SplitOn(JoinWith(parts, c), c) == parts
  {
    if |parts| == 1 {
      assert IndexOf(parts[0], c).None?;
    } else {
      var rest := JoinWith(parts[1..], c);
      IndexOfAfter(parts[0], c, rest);
      var s := parts[0] + [c] + rest;
      assert s[..|parts[0]|] == parts[0];
      assert s[|parts[0]| + 1..] == rest;
      SplitJoin(parts[1..], c);
      assert parts == [parts[0]] + parts[1..];
    }
  }

  /** Three parts joined by a separator none of them contains split back apart. */
  lemma SplitThree(a: string, b: string, d: string, c: char)
    requires c !in a && c !in b && c !in d
    ensures SplitOn(a + [c] + b + [c] + d, c) == [a, b, d]
  {
    var parts := [a, b, d];
    assert parts[1..] == [b, d];
    assert [b, d][1..] == [d];
    assert JoinWith([b, d], c) == b + [c] + d;
    assert JoinWith(parts, c) == a + [c] + (b + [c] + d);
    assert a + [c] + (b + [c] + d) == a + [c] + b + [c] + d;
    SplitJoin(parts, c);
  }
}
