/** Numbers as text: what `%04hu` and `%06x` print and what `%hu`, `%06x` and strtol read back. */
module Text {
  import opened Arith
  import opened Options

  const DIGITS := "0123456789abcdef"

  predicate IsBase(b: nat) {
    b == 10 || b == 16
  }

  function DigitChar(d: nat): char
    requires d < 16
  {
    DIGITS[d]
  }

  /** The value of a digit, or 16 for any other character. Upper case hex is read, never printed. */
  function DigitValue(c: char): (d: nat)
    ensures d <= 16
  {
    if '0' <= c <= '9' then c as nat - '0' as nat
    else if 'a' <= c <= 'f' then c as nat - 'a' as nat + 10
    else if 'A' <= c <= 'F' then c as nat - 'A' as nat + 10
    else 16
  }

  lemma DigitRoundTrip(d: nat)
    requires d < 16
    ensures DigitValue(DigitChar(d)) == d && DigitChar(d) != ':'
  {
    assert DIGITS == ['0', '1', '2', '3', '4', '5', '6', '7', '8', '9', 'a', 'b', 'c', 'd', 'e', 'f'];
  }

  predicate AllDigits(s: string, b: nat) {
    forall i :: 0 <= i < |s| ==> DigitValue(s[i]) < b
  }

  /** The shortest text of a number. */
  function Digits(n: nat, b: nat): (s: string)
    requires IsBase(b)
    ensures |s| >= 1
  {
    if n < b then [DigitChar(n)] else Digits(n / b, b) + [DigitChar(n % b)]
  }

  function Zeros(n: nat): string {
    seq(n, _ => '0')
  }

  /** `%0<width>u` or `%0<width>x`: zeros on the left up to the width, more characters if it takes more. */
  function Print(n: nat, b: nat, width: nat): (s: string)
    requires IsBase(b)
  {
    var s := Digits(n, b);
    if |s| < width then Zeros(width - |s|) + s else s
  }

  /** The number that a text of digits stands for. */
  function Value(s: string, b: nat): nat {
    if s == "" then 0 else Value(s[..|s| - 1], b) * b + DigitValue(s[|s| - 1])
  }

  lemma {:induction false} DigitsValue(n: nat, b: nat)
    requires IsBase(b)
    ensures AllDigits(Digits(n, b), b) && Value(Digits(n, b), b) == n
  {
    if n < b {
      DigitRoundTrip(n);
      assert Value([DigitChar(n)], b) == Value("", b) * b + n;
    } else {
      DigitsValue(n / b, b);
      DigitRoundTrip(n % b);
      var s := Digits(n, b);
      assert s[..|s| - 1] == Digits(n / b, b);
    }
  }

  lemma {:induction false} ValueSkipsZeros(k: nat, s: string, b: nat)
    requires IsBase(b)
    ensures Value(Zeros(k) + s, b) == Value(s, b)
  {
    if s != "" {
      ValueSkipsZeros(k, s[..|s| - 1], b);
      assert (Zeros(k) + s)[..k + |s| - 1] == Zeros(k) + s[..|s| - 1];
    } else if k > 0 {
      assert (Zeros(k) + s)[..k - 1] == Zeros(k - 1) + "";
      ValueSkipsZeros(k - 1, "", b);
    }
  }

  /** The shortest text has at most `w` digits exactly if the number is below `b^w`. */
  lemma {:induction false} DigitsLength(n: nat, b: nat, w: nat)
    requires IsBase(b) && w >= 1
    ensures |Digits(n, b)| <= w <==> n < Power(b, w)
  {
    assert Power(b, w) == b * Power(b, w - 1);
    if n >= b {
      if w == 1 {
        assert Power(b, 0) == 1;
      } else {
        DigitsLength(n / b, b, w - 1);
        DivBlock(n, b);
        var p := Power(b, w - 1);
        if n / b < p { MulMonotone(n / b + 1, p, b); } else { MulMonotone(p, n / b, b); }
      }
    } else {
      MulMonotone(1, Power(b, w - 1), b);
    }
  }

  lemma PadDigits(s: string, k: nat, b: nat)
    requires IsBase(b) && AllDigits(s, b)
    ensures AllDigits(Zeros(k) + s, b) && Value(Zeros(k) + s, b) == Value(s, b)
  {
    ValueSkipsZeros(k, s, b);
  }

  /** Printing and reading back; the text takes exactly the width if and only if the number fits it. */
  lemma PrintValue(n: nat, b: nat, width: nat)
    requires IsBase(b) && width >= 1
    ensures AllDigits(Print(n, b, width), b) && Value(Print(n, b, width), b) == n
    ensures |Print(n, b, width)| >= width
    ensures |Print(n, b, width)| == width <==> n < Power(b, width)
  {
    var s := Digits(n, b);
    DigitsValue(n, b);
    DigitsLength(n, b, width);
    if |s| < width { PadDigits(s, width - |s|, b); }
  }

  /** Length of the longest run of digits at the front, no longer than `max`. */
  function RunLength(s: string, b: nat, max: nat): (n: nat)
    ensures n <= |s| && n <= max
  {
    if s == "" || max == 0 || DigitValue(s[0]) >= b then 0 else 1 + RunLength(s[1..], b, max - 1)
  }

  /** Reads a number of at most `max` digits; fails without a digit. Answers the value and what is left. */
  function ScanNumber(s: string, b: nat, max: nat): Option<(nat, string)> {
    var n := RunLength(s, b, max);
    if n == 0 then None else Some((Value(s[..n], b), s[n..]))
  }

  lemma {:induction false} RunLengthOf(s: string, rest: string, b: nat, max: nat)
    requires AllDigits(s, b) && |s| <= max
    requires |s| == max || rest == "" || DigitValue(rest[0]) >= b
    ensures RunLength(s + rest, b, max) == |s|
  {
    if s == "" {
      assert s + rest == rest;
    } else {
      assert (s + rest)[1..] == s[1..] + rest;
      RunLengthOf(s[1..], rest, b, max - 1);
    }
  }

  lemma ScanPrinted(n: nat, b: nat, width: nat, rest: string, max: nat)
    requires IsBase(b) && 1 <= width && |Print(n, b, width)| <= max
    requires |Print(n, b, width)| == max || rest == "" || DigitValue(rest[0]) >= b
    ensures ScanNumber(Print(n, b, width) + rest, b, max) == Some((n, rest))
  {
    var s := Print(n, b, width);
    PrintValue(n, b, width);
    RunLengthOf(s, rest, b, max);
    assert (s + rest)[..|s|] == s && (s + rest)[|s|..] == rest;
  }
}
