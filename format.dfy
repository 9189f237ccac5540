/** Duration formatting of app.js:34-47: `pad`, `msToHMS` and `msToHM`,
    together with the JavaScript number operations they use. */
module Format {

  predicate IsDigit(c: char)
  {
    '0' <= c <= '9'
  }

  predicate AllDigits(s: string)
  {
    forall c :: c in s ==> IsDigit(c)
  }

  function DigitChar(d: nat): (c: char)
    requires d < 10
    ensures IsDigit(c)
  {
    ('0' as int + d) as char
  }

  function DigitValue(c: char): (d: nat)
    requires IsDigit(c)
    ensures d < 10
  {
    c as int - '0' as int
  }

  /** The number a string of decimal digits denotes. */
  function ValueOf(s: string): nat
    requires AllDigits(s)
  {
    if s == [] then 0 else ValueOf(s[..|s| - 1]) * 10 + DigitValue(s[|s| - 1])
  }

  /** `String(n)` for a non-negative integer: its decimal digits, without
      leading zeros. */
  function NatToString(n: nat): (r: string)
    ensures 1 <= |r| && AllDigits(r)
    ensures r[0] == '0' ==> n == 0
  {
    if n < 10 then [DigitChar(n)] else NatToString(n / 10) + [DigitChar(n % 10)]
  }

  /** `String(n)` for any integer (the exponent notation JavaScript uses from
      10^21 on is not modelled). */
  function IntToString(n: int): string
  {
    if n < 0 then "-" + NatToString(-n) else NatToString(n)
  }

  /** Reading back the digits `String(n)` writes gives `n`. */
  lemma {:induction false} NatToStringRoundTrip(n: nat)
    ensures ValueOf(NatToString(n)) == n
  {
    if n >= 10 {
      var r := NatToString(n);
      NatToStringRoundTrip(n / 10);
      assert r[..|r| - 1] == NatToString(n / 10);
    }
  }

  /** `String(n).padStart(2, '0')`. */
  function Pad(n: int): string
  {
    var s := IntToString(n);
    if |s| < 2 then "0" + s else s
  }

  /** For non-negative `n`, `pad` writes at least two digits, exactly two below
      100, and they denote `n`; from 10 on it adds nothing to `String(n)`, so
      there is no leading zero. */
  lemma PadDigits(n: nat)
    ensures var r := Pad(n); 2 <= |r| && AllDigits(r) && ValueOf(r) == n
    ensures n < 100 ==> |Pad(n)| == 2
    ensures n >= 10 ==> Pad(n) == NatToString(n) && Pad(n)[0] != '0'
  {
    var s := NatToString(n);
    NatToStringRoundTrip(n);
    if |s| < 2 {
      var r := "0" + s;
      assert r[..1] == "0" && r[1] == s[0];
    } else if n < 100 {
      assert n >= 10;
      assert NatToString(n / 10) == [DigitChar(n / 10)];
    }
  }

  /** JavaScript's `Math.floor(a / b)` for a positive divisor (Dafny's `/`
      rounds toward negative infinity when the divisor is positive). */
  function FloorDiv(a: int, b: int): int
    requires b > 0
  {
    a / b
  }

  /** JavaScript's `a % b`: the remainder takes the sign of the dividend. */
  function TruncRem(a: int, b: int): (r: int)
    requires b > 0
    ensures a >= 0 ==> 0 <= r < b && r == a % b
    ensures a < 0 ==> -b < r <= 0
    ensures (a - r) % b == 0
  {
    if a >= 0 then
      MultipleHasNoRemainder(a - a % b, b, a / b);
      a % b
    else
      MultipleHasNoRemainder(a + (-a) % b, b, -((-a) / b));
      -((-a) % b)
  }

  lemma MultipleHasNoRemainder(x: int, b: int, q: int)
    requires b > 0 && x == q * b
    ensures x % b == 0
  {
    var d := q - x / b;
    assert b * d == x % b;
    if d >= 1 {
      assert b * d == b + b * (d - 1);
    } else if d <= -1 {
      assert b * d == -b + b * (d + 1);
    }
  }

  /** `msToHMS` (app.js:35-41): hours, minutes and seconds of `ms`. */
  function MsToHMS(ms: int): string
  {
    var s := FloorDiv(ms, 1000);
    var hh := FloorDiv(s, 3600);
    var mm := FloorDiv(TruncRem(s, 3600), 60);
    var ss := TruncRem(s, 60);
    Pad(hh) + ":" + Pad(mm) + ":" + Pad(ss)
  }

  /** `msToHM` (app.js:42-47): hours and minutes of `ms`. */
  function MsToHM(ms: int): string
  {
    var s := FloorDiv(ms, 1000);
    var hh := FloorDiv(s, 3600);
    var mm := FloorDiv(TruncRem(s, 3600), 60);
    Pad(hh) + ":" + Pad(mm)
  }

  /** Whole seconds split into hours, minutes below 60 and seconds below 60
      (the fields `msToHMS` computes, for a non-negative count). */
  lemma ClockFields(s: nat)
    ensures FloorDiv(TruncRem(s, 3600), 60) < 60 && TruncRem(s, 60) < 60
    ensures FloorDiv(s, 3600) * 3600 + FloorDiv(TruncRem(s, 3600), 60) * 60 + TruncRem(s, 60) == s
  {
    var q, r := s / 3600, s % 3600;
    assert s == q * 3600 + r;
    assert r == (r / 60) * 60 + r % 60;
    assert s == (q * 60 + r / 60) * 60 + r % 60;
    assert s % 60 == r % 60;
  }

  /** Where the parts of `h:m:c` lie when `m` and `c` have two characters. */
  lemma ThreeFields(h: string, m: string, c: string)
    requires |m| == 2 && |c| == 2
    ensures var r := h + ":" + m + ":" + c; var n := |r|;
      && n == |h| + 6 && r[n - 6] == ':' && r[n - 3] == ':'
      && r[..n - 6] == h && r[n - 5..n - 3] == m && r[n - 2..] == c
  {
    var r := h + ":" + m + ":" + c;
    var n := |r|;
    assert r[..n - 6] == h;
    assert r[n - 5..n - 3] == m;
    assert r[n - 2..] == c;
  }

  /** Where the parts of `h:m` lie when `m` has two characters. */
  lemma TwoFields(h: string, m: string)
    requires |m| == 2
    ensures var r := h + ":" + m; var n := |r|;
      && n == |h| + 3 && r[n - 3] == ':' && r[..n - 3] == h && r[n - 2..] == m
  {
    var r := h + ":" + m;
    var n := |r|;
    assert r[..n - 3] == h;
    assert r[n - 2..] == m;
  }

  /** For non-negative `ms`, `msToHMS` writes `H:MM:SS`: the text before the
      last colon but one, the two digits between the colons and the two after
      the last colon are decimal numbers; hours have at least two digits;
      minutes and seconds are below 60; and together they are the whole seconds
      of `ms`. */
  lemma MsToHMSReadsBack(ms: nat)
    ensures var r := MsToHMS(ms); var n := |r|;
      && n >= 8 && r[n - 6] == ':' && r[n - 3] == ':'
      && AllDigits(r[..n - 6]) && AllDigits(r[n - 5..n - 3]) && AllDigits(r[n - 2..])
      && ValueOf(r[n - 5..n - 3]) < 60 && ValueOf(r[n - 2..]) < 60
      && ValueOf(r[..n - 6]) * 3600 + ValueOf(r[n - 5..n - 3]) * 60 + ValueOf(r[n - 2..]) == ms / 1000
  {
    var s := ms / 1000;
    var hh, mm, ss := FloorDiv(s, 3600), FloorDiv(TruncRem(s, 3600), 60), TruncRem(s, 60);
    ClockFields(s);
    PadDigits(hh);
    PadDigits(mm);
    PadDigits(ss);
    ThreeFields(Pad(hh), Pad(mm), Pad(ss));
    assert MsToHMS(ms) == Pad(hh) + ":" + Pad(mm) + ":" + Pad(ss);
  }

  /** For non-negative `ms`, `msToHM` writes `H:MM`: hours of at least two
      digits and minutes below 60 that together are the whole minutes of `ms`. */
  lemma MsToHMReadsBack(ms: nat)
    ensures var r := MsToHM(ms); var n := |r|;
      && n >= 5 && r[n - 3] == ':'
      && AllDigits(r[..n - 3]) && AllDigits(r[n - 2..])
      && ValueOf(r[n - 2..]) < 60
      && ValueOf(r[..n - 3]) * 60 + ValueOf(r[n - 2..]) == ms / 60000
  {
    var s := ms / 1000;
    var hh, mm := FloorDiv(s, 3600), FloorDiv(TruncRem(s, 3600), 60);
    ClockFields(s);
    PadDigits(hh);
    PadDigits(mm);
    TwoFields(Pad(hh), Pad(mm));
    assert MsToHM(ms) == Pad(hh) + ":" + Pad(mm);
    assert hh * 60 + mm == s / 60;
  }
}
