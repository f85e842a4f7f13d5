/** The Python string operations the INDI number codec uses, over ASCII text, and decimal numerals. */
module Text {
  import opened Wrappers
  import opened Rounding

  function Spaces(n: nat): (s: string)
    ensures |s| == n
  {
    seq(n, _ => ' ')
  }

  predicate IsSpace(c: char) {
    c == ' ' || ('\t' <= c <= '\r')
  }

  predicate IsDigit(c: char) {
    '0' <= c <= '9'
  }

  predicate AllDigits(s: string) {
    forall i :: 0 <= i < |s| ==> IsDigit(s[i])
  }

  // ---- strip, lstrip, rstrip, split, rjust ----

  function LStrip(s: string): string {
    if s != "" && IsSpace(s[0]) then LStrip(s[1..]) else s
  }

  function RStrip(s: string): string {
    if s != "" && IsSpace(s[|s| - 1]) then RStrip(s[..|s| - 1]) else s
  }

  function Strip(s: string): string {
    RStrip(LStrip(s))
  }

  function LStripChar(s: string, c: char): string {
    if s != "" && s[0] == c then LStripChar(s[1..], c) else s
  }

  function RStripChar(s: string, c: char): string {
    if s != "" && s[|s| - 1] == c then RStripChar(s[..|s| - 1], c) else s
  }

  /** Python s.split(sep) for a one-character separator. */
  function Split(s: string, sep: char): (parts: seq<string>)
    ensures |parts| >= 1
  {
    if s == "" then [""]
    else
      var rest := Split(s[1..], sep);
      if s[0] == sep then [""] + rest else [[s[0]] + rest[0]] + rest[1..]
  }

  /** Python s.rjust(w, ' '). */
  function RJust(s: string, w: int): string {
    if w > |s| then Spaces(w - |s|) + s else s
  }

  lemma {:induction false} LStripSpaces(n: nat, s: string)
    requires s != "" && !IsSpace(s[0])
    ensures LStrip(Spaces(n) + s) == s
  {
    if n == 0 {
      assert Spaces(0) + s == s;
    } else {
      assert (Spaces(n) + s)[1..] == Spaces(n - 1) + s;
      LStripSpaces(n - 1, s);
    }
  }

  /** Stripping undoes right-justification of a text without outer white space. */
  lemma StripRJust(s: string, w: int)
    requires s != "" && !IsSpace(s[0]) && !IsSpace(s[|s| - 1])
    ensures Strip(RJust(s, w)) == s
  {
    if w > |s| {
      LStripSpaces(w - |s|, s);
    }
  }

  lemma {:induction false} SplitWhole(s: string, sep: char)
    requires sep !in s
    ensures Split(s, sep) == [s]
  {
    if s != "" {
      assert sep !in s[1..];
      SplitWhole(s[1..], sep);
      assert [s[0]] + s[1..] == s;
    }
  }

  lemma {:induction false} SplitAt(a: string, b: string, sep: char)
    requires sep !in a
    ensures Split(a + [sep] + b, sep) == [a] + Split(b, sep)
  {
    var s := a + [sep] + b;
    if a == "" {
      assert s[1..] == b;
    } else {
      assert sep !in a[1..];
      assert s[1..] == a[1..] + [sep] + b;
      SplitAt(a[1..], b, sep);
      assert Split(s[1..], sep)[0] == a[1..] && Split(s[1..], sep)[1..] == Split(b, sep);
      assert [s[0]] + a[1..] == a;
    }
  }

  // ---- decimal numerals ----

  function Digit(d: nat): char
    requires d < 10
  {
    '0' + d as char
  }

  function DigitValue(c: char): nat
    requires IsDigit(c)
  {
    (c - '0') as nat
  }

  /** Python str(n). */
  function Digits(n: nat): (s: string)
    ensures s != "" && AllDigits(s)
  {
    if n < 10 then [Digit(n)] else Digits(n / 10) + [Digit(n % 10)]
  }

  /** The number a run of digits denotes; 0 for the empty run. */
  function Value(s: string): nat
    requires AllDigits(s)
  {
    if s == "" then 0 else 10 * Value(s[..|s| - 1]) + DigitValue(s[|s| - 1])
  }

  lemma {:induction false} ValueOfDigits(n: nat)
    ensures Value(Digits(n)) == n
  {
    var s := Digits(n);
    if n >= 10 {
      assert s[..|s| - 1] == Digits(n / 10);
      ValueOfDigits(n / 10);
    } else {
      assert s[..|s| - 1] == "";
    }
  }

  /** Python's zero padding of a numeral to a least width. */
  function ZeroPad(s: string, w: int): (r: string)
    ensures AllDigits(s) ==> AllDigits(r)
    ensures |r| == if w > |s| then w else |s|
  {
    if w > |s| then seq(w - |s|, _ => '0') + s else s
  }

  lemma {:induction false} ValueZeros(n: nat, s: string)
    requires AllDigits(s)
    ensures AllDigits(seq(n, _ => '0') + s)
    ensures Value(seq(n, _ => '0') + s) == Value(s)
    decreases n + |s|
  {
    var z := seq(n, _ => '0');
    var t := z + s;
    if s != "" {
      assert t[..|t| - 1] == z + s[..|s| - 1];
      ValueZeros(n, s[..|s| - 1]);
    } else if n > 0 {
      assert t[..|t| - 1] == seq(n - 1, _ => '0') + s;
      ValueZeros(n - 1, s);
    } else {
      assert t == s;
    }
  }

  lemma ValueZeroPad(s: string, w: int)
    requires AllDigits(s)
    ensures Value(ZeroPad(s, w)) == Value(s)
  {
    if w > |s| {
      ValueZeros(w - |s|, s);
    }
  }

  function Pow10(d: nat): (p: nat)
    ensures p >= 1
  {
    if d == 0 then 1 else 10 * Pow10(d - 1)
  }

  /** A number below 10^d needs at most d digits. */
  lemma {:induction false} DigitsLength(n: nat, d: nat)
    requires d >= 1 && n < Pow10(d)
    ensures |Digits(n)| <= d
  {
    if n >= 10 {
      assert Pow10(d) == 10 * Pow10(d - 1);
      DigitsLength(n / 10, d - 1);
    }
  }

  // ---- numbers with a decimal point ----

  function Quot(a: nat, b: nat): (q: nat)
    requires b > 0
    ensures q == a / b
  {
    a / b
  }

  function Rem(a: nat, b: nat): (r: nat)
    requires b > 0
    ensures r == a % b && r < b
  {
    a % b
  }

  /** Digits of q / 10^decimals, a point, and exactly `decimals` digits. */
  function Point(q: nat, width: int, decimals: nat): string {
    var p := Pow10(decimals);
    ZeroPad(Digits(Quot(q, p)), width - decimals - 1) + "." + ZeroPad(Digits(Rem(q, p)), decimals)
  }

  /** Python f"{x:0{width}.{decimals}f}" for x >= 0 and at least one decimal. */
  function Fixed(x: real, width: int, decimals: nat): string
    requires x >= 0.0
  {
    var q := Round(x * Pow10(decimals) as real);
    if q < 0 then "" else Point(q, width, decimals)
  }

  /** w and f / 10^decimals. */
  function Mixed(w: nat, f: nat, decimals: nat): real {
    w as real + f as real / Pow10(decimals) as real
  }

  /** An unsigned decimal numeral: digits, and an optional fraction. */
  function Decimal(body: string): Option<real> {
    var parts := Split(body, '.');
    if |parts| > 2 || !AllDigits(parts[0]) || (|parts| == 2 && !AllDigits(parts[1])) then None
    else
      var fraction := if |parts| == 2 then parts[1] else "";
      if parts[0] == "" && fraction == "" then None
      else Some(Mixed(Value(parts[0]), Value(fraction), |fraction|))
  }

  /** Digits with an optional sign. */
  function SignedDigits(s: string): Option<int> {
    if s != "" && AllDigits(s) then Some(Value(s))
    else if |s| > 1 && s[0] in {'-', '+'} && AllDigits(s[1..]) then
      var n: int := Value(s[1..]);
      Some(if s[0] == '-' then -n else n)
    else None
  }

  /** Where the exponent begins; the length when there is none. */
  function ExponentAt(body: string): (k: nat)
    ensures k <= |body|
    ensures (forall c :: c in body ==> IsDigit(c) || c == '.') ==> k == |body|
  {
    assert body != "" ==> body[0] in body;
    if body == "" || body[0] == 'e' || body[0] == 'E' then 0 else 1 + ExponentAt(body[1..])
  }

  /** x * 10^n */
  function Scaled(x: real, n: int): real {
    if n >= 0 then x * Pow10(n) as real else x / Pow10(-n) as real
  }

  /** A decimal numeral and an optional exponent. */
  function Numeral(body: string): Option<real> {
    var k := ExponentAt(body);
    if k == |body| then Decimal(body)
    else
      match (Decimal(body[..k]), SignedDigits(body[k + 1..]))
      case (Some(x), Some(n)) => Some(Scaled(x, n))
      case _ => None
  }

  /** The decimal numerals Python's float() reads, with an optional sign and exponent and outer white space. */
  function PyFloat(text: string): Option<real> {
    var s := Strip(text);
    if s == "" then None
    else if s[0] == '+' then Numeral(s[1..])
    else if s[0] == '-' then Negated(Numeral(s[1..]))
    else Numeral(s)
  }

  function Negated(value: Option<real>): Option<real> {
    match value
    case None => None
    case Some(x) => Some(-x)
  }

  /** Python's int() on an optionally signed run of digits with outer white space. */
  function PyInt(s: string): Option<int> {
    SignedDigits(Strip(s))
  }

  lemma {:induction false} StripDigits(s: string)
    requires s != "" && !IsSpace(s[0]) && !IsSpace(s[|s| - 1])
    ensures Strip(s) == s
  {
  }

  lemma NotInDigits(s: string, c: char)
    requires AllDigits(s) && !IsDigit(c)
    ensures c !in s
  {
  }

  lemma PyFloatUnsigned(s: string)
    requires s != "" && IsDigit(s[0]) && IsDigit(s[|s| - 1])
    requires forall c :: c in s ==> IsDigit(c) || c == '.'
    ensures PyFloat(s) == Decimal(s)
  {
    StripDigits(s);
  }

  lemma PyFloatOfInt(s: string)
    requires s != "" && AllDigits(s)
    ensures PyFloat(s) == Some(Value(s) as real)
  {
    hide *;
    PlainDigits(s);
    PyFloatUnsigned(s);
    NotInDigits(s, '.');
    SplitWhole(s, '.');
    WholeDecimal(s);
  }

  lemma PlainDigits(s: string)
    requires s != "" && AllDigits(s)
    ensures IsDigit(s[0]) && IsDigit(s[|s| - 1]) && !IsDigit('.')
    ensures forall c :: c in s ==> IsDigit(c) || c == '.'
  {
  }

  lemma WholeDecimal(s: string)
    requires s != "" && AllDigits(s) && Split(s, '.') == [s]
    ensures Decimal(s) == Some(Value(s) as real)
  {
    MixedWhole(Value(s));
    hide Mixed, Split;
  }

  lemma MixedWhole(n: nat)
    ensures Mixed(n, 0, 0) == n as real
  {
    assert 0.0 / 1.0 == 0.0;
  }

  lemma PyFloatOfFixed(a: string, b: string)
    requires a != "" && AllDigits(a) && b != "" && AllDigits(b)
    ensures PyFloat(a + "." + b) == Some(Mixed(Value(a), Value(b), |b|))
  {
    PointCharacters(a, b);
    PyFloatUnsigned(a + "." + b);
    SplitPoint(a, b);
    DecimalOfParts(a + "." + b, a, b);
  }

  lemma DecimalOfParts(s: string, a: string, b: string)
    requires Split(s, '.') == [a, b] && a != "" && AllDigits(a) && AllDigits(b)
    ensures Decimal(s) == Some(Mixed(Value(a), Value(b), |b|))
  {
  }

  lemma SplitPoint(a: string, b: string)
    requires AllDigits(a) && AllDigits(b)
    ensures Split(a + "." + b, '.') == [a, b]
  {
    NotInDigits(a, '.');
    NotInDigits(b, '.');
    SplitAt(a, b, '.');
    SplitWhole(b, '.');
  }

  /** Reading back a printed fixed-point number gives the number it was printed from. */
  lemma PyFloatPoint(q: nat, width: int, decimals: nat)
    requires decimals >= 1
    ensures PyFloat(Point(q, width, decimals)) == Some(q as real / Pow10(decimals) as real)
    ensures Point(q, width, decimals) != "" && IsDigit(Point(q, width, decimals)[0])
    ensures IsDigit(Point(q, width, decimals)[|Point(q, width, decimals)| - 1])
    ensures forall c :: c in Point(q, width, decimals) ==> IsDigit(c) || c == '.'
  {
    hide *;
    var w, f := Quot(q, Pow10(decimals)), Rem(q, Pow10(decimals));
    var a, b := ZeroPad(Digits(w), width - decimals - 1), ZeroPad(Digits(f), decimals);
    PointFields(q, width, decimals);
    PointCharacters(a, b);
    PyFloatOfFixed(a, b);
    PaddedValue(w, width - decimals - 1);
    PaddedValue(f, decimals);
    MixedIsQuotient(q, decimals);
  }

  /** The two fields of a printed fixed-point number, the second exactly as wide as the decimals. */
  lemma PointFields(q: nat, width: int, decimals: nat)
    requires decimals >= 1
    ensures var w, f := Quot(q, Pow10(decimals)), Rem(q, Pow10(decimals));
            var a, b := ZeroPad(Digits(w), width - decimals - 1), ZeroPad(Digits(f), decimals);
            Point(q, width, decimals) == a + "." + b && |b| == decimals && a != "" && AllDigits(a) && AllDigits(b)
  {
    hide Pow10, Digits;
    DigitsLength(Rem(q, Pow10(decimals)), decimals);
  }

  lemma MixedIsQuotient(q: nat, decimals: nat)
    ensures Mixed(Quot(q, Pow10(decimals)), Rem(q, Pow10(decimals)), decimals) == q as real / Pow10(decimals) as real
  {
    WholeAndFraction(q, Pow10(decimals));
  }

  lemma PaddedValue(n: nat, w: int)
    ensures Value(ZeroPad(Digits(n), w)) == n
  {
    ValueZeroPad(Digits(n), w);
    ValueOfDigits(n);
  }

  lemma PointCharacters(a: string, b: string)
    requires a != "" && AllDigits(a) && b != "" && AllDigits(b)
    ensures IsDigit((a + "." + b)[0]) && IsDigit((a + "." + b)[|a + "." + b| - 1])
    ensures forall c :: c in a + "." + b ==> IsDigit(c) || c == '.'
  {
  }

  lemma WholeAndFraction(q: nat, p: nat)
    requires p > 0
    ensures (q / p) as real + (q % p) as real / p as real == q as real / p as real
  {
    assert q == q / p * p + q % p;
    SplitQuotient(q as real, (q / p) as real, (q % p) as real, p as real);
  }

  lemma SplitQuotient(q: real, w: real, f: real, p: real)
    requires p > 0.0 && q == w * p + f
    ensures w + f / p == q / p
  {
  }

  lemma {:induction false} ExponentBegins(m: string, rest: string)
    requires forall c :: c in m ==> IsDigit(c) || c == '.'
    requires rest != "" && (rest[0] == 'e' || rest[0] == 'E')
    ensures ExponentAt(m + rest) == |m|
    decreases |m|
  {
    if m == "" {
      assert m + rest == rest;
    } else {
      assert m[0] in m && (m + rest)[1..] == m[1..] + rest;
      ExponentBegins(m[1..], rest);
    }
  }

  function SignedValue(sign: string, digits: string): int
    requires AllDigits(digits)
  {
    var n: int := Value(digits);
    if sign == "-" then -n else n
  }

  lemma SignedDigitsOf(sign: string, digits: string)
    requires sign in {"", "+", "-"} && digits != "" && AllDigits(digits)
    ensures SignedDigits(sign + digits) == Some(SignedValue(sign, digits))
  {
    if sign == "" {
      assert sign + digits == digits;
    } else {
      assert !IsDigit((sign + digits)[0]) && (sign + digits)[1..] == digits;
    }
  }

  lemma NumeralWithExponent(m: string, e: char, sign: string, digits: string)
    requires forall c :: c in m ==> IsDigit(c) || c == '.'
    requires e == 'e' || e == 'E'
    requires sign in {"", "+", "-"} && digits != "" && AllDigits(digits)
    ensures Numeral(m + [e] + (sign + digits)) ==
            match Decimal(m)
            case None => None
            case Some(x) => Some(Scaled(x, SignedValue(sign, digits)))
  {
    var tail := [e] + (sign + digits);
    var s := m + tail;
    assert m + [e] + (sign + digits) == s;
    ExponentBegins(m, tail);
    SignedDigitsOf(sign, digits);
    assert s[..|m|] == m && s[|m| + 1..] == sign + digits;
    hide Decimal, SignedDigits, ExponentAt, Scaled, Value, SignedValue;
  }

  lemma PyFloatSigned(lead: string, body: string)
    requires lead in {"", "+", "-"}
    requires body != "" && (IsDigit(body[0]) || body[0] == '.') && IsDigit(body[|body| - 1])
    ensures PyFloat(lead + body) == if lead == "-" then Negated(Numeral(body)) else Numeral(body)
  {
    hide Numeral, Strip;
    var s := lead + body;
    assert s[|s| - 1] == body[|body| - 1];
    StripDigits(s);
    if lead == "" {
      assert s == body;
    } else {
      assert s[0] == lead[0] && s[1..] == body;
    }
  }

  /** Any numeral with an exponent: its sign, its mantissa, times that power of ten. */
  lemma PyFloatWithExponent(lead: string, m: string, e: char, sign: string, digits: string)
    requires lead in {"", "+", "-"}
    requires m != "" && forall c :: c in m ==> IsDigit(c) || c == '.'
    requires e == 'e' || e == 'E'
    requires sign in {"", "+", "-"} && digits != "" && AllDigits(digits)
    ensures PyFloat(lead + (m + [e] + (sign + digits))) ==
            match Decimal(m)
            case None => None
            case Some(x) =>
              var y := Scaled(x, SignedValue(sign, digits));
              Some(if lead == "-" then -y else y)
  {
    hide PyFloat, Numeral, Decimal, Scaled, SignedValue;
    var body := m + [e] + (sign + digits);
    NumeralWithExponent(m, e, sign, digits);
    assert body[0] == m[0] && m[0] in m && body[|body| - 1] == digits[|digits| - 1];
    PyFloatSigned(lead, body);
  }
}
