/**
 The number codec of the INDI client: `getfloat` and the sexagesimal branch of
 `getformattedstring` (numberValue and numberFormat of the INDI protocol specification 1.7).
 Floats are modelled as reals.
 */
module Sexagesimal {
  import opened Wrappers
  import opened Reals
  import opened Rounding
  import opened Text

  datatype NumberError = TypeError

  // ---- parsing ----

  /** One part of a sexagesimal number; an empty part counts as 0. */
  function PartValue(part: string): Option<real> {
    if part == "" then Some(0.0) else PyFloat(part)
  }

  function Parts(body: string): seq<string> {
    if body == "" then ["0", "0", "0"]
    else if ' ' in body then Split(body, ' ')
    else if ':' in body then Split(body, ':')
    else if ';' in body then Split(body, ';')
    else [body, "0", "0"]
  }

  function Padded(parts: seq<string>): seq<string> {
    if |parts| == 1 then parts + ["0", "0"] else if |parts| == 2 then parts + ["0"] else parts
  }

  function Combine(parts: seq<string>): Result<real, NumberError> {
    var p := Padded(parts);
    if |p| != 3 then Err(TypeError)
    else
      match (PartValue(p[0]), PartValue(p[1]), PartValue(p[2]))
      case (Some(a), Some(b), Some(c)) => Ok(a + b / 60.0 + c / 3600.0)
      case _ => Err(TypeError)
  }

  function GetFloat(text: string): Result<real, NumberError> {
    var s := Strip(text);
    if s != "" && s[0] == '-' then
      match Combine(Parts(LStripChar(s, '-')))
      case Ok(x) => Ok(-x)
      case Err(e) => Err(e)
    else Combine(Parts(s))
  }

  // ---- printing ----

  /** The last unit a fraction code prints, with the field width and decimals of tenth seconds. */
  datatype Code = Minutes | TenthMinutes | Seconds | TenthSeconds(width: nat, decimals: nat)

  function CodeOf(f: string): (c: Option<Code>)
    ensures c.Some? && c.value.TenthSeconds? ==> 1 <= c.value.decimals <= 7 && c.value.width == c.value.decimals + 3
  {
    if f == "3" then Some(Minutes)
    else if f == "5" then Some(TenthMinutes)
    else if f == "6" then Some(Seconds)
    else if f == "8" then Some(TenthSeconds(4, 1))
    else
      match PyInt(f)
      case None => None
      case Some(n) => if 8 < n < 15 then Some(TenthSeconds(n - 4, n - 7)) else None
  }

  /** Whole degrees, whole minutes (0 for the two minute codes), and the count of the last unit. */
  datatype Shown = Shown(degrees: nat, minutes: nat, last: nat)

  /** Number of last units in the next larger field. */
  function Limit(c: Code): nat {
    if c.Minutes? || c.Seconds? then 60 else 600
  }

  /** The count of the last unit, rounded to nearest with halves to even. */
  function Rounded(x: real, c: Code): int {
    if c.Minutes? || c.Seconds? then Round(x) else Round(x * 10.0)
  }

  /** Splitting |value| into fields, rounding the last and carrying. */
  function Carried(a: real, c: Code): Shown
    requires a >= 0.0
  {
    var degrees: nat := a.Floor;
    var minutes := (a - degrees as real) * 60.0;
    if c.Minutes? || c.TenthMinutes? then
      var m := Rounded(minutes, c);
      if m == Limit(c) then Shown(degrees + 1, 0, 0) else if m < 0 then Shown(0, 0, 0) else Shown(degrees, 0, m)
    else
      var integerMinutes: nat := minutes.Floor;
      var s := Rounded((minutes - integerMinutes as real) * 60.0, c);
      if s == Limit(c) then
        if integerMinutes + 1 == 60 then Shown(degrees + 1, 0, 0) else Shown(degrees, integerMinutes + 1, 0)
      else if s < 0 then Shown(0, 0, 0)
      else Shown(degrees, integerMinutes, s)
  }

  function Render(sh: Shown, c: Code): string {
    var d := Digits(sh.degrees);
    match c
    case Minutes => d + ":" + ZeroPad(Digits(sh.last), 2)
    case TenthMinutes => d + ":" + Fixed(sh.last as real / 10.0, 4, 1)
    case Seconds => d + ":" + ZeroPad(Digits(sh.minutes), 2) + ":" + ZeroPad(Digits(sh.last), 2)
    case TenthSeconds(width, decimals) =>
      d + ":" + ZeroPad(Digits(sh.minutes), 2) + ":" + Fixed(sh.last as real / 10.0, width, decimals)
  }

  function Signed(value: real, c: Code): string {
    (if value < 0.0 then "-" else "") + Render(Carried(Abs(value), c), c)
  }

  predicate IsSexagesimal(format: string) {
    format != "" && format[0] == '%' && format[|format| - 1] == 'm'
  }

  /** getformattedstring for a format %<w>.<f>m. */
  function GetFormattedString(format: string, value: real): Result<string, NumberError>
    requires IsSexagesimal(format)
  {
    var parts := Split(format, '.');
    if |parts| != 2 then Err(TypeError)
    else
      var w, f := LStripChar(parts[0], '%'), RStripChar(parts[1], 'm');
      match CodeOf(f)
      case None => Err(TypeError)
      case Some(c) =>
        if w == "" then Ok(Signed(value, c))
        else
          match PyInt(w)
          case None => Err(TypeError)
          case Some(width) => Ok(RJust(Signed(value, c), width))
  }

  // ---- what the fields mean ----

  /** The number the printed fields denote. */
  function Denoted(sh: Shown, c: Code): real {
    match c
    case Minutes => sh.degrees as real + sh.last as real / 60.0
    case TenthMinutes => sh.degrees as real + sh.last as real / 600.0
    case Seconds => sh.degrees as real + sh.minutes as real / 60.0 + sh.last as real / 3600.0
    case TenthSeconds(_, _) => sh.degrees as real + sh.minutes as real / 60.0 + sh.last as real / 36000.0
  }

  /** Half of the last computed unit, in degrees. */
  function HalfUnit(c: Code): real {
    match c
    case Minutes => 0.5 / 60.0
    case TenthMinutes => 0.05 / 60.0
    case Seconds => 0.5 / 3600.0
    case TenthSeconds(_, _) => 0.05 / 3600.0
  }

  /** After carries, minutes and seconds are below 60 (600 tenths). */
  predicate InRange(sh: Shown, c: Code) {
    && sh.minutes < 60
    && sh.last < Limit(c)
    && (c.Minutes? || c.TenthMinutes? ==> sh.minutes == 0)
  }

  lemma CarriedMinutes(a: real, c: Code)
    requires a >= 0.0 && (c.Minutes? || c.TenthMinutes?)
    ensures InRange(Carried(a, c), c)
    ensures Abs(Denoted(Carried(a, c), c) - a) <= HalfUnit(c)
  {
    var minutes := (a - a.Floor as real) * 60.0;
    assert 0.0 <= minutes < 60.0;
    var m := Rounded(minutes, c);
    assert 0 <= m <= Limit(c) by {
      RoundMonotone(0.0, if c.Minutes? then minutes else minutes * 10.0);
      RoundMonotone(if c.Minutes? then minutes else minutes * 10.0, Limit(c) as real);
      RoundOfInt(0);
      RoundOfInt(Limit(c));
    }
  }

  lemma CarriedSeconds(a: real, c: Code)
    requires a >= 0.0 && (c.Seconds? || c.TenthSeconds?)
    ensures InRange(Carried(a, c), c)
    ensures Abs(Denoted(Carried(a, c), c) - a) <= HalfUnit(c)
  {
    var minutes := (a - a.Floor as real) * 60.0;
    assert 0.0 <= minutes < 60.0;
    var seconds := (minutes - minutes.Floor as real) * 60.0;
    assert 0.0 <= seconds < 60.0;
    var s := Rounded(seconds, c);
    assert 0 <= s <= Limit(c) by {
      RoundMonotone(0.0, if c.Seconds? then seconds else seconds * 10.0);
      RoundMonotone(if c.Seconds? then seconds else seconds * 10.0, Limit(c) as real);
      RoundOfInt(0);
      RoundOfInt(Limit(c));
    }
    assert minutes.Floor < 60;
    assert a == a.Floor as real + minutes.Floor as real / 60.0 + seconds / 3600.0;
  }

  /** Printed minutes and seconds stay below 60, and the printed number is within half the last unit. */
  lemma CarriedClose(a: real, c: Code)
    requires a >= 0.0
    ensures InRange(Carried(a, c), c)
    ensures Abs(Denoted(Carried(a, c), c) - a) <= HalfUnit(c)
  {
    if c.Minutes? || c.TenthMinutes? {
      CarriedMinutes(a, c);
    } else {
      CarriedSeconds(a, c);
    }
  }

  /** Splitting a printed number again finds the printed fields. */
  lemma CarriedOfDenoted(sh: Shown, c: Code)
    requires InRange(sh, c)
    ensures Denoted(sh, c) >= 0.0 && Carried(Denoted(sh, c), c) == sh
  {
    var a := Denoted(sh, c);
    RoundOfInt(sh.last);
    if c.Minutes? || c.TenthMinutes? {
      assert a.Floor == sh.degrees;
    } else {
      var rest := if c.Seconds? then sh.last as real / 60.0 else sh.last as real / 600.0;
      assert 0.0 <= rest < 1.0;
      assert a == sh.degrees as real + (sh.minutes as real + rest) / 60.0;
      assert a.Floor == sh.degrees;
      var minutes := (a - a.Floor as real) * 60.0;
      assert minutes == sh.minutes as real + rest;
      assert minutes.Floor == sh.minutes;
      assert (minutes - minutes.Floor as real) * 60.0 == rest * 60.0;
    }
  }

  // ---- reading the printed text back ----

  predicate Plain(s: string) {
    && s != "" && IsDigit(s[0]) && IsDigit(s[|s| - 1])
    && forall c :: c in s ==> IsDigit(c) || c == '.'
  }

  lemma PlainField(n: nat, w: int)
    ensures Plain(ZeroPad(Digits(n), w)) && PyFloat(ZeroPad(Digits(n), w)) == Some(n as real)
  {
    PyFloatOfInt(ZeroPad(Digits(n), w));
    PaddedValue(n, w);
  }

  lemma PlainTenths(last: nat, width: int, decimals: nat)
    requires decimals >= 1
    ensures Plain(Fixed(last as real / 10.0, width, decimals))
    ensures PyFloat(Fixed(last as real / 10.0, width, decimals)) == Some(last as real / 10.0)
  {
    hide *;
    var q := TenthsCount(last, decimals);
    FixedTenths(last, width, decimals, q);
    PlainPoint(q, width, decimals);
  }

  lemma PlainPoint(q: nat, width: int, decimals: nat)
    requires decimals >= 1
    ensures Plain(Point(q, width, decimals))
            && PyFloat(Point(q, width, decimals)) == Some(q as real / Pow10(decimals) as real)
  {
    PyFloatPoint(q, width, decimals);
  }

  /** Tenths as a count of the last printed decimal. */
  lemma TenthsCount(last: nat, decimals: nat) returns (q: nat)
    requires decimals >= 1
    ensures q as real == last as real / 10.0 * Pow10(decimals) as real
    ensures q as real / Pow10(decimals) as real == last as real / 10.0
  {
    TenthsAsPoint(last, Pow10(decimals - 1));
    q := last * Pow10(decimals - 1);
  }

  lemma FixedTenths(last: nat, width: int, decimals: nat, q: nat)
    requires decimals >= 1 && q as real == last as real / 10.0 * Pow10(decimals) as real
    ensures Fixed(last as real / 10.0, width, decimals) == Point(q, width, decimals)
  {
    hide Point, Pow10, Round;
    RoundOfInt(q);
    var y := last as real / 10.0 * Pow10(decimals) as real;
    assert Round(y) == q;
  }

  lemma TenthsAsPoint(last: nat, p: nat)
    requires p >= 1
    ensures last as real / 10.0 * (10 * p) as real == (last * p) as real
    ensures (last * p) as real / (10 * p) as real == last as real / 10.0
    ensures last * p >= 0
  {
    var l, r := last as real, p as real;
    assert (last * p) as real == l * r;
    assert (10 * p) as real == 10.0 * r;
    CancelFactor(l, r);
  }

  lemma CancelFactor(l: real, r: real)
    requires r > 0.0
    ensures l / 10.0 * (10.0 * r) == l * r
    ensures l * r / (10.0 * r) == l / 10.0
  {
  }

  /** A sexagesimal text: two or three plain fields between colons. */
  function Joined(a: string, b: string, c: string, three: bool): string {
    if three then a + ":" + b + ":" + c else a + ":" + b
  }

  lemma JoinedCharacters(a: string, b: string, c: string, three: bool)
    requires Plain(a) && Plain(b) && Plain(c)
    ensures var s := Joined(a, b, c, three);
            && s != "" && IsDigit(s[0]) && IsDigit(s[|s| - 1])
            && ' ' !in s && ':' in s
  {
    var s := Joined(a, b, c, three);
    assert s[|a|] == ':';
  }

  lemma JoinedParts(a: string, b: string, c: string, three: bool)
    requires Plain(a) && Plain(b) && Plain(c)
    ensures Parts(Joined(a, b, c, three)) == if three then [a, b, c] else [a, b]
  {
    JoinedCharacters(a, b, c, three);
    assert ':' !in a && ':' !in b && ':' !in c;
    if three {
      assert a + ":" + b + ":" + c == a + ":" + (b + ":" + c);
      SplitAt(a, b + ":" + c, ':');
      SplitAt(b, c, ':');
      SplitWhole(c, ':');
    } else {
      SplitAt(a, b, ':');
      SplitWhole(b, ':');
    }
  }

  lemma ZeroPart()
    ensures PartValue("0") == Some(0.0)
  {
    PlainField(0, 1);
    assert Digits(0) == "0";
  }

  lemma CombineThree(a: string, b: string, c: string, x: real, y: real, z: real)
    requires PartValue(a) == Some(x) && PartValue(b) == Some(y) && PartValue(c) == Some(z)
    ensures Combine([a, b, c]) == Ok(x + y / 60.0 + z / 3600.0)
  {
    hide PartValue;
    assert Padded([a, b, c]) == [a, b, c];
  }

  lemma CombineTwo(a: string, b: string, x: real, y: real)
    requires PartValue(a) == Some(x) && PartValue(b) == Some(y)
    ensures Combine([a, b]) == Ok(x + y / 60.0)
  {
    PadsTwo(a, b);
    hide *;
    ZeroPart();
    CombineThree(a, b, "0", x, y, 0.0);
    assert 0.0 / 3600.0 == 0.0;
  }

  lemma PadsTwo(a: string, b: string)
    ensures Combine([a, b]) == Combine([a, b, "0"])
  {
    assert Padded([a, b]) == [a, b, "0"] == Padded([a, b, "0"]);
    hide PartValue;
  }

  lemma CombineJoined(a: string, b: string, c: string, three: bool, x: real, y: real, z: real)
    requires Plain(a) && Plain(b) && Plain(c)
    requires PyFloat(a) == Some(x) && PyFloat(b) == Some(y) && PyFloat(c) == Some(z)
    ensures var s := Joined(a, b, c, three);
            && s != "" && IsDigit(s[0]) && IsDigit(s[|s| - 1])
            && Combine(Parts(s)) == Ok(x + y / 60.0 + (if three then z else 0.0) / 3600.0)
  {
    hide Parts, Combine, PyFloat, Joined;
    JoinedCharacters(a, b, c, three);
    JoinedParts(a, b, c, three);
    if three {
      CombineThree(a, b, c, x, y, z);
    } else {
      CombineTwo(a, b, x, y);
    }
  }

  /** Sign and right-justification do not disturb parsing. */
  lemma GetFloatOfSigned(core: string, negative: bool, w: int)
    requires core != "" && IsDigit(core[0]) && IsDigit(core[|core| - 1])
    ensures var s := (if negative then "-" else "") + core;
            && Strip(RJust(s, w)) == s && Strip(s) == s
            && GetFloat(RJust(s, w)) == GetFloat(s)
            && GetFloat(s) == match Combine(Parts(core))
                              case Ok(x) => Ok(if negative then -x else x)
                              case Err(e) => Err(e)
  {
    hide Strip, RJust, Parts, Combine;
    var s := (if negative then "-" else "") + core;
    StripRJust(s, w);
    StripDigits(s);
    if negative {
      assert s[1..] == core;
      assert LStripChar(s, '-') == core;
    } else {
      assert s == core;
    }
  }

  /** The text of the last field. */
  function LastField(sh: Shown, c: Code): string {
    match c
    case Minutes => ZeroPad(Digits(sh.last), 2)
    case TenthMinutes => Fixed(sh.last as real / 10.0, 4, 1)
    case Seconds => ZeroPad(Digits(sh.last), 2)
    case TenthSeconds(width, decimals) => Fixed(sh.last as real / 10.0, width, decimals)
  }

  function LastValue(sh: Shown, c: Code): real {
    if c.Minutes? || c.Seconds? then sh.last as real else sh.last as real / 10.0
  }

  lemma LastFieldParses(sh: Shown, c: Code)
    requires c.TenthSeconds? ==> c.decimals >= 1
    ensures Plain(LastField(sh, c)) && PyFloat(LastField(sh, c)) == Some(LastValue(sh, c))
  {
    hide PyFloat, Fixed, ZeroPad, Digits, Plain;
    match c {
      case Minutes => PlainField(sh.last, 2);
      case TenthMinutes => PlainTenths(sh.last, 4, 1);
      case Seconds => PlainField(sh.last, 2);
      case TenthSeconds(width, decimals) => PlainTenths(sh.last, width, decimals);
    }
  }

  lemma RenderIsJoined(sh: Shown, c: Code)
    ensures var d, m, l := Digits(sh.degrees), ZeroPad(Digits(sh.minutes), 2), LastField(sh, c);
            Render(sh, c) == if c.Minutes? || c.TenthMinutes? then Joined(d, l, l, false) else Joined(d, m, l, true)
  {
  }

  lemma RenderParses(sh: Shown, c: Code)
    requires InRange(sh, c) && (c.TenthSeconds? ==> c.decimals >= 1)
    ensures Render(sh, c) != "" && IsDigit(Render(sh, c)[0]) && IsDigit(Render(sh, c)[|Render(sh, c)| - 1])
    ensures Combine(Parts(Render(sh, c))) == Ok(Denoted(sh, c))
  {
    hide Render, Parts, Combine, PyFloat, LastField, Digits, Joined, Plain;
    var d, m, l := Digits(sh.degrees), ZeroPad(Digits(sh.minutes), 2), LastField(sh, c);
    assert d == ZeroPad(d, 0);
    PlainField(sh.degrees, 0);
    PlainField(sh.minutes, 2);
    LastFieldParses(sh, c);
    RenderIsJoined(sh, c);
    if c.Minutes? || c.TenthMinutes? {
      CombineJoined(d, l, l, false, sh.degrees as real, LastValue(sh, c), LastValue(sh, c));
    } else {
      CombineJoined(d, m, l, true, sh.degrees as real, sh.minutes as real, LastValue(sh, c));
    }
  }

  // ---- main results ----

  /** The number a printed value denotes: the rounded magnitude with the value's sign. */
  function Reading(value: real, c: Code): real {
    var x := Denoted(Carried(Abs(value), c), c);
    if value < 0.0 then -x else x
  }

  lemma SignedParses(value: real, c: Code, w: int)
    requires c.TenthSeconds? ==> c.decimals >= 1
    ensures GetFloat(Signed(value, c)) == Ok(Reading(value, c))
    ensures GetFloat(RJust(Signed(value, c), w)) == Ok(Reading(value, c))
    ensures Strip(RJust(Signed(value, c), w)) == Signed(value, c)
  {
    hide Strip, RJust, GetFloat, Render, Parts, Combine, Carried, Denoted;
    var sh := Carried(Abs(value), c);
    CarriedClose(Abs(value), c);
    RenderParses(sh, c);
    GetFloatOfSigned(Render(sh, c), value < 0.0, w);
  }

  lemma ReadingClose(value: real, c: Code)
    ensures Abs(Reading(value, c) - value) <= HalfUnit(c)
  {
    CarriedClose(Abs(value), c);
  }

  /** Printing the number read back repeats the text, except that a negative zero loses its sign. */
  lemma SignedAgain(value: real, c: Code)
    requires c.TenthSeconds? ==> c.decimals >= 1
    ensures Signed(Reading(value, c), c) == Signed(value, c) <==> !(value < 0.0 && Reading(value, c) == 0.0)
  {
    var sh := Carried(Abs(value), c);
    CarriedClose(Abs(value), c);
    CarriedOfDenoted(sh, c);
    var x := Denoted(sh, c);
    assert Abs(Reading(value, c)) == x;
    if value < 0.0 && x == 0.0 {
      assert Signed(Reading(value, c), c) == "" + Render(sh, c);
      assert |Signed(value, c)| == 1 + |Render(sh, c)|;
    }
  }

  /** A magnitude prints as zero exactly up to half the last unit, that half included. */
  lemma PrintsZero(a: real, c: Code)
    requires a >= 0.0
    ensures Denoted(Carried(a, c), c) == 0.0 <==> a <= HalfUnit(c)
  {
    CarriedClose(a, c);
    if a <= HalfUnit(c) {
      assert a.Floor == 0;
      var minutes := (a - a.Floor as real) * 60.0;
      if c.Minutes? || c.TenthMinutes? {
        RoundsToZero(if c.Minutes? then minutes else minutes * 10.0);
      } else {
        assert minutes.Floor == 0;
        var seconds := (minutes - minutes.Floor as real) * 60.0;
        RoundsToZero(if c.Seconds? then seconds else seconds * 10.0);
      }
    }
  }

  lemma RoundsToZero(x: real)
    requires 0.0 <= x <= 0.5
    ensures Round(x) == 0
  {
    assert x.Floor == 0;
  }

  lemma SignedAgainIff(value: real, c: Code)
    requires c.TenthSeconds? ==> c.decimals >= 1
    ensures Signed(Reading(value, c), c) == Signed(value, c) <==> !(-HalfUnit(c) <= value < 0.0)
  {
    hide *;
    SignedAgain(value, c);
    if value < 0.0 {
      ReadsZero(value, c);
    }
  }

  lemma ReadsZero(value: real, c: Code)
    requires value < 0.0
    ensures Reading(value, c) == 0.0 <==> -HalfUnit(c) <= value
  {
    hide Carried, Denoted, HalfUnit;
    PrintsZero(-value, c);
  }

  /** The fraction code of a format the printer accepts. */
  function FormatCode(format: string): (c: Code)
    requires IsSexagesimal(format) && GetFormattedString(format, 0.0).Ok?
    ensures c.TenthSeconds? ==> c.decimals >= 1
  {
    CodeOf(RStripChar(Split(format, '.')[1], 'm')).value
  }

  /**
   For every value, sign, width and fraction code the printer accepts: printing never fails, and
   parsing the printed text succeeds within half the last computed unit.
   */
  lemma RoundTrip(format: string, value: real)
    requires IsSexagesimal(format) && GetFormattedString(format, 0.0).Ok?
    ensures GetFormattedString(format, value).Ok?
    ensures GetFloat(GetFormattedString(format, value).value) == Ok(Reading(value, FormatCode(format)))
    ensures Abs(Reading(value, FormatCode(format)) - value) <= HalfUnit(FormatCode(format))
    ensures InRange(Carried(Abs(value), FormatCode(format)), FormatCode(format))
  {
    var c := FormatCode(format);
    var w := LStripChar(Split(format, '.')[0], '%');
    SignedParses(value, c, if w == "" then 0 else PyInt(w).value);
    CarriedClose(Abs(value), c);
    ReadingClose(value, c);
  }

  /**
   Reprinting the parsed value repeats the text exactly when the value is not below zero by at most half
   the last unit: those print as a negative zero, whose sign is lost.
   */
  lemma Reprint(format: string, value: real)
    requires IsSexagesimal(format) && GetFormattedString(format, 0.0).Ok?
    ensures var c := FormatCode(format);
            GetFormattedString(format, Reading(value, c)) == GetFormattedString(format, value)
            <==> !(-HalfUnit(c) <= value < 0.0)
  {
    var c := FormatCode(format);
    var again := Reading(value, c);
    var w := LStripChar(Split(format, '.')[0], '%');
    SignedAgainIff(value, c);
    hide Signed, Reading, HalfUnit, GetFloat, Strip;
    if w != "" {
      SignedParses(value, c, PyInt(w).value);
      SignedParses(again, c, PyInt(w).value);
    }
  }

  /** A value just below zero prints with a sign that a reprint drops. */
  lemma NegativeZeroExample()
    ensures Signed(-0.001, Minutes) == "-0:00"
    ensures GetFloat("-0:00") == Ok(0.0)
    ensures Signed(0.0, Minutes) == "0:00"
  {
    hide GetFloat, Carried, Render;
    ZeroShown(0.001);
    ZeroShown(0.0);
    SignedParses(-0.001, Minutes, 0);
    assert "-" + "0:00" == "-0:00";
  }

  lemma ZeroShown(a: real)
    requires 0.0 <= a <= 0.001
    ensures Carried(a, Minutes) == Shown(0, 0, 0) && Render(Shown(0, 0, 0), Minutes) == "0:00"
  {
    assert a.Floor == 0;
    assert Digits(0) == "0" && ZeroPad("0", 2) == "00";
  }
}
