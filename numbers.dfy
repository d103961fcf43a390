/**
 * Numeric cell normalisation: `numberFormatter` of the finance route (which
 * strips every character other than digits, `.` and `-`, then applies
 * `Number.parseFloat`) and `Number.parseInt(value, 10)` of the task route.
 * Numbers are exact reals; floating-point rounding and overflow are not modelled.
 */
module Numbers {
  import opened Text
  import opened Cells

  /** The characters that survive `replace(/[^0-9.-]/g, "")`. */
  predicate IsKept(c: char) {
    IsDigit(c) || c == '.' || c == '-'
  }

  ghost predicate IsCleaned(s: string) {
    forall i :: 0 <= i < |s| ==> IsKept(s[i])
  }

  /** `value.replace(/[^0-9.-]/g, "")`: keeps the kept characters, in order, and only them. */
  function Clean(s: string): (r: string)
    ensures IsCleaned(r) && |r| <= |s|
  {
    if s == [] then [] else (if IsKept(s[0]) then [s[0]] else []) + Clean(s[1..])
  }

  ghost predicate HasDigit(s: string) {
    exists i :: 0 <= i < |s| && IsDigit(s[i])
  }

  /** Cleaning adds no digit. */
  lemma {:induction false} CleanAddsNoDigit(s: string)
    ensures HasDigit(Clean(s)) ==> HasDigit(s)
  {
    if s != [] {
      CleanAddsNoDigit(s[1..]);
      var head := if IsKept(s[0]) then [s[0]] else [];
      assert Clean(s) == head + Clean(s[1..]);
      if HasDigit(Clean(s)) {
        var i :| 0 <= i < |Clean(s)| && IsDigit(Clean(s)[i]);
        if i < |head| {
          assert IsDigit(s[0]);
        } else {
          assert IsDigit(Clean(s[1..])[i - |head|]);
          var j :| 0 <= j < |s[1..]| && IsDigit(s[1..][j]);
          assert IsDigit(s[j + 1]);
        }
      }
    }
  }

  /** A string made only of kept characters is left as it is. */
  lemma {:induction false} CleanOfCleaned(s: string)
    requires IsCleaned(s)
    ensures Clean(s) == s
  {
    if s != [] {
      CleanOfCleaned(s[1..]);
      assert s == [s[0]] + s[1..];
    }
  }

  lemma {:induction false} CleanAppend(a: string, b: string)
    ensures Clean(a + b) == Clean(a) + Clean(b)
  {
    if a != [] {
      assert (a + b)[1..] == a[1..] + b;
      CleanAppend(a[1..], b);
    } else {
      assert a + b == b;
    }
  }

  /** Length of the longest prefix made of decimal digits. */
  function DigitRun(s: string): (n: nat)
    ensures n <= |s| && AllDigits(s[..n])
    ensures n < |s| ==> !IsDigit(s[n])
  {
    if s != [] && IsDigit(s[0]) then 1 + DigitRun(s[1..]) else 0
  }

  lemma {:induction false} DigitRunOfDigits(ds: string, rest: string)
    requires AllDigits(ds)
    requires rest == [] || !IsDigit(rest[0])
    ensures DigitRun(ds + rest) == |ds|
  {
    if ds != [] {
      assert (ds + rest)[1..] == ds[1..] + rest;
      DigitRunOfDigits(ds[1..], rest);
    } else {
      assert ds + rest == rest;
    }
  }

  function Pow10(n: nat): (p: nat)
    ensures p >= 1
  {
    if n == 0 then 1 else 10 * Pow10(n - 1)
  }

  /**
   * `Number.parseFloat` on a cleaned string: an optional `-`, then the longest
   * prefix of the form `digits[.digits]` or `.digits`; `None` is `NaN`. A
   * cleaned string holds no white space, `+`, exponent or `Infinity`, so the
   * rest of the `parseFloat` grammar cannot occur.
   */
  function ParseFloatPrefix(s: string): (r: Option<real>)
    requires IsCleaned(s)
    ensures r.Some? ==> HasDigit(s)
  {
    if |s| > 0 && s[0] == '-' then
      match UnsignedPrefix(s[1..])
      case Some(magnitude) => Some(-magnitude)
      case None => None
    else UnsignedPrefix(s)
  }

  /** The unsigned part of `parseFloat`: `digits[.digits]` or `.digits`. */
  function UnsignedPrefix(body: string): (r: Option<real>)
    ensures r.Some? ==> HasDigit(body)
  {
    var whole := DigitRun(body);
    var afterWhole := body[whole..];
    var fractionDigits := if |afterWhole| > 0 && afterWhole[0] == '.' then afterWhole[1..] else [];
    var fraction := DigitRun(fractionDigits);
    if whole == 0 && fraction == 0 then None
    else
      assert whole > 0 ==> IsDigit(body[0]);
      assert whole == 0 ==> IsDigit(fractionDigits[0]) && fractionDigits[0] == body[1];
      Some(DecimalValue(body[..whole], fractionDigits[..fraction]))
  }

  /** The value of `whole.fraction` written in decimal digits. */
  function DecimalValue(whole: string, fraction: string): real
    requires AllDigits(whole) && AllDigits(fraction)
  {
    DigitsValue(whole) as real + DigitsValue(fraction) as real / Pow10(|fraction|) as real
  }

  /**
   * `numberFormatter`: a finite number is kept, a string is cleaned and
   * parsed, everything else is `null`. Only a number, or a string holding
   * at least one digit, can produce a value.
   */
  function NumberFormatter(c: Cell): (r: Option<real>)
    ensures r.Some? ==> c.Num? || (c.Str? && HasDigit(c.s))
  {
    match c
    case Num(v, _) => Some(v)
    case Str(s) =>
      var cleaned := Clean(s);
      if cleaned == "" then None
      else
        var r := ParseFloatPrefix(cleaned);
        assert r.Some? ==> HasDigit(s) by { CleanAddsNoDigit(s); }
        r
    case _ => None
  }

  /** Characters other than digits, `.` and `-` never influence the result. */
  lemma NumberFormatterIgnoresNoise(s: string, noise: string)
    requires forall i :: 0 <= i < |noise| ==> !IsKept(noise[i])
    ensures NumberFormatter(Str(noise + s)) == NumberFormatter(Str(s))
    ensures NumberFormatter(Str(s + noise)) == NumberFormatter(Str(s))
  {
    NothingKept(noise);
    assert Clean(noise + s) == Clean(s) by {
      CleanAppend(noise, s);
      assert [] + Clean(s) == Clean(s);
    }
    assert Clean(s + noise) == Clean(s) by {
      CleanAppend(s, noise);
      assert Clean(s) + [] == Clean(s);
    }
    SameCleanSameNumber(noise + s, s);
    SameCleanSameNumber(s + noise, s);
  }

  /** `numberFormatter` sees a string only through its cleaned form. */
  lemma SameCleanSameNumber(s: string, t: string)
    requires Clean(s) == Clean(t)
    ensures NumberFormatter(Str(s)) == NumberFormatter(Str(t))
  {
  }

  lemma {:induction false} NothingKept(s: string)
    requires forall i :: 0 <= i < |s| ==> !IsKept(s[i])
    ensures Clean(s) == []
  {
    if s != [] {
      NothingKept(s[1..]);
    }
  }

  /** `parseFloat` reads a run of digits as its value. */
  lemma UnsignedDigits(ds: string)
    requires ds != [] && AllDigits(ds)
    ensures UnsignedPrefix(ds) == Some(DigitsValue(ds) as real)
  {
    DigitRunOfDigits(ds, []);
    assert ds + [] == ds;
    assert ds[..|ds|] == ds;
    assert ds[|ds|..] == [];
    assert DigitRun([]) == 0;
    assert DecimalValue(ds, []) == DigitsValue(ds) as real;
  }

  /** Round trip: the decimal rendering of a natural number normalises back to it. */
  lemma NumberFormatterReadsNaturals(n: nat)
    ensures NumberFormatter(Str(NatToString(n))) == Some(n as real)
  {
    var s := NatToString(n);
    CleanOfCleaned(s);
    UnsignedDigits(s);
    assert s[0] != '-' by { assert IsDigit(s[0]); }
    assert ParseFloatPrefix(s) == Some(n as real);
  }

  /** The runway example's cell: the text "45" reads as 45. */
  lemma NumberFormatterReadsFortyFive()
    ensures NumberFormatter(Str("45")) == Some(45.0)
  {
    NumberFormatterReadsNaturals(45);
    assert NatToString(4) == "4";
    assert DigitChar(5) == '5';
    assert NatToString(45) == "45";
  }

  /** A leading minus sign negates the value. */
  lemma NumberFormatterReadsNegatives(n: nat)
    ensures NumberFormatter(Str("-" + NatToString(n))) == Some(-(n as real))
  {
    var d := NatToString(n);
    var s := "-" + d;
    MinusDigitsCleaned(d);
    CleanOfCleaned(s);
    assert s[1..] == d;
    UnsignedDigits(d);
    assert ParseFloatPrefix(s) == Some(-(n as real));
  }

  lemma MinusDigitsCleaned(d: string)
    requires AllDigits(d)
    ensures IsCleaned("-" + d)
  {
    var s := "-" + d;
    forall i | 0 <= i < |s|
      ensures IsKept(s[i])
    {
      if i > 0 {
        assert s[i] == d[i - 1];
      }
    }
  }

  /**
   * Currency symbols and thousands separators are tolerated: a symbol, then
   * digit groups separated by commas, then a decimal fraction, reads as the
   * number the digits spell.
   */
  lemma NumberFormatterReadsCurrency(symbol: string, high: string, low: string, cents: string)
    requires forall i :: 0 <= i < |symbol| ==> !IsKept(symbol[i])
    requires high != [] && AllDigits(high) && AllDigits(low) && AllDigits(cents)
    ensures NumberFormatter(Str(symbol + high + "," + low + "." + cents)) == Some(DecimalValue(high + low, cents))
  {
    CleanCurrency(symbol, high, low, cents);
    ParseFloatDecimal(high + low, cents);
  }

  /** Cleaning a currency amount drops the symbol and the thousands separator. */
  lemma CleanCurrency(symbol: string, high: string, low: string, cents: string)
    requires forall i :: 0 <= i < |symbol| ==> !IsKept(symbol[i])
    requires AllDigits(high) && AllDigits(low) && AllDigits(cents)
    ensures Clean(symbol + high + "," + low + "." + cents) == high + low + "." + cents
  {
    var fraction := low + "." + cents;
    CleanWholePart(symbol, high);
    CleanOfCleaned(fraction);
    assert symbol + high + "," + low + "." + cents == (symbol + high + ",") + fraction;
    CleanAppend(symbol + high + ",", fraction);
    assert high + fraction == high + low + "." + cents;
  }

  /** The symbol and the separator after the leading digit group are dropped. */
  lemma CleanWholePart(symbol: string, high: string)
    requires forall i :: 0 <= i < |symbol| ==> !IsKept(symbol[i])
    requires AllDigits(high)
    ensures Clean(symbol + high + ",") == high
  {
    NothingKept(symbol);
    CommaDropped();
    CleanOfCleaned(high);
    CleanAppend(symbol, high);
    CleanAppend(symbol + high, ",");
    assert Clean(symbol + high + ",") == [] + high + [];
    assert [] + high + [] == high;
  }

  lemma CommaDropped()
    ensures Clean(",") == []
  {
    assert !IsKept(","[0]);
    assert ","[1..] == [];
  }

  /** The example of a formatted amount: "$1,234.56" reads as 1234.56. */
  lemma NumberFormatterReadsDollarAmount()
    ensures NumberFormatter(Str("$1,234.56")) == Some(1234.56)
  {
    assert !IsKept("$"[0]);
    NumberFormatterReadsCurrency("$", "1", "234", "56");
    DollarAmountText();
    DecimalValueExample();
  }

  lemma DollarAmountText()
    ensures "$" + "1" + "," + "234" + "." + "56" == "$1,234.56"
  {
  }

  lemma DecimalValueExample()
    ensures DecimalValue("1" + "234", "56") == 1234.56
  {
    assert "1" + "234" == "1234";
    assert DigitsValue("1234") == 1234 by {
      assert "1234"[..3] == "123" && "123"[..2] == "12" && "12"[..1] == "1" && "1"[..0] == "";
    }
    assert DigitsValue("56") == 56 by {
      assert "56"[..1] == "5" && "5"[..0] == "";
    }
    assert Pow10(2) == 100;
  }

  /** `parseFloat` reads "digits.digits" as the whole part plus the scaled fraction. */
  lemma ParseFloatDecimal(ds: string, fs: string)
    requires ds != [] && AllDigits(ds) && AllDigits(fs)
    ensures IsCleaned(ds + "." + fs)
    ensures ParseFloatPrefix(ds + "." + fs) == Some(DecimalValue(ds, fs))
  {
    var s := ds + "." + fs;
    var tail := "." + fs;
    assert s == ds + tail;
    assert s[0] == ds[0];
    DigitRunOfDigits(ds, tail);
    assert s[..|ds|] == ds;
    assert s[|ds|..] == tail;
    assert tail[1..] == fs;
    DigitRunOfDigits(fs, []);
    assert fs + [] == fs;
    assert fs[..|fs|] == fs;
  }

  /** A label-like value with no digit at all, such as "N/A", is `null`. */
  lemma NumberFormatterRejectsText()
    ensures NumberFormatter(Str("N/A")) == None
  {
    assert "N/A"[1..] == "/A" && "/A"[1..] == "A" && "A"[1..] == "";
  }

  /**
   * `Number.parseInt(s, 10)`: skips leading white space, reads an optional
   * sign, then the longest run of decimal digits; `None` is `NaN`.
   */
  function ParseInt(s: string): Option<int> {
    ParseIntTrimmed(TrimStart(s))
  }

  /** `parseInt` once the leading white space is gone: sign, then digit run. */
  function ParseIntTrimmed(t: string): Option<int> {
    var signed := |t| > 0 && (t[0] == '-' || t[0] == '+');
    var body := if signed then t[1..] else t;
    var n := DigitRun(body);
    if n == 0 then None
    else
      var magnitude := DigitsValue(body[..n]) as int;
      Some(if t[0] == '-' then -magnitude else magnitude)
  }

  /** `String(i)` for an integer. */
  function IntToString(i: int): string {
    if i < 0 then "-" + NatToString(-i) else NatToString(i)
  }

  /**
   * `parseInt` reads the leading integer and ignores what follows it:
   * "12 days" reads as 12, and `parseInt(String(i), 10) == i`.
   */
  lemma ParseIntReadsLeadingInteger(i: int, rest: string)
    requires rest == [] || !IsDigit(rest[0])
    ensures ParseInt(IntToString(i) + rest) == Some(i)
  {
    if i < 0 {
      var d := NatToString(-i);
      assert IntToString(i) + rest == "-" + (d + rest);
      TrimStartUnpadded("-" + (d + rest));
      ParseIntTrimmedNegative(d, rest);
    } else {
      var d := NatToString(i);
      assert IntToString(i) + rest == d + rest;
      assert IsDigit((d + rest)[0]);
      TrimStartUnpadded(d + rest);
      ParseIntTrimmedDigits(d, rest);
    }
  }

  /** A run of digits followed by a non-digit reads as the run's value. */
  lemma ParseIntTrimmedDigits(d: string, rest: string)
    requires d != [] && AllDigits(d)
    requires rest == [] || !IsDigit(rest[0])
    ensures ParseIntTrimmed(d + rest) == Some(DigitsValue(d) as int)
  {
    var t := d + rest;
    assert t[0] == d[0] && IsDigit(t[0]);
    DigitRunOfDigits(d, rest);
    assert DigitRun(t) == |d|;
    assert t[..|d|] == d;
  }

  /** `-` then a run of digits followed by a non-digit reads as minus the run's value. */
  lemma ParseIntTrimmedNegative(d: string, rest: string)
    requires d != [] && AllDigits(d)
    requires rest == [] || !IsDigit(rest[0])
    ensures ParseIntTrimmed("-" + (d + rest)) == Some(-(DigitsValue(d) as int))
  {
    assert IsDigit((d + rest)[0]);
    ParseIntTrimmedMinus(d + rest);
    ParseIntTrimmedDigits(d, rest);
  }

  /** A `-` in front of a digit negates what the rest reads as. */
  lemma ParseIntTrimmedMinus(x: string)
    requires x != [] && IsDigit(x[0])
    ensures ParseIntTrimmed(x).Some?
    ensures ParseIntTrimmed("-" + x) == Some(-ParseIntTrimmed(x).value)
  {
    assert ("-" + x)[1..] == x;
  }

  /** Leading white space is skipped. */
  lemma ParseIntSkipsLeadingSpace(ws: string, s: string)
    requires AllSpace(ws)
    ensures ParseInt(ws + s) == ParseInt(s)
  {
    TrimStartPadded(ws, s);
  }

  /** Text that `parseInt` reads a number from once the leading white space is gone: a digit, or a sign and a digit. */
  predicate StartsInteger(t: string) {
    t != [] && (IsDigit(t[0]) || ((t[0] == '-' || t[0] == '+') && |t| > 1 && IsDigit(t[1])))
  }

  /** `parseInt` gives `NaN` exactly when the text past its leading white space does not start an integer. */
  lemma ParseIntNone(s: string)
    ensures ParseInt(s).None? <==> !StartsInteger(TrimStart(s))
  {
    ParseIntTrimmedNone(TrimStart(s));
  }

  lemma ParseIntTrimmedNone(t: string)
    ensures ParseIntTrimmed(t).None? <==> !StartsInteger(t)
  {
    if t != [] && (t[0] == '-' || t[0] == '+') {
      var body := t[1..];
      assert DigitRun(body) == 0 <==> !(|t| > 1 && IsDigit(t[1])) by {
        if |t| > 1 {
          assert body[0] == t[1];
        }
      }
    } else if t != [] {
      assert DigitRun(t) == 0 <==> !IsDigit(t[0]);
    }
  }

  /** A value that does not start with a digit after its sign, such as "soon", is `NaN`. */
  lemma ParseIntRejectsText()
    ensures ParseInt("soon") == None
  {
    assert !IsSpace("soon"[0]);
    assert TrimStart("soon") == "soon";
    assert !IsDigit("soon"[0]);
    assert DigitRun("soon") == 0;
  }
}
