/** Numeric coercion of text fields.

    `Number(s)` accepts, after trimming white space, an optional sign and a
    decimal literal (`12`, `12.`, `12.5`, `.5`) with an optional exponent
    (`1e3`, `2.5E-2`) and gives `NaN` otherwise; the empty string is 0.
    `parseFloat(s)` takes the longest such literal at the start of `s` after
    leading white space. `NaN` is `None` here. */
module Numbers {
  import opened Wrappers
  import Seqs
  import Text

  predicate IsDigit(c: char)
  {
    '0' <= c <= '9'
  }

  predicate AllDigits(s: string)
  {
    forall i :: 0 <= i < |s| ==> IsDigit(s[i])
  }

  /** Length of the longest prefix of `s` made of digits. */
  function DigitRun(s: string): (n: nat)
    ensures n <= |s|
    ensures AllDigits(s[..n])
    ensures n < |s| ==> !IsDigit(s[n])
  {
    if s != [] && IsDigit(s[0]) then
      var n := 1 + DigitRun(s[1..]);
      assert s[..n] == [s[0]] + s[1..][..n - 1];
      n
    else 0
  }

  lemma {:induction false} DigitRunAll(s: string)
    requires AllDigits(s)
    ensures DigitRun(s) == |s|
  {
    if s != [] {
      DigitRunAll(s[1..]);
    }
  }

  /** The value of a string of decimal digits, most significant first. */
  function DigitsValue(s: string): nat
    requires AllDigits(s)
  {
    if s == [] then 0 else DigitsValue(s[..|s| - 1]) * 10 + (s[|s| - 1] as int - '0' as int)
  }

  function Pow10(k: nat): (p: nat)
    ensures p >= 1
  {
    if k == 0 then 1 else 10 * Pow10(k - 1)
  }

  /** A scanned decimal literal: its value and how many characters it spans. */
  datatype Scan = Scan(value: real, len: nat)

  /** The longest prefix of `s` of the form `digits [. digits]` or `. digits`. */
  function ScanMantissa(s: string): (r: Option<Scan>)
    ensures r.Some? ==> 0 < r.value.len <= |s| && r.value.value >= 0.0
  {
    var a := DigitRun(s);
    var whole := DigitsValue(s[..a]);
    if a < |s| && s[a] == '.' then
      var b := DigitRun(s[a + 1..]);
      if a + b == 0 then None
      else
        var frac := DigitsValue(s[a + 1..][..b]);
        Seqs.DivideAtLeast(frac as real, Pow10(b) as real, 0.0);
        Some(Scan(whole as real + frac as real / Pow10(b) as real, a + 1 + b))
    else if a == 0 then None
    else Some(Scan(whole as real, a))
  }

  /** A scanned exponent part: its power of ten and how many characters it spans. */
  datatype Exponent = Exponent(power: int, len: nat)

  /** An exponent part `e digits`, `e+digits` or `e-digits` (or with `E`)
      at the start of `s`; without digits there is none. */
  function ScanExponent(s: string): (r: Option<Exponent>)
    ensures r.Some? ==> 1 < r.value.len <= |s| && (s[0] == 'e' || s[0] == 'E')
  {
    if s == [] || (s[0] != 'e' && s[0] != 'E') then None
    else
      var start := if |s| > 1 && (s[1] == '+' || s[1] == '-') then 2 else 1;
      var n := DigitRun(s[start..]);
      if n == 0 then None
      else
        var magnitude: int := DigitsValue(s[start..][..n]);
        Some(Exponent(if start == 2 && s[1] == '-' then -magnitude else magnitude, start + n))
  }

  /** `x` times ten to the `power`. */
  function Scale(x: real, power: int): real
  {
    if power >= 0 then x * Pow10(power) as real else x / Pow10(-power) as real
  }

  lemma ScaleNonNegative(x: real, power: int)
    requires x >= 0.0
    ensures Scale(x, power) >= 0.0
  {
    if power < 0 {
      Seqs.DivideAtLeast(x, Pow10(-power) as real, 0.0);
    }
  }

  /** A mantissa followed by an optional exponent part. */
  function ScanUnsigned(s: string): (r: Option<Scan>)
    ensures r.Some? ==> 0 < r.value.len <= |s| && r.value.value >= 0.0
  {
    match ScanMantissa(s)
    case None => None
    case Some(m) =>
      match ScanExponent(s[m.len..])
      case None => Some(m)
      case Some(e) =>
        ScaleNonNegative(m.value, e.power);
        Some(Scan(Scale(m.value, e.power), m.len + e.len))
  }

  /** An optionally signed decimal literal at the start of `s`. */
  function ScanDecimal(s: string): (r: Option<Scan>)
    ensures r.Some? ==> 0 < r.value.len <= |s|
  {
    if s != [] && (s[0] == '+' || s[0] == '-') then
      match ScanUnsigned(s[1..])
      case None => None
      case Some(sc) => Some(Scan(if s[0] == '-' then -sc.value else sc.value, sc.len + 1))
    else ScanUnsigned(s)
  }

  /** `Number(s)` for a string; `None` is `NaN`. */
  function JsNumber(s: string): Option<real>
  {
    var t := Text.Trim(s);
    if t == "" then Some(0.0)
    else
      match ScanDecimal(t)
      case Some(sc) => if sc.len == |t| then Some(sc.value) else None
      case None => None
  }

  /** `parseFloat(s)`; `None` is `NaN`. */
  function ParseFloat(s: string): Option<real>
  {
    match ScanDecimal(Text.TrimStart(s))
    case Some(sc) => Some(sc.value)
    case None => None
  }

  /** `Math.abs`. */
  function Abs(x: real): real
  {
    if x < 0.0 then -x else x
  }

  lemma DivideMonotone(a: real, b: real, c: real)
    requires c > 0.0
    ensures a <= b <==> a / c <= b / c
  {
    var x, y := a / c, b / c;
    assert x * c == a && y * c == b;
    if x <= y {
      assert x * c <= y * c;
    } else {
      assert x * c > y * c;
    }
  }

  lemma DivideSelf(r: real)
    requires r > 0.0
    ensures r / r == 1.0
  {
  }

  /** A part of a positive whole is a fraction in [0, 1], and the whole is 1. */
  lemma UnitFraction(a: real, b: real)
    requires 0.0 <= a <= b && b > 0.0
    ensures 0.0 <= a / b <= 1.0
    ensures a == b ==> a / b == 1.0
  {
    DivideMonotone(a, b, b);
    DivideMonotone(0.0, a, b);
    DivideSelf(b);
  }

  /** `x || 0` on a number: `NaN` becomes 0. */
  function OrZero(x: Option<real>): real
  {
    match x
    case Some(v) => v
    case None => 0.0
  }

  /** Decimal digits of `n` without leading zeros, as `String(n)` writes them. */
  function NatToString(n: nat): (s: string)
    ensures |s| >= 1 && AllDigits(s)
    ensures DigitsValue(s) == n
    ensures s[0] != '0' || n == 0
  {
    var d := ['0' + (n % 10) as char];
    if n < 10 then d
    else
      var s := NatToString(n / 10) + d;
      assert s[..|s| - 1] == NatToString(n / 10);
      s
  }

  /** `String(n)` for an integer. */
  function IntToString(n: int): string
  {
    if n < 0 then "-" + NatToString(-n) else NatToString(n)
  }

  /** Characters that can continue a decimal literal after its integer digits. */
  predicate ContinuesLiteral(c: char)
  {
    IsDigit(c) || c == '.' || c == 'e' || c == 'E'
  }

  /** Digits followed by nothing that can continue them scan as that integer. */
  lemma ScanDigits(digits: string, rest: string)
    requires digits != [] && AllDigits(digits)
    requires rest == [] || !ContinuesLiteral(rest[0])
    ensures ScanDecimal(digits + rest) == Some(Scan(DigitsValue(digits) as real, |digits|))
  {
    var s := digits + rest;
    if rest == [] {
      DigitRunAll(digits);
    } else {
      DigitRunAfterDigits(digits, rest);
    }
    assert s[..|digits|] == digits;
    assert s[|digits|..] == rest;
  }

  /** `Number` reads back every integer that `String` writes. */
  lemma JsNumberOfInt(n: int)
    ensures JsNumber(IntToString(n)) == Some(n as real)
  {
    var s := IntToString(n);
    ScanInt(n);
    Text.TrimNoEdges(s);
  }

  /** The text of an integer scans as that integer, to its end. */
  lemma ScanInt(n: int)
    ensures ScanDecimal(IntToString(n)) == Some(Scan(n as real, |IntToString(n)|))
  {
    var s := IntToString(n);
    var digits := NatToString(if n < 0 then -n else n);
    ScanDigits(digits, []);
    assert digits + [] == digits;
    if n < 0 {
      assert s[1..] == digits;
      assert ScanUnsigned(s[1..]) == Some(Scan(-n as real, |digits|));
    }
  }

  /** `parseFloat` reads a leading integer and stops at a following
      character that can neither continue it nor start its exponent. */
  lemma ParseFloatPrefix(n: nat, suffix: string)
    requires suffix != [] && !ContinuesLiteral(suffix[0])
    ensures ParseFloat(NatToString(n) + suffix) == Some(n as real)
  {
    var digits := NatToString(n);
    var s := digits + suffix;
    assert Text.TrimStart(s) == s;
    ScanDigits(digits, suffix);
  }

  /** `Number` rejects the same text when that character is not white space. */
  lemma NumberRejectsSuffix(n: nat, suffix: string)
    requires suffix != [] && !ContinuesLiteral(suffix[0])
    requires !Text.IsSpace(suffix[0])
    ensures JsNumber(NatToString(n) + suffix) == None
  {
    var digits := NatToString(n);
    var s := digits + suffix;
    var t := Text.Trim(s);
    TrimPastNonSpace(s, |digits|);
    assert t[..|digits|] == digits && t[|digits|] == suffix[0];
    assert t == digits + t[|digits|..];
    ScanDigits(digits, t[|digits|..]);
  }

  /** Both `Number` and `parseFloat` read an integer with an exponent part,
      `1e3` as 1000 and `25e-1` as 2.5. */
  lemma ReadsExponent(n: nat, power: int)
    ensures JsNumber(NatToString(n) + ("e" + IntToString(power))) == Some(Scale(n as real, power))
    ensures ParseFloat(NatToString(n) + ("e" + IntToString(power))) == Some(Scale(n as real, power))
  {
    var s := NatToString(n) + ("e" + IntToString(power));
    ScanWithExponent(n, power);
    Text.TrimNoEdges(s);
    assert Text.TrimStart(s) == s;
  }

  /** A component quantity written `1e3` is a thousand. */
  lemma ExponentThousand()
    ensures ParseFloat("1e3") == Some(1000.0)
  {
    assert ParseFloat("1e3") == Some(Scale(1.0, 3)) by {
      ReadsExponent(1, 3);
      assert NatToString(1) + ("e" + IntToString(3)) == "1e3" by {
        assert NatToString(1) == "1" && IntToString(3) == "3";
      }
    }
    assert Scale(1.0, 3) == 1000.0 by {
      assert Pow10(3) == 1000;
    }
  }

  /** A negative exponent divides: `25e-1` is 2.5. */
  lemma ExponentNegative()
    ensures JsNumber("25e-1") == Some(2.5)
  {
    var text := NatToString(25) + ("e" + IntToString(-1));
    assert Scale(25.0, -1) == 2.5 by {
      assert Pow10(1) == 10;
    }
    assert text == "25e-1" by {
      assert NatToString(25) == "25" && IntToString(-1) == "-1";
    }
    ReadsExponent(25, -1);
  }

  /** An `e` without digits ends the literal: `parseFloat` stops before it,
      while `Number` rejects the text. */
  lemma ExponentNeedsDigits(n: nat)
    ensures ParseFloat(NatToString(n) + "e") == Some(n as real)
    ensures JsNumber(NatToString(n) + "e") == None
  {
    var digits := NatToString(n);
    var s := digits + "e";
    MantissaOfDigits(digits, "e");
    assert s[|digits|..] == "e";
    assert ScanExponent("e") == None;
    assert ScanDecimal(s) == Some(Scan(n as real, |digits|)) by {
      assert s[0] == digits[0] && IsDigit(digits[0]);
    }
    Text.TrimNoEdges(s);
    assert Text.TrimStart(s) == s;
  }

  /** An integer with an exponent part scans to its end as the scaled integer. */
  lemma {:induction false} ScanWithExponent(n: nat, power: int)
    ensures ScanDecimal(NatToString(n) + ("e" + IntToString(power)))
      == Some(Scan(Scale(n as real, power), |NatToString(n) + ("e" + IntToString(power))|))
  {
    var rest := "e" + IntToString(power);
    ExponentPart(IntToString(power), power);
    ScanScaled(NatToString(n), rest, n, power);
  }

  /** The digits of `n` followed by an exponent part scan as `n` scaled. */
  lemma {:induction false} ScanScaled(digits: string, rest: string, n: nat, power: int)
    requires digits != [] && AllDigits(digits) && DigitsValue(digits) == n
    requires ScanExponent(rest) == Some(Exponent(power, |rest|))
    ensures ScanDecimal(digits + rest) == Some(Scan(Scale(n as real, power), |digits + rest|))
  {
    var s := digits + rest;
    MantissaOfDigits(digits, rest);
    assert s[|digits|..] == rest;
    ExponentAfterMantissa(s, n as real, |digits|, Exponent(power, |rest|));
    assert s[0] == digits[0] && IsDigit(digits[0]);
  }

  /** A mantissa followed by an exponent part scales the mantissa. */
  lemma ExponentAfterMantissa(s: string, v: real, k: nat, e: Exponent)
    requires ScanMantissa(s) == Some(Scan(v, k))
    requires k <= |s| && ScanExponent(s[k..]) == Some(e)
    ensures ScanUnsigned(s) == Some(Scan(Scale(v, e.power), k + e.len))
  {
  }

  /** Digits followed by a character that is neither a digit nor a point
      form the whole mantissa. */
  lemma MantissaOfDigits(digits: string, rest: string)
    requires digits != [] && AllDigits(digits)
    requires rest != [] && !IsDigit(rest[0]) && rest[0] != '.'
    ensures ScanMantissa(digits + rest) == Some(Scan(DigitsValue(digits) as real, |digits|))
  {
    DigitRunAfterDigits(digits, rest);
    assert (digits + rest)[..|digits|] == digits;
  }

  /** The exponent part `e` followed by the text of `power` spans all of it. */
  lemma ExponentPart(exp: string, power: int)
    requires exp == IntToString(power)
    ensures ScanExponent("e" + exp) == Some(Exponent(power, 1 + |exp|))
  {
    var e := "e" + exp;
    if power < 0 {
      assert e[1] == '-' && e[2..] == NatToString(-power);
      ExponentOfDigits(e, 2, -power);
    } else {
      assert IsDigit(e[1]) && e[1..] == NatToString(power);
      ExponentOfDigits(e, 1, power);
    }
  }

  /** `e`, an optional sign and the digits of `magnitude` to the end of `e`. */
  lemma ExponentOfDigits(e: string, start: nat, magnitude: nat)
    requires |e| > 1 && e[0] == 'e'
    requires start == if e[1] == '+' || e[1] == '-' then 2 else 1
    requires start <= |e| && e[start..] == NatToString(magnitude)
    ensures ScanExponent(e) == Some(Exponent(if start == 2 && e[1] == '-' then -(magnitude as int) else magnitude, |e|))
  {
    var digits := NatToString(magnitude);
    DigitRunAll(digits);
    assert digits[..|digits|] == digits;
  }

  lemma {:induction false} DigitRunAfterDigits(digits: string, rest: string)
    requires AllDigits(digits)
    requires rest != [] && !IsDigit(rest[0])
    ensures DigitRun(digits + rest) == |digits|
  {
    if digits != [] {
      assert (digits + rest)[1..] == digits[1..] + rest;
      DigitRunAfterDigits(digits[1..], rest);
    }
  }

  /** Trimming a string whose first character is not white space keeps its
      start and every character up to the last non-space one. */
  lemma TrimPastNonSpace(s: string, k: nat)
    requires k < |s| && !Text.IsSpace(s[0]) && !Text.IsSpace(s[k])
    ensures k < |Text.Trim(s)| <= |s| && Text.Trim(s) == s[..|Text.Trim(s)|]
  {
    assert Text.TrimStart(s) == s;
    Text.TrimEndShape(s);
  }

  /** The numeric fields of a comma-separated line: every field after the
      first (the name), trimmed and through `Number`. */
  function Cells(line: string): (cells: seq<Option<real>>)
    ensures |cells| == |Text.Fields(line)| - 1
  {
    var parts := Text.Fields(line);
    seq(|parts| - 1, j requires 0 <= j < |parts| - 1 => JsNumber(parts[j + 1]))
  }

  predicate AllNumbers(cells: seq<Option<real>>)
  {
    forall j :: 0 <= j < |cells| ==> cells[j].Some?
  }

  /** The numbers of cells that are all numeric. */
  function Values(cells: seq<Option<real>>): (vs: seq<real>)
    requires AllNumbers(cells)
    ensures |vs| == |cells|
    ensures forall j :: 0 <= j < |cells| ==> cells[j] == Some(vs[j])
  {
    seq(|cells|, j requires 0 <= j < |cells| => cells[j].value)
  }
}
