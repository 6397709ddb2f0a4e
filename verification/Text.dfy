/** Numbers as text: the printf conversions the firmware and the cloud use, and the readers
    (strtoul, atof, JSON numbers, hexadecimal groups) that take the text apart again. */
module Text {
  import opened Common

  // ---------- numerals in base 10 and 16 ----------

  predicate Base(b: nat) { b == 10 || b == 16 }

  function DigitChar(d: nat): char
    requires d < 16
  {
    "0123456789abcdef"[d]
  }

  /** The value of a digit of either case; 16 for every other character. */
  function DigitVal(c: char): nat {
    if '0' <= c <= '9' then (c - '0') as nat
    else if 'a' <= c <= 'f' then (c - 'a') as nat + 10
    else if 'A' <= c <= 'F' then (c - 'A') as nat + 10
    else 16
  }

  predicate IsNumeral(s: string, b: nat) {
    forall i :: 0 <= i < |s| ==> DigitVal(s[i]) < b
  }

  /** `%lu`, `%u` (base 10) and `%x` (base 16): no leading zeros. */
  function Digits(n: nat, b: nat): string
    requires Base(b)
  {
    if n < b then [DigitChar(n)] else Digits(n / b, b) + [DigitChar(n % b)]
  }

  function Value(s: string, b: nat): nat
    requires Base(b) && IsNumeral(s, b)
  {
    if s == "" then 0 else Value(s[..|s| - 1], b) * b + DigitVal(s[|s| - 1])
  }

  function Pow10(k: nat): (p: nat)
    ensures p >= 1
  {
    if k == 0 then 1 else 10 * Pow10(k - 1)
  }

  lemma {:induction false} Pow10Monotone(a: nat, b: nat)
    requires a <= b
    ensures Pow10(a) <= Pow10(b)
  {
    if a < b {
      Pow10Monotone(a, b - 1);
    }
  }

  /** Division with a variable divisor, kept behind its defining property. */
  function DivMod(n: nat, p: nat): (qr: (nat, nat))
    requires p >= 1
    ensures qr.0 * p + qr.1 == n && qr.1 < p
  {
    (n / p, n % p)
  }

  lemma DigitCharVal(d: nat)
    requires d < 16
    ensures DigitVal(DigitChar(d)) == d
  {
  }

  lemma {:induction false} DigitsRoundTrip(n: nat, b: nat)
    requires Base(b)
    ensures Digits(n, b) != "" && IsNumeral(Digits(n, b), b)
    ensures Value(Digits(n, b), b) == n
  {
    if n < b {
      DigitCharVal(n);
      assert Digits(n, b)[..0] == "";
    } else {
      DigitsRoundTrip(n / b, b);
      DigitCharVal(n % b);
      assert Digits(n, b)[..|Digits(n, b)| - 1] == Digits(n / b, b);
    }
  }

  /** A decimal numeral below 10^k has at most k digits. */
  lemma {:induction false} DecimalLength(n: nat, k: nat)
    requires 1 <= k && n < Pow10(k)
    ensures |Digits(n, 10)| <= k
  {
    if n >= 10 {
      DecimalLength(n / 10, k - 1);
    }
  }

  /** `%0<k>ld` for an argument below 10^k: exactly k digits. */
  function Fixed(n: nat, k: nat): (s: string)
    ensures |s| == k
  {
    if k == 0 then "" else Fixed(n / 10, k - 1) + [DigitChar(n % 10)]
  }

  lemma {:induction false} FixedAfter(whole: string, n: nat, k: nat)
    requires IsNumeral(whole, 10) && n < Pow10(k)
    ensures IsNumeral(Fixed(n, k), 10) && IsNumeral(whole + Fixed(n, k), 10)
    ensures Value(whole + Fixed(n, k), 10) == Value(whole, 10) * Pow10(k) + n
  {
    if k == 0 {
      assert whole + Fixed(n, k) == whole;
    } else {
      FixedAfter(whole, n / 10, k - 1);
      DigitCharVal(n % 10);
      var head := whole + Fixed(n / 10, k - 1);
      assert whole + Fixed(n, k) == head + [DigitChar(n % 10)];
      assert (head + [DigitChar(n % 10)])[..|head|] == head;
      ShiftByTen(Value(whole, 10), Pow10(k - 1), n / 10, n % 10);
    }
  }

  lemma ShiftByTen(v: int, p: int, q: int, r: int)
    ensures (v * p + q) * 10 + r == v * (10 * p) + (10 * q + r)
  {
  }

  // ---------- scanning ----------

  /** The number of leading base-b digits. */
  function Span(s: string, b: nat): (k: nat)
    ensures k <= |s| && IsNumeral(s[..k], b)
    ensures k < |s| ==> DigitVal(s[k]) >= b
  {
    if s == "" || DigitVal(s[0]) >= b then 0 else
      var k := 1 + Span(s[1..], b);
      assert forall i :: 1 <= i < k ==> s[i] == s[1..][..k - 1][i - 1];
      k
  }

  lemma {:induction false} SpanStops(digits: string, rest: string, b: nat)
    requires IsNumeral(digits, b)
    requires rest == "" || DigitVal(rest[0]) >= b
    ensures Span(digits + rest, b) == |digits|
    ensures (digits + rest)[..|digits|] == digits && (digits + rest)[|digits|..] == rest
  {
    if digits == "" {
      assert digits + rest == rest;
    } else {
      assert (digits + rest)[1..] == digits[1..] + rest;
      SpanStops(digits[1..], rest, b);
    }
  }

  predicate IsSpace(c: char) { c in " \t\n\r" || c as int == 11 || c as int == 12 }

  function SkipSpace(s: string): string {
    if s != "" && IsSpace(s[0]) then SkipSpace(s[1..]) else s
  }

  predicate IsSign(c: char) { c == '+' || c == '-' }

  function Unsigned(s: string): string {
    if s != "" && IsSign(s[0]) then s[1..] else s
  }

  predicate Negative(s: string) { s != "" && s[0] == '-' }

  // ---------- decimals with a fraction ----------

  /** n / 10^k. */
  function Scaled(n: int, k: nat): real { n as real / Pow10(k) as real }

  lemma ScaledSign(n: int, k: nat)
    ensures Scaled(-n, k) == -Scaled(n, k)
    ensures n > 0 ==> Scaled(n, k) > 0.0
  {
  }

  function Quotient(digits: string, k: nat): real
    requires IsNumeral(digits, 10)
  {
    Scaled(Value(digits, 10), k)
  }

  /** An optional point and more digits after `whole`: the value and what is left. */
  function ScanFraction(whole: string, rest: string): (real, string)
    requires IsNumeral(whole, 10)
  {
    if rest == "" || rest[0] != '.' then (Quotient(whole, 0), rest) else
      var f := Span(rest[1..], 10);
      (Quotient(whole + rest[1..][..f], f), rest[1..][f..])
  }

  /** A C floating value, without its rounding. */
  datatype Float = Finite(value: real) | Infinite(negative: bool) | NaN

  function Negated(x: Float): Float {
    match x
    case Finite(v) => Finite(-v)
    case Infinite(negative) => Infinite(!negative)
    case NaN => NaN
  }

  function Lower(c: char): char { if 'A' <= c <= 'Z' then c - 'A' + 'a' else c }

  /** Does `s` begin with `word`, in letters of either case? */
  predicate Begins(s: string, word: string) {
    |word| <= |s| && forall i :: 0 <= i < |word| ==> Lower(s[i]) == word[i]
  }

  function Power(b: nat, k: nat): (p: nat)
    requires b >= 1
    ensures p >= 1
  {
    if k == 0 then 1 else b * Power(b, k - 1)
  }

  /** v * b^e */
  function Shifted(v: real, b: nat, e: int): real
    requires b >= 1
  {
    if e == 0 then v
    else if e > 0 then v * Power(b, e) as real
    else v / Power(b, -e) as real
  }

  /** The exponent behind `mark`; 0 when there is none, or no digit in it. */
  function ScanExponent(s: string, mark: char): int {
    if s == "" || Lower(s[0]) != mark then 0 else
      var t := Unsigned(s[1..]);
      var v: int := Value(t[..Span(t, 10)], 10);
      if Negative(s[1..]) then -v else v
  }

  /** A hexadecimal float begins here: at least one digit follows "0x", before or after a point. */
  predicate IsHexFloat(t: string) {
    && Begins(t, "0x")
    && var u := t[2..];
       u != "" && (DigitVal(u[0]) < 16 || (u[0] == '.' && |u| >= 2 && DigitVal(u[1]) < 16))
  }

  /** The digits behind "0x", with an optional point and binary exponent. */
  function HexFloat(u: string): real {
    var w := Span(u, 16);
    if w == |u| || u[w] != '.' then Shifted(Value(u[..w], 16) as real, 2, ScanExponent(u[w..], 'p')) else
      var f: int := Span(u[w + 1..], 16);
      var fraction := u[w + 1..][..f];
      var whole := Value(u[..w], 16) as real + Shifted(Value(fraction, 16) as real, 16, -f);
      Shifted(whole, 2, ScanExponent(u[w + 1..][f..], 'p'))
  }

  /** An unsigned number as `strtod` reads it. */
  function UnsignedFloat(t: string): Float {
    if Begins(t, "inf") then Infinite(false)
    else if Begins(t, "nan") then NaN
    else if IsHexFloat(t) then Finite(HexFloat(t[2..]))
    else
      var w := Span(t, 10);
      var (v, rest) := ScanFraction(t[..w], t[w..]);
      Finite(Shifted(v, 10, ScanExponent(rest, 'e')))
  }

  /** C's `atof`; 0 where there is no number at all. */
  function Atof(s: string): Float {
    var t := SkipSpace(s);
    if Negative(t) then Negated(UnsignedFloat(Unsigned(t))) else UnsignedFloat(Unsigned(t))
  }

  /** The whole part of a JSON number: digits without a leading zero. */
  predicate IsWhole(w: string) { w != "" && IsNumeral(w, 10) && (|w| == 1 || w[0] != '0') }

  function ReadUnsigned(t: string): Option<real> {
    var w := Span(t, 10);
    var whole, rest := t[..w], t[w..];
    if !IsWhole(whole) then None
    else if rest == "" then Some(Quotient(whole, 0))
    else if rest[0] != '.' || rest == "." then None
    else
      var frac := rest[1..];
      assert frac[..|frac|] == frac;
      if Span(frac, 10) < |frac| then None else Some(Quotient(whole + frac, |frac|))
  }

  /** A JSON number without an exponent, as `json.loads` reads it. */
  function ReadNumber(s: string): Option<real> {
    match ReadUnsigned(if Negative(s) then s[1..] else s)
    case None => None
    case Some(v) => Some(if Negative(s) then -v else v)
  }

  /** n / 10^k written with k decimals, and a sign only where the caller asks for one. */
  function DecimalText(minus: bool, n: nat, k: nat): string {
    var (whole, frac) := DivMod(n, Pow10(k));
    (if minus then "-" else "") + (Digits(whole, 10) + ("." + Fixed(frac, k)))
  }

  lemma ScanFractionOfDigits(whole: string, frac: string)
    requires IsNumeral(whole, 10) && IsNumeral(frac, 10) && IsNumeral(whole + frac, 10)
    ensures ScanFraction(whole, "." + frac) == (Quotient(whole + frac, |frac|), "")
  {
    assert ("." + frac)[1..] == frac;
    SpanStops(frac, "", 10);
    assert frac + "" == frac;
  }

  lemma SignedHead(minus: bool, t: string)
    requires t != "" && DigitVal(t[0]) < 10
    ensures var s := (if minus then "-" else "") + t;
            SkipSpace(s) == s && Unsigned(s) == t && Negative(s) == minus
  {
    if !minus {
      assert "" + t == t;
    } else {
      assert ("-" + t)[1..] == t;
    }
  }

  /** Any text that begins with "nan" is read as NaN. */
  lemma AtofOfNan(s: string)
    requires Begins(s, "nan")
    ensures Atof(s).NaN?
  {
    hide IsHexFloat, HexFloat, ScanFraction, ScanExponent;
    assert Lower(s[0]) == "nan"[0] == 'n';
    assert !Begins(s, "inf") by { assert "inf"[0] == 'i'; }
    assert SkipSpace(s) == s;
  }

  /** And any that begins with "inf" as an infinity, negative behind a minus sign. */
  lemma AtofOfInf(s: string)
    requires Begins(s, "inf")
    ensures Atof(s) == Infinite(false) && Atof("-" + s) == Infinite(true)
  {
    assert Lower(s[0]) == "inf"[0] == 'i';
    assert SkipSpace(s) == s;
    assert ("-" + s)[1..] == s && SkipSpace("-" + s) == "-" + s;
  }

  /** Shifting by a power: nothing for 0, once more for every step. */
  lemma {:induction false} ShiftedSteps(v: real, b: nat, e: int)
    requires b >= 1
    ensures Shifted(v, b, 0) == v
    ensures Shifted(v, b, e + 1) == Shifted(v, b, e) * b as real
  {
    if e >= 0 {
      ShiftUp(v, b, e);
    } else {
      ShiftDown(v, b, -e - 1);
    }
  }

  lemma ShiftUp(v: real, b: nat, k: nat)
    requires b >= 1
    ensures Shifted(v, b, k + 1) == Shifted(v, b, k) * b as real
  {
    hide Power;
    PowerOne(b);
    PowerStep(b, k);
    Reorder(v, b, Power(b, k));
  }

  lemma ShiftDown(v: real, b: nat, k: nat)
    requires b >= 1
    ensures Shifted(v, b, 0 - k) == Shifted(v, b, -1 - k) * b as real
  {
    hide Power;
    PowerOne(b);
    PowerStep(b, k);
    QuotientOfProduct(v, b, Power(b, k));
  }

  lemma PowerOne(b: nat)
    requires b >= 1
    ensures Power(b, 0) == 1 && Power(b, 1) == b
  {
  }

  lemma Reorder(v: real, b: nat, p: nat)
    ensures v * (b * p) as real == v * p as real * b as real
  {
    assert (b * p) as real == b as real * p as real;
  }

  lemma PowerStep(b: nat, k: nat)
    requires b >= 1
    ensures Power(b, k + 1) == b * Power(b, k)
  {
  }

  lemma QuotientOfProduct(v: real, b: nat, p: nat)
    requires b >= 1 && p >= 1
    ensures v / (b * p) as real * b as real == v / p as real
  {
    var q := b as real * p as real;
    assert (b * p) as real == q && q > 0.0;
    var x := v / q;
    assert x * q == v;
    assert x * b as real * p as real == v;
  }

  /** A numeral with a point is neither a word nor hexadecimal. */
  lemma DecimalIsPlain(whole: string, frac: string)
    requires whole != "" && IsNumeral(whole, 10)
    ensures var t := whole + ("." + frac);
            !Begins(t, "inf") && !Begins(t, "nan") && !Begins(t, "0x")
  {
    var t := whole + ("." + frac);
    assert t[0] == whole[0] && DigitVal(whole[0]) < 10;
    assert "inf"[0] == 'i' && "nan"[0] == 'n' && "0x"[1] == 'x';
    if |whole| == 1 {
      assert t[1] == '.';
    } else {
      assert t[1] == whole[1] && DigitVal(whole[1]) < 10;
    }
  }

  lemma AtofOfDigits(minus: bool, whole: string, frac: string)
    requires whole != "" && IsNumeral(whole, 10) && IsNumeral(frac, 10) && IsNumeral(whole + frac, 10)
    ensures var v := Quotient(whole + frac, |frac|);
            Atof((if minus then "-" else "") + (whole + ("." + frac))) == Finite(if minus then -v else v)
  {
    hide Value, Quotient, ScanFraction, SkipSpace, IsHexFloat, HexFloat, Begins;
    var t := whole + ("." + frac);
    assert DigitVal(whole[0]) < 10 && t[0] == whole[0];
    SignedHead(minus, t);
    SpanStops(whole, "." + frac, 10);
    ScanFractionOfDigits(whole, frac);
    DecimalIsPlain(whole, frac);
    PlainIsNotHex(t);
  }

  function SignedInt(minus: bool, n: int): int { if minus then -n else n }

  /** An exponent behind a numeral with a point shifts it by that power of ten, up or down. */
  lemma AtofOfScientific(minus: bool, whole: string, frac: string, down: bool, digits: string)
    requires whole != "" && IsNumeral(whole, 10) && IsNumeral(frac, 10) && IsNumeral(whole + frac, 10)
    requires digits != "" && IsNumeral(digits, 10)
    ensures var v := Shifted(Quotient(whole + frac, |frac|), 10, SignedInt(down, Value(digits, 10)));
            var exponent := "e" + ((if down then "-" else "") + digits);
            Atof((if minus then "-" else "") + (whole + ("." + (frac + exponent)))) == Finite(if minus then -v else v)
  {
    hide Value, Quotient, SkipSpace, IsHexFloat, HexFloat, Begins, Shifted, ScanExponent, ScanFraction;
    var exponent := "e" + ((if down then "-" else "") + digits);
    var t := whole + ("." + (frac + exponent));
    assert DigitVal(whole[0]) < 10 && t[0] == whole[0];
    SignedHead(minus, t);
    SpanStops(whole, "." + (frac + exponent), 10);
    FractionThenExponent(whole, frac, exponent);
    ExponentIsRead(down, digits);
    DecimalIsPlain(whole, frac + exponent);
    PlainIsNotHex(t);
  }

  lemma FractionThenExponent(whole: string, frac: string, exponent: string)
    requires IsNumeral(whole, 10) && IsNumeral(frac, 10) && IsNumeral(whole + frac, 10)
    requires exponent != "" && exponent[0] == 'e'
    ensures ScanFraction(whole, "." + (frac + exponent)) == (Quotient(whole + frac, |frac|), exponent)
  {
    var rest := "." + (frac + exponent);
    assert rest[1..] == frac + exponent;
    SpanStops(frac, exponent, 10);
  }

  lemma ExponentIsRead(down: bool, digits: string)
    requires digits != "" && IsNumeral(digits, 10)
    ensures ScanExponent("e" + ((if down then "-" else "") + digits), 'e')
            == SignedInt(down, Value(digits, 10))
  {
    var s := (if down then "-" else "") + digits;
    assert ("e" + s)[1..] == s;
    assert DigitVal(digits[0]) < 10;
    SignedHead(down, digits);
    SpanStops(digits, "", 10);
    assert digits + "" == digits;
  }

  /** Behind "0x" the digits are hexadecimal. */
  lemma AtofOfHex(minus: bool, digits: string)
    requires digits != "" && IsNumeral(digits, 16)
    ensures var v := Value(digits, 16) as real;
            Atof((if minus then "-" else "") + ("0x" + digits)) == Finite(if minus then -v else v)
  {
    hide Value;
    var t := "0x" + digits;
    assert t[0] == '0' && t[1] == 'x' && t[2..] == digits;
    assert Begins(t, "0x");
    assert !Begins(t, "inf") && !Begins(t, "nan") by { assert "inf"[0] == 'i' && "nan"[0] == 'n'; }
    assert DigitVal(digits[0]) < 16;
    SignedHead(minus, t);
    SpanStops(digits, "", 16);
    assert digits + "" == digits;
  }

  lemma PlainIsNotHex(t: string)
    requires !Begins(t, "0x")
    ensures !IsHexFloat(t)
  {
  }

  function Sign(minus: bool): string { if minus then "-" else "" }

  function Signed(minus: bool, v: real): real { if minus then -v else v }

  lemma ReadSigned(minus: bool, t: string)
    requires t != "" && DigitVal(t[0]) < 10
    ensures ReadNumber(Sign(minus) + t) ==
            match ReadUnsigned(t) case None => None case Some(v) => Some(Signed(minus, v))
  {
    hide ReadUnsigned;
    SignedHead(minus, t);
    var s := Sign(minus) + t;
    if minus {
      assert s[1..] == t;
    } else {
      assert s == t;
    }
  }

  /** A numeral with digits on both sides of its point, with nothing behind its point, and without one. */
  lemma ReadOfParts(minus: bool, whole: string, frac: string)
    requires IsWhole(whole) && IsNumeral(frac, 10) && IsNumeral(whole + frac, 10)
    ensures frac != "" ==> ReadNumber(Sign(minus) + (whole + ("." + frac)))
                           == Some(Signed(minus, Quotient(whole + frac, |frac|)))
    ensures frac == "" ==> ReadNumber(Sign(minus) + (whole + ("." + frac))) == None
  {
    hide ReadNumber, Value, Quotient;
    var t := whole + ("." + frac);
    assert DigitVal(whole[0]) < 10 && t[0] == whole[0];
    ReadSigned(minus, t);
    SpanStops(whole, "." + frac, 10);
    assert ("." + frac)[1..] == frac;
    SpanStops(frac, "", 10);
    assert frac + "" == frac;
  }

  lemma ReadOfWhole(minus: bool, whole: string)
    requires IsWhole(whole)
    ensures ReadNumber(Sign(minus) + whole) == Some(Signed(minus, Quotient(whole, 0)))
  {
    hide ReadNumber, Value, Quotient;
    assert DigitVal(whole[0]) < 10;
    ReadSigned(minus, whole);
    SpanStops(whole, "", 10);
    assert whole + "" == whole;
  }

  lemma {:induction false} NoLeadingZero(x: nat)
    requires x > 0
    ensures Digits(x, 10) != "" && DigitVal(Digits(x, 10)[0]) >= 1
  {
    if x < 10 {
      DigitCharVal(x);
    } else {
      NoLeadingZero(x / 10);
    }
  }

  lemma DigitsAreWhole(n: nat)
    ensures IsWhole(Digits(n, 10))
  {
    DigitsRoundTrip(n, 10);
    if n >= 10 {
      NoLeadingZero(n);
    }
  }

  lemma PartsValue(q: nat, r: nat, n: nat, k: nat)
    requires r < Pow10(k) && q * Pow10(k) + r == n
    ensures Digits(q, 10) != "" && IsNumeral(Digits(q, 10), 10) && IsNumeral(Fixed(r, k), 10)
    ensures IsNumeral(Digits(q, 10) + Fixed(r, k), 10)
    ensures Value(Digits(q, 10) + Fixed(r, k), 10) == n
  {
    DigitsRoundTrip(q, 10);
    FixedAfter(Digits(q, 10), r, k);
  }

  /** printf then read: both readers get back exactly the number that was printed; the JSON reader
      insists on at least one decimal behind a point. */
  lemma DecimalTextReadsBack(minus: bool, n: nat, k: nat)
    ensures k >= 1 ==> ReadNumber(DecimalText(minus, n, k)) == Some(if minus then -Scaled(n, k) else Scaled(n, k))
    ensures Atof(DecimalText(minus, n, k)) == Finite(if minus then -Scaled(n, k) else Scaled(n, k))
  {
    hide ReadNumber, Atof, Scaled, Value, Digits, Fixed, IsWhole;
    var (q, r) := DivMod(n, Pow10(k));
    var whole, frac := Digits(q, 10), Fixed(r, k);
    PartsValue(q, r, n, k);
    DigitsAreWhole(q);
    AtofOfDigits(minus, whole, frac);
    ReadOfParts(minus, whole, frac);
    assert Quotient(whole + frac, |frac|) == Scaled(n, k);
  }

  // ---------- strtoul ----------

  /** The C string held by a buffer: everything before the first NUL. */
  function CString(s: string): string {
    if s == "" || s[0] == '\0' then "" else [s[0]] + CString(s[1..])
  }

  /** C's `strtoul(s, &end, 10)`: the value, whether any digit was read, and the text at `end`.
      An out-of-range value saturates; a minus sign negates modulo ULONG_MAX + 1. */
  function Strtoul(s: string, ulongMax: nat): (nat, bool, string) {
    var head := SkipSpace(s);
    var t := Unsigned(head);
    var w := Span(t, 10);
    if w == 0 then (0, false, s) else
      var v := Value(t[..w], 10);
      (if v > ulongMax then ulongMax
       else if Negative(head) && v > 0 then ulongMax + 1 - v
       else v,
       true, t[w..])
  }

  /** A decimal numeral, with or without a minus sign, is read whole. */
  lemma StrtoulOfNumeral(minus: bool, digits: string, ulongMax: nat)
    requires digits != "" && IsNumeral(digits, 10)
    ensures var v := Value(digits, 10);
            Strtoul((if minus then "-" else "") + digits, ulongMax) ==
            (if v > ulongMax then ulongMax else if minus && v > 0 then ulongMax + 1 - v else v,
             true, "")
  {
    assert DigitVal(digits[0]) < 10;
    SignedHead(minus, digits);
    SpanStops(digits, "", 10);
    assert digits + "" == digits;
  }

  predicate Blank(s: string) { forall i :: 0 <= i < |s| ==> IsSpace(s[i]) }

  lemma {:induction false} SkipSpaceOf(blanks: string, t: string)
    requires Blank(blanks) && (t == "" || !IsSpace(t[0]))
    ensures SkipSpace(blanks + t) == t
  {
    if blanks == "" {
      assert blanks + t == t;
    } else {
      assert (blanks + t)[1..] == blanks[1..] + t;
      SkipSpaceOf(blanks[1..], t);
    }
  }

  lemma {:induction false} SkipSpaceSplits(s: string) returns (blanks: string)
    ensures Blank(blanks) && s == blanks + SkipSpace(s)
    ensures SkipSpace(s) == "" || !IsSpace(SkipSpace(s)[0])
  {
    if s != "" && IsSpace(s[0]) {
      var rest := SkipSpaceSplits(s[1..]);
      blanks := [s[0]] + rest;
    } else {
      blanks := "";
    }
  }

  lemma {:induction false} CStringOfText(s: string)
    requires forall i :: 0 <= i < |s| ==> s[i] != '\0'
    ensures CString(s) == s
  {
    if s != "" {
      CStringOfText(s[1..]);
    }
  }
}
