/** Fixed-point texts that do not fit their buffer: when what is left of one still denotes the number. */
module CutText {
  import opened Common
  import opened Text

  // ---------- the beginning of a numeral ----------

  lemma Division(n: nat, m: nat)
    requires m >= 1
    ensures n == m * (n / m) + n % m && n % m < m
  {
  }

  lemma Regroup(p: nat, c: nat, e: nat, b: nat)
    ensures 10 * (p * c + e) + b == (10 * p) * c + (10 * e + b)
  {
  }

  lemma DivTwice(n: nat, p: nat)
    requires p >= 1
    ensures n / 10 / p == n / (10 * p)
  {
    var a, b := n / 10, n % 10;
    Division(a, p);
    Regroup(p, a / p, a % p, b);
    DivisionIs(n, 10 * p, a / p, 10 * (a % p) + b);
  }

  /** The first j of k decimals. */
  lemma {:induction false} FixedPrefix(n: nat, k: nat, j: nat)
    requires j <= k
    ensures Fixed(n, k)[..j] == Fixed(n / Pow10(k - j), j)
    decreases k
  {
    if j < k {
      FixedPrefix(n / 10, k - 1, j);
      DivTwice(n, Pow10(k - 1 - j));
      assert Fixed(n, k)[..j] == Fixed(n / 10, k - 1)[..j];
    } else {
      assert Fixed(n, k)[..k] == Fixed(n, k);
      assert Pow10(0) == 1;
    }
  }

  /** A numeral without a leading zero loses value with every digit cut off it. */
  lemma {:induction false} PrefixIsSmaller(s: string, i: nat)
    requires IsNumeral(s, 10) && 1 <= i < |s| && DigitVal(s[0]) >= 1
    ensures IsNumeral(s[..i], 10) && 1 <= Value(s[..i], 10) < Value(s, 10)
    decreases |s|
  {
    var front := s[..|s| - 1];
    if i < |s| - 1 {
      PrefixIsSmaller(front, i);
      assert front[..i] == s[..i];
    } else {
      ValueIsPositive(front);
    }
  }

  lemma {:induction false} ValueIsPositive(s: string)
    requires IsNumeral(s, 10) && s != "" && DigitVal(s[0]) >= 1
    ensures Value(s, 10) >= 1
  {
    if |s| > 1 {
      ValueIsPositive(s[..|s| - 1]);
    } else {
      assert s[..0] == "";
    }
  }

  lemma {:induction false} Pow10Add(a: nat, b: nat)
    ensures Pow10(a + b) == Pow10(a) * Pow10(b)
  {
    if a > 0 {
      Pow10Add(a - 1, b);
      assert 10 * (Pow10(a - 1) * Pow10(b)) == 10 * Pow10(a - 1) * Pow10(b);
    }
  }

  // ---------- values ----------

  lemma QuotientIs(x: real, p: real, y: real)
    requires p > 0.0
    ensures x / p == y <==> x == y * p
  {
    assert x / p * p == x;
  }

  lemma QuotientAtLeast(x: real, p: real, y: real)
    requires p > 0.0 && x >= y * p
    ensures x / p >= y
  {
    assert x / p * p == x;
  }

  /** n / 10^k is its whole part exactly when nothing is left over. */
  lemma WholeValueIff(q: nat, r: nat, n: nat, k: nat)
    requires q * Pow10(k) + r == n
    ensures Scaled(n, k) == q as real <==> r == 0
    ensures Scaled(n, k) >= q as real
  {
    hide Pow10;
    var p := Pow10(k) as real;
    assert (q * Pow10(k)) as real == q as real * p;
    QuotientIs(n as real, p, q as real);
    QuotientAtLeast(n as real, p, q as real);
  }

  /** Fewer decimals denote the same number exactly when they make up for the missing places. */
  lemma FewerPlacesIff(x: nat, j: nat, n: nat, d: nat)
    ensures Scaled(x, j) == Scaled(n, j + d) <==> x * Pow10(d) == n
  {
    Pow10Add(j, d);
    RatiosEqual(x, Pow10(j), n, Pow10(d));
  }

  lemma RatiosEqual(x: nat, p: nat, n: nat, q: nat)
    requires p >= 1 && q >= 1
    ensures x as real / p as real == n as real / (p * q) as real <==> x * q == n
  {
    var a := x as real / p as real;
    var pq := (p * q) as real;
    assert pq == p as real * q as real && pq > 0.0;
    QuotientIs(n as real, pq, a);
    assert a * p as real == x as real;
    assert a * pq == (a * p as real) * q as real;
    assert (x * q) as real == x as real * q as real;
  }

  lemma Expand(q: nat, p: nat, a: nat, m: nat)
    ensures (q * p + a) * m == q * (p * m) + m * a
  {
  }

  lemma ProductGrows(m: nat, a: nat, b: nat)
    ensures a <= b ==> m * a <= m * b
  {
  }

  lemma SmallQuotient(a: nat, m: nat, p: nat)
    requires m * a < p * m
    ensures a < p
  {
    ProductGrows(m, p, a);
  }

  /** The first decimals of a remainder make up for the missing places exactly when the rest is 0. */
  lemma FirstPlacesIff(q: nat, r: nat, n: nat, j: nat, d: nat)
    requires q * Pow10(j + d) + r == n && r < Pow10(j + d)
    ensures r / Pow10(d) < Pow10(j)
    ensures Scaled(q * Pow10(j) + r / Pow10(d), j) == Scaled(n, j + d) <==> r % Pow10(d) == 0
  {
    hide Scaled, Pow10;
    var p, m := Pow10(j), Pow10(d);
    var a := r / m;
    Pow10Add(j, d);
    FewerPlacesIff(q * p + a, j, n, d);
    Division(r, m);
    Expand(q, p, a, m);
    SmallQuotient(a, m, p);
  }

  // ---------- the cut ----------

  /** What a text keeps of its sign, whole part, point and decimals in `room` characters. */
  lemma CutAt(minus: bool, whole: string, frac: string, room: nat)
    requires |Sign(minus)| <= room
    ensures var text := Sign(minus) + (whole + ("." + frac));
            var i := room - |Sign(minus)|;
            && (i <= |whole| ==> text[..room] == Sign(minus) + whole[..i])
            && (|whole| < i <= |whole| + 1 + |frac| ==>
                  text[..room] == Sign(minus) + (whole + ("." + frac[..i - |whole| - 1])))
  {
  }

  /** Nothing is cut off but zeros behind at least one decimal; or, by luck, just the point and zeros. */
  predicate Lossless(minus: bool, n: nat, k: nat, room: nat) {
    var (q, r) := DivMod(n, Pow10(k));
    var shown := room - |Sign(minus)| - |Digits(q, 10)|;
    || shown >= k + 1
    || (shown >= 2 && r % Pow10(k + 1 - shown) == 0)
    || (shown == 0 && r == 0)
  }

  function Cut(room: nat, text: string): string {
    if |text| <= room then text else text[..room]
  }

  lemma SignedIs(minus: bool, x: real, y: real)
    ensures Signed(minus, x) == Signed(minus, y) <==> x == y
  {
  }

  lemma WholeOfDigits(q: nat)
    ensures IsWhole(Digits(q, 10)) && Quotient(Digits(q, 10), 0) == q as real
  {
    hide Digits, Value, Quotient;
    DigitsAreWhole(q);
    DigitsRoundTrip(q, 10);
    PlainQuotient(Digits(q, 10));
  }

  lemma CutInWhole(minus: bool, q: nat, r: nat, n: nat, k: nat, i: nat)
    requires q * Pow10(k) + r == n && 1 <= i < |Digits(q, 10)|
    ensures ReadNumber(Sign(minus) + Digits(q, 10)[..i]) != Some(Signed(minus, Scaled(n, k)))
  {
    hide ReadNumber, Scaled, Value, Digits;
    var whole := Digits(q, 10);
    DigitsRoundTrip(q, 10);
    assert q > 0 by { if q == 0 { OneDigit(); } }
    NoLeadingZero(q);
    PrefixIsSmaller(whole, i);
    ReadOfWhole(minus, whole[..i]);
    PlainQuotient(whole[..i]);
    WholeValueIff(q, r, n, k);
    SignedIs(minus, Quotient(whole[..i], 0), Scaled(n, k));
  }

  lemma OneDigit()
    ensures |Digits(0, 10)| == 1
  {
  }

  lemma PlainQuotient(s: string)
    requires IsNumeral(s, 10)
    ensures Quotient(s, 0) == Value(s, 10) as real
  {
    assert Pow10(0) == 1;
  }

  lemma CutBehindWhole(minus: bool, q: nat, r: nat, n: nat, k: nat)
    requires q * Pow10(k) + r == n
    ensures ReadNumber(Sign(minus) + Digits(q, 10)) == Some(Signed(minus, Scaled(n, k))) <==> r == 0
  {
    hide ReadNumber, Scaled, Value, Digits, IsWhole, Quotient;
    WholeOfDigits(q);
    ReadOfWhole(minus, Digits(q, 10));
    WholeValueIff(q, r, n, k);
    SignedIs(minus, q as real, Scaled(n, k));
  }

  lemma CutInPlaces(minus: bool, q: nat, r: nat, n: nat, k: nat, j: nat)
    requires q * Pow10(k) + r == n && r < Pow10(k) && 1 <= j <= k
    ensures var text := Sign(minus) + (Digits(q, 10) + ("." + Fixed(r, k)[..j]));
            ReadNumber(text) == Some(Signed(minus, Scaled(n, k))) <==> r % Pow10(k - j) == 0
  {
    hide ReadNumber, Scaled, Value, Digits, IsWhole, Fixed;
    var whole := Digits(q, 10);
    var a := r / Pow10(k - j);
    FixedPrefix(r, k, j);
    FirstPlacesIff(q, r, n, j, k - j);
    DigitsAreWhole(q);
    PartsValue(q, a, q * Pow10(j) + a, j);
    ReadOfParts(minus, whole, Fixed(a, j));
    assert Quotient(whole + Fixed(a, j), j) == Scaled(q * Pow10(j) + a, j);
    SignedIs(minus, Scaled(q * Pow10(j) + a, j), Scaled(n, k));
  }

  /** Whatever its buffer, a fixed-point text reads back as its number exactly when the cut is lossless. */
  lemma CutReadsBackIff(minus: bool, n: nat, k: nat, room: nat)
    requires k >= 1 && room > |Sign(minus)|
    ensures ReadNumber(Cut(room, DecimalText(minus, n, k))) == Some(Signed(minus, Scaled(n, k)))
            <==> Lossless(minus, n, k, room)
  {
    hide ReadNumber, Scaled, Value, Digits, IsWhole, Fixed;
    var (q, r) := DivMod(n, Pow10(k));
    var whole, frac := Digits(q, 10), Fixed(r, k);
    var i := room - |Sign(minus)|;
    assert DecimalText(minus, n, k) == Sign(minus) + (whole + ("." + frac));
    if i >= |whole| + 1 + k {
      DecimalTextReadsBack(minus, n, k);
    } else {
      CutAt(minus, whole, frac, room);
      if i < |whole| {
        CutInWhole(minus, q, r, n, k, i);
      } else if i == |whole| {
        assert whole[..i] == whole;
        CutBehindWhole(minus, q, r, n, k);
      } else if i == |whole| + 1 {
        DigitsAreWhole(q);
        NothingBehindPoint(minus, whole, frac);
      } else {
        CutInPlaces(minus, q, r, n, k, i - |whole| - 1);
      }
    }
  }

  lemma NothingBehindPoint(minus: bool, whole: string, frac: string)
    requires IsWhole(whole)
    ensures ReadNumber(Sign(minus) + (whole + ("." + frac[..0]))) == None
  {
    hide ReadNumber;
    assert frac[..0] == "" && whole + "" == whole;
    ReadOfParts(minus, whole, "");
  }

  lemma SmallWhole(q: nat, r: nat, n: nat, p: nat, bound: nat)
    requires q * p + r == n && n < bound * p
    ensures q < bound
  {
    ProductGrows(p, bound, q);
  }

  /** A text that fits is not cut. */
  lemma ShortIsLossless(minus: bool, n: nat, k: nat, room: nat)
    requires 1 <= k < room && |Sign(minus)| + k + 2 <= room && n < Pow10(room - 1 - |Sign(minus)|)
    ensures Lossless(minus, n, k, room) && |DecimalText(minus, n, k)| <= room
  {
    hide Digits, Pow10;
    var (q, r) := DivMod(n, Pow10(k));
    var digits := room - 1 - |Sign(minus)| - k;
    Pow10Add(digits, k);
    SmallWhole(q, r, n, Pow10(k), Pow10(digits));
    DecimalLength(q, digits);
  }
}
