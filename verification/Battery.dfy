/** The battery firmware: a clamped charge, the 95 % / 75 % charge lock, the manual override and
    the charge report. Charges are real numbers of kWh. */
module Battery {
  import opened Common
  import opened Text
  import opened CutText

  const SOC_LOCK_THRESHOLD := 0.95
  const SOC_UNLOCK_THRESHOLD := 0.75

  // ---------- one command ----------

  datatype Pack = Pack(max: real, charge: real, locked: bool, overriding: bool)

  datatype Reply = Changed | Forbidden | BadRequest

  function Soc(p: Pack): real
    requires p.max > 0.0
  {
    p.charge / p.max
  }

  /** Dividing by the capacity or multiplying the threshold by it is the same test. */
  lemma SocThresholds(p: Pack)
    requires p.max > 0.0
    ensures Soc(p) >= SOC_LOCK_THRESHOLD <==> p.charge >= 0.95 * p.max
    ensures Soc(p) <= SOC_UNLOCK_THRESHOLD <==> p.charge <= 0.75 * p.max
  {
    RatioAgainst(p.charge, p.max, 0.95);
    RatioAgainst(p.charge, p.max, 0.75);
  }

  lemma RatioAgainst(c: real, m: real, t: real)
    requires m > 0.0
    ensures c / m >= t <==> c >= t * m
    ensures c / m <= t <==> c <= t * m
  {
    assert (c / m - t) * m == c - t * m;
  }

  function UpdateLock(p: Pack): Pack
    requires p.max > 0.0
  {
    if Soc(p) >= SOC_LOCK_THRESHOLD && !p.locked then p.(locked := true)
    else if Soc(p) <= SOC_UNLOCK_THRESHOLD && p.locked then p.(locked := false)
    else p
  }

  function Clamp(lo: real, hi: real, x: real): real {
    if x < lo then lo else if x > hi then hi else x
  }

  predicate Refuses(p: Pack, delta: real) {
    delta > 0.0 && p.locked && !p.overriding
  }

  function Adjust(p: Pack, delta: real): (q: Pack)
    requires p.max > 0.0
    ensures q.max == p.max && q.overriding == p.overriding
  {
    if Refuses(p, delta) then p
    else UpdateLock(p.(charge := Clamp(0.0, p.max, p.charge + delta)))
  }

  // ---------- the charge report ----------

  /** C's conversion of a floating value to an integer. */
  function Truncate(x: real): int { if x >= 0.0 then x.Floor else -(-x).Floor }

  /** C's integer division and remainder, for a positive divisor. */
  function CDiv(a: int, b: int): int
    requires b > 0
  {
    if a >= 0 then a / b else -(-a / b)
  }

  function CMod(a: int, b: int): int
    requires b > 0
  {
    a - CDiv(a, b) * b
  }

  function Abs(a: int): nat { if a < 0 then -a else a }

  /** The value in units of 10^-k, rounded half away from zero. */
  function RoundScaled(value: real, k: nat): int {
    Truncate(value * Pow10(k) as real + (if value >= 0.0 then 0.5 else -0.5))
  }

  /** What the formatters print for a value rounded to `scaled` units of 10^-k: the sign of the whole
      part and the size of the remainder. */
  function FixedText(scaled: int, k: nat): string {
    var whole, frac := CDiv(scaled, Pow10(k)), CMod(scaled, Pow10(k));
    (if whole < 0 then "-" else "") + (Digits(Abs(whole), 10) + ("." + Fixed(Abs(frac), k)))
  }

  lemma CDivIsDivMod(a: int, b: int)
    requires b > 0
    ensures (Abs(CDiv(a, b)), Abs(CMod(a, b))) == DivMod(Abs(a), b)
    ensures CDiv(a, b) < 0 <==> a <= -b
  {
    var n := Abs(a);
    var q, r := n / b, n % b;
    assert q * b + r == n;
    if a < 0 {
      assert CDiv(a, b) == -q;
      assert CMod(a, b) == -r by { assert a - (-q) * b == -(n - q * b); }
      if a <= -b { assert q >= 1; }
    } else {
      assert CMod(a, b) == r;
    }
  }

  predicate PrintsMinus(scaled: int, k: nat) { scaled + Pow10(k) <= 0 }

  lemma {:induction false} FixedTextIsDecimal(scaled: int, k: nat)
    ensures FixedText(scaled, k) == DecimalText(PrintsMinus(scaled, k), Abs(scaled), k)
  {
    CDivIsDivMod(scaled, Pow10(k));
  }

  predicate KeepsSign(scaled: int, k: nat) { scaled >= 0 || PrintsMinus(scaled, k) }

  lemma SignKeptIff(scaled: int, k: nat)
    ensures Signed(PrintsMinus(scaled, k), Scaled(Abs(scaled), k)) == Scaled(scaled, k) <==> KeepsSign(scaled, k)
  {
    ScaledSign(Abs(scaled), k);
  }

  /** snprintf into a buffer of `size` bytes: the text cut to leave room for the terminator. */
  function Snprintf(size: nat, text: string): string
    requires size > 0
  {
    Cut(size - 1, text)
  }

  /** The buffer of every call of the formatters. */
  const TEXT_SIZE := 16

  /** What the buffer has room for still denotes the number. */
  predicate Uncut(scaled: int, k: nat) { Lossless(PrintsMinus(scaled, k), Abs(scaled), k, TEXT_SIZE - 1) }

  lemma {:induction false} BufferReadsBackIff(scaled: int, k: nat)
    requires 1 <= k <= 12
    ensures ReadNumber(Snprintf(TEXT_SIZE, FixedText(scaled, k))) == Some(Scaled(scaled, k))
            <==> KeepsSign(scaled, k) && Uncut(scaled, k)
  {
    hide ReadNumber, FixedText, DecimalText, Scaled, Lossless;
    var minus, n := PrintsMinus(scaled, k), Abs(scaled);
    FixedTextIsDecimal(scaled, k);
    CutReadsBackIff(minus, n, k, TEXT_SIZE - 1);
    SignKeptIff(scaled, k);
    if !KeepsSign(scaled, k) {
      Pow10Monotone(k, TEXT_SIZE - 2);
      ShortIsLossless(minus, n, k, TEXT_SIZE - 1);
    }
  }

  /** The range of the C `long` that the formatters round into; LONG_MAX is the least that C permits. */
  predicate Fits(scaled: int, longMax: nat) { -1 - longMax <= scaled <= longMax }

  const LONG_MAX: nat := 0x7FFF_FFFF

  /** The conversion to a long. Where C leaves it undefined, for a value out of range or none at all,
      it may give anything: `junk`. */
  function Converted(value: Float, k: nat, longMax: nat, junk: int): int {
    if value.Finite? && Fits(RoundScaled(value.value, k), longMax) then RoundScaled(value.value, k) else junk
  }

  /** The text in the buffer. */
  function Printed(value: Float, k: nat, longMax: nat, junk: int): string {
    Snprintf(TEXT_SIZE, FixedText(Converted(value, k, longMax, junk), k))
  }

  /** The text in the buffer reads back as the rounded value, whatever an undefined conversion gives, if
      and only if the rounded value fits a long, is not strictly between -1 and 0, where the sign is lost,
      and loses nothing but zeros to the end of the buffer. */
  lemma {:induction false} ReportReadsBackIff(value: real, k: nat, longMax: nat)
    requires 1 <= k <= 12
    ensures var scaled := RoundScaled(value, k);
            (forall junk: int :: ReadNumber(Printed(Finite(value), k, longMax, junk)) == Some(Scaled(scaled, k)))
            <==> Fits(scaled, longMax) && KeepsSign(scaled, k) && Uncut(scaled, k)
  {
    hide ReadNumber, FixedText, RoundScaled, Snprintf, Scaled, KeepsSign, Uncut;
    var scaled := RoundScaled(value, k);
    if Fits(scaled, longMax) {
      assert forall junk: int :: Printed(Finite(value), k, longMax, junk) == Snprintf(TEXT_SIZE, FixedText(scaled, k));
      BufferReadsBackIff(scaled, k);
      assert Printed(Finite(value), k, longMax, 0) == Snprintf(TEXT_SIZE, FixedText(scaled, k));
    } else {
      assert Printed(Finite(value), k, longMax, 0) == Snprintf(TEXT_SIZE, FixedText(0, k));
      ZeroReadsAsZero(k);
      ScaledIsZeroIff(scaled, k);
    }
  }

  lemma ZeroReadsAsZero(k: nat)
    requires 1 <= k <= 12
    ensures ReadNumber(Snprintf(TEXT_SIZE, FixedText(0, k))) == Some(0.0)
  {
    hide ReadNumber, FixedText, Lossless;
    Pow10Monotone(k, TEXT_SIZE - 2);
    ShortIsLossless(false, 0, k, TEXT_SIZE - 1);
    BufferReadsBackIff(0, k);
    ScaledIsZeroIff(0, k);
  }

  lemma ScaledIsZeroIff(n: int, k: nat)
    ensures Scaled(n, k) == 0.0 <==> n == 0
  {
    QuotientIs(n as real, Pow10(k) as real, 0.0);
  }

  /** Nearest, and away from zero between two equally near ones. */
  lemma RoundScaledIsNearest(value: real, k: nat)
    ensures var units := value * Pow10(k) as real;
            var n := RoundScaled(value, k) as real;
            && -0.5 <= n - units <= 0.5
            && (n - units == 0.5 ==> units > 0.0) && (n - units == -0.5 ==> units < 0.0)
  {
    var p := Pow10(k) as real;
    SignOfProduct(value, p);
    RoundIsNearest(value * p, value >= 0.0);
  }

  lemma SignOfProduct(x: real, p: real)
    requires p > 0.0
    ensures x * p >= 0.0 <==> x >= 0.0
  {
    assert x >= 0.0 ==> x * p >= 0.0;
    assert x < 0.0 ==> -x * p > 0.0;
  }

  lemma RoundIsNearest(units: real, up: bool)
    requires up <==> units >= 0.0
    ensures var n := Truncate(units + (if up then 0.5 else -0.5)) as real;
            && -0.5 <= n - units <= 0.5
            && (n - units == 0.5 ==> units > 0.0) && (n - units == -0.5 ==> units < 0.0)
  {
  }

  lemma RoundScaledNonNegative(value: real, k: nat)
    requires value >= 0.0
    ensures RoundScaled(value, k) == (value * Pow10(k) as real + 0.5).Floor >= 0
  {
    assert value * Pow10(k) as real >= 0.0;
  }

  /** A charge, which is never negative, reads back as floor(charge * 10^k + 0.5) / 10^k, at most
      half a unit of the last printed place away from the charge, as long as that many units fit both a
      long and the 14 digits of the buffer. */
  lemma {:induction false} ChargeReadsBack(charge: real, k: nat, longMax: nat, junk: int)
    requires charge >= 0.0 && 1 <= k <= 12
    ensures var units := charge * Pow10(k) as real;
            var n := (units + 0.5).Floor;
            && (n <= longMax && n < Pow10(14) ==>
                  ReadNumber(Printed(Finite(charge), k, longMax, junk)) == Some(Scaled(n, k)))
            && -0.5 <= n as real - units <= 0.5
  {
    hide ReadNumber, FixedText, Snprintf, Lossless;
    var n := (charge * Pow10(k) as real + 0.5).Floor;
    RoundScaledNonNegative(charge, k);
    if n <= longMax && n < Pow10(14) {
      ShortIsLossless(false, n, k, TEXT_SIZE - 1);
      ReportReadsBackIff(charge, k, longMax);
    }
  }

  // ---------- the firmware ----------

  /** What the firmware holds: its charge is a C float, which may cease to be a number. */
  datatype Cell = Cell(max: real, charge: Float, locked: bool, overriding: bool)

  function CellOf(p: Pack): Cell { Cell(p.max, Finite(p.charge), p.locked, p.overriding) }

  /** C's comparisons: every one with NaN is false. */
  predicate AtLeast(x: Float, bound: real) {
    match x
    case Finite(v) => v >= bound
    case Infinite(negative) => !negative
    case NaN => false
  }

  predicate AtMost(x: Float, bound: real) {
    match x
    case Finite(v) => v <= bound
    case Infinite(negative) => negative
    case NaN => false
  }

  predicate Above(x: Float, bound: real) { AtLeast(x, bound) && x != Finite(bound) }

  predicate Below(x: Float, bound: real) { AtMost(x, bound) && x != Finite(bound) }

  function Plus(x: Float, y: Float): Float {
    if x.NaN? || y.NaN? || (x.Infinite? && y.Infinite? && x != y) then NaN
    else if x.Infinite? then x
    else if y.Infinite? then y
    else Finite(x.value + y.value)
  }

  function Over(x: Float, max: real): Float
    requires max > 0.0
  {
    if x.Finite? then Finite(x.value / max) else x
  }

  function LockCell(c: Cell): Cell
    requires c.max > 0.0
  {
    var soc := Over(c.charge, c.max);
    if AtLeast(soc, SOC_LOCK_THRESHOLD) && !c.locked then c.(locked := true)
    else if AtMost(soc, SOC_UNLOCK_THRESHOLD) && c.locked then c.(locked := false)
    else c
  }

  function ClampFloat(hi: real, x: Float): Float {
    var y := if Below(x, 0.0) then Finite(0.0) else x;
    if Above(y, hi) then Finite(hi) else y
  }

  /** What the payload's at most 31 characters amount to. */
  function DeltaOf(payload: string): Float {
    Atof(payload[..if |payload| < 31 then |payload| else 31])
  }

  predicate RefusesCell(c: Cell, delta: Float) { Above(delta, 0.0) && c.locked && !c.overriding }

  function AdjustCell(c: Cell, delta: Float): Cell
    requires c.max > 0.0
  {
    if RefusesCell(c, delta) then c else LockCell(c.(charge := ClampFloat(c.max, Plus(c.charge, delta))))
  }

  function PutCell(c: Cell, payload: string): (Cell, Reply)
    requires c.max > 0.0
  {
    if payload == "" then (c, BadRequest)
    else (AdjustCell(c, DeltaOf(payload)), if RefusesCell(c, DeltaOf(payload)) then Forbidden else Changed)
  }

  /** On numbers, the float arithmetic is that of `Adjust`. */
  lemma AdjustCellOfNumber(p: Pack, delta: real)
    requires p.max > 0.0
    ensures AdjustCell(CellOf(p), Finite(delta)) == CellOf(Adjust(p, delta))
    ensures RefusesCell(CellOf(p), Finite(delta)) == Refuses(p, delta)
  {
    if !Refuses(p, delta) {
      var charge := Clamp(0.0, p.max, p.charge + delta);
      assert ClampFloat(p.max, Plus(Finite(p.charge), Finite(delta))) == Finite(charge);
      assert LockCell(CellOf(p.(charge := charge))) == CellOf(UpdateLock(p.(charge := charge)));
    }
  }

  lemma PutCellOfNumber(p: Pack, payload: string, delta: real)
    requires p.max > 0.0 && payload != "" && DeltaOf(payload) == Finite(delta)
    ensures PutCell(CellOf(p), payload) == (CellOf(Adjust(p, delta)), if Refuses(p, delta) then Forbidden else Changed)
    ensures PutResult(p, payload) == Adjust(p, delta)
  {
    hide DeltaOf, AdjustCell, Adjust, RefusesCell, Refuses;
    AdjustCellOfNumber(p, delta);
  }

  /** A PUT, said of the float its payload reads as: 4.00 for no payload; 4.03 without change exactly for
      a positive one, infinity included, while locked and not overridden; and otherwise 2.04, the charge
      becoming the sum cut to the range, full, empty, or no number. */
  lemma PutEffect(p: Pack, payload: string)
    requires p.max > 0.0
    ensures var c := CellOf(p);
            var (c', reply) := PutCell(c, payload);
            var delta := DeltaOf(payload);
            var positive := delta == Infinite(false) || (delta.Finite? && delta.value > 0.0);
            if payload == "" then c' == c && reply == BadRequest
            else if positive && p.locked && !p.overriding then c' == c && reply == Forbidden
            else && reply == Changed && c'.max == p.max && c'.overriding == p.overriding
                 && c'.charge == match delta
                                 case NaN => NaN
                                 case Infinite(negative) => Finite(if negative then 0.0 else p.max)
                                 case Finite(d) => Finite(if p.charge + d < 0.0 then 0.0
                                                          else if p.charge + d > p.max then p.max
                                                          else p.charge + d)
  {
    hide DeltaOf;
  }

  /** A body that begins with "on" sets the override, one that begins with "off" takes it back, and any
      other is refused; the pack itself is left alone. */
  lemma OverrideEffect(c: Cell, payload: string)
    ensures var (c', reply) := OverrideResult(c, payload);
            var on := |payload| >= 2 && payload[0] == 'o' && payload[1] == 'n';
            var off := |payload| >= 3 && payload[0] == 'o' && payload[1] == 'f' && payload[2] == 'f';
            && c' == c.(overriding := if on then true else if off then false else c.overriding)
            && reply == if on || off then Changed else BadRequest
  {
    assert "on" <= payload <==> |payload| >= 2 && payload[0] == 'o' && payload[1] == 'n' by {
      if |payload| >= 2 && payload[0] == 'o' && payload[1] == 'n' {
        assert payload[..2] == "on";
      }
    }
    assert "off" <= payload <==> |payload| >= 3 && payload[0] == 'o' && payload[1] == 'f' && payload[2] == 'f' by {
      if |payload| >= 3 && payload[0] == 'o' && payload[1] == 'f' && payload[2] == 'f' {
        assert payload[..3] == "off";
      }
    }
  }

  /** The pack after a PUT, for a writer that only sends numbers. */
  function PutResult(p: Pack, payload: string): (q: Pack)
    requires p.max > 0.0
    ensures q.max == p.max && q.overriding == p.overriding
  {
    var c := PutCell(CellOf(p), payload).0;
    if c.charge.Finite? then Pack(c.max, c.charge.value, c.locked, c.overriding) else p
  }

  function OverrideResult(c: Cell, payload: string): (Cell, Reply) {
    if "on" <= payload then (c.(overriding := true), Changed)
    else if "off" <= payload then (c.(overriding := false), Changed)
    else (c, BadRequest)
  }

  /** The values of the JSON object a GET answers with. */
  datatype Report = Report(maxCapacity: string, chargedCapacity: string, locked: bool, overriding: bool)

  function ReportOfCell(c: Cell, longMax: nat, junkMax: int, junkCharged: int): Report {
    Report(Printed(Finite(c.max), 1, longMax, junkMax), Printed(c.charge, 1, longMax, junkCharged),
           c.locked, c.overriding)
  }

  /** The report of a pack that any C compiler's long has room for. */
  function ReportOf(p: Pack): Report { ReportOfCell(CellOf(p), LONG_MAX, 0, 0) }

  lemma ReportIsDefined(p: Pack, longMax: nat, junkMax: int, junkCharged: int)
    requires 0.0 <= p.charge <= p.max <= 200000000.0 && longMax >= LONG_MAX
    ensures ReportOfCell(CellOf(p), longMax, junkMax, junkCharged) == ReportOf(p)
  {
    hide FixedText, Snprintf;
    assert Pow10(1) == 10;
    RoundScaledNonNegative(p.max, 1);
    RoundScaledNonNegative(p.charge, 1);
  }

  /** `max_capacity`, `charged_capacity` and the two static flags of the resource. */
  class BatteryNode {
    const maxCapacity: real
    const longMax: nat
    var chargedCapacity: Float
    var chargingLocked: bool
    var overrideActive: bool

    constructor (maxCapacity: real, startCapacity: real, longMax: nat)
      ensures Contents() == CellOf(Pack(maxCapacity, startCapacity, false, false)) && this.longMax == longMax
    {
      this.maxCapacity, chargedCapacity, this.longMax := maxCapacity, Finite(startCapacity), longMax;
      chargingLocked, overrideActive := false, false;
    }

    function Contents(): Cell
      reads this
    {
      Cell(maxCapacity, chargedCapacity, chargingLocked, overrideActive)
    }

    method UpdateLockState()
      requires maxCapacity > 0.0
      modifies `chargingLocked
      ensures Contents() == LockCell(old(Contents()))
    {
      var soc := Over(chargedCapacity, maxCapacity);
      if AtLeast(soc, SOC_LOCK_THRESHOLD) && !chargingLocked {
        chargingLocked := true;
      } else if AtMost(soc, SOC_UNLOCK_THRESHOLD) && chargingLocked {
        chargingLocked := false;
      }
    }

    method PutBattery(payload: string) returns (reply: Reply)
      requires maxCapacity > 0.0
      modifies `chargedCapacity, `chargingLocked
      ensures (Contents(), reply) == PutCell(old(Contents()), payload)
    {
      hide Atof;
      if |payload| <= 0 {
        return BadRequest;
      }
      var length := if |payload| < 31 then |payload| else 31;
      var delta := Atof(payload[..length]);
      if Above(delta, 0.0) && chargingLocked && !overrideActive {
        return Forbidden;
      }
      chargedCapacity := Plus(chargedCapacity, delta);
      if Below(chargedCapacity, 0.0) {
        chargedCapacity := Finite(0.0);
      }
      if Above(chargedCapacity, maxCapacity) {
        chargedCapacity := Finite(maxCapacity);
      }
      UpdateLockState();
      return Changed;
    }

    method PutOverride(payload: string) returns (reply: Reply)
      modifies `overrideActive
      ensures (Contents(), reply) == OverrideResult(old(Contents()), payload)
    {
      if |payload| >= 2 && payload[..2] == "on" {
        overrideActive := true;
      } else if |payload| >= 3 && payload[..3] == "off" {
        overrideActive := false;
      } else {
        return BadRequest;
      }
      return Changed;
    }

    method FormatFixed1(size: nat, value: Float, junk: int) returns (text: string)
      requires size > 0
      ensures text == Snprintf(size, FixedText(Converted(value, 1, longMax, junk), 1))
    {
      text := FormatFixed(size, value, 1, junk);
    }

    /** The body that the one-decimal and the four-decimal formatter share, for `k` decimals. */
    method FormatFixed(size: nat, value: Float, k: nat, junk: int) returns (text: string)
      requires size > 0
      ensures text == Snprintf(size, FixedText(Converted(value, k, longMax, junk), k))
    {
      var scaled := Converted(value, k, longMax, junk);
      var whole, frac := CDiv(scaled, Pow10(k)), CMod(scaled, Pow10(k));
      var sign := if whole < 0 then "-" else "";
      var places := frac;
      if places < 0 {
        places := -places;
      }
      assert places == Abs(frac);
      text := Snprintf(size, sign + (Digits(Abs(whole), 10) + ("." + Fixed(places, k))));
    }

    /** The two parameters are what conversions give where C leaves them undefined. */
    method GetBattery(junkMax: int, junkCharged: int) returns (report: Report)
      ensures report == ReportOfCell(Contents(), longMax, junkMax, junkCharged)
    {
      hide FixedText;
      var maxText := FormatFixed1(TEXT_SIZE, Finite(maxCapacity), junkMax);
      var chargedText := FormatFixed1(TEXT_SIZE, chargedCapacity, junkCharged);
      report := Report(maxText, chargedText, chargingLocked, overrideActive);
    }
  }
}
