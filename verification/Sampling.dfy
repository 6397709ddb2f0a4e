/** The sampling interval of a producer node: the CoAP resource that reads and sets it, and the
    conversions to timer ticks and to the MQTT keep-alive. */
module Sampling {
  import opened Common
  import opened Text

  const STRESSED_INTERVAL_MS := 15000
  const UINT32 := 0x1_0000_0000

  /** The interval in force, and whether the publishing process still has to hear of it: the dirty
      flag and the pending poll. `bootMs` is the interval compiled into the node. */
  datatype Control = Control(bootMs: nat, interval: nat, dirty: bool, poll: bool)

  function Effective(bootMs: nat, requested: nat): nat {
    var ms := if requested == 0 then bootMs else requested;
    if ms > STRESSED_INTERVAL_MS then STRESSED_INTERVAL_MS else ms
  }

  function SetInterval(c: Control, requested: nat): Control {
    var ms := Effective(c.bootMs, requested);
    if ms != c.interval then c.(interval := ms, dirty := true, poll := true) else c
  }

  // ---------- the resource ----------

  /** The text that the handler parses: at most 31 bytes, up to the first NUL. */
  function Copied(payload: string): string {
    CString(payload[..if |payload| < 31 then |payload| else 31])
  }

  /** The interval a PUT asks for; None is answered with 4.00. */
  function Requested(payload: string, ulongMax: nat): Option<nat> {
    if payload == "" then None else
      var (v, digits, rest) := Strtoul(Copied(payload), ulongMax);
      if !digits || rest != "" || v < 1 || v > 60000 then None else Some(v)
  }

  function PutSampling(c: Control, payload: string, ulongMax: nat): (Control, bool) {
    match Requested(payload, ulongMax)
    case None => (c, false)
    case Some(v) => (SetInterval(c, v), true)
  }

  function GetSampling(c: Control): string { Digits(c.interval, 10) }

  /** Python's `int(text)` on a plain numeral. */
  function ReadInt(text: string): Option<nat> {
    if text != "" && IsNumeral(text, 10) then Some(Value(text, 10)) else None
  }

  /** Setting an interval: 0 stands for the one the node was built with, 15 s is the most; the process is told,
      by flag and poll, exactly when that is a change, and otherwise nothing happens at all. */
  lemma SetIntervalTells(c: Control, requested: nat)
    ensures var wanted := if requested == 0 then c.bootMs else requested;
            var ms := if wanted > 15000 then 15000 else wanted;
            SetInterval(c, requested) == if ms == c.interval then c else Control(c.bootMs, ms, true, true)
  {
  }

  // ---------- which bodies are accepted ----------

  /** Blanks, an optional sign, and at least one digit, with nothing behind. */
  predicate Shaped(s: string, blanks: string, sign: string, digits: string) {
    && s == blanks + (sign + digits)
    && Blank(blanks) && sign in {"", "+", "-"}
    && digits != "" && IsNumeral(digits, 10)
  }

  /** What such a text asks for in an unsigned long: saturated, and wrapped behind a minus sign. */
  function Asked(sign: string, digits: string, ulongMax: nat): nat
    requires IsNumeral(digits, 10)
  {
    var v := Value(digits, 10);
    if v > ulongMax then ulongMax else if sign == "-" && v > 0 then ulongMax + 1 - v else v
  }

  lemma ShapedIsRead(s: string, blanks: string, sign: string, digits: string, ulongMax: nat)
    requires Shaped(s, blanks, sign, digits)
    ensures Strtoul(s, ulongMax) == (Asked(sign, digits, ulongMax), true, "")
  {
    hide Value;
    var t := sign + digits;
    assert DigitVal(digits[0]) < 10;
    assert t[0] == if sign == "" then digits[0] else sign[0];
    SkipSpaceOf(blanks, t);
    assert Unsigned(t) == digits;
    SpanStops(digits, "", 10);
    assert digits + "" == digits;
  }

  lemma ReadIsShaped(s: string, ulongMax: nat)
    requires Strtoul(s, ulongMax).1 && Strtoul(s, ulongMax).2 == ""
    ensures exists blanks, sign, digits :: Shaped(s, blanks, sign, digits)
  {
    hide Value, SkipSpace, IsSpace;
    var blanks := SkipSpaceSplits(s);
    var head := SkipSpace(s);
    var t := Unsigned(head);
    var sign := head[..|head| - |t|];
    assert head == sign + t;
    assert sign in {"", "+", "-"} by {
      if head != t {
        assert sign == [head[0]];
      }
    }
    var w := Span(t, 10);
    assert w == |t| && t[..w] == t;
    assert Shaped(s, blanks, sign, t);
  }

  /** A body is accepted exactly when, up to its first NUL and its 31st byte, it is blanks, an optional
      sign and digits and nothing else, and the number these ask for lies in 1..60000; and then that is
      the interval set, cut to 15 s. */
  lemma AcceptedIff(c: Control, payload: string, ulongMax: nat)
    ensures var (c', ok) := PutSampling(c, payload, ulongMax);
            && (ok <==> payload != "" && exists blanks, sign, digits ::
                  && Shaped(Copied(payload), blanks, sign, digits)
                  && 1 <= Asked(sign, digits, ulongMax) <= 60000)
            && (!ok ==> c' == c)
    ensures forall blanks, sign, digits ::
              (Shaped(Copied(payload), blanks, sign, digits) && payload != ""
               && 1 <= Asked(sign, digits, ulongMax) <= 60000) ==>
                var ms := Asked(sign, digits, ulongMax);
                PutSampling(c, payload, ulongMax).0.interval == if ms > 15000 then 15000 else ms
  {
    hide Value, Strtoul, Copied, Asked;
    var s := Copied(payload);
    if Strtoul(s, ulongMax).1 && Strtoul(s, ulongMax).2 == "" {
      ReadIsShaped(s, ulongMax);
    }
    forall blanks, sign, digits | Shaped(s, blanks, sign, digits)
      ensures Strtoul(s, ulongMax) == (Asked(sign, digits, ulongMax), true, "")
    {
      ShapedIsRead(s, blanks, sign, digits, ulongMax);
    }
  }

  // ---------- decimal texts of every length ----------

  lemma {:induction false} LongPrefixIsLarge(s: string, m: nat)
    requires IsNumeral(s, 10) && 1 <= m <= |s| && DigitVal(s[0]) >= 1
    ensures IsNumeral(s[..m], 10) && Value(s[..m], 10) >= Pow10(m - 1)
  {
    assert s[..m][..m - 1] == s[..m - 1];
    if m == 1 {
      assert s[..1][..0] == "";
    } else {
      LongPrefixIsLarge(s, m - 1);
    }
  }

  lemma {:induction false} Pow10Grows(k: nat)
    requires k >= 5
    ensures Pow10(k) >= 100000
  {
    if k > 5 {
      Pow10Grows(k - 1);
    } else {
      assert Pow10(1) == 10;
      assert Pow10(2) == 100;
      assert Pow10(3) == 1000;
      assert Pow10(4) == 10000;
    }
  }

  lemma NumeralHasNoNul(s: string)
    requires IsNumeral(s, 10)
    ensures CString(s) == s && CString("-" + s) == "-" + s
  {
    assert forall i :: 0 <= i < |s| ==> DigitVal(s[i]) < 10;
    CStringOfText(s);
    CStringOfText("-" + s);
  }

  lemma RequestedOfDecimal(x: nat, ulongMax: nat)
    requires ulongMax >= UINT32 - 1
    ensures Requested(Digits(x, 10), ulongMax) == if 1 <= x <= 60000 then Some(x) else None
  {
    hide Value, Pow10, CString, Strtoul;
    var s := Digits(x, 10);
    DigitsRoundTrip(x, 10);
    var cut := s[..if |s| < 31 then |s| else 31];
    assert IsNumeral(cut, 10);
    NumeralHasNoNul(cut);
    StrtoulOfNumeral(false, cut, ulongMax);
    assert "" + cut == cut;
    if |s| > 31 {
      NoLeadingZero(x);
      LongPrefixIsLarge(s, 31);
      Pow10Grows(30);
      assert s[..|s|] == s;
      LongPrefixIsLarge(s, |s|);
      Pow10Grows(|s| - 1);
    } else {
      assert cut == s;
    }
  }

  /** Decimal-encode x, PUT, then GET: 1..60000 reads back as min(x, 15000); everything else, of any
      length, is refused and changes nothing. */
  lemma PutThenGet(c: Control, x: nat, ulongMax: nat)
    requires ulongMax >= UINT32 - 1
    ensures var (c', ok) := PutSampling(c, Digits(x, 10), ulongMax);
            if 1 <= x <= 60000
            then ok && ReadInt(GetSampling(c')) == Some(if x > 15000 then 15000 else x)
            else !ok && c' == c
  {
    hide Requested, Value;
    RequestedOfDecimal(x, ulongMax);
    DigitsRoundTrip(PutSampling(c, Digits(x, 10), ulongMax).0.interval, 10);
  }

  /** A negative decimal is not always refused: strtoul wraps it, and the top of the unsigned range
      comes out as a valid interval. Holds for numerals of every length. */
  lemma NegativeAcceptedIff(x: nat, ulongMax: nat)
    requires UINT32 - 1 <= ulongMax < Pow10(29)
    ensures Requested("-" + Digits(x, 10), ulongMax).Some? <==> ulongMax + 1 - 60000 <= x <= ulongMax
  {
    hide Value, Pow10, CString, Strtoul;
    var d := Digits(x, 10);
    var s := "-" + d;
    DigitsRoundTrip(x, 10);
    var cut := d[..if |d| < 30 then |d| else 30];
    assert IsNumeral(cut, 10);
    assert s[..if |s| < 31 then |s| else 31] == "-" + cut;
    NumeralHasNoNul(cut);
    StrtoulOfNumeral(true, cut, ulongMax);
    if |d| > 30 {
      NoLeadingZero(x);
      LongPrefixIsLarge(d, 30);
      LongPrefixIsLarge(d, |d|);
      assert d[..|d|] == d;
      Pow10Monotone(29, |d| - 1);
    } else {
      assert cut == d;
    }
  }

  // ---------- ticks ----------

  function ToTicks(ms: nat, clockSecond: nat): nat {
    var ticks := (ms * clockSecond + 999) / 1000;
    var least := if ms > 0 && ticks == 0 then 1 else ticks;
    if least > 0xFFFF then 0xFFFF else least
  }

  /** The least number of ticks not shorter than the interval, or 65535 if that is more. */
  ghost predicate CoveringTicks(ms: nat, clockSecond: nat, ticks: int) {
    && ms * clockSecond <= ticks * 1000
    && forall t: int :: ms * clockSecond <= t * 1000 ==> ticks <= t
  }

  lemma TicksCover(ms: nat, clockSecond: nat)
    requires clockSecond >= 1
    ensures var t := ToTicks(ms, clockSecond);
            if ms * clockSecond <= 65535 * 1000 then CoveringTicks(ms, clockSecond, t) else t == 65535
  {
    var span := ms * clockSecond;
    if ms > 0 {
      assert span >= 1;
    }
  }

  lemma TicksMonotone(a: nat, b: nat, clockSecond: nat)
    requires a <= b && clockSecond >= 1
    ensures ToTicks(a, clockSecond) <= ToTicks(b, clockSecond)
  {
    assert a * clockSecond <= b * clockSecond;
    if a > 0 {
      assert a * clockSecond >= 1;
    }
  }

  /** No interval that the resource can set is ever cut short, on clocks up to 4369 Hz; and 4370 Hz
      is already too fast. */
  lemma {:induction false} TicksUnsaturatedIff(clockSecond: nat)
    requires clockSecond >= 1
    ensures clockSecond <= 4369 <==>
            forall ms: nat :: ms <= STRESSED_INTERVAL_MS ==> CoveringTicks(ms, clockSecond, ToTicks(ms, clockSecond))
  {
    forall ms: nat | ms <= STRESSED_INTERVAL_MS && clockSecond <= 4369
      ensures CoveringTicks(ms, clockSecond, ToTicks(ms, clockSecond))
    {
      TicksCover(ms, clockSecond);
      ProductBound(ms, clockSecond, STRESSED_INTERVAL_MS, 4369);
    }
    if clockSecond > 4369 {
      TicksCover(STRESSED_INTERVAL_MS, clockSecond);
      assert !CoveringTicks(STRESSED_INTERVAL_MS, clockSecond, ToTicks(STRESSED_INTERVAL_MS, clockSecond));
    }
  }

  lemma ProductBound(a: nat, b: nat, c: nat, d: nat)
    requires a <= c && b <= d
    ensures a * b <= c * d
  {
    assert a * b <= c * b;
    assert c * b <= c * d;
  }

  // ---------- keep-alive ----------

  /** 32-bit arithmetic throughout. */
  function KeepAliveSeconds(interval: nat): nat {
    var ms := interval * 3 % UINT32;
    var s := (ms + 999) % UINT32 / 1000;
    var least := if interval > 0 && s == 0 then 1 else s;
    if least > 0xFFFF then 0xFFFF else least
  }

  /** The keep-alive covers three intervals exactly when three intervals fit in 65535 s; then it is
      the least whole number of seconds that does. */
  lemma KeepAliveCoversIff(interval: nat)
    requires interval < UINT32
    ensures 3 * interval <= KeepAliveSeconds(interval) * 1000 <==> 3 * interval <= 65535000
    ensures 3 * interval <= 65535000 ==>
              forall s: int :: 3 * interval <= s * 1000 ==> KeepAliveSeconds(interval) <= s
  {
  }
}
