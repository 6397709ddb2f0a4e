/** The energy balance of the cloud application: latest readings, power per type, the diesel
    hysteresis and the rounded, rate-limited battery command of each cycle. Watts and kWh are real
    numbers, times are milliseconds. */
module EnergyState {
  import opened Common
  import opened Dict
  import opened Text
  import Battery
  import Registry
  import H = Hysteresis

  const MAX_CHARGE_W := 2000.0
  const MAX_DISCHARGE_W := 3000.0
  const BALANCE_INTERVAL_S := 5.0
  const STALE_AFTER_MS := 30000
  const DIESEL_DISPATCH_SOC := 0.20
  const DIESEL_RECOVER_SOC := 0.40

  const DIESEL_TYPE := "diesel"
  const RENEWABLE_TYPES: set<string> := {"solar", "wind"}

  // ---------- readings ----------

  /** A numeric field of a payload: missing (the default 0.0), a number, or not convertible. */
  datatype Field = Missing | Number(value: real) | Malformed {
    function OrZero(): real { if Number? then value else 0.0 }
  }

  datatype Payload = Payload(nodeId: string, kind: string, v: Field, i: Field, sentMs: Field) {
    function Power(): real { v.OrZero() * i.OrZero() }
  }

  datatype Reading = Reading(kind: string, power: real, at: int)

  /** The reading a payload yields, if it is a producer's and its numbers convert. */
  function ReadingOf(p: Payload, now: int): Option<Reading> {
    if p.nodeId == "" || p.kind !in RENEWABLE_TYPES + {DIESEL_TYPE} then None
    else if p.v.Malformed? || p.i.Malformed? then None
    else Some(Reading(p.kind, p.Power(), now))
  }

  function Ingest(readings: seq<Entry<Reading>>, p: Payload, now: int): seq<Entry<Reading>> {
    match ReadingOf(p, now)
    case None => readings
    case Some(r) => Store(readings, p.nodeId, r)
  }

  /** The readings after a message. Before its reading is taken the message is saved, and a `sent_ms`
      that does not convert raises out of that. */
  function Receive(readings: seq<Entry<Reading>>, p: Payload, now: int): seq<Entry<Reading>> {
    if p.sentMs.Malformed? then readings else Ingest(readings, p, now)
  }

  /** Does this reading count for `types` at `now`? */
  predicate Counts(r: Reading, types: set<string>, now: int) {
    r.kind in types && now - r.at <= STALE_AFTER_MS
  }

  function PowerByTypes(readings: seq<Entry<Reading>>, nodes: Registry.Nodes, types: set<string>, now: int): real {
    if readings == [] then 0.0 else
      var e := readings[0];
      (if Counts(e.value, types, now) && Find(nodes, e.key).Some? then e.value.power else 0.0)
      + PowerByTypes(readings[1..], nodes, types, now)
  }

  /** A reading is stored for a payload exactly when it names a node, that node is a wind, solar or diesel
      producer, and both numbers convert; its power is their product, a missing one counting as 0. */
  lemma ReadingIsProduct(p: Payload, now: int)
    ensures var producer := p.nodeId != "" && (p.kind == "wind" || p.kind == "solar" || p.kind == "diesel");
            var reading := ReadingOf(p, now);
            && (reading.Some? <==> producer && !p.v.Malformed? && !p.i.Malformed?)
            && (reading.Some? ==>
                  && reading.value.kind == p.kind && reading.value.at == now
                  && reading.value.power == (if p.v.Number? then p.v.value else 0.0)
                                            * (if p.i.Number? then p.i.value else 0.0))
  {
    var v, i := if p.v.Number? then p.v.value else 0.0, if p.i.Number? then p.i.value else 0.0;
    assert p.v.OrZero() == v && p.i.OrZero() == i;
    assert p.Power() == v * i;
    assert p.kind in RENEWABLE_TYPES + {DIESEL_TYPE} <==> p.kind == "wind" || p.kind == "solar" || p.kind == "diesel";
  }

  // ---------- the battery reading ----------

  /** The state of charge that the decimal texts of a battery report amount to. */
  function SocOf(report: Battery.Report): Option<real> {
    Fraction(ReadNumber(report.chargedCapacity), ReadNumber(report.maxCapacity))
  }

  function Fraction(charged: Option<real>, max: Option<real>): Option<real> {
    if charged == None || max == None || max.value <= 0.0 then None else Some(charged.value / max.value)
  }

  /** No state of charge without two numbers and a positive capacity; otherwise their ratio. */
  lemma SocIsRatio(report: Battery.Report)
    ensures var charged, max := ReadNumber(report.chargedCapacity), ReadNumber(report.maxCapacity);
            && (SocOf(report) == None <==> charged == None || max == None || max.value <= 0.0)
            && (SocOf(report).Some? ==> SocOf(report).value * max.value == charged.value)
  {
    hide ReadNumber;
    var charged, max := ReadNumber(report.chargedCapacity), ReadNumber(report.maxCapacity);
    if charged.Some? && max.Some? && max.value > 0.0 {
      RatioTimes(charged.value, max.value);
    }
  }

  lemma RatioTimes(a: real, b: real)
    requires b > 0.0
    ensures a / b * b == a
  {
  }

  // ---------- diesel dispatch ----------

  /** The two thresholds of the dispatch, as one sample of the switch. */
  function DispatchSignal(soc: real, renewableSurplus: real): H.Signal {
    H.Signal(soc < DIESEL_DISPATCH_SOC && renewableSurplus < 0.0, soc > DIESEL_RECOVER_SOC)
  }

  /** `should_run`: unchanged without a diesel node or without a reading. */
  function ShouldRun(dispatched: bool, soc: Option<real>, dieselRegistered: bool, renewableSurplus: real): bool {
    if !dieselRegistered || soc == None then dispatched
    else H.Next(dispatched, DispatchSignal(soc.value, renewableSurplus))
  }

  /** The flag after the command. It follows any reply: `set_status` does not look at the code. */
  function Dispatch(dispatched: bool, shouldRun: bool, exchange: Exchange): bool {
    if shouldRun != dispatched && exchange.Answered() then shouldRun else dispatched
  }

  // ---------- the battery command ----------

  function Min(a: real, b: real): real { if b < a then b else a }

  /** The energy of one cycle, limited to the charge and discharge rates. */
  function DeltaKwh(totalSurplus: real): real {
    var watts := if totalSurplus > 0.0 then Min(totalSurplus, MAX_CHARGE_W)
                 else if totalSurplus < 0.0 then -Min(-totalSurplus, MAX_DISCHARGE_W)
                 else 0.0;
    watts * (BALANCE_INTERVAL_S / 3600.0) / 1000.0
  }

  /** Nearest integer, ties to even, of a non-negative number. */
  function HalfEven(x: real): nat
    requires x >= 0.0
  {
    var f := x.Floor;
    var rest := x - f as real;
    if rest < 0.5 || (rest == 0.5 && f % 2 == 0) then f else f + 1
  }

  function Magnitude(x: real): real { if x < 0.0 then -x else x }

  /** `f"{delta:.5f}"` */
  function CommandText(delta: real): string {
    DecimalText(delta < 0.0, HalfEven(Magnitude(delta) * 100000.0), 5)
  }

  /** The delta that the text carries. */
  function Sent(delta: real): real {
    var n := HalfEven(Magnitude(delta) * 100000.0);
    if delta < 0.0 then -Scaled(n, 5) else Scaled(n, 5)
  }

  /** The command of a cycle; none for an exactly balanced one. */
  function Command(totalSurplus: real): Option<string> {
    if DeltaKwh(totalSurplus) != 0.0 then Some(CommandText(DeltaKwh(totalSurplus))) else None
  }

  /** No whole number is nearer, and between two equally near ones it is the even one. */
  lemma HalfEvenIsNearest(x: real)
    requires x >= 0.0
    ensures -0.5 <= HalfEven(x) as real - x <= 0.5
    ensures HalfEven(x) as real - x == 0.5 || HalfEven(x) as real - x == -0.5 ==> HalfEven(x) % 2 == 0
  {
  }

  lemma PlacesOf5(n: int)
    ensures Pow10(5) == 100000 && Scaled(n, 5) == n as real / 100000.0
  {
    assert Pow10(2) == 100;
    assert Pow10(3) == 1000;
    assert Pow10(4) == 10000;
  }

  lemma SentIsClose(delta: real)
    ensures -0.000005 <= Sent(delta) - delta <= 0.000005
  {
    PlacesOf5(HalfEven(Magnitude(delta) * 100000.0));
  }

  /** The firmware reads from the command exactly the rounded delta. */
  lemma CommandReadsBack(delta: real)
    ensures Atof(CommandText(delta)) == Finite(Sent(delta))
  {
    hide Atof, ReadNumber;
    DecimalTextReadsBack(delta < 0.0, HalfEven(Magnitude(delta) * 100000.0), 5);
  }

  /** One cycle commands at most 2000 W in and 3000 W out for 5 s, after rounding. */
  lemma CommandBounds(totalSurplus: real)
    ensures -0.00417 <= Sent(DeltaKwh(totalSurplus)) <= 0.00278
    ensures HalfEven(Magnitude(DeltaKwh(totalSurplus)) * 100000.0) <= 417
  {
    var delta := DeltaKwh(totalSurplus);
    assert -0.0041667 <= delta <= 0.0027778;
    PlacesOf5(HalfEven(Magnitude(delta) * 100000.0));
    assert Magnitude(delta) * 100000.0 <= 416.67;
    if delta >= 0.0 {
      assert Magnitude(delta) * 100000.0 <= 277.78;
    }
  }

  /** What a delta of `v` kWh has to do with a surplus of `watts`: five seconds of it, to five decimals, at
      most 2000 W in and 3000 W out. */
  predicate IsEnergyOf(watts: real, v: real) {
    && (-3000.0 <= watts <= 2000.0 ==> -0.000005 <= v - watts / 720000.0 <= 0.000005)
    && (watts >= 2000.0 ==> v == 0.00278)
    && (watts <= -3000.0 ==> v == -0.00417)
  }

  lemma DeltaIsEnergy(watts: real)
    ensures -3000.0 <= watts <= 2000.0 ==> DeltaKwh(watts) == watts / 720000.0
    ensures watts >= 2000.0 ==> DeltaKwh(watts) == 2000.0 / 720000.0
    ensures watts <= -3000.0 ==> DeltaKwh(watts) == -3000.0 / 720000.0
    ensures DeltaKwh(watts) == 0.0 <==> watts == 0.0
  {
  }

  lemma SentAtTheLimits()
    ensures Sent(2000.0 / 720000.0) == 0.00278 && Sent(-3000.0 / 720000.0) == -0.00417
  {
    PlacesOf5(278);
    PlacesOf5(417);
    var x, y := Magnitude(2000.0 / 720000.0) * 100000.0, Magnitude(-3000.0 / 720000.0) * 100000.0;
    assert 277.77 <= x <= 277.78 && 416.66 <= y <= 416.67;
    assert x.Floor == 277 && y.Floor == 416;
  }

  lemma SentIsEnergy(watts: real)
    ensures IsEnergyOf(watts, Sent(DeltaKwh(watts)))
  {
    hide Sent, DeltaKwh;
    DeltaIsEnergy(watts);
    SentIsClose(DeltaKwh(watts));
    SentAtTheLimits();
  }

  /** The command of a cycle, for every surplus: none exactly when it is 0 W, and otherwise a text that the
      firmware reads as the energy of five seconds of that surplus. */
  lemma CommandIsEnergy(watts: real)
    ensures Command(watts) == None <==> watts == 0.0
    ensures watts != 0.0 ==> var v := Atof(Command(watts).value); v.Finite? && IsEnergyOf(watts, v.value)
  {
    hide Sent, DeltaKwh, CommandText, Atof, IsEnergyOf;
    DeltaIsEnergy(watts);
    SentIsEnergy(watts);
    CommandReadsBack(DeltaKwh(watts));
  }

  lemma CommandIsShort(totalSurplus: real)
    ensures |CommandText(DeltaKwh(totalSurplus))| <= 8
  {
    var delta := DeltaKwh(totalSurplus);
    var n := HalfEven(Magnitude(delta) * 100000.0);
    CommandBounds(totalSurplus);
    PlacesOf5(n);
    var (q, r) := DivMod(n, Pow10(5));
    SmallQuotient(q, r, n);
    DecimalLength(q, 1);
  }

  lemma SmallQuotient(q: nat, r: nat, n: nat)
    requires q * 100000 + r == n && n <= 417
    ensures q == 0
  {
  }

  /** End to end: the battery firmware applies to its charge exactly the rounded delta. */
  lemma {:induction false} FirmwareGetsSentDelta(p: Battery.Pack, totalSurplus: real)
    requires p.max > 0.0 && DeltaKwh(totalSurplus) != 0.0
    ensures Battery.PutCell(Battery.CellOf(p), Command(totalSurplus).value).0
            == Battery.CellOf(Battery.Adjust(p, Sent(DeltaKwh(totalSurplus))))
    ensures Battery.PutResult(p, Command(totalSurplus).value)
            == Battery.Adjust(p, Sent(DeltaKwh(totalSurplus)))
  {
    var text := CommandText(DeltaKwh(totalSurplus));
    CommandIsShort(totalSurplus);
    CommandReadsBack(DeltaKwh(totalSurplus));
    assert text[..|text|] == text;
    assert "" != text by { assert |text| >= 5; }
    Battery.PutCellOfNumber(p, text, Sent(DeltaKwh(totalSurplus)));
  }

  // ---------- the cloud's view of a 10 kWh battery ----------

  const BATTERY_MAX := 10.0

  /** The charge in tenths of a kWh, as it is printed. */
  function Tenths(charge: real): int { (charge * 10.0 + 0.5).Floor }

  lemma PlacesOf1(n: int)
    ensures Pow10(1) == 10 && Pow10(2) == 100 && Scaled(n, 1) == n as real / 10.0
  {
  }

  /** The report of a charge is not cut by its buffer, and is read as whole tenths. */
  lemma {:induction false} ReportedTenths(charge: real)
    requires 0.0 <= charge <= BATTERY_MAX
    ensures 0 <= Tenths(charge) <= 100
    ensures ReadNumber(Battery.Printed(Finite(charge), 1, Battery.LONG_MAX, 0)) == Some(Scaled(Tenths(charge), 1))
  {
    hide ReadNumber, Battery.Printed, Scaled;
    PlacesOf1(0);
    Pow10Monotone(2, 14);
    assert Tenths(charge) <= 100;
    Battery.ChargeReadsBack(charge, 1, Battery.LONG_MAX, 0);
    TenthsAreUnits(charge);
    TenthsAreShort(Tenths(charge));
  }

  lemma TenthsAreUnits(charge: real)
    ensures (charge * Pow10(1) as real + 0.5).Floor == Tenths(charge)
  {
    PlacesOf1(0);
  }

  lemma TenthsAreShort(n: int)
    requires n <= 100
    ensures n < Pow10(14)
  {
    Pow10Monotone(3, 14);
  }

  /** The cloud sees the charge rounded to a tenth of a kWh, as a fraction of 10 kWh. */
  lemma {:induction false} SocOfReport(p: Battery.Pack)
    requires p.max == BATTERY_MAX && 0.0 <= p.charge <= p.max
    ensures SocOf(Battery.ReportOf(p)) == Some(Tenths(p.charge) as real / 100.0)
  {
    hide ReadNumber, Fraction, Scaled, Battery.Printed;
    ReportedTenths(p.charge);
    ReportedTenths(p.max);
    FractionOfTenths(Tenths(p.charge));
    assert Tenths(p.max) == 100;
  }

  lemma FractionOfTenths(n: int)
    ensures Fraction(Some(Scaled(n, 1)), Some(Scaled(100, 1))) == Some(n as real / 100.0)
  {
    PlacesOf1(n);
    PlacesOf1(100);
    var charged, max := Scaled(n, 1), Scaled(100, 1);
    assert charged / max == charged / 10.0;
  }

  /** What the dispatch thresholds mean for the true charge. */
  lemma ThresholdsOnTrueCharge(charge: real)
    ensures Tenths(charge) as real / 100.0 < DIESEL_DISPATCH_SOC <==> charge < 1.95
    ensures Tenths(charge) as real / 100.0 > DIESEL_RECOVER_SOC <==> charge >= 4.05
  {
  }

  // ---------- the module's state ----------

  /** `_latest_readings` and `_diesel_dispatched`. What the network answers is a parameter of each
      method: a report or none, and what became of each command. */
  class EnergyBalance {
    var latestReadings: seq<Entry<Reading>>
    var dieselDispatched: bool

    constructor ()
      ensures latestReadings == [] && !dieselDispatched
    {
      latestReadings, dieselDispatched := [], false;
    }

    method UpdateReading(payload: Payload, now: int)
      modifies `latestReadings
      ensures latestReadings == Ingest(old(latestReadings), payload, now)
    {
      if payload.nodeId == "" || payload.kind !in RENEWABLE_TYPES + {DIESEL_TYPE} {
        return;
      }
      if payload.v.Malformed? || payload.i.Malformed? {
        return;
      }
      var power := payload.Power();
      latestReadings := Store(latestReadings, payload.nodeId, Reading(payload.kind, power, now));
    }

    /** `on_message`, once its JSON is read. */
    method OnMessage(payload: Payload, now: int)
      modifies `latestReadings
      ensures latestReadings == Receive(old(latestReadings), payload, now)
    {
      if payload.sentMs.Malformed? {
        return;
      }
      UpdateReading(payload, now);
    }

    method UpdateDieselDispatch(soc: Option<real>, renewableSurplus: real,
                                nodes: Registry.Nodes, exchange: Exchange)
      modifies `dieselDispatched
      ensures var registered := Registry.FirstOfType(Registry.Values(nodes), DIESEL_TYPE).Some?;
              var shouldRun := ShouldRun(old(dieselDispatched), soc, registered, renewableSurplus);
              dieselDispatched == Dispatch(old(dieselDispatched), shouldRun, exchange)
    {
      var diesel := Registry.FirstOfType(Registry.Values(nodes), DIESEL_TYPE);
      if diesel == None {
        return;
      }
      if soc == None {
        return;
      }
      var shouldRun := dieselDispatched;
      if !dieselDispatched && soc.value < DIESEL_DISPATCH_SOC && renewableSurplus < 0.0 {
        shouldRun := true;
      } else if dieselDispatched && soc.value > DIESEL_RECOVER_SOC {
        shouldRun := false;
      }
      if shouldRun != dieselDispatched && exchange.Answered() {
        dieselDispatched := shouldRun;
      }
    }

    /** One cycle of the balance loop: the text PUT to the battery, if any. */
    method BalanceCycle(now: int, load: real, nodes: Registry.Nodes,
                        report: Option<Battery.Report>, dieselExchange: Exchange)
      returns (command: Option<string>)
      modifies `dieselDispatched
      ensures var battery := Registry.FirstOfType(Registry.Values(nodes), "battery");
              var diesel := Registry.FirstOfType(Registry.Values(nodes), DIESEL_TYPE);
              var renewable := PowerByTypes(latestReadings, nodes, RENEWABLE_TYPES, now);
              var total := PowerByTypes(latestReadings, nodes, RENEWABLE_TYPES + {DIESEL_TYPE}, now);
              var soc := if battery.Some? && report.Some? then SocOf(report.value) else None;
              var shouldRun := ShouldRun(old(dieselDispatched), soc, diesel.Some?, renewable - load);
              && dieselDispatched == Dispatch(old(dieselDispatched), shouldRun, dieselExchange)
              && command == if battery.Some? then Command(total - load) else None
    {
      hide PowerByTypes, SocOf, DeltaKwh, CommandText;
      var renewable := PowerByTypes(latestReadings, nodes, RENEWABLE_TYPES, now);
      var diesel := PowerByTypes(latestReadings, nodes, {DIESEL_TYPE}, now);
      PowerIsAdditive(latestReadings, nodes, RENEWABLE_TYPES, {DIESEL_TYPE}, now);
      var renewableSurplus := renewable - load;
      var totalSurplus := renewable + diesel - load;
      var battery := Registry.FirstOfType(Registry.Values(nodes), "battery");
      var soc := None;
      if battery.Some? && report.Some? {
        soc := SocOf(report.value);
      }
      UpdateDieselDispatch(soc, renewableSurplus, nodes, dieselExchange);
      command := None;
      if battery.Some? {
        var delta := DeltaKwh(totalSurplus);
        if delta != 0.0 {
          command := Some(CommandText(delta));
        }
      }
    }
  }

  /** Disjoint sets of types can be measured separately. */
  lemma {:induction false} PowerIsAdditive(readings: seq<Entry<Reading>>, nodes: Registry.Nodes,
                                           ts: set<string>, us: set<string>, now: int)
    requires ts !! us
    ensures PowerByTypes(readings, nodes, ts + us, now)
            == PowerByTypes(readings, nodes, ts, now) + PowerByTypes(readings, nodes, us, now)
  {
    if readings != [] {
      PowerIsAdditive(readings[1..], nodes, ts, us, now);
    }
  }
}
