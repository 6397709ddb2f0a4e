/** The closed loop against its own history: what the dispatch flag, the counted diesel power and the
    charge say about the run so far, and how the interleaved loop contains the atomic cycle. */
module StationHistory {
  import opened Common
  import opened EnergyState
  import opened Station
  import opened StationFaults
  import B = Battery
  import R = BatteryRuns
  import D = DeviceStatus
  import W = WarmUp
  import G = Registry
  import H = Hysteresis

  // ---------- the flag as a record of the past ----------

  /** What one decision finds, in terms of the true charge. */
  function Finding(s: State): H.Signal
    requires s.phase.AwaitSoc?
  {
    H.Signal(s.battery.charge < 1.95 && s.phase.renewable < 0.0, s.battery.charge >= 4.05)
  }

  /** A decision that can be taken: the battery was read and a diesel node is registered. */
  predicate Informed(s: State, e: Event) {
    s.phase.AwaitSoc? && e.SocReply? && e.answered && HasType(s.nodes, DIESEL_TYPE)
  }

  /** The findings of all such decisions in a run. */
  function Samples(start: int, es: seq<Event>): seq<H.Signal> {
    if es == [] then [] else
      var n := |es| - 1;
      var s := Run(start, es[..n]);
      if Informed(s, es[n]) then Samples(start, es[..n]) + [Finding(s)] else Samples(start, es[..n])
  }

  /** The flag, or the flag that the pending command is about to set. */
  function Intended(s: State): bool {
    if s.phase.AwaitDiesel? then s.phase.shouldRun else s.dispatched
  }

  lemma {:induction false} StepFollowsSwitch(f: Faults, s: State, e: Event)
    requires Good(s) && AlwaysAnswered(f) && Permits(f, s, e)
    ensures Intended(Step(s, e)) == if Informed(s, e) then H.Next(Intended(s), Finding(s)) else Intended(s)
  {
    hide SocOf, CommandText, DeltaKwh, PowerByTypes, W.Step, B.PutResult, HasType;
    if s.phase.AwaitSoc? && e.SocReply? {
      SocOfReport(s.battery);
      ThresholdsOnTrueCharge(s.battery.charge);
    }
  }

  lemma {:induction false} FlagIsSwitch(f: Faults, start: int, es: seq<Event>)
    requires AlwaysAnswered(f) && Within(f, start, es)
    ensures H.Separated(Samples(start, es))
    ensures Intended(Run(start, es)) == H.Run(false, Samples(start, es))
  {
    hide Step, Good, Permits, HasType;
    if es != [] {
      var n := |es| - 1;
      var s := Run(start, es[..n]);
      FlagIsSwitch(f, start, es[..n]);
      RunIsGood(start, es[..n]);
      StepFollowsSwitch(f, s, es[n]);
      if s.phase.AwaitSoc? {
        H.RunAppend(false, Samples(start, es[..n]), Finding(s));
      }
    }
  }

  /** As long as the diesel node replies to its commands, the diesel is dispatched, outside a pending
      command, exactly when some decision found less than 1.95 kWh and a renewable deficit, and every
      later one found less than 4.05 kWh. Cycles in which the battery could not be read or no diesel
      node was registered took no decision and do not matter. */
  lemma {:induction false} DispatchIsHistory(f: Faults, start: int, es: seq<Event>)
    requires AlwaysAnswered(f) && Within(f, start, es) && !Run(start, es).phase.AwaitDiesel?
    ensures Run(start, es).dispatched <==> exists i: nat :: H.RaisedAndHeld(Samples(start, es), i)
  {
    FlagIsSwitch(f, start, es);
    H.PositionIsHistory(false, Samples(start, es));
  }

  // ---------- diesel power is warm power ----------

  /** Message k is where this reading came from, and its sender had warmed up. */
  ghost predicate Backs(s: State, k: nat, r: Reading) {
    && k < |s.node.sent|
    && s.node.sent[k].at <= r.at
    && s.node.sent[k].message.Power() == r.power
    && W.SentWarm(s.node, D.DIESEL, s.node.sent[k])
  }

  ghost predicate Backed(s: State, r: Reading) {
    r.kind == DIESEL_TYPE && r.power != 0.0 ==> exists k: nat :: Backs(s, k, r)
  }

  ghost predicate ReadingsAreBacked(s: State) {
    forall e :: e in s.readings ==> Backed(s, e.value)
  }

  /** The diesel node as the warm-up theorems see it. */
  ghost predicate NodeIsSafe(s: State) { W.Safe(s.node, D.DIESEL) && W.PowerOnlyWhenWarm(s.node, D.DIESEL) }

  ghost predicate NodeEvolves(s: State, s': State) {
    s'.node == s.node || exists e :: s'.node == W.Step(s.node, D.DIESEL, e)
  }

  lemma StepEvolvesNode(s: State, e: Event)
    requires Good(s)
    ensures NodeEvolves(s, Step(s, e))
  {
    hide SocOf, CommandText, DeltaKwh, PowerByTypes, W.Step, B.PutResult;
  }

  lemma StepKeepsNodeSafe(s: State, e: Event)
    requires Good(s) && NodeIsSafe(s)
    ensures NodeIsSafe(Step(s, e))
  {
    hide Step;
    StepEvolvesNode(s, e);
    if Step(s, e).node != s.node {
      var x :| Step(s, e).node == W.Step(s.node, D.DIESEL, x);
      W.StepKeepsSafe(s.node, D.DIESEL, x);
      W.StepKeepsPowerWarm(s.node, D.DIESEL, x);
    }
  }

  lemma StepKeepsBacking(s: State, e: Event, k: nat, r: Reading)
    requires Good(s) && Backs(s, k, r)
    ensures Backs(Step(s, e), k, r)
  {
    hide Step;
    StepEvolvesNode(s, e);
    if Step(s, e).node != s.node {
      var x :| Step(s, e).node == W.Step(s.node, D.DIESEL, x);
      W.SentWarmStays(s.node, D.DIESEL, x, s.node.sent[k]);
    }
  }

  lemma OnlyTelemetryChangesReadings(s: State, e: Event)
    requires s.battery.max > 0.0 && !e.Deliver? && !e.Producer?
    ensures Step(s, e).readings == s.readings
  {
    hide SocOf, CommandText, DeltaKwh, PowerByTypes, W.Step, B.PutResult;
  }

  /** A reading that a step adds is that of a delivered message, or not a diesel's. */
  lemma NewReading(s: State, e: Event, r: Reading)
    requires Good(s) && NodeIsSafe(s)
    requires (forall x :: x in s.readings ==> x.value != r) && (exists x :: x in Step(s, e).readings && x.value == r)
    ensures Backed(Step(s, e), r)
  {
    hide OnWake, OnSocReply, OnDieselReply, OnBatteryReply, W.Step;
    var x :| x in Step(s, e).readings && x.value == r;
    if e.Deliver? {
      var p := DieselPayload(s.node.sent[e.message].message);
      Dict.StoreElements(s.readings, p.nodeId, ReadingOf(p, s.node.now).value, x);
      if r.power != 0.0 {
        assert Backs(Step(s, e), e.message, r);
      }
    } else if e.Producer? {
      Dict.StoreElements(s.readings, e.payload.nodeId, ReadingOf(e.payload, s.node.now).value, x);
    } else {
      OnlyTelemetryChangesReadings(s, e);
    }
  }

  lemma {:induction false} RunIsBacked(start: int, es: seq<Event>)
    ensures NodeIsSafe(Run(start, es)) && ReadingsAreBacked(Run(start, es))
  {
    hide Step, Good, NodeIsSafe, Backed, Backs;
    if es == [] {
      BootIsSafe(start);
    } else {
      var before := es[..|es| - 1];
      var e := es[|es| - 1];
      var s := Run(start, before);
      RunIsBacked(start, before);
      RunIsGood(start, before);
      StepKeepsNodeSafe(s, e);
      forall x | x in Run(start, es).readings ensures Backed(Run(start, es), x.value) {
        if y :| y in s.readings && y.value == x.value {
          OldReading(s, e, x.value);
        } else {
          NewReading(s, e, x.value);
        }
      }
    }
  }

  lemma BootIsSafe(start: int)
    ensures NodeIsSafe(Boot(start))
  {
  }

  lemma OldReading(s: State, e: Event, r: Reading)
    requires Good(s) && Backed(s, r)
    ensures Backed(Step(s, e), r)
  {
    hide Step, Backs;
    if r.kind == DIESEL_TYPE && r.power != 0.0 {
      var k: nat :| Backs(s, k, r);
      StepKeepsBacking(s, e, k, r);
    }
  }

  /** Diesel readings are filed under the one diesel node of the station. */
  predicate OneDiesel(readings: seq<Dict.Entry<Reading>>) {
    && Dict.UniqueKeys(readings)
    && forall e :: e in readings && e.value.kind == DIESEL_TYPE ==> e.key == DIESEL_ID
  }

  lemma ReceiveKeepsOneDiesel(readings: seq<Dict.Entry<Reading>>, p: Payload, now: int)
    requires OneDiesel(readings) && (p.kind == DIESEL_TYPE ==> p.nodeId == DIESEL_ID)
    ensures OneDiesel(Receive(readings, p, now))
  {
    if ReadingOf(p, now).Some? {
      var r := ReadingOf(p, now).value;
      Dict.StoreUnique(readings, p.nodeId, r);
      forall e | e in Dict.Store(readings, p.nodeId, r) && e.value.kind == DIESEL_TYPE ensures e.key == DIESEL_ID {
        Dict.StoreElements(readings, p.nodeId, r, e);
      }
    }
  }

  lemma StepKeepsOneDiesel(s: State, e: Event)
    requires Good(s) && OneDiesel(s.readings)
    ensures OneDiesel(Step(s, e).readings)
  {
    hide OnWake, OnSocReply, OnDieselReply, OnBatteryReply, W.Step, OneDiesel, Receive;
    match e
    case Deliver(k) =>
      if k < |s.node.sent| {
        ReceiveKeepsOneDiesel(s.readings, DieselPayload(s.node.sent[k].message), s.node.now);
      }
    case Producer(p) =>
      if p.kind != DIESEL_TYPE && p.nodeId != DIESEL_ID {
        ReceiveKeepsOneDiesel(s.readings, p, s.node.now);
      }
    case Wake(_) => OnlyTelemetryChangesReadings(s, e);
    case SocReply(_) => OnlyTelemetryChangesReadings(s, e);
    case DieselReply(_) => OnlyTelemetryChangesReadings(s, e);
    case BatteryReply(_) => OnlyTelemetryChangesReadings(s, e);
    case Device(_) => OnlyTelemetryChangesReadings(s, e);
    case Register(_) => OnlyTelemetryChangesReadings(s, e);
    case Unregister(_) => OnlyTelemetryChangesReadings(s, e);
  }

  lemma NothingIsOneDiesel()
    ensures OneDiesel([])
  {
  }

  lemma {:induction false} RunHasOneDiesel(start: int, es: seq<Event>)
    ensures OneDiesel(Run(start, es).readings)
  {
    hide Step, Good, OneDiesel;
    if es == [] {
      NothingIsOneDiesel();
    } else {
      var before := es[..|es| - 1];
      RunHasOneDiesel(start, before);
      RunIsGood(start, before);
      StepKeepsOneDiesel(Run(start, before), es[|es| - 1]);
    }
  }

  lemma {:induction false} NoDieselNoPower(readings: seq<Dict.Entry<Reading>>, nodes: G.Nodes, now: int)
    requires forall e :: e in readings ==> e.value.kind != DIESEL_TYPE
    ensures PowerByTypes(readings, nodes, {DIESEL_TYPE}, now) == 0.0
  {
    if readings != [] {
      NoDieselNoPower(readings[1..], nodes, now);
    }
  }

  /** The reading that makes up the whole diesel power counted at `now`. */
  predicate IsDieselPower(nodes: G.Nodes, now: int, power: real, r: Reading) {
    && r.kind == DIESEL_TYPE && r.power == power
    && now - r.at <= 30000
    && Dict.Find(nodes, DIESEL_ID).Some?
  }

  lemma {:induction false} DieselPowerIsOneReading(readings: seq<Dict.Entry<Reading>>, nodes: G.Nodes, now: int)
    requires OneDiesel(readings)
    ensures var power := PowerByTypes(readings, nodes, {DIESEL_TYPE}, now);
            power != 0.0 ==> exists r :: Dict.Entry(DIESEL_ID, r) in readings && IsDieselPower(nodes, now, power, r)
  {
    if readings != [] {
      var e := readings[0];
      var rest := readings[1..];
      assert forall i :: 0 <= i < |rest| ==> rest[i] == readings[i + 1];
      if e.value.kind == DIESEL_TYPE {
        assert e == Dict.Entry(DIESEL_ID, e.value);
        NoDieselNoPower(rest, nodes, now);
      } else {
        DieselPowerIsOneReading(rest, nodes, now);
        var power := PowerByTypes(rest, nodes, {DIESEL_TYPE}, now);
        if power != 0.0 {
          var r :| Dict.Entry(DIESEL_ID, r) in rest && IsDieselPower(nodes, now, power, r);
          assert Dict.Entry(DIESEL_ID, r) in readings;
        }
      }
    }
  }

  /** In every reachable state the diesel power counted by the balance is zero, or it is the power of
      one message of the registered diesel node, received in the last 30 s, and the node had 40 s of
      uncancelled "on" behind it when that message left. */
  lemma DieselPowerIsWarmPower(start: int, es: seq<Event>)
    ensures var s := Run(start, es);
            var power := PowerByTypes(s.readings, s.nodes, {DIESEL_TYPE}, s.node.now);
            power != 0.0 ==> exists r, k: nat :: IsDieselPower(s.nodes, s.node.now, power, r) && Backs(s, k, r)
  {
    hide Step, Good, Backs, NodeIsSafe, PowerByTypes, OneDiesel;
    var s := Run(start, es);
    RunIsBacked(start, es);
    RunHasOneDiesel(start, es);
    DieselPowerIsOneReading(s.readings, s.nodes, s.node.now);
    var power := PowerByTypes(s.readings, s.nodes, {DIESEL_TYPE}, s.node.now);
    if power != 0.0 {
      var r :| Dict.Entry(DIESEL_ID, r) in s.readings && IsDieselPower(s.nodes, s.node.now, power, r);
      assert Backed(s, r);
      var k: nat :| Backs(s, k, r);
    }
  }

  /** A single fresh diesel reading of the registered node is all the diesel power counted. */
  lemma {:induction false} OneReadingIsDieselPower(readings: seq<Dict.Entry<Reading>>, nodes: G.Nodes, now: int,
                                                   r: Reading)
    requires OneDiesel(readings) && Dict.Entry(DIESEL_ID, r) in readings
    requires r.kind == "diesel" && now - r.at <= 30000 && Dict.Find(nodes, DIESEL_ID).Some?
    ensures PowerByTypes(readings, nodes, {DIESEL_TYPE}, now) == r.power
  {
    var e := readings[0];
    var rest := readings[1..];
    assert forall i :: 0 <= i < |rest| ==> rest[i] == readings[i + 1];
    if e.key == DIESEL_ID {
      assert e == Dict.Entry(DIESEL_ID, r);
      NoDieselNoPower(rest, nodes, now);
    } else {
      assert Dict.Entry(DIESEL_ID, r) in rest;
      OneReadingIsDieselPower(rest, nodes, now, r);
    }
  }

  lemma {:induction false} StoredEntry(d: seq<Dict.Entry<Reading>>, key: string, r: Reading)
    ensures Dict.Entry(key, r) in Dict.Store(d, key, r)
  {
    if d != [] && d[0].key != key {
      StoredEntry(d[1..], key, r);
    }
  }

  /** A message of the registered diesel node that arrives is what the balance counts from then on, until
      30 seconds have passed or the next one arrives. */
  lemma DeliveredPowerCounts(start: int, es: seq<Event>, k: nat, later: nat)
    requires var s := Run(start, es); k < |s.node.sent| && Dict.Find(s.nodes, DIESEL_ID).Some?
    requires later <= 30000
    ensures var s := Run(start, es);
            var s' := Step(s, Deliver(k));
            PowerByTypes(s'.readings, s'.nodes, {DIESEL_TYPE}, s.node.now + later) == s.node.sent[k].message.Power()
  {
    hide PowerByTypes, OneDiesel, Run;
    var s := Run(start, es);
    var p := DieselPayload(s.node.sent[k].message);
    var r := Reading(DIESEL_TYPE, p.Power(), s.node.now);
    RunHasOneDiesel(start, es);
    ReceiveKeepsOneDiesel(s.readings, p, s.node.now);
    DieselIsNamed();
    assert ReadingOf(p, s.node.now) == Some(r);
    StoredEntry(s.readings, DIESEL_ID, r);
    OneReadingIsDieselPower(Receive(s.readings, p, s.node.now), s.nodes, s.node.now + later, r);
  }

  lemma DieselIsNamed()
    ensures DIESEL_ID != ""
  {
    assert |DIESEL_ID| == 16;
  }

  // ---------- the flag and the device ----------

  /** The diesel runs, or warms up, exactly when the cloud believes that it dispatched it. */
  predicate FlagAgrees(s: State) { s.dispatched <==> s.node.device.on || s.node.device.starting }

  /** What the agreement depends on: nobody else commands the diesel node, and every command to it
      takes effect and is answered, or neither. */
  predicate Faithful(f: Faults) { !f.outsiders && Rejected !in f.diesel && ReplyLost !in f.diesel }

  lemma {:induction false} StepKeepsFlagAgreement(f: Faults, s: State, e: Event)
    requires Good(s) && NodeIsSafe(s) && Faithful(f) && Permits(f, s, e) && FlagAgrees(s)
    ensures FlagAgrees(Step(s, e))
  {
    hide SocOf, CommandText, DeltaKwh, PowerByTypes, B.PutResult, HasType, Receive;
    if e.Device? && e.event.Publish? {
      W.DieselReadingsAreNormal(s.node.device, e.event.draw);
    }
  }

  lemma {:induction false} FlagAgreesInRun(f: Faults, start: int, es: seq<Event>)
    requires Faithful(f) && Within(f, start, es)
    ensures FlagAgrees(Run(start, es))
  {
    hide Step, Good, NodeIsSafe, Permits;
    if es != [] {
      var before := es[..|es| - 1];
      FlagAgreesInRun(f, start, before);
      RunIsGood(start, before);
      RunIsBacked(start, before);
      StepKeepsFlagAgreement(f, Run(start, before), es[|es| - 1]);
    }
  }

  // ---------- rounding drift ----------

  /** The exact deltas of the commands that the battery applied and did not refuse, in order. */
  function AppliedDeltas(start: int, es: seq<Event>): seq<real> {
    if es == [] then [] else
      var n := |es| - 1;
      var s := Run(start, es[..n]);
      var before := AppliedDeltas(start, es[..n]);
      if Applies(s, es[n]) then before + [DeltaKwh(s.phase.total)] else before
  }

  predicate Applies(s: State, e: Event) {
    && s.phase.AwaitBattery? && e.BatteryReply? && e.exchange.TakesEffect()
    && DeltaKwh(s.phase.total) != 0.0
    && !B.Refuses(s.battery, Sent(DeltaKwh(s.phase.total)))
  }

  function Rounded(ds: seq<real>): (rs: seq<real>)
    ensures |rs| == |ds|
    ensures forall i :: 0 <= i < |ds| ==> rs[i] == Sent(ds[i])
  {
    seq(|ds|, i requires 0 <= i < |ds| => Sent(ds[i]))
  }

  lemma {:induction false} StepApplies(s: State, e: Event)
    requires Good(s)
    ensures Step(s, e).battery.charge ==
      if Applies(s, e) then R.AddClamp(BATTERY_MAX, s.battery.charge, Sent(DeltaKwh(s.phase.total)))
      else s.battery.charge
  {
    hide SocOf, CommandText, DeltaKwh, PowerByTypes, W.Step, B.PutResult, Sent;
    if s.phase.AwaitBattery? && DeltaKwh(s.phase.total) != 0.0 {
      FirmwareGetsSentDelta(s.battery, s.phase.total);
    }
  }

  lemma {:induction false} ChargeIsRoundedDeltas(start: int, es: seq<Event>)
    ensures Run(start, es).battery.charge == R.AddAll(BATTERY_MAX, 5.0, Rounded(AppliedDeltas(start, es)))
  {
    hide Step, Good, DeltaKwh, Sent;
    if es != [] {
      var n := |es| - 1;
      var s := Run(start, es[..n]);
      var ds := AppliedDeltas(start, es[..n]);
      ChargeIsRoundedDeltas(start, es[..n]);
      RunIsGood(start, es[..n]);
      StepApplies(s, es[n]);
      if Applies(s, es[n]) {
        assert Rounded(ds + [DeltaKwh(s.phase.total)])[..|ds|] == Rounded(ds);
      }
    }
  }

  /** After n applied commands the battery is within n * 0.000005 kWh of the charge that the exact,
      unrounded deltas would have given, clamping included. */
  lemma {:induction false} RoundingDriftBound(start: int, es: seq<Event>)
    ensures var ds := AppliedDeltas(start, es);
            var drift := Run(start, es).battery.charge - R.AddAll(BATTERY_MAX, 5.0, ds);
            -0.000005 * |ds| as real <= drift <= 0.000005 * |ds| as real
  {
    hide Run, AppliedDeltas, R.AddAll, Sent, DeltaKwh;
    var ds := AppliedDeltas(start, es);
    ChargeIsRoundedDeltas(start, es);
    forall i | 0 <= i < |ds| ensures -0.000005 <= Rounded(ds)[i] - ds[i] <= 0.000005 {
      SentIsClose(ds[i]);
    }
    R.DriftBound(BATTERY_MAX, 5.0, Rounded(ds), ds, 0.000005);
  }

  // ---------- the atomic cycle ----------

  /** The battery after a cycle's command, if it had one and it took effect. */
  function Commanded(p: B.Pack, command: Option<string>, y: Exchange): B.Pack
    requires p.max > 0.0
  {
    if command.Some? && y.TakesEffect() then B.PutResult(p, command.value) else p
  }

  lemma FinishCycle(s: State, total: real, y: Exchange)
    requires s.battery.max > 0.0
    ensures var s' := Step(Proceed(s, total), BatteryReply(y));
            && s'.phase.Sleeping? && s'.cycles == s.cycles + 1 && s'.dispatched == s.dispatched
            && s'.battery == Commanded(s.battery, Command(total), y)
  {
    hide Command, B.PutResult;
  }

  lemma {:induction false} CycleFromSoc(s: State, answered: bool, x: Exchange, y: Exchange)
    requires s.battery.max > 0.0 && s.phase.AwaitSoc?
    ensures var s' := Step(Step(Step(s, SocReply(answered)), DieselReply(x)), BatteryReply(y));
            && s'.phase.Sleeping? && s'.cycles == s.cycles + 1
            && s'.dispatched == Dispatch(s.dispatched, Decision(s, answered), x)
            && s'.battery == Commanded(s.battery, Command(s.phase.total), y)
  {
    hide Command, Commanded, Decision, W.Step, B.PutResult;
    var total := s.phase.total;
    var b := Step(s, SocReply(answered));
    var c := Step(b, DieselReply(x));
    if b.phase.AwaitDiesel? {
      FinishCycle(b.(node := c.node, dispatched := c.dispatched), total, y);
    } else {
      assert c == b;
      FinishCycle(s, total, y);
    }
  }

  /** When nothing else happens between the awaits, the three replies make up one cycle of the
      balance loop as `EnergyBalance.BalanceCycle` specifies it. */
  lemma {:induction false} UninterruptedCycle(s: State, load: real, answered: bool, x: Exchange, y: Exchange)
    requires Good(s) && s.phase.Sleeping? && s.node.now >= s.wakeAt
    ensures var s' := Step(Step(Step(Step(s, Wake(load)), SocReply(answered)), DieselReply(x)), BatteryReply(y));
            var renewable := PowerByTypes(s.readings, s.nodes, RENEWABLE_TYPES, s.node.now);
            var total := PowerByTypes(s.readings, s.nodes, RENEWABLE_TYPES + {DIESEL_TYPE}, s.node.now);
            var battery := HasType(s.nodes, "battery");
            var soc := if battery && answered then SocOf(B.ReportOf(s.battery)) else None;
            var command := if battery then Command(total - load) else None;
            && s'.phase.Sleeping? && s'.cycles == s.cycles + 1
            && s'.dispatched == Dispatch(s.dispatched,
                 ShouldRun(s.dispatched, soc, HasType(s.nodes, DIESEL_TYPE), renewable - load), x)
            && s'.battery == Commanded(s.battery, command, y)
  {
    hide SocOf, Command, Commanded, PowerByTypes, W.Step, B.PutResult, HasType, ShouldRun, Dispatch;
    var a := Step(s, Wake(load));
    if HasType(s.nodes, "battery") {
      hide Step;
      CycleFromSoc(a, answered, x, y);
    } else {
      NoCommand(s.battery, y);
      NoReadingNoChange(s.dispatched, HasType(s.nodes, DIESEL_TYPE),
                        PowerByTypes(s.readings, s.nodes, RENEWABLE_TYPES, s.node.now) - load, x);
    }
  }

  /** One uninterrupted cycle whose battery command takes effect, in terms of watts: the energy of five
      seconds of the surplus is added to the charge, cut to the range of the battery, unless it is a charge
      and the battery is locked. */
  lemma {:induction false} CycleMovesChargeBySurplus(s: State, load: real, answered: bool, x: Exchange, y: Exchange)
    requires Good(s) && s.phase.Sleeping? && s.node.now >= s.wakeAt
    requires HasType(s.nodes, "battery") && y.TakesEffect()
    ensures var s' := Step(Step(Step(Step(s, Wake(load)), SocReply(answered)), DieselReply(x)), BatteryReply(y));
            var surplus := PowerByTypes(s.readings, s.nodes, RENEWABLE_TYPES + {DIESEL_TYPE}, s.node.now) - load;
            exists v :: MovesCharge(s.battery, surplus, v, s'.battery)
  {
    hide PowerByTypes, HasType, Command, B.PutResult, Step, Good, B.Adjust, Sent, DeltaKwh, IsEnergyOf;
    var surplus := PowerByTypes(s.readings, s.nodes, RENEWABLE_TYPES + {DIESEL_TYPE}, s.node.now) - load;
    assert Good(s);
    UninterruptedCycle(s, load, answered, x, y);
    GoodBattery(s);
    CommandMovesCharge(s.battery, surplus, y);
    var s' := Step(Step(Step(Step(s, Wake(load)), SocReply(answered)), DieselReply(x)), BatteryReply(y));
    assert MovesCharge(s.battery, surplus, if surplus == 0.0 then 0.0 else Sent(DeltaKwh(surplus)), s'.battery);
  }

  lemma GoodBattery(s: State)
    requires Good(s)
    ensures R.Consistent(s.battery) && s.battery.max == BATTERY_MAX && !s.battery.overriding
  {
  }

  predicate MovesCharge(p: B.Pack, surplus: real, v: real, q: B.Pack) {
    && (if surplus == 0.0 then v == 0.0 else IsEnergyOf(surplus, v))
    && (v > 0.0 && p.locked ==> q == p)
    && (!(v > 0.0 && p.locked) ==>
          q.charge == if p.charge + v < 0.0 then 0.0 else if p.charge + v > 10.0 then 10.0 else p.charge + v)
  }

  lemma CommandMovesCharge(p: B.Pack, surplus: real, y: Exchange)
    requires R.Consistent(p) && p.max == BATTERY_MAX && !p.overriding && y.TakesEffect()
    ensures MovesCharge(p, surplus, if surplus == 0.0 then 0.0 else Sent(DeltaKwh(surplus)),
                        Commanded(p, Command(surplus), y))
  {
    hide CommandText, DeltaKwh, Sent, B.PutResult, B.Adjust, IsEnergyOf;
    CommandIsEnergy(surplus);
    SentIsEnergy(surplus);
    if surplus == 0.0 {
    } else {
      FirmwareGetsSentDelta(p, surplus);
      R.AdjustEffect(p, Sent(DeltaKwh(surplus)));
    }
  }

  lemma NoReadingNoChange(dispatched: bool, registered: bool, surplus: real, x: Exchange)
    ensures Dispatch(dispatched, ShouldRun(dispatched, None, registered, surplus), x) == dispatched
  {
  }

  lemma NoCommand(p: B.Pack, y: Exchange)
    requires p.max > 0.0
    ensures Commanded(p, None, y) == p
  {
  }
}
