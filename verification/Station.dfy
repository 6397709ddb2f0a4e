/** The closed energy loop as one step system: the battery, the diesel node and the balance loop of
    the cloud, interleaved at every await, with arbitrary loads and lossy requests. The balance
    loop is the only writer of the battery, and a request is never applied twice. */
module Station {
  import opened Common
  import opened EnergyState
  import B = Battery
  import R = BatteryRuns
  import D = DeviceStatus
  import W = WarmUp
  import G = Registry
  import Dict

  const CYCLE_MS := 5000
  const CHARGE_STEP := 0.00278
  const DISCHARGE_STEP := 0.00417

  /** Where the balance loop is: asleep, or awaiting one of its three requests. */
  datatype Phase =
    | Sleeping
    | AwaitSoc(renewable: real, total: real)
    | AwaitDiesel(shouldRun: bool, renewable: real, total: real)
    | AwaitBattery(total: real)

  datatype State = State(
    battery: B.Pack,
    node: W.World,
    nodes: G.Nodes,
    readings: seq<Dict.Entry<Reading>>,
    dispatched: bool,
    phase: Phase,
    cycles: nat,
    wakeAt: int)

  datatype Event =
    | Wake(load: real)
    | SocReply(answered: bool)
    | DieselReply(exchange: Exchange)
    | BatteryReply(exchange: Exchange)
    | Device(event: W.Event)
    | Deliver(message: nat)
    | Producer(payload: Payload)
    | Register(info: G.Node)
    | Unregister(id: string)

  const DIESEL_ID := "prod_diesel_0001"

  predicate HasType(nodes: G.Nodes, kind: string) {
    G.FirstOfType(G.Values(nodes), kind).Some?
  }

  function Boot(start: int): State {
    State(R.Boot(BATTERY_MAX), W.World(D.BOOTED_OFF, start, [], []), [], [], false, Sleeping, 0, start)
  }

  function EndCycle(s: State): State {
    s.(phase := Sleeping, cycles := s.cycles + 1, wakeAt := s.node.now + CYCLE_MS)
  }

  /** Go on to the battery command, if this cycle has one. */
  function Proceed(s: State, total: real): State {
    if Command(total) == None then EndCycle(s) else s.(phase := AwaitBattery(total))
  }

  function Decision(s: State, answered: bool): bool
    requires s.phase.AwaitSoc?
  {
    ShouldRun(s.dispatched, if answered then SocOf(B.ReportOf(s.battery)) else None,
              HasType(s.nodes, DIESEL_TYPE), s.phase.renewable)
  }

  function OnWake(s: State, load: real): State
    requires s.phase.Sleeping?
  {
    var now := s.node.now;
    if !HasType(s.nodes, "battery") then EndCycle(s) else
      s.(phase := AwaitSoc(PowerByTypes(s.readings, s.nodes, RENEWABLE_TYPES, now) - load,
                           PowerByTypes(s.readings, s.nodes, RENEWABLE_TYPES + {DIESEL_TYPE}, now) - load))
  }

  function OnSocReply(s: State, answered: bool): State
    requires s.phase.AwaitSoc?
  {
    var shouldRun := Decision(s, answered);
    if shouldRun == s.dispatched then Proceed(s, s.phase.total)
    else s.(phase := AwaitDiesel(shouldRun, s.phase.renewable, s.phase.total))
  }

  function OnDieselReply(s: State, exchange: Exchange): State
    requires s.phase.AwaitDiesel?
  {
    var node := if exchange.TakesEffect()
                then W.Step(s.node, D.DIESEL, W.Put(if s.phase.shouldRun then "on" else "off"))
                else s.node;
    Proceed(s.(node := node, dispatched := Dispatch(s.dispatched, s.phase.shouldRun, exchange)), s.phase.total)
  }

  function OnBatteryReply(s: State, exchange: Exchange): State
    requires s.phase.AwaitBattery? && s.battery.max > 0.0
  {
    var battery := if exchange.TakesEffect() && Command(s.phase.total).Some?
                   then B.PutResult(s.battery, Command(s.phase.total).value)
                   else s.battery;
    EndCycle(s.(battery := battery))
  }

  /** The payload the cloud gets from one message of the diesel node; any `sent_ms` that converts will do. */
  function DieselPayload(m: D.Telemetry): Payload {
    Payload(DIESEL_ID, DIESEL_TYPE, Number(m.v), Number(m.i), Number(0.0))
  }

  /** An event that is not possible in the present state changes nothing. */
  function Step(s: State, e: Event): (s': State)
    requires s.battery.max > 0.0
    ensures s'.battery.max == s.battery.max
  {
    match e
    case Wake(load) => if s.phase.Sleeping? && s.node.now >= s.wakeAt then OnWake(s, load) else s
    case SocReply(answered) => if s.phase.AwaitSoc? then OnSocReply(s, answered) else s
    case DieselReply(x) => if s.phase.AwaitDiesel? then OnDieselReply(s, x) else s
    case BatteryReply(x) => if s.phase.AwaitBattery? then OnBatteryReply(s, x) else s
    case Device(event) => s.(node := W.Step(s.node, D.DIESEL, event))
    case Deliver(k) =>
      if k < |s.node.sent|
      then s.(readings := Receive(s.readings, DieselPayload(s.node.sent[k].message), s.node.now))
      else s
    case Producer(p) => if p.kind != DIESEL_TYPE && p.nodeId != DIESEL_ID
                        then s.(readings := Receive(s.readings, p, s.node.now)) else s
    case Register(info) => s.(nodes := Dict.Store(s.nodes, G.KeyOf(info), info))
    case Unregister(id) => s.(nodes := Dict.Drop(s.nodes, id))
  }

  // ---------- what one step may do ----------

  /** A cycle in progress has slept, and a pending diesel command is a change. */
  predicate InStep(s: State) {
    && (!s.phase.Sleeping? ==> s.node.now >= s.wakeAt)
    && (s.phase.AwaitDiesel? ==> s.phase.shouldRun != s.dispatched)
  }

  /** The battery keeps its lock rule, stays below the lock threshold plus one step, and a cycle in
      progress has slept for its five seconds. */
  predicate Good(s: State) {
    && s.battery.max == BATTERY_MAX
    && R.Consistent(s.battery) && !s.battery.overriding
    && s.battery.charge < 0.95 * BATTERY_MAX + CHARGE_STEP
    && InStep(s)
  }

  lemma {:induction false} BatteryReplyMovesLittle(s: State, x: Exchange)
    requires Good(s) && s.phase.AwaitBattery?
    ensures var s' := OnBatteryReply(s, x);
            && Good(s')
            && -DISCHARGE_STEP <= s'.battery.charge - s.battery.charge <= CHARGE_STEP
  {
    hide CommandText, DeltaKwh;
    var total := s.phase.total;
    if x.TakesEffect() && Command(total).Some? {
      FirmwareGetsSentDelta(s.battery, total);
      CommandBounds(total);
      var delta := Sent(DeltaKwh(total));
      R.ObeyKeepsConsistent(s.battery, R.Charge(delta));
      AdjustMovesLittle(s.battery, delta);
    }
  }

  lemma AdjustMovesLittle(p: B.Pack, delta: real)
    requires R.Consistent(p) && p.max == BATTERY_MAX && !p.overriding
    requires p.charge < 0.95 * BATTERY_MAX + CHARGE_STEP && -DISCHARGE_STEP <= delta <= CHARGE_STEP
    ensures var q := B.Adjust(p, delta);
            && q.max == p.max && !q.overriding
            && -DISCHARGE_STEP <= q.charge - p.charge <= CHARGE_STEP
            && q.charge < 0.95 * BATTERY_MAX + CHARGE_STEP
  {
  }

  /** The charge moves by at most one step per completed cycle. */
  predicate Rated(a: State, b: State) {
    var n := (b.cycles - a.cycles) as real;
    && b.cycles >= a.cycles
    && a.battery.charge - DISCHARGE_STEP * n <= b.battery.charge
    && b.battery.charge <= a.battery.charge + CHARGE_STEP * n
  }

  lemma RatedTransitive(a: State, b: State, c: State)
    requires Rated(a, b) && Rated(b, c)
    ensures Rated(a, c)
  {
  }

  lemma OnlyBatteryReplyMovesBattery(s: State, e: Event)
    requires s.battery.max > 0.0 && !(e.BatteryReply? && s.phase.AwaitBattery?)
    ensures Step(s, e).battery == s.battery && Step(s, e).cycles >= s.cycles
  {
    hide SocOf, CommandText, DeltaKwh, PowerByTypes, W.Step, B.PutResult;
  }

  lemma StepKeepsInStep(s: State, e: Event)
    requires s.battery.max > 0.0 && InStep(s) && !(e.BatteryReply? && s.phase.AwaitBattery?)
    ensures InStep(Step(s, e))
  {
    hide SocOf, CommandText, DeltaKwh, PowerByTypes, B.PutResult, Decision, HasType, Receive;
  }

  lemma StillGood(s: State, t: State)
    requires Good(s) && t.battery == s.battery && t.cycles >= s.cycles && InStep(t)
    ensures Good(t) && Rated(s, t)
  {
  }

  /** Only a battery reply moves the charge, and it ends a cycle. */
  lemma {:induction false} StepKeepsGood(s: State, e: Event)
    requires Good(s)
    ensures Good(Step(s, e))
    ensures Rated(s, Step(s, e))
  {
    hide OnWake, OnSocReply, OnDieselReply, OnBatteryReply, W.Step;
    if e.BatteryReply? && s.phase.AwaitBattery? {
      BatteryReplyMovesLittle(s, e.exchange);
      BatteryReplyEndsCycle(s, e.exchange);
    } else {
      OnlyBatteryReplyMovesBattery(s, e);
      StepKeepsInStep(s, e);
      hide Step;
      StillGood(s, Step(s, e));
    }
  }

  lemma BatteryReplyEndsCycle(s: State, x: Exchange)
    requires s.phase.AwaitBattery? && s.battery.max > 0.0
    ensures OnBatteryReply(s, x).cycles == s.cycles + 1
  {
    hide B.PutResult, Command;
  }

  // ---------- runs ----------

  function Run(start: int, es: seq<Event>): (s: State)
    ensures s.battery.max == BATTERY_MAX
  {
    if es == [] then Boot(start) else Step(Run(start, es[..|es| - 1]), es[|es| - 1])
  }

  lemma {:induction false} RunIsGood(start: int, es: seq<Event>)
    ensures Good(Run(start, es))
  {
    if es != [] {
      RunIsGood(start, es[..|es| - 1]);
      StepKeepsGood(Run(start, es[..|es| - 1]), es[|es| - 1]);
    }
  }

  /** In every reachable state the charge is in range, the lock obeys both thresholds, and the
      charge never reaches 95 % plus one step of 0.00278 kWh. */
  lemma {:induction false} OverchargeBound(start: int, es: seq<Event>)
    ensures var p := Run(start, es).battery;
            && 0.0 <= p.charge <= BATTERY_MAX && p.charge < 9.5 + 0.00278
            && (B.Soc(p) >= B.SOC_LOCK_THRESHOLD ==> p.locked)
            && (B.Soc(p) <= B.SOC_UNLOCK_THRESHOLD ==> !p.locked)
  {
    RunIsGood(start, es);
    B.SocThresholds(Run(start, es).battery);
  }

  /** The state before the i-th event. */
  function At(start: int, es: seq<Event>, i: nat): State
    requires i <= |es|
  {
    Run(start, es[..i])
  }

  lemma Next(start: int, es: seq<Event>, i: nat)
    requires i < |es|
    ensures At(start, es, i + 1) == Step(At(start, es, i), es[i])
  {
    assert es[..i + 1][..i] == es[..i];
  }

  /** The loop sleeps for five seconds: whatever time has passed since a cycle ended, the next one begins if
      and only if that is at least 5000 ms. */
  lemma NextCycleAfterFiveSeconds(s: State, x: Exchange, ms: nat, load: real)
    requires Good(s) && s.phase.AwaitBattery?
    ensures var u := Step(Step(s, BatteryReply(x)), Device(W.Advance(ms)));
            Step(u, Wake(load)) != u <==> ms >= 5000
  {
    hide PowerByTypes, B.PutResult, Command;
  }

  // ---------- how long the diesel runs and rests ----------

  predicate TurnsOn(start: int, es: seq<Event>, i: nat)
    requires i < |es|
  {
    !At(start, es, i).dispatched && At(start, es, i + 1).dispatched
  }

  predicate TurnsOff(start: int, es: seq<Event>, i: nat)
    requires i < |es|
  {
    At(start, es, i).dispatched && !At(start, es, i + 1).dispatched
  }

  /** While the decision is awaiting its reply, the charge it was based on is still the charge. */
  predicate DecisionStands(s: State) {
    s.phase.AwaitDiesel? ==> if s.phase.shouldRun then s.battery.charge < 1.95 && s.phase.renewable < 0.0
                             else s.battery.charge >= 4.05
  }

  lemma {:induction false} StepKeepsDecision(s: State, e: Event)
    requires Good(s) && DecisionStands(s)
    ensures DecisionStands(Step(s, e))
    ensures Step(s, e).dispatched != s.dispatched ==>
              && s.phase.AwaitDiesel? && e.DieselReply? && e.exchange.Answered()
              && Step(s, e).dispatched == s.phase.shouldRun
  {
    hide SocOf, CommandText, DeltaKwh, PowerByTypes, W.Step;
    if e.SocReply? && s.phase.AwaitSoc? {
      SocOfReport(s.battery);
      ThresholdsOnTrueCharge(s.battery.charge);
    }
  }

  lemma {:induction false} RunKeepsDecision(start: int, es: seq<Event>)
    ensures DecisionStands(Run(start, es))
  {
    if es != [] {
      RunKeepsDecision(start, es[..|es| - 1]);
      RunIsGood(start, es[..|es| - 1]);
      StepKeepsDecision(Run(start, es[..|es| - 1]), es[|es| - 1]);
    }
  }

  /** Every flip of the flag follows a reply to its command, be it an error reply, and needs its own
      threshold in the same cycle: whatever fails, on only below 1.95 kWh with a renewable deficit, off
      only at 4.05 kWh or above. */
  lemma FlipNeedsThreshold(start: int, es: seq<Event>, i: nat)
    requires i < |es|
    ensures TurnsOn(start, es, i) || TurnsOff(start, es, i) ==>
              At(start, es, i).phase.AwaitDiesel? && es[i].DieselReply? && es[i].exchange.Answered()
    ensures TurnsOn(start, es, i) ==>
              var s := At(start, es, i); s.battery.charge < 1.95 && s.phase.AwaitDiesel? && s.phase.renewable < 0.0
    ensures TurnsOff(start, es, i) ==> At(start, es, i).battery.charge >= 4.05
  {
    RunIsGood(start, es[..i]);
    RunKeepsDecision(start, es[..i]);
    Next(start, es, i);
    StepKeepsDecision(At(start, es, i), es[i]);
  }

  /** Cycles completed from the i-th to the j-th event. */
  function CyclesBetween(start: int, es: seq<Event>, i: nat, j: nat): int
    requires i <= j <= |es|
  {
    At(start, es, j).cycles - At(start, es, i).cycles
  }

  lemma {:induction false} ChargeMovesPerCycle(start: int, es: seq<Event>, i: nat, j: nat)
    requires i <= j <= |es|
    ensures Rated(At(start, es, i), At(start, es, j))
    decreases j
  {
    hide Rated, Good, Step;
    if i < j {
      ChargeMovesPerCycle(start, es, i, j - 1);
      RunIsGood(start, es[..j - 1]);
      Next(start, es, j - 1);
      StepKeepsGood(At(start, es, j - 1), es[j - 1]);
      RatedTransitive(At(start, es, i), At(start, es, j - 1), At(start, es, j));
    } else {
      RatedReflexive(At(start, es, i));
    }
  }

  lemma RatedReflexive(s: State)
    ensures Rated(s, s)
  {
  }

  /** n completed cycles mean n sleeps of five seconds, the last of which may still be running. */
  predicate Slept(from: int, n: int, s: State) {
    n >= 0 && (n >= 1 ==> s.wakeAt >= from + CYCLE_MS * n) && s.node.now >= from
  }

  lemma {:induction false} StepKeepsSlept(from: int, n: int, s: State, e: Event)
    requires Good(s) && Slept(from, n, s)
    requires n == 0 ==> s.wakeAt <= from || !s.phase.Sleeping?
    ensures Slept(from, n + Step(s, e).cycles - s.cycles, Step(s, e))
  {
    hide SocOf, CommandText, DeltaKwh, PowerByTypes, B.PutResult;
  }

  lemma {:induction false} TimePerCycle(start: int, es: seq<Event>, i: nat, j: nat)
    requires i <= j <= |es| && !At(start, es, i).phase.Sleeping?
    ensures Slept(At(start, es, i).node.now, CyclesBetween(start, es, i, j), At(start, es, j))
    ensures CyclesBetween(start, es, i, j) == 0 ==> !At(start, es, j).phase.Sleeping?
    decreases j
  {
    hide Step, Good;
    if i < j {
      TimePerCycle(start, es, i, j - 1);
      RunIsGood(start, es[..j - 1]);
      Next(start, es, j - 1);
      StepKeepsSlept(At(start, es, i).node.now, CyclesBetween(start, es, i, j - 1), At(start, es, j - 1), es[j - 1]);
      StepEndsCycle(At(start, es, j - 1), es[j - 1]);
    }
  }

  /** Falling asleep is what completes a cycle. */
  lemma StepEndsCycle(s: State, e: Event)
    requires s.battery.max > 0.0
    ensures var s' := Step(s, e);
            s'.phase.Sleeping? && !s.phase.Sleeping? ==> s'.cycles > s.cycles
    ensures Step(s, e).cycles >= s.cycles
  {
    hide SocOf, CommandText, DeltaKwh, PowerByTypes, B.PutResult;
  }

  /** Once dispatched, the diesel stays dispatched for at least 756 balance cycles and 63 minutes;
      once released, it stays released for at least 504 cycles and 42 minutes. This holds whatever
      the load, the producers and the network do. */
  lemma DieselRunsAndRestsLong(start: int, es: seq<Event>, i: nat, j: nat)
    requires i < j < |es|
    ensures TurnsOn(start, es, i) && TurnsOff(start, es, j) ==>
              && CyclesBetween(start, es, i, j) >= 756
              && At(start, es, j).node.now - At(start, es, i).node.now >= 63 * 60 * 1000
    ensures TurnsOff(start, es, i) && TurnsOn(start, es, j) ==>
              && CyclesBetween(start, es, i, j) >= 504
              && At(start, es, j).node.now - At(start, es, i).node.now >= 42 * 60 * 1000
  {
    FlipNeedsThreshold(start, es, i);
    FlipNeedsThreshold(start, es, j);
    ChargeMovesPerCycle(start, es, i, j);
    RunIsGood(start, es[..j]);
    if At(start, es, i).phase.AwaitDiesel? && At(start, es, j).phase.AwaitDiesel? {
      TimePerCycle(start, es, i, j);
    }
  }
}
