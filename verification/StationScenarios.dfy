/** Runs of the closed loop built block by block: a drained battery, a dispatched diesel, a recharge
    under the sun, and an outage of the dispatch that lasts until charging is locked. */
module StationScenarios {
  import opened Common
  import opened EnergyState
  import opened Station
  import opened StationFaults
  import B = Battery
  import D = DeviceStatus
  import W = WarmUp
  import G = Registry
  import H = Hysteresis
  import Dict

  // ---------- prolonging a run ----------

  /** A state of a run together with its outage. */
  datatype Track = Track(state: State, outage: nat)

  function Go(t: Track, e: Event): (u: Track)
    requires t.state.battery.max > 0.0
    ensures u.state.battery.max == t.state.battery.max
  {
    Track(Step(t.state, e), OutageStep(t.state, e, t.outage))
  }

  function Follow(t: Track, es: seq<Event>): (u: Track)
    requires t.state.battery.max > 0.0
    ensures u.state.battery.max == t.state.battery.max
    decreases |es|
  {
    if es == [] then t else Follow(Go(t, es[0]), es[1..])
  }

  /** The events are permitted one after the other, and the outage stays below n. */
  predicate Smooth(f: Faults, n: nat, t: Track, es: seq<Event>)
    requires t.state.battery.max > 0.0
    decreases |es|
  {
    t.outage < n && (es != [] ==> Permits(f, t.state, es[0]) && Smooth(f, n, Go(t, es[0]), es[1..]))
  }

  function Tracked(start: int, es: seq<Event>): Track { Track(Run(start, es), Outage(start, es)) }

  predicate Allowed(f: Faults, n: nat, start: int, es: seq<Event>) {
    Within(f, start, es) && OutagesBelow(n, start, es)
  }

  lemma {:induction false} Extend(f: Faults, n: nat, start: int, es: seq<Event>, more: seq<Event>)
    requires Allowed(f, n, start, es) && Smooth(f, n, Tracked(start, es), more)
    ensures Allowed(f, n, start, es + more)
    ensures Tracked(start, es + more) == Follow(Tracked(start, es), more)
    decreases |more|
  {
    hide Step, OutageStep, Permits;
    if more == [] {
      assert es + more == es;
    } else {
      var next := es + [more[0]];
      assert next[..|es|] == es;
      Extend(f, n, start, next, more[1..]);
      assert next + more[1..] == es + more;
    }
  }

  lemma UnrollThree(f: Faults, n: nat, t: Track, a: Event, b: Event, c: Event)
    requires t.state.battery.max > 0.0
    ensures Follow(t, [a, b, c]) == Go(Go(Go(t, a), b), c)
    ensures Smooth(f, n, t, [a, b, c]) <==>
            && t.outage < n && Permits(f, t.state, a)
            && Go(t, a).outage < n && Permits(f, Go(t, a).state, b)
            && Go(Go(t, a), b).outage < n && Permits(f, Go(Go(t, a), b).state, c)
            && Go(Go(Go(t, a), b), c).outage < n
  {
    hide Go, Permits;
    var t1 := Go(t, a);
    var t2 := Go(t1, b);
    var t3 := Go(t2, c);
    assert [a, b, c][1..] == [b, c] && [b, c][1..] == [c] && [c][1..] == [];
    assert Follow(t2, [c]) == t3;
    assert Smooth(f, n, t2, [c]) <==> t2.outage < n && Permits(f, t2.state, c) && t3.outage < n;
    assert Follow(t1, [b, c]) == Follow(t2, [c]);
    assert Smooth(f, n, t1, [b, c]) <==> t1.outage < n && Permits(f, t1.state, b) && Smooth(f, n, t2, [c]);
  }

  // ---------- the station of these runs ----------

  const BATTERY := G.Node(Some("prod_battery"), Some("fd00::b"), Some("battery"), G.DefaultPort)
  const SOLAR := G.Node(Some("prod_solar"), Some("fd00::5"), Some("solar"), G.DefaultPort)
  const DIESEL := G.Node(Some(DIESEL_ID), Some("fd00::d"), Some(DIESEL_TYPE), G.DefaultPort)

  function Nodes(withDiesel: bool): G.Nodes {
    [Dict.Entry("prod_battery", BATTERY), Dict.Entry("prod_solar", SOLAR)]
    + if withDiesel then [Dict.Entry(DIESEL_ID, DIESEL)] else []
  }

  lemma NamesDiffer()
    ensures "prod_battery" != DIESEL_ID && "prod_battery" != "prod_solar" && "prod_solar" != DIESEL_ID
    ensures "solar" != DIESEL_TYPE && "battery" != DIESEL_TYPE && "solar" != "battery"
  {
    assert |DIESEL_ID| == 16 && |"prod_battery"| == 12 && |"prod_solar"| == 10;
    assert |"solar"| == 5 && |"battery"| == 7 && |DIESEL_TYPE| == 6;
  }

  lemma NodesHaveTypes(withDiesel: bool)
    ensures HasType(Nodes(withDiesel), "battery")
    ensures HasType(Nodes(withDiesel), DIESEL_TYPE) <==> withDiesel
    ensures Dict.Find(Nodes(withDiesel), "prod_solar").Some?
  {
    NamesDiffer();
    var nodes := Nodes(withDiesel);
    var ns := G.Values(nodes);
    assert ns[0] == BATTERY && ns[1..][0] == SOLAR;
    var rest := ns[1..][1..];
    assert G.FirstOfType(ns, DIESEL_TYPE) == G.FirstOfType(rest, DIESEL_TYPE);
    if withDiesel {
      assert rest[0] == DIESEL;
    } else {
      assert rest == [];
    }
    assert nodes[1..][0].key == "prod_solar";
  }

  /** Nothing at night; a clear day leaves 2200 W over even a small load. */
  const NIGHT := Payload("prod_solar", "solar", Number(0.0), Number(0.0), Number(0.0))
  const SUNSHINE := Payload("prod_solar", "solar", Number(50.0), Number(50.0), Number(0.0))

  function Sun(sunny: bool): Payload { if sunny then SUNSHINE else NIGHT }
  function Load(sunny: bool): real { if sunny then 300.0 else 3000.0 }
  function Surplus(sunny: bool): real { if sunny then 2200.0 else -3000.0 }
  function Move(sunny: bool): real { if sunny then 0.00278 else -0.00417 }

  lemma MoveIsSent(sunny: bool)
    ensures DeltaKwh(Surplus(sunny)) != 0.0 && Sent(DeltaKwh(Surplus(sunny))) == Move(sunny)
  {
    var x := Magnitude(DeltaKwh(Surplus(sunny))) * 100000.0;
    if sunny {
      PlacesOf5(278);
      assert 277.77 <= x <= 277.78;
      assert x.Floor == 277;
    } else {
      PlacesOf5(417);
      assert 416.66 <= x <= 416.67;
      assert x.Floor == 416;
    }
  }

  predicate OnlySolarReadings(readings: seq<Dict.Entry<Reading>>) {
    readings == [] || (|readings| == 1 && readings[0].key == "prod_solar")
  }

  lemma SunPower(readings: seq<Dict.Entry<Reading>>, withDiesel: bool, sunny: bool, now: int)
    requires OnlySolarReadings(readings)
    ensures var rs := Receive(readings, Sun(sunny), now);
            && OnlySolarReadings(rs)
            && PowerByTypes(rs, Nodes(withDiesel), RENEWABLE_TYPES, now) == Surplus(sunny) + Load(sunny)
            && PowerByTypes(rs, Nodes(withDiesel), RENEWABLE_TYPES + {DIESEL_TYPE}, now) == Surplus(sunny) + Load(sunny)
  {
    hide Nodes;
    var power := Surplus(sunny) + Load(sunny);
    var r := Reading("solar", power, now);
    assert Sun(sunny).Power() == power;
    assert ReadingOf(Sun(sunny), now) == Some(r);
    var rs := Receive(readings, Sun(sunny), now);
    assert rs == [Dict.Entry("prod_solar", r)] by {
      if readings != [] { assert readings[1..] == []; }
    }
    assert rs[1..] == [];
    NodesHaveTypes(withDiesel);
  }

  // ---------- one cycle ----------

  /** At rest and able to wake after five seconds. */
  predicate Resting(s: State) { s.phase.Sleeping? && s.wakeAt <= s.node.now + CYCLE_MS }

  predicate Ready(s: State, withDiesel: bool) {
    Good(s) && Resting(s) && OnlySolarReadings(s.readings) && s.nodes == Nodes(withDiesel)
  }

  function Morning(sunny: bool): seq<Event> {
    [Device(W.Advance(CYCLE_MS)), Producer(Sun(sunny)), Wake(Load(sunny))]
  }

  /** The three replies of a cycle; the one to the diesel command is ignored if there is none. */
  function Replies(answered: bool, x: Exchange, y: Exchange): seq<Event> {
    [SocReply(answered), DieselReply(x), BatteryReply(y)]
  }

  predicate Awake(s: State, withDiesel: bool, sunny: bool) {
    && Good(s) && OnlySolarReadings(s.readings) && s.nodes == Nodes(withDiesel)
    && s.phase == AwaitSoc(Surplus(sunny), Surplus(sunny))
  }

  lemma MorningPasses(f: Faults, n: nat, t: Track, withDiesel: bool, sunny: bool)
    requires Ready(t.state, withDiesel) && t.outage < n
    ensures Smooth(f, n, t, Morning(sunny))
    ensures var u := Follow(t, Morning(sunny));
            && Awake(u.state, withDiesel, sunny) && u.outage == t.outage
            && u.state.dispatched == t.state.dispatched && u.state.battery == t.state.battery
            && u.state.node == t.state.node.(now := t.state.node.now + CYCLE_MS)
  {
    hide PowerByTypes, Receive, OnlySolarReadings, HasType, Nodes, OnSocReply, OnDieselReply, OnBatteryReply;
    var es := Morning(sunny);
    NamesDiffer();
    UnrollThree(f, n, t, es[0], es[1], es[2]);
    var s := t.state;
    var a := Step(s, es[0]);
    var b := Step(a, es[1]);
    assert b == a.(readings := Receive(s.readings, Sun(sunny), a.node.now));
    SunPower(s.readings, withDiesel, sunny, a.node.now);
    NodesHaveTypes(withDiesel);
    assert Step(b, es[2]) == b.(phase := AwaitSoc(Surplus(sunny), Surplus(sunny)));
  }

  /** What the decision of the cycle wants, in terms of the true charge. */
  function Switched(dispatched: bool, charge: real, informed: bool, sunny: bool): bool {
    if !informed then dispatched else H.Next(dispatched, H.Signal(charge < 1.95 && !sunny, charge >= 4.05))
  }

  function Wanted(s: State, informed: bool, sunny: bool): bool {
    Switched(s.dispatched, s.battery.charge, informed, sunny)
  }

  lemma DecisionIsWanted(s: State, withDiesel: bool, sunny: bool, answered: bool)
    requires Awake(s, withDiesel, sunny)
    ensures Decision(s, answered) == Wanted(s, answered && withDiesel, sunny)
  {
    hide SocOf, B.ReportOf, HasType, Nodes, OnlySolarReadings;
    NodesHaveTypes(withDiesel);
    SocOfReport(s.battery);
    ThresholdsOnTrueCharge(s.battery.charge);
  }

  /** The outage once the decision has been carried out, or not. */
  function OutageAfter(m: nat, informed: bool, change: bool, x: Exchange): nat {
    if informed && (!change || x.Answered()) then 0 else m
  }

  function NodeAfter(w: W.World, commanded: bool, on: bool): W.World {
    if commanded then W.Step(w, D.DIESEL, W.Put(if on then "on" else "off")) else w
  }

  /** The station once the dispatch is through and the battery command is under way. */
  function Waiting(s: State, sunny: bool, want: bool, x: Exchange): State {
    s.(phase := AwaitBattery(Surplus(sunny)), dispatched := Dispatch(s.dispatched, want, x),
       node := NodeAfter(s.node, want != s.dispatched && x.TakesEffect(), want))
  }

  function Ended(s: State, sunny: bool, y: Exchange): State
    requires s.battery.max > 0.0
  {
    EndCycle(s.(battery := if y.TakesEffect() then B.Adjust(s.battery, Move(sunny)) else s.battery))
  }

  lemma DecidingPasses(t: Track, withDiesel: bool, sunny: bool, answered: bool, x: Exchange)
    requires Awake(t.state, withDiesel, sunny)
    ensures var s := t.state;
            var want := Wanted(s, answered && withDiesel, sunny);
            var u := Go(t, SocReply(answered));
            var v := Go(u, DieselReply(x));
            && (u.state.phase.AwaitDiesel? <==> want != s.dispatched)
            && u.outage <= t.outage && v.outage <= t.outage
            && v.state == Waiting(s, sunny, want, x) && v.state.phase == AwaitBattery(Surplus(sunny))
            && v.state.battery == s.battery
            && v.outage == OutageAfter(t.outage, answered && withDiesel, want != s.dispatched, x)
  {
    hide Decision, W.Step, CommandText, DeltaKwh, HasType, Nodes, OnlySolarReadings, OnWake, OnBatteryReply, Switched;
    DecisionIsWanted(t.state, withDiesel, sunny, answered);
    NodesHaveTypes(withDiesel);
    MoveIsSent(sunny);
    NothingWanted(t.state.dispatched, t.state.battery.charge, sunny);
  }

  lemma NothingWanted(dispatched: bool, charge: real, sunny: bool)
    ensures Switched(dispatched, charge, false, sunny) == dispatched
  {
  }

  lemma CommandPasses(s: State, sunny: bool, y: Exchange)
    requires s.battery.max > 0.0 && s.phase == AwaitBattery(Surplus(sunny))
    ensures Step(s, BatteryReply(y)) == Ended(s, sunny, y)
  {
    hide CommandText, DeltaKwh, Sent, B.PutResult, B.Adjust;
    MoveIsSent(sunny);
    FirmwareGetsSentDelta(s.battery, Surplus(sunny));
  }

  lemma RepliesKeepGood(s: State, answered: bool, x: Exchange, y: Exchange)
    requires Good(s)
    ensures Good(Step(Step(Step(s, SocReply(answered)), DieselReply(x)), BatteryReply(y)))
  {
    assert s.battery.max > 0.0;
    hide Step, Good;
    StepKeepsGood(s, SocReply(answered));
    StepKeepsGood(Step(s, SocReply(answered)), DieselReply(x));
    StepKeepsGood(Step(Step(s, SocReply(answered)), DieselReply(x)), BatteryReply(y));
  }

  lemma RepliesArePermitted(f: Faults, t: Track, withDiesel: bool, sunny: bool,
                            answered: bool, x: Exchange, y: Exchange)
    requires Awake(t.state, withDiesel, sunny)
    requires (answered || f.unread) && (withDiesel || f.unregistered)
    requires Wanted(t.state, answered && withDiesel, sunny) != t.state.dispatched ==> x in f.diesel
    ensures Permits(f, t.state, SocReply(answered))
    ensures Permits(f, Go(t, SocReply(answered)).state, DieselReply(x))
    ensures Permits(f, Go(Go(t, SocReply(answered)), DieselReply(x)).state, BatteryReply(y))
  {
    hide Go, Nodes, HasType, Switched;
    NodesHaveTypes(withDiesel);
    DecidingPasses(t, withDiesel, sunny, answered, x);
  }

  lemma RepliesPass(f: Faults, n: nat, t: Track, withDiesel: bool, sunny: bool,
                    answered: bool, x: Exchange, y: Exchange)
    requires Awake(t.state, withDiesel, sunny) && t.outage + 1 < n
    requires (answered || f.unread) && (withDiesel || f.unregistered)
    requires Wanted(t.state, answered && withDiesel, sunny) != t.state.dispatched ==> x in f.diesel
    ensures Smooth(f, n, t, Replies(answered, x, y))
    ensures var s := t.state;
            var want := Wanted(s, answered && withDiesel, sunny);
            var u := Follow(t, Replies(answered, x, y));
            && u.state == Ended(Waiting(s, sunny, want, x), sunny, y) && Good(u.state)
            && u.outage == OutageAfter(t.outage, answered && withDiesel, want != s.dispatched, x) + 1
  {
    assert t.state.battery.max > 0.0;
    hide Step, Good, Nodes, B.Adjust, Dispatch, NodeAfter, Decides, Completes, Switched, OutageAfter, Permits, Awake,
         Smooth, Follow, Surplus, Ended, Waiting;
    var es := Replies(answered, x, y);
    UnrollThree(f, n, t, es[0], es[1], es[2]);
    RepliesArePermitted(f, t, withDiesel, sunny, answered, x, y);
    DecidingPasses(t, withDiesel, sunny, answered, x);
    RepliesKeepGood(t.state, answered, x, y);
    var v := Go(Go(t, es[0]), es[1]).state;
    CommandPasses(v, sunny, y);
    CommandCompletes(v, y);
  }

  /** What one whole cycle makes of a station at rest. */
  lemma CyclePasses(f: Faults, n: nat, t: Track, withDiesel: bool, sunny: bool,
                    answered: bool, x: Exchange, y: Exchange)
    requires Ready(t.state, withDiesel) && t.outage + 1 < n
    requires (answered || f.unread) && (withDiesel || f.unregistered)
    requires Wanted(t.state, answered && withDiesel, sunny) != t.state.dispatched ==> x in f.diesel
    ensures Smooth(f, n, t, Morning(sunny)) && Smooth(f, n, Follow(t, Morning(sunny)), Replies(answered, x, y))
    ensures var s := t.state;
            var want := Wanted(s, answered && withDiesel, sunny);
            var u := Follow(Follow(t, Morning(sunny)), Replies(answered, x, y));
            && Ready(u.state, withDiesel)
            && u.state.dispatched == Dispatch(s.dispatched, want, x)
            && u.state.battery == (if y.TakesEffect() then B.Adjust(s.battery, Move(sunny)) else s.battery)
            && u.state.node == NodeAfter(s.node.(now := s.node.now + CYCLE_MS),
                                         want != s.dispatched && x.TakesEffect(), want)
            && u.outage == OutageAfter(t.outage, answered && withDiesel, want != s.dispatched, x) + 1
  {
    assert t.state.battery.max > 0.0;
    hide Step, Good, OnlySolarReadings, Nodes, B.Adjust, Dispatch, Morning, Replies, Smooth, Follow,
         Move, Switched, NodeAfter, OutageAfter;
    MorningPasses(f, n, t, withDiesel, sunny);
    RepliesPass(f, n, Follow(t, Morning(sunny)), withDiesel, sunny, answered, x, y);
  }

  lemma CommandCompletes(s: State, y: Exchange)
    requires s.battery.max > 0.0 && s.phase.AwaitBattery?
    ensures !Decides(s, BatteryReply(y)) && Completes(s, BatteryReply(y))
  {
    hide B.PutResult, Command;
  }

  /** The same, appended to a run. */
  lemma AddCycle(f: Faults, n: nat, start: int, es: seq<Event>, withDiesel: bool, sunny: bool,
                 answered: bool, x: Exchange, y: Exchange) returns (longer: seq<Event>)
    requires Allowed(f, n, start, es) && Ready(Run(start, es), withDiesel) && Outage(start, es) + 1 < n
    requires (answered || f.unread) && (withDiesel || f.unregistered)
    requires Wanted(Run(start, es), answered && withDiesel, sunny) != Run(start, es).dispatched ==> x in f.diesel
    ensures Allowed(f, n, start, longer) && Ready(Run(start, longer), withDiesel)
    ensures var s, u := Run(start, es), Run(start, longer);
            var want := Wanted(s, answered && withDiesel, sunny);
            && u.dispatched == Dispatch(s.dispatched, want, x)
            && u.battery == (if y.TakesEffect() then B.Adjust(s.battery, Move(sunny)) else s.battery)
            && u.node == NodeAfter(s.node.(now := s.node.now + CYCLE_MS), want != s.dispatched && x.TakesEffect(), want)
            && Outage(start, longer) ==
               OutageAfter(Outage(start, es), answered && withDiesel, want != s.dispatched, x) + 1
  {
    hide Within, OutagesBelow, Run, Outage, Ready, Wanted, Smooth, Follow, Morning, Replies, B.Adjust, NodeAfter,
         Dispatch, OutageAfter;
    var t := Tracked(start, es);
    CyclePasses(f, n, t, withDiesel, sunny, answered, x, y);
    Extend(f, n, start, es, Morning(sunny));
    Extend(f, n, start, es + Morning(sunny), Replies(answered, x, y));
    longer := es + Morning(sunny) + Replies(answered, x, y);
  }

  /** One event that the clock does not notice, appended to a run. */
  lemma AddEvent(f: Faults, n: nat, start: int, es: seq<Event>, e: Event)
    requires Allowed(f, n, start, es) && Run(start, es).phase.Sleeping? && (e.Register? || e.Unregister?)
    ensures Allowed(f, n, start, es + [e])
    ensures Run(start, es + [e]) == Step(Run(start, es), e) && Run(start, es + [e]).phase.Sleeping?
    ensures Outage(start, es + [e]) == Outage(start, es)
  {
    assert (es + [e])[..|es|] == es;
  }

  // ---------- the scenarios ----------

  lemma NodesJoin(start: int)
    ensures var s := Boot(start);
            Step(Step(Step(s, Register(BATTERY)), Register(SOLAR)), Register(DIESEL)) == s.(nodes := Nodes(true))
  {
    NamesDiffer();
    var s := Boot(start);
    var s1 := Step(s, Register(BATTERY));
    assert s1.nodes == [Dict.Entry("prod_battery", BATTERY)] && s1.nodes[1..] == [];
    var s2 := Step(s1, Register(SOLAR));
    assert Dict.Store(s1.nodes[1..], "prod_solar", SOLAR) == [Dict.Entry("prod_solar", SOLAR)];
    assert Dict.Store(s1.nodes, "prod_solar", SOLAR) == s1.nodes + [Dict.Entry("prod_solar", SOLAR)];
    assert s2.nodes == Nodes(false);
    assert s2.nodes[1..][1..] == [];
    assert Dict.Store(s2.nodes[1..][1..], DIESEL_ID, DIESEL) == [Dict.Entry(DIESEL_ID, DIESEL)];
    assert Dict.Store(s2.nodes[1..], DIESEL_ID, DIESEL) == s2.nodes[1..] + [Dict.Entry(DIESEL_ID, DIESEL)];
  }

  lemma DieselLeaves(s: State)
    requires Ready(s, true)
    ensures Step(s, Unregister(DIESEL_ID)) == s.(nodes := Nodes(false)) && Ready(Step(s, Unregister(DIESEL_ID)), false)
  {
    NamesDiffer();
    var rest := s.nodes[1..];
    assert rest[1..] == [Dict.Entry(DIESEL_ID, DIESEL)] && rest[1..][1..] == [];
    assert Dict.Drop(rest[1..], DIESEL_ID) == [];
    assert Dict.Drop(rest, DIESEL_ID) == [rest[0]];
  }

  /** The charge after k full cycles of discharging. */
  function Drained(k: nat): real { 5.0 - 0.00417 * k as real }

  /** The charge after k sunny cycles that began at the dispatch. */
  function Recharged(k: nat): real { Drained(732) + 0.00278 * k as real }

  predicate Holds(s: State, charge: real, locked: bool) { s.battery == B.Pack(BATTERY_MAX, charge, locked, false) }

  lemma AdjustMoves(p: B.Pack, sunny: bool)
    requires p.max == BATTERY_MAX && !p.locked && !p.overriding && 1.0 <= p.charge < 9.5
    ensures var c := p.charge + Move(sunny);
            B.Adjust(p, Move(sunny)) == p.(charge := c, locked := c >= 9.5)
  {
    B.SocThresholds(p.(charge := p.charge + Move(sunny)));
  }

  lemma {:induction false} Drain(f: Faults, n: nat, start: int, k: nat) returns (es: seq<Event>)
    requires k <= 732 && n >= 3
    ensures Allowed(f, n, start, es) && Outage(start, es) <= 1
    ensures var s := Run(start, es);
            Ready(s, true) && Holds(s, Drained(k), false) && !s.dispatched && s.node.device == D.BOOTED_OFF
  {
    hide Step, OutageStep, Good, Decision, B.Adjust, Permits, Nodes;
    if k == 0 {
      es := [];
      AddEvent(f, n, start, [], Register(BATTERY));
      AddEvent(f, n, start, [] + [Register(BATTERY)], Register(SOLAR));
      AddEvent(f, n, start, [] + [Register(BATTERY)] + [Register(SOLAR)], Register(DIESEL));
      es := [] + [Register(BATTERY)] + [Register(SOLAR)] + [Register(DIESEL)];
      NodesJoin(start);
      RunIsGood(start, es);
    } else {
      var before := Drain(f, n, start, k - 1);
      es := AddCycle(f, n, start, before, true, false, true, Done, Done);
      AdjustMoves(Run(start, before).battery, false);
    }
  }

  /** The cycle that finds the battery drained dispatches the diesel, or tries to: the command meets
      `x`. The battery's own command of that cycle gets lost. */
  lemma TryDispatch(f: Faults, n: nat, start: int, x: Exchange) returns (es: seq<Event>)
    requires n >= 3 && x in f.diesel
    ensures Allowed(f, n, start, es) && (x.Answered() ==> Outage(start, es) == 1)
    ensures var s := Run(start, es);
            && Ready(s, true) && Holds(s, Recharged(0), false)
            && s.dispatched == x.Answered()
            && s.node.device.starting == x.TakesEffect() && !s.node.device.on
  {
    hide Step, Run, Outage, OutageStep, Good, Decision, B.Adjust, Permits, Nodes, OnlySolarReadings;
    var before := Drain(f, n, start, 732);
    es := AddCycle(f, n, start, before, true, false, true, x, RequestLost);
  }

  /** Under the sun, the dispatch keeps finding less than the recovery mark. */
  lemma {:induction false} Recharge(f: Faults, n: nat, start: int, x: Exchange, k: nat) returns (es: seq<Event>)
    requires n >= 3 && x in f.diesel && x.Answered() && k <= 757
    ensures Allowed(f, n, start, es) && Outage(start, es) == 1
    ensures var s := Run(start, es);
            Ready(s, true) && Holds(s, Recharged(k), false) && s.dispatched
  {
    hide Step, Run, Outage, OutageStep, Good, Decision, B.Adjust, Permits, Nodes, OnlySolarReadings;
    if k == 0 {
      es := TryDispatch(f, n, start, x);
    } else {
      var before := Recharge(f, n, start, x, k - 1);
      es := AddCycle(f, n, start, before, true, true, true, x, Done);
      AdjustMoves(Run(start, before).battery, true);
    }
  }

  /** One permitted way to keep decisions from being carried out: no reading, no diesel node, or no
      reply to its command. */
  predicate Obstructs(f: Faults, answered: bool, withDiesel: bool, x: Exchange) {
    && (answered || f.unread) && (withDiesel || f.unregistered)
    && (answered && withDiesel ==> x in f.diesel && !x.Answered())
  }

  /** An outage of m cycles that begins at the last possible moment. */
  lemma {:induction false} Starve(f: Faults, n: nat, start: int, x: Exchange,
                                  answered: bool, withDiesel: bool, lost: Exchange, m: nat) returns (es: seq<Event>)
    requires x in f.diesel && x.Answered() && Obstructs(f, answered, withDiesel, lost)
    requires 1 <= m <= LOCK_OUTAGE < n
    ensures Allowed(f, n, start, es) && Outage(start, es) == m
    ensures var s := Run(start, es);
            Ready(s, withDiesel) && Holds(s, Recharged(756 + m), m == LOCK_OUTAGE) && s.dispatched
  {
    hide Step, Run, Outage, OutageStep, Good, Decision, B.Adjust, Permits, Nodes, OnlySolarReadings;
    if m == 1 {
      es := Recharge(f, n, start, x, 757);
      if !withDiesel {
        AddEvent(f, n, start, es, Unregister(DIESEL_ID));
        DieselLeaves(Run(start, es));
        es := es + [Unregister(DIESEL_ID)];
      }
    } else {
      var before := Starve(f, n, start, x, answered, withDiesel, lost, m - 1);
      es := AddCycle(f, n, start, before, withDiesel, true, answered, lost, Done);
      AdjustMoves(Run(start, before).battery, true);
    }
  }
}
