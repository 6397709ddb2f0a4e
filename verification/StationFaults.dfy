/** What may go wrong in a run of the closed loop, and how long the dispatch must have been out of
    action before the diesel and the charge lock can meet. */
module StationFaults {
  import opened Common
  import opened EnergyState
  import opened Station
  import B = Battery
  import W = WarmUp

  /** What the runs under consideration may contain: battery reads that fail, decisions while no
      diesel node is registered, commands to the diesel node from outside the balance loop; and
      what may become of the balance loop's own commands to it. */
  datatype Faults = Faults(unread: bool, unregistered: bool, outsiders: bool, diesel: set<Exchange>)

  predicate Permits(f: Faults, s: State, e: Event) {
    && (e.SocReply? && s.phase.AwaitSoc? ==>
          (e.answered || f.unread) && (HasType(s.nodes, DIESEL_TYPE) || f.unregistered))
    && (e.DieselReply? && s.phase.AwaitDiesel? ==> e.exchange in f.diesel)
    && (e.Device? && e.event.Put? ==> f.outsiders)
  }

  /** Every event of the run is one that `f` permits. */
  predicate Within(f: Faults, start: int, es: seq<Event>) {
    es != [] ==>
      var before := es[..|es| - 1];
      Within(f, start, before) && Permits(f, Run(start, before), es[|es| - 1])
  }

  const ANSWERED: set<Exchange> := {Done, Rejected}

  /** The diesel node replies to every command. */
  predicate AlwaysAnswered(f: Faults) { f.diesel <= ANSWERED }

  /** Nothing ever keeps a decision from being taken and carried out. */
  predicate Unobstructed(f: Faults) { !f.unread && !f.unregistered && AlwaysAnswered(f) }

  // ---------- outages of the dispatch ----------

  /** The cycle's decision is carried out: the battery was read, a diesel node was registered, and
      its command, if one was needed, got a reply. */
  predicate Decides(s: State, e: Event) {
    || (s.phase.AwaitSoc? && e.SocReply? && e.answered && HasType(s.nodes, DIESEL_TYPE)
        && Decision(s, true) == s.dispatched)
    || (s.phase.AwaitDiesel? && e.DieselReply? && e.exchange.Answered())
  }

  /** A cycle ends that had found a battery. A cycle without one neither decides nor charges. */
  predicate Completes(s: State, e: Event)
    requires s.battery.max > 0.0
  {
    !s.phase.Sleeping? && Step(s, e).phase.Sleeping?
  }

  function OutageStep(s: State, e: Event, m: nat): nat
    requires s.battery.max > 0.0
  {
    (if Decides(s, e) then 0 else m) + (if Completes(s, e) then 1 else 0)
  }

  /** How many cycles have ended since a decision was last carried out, that cycle included. */
  function Outage(start: int, es: seq<Event>): nat {
    if es == [] then 0 else
      var before := es[..|es| - 1];
      OutageStep(Run(start, before), es[|es| - 1], Outage(start, before))
  }

  /** No outage of the run lasts n cycles. */
  predicate OutagesBelow(n: nat, start: int, es: seq<Event>) {
    Outage(start, es) < n && (es != [] ==> OutagesBelow(n, start, es[..|es| - 1]))
  }

  const LOCK_OUTAGE := 1961

  predicate Coexist(s: State) { s.dispatched && s.battery.locked }

  /** A dispatched diesel was last decided upon below the recovery mark. */
  predicate Recent(s: State, m: nat) {
    s.dispatched ==> s.battery.charge < 4.05 + CHARGE_STEP * m as real && (s.battery.locked ==> m >= LOCK_OUTAGE)
  }

  lemma BatteryReplyKeepsRecent(s: State, x: Exchange, m: nat)
    requires Good(s) && s.phase.AwaitBattery? && Recent(s, m)
    ensures Recent(OnBatteryReply(s, x), m + 1)
  {
    hide CommandText, DeltaKwh, Command, B.PutResult;
    BatteryReplyMovesLittle(s, x);
    LockClosesAtTheTop(s, x);
  }

  /** The lock only closes on a charge of at least 9.5 kWh. */
  lemma LockClosesAtTheTop(s: State, x: Exchange)
    requires Good(s) && s.phase.AwaitBattery?
    ensures var p := OnBatteryReply(s, x).battery;
            p.locked && !s.battery.locked ==> p.charge >= 9.5
  {
    hide CommandText, DeltaKwh, Sent;
    if x.TakesEffect() && Command(s.phase.total).Some? {
      FirmwareGetsSentDelta(s.battery, s.phase.total);
      AdjustLocksAtTheTop(s.battery, Sent(DeltaKwh(s.phase.total)));
    }
  }

  lemma AdjustLocksAtTheTop(p: B.Pack, delta: real)
    requires p.max == BATTERY_MAX
    ensures B.Adjust(p, delta).locked && !p.locked ==> B.Adjust(p, delta).charge >= 9.5
  {
  }

  lemma DecisionKeepsRecent(s: State, e: Event, m: nat)
    requires Good(s) && DecisionStands(s) && Decides(s, e)
    ensures Recent(Step(s, e), OutageStep(s, e, m))
  {
    hide SocOf, CommandText, DeltaKwh, PowerByTypes, W.Step, B.PutResult;
    SocOfReport(s.battery);
    ThresholdsOnTrueCharge(s.battery.charge);
  }

  lemma {:induction false} StepKeepsRecent(s: State, e: Event, m: nat)
    requires Good(s) && DecisionStands(s) && Recent(s, m)
    ensures Recent(Step(s, e), OutageStep(s, e, m))
  {
    hide SocOf, CommandText, DeltaKwh, PowerByTypes, W.Step, B.PutResult, DecisionStands;
    if Decides(s, e) {
      DecisionKeepsRecent(s, e, m);
    } else if e.BatteryReply? && s.phase.AwaitBattery? {
      BatteryReplyKeepsRecent(s, e.exchange, m);
    } else {
      StepKeepsDecision(s, e);
      OnlyBatteryReplyMovesBattery(s, e);
      RecentGrows(s, Step(s, e), m, OutageStep(s, e, m));
    }
  }

  lemma RecentGrows(s: State, s': State, m: nat, n: nat)
    requires Recent(s, m) && m <= n && s'.battery == s.battery && (s'.dispatched ==> s.dispatched)
    ensures Recent(s', n)
  {
  }

  /** In every run, whatever fails: a dispatched diesel finds less than 4.05 kWh plus one step for
      each cycle since a decision was last carried out, and if charging is locked these are at
      least 1961. */
  lemma {:induction false} LockNeedsOutage(start: int, es: seq<Event>)
    ensures var s, m := Run(start, es), Outage(start, es);
            s.dispatched ==> s.battery.charge < 4.05 + 0.00278 * m as real && (s.battery.locked ==> m >= 1961)
  {
    hide Step, Good, OutageStep, DecisionStands;
    if es != [] {
      var before := es[..|es| - 1];
      LockNeedsOutage(start, before);
      RunIsGood(start, before);
      RunKeepsDecision(start, before);
      StepKeepsRecent(Run(start, before), es[|es| - 1], Outage(start, before));
    }
  }

  // ---------- without obstruction ----------

  /** Every cycle's decision is carried out before its battery command. */
  predicate Prompt(s: State, m: nat) { m <= 1 && (s.phase.AwaitBattery? ==> m == 0) }

  lemma {:induction false} StepKeepsPrompt(f: Faults, s: State, e: Event, m: nat)
    requires Good(s) && Unobstructed(f) && Permits(f, s, e) && Prompt(s, m)
    ensures Prompt(Step(s, e), OutageStep(s, e, m))
  {
    hide SocOf, CommandText, DeltaKwh, PowerByTypes, W.Step, B.PutResult, B.ReportOf;
    if s.phase.AwaitSoc? && e.SocReply? {
      assert e.answered;
    }
  }

  lemma {:induction false} UnobstructedIsPrompt(f: Faults, start: int, es: seq<Event>)
    requires Unobstructed(f) && Within(f, start, es)
    ensures Prompt(Run(start, es), Outage(start, es))
  {
    hide Step, Good, OutageStep, Permits;
    if es != [] {
      var before := es[..|es| - 1];
      UnobstructedIsPrompt(f, start, before);
      RunIsGood(start, before);
      StepKeepsPrompt(f, Run(start, before), es[|es| - 1], Outage(start, before));
    }
  }

  /** When nothing obstructs the dispatch, a dispatched diesel and a locked battery never coexist. */
  lemma DieselAndLockNeverCoexist(f: Faults, start: int, es: seq<Event>)
    requires Unobstructed(f) && Within(f, start, es)
    ensures var s := Run(start, es);
            s.dispatched ==> s.battery.charge < 4.05 + 0.00278 && !s.battery.locked
  {
    UnobstructedIsPrompt(f, start, es);
    LockNeedsOutage(start, es);
  }
}
