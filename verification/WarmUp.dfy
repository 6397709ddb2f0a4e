/** Warm-up safety: what every interleaving of commands, timer, publishes and passing time keeps. */
module WarmUp {
  import opened Common
  import opened DeviceStatus
  import H = Hysteresis

  datatype Event =
    | Put(payload: string)
    | TimerFires
    | Publish(draw: Draw)
    | Advance(ms: nat)

  datatype Logged = Logged(request: Request, at: int)

  /** A published message, when it left, and how many commands had arrived by then. */
  datatype Sent = Sent(message: Telemetry, at: int, commands: nat)

  /** The device, the clock, every on/off command so far, and every message sent. */
  datatype World = World(device: Device, now: int, log: seq<Logged>, sent: seq<Sent>)

  /** The timer may fire at any moment once it is due; before that the event has no effect. */
  function Step(w: World, c: Config, e: Event): World
    requires c.vRange > 0 && c.iRange > 0
  {
    match e
    case Put(payload) =>
      w.(device := PutStatus(w.device, c, payload, w.now).0,
         log := if RequestOf(payload) == Invalid then w.log else w.log + [Logged(RequestOf(payload), w.now)])
    case TimerFires =>
      if w.device.timer.Some? && w.device.timer.value <= w.now then w.(device := StartupComplete(w.device)) else w
    case Publish(draw) =>
      var t := TelemetryOf(w.device, c, draw);
      w.(device := AfterPublish(w.device, t), sent := w.sent + [Sent(t, w.now, |w.log|)])
    case Advance(ms) => w.(now := w.now + ms)
  }

  function Run(c: Config, start: int, es: seq<Event>): World
    requires c.vRange > 0 && c.iRange > 0
  {
    if es == [] then World(BOOTED_OFF, start, [], []) else Step(Run(c, start, es[..|es| - 1]), c, es[|es| - 1])
  }

  /** The arrival of the first "on" since the last "off", if the last command was an "on". */
  function HeldSince(log: seq<Logged>): Option<int> {
    if log == [] then None else
      var last := log[|log| - 1];
      var before := HeldSince(log[..|log| - 1]);
      if last.request != TurnOn then None
      else if before.Some? then before
      else Some(last.at)
  }

  predicate OnlyOnFrom(log: seq<Logged>, k: nat) {
    forall j :: k <= j < |log| ==> log[j].request == TurnOn
  }

  ghost predicate FirstOnAt(log: seq<Logged>, t: int) {
    exists k: nat :: k < |log| && OnlyOnFrom(log, k) && log[k].at == t && (k > 0 ==> log[k - 1].request != TurnOn)
  }

  lemma {:induction false} HeldSinceIsFirstOn(log: seq<Logged>)
    ensures HeldSince(log).Some? ==> FirstOnAt(log, HeldSince(log).value)
    ensures HeldSince(log) == None <==> log == [] || log[|log| - 1].request != TurnOn
  {
    if log != [] {
      var n := |log| - 1;
      HeldSinceIsFirstOn(log[..n]);
      if log[n].request == TurnOn {
        if HeldSince(log[..n]).Some? {
          var t := HeldSince(log[..n]).value;
          var k: nat :| k < n && OnlyOnFrom(log[..n], k) && log[..n][k].at == t
                        && (k > 0 ==> log[..n][k - 1].request != TurnOn);
          assert OnlyOnFrom(log, k) by {
            assert forall j :: k <= j < n ==> log[..n][j] == log[j];
          }
          assert log[k].at == t;
        } else {
          assert OnlyOnFrom(log, n);
        }
      }
    }
  }

  /** A start is never earlier than the held command, nor due before its delay has passed. */
  predicate Safe(w: World, c: Config) {
    && (w.device.starting <==> w.device.timer.Some?)
    && (w.device.starting ==> c.startupDelayMs > 0)
    && !(w.device.on && w.device.starting)
    && (w.device.on || w.device.starting ==> HeldSince(w.log).Some?)
    && (w.device.starting ==> w.device.timer.value >= HeldSince(w.log).value + c.startupDelayMs)
    && (w.device.on ==> w.now >= HeldSince(w.log).value + c.startupDelayMs)
    && (HeldSince(w.log).Some? ==> HeldSince(w.log).value <= w.now)
  }

  lemma LogStep(log: seq<Logged>, last: Logged)
    ensures HeldSince(log + [last]) == if last.request != TurnOn then None
                                       else if HeldSince(log).Some? then HeldSince(log) else Some(last.at)
  {
    assert (log + [last])[..|log|] == log;
  }

  lemma StepKeepsSafe(w: World, c: Config, e: Event)
    requires c.vRange > 0 && c.iRange > 0 && Safe(w, c)
    ensures Safe(Step(w, c, e), c)
  {
    if e.Put? {
      LogStep(w.log, Logged(RequestOf(e.payload), w.now));
    }
  }

  /** For every node type booted off, with any warm-up time and any fault injection: on only after the
      warm-up time of an uncancelled "on"; starting exactly while the timer runs, and never together
      with on. */
  lemma {:induction false} WarmUpSafety(c: Config, start: int, es: seq<Event>)
    requires c.vRange > 0 && c.iRange > 0
    ensures var w := Run(c, start, es);
            && (w.device.starting <==> w.device.timer.Some?)
            && !(w.device.on && w.device.starting)
            && (w.device.on ==> exists t: int :: FirstOnAt(w.log, t) && w.now - t >= c.startupDelayMs)
    ensures Safe(Run(c, start, es), c)
  {
    if es != [] {
      WarmUpSafety(c, start, es[..|es| - 1]);
      StepKeepsSafe(Run(c, start, es[..|es| - 1]), c, es[|es| - 1]);
    }
    HeldSinceIsFirstOn(Run(c, start, es).log);
  }

  // ---------- telemetry ----------

  /** The device was warm when this message left: its warm-up time of uncancelled "on" lay behind it. */
  ghost predicate SentWarm(w: World, c: Config, m: Sent) {
    m.commands <= |w.log| && m.at <= w.now
    && exists t: int :: FirstOnAt(w.log[..m.commands], t) && m.at - t >= c.startupDelayMs
  }

  ghost predicate PowerOnlyWhenWarm(w: World, c: Config) {
    forall k :: 0 <= k < |w.sent| && w.sent[k].message.Power() != 0.0 ==> SentWarm(w, c, w.sent[k])
  }

  lemma SentWarmStays(w: World, c: Config, e: Event, m: Sent)
    requires c.vRange > 0 && c.iRange > 0 && SentWarm(w, c, m)
    ensures SentWarm(Step(w, c, e), c, m)
  {
    var w' := Step(w, c, e);
    assert w'.log[..m.commands] == w.log[..m.commands];
  }

  lemma StepKeepsPowerWarm(w: World, c: Config, e: Event)
    requires c.vRange > 0 && c.iRange > 0 && Safe(w, c) && PowerOnlyWhenWarm(w, c)
    ensures PowerOnlyWhenWarm(Step(w, c, e), c)
  {
    var w' := Step(w, c, e);
    forall k | 0 <= k < |w'.sent| && w'.sent[k].message.Power() != 0.0 ensures SentWarm(w', c, w'.sent[k]) {
      if k < |w.sent| {
        SentWarmStays(w, c, e, w.sent[k]);
      } else {
        assert w.device.on;
        HeldSinceIsFirstOn(w.log);
        assert w'.log[..|w.log|] == w.log;
      }
    }
  }

  /** Every message with non-zero power left a device that had warmed up: whatever is published
      while the device is off or starting carries zero power. */
  lemma {:induction false} TelemetryIsHonest(c: Config, start: int, es: seq<Event>)
    requires c.vRange > 0 && c.iRange > 0
    ensures PowerOnlyWhenWarm(Run(c, start, es), c)
  {
    if es != [] {
      TelemetryIsHonest(c, start, es[..|es| - 1]);
      WarmUpSafety(c, start, es[..|es| - 1]);
      StepKeepsPowerWarm(Run(c, start, es[..|es| - 1]), c, es[|es| - 1]);
    }
  }

  // ---------- what on, off and anomalies must do ----------

  /** A run of a node that boots on, as wind and solar do, or off. */
  function RunFrom(bootOn: bool, c: Config, start: int, es: seq<Event>): World
    requires c.vRange > 0 && c.iRange > 0
  {
    if es == [] then World(Device(bootOn, false, None), start, [], [])
    else Step(RunFrom(bootOn, c, start, es[..|es| - 1]), c, es[|es| - 1])
  }

  lemma {:induction false} RunIsFromOff(c: Config, start: int, es: seq<Event>)
    requires c.vRange > 0 && c.iRange > 0
    ensures Run(c, start, es) == RunFrom(false, c, start, es)
  {
    if es != [] {
      RunIsFromOff(c, start, es[..|es| - 1]);
    }
  }

  /** What an event means for the device: "on" raises it, "off" and a published anomaly drop it. */
  function SignalOf(w: World, c: Config, e: Event): H.Signal
    requires c.vRange > 0 && c.iRange > 0
  {
    match e
    case Put(payload) => H.Signal(RequestOf(payload) == TurnOn, RequestOf(payload) == TurnOff)
    case Publish(draw) => H.Signal(false, TelemetryOf(w.device, c, draw).anomaly)
    case TimerFires => H.Signal(false, false)
    case Advance(_) => H.Signal(false, false)
  }

  function Signals(bootOn: bool, c: Config, start: int, es: seq<Event>): seq<H.Signal>
    requires c.vRange > 0 && c.iRange > 0
  {
    if es == [] then [] else
      var n := |es| - 1;
      Signals(bootOn, c, start, es[..n]) + [SignalOf(RunFrom(bootOn, c, start, es[..n]), c, es[n])]
  }

  function Raised(before: Option<int>, s: H.Signal, now: int): Option<int> {
    if s.drop then None else if s.raise && before == None then Some(now) else before
  }

  /** When the present stretch of being on or starting began; a node that boots on counts as warm. */
  function RaisedAt(bootOn: bool, c: Config, start: int, es: seq<Event>): Option<int>
    requires c.vRange > 0 && c.iRange > 0
  {
    if es == [] then (if bootOn then Some(start - c.startupDelayMs) else None) else
      var n := |es| - 1;
      var w := RunFrom(bootOn, c, start, es[..n]);
      Raised(RaisedAt(bootOn, c, start, es[..n]), SignalOf(w, c, es[n]), w.now)
  }

  /** The device against the beginning of its present stretch. */
  predicate Running(w: World, c: Config, raised: Option<int>) {
    && (w.device.on || w.device.starting <==> raised.Some?)
    && !(w.device.on && w.device.starting)
    && (w.device.starting <==> w.device.timer.Some?)
    && (c.startupDelayMs == 0 ==> !w.device.starting)
    && (w.device.starting ==> raised.Some? && w.device.timer == Some(raised.value + c.startupDelayMs))
    && (w.device.on ==> raised.Some? && w.now >= raised.value + c.startupDelayMs)
    && (raised.Some? ==> raised.value <= w.now)
  }

  lemma StepKeepsRunning(w: World, c: Config, e: Event, raised: Option<int>)
    requires c.vRange > 0 && c.iRange > 0 && Running(w, c, raised)
    ensures Running(Step(w, c, e), c, Raised(raised, SignalOf(w, c, e), w.now))
  {
    hide TelemetryOf, RequestOf;
    if e.Publish? {
      MessageTells(w.device, c, e.draw);
    }
  }

  lemma {:induction false} RunIsRunning(bootOn: bool, c: Config, start: int, es: seq<Event>)
    requires c.vRange > 0 && c.iRange > 0
    ensures Running(RunFrom(bootOn, c, start, es), c, RaisedAt(bootOn, c, start, es))
  {
    hide Step, SignalOf, Running;
    if es == [] {
      BootIsRunning(bootOn, c, start);
    } else {
      var n := |es| - 1;
      RunIsRunning(bootOn, c, start, es[..n]);
      StepKeepsRunning(RunFrom(bootOn, c, start, es[..n]), c, es[n], RaisedAt(bootOn, c, start, es[..n]));
    }
  }

  lemma BootIsRunning(bootOn: bool, c: Config, start: int)
    requires c.vRange > 0 && c.iRange > 0
    ensures Running(RunFrom(bootOn, c, start, []), c, RaisedAt(bootOn, c, start, []))
  {
  }

  lemma {:induction false} RaisedIsSwitch(bootOn: bool, c: Config, start: int, es: seq<Event>)
    requires c.vRange > 0 && c.iRange > 0
    ensures H.Separated(Signals(bootOn, c, start, es))
    ensures RaisedAt(bootOn, c, start, es).Some? == H.Run(bootOn, Signals(bootOn, c, start, es))
  {
    if es != [] {
      var n := |es| - 1;
      RaisedIsSwitch(bootOn, c, start, es[..n]);
      H.RunAppend(bootOn, Signals(bootOn, c, start, es[..n]), SignalOf(RunFrom(bootOn, c, start, es[..n]), c, es[n]));
    }
  }

  /** Every node type is on or starting exactly when some "on" has had no "off" and no published anomaly
      since, or it booted on and has had neither. Without a warm-up time it is then on. With one, it is
      starting with its timer due that time after the first such "on", or it is on and that time has passed. */
  lemma {:induction false} DeviceFollowsHistory(bootOn: bool, c: Config, start: int, es: seq<Event>)
    requires c.vRange > 0 && c.iRange > 0
    ensures var w := RunFrom(bootOn, c, start, es);
            var d := w.device;
            var ss := Signals(bootOn, c, start, es);
            var raised := RaisedAt(bootOn, c, start, es);
            && (d.on || d.starting <==> (bootOn && H.NoDropFrom(ss, 0)) || exists i: nat :: H.RaisedAndHeld(ss, i))
            && (c.startupDelayMs == 0 ==> !d.starting)
            && (d.starting ==> raised.Some? && d.timer == Some(raised.value + c.startupDelayMs))
            && (d.on ==> raised.Some? && w.now >= raised.value + c.startupDelayMs)
  {
    hide Signals, RunFrom, RaisedAt;
    RunIsRunning(bootOn, c, start, es);
    RaisedIsSwitch(bootOn, c, start, es);
    H.PositionIsHistory(bootOn, Signals(bootOn, c, start, es));
  }

  /** Once the timer of a starting device is due, its firing turns the device on; before, and without a
      timer, nothing happens. */
  lemma TimerTurnsOn(w: World, c: Config)
    requires c.vRange > 0 && c.iRange > 0
    ensures var w' := Step(w, c, TimerFires);
            if w.device.timer.Some? && w.now >= w.device.timer.value
            then w'.device == Device(true, false, None) else w' == w
  {
  }

  /** Every publish sends one message of the device as it is, and turns the device off exactly when that
      message reports an anomaly. */
  lemma PublishTells(bootOn: bool, c: Config, start: int, es: seq<Event>, draw: Draw)
    requires c.vRange > 0 && c.iRange > 0
    ensures var w := RunFrom(bootOn, c, start, es);
            var w' := Step(w, c, Publish(draw));
            && |w'.sent| == |w.sent| + 1 && w'.sent[..|w.sent|] == w.sent
            && var m := w'.sent[|w.sent|];
               && m.at == w.now
               && (m.message.status == ON <==> w.device.on)
               && (m.message.status == STARTING <==> w.device.starting)
               && (m.message.anomaly ==> w.device.on)
               && w'.device == if m.message.anomaly then Device(false, false, None) else w.device
  {
    hide TelemetryOf, RunFrom, RaisedAt;
    RunIsRunning(bootOn, c, start, es);
    MessageTells(RunFrom(bootOn, c, start, es).device, c, draw);
  }

  // ---------- the diesel node ----------

  /** No reading in the diesel range is classed as an anomaly. */
  lemma DieselReadingsAreNormal(d: Device, r: Draw)
    ensures !TelemetryOf(d, DIESEL, r).anomaly
    ensures d.on ==> 1100.0 <= TelemetryOf(d, DIESEL, r).Power()
  {
    if d.on {
      var t := TelemetryOf(d, DIESEL, r);
      assert t.v >= 220.0 && 5.0 <= t.i <= 15.9;
      ProductBound(t.v, t.i);
    }
  }

  lemma ProductBound(v: real, i: real)
    requires v >= 220.0 && i >= 5.0
    ensures v * i >= 1100.0
  {
    assert v * i - 1100.0 == (v - 220.0) * i + 220.0 * (i - 5.0);
    assert (v - 220.0) * i >= 0.0;
  }

  /** On or starting is a switch raised by "on" and dropped by "off". */
  function Commands(log: seq<Logged>): (ss: seq<H.Signal>)
    ensures |ss| == |log|
  {
    seq(|log|, i requires 0 <= i < |log| => H.Signal(log[i].request == TurnOn, log[i].request != TurnOn))
  }

  predicate Exact(w: World) {
    && Safe(w, DIESEL)
    && (w.device.on || w.device.starting <==> HeldSince(w.log).Some?)
    && (w.device.starting ==> w.device.timer.value == HeldSince(w.log).value + DIESEL.startupDelayMs)
  }

  lemma DieselStepKeepsExact(w: World, e: Event)
    requires Exact(w)
    ensures Exact(Step(w, DIESEL, e))
  {
    StepKeepsSafe(w, DIESEL, e);
    if e.Put? {
      LogStep(w.log, Logged(RequestOf(e.payload), w.now));
    } else if e.Publish? {
      DieselReadingsAreNormal(w.device, e.draw);
    }
  }

  lemma {:induction false} HeldIsSwitch(log: seq<Logged>)
    ensures HeldSince(log).Some? == H.Run(false, Commands(log))
  {
    if log != [] {
      HeldIsSwitch(log[..|log| - 1]);
      assert Commands(log)[..|log| - 1] == Commands(log[..|log| - 1]);
    }
  }

  /** The diesel node is on or warming up exactly when some "on" has had no "off" since, so only an
      "off" stops it; and while it warms up its timer is due 40 s after the first such "on", however
      often the command was repeated. */
  lemma {:induction false} DieselFollowsCommands(start: int, es: seq<Event>)
    ensures var w := Run(DIESEL, start, es);
            && (w.device.on || w.device.starting <==> exists i: nat :: H.RaisedAndHeld(Commands(w.log), i))
            && (w.device.starting ==> w.device.timer.Some?
                                      && FirstOnAt(w.log, w.device.timer.value - DIESEL.startupDelayMs))
    ensures Exact(Run(DIESEL, start, es))
  {
    if es != [] {
      DieselFollowsCommands(start, es[..|es| - 1]);
      DieselStepKeepsExact(Run(DIESEL, start, es[..|es| - 1]), es[|es| - 1]);
    }
    var log := Run(DIESEL, start, es).log;
    HeldIsSwitch(log);
    H.PositionIsHistory(false, Commands(log));
    HeldSinceIsFirstOn(log);
  }
}
