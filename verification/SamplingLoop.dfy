/** The closed sampling loop as one step system: packets raise or clear the congestion verdicts, rounds
    of the controller sample them and command the sensors, and the sensors' publishing processes take
    the new intervals up. A round's turns interleave with everything else; each of its requests may be
    lost, or take effect with its reply lost. Sensors do not reboot and have no other writer. */
module SamplingLoop {
  import opened Common
  import opened Text
  import opened Sampling
  import opened Controller
  import R = ControllerRuns
  import D = Delay
  import P = Publisher

  /** `sampled` is the round's snapshot of the delay state; `busy` says that a round is under way. */
  datatype Loop = Loop(tracker: D.Tracker, baseline: map<string, nat>, commanded: map<string, nat>,
                       boot: map<string, nat>, sensors: map<string, P.Process>,
                       sampled: map<string, Verdict>, busy: bool)

  datatype Event =
    | Arrives(packet: D.Packet)
    | BeginRound(registered: set<string>)
    | Turn(node: string, battery: bool, getAnswered: bool, put: Exchange)
    | Sensor(id: string, event: P.Event)

  function Start(boot: map<string, nat>): Loop {
    Loop(D.EMPTY, map[], map[], boot, map id | id in boot :: P.Boot(boot[id]), map[], false)
  }

  function Intervals(sensors: map<string, P.Process>): map<string, nat> {
    map id | id in sensors :: sensors[id].control.interval
  }

  /** What the controller and the sensors' intervals look like to the controller's own theorems. */
  function WorldOf(l: Loop): World { World(l.baseline, l.commanded, l.boot, Intervals(l.sensors)) }

  function Verdicts(t: D.Tracker): map<string, Verdict> {
    map id | id in t.states :: Verdict(t.states[id].congested, t.states[id].samples)
  }

  function VisitOf(l: Loop, e: Event): Visit
    requires e.Turn?
  {
    Visit(e.node, e.battery, if e.node in l.sampled then Some(l.sampled[e.node]) else None, e.getAnswered, e.put)
  }

  function SendTo(p: P.Process, target: nat, clockSecond: nat): P.Process {
    P.Step(p, P.Put(Digits(target, 10)), ULONG_MAX, clockSecond).0
  }

  function TakeTurn(l: Loop, v: Visit, clockSecond: nat): Loop {
    var w := WorldOf(l);
    var o := OnVisit(w, v);
    var sent := Sent(w, v);
    l.(baseline := o.world.baseline, commanded := o.world.commanded, busy := !o.abort,
       sensors := if sent.Some? && v.node in l.sensors
                  then l.sensors[v.node := SendTo(l.sensors[v.node], sent.value, clockSecond)] else l.sensors)
  }

  /** An event that is not possible in the present state changes nothing. */
  function Step(l: Loop, e: Event, clockSecond: nat): Loop {
    match e
    case Arrives(packet) => l.(tracker := D.Save(l.tracker, packet))
    case BeginRound(registered) =>
      l.(commanded := Forget(WorldOf(l), registered).commanded, sampled := Verdicts(l.tracker), busy := true)
    case Turn(_, _, _, _) => if l.busy then TakeTurn(l, VisitOf(l, e), clockSecond) else l
    case Sensor(id, event) =>
      if id in l.sensors && !event.Put?
      then l.(sensors := l.sensors[id := P.Step(l.sensors[id], event, ULONG_MAX, clockSecond).0]) else l
  }

  function Run(boot: map<string, nat>, es: seq<Event>, clockSecond: nat): Loop {
    if es == [] then Start(boot) else Step(Run(boot, es[..|es| - 1], clockSecond), es[|es| - 1], clockSecond)
  }

  // ---------- the parts keep their own theorems ----------

  /** Every process is sound, and was built with the interval that the controller may learn. */
  predicate Coupled(l: Loop, clockSecond: nat) {
    && l.sensors.Keys == l.boot.Keys
    && forall id :: id in l.sensors ==>
         P.Sound(l.sensors[id], clockSecond) && l.sensors[id].control.bootMs == l.boot[id]
  }

  /** A sensor's process turns a target into the interval that the controller's theorems say. */
  lemma SendToSets(p: P.Process, target: nat, clockSecond: nat)
    requires P.Sound(p, clockSecond)
    ensures var q := SendTo(p, target, clockSecond);
            && P.Sound(q, clockSecond) && q.control.bootMs == p.control.bootMs
            && q.control.interval == if 1 <= target <= 60000 then R.Capped(target) else p.control.interval
  {
    hide Requested, ToTicks;
    P.StepKeepsSound(p, P.Put(Digits(target, 10)), ULONG_MAX, clockSecond);
    RequestedOfDecimal(target, ULONG_MAX);
  }

  lemma SensorEventKeepsInterval(p: P.Process, e: P.Event, clockSecond: nat)
    requires P.Sound(p, clockSecond) && !e.Put?
    ensures var q := P.Step(p, e, ULONG_MAX, clockSecond).0;
            P.Sound(q, clockSecond) && q.control.bootMs == p.control.bootMs && q.control.interval == p.control.interval
  {
    hide ToTicks, KeepAliveSeconds, P.Successor;
    P.StepKeepsSound(p, e, ULONG_MAX, clockSecond);
  }

  /** The controller's own view of a visit, as far as the sensors go. */
  lemma VisitSends(w: World, v: Visit)
    ensures var o := OnVisit(w, v);
            && o.world.boot == w.boot
            && (Sent(w, v).Some? ==> Physical(w, v.node))
            && o.world.sensors == if Sent(w, v).Some?
                                  then w.sensors[v.node := SensorPut(w, v.node, Sent(w, v).value).0] else w.sensors
  {
    hide SensorPut;
    R.LearnValue(w, v);
    if Sent(w, v).Some? {
      R.SensorPutValue(w, v.node, Sent(w, v).value);
      R.SensorPutValue(Learn(w, v), v.node, Sent(w, v).value);
    }
  }

  /** A turn of the loop is a visit of the controller. */
  lemma TurnIsVisit(l: Loop, v: Visit, clockSecond: nat)
    requires Coupled(l, clockSecond)
    ensures Coupled(TakeTurn(l, v, clockSecond), clockSecond)
    ensures WorldOf(TakeTurn(l, v, clockSecond)) == OnVisit(WorldOf(l), v).world
  {
    hide OnVisit, Sent, SensorPut, P.Sound, SendTo;
    var w := WorldOf(l);
    VisitSends(w, v);
    if Sent(w, v).Some? {
      var target := Sent(w, v).value;
      SendToSets(l.sensors[v.node], target, clockSecond);
      R.SensorPutValue(w, v.node, target);
    }
    assert Intervals(TakeTurn(l, v, clockSecond).sensors) == OnVisit(w, v).world.sensors;
  }

  lemma {:induction false} StepKeepsCoupled(l: Loop, e: Event, clockSecond: nat)
    requires Coupled(l, clockSecond)
    ensures Coupled(Step(l, e, clockSecond), clockSecond)
  {
    hide P.Sound, P.Step, TakeTurn;
    if e.Turn? && l.busy {
      TurnIsVisit(l, VisitOf(l, e), clockSecond);
    } else if e.Sensor? && e.id in l.sensors && !e.event.Put? {
      SensorEventKeepsInterval(l.sensors[e.id], e.event, clockSecond);
    }
  }

  /** No reply to this node is lost without its request. */
  predicate AtomicFor(e: Event, id: string) { e.Turn? && e.node == id ==> e.put != ReplyLost }

  lemma {:induction false} StepKeepsTracks(l: Loop, e: Event, id: string, clockSecond: nat)
    requires Coupled(l, clockSecond) && R.Tracks(WorldOf(l), id)
    ensures R.Tracks(WorldOf(Step(l, e, clockSecond)), id) && Step(l, e, clockSecond).boot == l.boot
    ensures R.Agrees(WorldOf(l), id) && !R.Cut(l.boot[id]) && AtomicFor(e, id) ==>
              R.Agrees(WorldOf(Step(l, e, clockSecond)), id)
  {
    assert id in l.boot;
    hide P.Sound, P.Step, TakeTurn, R.Tracks, R.Agrees, OnVisit;
    match e
    case Arrives(_) =>
    case BeginRound(registered) => ForgetKeeps(WorldOf(l), registered, id);
    case Turn(_, _, _, _) =>
      if l.busy {
        var v := VisitOf(l, e);
        TurnIsVisit(l, v, clockSecond);
        R.VisitKeepsTracks(WorldOf(l), v, id);
        if R.Agrees(WorldOf(l), id) && !R.Cut(l.boot[id]) && AtomicFor(e, id) {
          VisitKeepsAgreementOf(WorldOf(l), v, id);
        }
        assert TakeTurn(l, v, clockSecond).boot == WorldOf(TakeTurn(l, v, clockSecond)).boot;
      }
    case Sensor(other, event) =>
      if other in l.sensors && !event.Put? {
        SensorEventKeepsInterval(l.sensors[other], event, clockSecond);
        assert Intervals(Step(l, e, clockSecond).sensors) == Intervals(l.sensors);
      }
  }

  lemma ForgetKeeps(w: World, registered: set<string>, id: string)
    requires R.Tracks(w, id)
    ensures R.Tracks(Forget(w, registered), id)
    ensures R.Agrees(w, id) ==> R.Agrees(Forget(w, registered), id)
  {
  }

  /** Other nodes' replies do not matter. */
  lemma VisitKeepsAgreementOf(w: World, v: Visit, id: string)
    requires R.Tracks(w, id) && R.Agrees(w, id) && !R.Cut(w.boot[id])
    requires v.node == id ==> v.put != ReplyLost
    ensures R.Agrees(OnVisit(w, v).world, id)
  {
    if v.node == id {
      hide OnVisit, R.Tracks;
      R.VisitKeepsAgreement(w, v, id);
    } else {
      hide SensorPut;
      R.LearnValue(w, v);
    }
  }

  predicate Atomic(es: seq<Event>, id: string) { forall i :: 0 <= i < |es| ==> AtomicFor(es[i], id) }

  function PacketsOf(es: seq<Event>): seq<D.Packet> {
    if es == [] then [] else
      var before := PacketsOf(es[..|es| - 1]);
      if es[|es| - 1].Arrives? then before + [es[|es| - 1].packet] else before
  }

  lemma TrackerOfPackets(h: seq<D.Packet>, p: D.Packet)
    ensures D.Run(h + [p]) == D.Save(D.Run(h), p)
  {
    assert (h + [p])[..|h|] == h;
  }

  /** In every run of the whole loop the tracker is that of the packets so far, every publishing process
      is sound, and the controller and the intervals are as the controller's theorems have them; and
      record and sensor agree as long as no reply is lost. */
  lemma {:induction false} RunKeepsParts(boot: map<string, nat>, es: seq<Event>, id: string, clockSecond: nat)
    requires id in boot
    ensures var l := Run(boot, es, clockSecond);
            && Coupled(l, clockSecond) && l.boot == boot && R.Tracks(WorldOf(l), id)
            && l.tracker == D.Run(PacketsOf(es))
            && (!R.Cut(boot[id]) && Atomic(es, id) ==> R.Agrees(WorldOf(l), id))
  {
    hide Step, Coupled, R.Tracks, R.Agrees, D.Save;
    if es == [] {
      StartKeepsParts(boot, id, clockSecond);
    } else {
      var before := es[..|es| - 1];
      var l := Run(boot, before, clockSecond);
      RunKeepsParts(boot, before, id, clockSecond);
      StepKeepsCoupled(l, es[|es| - 1], clockSecond);
      StepKeepsTracks(l, es[|es| - 1], id, clockSecond);
      StepKeepsTracker(l, es[|es| - 1], PacketsOf(before), clockSecond);
      assert Atomic(es, id) ==> Atomic(before, id) && AtomicFor(es[|es| - 1], id) by {
        assert forall i :: 0 <= i < |before| ==> before[i] == es[i];
      }
    }
  }

  lemma StartKeepsParts(boot: map<string, nat>, id: string, clockSecond: nat)
    requires id in boot
    ensures Coupled(Start(boot), clockSecond) && R.Tracks(WorldOf(Start(boot)), id)
            && R.Agrees(WorldOf(Start(boot)), id)
  {
  }

  lemma StepKeepsTracker(l: Loop, e: Event, h: seq<D.Packet>, clockSecond: nat)
    requires l.tracker == D.Run(h)
    ensures Step(l, e, clockSecond).tracker == D.Run(if e.Arrives? then h + [e.packet] else h)
  {
    hide D.Save, D.Run, OnVisit, P.Step, Sent, SendTo;
    if e.Arrives? {
      TrackerOfPackets(h, e.packet);
    }
  }

  // ---------- three samples first ----------

  /** How many packets of the node have arrived. */
  function Arrived(es: seq<Event>, id: string): nat { |D.Gaps(PacketsOf(es), id)| }

  /** The snapshot knows no more samples than packets, and until the third the node is left alone. */
  predicate Early(l: Loop, id: string, arrived: nat) {
    && (id in l.sampled ==> l.sampled[id].samples <= arrived)
    && id in l.sensors && id in l.boot
    && (arrived < 3 ==> l.sensors[id].control.interval == l.boot[id])
  }

  lemma ArrivedGrows(es: seq<Event>, id: string)
    requires es != []
    ensures Arrived(es[..|es| - 1], id) <= Arrived(es, id)
  {
    var h := PacketsOf(es[..|es| - 1]);
    if es[|es| - 1].Arrives? {
      assert (h + [es[|es| - 1].packet])[..|h|] == h;
    }
  }

  lemma SnapshotIsEarly(l: Loop, es: seq<Event>, id: string)
    requires l.tracker == D.Run(PacketsOf(es))
    ensures id in Verdicts(l.tracker) ==> Verdicts(l.tracker)[id].samples <= Arrived(es, id)
  {
    hide D.Run, D.Gaps, D.Delays, D.LastFive, D.Sum;
    D.StateIsHistory(PacketsOf(es), id);
  }

  lemma {:induction false} StepKeepsEarly(l: Loop, e: Event, id: string, arrived: nat, clockSecond: nat)
    requires Coupled(l, clockSecond) && Early(l, id, arrived)
    requires e.BeginRound? ==> id in Verdicts(l.tracker) ==> Verdicts(l.tracker)[id].samples <= arrived
    ensures Early(Step(l, e, clockSecond), id, arrived)
  {
    hide P.Sound, P.Step, OnVisit, Sent, SendTo, D.Save, Verdicts;
    if e.Turn? && l.busy && e.node == id {
      if arrived < 3 {
        var v := VisitOf(l, e);
        TurnIsVisit(l, v, clockSecond);
        R.UndecidedVisit(WorldOf(l), v);
        SameIntervals(l, TakeTurn(l, v, clockSecond), id);
      }
    } else if !(e.Turn? && e.node == id) {
      OtherTurnKeepsInterval(l, e, id, clockSecond);
    }
  }

  lemma SameIntervals(l: Loop, l': Loop, id: string)
    requires WorldOf(l').sensors == WorldOf(l).sensors && id in l.sensors
    ensures id in l'.sensors && l'.sensors[id].control.interval == l.sensors[id].control.interval
  {
    assert id in Intervals(l.sensors) && id in Intervals(l'.sensors);
    assert Intervals(l.sensors)[id] == l.sensors[id].control.interval;
    assert Intervals(l'.sensors)[id] == l'.sensors[id].control.interval;
  }

  /** In every run, as long as fewer than three packets of a node have arrived, it keeps the interval it was
      built with, however slow the two were. */
  lemma {:induction false} NoCommandBeforeThreePackets(boot: map<string, nat>, es: seq<Event>, id: string,
                                                       clockSecond: nat)
    requires id in boot
    ensures var l := Run(boot, es, clockSecond);
            id in l.sensors && (Arrived(es, id) < 3 ==> l.sensors[id].control.interval == boot[id])
    ensures Early(Run(boot, es, clockSecond), id, Arrived(es, id))
  {
    hide Step, Coupled, Arrived, D.Run, R.Tracks, R.Agrees, WorldOf, Verdicts;
    RunKeepsParts(boot, es, id, clockSecond);
    if es != [] {
      var before := es[..|es| - 1];
      var l := Run(boot, before, clockSecond);
      NoCommandBeforeThreePackets(boot, before, id, clockSecond);
      RunKeepsParts(boot, before, id, clockSecond);
      ArrivedGrows(es, id);
      SnapshotIsEarly(l, before, id);
      StepKeepsEarly(l, es[|es| - 1], id, Arrived(before, id), clockSecond);
      EarlyGrows(Run(boot, es, clockSecond), id, Arrived(before, id), Arrived(es, id));
    }
  }

  lemma EarlyGrows(l: Loop, id: string, a: nat, b: nat)
    requires Early(l, id, a) && a <= b
    ensures Early(l, id, b)
  {
  }

  // ---------- from delays to the publish timer ----------

  /** The recent delays of a node after these events, at most five of them. */
  function RecentDelays(es: seq<Event>, id: string): seq<int> {
    D.LastFive(D.Delays(D.Gaps(PacketsOf(es), id)))
  }

  /** What the controller wants of the node after these delays. */
  function Wanted(recent: seq<int>, bootMs: nat): nat {
    if D.Sum(recent) > 400 * |recent| then CONGESTED_PUBLISH_INTERVAL_MS else bootMs
  }

  /** The snapshot that a round starts with tells the verdict on the recent delays. */
  lemma SnapshotIsRecent(l: Loop, es: seq<Event>, id: string, registered: set<string>, clockSecond: nat)
    requires l.tracker == D.Run(PacketsOf(es)) && |RecentDelays(es, id)| >= 3
    ensures var l' := Step(l, BeginRound(registered), clockSecond);
            var recent := RecentDelays(es, id);
            id in l'.sampled && l'.sampled[id] == Verdict(D.Sum(recent) > 400 * |recent|, |recent|)
  {
    hide D.Run, D.Delays, D.Gaps, D.Sum, D.LastFive;
    D.StateIsHistory(PacketsOf(es), id);
    NoGapsNoDelays(PacketsOf(es), id);
  }

  lemma NoGapsNoDelays(h: seq<D.Packet>, id: string)
    ensures D.Gaps(h, id) == [] ==> D.LastFive(D.Delays(D.Gaps(h, id))) == []
  {
    D.NoDelays();
  }

  /** A turn that gets through: the node is no battery, its baseline is known or answered, and its PUT,
      if there is one, succeeds. */
  predicate GetsThrough(l: Loop, e: Event) {
    && l.busy && e.Turn? && !e.battery && e.put == Done
    && (e.node in l.baseline || e.getAnswered)
  }

  /** The controller sends nothing, because it believes that the node has the target already, or nothing
      that the node accepts. */
  predicate Ignored(w: World, id: string, target: nat) {
    UpToDate(w, id, target) || target == 0 || target > 60000
  }

  /** Such a turn leaves the sensor with the target, cut to 15 s, unless it is ignored. */
  lemma VisitSetsTarget(w: World, v: Visit)
    requires R.Tracks(w, v.node)
    requires !v.battery && v.put == Done && (v.node in w.baseline || v.getAnswered)
    requires v.verdict.Some? && v.verdict.value.samples >= 3
    ensures var o := OnVisit(w, v);
            var target := if v.verdict.value.congested then CONGESTED_PUBLISH_INTERVAL_MS else w.boot[v.node];
            && v.node in o.world.sensors
            && o.world.sensors[v.node] == if Ignored(w, v.node, target) then w.sensors[v.node] else R.Capped(target)
  {
    hide SensorPut;
    R.LearnValue(w, v);
    var w1 := Learn(w, v);
    R.SensorPutValue(w1, v.node, Target(w1, v.node, v.verdict.value.congested));
  }

  /** No turn in these events concerns the node. */
  predicate LeavesAlone(es: seq<Event>, id: string) {
    forall i :: 0 <= i < |es| ==> !(es[i].Turn? && es[i].node == id)
  }

  lemma OtherTurnKeepsInterval(l: Loop, e: Event, id: string, clockSecond: nat)
    requires Coupled(l, clockSecond) && id in l.sensors && !(e.Turn? && e.node == id)
    ensures var l' := Step(l, e, clockSecond);
            id in l'.sensors && l'.sensors[id].control.interval == l.sensors[id].control.interval
    ensures Coupled(Step(l, e, clockSecond), clockSecond)
  {
    hide P.Sound, P.Step, OnVisit, Sent, SendTo, P.Successor;
    StepKeepsCoupled(l, e, clockSecond);
    if e.Sensor? && e.id == id && !e.event.Put? {
      SensorEventKeepsInterval(l.sensors[id], e.event, clockSecond);
    }
  }

  function Continue(l: Loop, es: seq<Event>, clockSecond: nat): Loop {
    if es == [] then l else Step(Continue(l, es[..|es| - 1], clockSecond), es[|es| - 1], clockSecond)
  }

  lemma {:induction false} OthersKeepInterval(l: Loop, es: seq<Event>, id: string, clockSecond: nat)
    requires Coupled(l, clockSecond) && id in l.sensors && LeavesAlone(es, id)
    ensures var l' := Continue(l, es, clockSecond);
            && Coupled(l', clockSecond) && id in l'.sensors
            && l'.sensors[id].control.interval == l.sensors[id].control.interval
  {
    hide Step, Coupled;
    if es != [] {
      var before := es[..|es| - 1];
      assert LeavesAlone(before, id) by {
        assert forall i :: 0 <= i < |before| ==> before[i] == es[i];
      }
      OthersKeepInterval(l, before, id, clockSecond);
      OtherTurnKeepsInterval(Continue(l, before, clockSecond), es[|es| - 1], id, clockSecond);
    }
  }

  /** The node's timer runs, or its process is still to be polled, on this interval. */
  predicate PublishesAt(p: P.Process, ms: nat, clockSecond: nat) {
    && p.control.interval == ms
    && (p.mqtt.CONNECTED? && !p.control.poll && p.armed.Publish? ==> p.armed.ticks == ToTicks(ms, clockSecond))
    && (p.mqtt.CONNECTED? && p.control.dirty ==> p.control.poll)
  }

  lemma SoundPublishes(p: P.Process, clockSecond: nat)
    requires P.Sound(p, clockSecond)
    ensures PublishesAt(p, p.control.interval, clockSecond)
  {
    hide ToTicks;
  }

  /** Delivering the poll to a connected process that has a new interval puts it into force. */
  lemma PollPutsIntoForce(p: P.Process, ms: nat, connectivity: bool, ready: bool, clockSecond: nat)
    requires PublishesAt(p, ms, clockSecond) && p.mqtt.CONNECTED? && p.control.dirty
    ensures P.Step(p, P.Resume(true, connectivity, ready), ULONG_MAX, clockSecond).0.armed
            == P.Publish(ToTicks(ms, clockSecond))
  {
    hide ToTicks;
  }

  /** A round is under way from its start until one of its turns fails to get its PUT through. */
  lemma BusyUntilFailure(l: Loop, e: Event, clockSecond: nat)
    ensures Step(l, e, clockSecond).busy <==>
            e.BeginRound? || (l.busy && !(e.Turn? && OnVisit(WorldOf(l), VisitOf(l, e)).abort))
  {
    hide OnVisit, Sent, SendTo, P.Step, D.Save;
  }

  predicate NoTurnFails(l: Loop, es: seq<Event>, clockSecond: nat) {
    es != [] ==>
      var before := Continue(l, es[..|es| - 1], clockSecond);
      var e := es[|es| - 1];
      && NoTurnFails(l, es[..|es| - 1], clockSecond)
      && !(e.Turn? && OnVisit(WorldOf(before), VisitOf(before, e)).abort)
  }

  /** So the round that a node's turn is to get through is under way unless an earlier turn has failed. */
  lemma {:induction false} RoundIsUnderWay(l: Loop, registered: set<string>, mid: seq<Event>, clockSecond: nat)
    requires NoTurnFails(Step(l, BeginRound(registered), clockSecond), mid, clockSecond)
    ensures Continue(Step(l, BeginRound(registered), clockSecond), mid, clockSecond).busy
  {
    hide Step, OnVisit, WorldOf;
    BusyUntilFailure(l, BeginRound(registered), clockSecond);
    if mid != [] {
      var before := mid[..|mid| - 1];
      RoundIsUnderWay(l, registered, before, clockSecond);
      var m := Continue(Step(l, BeginRound(registered), clockSecond), before, clockSecond);
      BusyUntilFailure(m, mid[|mid| - 1], clockSecond);
    }
  }

  predicate NoRoundBegins(es: seq<Event>) { forall i :: 0 <= i < |es| ==> !es[i].BeginRound? }

  lemma OnlyRoundsSample(l: Loop, e: Event, clockSecond: nat)
    requires !e.BeginRound?
    ensures Step(l, e, clockSecond).sampled == l.sampled
  {
    hide OnVisit, Sent, SendTo, P.Step, D.Save;
  }

  /** What the rest of a round leaves as it was. */
  lemma {:induction false} RoundGoesOn(l: Loop, es: seq<Event>, id: string, clockSecond: nat)
    requires Coupled(l, clockSecond) && R.Tracks(WorldOf(l), id) && NoRoundBegins(es)
    ensures var l' := Continue(l, es, clockSecond);
            && Coupled(l', clockSecond) && R.Tracks(WorldOf(l'), id)
            && l'.sampled == l.sampled && l'.boot == l.boot
            && (R.Agrees(WorldOf(l), id) && id in l.boot && !R.Cut(l.boot[id]) && Atomic(es, id) ==>
                  R.Agrees(WorldOf(l'), id))
  {
    hide Step, Coupled, R.Tracks, R.Agrees, WorldOf;
    if es != [] {
      var before := es[..|es| - 1];
      var e := es[|es| - 1];
      assert NoRoundBegins(before) && (Atomic(es, id) ==> Atomic(before, id) && AtomicFor(e, id)) by {
        assert forall i :: 0 <= i < |before| ==> before[i] == es[i];
      }
      RoundGoesOn(l, before, id, clockSecond);
      var m := Continue(l, before, clockSecond);
      StepKeepsCoupled(m, e, clockSecond);
      TracksHasBoot(m, id);
      StepKeepsTracks(m, e, id, clockSecond);
      OnlyRoundsSample(m, e, clockSecond);
    }
  }

  lemma TracksHasBoot(l: Loop, id: string)
    requires R.Tracks(WorldOf(l), id)
    ensures id in l.boot && id in l.sensors
  {
  }

  lemma TurnSetsTarget(l: Loop, turn: Event, clockSecond: nat)
    requires Coupled(l, clockSecond) && GetsThrough(l, turn) && R.Tracks(WorldOf(l), turn.node)
    requires turn.node in l.sampled && l.sampled[turn.node].samples >= 3
    ensures var l' := Step(l, turn, clockSecond);
            var target := if l.sampled[turn.node].congested then CONGESTED_PUBLISH_INTERVAL_MS else l.boot[turn.node];
            && Coupled(l', clockSecond) && turn.node in l'.sensors && turn.node in l.sensors
            && l'.sensors[turn.node].control.interval ==
               if Ignored(WorldOf(l), turn.node, target) then l.sensors[turn.node].control.interval
               else R.Capped(target)
  {
    var v := VisitOf(l, turn);
    VisitSetsTarget(WorldOf(l), v);
    hide OnVisit, R.Tracks, P.Sound;
    TurnIsVisit(l, v, clockSecond);
    var l' := Step(l, turn, clockSecond);
    assert WorldOf(l').sensors == Intervals(l'.sensors);
  }

  /** The loop when the turn comes: a round began after `es`, and `mid` happened since. */
  function AtTurn(boot: map<string, nat>, es: seq<Event>, registered: set<string>, mid: seq<Event>,
                  clockSecond: nat): Loop
  {
    Continue(Step(Run(boot, es, clockSecond), BeginRound(registered), clockSecond), mid, clockSecond)
  }

  lemma AtTurnKeepsParts(boot: map<string, nat>, es: seq<Event>, registered: set<string>, mid: seq<Event>,
                         id: string, clockSecond: nat)
    requires id in boot && NoRoundBegins(mid) && |RecentDelays(es, id)| >= 3
    ensures var l := AtTurn(boot, es, registered, mid, clockSecond);
            var recent := RecentDelays(es, id);
            && Coupled(l, clockSecond) && R.Tracks(WorldOf(l), id) && l.boot == boot && id in l.sensors
            && id in l.sampled && l.sampled[id] == Verdict(D.Sum(recent) > 400 * |recent|, |recent|)
            && (!R.Cut(boot[id]) && Atomic(es, id) && Atomic(mid, id) ==> R.Agrees(WorldOf(l), id))
  {
    hide Run, D.Run, Step, Coupled, R.Tracks, R.Agrees, RecentDelays, D.Sum, WorldOf, Continue;
    var l0 := Run(boot, es, clockSecond);
    var begin := BeginRound(registered);
    RunKeepsParts(boot, es, id, clockSecond);
    SnapshotIsRecent(l0, es, id, registered, clockSecond);
    StepKeepsCoupled(l0, begin, clockSecond);
    StepKeepsTracks(l0, begin, id, clockSecond);
    RoundGoesOn(Step(l0, begin, clockSecond), mid, id, clockSecond);
    TracksHasBoot(Continue(Step(l0, begin, clockSecond), mid, clockSecond), id);
  }

  /** End to end, in every run, whatever was lost in it: let at least three delays of a node be known when
      a round begins, and let the node's turn get through, whatever happens in between. From then until
      its next turn, whatever else happens, the node publishes at the target of its recent delays, cut to
      15 s, unless the controller sends it nothing while it has another interval. The target is 5000 ms if
      the last five delays averaged more than 400 ms, and otherwise the interval the node was built with. */
  lemma DelaysSetThePublishTimer(boot: map<string, nat>, es: seq<Event>, registered: set<string>, mid: seq<Event>,
                                 turn: Event, more: seq<Event>, id: string, clockSecond: nat)
    requires id in boot && |RecentDelays(es, id)| >= 3 && NoRoundBegins(mid)
    requires turn.Turn? && turn.node == id
    requires GetsThrough(AtTurn(boot, es, registered, mid, clockSecond), turn)
    requires LeavesAlone(more, id)
    ensures var l := AtTurn(boot, es, registered, mid, clockSecond);
            var l' := Continue(Step(l, turn, clockSecond), more, clockSecond);
            var target := Wanted(RecentDelays(es, id), boot[id]);
            && id in l.sensors && id in l'.sensors
            && (PublishesAt(l'.sensors[id], R.Capped(target), clockSecond) <==>
                  !(Ignored(WorldOf(l), id, target) && l.sensors[id].control.interval != R.Capped(target)))
  {
    hide AtTurn, Step, D.Sum, RecentDelays, R.Tracks, R.Agrees, GetsThrough, WorldOf, PublishesAt, Ignored;
    var l := AtTurn(boot, es, registered, mid, clockSecond);
    AtTurnKeepsParts(boot, es, registered, mid, id, clockSecond);
    TurnSetsTarget(l, turn, clockSecond);
    var l1 := Step(l, turn, clockSecond);
    OthersKeepInterval(l1, more, id, clockSecond);
    var p := Continue(l1, more, clockSecond).sensors[id];
    SoundPublishes(p, clockSecond);
    PublishesAtOne(p, R.Capped(Wanted(RecentDelays(es, id), boot[id])), clockSecond);
  }

  lemma PublishesAtOne(p: P.Process, ms: nat, clockSecond: nat)
    ensures PublishesAt(p, ms, clockSecond) ==> p.control.interval == ms
  {
  }

  /** So a node built to publish at most every 15 s always follows its delays, as long as no reply to it
      was lost alone. */
  lemma DelaysSetThePublishTimerWithoutLosses(boot: map<string, nat>, es: seq<Event>, registered: set<string>,
                                              mid: seq<Event>, turn: Event, more: seq<Event>, id: string,
                                              clockSecond: nat)
    requires id in boot && |RecentDelays(es, id)| >= 3 && NoRoundBegins(mid)
    requires turn.Turn? && turn.node == id
    requires GetsThrough(AtTurn(boot, es, registered, mid, clockSecond), turn)
    requires LeavesAlone(more, id)
    requires 1 <= boot[id] <= STRESSED_INTERVAL_MS && Atomic(es, id) && Atomic(mid, id)
    ensures var l := AtTurn(boot, es, registered, mid, clockSecond);
            var l' := Continue(Step(l, turn, clockSecond), more, clockSecond);
            id in l'.sensors && PublishesAt(l'.sensors[id], Wanted(RecentDelays(es, id), boot[id]), clockSecond)
  {
    hide AtTurn, Step, D.Sum, RecentDelays, GetsThrough, PublishesAt, P.Sound, Continue;
    AtTurnKeepsParts(boot, es, registered, mid, id, clockSecond);
    DelaysSetThePublishTimer(boot, es, registered, mid, turn, more, id, clockSecond);
  }
}
