/** The congestion controller of the cloud and the sensors it commands. A round visits a snapshot of
    the registered nodes; each request may be lost, or take effect with its reply lost, and a failed
    PUT ends the round. Sensors do not reboot and have no other writer. */
module Controller {
  import opened Common
  import opened Text
  import opened Sampling

  const CONGESTED_PUBLISH_INTERVAL_MS := 5000
  const ULONG_MAX := 0xFFFF_FFFF

  /** The delay state that a round sampled for a node. */
  datatype Verdict = Verdict(congested: bool, samples: nat)

  /** One registered node as a round meets it, and what becomes of the requests to it. */
  datatype Visit = Visit(node: string, battery: bool, verdict: Option<Verdict>, getAnswered: bool, put: Exchange)

  /** `_sensor_baseline_interval_ms`, `_sampling_interval_state`, the interval each node was built
      with and the interval each sensor has now. */
  datatype World = World(baseline: map<string, nat>, commanded: map<string, nat>,
                         boot: map<string, nat>, sensors: map<string, nat>)

  function Start(boot: map<string, nat>): World { World(map[], map[], boot, boot) }

  predicate Physical(w: World, id: string) { id in w.sensors && id in w.boot }

  function ControlOf(w: World, id: string): Control
    requires Physical(w, id)
  {
    Control(w.boot[id], w.sensors[id], false, false)
  }

  /** The sensor's interval after a PUT of `target` reaches it, and whether it answers 2.04. */
  function SensorPut(w: World, id: string, target: nat): (nat, bool)
    requires Physical(w, id)
  {
    var (c, ok) := PutSampling(ControlOf(w, id), Digits(target, 10), ULONG_MAX);
    (c.interval, ok)
  }

  /** Learn the baseline on the first visit. */
  function Learn(w: World, v: Visit): World {
    if v.node in w.baseline || !v.getAnswered || !Physical(w, v.node) then w else
      match ReadInt(GetSampling(ControlOf(w, v.node)))
      case None => w
      case Some(ms) => w.(baseline := w.baseline[v.node := ms])
  }

  /** Does the visit get as far as comparing a target with the last command? */
  predicate Decides(w: World, v: Visit) {
    !v.battery && v.node in w.baseline && v.verdict.Some? && v.verdict.value.samples >= 3
  }

  function Target(w: World, node: string, congested: bool): nat
    requires node in w.baseline
  {
    if congested then CONGESTED_PUBLISH_INTERVAL_MS else w.baseline[node]
  }

  predicate UpToDate(w: World, node: string, target: nat) {
    node in w.commanded && w.commanded[node] == target
  }

  /** The PUT: the world after it, and whether the cloud saw it succeed. A target of zero is refused
      before anything is sent. */
  function Command(w: World, v: Visit, target: nat): (World, bool) {
    if target == 0 || !Physical(w, v.node) || !v.put.TakesEffect() then (w, false) else
      var (ms, ok) := SensorPut(w, v.node, target);
      var reached := w.(sensors := w.sensors[v.node := ms]);
      if ok && v.put == Done then (reached.(commanded := w.commanded[v.node := target]), true) else (reached, false)
  }

  /** The target of the PUT that the visit brings to the sensor, if any. */
  function Sent(w: World, v: Visit): Option<nat> {
    var w1 := Learn(w, v);
    if !Decides(w1, v) then None else
      var target := Target(w1, v.node, v.verdict.value.congested);
      if UpToDate(w1, v.node, target) || target == 0 || !Physical(w1, v.node) || !v.put.TakesEffect() then None
      else Some(target)
  }

  datatype Outcome = Outcome(world: World, put: bool, abort: bool)

  function OnVisit(w: World, v: Visit): Outcome {
    if v.battery then Outcome(w, false, false) else
      var w1 := Learn(w, v);
      if !Decides(w1, v) then Outcome(w1, false, false) else
        var target := Target(w1, v.node, v.verdict.value.congested);
        if UpToDate(w1, v.node, target) then Outcome(w1, false, false) else
          var (w2, ok) := Command(w1, v, target);
          Outcome(w2, ok, !ok)
  }

  function Registered(vs: seq<Visit>): set<string> { set v | v in vs :: v.node }

  /** Forget what was commanded to nodes that are no longer registered. */
  function Forget(w: World, ids: set<string>): World {
    w.(commanded := map id | id in w.commanded && id in ids :: w.commanded[id])
  }

  function Visits(w: World, vs: seq<Visit>): World
    decreases |vs|
  {
    if vs == [] then w else
      var o := OnVisit(w, vs[0]);
      if o.abort then o.world else Visits(o.world, vs[1..])
  }

  function Round(w: World, vs: seq<Visit>): World { Visits(Forget(w, Registered(vs)), vs) }

  class CongestionMonitor {
    var samplingIntervalState: map<string, nat>
    var sensorBaselineIntervalMs: map<string, nat>

    constructor ()
      ensures samplingIntervalState == map[] && sensorBaselineIntervalMs == map[]
    {
      samplingIntervalState, sensorBaselineIntervalMs := map[], map[];
    }

    function Contents(boot: map<string, nat>, sensors: map<string, nat>): World
      reads this
    {
      World(sensorBaselineIntervalMs, samplingIntervalState, boot, sensors)
    }

    /** One round of `_monitor_network_congestion` over a snapshot of the registered nodes. */
    method MonitorRound(visits: seq<Visit>, boot: map<string, nat>, before: map<string, nat>)
      returns (sensors: map<string, nat>)
      modifies this
      ensures Contents(boot, sensors) == Round(old(Contents(boot, before)), visits)
    {
      sensors := before;
      var registered := Registered(visits);
      samplingIntervalState := map id | id in samplingIntervalState && id in registered :: samplingIntervalState[id];
      var i, failed := 0, false;
      assert visits[0..] == visits;
      while i < |visits| && !failed
        invariant 0 <= i <= |visits|
        invariant Round(old(Contents(boot, before)), visits)
                  == if failed then Contents(boot, sensors) else Visits(Contents(boot, sensors), visits[i..])
      {
        var v := visits[i];
        assert visits[i..][1..] == visits[i + 1..];
        i := i + 1;
        failed, sensors := VisitNode(v, boot, sensors);
      }
    }

    method VisitNode(v: Visit, boot: map<string, nat>, before: map<string, nat>)
      returns (failed: bool, sensors: map<string, nat>)
      modifies this
      ensures var o := OnVisit(old(Contents(boot, before)), v);
              Contents(boot, sensors) == o.world && failed == o.abort
    {
      hide ReadInt, GetSampling, PutSampling;
      failed, sensors := false, before;
      if v.battery {
        return;
      }
      if v.node !in sensorBaselineIntervalMs {
        if !v.getAnswered || v.node !in before || v.node !in boot {
          return;
        }
        var answer := ReadInt(GetSampling(Control(boot[v.node], before[v.node], false, false)));
        if answer == None {
          return;
        }
        sensorBaselineIntervalMs := sensorBaselineIntervalMs[v.node := answer.value];
      }
      if v.verdict == None || v.verdict.value.samples < 3 {
        return;
      }
      var target := if v.verdict.value.congested then CONGESTED_PUBLISH_INTERVAL_MS
                    else sensorBaselineIntervalMs[v.node];
      if v.node in samplingIntervalState && samplingIntervalState[v.node] == target {
        return;
      }
      failed := true;
      if target == 0 || v.node !in before || v.node !in boot || !v.put.TakesEffect() {
        return;
      }
      var (c, ok) := PutSampling(Control(boot[v.node], before[v.node], false, false), Digits(target, 10), ULONG_MAX);
      sensors := sensors[v.node := c.interval];
      if ok && v.put == Done {
        samplingIntervalState := samplingIntervalState[v.node := target];
        failed := false;
      }
    }
  }
}
