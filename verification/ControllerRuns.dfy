/** Agreement between the congestion controller and the sensors over whole runs, exactly when it
    holds, and how few commands a run can contain. */
module ControllerRuns {
  import opened Common
  import opened Text
  import opened Sampling
  import opened Controller

  function Run(w: World, rounds: seq<seq<Visit>>): World {
    if rounds == [] then w else Round(Run(w, rounds[..|rounds| - 1]), rounds[|rounds| - 1])
  }

  function Capped(ms: nat): nat { if ms > STRESSED_INTERVAL_MS then STRESSED_INTERVAL_MS else ms }

  lemma SensorPutValue(w: World, id: string, target: nat)
    requires Physical(w, id)
    ensures SensorPut(w, id, target) == if 1 <= target <= 60000 then (Capped(target), true) else (w.sensors[id], false)
  {
    hide Requested;
    RequestedOfDecimal(target, ULONG_MAX);
  }

  lemma LearnValue(w: World, v: Visit)
    ensures Learn(w, v) == if v.node in w.baseline || !v.getAnswered || !Physical(w, v.node) then w
                           else w.(baseline := w.baseline[v.node := w.sensors[v.node]])
  {
    hide Value;
    if Physical(w, v.node) {
      DigitsRoundTrip(w.sensors[v.node], 10);
    }
  }

  // ---------- what one visit does ----------

  /** A battery node, one without a delay state, with fewer than three samples or without a baseline is not
      commanded: no record and no sensor changes and the round goes on. */
  lemma UndecidedVisit(w: World, v: Visit)
    requires || v.battery || v.verdict == None || v.verdict.value.samples < 3
             || (v.node !in w.baseline && !v.getAnswered)
    ensures var o := OnVisit(w, v);
            && o.world.commanded == w.commanded && o.world.sensors == w.sensors && o.world.boot == w.boot
            && !o.put && !o.abort
            && (v.battery ==> o.world == w)
  {
    hide ReadInt, GetSampling, SensorPut;
  }

  /** The first visit of a producer whose GET is answered learns its present interval as baseline; a known
      baseline is kept; and no other node's is touched. */
  lemma VisitLearns(w: World, v: Visit)
    requires !v.battery
    ensures OnVisit(w, v).world.baseline ==
            if v.node !in w.baseline && v.getAnswered && v.node in w.sensors && v.node in w.boot
            then w.baseline[v.node := w.sensors[v.node]] else w.baseline
  {
    hide SensorPut;
    LearnValue(w, v);
  }

  /** With three samples and a known baseline the visit commands 5000 ms if the node is congested, and its
      baseline if not, unless that is what it commanded last. A PUT that takes effect sets the sensor, cut
      to 15 s; the record follows, and the round goes on, only if its success is seen. */
  lemma DecidedVisit(w: World, v: Visit)
    requires !v.battery && v.node in w.sensors && v.node in w.boot
    requires v.node in w.baseline || v.getAnswered
    requires v.verdict.Some? && v.verdict.value.samples >= 3
    ensures var o := OnVisit(w, v);
            var baseline := if v.node in w.baseline then w.baseline[v.node] else w.sensors[v.node];
            var target := if v.verdict.value.congested then 5000 else baseline;
            var known := v.node in w.commanded && w.commanded[v.node] == target;
            var accepted := 1 <= target <= 60000;
            && o.world.sensors == (if !known && accepted && v.put.TakesEffect()
                                   then w.sensors[v.node := Capped(target)] else w.sensors)
            && o.world.commanded == (if !known && accepted && v.put == Done
                                     then w.commanded[v.node := target] else w.commanded)
            && (o.put <==> !known && accepted && v.put == Done)
            && (o.abort <==> !known && !(accepted && v.put == Done))
  {
    hide SensorPut;
    LearnValue(w, v);
    var w1 := Learn(w, v);
    var target := Target(w1, v.node, v.verdict.value.congested);
    SensorPutValue(w1, v.node, target);
    assert v.node in w.commanded && w.commanded[v.node] == target ==> w.commanded[v.node := target] == w.commanded;
    SetSame(w.sensors, v.node);
  }

  lemma SetSame(m: map<string, nat>, id: string)
    requires id in m
    ensures m[id := m[id]] == m
  {
  }

  // ---------- what the sensors can be set to ----------

  /** The baseline is the boot interval; no command precedes it; the sensor has its boot interval,
      that interval cut to 15 s, or the congested one. */
  predicate Tracks(w: World, id: string) {
    && Physical(w, id)
    && (id !in w.baseline ==> w.sensors[id] == w.boot[id] && id !in w.commanded)
    && (id in w.baseline ==> w.baseline[id] == w.boot[id])
    && w.sensors[id] in {w.boot[id], Capped(w.boot[id]), CONGESTED_PUBLISH_INTERVAL_MS}
    && (id in w.commanded ==> w.commanded[id] in {w.boot[id], CONGESTED_PUBLISH_INTERVAL_MS}
                              && 1 <= w.commanded[id] <= 60000)
  }

  lemma VisitKeepsTracks(w: World, v: Visit, id: string)
    requires Tracks(w, id)
    ensures Tracks(OnVisit(w, v).world, id) && OnVisit(w, v).world.boot == w.boot
  {
    hide Learn, SensorPut;
    LearnValue(w, v);
    var w1 := Learn(w, v);
    if Physical(w1, v.node) && Decides(w1, v) {
      SensorPutValue(w1, v.node, Target(w1, v.node, v.verdict.value.congested));
    }
  }

  lemma {:induction false} VisitsKeepTracks(w: World, vs: seq<Visit>, id: string)
    requires Tracks(w, id)
    ensures Tracks(Visits(w, vs), id) && Visits(w, vs).boot == w.boot
    decreases |vs|
  {
    hide OnVisit, Tracks;
    if vs != [] {
      VisitKeepsTracks(w, vs[0], id);
      if !OnVisit(w, vs[0]).abort {
        VisitsKeepTracks(OnVisit(w, vs[0]).world, vs[1..], id);
      }
    }
  }

  lemma {:induction false} RunKeepsTracks(boot: map<string, nat>, rounds: seq<seq<Visit>>, id: string)
    requires id in boot
    ensures Tracks(Run(Start(boot), rounds), id) && Run(Start(boot), rounds).boot == boot
  {
    if rounds != [] {
      var before := rounds[..|rounds| - 1];
      var vs := rounds[|rounds| - 1];
      RunKeepsTracks(boot, before, id);
      VisitsKeepTracks(Forget(Run(Start(boot), before), Registered(vs)), vs, id);
    }
  }

  /** Whatever is lost, a learned baseline is the boot interval, and the sensor has that interval
      (cut to 15 s if it is longer) or the congested one. */
  lemma SensorHasBootOrCongestedInterval(boot: map<string, nat>, rounds: seq<seq<Visit>>, id: string)
    requires id in boot
    ensures var w := Run(Start(boot), rounds);
            && (id in w.baseline ==> w.baseline[id] == boot[id])
            && id in w.sensors && w.sensors[id] in {boot[id], Capped(boot[id]), CONGESTED_PUBLISH_INTERVAL_MS}
            && (boot[id] <= STRESSED_INTERVAL_MS ==> w.sensors[id] in {boot[id], CONGESTED_PUBLISH_INTERVAL_MS})
  {
    RunKeepsTracks(boot, rounds, id);
  }

  // ---------- agreement ----------

  /** An entry of `_sampling_interval_state` is the sensor's interval. */
  predicate Agrees(w: World, id: string) {
    id in w.commanded && id in w.sensors ==> w.commanded[id] == w.sensors[id]
  }

  /** No reply is lost without its request. */
  predicate Atomic(rounds: seq<seq<Visit>>) {
    forall r, i :: 0 <= r < |rounds| && 0 <= i < |rounds[r]| ==> rounds[r][i].put != ReplyLost
  }

  predicate AtomicRound(vs: seq<Visit>) { forall i :: 0 <= i < |vs| ==> vs[i].put != ReplyLost }

  /** The sensor would cut this interval, and still answer that it took it. */
  predicate Cut(ms: nat) { STRESSED_INTERVAL_MS < ms <= 60000 }

  lemma VisitKeepsAgreement(w: World, v: Visit, id: string)
    requires Tracks(w, id) && Agrees(w, id) && !Cut(w.boot[id])
    requires v.put != ReplyLost || w.boot[id] == 0 || w.boot[id] > 60000 || w.boot[id] == CONGESTED_PUBLISH_INTERVAL_MS
    ensures Agrees(OnVisit(w, v).world, id)
  {
    hide Learn, SensorPut;
    LearnValue(w, v);
    var w1 := Learn(w, v);
    if Physical(w1, v.node) && Decides(w1, v) {
      SensorPutValue(w1, v.node, Target(w1, v.node, v.verdict.value.congested));
    }
  }

  lemma {:induction false} VisitsKeepAgreement(w: World, vs: seq<Visit>, id: string)
    requires Tracks(w, id) && Agrees(w, id) && !Cut(w.boot[id])
    requires AtomicRound(vs) || w.boot[id] == 0 || w.boot[id] > 60000 || w.boot[id] == CONGESTED_PUBLISH_INTERVAL_MS
    ensures Agrees(Visits(w, vs), id)
    decreases |vs|
  {
    hide OnVisit, Agrees;
    if vs != [] {
      VisitKeepsTracks(w, vs[0], id);
      VisitKeepsAgreement(w, vs[0], id);
      if !OnVisit(w, vs[0]).abort {
        assert AtomicRound(vs) ==> AtomicRound(vs[1..]);
        VisitsKeepAgreement(OnVisit(w, vs[0]).world, vs[1..], id);
      }
    }
  }

  lemma {:induction false} RunKeepsAgreement(boot: map<string, nat>, rounds: seq<seq<Visit>>, id: string)
    requires id in boot && !Cut(boot[id])
    requires Atomic(rounds) || boot[id] == 0 || boot[id] > 60000 || boot[id] == CONGESTED_PUBLISH_INTERVAL_MS
    ensures Agrees(Run(Start(boot), rounds), id)
  {
    if rounds != [] {
      var before := rounds[..|rounds| - 1];
      var vs := rounds[|rounds| - 1];
      assert Atomic(rounds) ==> Atomic(before) && AtomicRound(vs) by {
        assert forall r :: 0 <= r < |before| ==> before[r] == rounds[r];
      }
      RunKeepsAgreement(boot, before, id);
      RunKeepsTracks(boot, before, id);
      var w := Forget(Run(Start(boot), before), Registered(vs));
      assert Tracks(w, id) && Agrees(w, id);
      VisitsKeepAgreement(w, vs, id);
    }
  }

  // ---------- the exact conditions ----------

  function Ask(id: string, congested: bool, put: Exchange): seq<Visit> {
    [Visit(id, false, Some(Verdict(congested, 3)), true, put)]
  }

  lemma AskRound(w: World, id: string, congested: bool, put: Exchange)
    requires Tracks(w, id)
    ensures var base := if id in w.baseline then w else w.(baseline := w.baseline[id := w.boot[id]]);
            var target := if congested then CONGESTED_PUBLISH_INTERVAL_MS else w.boot[id];
            var w' := Round(w, Ask(id, congested, put));
            Tracks(w', id) && w'.boot == w.boot
            && (!UpToDate(w, id, target) && 1 <= target <= 60000 && put.TakesEffect() ==>
                  && w'.sensors == w.sensors[id := Capped(target)]
                  && (put == Done ==> UpToDate(w', id, target))
                  && (put != Done ==> (id in w'.commanded <==> id in w.commanded)
                                      && (id in w.commanded ==> w'.commanded[id] == w.commanded[id])))
  {
    hide Learn, SensorPut;
    var vs := Ask(id, congested, put);
    var w0 := Forget(w, Registered(vs));
    assert vs[0] in vs;
    assert id in Registered(vs);
    LearnValue(w0, vs[0]);
    var w1 := Learn(w0, vs[0]);
    SensorPutValue(w1, id, if congested then CONGESTED_PUBLISH_INTERVAL_MS else w.boot[id]);
    VisitsKeepTracks(w0, vs, id);
    assert Visits(w0, vs) == OnVisit(w0, vs[0]).world;
  }

  lemma RunOfOne(w: World, vs: seq<Visit>)
    ensures Run(w, [vs]) == Round(w, vs)
  {
    assert [vs][..0] == [];
    assert Run(w, []) == w;
  }

  /** A boot interval above 15 s that the sensor accepts breaks the agreement at the first command. */
  lemma CutBreaksAgreement(boot: map<string, nat>, id: string)
    requires id in boot && Cut(boot[id])
    ensures var rounds := [Ask(id, false, Done)];
            Atomic(rounds) && !Agrees(Run(Start(boot), rounds), id)
  {
    var rounds := [Ask(id, false, Done)];
    RunOfOne(Start(boot), Ask(id, false, Done));
    assert Tracks(Start(boot), id);
    AskRound(Start(boot), id, false, Done);
  }

  /** While requests are atomic, the controller agrees with the sensor in every run if and only if
      the boot interval is not one that the sensor cuts: at most 15 s, or so large that it is refused. */
  lemma AtomicAgreementIff(boot: map<string, nat>, id: string)
    requires id in boot
    ensures !Cut(boot[id]) <==>
            forall rounds: seq<seq<Visit>> :: Atomic(rounds) ==> Agrees(Run(Start(boot), rounds), id)
  {
    if Cut(boot[id]) {
      CutBreaksAgreement(boot, id);
    } else {
      forall rounds: seq<seq<Visit>> | Atomic(rounds) ensures Agrees(Run(Start(boot), rounds), id) {
        RunKeepsAgreement(boot, rounds, id);
      }
    }
  }

  /** The commands of a congested and a recovered phase, the second with its reply lost. */
  function LostRecovery(id: string): seq<seq<Visit>> { [Ask(id, true, Done), Ask(id, false, ReplyLost)] }

  lemma LostReplyBreaksAgreement(boot: map<string, nat>, id: string)
    requires id in boot && 1 <= boot[id] <= 60000 && boot[id] != CONGESTED_PUBLISH_INTERVAL_MS
    ensures var w := Run(Start(boot), LostRecovery(id));
            && Tracks(w, id) && w.sensors[id] == Capped(boot[id])
            && UpToDate(w, id, CONGESTED_PUBLISH_INTERVAL_MS) && !Agrees(w, id)
  {
    hide Round;
    var rounds := LostRecovery(id);
    assert Tracks(Start(boot), id);
    AskRound(Start(boot), id, true, Done);
    RunOfOne(Start(boot), Ask(id, true, Done));
    var w := Run(Start(boot), [Ask(id, true, Done)]);
    assert rounds[..1] == [Ask(id, true, Done)];
    AskRound(w, id, false, ReplyLost);
  }

  /** When replies can be lost, the controller agrees with the sensor in every run if and only if
      the node has nothing to recover to: it was built with the congested interval itself, or with
      one that can never be commanded. */
  lemma LossyAgreementIff(boot: map<string, nat>, id: string)
    requires id in boot
    ensures (boot[id] == 0 || boot[id] > 60000 || boot[id] == CONGESTED_PUBLISH_INTERVAL_MS) <==>
            forall rounds: seq<seq<Visit>> :: Agrees(Run(Start(boot), rounds), id)
  {
    if boot[id] == 0 || boot[id] > 60000 || boot[id] == CONGESTED_PUBLISH_INTERVAL_MS {
      forall rounds: seq<seq<Visit>> ensures Agrees(Run(Start(boot), rounds), id) {
        RunKeepsAgreement(boot, rounds, id);
      }
    } else {
      LostReplyBreaksAgreement(boot, id);
    }
  }

  /** A round that visits the node, among any others, and samples nothing but congestion for it. */
  predicate CongestedRound(vs: seq<Visit>, id: string) {
    && id in Registered(vs)
    && forall i :: 0 <= i < |vs| && vs[i].node == id && vs[i].verdict.Some? ==> vs[i].verdict.value.congested
  }

  predicate AllCongested(rounds: seq<seq<Visit>>, id: string) {
    forall r :: 0 <= r < |rounds| ==> CongestedRound(rounds[r], id)
  }

  /** The cloud believes that the node is slow, and the node's interval is `ms`. */
  predicate BelievedSlow(w: World, id: string, ms: nat) {
    id in w.baseline && UpToDate(w, id, CONGESTED_PUBLISH_INTERVAL_MS) && id in w.sensors && w.sensors[id] == ms
  }

  lemma CongestedVisitIsIdle(w: World, v: Visit, id: string, ms: nat)
    requires BelievedSlow(w, id, ms) && (v.node == id && v.verdict.Some? ==> v.verdict.value.congested)
    ensures BelievedSlow(OnVisit(w, v).world, id, ms)
    ensures v.node == id ==> OnVisit(w, v) == Outcome(w, false, false)
  {
    hide ReadInt, GetSampling, SensorPut;
  }

  lemma {:induction false} CongestedVisitsAreIdle(w: World, vs: seq<Visit>, id: string, ms: nat)
    requires BelievedSlow(w, id, ms)
    requires forall i :: 0 <= i < |vs| && vs[i].node == id && vs[i].verdict.Some? ==> vs[i].verdict.value.congested
    ensures BelievedSlow(Visits(w, vs), id, ms)
    decreases |vs|
  {
    hide OnVisit, BelievedSlow;
    if vs != [] {
      CongestedVisitIsIdle(w, vs[0], id, ms);
      if !OnVisit(w, vs[0]).abort {
        CongestedVisitsAreIdle(OnVisit(w, vs[0]).world, vs[1..], id, ms);
      }
    }
  }

  /** Wherever the cloud believes a node to be slow, whatever its interval really is, a congestion is not
      answered: as long as it samples congestion for the node, whatever else the rounds visit and lose,
      the node keeps its interval. */
  lemma {:induction false} LostReplyDisablesSlowdown(w: World, id: string, ms: nat, rounds: seq<seq<Visit>>)
    requires BelievedSlow(w, id, ms) && AllCongested(rounds, id)
    ensures BelievedSlow(Run(w, rounds), id, ms)
  {
    hide BelievedSlow;
    if rounds != [] {
      var before := rounds[..|rounds| - 1];
      var vs := rounds[|rounds| - 1];
      assert AllCongested(before, id) by {
        assert forall r :: 0 <= r < |before| ==> before[r] == rounds[r];
      }
      LostReplyDisablesSlowdown(w, id, ms, before);
      assert CongestedRound(vs, id);
      ForgetKeepsBelief(Run(w, before), Registered(vs), id, ms);
      CongestedVisitsAreIdle(Forget(Run(w, before), Registered(vs)), vs, id, ms);
    }
  }

  lemma ForgetKeepsBelief(w: World, ids: set<string>, id: string, ms: nat)
    requires BelievedSlow(w, id, ms) && id in ids
    ensures BelievedSlow(Forget(w, ids), id, ms)
  {
  }

  /** In any reachable world a recovery command whose reply is lost leaves the cloud with that belief,
      and the node with its own interval. */
  lemma LostRecoveryMisleads(boot: map<string, nat>, rounds: seq<seq<Visit>>, v: Visit)
    requires v.node in boot && 1 <= boot[v.node] <= 60000 && boot[v.node] != CONGESTED_PUBLISH_INTERVAL_MS
    requires !v.battery && v.put == ReplyLost
    requires v.verdict.Some? && !v.verdict.value.congested && v.verdict.value.samples >= 3
    requires var w := Run(Start(boot), rounds);
             v.node in w.baseline && UpToDate(w, v.node, CONGESTED_PUBLISH_INTERVAL_MS)
    ensures BelievedSlow(OnVisit(Run(Start(boot), rounds), v).world, v.node, Capped(boot[v.node]))
  {
    var w := Run(Start(boot), rounds);
    RunKeepsTracks(boot, rounds, v.node);
    RecoveryMisleads(w, v);
  }

  lemma RecoveryMisleads(w: World, v: Visit)
    requires Tracks(w, v.node) && 1 <= w.boot[v.node] <= 60000 && w.boot[v.node] != CONGESTED_PUBLISH_INTERVAL_MS
    requires !v.battery && v.put == ReplyLost
    requires v.verdict.Some? && !v.verdict.value.congested && v.verdict.value.samples >= 3
    requires v.node in w.baseline && UpToDate(w, v.node, CONGESTED_PUBLISH_INTERVAL_MS)
    ensures BelievedSlow(OnVisit(w, v).world, v.node, Capped(w.boot[v.node]))
  {
    hide SensorPut;
    LearnValue(w, v);
    SensorPutValue(Learn(w, v), v.node, w.boot[v.node]);
  }

  // ---------- one run's agreement ----------

  /** What happens to one node's record: it is forgotten, or a PUT takes effect. */
  datatype Mark = Forgotten | Effect(target: nat, exchange: Exchange)

  function MarkVisit(w: World, v: Visit, id: string, log: seq<Mark>): seq<Mark> {
    if v.node == id && Sent(w, v).Some? && Sent(w, v).value <= 60000
    then log + [Effect(Sent(w, v).value, v.put)] else log
  }

  function MarkVisits(w: World, vs: seq<Visit>, id: string, log: seq<Mark>): seq<Mark>
    decreases |vs|
  {
    if vs == [] then log else
      var o := OnVisit(w, vs[0]);
      var log' := MarkVisit(w, vs[0], id, log);
      if o.abort then log' else MarkVisits(o.world, vs[1..], id, log')
  }

  function MarkForget(ids: set<string>, id: string, log: seq<Mark>): seq<Mark> {
    if id in ids then log else log + [Forgotten]
  }

  function Marks(w: World, rounds: seq<seq<Visit>>, id: string): seq<Mark> {
    if rounds == [] then [] else
      var before := rounds[..|rounds| - 1];
      var vs := rounds[|rounds| - 1];
      var log := Marks(w, before, id);
      MarkVisits(Forget(Run(w, before), Registered(vs)), vs, id, MarkForget(Registered(vs), id, log))
  }

  /** The last PUT that took effect. */
  function LastEffect(log: seq<Mark>): Option<Mark> {
    if log == [] then None
    else if log[|log| - 1].Effect? then Some(log[|log| - 1])
    else LastEffect(log[..|log| - 1])
  }

  /** The target of the last PUT that is known to have taken effect, unless forgotten since. */
  function LastDone(log: seq<Mark>): Option<nat> {
    if log == [] then None else
      match log[|log| - 1]
      case Forgotten => None
      case Effect(target, exchange) => if exchange == Done then Some(target) else LastDone(log[..|log| - 1])
  }

  lemma LogGrows(log: seq<Mark>, m: Mark)
    ensures LastEffect(log + [m]) == if m.Effect? then Some(m) else LastEffect(log)
    ensures LastDone(log + [m]) == if m.Forgotten? then None
                                   else if m.exchange == Done then Some(m.target) else LastDone(log)
  {
    assert (log + [m])[..|log|] == log;
  }

  /** Record and sensor as the log tells them. */
  predicate Told(w: World, id: string, log: seq<Mark>) {
    && Physical(w, id)
    && (id in w.commanded <==> LastDone(log).Some?)
    && (id in w.commanded ==> w.commanded[id] == LastDone(log).value)
    && w.sensors[id] == (match LastEffect(log) case None => w.boot[id]
                                               case Some(m) => if m.Effect? then Capped(m.target) else 0)
  }

  lemma VisitKeepsTold(w: World, v: Visit, id: string, log: seq<Mark>)
    requires Tracks(w, id) && Told(w, id, log)
    ensures Told(OnVisit(w, v).world, id, MarkVisit(w, v, id, log))
  {
    hide Learn, SensorPut, LastDone, LastEffect;
    LearnValue(w, v);
    var w1 := Learn(w, v);
    if Physical(w1, v.node) && Decides(w1, v) {
      var target := Target(w1, v.node, v.verdict.value.congested);
      SensorPutValue(w1, v.node, target);
      LogGrows(log, Effect(target, v.put));
    }
  }

  lemma {:induction false} VisitsKeepTold(w: World, vs: seq<Visit>, id: string, log: seq<Mark>)
    requires Tracks(w, id) && Told(w, id, log)
    ensures Told(Visits(w, vs), id, MarkVisits(w, vs, id, log))
    decreases |vs|
  {
    hide OnVisit, Tracks, Told, MarkVisit;
    if vs != [] {
      VisitKeepsTracks(w, vs[0], id);
      VisitKeepsTold(w, vs[0], id, log);
      if !OnVisit(w, vs[0]).abort {
        VisitsKeepTold(OnVisit(w, vs[0]).world, vs[1..], id, MarkVisit(w, vs[0], id, log));
      }
    }
  }

  lemma StartIsTold(boot: map<string, nat>, id: string)
    requires id in boot
    ensures Told(Start(boot), id, [])
  {
  }

  lemma ForgetKeepsTold(w: World, ids: set<string>, id: string, log: seq<Mark>)
    requires Tracks(w, id) && Told(w, id, log)
    ensures Tracks(Forget(w, ids), id) && Told(Forget(w, ids), id, MarkForget(ids, id, log))
  {
    hide LastDone, LastEffect;
    LogGrows(log, Forgotten);
  }

  /** In every run the record of a node is the target of its last PUT known to have succeeded, and its
      interval is what its last PUT that took effect left. */
  lemma {:induction false} RunIsTold(boot: map<string, nat>, rounds: seq<seq<Visit>>, id: string)
    requires id in boot
    ensures Told(Run(Start(boot), rounds), id, Marks(Start(boot), rounds, id))
  {
    hide Visits, MarkVisits, Tracks, Told, Forget, MarkForget;
    if rounds == [] {
      StartIsTold(boot, id);
    } else {
      var before := rounds[..|rounds| - 1];
      var vs := rounds[|rounds| - 1];
      var log := Marks(Start(boot), before, id);
      RunIsTold(boot, before, id);
      RunKeepsTracks(boot, before, id);
      ForgetKeepsTold(Run(Start(boot), before), Registered(vs), id, log);
      VisitsKeepTold(Forget(Run(Start(boot), before), Registered(vs)), vs, id, MarkForget(Registered(vs), id, log));
    }
  }

  lemma {:induction false} LastEffectIsLastDone(log: seq<Mark>)
    ensures LastEffect(log).Some? ==> LastEffect(log).value.Effect?
    ensures LastDone(log).Some? ==> LastEffect(log).Some?
    ensures LastDone(log).Some? && LastEffect(log).value.exchange == Done ==>
              LastDone(log).value == LastEffect(log).value.target
  {
    if log != [] {
      LastEffectIsLastDone(log[..|log| - 1]);
    }
  }

  /** One run: record and sensor disagree exactly when the last PUT to the node that took effect left
      another interval than the recorded one; and then the cloud does not know of that PUT, or the
      sensor cut its target. */
  lemma DisagreementIff(boot: map<string, nat>, rounds: seq<seq<Visit>>, id: string)
    requires id in boot
    ensures var log := Marks(Start(boot), rounds, id);
            !Agrees(Run(Start(boot), rounds), id) <==>
              && LastDone(log).Some? && LastEffect(log).Some? && LastEffect(log).value.Effect?
              && var last := LastEffect(log).value;
                 && Capped(last.target) != LastDone(log).value
                 && (last.exchange != Done || Cut(last.target))
  {
    hide Run, Marks, LastDone, LastEffect;
    var log := Marks(Start(boot), rounds, id);
    RunIsTold(boot, rounds, id);
    RunKeepsTracks(boot, rounds, id);
    LastEffectIsLastDone(log);
  }

  // ---------- bounded traffic ----------

  /** For one node: successful PUTs, changes of its sampled flag, and the flag last sampled. */
  datatype Traffic = Traffic(puts: nat, changes: nat, last: Option<bool>)

  function Count(w: World, v: Visit, id: string, t: Traffic): Traffic {
    if v.node != id || !Decides(Learn(w, v), v) then t else
      var flag := v.verdict.value.congested;
      Traffic(t.puts + (if OnVisit(w, v).put then 1 else 0),
              t.changes + (if t.last.Some? && t.last.value != flag then 1 else 0),
              Some(flag))
  }

  function CountVisits(w: World, vs: seq<Visit>, id: string, t: Traffic): Traffic
    decreases |vs|
  {
    if vs == [] then t else
      var o := OnVisit(w, vs[0]);
      var t' := Count(w, vs[0], id, t);
      if o.abort then t' else CountVisits(o.world, vs[1..], id, t')
  }

  function CountRun(w: World, rounds: seq<seq<Visit>>, id: string): Traffic {
    if rounds == [] then Traffic(0, 0, None) else
      var before := Run(w, rounds[..|rounds| - 1]);
      var vs := rounds[|rounds| - 1];
      CountVisits(Forget(before, Registered(vs)), vs, id, CountRun(w, rounds[..|rounds| - 1], id))
  }

  /** A command still owed to the node has been paid for by a change of its flag. */
  predicate Bounded(w: World, id: string, t: Traffic) {
    && (id in w.commanded ==> t.last.Some? && id in w.baseline && t.puts <= 1 + t.changes)
    && (id !in w.commanded ==> t.puts == 0)
    && (id in w.commanded && w.commanded[id] != Target(w, id, t.last.value) ==> t.puts <= t.changes)
    && (id in w.baseline && w.baseline[id] == CONGESTED_PUBLISH_INTERVAL_MS ==>
          t.puts <= 1 && (id in w.commanded ==> w.commanded[id] == CONGESTED_PUBLISH_INTERVAL_MS))
  }

  lemma VisitKeepsBounded(w: World, v: Visit, id: string, t: Traffic)
    requires Bounded(w, id, t)
    ensures Bounded(OnVisit(w, v).world, id, Count(w, v, id, t))
  {
    hide SensorPut, ReadInt, GetSampling;
  }

  lemma {:induction false} VisitsKeepBounded(w: World, vs: seq<Visit>, id: string, t: Traffic)
    requires Bounded(w, id, t)
    ensures Bounded(Visits(w, vs), id, CountVisits(w, vs, id, t))
    decreases |vs|
  {
    hide OnVisit, Count, Bounded;
    if vs != [] {
      VisitKeepsBounded(w, vs[0], id, t);
      if !OnVisit(w, vs[0]).abort {
        VisitsKeepBounded(OnVisit(w, vs[0]).world, vs[1..], id, Count(w, vs[0], id, t));
      }
    }
  }

  predicate AlwaysRegistered(rounds: seq<seq<Visit>>, id: string) {
    forall r :: 0 <= r < |rounds| ==> id in Registered(rounds[r])
  }

  lemma {:induction false} RunKeepsBounded(w: World, rounds: seq<seq<Visit>>, id: string)
    requires id !in w.commanded && AlwaysRegistered(rounds, id)
    ensures Bounded(Run(w, rounds), id, CountRun(w, rounds, id))
  {
    if rounds != [] {
      var before := rounds[..|rounds| - 1];
      var vs := rounds[|rounds| - 1];
      assert AlwaysRegistered(before, id) by {
        assert forall r :: 0 <= r < |before| ==> before[r] == rounds[r];
      }
      RunKeepsBounded(w, before, id);
      VisitsKeepBounded(Forget(Run(w, before), Registered(vs)), vs, id, CountRun(w, before, id));
    }
  }

  /** During one continuous registration a node gets at most one successful PUT more than its sampled
      flag changes, whatever is lost; and at most one in all if its baseline is 5000. */
  lemma TrafficBound(w: World, rounds: seq<seq<Visit>>, id: string)
    requires id !in w.commanded && AlwaysRegistered(rounds, id)
    ensures var t := CountRun(w, rounds, id);
            && t.puts <= 1 + t.changes
            && (id in Run(w, rounds).baseline && Run(w, rounds).baseline[id] == 5000 ==> t.puts <= 1)
  {
    RunKeepsBounded(w, rounds, id);
  }
}
