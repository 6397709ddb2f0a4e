/** The exact limits of the closed loop: how long an outage of the dispatch it survives, when its flag
    agrees with the diesel node, and which diesels are never told to stop. */
module StationLimits {
  import opened Common
  import opened EnergyState
  import opened Station
  import opened StationFaults
  import opened StationHistory
  import opened StationScenarios
  import B = Battery
  import W = WarmUp
  import G = Registry
  import Dict

  // ---------- a forgotten diesel keeps running, in every continuation ----------

  predicate NoneOfType(nodes: G.Nodes, kind: string) {
    forall e :: e in nodes ==> e.value.kind != Some(kind)
  }

  lemma HasTypeIff(nodes: G.Nodes, kind: string)
    ensures HasType(nodes, kind) <==> !NoneOfType(nodes, kind)
  {
    G.FirstOfTypeIsFirst(G.Values(nodes), kind);
    forall i | 0 <= i < |nodes| ensures nodes[i] in nodes && G.Values(nodes)[i] == nodes[i].value {
    }
  }

  lemma {:induction false} DropElements(d: G.Nodes, key: string, e: Dict.Entry<G.Node>)
    requires e in Dict.Drop(d, key)
    ensures e in d
  {
    if d[0].key != key && e != d[0] {
      DropElements(d[1..], key, e);
    }
  }

  /** Dispatched and burning, with no diesel node in the registry and no command to it under way. */
  predicate Forgotten(s: State) {
    s.dispatched && (s.node.device.on || s.node.device.starting)
    && !s.phase.AwaitDiesel? && NoneOfType(s.nodes, DIESEL_TYPE)
  }

  /** Nobody registers a diesel node, and nobody but the balance loop sends it commands. */
  predicate NoRescue(e: Event) {
    && (e.Register? ==> e.info.kind != Some(DIESEL_TYPE))
    && (e.Device? ==> !e.event.Put?)
  }

  lemma StepKeepsForgotten(s: State, e: Event)
    requires Good(s) && Forgotten(s) && NoRescue(e)
    ensures Forgotten(Step(s, e))
  {
    hide SocOf, CommandText, DeltaKwh, PowerByTypes, B.PutResult;
    match e
    case SocReply(_) => HasTypeIff(s.nodes, DIESEL_TYPE);
    case Device(event) => if event.Publish? { W.DieselReadingsAreNormal(s.node.device, event.draw); }
    case Register(info) =>
      forall x | x in Dict.Store(s.nodes, G.KeyOf(info), info) ensures x.value.kind != Some(DIESEL_TYPE) {
        Dict.StoreElements(s.nodes, G.KeyOf(info), info, x);
      }
    case Unregister(id) =>
      forall x | x in Dict.Drop(s.nodes, id) ensures x.value.kind != Some(DIESEL_TYPE) {
        DropElements(s.nodes, id, x);
      }
    case Wake(_) =>
    case DieselReply(_) =>
    case BatteryReply(_) =>
    case Deliver(_) =>
    case Producer(_) =>
  }

  /** Once forgotten, the diesel is never stopped: whatever else happens, for ever, it stays
      dispatched and running, until it registers again or somebody else turns it off. */
  lemma {:induction false} ForgottenDieselKeepsRunning(start: int, es: seq<Event>, i: nat)
    requires i <= |es| && Forgotten(At(start, es, i))
    requires forall j :: i <= j < |es| ==> NoRescue(es[j])
    ensures Forgotten(Run(start, es))
    decreases |es|
  {
    if i == |es| {
      assert es[..i] == es;
    } else {
      var before := es[..|es| - 1];
      assert before[..i] == es[..i];
      ForgottenDieselKeepsRunning(start, before, i);
      RunIsGood(start, before);
      StepKeepsForgotten(Run(start, before), es[|es| - 1]);
    }
  }

  /** A forgotten diesel is reachable: one missed probe of the node is enough, once it is dispatched. */
  lemma ForgottenIsReachable(start: int)
    ensures exists es :: Forgotten(Run(start, es))
  {
    hide Step, Run, Outage, OnlySolarReadings;
    var f := Faults(false, false, false, {Done});
    var es := TryDispatch(f, 3, start, Done);
    AddEvent(f, 3, start, es, Unregister(DIESEL_ID));
    DieselLeaves(Run(start, es));
    NodesHaveTypes(false);
    HasTypeIff(Nodes(false), DIESEL_TYPE);
    assert Forgotten(Run(start, es + [Unregister(DIESEL_ID)]));
  }

  // ---------- a stray diesel is not stopped either ----------

  /** Burning, although the cloud does not believe that it dispatched it. */
  predicate Stray(s: State) { !s.dispatched && (s.node.device.on || s.node.device.starting) }

  lemma StepKeepsStray(s: State, e: Event)
    requires Good(s) && Stray(s) && !(e.Device? && e.event.Put?) && !Step(s, e).dispatched
    ensures Stray(Step(s, e))
  {
    hide SocOf, CommandText, DeltaKwh, PowerByTypes, B.PutResult, HasType;
    if e.Device? && e.event.Publish? {
      W.DieselReadingsAreNormal(s.node.device, e.event.draw);
    }
  }

  /** A diesel that burns undispatched, because the reply to its "on" was lost, is sent no "off": it
      burns until some later cycle dispatches it, or somebody else turns it off. */
  lemma {:induction false} StrayDieselKeepsRunning(start: int, es: seq<Event>, i: nat)
    requires i <= |es| && Stray(At(start, es, i))
    requires forall j :: i <= j < |es| ==> !(es[j].Device? && es[j].event.Put?)
    requires forall j :: i <= j <= |es| ==> !At(start, es, j).dispatched
    ensures Stray(Run(start, es))
    decreases |es|
  {
    assert es[..|es|] == es;
    if i < |es| {
      var before := es[..|es| - 1];
      assert before[..i] == es[..i];
      forall j | i <= j <= |before| ensures !At(start, before, j).dispatched {
        assert before[..j] == es[..j];
        assert !At(start, es, j).dispatched;
      }
      StrayDieselKeepsRunning(start, before, i);
      RunIsGood(start, before);
      assert !At(start, es, |es|).dispatched;
      StepKeepsStray(Run(start, before), es[|es| - 1]);
    }
  }

  // ---------- when the flag agrees with the device ----------

  lemma OutsiderBreaksAgreement(start: int)
    ensures var es := [Device(W.Put("on"))];
            !FlagAgrees(Run(start, es)) && forall f: Faults :: f.outsiders ==> Within(f, start, es)
  {
    var es := [Device(W.Put("on"))];
    assert es[..0] == [] && Run(start, []) == Boot(start);
    forall f: Faults | f.outsiders ensures Within(f, start, es) {
      assert Within(f, start, []);
    }
  }

  /** The dispatch flag says whether the diesel runs in every run that `f` permits, if and only if
      nobody else commands the diesel and every command to it takes effect exactly when it is
      answered: no lost replies, and no error replies, which `set_status` takes for success. */
  lemma FlagAgreementIff(f: Faults)
    ensures Faithful(f) <==> forall start, es :: Within(f, start, es) ==> FlagAgrees(Run(start, es))
  {
    hide Step, Run, Outage, Ready;
    if Faithful(f) {
      forall start, es | Within(f, start, es) ensures FlagAgrees(Run(start, es)) {
        FlagAgreesInRun(f, start, es);
      }
    } else if f.outsiders {
      OutsiderBreaksAgreement(0);
    } else {
      var es := TryDispatch(f, 3, 0, if ReplyLost in f.diesel then ReplyLost else Rejected);
      assert Within(f, 0, es) && !FlagAgrees(Run(0, es));
    }
  }

  // ---------- when diesel and charge lock can meet ----------

  lemma {:induction false} NeverDispatched(f: Faults, start: int, es: seq<Event>)
    requires f.diesel !! ANSWERED && Within(f, start, es)
    ensures !Run(start, es).dispatched
  {
    hide Step, Good, DecisionStands;
    if es != [] {
      var before := es[..|es| - 1];
      NeverDispatched(f, start, before);
      RunIsGood(start, before);
      RunKeepsDecision(start, before);
      StepKeepsDecision(Run(start, before), es[|es| - 1]);
    }
  }

  /** The run that brings diesel and lock together, given any one thing that may obstruct the dispatch. */
  lemma Meet(f: Faults, n: nat, start: int) returns (es: seq<Event>)
    requires n > LOCK_OUTAGE && !Unobstructed(f) && !(f.diesel !! ANSWERED)
    ensures Allowed(f, n, start, es) && Coexist(Run(start, es))
  {
    hide Run, Outage, Within, OutagesBelow, Ready;
    var x :| x in f.diesel && x in ANSWERED;
    var lost := if AlwaysAnswered(f) then x else var y :| y in f.diesel && y !in ANSWERED; y;
    es := Starve(f, n, start, x, !f.unread, f.unread || !f.unregistered, lost, LOCK_OUTAGE);
  }

  /** In the runs that `f` permits and in which no outage of the dispatch lasts n cycles, diesel and
      charge lock never coexist if and only if n is at most 1961, or nothing can obstruct the dispatch
      at all, or the diesel can never be dispatched for want of an answer. So any one of failing reads,
      a lost registration or unanswered commands suffices once it may last 1961 cycles, and nothing
      shorter does. */
  lemma CoexistenceIff(f: Faults, n: nat)
    ensures (n <= 1961 || Unobstructed(f) || f.diesel !! ANSWERED) <==>
            forall start, es :: Within(f, start, es) && OutagesBelow(n, start, es) ==> !Coexist(Run(start, es))
  {
    hide Run, Outage, Within;
    if n <= 1961 || Unobstructed(f) || f.diesel !! ANSWERED {
      forall start, es | Within(f, start, es) && OutagesBelow(n, start, es) ensures !Coexist(Run(start, es)) {
        LockNeedsOutage(start, es);
        if Unobstructed(f) {
          DieselAndLockNeverCoexist(f, start, es);
        } else if f.diesel !! ANSWERED {
          NeverDispatched(f, start, es);
        }
      }
    } else {
      var es := Meet(f, n, 0);
      assert Within(f, 0, es) && OutagesBelow(n, 0, es) && Coexist(Run(0, es));
    }
  }
}
