/** The MQTT publishing process of a producer node: connection state, publish timer and the hand-over
    of a new sampling interval. The process runs whenever it is polled, its timer expires, or any
    other event is posted to it. */
module Publisher {
  import opened Common
  import opened Sampling

  datatype Mqtt = INIT | CONNECTING | CONNECTED | DISCONNECTED

  const MAX_ATTEMPTS := 4

  /** What the publish timer was last set to. */
  datatype Armed = Reconnect | Retry | Publish(ticks: nat)

  /** One telemetry message: its sequence number and the connection state it was published in. */
  datatype Message = Message(seqNo: nat, interval: nat, during: Mqtt)

  datatype Process = Process(
    control: Control,
    mqtt: Mqtt,
    attempts: nat,
    armed: Armed,
    expired: bool,
    keepAlive: nat,
    mqttSeq: nat)

  datatype Event =
    | Put(payload: string)
    | Connected
    | Disconnected
    | Suback
    | TimerExpires
    | Resume(polled: bool, connectivity: bool, ready: bool)

  function Boot(bootMs: nat): Process {
    Process(Control(bootMs, bootMs, false, false), INIT, 0, Reconnect, false, 0, 0)
  }

  function ApplyInterval(p: Process, clockSecond: nat): Process {
    if p.control.dirty && p.mqtt.CONNECTED?
    then p.(armed := Publish(ToTicks(p.control.interval, clockSecond)), expired := false,
            control := p.control.(dirty := false))
    else p
  }

  /** Counting up in an unsigned long. */
  function Successor(n: nat, ulongMax: nat): nat { (n + 1) % (ulongMax + 1) }

  /** Handle an expired timer: the message published, if any, and the new state. */
  function OnExpiry(p: Process, connectivity: bool, ready: bool, ulongMax: nat, clockSecond: nat)
    : (Process, Option<Message>)
  {
    if !connectivity then (p.(expired := false), None) else
      match p.mqtt
      case INIT => (Connect(p), None)
      case DISCONNECTED => (Connect(p), None)
      case CONNECTING =>
        (p.(attempts := p.attempts + 1,
            mqtt := if p.attempts + 1 >= MAX_ATTEMPTS then DISCONNECTED else CONNECTING,
            armed := Reconnect, expired := false), None)
      case CONNECTED =>
        if !ready then (p.(armed := Retry, expired := false), None)
        else (p.(mqttSeq := Successor(p.mqttSeq, ulongMax), armed := Publish(ToTicks(p.control.interval, clockSecond)),
                 expired := false),
              Some(Message(p.mqttSeq, p.control.interval, p.mqtt)))
  }

  function Connect(p: Process): Process {
    p.(attempts := 0, keepAlive := KeepAliveSeconds(p.control.interval), mqtt := CONNECTING,
       armed := Reconnect, expired := false)
  }

  /** One pass of the process loop. A poll that is not pending cannot be delivered. */
  function OnResume(p: Process, polled: bool, connectivity: bool, ready: bool, ulongMax: nat, clockSecond: nat)
    : (Process, Option<Message>)
  {
    var isPoll := polled && p.control.poll;
    var q := if isPoll then ApplyInterval(p.(control := p.control.(poll := false)), clockSecond) else p;
    if q.expired then OnExpiry(q, connectivity, ready, ulongMax, clockSecond) else (q, None)
  }

  function Step(p: Process, e: Event, ulongMax: nat, clockSecond: nat): (Process, Option<Message>) {
    match e
    case Put(payload) => (p.(control := PutSampling(p.control, payload, ulongMax).0), None)
    case Connected => (p.(mqtt := CONNECTED, attempts := 0, control := p.control.(poll := true)), None)
    case Disconnected => (p.(mqtt := DISCONNECTED, control := p.control.(poll := true)), None)
    case Suback => (p.(control := p.control.(poll := true)), None)
    case TimerExpires => (p.(expired := true), None)
    case Resume(polled, connectivity, ready) => OnResume(p, polled, connectivity, ready, ulongMax, clockSecond)
  }

  // ---------- the firmware ----------

  class MqttSensor {
    const bootMs: nat
    const ulongMax: nat
    const clockSecond: nat
    var interval: nat
    var dirty: bool
    var pollPending: bool
    var mqttState: Mqtt
    var connectAttempts: nat
    var armed: Armed
    var timerExpired: bool
    var keepAlive: nat
    var mqttSeq: nat

    constructor (bootMs: nat, ulongMax: nat, clockSecond: nat)
      ensures Contents() == Boot(bootMs)
      ensures this.ulongMax == ulongMax && this.clockSecond == clockSecond
    {
      this.bootMs, this.ulongMax, this.clockSecond := bootMs, ulongMax, clockSecond;
      interval, dirty, pollPending := bootMs, false, false;
      mqttState, connectAttempts, armed, timerExpired := INIT, 0, Reconnect, false;
      keepAlive, mqttSeq := 0, 0;
    }

    function Contents(): Process
      reads this
    {
      Process(Control(bootMs, interval, dirty, pollPending), mqttState, connectAttempts,
              armed, timerExpired, keepAlive, mqttSeq)
    }

    method SetPublishIntervalMs(requested: nat)
      modifies `interval, `dirty, `pollPending
      ensures Contents() == old(Contents()).(control := SetInterval(old(Contents()).control, requested))
    {
      var ms := requested;
      if ms == 0 {
        ms := bootMs;
      }
      if ms > STRESSED_INTERVAL_MS {
        ms := STRESSED_INTERVAL_MS;
      }
      if ms != interval {
        interval := ms;
        dirty := true;
        pollPending := true;
      }
    }

    method ResPutSampling(payload: string) returns (changed: bool)
      modifies `interval, `dirty, `pollPending
      ensures Contents() == Step(old(Contents()), Put(payload), ulongMax, clockSecond).0
      ensures changed == Requested(payload, ulongMax).Some?
    {
      var request := Requested(payload, ulongMax);
      if request == None {
        return false;
      }
      SetPublishIntervalMs(request.value);
      return true;
    }

    method MqttEventHandler(e: Event)
      requires e.Connected? || e.Disconnected? || e.Suback?
      modifies `mqttState, `connectAttempts, `pollPending
      ensures Contents() == Step(old(Contents()), e, ulongMax, clockSecond).0
    {
      if e.Connected? {
        mqttState := CONNECTED;
        connectAttempts := 0;
      } else if e.Disconnected? {
        mqttState := DISCONNECTED;
      }
      pollPending := true;
    }

    /** The body of the process loop, from one yield to the next. */
    method Run(polled: bool, connectivity: bool, ready: bool) returns (message: Option<Message>)
      modifies this
      ensures (Contents(), message)
              == Step(old(Contents()), Resume(polled, connectivity, ready), ulongMax, clockSecond)
    {
      message := None;
      if polled && pollPending {
        pollPending := false;
        if dirty && mqttState == CONNECTED {
          armed, timerExpired := Publish(ToTicks(interval, clockSecond)), false;
          dirty := false;
        }
      }
      if timerExpired {
        timerExpired := false;
        if !connectivity {
          return;
        }
        if mqttState == INIT || mqttState == DISCONNECTED {
          connectAttempts := 0;
          keepAlive := KeepAliveSeconds(interval);
          mqttState := CONNECTING;
        } else if mqttState == CONNECTING {
          connectAttempts := connectAttempts + 1;
          if connectAttempts >= MAX_ATTEMPTS {
            mqttState := DISCONNECTED;
          }
        } else {
          if !ready {
            armed := Retry;
            return;
          }
          message := Some(Message(mqttSeq, interval, mqttState));
          mqttSeq := Successor(mqttSeq, ulongMax);
          armed := Publish(ToTicks(interval, clockSecond));
          return;
        }
        armed := Reconnect;
      }
    }
  }

  // ---------- what every interleaving keeps ----------

  /** An interval waiting to be applied while connected has a poll on its way; a publish period in
      force is that of the current interval unless that is still marked dirty. */
  predicate Sound(p: Process, clockSecond: nat) {
    && (p.control.dirty && p.mqtt.CONNECTED? ==> p.control.poll)
    && (p.armed.Publish? ==> p.armed.ticks == ToTicks(p.control.interval, clockSecond) || p.control.dirty)
    && (p.mqtt.CONNECTING? ==> p.attempts < MAX_ATTEMPTS)
    && (p.control.interval == p.control.bootMs || p.control.interval <= STRESSED_INTERVAL_MS)
  }

  lemma {:induction false} StepKeepsSound(p: Process, e: Event, ulongMax: nat, clockSecond: nat)
    requires Sound(p, clockSecond)
    ensures Sound(Step(p, e, ulongMax, clockSecond).0, clockSecond)
    ensures Step(p, e, ulongMax, clockSecond).0.control.bootMs == p.control.bootMs
  {
    hide ToTicks, KeepAliveSeconds, Requested;
  }

  function After(bootMs: nat, es: seq<Event>, ulongMax: nat, clockSecond: nat): Process {
    if es == [] then Boot(bootMs)
    else Step(After(bootMs, es[..|es| - 1], ulongMax, clockSecond), es[|es| - 1], ulongMax, clockSecond).0
  }

  function Messages(bootMs: nat, es: seq<Event>, ulongMax: nat, clockSecond: nat): seq<Message> {
    if es == [] then [] else
      var n := |es| - 1;
      var m := Step(After(bootMs, es[..n], ulongMax, clockSecond), es[n], ulongMax, clockSecond).1;
      Messages(bootMs, es[..n], ulongMax, clockSecond) + (if m.Some? then [m.value] else [])
  }

  /** No update is lost: in every reachable state a dirty interval of a connected node has a poll
      pending, and once no poll is pending a connected node that waits to publish waits for the
      period of its latest interval. */
  lemma {:induction false} NoLostUpdate(bootMs: nat, es: seq<Event>, ulongMax: nat, clockSecond: nat)
    ensures var p := After(bootMs, es, ulongMax, clockSecond);
            && (p.control.dirty && p.mqtt.CONNECTED? ==> p.control.poll)
            && (p.mqtt.CONNECTED? && !p.control.poll && p.armed.Publish? ==>
                  p.armed.ticks == ToTicks(p.control.interval, clockSecond))
            && p.control.bootMs == bootMs
    ensures Sound(After(bootMs, es, ulongMax, clockSecond), clockSecond)
  {
    if es != [] {
      NoLostUpdate(bootMs, es[..|es| - 1], ulongMax, clockSecond);
      StepKeepsSound(After(bootMs, es[..|es| - 1], ulongMax, clockSecond), es[|es| - 1], ulongMax, clockSecond);
    }
  }

  /** Delivering the pending poll to a connected node puts the latest interval into force at once. */
  lemma {:induction false} PollAppliesLatestInterval(bootMs: nat, es: seq<Event>, connectivity: bool, ready: bool,
                                                     ulongMax: nat, clockSecond: nat)
    ensures var p := After(bootMs, es, ulongMax, clockSecond);
            var (q, m) := Step(p, Resume(true, connectivity, ready), ulongMax, clockSecond);
            p.control.dirty && p.mqtt.CONNECTED? ==>
              && !q.control.dirty && !q.control.poll && m == None
              && q.armed == Publish(ToTicks(p.control.interval, clockSecond)) && !q.expired
              && q.control.interval == p.control.interval
  {
    NoLostUpdate(bootMs, es, ulongMax, clockSecond);
  }

  lemma StepNumbers(p: Process, e: Event, ulongMax: nat, clockSecond: nat)
    ensures var (q, m) := Step(p, e, ulongMax, clockSecond);
            && q.mqttSeq == (if m.Some? then Successor(p.mqttSeq, ulongMax) else p.mqttSeq)
            && (m.Some? ==> m.value.seqNo == p.mqttSeq && m.value.during == CONNECTED)
  {
    hide ToTicks, KeepAliveSeconds, PutSampling, Successor;
  }

  lemma SuccessorOfRemainder(n: nat, ulongMax: nat)
    ensures Successor(n % (ulongMax + 1), ulongMax) == (n + 1) % (ulongMax + 1)
  {
    var m := ulongMax + 1;
    var q, r := n / m, n % m;
    assert n == m * q + r;
    if r + 1 < m {
      DivisionIs(n + 1, m, q, r + 1);
      DivisionIs(r + 1, m, 0, r + 1);
    } else {
      assert m * (q + 1) == m * q + m;
      DivisionIs(n + 1, m, q + 1, 0);
      DivisionIs(m, m, 1, 0);
    }
  }

  /** Telemetry is published only while connected, and numbered 0, 1, 2, ... without gap or repeat, up
      to the range of an unsigned long and then from 0 again. */
  lemma {:induction false} MessagesAreNumbered(bootMs: nat, es: seq<Event>, ulongMax: nat, clockSecond: nat)
    ensures var ms := Messages(bootMs, es, ulongMax, clockSecond);
            && After(bootMs, es, ulongMax, clockSecond).mqttSeq == |ms| % (ulongMax + 1)
            && forall k :: 0 <= k < |ms| ==> ms[k].seqNo == k % (ulongMax + 1) && ms[k].during == CONNECTED
  {
    hide Step, Successor;
    if es != [] {
      var before := es[..|es| - 1];
      MessagesAreNumbered(bootMs, before, ulongMax, clockSecond);
      StepNumbers(After(bootMs, before, ulongMax, clockSecond), es[|es| - 1], ulongMax, clockSecond);
      SuccessorOfRemainder(|Messages(bootMs, before, ulongMax, clockSecond)|, ulongMax);
    }
  }

  // ---------- what a pass must do ----------

  /** A poll that puts a new interval into force also restarts the timer, expired or not. */
  predicate Restarts(p: Process, e: Event) {
    e.Resume? && e.polled && p.control.poll && p.control.dirty && p.mqtt.CONNECTED?
  }

  /** The pass finds the timer expired, once its poll is handled. */
  predicate FindsExpired(p: Process, e: Event) { e.Resume? && p.expired && !Restarts(p, e) }

  /** It finds an expired timer while connected, with connectivity and a ready stack. */
  predicate MustPublish(p: Process, e: Event) {
    FindsExpired(p, e) && e.connectivity && e.ready && p.mqtt == CONNECTED
  }

  /** What every pass does about an expired timer: without connectivity nothing but restart it; from INIT
      or DISCONNECTED it connects; while CONNECTING it counts, and gives up at the fourth; while CONNECTED
      it publishes one message, if the stack is ready, and waits for the ticks of the present interval. A
      pass that finds no expired timer leaves connection and sequence number alone, and publishes nothing. */
  lemma PassEffect(p: Process, e: Event, ulongMax: nat, clockSecond: nat)
    requires e.Resume?
    ensures var (q, m) := Step(p, e, ulongMax, clockSecond);
            && (m.Some? <==> MustPublish(p, e))
            && (m.Some? ==> && m.value == Message(p.mqttSeq, p.control.interval, CONNECTED)
                            && q.mqttSeq == (p.mqttSeq + 1) % (ulongMax + 1)
                            && q.armed == Publish(ToTicks(p.control.interval, clockSecond)))
            && (m == None ==> q.mqttSeq == p.mqttSeq)
            && q.control.interval == p.control.interval
            && q.expired == (p.expired && !FindsExpired(p, e) && !Restarts(p, e))
    ensures var q := Step(p, e, ulongMax, clockSecond).0;
            if FindsExpired(p, e) && e.connectivity && (p.mqtt == INIT || p.mqtt == DISCONNECTED)
            then q.mqtt == CONNECTING && q.attempts == 0 && q.armed == Reconnect
            else if FindsExpired(p, e) && e.connectivity && p.mqtt == CONNECTING
            then && q.mqtt == (if p.attempts + 1 >= 4 then DISCONNECTED else CONNECTING)
                 && q.attempts == p.attempts + 1 && q.armed == Reconnect
            else && q.mqtt == p.mqtt && q.attempts == p.attempts
                 && (FindsExpired(p, e) && !e.connectivity ==> q.armed == p.armed)
                 && (FindsExpired(p, e) && e.connectivity && !e.ready ==> q.armed == Retry)
  {
    hide ToTicks, KeepAliveSeconds;
  }

  /** What the other events do: the timer expires; the broker connects or disconnects the process, and that
      and a subscription acknowledgement are polled for. */
  lemma EventEffect(p: Process, e: Event, ulongMax: nat, clockSecond: nat)
    requires !e.Resume? && !e.Put?
    ensures var (q, m) := Step(p, e, ulongMax, clockSecond);
            && m == None && q.mqttSeq == p.mqttSeq && q.armed == p.armed
            && q.control.interval == p.control.interval && q.control.dirty == p.control.dirty
            && (e == TimerExpires ==> q == p.(expired := true))
            && (e != TimerExpires ==> q.control.poll && q.expired == p.expired)
            && (e == Connected ==> q.mqtt == CONNECTED && q.attempts == 0)
            && (e == Disconnected ==> q.mqtt == DISCONNECTED)
            && (e == Suback ==> q.mqtt == p.mqtt)
  {
  }

  /** The present intervals at the passes of a run that had to publish. */
  function DueIntervals(bootMs: nat, es: seq<Event>, ulongMax: nat, clockSecond: nat): seq<nat> {
    if es == [] then [] else
      var n := |es| - 1;
      var before := DueIntervals(bootMs, es[..n], ulongMax, clockSecond);
      var p := After(bootMs, es[..n], ulongMax, clockSecond);
      if MustPublish(p, es[n]) then before + [p.control.interval] else before
  }

  lemma OnlyPassesPublish(p: Process, e: Event, ulongMax: nat, clockSecond: nat)
    requires !e.Resume?
    ensures Step(p, e, ulongMax, clockSecond).1 == None
  {
  }

  /** In every run exactly the passes that had to publish have published, each one message with the
      interval of its moment. */
  lemma {:induction false} EveryDueMessageIsPublished(bootMs: nat, es: seq<Event>, ulongMax: nat, clockSecond: nat)
    ensures var ms, due := Messages(bootMs, es, ulongMax, clockSecond), DueIntervals(bootMs, es, ulongMax, clockSecond);
            |ms| == |due| && forall k :: 0 <= k < |ms| ==> ms[k].interval == due[k]
  {
    hide Step;
    if es != [] {
      var n := |es| - 1;
      var p := After(bootMs, es[..n], ulongMax, clockSecond);
      EveryDueMessageIsPublished(bootMs, es[..n], ulongMax, clockSecond);
      if es[n].Resume? {
        PassEffect(p, es[n], ulongMax, clockSecond);
      } else {
        OnlyPassesPublish(p, es[n], ulongMax, clockSecond);
      }
    }
  }

  /** Having published, the process waits for the least number of ticks that covers its interval, or as long
      as 16 bits of ticks allow. */
  lemma PublishingWaitsForInterval(p: Process, e: Event, ulongMax: nat, clockSecond: nat)
    requires MustPublish(p, e) && clockSecond >= 1
    ensures var q := Step(p, e, ulongMax, clockSecond).0;
            && q.armed.Publish? && !q.expired
            && if p.control.interval * clockSecond <= 65535 * 1000
               then CoveringTicks(p.control.interval, clockSecond, q.armed.ticks) else q.armed.ticks == 65535
  {
    hide Step, ToTicks;
    PassEffect(p, e, ulongMax, clockSecond);
    TicksCover(p.control.interval, clockSecond);
  }

  /** The timer expires, and a pass with connectivity and a ready stack follows. */
  function Serve(p: Process, ulongMax: nat, clockSecond: nat): (Process, Option<Message>) {
    Step(Step(p, TimerExpires, ulongMax, clockSecond).0, Resume(false, true, true), ulongMax, clockSecond)
  }

  /** A connected process publishes at every expiry; a disconnected one begins to connect at the first and, if
      the broker stays silent, gives up at the fifth, to begin again at the sixth. */
  lemma SilentBrokerIsRetried(p: Process, ulongMax: nat, clockSecond: nat)
    ensures p.mqtt == CONNECTED ==> Serve(p, ulongMax, clockSecond).1.Some?
    ensures p.mqtt == DISCONNECTED || p.mqtt == INIT ==>
              var p1 := Serve(p, ulongMax, clockSecond).0;
              var p2 := Serve(p1, ulongMax, clockSecond).0;
              var p3 := Serve(p2, ulongMax, clockSecond).0;
              var p4 := Serve(p3, ulongMax, clockSecond).0;
              var p5 := Serve(p4, ulongMax, clockSecond).0;
              && p1.mqtt == p2.mqtt == p3.mqtt == p4.mqtt == CONNECTING && p5.mqtt == DISCONNECTED
              && Serve(p5, ulongMax, clockSecond).0.mqtt == CONNECTING
  {
    hide Step;
    ServeEffect(p, ulongMax, clockSecond);
    if p.mqtt == DISCONNECTED || p.mqtt == INIT {
      var p1 := Serve(p, ulongMax, clockSecond).0;
      ServeEffect(p1, ulongMax, clockSecond);
      var p2 := Serve(p1, ulongMax, clockSecond).0;
      ServeEffect(p2, ulongMax, clockSecond);
      var p3 := Serve(p2, ulongMax, clockSecond).0;
      ServeEffect(p3, ulongMax, clockSecond);
      var p4 := Serve(p3, ulongMax, clockSecond).0;
      ServeEffect(p4, ulongMax, clockSecond);
      ServeEffect(Serve(p4, ulongMax, clockSecond).0, ulongMax, clockSecond);
    }
  }

  lemma ServeEffect(p: Process, ulongMax: nat, clockSecond: nat)
    ensures var (q, m) := Serve(p, ulongMax, clockSecond);
            && (m.Some? <==> p.mqtt == CONNECTED)
            && (p.mqtt == INIT || p.mqtt == DISCONNECTED ==> q.mqtt == CONNECTING && q.attempts == 0)
            && (p.mqtt == CONNECTING ==> && q.mqtt == (if p.attempts + 1 >= 4 then DISCONNECTED else CONNECTING)
                                         && q.attempts == p.attempts + 1)
  {
    hide Step;
    EventEffect(p, TimerExpires, ulongMax, clockSecond);
    PassEffect(p.(expired := true), Resume(false, true, true), ulongMax, clockSecond);
  }

  // ---------- connecting ends ----------

  /** The process handles an expired timer and has connectivity: an attempt is counted. */
  predicate CountsAttempt(p: Process, e: Event) {
    e.Resume? && e.connectivity && p.expired
  }

  function Attempts(p: Process, es: seq<Event>, ulongMax: nat, clockSecond: nat): nat
    decreases |es|
  {
    if es == [] then 0 else
      (if CountsAttempt(p, es[0]) then 1 else 0)
      + Attempts(Step(p, es[0], ulongMax, clockSecond).0, es[1..], ulongMax, clockSecond)
  }

  predicate StaysConnecting(p: Process, es: seq<Event>, ulongMax: nat, clockSecond: nat)
    decreases |es|
  {
    p.mqtt.CONNECTING?
    && (es != [] ==> StaysConnecting(Step(p, es[0], ulongMax, clockSecond).0, es[1..], ulongMax, clockSecond))
  }

  lemma ConnectingStep(p: Process, e: Event, ulongMax: nat, clockSecond: nat)
    requires p.mqtt.CONNECTING? && Step(p, e, ulongMax, clockSecond).0.mqtt.CONNECTING?
    ensures Step(p, e, ulongMax, clockSecond).0.attempts == p.attempts + if CountsAttempt(p, e) then 1 else 0
  {
    hide ToTicks, KeepAliveSeconds, Requested;
  }

  lemma {:induction false} ConnectingCounts(p: Process, es: seq<Event>, ulongMax: nat, clockSecond: nat)
    requires Sound(p, clockSecond) && StaysConnecting(p, es, ulongMax, clockSecond)
    ensures p.attempts + Attempts(p, es, ulongMax, clockSecond) < MAX_ATTEMPTS
    decreases |es|
  {
    hide Step;
    if es != [] {
      StepKeepsSound(p, es[0], ulongMax, clockSecond);
      ConnectingStep(p, es[0], ulongMax, clockSecond);
      ConnectingCounts(Step(p, es[0], ulongMax, clockSecond).0, es[1..], ulongMax, clockSecond);
    }
  }

  /** From any reachable state, a stretch that never leaves CONNECTING services at most three counted
      expiries: the fourth ends it. */
  lemma ConnectingEnds(bootMs: nat, es: seq<Event>, more: seq<Event>, ulongMax: nat, clockSecond: nat)
    requires StaysConnecting(After(bootMs, es, ulongMax, clockSecond), more, ulongMax, clockSecond)
    ensures Attempts(After(bootMs, es, ulongMax, clockSecond), more, ulongMax, clockSecond) <= 3
  {
    NoLostUpdate(bootMs, es, ulongMax, clockSecond);
    ConnectingCounts(After(bootMs, es, ulongMax, clockSecond), more, ulongMax, clockSecond);
  }

  /** The event makes the node connect, with a keep-alive that covers three of its present intervals. */
  predicate ConnectsCovered(p: Process, e: Event, ulongMax: nat, clockSecond: nat) {
    var q := Step(p, e, ulongMax, clockSecond).0;
    !p.mqtt.CONNECTING? && q.mqtt.CONNECTING? ==> 3 * q.control.interval <= q.keepAlive * 1000
  }

  lemma ConnectionUsesPresentInterval(p: Process, e: Event, ulongMax: nat, clockSecond: nat)
    ensures var q := Step(p, e, ulongMax, clockSecond).0;
            !p.mqtt.CONNECTING? && q.mqtt.CONNECTING? ==>
              q.control.interval == p.control.interval && q.keepAlive == KeepAliveSeconds(p.control.interval)
  {
    hide ToTicks, Requested, KeepAliveSeconds;
  }

  lemma {:induction false} KeepAliveCovers(bootMs: nat, es: seq<Event>, e: Event, ulongMax: nat, clockSecond: nat)
    requires 3 * bootMs <= 65535000
    ensures ConnectsCovered(After(bootMs, es, ulongMax, clockSecond), e, ulongMax, clockSecond)
  {
    hide Step, KeepAliveSeconds;
    var p := After(bootMs, es, ulongMax, clockSecond);
    NoLostUpdate(bootMs, es, ulongMax, clockSecond);
    KeepAliveCoversIff(p.control.interval);
    ConnectionUsesPresentInterval(p, e, ulongMax, clockSecond);
  }

  /** The keep-alive chosen at connect time covers three of the intervals current at that moment, in
      every run and at every connection, if and only if three boot intervals fit in 65535 s. */
  lemma KeepAliveCoversThreeIntervals(bootMs: nat, ulongMax: nat, clockSecond: nat)
    requires bootMs < UINT32
    ensures 3 * bootMs <= 65535000 <==>
            forall es, e :: ConnectsCovered(After(bootMs, es, ulongMax, clockSecond), e, ulongMax, clockSecond)
  {
    if 3 * bootMs <= 65535000 {
      forall es, e ensures ConnectsCovered(After(bootMs, es, ulongMax, clockSecond), e, ulongMax, clockSecond) {
        KeepAliveCovers(bootMs, es, e, ulongMax, clockSecond);
      }
    } else {
      KeepAliveCoversIff(bootMs);
      var es := [TimerExpires];
      assert es[..0] == [];
      assert After(bootMs, es, ulongMax, clockSecond) == Boot(bootMs).(expired := true);
      var e := Resume(false, true, true);
      assert !ConnectsCovered(After(bootMs, es, ulongMax, clockSecond), e, ulongMax, clockSecond);
    }
  }
}
