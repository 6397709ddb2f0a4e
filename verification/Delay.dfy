/** The per-node delay pipeline of the cloud: minimum-gap baseline, five-sample window, congestion
    flag; and its refinement to a specification over each node's own packets. */
module Delay {
  import opened Common

  const CONGESTION_WINDOW_SIZE := 5
  const CONGESTION_THRESHOLD_MS := 400.0

  datatype Packet = Packet(node: string, sentMs: int, receivedMs: int) {
    function Gap(): int { receivedMs - sentMs }
  }

  datatype DelayState = DelayState(average: real, congested: bool, samples: nat)

  /** `_mqtt_offsets`, `_delay_windows` and `_delay_state`. */
  datatype Tracker = Tracker(offsets: map<string, int>, windows: map<string, seq<int>>,
                             states: map<string, DelayState>)

  const EMPTY := Tracker(map[], map[], map[])

  function Sum(xs: seq<int>): int {
    if xs == [] then 0 else Sum(xs[..|xs| - 1]) + xs[|xs| - 1]
  }

  /** A bounded deque: appending to a full one drops its oldest element. */
  function Push(window: seq<int>, delay: int): (w: seq<int>)
    ensures w != []
  {
    (if |window| >= CONGESTION_WINDOW_SIZE then window[|window| - CONGESTION_WINDOW_SIZE + 1..] else window) + [delay]
  }

  function Judge(window: seq<int>): DelayState
    requires window != []
  {
    var average := Sum(window) as real / |window| as real;
    DelayState(average, average > CONGESTION_THRESHOLD_MS, |window|)
  }

  function NewOffset(t: Tracker, p: Packet): int {
    if p.node !in t.offsets || p.Gap() < t.offsets[p.node] then p.Gap() else t.offsets[p.node]
  }

  function Save(t: Tracker, p: Packet): Tracker {
    var offset := NewOffset(t, p);
    var window := Push(if p.node in t.windows then t.windows[p.node] else [], p.Gap() - offset);
    Tracker(t.offsets[p.node := offset], t.windows[p.node := window], t.states[p.node := Judge(window)])
  }

  class DelayTracker {
    var offsets: map<string, int>
    var windows: map<string, seq<int>>
    var states: map<string, DelayState>

    constructor ()
      ensures Contents() == EMPTY
    {
      offsets, windows, states := map[], map[], map[];
    }

    function Contents(): Tracker
      reads this
    {
      Tracker(offsets, windows, states)
    }

    method UpdateDelayState(node: string, delay: int) returns (state: DelayState)
      modifies `windows, `states
      ensures var window := Push(if node in old(windows) then old(windows)[node] else [], delay);
              && windows == old(windows)[node := window]
              && states == old(states)[node := state]
              && state == Judge(window)
    {
      var window := if node in windows then windows[node] else [];
      window := Push(window, delay);
      windows := windows[node := window];
      var average := Sum(window) as real / |window| as real;
      state := DelayState(average, average > CONGESTION_THRESHOLD_MS, |window|);
      states := states[node := state];
    }

    method SaveToInfluxdb(packet: Packet) returns (delay: int)
      modifies this
      ensures Contents() == Save(old(Contents()), packet)
      ensures delay == packet.Gap() - offsets[packet.node] >= 0
    {
      var gap := packet.receivedMs - packet.sentMs;
      if packet.node !in offsets || gap < offsets[packet.node] {
        offsets := offsets[packet.node := gap];
      }
      delay := gap - offsets[packet.node];
      var _ := UpdateDelayState(packet.node, delay);
    }
  }

  // ---------- the history specification ----------

  function Run(h: seq<Packet>): Tracker {
    if h == [] then EMPTY else Save(Run(h[..|h| - 1]), h[|h| - 1])
  }

  /** The gaps of one node's own packets. */
  function Gaps(h: seq<Packet>, node: string): seq<int> {
    if h == [] then [] else
      var before := Gaps(h[..|h| - 1], node);
      if h[|h| - 1].node == node then before + [h[|h| - 1].Gap()] else before
  }

  ghost predicate IsMin(xs: seq<int>, m: int) {
    m in xs && forall i :: 0 <= i < |xs| ==> m <= xs[i]
  }

  function Min(xs: seq<int>): (m: int)
    requires xs != []
    ensures IsMin(xs, m)
  {
    var last := xs[|xs| - 1];
    if |xs| == 1 then last else
      var m := Min(xs[..|xs| - 1]);
      if last < m then last else m
  }

  lemma MinIsUnique(xs: seq<int>, a: int, b: int)
    requires IsMin(xs, a) && IsMin(xs, b)
    ensures a == b
  {
  }

  /** Each gap over the smallest gap up to its own time. */
  function Delays(gaps: seq<int>): (ds: seq<int>)
    ensures |ds| == |gaps|
  {
    if gaps == [] then [] else Delays(gaps[..|gaps| - 1]) + [gaps[|gaps| - 1] - Min(gaps)]
  }

  lemma {:induction false} DelayAt(gaps: seq<int>, i: nat)
    requires i < |gaps|
    ensures Delays(gaps)[i] == gaps[i] - Min(gaps[..i + 1])
  {
    hide Min;
    var n := |gaps| - 1;
    if i < n {
      DelayAt(gaps[..n], i);
      assert gaps[..n][..i + 1] == gaps[..i + 1];
    } else {
      assert gaps[..i + 1] == gaps;
    }
  }

  function LastFive(xs: seq<int>): seq<int> {
    if |xs| <= CONGESTION_WINDOW_SIZE then xs else xs[|xs| - CONGESTION_WINDOW_SIZE..]
  }

  ghost predicate Matches(t: Tracker, node: string, gaps: seq<int>) {
    && (node in t.offsets <==> gaps != [])
    && (node in t.windows <==> gaps != [])
    && (node in t.states <==> gaps != [])
    && (gaps != [] ==>
          && IsMin(gaps, t.offsets[node])
          && t.windows[node] == LastFive(Delays(gaps)) != []
          && t.states[node] == Judge(t.windows[node]))
  }

  lemma {:induction false} DelaysAppend(gaps: seq<int>, gap: int)
    ensures Delays(gaps + [gap]) == Delays(gaps) + [gap - Min(gaps + [gap])]
  {
    hide Min;
    assert (gaps + [gap])[..|gaps|] == gaps;
  }

  lemma {:induction false} PushIsLastFive(xs: seq<int>, x: int)
    ensures Push(LastFive(xs), x) == LastFive(xs + [x])
  {
  }

  lemma NoDelays()
    ensures LastFive(Delays([])) == []
  {
  }

  lemma {:induction false} NewOffsetIsMin(t: Tracker, p: Packet, gaps: seq<int>)
    requires Matches(t, p.node, gaps)
    ensures IsMin(gaps + [p.Gap()], NewOffset(t, p)) && NewOffset(t, p) == Min(gaps + [p.Gap()])
  {
    hide Min, Delays, Judge, Push, LastFive;
    var all := gaps + [p.Gap()];
    var offset := NewOffset(t, p);
    assert all[|gaps|] == offset || (gaps != [] && offset in gaps);
    MinIsUnique(all, offset, Min(all));
  }

  lemma {:induction false} SaveMatches(t: Tracker, p: Packet, gaps: seq<int>)
    requires Matches(t, p.node, gaps)
    ensures Matches(Save(t, p), p.node, gaps + [p.Gap()])
  {
    hide Min, Delays, Judge, Push, LastFive, IsMin, NewOffset;
    NoDelays();
    NewOffsetIsMin(t, p, gaps);
    DelaysAppend(gaps, p.Gap());
    PushIsLastFive(Delays(gaps), p.Gap() - NewOffset(t, p));
  }

  /** After any interleaving of packets from any nodes, each node's offset is the minimum of its
      own gaps, its window the last five of its own delays, and its state their mean and verdict. */
  lemma {:induction false} TrackerIsHistory(h: seq<Packet>, node: string)
    ensures Matches(Run(h), node, Gaps(h, node))
  {
    if h != [] {
      var p := h[|h| - 1];
      TrackerIsHistory(h[..|h| - 1], node);
      if p.node == node {
        SaveMatches(Run(h[..|h| - 1]), p, Gaps(h[..|h| - 1], node));
      }
    }
  }

  /** The verdict in whole numbers: congested exactly when the sum exceeds 400 times the count. */
  lemma CongestedIffSum(window: seq<int>)
    requires window != []
    ensures Judge(window).congested <==> Sum(window) > 400 * |window|
  {
    var n := |window| as real;
    var average := Sum(window) as real / n;
    assert average * n == Sum(window) as real;
  }

  lemma MeanTimesCount(window: seq<int>)
    requires window != []
    ensures Judge(window).average * |window| as real == Sum(window) as real && Judge(window).samples == |window|
  {
    var n := |window| as real;
    var average := Sum(window) as real / n;
    assert average * n == Sum(window) as real;
  }

  /** What `get_delay_state` answers for a node, told from its own packets alone: nothing before the
      first; afterwards their number up to five, the exact mean of that many delays, and the verdict. */
  lemma {:induction false} StateIsHistory(h: seq<Packet>, node: string)
    ensures node in Run(h).states <==> Gaps(h, node) != []
    ensures node in Run(h).states ==>
              var recent := LastFive(Delays(Gaps(h, node)));
              var state := Run(h).states[node];
              && state.samples == |recent| == (if |Gaps(h, node)| < 5 then |Gaps(h, node)| else 5)
              && state.average * |recent| as real == Sum(recent) as real
              && (state.congested <==> Sum(recent) > 400 * |recent|)
  {
    hide Delays, Sum, Judge, Run, Gaps, IsMin;
    TrackerIsHistory(h, node);
    var recent := LastFive(Delays(Gaps(h, node)));
    if recent != [] {
      MeanTimesCount(recent);
      CongestedIffSum(recent);
    }
  }

  lemma {:induction false} SumAtMost(xs: seq<int>, bound: int)
    requires forall i :: 0 <= i < |xs| ==> xs[i] <= bound
    ensures Sum(xs) <= bound * |xs|
  {
    if xs != [] {
      SumAtMost(xs[..|xs| - 1], bound);
    }
  }

  /** Five consecutive delays of at most 400 ms clear congestion, whatever came before. */
  lemma {:induction false} FiveQuickPacketsClear(h: seq<Packet>, node: string)
    requires var ds := Delays(Gaps(h, node));
             |ds| >= 5 && forall i :: |ds| - 5 <= i < |ds| ==> ds[i] <= 400
    ensures node in Run(h).states && !Run(h).states[node].congested
  {
    hide Delays, Run, Gaps, IsMin, Judge;
    TrackerIsHistory(h, node);
    var window := LastFive(Delays(Gaps(h, node)));
    CongestedIffSum(window);
    SumAtMost(window, 400);
  }

  // ---------- what the delay measures ----------

  function Shifted(xs: seq<int>, shift: int): (ys: seq<int>)
    ensures |ys| == |xs| && forall i :: 0 <= i < |xs| ==> ys[i] == xs[i] + shift
  {
    seq(|xs|, i requires 0 <= i < |xs| => xs[i] + shift)
  }

  lemma {:induction false} MinOfShifted(xs: seq<int>, shift: int)
    requires xs != []
    ensures Min(Shifted(xs, shift)) == Min(xs) + shift
  {
    hide Min;
    var ys := Shifted(xs, shift);
    var k :| 0 <= k < |xs| && xs[k] == Min(xs);
    assert ys[k] == Min(xs) + shift;
    MinIsUnique(ys, Min(ys), Min(xs) + shift);
  }

  /** A constant boot offset cancels. */
  lemma {:induction false} OffsetCancels(gaps: seq<int>, shift: int)
    ensures Delays(Shifted(gaps, shift)) == Delays(gaps)
  {
    hide Min, Delays, Shifted;
    if gaps == [] {
      assert Shifted(gaps, shift) == [];
    } else {
      var n := |gaps| - 1;
      var front := gaps[..n];
      OffsetCancels(front, shift);
      MinOfShifted(gaps, shift);
      DelaysAppend(front, gaps[n]);
      assert front + [gaps[n]] == gaps;
      DelaysAppend(Shifted(front, shift), gaps[n] + shift);
      assert Shifted(front, shift) + [gaps[n] + shift] == Shifted(gaps, shift);
    }
  }

  /** A delay is never negative and never more than the excess over the fastest packet of the run. */
  lemma {:induction false} DelayIsExcess(gaps: seq<int>, i: nat)
    requires i < |gaps|
    ensures 0 <= Delays(gaps)[i] <= gaps[i] - Min(gaps)
  {
    hide Min, Delays;
    DelayAt(gaps, i);
    var prefix := gaps[..i + 1];
    assert prefix[i] == gaps[i];
    var k :| 0 <= k < |prefix| && prefix[k] == Min(prefix);
    assert gaps[k] == Min(prefix);
  }

  /** A packet of one boot: the uptime at which it was sent and its time in transit. */
  datatype Flight = Flight(uptime: nat, transit: int) {
    /** The sensor's clock counts whole seconds. */
    function ClockMs(): nat { uptime / 1000 * 1000 }

    function Phase(): nat { uptime % 1000 }

    /** How often `clock_seconds() * 1000UL` has overflowed its unsigned long. */
    function Wraps(ulongMax: nat): nat { ClockMs() / (ulongMax + 1) }

    function SentMs(ulongMax: nat): nat { ClockMs() % (ulongMax + 1) }

    /** How much of the uptime `sent_ms` does not show. */
    function Lost(ulongMax: nat): int { uptime - SentMs(ulongMax) }

    function ToPacket(node: string, bootAt: int, ulongMax: nat): Packet {
      Packet(node, SentMs(ulongMax), bootAt + uptime + transit)
    }
  }

  /** `sent_ms` hides the fraction of a second and every overflow. */
  lemma LostIsPhaseAndWraps(f: Flight, ulongMax: nat)
    ensures f.Lost(ulongMax) == f.Phase() + (ulongMax + 1) * f.Wraps(ulongMax)
    ensures f.Lost(ulongMax) >= 0 && f.Phase() <= 999
  {
    assert f.ClockMs() == (ulongMax + 1) * f.Wraps(ulongMax) + f.SentMs(ulongMax);
    assert (ulongMax + 1) * f.Wraps(ulongMax) >= 0;
  }

  function Transits(fs: seq<Flight>): (xs: seq<int>)
    ensures |xs| == |fs| && forall i :: 0 <= i < |fs| ==> xs[i] == fs[i].transit
  {
    seq(|fs|, i requires 0 <= i < |fs| => fs[i].transit)
  }

  function Observed(fs: seq<Flight>, node: string, bootAt: int, ulongMax: nat): (xs: seq<int>)
    ensures |xs| == |fs| && forall i :: 0 <= i < |fs| ==> xs[i] == fs[i].ToPacket(node, bootAt, ulongMax).Gap()
  {
    seq(|fs|, i requires 0 <= i < |fs| => fs[i].ToPacket(node, bootAt, ulongMax).Gap())
  }

  lemma GapOfFlight(f: Flight, node: string, bootAt: int, ulongMax: nat)
    ensures f.ToPacket(node, bootAt, ulongMax).Gap() == bootAt + f.transit + f.Lost(ulongMax)
  {
  }

  /** The computed delays do not depend on when the sensor booted. */
  lemma {:induction false} BootOffsetIndependence(fs: seq<Flight>, node: string, bootAt: int, ulongMax: nat)
    ensures Delays(Observed(fs, node, bootAt, ulongMax)) == Delays(Observed(fs, node, 0, ulongMax))
  {
    hide Delays;
    assert Observed(fs, node, bootAt, ulongMax) == Shifted(Observed(fs, node, 0, ulongMax), bootAt);
    OffsetCancels(Observed(fs, node, 0, ulongMax), bootAt);
  }

  /** All packets left between the same two overflows of `sent_ms`. */
  predicate SameWrap(fs: seq<Flight>, ulongMax: nat) {
    forall i :: 0 <= i < |fs| ==> fs[i].Wraps(ulongMax) == fs[0].Wraps(ulongMax)
  }

  /** Between two overflows of `sent_ms`, the computed delay is the extra transit time, up to the
      second that the sensor's clock hides. */
  lemma DelayIsExtraTransit(fs: seq<Flight>, node: string, bootAt: int, ulongMax: nat, i: nat)
    requires i < |fs| && SameWrap(fs, ulongMax)
    ensures -999 <= Delays(Observed(fs, node, bootAt, ulongMax))[i] - Delays(Transits(fs))[i] <= 999
  {
    hide Min, Delays;
    DelayAt(Observed(fs, node, bootAt, ulongMax), i);
    DelayAt(Transits(fs), i);
    var seen, real_ := Observed(fs, node, bootAt, ulongMax)[..i + 1], Transits(fs)[..i + 1];
    var base := bootAt + (ulongMax + 1) * fs[0].Wraps(ulongMax);
    forall j | 0 <= j <= i ensures base + real_[j] <= seen[j] <= base + real_[j] + 999 {
      GapOfFlight(fs[j], node, bootAt, ulongMax);
      LostIsPhaseAndWraps(fs[j], ulongMax);
    }
    var a :| 0 <= a < |seen| && seen[a] == Min(seen);
    var b :| 0 <= b < |real_| && real_[b] == Min(real_);
    assert Min(seen) <= seen[b] && Min(real_) <= real_[a];
  }

  /** All packets hide the same part of their uptime. */
  predicate SameLoss(us: seq<nat>, ulongMax: nat) {
    forall i :: 0 <= i < |us| ==> Flight(us[i], 0).Lost(ulongMax) == Flight(us[0], 0).Lost(ulongMax)
  }

  /** That is: they leave at the same fraction of a second, between the same two overflows. */
  lemma SameLossIff(us: seq<nat>, ulongMax: nat)
    requires ulongMax >= 999
    ensures SameLoss(us, ulongMax) <==>
            forall i :: 0 <= i < |us| ==> us[i] % 1000 == us[0] % 1000
                                          && Flight(us[i], 0).Wraps(ulongMax) == Flight(us[0], 0).Wraps(ulongMax)
  {
    forall i | 0 <= i < |us|
      ensures Flight(us[i], 0).Lost(ulongMax) == Flight(us[0], 0).Lost(ulongMax) <==>
              us[i] % 1000 == us[0] % 1000 && Flight(us[i], 0).Wraps(ulongMax) == Flight(us[0], 0).Wraps(ulongMax)
    {
      var f, g := Flight(us[i], 0), Flight(us[0], 0);
      LostIsPhaseAndWraps(f, ulongMax);
      LostIsPhaseAndWraps(g, ulongMax);
      PartsAreUnique(ulongMax + 1, f.Wraps(ulongMax), f.Phase(), g.Wraps(ulongMax), g.Phase());
    }
  }

  function Fly(us: seq<nat>, ts: seq<int>): (fs: seq<Flight>)
    requires |us| == |ts|
    ensures |fs| == |us| && forall i :: 0 <= i < |us| ==> fs[i] == Flight(us[i], ts[i])
  {
    seq(|us|, i requires 0 <= i < |us| => Flight(us[i], ts[i]))
  }

  /** The documented law: the delay is the extra transit time over the fastest packet so far. */
  ghost predicate DocumentedLaw(fs: seq<Flight>, ulongMax: nat) {
    Delays(Observed(fs, "", 0, ulongMax)) == Delays(Transits(fs))
  }

  /** The documented law holds for all transit times exactly when all packets hide the same part of
      their uptime from the cloud. */
  lemma {:induction false} DocumentedLawIff(us: seq<nat>, ulongMax: nat)
    ensures SameLoss(us, ulongMax) <==>
            forall ts: seq<int> :: |ts| == |us| && (forall i :: 0 <= i < |ts| ==> ts[i] >= 0) ==>
                                     DocumentedLaw(Fly(us, ts), ulongMax)
  {
    if SameLoss(us, ulongMax) {
      forall ts: seq<int> | |ts| == |us| && (forall i :: 0 <= i < |ts| ==> ts[i] >= 0)
        ensures DocumentedLaw(Fly(us, ts), ulongMax)
      {
        SameLossObeysLaw(us, ts, ulongMax);
      }
    } else {
      var k :| 0 <= k < |us| && Flight(us[k], 0).Lost(ulongMax) != Flight(us[0], 0).Lost(ulongMax);
      OtherLossBreaksLaw(us, k, ulongMax);
    }
  }

  lemma {:induction false} SameLossObeysLaw(us: seq<nat>, ts: seq<int>, ulongMax: nat)
    requires |ts| == |us| && SameLoss(us, ulongMax)
    ensures DocumentedLaw(Fly(us, ts), ulongMax)
  {
    hide Delays;
    var fs := Fly(us, ts);
    if us != [] {
      var lost := Flight(us[0], 0).Lost(ulongMax);
      forall i | 0 <= i < |fs| ensures Observed(fs, "", 0, ulongMax)[i] == Transits(fs)[i] + lost {
        GapOfFlight(fs[i], "", 0, ulongMax);
        assert fs[i].Lost(ulongMax) == Flight(us[i], 0).Lost(ulongMax);
      }
      assert Observed(fs, "", 0, ulongMax) == Shifted(Transits(fs), lost);
      OffsetCancels(Transits(fs), lost);
    }
  }

  /** The first packet flies at once and all later ones take their time: packet k gives it away. */
  function Telltale(n: nat, time: int): seq<int> { seq(n, i => if i == 0 then 0 else time) }

  lemma OtherLossBreaksLaw(us: seq<nat>, k: nat, ulongMax: nat)
    requires k < |us| && Flight(us[k], 0).Lost(ulongMax) != Flight(us[0], 0).Lost(ulongMax)
    ensures exists ts: seq<int> :: |ts| == |us| && (forall i :: 0 <= i < |ts| ==> ts[i] >= 0)
                                   && !DocumentedLaw(Fly(us, ts), ulongMax)
  {
    hide Min, Delays;
    var time := Flight(us[0], 0).Lost(ulongMax);
    var ts := Telltale(|us|, time);
    LostIsPhaseAndWraps(Flight(us[0], 0), ulongMax);
    var fs := Fly(us, ts);
    DelayAt(Observed(fs, "", 0, ulongMax), k);
    DelayAt(Transits(fs), k);
    var seen, real_ := Observed(fs, "", 0, ulongMax)[..k + 1], Transits(fs)[..k + 1];
    forall i | 0 <= i <= k ensures seen[i] == real_[i] + Flight(us[i], 0).Lost(ulongMax) && seen[i] >= seen[0] {
      GapOfFlight(fs[i], "", 0, ulongMax);
      GapOfFlight(fs[0], "", 0, ulongMax);
      LostIsPhaseAndWraps(Flight(us[i], 0), ulongMax);
    }
    MinIsUnique(seen, Min(seen), seen[0]);
    MinIsUnique(real_, Min(real_), real_[0]);
    assert Delays(Transits(fs))[k] == time;
    assert Delays(Observed(fs, "", 0, ulongMax))[k] == Flight(us[k], 0).Lost(ulongMax);
    assert !DocumentedLaw(fs, ulongMax);
  }

  /** Once `sent_ms` has overflowed, the node stays congested for the rest of its boot: whatever the
      later packets' transit times are, every packet that leaves after an overflow ends congested as long
      as one before it did not take almost a whole range of `sent_ms` to arrive. */
  lemma {:induction false} OverflowCongestsForGood(fs: seq<Flight>, i: nat, node: string, bootAt: int, ulongMax: nat)
    requires fs != [] && i < |fs| && fs[|fs| - 1].transit >= 0
    requires fs[i].Wraps(ulongMax) < fs[|fs| - 1].Wraps(ulongMax)
    requires fs[i].transit + 2999 <= ulongMax
    ensures Judge(LastFive(Delays(Observed(fs, node, bootAt, ulongMax)))).congested
  {
    hide Min, Delays, Judge;
    var n := |fs| - 1;
    var gaps := Observed(fs, node, bootAt, ulongMax);
    var window := LastFive(Delays(gaps));
    DelayAt(gaps, n);
    assert gaps[..n + 1] == gaps;
    GapOfFlight(fs[i], node, bootAt, ulongMax);
    GapOfFlight(fs[n], node, bootAt, ulongMax);
    LostIsPhaseAndWraps(fs[i], ulongMax);
    LostIsPhaseAndWraps(fs[n], ulongMax);
    MoreWraps(ulongMax + 1, fs[i].Wraps(ulongMax), fs[n].Wraps(ulongMax));
    assert Delays(gaps)[n] >= gaps[n] - gaps[i] > 2000;
    forall j | 0 <= j < |window| ensures window[j] >= 0 {
      DelayIsExcess(gaps, |gaps| - |window| + j);
    }
    assert window[|window| - 1] == Delays(gaps)[n];
    SumAtLeast(window[..|window| - 1], 0);
    CongestedIffSum(window);
  }

  lemma MoreWraps(m: nat, a: nat, b: nat)
    requires a < b
    ensures m * b >= m * a + m
  {
    assert m * b >= m * (a + 1);
  }

  /** None of these packets is delayed at all, and yet they end with a congested node. */
  predicate CongestsUndelayed(fs: seq<Flight>, ulongMax: nat) {
    && fs != []
    && (forall i :: 0 <= i < |fs| ==> fs[i].transit == 0)
    && Judge(LastFive(Delays(Observed(fs, "", 0, ulongMax)))).congested
  }

  /** The hidden second alone can raise the alarm: six packets, none delayed at all, of which only
      the first leaves on the full second, end with a congested node. */
  lemma QuantisationAloneCongests(ulongMax: nat)
    requires ulongMax >= 5900
    ensures exists fs: seq<Flight> :: |fs| == 6 && CongestsUndelayed(fs, ulongMax)
  {
    var fs := [Flight(0, 0), Flight(1900, 0), Flight(2900, 0), Flight(3900, 0), Flight(4900, 0), Flight(5900, 0)];
    hide Delays, LastFive, Judge, Observed;
    QuantisedGaps(fs, ulongMax);
    QuantisedDelays(Observed(fs, "", 0, ulongMax));
    assert CongestsUndelayed(fs, ulongMax);
  }

  lemma QuantisedGaps(fs: seq<Flight>, ulongMax: nat)
    requires fs == [Flight(0, 0), Flight(1900, 0), Flight(2900, 0), Flight(3900, 0), Flight(4900, 0), Flight(5900, 0)]
    requires ulongMax >= 5900
    ensures Observed(fs, "", 0, ulongMax) == [0, 900, 900, 900, 900, 900]
  {
    hide Flight.ToPacket, Packet.Gap;
    forall i | 0 <= i < 6 ensures Observed(fs, "", 0, ulongMax)[i] == fs[i].uptime % 1000 {
      QuantisedGap(fs[i], ulongMax);
    }
  }

  lemma QuantisedGap(f: Flight, ulongMax: nat)
    requires f.transit == 0 && f.uptime <= ulongMax
    ensures f.ToPacket("", 0, ulongMax).Gap() == f.uptime % 1000
  {
    hide Flight.Lost;
    GapOfFlight(f, "", 0, ulongMax);
    SmallIsKept(f, ulongMax);
  }

  lemma SmallIsKept(f: Flight, ulongMax: nat)
    requires f.ClockMs() <= ulongMax
    ensures f.Lost(ulongMax) == f.Phase()
  {
    hide Flight.ClockMs, Flight.Phase;
    SmallRemainder(f.ClockMs(), ulongMax + 1);
    ClockLosesPhase(f);
  }

  lemma ClockLosesPhase(f: Flight)
    ensures f.uptime - f.ClockMs() == f.Phase()
  {
  }

  lemma SmallRemainder(x: nat, m: nat)
    requires x < m
    ensures x % m == x
  {
  }

  lemma QuantisedDelays(gaps: seq<int>)
    requires gaps == [0, 900, 900, 900, 900, 900]
    ensures Judge(LastFive(Delays(gaps))).congested
  {
    hide Min, Delays;
    forall i | 1 <= i < 6 ensures Delays(gaps)[i] == 900 {
      DelayAt(gaps, i);
      var prefix := gaps[..i + 1];
      assert prefix[0] == 0;
      MinIsUnique(prefix, Min(prefix), 0);
    }
    var window := LastFive(Delays(gaps));
    SumAtLeast(window, 900);
    CongestedIffSum(window);
  }

  lemma {:induction false} SumAtLeast(xs: seq<int>, bound: int)
    requires forall i :: 0 <= i < |xs| ==> xs[i] >= bound
    ensures Sum(xs) >= bound * |xs|
  {
    if xs != [] {
      SumAtLeast(xs[..|xs| - 1], bound);
    }
  }
}
