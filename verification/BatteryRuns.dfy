/** What every run of commands keeps: the charge lock, the energy that pays for its switching,
    and the distance between rounded and exact accounting. */
module BatteryRuns {
  import opened Common
  import opened Battery
  import opened Text
  import H = Hysteresis

  datatype Command = Charge(delta: real) | Override(on: bool)

  function Obey(p: Pack, c: Command): Pack
    requires p.max > 0.0
    ensures Obey(p, c).max == p.max
  {
    match c
    case Charge(delta) => Adjust(p, delta)
    case Override(on) => p.(overriding := on)
  }

  function Run(p: Pack, cs: seq<Command>): (q: Pack)
    requires p.max > 0.0
    ensures q.max == p.max
  {
    if cs == [] then p else Obey(Run(p, cs[..|cs| - 1]), cs[|cs| - 1])
  }

  // ---------- the lock follows the charge ----------

  predicate Consistent(p: Pack) {
    && p.max > 0.0
    && 0.0 <= p.charge <= p.max
    && (p.charge >= 0.95 * p.max ==> p.locked)
    && (p.charge <= 0.75 * p.max ==> !p.locked)
  }

  /** Half full, unlocked, no override: the boot state of the deployed node. */
  function Boot(max: real): Pack { Pack(max, 0.5 * max, false, false) }

  lemma ObeyKeepsConsistent(p: Pack, c: Command)
    requires Consistent(p)
    ensures Consistent(Obey(p, c))
  {
    match c
    case Override(_) =>
    case Charge(delta) =>
      if !Refuses(p, delta) {
        SocThresholds(p.(charge := Clamp(0.0, p.max, p.charge + delta)));
      }
  }

  lemma {:induction false} RunKeepsConsistent(p: Pack, cs: seq<Command>)
    requires Consistent(p)
    ensures Consistent(Run(p, cs))
  {
    if cs != [] {
      RunKeepsConsistent(p, cs[..|cs| - 1]);
      ObeyKeepsConsistent(Run(p, cs[..|cs| - 1]), cs[|cs| - 1]);
    }
  }

  // ---------- what a command must do ----------

  /** A sum cut to the range of the pack. */
  function CutToRange(max: real, x: real): real { if x < 0.0 then 0.0 else if x > max then max else x }

  /** After any run, a command leaves the pack alone exactly when it charges while locked and not
      overridden. Every other command, in particular every discharge, is added to the charge, and the
      lock closes at 95 %, opens at 75 % and stays as it is in between. */
  lemma CommandEffect(p: Pack, cs: seq<Command>, d: real)
    requires p.max > 0.0
    ensures var before, after := Run(p, cs), Run(p, cs + [Charge(d)]);
            if d > 0.0 && before.locked && !before.overriding then after == before
            else && after.charge == CutToRange(p.max, before.charge + d)
                 && after.overriding == before.overriding
                 && after.locked == if after.charge >= 0.95 * p.max then true
                                    else if after.charge <= 0.75 * p.max then false
                                    else before.locked
  {
    hide Adjust;
    assert (cs + [Charge(d)])[..|cs|] == cs;
    AdjustEffect(Run(p, cs), d);
  }

  lemma AdjustEffect(p: Pack, d: real)
    requires p.max > 0.0
    ensures var q := Adjust(p, d);
            if d > 0.0 && p.locked && !p.overriding then q == p
            else && q.charge == CutToRange(p.max, p.charge + d) && q.overriding == p.overriding
                 && q.locked == if q.charge >= 0.95 * p.max then true
                                else if q.charge <= 0.75 * p.max then false
                                else p.locked
  {
    hide Soc;
    SocThresholds(p.(charge := CutToRange(p.max, p.charge + d)));
  }

  function LastOverride(cs: seq<Command>): bool {
    if cs == [] then false
    else if cs[|cs| - 1].Override? then cs[|cs| - 1].on
    else LastOverride(cs[..|cs| - 1])
  }

  lemma {:induction false} OverridingIsLastOverride(max: real, cs: seq<Command>)
    requires max > 0.0
    ensures Run(Boot(max), cs).overriding == LastOverride(cs)
  {
    if cs != [] {
      OverridingIsLastOverride(max, cs[..|cs| - 1]);
    }
  }

  function Charges(ds: seq<real>): (cs: seq<Command>)
    ensures |cs| == |ds| && forall i :: 0 <= i < |ds| ==> cs[i] == Charge(ds[i])
  {
    seq(|ds|, i requires 0 <= i < |ds| => Charge(ds[i]))
  }

  predicate AllDischarges(ds: seq<real>) { forall i :: 0 <= i < |ds| ==> ds[i] <= 0.0 }

  /** A locked pack takes every discharge, and it unlocks exactly when they add up to what lies between
      its charge and 75 %. */
  lemma {:induction false} DischargeUnlocksIff(p: Pack, ds: seq<real>)
    requires Consistent(p) && p.locked && AllDischarges(ds)
    ensures var q := Run(p, Charges(ds));
            && q.charge == CutToRange(p.max, p.charge + Sum(ds))
            && (!q.locked <==> Sum(ds) <= -(p.charge - 0.75 * p.max))
    ensures Sum(ds) <= 0.0
  {
    if ds != [] {
      var n := |ds| - 1;
      DischargeUnlocksIff(p, ds[..n]);
      assert Charges(ds)[..n] == Charges(ds[..n]);
      assert Charges(ds) == Charges(ds[..n]) + [Charge(ds[n])];
      CommandEffect(p, Charges(ds[..n]), ds[n]);
    }
  }

  // ---------- a bounded overshoot ----------

  predicate NoOverrideAndStepsAtMost(cs: seq<Command>, step: real) {
    forall i :: 0 <= i < |cs| ==> cs[i].Charge? && cs[i].delta <= step
  }

  /** Without the override, a writer whose single steps are bounded overshoots the lock threshold
      by less than one step, for ever. */
  lemma {:induction false} OverchargeBound(max: real, cs: seq<Command>, step: real)
    requires max > 0.0 && step >= 0.0 && NoOverrideAndStepsAtMost(cs, step)
    ensures Consistent(Run(Boot(max), cs)) && !Run(Boot(max), cs).overriding
    ensures Run(Boot(max), cs).charge < 0.95 * max + step
  {
    RunKeepsConsistent(Boot(max), cs);
    if cs != [] {
      var before := cs[..|cs| - 1];
      OverchargeBound(max, before, step);
      assert cs[|cs| - 1].delta <= step;
    }
  }

  // ---------- when the charge stays a number ----------

  datatype Request = Put(payload: string) | PutOverride(payload: string)

  function Serve(c: Cell, r: Request): (d: Cell)
    requires c.max > 0.0
    ensures d.max == c.max
  {
    match r
    case Put(payload) => PutCell(c, payload).0
    case PutOverride(payload) => OverrideResult(c, payload).0
  }

  function ServeAll(c: Cell, rs: seq<Request>): (d: Cell)
    requires c.max > 0.0
    ensures d.max == c.max
  {
    if rs == [] then c else Serve(ServeAll(c, rs[..|rs| - 1]), rs[|rs| - 1])
  }

  predicate ReadsNaN(r: Request) { r.Put? && r.payload != "" && DeltaOf(r.payload).NaN? }

  /** The charge is a number in range, and the lock obeys both thresholds. */
  predicate Sane(c: Cell) {
    c.charge.Finite? && Consistent(Pack(c.max, c.charge.value, c.locked, c.overriding))
  }

  lemma AdjustKeepsSane(c: Cell, delta: Float)
    requires Sane(c)
    ensures if delta.NaN? then AdjustCell(c, delta).charge.NaN? else Sane(AdjustCell(c, delta))
  {
    var p := Pack(c.max, c.charge.value, c.locked, c.overriding);
    match delta
    case NaN =>
    case Finite(d) =>
      AdjustCellOfNumber(p, d);
      ObeyKeepsConsistent(p, Charge(d));
    case Infinite(negative) =>
      if !RefusesCell(c, delta) {
        SocThresholds(p.(charge := if negative then 0.0 else c.max));
      }
  }

  lemma ServeKeepsSane(c: Cell, r: Request)
    requires Sane(c)
    ensures if ReadsNaN(r) then Serve(c, r).charge.NaN? else Sane(Serve(c, r))
  {
    hide AdjustCell, DeltaOf;
    if r.Put? && r.payload != "" {
      AdjustKeepsSane(c, DeltaOf(r.payload));
    }
  }

  /** Neither the charge nor the lock ever recovers. */
  lemma ServeKeepsNaN(c: Cell, r: Request)
    requires c.max > 0.0 && c.charge.NaN?
    ensures Serve(c, r).charge.NaN? && Serve(c, r).locked == c.locked
  {
    hide DeltaOf;
  }

  /** Whatever texts are PUT, overrides included, the charge is a number in range that the lock follows
      if and only if none of them reads as "nan", which no lock refuses. Otherwise the charge has
      ceased to be a number for good. */
  lemma {:induction false} RangeInvariantIff(max: real, rs: seq<Request>)
    requires max > 0.0
    ensures var c := ServeAll(CellOf(Boot(max)), rs);
            && (Sane(c) <==> forall i :: 0 <= i < |rs| ==> !ReadsNaN(rs[i]))
            && (!Sane(c) ==> c.charge.NaN?)
  {
    hide Serve, ReadsNaN, Sane;
    if rs == [] {
      BootIsSane(max);
    } else {
      var n := |rs| - 1;
      var c := ServeAll(CellOf(Boot(max)), rs[..n]);
      RangeInvariantIff(max, rs[..n]);
      NumbersOnly(c);
      if Sane(c) {
        ServeKeepsSane(c, rs[n]);
      } else {
        ServeKeepsNaN(c, rs[n]);
      }
      NumbersOnly(Serve(c, rs[n]));
      assert forall i :: 0 <= i < n ==> rs[..n][i] == rs[i];
    }
  }

  lemma BootIsSane(max: real)
    requires max > 0.0
    ensures Sane(CellOf(Boot(max)))
  {
  }

  lemma NumbersOnly(c: Cell)
    ensures Sane(c) ==> !c.charge.NaN?
  {
  }

  lemma NanIsRead()
    ensures ReadsNaN(Put("nan"))
  {
    hide Atof;
    AtofOfNan("nan");
    assert "nan"[..3] == "nan";
  }

  // ---------- the lock as a record of the past ----------

  /** Did the i-th command get as far as the lock update? */
  predicate Accepted(p: Pack, cs: seq<Command>, i: nat)
    requires p.max > 0.0 && i < |cs|
  {
    cs[i].Charge? && !Refuses(Run(p, cs[..i]), cs[i].delta)
  }

  /** The two threshold tests, made on the charge that each accepted command leaves. */
  function Signals(p: Pack, cs: seq<Command>): (ss: seq<H.Signal>)
    requires p.max > 0.0
    ensures |ss| == |cs|
  {
    seq(|cs|, i requires 0 <= i < |cs| =>
      var q := Run(p, cs[..i + 1]);
      H.Signal(Accepted(p, cs, i) && Soc(q) >= SOC_LOCK_THRESHOLD,
               Accepted(p, cs, i) && Soc(q) <= SOC_UNLOCK_THRESHOLD))
  }

  lemma {:induction false} LockIsSwitch(p: Pack, cs: seq<Command>)
    requires p.max > 0.0
    ensures H.Separated(Signals(p, cs))
    ensures Run(p, cs).locked == H.Run(p.locked, Signals(p, cs))
  {
    if cs != [] {
      var n := |cs| - 1;
      LockIsSwitch(p, cs[..n]);
      assert cs[..n + 1] == cs;
      var q := Run(p, cs);
      assert Signals(p, cs)[n] == H.Signal(Accepted(p, cs, n) && Soc(q) >= SOC_LOCK_THRESHOLD,
                                           Accepted(p, cs, n) && Soc(q) <= SOC_UNLOCK_THRESHOLD);
      assert Signals(p, cs)[..n] == Signals(p, cs[..n]) by {
        forall i | 0 <= i < n ensures Signals(p, cs)[i] == Signals(p, cs[..n])[i] {
          assert cs[..n][..i] == cs[..i] && cs[..n][..i + 1] == cs[..i + 1];
        }
      }
    }
  }

  /** Charging is locked exactly when some accepted command left the state of charge at 0.95 or
      more and every accepted command since has left it above 0.75. */
  lemma {:induction false} LockIsHistory(max: real, cs: seq<Command>)
    requires max > 0.0
    ensures var ss := Signals(Boot(max), cs);
            Run(Boot(max), cs).locked <==> exists i: nat :: H.RaisedAndHeld(ss, i)
  {
    LockIsSwitch(Boot(max), cs);
    H.PositionIsHistory(false, Signals(Boot(max), cs));
  }

  /** What a GET reports of the two flags, on any C compiler: the lock as the accepted commands have
      left it, and the last override. */
  lemma ReportTellsHistory(max: real, cs: seq<Command>, longMax: nat, junkMax: int, junkCharged: int)
    requires max > 0.0
    ensures var report := ReportOfCell(CellOf(Run(Boot(max), cs)), longMax, junkMax, junkCharged);
            && (report.locked <==> exists i: nat :: H.RaisedAndHeld(Signals(Boot(max), cs), i))
            && report.overriding == LastOverride(cs)
  {
    hide Printed, Signals;
    LockIsHistory(max, cs);
    OverridingIsLastOverride(max, cs);
  }

  // ---------- energy pays for switching ----------

  /** A run with its meters: how often the lock closed and opened, the energy that accepted
      commands asked to move, and the energy that really moved. */
  datatype Ledger = Ledger(pack: Pack, locks: nat, unlocks: nat,
                           charged: real, discharged: real, stored: real, drawn: real)

  function Plus(x: real): real { if x > 0.0 then x else 0.0 }

  /** The meters after the pack has become `q` by an accepted delta, 0.0 when nothing was accepted. */
  function Record(l: Ledger, q: Pack, delta: real): Ledger {
    Ledger(q,
           l.locks + (if q.locked && !l.pack.locked then 1 else 0),
           l.unlocks + (if l.pack.locked && !q.locked then 1 else 0),
           l.charged + Plus(delta), l.discharged + Plus(-delta),
           l.stored + Plus(q.charge - l.pack.charge), l.drawn + Plus(l.pack.charge - q.charge))
  }

  function Account(l: Ledger, c: Command): Ledger
    requires l.pack.max > 0.0
  {
    Record(l, Obey(l.pack, c), if c.Charge? && !Refuses(l.pack, c.delta) then c.delta else 0.0)
  }

  function Settle(max: real, cs: seq<Command>): (l: Ledger)
    requires max > 0.0
    ensures l.pack == Run(Boot(max), cs)
  {
    if cs == [] then Ledger(Boot(max), 0, 0, 0.0, 0.0, 0.0, 0.0)
    else Account(Settle(max, cs[..|cs| - 1]), cs[|cs| - 1])
  }

  /** n whole swings of a fifth of the capacity. */
  function Swings(max: real, n: nat): real { Times(0.20 * max, n) }

  /** How far the present charge has already come towards the next switching. */
  predicate Paid(l: Ledger) {
    var p := l.pack;
    var m := p.max;
    && l.locks == l.unlocks + (if p.locked then 1 else 0)
    && l.drawn <= l.discharged && l.stored <= l.charged
    && p.charge == 0.5 * m + l.stored - l.drawn
    && l.drawn >= Swings(m, l.unlocks) + (if p.locked then Plus(0.95 * m - p.charge) else 0.0)
    && (if p.locked then l.stored >= 0.45 * m + Swings(m, l.locks - 1)
        else if l.unlocks == 0 then l.stored >= p.charge - 0.5 * m
        else l.stored >= 0.45 * m + Swings(m, l.unlocks - 1) + Plus(p.charge - 0.75 * m))
  }

  /** What an accepted delta may do to the pack, said without division. */
  predicate Moves(p: Pack, q: Pack, delta: real) {
    && q.max == p.max
    && q.charge - p.charge <= Plus(delta) && p.charge - q.charge <= Plus(-delta)
    && (q.locked && !p.locked ==> q.charge >= 0.95 * p.max)
    && (p.locked && !q.locked ==> q.charge <= 0.75 * p.max)
  }

  lemma AdjustMoves(p: Pack, delta: real)
    requires Consistent(p) && !Refuses(p, delta)
    ensures Moves(p, Adjust(p, delta), delta)
  {
    SocThresholds(p.(charge := Clamp(0.0, p.max, p.charge + delta)));
  }

  lemma RecordKeepsPaid(l: Ledger, q: Pack, delta: real)
    requires Consistent(l.pack) && Paid(l) && Moves(l.pack, q, delta)
    ensures Paid(Record(l, q, delta))
  {
  }

  lemma AccountKeepsPaid(l: Ledger, c: Command)
    requires Consistent(l.pack) && Paid(l)
    ensures Paid(Account(l, c))
  {
    if c.Charge? && !Refuses(l.pack, c.delta) {
      AdjustMoves(l.pack, c.delta);
      RecordKeepsPaid(l, Obey(l.pack, c), c.delta);
    } else {
      RecordKeepsPaid(l, Obey(l.pack, c), 0.0);
    }
  }

  lemma {:induction false} SettleIsPaid(max: real, cs: seq<Command>)
    requires max > 0.0
    ensures Consistent(Run(Boot(max), cs)) && Paid(Settle(max, cs))
  {
    RunKeepsConsistent(Boot(max), cs);
    if cs != [] {
      SettleIsPaid(max, cs[..|cs| - 1]);
      AccountKeepsPaid(Settle(max, cs[..|cs| - 1]), cs[|cs| - 1]);
    }
  }

  lemma PaidInProducts(l: Ledger)
    requires l.pack.max > 0.0 && Consistent(l.pack) && Paid(l)
    ensures l.pack.charge == 0.5 * l.pack.max + l.stored - l.drawn
    ensures l.locks == l.unlocks + (if l.pack.locked then 1 else 0)
    ensures l.discharged >= l.drawn && l.charged >= l.stored
    ensures l.drawn >= 0.20 * l.pack.max * l.unlocks as real
    ensures l.locks >= 1 ==> l.stored >= 0.45 * l.pack.max + 0.20 * l.pack.max * (l.locks - 1) as real
  {
    hide Times, Consistent;
    var fifth := 0.20 * l.pack.max;
    TimesIsProduct(fifth, l.unlocks);
    if l.locks >= 1 {
      TimesIsProduct(fifth, l.locks - 1);
    }
  }

  /** Switching the lock costs energy, with or without the override: U unlockings need 20 % of the
      capacity each to have been drawn, L lockings 45 % and then 20 % each to have been stored; and
      what is in the pack is what it started with, plus stored, minus drawn. */
  lemma {:induction false} EnergyPaysForLockSwitching(max: real, cs: seq<Command>)
    requires max > 0.0
    ensures var l := Settle(max, cs);
            && l.pack.charge == 0.5 * max + l.stored - l.drawn
            && l.locks == l.unlocks + (if l.pack.locked then 1 else 0)
            && l.discharged >= l.drawn && l.drawn >= 0.20 * max * l.unlocks as real
            && l.charged >= l.stored
            && (l.locks >= 1 ==> l.stored >= 0.45 * max + 0.20 * max * (l.locks - 1) as real)
  {
    hide Settle, Consistent, Paid;
    SettleIsPaid(max, cs);
    PaidInProducts(Settle(max, cs));
  }

  // ---------- rounding drift ----------

  /** Add then clamp, the charge arithmetic of an accepted command. */
  function AddClamp(max: real, charge: real, delta: real): real {
    Clamp(0.0, max, charge + delta)
  }

  function AddAll(max: real, charge: real, ds: seq<real>): real {
    if ds == [] then charge else AddClamp(max, AddAll(max, charge, ds[..|ds| - 1]), ds[|ds| - 1])
  }

  /** Shift, then clamp to a window. */
  datatype Window = Window(shift: real, lo: real, hi: real) {
    function Apply(charge: real): real { Clamp(lo, hi, charge + shift) }
  }

  /** The window of a whole run of commands. */
  function Compose(max: real, ds: seq<real>): (w: Window)
    requires max >= 0.0
    ensures 0.0 <= w.lo <= w.hi <= max
  {
    if ds == [] then Window(0.0, 0.0, max) else
      var w := Compose(max, ds[..|ds| - 1]);
      var d := ds[|ds| - 1];
      Window(w.shift + d, AddClamp(max, w.lo, d), AddClamp(max, w.hi, d))
  }

  function Sum(ds: seq<real>): real {
    if ds == [] then 0.0 else Sum(ds[..|ds| - 1]) + ds[|ds| - 1]
  }

  /** Any run of accepted commands is one shift by the sum of its deltas and one clamp. */
  lemma {:induction false} RunIsOneAddThenClamp(max: real, charge: real, ds: seq<real>)
    requires 0.0 <= charge <= max
    ensures Compose(max, ds).shift == Sum(ds)
    ensures AddAll(max, charge, ds) == Compose(max, ds).Apply(charge)
  {
    if ds != [] {
      RunIsOneAddThenClamp(max, charge, ds[..|ds| - 1]);
    }
  }

  predicate Within(ds: seq<real>, es: seq<real>, eps: real) {
    && |ds| == |es|
    && forall i :: 0 <= i < |ds| ==> -eps <= ds[i] - es[i] <= eps
  }

  /** Clamping never widens a gap. */
  lemma {:induction false} DriftAddsUp(max: real, charge: real, ds: seq<real>, es: seq<real>, eps: real)
    requires max >= 0.0 && Within(ds, es, eps)
    ensures var gap := AddAll(max, charge, ds) - AddAll(max, charge, es);
            -Times(eps, |ds|) <= gap <= Times(eps, |ds|)
  {
    if ds != [] {
      var n := |ds| - 1;
      DriftAddsUp(max, charge, ds[..n], es[..n], eps);
      NonExpansive(max, AddAll(max, charge, ds[..n]), AddAll(max, charge, es[..n]), ds[n], es[n],
                   Times(eps, n), eps);
    }
  }

  /** After n commands that each differ by at most eps, the two charges differ by at most n * eps. */
  lemma DriftBound(max: real, charge: real, ds: seq<real>, es: seq<real>, eps: real)
    requires max >= 0.0 && Within(ds, es, eps)
    ensures var gap := AddAll(max, charge, ds) - AddAll(max, charge, es);
            -(eps * |ds| as real) <= gap <= eps * |ds| as real
  {
    hide AddAll, Within, Times;
    DriftAddsUp(max, charge, ds, es, eps);
    TimesIsProduct(eps, |ds|);
  }

  lemma NonExpansive(max: real, a: real, b: real, d: real, e: real, gap: real, eps: real)
    requires max >= 0.0 && -gap <= a - b <= gap && -eps <= d - e <= eps
    ensures -(gap + eps) <= AddClamp(max, a, d) - AddClamp(max, b, e) <= gap + eps
  {
  }

  /** The deltas a run accepts, in order. */
  function AcceptedDeltas(p: Pack, cs: seq<Command>): seq<real>
    requires p.max > 0.0
  {
    if cs == [] then [] else
      var n := |cs| - 1;
      var ds := AcceptedDeltas(p, cs[..n]);
      if Accepted(p, cs, n) then ds + [cs[n].delta] else ds
  }

  lemma {:induction false} ChargeIsAcceptedDeltas(p: Pack, cs: seq<Command>)
    requires p.max > 0.0
    ensures Run(p, cs).charge == AddAll(p.max, p.charge, AcceptedDeltas(p, cs))
  {
    if cs != [] {
      var n := |cs| - 1;
      ChargeIsAcceptedDeltas(p, cs[..n]);
      var ds := AcceptedDeltas(p, cs[..n]);
      if Accepted(p, cs, n) {
        assert (ds + [cs[n].delta])[..|ds|] == ds;
      }
    }
  }

  /** The firmware's charge after a run stays within n * eps of the charge that exact deltas,
      each within eps of the accepted one, would have given. */
  lemma {:induction false} FirmwareDriftBound(p: Pack, cs: seq<Command>, exact: seq<real>, eps: real)
    requires p.max > 0.0 && Within(AcceptedDeltas(p, cs), exact, eps)
    ensures var drift := Run(p, cs).charge - AddAll(p.max, p.charge, exact);
            -(eps * |exact| as real) <= drift <= eps * |exact| as real
  {
    hide Run, AcceptedDeltas, AddAll;
    ChargeIsAcceptedDeltas(p, cs);
    DriftBound(p.max, p.charge, AcceptedDeltas(p, cs), exact, eps);
  }
}
