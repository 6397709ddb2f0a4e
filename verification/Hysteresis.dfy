/** A two-threshold switch, as the charge lock, the diesel dispatch and the diesel node use it,
    and what its position says about the past. */
module Hysteresis {

  /** One sample: has the switching-on, or the switching-off, threshold been met? */
  datatype Signal = Signal(raise: bool, drop: bool)

  function Next(on: bool, s: Signal): bool {
    if !on && s.raise then true
    else if on && s.drop then false
    else on
  }

  function Run(on: bool, ss: seq<Signal>): bool {
    if ss == [] then on else Next(Run(on, ss[..|ss| - 1]), ss[|ss| - 1])
  }

  lemma RunAppend(on: bool, ss: seq<Signal>, s: Signal)
    ensures Run(on, ss + [s]) == Next(Run(on, ss), s)
    ensures Separated(ss) && !(s.raise && s.drop) ==> Separated(ss + [s])
  {
    assert (ss + [s])[..|ss|] == ss;
  }

  /** The two thresholds are never met by the same sample. */
  predicate Separated(ss: seq<Signal>) {
    forall i :: 0 <= i < |ss| ==> !(ss[i].raise && ss[i].drop)
  }

  predicate NoDropFrom(ss: seq<Signal>, i: nat) {
    forall j :: i <= j < |ss| ==> !ss[j].drop
  }

  ghost predicate RaisedAndHeld(ss: seq<Signal>, i: nat) {
    i < |ss| && ss[i].raise && NoDropFrom(ss, i + 1)
  }

  /** The switch is on exactly when some sample raised it and none since has dropped it, or it
      started on and nothing ever dropped it. */
  lemma {:induction false} PositionIsHistory(on: bool, ss: seq<Signal>)
    requires Separated(ss)
    ensures Run(on, ss) <==> (on && NoDropFrom(ss, 0)) || exists i: nat :: RaisedAndHeld(ss, i)
  {
    if ss != [] {
      var n := |ss| - 1;
      var before := ss[..n];
      PositionIsHistory(on, before);
      if ss[n].raise {
        assert RaisedAndHeld(ss, n);
      } else if !ss[n].drop {
        forall i: nat ensures RaisedAndHeld(before, i) <==> RaisedAndHeld(ss, i) {
          assert forall j :: i < j < n ==> before[j] == ss[j];
        }
        assert NoDropFrom(before, 0) <==> NoDropFrom(ss, 0) by {
          assert forall j :: 0 <= j < n ==> before[j] == ss[j];
        }
      } else {
        assert forall i: nat :: RaisedAndHeld(ss, i) ==> i == n;
      }
    }
  }
}
